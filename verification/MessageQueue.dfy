/**
  Message queues: a ring buffer with blocking and non-blocking senders and receivers, which
  behaves as a bounded first-in first-out queue under every interleaving.
 */
module MessageQueue {
  type Message = int

  datatype Outcome = Done(value: Message) | Refused | Slept

  datatype Step = Send(thread: nat, msg: Message, block: bool) | Receive(thread: nat, block: bool)

  /** The queued messages, oldest first, read around the end of the ring. */
  function Ring(ring: seq<Message>, first: int, used: int): (r: seq<Message>)
    requires 0 <= first < |ring| && 0 <= used <= |ring|
    ensures |r| == used
  {
    if first + used <= |ring| then ring[first..first + used] else ring[first..] + ring[..first + used - |ring|]
  }

  lemma RingSend(ring: seq<Message>, first: int, used: int, msg: Message)
    requires 0 <= first < |ring| && 0 <= used < |ring|
    ensures 0 <= (first + used) % |ring| < |ring|
    ensures Ring(ring[(first + used) % |ring| := msg], first, used + 1) == Ring(ring, first, used) + [msg]
  {
    Wrap(first + used, |ring|);
  }

  lemma RingReceive(ring: seq<Message>, first: int, used: int)
    requires 0 <= first < |ring| && 0 < used <= |ring|
    ensures 0 <= (first + 1) % |ring| < |ring|
    ensures Ring(ring, first, used)[0] == ring[first]
    ensures Ring(ring, (first + 1) % |ring|, used - 1) == Ring(ring, first, used)[1..]
  {
    Wrap(first + 1, |ring|);
  }

  lemma Wrap(x: int, n: int)
    requires n > 0 && 0 <= x < 2 * n
    ensures x % n == if x < n then x else x - n
  {
    if x >= n {
      assert x == 1 * n + (x - n);
    }
  }

  class Queue {
    var buffer: array<Message>
    var numMessages: int
    var firstIndex: int
    var numUsed: int
    var sending: set<nat>     // threads asleep until there is room
    var receiving: set<nat>   // threads asleep until there is a message

    ghost var sent: seq<Message>
    ghost var received: seq<Message>

    ghost function Contents(): seq<Message>
      reads this, buffer
    {
      if numMessages > 0 && buffer.Length >= numMessages && 0 <= firstIndex < numMessages && 0 <= numUsed <= numMessages
      then Ring(buffer[..numMessages], firstIndex, numUsed) else []
    }

    /** A queue made for no messages is always both full and empty; threads sleep only with cause. */
    ghost predicate Valid()
      reads this, buffer
    {
      && 0 <= numUsed
      && (numMessages <= 0 ==> numUsed == 0)
      && (numMessages > 0 ==> buffer.Length >= numMessages && 0 <= firstIndex < numMessages && numUsed <= numMessages)
      && (sending != {} ==> numUsed >= numMessages)
      && (receiving != {} ==> numUsed == 0)
      && sent == received + Contents()
    }

    constructor (buffer: array<Message>, msgCount: int)
      requires msgCount <= buffer.Length
      ensures Valid() && Contents() == [] && sent == [] && received == [] && numMessages == msgCount && this.buffer == buffer
      ensures sending == {} && receiving == {}
    {
      sending, receiving := {}, {};
      this.buffer := buffer;
      numMessages := msgCount;
      firstIndex := 0;
      numUsed := 0;
      sent, received := [], [];
    }

    /** One pass of the send loop: until the message is queued, refused, or the sender is asleep. */
    method SendPass(thread: nat, msg: Message, block: bool) returns (outcome: Outcome)
      requires Valid()
      modifies this, buffer
      ensures Valid() && numMessages == old(numMessages) && buffer == old(buffer) && received == old(received)
      ensures old(numUsed) < numMessages ==>
        && outcome == Done(msg) && Contents() == old(Contents()) + [msg] && sent == old(sent) + [msg]
        && receiving == {} && sending == old(sending)
      ensures old(numUsed) >= numMessages ==>
        && outcome == (if block then Slept else Refused)
        && buffer[..] == old(buffer[..]) && Contents() == old(Contents()) && sent == old(sent)
        && receiving == old(receiving) && sending == if block then old(sending) + {thread} else old(sending)
    {
      hide Ring;
      if numMessages <= numUsed {
        if !block {
          return Refused;
        }
        sending := sending + {thread};
        return Slept;
      }
      RingSend(buffer[..numMessages], firstIndex, numUsed, msg);
      var lastIndex := (firstIndex + numUsed) % numMessages;
      buffer[lastIndex] := msg;
      numUsed := numUsed + 1;
      receiving := {};
      sent := sent + [msg];
      assert buffer[..numMessages] == old(buffer[..numMessages])[lastIndex := msg];
      return Done(msg);
    }

    method ReceivePass(thread: nat, block: bool) returns (outcome: Outcome)
      requires Valid()
      modifies this
      ensures Valid() && numMessages == old(numMessages) && buffer == old(buffer) && sent == old(sent)
      ensures old(numUsed) > 0 ==>
        && |old(Contents())| > 0
        && outcome == Done(old(Contents())[0]) && Contents() == old(Contents())[1..]
        && received == old(received) + [old(Contents())[0]] && sending == {} && receiving == old(receiving)
      ensures old(numUsed) == 0 ==>
        && outcome == (if block then Slept else Refused)
        && Contents() == old(Contents()) && received == old(received)
        && sending == old(sending) && receiving == if block then old(receiving) + {thread} else old(receiving)
    {
      hide Ring;
      if numUsed == 0 {
        if !block {
          return Refused;
        }
        receiving := receiving + {thread};
        return Slept;
      }
      var msg := buffer[firstIndex];
      RingReceive(buffer[..numMessages], firstIndex, numUsed);
      firstIndex := (firstIndex + 1) % numMessages;
      numUsed := numUsed - 1;
      sending := {};
      received := received + [msg];
      return Done(msg);
    }

    /**
      Any interleaving of senders and receivers, asleep ones skipped: what has been received is
      what was sent, in order, up to the messages still queued.
     */
    method Run(steps: seq<Step>)
      requires Valid()
      modifies this, buffer
      ensures Valid() && numMessages == old(numMessages)
      ensures received <= sent && |sent| - |received| == numUsed
      ensures old(received) <= received && old(sent) <= sent
      ensures numMessages > 0 ==> 0 <= numUsed <= numMessages && 0 <= firstIndex < numMessages
    {
      for i := 0 to |steps|
        invariant Valid() && numMessages == old(numMessages) && buffer == old(buffer)
        invariant old(received) <= received && old(sent) <= sent
      {
        if steps[i].thread !in sending && steps[i].thread !in receiving {
          match steps[i]
          case Send(t, msg, block) => var _ := SendPass(t, msg, block);
          case Receive(t, block) => var _ := ReceivePass(t, block);
        }
      }
    }
  }
}
