/**
  Recursive mutexes: each thread threads the mutexes it owns on an intrusive doubly linked list.

  Bodies run with interrupts off, so threads interleave only where one goes to sleep. A sleeping
  thread is in the mutex's wait set until the mutex is released, which wakes all of it.
 */
module Mutexes {
  class Mutex {
    var thread: Thread?
    var count: int
    var next: Mutex?
    var prev: Mutex?
    var sleepers: set<Thread>   // the thread queue the mutex is waited for in

    constructor ()
      ensures thread == null && count == 0 && sleepers == {}
    {
      thread, count, next, prev, sleepers := null, 0, null, null, {};
    }
  }

  ghost predicate Linked(head: Mutex?, tail: Mutex?, nodes: seq<Mutex>)
    reads nodes
  {
    && (nodes == [] ==> head == null && tail == null)
    && (nodes != [] ==> head == nodes[0] && tail == nodes[|nodes| - 1]
                        && nodes[0].prev == null && nodes[|nodes| - 1].next == null)
    && (forall i :: 0 <= i < |nodes| - 1 ==> nodes[i].next == nodes[i + 1])
    && (forall i :: 1 <= i < |nodes| ==> nodes[i].prev == nodes[i - 1])
    && Distinct(nodes)
  }

  ghost predicate Distinct(nodes: seq<Mutex>) {
    forall i, k :: 0 <= i < k < |nodes| ==> nodes[i] != nodes[k]
  }

  /** A list without the item at position `k`. */
  function Without(nodes: seq<Mutex>, k: nat): seq<Mutex>
    requires k < |nodes|
  {
    nodes[..k] + nodes[k + 1..]
  }

  /** Taking one item out of a list keeps the others and adds none. */
  lemma WithoutOne(nodes: seq<Mutex>, k: nat)
    requires k < |nodes|
    ensures forall x :: x in Without(nodes, k) ==> x in nodes
    ensures forall x :: x in nodes && x != nodes[k] ==> x in Without(nodes, k)
  {
  }

  class Thread {
    var ownedHead: Mutex?
    var ownedTail: Mutex?
    var waitingFor: Mutex?
    ghost var owned: seq<Mutex>

    constructor ()
      ensures ownedHead == null && ownedTail == null && waitingFor == null && owned == []
    {
      ownedHead, ownedTail, waitingFor, owned := null, null, null, [];
    }

    ghost predicate ListOk()
      reads this, owned
    {
      Linked(ownedHead, ownedTail, owned)
    }

    method PushTail(m: Mutex)
      requires ListOk() && m !in owned
      modifies this`ownedHead, this`ownedTail, this`owned, m`next, m`prev, (set x | x in owned)`next
      ensures ListOk() && owned == old(owned) + [m]
    {
      var p := ownedTail;
      if p == null {
        ownedHead := m;
      } else {
        p.next := m;
      }
      m.prev := p;
      m.next := null;
      ownedTail := m;
      owned := owned + [m];
    }

    /** Unlink the item at position `k`, wherever it is in the list. */
    method PopItem(m: Mutex, ghost k: nat)
      requires ListOk() && k < |owned| && owned[k] == m
      modifies this`ownedHead, this`ownedTail, this`owned, (set x | x in owned)`next, (set x | x in owned)`prev
      ensures ListOk() && owned == Without(old(owned), k) && m !in owned
    {
      var n, p := m.next, m.prev;
      assert n == (if k + 1 < |owned| then owned[k + 1] else null);
      assert p == (if k > 0 then owned[k - 1] else null);
      if n == null {
        ownedTail := p;
      } else {
        n.prev := p;
      }
      if p == null {
        ownedHead := n;
      } else {
        p.next := n;
      }
      owned := owned[..k] + owned[k + 1..];
    }

    method PopHead() returns (m: Mutex)
      requires ListOk() && ownedHead != null
      modifies this`ownedHead, this`ownedTail, this`owned, (set x | x in owned)`prev
      ensures ListOk() && m == old(owned)[0] && owned == old(owned)[1..] && m !in owned
    {
      m := ownedHead;
      var n := m.next;
      assert n == (if |owned| > 1 then owned[1] else null);
      if n == null {
        ownedTail := null;
      } else {
        n.prev := null;
      }
      ownedHead := n;
      owned := owned[1..];
    }
  }

  /** All threads and mutexes of the system. */
  class Kernel {
    const threads: set<Thread>
    const mutexes: set<Mutex>

    constructor (threads: set<Thread>, mutexes: set<Mutex>)
      requires forall t :: t in threads ==> t.waitingFor == null && t.ownedHead == null && t.ownedTail == null && t.owned == []
      requires forall m :: m in mutexes ==> m.thread == null && m.count == 0 && m.sleepers == {}
      ensures Valid() && this.threads == threads && this.mutexes == mutexes
    {
      this.threads, this.mutexes := threads, mutexes;
    }

    /** A thread's list is well formed and holds exactly mutexes it owns. */
    ghost predicate ThreadOk(t: Thread)
      reads t, mutexes
    {
      && (forall m :: m in t.owned ==> m in mutexes && m.thread == t)
      && (t.waitingFor != null ==> t.waitingFor in mutexes)
      && t.ListOk()
    }

    /** Owned iff the count is positive, and then on its owner's list; nobody sleeps on a free mutex. */
    ghost predicate MutexOk(m: Mutex)
      reads m, threads
    {
      && (m.thread == null ==> m.count == 0 && m.sleepers == {})
      && (m.thread != null ==> m.count >= 1 && m.thread in threads && m in m.thread.owned)
      && (forall t :: t in m.sleepers ==> t in threads && t != m.thread && t.waitingFor == m)
    }

    ghost predicate Valid()
      reads this, threads, mutexes
    {
      && (forall t :: t in threads ==> ThreadOk(t))
      && (forall m :: m in mutexes ==> MutexOk(m))
    }

    predicate Asleep(t: Thread)
      reads t, t.waitingFor
    {
      t.waitingFor != null && t in t.waitingFor.sleepers
    }

    /** A mutex sits on no list but its owner's, and there once. */
    lemma OnOneList(m: Mutex, t: Thread, i: nat)
      requires Valid() && t in threads && m in mutexes && i < |t.owned| && t.owned[i] == m
      ensures m.thread == t && m.count >= 1
      ensures forall u, k :: u in threads && 0 <= k < |u.owned| && u.owned[k] == m ==> u == t && k == i
    {
      assert ThreadOk(t);
      forall u, k | u in threads && 0 <= k < |u.owned| && u.owned[k] == m
        ensures u == t && k == i
      {
        assert ThreadOk(u);
        assert u.owned[k] in u.owned;
      }
    }

    /** What no operation of thread `t` on mutex `m` touches. */
    twostate predicate OthersKept(t: Thread, m: Mutex)
      reads threads, mutexes
    {
      && (forall x :: x in mutexes && x != m ==> x.thread == old(x.thread) && x.count == old(x.count) && x.sleepers == old(x.sleepers))
      && (forall u :: u in threads && u != t ==> u.owned == old(u.owned) && u.waitingFor == old(u.waitingFor))
    }

    method Acquire(t: Thread, m: Mutex)
      requires Valid() && t in threads && m in mutexes && m.thread == null
      modifies t`ownedHead, t`ownedTail, t`owned, m, mutexes`next, mutexes`prev
      ensures Valid() && OthersKept(t, m) && m.thread == t && m.count == 1 && m.sleepers == {}
      ensures t.owned == old(t.owned) + [m] && t.waitingFor == old(t.waitingFor)
    {
      hide Linked, Distinct;
      assert ThreadOk(t) && MutexOk(m);
      m.thread := t;
      m.count := m.count + 1;
      t.PushTail(m);
      forall u | u in threads ensures ThreadOk(u) {
        assert old(ThreadOk(u));
      }
    }

    /**
      One pass of the lock loop: from the loop head until the mutex is granted or the thread is
      asleep. It is granted exactly when free or already the thread's own.
     */
    method LockPass(t: Thread, m: Mutex) returns (granted: bool)
      requires Valid() && t in threads && m in mutexes && !Asleep(t)
      requires t.waitingFor == null || t.waitingFor == m
      modifies t, m, mutexes`next, mutexes`prev
      ensures Valid() && OthersKept(t, m)
      ensures granted <==> old(m.thread) == null || old(m.thread) == t
      ensures granted ==> m.thread == t && m.count == old(m.count) + 1 && m.sleepers == old(m.sleepers) && t.waitingFor == null
      ensures t.owned == if old(m.thread) == null then old(t.owned) + [m] else old(t.owned)
      ensures !granted ==> m.thread == old(m.thread) && m.count == old(m.count)
                           && m.sleepers == old(m.sleepers) + {t} && t.waitingFor == m
    {
      hide Linked;
      Resume(t);
      if m.thread == null {
        Acquire(t, m);
        return true;
      } else if m.thread == t {
        Recurse(t, m);
        return true;
      } else {
        Sleep(t, m);
        return false;
      }
    }

    /** What follows waking up: the thread is no longer waiting. */
    method Resume(t: Thread)
      requires Valid() && t in threads && !Asleep(t)
      modifies t`waitingFor
      ensures Valid() && t.waitingFor == null
    {
      hide Linked;
      t.waitingFor := null;
      forall u | u in threads ensures ThreadOk(u) {
        assert old(ThreadOk(u));
      }
      forall m | m in mutexes ensures MutexOk(m) {
        assert old(MutexOk(m));
      }
    }

    method Recurse(t: Thread, m: Mutex)
      requires Valid() && t in threads && m in mutexes && m.thread == t
      modifies m`count
      ensures Valid() && m.count == old(m.count) + 1
    {
      assert MutexOk(m);
      m.count := m.count + 1;
      forall u | u in threads ensures ThreadOk(u) {
        assert old(ThreadOk(u));
      }
      forall x | x in mutexes ensures MutexOk(x) {
        assert old(MutexOk(x));
      }
    }

    method Sleep(t: Thread, m: Mutex)
      requires Valid() && t in threads && m in mutexes && m.thread != t && m.thread != null && t.waitingFor == null
      modifies t`waitingFor, m`sleepers
      ensures Valid() && t.waitingFor == m && m.sleepers == old(m.sleepers) + {t}
    {
      t.waitingFor := m;
      m.sleepers := m.sleepers + {t};
      forall u | u in threads ensures ThreadOk(u) {
        assert old(ThreadOk(u));
      }
      forall x | x in mutexes ensures MutexOk(x) {
        assert old(MutexOk(x));
      }
    }

    method TryLock(t: Thread, m: Mutex) returns (locked: bool)
      requires Valid() && t in threads && m in mutexes && t.waitingFor == null
      modifies t, m, mutexes`next, mutexes`prev
      ensures Valid() && OthersKept(t, m) && t.waitingFor == null && m.sleepers == old(m.sleepers)
      ensures locked <==> old(m.thread) == null || old(m.thread) == t
      ensures locked ==> m.thread == t && m.count == old(m.count) + 1
      ensures !locked ==> m.thread == old(m.thread) && m.count == old(m.count)
      ensures t.owned == if old(m.thread) == null then old(t.owned) + [m] else old(t.owned)
    {
      hide Linked;
      if m.thread == null {
        Acquire(t, m);
        locked := true;
      } else if m.thread == t {
        Recurse(t, m);
        locked := true;
      } else {
        locked := false;
      }
    }

    /** Undo one lock; the last one takes the mutex off the list and wakes its sleepers. */
    method Unlock(t: Thread, m: Mutex)
      requires Valid() && t in threads && m in mutexes && t.waitingFor == null
      modifies t, m, mutexes`next, mutexes`prev
      ensures Valid() && OthersKept(t, m) && t.waitingFor == null
      ensures old(m.thread) != t ==>
        m.thread == old(m.thread) && m.count == old(m.count) && m.sleepers == old(m.sleepers) && t.owned == old(t.owned)
      ensures old(m.thread) == t && old(m.count) > 1 ==>
        m.thread == t && m.count == old(m.count) - 1 && m.sleepers == old(m.sleepers) && t.owned == old(t.owned)
      ensures old(m.thread) == t && old(m.count) == 1 ==>
        && m.thread == null && m.count == 0 && m.sleepers == {}
        && exists k :: 0 <= k < |old(t.owned)| && old(t.owned)[k] == m
                       && t.owned == Without(old(t.owned), k)
    {
      assert MutexOk(m) && ThreadOk(t);
      if m.thread == t {
        if m.count - 1 == 0 {
          Release(t, m);
        } else {
          m.count := m.count - 1;
        }
      }
    }

    /** The count has come down to zero: off the list, free, and everyone asleep on it wakes. */
    method Release(t: Thread, m: Mutex)
      requires Valid() && t in threads && m in mutexes && m.thread == t
      modifies t`ownedHead, t`ownedTail, t`owned, m, mutexes`next, mutexes`prev
      ensures Valid() && OthersKept(t, m) && m.thread == null && m.count == 0 && m.sleepers == {}
      ensures exists k :: 0 <= k < |old(t.owned)| && old(t.owned)[k] == m
                          && t.owned == Without(old(t.owned), k)
    {
      hide Linked, Distinct, Without;
      assert MutexOk(m) && ThreadOk(t);
      ghost var k :| 0 <= k < |t.owned| && t.owned[k] == m;
      WithoutOne(t.owned, k);
      t.PopItem(m, k);
      m.count := 0;
      m.thread := null;
      m.sleepers := {};
      forall u | u in threads ensures ThreadOk(u) {
        assert old(ThreadOk(u));
      }
      forall x | x in mutexes ensures MutexOk(x) {
        assert old(MutexOk(x));
      }
    }

    /** Release everything a thread owns, however often it was locked; it may itself be waiting. */
    method UnlockAll(t: Thread)
      requires Valid() && t in threads
      modifies t, mutexes
      ensures Valid() && t.owned == [] && t.waitingFor == old(t.waitingFor)
      ensures forall m :: m in mutexes ==>
        if old(m.thread) == t then m.thread == null && m.count == 0 && m.sleepers == {}
        else m.thread == old(m.thread) && m.count == old(m.count) && m.sleepers == old(m.sleepers)
      ensures forall u :: u in threads && u != t ==> u.owned == old(u.owned) && u.waitingFor == old(u.waitingFor)
    {
      assert ThreadOk(t);
      while t.ownedHead != null
        invariant Valid() && t.waitingFor == old(t.waitingFor)
        invariant forall m :: m in mutexes && m.thread == t ==> old(m.thread) == t
        invariant forall m :: m in mutexes && m.thread != t ==>
          if old(m.thread) == t then m.thread == null && m.count == 0 && m.sleepers == {}
          else m.thread == old(m.thread) && m.count == old(m.count) && m.sleepers == old(m.sleepers)
        invariant forall u :: u in threads && u != t ==> u.owned == old(u.owned) && u.waitingFor == old(u.waitingFor)
        decreases |t.owned|
      {
        ReleaseHead(t);
      }
      assert ThreadOk(t);
      forall m | m in mutexes ensures m.thread != t {
        assert MutexOk(m);
      }
    }

    lemma HeadIsOwned(t: Thread)
      requires t.ListOk() && t.ownedHead != null
      ensures |t.owned| > 0
    {
    }

    method ReleaseHead(t: Thread)
      requires Valid() && t in threads && t.ownedHead != null
      modifies t, mutexes
      ensures Valid() && t.owned == old(t.owned)[1..] && |old(t.owned)| > 0 && t.waitingFor == old(t.waitingFor)
      ensures var m := old(t.owned)[0]; m in mutexes && m.thread == null && m.count == 0 && m.sleepers == {} && OthersKept(t, m)
    {
      hide Linked, Distinct;
      assert ThreadOk(t);
      HeadIsOwned(t);
      var m := t.PopHead();
      m.count := 0;
      m.thread := null;
      m.sleepers := {};
      forall u | u in threads ensures ThreadOk(u) {
        assert old(ThreadOk(u));
      }
      forall x | x in mutexes ensures MutexOk(x) {
        assert old(MutexOk(x));
      }
    }

    /**
      Any interleaving: each step lets one thread that is not asleep make one call, or resume the
      lock call it was woken in, or ends a thread, asleep or not. Every such run keeps the system valid.
     */
    method Run(steps: seq<Step>)
      requires Valid()
      requires forall i :: 0 <= i < |steps| ==> steps[i].t in threads && steps[i].m in mutexes
      modifies threads, mutexes
      ensures Valid()
    {
      for i := 0 to |steps|
        invariant Valid()
      {
        var t := steps[i].t;
        if steps[i].call == Exit {
          UnlockAll(t);
          continue;
        }
        if Asleep(t) {
          continue;
        }
        assert ThreadOk(t);
        if t.waitingFor != null {
          var _ := LockPass(t, t.waitingFor);
        } else {
          match steps[i].call
          case Lock => var _ := LockPass(t, steps[i].m);
          case TryLock => var _ := TryLock(t, steps[i].m);
          case Unlock => Unlock(t, steps[i].m);
        }
      }
    }
  }

  datatype Call = Lock | TryLock | Unlock | Exit

  datatype Step = Step(t: Thread, m: Mutex, call: Call)
}
