/**
  The pointer code of the ARAM request queue: linked requests, two queue heads with their tails,
  the requests in flight and the armed callbacks. Every routine is proved to refine the step of
  `ArqSpec` it implements; what those steps guarantee over whole runs is proved in `ArqRuns`.
 */
module ArqRequests {
  import opened ArqSpec
  import Runs = ArqRuns
  import Posts = ArqPosts
  import opened Common

  /** A caller-owned request; the scheduler overwrites source, dest and length as it chunks. */
  class Request {
    var next: Request?
    var kind: u32
    var source: u32
    var dest: u32
    var length: u32
    var callback: Callback

    constructor () {
      next, kind, source, dest, length, callback := null, 0, 0, 0, 0, Hack;
    }

    /** The words of a new post; a null callback becomes the do-nothing routine. */
    method Fill(a: Args, ghost job: Job)
      requires job == JobOf(Init, a).(id := job.id)
      modifies this
      ensures next == null && Holds(job)
    {
      next := null;
      kind, source, dest, length := a.kind, a.source, a.dest, a.length;
      if a.callback.Some? {
        callback := User(a.callback.value);
      } else {
        callback := Hack;
      }
    }

    ghost predicate Holds(job: Job)
      reads this
    {
      kind == job.kind && source == job.source && dest == job.dest && length == job.length && callback == job.callback
    }

    ghost predicate HoldsRest(job: Job, issued: nat)
      reads this
    {
      kind == job.kind && callback == job.callback && Rest(job, issued, source, dest, length)
    }
  }

  /** The words left in a low-priority request once `issued` of its chunks have been started. */
  ghost predicate Rest(job: Job, issued: nat, source: u32, dest: u32, length: u32) {
    && source == (job.source + issued * CHUNK) % U32
    && dest == (job.dest + issued * CHUNK) % U32
    && length == (job.length - issued * CHUNK) % U32
  }

  lemma RestNext(job: Job, issued: nat, source: u32, dest: u32, length: u32)
    requires Rest(job, issued, source, dest, length)
    ensures Rest(job, issued + 1, (source + CHUNK) % U32, (dest + CHUNK) % U32, (length - CHUNK) % U32)
  {
    ModAdd(job.source + issued * CHUNK, CHUNK);
    ModAdd(job.dest + issued * CHUNK, CHUNK);
    ModAdd(job.length - issued * CHUNK, -CHUNK);
  }

  /** The next chunk, read off those words. */
  lemma RestTile(job: Job, issued: nat, source: u32, dest: u32, length: u32)
    requires !job.high && issued < |Tiles(job)| && Rest(job, issued, source, dest, length)
    ensures issued + 1 == |Tiles(job)| <==> length <= CHUNK
    ensures Tiles(job)[issued] ==
      if job.kind == MRAM_TO_ARAM then Dma(job, job.kind, source, dest, Min(CHUNK, length))
      else Dma(job, job.kind, dest, source, Min(CHUNK, length))
  {
    TileAt(job, 0, issued);
  }

  /** `nodes` is the list that starts at `head`, linked through `next`, ending at `tail`. */
  ghost predicate Chain(head: Request?, tail: Request?, nodes: seq<Request>)
    reads nodes
  {
    && (head == null <==> nodes == [])
    && (nodes != [] ==> head == nodes[0] && tail == nodes[|nodes| - 1] && nodes[|nodes| - 1].next == null)
    && (forall i :: 0 <= i < |nodes| - 1 ==> nodes[i].next == nodes[i + 1])
    && Distinct(nodes)
  }

  ghost predicate Distinct(nodes: seq<Request>) {
    forall i, k :: 0 <= i < k < |nodes| ==> nodes[i] != nodes[k]
  }

  ghost predicate Disjoint(a: seq<Request>, b: seq<Request>) {
    forall r :: r in a ==> r !in b
  }

  lemma DisjointSymmetric(a: seq<Request>, b: seq<Request>)
    requires Disjoint(a, b)
    ensures Disjoint(b, a)
  {
  }

  lemma TakeHead(nodes: seq<Request>, others: seq<Request>)
    requires Distinct(nodes) && Disjoint(nodes, others) && nodes != []
    ensures Distinct(nodes[1..]) && Disjoint(nodes[1..], others) && Disjoint(others, nodes[1..])
    ensures nodes[0] !in nodes[1..] && nodes[0] !in others
  {
    assert nodes[0] in nodes;
  }

  ghost predicate AllHold(nodes: seq<Request>, jobs: seq<Job>, high: bool)
    reads nodes
  {
    |nodes| == |jobs| && forall i :: 0 <= i < |nodes| ==> nodes[i].Holds(jobs[i]) && jobs[i].high == high
  }

  /** A request on neither list may join the first; no request is on both. */
  lemma Joins(nodes: seq<Request>, others: seq<Request>, task: Request)
    requires Disjoint(nodes, others) && task !in others
    ensures Disjoint(nodes + [task], others) && Disjoint(others, nodes + [task])
    ensures forall r :: r in others ==> r !in nodes
  {
  }

  /** Hang a request on the end of a list; the links are all that is written. */
  method LinkTail(head: Request?, tail: Request?, task: Request, ghost nodes: seq<Request>, ghost jobs: seq<Job>, ghost job: Job)
    returns (newHead: Request)
    requires Chain(head, tail, nodes) && task !in nodes && task.next == null
    requires AllHold(nodes, jobs, job.high) && task.Holds(job)
    modifies (set r | r in nodes)`next
    ensures Chain(newHead, task, nodes + [task]) && newHead == (if head != null then head else task)
    ensures AllHold(nodes + [task], jobs + [job], job.high)
  {
    if head != null {
      assert tail in nodes;
      tail.next := task;
      newHead := head;
    } else {
      newHead := task;
    }
    ghost var grown := nodes + [task];
    forall i | 0 <= i < |grown| - 1 ensures grown[i].next == grown[i + 1] {
      assert i < |nodes| - 1 ==> nodes[i] != nodes[|nodes| - 1];
    }
    forall i | 0 <= i < |nodes| ensures nodes[i].Holds(jobs[i]) {
      assert old(nodes[i].Holds(jobs[i]));
    }
  }

  /** The head of a queue is its oldest job; the rest of the list holds the rest of the jobs. */
  lemma HeadOf(head: Request?, tail: Request?, nodes: seq<Request>, jobs: seq<Job>, high: bool)
    requires Chain(head, tail, nodes) && AllHold(nodes, jobs, high)
    ensures head == null <==> jobs == []
    ensures head != null ==> nodes != [] && head == nodes[0] && head.Holds(jobs[0]) && jobs[0].high == high
    ensures head != null ==> AllHold(nodes[1..], jobs[1..], high) && Distinct(nodes)
    ensures head == null <==> nodes == []
  {
  }

  lemma ChainTail(head: Request?, tail: Request?, nodes: seq<Request>)
    requires Chain(head, tail, nodes) && head != null
    ensures Chain(head.next, tail, nodes[1..])
  {
    if |nodes| > 1 {
      assert nodes[0].next == nodes[1];
    }
    TakeHead(nodes, []);
  }

  /** Tile `k` of a low-priority job starts at byte 4096k and is the last iff at most 4096 remain. */
  lemma {:induction false} TileAt(job: Job, off: nat, k: nat)
    requires off <= job.length && k < |ChunksFrom(job, off)|
    ensures var rest := job.length - off - k * CHUNK;
      && rest >= 0
      && ChunksFrom(job, off)[k] == Piece(job, off + k * CHUNK, Min(CHUNK, rest))
      && (k + 1 == |ChunksFrom(job, off)| <==> rest <= CHUNK)
    decreases k
  {
    if k > 0 {
      TileAt(job, off + CHUNK, k - 1);
    }
  }

  /** The one transfer of a high request, read off the request itself. */
  lemma HighTile(r: Request, job: Job)
    requires job.high && r.Holds(job)
    ensures r.callback == job.callback
    ensures Tiles(job)[..1] ==
      [if r.kind == MRAM_TO_ARAM then Dma(job, r.kind, r.source, r.dest, r.length)
       else Dma(job, r.kind, r.dest, r.source, r.length)]
  {
  }

  class Scheduler {
    var queueHi: Request?
    var tailHi: Request?
    var queueLo: Request?
    var tailLo: Request?
    var pendingHi: Request?
    var pendingLo: Request?
    var callbackHi: Option<Callback>
    var callbackLo: Option<Callback>
    var chunkSize: u32

    ghost var s: State
    ghost var hiNodes: seq<Request>
    ghost var loNodes: seq<Request>
    ghost var running: Request?     // the request whose callback is executing
    ghost var clients: set<Request> // every request ever posted

    ghost predicate Valid()
      reads this, clients
    {
      Queued() && Flying()
    }

    /** Two disjoint lists of known requests, holding the queued jobs. */
    ghost predicate Queued()
      reads this, clients
    {
      && (forall r :: r in hiNodes ==> r in clients) && (forall r :: r in loNodes ==> r in clients)
      && Chain(queueHi, tailHi, hiNodes) && AllHold(hiNodes, s.hi, true)
      && Chain(queueLo, tailLo, loNodes) && AllHold(loNodes, s.lo, false)
      && Disjoint(hiNodes, loNodes)
    }

    /** What is in flight, whose callback is armed, and what is left of a low request. */
    ghost predicate Flying()
      reads this, clients
    {
      && chunkSize == CHUNK
      && (pendingHi != null ==> pendingHi in clients)
      && (pendingLo != null ==> pendingLo in clients)
      && (pendingHi == null <==> s.pendHi.None?)
      && (pendingLo == null <==> s.pendLo.None?)
      && (pendingHi != null ==> pendingHi != pendingLo)
      && callbackHi == (if s.pendHi.Some? then Some(s.pendHi.value.callback) else None)
      && callbackLo == (if s.LastLoIssued() then Some(s.pendLo.value.callback) else None)
      && !(s.pendHi.Some? && s.LastLoIssued())
      && (s.pendLo.Some? ==> !s.pendLo.value.high && s.issued <= |Tiles(s.pendLo.value)|)
      && (pendingLo != null && pendingLo != running ==>
            pendingLo !in hiNodes && pendingLo !in loNodes && pendingLo.HoldsRest(s.pendLo.value, s.issued))
      && (running != null ==> s.Busy())
    }

    /** A request may be posted unless it is queued, or in flight and not the one calling back. */
    ghost predicate Free(task: Request)
      reads this
    {
      task !in hiNodes && task !in loNodes && (task == pendingHi || task == pendingLo ==> task == running)
    }

    constructor ()
      ensures Valid() && s == Init && running == null && clients == {}
      ensures Reached([])
    {
      queueHi, queueLo := null, null;
      tailHi, tailLo := null, null;
      chunkSize := CHUNK;
      pendingHi, pendingLo := null, null;
      callbackHi, callbackLo := None, None;
      s, hiNodes, loNodes, running, clients := Init, [], [], null, {};
    }

    // A transfer started on the DMA hardware is visible only as the event it leaves in `s.log`.

    method PopTaskQueueHi()
      requires Valid() && s.pendHi.None? && !s.LastLoIssued() && running == null
      modifies this
      ensures Valid() && s == PopHi(old(s)) && running == null
      ensures clients == old(clients)
    {
      hide Valid, Tiles, Request.Holds;
      HeadKnown();
      if queueHi != null {
        ghost var job := s.hi[0];
        ghost var dma: Event;
        HighTile(queueHi, job);
        if queueHi.kind == MRAM_TO_ARAM {
          dma := Dma(job, queueHi.kind, queueHi.source, queueHi.dest, queueHi.length);
        } else {
          dma := Dma(job, queueHi.kind, queueHi.dest, queueHi.source, queueHi.length);
        }
        TakeHi();
        Log(dma);
        assert [dma] == Tiles(job)[..1];
      }
    }

    /** The head of the high queue is the oldest high job. */
    lemma HeadKnown()
      requires Valid()
      ensures queueHi == null <==> s.hi == []
      ensures queueHi != null ==> queueHi.Holds(s.hi[0]) && s.hi[0].high
    {
      hide Tiles, Disjoint;
      HeadOf(queueHi, tailHi, hiNodes, s.hi, true);
    }

    ghost method Log(e: Event)
      requires Valid()
      modifies `s
      ensures Valid() && s == old(s).(log := old(s).log + [e])
    {
      hide Tiles, Chain, AllHold, Disjoint, Request.HoldsRest;
      s := s.(log := s.log + [e]);
    }

    /** Arm the callback of the oldest high request and move it from the queue into flight. */
    method TakeHi()
      requires Valid() && s.pendHi.None? && !s.LastLoIssued() && running == null && queueHi != null && s.hi != []
      modifies `callbackHi, `pendingHi, `queueHi, `hiNodes, `s
      ensures Valid() && s == old(s).(pendHi := Some(old(s).hi[0]), hi := old(s).hi[1..])
    {
      hide Tiles, Distinct, Disjoint, Chain, AllHold, Request.HoldsRest;
      HeadOf(queueHi, tailHi, hiNodes, s.hi, true);
      TakeHead(hiNodes, loNodes);
      ChainTail(queueHi, tailHi, hiNodes);
      callbackHi := Some(queueHi.callback);
      pendingHi := queueHi;
      queueHi := queueHi.next;
      s := s.(pendHi := Some(s.hi[0]), hi := s.hi[1..]);
      hiNodes := hiNodes[1..];
    }

    /** First half of `ServiceQueueLo`: with no low request in flight, take the next one. */
    method TakeNextLo()
      requires Valid() && running == null && s.pendHi.None?
      modifies this
      ensures Valid() && running == null && clients == old(clients)
      ensures s == if old(s).pendLo.None? && old(s).lo != []
                   then old(s).(pendLo := Some(old(s).lo[0]), lo := old(s).lo[1..], issued := 0) else old(s)
    {
      hide Tiles, Distinct, Disjoint, Chain, AllHold;
      HeadOf(queueLo, tailLo, loNodes, s.lo, false);
      if pendingLo == null && queueLo != null {
        DisjointSymmetric(hiNodes, loNodes);
        TakeHead(loNodes, hiNodes);
        ChainTail(queueLo, tailLo, loNodes);
        pendingLo := queueLo;
        queueLo := queueLo.next;
        s := s.(pendLo := Some(s.lo[0]), lo := s.lo[1..], issued := 0);
        loNodes := loNodes[1..];
      }
    }

    /** Second half: start the next chunk, arming the callback with the last, and advance. */
    method StartChunk()
      requires Valid() && running == null && !s.LastLoIssued()
      requires s.pendLo.Some? && s.pendHi.None?
      modifies this, pendingLo
      ensures Valid() && running == null && clients == old(clients)
      ensures s == old(s).(issued := old(s).issued + 1, log := old(s).log + [Tiles(old(s).pendLo.value)[old(s).issued]])
    {
      hide Tiles, Distinct, Disjoint, Chain, AllHold;
      ghost var job, k := s.pendLo.value, s.issued;
      ghost var dma: Event;
      RestTile(job, k, pendingLo.source, pendingLo.dest, pendingLo.length);
      RestNext(job, k, pendingLo.source, pendingLo.dest, pendingLo.length);
      if pendingLo.length <= chunkSize {
        if pendingLo.kind == MRAM_TO_ARAM {
          dma := Dma(job, pendingLo.kind, pendingLo.source, pendingLo.dest, pendingLo.length);
        } else {
          dma := Dma(job, pendingLo.kind, pendingLo.dest, pendingLo.source, pendingLo.length);
        }
        callbackLo := Some(pendingLo.callback);
      } else if pendingLo.kind == MRAM_TO_ARAM {
        dma := Dma(job, pendingLo.kind, pendingLo.source, pendingLo.dest, chunkSize);
      } else {
        dma := Dma(job, pendingLo.kind, pendingLo.dest, pendingLo.source, chunkSize);
      }
      pendingLo.length := (pendingLo.length - chunkSize) % U32;
      pendingLo.source := (pendingLo.source + chunkSize) % U32;
      pendingLo.dest := (pendingLo.dest + chunkSize) % U32;
      s := s.(issued := k + 1, log := s.log + [dma]);
    }

    method ServiceQueueLo()
      requires Valid() && s.pendHi.None? && !s.LastLoIssued() && running == null
      modifies this, clients
      ensures Valid() && s == ServiceLo(old(s)) && running == null
      ensures clients == old(clients)
    {
      hide Valid, Tiles;
      TakeNextLo();
      PendingKnown();
      if pendingLo != null {
        StartChunk();
      }
    }

    /** The pending pointers say what is in flight, and point to known requests. */
    lemma PendingKnown()
      requires Valid()
      ensures (pendingHi == null <==> s.pendHi.None?) && (pendingLo == null <==> s.pendLo.None?)
      ensures (pendingHi != null ==> pendingHi in clients) && (pendingLo != null ==> pendingLo in clients)
      ensures s.pendLo.Some? ==> s.issued <= |Tiles(s.pendLo.value)|
      ensures callbackHi == if s.pendHi.Some? then Some(s.pendHi.value.callback) else None
      ensures callbackLo == if s.LastLoIssued() then Some(s.pendLo.value.callback) else None
      ensures !(s.pendHi.Some? && s.LastLoIssued())
    {
      hide Tiles, Chain, AllHold, Disjoint;
    }

    /** The tail shared by `PostRequest` and the interrupt routine: a high request, else a low chunk. */
    method StartNext()
      requires Valid() && s.pendHi.None? && !s.LastLoIssued() && running == null
      modifies this, clients
      ensures Valid() && s == Dispatch(old(s)) && running == null
      ensures clients == old(clients)
    {
      hide Tiles, Chain, AllHold, Disjoint, ServiceLo;
      PopTaskQueueHi();
      if pendingHi == null {
        ServiceQueueLo();
      }
    }

    /** Link a filled-in request at the tail of the low-priority queue. */
    method LinkLo(task: Request, ghost a: Args)
      requires Valid() && Free(task) && a.priority == PRIORITY_LOW
      requires task.Holds(JobOf(s, a)) && task.next == null
      modifies this, clients, task
      ensures Valid() && s == Enqueue(old(s), a) && clients == old(clients) + {task}
      ensures running == old(running) && pendingHi == old(pendingHi) && pendingLo == old(pendingLo)
      ensures loNodes == old(loNodes) + [task] && hiNodes == old(hiNodes)
    {
      hide Tiles, Chain, AllHold, Disjoint, Request.Holds, Request.HoldsRest;
      DisjointSymmetric(hiNodes, loNodes);
      Joins(loNodes, hiNodes, task);
      queueLo := LinkTail(queueLo, tailLo, task, loNodes, s.lo, JobOf(s, a));
      tailLo := task;
      loNodes := loNodes + [task];
      clients := clients + {task};
      s := Enqueue(s, a);
    }

    /** Link a filled-in request at the tail of the high-priority queue. */
    method LinkHi(task: Request, ghost a: Args)
      requires Valid() && Free(task) && a.priority == PRIORITY_HIGH
      requires task.Holds(JobOf(s, a)) && task.next == null
      modifies this, clients, task
      ensures Valid() && s == Enqueue(old(s), a) && clients == old(clients) + {task}
      ensures running == old(running) && pendingHi == old(pendingHi) && pendingLo == old(pendingLo)
      ensures hiNodes == old(hiNodes) + [task] && loNodes == old(loNodes)
    {
      hide Tiles, Chain, AllHold, Disjoint, Request.Holds, Request.HoldsRest;
      Joins(hiNodes, loNodes, task);
      queueHi := LinkTail(queueHi, tailHi, task, hiNodes, s.hi, JobOf(s, a));
      tailHi := task;
      hiNodes := hiNodes + [task];
      clients := clients + {task};
      s := Enqueue(s, a);
    }

    method PostRequest(task: Request, a: Args)
      requires Valid() && Free(task)
      modifies this, clients, task
      ensures Valid() && s == Post(old(s), a)
      ensures running == old(running) && clients == old(clients) + {task}
      ensures old(s).Busy() ==>
        && pendingHi == old(pendingHi) && pendingLo == old(pendingLo)
        && forall r: Request :: r in hiNodes || r in loNodes ==> r == task || r in old(hiNodes) || r in old(loNodes)
    {
      hide Tiles, Distinct, Disjoint, Chain, AllHold, Dispatch;
      task.Fill(a, JobOf(s, a));
      if a.priority == PRIORITY_LOW {
        LinkLo(task, a);
      } else if a.priority == PRIORITY_HIGH {
        LinkHi(task, a);
      } else {
        clients := clients + {task};
      }
      if pendingHi == null && pendingLo == null {
        StartNext();
      }
    }

    /** The request whose callback the next interrupt runs. */
    ghost function FinishingRequest(): Request?
      reads this
    {
      if callbackHi.Some? then pendingHi else if callbackLo.Some? then pendingLo else null
    }

    /** The callback of the request now running: it posts `tasks[i]` with `posts[i]`, in order. */
    method Call(callback: Callback, ghost job: Job, tasks: seq<Request>, posts: seq<Args>)
      requires Valid() && s.Busy() && |tasks| == |posts|
      requires forall i :: 0 <= i < |tasks| ==> Free(tasks[i])
      requires Distinct(tasks)
      requires callback == job.callback
      modifies this, clients, tasks
      ensures Valid() && running == old(running)
      ensures s == PostAll(old(s).(log := old(s).log + [Fired(job, callback)]), Made(job, posts))
      ensures pendingHi == old(pendingHi) && pendingLo == old(pendingLo)
      ensures clients <= old(clients) + (set r: Request | r in tasks)
      ensures s.Busy()
    {
      hide Tiles, Disjoint;
      s := s.(log := s.log + [Fired(job, callback)]);
      ghost var fired := s;
      if callback.User? {
        for i := 0 to |tasks|
          invariant Valid() && s.Busy() && running == old(running)
          invariant s == PostAll(fired, posts[..i])
          invariant pendingHi == old(pendingHi) && pendingLo == old(pendingLo)
          invariant clients <= old(clients) + (set r: Request | r in tasks)
          invariant forall k :: i <= k < |tasks| ==> Free(tasks[k])
        {
          PostRequest(tasks[i], posts[i]);
          assert posts[..i + 1][..i] == posts[..i];
        }
        assert posts[..|tasks|] == posts;
      }
    }

    /** Whether a callback may post these requests: all different, each free or its own. */
    ghost predicate MayPost(tasks: seq<Request>)
      reads this
    {
      && Distinct(tasks)
      && forall i :: 0 <= i < |tasks| ==>
           Free(tasks[i]) || (tasks[i] == FinishingRequest() && tasks[i] !in hiNodes && tasks[i] !in loNodes)
    }

    /** First half of the interrupt routine: run the armed callback and retire its request. */
    method FinishPending(tasks: seq<Request>, posts: seq<Args>)
      requires Valid() && running == null && |tasks| == |posts| && MayPost(tasks)
      modifies this, clients, tasks
      ensures Valid() && running == null && s == CallBack(old(s), posts)
      ensures s.pendHi.None? && !s.LastLoIssued()
      ensures clients <= old(clients) + (set r: Request | r in tasks)
    {
      hide Valid, MayPost, Tiles, PostAll, Made;
      PendingKnown();
      if callbackHi.Some? {
        FinishHi(tasks, posts);
      } else if callbackLo.Some? {
        FinishLo(tasks, posts);
      }
    }

    method FinishHi(tasks: seq<Request>, posts: seq<Args>)
      requires Valid() && running == null && |tasks| == |posts| && MayPost(tasks) && callbackHi.Some? && s.pendHi.Some?
      modifies this, clients, tasks
      ensures Valid() && running == null && s == CallBack(old(s), posts)
      ensures s.pendHi.None? && !s.LastLoIssued()
      ensures clients <= old(clients) + (set r: Request | r in tasks)
    {
      hide Valid, Tiles, PostAll, Made, Distinct;
      PendingKnown();
      Enter(pendingHi);
      Call(callbackHi.value, s.pendHi.value, tasks, posts);
      PendingKnown();
      RetireHi();
    }

    /** A callback begins: its request is the one running. */
    method Enter(r: Request?)
      requires Valid() && s.Busy() && running == null
      modifies `running
      ensures Valid() && running == r
    {
      hide Tiles, Chain, AllHold, Disjoint;
      running := r;
    }

    method RetireHi()
      requires Valid() && s.pendHi.Some? && running == pendingHi
      modifies `running, `pendingHi, `callbackHi, `s
      ensures Valid() && running == null && s == old(s).(pendHi := None) && !s.LastLoIssued()
    {
      hide Tiles, Chain, AllHold, Disjoint, Request.HoldsRest;
      running := null;
      pendingHi := null;
      callbackHi := None;
      s := s.(pendHi := None);
    }

    method RetireLo()
      requires Valid() && s.pendHi.None? && s.pendLo.Some?
      modifies `running, `pendingLo, `callbackLo, `s
      ensures Valid() && running == null && s == old(s).(pendLo := None)
    {
      hide Tiles, Chain, AllHold, Disjoint, Request.HoldsRest;
      running := null;
      pendingLo := null;
      callbackLo := None;
      s := s.(pendLo := None);
    }

    method FinishLo(tasks: seq<Request>, posts: seq<Args>)
      requires Valid() && running == null && |tasks| == |posts| && MayPost(tasks) && callbackHi.None? && callbackLo.Some?
      modifies this, clients, tasks
      ensures Valid() && running == null && s == CallBack(old(s), posts)
      ensures s.pendHi.None? && !s.LastLoIssued()
      ensures clients <= old(clients) + (set r: Request | r in tasks)
    {
      hide Valid, Tiles, PostAll, Made, Distinct;
      PendingKnown();
      Enter(pendingLo);
      Call(callbackLo.value, s.pendLo.value, tasks, posts);
      PendingKnown();
      RetireLo();
    }

    /**
      The DMA-complete interrupt. `tasks` and `posts` are what the callback it runs, if any,
      posts; a callback may post its own request again.
     */
    method InterruptServiceRoutine(tasks: seq<Request>, posts: seq<Args>)
      requires Valid() && running == null && |tasks| == |posts| && MayPost(tasks)
      modifies this, clients, tasks
      ensures Valid() && running == null
      ensures s == Complete(old(s), posts)
      ensures clients <= old(clients) + (set r: Request | r in tasks)
    {
      FinishPending(tasks, posts);
      StartNext();
    }

    // ----- Runs of the pointer code -----

    /** The scheduler has been through the run `h` and stands between two of its steps. */
    ghost predicate Reached(h: seq<Step>)
      reads this, clients
    {
      Valid() && running == null && IsRun(h) && s == After(h)
    }

    method PostNext(task: Request, a: Args, ghost h: seq<Step>)
      requires Reached(h) && Free(task)
      modifies this, clients, task
      ensures Reached(h + [PostStep(a)]) && clients == old(clients) + {task}
    {
      hide Valid, Free, IsRun, After, Post;
      Runs.RunSnoc(h, PostStep(a));
      PostRequest(task, a);
    }

    method InterruptNext(tasks: seq<Request>, posts: seq<Args>, ghost h: seq<Step>)
      requires Reached(h) && s.Busy() && |tasks| == |posts| && MayPost(tasks)
      modifies this, clients, tasks
      ensures Reached(h + [CompleteStep(posts)]) && clients <= old(clients) + (set r: Request | r in tasks)
    {
      hide Valid, MayPost, IsRun, After, Complete;
      Runs.RunSnoc(h, CompleteStep(posts));
      InterruptServiceRoutine(tasks, posts);
    }

    /** What holds over runs of the specification holds of the heap the pointer code leaves. */
    lemma ReachedKeeps(h: seq<Step>)
      requires Reached(h)
      ensures Inv(s) && Runs.Started(s) == Runs.Completions(h) + Runs.InFlight(s)
      ensures forall high :: FiredOf(s.log, high) <= PostedOf(s.posted, high)
      ensures forall high :: DmasOf(s.log, high) <= AllTiles(PostedOf(s.posted, high))
      ensures forall i :: 0 <= i < |s.log| && s.log[i].Fired? ==>
        DmasFor(s.log[..i], s.log[i].job.id) == Tiles(s.log[i].job) == DmasFor(s.log, s.log[i].job.id)
    {
      hide Valid, IsRun, After, Inv, Runs.Started, Runs.Completions, Runs.InFlight, FiredOf, DmasOf, DmasFor, Tiles, AllTiles, PostedOf;
      Runs.RunKeepsInv(h);
      Runs.OneInFlight(h);
      forall high ensures FiredOf(s.log, high) <= PostedOf(s.posted, high) && DmasOf(s.log, high) <= AllTiles(PostedOf(s.posted, high)) {
        Runs.FiresInPostOrder(h, high);
        Runs.StartsInPostOrder(h, high);
      }
      forall i | 0 <= i < |s.log| && s.log[i].Fired?
        ensures DmasFor(s.log[..i], s.log[i].job.id) == Tiles(s.log[i].job) == DmasFor(s.log, s.log[i].job.id)
      {
        Runs.CallbackSeesItsTransfer(h, i);
      }
    }

    /** What the heap's log shows for the post whose callback fired is what that post asked for. */
    lemma ReachedMoves(h: seq<Step>, i: nat)
      requires Reached(h) && i < |s.log| && s.log[i].Fired?
      ensures var k := s.log[i].job.id;
        && k < |Posts.Accepted(h)|
        && var a, es := Posts.Accepted(h)[k], DmasFor(s.log, k);
        && s.log[i].callback == (match a.callback case Some(routine) => User(routine) case None => Hack)
        && (forall e :: e in es ==> e.Dma?)
        && Runs.MovedByAll(es) == seq(a.length, n requires 0 <= n =>
             if a.kind == 0 then Runs.Move((a.source + n) % 0x1_0000_0000, (a.dest + n) % 0x1_0000_0000)
             else Runs.Move((a.dest + n) % 0x1_0000_0000, (a.source + n) % 0x1_0000_0000))
    {
      hide Valid, IsRun, After, Posts.Accepted, DmasFor, Runs.MovedByAll;
      Posts.PostMoves(h, i);
    }

    /** As many new requests, none of them known to the scheduler. */
    method NewRequests(n: nat) returns (tasks: seq<Request>)
      ensures |tasks| == n && Distinct(tasks) && fresh(set r: Request | r in tasks)
    {
      tasks := [];
      for i := 0 to n
        invariant |tasks| == i && Distinct(tasks) && fresh(set r: Request | r in tasks)
      {
        var task := new Request();
        assert forall r :: r in tasks ==> r != task;
        tasks := tasks + [task];
      }
    }

    /** Every run of the specification is one of the pointer code, here with new requests for all posts. */
    method Run(steps: seq<Step>)
      requires Reached([]) && IsRun(steps)
      modifies this, clients
      ensures Reached(steps)
    {
      hide Valid, IsRun, After, MayPost, Free;
      assert steps[..0] == [];
      for i := 0 to |steps|
        invariant Reached(steps[..i]) && fresh(clients - old(clients))
      {
        var h := steps[..i];
        assert steps[..i + 1] == h + [steps[i]];
        Runs.RunPrefix(steps, i);
        match steps[i] {
          case PostStep(a) =>
            var tasks := NewRequests(1);
            UnknownIsFree(tasks);
            PostNext(tasks[0], a, h);
          case CompleteStep(posts) =>
            var tasks := NewRequests(|posts|);
            UnknownIsFree(tasks);
            InterruptNext(tasks, posts, h);
        }
      }
      assert steps[..|steps|] == steps;
    }

    lemma UnknownIsFree(tasks: seq<Request>)
      requires Valid() && Distinct(tasks) && forall r :: r in tasks ==> r !in clients
      ensures MayPost(tasks) && forall r :: r in tasks ==> Free(r)
    {
    }
  }
}
