/**
  What the scheduler of `ArqSpec` guarantees over every run of posts (also from inside callbacks)
  and DMA-complete interrupts.
 */
module ArqRuns {
  import opened ArqSpec
  import opened Common

  // ----- Reading a log one event longer -----

  lemma LogSnoc(log: seq<Event>, e: Event)
    ensures forall h :: FiredOf(log + [e], h) == if e.Fired? && e.job.high == h then FiredOf(log, h) + [e.job] else FiredOf(log, h)
    ensures forall h :: DmasOf(log + [e], h) == if e.Dma? && e.job.high == h then DmasOf(log, h) + [e] else DmasOf(log, h)
  {
    assert (log + [e])[..|log|] == log;
  }

  lemma PostedSnoc(posted: seq<Job>, j: Job)
    ensures forall h :: PostedOf(posted + [j], h) == if j.high == h then PostedOf(posted, h) + [j] else PostedOf(posted, h)
  {
    assert (posted + [j])[..|posted|] == posted;
  }

  lemma AllTilesSnoc(jobs: seq<Job>, j: Job)
    ensures AllTiles(jobs + [j]) == AllTiles(jobs) + Tiles(j)
  {
    assert (jobs + [j])[..|jobs|] == jobs;
  }

  lemma {:induction false} ChunksAreOwn(job: Job, off: nat)
    requires off <= job.length
    ensures forall e :: e in ChunksFrom(job, off) ==> e.Dma? && e.job == job
    decreases job.length - off
  {
    if job.length - off > CHUNK {
      ChunksAreOwn(job, off + CHUNK);
    }
  }

  lemma TilesAreOwn(job: Job)
    ensures forall e :: e in Tiles(job) ==> e.Dma? && e.job == job
  {
    ChunksAreOwn(job, 0);
  }

  lemma HighIsOneTile(job: Job)
    requires job.high
    ensures Tiles(job) == [Tiles(job)[0]]
  {
  }

  // ----- Jobs in a run are told apart by their number -----

  lemma {:induction false} PostedOfInOrder(posted: seq<Job>, high: bool)
    requires forall i :: 0 <= i < |posted| ==> posted[i].id == i
    ensures forall i :: 0 <= i < |PostedOf(posted, high)| ==>
      PostedOf(posted, high)[i] in posted && PostedOf(posted, high)[i].high == high
    ensures forall i, k :: 0 <= i < k < |PostedOf(posted, high)| ==>
      PostedOf(posted, high)[i].id < PostedOf(posted, high)[k].id
  {
    if posted != [] {
      PostedOfInOrder(posted[..|posted| - 1], high);
    }
  }

  // ----- The transfers of one job, picked out of all transfers -----

  lemma {:induction false} DmasForConcat(a: seq<Event>, b: seq<Event>, id: nat)
    ensures DmasFor(a + b, id) == DmasFor(a, id) + DmasFor(b, id)
  {
    if b == [] {
      assert a + b == a;
    } else {
      DmasForConcat(a, b[..|b| - 1], id);
      assert (a + b)[..|a + b| - 1] == a + b[..|b| - 1];
    }
  }

  lemma {:induction false} DmasForOwn(es: seq<Event>, job: Job, id: nat)
    requires forall e :: e in es ==> e.Dma? && e.job == job
    ensures DmasFor(es, id) == if job.id == id then es else []
  {
    if es != [] {
      DmasForOwn(es[..|es| - 1], job, id);
    }
  }

  /** The transfers for `id` among all jobs' tiles: the last job's, after those of the others. */
  lemma DmasForLast(jobs: seq<Job>, id: nat)
    requires jobs != []
    ensures var n := |jobs| - 1;
      DmasFor(AllTiles(jobs), id) == DmasFor(AllTiles(jobs[..n]), id) + if jobs[n].id == id then Tiles(jobs[n]) else []
  {
    hide *;
    var first, last := jobs[..|jobs| - 1], jobs[|jobs| - 1];
    assert jobs == first + [last];
    AllTilesSnoc(first, last);
    DmasForConcat(AllTiles(first), Tiles(last), id);
    TilesAreOwn(last);
    DmasForOwn(Tiles(last), last, id);
  }

  lemma {:induction false} DmasForNone(jobs: seq<Job>, id: nat)
    requires forall i :: 0 <= i < |jobs| ==> jobs[i].id != id
    ensures DmasFor(AllTiles(jobs), id) == []
  {
    if jobs != [] {
      hide Tiles, DmasFor;
      DmasForLast(jobs, id);
      DmasForNone(jobs[..|jobs| - 1], id);
    }
  }

  lemma {:induction false} DmasForAllTiles(jobs: seq<Job>, i: nat)
    requires i < |jobs| && forall k, l :: 0 <= k < l < |jobs| ==> jobs[k].id < jobs[l].id
    ensures DmasFor(AllTiles(jobs), jobs[i].id) == Tiles(jobs[i])
  {
    hide Tiles, DmasFor, AllTiles;
    var n, id := |jobs| - 1, jobs[i].id;
    DmasForLast(jobs, id);
    if i == n {
      DmasForNone(jobs[..n], id);
    } else {
      DmasForAllTiles(jobs[..n], i);
    }
  }

  lemma {:induction false} DmasForWithinPriority(log: seq<Event>, high: bool, id: nat)
    requires forall i :: 0 <= i < |log| && log[i].job.id == id ==> log[i].job.high == high
    ensures DmasFor(DmasOf(log, high), id) == DmasFor(log, id)
  {
    if log != [] {
      var n := |log| - 1;
      DmasForWithinPriority(log[..n], high, id);
      if log[n].Dma? && log[n].job.high == high {
        DmasForConcat(DmasOf(log[..n], high), [log[n]], id);
        assert DmasFor([log[n]], id) == if log[n].job.id == id then [log[n]] else [] by {
          DmasForOwn([log[n]], log[n].job, id);
        }
      }
    }
  }

  /** When a job has all its transfers started, the log holds exactly its tiles. */
  lemma TilesAtFinish(s: State, job: Job)
    requires InvCore(s) && Finishing(s) == Some(job)
    ensures DmasFor(s.log, job.id) == Tiles(job)
  {
    hide ChunksFrom, DmasFor, FiredOf, DmasOf, PostedOf, AllTiles;
    var h := s.pendHi.Some?;
    var fired := FiredOf(s.log, h);
    PostedOfInOrder(s.posted, h);
    var posted := PostedOf(s.posted, h);
    assert fired + [job] == posted[..|fired| + 1];
    assert posted[|fired|] == job;
    DmasForWithinPriority(s.log, h, job.id);
    AllTilesSnoc(fired, job);
    DmasForAllTiles(fired + [job], |fired|);
    assert (fired + [job])[|fired|] == job;
    if !h {
      assert Tiles(job)[..s.issued] == Tiles(job);
    }
  }

  // ----- Each part of a step keeps the invariant -----

  lemma EnqueueKeeps(s: State, a: Args)
    requires InvCore(s)
    ensures InvCore(Enqueue(s, a))
  {
    hide DmasFor, FiredOf, DmasOf, PostedOf, AllTiles, Tiles;
    var job := JobOf(s, a);
    var t := Enqueue(s, a);
    PostedSnoc(s.posted, job);
    assert Accounted(t) by {
      var hi, lo := Plus(FiredOf(s.log, true), s.pendHi), Plus(FiredOf(s.log, false), s.pendLo);
      assert hi + (s.hi + [job]) == hi + s.hi + [job] && lo + (s.lo + [job]) == lo + s.lo + [job];
    }
  }

  lemma PopHiKeeps(s: State)
    requires InvCore(s) && s.pendHi.None? && !s.LastLoIssued() && s.hi != []
    ensures InvCore(PopHi(s))
  {
    hide ChunksFrom, DmasFor, FiredOf, DmasOf, PostedOf, AllTiles, Tiles;
    var job, t := s.hi[0], PopHi(s);
    var fired := FiredOf(s.log, true);
    PostedOfInOrder(s.posted, true);
    assert PostedOf(s.posted, true)[|fired|] == job;
    TilesAreOwn(job);
    var e := Tiles(job)[0];
    HighIsOneTile(job);
    assert t.log == s.log + [e];
    LogSnoc(s.log, e);
    AllTilesSnoc(fired, job);
    FiredInOrderSnoc(s.log, e);
    assert fired + [job] + s.hi[1..] == fired + s.hi;
    assert Accounted(t) && Transferred(t);
  }

  lemma FiredInOrderSnoc(log: seq<Event>, e: Event)
    requires FiredInOrder(log)
    requires e.Fired? ==> e.callback == e.job.callback && DmasFor(log, e.job.id) == Tiles(e.job)
    ensures FiredInOrder(log + [e])
  {
    forall i | 0 <= i < |log + [e]| && (log + [e])[i].Fired?
      ensures (log + [e])[i].callback == (log + [e])[i].job.callback
      ensures DmasFor((log + [e])[..i], (log + [e])[i].job.id) == Tiles((log + [e])[i].job)
    {
      assert (log + [e])[..i] == log[..i];
      assert log[..|log|] == log;
    }
  }

  lemma ServiceLoKeeps(s: State)
    requires InvCore(s) && s.pendHi.None? && !s.LastLoIssued() && (s.pendLo.Some? || s.lo != [])
    ensures InvCore(ServiceLo(s)) && ServiceLo(s).pendLo.Some?
  {
    hide ChunksFrom, DmasFor, FiredOf, DmasOf, PostedOf, AllTiles, Tiles;
    var t := ServiceLo(s);
    var job := t.pendLo.value;
    var fired := FiredOf(s.log, false);
    PostedOfInOrder(s.posted, false);
    assert Accounted(t.(log := s.log)) by {
      assert fired + [job] + t.lo == Plus(fired, s.pendLo) + s.lo;
    }
    assert PostedOf(s.posted, false)[|fired|] == job;
    TilesAreOwn(job);
    var k := t.issued - 1;
    var e := Tiles(job)[k];
    assert t.log == s.log + [e];
    LogSnoc(s.log, e);
    FiredInOrderSnoc(s.log, e);
    assert Tiles(job)[..k + 1] == Tiles(job)[..k] + [e];
    assert s.pendLo.None? ==> Tiles(job)[..k] == [];
    assert AllTiles(fired) + Tiles(job)[..k] + [e] == AllTiles(fired) + Tiles(job)[..k + 1];
  }

  lemma DispatchKeeps(s: State)
    requires InvCore(s) && s.pendHi.None? && !s.LastLoIssued()
    ensures Inv(Dispatch(s))
  {
    if s.hi != [] {
      PopHiKeeps(s);
    } else if s.pendLo.Some? || s.lo != [] {
      ServiceLoKeeps(s);
    }
  }

  // ----- Posts made while a transfer is in flight only queue -----

  function EnqueueAll(s: State, posts: seq<Args>): State
    decreases |posts|
  {
    if posts == [] then s else Enqueue(EnqueueAll(s, posts[..|posts| - 1]), posts[|posts| - 1])
  }

  /** A post from inside a callback, or any post during a transfer, never starts one. */
  lemma {:induction false} BusyPostsOnlyQueue(s: State, posts: seq<Args>)
    requires s.Busy()
    ensures var t := PostAll(s, posts);
      && t == EnqueueAll(s, posts)
      && t.log == s.log && t.pendHi == s.pendHi && t.pendLo == s.pendLo && t.issued == s.issued
      && s.hi <= t.hi && s.lo <= t.lo && |t.hi| + |t.lo| <= |s.hi| + |s.lo| + |posts|
    decreases |posts|
  {
    if posts != [] {
      BusyPostsOnlyQueue(s, posts[..|posts| - 1]);
    }
  }

  lemma {:induction false} EnqueueAllCommutes(s: State, r: State, posts: seq<Args>)
    requires s.hi == r.hi && s.lo == r.lo && s.posted == r.posted
    ensures EnqueueAll(r, posts) ==
      var t := EnqueueAll(s, posts); r.(hi := t.hi, lo := t.lo, posted := t.posted)
    decreases |posts|
  {
    if posts != [] {
      EnqueueAllCommutes(s, r, posts[..|posts| - 1]);
    }
  }

  lemma {:induction false} EnqueueAllKeeps(s: State, posts: seq<Args>)
    requires InvCore(s)
    ensures InvCore(EnqueueAll(s, posts))
    decreases |posts|
  {
    if posts != [] {
      EnqueueAllKeeps(s, posts[..|posts| - 1]);
      EnqueueKeeps(EnqueueAll(s, posts[..|posts| - 1]), posts[|posts| - 1]);
    }
  }

  /** The state once the job in flight has fired, before its callback's posts. */
  function Finished(s: State): State {
    match Finishing(s)
    case None => s
    case Some(job) =>
      var t := s.(log := s.log + [Fired(job, job.callback)]);
      if s.pendHi.Some? then t.(pendHi := None) else t.(pendLo := None)
  }

  lemma FinishedKeeps(s: State)
    requires InvCore(s)
    ensures InvCore(Finished(s)) && Finished(s).pendHi.None? && !Finished(s).LastLoIssued()
  {
    hide ChunksFrom, DmasFor, FiredOf, DmasOf, PostedOf, AllTiles, Tiles;
    if Finishing(s).Some? {
      var job, t := Finishing(s).value, Finished(s);
      var e := Fired(job, job.callback);
      TilesAtFinish(s, job);
      LogSnoc(s.log, e);
      FiredInOrderSnoc(s.log, e);
      var h := s.pendHi.Some?;
      var fired, queue := FiredOf(s.log, h), if h then s.hi else s.lo;
      assert PostedOf(s.posted, h) == fired + [job] + queue;
      PostedOfInOrder(s.posted, h);
      assert PostedOf(s.posted, h)[|fired|] == job;
      AllTilesSnoc(fired, job);
      assert !h ==> Tiles(job)[..s.issued] == Tiles(job);
    }
  }

  lemma CompleteIsDispatch(s: State, posts: seq<Args>)
    requires s.Busy()
    ensures Complete(s, posts) ==
      Dispatch(EnqueueAll(Finished(s), if Finishing(s).Some? then Made(Finishing(s).value, posts) else []))
  {
    if Finishing(s).Some? {
      var job := Finishing(s).value;
      var t := s.(log := s.log + [Fired(job, job.callback)]);
      BusyPostsOnlyQueue(t, Made(job, posts));
      EnqueueAllCommutes(t, Finished(s), Made(job, posts));
    }
  }

  // ----- Safety of every run -----

  lemma PostKeeps(s: State, a: Args)
    requires Inv(s)
    ensures Inv(Post(s, a))
  {
    EnqueueKeeps(s, a);
    if !Enqueue(s, a).Busy() {
      DispatchKeeps(Enqueue(s, a));
    }
  }

  lemma CompleteKeeps(s: State, posts: seq<Args>)
    requires Inv(s) && s.Busy()
    ensures Inv(Complete(s, posts))
  {
    var made := if Finishing(s).Some? then Made(Finishing(s).value, posts) else [];
    FinishedKeeps(s);
    EnqueueAllKeeps(Finished(s), made);
    EnqueueAllOnlyQueues(Finished(s), made);
    CompleteIsDispatch(s, posts);
    DispatchKeeps(EnqueueAll(Finished(s), made));
  }

  lemma {:induction false} EnqueueAllOnlyQueues(s: State, posts: seq<Args>)
    ensures var t := EnqueueAll(s, posts); t.pendHi == s.pendHi && t.pendLo == s.pendLo && t.issued == s.issued && t.log == s.log
    decreases |posts|
  {
    if posts != [] {
      EnqueueAllOnlyQueues(s, posts[..|posts| - 1]);
    }
  }

  lemma RunSnoc(h: seq<Step>, step: Step)
    ensures IsRun(h + [step]) <==> IsRun(h) && Enabled(After(h), step)
    ensures After(h + [step]) == Apply(After(h), step)
  {
    assert (h + [step])[..|h|] == h;
  }

  lemma {:induction false} RunPrefix(steps: seq<Step>, i: nat)
    requires IsRun(steps) && i < |steps|
    ensures IsRun(steps[..i + 1]) && Enabled(After(steps[..i]), steps[i])
    decreases |steps|
  {
    hide Apply, Enabled, After;
    var n := |steps| - 1;
    if i < n {
      RunPrefix(steps[..n], i);
      assert steps[..n][..i + 1] == steps[..i + 1] && steps[..n][..i] == steps[..i];
    } else {
      assert steps[..i + 1] == steps;
    }
  }

  lemma {:induction false} RunKeepsInv(steps: seq<Step>)
    requires IsRun(steps)
    ensures Inv(After(steps))
  {
    if steps != [] {
      var before := steps[..|steps| - 1];
      RunKeepsInv(before);
      match steps[|steps| - 1]
      case PostStep(a) => PostKeeps(After(before), a);
      case CompleteStep(posts) => CompleteKeeps(After(before), posts);
    }
  }

  /** Jobs of one priority finish in the order they were posted, each at most once. */
  lemma FiresInPostOrder(steps: seq<Step>, high: bool)
    requires IsRun(steps)
    ensures var fired, posted := FiredOf(After(steps).log, high), PostedOf(After(steps).posted, high);
      && fired <= posted
      && (forall i, k :: 0 <= i < k < |fired| ==> fired[i].id < fired[k].id)
  {
    RunKeepsInv(steps);
    PostedOfInOrder(After(steps).posted, high);
  }

  /** Jobs of one priority also start in post order: what was started is a prefix of all their tiles. */
  lemma StartsInPostOrder(steps: seq<Step>, high: bool)
    requires IsRun(steps)
    ensures DmasOf(After(steps).log, high) <= AllTiles(PostedOf(After(steps).posted, high))
  {
    hide ChunksFrom, FiredOf, DmasOf, PostedOf, AllTiles, Tiles, After;
    RunKeepsInv(steps);
    var s := After(steps);
    var fired, posted := FiredOf(s.log, high), PostedOf(s.posted, high);
    var upTo := Plus(fired, if high then s.pendHi else s.pendLo);
    if !high && s.pendLo.Some? {
      AllTilesSnoc(fired, s.pendLo.value);
    }
    AllTilesPrefix(upTo, posted[|upTo|..]);
    assert upTo + posted[|upTo|..] == posted;
  }

  lemma {:induction false} AllTilesPrefix(a: seq<Job>, b: seq<Job>)
    ensures AllTiles(a) <= AllTiles(a + b)
    ensures |AllTiles(a + b)| == |AllTiles(a)| + |AllTiles(b)|
  {
    if b == [] {
      assert a + b == a;
    } else {
      hide *;
      var b', last := b[..|b| - 1], b[|b| - 1];
      assert b == b' + [last] && a + b == (a + b') + [last];
      AllTilesPrefix(a, b');
      AllTilesSnoc(a + b', last);
      AllTilesSnoc(b', last);
      assert AllTiles(a) <= AllTiles(a + b') <= AllTiles(a + b') + Tiles(last);
    }
  }

  /**
    A callback fires once, with the routine it was posted with, when exactly its own job's tiles
    have been started; none is started for the job afterwards.
   */
  lemma CallbackSeesItsTransfer(steps: seq<Step>, i: nat)
    requires IsRun(steps) && i < |After(steps).log| && After(steps).log[i].Fired?
    ensures var s := After(steps); var e := s.log[i];
      && e.job.id < |s.posted| && e.job == s.posted[e.job.id] && e.callback == e.job.callback
      && DmasFor(s.log[..i], e.job.id) == Tiles(e.job) == DmasFor(s.log, e.job.id)
      && forall k :: 0 <= k < |s.log| && s.log[k].Fired? && k != i ==> s.log[k].job.id != e.job.id
  {
    hide ChunksFrom, DmasFor, DmasOf, PostedOf, FiredOf, AllTiles, Tiles, After, IsRun;
    RunKeepsInv(steps);
    var s := After(steps);
    var job := s.log[i].job;
    var h := job.high;
    var fired := FiredOf(s.log, h);
    PostedOfInOrder(s.posted, h);
    FiredPositions(s.log, h, i);
    var p :| 0 <= p < |fired| && fired[p] == job;
    assert forall i :: 0 <= i < |fired| ==> fired[i] == PostedOf(s.posted, h)[i];
    DmasForWithinPriority(s.log, h, job.id);
    DmasForStarted(s, h, job, p);
    forall k | 0 <= k < |s.log| && s.log[k].Fired? && k != i
      ensures s.log[k].job.id != job.id
    {
      if s.log[k].job.id == job.id {
        FiredTwice(s.log, h, if i < k then i else k, if i < k then k else i);
        assert false;
      }
    }
  }

  lemma {:induction false} FiredPositions(log: seq<Event>, high: bool, i: nat)
    requires i < |log| && log[i].Fired? && log[i].job.high == high
    ensures log[i].job in FiredOf(log, high)
  {
    if i < |log| - 1 {
      FiredPositions(log[..|log| - 1], high, i);
    }
  }

  lemma {:induction false} FiredTwice(log: seq<Event>, high: bool, i: nat, k: nat)
    requires i < k < |log| && log[i].Fired? && log[k].Fired? && log[i].job == log[k].job && log[i].job.high == high
    ensures var f := FiredOf(log, high); exists a, b :: 0 <= a < b < |f| && f[a] == f[b]
  {
    var n := |log| - 1;
    if k < n {
      FiredTwice(log[..n], high, i, k);
      var f := FiredOf(log[..n], high);
      var a, b :| 0 <= a < b < |f| && f[a] == f[b];
      assert FiredOf(log, high)[a] == FiredOf(log, high)[b];
    } else {
      FiredPositions(log[..n], high, i);
      var f := FiredOf(log[..n], high);
      var a :| 0 <= a < |f| && f[a] == log[i].job;
      assert FiredOf(log, high) == f + [log[k].job];
      assert (f + [log[k].job])[a] == (f + [log[k].job])[|f|];
    }
  }

  lemma DmasForStarted(s: State, high: bool, job: Job, p: nat)
    requires InvCore(s) && p < |FiredOf(s.log, high)| && FiredOf(s.log, high)[p] == job
    ensures DmasFor(DmasOf(s.log, high), job.id) == Tiles(job)
  {
    hide ChunksFrom, DmasFor, FiredOf, DmasOf, PostedOf, AllTiles, Tiles;
    var fired := FiredOf(s.log, high);
    PostedOfInOrder(s.posted, high);
    var upTo := Plus(fired, if high then s.pendHi else s.pendLo);
    assert forall i :: 0 <= i < |upTo| ==> upTo[i] == PostedOf(s.posted, high)[i];
    assert forall i :: 0 <= i < |fired| ==> fired[i] == PostedOf(s.posted, high)[i];
    DmasForAllTiles(fired, p);
    if high {
      DmasForAllTiles(upTo, p);
      assert upTo[p] == job;
    } else if s.pendLo.Some? {
      var last := s.pendLo.value;
      TilesAreOwn(last);
      assert PostedOf(s.posted, false)[|fired|] == last;
      DmasForConcat(AllTiles(fired), Tiles(last)[..s.issued], job.id);
      DmasForOwn(Tiles(last)[..s.issued], last, job.id);
      assert Tiles(job) + [] == Tiles(job);
    }
  }

  // ----- What the tiles of one job move -----

  datatype Move = Move(mainMem: u32, aram: u32)

  function MovedBy(e: Event): seq<Move>
    requires e.Dma?
  {
    seq(e.length, i requires 0 <= i => Move((e.mainMem + i) % U32, (e.aram + i) % U32))
  }

  function MovedByAll(es: seq<Event>): seq<Move>
    requires forall e :: e in es ==> e.Dma?
  {
    if es == [] then [] else MovedBy(es[0]) + MovedByAll(es[1..])
  }

  /** Byte `i` of the job, as the two addresses it is copied between. */
  function ByteOf(job: Job, i: nat): Move {
    var s, d := (job.source + i) % U32, (job.dest + i) % U32;
    if job.kind == MRAM_TO_ARAM then Move(s, d) else Move(d, s)
  }

  lemma PieceAddresses(job: Job, off: nat, n: u32)
    ensures var e := Piece(job, off, n);
      e.Dma? && e.length == n && Move(e.mainMem, e.aram) == ByteOf(job, off)
  {
  }

  lemma PieceMoves(job: Job, off: nat, n: u32)
    ensures MovedBy(Piece(job, off, n)) == seq(n, i requires 0 <= i => ByteOf(job, off + i))
  {
    hide Piece;
    var e := Piece(job, off, n);
    PieceAddresses(job, off, n);
    forall i | 0 <= i < n
      ensures MovedBy(e)[i] == ByteOf(job, off + i)
    {
      ModAdd(job.source + off, i);
      ModAdd(job.dest + off, i);
    }
  }

  lemma {:induction false} ChunksMove(job: Job, off: nat)
    requires off <= job.length
    ensures var es := ChunksFrom(job, off);
      && (forall e :: e in es ==> e.Dma? && e.kind == job.kind && e.length <= CHUNK)
      && MovedByAll(es) == seq(job.length - off, i requires 0 <= i => ByteOf(job, off + i))
      && |es| == if job.length == off then 1 else (job.length - off + CHUNK - 1) / CHUNK
    decreases job.length - off
  {
    var n := Min(CHUNK, job.length - off);
    var es := ChunksFrom(job, off);
    var e := Piece(job, off, n);
    PieceMoves(job, off, n);
    if job.length - off > CHUNK {
      var rest := ChunksFrom(job, off + CHUNK);
      ChunksMove(job, off + CHUNK);
      assert es == [e] + rest && es[1..] == rest;
      assert MovedByAll(es) == MovedBy(e) + MovedByAll(rest);
      assert (job.length - off + CHUNK - 1) / CHUNK == 1 + (job.length - (off + CHUNK) + CHUNK - 1) / CHUNK;
    } else {
      assert es == [e] && es[1..] == [];
      assert MovedByAll(es) == MovedBy(e) + [];
    }
  }

  /**
    The transfers of a job copy each of its `length` bytes exactly once and in order; a
    high-priority job takes one transfer, a low-priority one max(1, ceil(length / 4096)).
   */
  lemma TilesMoveTheRange(job: Job)
    ensures forall e :: e in Tiles(job) ==> e.Dma? && e.kind == job.kind && (job.high || e.length <= CHUNK)
    ensures MovedByAll(Tiles(job)) == seq(job.length, i requires 0 <= i => ByteOf(job, i))
    ensures |Tiles(job)| == if job.high || job.length == 0 then 1 else (job.length + CHUNK - 1) / CHUNK
  {
    if job.high {
      PieceMoves(job, 0, job.length);
      assert Tiles(job)[1..] == [];
    } else {
      ChunksMove(job, 0);
    }
  }

  // ----- One transfer at a time, and progress -----

  function Completions(steps: seq<Step>): nat {
    if steps == [] then 0
    else Completions(steps[..|steps| - 1]) + if steps[|steps| - 1].CompleteStep? then 1 else 0
  }

  /** Transfers that queued and unfinished jobs still have to start. */
  function NotStarted(s: State): int {
    |AllTiles(s.hi)| + |AllTiles(s.lo)| + if s.pendLo.Some? then |Tiles(s.pendLo.value)| - s.issued else 0
  }

  function InFlight(s: State): nat { if s.Busy() then 1 else 0 }

  function Started(s: State): nat { |DmasOf(s.log, true)| + |DmasOf(s.log, false)| }

  /** Completion interrupts until the controller is idle, if nothing more is posted. */
  function Outstanding(s: State): int { NotStarted(s) + InFlight(s) }

  lemma AllTilesHead(jobs: seq<Job>)
    requires jobs != []
    ensures |AllTiles(jobs)| == |Tiles(jobs[0])| + |AllTiles(jobs[1..])|
  {
    AllTilesPrefix([jobs[0]], jobs[1..]);
    assert [jobs[0]] + jobs[1..] == jobs;
    AllTilesSnoc([], jobs[0]);
    assert [] + [jobs[0]] == [jobs[0]];
  }

  lemma NoTiles()
    ensures AllTiles([]) == []
  {
  }

  lemma PopHiStartsOne(s: State)
    requires InvCore(s) && s.pendHi.None? && s.hi != []
    ensures var t := PopHi(s);
      && t.pendHi == Some(s.hi[0])
      && NotStarted(t) == NotStarted(s) - 1
      && Started(t) == Started(s) + 1
      && DmasOf(t.log, false) == DmasOf(s.log, false)
  {
    hide DmasFor, FiredOf, DmasOf, PostedOf, AllTiles, Tiles, FiredInOrder;
    var job := s.hi[0];
    PostedOfInOrder(s.posted, true);
    assert PostedOf(s.posted, true)[|FiredOf(s.log, true)|] == job;
    AllTilesHead(s.hi);
    HighIsOneTile(job);
    TilesAreOwn(job);
    assert Tiles(job)[..1] == [Tiles(job)[0]];
    LogSnoc(s.log, Tiles(job)[0]);
  }

  lemma ServiceLoStartsOne(s: State)
    requires InvCore(s) && s.pendHi.None? && !s.LastLoIssued() && (s.pendLo.Some? || s.lo != [])
    ensures var t := ServiceLo(s);
      && t.pendLo.Some?
      && NotStarted(t) == NotStarted(s) - 1
      && Started(t) == Started(s) + 1
      && DmasOf(t.log, true) == DmasOf(s.log, true)
  {
    hide DmasFor, FiredOf, DmasOf, PostedOf, AllTiles, Tiles, FiredInOrder;
    var t := ServiceLo(s);
    var job := t.pendLo.value;
    if s.pendLo.None? { AllTilesHead(s.lo); }
    PostedOfInOrder(s.posted, false);
    assert PostedOf(s.posted, false)[|FiredOf(s.log, false)|] == job;
    TilesAreOwn(job);
    LogSnoc(s.log, Tiles(job)[t.issued - 1]);
  }

  /** A dispatch with nothing in flight starts exactly one transfer if any is left, else none. */
  lemma DispatchStartsOne(s: State)
    requires InvCore(s) && s.pendHi.None? && !s.LastLoIssued()
    ensures var t := Dispatch(s);
      && Outstanding(t) == NotStarted(s)
      && Started(t) == Started(s) + InFlight(t)
      && (s.hi != [] ==> t.pendHi == Some(s.hi[0]) && DmasOf(t.log, false) == DmasOf(s.log, false))
      && (s.hi == [] ==> DmasOf(t.log, true) == DmasOf(s.log, true))
  {
    hide DmasOf, AllTiles, Tiles, InvCore;
    if s.hi != [] {
      PopHiStartsOne(s);
    } else if s.pendLo.Some? || s.lo != [] {
      ServiceLoStartsOne(s);
    } else {
      NoTiles();
    }
  }

  lemma EnqueueCosts(s: State, a: Args)
    ensures var t := Enqueue(s, a);
      && (t.posted == s.posted || t.posted == s.posted + [JobOf(s, a)])
      && NotStarted(t) == NotStarted(s) + if t.posted == s.posted then 0 else |Tiles(JobOf(s, a))|
  {
    hide ChunksFrom, AllTiles, Tiles;
    AllTilesSnoc(s.hi, JobOf(s, a));
    AllTilesSnoc(s.lo, JobOf(s, a));
  }

  lemma {:induction false} EnqueueAllCosts(s: State, posts: seq<Args>)
    ensures var t := EnqueueAll(s, posts);
      && s.posted <= t.posted
      && NotStarted(t) == NotStarted(s) + |AllTiles(t.posted[|s.posted|..])|
    decreases |posts|
  {
    if posts == [] {
      NoTiles();
    } else {
      hide AllTiles, Tiles, NotStarted, Enqueue, JobOf;
      var m, last := EnqueueAll(s, posts[..|posts| - 1]), posts[|posts| - 1];
      EnqueueAllCosts(s, posts[..|posts| - 1]);
      EnqueueCosts(m, last);
      AllTilesSnoc(m.posted[|s.posted|..], JobOf(m, last));
      assert (m.posted + [JobOf(m, last)])[|s.posted|..] == m.posted[|s.posted|..] + [JobOf(m, last)];
    }
  }

  /**
    Every completion interrupt retires exactly one transfer: with `Outstanding` counting those
    left, it costs one and pays for the jobs its callback posted.
   */
  lemma CompleteCosts(s: State, posts: seq<Args>)
    requires Inv(s) && s.Busy()
    ensures var t := Complete(s, posts);
      && s.posted <= t.posted
      && Outstanding(t) == Outstanding(s) - 1 + |AllTiles(t.posted[|s.posted|..])|
      && Started(t) - InFlight(t) == Started(s)
  {
    hide Outstanding, NotStarted, Started, InFlight, AllTiles, EnqueueAll, Dispatch, Complete, InvCore, Made, Finished, Finishing;
    var made := if Finishing(s).Some? then Made(Finishing(s).value, posts) else [];
    var f, q := Finished(s), EnqueueAll(Finished(s), made);
    FinishedKeeps(s);
    FinishedCosts(s);
    EnqueueAllKeeps(f, made);
    EnqueueAllOnlyQueues(f, made);
    EnqueueAllCosts(f, made);
    CompleteIsDispatch(s, posts);
    DispatchStartsOne(q);
    DispatchPostsNothing(q);
    SameStarts(f, q);
  }

  /** Retiring the transfer in flight leaves what has not started as it was. */
  lemma FinishedCosts(s: State)
    requires Inv(s) && s.Busy()
    ensures var f := Finished(s);
      NotStarted(f) == Outstanding(s) - 1 && Started(f) == Started(s) && f.posted == s.posted
  {
    hide AllTiles, Tiles, DmasOf, InvCore;
    FinishedKeeps(s);
    if Finishing(s).Some? {
      LogSnoc(s.log, Fired(Finishing(s).value, Finishing(s).value.callback));
    }
  }

  lemma SameStarts(s: State, t: State)
    requires s.log == t.log
    ensures Started(s) == Started(t)
  {
  }

  lemma DispatchPostsNothing(s: State)
    ensures Dispatch(s).posted == s.posted
  {
  }

  /** A post starts a transfer exactly when it makes an idle controller busy. */
  lemma PostCosts(s: State, a: Args)
    requires Inv(s)
    ensures Started(Post(s, a)) - InFlight(Post(s, a)) == Started(s) - InFlight(s)
  {
    hide DmasOf, InvCore, Dispatch, NotStarted, JobOf;
    EnqueueKeeps(s, a);
    if !Enqueue(s, a).Busy() {
      DispatchStartsOne(Enqueue(s, a));
    }
  }

  lemma NothingStarted()
    ensures Started(Init) == 0
  {
  }

  /** At most one transfer is ever in flight: all others started have been completed. */
  lemma {:induction false} OneInFlight(steps: seq<Step>)
    requires IsRun(steps)
    ensures Started(After(steps)) == Completions(steps) + InFlight(After(steps))
  {
    hide Inv, Started, Post, Complete;
    if steps == [] {
      NothingStarted();
    } else {
      var before := steps[..|steps| - 1];
      OneInFlight(before);
      RunKeepsInv(before);
      match steps[|steps| - 1]
      case PostStep(a) => PostCosts(After(before), a);
      case CompleteStep(posts) => CompleteCosts(After(before), posts);
    }
  }

  /** Completions a job costs: one if high, else one per started 4096 bytes, at least one. */
  function Cost(job: Job): nat {
    if job.high || job.length == 0 then 1 else (job.length + CHUNK - 1) / CHUNK
  }

  function Costs(jobs: seq<Job>): nat {
    if jobs == [] then 0 else Costs(jobs[..|jobs| - 1]) + Cost(jobs[|jobs| - 1])
  }

  lemma {:induction false} ChunkCount(job: Job, off: nat)
    requires off < job.length || off == job.length == 0
    ensures |ChunksFrom(job, off)| == if job.length == 0 then 1 else (job.length - off + CHUNK - 1) / CHUNK
    decreases job.length - off
  {
    if job.length - off > CHUNK {
      ChunkCount(job, off + CHUNK);
    }
  }

  /** What is left to transfer, in completions, is the cost of the jobs left. */
  lemma {:induction false} TilesCost(jobs: seq<Job>)
    ensures |AllTiles(jobs)| == Costs(jobs)
    ensures forall j :: j in jobs ==> |Tiles(j)| == Cost(j)
  {
    if jobs != [] {
      var last := jobs[|jobs| - 1];
      ChunkCount(last, 0);
      TilesCost(jobs[..|jobs| - 1]);
      hide ChunksFrom, Cost;
      assert jobs == jobs[..|jobs| - 1] + [last];
    }
  }

  /** `n` completion interrupts with nothing more posted. */
  function CompleteN(s: State, n: nat): State {
    if n == 0 then s else Complete(CompleteN(s, n - 1), [])
  }

  lemma OutstandingZero(s: State)
    requires Inv(s)
    ensures Outstanding(s) >= 0 && (Outstanding(s) == 0 <==> !s.Busy())
  {
  }

  /**
    Progress: after exactly `Outstanding(s)` completions, and no earlier, the controller is idle
    and every job ever posted has fired.
   */
  lemma {:induction false} DrainsExactly(s: State, n: nat)
    requires Inv(s) && n <= Outstanding(s)
    ensures var t := CompleteN(s, n);
      && Inv(t) && Outstanding(t) == Outstanding(s) - n && (t.Busy() <==> n < Outstanding(s))
      && (n == Outstanding(s) ==> forall h :: FiredOf(t.log, h) == PostedOf(s.posted, h))
      && t.posted == s.posted
  {
    hide Complete, AllTiles, Tiles, NotStarted, FiredOf, PostedOf;
    if n > 0 {
      var m := CompleteN(s, n - 1);
      DrainsExactly(s, n - 1);
      CompleteKeeps(m, []);
      CompleteCosts(m, []);
      CompleteNothingPosted(m);
    }
    OutstandingZero(CompleteN(s, n));
    var t := CompleteN(s, n);
    if n == Outstanding(s) {
      forall h ensures FiredOf(t.log, h) == PostedOf(s.posted, h) {
        assert FiredOf(t.log, h) + [] == FiredOf(t.log, h);
      }
    }
  }

  lemma CompleteNothingPosted(s: State)
    requires s.Busy()
    ensures Complete(s, []).posted == s.posted
    ensures |AllTiles(s.posted[|s.posted|..])| == 0
  {
  }

  lemma {:induction false} EnqueueAllAppends(s: State, posts: seq<Args>)
    ensures s.hi <= EnqueueAll(s, posts).hi
    decreases |posts|
  {
    if posts != [] {
      EnqueueAllAppends(s, posts[..|posts| - 1]);
    }
  }

  /** The oldest queued high job is next, whatever the callback that runs first posts. */
  lemma HighNext(s: State, posts: seq<Args>)
    requires Inv(s) && s.Busy() && s.hi != []
    ensures var t := Complete(s, posts);
      && s.hi[1..] <= t.hi && t.pendHi == Some(s.hi[0]) && t.Busy()
      && DmasOf(t.log, false) == DmasOf(s.log, false)
  {
    hide AllTiles, Tiles, DmasOf, FiredOf, PostedOf, InvCore, EnqueueAll;
    var made := if Finishing(s).Some? then Made(Finishing(s).value, posts) else [];
    var q := EnqueueAll(Finished(s), made);
    CompleteIsDispatch(s, posts);
    FinishedKeeps(s);
    EnqueueAllKeeps(Finished(s), made);
    EnqueueAllOnlyQueues(Finished(s), made);
    EnqueueAllAppends(Finished(s), made);
    DispatchStartsOne(q);
    if Finishing(s).Some? {
      LogSnoc(s.log, Fired(Finishing(s).value, Finishing(s).value.callback));
    }
  }

  /** A post while busy only lengthens a queue. */
  lemma PostWhileBusy(s: State, a: Args)
    requires s.Busy()
    ensures var t := Post(s, a);
      t.Busy() && s.hi <= t.hi && t.pendHi == s.pendHi && t.pendLo == s.pendLo && t.log == s.log
  {
    hide Dispatch;
  }

  /** Any steps from `s` on. */
  function ApplyAll(s: State, steps: seq<Step>): State {
    if steps == [] then s else Apply(ApplyAll(s, steps[..|steps| - 1]), steps[|steps| - 1])
  }

  lemma NextOf(a: seq<Job>, k: nat, b: seq<Job>)
    requires k < |a| && a[k..] <= b
    ensures b != [] && b[0] == a[k] && a[k + 1..] <= b[1..]
  {
    assert a[k..][0] == a[k] && a[k..][1..] == a[k + 1..];
  }

  lemma PrefixOf(a: seq<Job>, b: seq<Job>, c: seq<Job>)
    requires a <= b <= c
    ensures a <= c
  {
  }

  lemma LastStep(s: State, steps: seq<Step>)
    requires steps != []
    ensures var before, step := steps[..|steps| - 1], steps[|steps| - 1];
      && ApplyAll(s, steps) == Apply(ApplyAll(s, before), step)
      && Completions(steps) == Completions(before) + if step.CompleteStep? then 1 else 0
  {
  }

  /**
    High requests queued at a chunk boundary all run, in order, before the next low chunk, whatever
    is posted meanwhile, by the callbacks or between them.
   */
  lemma {:induction false} HighRunFirst(s: State, steps: seq<Step>)
    requires Inv(s) && s.Busy() && Completions(steps) <= |s.hi|
    ensures var t, n := ApplyAll(s, steps), Completions(steps);
      && Inv(t) && t.Busy()
      && s.hi[n..] <= t.hi
      && t.pendHi == (if n > 0 then Some(s.hi[n - 1]) else s.pendHi)
      && DmasOf(t.log, false) == DmasOf(s.log, false)
    decreases |steps|
  {
    if steps == [] {
      assert s.hi[0..] == s.hi;
    } else {
      hide Inv, Complete, Post, ApplyAll, Completions, DmasOf, State.Busy;
      LastStep(s, steps);
      var before := steps[..|steps| - 1];
      var m, k := ApplyAll(s, before), Completions(before);
      HighRunFirst(s, before);
      match steps[|steps| - 1]
      case PostStep(a) =>
        PostWhileBusy(m, a);
        PostKeeps(m, a);
        PrefixOf(s.hi[k..], m.hi, Post(m, a).hi);
      case CompleteStep(posts) =>
        NextOf(s.hi, k, m.hi);
        HighNext(m, posts);
        CompleteKeeps(m, posts);
        PrefixOf(s.hi[k + 1..], m.hi[1..], Complete(m, posts).hi);
    }
  }
}
