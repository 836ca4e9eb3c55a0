/**
  The ARAM DMA scheduler as its callers see it: two queues of immutable jobs, at most one
  transfer in flight, and a log of the transfers started and the callbacks fired.

  `ArqRequests` proves that the pointer code refines the three steps defined here; this module
  proves what those steps guarantee over every run.
 */
module ArqSpec {
  import opened Common

  const U32: int := 0x1_0000_0000
  const CHUNK: int := 4096
  const MRAM_TO_ARAM: u32 := 0
  const PRIORITY_LOW: u32 := 0
  const PRIORITY_HIGH: u32 := 1

  type u32 = x: int | 0 <= x < 0x1_0000_0000

  function Plus<T>(s: seq<T>, o: Option<T>): seq<T> {
    if o.None? then s else s + [o.value]
  }

  /** `Hack` is the do-nothing routine substituted for a null callback. */
  datatype Callback = Hack | User(routine: nat)

  /** What a caller asks for. `priority` may be any word; only 0 and 1 are queued. */
  datatype Args = Args(kind: u32, priority: u32, source: u32, dest: u32, length: u32, callback: Option<nat>)

  /** One accepted post: `id` is its position among all accepted posts. */
  datatype Job = Job(id: nat, high: bool, kind: u32, source: u32, dest: u32, length: u32, callback: Callback)

  datatype Event =
    | Dma(job: Job, kind: u32, mainMem: u32, aram: u32, length: u32)
    | Fired(job: Job, callback: Callback)

  datatype State = State(
    hi: seq<Job>, lo: seq<Job>,
    pendHi: Option<Job>, pendLo: Option<Job>,
    issued: nat,            // transfers already started for pendLo
    posted: seq<Job>, log: seq<Event>)
  {
    predicate Busy() { pendHi.Some? || pendLo.Some? }

    /** The job whose transfer is in flight will be its last: its callback is armed. */
    predicate LastLoIssued() { pendLo.Some? && issued == |Tiles(pendLo.value)| }
  }

  const Init := State([], [], None, None, 0, [], [])

  lemma ModAdd(a: int, b: int)
    ensures (a % U32 + b) % U32 == (a + b) % U32
  {
  }

  // ----- What one job has to move -----

  /** The transfer of `n` bytes that starts `off` bytes into the job. */
  function Piece(job: Job, off: nat, n: u32): Event {
    var s, d := (job.source + off) % U32, (job.dest + off) % U32;
    if job.kind == MRAM_TO_ARAM then Dma(job, job.kind, s, d, n) else Dma(job, job.kind, d, s, n)
  }

  /** The remaining transfers of a low-priority job from byte `off` on. */
  function ChunksFrom(job: Job, off: nat): (r: seq<Event>)
    requires off <= job.length
    ensures |r| >= 1
    decreases job.length - off
  {
    if job.length - off <= CHUNK then [Piece(job, off, job.length - off)]
    else [Piece(job, off, CHUNK)] + ChunksFrom(job, off + CHUNK)
  }

  function Tiles(job: Job): (r: seq<Event>)
    ensures |r| >= 1
  {
    if job.high then [Piece(job, 0, job.length)] else ChunksFrom(job, 0)
  }

  // ----- The steps -----

  function PopHi(s: State): State {
    if s.hi == [] then s
    else s.(pendHi := Some(s.hi[0]), hi := s.hi[1..], log := s.log + Tiles(s.hi[0])[..1])
  }

  function ServiceLo(s: State): State {
    var t := if s.pendLo.None? && s.lo != [] then s.(pendLo := Some(s.lo[0]), lo := s.lo[1..], issued := 0) else s;
    if t.pendLo.Some? && t.issued < |Tiles(t.pendLo.value)|
    then t.(issued := t.issued + 1, log := t.log + [Tiles(t.pendLo.value)[t.issued]])
    else t
  }

  function Dispatch(s: State): State {
    var t := PopHi(s);
    if t.pendHi.None? then ServiceLo(t) else t
  }

  function JobOf(s: State, a: Args): Job {
    Job(|s.posted|, a.priority == PRIORITY_HIGH, a.kind, a.source, a.dest, a.length,
        if a.callback.Some? then User(a.callback.value) else Hack)
  }

  function Enqueue(s: State, a: Args): State {
    var job := JobOf(s, a);
    if a.priority == PRIORITY_LOW then s.(lo := s.lo + [job], posted := s.posted + [job])
    else if a.priority == PRIORITY_HIGH then s.(hi := s.hi + [job], posted := s.posted + [job])
    else s
  }

  function Post(s: State, a: Args): State {
    var t := Enqueue(s, a);
    if t.Busy() then t else Dispatch(t)
  }

  function PostAll(s: State, posts: seq<Args>): State
    decreases |posts|
  {
    if posts == [] then s else Post(PostAll(s, posts[..|posts| - 1]), posts[|posts| - 1])
  }

  /** The job whose callback the next completion interrupt runs. */
  function Finishing(s: State): Option<Job> {
    if s.pendHi.Some? then s.pendHi
    else if s.LastLoIssued() then s.pendLo else None
  }

  /** The posts the callback makes; the do-nothing routine makes none. */
  function Made(job: Job, posts: seq<Args>): seq<Args> {
    if job.callback.User? then posts else []
  }

  /** Run the callback of the job that has just finished, if any, and retire the job. */
  function CallBack(s: State, posts: seq<Args>): State {
    match Finishing(s)
    case None => s
    case Some(job) =>
      var t := PostAll(s.(log := s.log + [Fired(job, job.callback)]), Made(job, posts));
      if s.pendHi.Some? then t.(pendHi := None) else t.(pendLo := None)
  }

  /** A DMA-complete interrupt; `posts` is what the callback it runs, if any, posts. */
  function Complete(s: State, posts: seq<Args>): State {
    Dispatch(CallBack(s, posts))
  }

  datatype Step = PostStep(args: Args) | CompleteStep(posts: seq<Args>)

  predicate Enabled(s: State, step: Step) {
    step.CompleteStep? ==> s.Busy()
  }

  function Apply(s: State, step: Step): State {
    match step
    case PostStep(a) => Post(s, a)
    case CompleteStep(posts) => Complete(s, posts)
  }

  predicate IsRun(steps: seq<Step>) {
    steps == [] || (IsRun(steps[..|steps| - 1]) && Enabled(After(steps[..|steps| - 1]), steps[|steps| - 1]))
  }

  function After(steps: seq<Step>): State {
    if steps == [] then Init else Apply(After(steps[..|steps| - 1]), steps[|steps| - 1])
  }

  // ----- What a log says -----

  function FiredOf(log: seq<Event>, high: bool): seq<Job> {
    if log == [] then []
    else
      var e, rest := log[|log| - 1], FiredOf(log[..|log| - 1], high);
      if e.Fired? && e.job.high == high then rest + [e.job] else rest
  }

  function DmasOf(log: seq<Event>, high: bool): seq<Event> {
    if log == [] then []
    else
      var e, rest := log[|log| - 1], DmasOf(log[..|log| - 1], high);
      if e.Dma? && e.job.high == high then rest + [e] else rest
  }

  function DmasFor(log: seq<Event>, id: nat): seq<Event> {
    if log == [] then []
    else
      var e, rest := log[|log| - 1], DmasFor(log[..|log| - 1], id);
      if e.Dma? && e.job.id == id then rest + [e] else rest
  }

  function PostedOf(posted: seq<Job>, high: bool): seq<Job> {
    if posted == [] then []
    else
      var j, rest := posted[|posted| - 1], PostedOf(posted[..|posted| - 1], high);
      if j.high == high then rest + [j] else rest
  }

  function AllTiles(jobs: seq<Job>): seq<Event> {
    if jobs == [] then [] else AllTiles(jobs[..|jobs| - 1]) + Tiles(jobs[|jobs| - 1])
  }

  // ----- The invariant of every run -----

  /** Jobs of one priority are fired, in flight and queued in the order they were posted. */
  predicate Accounted(s: State) {
    && Plus(FiredOf(s.log, true), s.pendHi) + s.hi == PostedOf(s.posted, true)
    && Plus(FiredOf(s.log, false), s.pendLo) + s.lo == PostedOf(s.posted, false)
  }

  /** The transfers started are those of the fired jobs, then the started part of the job in flight. */
  predicate Transferred(s: State) {
    && (s.pendLo.Some? ==> 1 <= s.issued <= |Tiles(s.pendLo.value)|)
    && DmasOf(s.log, true) == AllTiles(Plus(FiredOf(s.log, true), s.pendHi))
    && DmasOf(s.log, false) ==
       if s.pendLo.None? then AllTiles(FiredOf(s.log, false))
       else AllTiles(FiredOf(s.log, false)) + Tiles(s.pendLo.value)[..s.issued]
  }

  predicate Numbered(s: State) {
    && (forall i :: 0 <= i < |s.posted| ==> s.posted[i].id == i)
    && (forall i :: 0 <= i < |s.log| ==> s.log[i].job in s.posted)
  }

  /** Each callback fires with its own routine, after exactly its own job's transfers. */
  predicate FiredInOrder(log: seq<Event>) {
    forall i :: 0 <= i < |log| && log[i].Fired? ==>
      log[i].callback == log[i].job.callback && DmasFor(log[..i], log[i].job.id) == Tiles(log[i].job)
  }

  predicate InvCore(s: State) {
    Accounted(s) && Transferred(s) && Numbered(s) && FiredInOrder(s.log) && !(s.pendHi.Some? && s.LastLoIssued())
  }

  /** Nothing waits while the controller is idle. */
  predicate Inv(s: State) {
    InvCore(s) && (s.hi != [] || s.lo != [] ==> s.Busy())
  }
}
