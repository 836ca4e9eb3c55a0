/**
  From what callers ask for to what the controller does, without the job numbers in between: the
  posts a run accepts, and the bytes moved and the routine called for each of them.
 */
module ArqPosts {
  import opened Common
  import opened ArqSpec
  import opened ArqRuns

  /** Only these two priorities are queued; a post with another one is dropped. */
  predicate Queues(a: Args) { a.priority == 0 || a.priority == 1 }

  function Kept(posts: seq<Args>): seq<Args> {
    if posts == [] then []
    else Kept(posts[..|posts| - 1]) + if Queues(posts[|posts| - 1]) then [posts[|posts| - 1]] else []
  }

  /** The posts a run accepts, in order: those made outside, and those of callbacks that are run. */
  function Accepted(steps: seq<Step>): seq<Args> {
    if steps == [] then []
    else
      var before, step := steps[..|steps| - 1], steps[|steps| - 1];
      Accepted(before) + match step
        case PostStep(a) => Kept([a])
        case CompleteStep(posts) => if CallsBack(After(before)) then Kept(posts) else []
  }

  /** Whether the next completion runs a routine of a caller. */
  predicate CallsBack(s: State) { Finishing(s).Some? && Finishing(s).value.callback.User? }

  /** The `k`-th accepted post, word for word. */
  predicate Matches(j: Job, k: nat, a: Args) {
    && j.id == k && j.kind == a.kind && j.source == a.source && j.dest == a.dest && j.length == a.length
    && (j.high <==> a.priority == 1)
    && j.callback == match a.callback case Some(routine) => User(routine) case None => Hack
  }

  predicate AllMatch(posted: seq<Job>, accepted: seq<Args>) {
    |posted| == |accepted| && forall k :: 0 <= k < |posted| ==> Matches(posted[k], k, accepted[k])
  }

  lemma EnqueueMatches(s: State, a: Args, accepted: seq<Args>)
    requires AllMatch(s.posted, accepted)
    ensures AllMatch(Enqueue(s, a).posted, accepted + Kept([a]))
  {
    assert [a][..0] == [] && Kept([]) == [];
    assert Kept([a]) == if Queues(a) then [a] else [];
  }

  lemma {:induction false} EnqueueAllMatches(s: State, posts: seq<Args>, accepted: seq<Args>)
    requires AllMatch(s.posted, accepted)
    ensures AllMatch(EnqueueAll(s, posts).posted, accepted + Kept(posts))
    decreases |posts|
  {
    if posts == [] {
      assert accepted + Kept(posts) == accepted;
    } else {
      hide AllMatch, Enqueue;
      var n := |posts| - 1;
      EnqueueAllMatches(s, posts[..n], accepted);
      EnqueueMatches(EnqueueAll(s, posts[..n]), posts[n], accepted + Kept(posts[..n]));
      KeptSnoc(posts[..n], posts[n]);
      assert posts == posts[..n] + [posts[n]];
      assert accepted + Kept(posts[..n]) + Kept([posts[n]]) == accepted + Kept(posts);
    }
  }

  lemma KeptSnoc(posts: seq<Args>, a: Args)
    ensures Kept(posts + [a]) == Kept(posts) + Kept([a])
  {
    assert (posts + [a])[..|posts|] == posts;
    assert [a][..0] == [] && Kept([]) == [];
  }

  /** In every run the posted jobs are the accepted posts, word for word. */
  lemma {:induction false} RunMatches(steps: seq<Step>)
    requires IsRun(steps)
    ensures AllMatch(After(steps).posted, Accepted(steps))
  {
    if steps != [] {
      hide AllMatch, Enqueue, EnqueueAll, Dispatch, Complete, Post, Kept;
      var before, step := steps[..|steps| - 1], steps[|steps| - 1];
      var s := After(before);
      RunMatches(before);
      match step
      case PostStep(a) =>
        EnqueueMatches(s, a, Accepted(before));
        PostPosts(s, a);
      case CompleteStep(posts) =>
        CompletePosts(s, posts, Accepted(before));
    }
  }

  lemma PostPosts(s: State, a: Args)
    ensures Post(s, a).posted == Enqueue(s, a).posted
  {
    hide Enqueue;
  }

  lemma CompletePosts(s: State, posts: seq<Args>, accepted: seq<Args>)
    requires s.Busy() && AllMatch(s.posted, accepted)
    ensures AllMatch(Complete(s, posts).posted, accepted + if CallsBack(s) then Kept(posts) else [])
  {
    hide AllMatch, EnqueueAll, Complete, Kept, Dispatch;
    var made := if Finishing(s).Some? then Made(Finishing(s).value, posts) else [];
    CompleteIsDispatch(s, posts);
    EnqueueAllMatches(Finished(s), made, accepted);
    DispatchPostsNothing(EnqueueAll(Finished(s), made));
    KeptNothing();
  }

  lemma KeptNothing()
    ensures Kept([]) == []
  {
  }

  /**
    Once the callback of the `k`-th accepted post has fired, it was the routine given, or the
    do-nothing one, and the transfers logged for it have moved byte by byte exactly what was asked:
    from main memory at `source` to ARAM at `dest` for kind 0, the other way round otherwise, in one
    transfer at priority 1 and in pieces of 4096 bytes and a rest at priority 0.
   */
  lemma PostMoves(steps: seq<Step>, i: nat)
    requires IsRun(steps) && i < |After(steps).log| && After(steps).log[i].Fired?
    ensures var log, k := After(steps).log, After(steps).log[i].job.id;
      && k < |Accepted(steps)|
      && var a, es := Accepted(steps)[k], DmasFor(log, k);
      && log[i].callback == (match a.callback case Some(routine) => User(routine) case None => Hack)
      && (forall e :: e in es ==> e.Dma? && e.kind == a.kind && (a.priority == 1 || e.length <= 4096))
      && |es| == (if a.priority == 1 || a.length == 0 then 1 else (a.length + 4095) / 4096)
      && MovedByAll(es) == seq(a.length, n requires 0 <= n =>
           if a.kind == 0 then Move((a.source + n) % 0x1_0000_0000, (a.dest + n) % 0x1_0000_0000)
           else Move((a.dest + n) % 0x1_0000_0000, (a.source + n) % 0x1_0000_0000))
  {
    hide DmasFor, Tiles, After, IsRun, MovedByAll, Accepted;
    var log, job := After(steps).log, After(steps).log[i].job;
    RunMatches(steps);
    CallbackSeesItsTransfer(steps, i);
    TilesMoveTheRange(job);
  }
}
