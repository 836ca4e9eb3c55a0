/**
  The banner pool of one folder: 128 buffers, a load state per entry, and the sliding window of
  lines whose banners are kept loaded when a folder has more banners than buffers.
 */
module Banners {
  import opened Common

  const POOL: int := 128
  const TOTAL_ROWS: int := 4
  const PRELOAD: int := 2

  datatype FileType = Unknown | Directory | Program | Game | App

  /** What the scan found out about an entry; `hasBanner` is a banner offset or a banner file. */
  datatype Info = Info(kind: FileType, hasBanner: bool)

  datatype LoadState = NotLoaded | Setup | Unloaded | Unloading | Loading | Loaded

  datatype Banner = Banner(state: LoadState, buf: Option<int>, scheduleFree: bool)

  predicate TakesBanner(e: Info) { e.kind == Game || e.kind == App }

  predicate Bearing(e: Info) { TakesBanner(e) && e.hasBanner }

  // ----- Sets of entries -----

  predicate FitsPool(s: set<int>) { |s| <= POOL }

  /** The banner-bearing entries on lines `lo` to `hi`. */
  function OnLines(info: seq<Info>, columns: int, lo: int, hi: int): set<int>
    requires columns > 0
  {
    set x | 0 <= x < |info| && Bearing(info[x]) && lo <= x / columns <= hi
  }

  function Below(info: seq<Info>, k: int): set<int> {
    set x | 0 <= x < |info| && x < k && Bearing(info[x])
  }

  /** The lines that must be resident when the window starts at line `top`. */
  function Window(info: seq<Info>, columns: int, top: int): set<int>
    requires columns > 0
  {
    OnLines(info, columns, top - 1, top + TOTAL_ROWS + PRELOAD - 1)
  }

  lemma {:induction false} SubsetSize<T>(a: set<T>, b: set<T>)
    requires a <= b
    ensures |a| <= |b|
    ensures |a| == |b| ==> a == b
  {
    if a != {} {
      var x :| x in a;
      SubsetSize(a - {x}, b - {x});
    }
  }

  ghost function Range(lo: int, hi: int): (r: set<int>)
    requires lo <= hi
    ensures |r| == hi - lo
    ensures forall x :: x in r <==> lo <= x < hi
    decreases hi - lo
  {
    if lo == hi then {} else Range(lo, hi - 1) + {hi - 1}
  }

  lemma LineBounds(x: int, columns: int, line: int)
    requires columns in {3, 4, 8}
    ensures x / columns <= line <==> x < (line + 1) * columns
    ensures x / columns >= line <==> x >= line * columns
  {
    if columns == 3 {
    } else if columns == 4 {
    }
  }

  lemma OnLinesSize(info: seq<Info>, columns: int, lo: int, hi: int)
    requires columns in {3, 4, 8} && lo <= hi + 1
    ensures |OnLines(info, columns, lo, hi)| <= (hi - lo + 1) * columns
  {
    var a, b := lo * columns, (hi + 1) * columns;
    assert b - a == (hi - lo + 1) * columns;
    var range := Range(a, b);
    forall x | x in OnLines(info, columns, lo, hi)
      ensures x in range
    {
      LineBounds(x, columns, lo);
      LineBounds(x, columns, hi);
    }
    SubsetSize(OnLines(info, columns, lo, hi), range);
  }

  // ----- The two ways a sliding window starts -----

  /**
    `Prefix`: the scan loaded the first banners until the pool was full.
    `Around`: the loader filled the nine lines from `first` around the last-played game.
   */
  datatype Start = Prefix(below: int) | Around(first: int)

  function Initial(info: seq<Info>, columns: int, start: Start): set<int>
    requires columns > 0
  {
    match start
    case Prefix(k) => Below(info, k)
    case Around(first) => OnLines(info, columns, first, first + 8)
  }

  predicate StartOk(info: seq<Info>, columns: int, start: Start)
    requires columns > 0
  {
    start.Prefix? ==> |Below(info, start.below)| <= POOL
  }

  /** All that can be loaded while the window starts at `top`: it, and leftovers of the start. */
  function Cover(info: seq<Info>, columns: int, start: Start, top: int): set<int>
    requires columns > 0
  {
    Window(info, columns, top) +
    (set x | x in Initial(info, columns, start) && (start.Prefix? ==> x / columns >= top - 1))
  }

  /** The pool is large enough for it at every scroll position. */
  lemma CoverFits(info: seq<Info>, columns: int, start: Start, top: int)
    requires columns in {3, 4, 8} && StartOk(info, columns, start)
    ensures FitsPool(Cover(info, columns, start, top))
  {
    var window, cover := Window(info, columns, top), Cover(info, columns, start, top);
    OnLinesSize(info, columns, top - 1, top + 5);
    match start
    case Prefix(k) =>
      if window <= Below(info, k) {
        SubsetSize(cover, Below(info, k));
      } else {
        var w :| w in window && w !in Below(info, k);
        forall x | x in cover ensures x in window {
          if x !in window {
            LineBounds(w, columns, top + 5);
            LineBounds(x, columns, top + 5);
          }
        }
        SubsetSize(cover, window);
      }
    case Around(first) =>
      var initial := Initial(info, columns, start);
      OnLinesSize(info, columns, first, first + 8);
      assert cover <= window + initial;
      SubsetSize(cover, window + initial);
  }

  /** Scrolling back from `top`: freeing line top+5 and loading line top-2 serves the next window. */
  lemma WindowUp(info: seq<Info>, columns: int, start: Start, top: int, next: int, freeing: int, loading: int, loaded: set<int>)
    requires columns in {3, 4, 8} && next == top - 1 && freeing == top + 5 && loading == top - 2
    requires Window(info, columns, top) <= loaded <= Cover(info, columns, start, top)
    ensures var kept, extra := loaded - OnLines(info, columns, freeing, freeing), OnLines(info, columns, loading, loading);
      && kept <= Cover(info, columns, start, next) && extra <= Cover(info, columns, start, next)
      && Window(info, columns, next) <= kept + extra <= Cover(info, columns, start, next)
  {
  }

  /** Scrolling on from `top`: freeing line top-1 and loading line top+6 serves the next window. */
  lemma WindowDown(info: seq<Info>, columns: int, start: Start, top: int, next: int, freeing: int, loading: int, loaded: set<int>)
    requires columns in {3, 4, 8} && next == top + 1 && freeing == top - 1 && loading == top + 6
    requires Window(info, columns, top) <= loaded <= Cover(info, columns, start, top)
    ensures var kept, extra := loaded - OnLines(info, columns, freeing, freeing), OnLines(info, columns, loading, loading);
      && kept <= Cover(info, columns, start, next) && extra <= Cover(info, columns, start, next)
      && Window(info, columns, next) <= kept + extra <= Cover(info, columns, start, next)
  {
  }

  lemma NothingBeyond(info: seq<Info>, columns: int, line: int, numberOfLines: int)
    requires columns in {3, 4, 8} && |info| <= numberOfLines * columns
    ensures line < 0 || line >= numberOfLines ==> OnLines(info, columns, line, line) == {}
  {
    forall x | x in OnLines(info, columns, line, line) ensures 0 <= line < numberOfLines {
      LineBounds(x, columns, numberOfLines);
    }
  }

  /** The entries the last-played loader counts: games and apps, with or without a banner. */
  function Takers(info: seq<Info>, k: int): (r: set<int>)
    ensures Below(info, k) <= r
  {
    set x | 0 <= x < |info| && x < k && TakesBanner(info[x])
  }

  /** All the last-played loader ever loads. */
  function Room(info: seq<Info>, columns: int, first: int, last: int, resident: bool): set<int>
    requires columns > 0
  {
    if resident then Below(info, |info|) else OnLines(info, columns, first, last)
  }

  lemma RoomFits(info: seq<Info>, columns: int, first: int, last: int, resident: bool)
    requires columns in {3, 4, 8} && first <= last <= first + 8
    requires resident ==> |Takers(info, |info|)| <= POOL
    ensures var room := Room(info, columns, first, last, resident);
      && FitsPool(room) && OnLines(info, columns, first, last) <= room
      && (resident ==> room == Below(info, |info|))
  {
    OnLinesSize(info, columns, first, last);
    SubsetSize(Below(info, |info|), Takers(info, |info|));
  }

  lemma LinesGrow(info: seq<Info>, columns: int, first: int, line: int, last: int)
    requires columns > 0 && first <= line <= last
    ensures OnLines(info, columns, first, line) == OnLines(info, columns, first, line - 1) + OnLines(info, columns, line, line)
    ensures OnLines(info, columns, line, line) <= OnLines(info, columns, first, line) <= OnLines(info, columns, first, last)
    ensures OnLines(info, columns, first, last) <= Below(info, |info|)
    ensures OnLines(info, columns, first, first - 1) == {}
  {
  }

  lemma NoLines(info: seq<Info>, columns: int, from: int, to: int)
    requires columns > 0 && to < from
    ensures OnLines(info, columns, from, to) == {}
  {
  }

  lemma LinesJoin(info: seq<Info>, columns: int, first: int, last: int, numberOfLines: int)
    requires columns > 0 && 0 <= first <= last < numberOfLines
    ensures OnLines(info, columns, 0, first - 1) + OnLines(info, columns, first, last)
            + OnLines(info, columns, last + 1, numberOfLines - 1) == OnLines(info, columns, 0, numberOfLines - 1)
  {
  }

  /** A full pool of first banners reaches past the lines of the first window. */
  lemma FullPrefixCovers(info: seq<Info>, columns: int, k: int)
    requires columns in {3, 4, 8} && k >= 0 && |Below(info, k)| == POOL
    ensures Window(info, columns, 0) <= Below(info, k) <= Cover(info, columns, Prefix(k), 0)
  {
    SubsetSize(Below(info, k), Range(0, k));
    forall x | x in Window(info, columns, 0) ensures x in Below(info, k) {
      LineBounds(x, columns, 5);
    }
    forall x | 0 <= x ensures x / columns >= 0 {
      LineBounds(x, columns, 0);
    }
  }

  /** The clamped lines around the target hold the window and nothing but the start's entries. */
  lemma LinesAround(info: seq<Info>, columns: int, startLine: int, numberOfLines: int)
    requires columns in {3, 4, 8} && |info| <= numberOfLines * columns
    requires 0 <= startLine <= numberOfLines - TOTAL_ROWS
    ensures var first, last := Max(startLine - PRELOAD, 0), Min(startLine + TOTAL_ROWS + PRELOAD, numberOfLines - 1);
      && Window(info, columns, startLine) <= OnLines(info, columns, first, last)
      && OnLines(info, columns, first, last) <= Cover(info, columns, Around(startLine - PRELOAD), startLine)
    ensures OnLines(info, columns, 0, numberOfLines - 1) == Below(info, |info|)
  {
    forall x | 0 <= x < |info| ensures 0 <= x / columns <= numberOfLines - 1 {
      LineBounds(x, columns, numberOfLines - 1);
      LineBounds(x, columns, 0);
    }
  }

  // ----- One line, entry by entry -----

  function Part(info: seq<Info>, columns: int, line: int, k: int): set<int>
    requires columns > 0
  {
    set x | x in OnLines(info, columns, line, line) && x < k
  }

  lemma PartNext(info: seq<Info>, columns: int, line: int, x: int)
    requires columns in {3, 4, 8} && line * columns <= x < (line + 1) * columns && 0 <= x < |info|
    ensures Bearing(info[x]) ==> x in OnLines(info, columns, line, line)
    ensures Bearing(info[x]) ==> Part(info, columns, line, x + 1) == Part(info, columns, line, x) + {x}
    ensures !Bearing(info[x]) ==> Part(info, columns, line, x + 1) == Part(info, columns, line, x)
  {
    LineBounds(x, columns, line);
  }

  lemma PartEnds(info: seq<Info>, columns: int, line: int, k: int)
    requires columns in {3, 4, 8}
    ensures Part(info, columns, line, k) <= OnLines(info, columns, line, line)
    ensures k == line * columns ==> Part(info, columns, line, k) == {}
    ensures k == line * columns + columns || k >= |info| ==> Part(info, columns, line, k) == OnLines(info, columns, line, line)
  {
    forall x | x in OnLines(info, columns, line, line)
      ensures line * columns <= x < line * columns + columns
    {
      LineBounds(x, columns, line);
    }
  }

  // ----- The pool -----

  /** The entries that own a buffer. */
  function Owners(owner: seq<int>): (r: set<int>)
    ensures forall x :: x in r <==> x >= 0 && x in owner
  {
    if owner == [] then {}
    else Owners(owner[..|owner| - 1]) + if owner[|owner| - 1] >= 0 then {owner[|owner| - 1]} else {}
  }

  lemma NoOwners(owner: seq<int>)
    ensures Owners(owner[..0]) == {}
  {
  }

  /** Each buffer in use adds one entry, which owns none of the buffers before. */
  lemma NextOwner(owner: seq<int>, s: nat)
    requires s < |owner| && forall r :: 0 <= r < s && owner[r] >= 0 ==> owner[r] != owner[s]
    ensures |Owners(owner[..s + 1])| == |Owners(owner[..s])| + if owner[s] >= 0 then 1 else 0
  {
    assert owner[..s + 1][..s] == owner[..s];
    assert owner[s] >= 0 ==> owner[s] !in Owners(owner[..s]);
  }

  lemma {:induction false} FullPool(owner: seq<int>)
    requires forall s :: 0 <= s < |owner| ==> owner[s] >= 0
    requires forall s, r :: 0 <= s < r < |owner| ==> owner[s] != owner[r]
    ensures |Owners(owner)| == |owner|
  {
    if owner != [] {
      FullPool(owner[..|owner| - 1]);
    }
  }

  /** An entry and the buffer table agree; a load is left unfinished only by an empty pool. */
  ghost predicate OwnedAt(i: int, e: Info, b: Banner, owner: seq<int>, starved: bool) {
    && b.state in {NotLoaded, Unloaded, Loading, Loaded}
    && (b.state == Loaded <==> b.buf.Some?)
    && (b.state == Loaded ==> Bearing(e) && 0 <= b.buf.value < |owner| && owner[b.buf.value] == i)
    && (b.state == Loading ==> starved)
  }

  class Pool {
    const info: seq<Info>
    const columns: int
    const banners: array<Banner>
    const used: array<bool>
    var evict: bool

    ghost var owner: seq<int>  // per buffer, the entry it belongs to, or -1
    ghost var starved: bool    // whether a load ever found no free buffer
    ghost var start: Start     // how the sliding window began

    /** A buffer is in use exactly when one loaded entry points at it, and no two share one. */
    ghost predicate Valid()
      reads this, banners, used
    {
      && columns in {3, 4, 8}
      && banners.Length == |info|
      && used.Length == POOL == |owner|
      && (forall i :: 0 <= i < |info| ==> OwnedAt(i, info[i], banners[i], owner, starved))
      && (forall s :: 0 <= s < POOL ==>
            if used[s] then 0 <= owner[s] < |info| && banners[owner[s]].state == Loaded && banners[owner[s]].buf == Some(s)
            else owner[s] == -1)
    }

    ghost function LoadedSet(): set<int>
      reads banners
    {
      set i | 0 <= i < banners.Length && banners[i].state == Loaded
    }

    constructor (info: seq<Info>, columns: int)
      requires columns in {3, 4, 8}
      ensures Valid() && this.info == info && this.columns == columns
      ensures !evict && !starved && LoadedSet() == {} && fresh(banners) && fresh(used)
    {
      this.info, this.columns := info, columns;
      banners := new Banner[|info|](i => Banner(NotLoaded, None, false));
      used := new bool[POOL](i => false);
      evict, starved := false, false;
      owner := seq(POOL, i => -1);
    }

    lemma ColumnsOk()
      requires Valid()
      ensures columns in {3, 4, 8}
    {
    }

    lemma OwnersAreLoaded()
      requires Valid()
      ensures Owners(owner) == LoadedSet()
    {
      forall i | i in LoadedSet() ensures i in Owners(owner) {
        assert OwnedAt(i, info[i], banners[i], owner, starved);
        assert owner[banners[i].buf.value] == i;
      }
    }

    lemma SomeBufferFree()
      requires Valid() && |LoadedSet()| < POOL
      ensures exists s :: 0 <= s < POOL && !used[s]
    {
      OwnersAreLoaded();
      if forall s :: 0 <= s < POOL ==> used[s] {
        FullPool(owner);
      }
    }

    /** First free buffer, marked used. */
    method GetBuf() returns (slot: Option<int>)
      modifies used
      ensures slot.None? ==> (forall s :: 0 <= s < used.Length ==> used[s]) && used[..] == old(used[..])
      ensures slot.Some? ==> 0 <= slot.value < used.Length && !old(used[slot.value]) && used[..] == old(used[..])[slot.value := true]
      ensures slot.Some? ==> forall r :: 0 <= r < slot.value ==> old(used[r])
    {
      for s := 0 to used.Length
        invariant used[..] == old(used[..])
        invariant forall r :: 0 <= r < s ==> used[r]
      {
        if !used[s] {
          used[s] := true;
          return Some(s);
        }
      }
      return None;
    }

    method FreeBuf(slot: Option<int>)
      requires slot.Some? ==> 0 <= slot.value < used.Length
      modifies used
      ensures used[..] == if slot.Some? then old(used[..])[slot.value := false] else old(used[..])
    {
      if slot.None? { return; }
      used[slot.value] := false;
    }

    /** The number of buffers in use is the number of loaded banners. */
    method CountBuf() returns (count: int)
      requires Valid()
      ensures count == |LoadedSet()|
    {
      hide Owners;
      count := 0;
      NoOwners(owner);
      for s := 0 to POOL
        invariant count == |Owners(owner[..s])|
      {
        NextOwner(owner, s);
        if used[s] {
          count := count + 1;
        }
      }
      assert owner[..POOL] == owner;
      OwnersAreLoaded();
    }

    /** Only a loaded banner gives anything back; freeing again, or an idle entry, changes nothing. */
    method Free(i: int)
      requires Valid() && 0 <= i < |info|
      modifies this`owner, banners, used
      ensures Valid()
      ensures LoadedSet() == old(LoadedSet()) - {i}
      ensures forall k :: 0 <= k < |info| && k != i ==> banners[k] == old(banners[k])
      ensures var b := old(banners[i]);
        banners[i] == if b.state == Loaded then Banner(Unloaded, None, b.scheduleFree)
                      else if b.state == Loading then b.(scheduleFree := true) else b
    {
      assert OwnedAt(i, info[i], banners[i], owner, starved);
      if banners[i].state == NotLoaded || banners[i].state == Unloading {
        return;
      }
      if banners[i].state == Loading || banners[i].state == Setup {
        banners[i] := banners[i].(scheduleFree := true);
        return;
      }
      banners[i] := banners[i].(state := Unloading);
      FreeBuf(banners[i].buf);
      if banners[i].buf.Some? {
        owner := owner[banners[i].buf.value := -1];
      }
      banners[i] := banners[i].(buf := None);
      banners[i] := banners[i].(state := Unloaded);
    }

    /** Tail of `Load`, once the banner's bytes are there: take a buffer for them. */
    method Occupy(i: int) returns (ok: bool)
      requires Valid() && 0 <= i < |info| && Bearing(info[i]) && banners[i].state != Loaded
      modifies this`owner, this`starved, banners, used
      ensures Valid()
      ensures forall k :: 0 <= k < |info| && k != i ==> banners[k] == old(banners[k])
      ensures ok <==> i in LoadedSet()
      ensures ok <== |old(LoadedSet())| < POOL
      ensures starved <==> old(starved) || !ok
    {
      hide Bearing;
      if |LoadedSet()| < POOL { SomeBufferFree(); }
      assert OwnedAt(i, info[i], banners[i], owner, starved);
      var scheduled := banners[i].scheduleFree;
      banners[i] := Banner(Loading, banners[i].buf, scheduled);
      var slot := GetBuf();
      if slot.None? {
        starved := true;
        return false;
      }
      banners[i] := Banner(Loaded, slot, scheduled);
      owner := owner[slot.value := i];
      return true;
    }

    /** `read` says whether the banner came from the cache or the card. */
    method Load(i: int, read: bool) returns (ok: bool)
      requires Valid() && 0 <= i < |info| && TakesBanner(info[i])
      modifies this`owner, this`starved, banners, used
      ensures Valid()
      ensures forall k :: 0 <= k < |info| && k != i ==> banners[k] == old(banners[k])
      ensures ok <==> i in LoadedSet()
      ensures ok ==> LoadedSet() == old(LoadedSet()) + {i}
      ensures !ok ==> LoadedSet() == old(LoadedSet())
      ensures i in old(LoadedSet()) ==> banners[i] == old(banners[i]) && used[..] == old(used[..])
      ensures Bearing(info[i]) && read && |old(LoadedSet())| < POOL ==> ok
      ensures starved <==> old(starved) || (Bearing(info[i]) && read && !ok)
    {
      assert OwnedAt(i, info[i], banners[i], owner, starved);
      if !info[i].hasBanner { return false; }
      if banners[i].state == Loaded { return true; }
      if !read { return false; }
      ok := Occupy(i);
      forall k | 0 <= k < |info| && k != i
        ensures k in LoadedSet() <==> k in old(LoadedSet())
      {
        assert banners[k] == old(banners[k]);
      }
    }

    // ----- The window -----

    /**
      The pool serves a window starting at line `top`: no load has ever found it empty, and every
      banner on lines top-1 to top+5 (without eviction, every banner) is loaded.
     */
    ghost predicate Windowed(top: int)
      reads this, banners, used
    {
      && Valid() && !starved && StartOk(info, columns, start)
      && if evict then Window(info, columns, top) <= LoadedSet() <= Cover(info, columns, start, top)
         else LoadedSet() == Below(info, |info|)
    }

    method LoadInto(index: int, ghost room: set<int>)
      requires Valid() && 0 <= index < |info| && TakesBanner(info[index])
      requires LoadedSet() <= room && FitsPool(room) && (Bearing(info[index]) ==> index in room)
      modifies this`owner, this`starved, banners, used
      ensures Valid() && starved == old(starved)
      ensures Bearing(info[index]) ==> LoadedSet() == old(LoadedSet()) + {index}
      ensures !Bearing(info[index]) ==> LoadedSet() == old(LoadedSet())
    {
      if Bearing(info[index]) && index !in LoadedSet() {
        SubsetSize(LoadedSet() + {index}, room);
      }
      var _ := Load(index, true);
    }

    /** Load the banners of one line; all that is loaded stays inside `room`, which fits the pool. */
    method LoadLine(line: int, ghost room: set<int>)
      requires Valid() && line >= 0
      requires LoadedSet() <= room && OnLines(info, columns, line, line) <= room && FitsPool(room)
      modifies this`owner, this`starved, banners, used
      ensures Valid() && starved == old(starved)
      ensures LoadedSet() == old(LoadedSet()) + OnLines(info, columns, line, line)
    {
      hide OnLines, Part, LoadedSet, Valid, FitsPool;
      ColumnsOk();
      ghost var before := LoadedSet();
      PartEnds(info, columns, line, line * columns);
      for i := 0 to columns
        invariant Valid() && starved == old(starved)
        invariant LoadedSet() == before + Part(info, columns, line, line * columns + i)
      {
        var index := line * columns + i;
        PartEnds(info, columns, line, index);
        if index >= |info| { return; }
        PartNext(info, columns, line, index);
        if TakesBanner(info[index]) {
          LoadInto(index, room);
        }
      }
      PartEnds(info, columns, line, line * columns + columns);
    }

    method LineLoad(line: int, ghost room: set<int>)
      requires Valid() && line >= 0
      requires evict ==> LoadedSet() <= room && OnLines(info, columns, line, line) <= room && FitsPool(room)
      modifies this`owner, this`starved, banners, used
      ensures Valid() && starved == old(starved)
      ensures evict ==> LoadedSet() == old(LoadedSet()) + OnLines(info, columns, line, line)
      ensures !evict ==> LoadedSet() == old(LoadedSet())
    {
      if evict {
        LoadLine(line, room);
      }
    }

    /** In sliding-window mode, give back the buffers of one line; otherwise keep everything. */
    method LineFree(line: int)
      requires Valid() && line >= 0
      modifies this`owner, banners, used
      ensures Valid()
      ensures evict ==> LoadedSet() == old(LoadedSet()) - OnLines(info, columns, line, line)
      ensures !evict ==> LoadedSet() == old(LoadedSet())
    {
      if !evict { return; }
      hide OnLines;
      ghost var before := LoadedSet();
      PartEnds(info, columns, line, line * columns);
      for i := 0 to columns
        invariant Valid()
        invariant LoadedSet() == before - Part(info, columns, line, line * columns + i)
      {
        var index := line * columns + i;
        PartEnds(info, columns, line, index);
        if index >= |info| { return; }
        PartNext(info, columns, line, index);
        assert OwnedAt(index, info[index], banners[index], owner, starved);
        if TakesBanner(info[index]) {
          Free(index);
        }
      }
      PartEnds(info, columns, line, line * columns + columns);
    }

    /** Free a line if it exists; a line outside the list holds no banners. */
    method FreeInside(line: int, numberOfLines: int)
      requires Valid() && |info| <= numberOfLines * columns
      modifies this`owner, banners, used
      ensures Valid()
      ensures evict ==> LoadedSet() == old(LoadedSet()) - OnLines(info, columns, line, line)
      ensures !evict ==> LoadedSet() == old(LoadedSet())
    {
      NothingBeyond(info, columns, line, numberOfLines);
      if 0 <= line < numberOfLines {
        LineFree(line);
      }
    }

    method LoadInside(line: int, numberOfLines: int, ghost room: set<int>)
      requires Valid() && |info| <= numberOfLines * columns
      requires evict ==> LoadedSet() <= room && OnLines(info, columns, line, line) <= room && FitsPool(room)
      modifies this`owner, this`starved, banners, used
      ensures Valid() && starved == old(starved)
      ensures evict ==> LoadedSet() == old(LoadedSet()) + OnLines(info, columns, line, line)
      ensures !evict ==> LoadedSet() == old(LoadedSet())
    {
      NothingBeyond(info, columns, line, numberOfLines);
      if 0 <= line < numberOfLines {
        LineLoad(line, room);
      }
    }

    /** Called before the window moves by `delta` lines: frees the line left behind, then loads. */
    method LineChanged(delta: int, topLine: int, numberOfLines: int)
      requires Windowed(topLine) && (delta == 1 || delta == -1)
      requires |info| <= numberOfLines * columns
      modifies this`owner, this`starved, banners, used
      ensures Windowed(topLine + delta)
    {
      hide OnLines, Window, Cover, StartOk, LoadedSet, FitsPool, Valid;
      ColumnsOk();
      var newLine := topLine + delta;
      ghost var room := Cover(info, columns, start, newLine);
      CoverFits(info, columns, start, newLine);
      if delta < 0 {
        var unloadLine := newLine + TOTAL_ROWS + PRELOAD;
        var loadLine := newLine - PRELOAD + 1;
        if evict { WindowUp(info, columns, start, topLine, newLine, unloadLine, loadLine, LoadedSet()); }
        FreeInside(unloadLine, numberOfLines);
        LoadInside(loadLine, numberOfLines, room);
      } else if delta > 0 {
        var unloadLine := newLine - PRELOAD;
        var loadLine := newLine + TOTAL_ROWS + PRELOAD - 1;
        if evict { WindowDown(info, columns, start, topLine, newLine, unloadLine, loadLine, LoadedSet()); }
        FreeInside(unloadLine, numberOfLines);
        LoadInside(loadLine, numberOfLines, room);
      }
    }

    // ----- The two starts -----

    /** The pool rule for one scanned entry, when `k` entries have been taken in so far. */
    method ScanEntry(i: int, lastPlayed: bool)
      requires Valid() && !starved && 0 <= i < |info|
      requires if lastPlayed then LoadedSet() == {} && !evict
               else |LoadedSet()| <= POOL && (evict || LoadedSet() == Below(info, i))
      modifies this`owner, this`starved, this`evict, banners, used
      ensures Valid() && !starved
      ensures lastPlayed ==> LoadedSet() == {} && !evict
      ensures !lastPlayed ==> if evict then LoadedSet() == old(LoadedSet()) && (!old(evict) ==> |LoadedSet()| == POOL)
                              else !old(evict) && LoadedSet() == Below(info, i + 1) && |LoadedSet()| <= POOL
    {
      assert Below(info, i + 1) == Below(info, i) + if Bearing(info[i]) then {i} else {};
      hide Below;
      if TakesBanner(info[i]) {
        var count := CountBuf();
        if !evict && count >= POOL {
          evict := true;
        }
        if !evict && !lastPlayed {
          LoadInto(i, LoadedSet() + {i});
        }
      }
    }

    /**
      The pool rule of the scan: banners are loaded until the pool is full; the first entry after
      that switches to the sliding window. A last-played scan loads nothing.
     */
    method CheckFiles(lastPlayed: bool)
      requires Valid() && LoadedSet() == {} && !evict && !starved
      modifies this`owner, this`starved, this`evict, this`start, banners, used
      ensures lastPlayed ==> Valid() && LoadedSet() == {} && !evict && !starved
      ensures !lastPlayed ==> Windowed(0) && start.Prefix?
      ensures !lastPlayed ==> LoadedSet() == Below(info, start.below) && (evict ==> |LoadedSet()| == POOL)
    {
      ghost var k := 0;
      for i := 0 to |info|
        invariant Valid() && !starved
        invariant lastPlayed ==> LoadedSet() == {} && !evict
        invariant !lastPlayed ==> LoadedSet() == Below(info, k) && |LoadedSet()| <= POOL && 0 <= k <= i
        invariant !lastPlayed ==> if evict then |LoadedSet()| == POOL else k == i
      {
        ScanEntry(i, lastPlayed);
        if !evict { k := i + 1; }
      }
      start := Prefix(k);
      if !lastPlayed && evict {
        FullPrefixCovers(info, columns, k);
      }
    }

    method CountTakers() returns (gameCount: int)
      ensures gameCount == |Takers(info, |info|)|
    {
      gameCount := 0;
      for i := 0 to |info|
        invariant gameCount == |Takers(info, i)|
      {
        assert Takers(info, i + 1) == Takers(info, i) + if TakesBanner(info[i]) then {i} else {};
        if TakesBanner(info[i]) {
          gameCount := gameCount + 1;
        }
      }
    }

    /** Load lines `from` to `to`, keeping inside `room`. */
    method LoadLines(from: int, to: int, ghost room: set<int>)
      requires Valid() && 0 <= from <= to + 1
      requires LoadedSet() <= room && OnLines(info, columns, from, to) <= room && FitsPool(room)
      modifies this`owner, this`starved, banners, used
      ensures Valid() && starved == old(starved)
      ensures LoadedSet() == old(LoadedSet()) + OnLines(info, columns, from, to)
    {
      hide OnLines, LoadedSet, Valid, FitsPool;
      ColumnsOk();
      ghost var before := LoadedSet();
      if from <= to { LinesGrow(info, columns, from, from, to); }
      else { NoLines(info, columns, from, to); }
      for line := from to to + 1
        invariant Valid() && starved == old(starved)
        invariant LoadedSet() == before + OnLines(info, columns, from, line - 1)
      {
        LinesGrow(info, columns, from, line, to);
        LoadLine(line, room);
      }
    }

    /** The first line of the window around `targetSlot`, clamped as the jump clamps it. */
    method ClampedTop(targetSlot: int, numberOfLines: int) returns (startLine: int)
      requires columns > 0 && numberOfLines >= TOTAL_ROWS
      ensures startLine == Min(Max(targetSlot, 0) / columns, numberOfLines - TOTAL_ROWS) >= 0
    {
      var target := targetSlot;
      if target < 0 { target := 0; }
      startLine := target / columns;
      var maxStart := numberOfLines - TOTAL_ROWS;
      if maxStart < 0 { maxStart := 0; }
      if startLine > maxStart { startLine := maxStart; }
      if startLine < 0 { startLine := 0; }
    }

    /** With all banners fitting the pool, load the lines outside `first` to `last` too. */
    method FillRest(first: int, last: int, numberOfLines: int, ghost room: set<int>)
      requires Valid() && 0 <= first <= last < numberOfLines
      requires LoadedSet() == OnLines(info, columns, first, last) && FitsPool(room)
      requires room == Below(info, |info|) == OnLines(info, columns, 0, numberOfLines - 1)
      modifies this`owner, this`starved, banners, used
      ensures Valid() && starved == old(starved) && LoadedSet() == room
    {
      hide OnLines, Below, LoadedSet, FitsPool, Valid;
      ColumnsOk();
      LinesJoin(info, columns, first, last, numberOfLines);
      LoadLines(0, first - 1, room);
      LoadLines(last + 1, numberOfLines - 1, room);
    }

    /**
      The last-played loader: the lines around the target, then, if all banners fit the pool,
      the rest of the folder.
     */
    method BgLoadLastPlayed(targetSlot: int, numberOfLines: int) returns (top: int)
      requires Valid() && LoadedSet() == {} && !starved
      requires numberOfLines >= TOTAL_ROWS && |info| <= numberOfLines * columns
      modifies this`owner, this`starved, this`evict, this`start, banners, used
      ensures top == Min(Max(targetSlot, 0) / columns, numberOfLines - TOTAL_ROWS) >= 0
      ensures Windowed(top)
      ensures evict <==> |Takers(info, |info|)| > 128
    {
      hide OnLines, Below, Takers, Window, Cover, LoadedSet, FitsPool, Room;
      var gameCount := CountTakers();
      var resident := gameCount <= POOL;
      evict := !resident;
      top := ClampedTop(targetSlot, numberOfLines);
      start := Around(top - PRELOAD);
      var first, last := top - PRELOAD, top + TOTAL_ROWS + PRELOAD;
      if first < 0 { first := 0; }
      if last >= numberOfLines { last := numberOfLines - 1; }
      ghost var room := Room(info, columns, first, last, resident);
      RoomFits(info, columns, first, last, resident);
      LinesAround(info, columns, top, numberOfLines);
      NothingYet();
      LoadLines(first, last, room);
      assert LoadedSet() == OnLines(info, columns, first, last);
      if resident {
        FillRest(first, last, numberOfLines, room);
      }
    }

    /**
      Leaving the folder: every entry that may hold a buffer gives it back, so all 128 are free
      even before the table is cleared.
     */
    method ReleaseAll()
      requires Valid()
      modifies this`owner, banners, used
      ensures Valid() && LoadedSet() == {} && forall s :: 0 <= s < POOL ==> !used[s]
    {
      for i := 0 to |info|
        invariant Valid()
        invariant forall k :: k in LoadedSet() ==> k >= i
      {
        assert OwnedAt(i, info[i], banners[i], owner, starved);
        if TakesBanner(info[i]) {
          Free(i);
        }
      }
      forall s | 0 <= s < POOL ensures !used[s] {
        assert owner[s] in LoadedSet() || !used[s];
      }
      for s := 0 to POOL
        invariant Valid() && LoadedSet() == {} && forall r :: 0 <= r < POOL ==> !used[r]
      {
        used[s] := false;
      }
    }

    lemma NothingYet()
      requires LoadedSet() == {}
      ensures forall s: set<int> :: LoadedSet() + s == s
    {
    }
  }
}
