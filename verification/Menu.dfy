/**
  Browsing: the cursor, the scrolling grid and the banner window move together. The menu decides
  whether to scroll by reading line positions; every run of inputs and frames keeps all three in
  agreement.
 */
module Menu {
  import G = Grid
  import B = Banners
  import opened Common

  datatype Input = Right | Left | Down | Up | NextFrame

  /** Where the cursor and the window are. */
  datatype Place = Place(slot: int, top: int)

  /**
    What an input does, told by rows alone. `refused` is whether some line is still moving against
    the scroll; only a scroll can be refused.
   */
  function Move(p: Place, columns: int, lines: int, input: Input, refused: bool): Place
    requires columns > 0
  {
    var row := p.slot / columns - p.top;
    match input
    case Right => if p.slot % columns == columns - 1 then p else p.(slot := p.slot + 1)
    case Left => if p.slot % columns == 0 then p else p.(slot := p.slot - 1)
    case Down =>
      if row < 3 then p.(slot := p.slot + columns)
      else if p.top == lines - 4 || refused then p
      else Place(p.slot + columns, p.top + 1)
    case Up =>
      if row > 0 then p.(slot := p.slot - columns)
      else if p.top == 0 || refused then p
      else Place(p.slot - columns, p.top - 1)
    case NextFrame => p
  }

  /** Dividing by the row length, one row and one slot at a time. */
  lemma RowOf(slot: int, columns: int)
    requires columns in {3, 4, 8}
    ensures (slot + columns) / columns == slot / columns + 1
    ensures (slot - columns) / columns == slot / columns - 1
    ensures slot % columns != columns - 1 ==> (slot + 1) / columns == slot / columns
    ensures slot % columns != 0 ==> (slot - 1) / columns == slot / columns
  {
    if columns == 3 {
    } else if columns == 4 {
    }
  }

  /** What the menu's two slot tests, made before it looks at positions, say about rows. */
  lemma SlotTests(slot: int, top: int, columns: int, lines: int)
    requires columns in {3, 4, 8} && G.CursorIn(slot, top, columns, lines)
    ensures 0 <= slot / columns - top <= 3 && 0 <= top <= lines - 4 && 0 <= slot / columns < lines
    ensures lines - top == 4 ==> (slot + columns > lines * columns - 1 <==> slot / columns - top == 3)
    ensures top == 0 ==> (slot - columns < 0 <==> slot / columns - top == 0)
  {
    B.LineBounds(slot, columns, lines - 1);
    B.LineBounds(slot, columns, lines - 2);
    B.LineBounds(slot, columns, 0);
  }

  lemma RowsBoundSlot(slot: int, top: int, columns: int, lines: int)
    requires columns in {3, 4, 8} && 0 <= top <= lines - 4 && top <= slot / columns <= top + 3
    ensures G.CursorIn(slot, top, columns, lines)
  {
    B.LineBounds(slot, columns, lines - 1);
    B.LineBounds(slot, columns, 0);
  }

  /** No input takes the cursor out of the window, or the window out of the list. */
  lemma MoveKeepsCursor(p: Place, columns: int, lines: int, input: Input, refused: bool)
    requires columns in {3, 4, 8} && G.CursorIn(p.slot, p.top, columns, lines)
    ensures var q := Move(p, columns, lines, input, refused); G.CursorIn(q.slot, q.top, columns, lines)
  {
    hide G.CursorIn;
    SlotTests(p.slot, p.top, columns, lines);
    RowOf(p.slot, columns);
    var q := Move(p, columns, lines, input, refused);
    RowsBoundSlot(q.slot, q.top, columns, lines);
  }

  /**
    What the moves are for, in rows and columns of the list: one step, kept inside row and list, with
    the window following only when the row would leave it.
   */
  lemma MoveMeans(p: Place, columns: int, lines: int, input: Input, refused: bool)
    requires columns in {3, 4, 8} && G.CursorIn(p.slot, p.top, columns, lines)
    ensures
      var q := Move(p, columns, lines, input, refused);
      var row, column, row', column' := p.slot / columns, p.slot % columns, q.slot / columns, q.slot % columns;
      match input
      case Right => q.top == p.top && row' == row && column' == Min(column + 1, columns - 1)
      case Left => q.top == p.top && row' == row && column' == Max(column - 1, 0)
      case Down => column' == column && (
        if row < p.top + 3 then row' == row + 1 && q.top == p.top
        else if row == lines - 1 || refused then q == p
        else row' == row + 1 && q.top == p.top + 1)
      case Up => column' == column && (
        if row > p.top then row' == row - 1 && q.top == p.top
        else if row == 0 || refused then q == p
        else row' == row - 1 && q.top == p.top - 1)
      case NextFrame => q == p
  {
    hide G.CursorIn;
    SlotTests(p.slot, p.top, columns, lines);
    RowOf(p.slot, columns);
    ColumnOf(p.slot, columns);
  }

  lemma ColumnOf(slot: int, columns: int)
    requires columns in {3, 4, 8}
    ensures (slot + columns) % columns == slot % columns == (slot - columns) % columns
    ensures slot % columns != columns - 1 ==> (slot + 1) % columns == slot % columns + 1
    ensures slot % columns != 0 ==> (slot - 1) % columns == slot % columns - 1
  {
    RowOf(slot, columns);
    Remainder(slot, columns);
    Remainder(slot + columns, columns);
    Remainder(slot - columns, columns);
    Remainder(slot + 1, columns);
    Remainder(slot - 1, columns);
  }

  lemma Remainder(slot: int, columns: int)
    requires columns in {3, 4, 8}
    ensures slot % columns == slot - (if columns == 3 then 3 * (slot / 3) else if columns == 4 then 4 * (slot / 4) else 8 * (slot / 8))
  {
  }

  /** Enough lines for all entries, and never fewer than fill the screen. */
  function LinesFor(count: int, columns: int): int
    requires columns > 0
  {
    if (count + (columns - 1)) / columns < 4 then 4 else (count + (columns - 1)) / columns
  }

  /**
    There are lines enough for every entry, at least four, and no more than the table of lines has
    exactly up to 240 lines of entries.
   */
  lemma LinesHold(count: int, columns: int)
    requires columns in {3, 4, 8} && 0 <= count
    ensures 4 <= LinesFor(count, columns) && count <= LinesFor(count, columns) * columns
    ensures LinesFor(count, columns) <= G.MAX_LINES <==> count <= G.MAX_LINES * columns
  {
    if columns == 3 {
    } else if columns == 4 {
    }
  }

  class Screen {
    const grid: G.Browser
    const pool: B.Pool

    /** Grid, cursor and banner window agree. */
    ghost predicate Valid()
      reads this, grid, grid.lines, pool, pool.banners, pool.used
    {
      && grid.Valid() && pool.Windowed(grid.topLine)
      && pool.columns == grid.columns
      && |pool.info| <= grid.numberOfLines * grid.columns
    }

    ghost function Here(): Place
      reads grid
    {
      Place(grid.selectedSlot, grid.topLine)
    }

    /** A folder just scanned. */
    constructor FromScan(info: seq<B.Info>, columns: int)
      requires columns in {3, 4, 8} && |info| <= G.MAX_LINES * columns
      ensures Valid() && Here() == Place(0, 0) && pool.info == info
    {
      LinesHold(|info|, columns);
      var g := new G.Browser(LinesFor(|info|, columns), columns);
      var p := new B.Pool(info, columns);
      p.CheckFiles(false);
      grid, pool := g, p;
    }

    /** The folder of the last-played entry `slot`: scanned bare, its window filled, then shown. */
    constructor FromLastPlayed(info: seq<B.Info>, columns: int, slot: int)
      requires columns in {3, 4, 8} && |info| <= G.MAX_LINES * columns && 0 <= slot < |info|
      ensures Valid() && grid.selectedSlot == slot && pool.info == info
    {
      LinesHold(|info|, columns);
      var lines := LinesFor(|info|, columns);
      var g := new G.Browser(lines, columns);
      var p := new B.Pool(info, columns);
      p.CheckFiles(true);
      var top := p.BgLoadLastPlayed(slot, lines);
      g.JumpToSlot(slot);
      grid, pool := g, p;
    }

    method MoveRight()
      requires Valid()
      modifies grid
      ensures Valid() && Here() == Move(old(Here()), grid.columns, grid.numberOfLines, Right, false)
    {
      hide G.LineAt, G.CursorIn, B.StartOk;
      MoveKeepsCursor(Here(), grid.columns, grid.numberOfLines, Right, false);
      if grid.selectedSlot % grid.columns != grid.columns - 1 {
        grid.selectedSlot := grid.selectedSlot + 1;
      }
    }

    method MoveLeft()
      requires Valid()
      modifies grid
      ensures Valid() && Here() == Move(old(Here()), grid.columns, grid.numberOfLines, Left, false)
    {
      hide G.LineAt, G.CursorIn, B.StartOk;
      MoveKeepsCursor(Here(), grid.columns, grid.numberOfLines, Left, false);
      if grid.selectedSlot % grid.columns != 0 {
        grid.selectedSlot := grid.selectedSlot - 1;
      }
    }

    method MoveDown()
      requires Valid()
      modifies grid, grid.lines, pool, pool.banners, pool.used
      ensures Valid()
      ensures Here() == Move(old(Here()), grid.columns, grid.numberOfLines, Down, old(grid.Moving(G.Down)))
      ensures grid.topLine == old(grid.topLine) ==> grid.lines[..] == old(grid.lines[..])
    {
      hide G.LineAt, G.PositionAfter, G.CursorIn, B.Window, B.Cover, B.StartOk, B.Below;
      var slot, columns, lines, top := grid.selectedSlot, grid.columns, grid.numberOfLines, grid.topLine;
      SlotTests(slot, top, columns, lines);
      MoveKeepsCursor(Here(), columns, lines, Down, grid.Moving(G.Down));
      if lines - top == 4 && slot + columns > lines * columns - 1 {
        return;
      }
      G.RowTests(grid.lines[slot / columns], slot / columns - top);
      if G.PositionAfter(grid.lines[slot / columns]) >= G.BOTTOM - G.ROW - G.TOLERANCE {
        var moved := grid.NavigateDown();
        if moved {
          pool.LineChanged(1, top, lines);
          grid.selectedSlot := slot + columns;
          grid.topLine := top + 1;
        }
      } else {
        grid.selectedSlot := slot + columns;
      }
    }

    method MoveUp()
      requires Valid()
      modifies grid, grid.lines, pool, pool.banners, pool.used
      ensures Valid()
      ensures Here() == Move(old(Here()), grid.columns, grid.numberOfLines, Up, old(grid.Moving(G.Up)))
      ensures grid.topLine == old(grid.topLine) ==> grid.lines[..] == old(grid.lines[..])
    {
      hide G.LineAt, G.PositionAfter, G.CursorIn, B.Window, B.Cover, B.StartOk, B.Below;
      var slot, columns, lines, top := grid.selectedSlot, grid.columns, grid.numberOfLines, grid.topLine;
      SlotTests(slot, top, columns, lines);
      MoveKeepsCursor(Here(), columns, lines, Up, grid.Moving(G.Up));
      if top == 0 && slot - columns < 0 {
        return;
      }
      G.RowTests(grid.lines[slot / columns], slot / columns - top);
      if top != 0 && G.PositionAfter(grid.lines[slot / columns]) <= G.TOP + G.ROW - G.TOLERANCE {
        var moved := grid.NavigateUp();
        if moved {
          pool.LineChanged(-1, top, lines);
          grid.selectedSlot := slot - columns;
          grid.topLine := top - 1;
        }
      } else {
        grid.selectedSlot := slot - columns;
      }
    }

    /** A scroll is refused exactly while a line still moves the other way. */
    ghost predicate Refused(input: Input)
      requires Valid()
      reads this, grid, grid.lines, pool, pool.banners, pool.used
    {
      (input == Down && grid.Moving(G.Down)) || (input == Up && grid.Moving(G.Up))
    }

    method Step(input: Input)
      requires Valid()
      modifies grid, grid.lines, pool, pool.banners, pool.used
      ensures Valid()
      ensures Here() == Move(old(Here()), grid.columns, grid.numberOfLines, input, old(Refused(input)))
    {
      match input
      case Right => MoveRight();
      case Left => MoveLeft();
      case Down => MoveDown();
      case Up => MoveUp();
      case NextFrame => grid.UpdatePositions();
    }

    /** 135 frames or more without an input: then no move is refused. */
    method Settle(n: nat)
      requires Valid() && n >= 135
      modifies grid.lines
      ensures Valid() && Here() == old(Here()) && forall input :: !Refused(input)
    {
      grid.RunFrames(n);
    }

    /**
      Any run of inputs and frames: every line ends at 104 + 56 (line - top) pixels, the cursor
      stays inside the window and the window inside the list, no load found the pool empty, and
      in sliding-window mode every game's and app's banner on lines top-1 to top+5 is loaded.
     */
    method Run(inputs: seq<Input>)
      requires Valid()
      modifies grid, grid.lines, pool, pool.banners, pool.used
      ensures Valid()
      ensures forall line :: 0 <= line < grid.numberOfLines ==>
        G.PositionAfter(grid.lines[line]) == (104 + 56 * (line - grid.topLine)) * G.PX && grid.lines[line].pending <= 6
      ensures 0 <= grid.topLine <= grid.numberOfLines - 4
      ensures grid.topLine <= grid.selectedSlot / grid.columns <= grid.topLine + 3
      ensures !pool.starved && pool.used.Length == 128
      ensures forall i :: 0 <= i < |pool.info| && pool.info[i].hasBanner && pool.info[i].kind in {B.Game, B.App} ==>
        (pool.evict ==> grid.topLine - 1 <= i / grid.columns <= grid.topLine + 5) ==> pool.banners[i].state == B.Loaded
    {
      for i := 0 to |inputs|
        invariant Valid()
      {
        Step(inputs[i]);
      }
      assert forall line :: 0 <= line < grid.numberOfLines ==> G.LineAt(grid.lines[line], line - grid.topLine);
      forall i | 0 <= i < |pool.info| && pool.info[i].hasBanner && pool.info[i].kind in {B.Game, B.App} &&
        (pool.evict ==> grid.topLine - 1 <= i / grid.columns <= grid.topLine + 5)
        ensures pool.banners[i].state == B.Loaded
      {
        assert pool.evict ==> i in B.Window(pool.info, pool.columns, grid.topLine);
        assert i in pool.LoadedSet();
      }
    }
  }
}
