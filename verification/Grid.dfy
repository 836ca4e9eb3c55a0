/**
  The scrolling grid: per-line positions with pending animation distance.

  Positions are exact. One unit is 1/150 of a pixel, in which every distance the code uses is an
  integer: a row of 56 pixels is 8400, the 10-pixel tolerance 1500, the 0.1-pixel cut-off 15, and
  a frame step of 56 * 0.01 * m / 1.5 pixels is 56 * m.
 */
module Grid {
  import opened Common

  const PX: int := 150
  const TOP: int := 104 * PX
  const BOTTOM: int := 328 * PX
  const ROW: int := 56 * PX
  const TOLERANCE: int := 10 * PX
  const CUTOFF: int := PX / 10
  const TOTAL_ROWS: int := 4
  const MAX_LINES: int := 240
  const MAX_ANIMS: int := 100000

  datatype Direction = Up | Down

  datatype Line = Line(pending: int, direction: Direction, remaining: int, rawY: int)

  /** Where the line will be once its pending animation has played. */
  function PositionAfter(l: Line): int {
    if l.direction == Up then l.rawY - l.remaining else l.rawY + l.remaining
  }

  /**
    A line whose final place is window row `row`. A line still moving down has reached the
    window and counts at most one animation per row from -1 to 4; a line still moving up has
    left row 4 and counts at most one per row from 4 to 0.
   */
  predicate LineAt(l: Line, row: int) {
    && PositionAfter(l) == TOP + ROW * row
    && 0 <= l.remaining <= l.pending * ROW && l.remaining % 56 == 0
    && (l.pending > 0 && l.direction == Down ==> row >= 0 && l.pending <= row + 1 && l.pending <= 6)
    && (l.pending > 0 && l.direction == Up ==> row <= 3 && l.pending <= 4 - row && l.pending <= 5)
  }

  /** `AddAnim` on one line: a pending animation the other way is forgotten, its distance is not. */
  function WithAnim(l: Line, direction: Direction, distance: int): Line {
    var kept := if l.pending > 0 && l.direction != direction then 0 else l.pending;
    if kept < MAX_ANIMS then Line(kept + 1, direction, l.remaining + distance, l.rawY) else l.(pending := kept)
  }

  /** What scrolling on by one line draws at first: window row `row` of the scroll's start. */
  predicate DownEffect(o: Line, n: Line, row: int) {
    if 0 <= row <= 3 then n == Line(o.pending + 1, Up, o.remaining + 56 * PX, o.rawY)
    else if row == 4 then n == Line(1, Up, 28 * PX, 300 * PX)
    else n == o.(rawY := o.rawY - 56 * PX)
  }

  /** The same for scrolling back, where row 4 is on its way out. */
  predicate UpEffect(o: Line, n: Line, row: int) {
    if 0 <= row <= 4 then n == Line(o.pending + 1, Down, o.remaining + 56 * PX, o.rawY)
    else if row == -1 then n == Line(1, Down, 28 * PX, 76 * PX)
    else n == o.(rawY := o.rawY + 56 * PX)
  }

  /** Scrolling back, the tests pick rows -1 and 0 to move in and rows 0 to 4 to animate. */
  lemma UpRows(l: Line, row: int)
    requires LineAt(l, row)
    ensures var y := PositionAfter(l);
      && (y + ROW + TOLERANCE >= TOP && y - TOLERANCE < TOP <==> -1 <= row <= 0)
      && (y < BOTTOM + ROW - TOLERANCE && y >= TOP - ROW + TOLERANCE <==> 0 <= row <= 4)
  {
  }

  /** A visible line is moving after the scroll, so the opposite scroll is refused. */
  lemma UpMovesDown(o: Line, n: Line)
    requires LineAt(o, 1) && UpEffect(o, n, 1)
    ensures n.pending > 0 && n.direction == Down
  {
  }

  lemma DownMovesUp(o: Line, n: Line)
    requires LineAt(o, 0) && DownEffect(o, n, 0)
    ensures n.pending > 0 && n.direction == Up
  {
  }

  lemma UpMoves(l: Line, row: int)
    requires LineAt(l, row) && !(l.pending > 0 && l.direction == Up)
    ensures row == -1 ==> var n := WithAnim(l.(rawY := TOP - ROW / 2), Down, ROW / 2); LineAt(n, row + 1) && UpEffect(l, n, row)
    ensures 0 <= row <= 4 ==> var n := WithAnim(l, Down, ROW); LineAt(n, row + 1) && UpEffect(l, n, row)
    ensures row < -1 || row > 4 ==> var n := l.(rawY := l.rawY + ROW); LineAt(n, row + 1) && UpEffect(l, n, row)
  {
  }

  /** With no line above the window, the first visible line is taken for the one moving in, and stays. */
  lemma UpStays(l: Line)
    requires LineAt(l, 0) && !(l.pending > 0 && l.direction == Up)
    ensures WithAnim(l.(rawY := TOP - ROW / 2), Down, ROW / 2) == Line(l.pending + 1, Down, l.remaining + 28 * PX, 76 * PX)
    ensures PositionAfter(WithAnim(l.(rawY := TOP - ROW / 2), Down, ROW / 2)) == TOP + l.remaining
  {
  }

  /** Scrolling on, they pick rows 4 and 5 to move in and rows 0 to 4 to animate. */
  lemma DownRows(l: Line, row: int)
    requires LineAt(l, row)
    ensures var y := PositionAfter(l);
      && (y + TOLERANCE >= BOTTOM && y - ROW - TOLERANCE < BOTTOM <==> 4 <= row <= 5)
      && (y < BOTTOM + ROW - TOLERANCE && y >= TOP - ROW + TOLERANCE <==> 0 <= row <= 4)
  {
  }

  lemma DownMoves(l: Line, row: int)
    requires LineAt(l, row) && !(l.pending > 0 && l.direction == Down)
    ensures row == 4 ==> var n := WithAnim(l.(rawY := BOTTOM - ROW / 2), Up, ROW / 2); LineAt(n, row - 1) && DownEffect(l, n, row)
    ensures 0 <= row <= 3 ==> var n := WithAnim(l, Up, ROW); LineAt(n, row - 1) && DownEffect(l, n, row)
    ensures row < 0 || row > 4 ==> var n := l.(rawY := l.rawY - ROW); LineAt(n, row - 1) && DownEffect(l, n, row)
  {
  }

  /** The menu's two position tests are row tests: last visible row or below, first or above. */
  lemma RowTests(l: Line, row: int)
    requires LineAt(l, row)
    ensures PositionAfter(l) >= BOTTOM - ROW - TOLERANCE <==> row >= 3
    ensures PositionAfter(l) <= TOP + ROW - TOLERANCE <==> row <= 0
  {
  }

  /** One frame of one line: 7 or 8 units of 56, never past the pending distance. */
  function Frame(l: Line): Line {
    if l.pending == 0 then l
    else
      var delta := Min(56 * Min(6 + l.pending, 8), l.remaining);
      var rest := l.remaining - delta;
      var y := if l.direction == Up then l.rawY - delta else l.rawY + delta;
      if rest < CUTOFF then Line(l.pending - 1, l.direction, 0, y) else Line(l.pending, l.direction, rest, y)
  }

  function Frames(l: Line, n: nat): Line
    decreases n
  {
    if n == 0 then l else Frames(Frame(l), n - 1)
  }

  /** A frame never changes where a line will end: the cut-off discards no distance. */
  lemma FrameKeepsPlace(l: Line, row: int)
    requires LineAt(l, row)
    ensures LineAt(Frame(l), row) && PositionAfter(Frame(l)) == PositionAfter(l)
    ensures l.pending >= 0
    ensures l.pending > 0 ==> Frame(l).remaining + Frame(l).pending < l.remaining + l.pending
  {
  }

  /**
    A frame draws the line 392/150 pixels on, 448/150 with two or more animations pending, but never
    past its place; reaching it ends one animation.
   */
  lemma FrameSpeed(l: Line, row: int)
    requires LineAt(l, row) && l.pending > 0
    ensures var n, step := Frame(l), Min(if l.pending == 1 then 392 else 448, l.remaining);
      && n.direction == l.direction && n.remaining == l.remaining - step
      && n.rawY == (if l.direction == Up then l.rawY - step else l.rawY + step)
      && n.pending == (if step == l.remaining then l.pending - 1 else l.pending)
  {
  }

  /** A scroll by one row from rest: drawn evenly and over after exactly 22 frames, a half row after 11. */
  lemma {:induction false} RowTakes22(d: Direction, half: bool, y: int, n: nat)
    ensures var distance, last := if half then 28 * PX else 56 * PX, if half then 11 else 22;
      var gone := Min(392 * n, distance);
      Frames(Line(1, d, distance, y), n)
        == Line(if n < last then 1 else 0, d, distance - gone, if d == Up then y - gone else y + gone)
  {
    hide Frame, Frames;
    var l := Line(1, d, if half then 28 * PX else 56 * PX, y);
    if n == 0 {
      NoFrames(l);
    } else {
      RowTakes22(d, half, y, n - 1);
      OneMoreFrame(l, n - 1);
      NextPosition(d, half, y, n - 1);
    }
  }

  lemma NeverNegative(l: Line, row: int)
    requires LineAt(l, row)
    ensures l.pending >= 0
  {
  }

  /** A line at rest on window row `row` when the grid scrolls on, `n` frames later. */
  lemma DownThenFrames(o: Line, l: Line, row: int, n: nat)
    requires LineAt(o, row) && o.pending == 0 && DownEffect(o, l, row)
    ensures Frames(l, n).pending == if (0 <= row <= 3 && n < 22) || (row == 4 && n < 11) then 1 else 0
    ensures Frames(l, n).pending > 0 ==> Frames(l, n).direction == Up
  {
    hide Frames;
    if 0 <= row <= 4 {
      RowTakes22(Up, row == 4, l.rawY, n);
    } else {
      RestsForever(l, n);
    }
  }

  lemma NextPosition(d: Direction, half: bool, y: int, n: nat)
    ensures var distance, last := if half then 28 * PX else 56 * PX, if half then 11 else 22;
      var gone, more := Min(392 * n, distance), Min(392 * (n + 1), distance);
      Frame(Line(if n < last then 1 else 0, d, distance - gone, if d == Up then y - gone else y + gone))
        == Line(if n + 1 < last then 1 else 0, d, distance - more, if d == Up then y - more else y + more)
  {
  }

  /** Frames until a line is at rest. */
  function Settling(l: Line): int { (l.remaining + 391) / 392 + l.pending }

  lemma FrameSettles(l: Line, row: int)
    requires LineAt(l, row) && l.pending > 0
    ensures Settling(Frame(l)) < Settling(l)
  {
  }

  lemma NoFrames(l: Line)
    ensures Frames(l, 0) == l
  {
  }

  lemma {:induction false} OneMoreFrame(l: Line, n: nat)
    ensures Frames(l, n + 1) == Frame(Frames(l, n))
    decreases n
  {
    hide Frame;
    if n == 0 {
      NoFrames(Frame(l));
    } else {
      OneMoreFrame(Frame(l), n - 1);
    }
  }

  /** Left alone, a line is at rest on its row after 135 frames. */
  lemma {:induction false} SettlesWithin(l: Line, row: int, n: nat)
    requires LineAt(l, row)
    ensures LineAt(Frames(l, n), row)
    ensures n >= 135 ==> Frames(l, n).pending == 0 && Frames(l, n).rawY == TOP + ROW * row
  {
    hide Frames, Settling;
    SettlesAfter(l, row, n);
    SettlingRange(l, row);
    SettlingRange(Frames(l, n), row);
  }

  lemma SettlingRange(l: Line, row: int)
    requires LineAt(l, row)
    ensures l.pending <= Settling(l) <= 135
    ensures l.pending > 0 || (l.pending == 0 && l.rawY == TOP + ROW * row)
  {
  }

  lemma {:induction false} SettlesAfter(l: Line, row: int, n: nat)
    requires LineAt(l, row)
    ensures LineAt(Frames(l, n), row)
    ensures Frames(l, n).pending == 0 || Settling(Frames(l, n)) + n <= Settling(l)
    decreases n
  {
    hide LineAt, Settling, Frame;
    if n > 0 {
      FrameKeepsPlace(l, row);
      SettlesAfter(Frame(l), row, n - 1);
      if l.pending > 0 {
        FrameSettles(l, row);
      } else {
        FrameAtRest(l);
        RestsForever(l, n);
      }
    }
  }

  lemma FrameAtRest(l: Line)
    requires l.pending == 0
    ensures Frame(l) == l
  {
  }

  lemma {:induction false} RestsForever(l: Line, n: nat)
    requires l.pending == 0
    ensures Frames(l, n) == l
  {
    if n > 0 {
      RestsForever(l, n - 1);
    }
  }

  /** The cursor is inside the window and the window inside the list. */
  ghost predicate CursorIn(slot: int, top: int, columns: int, lines: int) {
    && columns > 0
    && 0 <= top <= lines - TOTAL_ROWS
    && top <= slot / columns <= top + 3
    && 0 <= slot < lines * columns
  }

  class Browser {
    const lines: array<Line>
    var numberOfLines: int
    var columns: int
    var topLine: int
    var selectedSlot: int

    ghost predicate Shape()
      reads this
    {
      lines.Length == MAX_LINES && TOTAL_ROWS <= numberOfLines <= MAX_LINES && columns in {3, 4, 8}
    }

    /** The position law, for a window whose first line is `top`. */
    ghost predicate LinesAt(top: int)
      requires Shape()
      reads this, lines
    {
      forall i :: 0 <= i < numberOfLines ==> LineAt(lines[i], i - top)
    }

    ghost predicate Valid()
      reads this, lines
    {
      Shape() && LinesAt(topLine) && CursorIn(selectedSlot, topLine, columns, numberOfLines)
    }

    constructor (numberOfLines: int, columns: int)
      requires TOTAL_ROWS <= numberOfLines <= MAX_LINES && columns in {3, 4, 8}
      ensures Valid() && fresh(lines) && topLine == 0 && selectedSlot == 0
      ensures this.numberOfLines == numberOfLines && this.columns == columns
    {
      lines := new Line[MAX_LINES](i => Line(0, Up, 0, 0));
      this.numberOfLines, this.columns := numberOfLines, columns;
      topLine, selectedSlot := 0, 0;
      new;
      Setup();
    }

    method Setup()
      requires Shape()
      modifies this, lines
      ensures Valid() && topLine == 0 && selectedSlot == 0
      ensures numberOfLines == old(numberOfLines) && columns == old(columns)
    {
      for line := 0 to MAX_LINES
        modifies lines
        invariant forall i :: 0 <= i < line ==> lines[i].pending == 0 && lines[i].remaining == 0
      {
        lines[line] := lines[line].(pending := 0, remaining := 0);
      }
      selectedSlot := 0;
      topLine := 0;
      for line := 0 to numberOfLines
        modifies lines
        invariant forall i :: line <= i < MAX_LINES ==> lines[i].pending == 0 && lines[i].remaining == 0
        invariant forall i :: 0 <= i < line ==> LineAt(lines[i], i)
      {
        lines[line] := lines[line].(rawY := TOP + line * ROW);
      }
    }

    /** Put the cursor on `slot`, scrolled to its line but never past the last full window. */
    method JumpToSlot(slot: int)
      requires Shape() && slot < numberOfLines * columns && (slot < 0 ==> Valid())
      modifies this, lines
      ensures Valid()
      ensures numberOfLines == old(numberOfLines) && columns == old(columns)
      ensures slot >= 0 ==> selectedSlot == slot && topLine == Min(slot / columns, numberOfLines - TOTAL_ROWS)
      ensures slot < 0 ==> lines[..] == old(lines[..]) && topLine == old(topLine) && selectedSlot == old(selectedSlot)
    {
      if slot < 0 { return; }
      var start := slot / columns;
      var maxStart := numberOfLines - TOTAL_ROWS;
      if maxStart < 0 { maxStart := 0; }
      if start > maxStart { start := maxStart; }
      if start < 0 { start := 0; }
      topLine := start;
      selectedSlot := slot;
      for line := 0 to numberOfLines
        modifies lines
        invariant forall i :: 0 <= i < line ==> LineAt(lines[i], i - start)
      {
        lines[line] := lines[line].(pending := 0, remaining := 0, rawY := TOP - ROW * start + line * ROW);
      }
    }

    method AddAnim(line: int, direction: Direction, distance: int)
      requires 0 <= line < lines.Length
      modifies lines
      ensures forall i :: 0 <= i < lines.Length && i != line ==> lines[i] == old(lines[i])
      ensures lines[line] == WithAnim(old(lines[line]), direction, distance)
    {
      if lines[line].pending > 0 && lines[line].direction != direction {
        lines[line] := lines[line].(pending := 0);
      }
      if lines[line].pending < MAX_ANIMS {
        lines[line] := lines[line].(pending := lines[line].pending + 1,
                                    remaining := lines[line].remaining + distance, direction := direction);
      }
    }

    ghost predicate Moving(direction: Direction)
      requires Shape()
      reads this, lines
    {
      exists i :: 0 <= i < numberOfLines && lines[i].pending > 0 && lines[i].direction == direction
    }

    /**
      Scroll one line towards the start. Refused exactly while some line is still moving up;
      otherwise every line's final position moves down one row, except that with the list at its
      start, where the menu never calls it, the first line is left behind.
     */
    method NavigateUp() returns (moved: bool)
      requires Shape() && LinesAt(topLine) && 0 <= topLine <= numberOfLines - TOTAL_ROWS
      modifies lines
      ensures moved <==> !old(Moving(Up))
      ensures moved && topLine > 0 ==> LinesAt(topLine - 1)
      ensures moved ==> forall i :: 0 <= i < numberOfLines && (i > 0 || topLine > 0) ==> UpEffect(old(lines[i]), lines[i], i - topLine)
      ensures moved && topLine == 0 ==>
        lines[0] == Line(old(lines[0]).pending + 1, Down, old(lines[0]).remaining + 28 * PX, 76 * PX)
      ensures moved ==> Moving(Down)
      ensures moved && topLine == 0 ==> PositionAfter(lines[0]) == TOP + old(lines[0]).remaining
                                        && forall i :: 1 <= i < numberOfLines ==> LineAt(lines[i], i + 1)
      ensures !moved ==> lines[..] == old(lines[..])
    {
      hide LineAt, WithAnim, UpEffect;
      for line := 0 to numberOfLines
        invariant forall i :: 0 <= i < line ==> !(lines[i].pending > 0 && lines[i].direction == Up)
        invariant lines[..] == old(lines[..])
      {
        if lines[line].pending > 0 && lines[line].direction == Up {
          return false;
        }
      }
      var foundMoveIn := false;
      for line := 0 to numberOfLines
        invariant foundMoveIn <==> line >= topLine && line > 0
        invariant forall i :: 0 <= i < line && (i > 0 || topLine > 0) ==>
          LineAt(lines[i], i - (topLine - 1)) && UpEffect(old(lines[i]), lines[i], i - topLine)
        invariant topLine == 0 && line > 0 ==>
          lines[0] == Line(old(lines[0]).pending + 1, Down, old(lines[0]).remaining + 28 * PX, 76 * PX)
        invariant forall i :: line <= i < numberOfLines ==> lines[i] == old(lines[i])
      {
        assert LineAt(lines[line], line - topLine);
        foundMoveIn := UpLine(line, foundMoveIn);
      }
      UpMovesDown(old(lines[topLine + 1]), lines[topLine + 1]);
      assert LineAt(old(lines[topLine + 1]), 1);
      return true;
    }

    /** One line's turn in the dispatch. */
    method UpLine(line: int, foundMoveIn: bool) returns (found: bool)
      requires Shape() && 0 <= line < numberOfLines && 0 <= topLine && LineAt(lines[line], line - topLine)
      requires !(lines[line].pending > 0 && lines[line].direction == Up)
      requires foundMoveIn <==> line >= topLine && line > 0
      modifies lines
      ensures found <==> line + 1 >= topLine
      ensures forall i :: 0 <= i < lines.Length && i != line ==> lines[i] == old(lines[i])
      ensures if line > 0 || topLine > 0
              then LineAt(lines[line], line - topLine + 1) && UpEffect(old(lines[line]), lines[line], line - topLine)
              else topLine == 0 ==> lines[0] == Line(old(lines[0]).pending + 1, Down, old(lines[0]).remaining + 28 * PX, 76 * PX)
    {
      hide LineAt, WithAnim, UpEffect;
      if line == topLine { UpStays(lines[line]); }
      UpRows(lines[line], line - topLine);
      UpMoves(lines[line], line - topLine);
      found := foundMoveIn;
      var partial := PositionAfter(lines[line]);
      if !found && partial + ROW + TOLERANCE >= TOP && partial - TOLERANCE < TOP {
        lines[line] := lines[line].(rawY := TOP - ROW / 2);
        found := true;
        AddAnim(line, Down, ROW / 2);
      } else if partial < BOTTOM + ROW - TOLERANCE && partial >= TOP - ROW + TOLERANCE {
        AddAnim(line, Down, ROW);
      } else {
        lines[line] := lines[line].(rawY := lines[line].rawY + ROW);
      }
    }

    /** Scroll one line towards the end; refused exactly while some line is still moving down. */
    method NavigateDown() returns (moved: bool)
      requires Shape() && LinesAt(topLine) && 0 <= topLine <= numberOfLines - TOTAL_ROWS
      modifies lines
      ensures moved <==> !old(Moving(Down))
      ensures moved ==> LinesAt(topLine + 1) && Moving(Up)
      ensures moved ==> forall i :: 0 <= i < numberOfLines ==> DownEffect(old(lines[i]), lines[i], i - topLine)
      ensures !moved ==> lines[..] == old(lines[..])
    {
      hide LineAt, WithAnim, DownEffect;
      for line := 0 to numberOfLines
        invariant forall i :: 0 <= i < line ==> !(lines[i].pending > 0 && lines[i].direction == Down)
        invariant lines[..] == old(lines[..])
      {
        if lines[line].pending > 0 && lines[line].direction == Down {
          return false;
        }
      }
      var foundMoveIn := false;
      for line := 0 to numberOfLines
        invariant foundMoveIn <==> line > topLine + 4
        invariant forall i :: 0 <= i < line ==> LineAt(lines[i], i - (topLine + 1))
        invariant forall i :: 0 <= i < line ==> DownEffect(old(lines[i]), lines[i], i - topLine)
        invariant forall i :: line <= i < numberOfLines ==> lines[i] == old(lines[i])
      {
        assert LineAt(lines[line], line - topLine);
        DownRows(lines[line], line - topLine);
        DownMoves(lines[line], line - topLine);
        var partial := PositionAfter(lines[line]);
        if !foundMoveIn && partial + TOLERANCE >= BOTTOM && partial - ROW - TOLERANCE < BOTTOM {
          lines[line] := lines[line].(rawY := BOTTOM - ROW / 2);
          foundMoveIn := true;
          AddAnim(line, Up, ROW / 2);
        } else if partial < BOTTOM + ROW - TOLERANCE && partial >= TOP - ROW + TOLERANCE {
          AddAnim(line, Up, ROW);
        } else {
          lines[line] := lines[line].(rawY := lines[line].rawY - ROW);
        }
      }
      DownMovesUp(old(lines[topLine]), lines[topLine]);
      assert LineAt(old(lines[topLine]), 0);
      return true;
    }

    /** The position part of a frame, for one line. */
    static method UpdateLine(line: Line) returns (l: Line)
      ensures l == Frame(line)
    {
      l := line;
      var multiplier := 3 * 2;
      if l.pending != 0 {
        multiplier := multiplier + l.pending;
        if multiplier > 8 { multiplier := 8; }
      }
      if l.pending != 0 {
        var delta := 56 * multiplier;
        if delta > l.remaining { delta := l.remaining; }
        l := l.(remaining := l.remaining - delta);
        if l.direction == Up {
          l := l.(rawY := l.rawY - delta);
        } else {
          l := l.(rawY := l.rawY + delta);
        }
        if l.remaining < CUTOFF {
          l := l.(pending := l.pending - 1, remaining := 0);
        }
      }
    }

    method UpdatePositions()
      requires Shape() && LinesAt(topLine)
      modifies lines
      ensures LinesAt(topLine)
      ensures forall i :: 0 <= i < numberOfLines ==> lines[i] == Frame(old(lines[i]))
    {
      hide LineAt, Frame;
      for line := 0 to numberOfLines
        invariant forall i :: 0 <= i < line ==> lines[i] == Frame(old(lines[i])) && LineAt(lines[i], i - topLine)
        invariant forall i :: line <= i < numberOfLines ==> lines[i] == old(lines[i])
      {
        FrameKeepsPlace(lines[line], line - topLine);
        lines[line] := UpdateLine(lines[line]);
      }
    }

    /** `n` frames without a dispatch: from the 135th on no line moves, so no dispatch is refused. */
    method RunFrames(n: nat)
      requires Shape() && LinesAt(topLine)
      modifies lines
      ensures LinesAt(topLine)
      ensures forall i :: 0 <= i < numberOfLines ==> lines[i] == Frames(old(lines[i]), n)
      ensures n >= 135 ==> !Moving(Up) && !Moving(Down)
    {
      hide LineAt, Frame, Frames;
      forall i | 0 <= i < numberOfLines ensures Frames(lines[i], 0) == lines[i] {
        NoFrames(lines[i]);
      }
      for k := 0 to n
        invariant LinesAt(topLine)
        invariant forall i :: 0 <= i < numberOfLines ==> lines[i] == Frames(old(lines[i]), k)
      {
        forall i | 0 <= i < numberOfLines ensures Frame(lines[i]) == Frames(old(lines[i]), k + 1) {
          OneMoreFrame(old(lines[i]), k);
        }
        UpdatePositions();
      }
      forall i | 0 <= i < numberOfLines && n >= 135 ensures lines[i].pending == 0 {
        assert LineAt(old(lines[i]), i - topLine);
        SettlesWithin(old(lines[i]), i - topLine, n);
      }
    }

    /**
      A scroll on from rest, as the menu makes it, and `n` frames: a scroll back is refused for exactly
      22 of them, another scroll on never.
     */
    method DownFromRest(n: nat) returns (moved: bool)
      requires Shape() && LinesAt(topLine) && 0 <= topLine <= numberOfLines - TOTAL_ROWS
      requires !Moving(Up) && !Moving(Down)
      modifies lines, `topLine
      ensures moved && topLine == old(topLine) + 1 && LinesAt(topLine) && !Moving(Down) && (Moving(Up) <==> n < 22)
    {
      hide LineAt, Frames, DownEffect;
      ghost var start := lines[..];
      forall i | 0 <= i < numberOfLines ensures start[i].pending == 0 {
        NeverNegative(lines[i], i - topLine);
      }
      moved := NavigateDown();
      forall i | 0 <= i < numberOfLines
        ensures var l := Frames(lines[i], n);
          && (l.pending > 0 ==> n < 22 && l.direction == Up)
          && (0 <= i - topLine <= 3 && n < 22 ==> l.pending > 0)
      {
        assert LineAt(start[i], i - topLine);
        DownThenFrames(start[i], lines[i], i - topLine, n);
      }
      ghost var first := topLine;
      topLine := topLine + 1;
      RunFrames(n);
      assert n < 22 ==> lines[first].pending > 0 && lines[first].direction == Up;
    }
  }
}
