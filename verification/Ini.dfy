/**
  The settings reader: one pass splits the file in place, in the buffer that later lookups read.
 */
module Ini {
  import opened IniSpec

  /** The buffer holds `s` and the NUL after it, so `end` is |s|. */
  predicate Buffer(data: array<char>, s: string)
    reads data
  {
    data[..] == s + [NUL]
  }

  // ----- Facts about scanning forward -----

  lemma {:induction false} CspnPasses(t: string, stops: string)
    ensures forall j :: 0 <= j < Cspn(t, stops) ==> t[j] != NUL && t[j] !in stops
    ensures Cspn(t, stops) < |t| ==> t[Cspn(t, stops)] == NUL || t[Cspn(t, stops)] in stops
  {
    if t != "" && t[0] != NUL && t[0] !in stops {
      CspnPasses(t[1..], stops);
    }
  }

  lemma {:induction false} CspnIs(t: string, stops: string, n: nat)
    requires n <= |t| && forall j :: 0 <= j < n ==> t[j] != NUL && t[j] !in stops
    requires n < |t| ==> t[n] == NUL || t[n] in stops
    ensures Cspn(t, stops) == n
  {
    if n > 0 {
      CspnIs(t[1..], stops, n - 1);
    }
  }

  lemma {:induction false} LineEndIs(t: string, n: nat)
    requires n <= |t| && (forall j :: 0 <= j < n ==> t[j] != '\n') && (n < |t| ==> t[n] == '\n')
    ensures LineEnd(t) == n
  {
    if n > 0 {
      LineEndIs(t[1..], n - 1);
    }
  }

  lemma {:induction false} BlanksIs(t: string, n: nat)
    requires n <= |t| && (forall j :: 0 <= j < n ==> Blank(t[j])) && (n < |t| ==> !Blank(t[n]))
    ensures Blanks(t) == n
  {
    if n > 0 {
      BlanksIs(t[1..], n - 1);
    }
  }

  lemma {:induction false} TrimLenIs(t: string, n: nat)
    requires n <= |t| && (forall j :: n <= j < |t| ==> Blank(t[j])) && (n > 0 ==> !Blank(t[n - 1]))
    ensures TrimLen(t) == n
  {
    if n < |t| {
      TrimLenIs(t[..|t| - 1], n);
    }
  }

  // ----- The helpers -----

  method StrCspn(data: array<char>, p: nat, stops: string, ghost pre: string, ghost t: string) returns (r: nat)
    requires Buffer(data, pre + t) && p == |pre|
    ensures r == p + Cspn(t, stops)
  {
    r := p;
    while data[r] != NUL && data[r] !in stops
      invariant p <= r <= p + |t|
      invariant forall j :: 0 <= j < r - p ==> t[j] != NUL && t[j] !in stops
      decreases p + |t| - r
    {
      assert r < p + |t| && data[r] == t[r - p];
      r := r + 1;
    }
    assert r < p + |t| ==> data[r] == t[r - p];
    CspnIs(t, stops, r - p);
  }

  method DiscardLine(data: array<char>, end: nat, p: nat, ghost pre: string, ghost t: string) returns (r: nat)
    requires Buffer(data, pre + t) && p == |pre| && end == |pre + t|
    modifies data
    ensures r == p + LineEnd(t) && Buffer(data, pre + Nuls(r - p) + t[r - p..])
  {
    hide Buffer, Whole, Nuls;
    StartsWhole(data, pre, t);
    r := p;
    ghost var was := data[..];
    NoNuls(pre);
    while r < end && data[r] != '\n'
      invariant p <= r <= end
      invariant data[..r] == pre + Nuls(r - p)
      invariant forall j :: r <= j < data.Length ==> data[j] == was[j]
      invariant forall j :: 0 <= j < r - p ==> t[j] != '\n'
    {
      WholeAt(was, pre, t, r - p);
      MoreNuls(pre, r - p);
      data[r] := NUL;
      assert data[..r + 1] == data[..r] + [NUL];
      r := r + 1;
    }
    WholeAt(was, pre, t, r - p);
    LineEndIs(t, r - p);
    Rebuilt(data, was, pre, Nuls(r - p), t);
  }

  lemma NoNuls(pre: string)
    ensures pre + Nuls(0) == pre
  {
  }

  lemma MoreNuls(pre: string, n: nat)
    ensures pre + Nuls(n) + [NUL] == pre + Nuls(n + 1)
  {
    assert Nuls(n) + [NUL] == Nuls(n + 1);
  }

  /** Blanks before `p` become NULs; the character before the text is not one, so none outside it does. */
  method TrimBack(data: array<char>, p0: int, ghost pre: string, ghost t: string, ghost post: string)
    requires Buffer(data, pre + t + post) && p0 == |pre| + |t| - 1
    requires pre == "" || !Blank(pre[|pre| - 1]) || (t != "" && !Blank(t[0]))
    modifies data
    ensures Buffer(data, pre + Trimmed(t) + post)
  {
    var p := p0;
    while p >= 0 && Blank(data[p])
      invariant |pre| - 1 <= p <= p0
      invariant forall j :: 0 <= j < data.Length ==> data[j] == if p < j <= p0 then NUL else (pre + t + post + [NUL])[j]
      invariant forall j :: p + 1 - |pre| <= j < |t| ==> Blank(t[j])
    {
      assert p >= |pre| && data[p] == t[p - |pre|];
      data[p] := NUL;
      p := p - 1;
    }
    assert p >= |pre| ==> data[p] == t[p - |pre|];
    TrimLenIs(t, p + 1 - |pre|);
  }

  /** The '=' and the blanks after it become NULs. */
  method ClearEquals(data: array<char>, p: nat, ghost pre: string, ghost t: string) returns (r: nat)
    requires Buffer(data, pre + t) && p == |pre| && t != "" && t[0] == '='
    modifies data
    ensures r == p + 1 + Blanks(t[1..]) && Buffer(data, pre + Nuls(r - p) + t[r - p..])
  {
    data[p] := NUL;
    r := p + 1;
    while Blank(data[r])
      invariant p + 1 <= r <= p + |t|
      invariant forall j :: 0 <= j < data.Length ==> data[j] == if p <= j < r then NUL else (pre + t + [NUL])[j]
      invariant forall j :: 1 <= j < r - p ==> Blank(t[j])
      decreases p + |t| - r
    {
      assert r < p + |t| && data[r] == t[r - p];
      data[r] := NUL;
      r := r + 1;
    }
    assert r < p + |t| ==> data[r] == t[r - p];
    BlanksIs(t[1..], r - p - 1);
  }

  lemma UnescapeStep(t: string, i: nat)
    requires i < |t|
    ensures EndsQuote(t[i]) ==> Unescape(t[i..]) == ""
    ensures !EndsQuote(t[i]) && t[i] != '\\' ==> Unescape(t[i..]) == [t[i]] + Unescape(t[i + 1..])
    ensures t[i] == '\\' && (i + 1 == |t| || EndsEscape(t[i + 1])) ==> Unescape(t[i..]) == ""
    ensures t[i] == '\\' && i + 1 < |t| && !EndsEscape(t[i + 1]) ==>
      Unescape(t[i..]) == [EscapedChar(t[i + 1])] + Unescape(t[i + 2..])
  {
    assert t[i..][1..] == t[i + 1..];
    if i + 1 < |t| {
      assert t[i..][2..] == t[i + 2..];
    }
  }

  lemma Grow(done: string, c: char, rest: string)
    ensures done + ([c] + rest) == done + [c] + rest && "" + rest == rest
  {
  }

  /** The write head `q` never catches up with the read head `p`: it starts on the quote. */
  method UnescapeQuotedValue(data: array<char>, end: nat, start: nat, ghost pre: string, ghost t: string) returns (q: nat)
    requires Buffer(data, pre + t) && start == |pre| && end == |pre + t| && t != ""
    modifies data
    ensures q == start + |Unescape(t[1..])| <= end
    ensures Buffer(data, pre + Unescape(t[1..]) + t[q - start..])
  {
    hide Buffer, Whole, Unescape, EscapedChar, EndsQuote, EndsEscape;
    StartsWhole(data, pre, t);
    q := start;
    var p := start + 1;
    ghost var done, was := "", data[..];
    assert pre + "" == pre;
    Grow("", NUL, Unescape(t[1..]));
    EscapeAtEnd();
    while p < end && !EndsQuote(data[p])
      invariant start <= q < p <= end && |done| == q - start
      invariant data[..q] == pre + done
      invariant forall j :: q <= j < data.Length ==> data[j] == was[j]
      invariant Unescape(t[1..]) == done + Unescape(t[p - start..])
    {
      WholeAt(was, pre, t, p - start);
      UnescapeStep(t, p - start);
      var c := data[p];
      if c == '\\' {
        p := p + 1;
        WholeAt(was, pre, t, p - start);
        if EndsEscape(data[p]) {
          Rebuilt(data, was, pre, done, t);
          return;
        }
        c := EscapedChar(data[p]);
      }
      Grow(done, c, Unescape(t[p + 1 - start..]));
      data[q] := c;
      done := done + [c];
      assert data[..q + 1] == data[..q] + [c];
      q, p := q + 1, p + 1;
    }
    WholeAt(was, pre, t, p - start);
    QuoteDone(t, p - start);
    Rebuilt(data, was, pre, done, t);
  }

  lemma EscapeAtEnd()
    ensures EndsEscape(NUL)
  {
  }

  /** The buffer before the work: what is done already, what is to do, and the NUL. */
  predicate Whole(was: string, pre: string, t: string) { was == pre + t + [NUL] }

  lemma StartsWhole(data: array<char>, pre: string, t: string)
    requires Buffer(data, pre + t)
    ensures Whole(data[..], pre, t) && data.Length == |pre| + |t| + 1 && data[..|pre|] == pre
  {
  }

  lemma WholeAt(was: string, pre: string, t: string, i: nat)
    requires Whole(was, pre, t) && i <= |t|
    ensures |pre| + i < |was| && was[|pre| + i] == if i < |t| then t[i] else NUL
  {
  }

  /** The first characters overwritten with `done`, the others as before. */
  lemma Rebuilt(data: array<char>, was: string, pre: string, done: string, t: string)
    requires Whole(was, pre, t) && |done| <= |t| && data.Length == |was|
    requires data[..|pre| + |done|] == pre + done
    requires forall j :: |pre| + |done| <= j < |was| ==> data[j] == was[j]
    ensures done + "" == done && Buffer(data, pre + done + t[|done|..])
  {
    var now := data[..];
    assert now == now[..|pre| + |done|] + now[|pre| + |done|..];
    assert now[|pre| + |done|..] == t[|done|..] + [NUL];
  }

  lemma QuoteDone(t: string, i: nat)
    requires i <= |t| && (i < |t| ==> EndsQuote(t[i]))
    ensures Unescape(t[i..]) == ""
  {
  }

  // ----- One line -----

  /** A prefix without newlines does not move the end of the line. */
  lemma LineEndAfter(s: string, x: string, t: string)
    requires '\n' !in s && |x| == |s| && '\n' !in x
    ensures LineEnd(s + t) == LineEnd(x + t) == |s| + LineEnd(t)
    ensures (s + t)[|s| + LineEnd(t)..] == t[LineEnd(t)..] == (x + t)[|s| + LineEnd(t)..]
  {
    hide LineEnd;
    var n := |s| + LineEnd(t);
    NoNewlineBefore(t);
    LineEndIs(s + t, n);
    LineEndIs(x + t, n);
  }

  lemma {:induction false} NoNewlineBefore(t: string)
    ensures forall j :: 0 <= j < LineEnd(t) ==> t[j] != '\n'
  {
    if t != "" && t[0] != '\n' {
      NoNewlineBefore(t[1..]);
    }
  }

  /** After the work on a line: the rest starts with a newline or a NUL, or is empty. */
  predicate AtLineEnd(t: string, n: nat)
    requires n <= |t|
  {
    n < |t| ==> t[n] == '\n' || t[n] == NUL
  }

  /** Up to the value, nothing is a newline, before the clearing and after. */
  lemma NoNewlineInKey(t: string, n: nat)
    requires n == Cspn(t, "=\n") && n < |t| && t[n] == '='
    ensures '\n' !in t[..ValueStart(t, n)] && '\n' !in KeyPart(t, n)
  {
    hide Cspn, Blanks, Trimmed;
    CspnPasses(t, "=\n");
    BlanksPass(t[n + 1..]);
    TrimmedKeepsOut(t[..n], '\n');
    var m := ValueStart(t, n);
    forall j | 0 <= j < m ensures t[j] != '\n' {
      if j > n {
        assert t[j] == t[n + 1..][j - n - 1];
      }
    }
  }

  lemma TrimmedKeepsOut(t: string, c: char)
    requires c !in t && c != NUL
    ensures c !in Trimmed(t)
  {
    assert c !in t[..TrimLen(t)];
  }

  lemma {:induction false} BlanksPass(t: string)
    ensures forall j :: 0 <= j < Blanks(t) ==> Blank(t[j])
  {
    if t != "" && Blank(t[0]) {
      BlanksPass(t[1..]);
    }
  }

  lemma {:induction false} BlanksStop(t: string)
    ensures Blanks(t) < |t| ==> !Blank(t[Blanks(t)])
  {
    if t != "" && Blank(t[0]) {
      BlanksStop(t[1..]);
    }
  }

  /** A value starts with something other than a blank. */
  lemma ValueNotBlank(t: string, n: nat)
    requires n < |t| && ValueStart(t, n) < |t|
    ensures !Blank(t[ValueStart(t, n)])
  {
    hide Blanks;
    BlanksStop(t[n + 1..]);
    assert t[ValueStart(t, n)] == t[n + 1..][ValueStart(t, n) - n - 1];
  }

  method QuotedValue(data: array<char>, end: nat, p0: nat, at: nat, ghost pre: string, ghost t: string, ghost n: nat) returns (p: nat)
    requires n == Cspn(t, "=\n") && n < |t| && t[n] == '=' && t[0] != NUL && !Blank(t[0])
    requires at == |pre| + ValueStart(t, n) && ValueStart(t, n) < |t| && t[ValueStart(t, n)] == '"'
    requires p0 == |pre| && end == |pre| + |t| && Buffer(data, pre + KeyPart(t, n) + t[ValueStart(t, n)..])
    modifies data
    ensures p == p0 + |KeyLine(t)| && Buffer(data, pre + KeyLine(t) + t[|KeyLine(t)|..]) && AtLineEnd(t, |KeyLine(t)|)
  {
    hide Buffer, Unescape, LineEnd, Cspn, KeyPart, ValueStart, Nuls, KeyLine;
    ghost var front, rest := KeyPart(t, n), t[ValueStart(t, n)..];
    if Unescape(rest[1..]) == "" {
      QuotedEmpty(pre, t, n, front, rest);
    } else {
      QuotedFull(pre, t, n, front, rest);
    }
    p := UnescapeQuotedValue(data, end, at, pre + front, rest);
    if p == at {
      p := DiscardLine(data, end, p0, pre, front + rest);
    } else {
      p := DiscardLine(data, end, p, pre + front + Unescape(rest[1..]), rest[p - at..]);
    }
  }

  /** A quoted line without a value ends up empty, as the buffer shows it. */
  lemma QuotedEmpty(pre: string, t: string, n: nat, front: string, rest: string)
    requires n == Cspn(t, "=\n") && n < |t| && t[n] == '=' && t[0] != NUL && !Blank(t[0])
    requires ValueStart(t, n) < |t| && t[ValueStart(t, n)] == '"'
    requires front == KeyPart(t, n) && rest == t[ValueStart(t, n)..] && Unescape(rest[1..]) == ""
    ensures pre + front + Unescape(rest[1..]) + rest[0..] == pre + (front + rest)
    ensures LineEnd(front + rest) == |KeyLine(t)| && AtLineEnd(t, |KeyLine(t)|)
    ensures pre + Nuls(LineEnd(front + rest)) + (front + rest)[LineEnd(front + rest)..] == pre + KeyLine(t) + t[|KeyLine(t)|..]
  {
    hide Unescape, LineEnd, Cspn, KeyPart, ValueStart, Nuls, KeyLine;
    var m := ValueStart(t, n);
    SliceOfRest(t, m, 1);
    QuotedLine(t, n);
    NoNewlineInKey(t, n);
    LineEndAfter(t[..m], front, rest);
    Regroup(pre, front, rest);
  }

  /** A quoted line with a value keeps the key and the value, and loses what follows the quote. */
  lemma QuotedFull(pre: string, t: string, n: nat, front: string, rest: string)
    requires n == Cspn(t, "=\n") && n < |t| && t[n] == '=' && t[0] != NUL && !Blank(t[0])
    requires ValueStart(t, n) < |t| && t[ValueStart(t, n)] == '"'
    requires front == KeyPart(t, n) && rest == t[ValueStart(t, n)..] && Unescape(rest[1..]) != ""
    ensures var after := rest[|Unescape(rest[1..])|..];
      && |front| + |Unescape(rest[1..])| + LineEnd(after) == |KeyLine(t)| && AtLineEnd(t, |KeyLine(t)|)
      && pre + front + Unescape(rest[1..]) + Nuls(LineEnd(after)) + after[LineEnd(after)..]
         == pre + KeyLine(t) + t[|KeyLine(t)|..]
  {
    hide Unescape, LineEnd, Cspn, KeyPart, ValueStart, Nuls, KeyLine, AtLineEnd, Blank;
    var m := ValueStart(t, n);
    RestOfRest(t, m, 1);
    QuotedLine(t, n);
    var value := Unescape(rest[1..]);
    RestOfRest(t, m, |value|);
    var after := rest[|value|..];
    Finish(pre, front, value, Nuls(LineEnd(after)), after, t);
  }

  lemma RestOfRest(t: string, m: nat, e: nat)
    requires m + e <= |t|
    ensures t[m..][e..] == t[m + e..]
  {
  }

  /** What the line becomes, by the value inside the quotes. */
  lemma QuotedLine(t: string, n: nat)
    requires n == Cspn(t, "=\n") && n < |t| && t[n] == '=' && t[0] != NUL && !Blank(t[0])
    requires ValueStart(t, n) < |t| && t[ValueStart(t, n)] == '"'
    ensures
      var value, rest := Unescape(t[ValueStart(t, n) + 1..]), t[ValueStart(t, n)..];
      && AtLineEnd(t, |KeyLine(t)|)
      && if value == "" then KeyLine(t) == Nuls(LineEnd(t))
         else KeyLine(t) == KeyPart(t, n) + value + Nuls(LineEnd(t[ValueStart(t, n) + |value|..]))
  {
    hide Cspn, Unescape, LineEnd, ValueStart, KeyPart, Blank;
  }

  lemma Regroup(pre: string, front: string, rest: string)
    ensures pre + front + "" + rest[0..] == pre + (front + rest) == pre + front + rest
  {
  }

  lemma Finish(pre: string, front: string, value: string, tail: string, after: string, t: string)
    requires |front| + |value| + |tail| <= |t| && after == t[|front| + |value|..]
    ensures pre + front + value + tail + after[|tail|..] == pre + (front + value + tail) + t[|front + value + tail|..]
  {
  }

  /** What the line becomes when the value is not quoted. */
  lemma PlainLine(t: string, n: nat, rest: string)
    requires n == Cspn(t, "=\n") && n < |t| && t[n] == '=' && t[0] != NUL && !Blank(t[0])
    requires var m := ValueStart(t, n); m < |t| && t[m] != '"' && t[m] != '\n' && t[m] != NUL
    requires rest == t[ValueStart(t, n)..]
    ensures KeyLine(t) == KeyPart(t, n) + Trimmed(rest[..Cspn(rest, "\n")])
    ensures AtLineEnd(t, |KeyLine(t)|) && Cspn(rest, "\n") > 0 && !Blank(rest[0])
  {
    hide Unescape, LineEnd, KeyPart, ValueStart, Nuls, Trimmed, Cspn;
    var m := ValueStart(t, n);
    ValueNotBlank(t, n);
    SomeValue(rest);
    CspnPasses(rest, "\n");
    SliceOfRest(t, m, Cspn(rest, "\n"));
  }

  lemma SomeValue(rest: string)
    requires rest != "" && rest[0] != NUL && rest[0] != '\n'
    ensures Cspn(rest, "\n") > 0
  {
  }

  lemma SliceOfRest(t: string, m: nat, e: nat)
    requires m <= |t| && e <= |t| - m
    ensures t[m..m + e] == t[m..][..e] && t[m..][e..] == t[m + e..] && t == t[..m] + t[m..]
  {
  }

  lemma PlainFull(pre: string, t: string, n: nat, front: string, rest: string)
    requires n == Cspn(t, "=\n") && n < |t| && t[n] == '=' && t[0] != NUL && !Blank(t[0])
    requires var m := ValueStart(t, n); m < |t| && t[m] != '"' && t[m] != '\n' && t[m] != NUL
    requires front == KeyPart(t, n) && rest == t[ValueStart(t, n)..]
    ensures var e := Cspn(rest, "\n");
      && |front| + e == |KeyLine(t)|
      && pre + front + rest == pre + front + rest[..e] + rest[e..]
      && pre + front + Trimmed(rest[..e]) + rest[e..] == pre + KeyLine(t) + t[|KeyLine(t)|..]
  {
    hide LineEnd, KeyPart, ValueStart, KeyLine, Cspn, Trimmed;
    var m, e := ValueStart(t, n), Cspn(rest, "\n");
    PlainLine(t, n, rest);
    SliceOfRest(t, m, e);
    CutAt(pre + front, rest, e);
    JoinParts(pre, front, Trimmed(rest[..e]), rest[e..]);
  }

  lemma KeySplit(pre: string, t: string, n: nat)
    requires n == Cspn(t, "=\n") && n < |t| && t[n] == '='
    ensures pre + t == pre + t[..n] + t[n..] && t[n..] != "" && t[n..][0] == '='
    ensures 1 + Blanks(t[n..][1..]) == ValueStart(t, n) - n
  {
    hide Cspn, Blanks;
    SliceOfRest(t, n, 1);
    CutAt(pre, t, n);
  }

  lemma KeyCleared(pre: string, t: string, n: nat)
    requires n < |t|
    ensures pre + Trimmed(t[..n]) + Nuls(ValueStart(t, n) - n) + t[n..][ValueStart(t, n) - n..]
         == pre + KeyPart(t, n) + t[ValueStart(t, n)..]
  {
    hide ValueStart, Trimmed, Nuls;
    SliceOfRest(t, n, ValueStart(t, n) - n);
    JoinParts(pre, Trimmed(t[..n]), Nuls(ValueStart(t, n) - n), t[ValueStart(t, n)..]);
  }

  lemma CutAt(pre: string, t: string, n: nat)
    requires n <= |t|
    ensures pre + t == pre + t[..n] + t[n..]
  {
  }

  lemma JoinParts(pre: string, a: string, b: string, rest: string)
    ensures pre + a + b + rest == pre + (a + b) + rest
  {
  }

  /** A line without '=' or without a value is discarded from its start. */
  lemma Discarded(pre: string, t: string, n: nat, front: string, rest: string)
    requires n == Cspn(t, "=\n") && n < |t| && t[n] == '=' && t[0] != NUL && !Blank(t[0])
    requires front == KeyPart(t, n) && rest == t[ValueStart(t, n)..]
    requires rest == "" || rest[0] == '\n' || rest[0] == NUL
    ensures pre + front + rest == pre + (front + rest)
    ensures LineEnd(front + rest) == |KeyLine(t)| && AtLineEnd(t, |KeyLine(t)|)
    ensures pre + Nuls(LineEnd(front + rest)) + (front + rest)[LineEnd(front + rest)..] == pre + KeyLine(t) + t[|KeyLine(t)|..]
  {
    hide LineEnd, Cspn, KeyPart, ValueStart, Nuls, Unescape, Trimmed;
    NoNewlineInKey(t, n);
    var m := ValueStart(t, n);
    SliceOfRest(t, m, 0);
    LineEndAfter(t[..m], front, rest);
    Regroup(pre, front, rest);
    assert KeyLine(t) == Nuls(LineEnd(t));
  }

  lemma NoEquals(t: string)
    requires t != "" && t[0] != '\n' && t[0] != NUL && !Blank(t[0])
    requires Cspn(t, "=\n") == |t| || t[Cspn(t, "=\n")] != '='
    ensures KeyLine(t) == Nuls(LineEnd(t)) && AtLineEnd(t, |KeyLine(t)|)
  {
    hide LineEnd, Nuls;
  }

  /** What the code sees at an index of the buffer. */
  lemma CharAt(data: array<char>, pre: string, t: string, i: nat)
    requires Buffer(data, pre + t) && i <= |t|
    ensures |pre| + i < data.Length && data[|pre| + i] == if i < |t| then t[i] else NUL
  {
    assert data[|pre| + i] == data[..][|pre| + i];
  }

  method PlainValue(data: array<char>, at: nat, ghost pre: string, ghost t: string, ghost n: nat) returns (p: nat)
    requires n == Cspn(t, "=\n") && n < |t| && t[n] == '=' && t[0] != NUL && !Blank(t[0])
    requires var m := ValueStart(t, n); at == |pre| + m && m < |t| && t[m] != '"' && t[m] != '\n' && t[m] != NUL
    requires Buffer(data, pre + KeyPart(t, n) + t[ValueStart(t, n)..])
    modifies data
    ensures p == |pre| + |KeyLine(t)| && Buffer(data, pre + KeyLine(t) + t[|KeyLine(t)|..]) && AtLineEnd(t, |KeyLine(t)|)
  {
    hide Buffer, Cspn, KeyPart, ValueStart, KeyLine, Trimmed;
    ghost var front, rest := KeyPart(t, n), t[ValueStart(t, n)..];
    ghost var e := Cspn(rest, "\n");
    PlainFull(pre, t, n, front, rest);
    PlainLine(t, n, rest);
    p := StrCspn(data, at, "\n", pre + front, rest);
    TrimBack(data, p - 1, pre + front, rest[..e], rest[e..]);
  }

  /** The default case of the splitter: a key, or something to discard. */
  method KeyLineStep(data: array<char>, end: nat, p0: nat, ghost pre: string, ghost t: string) returns (p: nat)
    requires t != "" && t[0] != '\n' && t[0] != NUL && !Blank(t[0])
    requires pre == "" || t[0] != '=' || !Blank(pre[|pre| - 1])
    requires p0 == |pre| && end == |pre| + |t| && Buffer(data, pre + t)
    modifies data
    ensures p == p0 + |KeyLine(t)| && Buffer(data, pre + KeyLine(t) + t[|KeyLine(t)|..]) && AtLineEnd(t, |KeyLine(t)|)
  {
    hide Buffer, Unescape, LineEnd, Cspn, KeyPart, ValueStart, Nuls, KeyLine, Blanks, Trimmed;
    var line_start := p0;
    ghost var n := Cspn(t, "=\n");
    p := StrCspn(data, p0, "=\n", pre, t);
    CharAt(data, pre, t, n);
    if data[p] != '=' {
      NoEquals(t);
      p := DiscardLine(data, end, line_start, pre, t);
    } else {
      p := ClearKey(data, p, pre, t, n);
      ghost var front, rest := KeyPart(t, n), t[ValueStart(t, n)..];
      CharAt(data, pre + front, rest, 0);
      if data[p] == '\n' || data[p] == NUL {
        Discarded(pre, t, n, front, rest);
        p := DiscardLine(data, end, line_start, pre, front + rest);
      } else if data[p] == '"' {
        p := QuotedValue(data, end, p0, p, pre, t, n);
      } else {
        p := PlainValue(data, p, pre, t, n);
      }
    }
  }

  /** The key is cut free on both sides: its trailing blanks, the '=' and the blanks after that. */
  method ClearKey(data: array<char>, at: nat, ghost pre: string, ghost t: string, ghost n: nat) returns (p: nat)
    requires n == Cspn(t, "=\n") && n < |t| && t[n] == '=' && at == |pre| + n && !Blank(t[0])
    requires pre == "" || t[0] != '=' || !Blank(pre[|pre| - 1])
    requires Buffer(data, pre + t)
    modifies data
    ensures p == |pre| + ValueStart(t, n) && Buffer(data, pre + KeyPart(t, n) + t[ValueStart(t, n)..])
  {
    hide Buffer, Cspn, KeyPart, ValueStart, Nuls, Blanks, Trimmed;
    KeySplit(pre, t, n);
    KeyCleared(pre, t, n);
    TrimBack(data, at - 1, pre, t[..n], t[n..]);
    p := ClearEquals(data, at, pre + Trimmed(t[..n]), t[n..]);
  }

  // ----- The whole file -----

  /** Splits the data in place. The last character is the terminating NUL. */
  method SplitData(data: array<char>)
    requires data.Length > 0 && data[data.Length - 1] == NUL
    modifies data
    ensures data[..] == Split(old(data[..data.Length - 1])) + [NUL]
  {
    hide Buffer, StepOn, Split;
    var p, end := 0, data.Length - 1;
    ghost var was, pre := data[..end], "";
    StartSplit(data, was);
    while p < end
      invariant 0 <= p <= end && end == |was| && |pre| == p
      invariant Buffer(data, pre + was[p..]) && Split(was) == pre + Split(was[p..])
      invariant Ready(pre, was[p..])
    {
      ghost var t := was[p..];
      ghost var p0 := p;
      p := Step(data, end, p, pre, t);
      SplitStep(was, pre, p0);
      pre := pre + StepOn(t);
    }
    EndSplit(data, pre, was[p..]);
  }

  lemma StartSplit(data: array<char>, was: string)
    requires data.Length > 0 && data[data.Length - 1] == NUL && was == data[..data.Length - 1]
    ensures Buffer(data, "" + was[0..]) && Split(was) == "" + Split(was[0..]) && Ready("", was[0..])
  {
    hide Split;
    assert "" + was[0..] == was && was[0..] == was;
  }

  lemma EndSplit(data: array<char>, pre: string, t: string)
    requires t == "" && Buffer(data, pre + t)
    ensures data[..] == pre + Split(t) + [NUL]
  {
    assert pre + "" == pre;
  }

  /** Between steps: a line that starts with '=' is not preceded by a blank. */
  predicate Ready(pre: string, t: string) {
    pre == "" || pre[|pre| - 1] == NUL || t == "" || t[0] == '\n' || t[0] == NUL
  }

  method Step(data: array<char>, end: nat, p0: nat, ghost pre: string, ghost t: string) returns (p: nat)
    requires t != "" && Ready(pre, t) && p0 == |pre| && end == |pre| + |t| && Buffer(data, pre + t)
    modifies data
    ensures p == p0 + |StepOn(t)| && Buffer(data, pre + StepOn(t) + t[|StepOn(t)|..])
    ensures Ready(pre + StepOn(t), t[|StepOn(t)|..])
  {
    hide Buffer, Cspn, LineEnd, KeyLine;
    p := p0;
    CharAt(data, pre, t, 0);
    var c := data[p];
    if c == NUL || c == '\n' || Blank(c) {
      if c != NUL {
        WriteNul(data, p, pre, t, 0);
      } else {
        AlreadyNul(data, pre, t);
      }
      p := p + 1;
    } else if c == '[' {
      p := SectionStep(data, end, p, pre, t);
    } else if c == ';' {
      p := DiscardLine(data, end, p, pre, t);
    } else {
      p := KeyLineStep(data, end, p, pre, t);
    }
  }

  method WriteNul(data: array<char>, p: nat, ghost pre: string, ghost t: string, ghost i: nat)
    requires Buffer(data, pre + t) && i < |t| && p == |pre| + i
    modifies data
    ensures Buffer(data, pre + (t[..i] + "\0") + t[i + 1..])
    ensures i == 0 ==> Buffer(data, pre + "\0" + t[1..])
  {
    data[p] := NUL;
    assert i == 0 ==> t[..i] + "\0" == "\0";
  }

  lemma AlreadyNul(data: array<char>, pre: string, t: string)
    requires Buffer(data, pre + t) && t != "" && t[0] == NUL
    ensures Buffer(data, pre + "\0" + t[1..])
  {
  }

  /** A section's name ends at ']', at the end of the line or of the data; the NUL put there is passed over. */
  method SectionStep(data: array<char>, end: nat, p0: nat, ghost pre: string, ghost t: string) returns (p: nat)
    requires t != "" && t[0] == '[' && p0 == |pre| && end == |pre| + |t| && Buffer(data, pre + t)
    modifies data
    ensures p == p0 + |StepOn(t)| && Buffer(data, pre + StepOn(t) + t[|StepOn(t)|..])
    ensures Ready(pre + StepOn(t), t[|StepOn(t)|..])
  {
    hide Buffer, Cspn;
    p := StrCspn(data, p0, "]\n", pre, t);
    CharAt(data, pre, t, p - p0);
    if p < end {
      WriteNul(data, p, pre, t, p - p0);
      p := p + 1;
    } else {
      RewriteEnd(data, p, pre, t);
    }
  }

  method RewriteEnd(data: array<char>, p: nat, ghost pre: string, ghost t: string)
    requires Buffer(data, pre + t) && p == |pre| + |t|
    modifies data
    ensures Buffer(data, pre + t + t[|t|..])
  {
    data[p] := NUL;
    assert pre + t + t[|t|..] == pre + t;
  }

  lemma SplitStep(was: string, pre: string, p: nat)
    requires p < |was| && |pre| == p && Split(was) == pre + Split(was[p..])
    ensures var n := |StepOn(was[p..])|;
      && Split(was) == pre + StepOn(was[p..]) + Split(was[p + n..])
      && was[p..][n..] == was[p + n..]
  {
    hide StepOn;
  }

  /** Copies a file of settings, terminates the copy and splits it. */
  method IniLoad(text: string) returns (data: array<char>, end: nat)
    ensures fresh(data) && end == |text| && data.Length == end + 1
    ensures data[..end] == Split(text) && data[end] == NUL
  {
    hide Split;
    end := |text|;
    data := new char[end + 1](i => if 0 <= i < |text| then text[i] else NUL);
    assert data[..end] == text;
    SplitData(data);
    assert data[..end + 1] == data[..];
  }
}
