/**
  Looking a key up in a split settings buffer: pointers walk over the strings between the NULs.
 */
module IniGet {
  import opened IniSpec
  import Ini
  import opened Common

  /** The string that starts at `p`. */
  function Str(b: string, p: nat): string
    requires p <= |b|
  {
    b[p..][..Cspn(b[p..], "")]
  }

  predicate Terminated(data: array<char>, end: nat)
    reads data
  {
    end < data.Length && data[end] == NUL
  }

  function ToLower(c: char): char { if 'A' <= c <= 'Z' then (c as int + 32) as char else c }

  /** Lowering both is how the code compares them. */
  lemma LowerSame(a: char, b: char)
    ensures ToLower(a) == ToLower(b) <==> SameLetter(a, b)
    ensures ToLower(a) == NUL <==> a == NUL
  {
  }

  /** Case-insensitive comparison with the string at `p`: zero exactly if they are the same but for letter case. */
  method StrCmpCi(a: array<char>, end: nat, p: nat, s: string) returns (d: int)
    requires Terminated(a, end) && p <= end && NUL !in s
    ensures d == 0 <==> SameLetters(Str(a[..end], p), s)
  {
    ghost var x := Str(a[..end], p);
    StrFacts(a[..end], p);
    var i := 0;
    while true
      invariant 0 <= i <= |x| && i <= |s|
      invariant forall j :: 0 <= j < i ==> SameLetter(x[j], s[j])
      decreases |s| - i
    {
      assert p + i < end ==> a[p + i] == a[..end][p + i];
      var c := a[p + i];
      assert c == if i < |x| then x[i] else NUL;
      var e := if i < |s| then s[i] else NUL;
      LowerSame(c, e);
      LowerSame(e, c);
      d := ToLower(c) as int - ToLower(e) as int;
      if d != 0 || c == NUL {
        SameSoFar(x, s, i);
        return;
      }
      i := i + 1;
    }
  }

  /** Where two texts first differ, or one ends, decides whether they are the same. */
  lemma SameSoFar(x: string, s: string, i: nat)
    requires i <= |x| && i <= |s| && NUL !in x && NUL !in s
    requires forall j :: 0 <= j < i ==> SameLetter(x[j], s[j])
    requires var c, e := if i < |x| then x[i] else NUL, if i < |s| then s[i] else NUL;
             !SameLetter(c, e) || c == NUL
    ensures SameLetters(x, s) <==> SameLetter(if i < |x| then x[i] else NUL, if i < |s| then s[i] else NUL)
  {
    hide SameLetter;
    NulLetter(if i < |x| then x[i] else NUL);
    NulLetter(if i < |s| then s[i] else NUL);
  }

  lemma NulLetter(c: char)
    ensures SameLetter(c, NUL) <==> c == NUL
    ensures SameLetter(NUL, c) <==> c == NUL
  {
  }

  lemma StrFacts(b: string, p: nat)
    requires p <= |b|
    ensures var x := Str(b, p);
      && NUL !in x && p + |x| <= |b| && b[p..p + |x|] == x && (p + |x| < |b| ==> b[p + |x|] == NUL)
  {
    Ini.CspnPasses(b[p..], "");
  }

  /** The next string: past this one and the NULs after it. */
  method Next(data: array<char>, end: nat, p0: nat) returns (p: nat)
    requires Terminated(data, end) && p0 <= end
    ensures p0 <= p <= end && (p < end ==> data[p] != NUL)
    ensures p0 < end && data[p0] != NUL ==>
      Tokens(data[p0..end]) == [Str(data[..end], p0)] + Tokens(data[p..end]) && Str(data[..end], p0) != ""
    ensures p0 < end && data[p0] == NUL ==> Tokens(data[p0..end]) == Tokens(data[p..end])
    ensures p0 == end ==> p == end
  {
    hide Tokens;
    ghost var b := data[..end];
    p := p0;
    while data[p] != NUL
      invariant p0 <= p <= end && forall j :: p0 <= j < p ==> data[j] != NUL
      decreases end - p
    {
      p := p + 1;
    }
    FirstToken(b, p0, p);
    ghost var q := p;
    while p < end && data[p] == NUL
      invariant q <= p <= end && Tokens(b[q..]) == Tokens(b[p..])
      invariant p0 < end && data[p0] == NUL ==> q == p0
    {
      SkipNul(b, p);
      p := p + 1;
    }
    Suffixes(data, end, p0, p);
  }

  lemma Suffixes(data: array<char>, end: nat, p: nat, q: nat)
    requires p <= end <= data.Length && q <= end
    ensures data[..end][p..] == data[p..end] && data[..end][q..] == data[q..end]
  {
  }

  lemma FirstToken(b: string, p: nat, q: nat)
    requires p <= q <= |b| && (forall j :: p <= j < q ==> b[j] != NUL) && (q < |b| ==> b[q] == NUL)
    ensures Str(b, p) == b[p..q]
    ensures p < q ==> Tokens(b[p..]) == [Str(b, p)] + Tokens(b[q..])
  {
    Ini.CspnIs(b[p..], "", q - p);
    assert b[p..][..q - p] == b[p..q] && b[p..][q - p..] == b[q..];
  }

  lemma SkipNul(b: string, p: nat)
    requires p < |b| && b[p] == NUL
    ensures Tokens(b[p..]) == Tokens(b[p + 1..])
  {
    assert b[p..][1..] == b[p + 1..];
  }

  /** What a returned pointer stands for; -1 is NULL. */
  function Found(b: string, r: int): Option<string>
    requires r <= |b|
  {
    if r < 0 then None else Some(Str(b, r))
  }

  method IniGet(data: array<char>, end: nat, section: Option<string>, key: string) returns (r: int)
    requires Terminated(data, end) && NUL !in key && (section.Some? ==> NUL !in section.value)
    ensures r <= end && Found(data[..end], r) == Get(Tokens(data[..end]), section, key, "")
  {
    hide Tokens, Get, SameLetters, Str;
    ghost var b := data[..end];
    var current, currentEnd, currentAt := new char[1](_ => NUL), 0, 0;
    EmptyStr(current[..0]);
    var p := 0;
    Suffixes(data, end, 0, 0);
    if data[p] == NUL {
      p := Next(data, end, p);
    }
    while p < end
      invariant p <= end && (p < end ==> data[p] != NUL)
      invariant Terminated(current, currentEnd) && currentAt <= currentEnd
      invariant Get(Tokens(b), section, key, "") == Get(Tokens(data[p..end]), section, key, Str(current[..currentEnd], currentAt))
      decreases end - p
    {
      ghost var text := Str(current[..currentEnd], currentAt);
      if data[p] == '[' {
        SectionStr(data, end, p);
        current, currentEnd, currentAt := data, end, p + 1;
        ghost var name := Str(b, p);
        p := Next(data, end, p);
        GetAtSection(name, Tokens(data[p..end]), section, key, text);
      } else {
        SectionStr(data, end, p);
        ghost var name := Str(b, p);
        var val := Next(data, end, p);
        ghost var value, rest := Str(b, val), Tokens(data[val..end]);
        AtTheEnd(data, end);
        FirstString(data, end, val);
        var inSection := section.None?;
        if !inSection {
          var d := StrCmpCi(current, currentEnd, currentAt, section.value);
          inSection := d == 0;
        }
        GetAtKey(name, rest, section, key, text);
        if inSection {
          var d := StrCmpCi(data, end, p, key);
          if d == 0 {
            return val;
          }
        }
        p := Next(data, end, val);
      }
    }
    AtTheEnd(data, end);
    r := -1;
  }

  lemma EmptyStr(b: string)
    requires b == ""
    ensures Str(b, 0) == ""
  {
  }

  lemma AtTheEnd(data: array<char>, end: nat)
    requires end < data.Length
    ensures Tokens(data[end..end]) == [] && Str(data[..end], end) == ""
    ensures forall section: Option<string>, key: string, text: string {:trigger Get([], section, key, text)} ::
      Get([], section, key, text) == None
  {
  }

  lemma FirstString(data: array<char>, end: nat, p: nat)
    requires p <= end < data.Length && (p < end ==> data[p] != NUL)
    ensures var ts := Tokens(data[p..end]);
      (p < end ==> ts != [] && ts[0] == Str(data[..end], p)) && (p == end ==> ts == [])
  {
    Suffixes(data, end, p, p);
  }

  /** A header's name is the string one character further on. */
  lemma SectionStr(data: array<char>, end: nat, p: nat)
    requires p < end < data.Length && data[p] != NUL
    ensures var b := data[..end];
      Str(b, p) != "" && Str(b, p)[0] == data[p] && Str(b, p)[1..] == Str(b, p + 1)
  {
    var b := data[..end];
    assert b[p..][1..] == b[p + 1..];
    assert b[p..][0] == data[p];
  }

  lemma GetAtSection(name: string, rest: seq<string>, section: Option<string>, key: string, text: string)
    requires name != "" && name[0] == '['
    ensures Get([name] + rest, section, key, text) == Get(rest, section, key, name[1..])
  {
    assert ([name] + rest)[1..] == rest;
  }

  lemma GetAtKey(name: string, rest: seq<string>, section: Option<string>, key: string, text: string)
    requires name != "" && name[0] != '['
    ensures Get([name] + rest, section, key, text) ==
      if InSection(section, text) && SameLetters(name, key) then Some(if rest == [] then "" else rest[0])
      else Get(if rest == [] then [] else rest[1..], section, key, text)
  {
    hide SameLetters;
    var ts := [name] + rest;
    assert |ts| > 1 ==> ts[2..] == rest[1..];
  }
}
