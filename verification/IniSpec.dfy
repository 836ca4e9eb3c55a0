/**
  What splitting a settings file leaves in its buffer, and what a lookup finds there.
 */
module IniSpec {
  import opened Common

  const NUL: char := '\0'

  predicate Blank(c: char) { c == ' ' || c == '\t' || c == '\r' }

  function Nuls(n: nat): (r: string)
    ensures |r| == n
  {
    seq(n, _ => NUL)
  }

  /** How far the first character of `stops`, or a NUL, is. */
  function Cspn(t: string, stops: string): (n: nat)
    ensures n <= |t|
  {
    if t == "" || t[0] == NUL || t[0] in stops then 0 else 1 + Cspn(t[1..], stops)
  }

  function LineEnd(t: string): (n: nat)
    ensures n <= |t| && (n < |t| ==> t[n] == '\n')
  {
    if t == "" || t[0] == '\n' then 0 else 1 + LineEnd(t[1..])
  }

  /** Length without trailing blanks. */
  function TrimLen(t: string): (n: nat)
    ensures n <= |t|
  {
    if t != "" && Blank(t[|t| - 1]) then TrimLen(t[..|t| - 1]) else |t|
  }

  function Trimmed(t: string): (r: string)
    ensures |r| == |t|
  {
    t[..TrimLen(t)] + Nuls(|t| - TrimLen(t))
  }

  function Blanks(t: string): (n: nat)
    ensures n <= |t|
  {
    if t != "" && Blank(t[0]) then 1 + Blanks(t[1..]) else 0
  }

  function EscapedChar(c: char): char { if c == 'r' then '\r' else if c == 'n' then '\n' else if c == 't' then '\t' else c }

  predicate EndsEscape(c: char) { c == '\r' || c == '\n' || c == NUL }

  predicate EndsQuote(c: char) { c == '"' || c == '\r' || c == '\n' }

  /** The value that starts right after an opening quote. */
  function Unescape(t: string): (r: string)
    ensures |r| <= |t|
  {
    if t == "" || EndsQuote(t[0]) then ""
    else if t[0] != '\\' then [t[0]] + Unescape(t[1..])
    else if |t| == 1 || EndsEscape(t[1]) then ""
    else [EscapedChar(t[1])] + Unescape(t[2..])
  }

  /** What one step of the splitter puts in place of the first characters of `t`, as many as it returns. */
  function StepOn(t: string): (r: string)
    requires t != ""
    ensures 0 < |r| <= |t|
  {
    var c := t[0];
    if c == NUL || c == '\n' || Blank(c) then "\0"
    else if c == '[' then
      var n := Cspn(t, "]\n");
      if n < |t| then t[..n] + "\0" else t
    else if c == ';' then Nuls(LineEnd(t))
    else KeyLine(t)
  }

  function KeyLine(t: string): (r: string)
    requires t != "" && t[0] != '\n' && t[0] != NUL && !Blank(t[0])
    ensures 0 < |r| <= |t|
  {
    var n := Cspn(t, "=\n");
    if n == |t| || t[n] != '=' then Nuls(LineEnd(t))
    else
      var m := ValueStart(t, n);
      if m == |t| || t[m] == '\n' || t[m] == NUL then Nuls(LineEnd(t))
      else if t[m] == '"' then
        var value := Unescape(t[m + 1..]);
        if value == "" then Nuls(LineEnd(t)) else KeyPart(t, n) + value + Nuls(LineEnd(t[m + |value|..]))
      else KeyPart(t, n) + Trimmed(t[m..m + Cspn(t[m..], "\n")])
  }

  /** Where the value starts, given where the '=' is. */
  function ValueStart(t: string, n: nat): (m: nat)
    requires n < |t|
    ensures n < m <= |t|
  {
    n + 1 + Blanks(t[n + 1..])
  }

  /** The key, and NULs up to the value. */
  function KeyPart(t: string, n: nat): (r: string)
    requires n < |t|
    ensures |r| == ValueStart(t, n)
  {
    Trimmed(t[..n]) + Nuls(ValueStart(t, n) - n)
  }

  /** The whole buffer after splitting. */
  function Split(t: string): (r: string)
    ensures |r| == |t|
  {
    if t == "" then "" else StepOn(t) + Split(t[|StepOn(t)|..])
  }

  // ----- Looking up -----

  /** The strings of a split buffer, without the NULs between them. */
  function Tokens(b: string): seq<string> {
    if b == "" then []
    else if b[0] == NUL then Tokens(b[1..])
    else
      var n := Cspn(b, "");
      assert n > 0;
      [b[..n]] + Tokens(b[n..])
  }

  /** The same but for the case of ASCII letters. */
  predicate SameLetters(a: string, b: string) { |a| == |b| && forall i :: 0 <= i < |a| ==> SameLetter(a[i], b[i]) }

  /** Equal, or a capital letter and its small one, 32 further on. */
  predicate SameLetter(a: char, b: char) {
    || a == b
    || ('A' <= a <= 'Z' && b as int == a as int + 32)
    || ('A' <= b <= 'Z' && a as int == b as int + 32)
  }

  predicate InSection(section: Option<string>, current: string) { section.None? || SameLetters(current, section.value) }

  /** The lookup: section headers are the strings that start with '[', the rest alternate keys and values. */
  function Get(tokens: seq<string>, section: Option<string>, key: string, current: string): Option<string>
    decreases |tokens|
  {
    if tokens == [] then None
    else if tokens[0] != "" && tokens[0][0] == '[' then Get(tokens[1..], section, key, tokens[0][1..])
    else
      var value := if |tokens| > 1 then tokens[1] else "";
      if InSection(section, current) && SameLetters(tokens[0], key) then Some(value)
      else Get(if |tokens| > 1 then tokens[2..] else [], section, key, current)
  }
}
