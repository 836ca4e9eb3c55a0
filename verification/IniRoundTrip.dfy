/**
  Writing settings out and reading them back: what a lookup finds in the split file is the first
  matching entry that was written, or nothing.
 */
module IniRoundTrip {
  import opened IniSpec
  import Ini
  import IniGet
  import opened Common

  /**
    A line of a settings file. A quoted value may be followed by anything. The last three are
    malformed: a header without its bracket, text without a '=', a '=' without a value.
   */
  datatype Line =
    | Section(name: string)
    | Plain(key: string, before: string, after: string, value: string, tail: string)
    | Quoted(key: string, before: string, after: string, value: string, tail: string)
    | Comment(text: string)
    | Spacing(blanks: string)
    | Unclosed(name: string)
    | Junk(text: string)
    | NoValue(key: string, before: string, after: string)

  predicate Space(c: char) { c == ' ' || c == '\t' || c == '\r' }

  predicate AllBlank(s: string) { forall i :: 0 <= i < |s| ==> Space(s[i]) }

  /** Text that neither starts nor ends in a blank. */
  predicate Trim(s: string) { s != "" && !Space(s[0]) && !Space(s[|s| - 1]) }

  predicate LegalKey(k: string) {
    Trim(k) && k[0] != '[' && k[0] != ';' && '=' !in k && '\n' !in k && NUL !in k
  }

  predicate Legal(l: Line) {
    match l
    case Section(name) => ']' !in name && '\n' !in name && NUL !in name
    case Plain(key, before, after, value, tail) =>
      && LegalKey(key) && AllBlank(before) && AllBlank(after) && AllBlank(tail)
      && Trim(value) && value[0] != '"' && '\n' !in value && NUL !in value
    case Quoted(key, before, after, value, tail) =>
      LegalKey(key) && AllBlank(before) && AllBlank(after) && '\n' !in tail && NUL !in value
    case Comment(text) => '\n' !in text
    case Spacing(blanks) => AllBlank(blanks)
    case Unclosed(name) => ']' !in name && '\n' !in name && NUL !in name
    case Junk(text) =>
      text != "" && !Space(text[0]) && text[0] != '[' && text[0] != ';' && text[0] != NUL && '=' !in text && '\n' !in text
    case NoValue(key, before, after) => LegalKey(key) && AllBlank(before) && AllBlank(after)
  }

  function EscapeChar(c: char): string {
    if c == '"' then "\\\"" else if c == '\\' then "\\\\" else if c == '\n' then "\\n" else if c == '\r' then "\\r"
    else if c == '\t' then "\\t" else [c]
  }

  function Escape(s: string): (r: string)
    ensures |r| >= |s|
  {
    if s == "" then "" else EscapeChar(s[0]) + Escape(s[1..])
  }

  function KeyText(key: string, before: string, after: string): string { key + before + "=" + after }

  function Printed(l: Line): string {
    match l
    case Section(name) => "[" + name + "]"
    case Plain(key, before, after, value, tail) => KeyText(key, before, after) + (value + tail)
    case Quoted(key, before, after, value, tail) => KeyText(key, before, after) + ("\"" + Escape(value) + "\"" + tail)
    case Comment(text) => ";" + text
    case Spacing(blanks) => blanks
    case Unclosed(name) => "[" + name
    case Junk(text) => text
    case NoValue(key, before, after) => KeyText(key, before, after)
  }

  function PrintedFile(lines: seq<Line>): string {
    if lines == [] then "" else Printed(lines[0]) + "\n" + PrintedFile(lines[1..])
  }

  /** What was written, looked up without any file in between. An empty value is as good as none. */
  function Lookup(lines: seq<Line>, section: Option<string>, key: string, current: string): Option<string> {
    if lines == [] then None
    else match lines[0]
      case Section(name) => Lookup(lines[1..], section, key, name)
      case Unclosed(name) => Lookup(lines[1..], section, key, name)
      case Plain(k, _, _, value, _) =>
        if Wanted(section, key, current, k) then Some(value) else Lookup(lines[1..], section, key, current)
      case Quoted(k, _, _, value, _) =>
        if value != "" && Wanted(section, key, current, k) then Some(value)
        else Lookup(lines[1..], section, key, current)
      case _ => Lookup(lines[1..], section, key, current)
  }

  /** An entry with the key, in letter case or not, in such a section. */
  predicate Wanted(section: Option<string>, key: string, current: string, k: string) {
    (section == None || SameLetters(current, section.value)) && SameLetters(k, key)
  }

  function SectionAfter(l: Line, current: string): string { if l.Section? || l.Unclosed? then l.name else current }

  // ----- Escapes -----

  /** Reading back an escaped value up to its quote, or to the end of the line when the quote is missing. */
  lemma {:induction false} UnescapeEscape(s: string, stop: char, rest: string)
    requires NUL !in s && stop in "\"\r\n"
    ensures Unescape(Escape(s) + ([stop] + rest)) == s
    ensures '\n' !in Escape(s)
  {
    if s == "" {
      assert "" + ([stop] + rest) == [stop] + rest;
    } else {
      hide EscapeChar, Unescape;
      UnescapeEscape(s[1..], stop, rest);
      UnescapeFirst(s[0], Escape(s[1..]) + ([stop] + rest));
      Grouped(EscapeChar(s[0]), Escape(s[1..]), [stop] + rest);
      assert s == [s[0]] + s[1..];
    }
  }

  lemma UnescapeFirst(c: char, rest: string)
    requires c != NUL
    ensures Unescape(EscapeChar(c) + rest) == [c] + Unescape(rest) && '\n' !in EscapeChar(c)
  {
    hide Unescape;
    var e := EscapeChar(c);
    assert (e + rest)[0..] == e + rest && (e + rest)[|e|..] == rest;
    Ini.UnescapeStep(e + rest, 0);
  }

  /** A backslash before any other character but a line's end gives that character; before one, it ends the value. */
  lemma OtherEscapes(c: char, rest: string)
    requires c !in "rnt"
    ensures Unescape("\\" + [c] + rest) == if c in "\r\n\0" then "" else [c] + Unescape(rest)
  {
    hide Unescape;
    var t := "\\" + [c] + rest;
    assert t[0..] == t && t[2..] == rest;
    Ini.UnescapeStep(t, 0);
  }

  // ----- Tokens -----

  lemma {:induction false} TokensAfterNuls(n: nat, s: string)
    ensures Tokens(Nuls(n) + s) == Tokens(s)
  {
    if n == 0 {
      assert Nuls(0) + s == s;
    } else {
      TokensAfterNuls(n - 1, s);
      assert (Nuls(n) + s)[1..] == Nuls(n - 1) + s;
    }
  }

  /** One string, its NULs, and what follows. */
  lemma TokensOfWord(w: string, n: nat, s: string)
    requires w != "" && NUL !in w && n > 0
    ensures Tokens(w + Nuls(n) + s) == [w] + Tokens(s)
  {
    var b := w + Nuls(n) + s;
    Ini.CspnIs(b, "", |w|);
    assert b[..|w|] == w && b[|w|..] == Nuls(n) + s;
    TokensAfterNuls(n, s);
  }

  // ----- One line -----

  /** What the splitter leaves of a printed line. */
  function Left(l: Line): string {
    match l
    case Section(name) => "[" + name + "\0"
    case Plain(key, before, after, value, tail) => KeyLeft(key, before, after) + (value + Nuls(|tail|))
    case Quoted(key, before, after, value, tail) =>
      if value == "" then Nuls(|Printed(l)|)
      else KeyLeft(key, before, after) + value + Nuls(|Escape(value)| - |value| + 2 + |tail|)
    case Comment(text) => Nuls(1 + |text|)
    case Spacing(blanks) => Nuls(|blanks|)
    case Unclosed(name) => "[" + name
    case Junk(text) => Nuls(|text|)
    case NoValue(key, before, after) => Nuls(|KeyText(key, before, after)|)
  }

  function KeyLeft(key: string, before: string, after: string): string { key + Nuls(|before| + 1 + |after|) }

  /** The key of a printed entry, whatever non-blank text `u` follows. */
  lemma KeyRead(key: string, before: string, after: string, u: string)
    requires LegalKey(key) && AllBlank(before) && AllBlank(after) && u != "" && !Blank(u[0])
    ensures var t, n := KeyText(key, before, after) + u, |key| + |before|;
      && n < |t| && Cspn(t, "=\n") == n && t[n] == '=' && t[0] == key[0]
      && ValueStart(t, n) == |KeyText(key, before, after)| && KeyPart(t, n) == KeyLeft(key, before, after)
  {
    var t, n, m := KeyText(key, before, after) + u, |key| + |before|, |KeyText(key, before, after)|;
    assert t[..n] == key + before;
    forall j | 0 <= j < n ensures t[j] != NUL && t[j] !in "=\n" {
      assert t[j] == t[..n][j] == (key + before)[j];
    }
    assert t[n] == '=';
    assert t[n + 1..] == after + u;
    KeyTrims(key, before);
    hide Cspn, Blanks, TrimLen, Trimmed;
    Ini.CspnIs(t, "=\n", n);
    Ini.BlanksIs(after + u, |after|);
    JoinNuls(key, |before|, 1 + |after|);
  }

  lemma KeyTrims(key: string, before: string)
    requires Trim(key) && AllBlank(before)
    ensures Trimmed(key + before) == key + Nuls(|before|)
  {
    Ini.TrimLenIs(key + before, |key|);
  }

  lemma JoinNuls(w: string, a: nat, b: nat)
    ensures w + Nuls(a) + Nuls(b) == w + Nuls(a + b)
  {
  }

  lemma SectionStep(name: string, rest: string)
    requires Legal(Section(name))
    ensures StepOn("[" + name + "]" + rest) == "[" + name + "\0"
  {
    var t := "[" + name + "]" + rest;
    assert t[..1 + |name|] == "[" + name;
    forall j | 0 <= j < 1 + |name| ensures t[j] != NUL && t[j] !in "]\n" {
      assert t[j] == ("[" + name)[j];
    }
    Ini.CspnIs(t, "]\n", 1 + |name|);
  }

  lemma CommentStep(text: string, rest: string)
    requires '\n' !in text
    ensures StepOn(";" + text + ("\n" + rest)) == Nuls(1 + |text|)
  {
    var t := ";" + text;
    assert '\n' !in t;
    Ini.LineEndIs(t + ("\n" + rest), |t|);
  }

  lemma PlainStep(key: string, before: string, after: string, value: string, tail: string, rest: string)
    requires Legal(Plain(key, before, after, value, tail))
    ensures StepOn(KeyText(key, before, after) + (value + tail) + ("\n" + rest))
         == KeyLeft(key, before, after) + (value + Nuls(|tail|))
  {
    hide Cspn, ValueStart, KeyPart, Trimmed, TrimLen, Unescape, LineEnd, KeyText, KeyLeft;
    var u := value + tail + ("\n" + rest);
    var t := KeyText(key, before, after) + u;
    assert KeyText(key, before, after) + (value + tail) + ("\n" + rest) == t;
    KeyRead(key, before, after, u);
    assert t[|KeyText(key, before, after)|..] == u && u[..|value + tail|] == value + tail;
    PlainEnd(value, tail, rest);
    KeyTrims(value, tail);
    Ini.SliceOfRest(t, |KeyText(key, before, after)|, |value + tail|);
  }

  lemma PlainEnd(value: string, tail: string, rest: string)
    requires Trim(value) && '\n' !in value && NUL !in value && AllBlank(tail)
    ensures Cspn(value + tail + ("\n" + rest), "\n") == |value + tail|
  {
    var u := value + tail + ("\n" + rest);
    forall j | 0 <= j < |value + tail| ensures u[j] != NUL && u[j] !in "\n" {
      assert u[j] == (value + tail)[j];
    }
    Ini.CspnIs(u, "\n", |value + tail|);
  }

  lemma QuotedStep(key: string, before: string, after: string, value: string, tail: string, rest: string)
    requires Legal(Quoted(key, before, after, value, tail))
    ensures var l := Quoted(key, before, after, value, tail);
      StepOn(Printed(l) + ("\n" + rest)) == Left(l)
  {
    hide Cspn, ValueStart, KeyPart, Trimmed, TrimLen, Unescape, LineEnd, KeyText, KeyLeft, Escape, Nuls, KeyLine, Blank;
    var body := "\"" + Escape(value) + "\"" + tail;
    var x := KeyText(key, before, after);
    Grouped(x, body, "\n" + rest);
    NotBlank(body, key);
    QuotedKeyLine(key, before, after, value, tail, rest, body);
  }

  lemma QuotedKeyLine(key: string, before: string, after: string, value: string, tail: string, rest: string, body: string)
    requires Legal(Quoted(key, before, after, value, tail)) && body == "\"" + Escape(value) + "\"" + tail
    ensures var t := KeyText(key, before, after) + (body + ("\n" + rest));
      && t[0] == key[0] && t[0] != NUL && !Blank(t[0]) && t[0] != '\n'
      && KeyLine(t) == Left(Quoted(key, before, after, value, tail))
  {
    hide Cspn, ValueStart, KeyPart, Trimmed, TrimLen, Unescape, LineEnd, KeyText, KeyLeft, Escape, Nuls, KeyLine, Blank;
    var x, u := KeyText(key, before, after), body + ("\n" + rest);
    var t := x + u;
    NotBlank(u, key);
    KeyRead(key, before, after, u);
    Ini.QuotedLine(t, |key| + |before|);
    QuotedBody(x, Escape(value), tail, rest);
    UnescapeEscape(value, '"', tail + ("\n" + rest));
    KeyTextLine(key, before, after);
    if value == "" {
      Grouped(x, body, "\n" + rest);
      LineEndsAt(x + body, rest);
    } else {
      BodyTail(x, body, rest, |value|);
      LineEndsAt(body[|value|..], rest);
    }
  }

  lemma NotBlank(u: string, key: string)
    requires LegalKey(key)
    ensures u != "" && u[0] == '"' ==> !Blank(u[0])
    ensures !Blank(key[0]) && key[0] != '\n' && key[0] != NUL && key[0] != '[' && key[0] != ';'
  {
  }

  lemma Grouped(x: string, body: string, line: string)
    ensures x + (body + line) == x + body + line
  {
  }

  lemma QuotedBody(x: string, escaped: string, tail: string, rest: string)
    ensures var u := "\"" + escaped + "\"" + tail + ("\n" + rest);
      u[0] == '"' && (x + u)[|x|] == '"' && (x + u)[|x| + 1..] == escaped + ("\"" + (tail + ("\n" + rest)))
  {
    var v := escaped + ("\"" + (tail + ("\n" + rest)));
    assert "\"" + escaped + "\"" + tail + ("\n" + rest) == "\"" + v;
    assert (x + ("\"" + v))[|x| + 1..] == v;
  }

  lemma KeyTextLine(key: string, before: string, after: string)
    requires LegalKey(key) && AllBlank(before) && AllBlank(after)
    ensures '\n' !in KeyText(key, before, after)
  {
  }

  lemma BodyTail(x: string, body: string, rest: string, n: nat)
    requires n <= |body|
    ensures (x + (body + ("\n" + rest)))[|x| + n..] == body[n..] + ("\n" + rest)
  {
  }

  lemma LineEndsAt(w: string, rest: string)
    requires '\n' !in w
    ensures LineEnd(w + ("\n" + rest)) == |w|
  {
    hide LineEnd;
    Ini.LineEndIs(w + ("\n" + rest), |w|);
  }

  // ----- Whole files -----

  lemma BlankStep(c: char, rest: string)
    requires Blank(c) || c == '\n'
    ensures Split([c] + rest) == "\0" + Split(rest)
  {
    assert ([c] + rest)[1..] == rest;
  }

  lemma {:induction false} SpacingSplits(blanks: string, rest: string)
    requires AllBlank(blanks)
    ensures Split(blanks + rest) == Nuls(|blanks|) + Split(rest)
  {
    hide Split;
    if blanks == "" {
      assert blanks + rest == rest && Nuls(0) + Split(rest) == Split(rest);
    } else {
      SpacingSplits(blanks[1..], rest);
      BlankStep(blanks[0], blanks[1..] + rest);
      assert blanks + rest == [blanks[0]] + (blanks[1..] + rest);
      Grouped("\0", Nuls(|blanks| - 1), Split(rest));
      assert Nuls(|blanks|) == "\0" + Nuls(|blanks| - 1);
    }
  }

  lemma UnclosedStep(name: string, rest: string)
    requires Legal(Unclosed(name))
    ensures StepOn("[" + name + ("\n" + rest)) == "[" + name + "\0"
  {
    var t := "[" + name + ("\n" + rest);
    assert t[..1 + |name|] == "[" + name;
    forall j | 0 <= j < 1 + |name| ensures t[j] != NUL && t[j] !in "]\n" {
      assert t[j] == ("[" + name)[j];
    }
    Ini.CspnIs(t, "]\n", 1 + |name|);
  }

  /** A header without its bracket ends with its line, and takes the newline too. */
  lemma UnclosedLine(name: string, rest: string)
    requires Legal(Unclosed(name))
    ensures Split("[" + name + ("\n" + rest)) == "[" + name + "\0" + Split(rest)
  {
    hide StepOn;
    UnclosedStep(name, rest);
    var t := "[" + name + ("\n" + rest);
    assert t[2 + |name|..] == rest;
  }

  lemma JunkStep(text: string, rest: string)
    requires Legal(Junk(text))
    ensures StepOn(text + ("\n" + rest)) == Nuls(|text|)
  {
    hide Cspn, LineEnd;
    var t := text + ("\n" + rest);
    LineEndsAt(text, rest);
    Ini.CspnPasses(t, "=\n");
    var n := Cspn(t, "=\n");
    assert n <= |text| by {
      assert t[|text|] == '\n';
    }
    assert n < |text| ==> t[n] == text[n];
  }

  lemma NoValueStep(key: string, before: string, after: string, rest: string)
    requires Legal(NoValue(key, before, after))
    ensures StepOn(KeyText(key, before, after) + ("\n" + rest)) == Nuls(|KeyText(key, before, after)|)
  {
    hide Cspn, ValueStart, KeyPart, Trimmed, TrimLen, Unescape, LineEnd, KeyText, KeyLeft;
    KeyRead(key, before, after, "\n" + rest);
    NotBlank("\n" + rest, key);
    KeyTextLine(key, before, after);
    LineEndsAt(KeyText(key, before, after), rest);
  }

  /** One step takes a whole line that is not just blanks. */
  lemma LineStep(l: Line, rest: string)
    requires Legal(l) && !l.Spacing? && !l.Unclosed?
    ensures StepOn(Printed(l) + ("\n" + rest)) == Left(l) && |Left(l)| == |Printed(l)|
  {
    hide StepOn, LegalKey, Trim, AllBlank, Escape;
    match l {
      case Section(name) => SectionStep(name, "\n" + rest);
      case Plain(key, before, after, value, tail) => PlainStep(key, before, after, value, tail, rest);
      case Quoted(key, before, after, value, tail) => QuotedStep(key, before, after, value, tail, rest);
      case Comment(text) => CommentStep(text, rest);
      case Junk(text) => JunkStep(text, rest);
      case NoValue(key, before, after) => NoValueStep(key, before, after, rest);
    }
  }

  lemma LineSplits(l: Line, rest: string)
    requires Legal(l)
    ensures Split(Printed(l) + ("\n" + rest)) == Left(l) + "\0" + Split(rest)
  {
    hide Printed, Left, StepOn, Legal;
    BlankStep('\n', rest);
    if l.Spacing? {
      SpacingLine(l, rest);
    } else if l.Unclosed? {
      UnclosedSplits(l, rest);
    } else {
      LineStep(l, rest);
      var t := Printed(l) + ("\n" + rest);
      assert t[|Printed(l)|..] == "\n" + rest;
      Grouped(Left(l), "\0", Split(rest));
    }
  }

  lemma UnclosedSplits(l: Line, rest: string)
    requires Legal(l) && l.Unclosed?
    ensures Split(Printed(l) + ("\n" + rest)) == Left(l) + "\0" + Split(rest)
  {
    hide Split;
    UnclosedLine(l.name, rest);
  }

  lemma SpacingLine(l: Line, rest: string)
    requires Legal(l) && l.Spacing?
    ensures Split(Printed(l) + ("\n" + rest)) == Left(l) + "\0" + Split(rest)
  {
    hide Split;
    SpacingSplits(l.blanks, "\n" + rest);
    BlankStep('\n', rest);
    Grouped(Left(l), "\0", Split(rest));
  }

  /** The strings a line leaves: none for an entry without a value. */
  function LineTokens(l: Line): seq<string> {
    match l
    case Section(name) => ["[" + name]
    case Unclosed(name) => ["[" + name]
    case Plain(key, _, _, value, _) => [key, value]
    case Quoted(key, _, _, value, _) => if value == "" then [] else [key, value]
    case _ => []
  }

  function FileTokens(lines: seq<Line>): seq<string> {
    if lines == [] then [] else LineTokens(lines[0]) + FileTokens(lines[1..])
  }

  lemma LeftTokens(l: Line, s: string)
    requires Legal(l)
    ensures Tokens(Left(l) + "\0" + s) == LineTokens(l) + Tokens(s)
  {
    hide Tokens, Nuls;
    match l {
      case Section(name) =>
        TwoNuls("[" + name, 0, s);
        TokensOfWord("[" + name, 2, s);
      case Plain(key, before, after, value, tail) =>
        EntryTokens(key, |before| + 1 + |after|, value, |tail|, s);
      case Quoted(key, before, after, value, tail) =>
        if value == "" {
          OnlyNuls(|Printed(l)|, s);
        } else {
          EntryTokens(key, |before| + 1 + |after|, value, |Escape(value)| - |value| + 2 + |tail|, s);
        }
      case Comment(text) => OnlyNuls(1 + |text|, s);
      case Spacing(blanks) => OnlyNuls(|blanks|, s);
      case Unclosed(name) =>
        OneNul("[" + name, s);
        TokensOfWord("[" + name, 1, s);
      case Junk(text) => OnlyNuls(|text|, s);
      case NoValue(key, before, after) => OnlyNuls(|KeyText(key, before, after)|, s);
    }
  }

  lemma OneNul(w: string, s: string)
    ensures w + "\0" + s == w + Nuls(1) + s
  {
  }

  lemma OnlyNuls(n: nat, s: string)
    ensures Tokens(Nuls(n) + "\0" + s) == [] + Tokens(s)
  {
    hide Tokens;
    assert Nuls(n) + "\0" + s == Nuls(n + 1) + s;
    TokensAfterNuls(n + 1, s);
    assert [] + Tokens(s) == Tokens(s);
  }

  lemma TwoNuls(w: string, n: nat, s: string)
    ensures w + "\0" + "\0" + s == w + Nuls(2) + s
    ensures w + Nuls(n) + "\0" + s == w + Nuls(n + 1) + s
  {
  }

  lemma EntryTokens(key: string, a: nat, value: string, b: nat, s: string)
    requires key != "" && NUL !in key && value != "" && NUL !in value && a > 0
    ensures Tokens(key + Nuls(a) + (value + Nuls(b)) + "\0" + s) == [key, value] + Tokens(s)
    ensures Tokens(key + Nuls(a) + value + Nuls(b) + "\0" + s) == [key, value] + Tokens(s)
  {
    hide Tokens;
    var rest := value + Nuls(b + 1) + s;
    TwoNuls(value, b, s);
    EntryParts(key + Nuls(a), value, Nuls(b), s);
    TokensOfWord(key, a, rest);
    TokensOfWord(value, b + 1, s);
    assert [key] + ([value] + Tokens(s)) == [key, value] + Tokens(s);
  }

  lemma EntryParts(x: string, value: string, z: string, s: string)
    ensures x + (value + z) + "\0" + s == x + (value + z + "\0" + s)
    ensures x + value + z + "\0" + s == x + (value + z + "\0" + s)
  {
  }

  lemma {:induction false} SplitTokens(lines: seq<Line>)
    requires forall i :: 0 <= i < |lines| ==> Legal(lines[i])
    ensures Tokens(Split(PrintedFile(lines))) == FileTokens(lines)
  {
    hide Legal, Printed, Left, LineTokens, Split, Tokens;
    if lines == [] {
      assert Tokens(Split("")) == [] by { NothingLeft(); }
    } else {
      var rest := PrintedFile(lines[1..]);
      Grouped(Printed(lines[0]), "\n", rest);
      LineSplits(lines[0], rest);
      LeftTokens(lines[0], Split(rest));
      SplitTokens(lines[1..]);
    }
  }

  lemma NothingLeft()
    ensures Tokens(Split("")) == []
  {
  }

  lemma {:induction false} GetIsLookup(lines: seq<Line>, section: Option<string>, key: string, current: string)
    requires forall i :: 0 <= i < |lines| ==> Legal(lines[i])
    ensures Get(FileTokens(lines), section, key, current) == Lookup(lines, section, key, current)
  {
    hide SameLetters, Trim;
    if lines != [] {
      var l, rest := lines[0], FileTokens(lines[1..]);
      GetIsLookup(lines[1..], section, key, SectionAfter(l, current));
      if l.Section? || l.Unclosed? {
        assert (["[" + l.name] + rest)[1..] == rest && ("[" + l.name)[1..] == l.name;
      } else if (l.Plain? || l.Quoted?) && l.value != "" {
        assert ([l.key, l.value] + rest)[2..] == rest;
      } else {
        assert [] + rest == rest;
      }
    }
  }

  /**
    For every list of legal lines, a lookup in the split print-out finds what was written: the value
    of the first entry with that key, in letter case or not, in such a section, or nothing.
   */
  lemma RoundTrip(lines: seq<Line>, section: Option<string>, key: string)
    requires forall i :: 0 <= i < |lines| ==> Legal(lines[i])
    ensures Get(Tokens(Split(PrintedFile(lines))), section, key, "") == Lookup(lines, section, key, "")
  {
    SplitTokens(lines);
    GetIsLookup(lines, section, key, "");
  }

  // ----- The first-match law -----

  /** The value of the first entry with the key in such a section, whatever the value is. */
  function First(lines: seq<Line>, section: Option<string>, key: string, current: string): Option<string> {
    if lines == [] then None
    else match lines[0]
      case Section(name) => First(lines[1..], section, key, name)
      case Unclosed(name) => First(lines[1..], section, key, name)
      case Plain(k, _, _, value, _) =>
        if Wanted(section, key, current, k) then Some(value) else First(lines[1..], section, key, current)
      case Quoted(k, _, _, value, _) =>
        if Wanted(section, key, current, k) then Some(value) else First(lines[1..], section, key, current)
      case _ => First(lines[1..], section, key, current)
  }

  /** No lookup ever finds an empty value. */
  lemma {:induction false} NeverEmpty(lines: seq<Line>, section: Option<string>, key: string, current: string)
    requires forall i :: 0 <= i < |lines| ==> Legal(lines[i])
    ensures Lookup(lines, section, key, current) != Some("")
  {
    hide Wanted;
    if lines != [] {
      NeverEmpty(lines[1..], section, key, SectionAfter(lines[0], current));
    }
  }

  lemma {:induction false} FirstUnlessEmpty(lines: seq<Line>, section: Option<string>, key: string, current: string)
    ensures First(lines, section, key, current) != Some("") ==>
      Lookup(lines, section, key, current) == First(lines, section, key, current)
  {
    hide Wanted;
    if lines != [] {
      FirstUnlessEmpty(lines[1..], section, key, SectionAfter(lines[0], current));
    }
  }

  /**
    A lookup in the split print-out gives the first match's value, or nothing when there is no
    match, exactly unless the first match's value is empty: that entry is wiped, and a later one found.
   */
  lemma FirstMatch(lines: seq<Line>, section: Option<string>, key: string)
    requires forall i :: 0 <= i < |lines| ==> Legal(lines[i])
    ensures Get(Tokens(Split(PrintedFile(lines))), section, key, "") == First(lines, section, key, "")
       <==> First(lines, section, key, "") != Some("")
  {
    hide Legal, Tokens, Split, PrintedFile, Get;
    RoundTrip(lines, section, key);
    NeverEmpty(lines, section, key, "");
    FirstUnlessEmpty(lines, section, key, "");
  }

  /** After `a=""` and `a=x`, looking up `a` gives x. */
  lemma EmptyFirstMatch()
    ensures var lines := [Quoted("a", "", "", "", ""), Plain("a", "", "", "x", "")];
      && First(lines, None, "a", "") == Some("")
      && Get(Tokens(Split(PrintedFile(lines))), None, "a", "") == Some("x")
  {
    hide Tokens, Split, PrintedFile, Get;
    var lines := [Quoted("a", "", "", "", ""), Plain("a", "", "", "x", "")];
    RoundTrip(lines, None, "a");
    assert lines[1..][0] == lines[1];
  }

  /** After `[Az]` and `Qm=1`, looking up `qM` in section `aZ` gives 1. */
  lemma AnyLetterCase()
    ensures var lines := [Section("Az"), Plain("Qm", "", "", "1", "")];
      Get(Tokens(Split(PrintedFile(lines))), Some("aZ"), "qM", "") == Some("1")
  {
    hide Tokens, Split, PrintedFile, Get;
    var lines := [Section("Az"), Plain("Qm", "", "", "1", "")];
    RoundTrip(lines, Some("aZ"), "qM");
    assert lines[1..][0] == lines[1];
  }

  /** The code itself, from a printed file to the pointer a lookup returns. */
  method LoadAndGet(lines: seq<Line>, section: Option<string>, key: string) returns (data: array<char>, end: nat, r: int)
    requires forall i :: 0 <= i < |lines| ==> Legal(lines[i])
    requires NUL !in key && (section.Some? ==> NUL !in section.value)
    ensures r <= end < data.Length && IniGet.Found(data[..end], r) == Lookup(lines, section, key, "")
    ensures IniGet.Found(data[..end], r) == First(lines, section, key, "") <==> First(lines, section, key, "") != Some("")
  {
    hide Legal, PrintedFile, Split, Get, Lookup, First;
    data, end := Ini.IniLoad(PrintedFile(lines));
    r := IniGet.IniGet(data, end, section, key);
    RoundTrip(lines, section, key);
    FirstMatch(lines, section, key);
  }
}
