/**
  Formats written down piece by piece: a whole format prints its pieces in order, and every piece has
  its own arguments.
 */
module PrintfFormats {
  import opened PrintfSpec
  import Laws = PrintfLaws
  import opened PrintfStandard
  import Printf
  import opened Common

  /** A width or precision: none, the digits of a number, or a star with the `int` passed for it. */
  datatype Amount = Absent | Decimals(digits: string) | Star(argument: int)

  datatype Piece =
    | Literal(text: string)
    | Percent
    | Conversion(flags: string, width: Amount, precision: Amount, modifier: string, conversion: char, arg: Arg)

  // ----- What a piece looks like -----

  predicate AllDecimal(t: string) { forall i :: 0 <= i < |t| ==> t[i] in "0123456789" }

  predicate LegalAmount(a: Amount) {
    match a
    case Absent => true
    case Decimals(digits) => AllDecimal(digits) && Number(digits, 10) <= 0x7FFF_FFFF
    case Star(v) => -0x8000_0000 <= v <= 0x7FFF_FFFF
  }

  predicate Legal(p: Piece) {
    match p
    case Literal(text) => '%' !in text && '\0' !in text
    case Percent => true
    case Conversion(flags, width, precision, modifier, conversion, _) =>
      && (forall i :: 0 <= i < |flags| ==> flags[i] in "-+ #0'")
      && LegalAmount(width) && LegalAmount(precision)
      && (width.Decimals? ==> width.digits != "" && width.digits[0] != '0')
      && modifier in ["", "hh", "h", "l", "ll", "L", "j", "t", "z"]
      && conversion !in "-+ #0'123456789.*hlLjtz" && conversion != '\0'
  }

  function Spelled(a: Amount): string {
    match a
    case Absent => ""
    case Decimals(digits) => digits
    case Star(_) => "*"
  }

  function Written(p: Piece): string {
    match p
    case Literal(text) => text
    case Percent => "%%"
    case Conversion(flags, width, precision, modifier, conversion, _) =>
      "%" + flags + Spelled(width) + (if precision.Absent? then "" else "." + Spelled(precision)) + modifier + [conversion]
  }

  function Format(pieces: seq<Piece>): string {
    if pieces == [] then "" else Written(pieces[0]) + Format(pieces[1..])
  }

  // ----- What a piece means -----

  /** A star takes the argument before the conversion's own. */
  function Passed(p: Piece): seq<Arg> {
    if !p.Conversion? then []
    else
      (if p.width.Star? then [Arg(p.width.argument, None)] else [])
      + (if p.precision.Star? then [Arg(p.precision.argument, None)] else [])
      + (if p.conversion in "diouxXcspnaAeEfFgG" then [p.arg] else [])
  }

  function AllPassed(pieces: seq<Piece>): seq<Arg> {
    if pieces == [] then [] else Passed(pieces[0]) + AllPassed(pieces[1..])
  }

  function ModifierOf(t: string): Modifier {
    if t == "hh" then Char else if t == "h" then Short else if t == "l" then Long else if t == "ll" then LongLong
    else if t == "L" then LongDouble else if t == "j" then IntMax else if t == "t" then PtrDiff
    else if t == "z" then Size else Plain
  }

  /** The number, or -1 for none. */
  function Value(a: Amount): int {
    match a
    case Absent => -1
    case Decimals(digits) => Number(digits, 10)
    case Star(v) => v
  }

  /** A negative width flushes left, a negative precision is none. */
  function Meant(p: Piece): Directive
    requires p.Conversion?
  {
    var w := if p.width.Absent? then 0 else Value(p.width);
    Directive(
      Flags('-' in p.flags || w < 0, '+' in p.flags, ' ' in p.flags, '#' in p.flags, '0' in p.flags, '\'' in p.flags),
      if w < 0 then -w else w, if Value(p.precision) < 0 then -1 else Value(p.precision), ModifierOf(p.modifier), p.conversion)
  }

  function PieceText(p: Piece, fmtflt: FloatFormat): Option<string> {
    match p
    case Literal(text) => Some(text)
    case Percent => Some("%")
    case Conversion(_, _, _, _, _, arg) => Converted(Meant(p), arg, fmtflt)
  }

  /** The pieces' texts one after the other, up to one that overflows. */
  function Texts(pieces: seq<Piece>, fmtflt: FloatFormat): Expansion {
    if pieces == [] then Expansion("", false)
    else
      match PieceText(pieces[0], fmtflt)
      case None => Expansion("", true)
      case Some(t) => var rest := Texts(pieces[1..], fmtflt); Expansion(t + rest.text, rest.overflow)
  }

  // ----- Reading the pieces back -----

  /** `t` stands in `s` at `i`. */
  predicate Stands(s: string, i: nat, t: string) { i + |t| <= |s| && s[i..i + |t|] == t }

  lemma StandsParts(s: string, i: nat, a: string, b: string)
    requires Stands(s, i, a + b)
    ensures Stands(s, i, a) && Stands(s, i + |a|, b)
  {
    var t := s[i..i + |a + b|];
    assert t[..|a|] == a && t[|a|..] == b;
    assert s[i..i + |a|] == t[..|a|] && s[i + |a|..i + |a| + |b|] == t[|a|..];
  }

  lemma CharStands(s: string, i: nat, t: string, n: nat)
    requires Stands(s, i, t) && n < |t|
    ensures i + n < |s| && s[i + n] == t[n]
  {
    assert s[i + n] == s[i..i + |t|][n];
  }

  lemma {:induction false} FlagsEndIs(s: string, i: nat, j: nat)
    requires i <= j < |s| && (forall k :: i <= k < j ==> IsFlag(s[k])) && !IsFlag(s[j])
    ensures FlagsEnd(s, i) == j
    decreases j - i
  {
    if i < j {
      FlagsEndIs(s, i + 1, j);
    }
  }

  lemma {:induction false} DigitsEndIs(s: string, i: nat, j: nat)
    requires i <= j < |s| && (forall k :: i <= k < j ==> IsDigit(s[k])) && !IsDigit(s[j])
    ensures DigitsEnd(s, i) == j
    decreases j - i
  {
    if i < j {
      DigitsEndIs(s, i + 1, j);
    }
  }

  lemma {:induction false} DecimalIsNumber(t: string)
    requires AllDecimal(t)
    ensures Decimal(t) == Number(t, 10)
  {
    if t != "" {
      DecimalIsNumber(t[..|t| - 1]);
      assert t[|t| - 1] in "0123456789";
    }
  }

  lemma SignedInt(v: int)
    requires -0x8000_0000 <= v <= 0x7FFF_FFFF
    ensures Signed(v, U32) == v
  {
    if v < 0 {
      Laws.Arith.DivisionUnique(v, U32, -1, v + U32);
    } else {
      Laws.Arith.DivisionUnique(v, U32, 0, v);
    }
  }

  function Stars(a: Amount): nat { if a.Star? then 1 else 0 }

  lemma NoNumberRead(s: string, i: nat, k: nat, args: Args)
    requires i < |s| && !IsDigit(s[i])
    ensures FieldAt(s, i, k, args) ==
      if s[i] == '*' then Field(Signed(args(k).number, U32), i + 1, k + 1) else Field(0, i, k)
  {
    hide IsDigit, DigitsEnd, Decimal, Signed;
    DigitsEndIs(s, i, i);
    Laws.NoDigitsYet(s, i);
  }

  lemma NumberRead(s: string, i: nat, digits: string, k: nat, args: Args)
    requires AllDecimal(digits) && Number(digits, 10) <= 0x7FFF_FFFF && Stands(s, i, digits)
    requires var j := i + |digits|; j < |s| && !IsDigit(s[j]) && s[j] != '*'
    ensures FieldAt(s, i, k, args) == Field(Number(digits, 10), i + |digits|, k)
  {
    hide IsDigit, DigitsEnd, Decimal, Number, Signed;
    var j := i + |digits|;
    forall n | i <= n < j ensures IsDigit(s[n]) {
      DigitHere(s, i, digits, n);
    }
    DigitsEndIs(s, i, j);
    DecimalIsNumber(digits);
  }

  lemma DigitHere(s: string, i: nat, digits: string, n: nat)
    requires AllDecimal(digits) && Stands(s, i, digits) && i <= n < i + |digits|
    ensures IsDigit(s[n])
  {
    CharStands(s, i, digits, n - i);
  }

  lemma FieldRead(s: string, i: nat, a: Amount, k: nat, args: Args)
    requires LegalAmount(a) && Stands(s, i, Spelled(a))
    requires var j := i + |Spelled(a)|; j < |s| && (a.Star? || (!IsDigit(s[j]) && s[j] != '*'))
    requires a.Star? ==> args(k).number == a.argument
    ensures FieldAt(s, i, k, args) ==
      Field(if a.Absent? then 0 else Value(a), i + |Spelled(a)|, k + Stars(a))
  {
    hide FieldAt, Stands, Number, AllDecimal, Signed;
    match a {
      case Absent =>
        NoNumberRead(s, i, k, args);
      case Decimals(digits) =>
        NumberRead(s, i, digits, k, args);
      case Star(v) =>
        CharStands(s, i, "*", 0);
        NoNumberRead(s, i, k, args);
        SignedInt(v);
    }
  }

  lemma PrecisionRead(s: string, i: nat, a: Amount, k: nat, args: Args)
    requires LegalAmount(a) && Stands(s, i, PrecisionSpelled(a))
    requires var j := i + |PrecisionSpelled(a)|; j < |s| && !IsDigit(s[j]) && s[j] != '*' && s[j] != '.'
    requires a.Star? ==> args(k).number == a.argument
    ensures PrecisionAt(s, i, k, args) ==
      Field(if Value(a) < 0 then -1 else Value(a), i + |PrecisionSpelled(a)|, k + Stars(a))
  {
    hide FieldAt, LegalAmount;
    if !a.Absent? {
      StandsParts(s, i, ".", Spelled(a));
      CharStands(s, i, ".", 0);
      FieldRead(s, i + 1, a, k, args);
    }
  }

  function PrecisionSpelled(a: Amount): string { if a.Absent? then "" else "." + Spelled(a) }

  lemma ModifierRead(s: string, i: nat, t: string, c: char)
    requires t in ["", "hh", "h", "l", "ll", "L", "j", "t", "z"] && c !in "hlLjtz" && Stands(s, i, t + [c])
    ensures ModifierAt(s, i) == Modified(ModifierOf(t), i + |t|) && i + |t| < |s| && s[i + |t|] == c
  {
    hide Stands;
    var w := t + [c];
    CharStands(s, i, w, 0);
    CharStands(s, i, w, |t|);
    if |t| == 2 {
      CharStands(s, i, w, 1);
    }
  }

  // A directive after its '%', and what is left of it after the flags, the width and the precision.

  function AfterPrecision(p: Piece): string
    requires p.Conversion?
  {
    p.modifier + [p.conversion]
  }

  function AfterWidth(p: Piece): string
    requires p.Conversion?
  {
    PrecisionSpelled(p.precision) + AfterPrecision(p)
  }

  function AfterFlags(p: Piece): string
    requires p.Conversion?
  {
    Spelled(p.width) + AfterWidth(p)
  }

  lemma WrittenParts(p: Piece)
    requires p.Conversion?
    ensures Written(p) == "%" + (p.flags + AfterFlags(p))
  {
  }

  predicate EndsPrecision(c: char) { !IsFlag(c) && !IsDigit(c) && c != '*' && c != '.' }

  lemma PrecisionHead(p: Piece)
    requires p.Conversion? && Legal(p)
    ensures EndsPrecision(AfterPrecision(p)[0])
  {
    hide LegalAmount;
    assert AfterPrecision(p)[0] == if p.modifier == "" then p.conversion else p.modifier[0];
  }

  lemma WidthHead(p: Piece)
    requires p.Conversion? && Legal(p)
    ensures AfterWidth(p) != ""
    ensures var c := AfterWidth(p)[0]; !IsFlag(c) && !IsDigit(c) && c != '*'
  {
    hide Legal;
    PrecisionHead(p);
    assert AfterWidth(p)[0] == if p.precision.Absent? then AfterPrecision(p)[0] else '.';
  }

  lemma FlagsHead(p: Piece)
    requires p.Conversion? && Legal(p)
    ensures !IsFlag(AfterFlags(p)[0])
  {
    hide AfterWidth, IsFlag;
    WidthHead(p);
    AmountHead(p.width);
    assert AfterFlags(p)[0] == if p.width.Absent? then AfterWidth(p)[0] else Spelled(p.width)[0];
  }

  lemma AmountHead(a: Amount)
    requires LegalAmount(a) && (a.Decimals? ==> a.digits != "" && a.digits[0] != '0')
    ensures !a.Absent? ==> Spelled(a) != "" && !IsFlag(Spelled(a)[0])
  {
    if a.Decimals? {
      assert a.digits[0] in "0123456789";
    }
  }

  lemma FlagsRead(s: string, i: nat, p: Piece)
    requires p.Conversion? && Legal(p) && Stands(s, i, p.flags + AfterFlags(p))
    ensures var a := i + |p.flags|;
      Stands(s, a, AfterFlags(p)) && FlagsEnd(s, i) == a && s[i..a] == p.flags
  {
    hide IsFlag;
    var a := i + |p.flags|;
    StandsParts(s, i, p.flags, AfterFlags(p));
    FlagsHead(p);
    CharStands(s, a, AfterFlags(p), 0);
    forall n | i <= n < a ensures IsFlag(s[n]) {
      FlagHere(s, i, p.flags, n);
    }
    FlagsEndIs(s, i, a);
  }

  lemma FlagHere(s: string, i: nat, flags: string, n: nat)
    requires Stands(s, i, flags) && i <= n < i + |flags| && flags[n - i] in "-+ #0'"
    ensures IsFlag(s[n])
  {
    CharStands(s, i, flags, n - i);
  }

  lemma AmountsRead(s: string, a: nat, p: Piece, k: nat, args: Args)
    requires p.Conversion? && Legal(p) && Stands(s, a, AfterFlags(p))
    requires p.width.Star? ==> args(k).number == p.width.argument
    requires p.precision.Star? ==> args(k + Stars(p.width)).number == p.precision.argument
    ensures
      var b := a + |Spelled(p.width)|;
      var c := b + |PrecisionSpelled(p.precision)|;
      && b <= c <= |s| && Stands(s, c, AfterPrecision(p))
      && FieldAt(s, a, k, args) == Field(if p.width.Absent? then 0 else Value(p.width), b, k + Stars(p.width))
      && PrecisionAt(s, b, k + Stars(p.width), args) ==
           Field(if Value(p.precision) < 0 then -1 else Value(p.precision), c, k + Stars(p.width) + Stars(p.precision))
  {
    hide FieldAt, PrecisionAt, Stands, IsFlag, LegalAmount, Value, IsDigit, Spelled, PrecisionSpelled;
    WidthHead(p);
    PrecisionHead(p);
    var b := a + |Spelled(p.width)|;
    var c := b + |PrecisionSpelled(p.precision)|;
    StandsParts(s, a, Spelled(p.width), AfterWidth(p));
    CharStands(s, b, AfterWidth(p), 0);
    StandsParts(s, b, PrecisionSpelled(p.precision), AfterPrecision(p));
    CharStands(s, c, AfterPrecision(p), 0);
    hide AfterWidth, AfterPrecision, AfterFlags, Legal;
    LegalAmounts(p);
    FieldRead(s, a, p.width, k, args);
    PrecisionRead(s, b, p.precision, k + Stars(p.width), args);
  }

  lemma LegalAmounts(p: Piece)
    requires p.Conversion? && Legal(p)
    ensures LegalAmount(p.width) && LegalAmount(p.precision)
    ensures p.modifier in ["", "hh", "h", "l", "ll", "L", "j", "t", "z"] && p.conversion !in "hlLjtz"
  {
  }

  /** What a directive reads is what its piece says, whatever surrounds it. */
  lemma DirectiveRead(s: string, i: nat, p: Piece, k: nat, args: Args)
    requires p.Conversion? && Legal(p) && Stands(s, i, p.flags + AfterFlags(p))
    requires p.width.Star? ==> args(k).number == p.width.argument
    requires p.precision.Star? ==> args(k + Stars(p.width)).number == p.precision.argument
    ensures DirectiveAt(s, i, k, args) ==
      Parsed(Meant(p), i + |p.flags + AfterFlags(p)|, k + Stars(p.width) + Stars(p.precision))
  {
    hide FieldAt, PrecisionAt, FlagsEnd, ModifierAt, FlagsIn, Stands, Legal, ModifierOf, Value, Spelled, PrecisionSpelled, Meant, WithWidth, Abs;
    FlagsRead(s, i, p);
    LegalAmounts(p);
    AmountsRead(s, i + |p.flags|, p, k, args);
    ModifierRead(s, i + |p.flags| + |Spelled(p.width)| + |PrecisionSpelled(p.precision)|, p.modifier, p.conversion);
    FlagsMeant(p);
  }

  lemma FlagsMeant(p: Piece)
    requires p.Conversion?
    ensures var w := if p.width.Absent? then 0 else Value(p.width);
      Meant(p) == Directive(WithWidth(FlagsIn(p.flags), w), Abs(w), if Value(p.precision) < 0 then -1 else Value(p.precision),
                            ModifierOf(p.modifier), p.conversion)
  {
  }

  // ----- Whole formats -----

  /** `args` are the pieces' own from number `k` on. */
  predicate Given(args: Args, k: nat, passed: seq<Arg>) { forall n :: 0 <= n < |passed| ==> args(k + n) == passed[n] }

  lemma GivenParts(args: Args, k: nat, a: seq<Arg>, b: seq<Arg>)
    requires Given(args, k, a + b)
    ensures Given(args, k, a) && Given(args, k + |a|, b)
  {
    forall n | 0 <= n < |a| ensures args(k + n) == a[n] {
      assert a[n] == (a + b)[n];
    }
    forall n | 0 <= n < |b| ensures args(k + |a| + n) == b[n] {
      assert b[n] == (a + b)[|a| + n] == args(k + (|a| + n));
    }
  }

  lemma {:induction false} LiteralExpands(s: string, i: nat, t: string, k: nat, args: Args, fmtflt: FloatFormat)
    requires Stands(s, i, t) && '%' !in t
    ensures Expand(s, i, k, args, fmtflt) == Prepend(t, Expand(s, i + |t|, k, args, fmtflt))
    decreases |t|
  {
    hide DirectiveAt, Converted;
    if t == "" {
      assert "" + Expand(s, i, k, args, fmtflt).text == Expand(s, i, k, args, fmtflt).text;
    } else {
      CharStands(s, i, t, 0);
      assert t == [t[0]] + t[1..];
      StandsParts(s, i, [t[0]], t[1..]);
      LiteralExpands(s, i + 1, t[1..], k, args, fmtflt);
      Laws.Append([t[0]], t[1..], Expand(s, i + |t|, k, args, fmtflt).text);
    }
  }

  /** The argument of its own comes after those of the stars. */
  lemma PassedParts(p: Piece, args: Args, k: nat)
    requires p.Conversion? && Given(args, k, Passed(p))
    ensures p.width.Star? ==> args(k).number == p.width.argument
    ensures p.precision.Star? ==> args(k + Stars(p.width)).number == p.precision.argument
    ensures Takes(p.conversion) == 1 ==> args(k + Stars(p.width) + Stars(p.precision)) == p.arg
    ensures Stars(p.width) + Stars(p.precision) + Takes(p.conversion) == |Passed(p)|
  {
    var w, q := if p.width.Star? then [Arg(p.width.argument, None)] else [], if p.precision.Star? then [Arg(p.precision.argument, None)] else [];
    var own := if p.conversion in "diouxXcspnaAeEfFgG" then [p.arg] else [];
    assert Passed(p) == w + q + own;
    GivenParts(args, k, w + q, own);
    GivenParts(args, k, w, q);
    assert w != [] ==> args(k + 0) == w[0];
    assert q != [] ==> args(k + |w| + 0) == q[0];
    assert own != [] ==> args(k + |w + q| + 0) == own[0];
  }

  lemma ConversionExpands(s: string, i: nat, p: Piece, k: nat, args: Args, fmtflt: FloatFormat)
    requires p.Conversion? && Legal(p) && Stands(s, i, Written(p)) && Given(args, k, Passed(p))
    ensures Expand(s, i, k, args, fmtflt) ==
      match PieceText(p, fmtflt)
      case None => Expansion("", true)
      case Some(t) => Prepend(t, Expand(s, i + |Written(p)|, k + |Passed(p)|, args, fmtflt))
  {
    hide DirectiveAt, Converted, Stands, Legal, Meant, Takes, Passed, Given, Written;
    WrittenParts(p);
    StandsParts(s, i, "%", p.flags + AfterFlags(p));
    CharStands(s, i, "%", 0);
    PassedParts(p, args, k);
    DirectiveRead(s, i + 1, p, k, args);
    NoArgument(Meant(p), p.arg, args(k + Stars(p.width) + Stars(p.precision)), fmtflt);
    MeantConversion(p);
  }

  lemma MeantConversion(p: Piece)
    requires p.Conversion?
    ensures Meant(p).conversion == p.conversion
  {
  }

  /** A conversion that takes no argument prints the same whatever the next one is. */
  lemma NoArgument(d: Directive, a: Arg, b: Arg, fmtflt: FloatFormat)
    ensures Takes(d.conversion) == 1 || Converted(d, a, fmtflt) == Converted(d, b, fmtflt)
    ensures Takes(d.conversion) <= 1
  {
    hide IntText, StrText;
  }

  /** `%%` is a directive of its own that takes nothing. */
  lemma PercentExpands(s: string, i: nat, k: nat, args: Args, fmtflt: FloatFormat)
    requires Stands(s, i, "%%")
    ensures Expand(s, i, k, args, fmtflt) == Prepend("%", Expand(s, i + 2, k, args, fmtflt))
  {
    hide Expand, Stands, Given, Converted;
    var p := Conversion("", Absent, Absent, "", '%', Arg(0, None));
    assert Written(p) == "%%" && Legal(p) && Passed(p) == [];
    NothingGiven(args, k);
    ConversionExpands(s, i, p, k, args, fmtflt);
    PercentText(p, fmtflt);
  }

  lemma PercentText(p: Piece, fmtflt: FloatFormat)
    requires p.Conversion? && p.conversion == '%'
    ensures PieceText(p, fmtflt) == Some("%")
  {
  }

  lemma NothingGiven(args: Args, k: nat)
    ensures Given(args, k, [])
  {
  }

  lemma PieceExpands(s: string, i: nat, p: Piece, k: nat, args: Args, fmtflt: FloatFormat)
    requires Legal(p) && Stands(s, i, Written(p)) && Given(args, k, Passed(p))
    ensures Expand(s, i, k, args, fmtflt) ==
      match PieceText(p, fmtflt)
      case None => Expansion("", true)
      case Some(t) => Prepend(t, Expand(s, i + |Written(p)|, k + |Passed(p)|, args, fmtflt))
  {
    hide Expand, Converted, Stands, Given, Meant;
    match p {
      case Literal(text) => LiteralExpands(s, i, text, k, args, fmtflt);
      case Percent => PercentExpands(s, i, k, args, fmtflt);
      case Conversion(_, _, _, _, _, _) =>
        hide Written, Passed, Legal, PieceText;
        ConversionExpands(s, i, p, k, args, fmtflt);
    }
  }

  lemma {:induction false} PiecesExpand(s: string, i: nat, pieces: seq<Piece>, k: nat, args: Args, fmtflt: FloatFormat)
    requires forall n :: 0 <= n < |pieces| ==> Legal(pieces[n])
    requires Stands(s, i, Format(pieces)) && i + |Format(pieces)| == |s| && Given(args, k, AllPassed(pieces))
    ensures Expand(s, i, k, args, fmtflt) == Texts(pieces, fmtflt)
    decreases |pieces|
  {
    hide Legal, Stands, Given, Written, Passed, PieceText, Expand;
    if pieces == [] {
      hide Texts;
      AtTheEnd(s, args, k, fmtflt);
    } else {
      var p := pieces[0];
      StandsParts(s, i, Written(p), Format(pieces[1..]));
      GivenParts(args, k, Passed(p), AllPassed(pieces[1..]));
      PiecesExpand(s, i + |Written(p)|, pieces[1..], k + |Passed(p)|, args, fmtflt);
      PieceExpands(s, i, p, k, args, fmtflt);
    }
  }

  lemma AtTheEnd(s: string, args: Args, k: nat, fmtflt: FloatFormat)
    ensures Expand(s, |s|, k, args, fmtflt) == Texts([], fmtflt)
  {
  }

  /**
    A format printed from pieces has the text of its pieces one after the other, each of its own
    arguments: what stands before a directive decides neither what it prints nor of which argument.
   */
  lemma FormatsPieceByPiece(pieces: seq<Piece>, args: Args, fmtflt: FloatFormat)
    requires forall n :: 0 <= n < |pieces| ==> Legal(pieces[n])
    requires forall n :: 0 <= n < |AllPassed(pieces)| ==> args(n) == AllPassed(pieces)[n]
    ensures Printf.Unbounded(Format(pieces), args, fmtflt) == Texts(pieces, fmtflt)
  {
    hide Legal, AllPassed, Expand, Texts;
    var s := Format(pieces);
    assert s[0..0 + |s|] == s;
    PiecesExpand(s, 0, pieces, 0, args, fmtflt);
  }

  // ----- Whole formats against the standard -----

  /** Conversions with a text of their own in the standard, safe to print; see DirectiveConforms. */
  predicate Sound(p: Piece) {
    p.Conversion? ==> Specified(Meant(p), p.arg) && FetchedWhole(Meant(p)) && Safe(Meant(p), p.arg.number)
  }

  function StandardPiece(p: Piece): string
    requires Sound(p)
  {
    match p
    case Literal(text) => text
    case Percent => "%"
    case Conversion(_, _, _, _, _, arg) => StandardText(Meant(p), arg)
  }

  function StandardTexts(pieces: seq<Piece>): string
    requires forall n :: 0 <= n < |pieces| ==> Sound(pieces[n])
  {
    if pieces == [] then "" else StandardPiece(pieces[0]) + StandardTexts(pieces[1..])
  }

  lemma SoundPiece(p: Piece, fmtflt: FloatFormat)
    requires Sound(p)
    ensures PieceText(p, fmtflt) == Some(StandardPiece(p))
  {
    hide Converted, StandardText, Specified, FetchedWhole, Safe, Meant;
    if p.Conversion? {
      WholeConforms(Meant(p), p.arg, fmtflt);
    }
  }

  lemma {:induction false} SoundTexts(pieces: seq<Piece>, fmtflt: FloatFormat)
    requires forall n :: 0 <= n < |pieces| ==> Sound(pieces[n])
    ensures Texts(pieces, fmtflt) == Expansion(StandardTexts(pieces), false)
  {
    hide PieceText, StandardPiece, Sound;
    if pieces != [] {
      SoundPiece(pieces[0], fmtflt);
      SoundTexts(pieces[1..], fmtflt);
    }
  }

  /** The formatter itself, on a format and arguments made from such pieces. */
  method PrintPieces(str: array?<char>, size: nat, pieces: seq<Piece>, fmtflt: FloatFormat) returns (r: int)
    requires str != null ==> size <= str.Length
    requires forall n :: 0 <= n < |pieces| ==> Legal(pieces[n]) && Sound(pieces[n])
    modifies str
    ensures var t, was := StandardTexts(pieces), old(Printf.Contents(str));
            var stored := if |t| < size then |t| else size - 1;
            && (str == null || size == 0 ==> Printf.Contents(str) == was)
            && (str != null && size > 0 ==> size <= |was| && Printf.Contents(str) == t[..stored] + ['\0'] + was[stored + 1..])
            && r == if |t| > 0x7FFF_FFFF then -1 else |t|
  {
    hide Legal, Sound, StandardTexts, Texts, AllPassed, Format, Printf.Unbounded;
    var passed := AllPassed(pieces);
    var args := (n: nat) => if n < |passed| then passed[n] else Arg(0, None);
    NoNuls(pieces);
    FormatsPieceByPiece(pieces, args, fmtflt);
    SoundTexts(pieces, fmtflt);
    r := Printf.VsnPrintf(str, size, Format(pieces), args, fmtflt);
  }

  lemma {:induction false} NoNuls(pieces: seq<Piece>)
    requires forall n :: 0 <= n < |pieces| ==> Legal(pieces[n])
    ensures '\0' !in Format(pieces)
  {
    hide Legal, Written;
    if pieces != [] {
      NoNul(pieces[0]);
      NoNuls(pieces[1..]);
    }
  }

  lemma AmountNoNul(a: Amount)
    requires LegalAmount(a)
    ensures '\0' !in Spelled(a)
  {
  }

  lemma NoNul(p: Piece)
    requires Legal(p)
    ensures '\0' !in Written(p)
  {
    if p.Conversion? {
      AmountNoNul(p.width);
      AmountNoNul(p.precision);
      assert '\0' !in p.flags && '\0' !in p.modifier;
    }
  }
}
