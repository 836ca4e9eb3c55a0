/**
  What the bounded formatter prints when nothing bounds it: the text of a format and its arguments,
  read off the grammar of a directive.
 */
module PrintfSpec {
  import opened Common

  const INT_MAX: int := 0x7FFF_FFFF
  const U32: int := 0x1_0000_0000
  const U64: int := 0x1_0000_0000_0000_0000

  /** Characters up to, not including, the terminating NUL. */
  type CString = s: string | '\0' !in s

  /**
    What fetching an argument yields, for each kind of directive; a number is still to be converted to
    the type it is fetched as. `None` is a null `char *`.
   */
  datatype Arg = Arg(number: int, text: Option<CString>)

  datatype Flags = Flags(minus: bool, plus: bool, space: bool, num: bool, zero: bool, quote: bool)

  datatype Modifier = Plain | Char | Short | Long | LongLong | LongDouble | IntMax | PtrDiff | Size

  /** `precision` is -1 when none was given. */
  datatype Directive = Directive(flags: Flags, width: nat, precision: int, modifier: Modifier, conversion: char)

  type Args = nat -> Arg

  /** The floating-point conversions, which this model leaves to a parameter. `None` is an overflow. */
  type FloatFormat = (Directive, int) -> Option<string>

  // ----- Directives -----

  predicate IsFlag(c: char) { c in "-+ #0'" }

  predicate IsDigit(c: char) { '0' <= c <= '9' }

  function CharToInt(c: char): nat { if IsDigit(c) then c as int - '0' as int else 0 }

  function FlagsEnd(s: string, i: nat): (j: nat)
    requires i <= |s|
    ensures i <= j <= |s|
    decreases |s| - i
  {
    if i < |s| && IsFlag(s[i]) then FlagsEnd(s, i + 1) else i
  }

  function FlagsIn(t: string): Flags {
    Flags('-' in t, '+' in t, ' ' in t, '#' in t, '0' in t, '\'' in t)
  }

  function DigitsEnd(s: string, i: nat): (j: nat)
    requires i <= |s|
    ensures i <= j <= |s|
    decreases |s| - i
  {
    if i < |s| && IsDigit(s[i]) then DigitsEnd(s, i + 1) else i
  }

  function Decimal(t: string): nat {
    if t == "" then 0 else 10 * Decimal(t[..|t| - 1]) + CharToInt(t[|t| - 1])
  }

  /** A width or precision: digits, then possibly a star whose argument replaces them. */
  datatype Field = TooBig | Field(value: int, next: nat, taken: nat)

  function FieldAt(s: string, i: nat, k: nat, args: Args): (r: Field)
    requires i <= |s|
    ensures r.Field? ==> i <= r.next <= |s|
  {
    var j := DigitsEnd(s, i);
    if Decimal(s[i..j]) > INT_MAX then TooBig
    else if j < |s| && s[j] == '*' then Field(Signed(args(k).number, U32), j + 1, k + 1)
    else Field(Decimal(s[i..j]), j, k)
  }

  function PrecisionAt(s: string, i: nat, k: nat, args: Args): (r: Field)
    requires i <= |s|
    ensures r.Field? ==> i <= r.next <= |s|
  {
    if i < |s| && s[i] == '.' then
      match FieldAt(s, i + 1, k, args)
      case TooBig => TooBig
      case Field(v, j, taken) => Field(if v < 0 then -1 else v, j, taken)
    else Field(-1, i, k)
  }

  datatype Modified = Modified(modifier: Modifier, next: nat)

  function ModifierAt(s: string, i: nat): (r: Modified)
    requires i <= |s|
    ensures i <= r.next <= |s|
  {
    if i == |s| then Modified(Plain, i)
    else if s[i] == 'h' then
      if i + 1 < |s| && s[i + 1] == 'h' then Modified(Char, i + 2) else Modified(Short, i + 1)
    else if s[i] == 'l' then
      if i + 1 < |s| && s[i + 1] == 'l' then Modified(LongLong, i + 2) else Modified(Long, i + 1)
    else if s[i] == 'L' then Modified(LongDouble, i + 1)
    else if s[i] == 'j' then Modified(IntMax, i + 1)
    else if s[i] == 't' then Modified(PtrDiff, i + 1)
    else if s[i] == 'z' then Modified(Size, i + 1)
    else Modified(Plain, i)
  }

  /** `Cut`: the format ends inside the directive. */
  datatype Parsed = Unrepresentable | Cut | Parsed(d: Directive, next: nat, taken: nat)

  /** The directive after a '%' at `i - 1`, with `k` arguments taken before it. */
  function DirectiveAt(s: string, i: nat, k: nat, args: Args): (r: Parsed)
    requires i <= |s|
    ensures r.Parsed? ==> i < r.next <= |s|
  {
    var a := FlagsEnd(s, i);
    match FieldAt(s, a, k, args)
    case TooBig => Unrepresentable
    case Field(w, b, k1) =>
      match PrecisionAt(s, b, k1, args)
      case TooBig => Unrepresentable
      case Field(p, c, k2) =>
        var m := ModifierAt(s, c);
        if m.next == |s| then Cut
        else Parsed(Directive(WithWidth(FlagsIn(s[i..a]), w), Abs(w), p, m.modifier, s[m.next]), m.next + 1, k2)
  }

  /** A negative width is a '-' flag and its absolute value. */
  function WithWidth(f: Flags, w: int): Flags { if w < 0 then f.(minus := true) else f }

  function Abs(x: int): nat { if x < 0 then -x else x }

  // ----- Arguments -----

  /** `n` converted to a signed type of `m` values. */
  function Signed(n: int, m: int): int
    requires m > 0
  {
    var r := n % m;
    if r >= m / 2 then r - m else r
  }

  /** `ll` fetches a `long`, and `z` a type without a sign. */
  function FetchSigned(modifier: Modifier, n: int): int {
    match modifier
    case Char => Signed(n, 256)
    case Short => Signed(n, 0x10000)
    case IntMax => Signed(n, U64)
    case Size => n % U32
    case _ => Signed(n, U32)
  }

  /** The widest type fetched has 32 bits, also for `ll` and `j`. */
  function FetchUnsigned(modifier: Modifier, n: int): int {
    match modifier
    case Char => n % 256
    case Short => n % 0x10000
    case PtrDiff => Signed(n, U32)
    case _ => n % U32
  }

  // ----- Integers -----

  function DigitChar(x: nat, up: bool): char
    requires x < 16
  {
    (if up then "0123456789ABCDEF" else "0123456789abcdef")[x]
  }

  predicate IsBase(base: nat) { base == 8 || base == 10 || base == 16 }

  function Digits(u: nat, base: nat, up: bool): string
    requires IsBase(base)
  {
    if u < base then [DigitChar(u, up)] else Digits(u / base, base, up) + [DigitChar(u % base, up)]
  }

  /** A comma before every third digit from the right. */
  function Grouped(d: string): string {
    if |d| <= 3 then d else Grouped(d[..|d| - 3]) + "," + d[|d| - 3..]
  }

  function NumSep(digits: int): int {
    (digits - if digits % 3 == 0 then 1 else 0) / 3
  }

  function Rep(c: char, n: int): string { seq(Max(n, 0), _ => c) }

  /** The widest unsigned type has 32 bits: more than that is cut off. */
  function Printed(value: int, unsigned: bool): nat { if unsigned then value % U32 else Abs(value) % U32 }

  function SignText(f: Flags, value: int, unsigned: bool): string {
    if unsigned then "" else if value < 0 then "-" else if f.plus then "+" else if f.space then " " else ""
  }

  function PrefixText(f: Flags, u: nat, base: nat, up: bool): string {
    if f.num && u != 0 && base == 16 then (if up then "0X" else "0x") else ""
  }

  /** Octal with '#' needs one more digit than the value has. */
  function DigitsWanted(f: Flags, u: nat, base: nat, precision: int, pos: nat): int {
    if f.num && u != 0 && base == 8 && precision <= pos then pos + 1 else precision
  }

  function ZeroPad(wanted: int, pos: int, separators: int): int { Max(wanted - pos - separators, 0) }

  function SpacePad(width: int, wanted: int, pos: int, separators: int, before: int): int {
    Max(width - separators - Max(wanted, pos) - before, 0)
  }

  predicate PadsWithZeros(f: Flags, precision: int) { !f.minus && f.zero && precision == -1 }

  /** The text of an integer, with `spaces` and `zeros` of padding put where the flags say. */
  function Assembled(f: Flags, withZeros: bool, sign: string, prefix: string, digits: string, spaces: int, zeros: int): string {
    Rep(' ', if f.minus || withZeros then 0 else spaces) + sign + prefix
    + Rep('0', zeros + if withZeros then spaces else 0) + digits
    + Rep(' ', if f.minus then spaces else 0)
  }

  function IntText(f: Flags, value: int, base: nat, up: bool, unsigned: bool, width: int, precision: int): string
    requires IsBase(base)
  {
    var u := Printed(value, unsigned);
    var digits := Digits(u, base, up);
    var pos, sign, prefix := |digits|, SignText(f, value, unsigned), PrefixText(f, u, base, up);
    var wanted, separators := DigitsWanted(f, u, base, precision, pos), if f.quote then NumSep(pos) else 0;
    Assembled(f, PadsWithZeros(f, precision), sign, prefix, if f.quote then Grouped(digits) else digits,
      SpacePad(width, wanted, pos, separators, |sign| + |prefix|), ZeroPad(wanted, pos, separators))
  }

  // ----- Strings -----

  /** At most `precision` characters of a string, unless it is -1. */
  function Clipped(s: string, precision: int): string {
    if 0 <= precision < |s| then s[..precision] else s
  }

  function Padded(f: Flags, s: string, width: int): string {
    if f.minus then s + Rep(' ', width - |s|) else Rep(' ', width - |s|) + s
  }

  function StrText(f: Flags, text: Option<CString>, width: int, precision: int): string {
    Padded(f, Clipped(if text.None? then "(null)" else text.value, precision), width)
  }

  // ----- Whole formats -----

  predicate IsFloat(c: char) { c in "AEGFaegf" }

  predicate IsUnsignedInt(c: char) { c in "Xxou" }

  function BaseOf(c: char): nat { if c == 'x' || c == 'X' then 16 else if c == 'o' then 8 else 10 }

  /** How many arguments a conversion takes. */
  function Takes(c: char): nat { if c in "di" || IsUnsignedInt(c) || IsFloat(c) || c in "cspn" then 1 else 0 }

  /** What a directive prints. A conversion nobody knows prints nothing. */
  function Converted(d: Directive, arg: Arg, fmtflt: FloatFormat): Option<string> {
    var c := d.conversion;
    if c in "di" then
      Some(IntText(d.flags, FetchSigned(d.modifier, arg.number), 10, false, false, d.width, d.precision))
    else if IsUnsignedInt(c) then
      Some(IntText(d.flags, FetchUnsigned(d.modifier, arg.number), BaseOf(c), c == 'X', true, d.width, d.precision))
    else if IsFloat(c) then fmtflt(d, arg.number)
    else if c == 'c' then Some([(arg.number % 256) as char])
    else if c == 's' then Some(StrText(d.flags, arg.text, d.width, d.precision))
    else if c == 'p' then
      if arg.number % U32 == 0 then Some(StrText(d.flags, Some("(nil)"), d.width, -1))
      else Some(IntText(d.flags.(num := true), arg.number % U32, 16, false, true, d.width, d.precision))
    else if c == '%' then Some("%")
    else Some("")
  }

  /** The unbounded output, and whether it ends in an overflow error. */
  datatype Expansion = Expansion(text: string, overflow: bool)

  function Prepend(t: string, e: Expansion): Expansion { Expansion(t + e.text, e.overflow) }

  /** Everything the format prints from `i` on, with `k` arguments taken already. */
  function Expand(s: string, i: nat, k: nat, args: Args, fmtflt: FloatFormat): Expansion
    requires i <= |s|
    decreases |s| - i
  {
    if i == |s| then Expansion("", false)
    else if s[i] != '%' then Prepend([s[i]], Expand(s, i + 1, k, args, fmtflt))
    else
      match DirectiveAt(s, i + 1, k, args)
      case Unrepresentable => Expansion("", true)
      case Cut => Expansion("", false)
      case Parsed(d, next, taken) =>
        match Converted(d, args(taken), fmtflt)
        case None => Expansion("", true)
        case Some(t) => Prepend(t, Expand(s, next, taken + Takes(d.conversion), args, fmtflt))
  }
}
