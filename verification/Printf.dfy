/**
  The bounded formatter: every character goes through one macro that counts it and stores it only
  while there is room, so the buffer always holds a prefix of the unbounded text.
 */
module Printf {
  import opened PrintfSpec
  import Laws = PrintfLaws
  import opened Common

  // ----- The output macro -----

  function Contents(str: array?<char>): seq<char>
    reads str
  {
    if str == null then [] else str[..]
  }

  /** The buffer after `out` was sent to it: as much of it as leaves room for the NUL. */
  predicate Written(now: seq<char>, before: seq<char>, out: string, size: nat) {
    |now| == |before| &&
    forall k :: 0 <= k < |now| ==> now[k] == if k < |out| && k + 1 < size then out[k] else before[k]
  }

  ghost predicate Holds(str: array?<char>, size: nat, before: seq<char>, out: string, len: nat)
    reads str
  {
    && (size > 0 ==> str != null && size <= str.Length)
    && len == |out| && Written(Contents(str), before, out, size)
  }

  method OutChar(str: array?<char>, len: nat, size: nat, ch: char, ghost before: seq<char>, ghost out: string) returns (n: nat)
    requires Holds(str, size, before, out, len)
    modifies str
    ensures Holds(str, size, before, out + [ch], n)
  {
    if len + 1 < size {
      str[len] := ch;
    }
    n := len + 1;
  }

  /** The padding loops. */
  method OutRepeated(str: array?<char>, len: nat, size: nat, ch: char, count: int, ghost before: seq<char>, ghost out: string) returns (n: nat)
    requires Holds(str, size, before, out, len)
    modifies str
    ensures Holds(str, size, before, out + Rep(ch, count), n)
  {
    hide Holds;
    n := len;
    var left := count;
    ghost var done := 0;
    Laws.RepNone(ch, out);
    while left > 0
      invariant done + left == count && done >= 0 && (done > 0 ==> left >= 0)
      invariant Holds(str, size, before, out + Rep(ch, done), n)
    {
      Laws.RepSnoc(out, ch, done);
      n := OutChar(str, n, size, ch, before, out + Rep(ch, done));
      left, done := left - 1, done + 1;
    }
    Laws.RepClamped(ch, count);
  }

  // ----- Strings -----

  /** Reading a C string: the NUL is found one past the last character. */
  function At(s: CString, i: nat): char
    requires i <= |s|
  {
    if i < |s| then s[i] else '\0'
  }

  method FmtStr(str: array?<char>, len: nat, size: nat, text: Option<CString>, width: int, precision: int, f: Flags,
                ghost before: seq<char>, ghost out: string) returns (n: nat)
    requires Holds(str, size, before, out, len) && precision >= -1
    modifies str
    ensures Holds(str, size, before, out + StrText(f, text, width, precision), n)
  {
    hide Holds;
    var value: CString := if text.None? then "(null)" else text.value;
    var noprecision := precision == -1;
    var strln := 0;
    while (noprecision || strln < precision) && At(value, strln) != '\0'
      invariant strln <= |value| && (noprecision || strln <= precision)
      decreases |value| - strln
    {
      strln := strln + 1;
    }
    ghost var shown := Clipped(value, precision);
    Laws.ClippedLength(value, precision, strln);
    var padlen := Max(width - strln, 0);
    if f.minus {
      padlen := -padlen;
    }
    n := OutRepeated(str, len, size, ' ', padlen, before, out);
    ghost var lead := out + Rep(' ', padlen);
    var left, v := precision, 0;
    Laws.TakeNone(lead, shown);
    while (noprecision || left > 0) && At(value, v) != '\0'
      invariant v <= |shown| && (noprecision || left == precision - v)
      invariant Holds(str, size, before, lead + shown[..v], n)
      decreases |value| - v
    {
      Laws.TakeSnoc(lead, shown, v);
      n := OutChar(str, n, size, At(value, v), before, lead + shown[..v]);
      left, v := left - 1, v + 1;
    }
    assert shown[..v] == shown;
    n := OutRepeated(str, n, size, ' ', -padlen, before, lead + shown);
    Laws.PaddedParts(f, shown, width, padlen, out);
  }

  // ----- Integers -----

  const MAX_CONVERT_LENGTH: nat := 43

  /** The digits, lowest first. The buffer is long enough for any 32-bit value. */
  method Convert(u: nat, buf: array<char>, base: nat, caps: bool) returns (pos: nat)
    requires IsBase(base) && u < U32 && buf.Length == MAX_CONVERT_LENGTH
    modifies buf
    ensures pos == |Digits(u, base, caps)| <= buf.Length
    ensures forall k :: 0 <= k < pos ==> buf[k] == Digits(u, base, caps)[pos - 1 - k]
  {
    hide Digits, DigitChar;
    Laws.DigitsLength(u, base, caps, 11);
    Laws.PowersOfEight();
    pos := 0;
    var value: nat, more := u, true;
    ghost var done := "";
    while more
      invariant |done| == pos && (more ==> pos + |Digits(value, base, caps)| <= 11)
      invariant if more then Digits(u, base, caps) == Digits(value, base, caps) + done
                else Digits(u, base, caps) == done
      invariant pos <= buf.Length && forall k :: 0 <= k < pos ==> buf[k] == done[pos - 1 - k]
      decreases more, value
    {
      Laws.DigitsStep(value, base, caps, done);
      buf[pos] := DigitChar(value % base, caps);
      done := [DigitChar(value % base, caps)] + done;
      pos := pos + 1;
      value := value / base;
      more := value != 0 && pos < buf.Length;
    }
  }

  method OutComma(str: array?<char>, len: nat, size: nat, ghost before: seq<char>, ghost out: string) returns (n: nat)
    requires Holds(str, size, before, out, len)
    modifies str
    ensures Holds(str, size, before, out + ",", n)
  {
    hide Holds;
    n := OutChar(str, len, size, ',', before, out);
  }

  /** The digits, taken from the back of the conversion buffer, with the separators between them. */
  method OutDigits(str: array?<char>, len: nat, size: nat, iconvert: array<char>, digits: nat, separators: int,
                   ghost d: string, ghost before: seq<char>, ghost out: string) returns (n: nat)
    requires Holds(str, size, before, out, len) && str != iconvert
    requires digits == |d| <= iconvert.Length && forall k :: 0 <= k < digits ==> iconvert[k] == d[digits - 1 - k]
    requires separators == 0 || separators == NumSep(digits)
    modifies str
    ensures Holds(str, size, before, out + if separators == 0 then d else Grouped(d), n)
  {
    hide Holds, Grouped, NumSep;
    n := len;
    var pos := digits;
    ghost var commas := separators > 0;
    Laws.NoDigits(out, d, commas);
    while pos > 0
      invariant 0 <= pos <= digits
      invariant Holds(str, size, before, out + Laws.FirstDigits(d, digits - pos, commas), n)
      invariant forall k :: 0 <= k < digits ==> iconvert[k] == d[digits - 1 - k]
    {
      ghost var sent := out + Laws.FirstDigits(d, digits - pos, commas);
      pos := pos - 1;
      n := OutChar(str, n, size, iconvert[pos], before, sent);
      Laws.NextDigit(out, d, digits - pos, commas);
      if separators > 0 && pos > 0 && pos % 3 == 0 {
        n := OutComma(str, n, size, before, sent + [d[digits - 1 - pos]]);
      }
    }
    Laws.AllDigits(d, separators);
  }

  method SignAndMagnitude(f: Flags, value: int, unsigned: bool) returns (uvalue: nat, sign: string)
    ensures uvalue == Printed(value, unsigned) && sign == SignText(f, value, unsigned)
    ensures uvalue < U32 && |sign| <= 1
  {
    sign := "";
    if unsigned {
      uvalue := value % U32;
    } else {
      uvalue := (if value >= 0 then value else -value) % U32;
      if value < 0 {
        sign := "-";
      } else if f.plus {
        sign := "+";
      } else if f.space {
        sign := " ";
      }
    }
  }

  method AlternativeForm(f: Flags, uvalue: nat, base: nat, up: bool, precision0: int, pos: nat) returns (precision: int, hexprefix: string)
    ensures precision == DigitsWanted(f, uvalue, base, precision0, pos)
    ensures PrefixText(f, uvalue, base, up) == if hexprefix != "" then "0" + hexprefix else ""
    ensures |hexprefix| <= 1
  {
    precision, hexprefix := precision0, "";
    if f.num && uvalue != 0 {
      if base == 8 {
        if precision <= pos {
          precision := pos + 1;
        }
      } else if base == 16 {
        hexprefix := if up then "X" else "x";
      }
    }
  }

  /** The padding as computed, and as the flags then distribute it. */
  method Padding(f: Flags, width: int, precision: int, pos: nat, separators: int, sign: string, hexprefix: string, noprecision: bool)
    returns (ghost spaces: int, ghost zeros: int, spadlen: int, zpadlen: int)
    requires |sign| <= 1
    ensures spaces == SpacePad(width, precision, pos, separators, |sign| + if hexprefix != "" then 2 else 0)
    ensures zeros == ZeroPad(precision, pos, separators)
    ensures spadlen == if f.minus then -spaces else if f.zero && noprecision then 0 else spaces
    ensures zpadlen == if !f.minus && f.zero && noprecision then zeros + spaces else zeros
  {
    zpadlen := precision - pos - separators;
    spadlen := width - separators - Max(precision, pos) - (if sign != "" then 1 else 0) - if hexprefix != "" then 2 else 0;
    if zpadlen < 0 {
      zpadlen := 0;
    }
    if spadlen < 0 {
      spadlen := 0;
    }
    spaces, zeros := spadlen, zpadlen;
    if f.minus {
      spadlen := -spadlen;
    } else if f.zero && noprecision {
      zpadlen := zpadlen + spadlen;
      spadlen := 0;
    }
  }

  method FmtInt(str: array?<char>, len: nat, size: nat, value: int, base: nat, width: int, precision0: int,
                f: Flags, up: bool, unsigned: bool, ghost before: seq<char>, ghost out: string) returns (n: nat)
    requires Holds(str, size, before, out, len) && IsBase(base) && precision0 >= -1
    modifies str
    ensures Holds(str, size, before, out + IntText(f, value, base, up, unsigned, width, precision0), n)
  {
    hide Holds, Digits, Grouped, NumSep, Rep, IntText, SpacePad, ZeroPad, DigitsWanted, Printed, SignText, PrefixText;
    var uvalue, sign := SignAndMagnitude(f, value, unsigned);
    var iconvert := new char[MAX_CONVERT_LENGTH];
    var pos := Convert(uvalue, iconvert, base, up);
    var precision, hexprefix := AlternativeForm(f, uvalue, base, up, precision0, pos);
    var separators := if f.quote then NumSep(pos) else 0;
    var spaces, zeros, spadlen, zpadlen :=
      Padding(f, width, precision, pos, separators, sign, hexprefix, precision0 == -1);
    n := OutInt(str, len, size, sign, hexprefix, iconvert, pos, separators, spadlen, zpadlen,
      Digits(uvalue, base, up), before, out);
    Laws.FmtIntParts(f, value, base, up, unsigned, width, precision0, precision, separators, spaces, zeros, spadlen, zpadlen, out);
  }

  /** The part of the routine that prints: padding, sign, prefix, zeros, digits, padding. */
  method OutInt(str: array?<char>, len: nat, size: nat, sign: string, hexprefix: string, iconvert: array<char>, pos: nat,
                separators: int, spadlen: int, zpadlen: int, ghost d: string, ghost before: seq<char>, ghost out: string) returns (n: nat)
    requires Holds(str, size, before, out, len) && str != iconvert && |sign| <= 1 && |hexprefix| <= 1
    requires pos == |d| <= iconvert.Length && forall k :: 0 <= k < pos ==> iconvert[k] == d[pos - 1 - k]
    requires separators == 0 || separators == NumSep(pos)
    modifies str
    ensures Holds(str, size, before, out + Rep(' ', spadlen) + sign + (if hexprefix != "" then "0" + hexprefix else "")
      + Rep('0', zpadlen) + (if separators == 0 then d else Grouped(d)) + Rep(' ', -spadlen), n)
  {
    hide Holds, Rep, Grouped, NumSep;
    ghost var sent := out + Rep(' ', spadlen);
    n := OutRepeated(str, len, size, ' ', spadlen, before, out);
    n := OutSign(str, n, size, sign, before, sent);
    sent := sent + sign;
    n := OutPrefix(str, n, size, hexprefix, before, sent);
    sent := sent + if hexprefix != "" then "0" + hexprefix else "";
    n := OutRepeated(str, n, size, '0', zpadlen, before, sent);
    sent := sent + Rep('0', zpadlen);
    n := OutDigits(str, n, size, iconvert, pos, separators, d, before, sent);
    sent := sent + if separators == 0 then d else Grouped(d);
    n := OutRepeated(str, n, size, ' ', -spadlen, before, sent);
  }

  method OutSign(str: array?<char>, len: nat, size: nat, sign: string, ghost before: seq<char>, ghost out: string) returns (n: nat)
    requires Holds(str, size, before, out, len) && |sign| <= 1
    modifies str
    ensures Holds(str, size, before, out + sign, n)
  {
    hide Holds;
    n := len;
    if sign != "" {
      n := OutChar(str, n, size, sign[0], before, out);
      assert sign == [sign[0]];
    } else {
      assert out + sign == out;
    }
  }

  method OutPrefix(str: array?<char>, len: nat, size: nat, hexprefix: string, ghost before: seq<char>, ghost out: string) returns (n: nat)
    requires Holds(str, size, before, out, len) && |hexprefix| <= 1
    modifies str
    ensures Holds(str, size, before, out + if hexprefix != "" then "0" + hexprefix else "", n)
  {
    hide Holds;
    n := len;
    if hexprefix != "" {
      n := OutChar(str, n, size, '0', before, out);
      n := OutChar(str, n, size, hexprefix[0], before, out + ['0']);
      assert out + ['0'] + [hexprefix[0]] == out + ("0" + hexprefix);
    } else {
      assert out + "" == out;
    }
  }

  // ----- The directive machine -----

  /** One conversion, with its directive complete. `ok` is false when the float routine overflows. */
  method ConvertOne(str: array?<char>, len: nat, size: nat, d: Directive, arg: Arg, fmtflt: FloatFormat,
                    ghost before: seq<char>, ghost out: string) returns (n: nat, ok: bool)
    requires Holds(str, size, before, out, len) && d.precision >= -1
    modifies str
    ensures ok <==> Converted(d, arg, fmtflt).Some?
    ensures Holds(str, size, before, if ok then out + Converted(d, arg, fmtflt).value else out, n)
  {
    hide Holds, IntText, StrText, FetchSigned, FetchUnsigned;
    n, ok := len, true;
    var c := d.conversion;
    if c == 'd' || c == 'i' {
      n := FmtInt(str, len, size, FetchSigned(d.modifier, arg.number), 10, d.width, d.precision, d.flags, false, false, before, out);
    } else if c == 'X' || c == 'x' || c == 'o' || c == 'u' {
      n := FmtInt(str, len, size, FetchUnsigned(d.modifier, arg.number), BaseOf(c), d.width, d.precision, d.flags, c == 'X', true,
        before, out);
    } else if IsFloat(c) {
      match fmtflt(d, arg.number) {
        case None => ok := false;
        case Some(t) => n := OutString(str, len, size, t, before, out);
      }
    } else if c == 'c' {
      n := OutChar(str, len, size, (arg.number % 256) as char, before, out);
    } else if c == 's' {
      n := FmtStr(str, len, size, arg.text, d.width, d.precision, d.flags, before, out);
    } else if c == 'p' {
      if arg.number % U32 == 0 {
        n := FmtStr(str, len, size, Some("(nil)"), d.width, -1, d.flags, before, out);
      } else {
        n := FmtInt(str, len, size, arg.number % U32, 16, d.width, d.precision, d.flags.(num := true), false, true, before, out);
      }
    } else if c == '%' {
      n := OutChar(str, len, size, c, before, out);
    } else {
      assert out + "" == out;
    }
  }

  /** The text of a floating-point conversion, character by character. */
  method OutString(str: array?<char>, len: nat, size: nat, t: string, ghost before: seq<char>, ghost out: string) returns (n: nat)
    requires Holds(str, size, before, out, len)
    modifies str
    ensures Holds(str, size, before, out + t, n)
  {
    hide Holds;
    n := len;
    Laws.TakeNone(out, t);
    for v := 0 to |t|
      invariant Holds(str, size, before, out + t[..v], n)
    {
      Laws.TakeSnoc(out, t, v);
      n := OutChar(str, n, size, t[v], before, out + t[..v]);
    }
    assert t[..|t|] == t;
  }

  datatype State = Default | InFlags | InWidth | InDot | InPrecision | InModifier | InConversion

  /** The locals of the machine: its state, the directive read so far, and how far it has read. */
  datatype Regs = Regs(state: State, flags: Flags, width: int, precision: int, modifier: Modifier, i: nat, k: nat)

  const NO_FLAGS := Flags(false, false, false, false, false, false)

  function WidthField(s: string, p: nat, k0: nat, args: Args): (r: Field)
    requires p <= |s|
    ensures r.Field? ==> p <= r.next <= |s|
  {
    FieldAt(s, FlagsEnd(s, p), k0, args)
  }

  predicate Clear(m: Regs) { m.width == 0 && m.precision == -1 && m.modifier == Plain }

  predicate HasWidth(s: string, args: Args, m: Regs, p: nat, k0: nat)
    requires p <= |s|
  {
    var w := WidthField(s, p, k0, args);
    w.Field? && m.width == Abs(w.value) && m.flags == WithWidth(FlagsIn(s[p..FlagsEnd(s, p)]), w.value)
  }

  /** What the registers say about a directive that starts at `p` with `k0` arguments taken. */
  predicate Reads(s: string, args: Args, m: Regs, p: nat, k0: nat) {
    p <= |s| && m.i <= |s| &&
    match m.state
    case Default => m.flags == NO_FLAGS && Clear(m) && m.i == p && m.k == k0
    case InFlags =>
      && p <= m.i && FlagsEnd(s, p) == FlagsEnd(s, m.i) && m.flags == FlagsIn(s[p..m.i]) && Clear(m) && m.k == k0
    case InWidth =>
      var a := FlagsEnd(s, p);
      && a <= m.i && DigitsEnd(s, a) == DigitsEnd(s, m.i) && m.width == Decimal(s[a..m.i]) <= INT_MAX
      && m.flags == FlagsIn(s[p..a]) && m.precision == -1 && m.modifier == Plain && m.k == k0
    case InDot =>
      && HasWidth(s, args, m, p, k0) && m.precision == -1 && m.modifier == Plain
      && m.i == WidthField(s, p, k0, args).next && m.k == WidthField(s, p, k0, args).taken
    case InPrecision =>
      && HasWidth(s, args, m, p, k0) && m.modifier == Plain
      && var b := WidthField(s, p, k0, args).next;
      && b < m.i && s[b] == '.' && DigitsEnd(s, b + 1) == DigitsEnd(s, m.i)
      && (m.precision == -1 ==> m.i == b + 1) && Max(m.precision, 0) == Decimal(s[b + 1..m.i]) <= INT_MAX
      && m.precision >= -1 && m.k == WidthField(s, p, k0, args).taken
    case InModifier =>
      && HasWidth(s, args, m, p, k0) && m.modifier == Plain
      && PrecisionAt(s, WidthField(s, p, k0, args).next, WidthField(s, p, k0, args).taken, args) == Field(m.precision, m.i, m.k)
    case InConversion =>
      && HasWidth(s, args, m, p, k0)
      && var r := PrecisionAt(s, WidthField(s, p, k0, args).next, WidthField(s, p, k0, args).taken, args);
      && r.Field? && r.value == m.precision && r.taken == m.k && ModifierAt(s, r.next) == Modified(m.modifier, m.i)
  }

  function Rank(state: State): nat {
    match state
    case Default => 7
    case InFlags => 6
    case InWidth => 5
    case InDot => 4
    case InPrecision => 3
    case InModifier => 2
    case InConversion => 1
  }

  /** Every step reads on or moves to a later state. */
  predicate Advances(s: string, m: Regs, n: Regs) {
    m.i < n.i <= |s| || (n.i == m.i && Rank(n.state) < Rank(m.state))
  }

  method FlagStep(s: CString, args: Args, m: Regs, ghost p: nat, ghost k0: nat) returns (n: Regs)
    requires m.state == InFlags && m.i < |s| && Reads(s, args, m, p, k0)
    ensures Reads(s, args, n, p, k0) && Advances(s, m, n) && n.state != Default
  {
    hide FlagsIn, Decimal, FieldAt, ModifierAt;
    var ch := s[m.i];
    var f := m.flags;
    Laws.FlagRead(s, p, m.i);
    if ch == '-' {
      f := f.(minus := true);
    } else if ch == '+' {
      f := f.(plus := true);
    } else if ch == ' ' {
      f := f.(space := true);
    } else if ch == '#' {
      f := f.(num := true);
    } else if ch == '0' {
      f := f.(zero := true);
    } else if ch == '\'' {
      f := f.(quote := true);
    } else {
      Laws.NoDigitsYet(s, m.i);
      return m.(state := InWidth);
    }
    n := m.(flags := f, i := m.i + 1);
  }

  /** Whether one more digit would take a number past INT_MAX, without computing that number. */
  predicate DigitOverflows(number: int, digit: nat) { number > (INT_MAX - digit) / 10 }

  lemma OverflowExact(number: nat, digit: nat)
    requires digit <= 9
    ensures DigitOverflows(number, digit) <==> 10 * number + digit > INT_MAX
  {
  }

  method WidthStep(s: CString, args: Args, m: Regs, ghost p: nat, ghost k0: nat) returns (n: Regs, overflow: bool)
    requires m.state == InWidth && m.i < |s| && Reads(s, args, m, p, k0)
    ensures overflow ==> WidthField(s, p, k0, args).TooBig?
    ensures !overflow ==> Reads(s, args, n, p, k0) && Advances(s, m, n) && n.state != Default
  {
    hide FlagsIn, Decimal, ModifierAt, PrecisionAt, DigitOverflows, Signed, IsDigit;
    Laws.DigitRead(s, FlagsEnd(s, p), m.i);
    n, overflow := m, false;
    if IsDigit(s[m.i]) {
      var ch := CharToInt(s[m.i]);
      OverflowExact(m.width, ch);
      if DigitOverflows(m.width, ch) {
        return m, true;
      }
      n := m.(width := 10 * m.width + ch, i := m.i + 1);
    } else if s[m.i] == '*' {
      var w := Signed(args(m.k).number, U32);
      if w < 0 {
        n := n.(flags := n.flags.(minus := true));
      }
      n := n.(width := if w < 0 then -w else w, i := m.i + 1, k := m.k + 1, state := InDot);
    } else {
      n := m.(state := InDot);
    }
  }

  method DotStep(s: CString, args: Args, m: Regs, ghost p: nat, ghost k0: nat) returns (n: Regs)
    requires m.state == InDot && m.i < |s| && Reads(s, args, m, p, k0)
    ensures Reads(s, args, n, p, k0) && Advances(s, m, n) && n.state != Default
  {
    hide FlagsIn, Decimal, ModifierAt, FieldAt;
    if s[m.i] == '.' {
      Laws.NoDigitsYet(s, m.i + 1);
      n := m.(state := InPrecision, i := m.i + 1);
    } else {
      n := m.(state := InModifier);
    }
  }

  method PrecisionStep(s: CString, args: Args, m: Regs, ghost p: nat, ghost k0: nat) returns (n: Regs, overflow: bool)
    requires m.state == InPrecision && m.i < |s| && Reads(s, args, m, p, k0)
    ensures overflow ==> WidthField(s, p, k0, args).Field?
    ensures overflow ==> PrecisionAt(s, WidthField(s, p, k0, args).next, WidthField(s, p, k0, args).taken, args).TooBig?
    ensures !overflow ==> Reads(s, args, n, p, k0) && Advances(s, m, n) && n.state != Default
  {
    hide FlagsIn, Decimal, ModifierAt, DigitOverflows, Signed, WidthField, IsDigit;
    Laws.DigitRead(s, WidthField(s, p, k0, args).next + 1, m.i);
    n, overflow := m, false;
    if n.precision == -1 {
      n := n.(precision := 0);
    }
    if IsDigit(s[n.i]) {
      var ch := CharToInt(s[n.i]);
      OverflowExact(n.precision, ch);
      if DigitOverflows(n.precision, ch) {
        return n, true;
      }
      n := n.(precision := 10 * n.precision + ch, i := n.i + 1);
    } else if s[n.i] == '*' {
      var v := Signed(args(n.k).number, U32);
      n := n.(precision := if v < 0 then -1 else v, i := n.i + 1, k := n.k + 1, state := InModifier);
    } else {
      n := n.(state := InModifier);
    }
  }

  method ModifierStep(s: CString, args: Args, m: Regs, ghost p: nat, ghost k0: nat) returns (n: Regs)
    requires m.state == InModifier && m.i < |s| && Reads(s, args, m, p, k0)
    ensures Reads(s, args, n, p, k0) && Advances(s, m, n) && n.state == InConversion
  {
    hide FlagsIn, Decimal, FieldAt, WidthField, PrecisionAt;
    n := m;
    var ch := s[m.i];
    if ch == 'h' {
      n := n.(i := n.i + 1);
      if At(s, n.i) == 'h' {
        n := n.(i := n.i + 1, modifier := Char);
      } else {
        n := n.(modifier := Short);
      }
    } else if ch == 'l' {
      n := n.(i := n.i + 1);
      if At(s, n.i) == 'l' {
        n := n.(i := n.i + 1, modifier := LongLong);
      } else {
        n := n.(modifier := Long);
      }
    } else if ch == 'L' {
      n := n.(modifier := LongDouble, i := n.i + 1);
    } else if ch == 'j' {
      n := n.(modifier := IntMax, i := n.i + 1);
    } else if ch == 't' {
      n := n.(modifier := PtrDiff, i := n.i + 1);
    } else if ch == 'z' {
      n := n.(modifier := Size, i := n.i + 1);
    }
    n := n.(state := InConversion);
  }

  // ----- The machine against the grammar -----

  /** Ready for conversion: the registers hold the directive the grammar reads there. */
  lemma DirectiveRead(s: string, args: Args, m: Regs, p: nat, k0: nat)
    requires m.state == InConversion && m.i < |s| && Reads(s, args, m, p, k0)
    ensures m.width >= 0 && m.precision >= -1
    ensures DirectiveAt(s, p, k0, args) ==
      Parsed(Directive(m.flags, m.width, m.precision, m.modifier, s[m.i]), m.i + 1, m.k)
  {
    hide FlagsIn, FieldAt, ModifierAt;
  }

  /** A format that ends inside a directive prints nothing for it. */
  lemma DirectiveCut(s: string, args: Args, m: Regs, p: nat, k0: nat)
    requires m.state != Default && m.i == |s| && Reads(s, args, m, p, k0)
    ensures DirectiveAt(s, p, k0, args) == Cut
  {
    hide FlagsIn, Decimal, Signed;
    Laws.NoDigitsYet(s, |s|);
    assert FlagsEnd(s, |s|) == |s| && DigitsEnd(s, |s|) == |s|;
  }

  /** The buffer at the end: the first characters of the text and a NUL, the rest untouched. */
  predicate Terminated(now: seq<char>, before: seq<char>, text: string, size: nat)
    requires size <= |before|
  {
    if size == 0 then now == before
    else var n := if |text| < size then |text| else size - 1; now == text[..n] + ['\0'] + before[n + 1..]
  }

  function NewSize(str: array?<char>, size: nat): nat { if str == null then 0 else size }

  /** The unbounded text of a whole format. */
  function Unbounded(format: string, args: Args, fmtflt: FloatFormat): Expansion {
    Expand(format, 0, 0, args, fmtflt)
  }

  lemma Start(str: array?<char>, size: nat, s: CString, args: Args, fmtflt: FloatFormat)
    requires size > 0 ==> str != null && size <= str.Length
    ensures Holds(str, size, Contents(str), "", 0)
    ensures OnTrack(s, args, fmtflt, Regs(Default, NO_FLAGS, 0, -1, Plain, 0, 0), 0, 0, "")
  {
  }

  /** Outside directives: the registers stay cleared, and a plain character is its own text. */
  lemma DefaultStep(s: string, args: Args, m: Regs, p: nat, k0: nat, fmtflt: FloatFormat, out: string)
    requires m.state == Default && m.i < |s| && Reads(s, args, m, p, k0)
    ensures m.i == p
    ensures s[p] == '%' ==> Reads(s, args, m.(state := InFlags, i := p + 1), p + 1, k0)
    ensures s[p] != '%' ==> Reads(s, args, m.(i := p + 1), p + 1, k0)
    ensures s[p] != '%' ==>
      Prepend(out, Expand(s, p, k0, args, fmtflt)) == Prepend(out + [s[p]], Expand(s, p + 1, k0, args, fmtflt))
  {
    hide DirectiveAt, Converted;
    assert s[p + 1..p + 1] == "";
    if s[p] != '%' {
      PrependTwice(out, [s[p]], Expand(s, p + 1, k0, args, fmtflt));
    }
  }

  lemma PrependTwice(out: string, t: string, e: Expansion)
    ensures Prepend(out, Prepend(t, e)) == Prepend(out + t, e)
  {
    assert out + (t + e.text) == out + t + e.text;
  }

  lemma Ending(s: string, args: Args, p: nat, k0: nat, fmtflt: FloatFormat, out: string)
    requires 0 < p <= |s| && s[p - 1] == '%'
    ensures DirectiveAt(s, p, k0, args) == Cut ==>
      Prepend(out, Expand(s, p - 1, k0, args, fmtflt)) == Expansion(out, false)
    ensures DirectiveAt(s, p, k0, args) == Unrepresentable ==>
      Prepend(out, Expand(s, p - 1, k0, args, fmtflt)) == Expansion(out, true)
  {
    hide DirectiveAt, Converted;
  }

  lemma EndingPlain(s: string, args: Args, m: Regs, p: nat, k0: nat, fmtflt: FloatFormat, out: string)
    requires m.state == Default && m.i == |s| && Reads(s, args, m, p, k0)
    ensures p == |s| && Prepend(out, Expand(s, p, k0, args, fmtflt)) == Expansion(out, false)
  {
  }

  lemma TooBigRead(s: string, args: Args, p: nat, k0: nat)
    requires p <= |s|
    ensures WidthField(s, p, k0, args).TooBig? ==> DirectiveAt(s, p, k0, args) == Unrepresentable
    ensures WidthField(s, p, k0, args).Field? ==>
      PrecisionAt(s, WidthField(s, p, k0, args).next, WidthField(s, p, k0, args).taken, args).TooBig? ==>
      DirectiveAt(s, p, k0, args) == Unrepresentable
  {
    hide FieldAt, PrecisionAt, FlagsEnd, FlagsIn;
  }

  lemma ConvertedStep(s: string, args: Args, m: Regs, p: nat, k0: nat, fmtflt: FloatFormat, out: string, d: Directive)
    requires 0 < p && m.state == InConversion && m.i < |s| && Reads(s, args, m, p, k0) && s[p - 1] == '%'
    requires m.width >= 0 && d == Directive(m.flags, m.width, m.precision, m.modifier, s[m.i])
    ensures var t := Converted(d, args(m.k), fmtflt);
            var e := Prepend(out, Expand(s, p - 1, k0, args, fmtflt));
            e == if t.None? then Expansion(out, true)
                 else Prepend(out + t.value, Expand(s, m.i + 1, m.k + Takes(d.conversion), args, fmtflt))
  {
    hide Converted, DirectiveAt, Takes, Reads;
    DirectiveRead(s, args, m, p, k0);
    var t := Converted(d, args(m.k), fmtflt);
    if t.Some? {
      PrependTwice(out, t.value, Expand(s, m.i + 1, m.k + Takes(d.conversion), args, fmtflt));
    }
  }

  lemma ReadsAfresh(s: string, args: Args, i: nat, k: nat)
    requires i <= |s|
    ensures Reads(s, args, Regs(Default, NO_FLAGS, 0, -1, Plain, i, k), i, k)
  {
  }

  /** The NUL at the end. */
  method Terminate(str: array?<char>, len: nat, size: nat, ghost before: seq<char>, ghost out: string)
    requires Holds(str, size, before, out, len)
    modifies str
    ensures size <= |before| && Terminated(Contents(str), before, out, size) && len == |out|
  {
    if len < size {
      str[len] := '\0';
    } else if size > 0 {
      str[size - 1] := '\0';
    }
  }

  /** How far the output has come, and what is left to print. */
  predicate OnTrack(s: string, args: Args, fmtflt: FloatFormat, m: Regs, p: nat, k0: nat, out: string) {
    p <= |s| && m.i <= |s| && Reads(s, args, m, p, k0) &&
    if m.state == Default then Unbounded(s, args, fmtflt) == Prepend(out, Expand(s, p, k0, args, fmtflt))
    else p > 0 && s[p - 1] == '%' && Unbounded(s, args, fmtflt) == Prepend(out, Expand(s, p - 1, k0, args, fmtflt))
  }

  /** A state outside conversion and the default: nothing is printed. */
  method ReadStep(s: CString, args: Args, fmtflt: FloatFormat, m: Regs, ghost p: nat, ghost k0: nat, ghost out: string)
    returns (n: Regs, overflow: bool)
    requires m.state != Default && m.state != InConversion && m.i < |s| && OnTrack(s, args, fmtflt, m, p, k0, out)
    ensures !overflow ==> OnTrack(s, args, fmtflt, n, p, k0, out) && Advances(s, m, n)
    ensures overflow ==> Unbounded(s, args, fmtflt) == Expansion(out, true)
  {
    hide Reads, Expand, WidthField, PrecisionAt, DirectiveAt, Unbounded;
    overflow := false;
    match m.state {
      case InFlags => n := FlagStep(s, args, m, p, k0);
      case InWidth => n, overflow := WidthStep(s, args, m, p, k0);
      case InDot => n := DotStep(s, args, m, p, k0);
      case InPrecision => n, overflow := PrecisionStep(s, args, m, p, k0);
      case InModifier => n := ModifierStep(s, args, m, p, k0);
    }
    TooBigRead(s, args, p, k0);
    Ending(s, args, p, k0, fmtflt, out);
  }

  /** The conversion state: print, and clear the registers. */
  method ConversionStep(str: array?<char>, len: nat, size: nat, s: CString, args: Args, fmtflt: FloatFormat, m: Regs,
                        ghost before: seq<char>, ghost out: string, ghost p: nat, ghost k0: nat)
    returns (l: nat, n: Regs, overflow: bool, ghost printed: string)
    requires Holds(str, size, before, out, len)
    requires m.state == InConversion && m.i < |s| && OnTrack(s, args, fmtflt, m, p, k0, out)
    modifies str
    ensures Holds(str, size, before, printed, l)
    ensures !overflow ==> OnTrack(s, args, fmtflt, n, n.i, n.k, printed) && Advances(s, m, n)
    ensures overflow ==> Unbounded(s, args, fmtflt) == Expansion(printed, true)
  {
    hide Holds, Reads, Expand, Converted, DirectiveAt, Takes, Unbounded;
    DirectiveRead(s, args, m, p, k0);
    var d := Directive(m.flags, m.width, m.precision, m.modifier, s[m.i]);
    ConvertedStep(s, args, m, p, k0, fmtflt, out, d);
    ReadsAfresh(s, args, m.i + 1, m.k + Takes(d.conversion));
    var ok;
    l, ok := ConvertOne(str, len, size, d, args(m.k), fmtflt, before, out);
    n, overflow := Regs(Default, NO_FLAGS, 0, -1, Plain, m.i + 1, m.k + Takes(d.conversion)), !ok;
    printed := if ok then out + Converted(d, args(m.k), fmtflt).value else out;
  }

  lemma AtTheEnd(s: string, args: Args, fmtflt: FloatFormat, m: Regs, p: nat, k0: nat, out: string)
    requires m.i == |s| && OnTrack(s, args, fmtflt, m, p, k0, out)
    ensures Unbounded(s, args, fmtflt) == Expansion(out, false)
  {
    hide Reads, Expand, DirectiveAt, Unbounded;
    if m.state == Default {
      EndingPlain(s, args, m, p, k0, fmtflt, out);
    } else {
      DirectiveCut(s, args, m, p, k0);
      Ending(s, args, p, k0, fmtflt, out);
    }
  }

  lemma PlainOnTrack(s: string, args: Args, fmtflt: FloatFormat, m: Regs, p: nat, k0: nat, out: string)
    requires m.state == Default && m.i < |s| && OnTrack(s, args, fmtflt, m, p, k0, out)
    ensures s[m.i] == '%' ==> OnTrack(s, args, fmtflt, m.(state := InFlags, i := m.i + 1), p + 1, k0, out)
    ensures s[m.i] != '%' ==> OnTrack(s, args, fmtflt, m.(i := m.i + 1), p + 1, k0, out + [s[m.i]])
  {
    hide Reads, Expand, Unbounded;
    DefaultStep(s, args, m, p, k0, fmtflt, out);
  }

  /** The loop over the format. */
  method RunFormat(str: array?<char>, size: nat, s: CString, args: Args, fmtflt: FloatFormat)
    returns (len: nat, overflow: bool, ghost out: string)
    requires size > 0 ==> str != null && size <= str.Length
    modifies str
    ensures Holds(str, size, old(Contents(str)), out, len)
    ensures Unbounded(s, args, fmtflt) == Expansion(out, overflow)
  {
    hide Holds, OnTrack, Unbounded;
    ghost var before := Contents(str);
    len, overflow, out := 0, false, "";
    var m := Regs(Default, NO_FLAGS, 0, -1, Plain, 0, 0);
    ghost var p: nat, k0: nat := 0, 0;
    Start(str, size, s, args, fmtflt);
    while m.i < |s|
      invariant m.i <= |s| && OnTrack(s, args, fmtflt, m, p, k0, out)
      invariant Holds(str, size, before, out, len)
      decreases |s| - m.i, Rank(m.state)
    {
      if m.state == Default {
        PlainOnTrack(s, args, fmtflt, m, p, k0, out);
        if s[m.i] == '%' {
          m := m.(state := InFlags, i := m.i + 1);
        } else {
          len := OutChar(str, len, size, s[m.i], before, out);
          out := out + [s[m.i]];
          m := m.(i := m.i + 1);
        }
        p := p + 1;
      } else if m.state == InConversion {
        len, m, overflow, out := ConversionStep(str, len, size, s, args, fmtflt, m, before, out, p, k0);
        p, k0 := m.i, m.k;
      } else {
        m, overflow := ReadStep(s, args, fmtflt, m, p, k0, out);
      }
      if overflow {
        return;
      }
    }
    AtTheEnd(s, args, fmtflt, m, p, k0, out);
  }

  /**
    The formatter. Whatever the size, the text is the unbounded one: only how much of it is stored
    depends on the room.
   */
  method VsnPrintf(str: array?<char>, size0: nat, format: CString, args: Args, fmtflt: FloatFormat) returns (r: int)
    requires str != null ==> size0 <= str.Length
    modifies str
    ensures NewSize(str, size0) <= |old(Contents(str))|
    ensures var e, n, was := Unbounded(format, args, fmtflt), NewSize(str, size0), old(Contents(str));
            var stored := if |e.text| < n then |e.text| else n - 1;
            && (n == 0 ==> Contents(str) == was)
            && (n > 0 ==> Contents(str) == e.text[..stored] + ['\0'] + was[stored + 1..])
            && r == if e.overflow || |e.text| > 0x7FFF_FFFF then -1 else |e.text|
  {
    hide Holds, Unbounded;
    var size := size0;
    if str == null && size != 0 {
      size := 0;
    }
    ghost var before := Contents(str);
    var len, overflow;
    ghost var out;
    len, overflow, out := RunFormat(str, size, format, args, fmtflt);
    Terminate(str, len, size, before, out);
    r := if overflow || len > INT_MAX then -1 else len;
  }
}
