/**
  The conversions against section 7.19.6.1 of ISO/IEC 9899:1999: what the printed digits denote, when
  the field width holds, and exactly when a directive's text is the standard's.
 */
module PrintfStandard {
  import opened PrintfSpec
  import Laws = PrintfLaws
  import opened Common

  // ----- What the digits say -----

  function DigitValue(c: char): nat {
    if '0' <= c <= '9' then c as int - '0' as int
    else if 'a' <= c <= 'f' then c as int - 'a' as int + 10
    else if 'A' <= c <= 'F' then c as int - 'A' as int + 10
    else 0
  }

  function Number(t: string, base: nat): nat {
    if t == "" then 0 else base * Number(t[..|t| - 1], base) + DigitValue(t[|t| - 1])
  }

  lemma DigitCharValue(x: nat, up: bool)
    requires x < 16
    ensures DigitValue(DigitChar(x, up)) == x && (DigitChar(x, up) == '0' <==> x == 0)
    ensures DigitChar(x, up) != ','
  {
  }

  /** The digits denote the value they were made from, and only zero starts with a zero. */
  lemma {:induction false} DigitsDenote(u: nat, base: nat, up: bool)
    requires IsBase(base)
    ensures Number(Digits(u, base, up), base) == u
    ensures |Digits(u, base, up)| > 0 && (Digits(u, base, up)[0] == '0' <==> u == 0)
    ensures u == 0 ==> Digits(u, base, up) == "0"
  {
    var d := Digits(u, base, up);
    hide DigitChar, DigitValue;
    Laws.QuotientZero(u, base);
    DigitCharValue(u % base, up);
    if u < base {
      assert d[..|d| - 1] == "";
    } else {
      DigitsDenote(u / base, base, up);
      assert d[..|d| - 1] == Digits(u / base, base, up);
      Laws.Arith.DivisionIdentity(u, base);
    }
  }

  /** Letters are capital ones or small ones, as asked for. */
  lemma {:induction false} DigitCase(u: nat, base: nat, up: bool)
    requires IsBase(base)
    ensures forall i :: 0 <= i < |Digits(u, base, up)| ==>
      var c := Digits(u, base, up)[i]; '0' <= c <= '9' || (if up then 'A' <= c <= 'F' else 'a' <= c <= 'f')
  {
    if u >= base {
      DigitCase(u / base, base, up);
    }
  }

  /** A signed conversion shows the value it was given exactly if the value fits in 32 bits. */
  lemma SignedDigitsExact(value: int, base: nat, up: bool)
    requires IsBase(base)
    ensures Number(Digits(Printed(value, false), base, up), base) == Abs(value) <==> Abs(value) < U32
  {
    DigitsDenote(Printed(value, false), base, up);
    hide Digits, Number;
  }

  // ----- Width -----

  lemma {:induction false} GroupedLength(d: string)
    requires d != ""
    ensures |Grouped(d)| == |d| + NumSep(|d|) && NumSep(|d|) >= 0 && (NumSep(|d|) > 0 <==> |d| > 3)
  {
    if |d| > 3 {
      GroupedLength(d[..|d| - 3]);
    }
  }

  function WithoutCommas(t: string): string {
    if t == "" then "" else WithoutCommas(t[..|t| - 1]) + if t[|t| - 1] == ',' then "" else [t[|t| - 1]]
  }

  lemma {:induction false} WithoutCommasAppend(s: string, t: string)
    ensures WithoutCommas(s + t) == WithoutCommas(s) + WithoutCommas(t)
  {
    if t == "" {
      assert s + t == s;
    } else {
      assert (s + t)[..|s + t| - 1] == s + t[..|t| - 1];
      WithoutCommasAppend(s, t[..|t| - 1]);
    }
  }

  lemma {:induction false} NoCommasToDrop(t: string)
    requires ',' !in t
    ensures WithoutCommas(t) == t
  {
    if t != "" {
      NoCommasToDrop(t[..|t| - 1]);
    }
  }

  /** The separators add nothing but themselves. */
  lemma {:induction false} GroupedDigitsKept(d: string)
    requires ',' !in d
    ensures WithoutCommas(Grouped(d)) == d
  {
    hide WithoutCommas;
    if |d| <= 3 {
      NoCommasToDrop(d);
    } else {
      var e, last := d[..|d| - 3], d[|d| - 3..];
      GroupedDigitsKept(e);
      NoCommasToDrop(last);
      CommaDropped(Grouped(e));
      WithoutCommasAppend(Grouped(e) + ",", last);
      assert d == e + last;
    }
  }

  lemma CommaDropped(s: string)
    ensures WithoutCommas(s + ",") == WithoutCommas(s)
  {
    assert (s + ",")[..|s|] == s;
  }

  lemma {:induction false} DigitsHaveNoCommas(u: nat, base: nat, up: bool)
    requires IsBase(base)
    ensures ',' !in Digits(u, base, up)
  {
    hide DigitChar, DigitValue;
    DigitCharValue(u % base, up);
    if u >= base {
      DigitsHaveNoCommas(u / base, base, up);
    }
  }

  /** Every fourth character from the right is a comma, and no other; none stands first. */
  predicate CommaShaped(g: string) {
    && (forall i :: 0 <= i < |g| ==> (g[i] == ',' <==> (|g| - i) % 4 == 0))
    && g != "" && g[0] != ','
  }

  lemma {:induction false} GroupedShape(d: string)
    requires d != "" && ',' !in d
    ensures CommaShaped(Grouped(d))
  {
    if |d| > 3 {
      hide CommaShaped;
      GroupedShape(d[..|d| - 3]);
      ThreeMore(Grouped(d[..|d| - 3]), d[|d| - 3..]);
    }
  }

  lemma ThreeMore(h: string, last: string)
    requires CommaShaped(h) && |last| == 3 && ',' !in last
    ensures CommaShaped(h + "," + last)
  {
    var g := h + "," + last;
    forall i | 0 <= i < |g| ensures g[i] == ',' <==> (|g| - i) % 4 == 0 {
      if i < |h| {
        assert g[i] == h[i];
        FourMore(|h| - i);
      } else if i > |h| {
        assert g[i] == last[i - |h| - 1] && 1 <= |g| - i <= 3;
      }
    }
  }

  lemma FourMore(n: int)
    ensures (n + 4) % 4 == n % 4
  {
  }

  /** Leaving out the separators, the grouped digits still denote the value. */
  lemma GroupedDenotes(u: nat, base: nat, up: bool)
    requires IsBase(base)
    ensures Number(WithoutCommas(Grouped(Digits(u, base, up))), base) == u
  {
    DigitsHaveNoCommas(u, base, up);
    GroupedDigitsKept(Digits(u, base, up));
    DigitsDenote(u, base, up);
  }

  /** Digits that separators push out of the field. */
  function Lost(f: Flags, u: nat, base: nat, precision: int, pos: nat): nat {
    var extra := Max(DigitsWanted(f, u, base, precision, pos) - pos, 0);
    var separators := if f.quote && pos > 3 then Max(NumSep(pos), 0) else 0;
    if extra < separators then extra else separators
  }

  lemma IntLength(f: Flags, value: int, base: nat, up: bool, unsigned: bool, width: int, precision: int)
    requires IsBase(base)
    ensures
      var u := Printed(value, unsigned);
      |IntText(f, value, base, up, unsigned, width, precision)| ==
      Max(width - Lost(f, u, base, precision, |Digits(u, base, up)|),
          |IntText(f, value, base, up, unsigned, 0, precision)|)
  {
    hide Digits, Grouped, NumSep, Printed, Assembled, SignText, PrefixText, DigitsWanted, Number;
    var u := Printed(value, unsigned);
    var digits, sign, prefix := Digits(u, base, up), SignText(f, value, unsigned), PrefixText(f, u, base, up);
    DigitsDenote(u, base, up);
    GroupedLength(digits);
    var separators := if f.quote then NumSep(|digits|) else 0;
    var wanted := DigitsWanted(f, u, base, precision, |digits|);
    var zeros, shown := ZeroPad(wanted, |digits|, separators), if f.quote then Grouped(digits) else digits;
    AssembledLength(f, precision, sign, prefix, shown,
      SpacePad(width, wanted, |digits|, separators, |sign| + |prefix|), zeros);
    AssembledLength(f, precision, sign, prefix, shown,
      SpacePad(0, wanted, |digits|, separators, |sign| + |prefix|), zeros);
  }

  lemma AssembledLength(f: Flags, precision: int, sign: string, prefix: string, digits: string, spaces: nat, zeros: nat)
    ensures |Assembled(f, PadsWithZeros(f, precision), sign, prefix, digits, spaces, zeros)|
         == |sign| + |prefix| + |digits| + spaces + zeros
  {
  }

  /**
    The field width is a minimum width, with no more padding than it needs, exactly unless
    separators are printed and more digits are wanted than the value has.
   */
  lemma WidthLaw(f: Flags, value: int, base: nat, up: bool, unsigned: bool, precision: int)
    requires IsBase(base)
    ensures
      var u := Printed(value, unsigned);
      var pos := |Digits(u, base, up)|;
      (forall width: nat :: |IntText(f, value, base, up, unsigned, width, precision)|
                    == Max(width, |IntText(f, value, base, up, unsigned, 0, precision)|))
      <==> !(f.quote && pos > 3 && DigitsWanted(f, u, base, precision, pos) > pos)
  {
    hide Digits, IntText, DigitsWanted;
    var u := Printed(value, unsigned);
    var pos := |Digits(u, base, up)|;
    var lost := Lost(f, u, base, precision, pos);
    forall width: nat
      ensures |IntText(f, value, base, up, unsigned, width, precision)|
           == Max(width - lost, |IntText(f, value, base, up, unsigned, 0, precision)|)
    {
      IntLength(f, value, base, up, unsigned, width, precision);
    }
    if f.quote && pos > 3 && DigitsWanted(f, u, base, precision, pos) > pos {
      var width: nat := |IntText(f, value, base, up, unsigned, 0, precision)| + 1;
      assert |IntText(f, value, base, up, unsigned, width, precision)| < width;
    }
  }

  // ----- The standard's own text -----

  /**
    Zeros in front up to the precision; the value 0 with precision 0 has no digits at all. The quote
    flag, which is SUSv2's, puts separators between the value's digits and counts none of them.
   */
  function PreciseDigits(f: Flags, u: nat, base: nat, up: bool, precision: int): string
    requires IsBase(base)
  {
    var d := if u == 0 && precision == 0 then "" else Digits(u, base, up);
    Rep('0', precision - |d|) + Separated(f, d)
  }

  function Separated(f: Flags, d: string): string { if f.quote then Grouped(d) else d }

  /** With '#', an octal number starts with a zero. */
  function StandardDigits(f: Flags, u: nat, base: nat, up: bool, precision: int): string
    requires IsBase(base)
  {
    var p := PreciseDigits(f, u, base, up, precision);
    if f.num && base == 8 && (p == "" || p[0] != '0') then "0" + p else p
  }

  /** The text the standard gives an integer, of the value itself: nothing is cut off. */
  function StandardInt(f: Flags, value: int, base: nat, up: bool, unsigned: bool, width: int, precision: int): string
    requires IsBase(base)
  {
    var u := if value < 0 then -value else value;
    Justified(f, StandardSign(f, value, unsigned) + StandardPrefix(f, u, base, up), StandardDigits(f, u, base, up, precision),
      width, precision)
  }

  /** A signed conversion starts with '-' for a negative value, and otherwise with what a flag asks for. */
  function StandardSign(f: Flags, value: int, unsigned: bool): string {
    if unsigned then ""
    else if value < 0 then "-"
    else if f.plus then "+"
    else if f.space then " "
    else ""
  }

  /** With '#', a nonzero hexadecimal number starts with 0x, or 0X for X. */
  function StandardPrefix(f: Flags, u: nat, base: nat, up: bool): string {
    if !f.num || base != 16 || u == 0 then ""
    else if up then "0X"
    else "0x"
  }

  function Justified(f: Flags, before: string, digits: string, width: int, precision: int): string {
    var pad := width - |before + digits|;
    if f.minus then before + digits + Rep(' ', pad)
    else if f.zero && precision == -1 then before + Rep('0', pad) + digits
    else Rep(' ', pad) + before + digits
  }

  // ----- Where the text departs from it -----

  /** 0 with precision 0, where a 0 is printed all the same. */
  predicate PrintsNeedlessZero(f: Flags, u: nat, base: nat, precision: int) {
    u == 0 && precision == 0 && !(f.num && base == 8)
  }

  /** Separators are printed and more digits are wanted than the value has. */
  predicate DropsZeros(f: Flags, u: nat, base: nat, up: bool, precision: int)
    requires IsBase(base)
  {
    f.quote && |Digits(u, base, up)| > 3 && DigitsWanted(f, u, base, precision, |Digits(u, base, up)|) > |Digits(u, base, up)|
  }

  /** As many digits as wanted are printed exactly then. */
  lemma ZerosKept(f: Flags, u: nat, base: nat, up: bool, precision: int)
    requires IsBase(base)
    ensures
      var pos := |Digits(u, base, up)|;
      var wanted, separators := DigitsWanted(f, u, base, precision, pos), if f.quote then NumSep(pos) else 0;
      ZeroPad(wanted, pos, separators) + pos == Max(wanted, pos) <==> !DropsZeros(f, u, base, up, precision)
  {
    hide Digits, NumSep, Grouped;
    DigitsDenote(u, base, up);
    GroupedLength(Digits(u, base, up));
  }

  lemma SeparatedHead(f: Flags, d: string)
    requires d != ""
    ensures Separated(f, d) != "" && Separated(f, d)[0] == d[0]
    ensures |Separated(f, d)| == |d| + if f.quote then NumSep(|d|) else 0
  {
    GroupedHead(d);
    GroupedLength(d);
  }

  lemma {:induction false} GroupedHead(d: string)
    requires d != ""
    ensures Grouped(d) != "" && Grouped(d)[0] == d[0]
  {
    if |d| > 3 {
      GroupedHead(d[..|d| - 3]);
    }
  }

  /** The standard's digits are the zeros still wanted and the value's own. */
  lemma StandardZeros(f: Flags, u: nat, base: nat, up: bool, precision: int)
    requires IsBase(base) && precision >= -1 && !PrintsNeedlessZero(f, u, base, precision)
    ensures
      var d := Digits(u, base, up);
      StandardDigits(f, u, base, up, precision) == Rep('0', DigitsWanted(f, u, base, precision, |d|) - |d|) + Separated(f, d)
  {
    hide Digits, Rep, PreciseDigits, Separated;
    var d := Digits(u, base, up);
    LeadingZeros(Separated(f, d), 0);
    if u == 0 && precision == 0 {
      ZeroPrecisely(f, base, up);
    } else {
      PrecisionZeros(f, u, base, up, precision);
    }
  }

  lemma ZeroPrecisely(f: Flags, base: nat, up: bool)
    requires IsBase(base)
    ensures PreciseDigits(f, 0, base, up, 0) == "" && Digits(0, base, up) == "0" == Separated(f, "0")
    ensures Rep('0', -1) + "0" == "0" == "0" + ""
  {
    DigitsDenote(0, base, up);
  }

  lemma PrecisionZeros(f: Flags, u: nat, base: nat, up: bool, precision: int)
    requires IsBase(base) && !(u == 0 && precision == 0)
    ensures
      var d, p := Digits(u, base, up), PreciseDigits(f, u, base, up, precision);
      && p == Rep('0', precision - |d|) + Separated(f, d)
      && p != "" && (p[0] == '0' <==> precision > |d| || u == 0)
      && (precision <= |d| ==> p == Separated(f, d) && Rep('0', precision - |d|) == "")
  {
    hide Digits, Number, Rep, Separated;
    DigitsDenote(u, base, up);
    var d := Digits(u, base, up);
    SeparatedHead(f, d);
    LeadingZeros(Separated(f, d), precision - |d|);
  }

  lemma LeadingZeros(d: string, n: int)
    ensures n <= 0 ==> Rep('0', n) + d == d && Rep('0', n) == ""
    ensures n > 0 ==> (Rep('0', n) + d)[0] == '0'
    ensures Rep('0', 1) + d == "0" + d && Rep('0', n) == Rep('0', Max(n, 0))
  {
  }

  lemma RepAdds(c: char, m: nat, n: nat)
    ensures Rep(c, m + n) == Rep(c, m) + Rep(c, n)
  {
  }

  lemma AssembledIsJustified(f: Flags, precision: int, sign: string, prefix: string, d: string, zeros: nat, width: int)
    ensures
      var before, digits := sign + prefix, Rep('0', zeros) + d;
      Assembled(f, PadsWithZeros(f, precision), sign, prefix, d, Max(width - |before + digits|, 0), zeros)
      == Justified(f, before, digits, width, precision)
  {
    var before, digits := sign + prefix, Rep('0', zeros) + d;
    var pad := width - |before + digits|;
    assert Rep(' ', 0) == "" && Rep(' ', Max(pad, 0)) == Rep(' ', pad) && Rep('0', Max(pad, 0)) == Rep('0', pad);
    RepAdds('0', Max(pad, 0), zeros);
    assert Rep('0', zeros + Max(pad, 0)) == Rep('0', pad) + Rep('0', zeros);
    Concatenations(sign, prefix, Rep('0', zeros), d, Rep(' ', pad), Rep('0', pad));
  }

  /** The same text bracketed three ways: padded on the right, with zeros, on the left. */
  lemma Concatenations(sign: string, prefix: string, z: string, d: string, spaces: string, fill: string)
    ensures "" + sign + prefix + z + d + spaces == sign + prefix + (z + d) + spaces
    ensures "" + sign + prefix + (fill + z) + d + "" == sign + prefix + fill + (z + d)
    ensures spaces + sign + prefix + z + d + "" == spaces + (sign + prefix) + (z + d)
  {
  }

  /** Of the value as printed, the text is the standard's unless a case above applies. */
  lemma Conforms(f: Flags, value: int, u: nat, base: nat, up: bool, unsigned: bool, width: int, precision: int)
    requires IsBase(base) && precision >= -1 && u == Printed(value, unsigned)
    requires !PrintsNeedlessZero(f, u, base, precision) && !DropsZeros(f, u, base, up, precision)
    ensures IntText(f, value, base, up, unsigned, width, precision)
         == Justified(f, SignText(f, value, unsigned) + PrefixText(f, u, base, up), StandardDigits(f, u, base, up, precision), width, precision)
  {
    hide Digits, Grouped, NumSep, Assembled, SignText, PrefixText, StandardDigits, DigitsWanted, Printed, Justified, Separated, Number;
    var d := Digits(u, base, up);
    var wanted, separators := DigitsWanted(f, u, base, precision, |d|), if f.quote then NumSep(|d|) else 0;
    DigitsDenote(u, base, up);
    GroupedLength(d);
    SeparatedHead(f, d);
    StandardZeros(f, u, base, up, precision);
    ZerosKept(f, u, base, up, precision);
    SeparatedIs(f, d);
    LeadingZeros(d, wanted - |d|);
    AssembledIsJustified(f, precision, SignText(f, value, unsigned), PrefixText(f, u, base, up), Separated(f, d),
      ZeroPad(wanted, |d|, separators), width);
  }

  lemma SeparatedIs(f: Flags, d: string)
    ensures Separated(f, d) == if f.quote then Grouped(d) else d
  {
  }

  lemma NeedlessZero(f: Flags, fetched: int, value: int, base: nat, up: bool, unsigned: bool, width: int)
    requires IsBase(base) && Printed(fetched, unsigned) == Abs(value) && PrintsNeedlessZero(f, Abs(value), base, 0)
    ensures '0' in IntText(f, fetched, base, up, unsigned, width, 0)
    ensures '0' !in StandardInt(f, value, base, up, unsigned, width, 0)
  {
    hide Printed, Digits, Number;
    DigitsDenote(0, base, up);
  }

  /** Dropped zeros make the text shorter than the standard's, at every width. */
  lemma DroppedZeros(f: Flags, fetched: int, value: int, base: nat, up: bool, unsigned: bool, width: int, precision: int)
    requires IsBase(base) && precision >= -1 && Printed(fetched, unsigned) == Abs(value)
    requires SignText(f, fetched, unsigned) == SignText(f, value, unsigned) && DropsZeros(f, Abs(value), base, up, precision)
    ensures |IntText(f, fetched, base, up, unsigned, width, precision)| < |StandardInt(f, value, base, up, unsigned, width, precision)|
  {
    hide Digits, Grouped, NumSep, Assembled, SignText, PrefixText, StandardDigits, Printed, Justified, Separated, Number, StandardInt;
    StandardIntIs(f, value, base, up, unsigned, width, precision);
    var u := Abs(value);
    var d, sign, prefix := Digits(u, base, up), SignText(f, value, unsigned), PrefixText(f, u, base, up);
    var wanted, separators := DigitsWanted(f, u, base, precision, |d|), NumSep(|d|);
    DigitsDenote(u, base, up);
    GroupedLength(d);
    SeparatedHead(f, d);
    SeparatedIs(f, d);
    StandardZeros(f, u, base, up, precision);
    AssembledLength(f, precision, sign, prefix, Grouped(d),
      SpacePad(width, wanted, |d|, separators, |sign| + |prefix|), ZeroPad(wanted, |d|, separators));
    JustifiedLength(f, sign + prefix, StandardDigits(f, u, base, up, precision), width, precision);
  }

  lemma JustifiedLength(f: Flags, before: string, digits: string, width: int, precision: int)
    ensures |Justified(f, before, digits, width, precision)| == Max(width, |before| + |digits|)
  {
  }

  // ----- What a text says -----

  predicate IsDigitOf(c: char, base: nat) {
    ('0' <= c <= '9' || 'a' <= c <= 'f' || 'A' <= c <= 'F') && DigitValue(c) < base
  }

  /** The number a text shows, all but its digits passed over. */
  function Reading(t: string, base: nat): nat {
    if t == "" then 0
    else
      var r, c := Reading(t[..|t| - 1], base), t[|t| - 1];
      if IsDigitOf(c, base) then base * r + DigitValue(c) else r
  }

  /** Only the number of what comes before matters for what comes after. */
  lemma {:induction false} ReadingAfter(s: string, s': string, t: string, base: nat)
    requires Reading(s, base) == Reading(s', base)
    ensures Reading(s + t, base) == Reading(s' + t, base)
  {
    if t == "" {
      assert s + t == s && s' + t == s';
    } else {
      hide IsDigitOf, DigitValue;
      var n := |t| - 1;
      assert (s + t)[..|s| + n] == s + t[..n] && (s' + t)[..|s'| + n] == s' + t[..n];
      ReadingAfter(s, s', t[..n], base);
    }
  }

  predicate NoDigits(t: string, base: nat) { forall i :: 0 <= i < |t| ==> !IsDigitOf(t[i], base) }

  predicate NoNumber(t: string, base: nat) { forall i :: 0 <= i < |t| ==> t[i] == '0' || !IsDigitOf(t[i], base) }

  lemma {:induction false} ReadingOfNothing(s: string, t: string, base: nat)
    ensures NoNumber(t, base) ==> Reading(t, base) == 0
    ensures NoDigits(t, base) ==> Reading(s + t, base) == Reading(s, base)
  {
    if t == "" {
      assert s + t == s;
    } else {
      var n := |t| - 1;
      assert (s + t)[..|s| + n] == s + t[..n];
      ReadingOfNothing(s, t[..n], base);
    }
  }

  /** Text around the digits does not change the number. */
  lemma ReadingInside(lead: string, digits: string, tail: string, base: nat)
    requires NoNumber(lead, base) && NoDigits(tail, base)
    ensures Reading(lead + digits + tail, base) == Reading(digits, base)
  {
    ReadingOfNothing(lead + digits, tail, base);
    ReadingOfNothing("", lead, base);
    ReadingAfter(lead, "", digits, base);
    assert "" + digits == digits;
  }

  lemma {:induction false} DigitsRead(u: nat, base: nat, up: bool)
    requires IsBase(base)
    ensures Reading(Digits(u, base, up), base) == u && '-' !in Digits(u, base, up)
  {
    var d := Digits(u, base, up);
    hide DigitChar, DigitValue, IsDigitOf;
    Laws.QuotientZero(u, base);
    DigitCharRead(u % base, base, up);
    if u < base {
      assert d[..|d| - 1] == "";
    } else {
      DigitsRead(u / base, base, up);
      assert d[..|d| - 1] == Digits(u / base, base, up);
      Laws.Arith.DivisionIdentity(u, base);
    }
  }

  lemma DigitCharRead(x: nat, base: nat, up: bool)
    requires IsBase(base) && x < base
    ensures IsDigitOf(DigitChar(x, up), base) && DigitValue(DigitChar(x, up)) == x && DigitChar(x, up) != '-'
  {
  }

  lemma {:induction false} GroupedReads(d: string, base: nat)
    ensures Reading(Grouped(d), base) == Reading(d, base)
  {
    hide Reading, NoDigits;
    if |d| > 3 {
      var e, last := d[..|d| - 3], d[|d| - 3..];
      GroupedReads(e, base);
      CommaIsNoDigit(base);
      ReadingOfNothing(Grouped(e), ",", base);
      ReadingAfter(Grouped(e) + ",", e, last, base);
      assert d == e + last;
    }
  }

  lemma CommaIsNoDigit(base: nat)
    ensures NoDigits(",", base)
  {
  }

  lemma {:induction false} GroupedMinus(d: string)
    ensures '-' in Grouped(d) <==> '-' in d
  {
    if |d| > 3 {
      GroupedMinus(d[..|d| - 3]);
      assert d == d[..|d| - 3] + d[|d| - 3..];
    }
  }

  lemma SeparatedReads(f: Flags, u: nat, base: nat, up: bool)
    requires IsBase(base)
    ensures Reading(Separated(f, Digits(u, base, up)), base) == u && '-' !in Separated(f, Digits(u, base, up))
  {
    DigitsRead(u, base, up);
    GroupedReads(Digits(u, base, up), base);
    GroupedMinus(Digits(u, base, up));
  }

  /** Signs, prefixes and padding hold no number; only a negative sign holds a '-'. */
  lemma LeadReads(f: Flags, value: int, unsigned: bool, u: nat, base: nat, up: bool, a: int, b: int)
    requires IsBase(base)
    ensures
      var sign, prefix := SignText(f, value, unsigned), PrefixText(f, u, base, up);
      && NoNumber(Rep(' ', a) + sign + prefix + Rep('0', b), base)
      && NoDigits(Rep(' ', a), base)
      && ('-' in Rep(' ', a) + sign + prefix + Rep('0', b) <==> !unsigned && value < 0)
      && '-' !in Rep(' ', a)
  {
    var sign, prefix := SignText(f, value, unsigned), PrefixText(f, u, base, up);
    assert !unsigned && value < 0 ==> sign[0] == '-';
    assert !unsigned && value < 0 ==> (Rep(' ', a) + sign + prefix + Rep('0', b))[|Rep(' ', a)|] == '-';
  }

  lemma AssembledReads(f: Flags, value: int, unsigned: bool, u: nat, base: nat, up: bool, precision: int, digits: string, spaces: nat, zeros: nat)
    requires IsBase(base) && '-' !in digits
    ensures
      var t := Assembled(f, PadsWithZeros(f, precision), SignText(f, value, unsigned), PrefixText(f, u, base, up), digits, spaces, zeros);
      Reading(t, base) == Reading(digits, base) && ('-' in t <==> !unsigned && value < 0)
  {
    hide SignText, PrefixText, Reading, NoNumber, NoDigits, Rep, PadsWithZeros;
    var withZeros := PadsWithZeros(f, precision);
    var z := zeros + if withZeros then spaces else 0;
    var a, b := if f.minus || withZeros then 0 else spaces, if f.minus then spaces else 0;
    LeadReads(f, value, unsigned, u, base, up, a, z);
    LeadReads(f, value, unsigned, u, base, up, b, z);
    ReadingInside(Rep(' ', a) + SignText(f, value, unsigned) + PrefixText(f, u, base, up) + Rep('0', z), digits, Rep(' ', b), base);
  }

  /** The text of an integer shows the value as cut to 32 bits, with a '-' exactly for a negative one. */
  lemma IntTextReads(f: Flags, value: int, base: nat, up: bool, unsigned: bool, width: int, precision: int)
    requires IsBase(base)
    ensures var t := IntText(f, value, base, up, unsigned, width, precision);
      Reading(t, base) == Printed(value, unsigned) && ('-' in t <==> !unsigned && value < 0)
  {
    hide Digits, SignText, PrefixText, DigitsWanted, Printed, Reading, Separated, NumSep, Assembled, PadsWithZeros;
    var u := Printed(value, unsigned);
    var d := Digits(u, base, up);
    var wanted, separators := DigitsWanted(f, u, base, precision, |d|), if f.quote then NumSep(|d|) else 0;
    SeparatedIs(f, d);
    SeparatedReads(f, u, base, up);
    AssembledReads(f, value, unsigned, u, base, up, precision, Separated(f, d),
      SpacePad(width, wanted, |d|, separators, |SignText(f, value, unsigned)| + |PrefixText(f, u, base, up)|),
      ZeroPad(wanted, |d|, separators));
  }

  /** The standard's text shows the value itself. */
  lemma StandardReads(f: Flags, value: int, base: nat, up: bool, unsigned: bool, width: int, precision: int)
    requires IsBase(base) && precision >= -1
    ensures var t := StandardInt(f, value, base, up, unsigned, width, precision);
      Reading(t, base) == Abs(value) && ('-' in t <==> !unsigned && value < 0)
  {
    hide Digits, SignText, PrefixText, DigitsWanted, Separated, Assembled, Justified, PadsWithZeros, StandardDigits, StandardInt;
    StandardIntIs(f, value, base, up, unsigned, width, precision);
    var u := Abs(value);
    var d, sign, prefix := Digits(u, base, up), SignText(f, value, unsigned), PrefixText(f, u, base, up);
    var body, zeros := Separated(f, d), Max(DigitsWanted(f, u, base, precision, |d|) - |d|, 0);
    if PrintsNeedlessZero(f, u, base, precision) {
      NothingPrinted(f, base, up);
      body, zeros := "", 0;
    } else {
      StandardZeros(f, u, base, up, precision);
      LeadingZeros(d, DigitsWanted(f, u, base, precision, |d|) - |d|);
      SeparatedReads(f, u, base, up);
    }
    AssembledIsJustified(f, precision, sign, prefix, body, zeros, width);
    AssembledReads(f, value, unsigned, u, base, up, precision, body,
      Max(width - |sign + prefix + (Rep('0', zeros) + body)|, 0), zeros);
    SameLength(sign + prefix, Rep('0', zeros) + body);
  }

  lemma SameLength(a: string, b: string)
    ensures |a + b| == |a| + |b|
  {
  }

  lemma NothingPrinted(f: Flags, base: nat, up: bool)
    requires IsBase(base) && !(f.num && base == 8)
    ensures StandardDigits(f, 0, base, up, 0) == "" == Rep('0', 0) + ""
  {
  }

  /**
    The text of an integer against the standard's text of the value that was meant: they are equal
    exactly if the value was fetched and cut without loss and neither case above applies.
   */
  lemma TextsAgree(f: Flags, fetched: int, value: int, base: nat, up: bool, unsigned: bool, width: int, precision: int)
    requires IsBase(base) && precision >= -1
    ensures IntText(f, fetched, base, up, unsigned, width, precision) == StandardInt(f, value, base, up, unsigned, width, precision)
       <==> Printed(fetched, unsigned) == Abs(value) && (unsigned || (fetched < 0 <==> value < 0))
            && !PrintsNeedlessZero(f, Abs(value), base, precision) && !DropsZeros(f, Abs(value), base, up, precision)
  {
    hide IntText, StandardInt, Printed, DropsZeros, Reading;
    IntTextReads(f, fetched, base, up, unsigned, width, precision);
    StandardReads(f, value, base, up, unsigned, width, precision);
    if Printed(fetched, unsigned) == Abs(value) && (unsigned || (fetched < 0 <==> value < 0)) {
      if PrintsNeedlessZero(f, Abs(value), base, precision) {
        NeedlessZero(f, fetched, value, base, up, unsigned, width);
      } else if DropsZeros(f, Abs(value), base, up, precision) {
        SameSign(f, fetched, value, unsigned);
        DroppedZeros(f, fetched, value, base, up, unsigned, width, precision);
      } else {
        SameSign(f, fetched, value, unsigned);
        Conforms(f, fetched, Abs(value), base, up, unsigned, width, precision);
        StandardIntIs(f, value, base, up, unsigned, width, precision);
      }
    }
  }

  lemma SameSign(f: Flags, a: int, b: int, unsigned: bool)
    requires unsigned || (a < 0 <==> b < 0)
    ensures SignText(f, a, unsigned) == SignText(f, b, unsigned)
  {
  }

  lemma StandardIntIs(f: Flags, value: int, base: nat, up: bool, unsigned: bool, width: int, precision: int)
    requires IsBase(base)
    ensures StandardInt(f, value, base, up, unsigned, width, precision) ==
      Justified(f, SignText(f, value, unsigned) + PrefixText(f, Abs(value), base, up),
        StandardDigits(f, Abs(value), base, up, precision), width, precision)
  {
  }

  /** The integer routine, given the value that was meant. */
  lemma ConformsExactly(f: Flags, value: int, base: nat, up: bool, unsigned: bool, width: int, precision: int)
    requires IsBase(base) && precision >= -1 && (unsigned ==> value >= 0)
    ensures IntText(f, value, base, up, unsigned, width, precision) == StandardInt(f, value, base, up, unsigned, width, precision)
       <==> Abs(value) < U32 && !PrintsNeedlessZero(f, Abs(value), base, precision) && !DropsZeros(f, Abs(value), base, up, precision)
  {
    hide IntText, StandardInt, DropsZeros;
    TextsAgree(f, value, value, base, up, unsigned, width, precision);
  }

  // ----- Whole directives -----

  /** `n` as a signed number from `-half` on. */
  function Wrapped(n: int, half: int): int
    requires half > 0
  {
    (n + half) % (2 * half) - half
  }

  /** The value the standard takes a signed conversion's argument for: `ll` and `j` are 64 bits wide. */
  function MeantSigned(modifier: Modifier, n: int): int {
    match modifier
    case Char => Wrapped(n, 0x80)
    case Short => Wrapped(n, 0x8000)
    case IntMax => Wrapped(n, 0x8000_0000_0000_0000)
    case LongLong => Wrapped(n, 0x8000_0000_0000_0000)
    case _ => Wrapped(n, 0x8000_0000)
  }

  function MeantUnsigned(modifier: Modifier, n: int): nat {
    match modifier
    case Char => n % 0x100
    case Short => n % 0x1_0000
    case IntMax => n % 0x1_0000_0000_0000_0000
    case LongLong => n % 0x1_0000_0000_0000_0000
    case _ => n % 0x1_0000_0000
  }

  lemma WrappedIsSigned(n: int, half: int)
    requires half > 0
    ensures Wrapped(n, half) == Signed(n, 2 * half)
  {
    var m, r, v := 2 * half, n % (2 * half), Signed(n, 2 * half);
    Laws.Arith.DivisionIdentity(n, m);
    var q := n / m + if r >= half then 1 else 0;
    assert n + half == q * m + (v + half);
    Laws.Arith.DivisionUnique(n + half, m, q, v + half);
  }

  /**
    Directives and arguments the standard gives a text to: integers, characters and strings, with
    the flags and precisions defined for them, and the quote flag as SUSv2 has it. Wide text is not
    modelled; pointers are printed as the implementation likes.
   */
  predicate Specified(d: Directive, arg: Arg) {
    var c, f := d.conversion, d.flags;
    && d.precision >= -1
    && if c in "di" || c == 'u' then d.modifier != LongDouble && !f.num
       else if c in "oxX" then d.modifier != LongDouble && !f.quote
       else d.modifier == Plain && !f.num && !f.zero && !f.quote
            && ((c == 'c' && d.precision == -1) || (c == 's' && arg.text.Some?))
  }

  /** The standard's text of a directive. */
  function StandardText(d: Directive, arg: Arg): string
    requires Specified(d, arg)
  {
    var c := d.conversion;
    if c in "di" then StandardInt(d.flags, MeantSigned(d.modifier, arg.number), 10, false, false, d.width, d.precision)
    else if c == 'u' then StandardInt(d.flags, MeantUnsigned(d.modifier, arg.number), 10, false, true, d.width, d.precision)
    else if c == 'o' then StandardInt(d.flags, MeantUnsigned(d.modifier, arg.number), 8, false, true, d.width, d.precision)
    else if c in "xX" then
      StandardInt(d.flags, MeantUnsigned(d.modifier, arg.number), 16, c == 'X', true, d.width, d.precision)
    else if c == 'c' then Justified(d.flags, "", [(arg.number % 256) as char], d.width, 0)
    else
      var s, n := arg.text.value, d.precision;
      Justified(d.flags, "", if n == -1 || |s| <= n then s else s[..n], d.width, 0)
  }

  /** One base for each unsigned conversion. */
  lemma StandardUnsigned(d: Directive, arg: Arg)
    requires Specified(d, arg) && IsUnsignedInt(d.conversion)
    ensures StandardText(d, arg) ==
      StandardInt(d.flags, MeantUnsigned(d.modifier, arg.number), BaseOf(d.conversion), d.conversion == 'X', true, d.width, d.precision)
  {
    hide StandardInt, MeantUnsigned;
  }

  lemma PaddedIsJustified(f: Flags, s: string, width: int)
    ensures Padded(f, s, width) == Justified(f, "", s, width, 0)
  {
    assert "" + s == s;
  }

  /** The argument is fetched with a type of its own size. */
  predicate FetchedWhole(d: Directive) {
    var c := d.conversion;
    && (c in "di" ==> d.modifier != LongLong)
    && (IsUnsignedInt(c) ==> d.modifier != LongLong && d.modifier != IntMax)
  }

  /** What a fetch may yield for an argument: its bits, or, with a type of another size, anything. */
  predicate Yields(d: Directive, given: int, got: int) { FetchedWhole(d) ==> got == given }

  /** Signed arguments that reach the digits unharmed. */
  predicate SignedFits(modifier: Modifier, n: int) {
    match modifier
    case LongLong => false
    case IntMax => -U32 < Signed(n, U64) < U32
    case Size => Signed(n, U32) >= 0
    case _ => true
  }

  /** No digit is printed in excess and none is dropped. */
  predicate DigitsFit(f: Flags, u: nat, base: nat, up: bool, precision: int)
    requires IsBase(base)
  {
    !PrintsNeedlessZero(f, u, base, precision) && !DropsZeros(f, u, base, up, precision)
  }

  /** What a caller can check about a directive and its argument before the call. */
  predicate Safe(d: Directive, n: int) {
    var c := d.conversion;
    if c in "di" then SignedFits(d.modifier, n) && DigitsFit(d.flags, Abs(MeantSigned(d.modifier, n)), 10, false, d.precision)
    else if IsUnsignedInt(c) then
      FetchedWhole(d) && DigitsFit(d.flags, MeantUnsigned(d.modifier, n), BaseOf(c), c == 'X', d.precision)
    else c == 'c' ==> d.width <= 1
  }

  lemma SignedFetch(modifier: Modifier, n: int)
    requires modifier != LongDouble && modifier != LongLong
    ensures var fetched, meant := FetchSigned(modifier, n), MeantSigned(modifier, n);
      Printed(fetched, false) == Abs(meant) && (fetched < 0 <==> meant < 0) <==> SignedFits(modifier, n)
  {
    hide Signed, Printed, Wrapped;
    PrintedWhole(FetchSigned(modifier, n));
    WrappedIsSigned(n, 0x80);
    WrappedIsSigned(n, 0x8000);
    WrappedIsSigned(n, 0x8000_0000);
    WrappedIsSigned(n, 0x8000_0000_0000_0000);
    SignedRange(n, 256);
    SignedRange(n, 0x10000);
    SignedRange(n, U32);
    if modifier == Size {
      LowHalf(n);
    }
  }

  lemma PrintedWhole(v: int)
    ensures Printed(v, false) == Abs(v) <==> -U32 < v < U32
  {
  }

  lemma SignedRange(n: int, m: int)
    requires m == 256 || m == 0x10000 || m == U32
    ensures -m / 2 <= Signed(n, m) < m / 2 && 0 <= n % m < m
  {
  }

  lemma LowHalf(n: int)
    ensures Signed(n, U32) >= 0 ==> Signed(n, U32) == n % U32
    ensures Signed(n, U32) < 0 ==> n % U32 >= 0x8000_0000 && Signed(n, U32) == n % U32 - U32
  {
  }

  lemma UnsignedFetch(modifier: Modifier, n: int)
    requires modifier != LongLong && modifier != IntMax
    ensures Printed(FetchUnsigned(modifier, n), true) == MeantUnsigned(modifier, n)
  {
    hide Signed;
    SignedResidue(n);
    Residues(n);
  }

  lemma SignedResidue(n: int)
    ensures Signed(n, U32) % U32 == n % U32
  {
    var r := n % U32;
    Laws.Arith.DivisionUnique(r - U32, U32, -1, r);
  }

  lemma Residues(n: int)
    ensures (n % 256) % U32 == n % 256 && (n % 0x10000) % U32 == n % 0x10000 && (n % U32) % U32 == n % U32
  {
  }

  lemma CharWidth(f: Flags, c: char, width: nat)
    ensures [c] == Justified(f, "", [c], width, 0) <==> width <= 1
  {
    JustifiedLength(f, "", [c], width, 0);
    if width <= 1 {
      assert Rep(' ', width - 1) == "";
    }
  }

  /**
    A directive prints the standard's text of its argument, whatever the fetch may yield for it,
    exactly if it is safe.
   */
  lemma DirectiveConforms(d: Directive, arg: Arg, fmtflt: FloatFormat)
    requires Specified(d, arg)
    ensures (forall got :: Yields(d, arg.number, got) ==> Converted(d, Arg(got, arg.text), fmtflt) == Some(StandardText(d, arg)))
       <==> Safe(d, arg.number)
  {
    hide Converted, StandardText, FetchedWhole, Safe;
    if FetchedWhole(d) {
      WholeConforms(d, arg, fmtflt);
      assert Arg(arg.number, arg.text) == arg;
    } else {
      Misfetched(d, arg, fmtflt);
      assert Yields(d, arg.number, 0) && Yields(d, arg.number, 1);
    }
  }

  lemma WholeConforms(d: Directive, arg: Arg, fmtflt: FloatFormat)
    requires Specified(d, arg) && FetchedWhole(d)
    ensures Converted(d, arg, fmtflt) == Some(StandardText(d, arg)) <==> Safe(d, arg.number)
  {
    hide IntText, StandardInt, Printed, FetchSigned, FetchUnsigned, MeantSigned, MeantUnsigned, SignedFits, Padded, DropsZeros, Justified;
    var c, n := d.conversion, arg.number;
    if c in "di" {
      SignedFetch(d.modifier, n);
      TextsAgree(d.flags, FetchSigned(d.modifier, n), MeantSigned(d.modifier, n), 10, false, false, d.width, d.precision);
    } else if IsUnsignedInt(c) {
      UnsignedFetch(d.modifier, n);
      StandardUnsigned(d, arg);
      TextsAgree(d.flags, FetchUnsigned(d.modifier, n), MeantUnsigned(d.modifier, n), BaseOf(c), c == 'X', true, d.width, d.precision);
    } else if c == 'c' {
      CharWidth(d.flags, (n % 256) as char, d.width);
    } else {
      PaddedIsJustified(d.flags, Clipped(arg.text.value, d.precision), d.width);
    }
  }

  /** A fetch of another size may yield 0 or 1, and no text is right for both. */
  lemma Misfetched(d: Directive, arg: Arg, fmtflt: FloatFormat)
    requires Specified(d, arg) && !FetchedWhole(d)
    ensures !Safe(d, arg.number)
    ensures Converted(d, Arg(0, arg.text), fmtflt) != Some(StandardText(d, arg))
         || Converted(d, Arg(1, arg.text), fmtflt) != Some(StandardText(d, arg))
  {
    hide IntText, StandardInt, MeantSigned, MeantUnsigned, DropsZeros, Padded, StrText, Justified;
    var c := d.conversion;
    if c in "di" {
      var meant := MeantSigned(d.modifier, arg.number);
      TextsAgree(d.flags, FetchSigned(d.modifier, 0), meant, 10, false, false, d.width, d.precision);
      TextsAgree(d.flags, FetchSigned(d.modifier, 1), meant, 10, false, false, d.width, d.precision);
    } else {
      var meant := MeantUnsigned(d.modifier, arg.number);
      StandardUnsigned(d, arg);
      TextsAgree(d.flags, FetchUnsigned(d.modifier, 0), meant, BaseOf(c), c == 'X', true, d.width, d.precision);
      TextsAgree(d.flags, FetchUnsigned(d.modifier, 1), meant, BaseOf(c), c == 'X', true, d.width, d.precision);
    }
  }

  /** A null pointer is (nil), any other prints its address the way %#x would, under the same condition. */
  lemma PointerText(f: Flags, width: nat, precision: int, modifier: Modifier, arg: Arg, fmtflt: FloatFormat)
    requires precision >= -1
    ensures
      var t, address := Converted(Directive(f, width, precision, modifier, 'p'), arg, fmtflt), arg.number % 0x1_0000_0000;
      if address == 0 then t == Some(Justified(f, "", "(nil)", width, 0))
      else (t == Some(StandardInt(f.(num := true), address, 16, false, true, width, precision))
            <==> !(f.quote && |Digits(address, 16, false)| > 3 && precision > |Digits(address, 16, false)|))
  {
    hide IntText, StandardInt, Digits, Justified;
    var address := arg.number % 0x1_0000_0000;
    PaddedIsJustified(f, "(nil)", width);
    TextsAgree(f.(num := true), address, address, 16, false, true, width, precision);
    Residues(arg.number);
  }

  // ----- An input for each way to depart from it -----

  /** The text is not the standard's although the argument is fetched whole. */
  predicate Departs(d: Directive, arg: Arg, fmtflt: FloatFormat) {
    Specified(d, arg) && FetchedWhole(d) && Converted(d, arg, fmtflt) != Some(StandardText(d, arg))
  }

  const PLAIN := Flags(false, false, false, false, false, false)

  function Argument(n: int): Arg { Arg(n, None) }

  /** `%5c` prints one character. */
  lemma CharIgnoresWidth(n: int, fmtflt: FloatFormat)
    ensures Departs(Directive(PLAIN, 5, -1, Plain, 'c'), Argument(n), fmtflt)
  {
    WholeConforms(Directive(PLAIN, 5, -1, Plain, 'c'), Argument(n), fmtflt);
  }

  /** `%zd` prints -1 as 4294967295. */
  lemma SizeIsUnsigned(fmtflt: FloatFormat)
    ensures var d := Directive(PLAIN, 0, -1, Size, 'd');
      && Departs(d, Argument(-1), fmtflt)
      && Reading(Converted(d, Argument(-1), fmtflt).value, 10) == 0xFFFF_FFFF
  {
    hide IntText, StandardText, Reading, DigitsFit;
    WholeConforms(Directive(PLAIN, 0, -1, Size, 'd'), Argument(-1), fmtflt);
    IntTextReads(PLAIN, FetchSigned(Size, -1), 10, false, false, 0, -1);
  }

  /** `%jd` prints 4294967296 as 0. */
  lemma WideIsCut(fmtflt: FloatFormat)
    ensures var d := Directive(PLAIN, 0, -1, IntMax, 'd');
      && Departs(d, Argument(U32), fmtflt)
      && Reading(Converted(d, Argument(U32), fmtflt).value, 10) == 0
  {
    hide IntText, StandardText, Reading, DigitsFit;
    WholeConforms(Directive(PLAIN, 0, -1, IntMax, 'd'), Argument(U32), fmtflt);
    IntTextReads(PLAIN, FetchSigned(IntMax, U32), 10, false, false, 0, -1);
  }

  /** `%lld`, `%llu` and `%ju` may print any 31-bit number for 5, or for anything else. */
  lemma WideIsUndefined(modifier: Modifier, c: char, got: nat, fmtflt: FloatFormat)
    requires (modifier == LongLong && (c == 'd' || c == 'u')) || (modifier == IntMax && c == 'u')
    requires got < 0x8000_0000
    ensures var d := Directive(PLAIN, 0, -1, modifier, c);
      && Specified(d, Argument(5)) && Yields(d, 5, got)
      && Converted(d, Argument(got), fmtflt).Some? && Reading(Converted(d, Argument(got), fmtflt).value, 10) == got
  {
    hide IntText, StandardText, Reading;
    IntTextReads(PLAIN, FetchSigned(modifier, got), 10, false, false, 0, -1);
    IntTextReads(PLAIN, FetchUnsigned(modifier, got), 10, false, true, 0, -1);
  }

  /** `%.0d` prints a 0 for 0. */
  lemma ZeroIsPrinted(fmtflt: FloatFormat)
    ensures Departs(Directive(PLAIN, 0, 0, Plain, 'd'), Argument(0), fmtflt)
  {
    hide Converted, StandardText;
    WholeConforms(Directive(PLAIN, 0, 0, Plain, 'd'), Argument(0), fmtflt);
  }

  /** `%'.6u` prints 1234 with one zero too few. */
  lemma SeparatorEatsZero(fmtflt: FloatFormat)
    ensures Departs(Directive(PLAIN.(quote := true), 0, 6, Plain, 'u'), Argument(1234), fmtflt)
  {
    hide StandardText, Converted, Digits;
    FourDigits();
    WholeConforms(Directive(PLAIN.(quote := true), 0, 6, Plain, 'u'), Argument(1234), fmtflt);
  }

  lemma FourDigits()
    ensures |Digits(1234, 10, false)| == 4
  {
    assert |Digits(1, 10, false)| == 1;
    assert |Digits(12, 10, false)| == 2;
    assert |Digits(123, 10, false)| == 3;
  }

  // ----- Widths and precisions -----

  /** The standard's width or precision: digits or a star, not both. */
  function StandardField(s: string, i: nat, k: nat, args: Args): Field
    requires i <= |s|
  {
    if i < |s| && s[i] == '*' then Field(Signed(args(k).number, U32), i + 1, k + 1)
    else
      var j := DigitsEnd(s, i);
      if Decimal(s[i..j]) > INT_MAX then TooBig else Field(Decimal(s[i..j]), j, k)
  }

  /** It is what the code reads exactly unless a star follows digits, which it then replaces. */
  lemma FieldConforms(s: string, i: nat, k: nat, args: Args)
    requires i <= |s|
    ensures var j := DigitsEnd(s, i);
      FieldAt(s, i, k, args) == StandardField(s, i, k, args)
      <==> !(i < j < |s| && s[j] == '*' && Decimal(s[i..j]) <= INT_MAX)
  {
    var j := DigitsEnd(s, i);
    if j == i {
      Laws.NoDigitsYet(s, i);
    }
  }

  /** In `%5*d` the argument's width replaces the 5, and the standard reads a 5. */
  lemma StarReplacesDigits(args: Args)
    ensures FieldAt("5*d", 0, 0, args) == Field(Signed(args(0).number, U32), 2, 1)
    ensures StandardField("5*d", 0, 0, args) == Field(5, 1, 0)
  {
    var s := "5*d";
    assert DigitsEnd(s, 1) == 1 && DigitsEnd(s, 0) == 1;
    assert s[0..1] == "5" && Decimal("") == 0 && "5"[..0] == "";
    assert Decimal("5") == 5;
  }
}
