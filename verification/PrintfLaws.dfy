/**
  Facts about the specified text that the formatter's loops rely on: padding one character at a time,
  digits from the back of a buffer, separators from the left, numbers and flags as they are read.
 */
module PrintfLaws {
  import opened PrintfSpec
  import Arith = Arith64
  import opened Common

  lemma RepNone(ch: char, out: string)
    ensures out + Rep(ch, 0) == out
  {
  }

  lemma RepSnoc(out: string, ch: char, n: nat)
    ensures out + Rep(ch, n) + [ch] == out + Rep(ch, n + 1)
  {
    assert Rep(ch, n) + [ch] == Rep(ch, n + 1);
  }

  lemma RepClamped(ch: char, n: int)
    ensures Rep(ch, Max(n, 0)) == Rep(ch, n)
  {
  }

  lemma ClippedLength(s: CString, precision: int, n: nat)
    requires n <= |s| && (precision == -1 ==> n == |s|) && precision >= -1
    requires precision >= 0 ==> n <= precision && (n < precision ==> n == |s|)
    ensures Clipped(s, precision) == s[..n]
  {
  }

  lemma TakeSnoc(lead: string, s: string, v: nat)
    requires v < |s|
    ensures lead + s[..v] + [s[v]] == lead + s[..v + 1]
  {
    assert s[..v] + [s[v]] == s[..v + 1];
  }

  lemma PaddedParts(f: Flags, s: string, width: int, pad: int, out: string)
    requires pad == if f.minus then -Max(width - |s|, 0) else Max(width - |s|, 0)
    ensures out + Rep(' ', pad) + s + Rep(' ', -pad) == out + Padded(f, s, width)
  {
    if f.minus {
      assert Rep(' ', pad) == "";
    } else {
      assert Rep(' ', -pad) == "";
    }
  }

  lemma TakeNone(lead: string, s: string)
    ensures lead + s[..0] == lead
  {
  }

  // ----- Digits -----

  function PowerOfEight(n: nat): nat { if n == 0 then 1 else 8 * PowerOfEight(n - 1) }

  lemma PowersOfEight()
    ensures PowerOfEight(11) == 0x2_0000_0000
  {
    assert PowerOfEight(4) == 4096;
    assert PowerOfEight(8) == 0x100_0000;
  }

  lemma {:induction false} DigitsLength(u: nat, base: nat, up: bool, n: nat)
    requires IsBase(base) && 1 <= n && u < PowerOfEight(n)
    ensures 1 <= |Digits(u, base, up)| <= n
    decreases n
  {
    if u >= base {
      DigitsLength(u / base, base, up, n - 1);
    }
  }

  lemma DigitsStep(u: nat, base: nat, up: bool, done: string)
    requires IsBase(base)
    ensures u / base < u || u == 0
    ensures u / base == 0 ==> Digits(u, base, up) == [DigitChar(u % base, up)]
    ensures u / base != 0 ==> Digits(u, base, up) == Digits(u / base, base, up) + [DigitChar(u % base, up)]
    ensures u / base != 0 ==>
      Digits(u, base, up) + done == Digits(u / base, base, up) + ([DigitChar(u % base, up)] + done)
  {
    hide DigitChar;
    QuotientZero(u, base);
    if u / base != 0 {
      Append(Digits(u / base, base, up), [DigitChar(u % base, up)], done);
    }
  }

  lemma Append(a: string, b: string, c: string)
    ensures a + b + c == a + (b + c)
  {
  }

  lemma QuotientZero(u: nat, base: nat)
    requires base > 1
    ensures u / base == 0 <==> u < base
    ensures u / base == 0 ==> u % base == u
    ensures u / base < u || u == 0
  {
    Arith.DivisionIdentity(u, base);
    if u < base {
      Arith.DivisionUnique(u, base, 0, u);
    }
    if u / base == 0 {
      assert u == u % base;
    }
    Arith.Monotone(u / base, u / base, 2, base);
  }

  // ----- Separators -----

  /** What has been printed after `j` digits of `d`. */
  function FirstDigits(d: string, j: nat, commas: bool): string
    requires j <= |d|
  {
    if j == 0 then ""
    else FirstDigits(d, j - 1, commas) + [d[j - 1]] + if commas && CommaAfter(|d| - j) then "," else ""
  }

  predicate CommaAfter(left: nat) { left > 0 && left % 3 == 0 }

  lemma NoDigits(out: string, d: string, commas: bool)
    ensures out + FirstDigits(d, 0, commas) == out
  {
  }

  lemma NextDigit(out: string, d: string, j: nat, commas: bool)
    requires 1 <= j <= |d|
    ensures var sent := out + FirstDigits(d, j - 1, commas) + [d[j - 1]];
            out + FirstDigits(d, j, commas) == if commas && CommaAfter(|d| - j) then sent + "," else sent
  {
  }

  lemma {:induction false} PlainDigits(d: string, j: nat)
    requires j <= |d|
    ensures FirstDigits(d, j, false) == d[..j]
  {
    if j > 0 {
      PlainDigits(d, j - 1);
    }
  }

  lemma {:induction false} GroupedDigits(d: string, e: string, j: nat)
    requires |e| + 3 <= |d| && e == d[..|d| - 3] && j <= |e| && |e| > 0
    ensures FirstDigits(d, j, true) == FirstDigits(e, j, true) + if j == |e| then "," else ""
  {
    if j > 0 {
      GroupedDigits(d, e, j - 1);
      SameDigit(FirstDigits(e, j - 1, true), d[j - 1], |d| - j, |e| - j);
    } else {
      assert FirstDigits(e, 0, true) + "" == "";
    }
  }

  lemma SameDigit(before: string, c: char, dLeft: nat, eLeft: nat)
    requires dLeft == eLeft + 3
    ensures before + "" + [c] + (if CommaAfter(dLeft) then "," else "")
         == before + [c] + (if CommaAfter(eLeft) then "," else "") + (if eLeft == 0 then "," else "")
  {
    assert dLeft % 3 == eLeft % 3;
  }

  lemma {:induction false} ShortDigits(d: string, j: nat)
    requires j <= |d| <= 3
    ensures FirstDigits(d, j, true) == d[..j]
  {
    if j > 0 {
      ShortDigits(d, j - 1);
    }
  }

  lemma LastThree(d: string)
    requires |d| > 3
    ensures FirstDigits(d, |d|, true) == FirstDigits(d, |d| - 3, true) + d[|d| - 3..]
  {
    hide FirstDigits;
    var n := |d|;
    NoComma(d, n - 2);
    NoComma(d, n - 1);
    NoComma(d, n);
    assert d[n - 3..] == [d[n - 3]] + [d[n - 2]] + [d[n - 1]];
    AppendThree(FirstDigits(d, n - 3, true), [d[n - 3]], [d[n - 2]], [d[n - 1]]);
  }

  lemma NoComma(d: string, j: nat)
    requires 1 <= j <= |d| < j + 3
    ensures FirstDigits(d, j, true) == FirstDigits(d, j - 1, true) + [d[j - 1]]
  {
    var before := FirstDigits(d, j - 1, true);
    assert before + [d[j - 1]] + "" == before + [d[j - 1]];
  }

  lemma AppendThree(s: string, a: string, b: string, c: string)
    ensures s + a + b + c == s + (a + b + c)
  {
  }

  /** Printing from the left with a comma whenever a multiple of three is left is grouping from the right. */
  lemma {:induction false} GroupsAgree(d: string)
    ensures FirstDigits(d, |d|, true) == Grouped(d)
  {
    if |d| <= 3 {
      ShortDigits(d, |d|);
    } else {
      var e := d[..|d| - 3];
      GroupsAgree(e);
      GroupedDigits(d, e, |e|);
      LastThree(d);
    }
  }

  lemma AllDigits(d: string, separators: int)
    requires separators == 0 || separators == NumSep(|d|)
    ensures FirstDigits(d, |d|, separators > 0) == if separators == 0 then d else Grouped(d)
  {
    PlainDigits(d, |d|);
    assert d[..|d|] == d;
    GroupsAgree(d);
  }

  lemma GroupedNothing(d: string)
    ensures NumSep(|d|) == 0 ==> Grouped(d) == d
  {
  }

  lemma AssembledParts(f: Flags, precision: int, sign: string, prefix: string, digits: string,
                       spaces: int, zeros: int, lead: int, fill: int, out: string)
    requires spaces >= 0
    requires lead == if f.minus then -spaces else if PadsWithZeros(f, precision) then 0 else spaces
    requires fill == zeros + if PadsWithZeros(f, precision) then spaces else 0
    ensures out + Rep(' ', lead) + sign + prefix + Rep('0', fill) + digits + Rep(' ', -lead)
         == out + Assembled(f, PadsWithZeros(f, precision), sign, prefix, digits, spaces, zeros)
  {
    var a := Rep(' ', if f.minus || PadsWithZeros(f, precision) then 0 else spaces);
    var b := Rep(' ', if f.minus then spaces else 0);
    assert a == Rep(' ', lead) && b == Rep(' ', -lead);
    AppendSix(out, a, sign, prefix, Rep('0', fill), digits, b);
  }

  lemma AppendSix(out: string, a: string, b: string, c: string, d: string, e: string, g: string)
    ensures out + a + b + c + d + e + g == out + (a + b + c + d + e + g)
  {
  }

  /** The integer routine's locals are those of the specification. */
  lemma FmtIntParts(f: Flags, value: int, base: nat, up: bool, unsigned: bool, width: int, precision0: int, precision: int,
                    separators: int, spaces: int, zeros: int, lead: int, fill: int, out: string)
    requires IsBase(base)
    requires
      var u := Printed(value, unsigned);
      var pos, sign, prefix := |Digits(u, base, up)|, SignText(f, value, unsigned), PrefixText(f, u, base, up);
      && precision == DigitsWanted(f, u, base, precision0, pos)
      && separators == (if f.quote then NumSep(pos) else 0)
      && spaces == SpacePad(width, precision, pos, separators, |sign| + |prefix|)
      && zeros == ZeroPad(precision, pos, separators)
      && lead == (if f.minus then -spaces else if PadsWithZeros(f, precision0) then 0 else spaces)
      && fill == zeros + if PadsWithZeros(f, precision0) then spaces else 0
    ensures
      var u := Printed(value, unsigned);
      var digits := Digits(u, base, up);
      out + Rep(' ', lead) + SignText(f, value, unsigned) + PrefixText(f, u, base, up) + Rep('0', fill)
        + (if separators == 0 then digits else Grouped(digits)) + Rep(' ', -lead)
      == out + IntText(f, value, base, up, unsigned, width, precision0)
  {
    hide Digits, Grouped, NumSep, SignText, PrefixText, DigitsWanted, ZeroPad, PadsWithZeros, Assembled;
    var u := Printed(value, unsigned);
    var digits := Digits(u, base, up);
    GroupedNothing(digits);
    AssembledParts(f, precision0, SignText(f, value, unsigned), PrefixText(f, u, base, up),
      if f.quote then Grouped(digits) else digits, spaces, zeros, lead, fill, out);
  }

  // ----- Reading a directive one character at a time -----

  lemma FlagRead(s: string, p: nat, i: nat)
    requires p <= i < |s|
    ensures IsFlag(s[i]) ==> FlagsEnd(s, i) == FlagsEnd(s, i + 1)
    ensures !IsFlag(s[i]) ==> FlagsEnd(s, i) == i
    ensures FlagsIn(s[p..i + 1]) ==
      var f, c := FlagsIn(s[p..i]), s[i];
      Flags(f.minus || c == '-', f.plus || c == '+', f.space || c == ' ', f.num || c == '#', f.zero || c == '0', f.quote || c == '\'')
  {
    assert s[p..i + 1] == s[p..i] + [s[i]];
  }

  lemma NoDigitsYet(s: string, i: nat)
    requires i <= |s|
    ensures Decimal(s[i..i]) == 0
  {
  }

  lemma DigitRead(s: string, a: nat, i: nat)
    requires a <= i < |s| && DigitsEnd(s, a) == DigitsEnd(s, i)
    ensures IsDigit(s[i]) ==> DigitsEnd(s, i) == DigitsEnd(s, i + 1)
    ensures !IsDigit(s[i]) ==> DigitsEnd(s, i) == i
    ensures Decimal(s[a..i + 1]) == 10 * Decimal(s[a..i]) + CharToInt(s[i])
    ensures IsDigit(s[i]) && Decimal(s[a..i + 1]) > INT_MAX ==> Decimal(s[a..DigitsEnd(s, a)]) > INT_MAX
    ensures CharToInt(s[i]) <= 9
  {
    assert s[a..i + 1][..i - a] == s[a..i];
    if IsDigit(s[i]) {
      MoreDigits(s, a, i + 1, DigitsEnd(s, a));
    }
  }

  /** Further digits never make a number smaller: it is too big as soon as some prefix is. */
  lemma {:induction false} MoreDigits(s: string, a: nat, i: nat, j: nat)
    requires a <= i <= j <= |s|
    ensures Decimal(s[a..i]) <= Decimal(s[a..j])
    decreases j - i
  {
    if i < j {
      MoreDigits(s, a, i, j - 1);
      assert s[a..j][..j - 1 - a] == s[a..j - 1];
    }
  }
}
