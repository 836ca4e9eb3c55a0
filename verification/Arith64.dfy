/**
  64-bit division for a 32-bit machine without a runtime library: leading-zero count by binary
  search, shift-subtract long division with a sign-bit mask, and the signed wrappers.

  Words are integers; every place where the machine wraps is written out with `% TWO64`.
 */
module Arith64 {
  const TWO32: int := 0x1_0000_0000
  const TWO63: int := 0x8000_0000_0000_0000
  const TWO64: int := 0x1_0000_0000_0000_0000

  type u64 = x: int | 0 <= x < 0x1_0000_0000_0000_0000
  type s64 = x: int | -0x8000_0000_0000_0000 <= x < 0x8000_0000_0000_0000

  function Pow2(n: nat): (p: nat)
    ensures p >= 1
  {
    if n == 0 then 1 else 2 * Pow2(n - 1)
  }

  lemma {:induction false} Pow2Adds(m: nat, n: nat)
    ensures Pow2(m + n) == Pow2(m) * Pow2(n)
  {
    if n > 0 {
      Pow2Adds(m, n - 1);
      assert Pow2(m) * (2 * Pow2(n - 1)) == 2 * (Pow2(m) * Pow2(n - 1));
    }
  }

  lemma Pow2Values()
    ensures Pow2(1) == 2 && Pow2(2) == 4 && Pow2(4) == 16 && Pow2(8) == 256 && Pow2(16) == 0x1_0000
    ensures Pow2(32) == TWO32 && Pow2(63) == TWO63 && Pow2(64) == TWO64
  {
    assert Pow2(0) == 1 && Pow2(1) == 2 && Pow2(2) == 4;
    Doubles(2, 4);
    Doubles(4, 16);
    Doubles(8, 256);
    Doubles(16, 0x1_0000);
    Doubles(32, TWO32);
    assert Pow2(64) == 2 * Pow2(63);
  }

  lemma Doubles(n: nat, p: nat)
    requires Pow2(n) == p
    ensures Pow2(2 * n) == p * p
  {
    Pow2Adds(n, n);
  }

  lemma {:induction false} Pow2Grows(m: nat, n: nat)
    requires m <= n
    ensures Pow2(m) <= Pow2(n)
    decreases n
  {
    if m < n {
      Pow2Grows(m, n - 1);
    }
  }

  // ----- Leading zeros -----

  lemma ShiftAgain(start: nat, n: nat, b: nat, a: nat, factor: nat)
    requires a == start * Pow2(n) && factor == Pow2(b)
    ensures a * factor == start * Pow2(n + b)
  {
    hide Pow2;
    Pow2Adds(n, b);
    assert (start * Pow2(n)) * factor == start * (Pow2(n) * factor);
  }

  /** One halving of the search: if the top `b` bits are clear, count them and shift them out. */
  method ClzStep(n: nat, a: u64, b: nat, factor: int, top: int, ghost start: u64) returns (n': nat, a': u64)
    requires factor == Pow2(b) && top * factor == TWO64 && top > 0
    requires a == start * Pow2(n)
    ensures n' == if a < top then n + b else n
    ensures a' == if a < top then a * factor else a
    ensures a' == start * Pow2(n')
  {
    hide Pow2;
    n', a' := n, a;
    if a < top {
      ShiftAgain(start, n, b, a, factor);
      assert a * factor < top * factor;
      n', a' := n + b, a * factor % TWO64;
    }
  }

  /** Shifting a nonzero word left by the result brings its highest bit to bit 63. */
  method Clz(a: u64) returns (n: nat)
    ensures n <= 63
    ensures a > 0 ==> TWO63 <= a * Pow2(n) < TWO64
  {
    hide Pow2;
    Pow2Values();
    n := 0;
    var w := a;
    Pow2Zero();
    n, w := ClzStep(n, w, 32, 0x1_0000_0000, 0x1_0000_0000, a);
    n, w := ClzStep(n, w, 16, 0x1_0000, 0x1_0000_0000_0000, a);
    n, w := ClzStep(n, w, 8, 0x100, 0x100_0000_0000_0000, a);
    n, w := ClzStep(n, w, 4, 0x10, 0x1000_0000_0000_0000, a);
    n, w := ClzStep(n, w, 2, 4, 0x4000_0000_0000_0000, a);
    if w < TWO63 {
      ShiftAgain(a, n, 1, w, 2);
      n := n + 1;
    }
  }

  lemma Pow2Zero()
    ensures Pow2(0) == 1
  {
  }

  // ----- Long division -----

  function Signed(x: u64): s64 { if x >= TWO63 then x - TWO64 else x }

  function Unsigned(x: s64): u64 { if x < 0 then x + TWO64 else x }

  /** `(x << 1) | bit` in a 64-bit word. */
  function ShiftIn(x: u64, bit: int): u64
    requires 0 <= bit <= 1
  {
    (2 * x) % TWO64 + bit
  }

  /** `(s64)(b - rem - 1) >> 63` as a word: all ones or all zeros. */
  function Mask(b: u64, rem: u64): u64 {
    if Signed((b - rem - 1) % TWO64) < 0 then TWO64 - 1 else 0
  }

  /** The sign trick is the comparison rem >= b exactly when b - rem - 1 fits a signed word. */
  lemma MaskIsComparison(b: u64, rem: u64)
    ensures (Mask(b, rem) == TWO64 - 1 <==> rem >= b) <==> -TWO63 <= b - rem - 1 < TWO63
  {
    if b - rem - 1 < 0 {
      assert (b - rem - 1) % TWO64 == b - rem - 1 + TWO64;
    }
  }

  /** The next of the low `k` bits of the numerator. */
  function BitAt(num: u64, k: nat): int
    requires k >= 1
  {
    (num % Pow2(k)) / Pow2(k - 1)
  }

  /** Moving one numerator bit into the remainder. */
  lemma NextBit(num: u64, k: nat)
    requires k >= 1
    ensures var c := BitAt(num, k);
      && 0 <= c <= 1
      && num / Pow2(k - 1) == 2 * (num / Pow2(k)) + c
      && num % Pow2(k) == c * Pow2(k - 1) + num % Pow2(k - 1)
  {
    var p := Pow2(k - 1);
    assert Pow2(k) == 2 * p;
    hide Pow2;
    HalveDivision(num, p);
  }

  lemma HalveDivision(num: nat, p: nat)
    requires p >= 1
    ensures var x, y := num / (2 * p), num % (2 * p);
      && 0 <= y / p <= 1
      && num / p == 2 * x + y / p
      && y == (y / p) * p + num % p
  {
    var x, y := num / (2 * p), num % (2 * p);
    var c := if y >= p then 1 else 0;
    assert num == x * (2 * p) + y;
    DivisionUnique(y, p, c, y - c * p);
    assert x * (2 * p) == (2 * x) * p;
    assert num == (2 * x + c) * p + (y - c * p) by {
      assert (2 * x + c) * p == (2 * x) * p + c * p;
    }
    DivisionUnique(num, p, 2 * x + c, y - c * p);
  }

  lemma DivisionUnique(n: int, d: int, q: int, r: int)
    requires d > 0 && n == q * d + r && 0 <= r < d
    ensures n / d == q && n % d == r
  {
    SameQuotient(d, q, r, n / d, n % d);
  }

  lemma SameQuotient(d: int, q: int, r: int, q': int, r': int)
    requires d > 0 && 0 <= r < d && 0 <= r' < d && q * d + r == q' * d + r'
    ensures q == q' && r == r'
  {
    assert (q - q') * d == r' - r;
    MultipleApart(q - q', d);
  }

  /** A multiple of `d` is 0 or at least `d` away from it. */
  lemma MultipleApart(k: int, d: int)
    requires d > 0
    ensures k == 0 || k * d >= d || k * d <= -d
  {
    if k > 0 {
      Monotone(1, k, d, d);
    } else if k < 0 {
      Monotone(1, -k, d, d);
      assert (-k) * d == -(k * d);
    }
  }

  /** The numerator register: bits still to come on top, finished quotient bits but one below. */
  ghost predicate Register(a: u64, num: u64, k: nat, q: nat)
    requires k <= 63
  {
    a == (num % Pow2(k)) * Pow2(64 - k) + q / 2 && q < Pow2(64 - k)
  }

  /** Splitting off the top numerator bit of the register, in plain numbers. */
  lemma TopBit(c: nat, p: nat, y: nat, r: nat, h: nat)
    requires p * r == TWO63 && y < p && h < r
    ensures (c * p + y) * r + h == c * TWO63 + (y * r + h)
    ensures 0 <= y * r + h < TWO63
  {
    assert (c * p + y) * r == c * (p * r) + y * r;
    Monotone(y, p - 1, r, r);
    assert (p - 1) * r == p * r - r;
  }

  lemma PowersOfRegister(k: nat)
    requires 1 <= k <= 63
    ensures Pow2(k - 1) * Pow2(64 - k) == TWO63
    ensures Pow2(64 - (k - 1)) == 2 * Pow2(64 - k)
    ensures Pow2(k) * Pow2(64 - k) == TWO64
  {
    Pow2Adds(k - 1, 64 - k);
    Pow2Adds(k, 64 - k);
    Pow2Values();
  }

  /** Shifting it left hands out the next numerator bit and makes room for a quotient bit. */
  lemma RegisterShifts(a: u64, num: u64, k: nat, q: nat, bit: nat)
    requires 1 <= k <= 63 && Register(a, num, k, q) && bit <= 1
    ensures a / TWO63 == BitAt(num, k)
    ensures Register(ShiftIn(a, q % 2), num, k - 1, 2 * q + bit)
  {
    hide Pow2;
    var p, r := Pow2(k - 1), Pow2(64 - k);
    var c, y := BitAt(num, k), num % p;
    NextBit(num, k);
    PowersOfRegister(k);
    TopBit(c, p, y, r, q / 2);
    var low := y * r + q / 2;
    DivisionUnique(a, TWO63, c, low);
    DivisionUnique(2 * a, TWO64, c, 2 * low);
    assert y * (2 * r) == 2 * (y * r);
  }

  /** A word with more leading zeros is smaller. */
  lemma ClzOrder(num: u64, b: u64, cn: nat, cb: nat)
    requires b <= num && num * Pow2(cn) < TWO64 && TWO63 <= b * Pow2(cb)
    ensures cn <= cb
  {
    if cb < cn {
      FewerZeros(num, b, cn, cb);
    }
  }

  lemma FewerZeros(num: nat, b: nat, cn: nat, cb: nat)
    requires b <= num && cb < cn
    ensures 2 * (b * Pow2(cb)) <= num * Pow2(cn)
  {
    Pow2Grows(cb + 1, cn);
    assert b * Pow2(cb + 1) == 2 * (b * Pow2(cb));
    Monotone(b, num, Pow2(cb + 1), Pow2(cn));
  }

  lemma ClzBelow(b: u64, low: nat, c: nat, cb: nat)
    requires low <= b && low * Pow2(c) >= TWO64 && b * Pow2(cb) < TWO64
    ensures cb < c
  {
    if c <= cb {
      Pow2Grows(c, cb);
      Monotone(low, b, Pow2(c), Pow2(cb));
    }
  }

  lemma QuotientBelow(num: nat, b: nat, p: nat, x: nat)
    requires p > 0 && num * x < (b * p) * x
    ensures num / p < b
  {
    if num / p >= b {
      QuotientAtLeast(num, b, p, x);
    }
  }

  lemma QuotientAtLeast(num: nat, b: nat, p: nat, x: nat)
    requires p > 0 && num / p >= b
    ensures num * x >= (b * p) * x
  {
    DivisionIdentity(num, p);
    Monotone(b, num / p, p, p);
    Monotone(b * p, num, x, x);
  }

  /** With both words normalised by their leading zeros, the iteration count is 1 to 63. */
  lemma BitsInRange(num: u64, b: u64, cn: nat, cb: nat)
    requires 2 <= b <= num
    requires TWO63 <= num * Pow2(cn) < TWO64 && TWO63 <= b * Pow2(cb) < TWO64
    ensures cn <= cb <= 62
    ensures num / Pow2(cb - cn + 1) < b
    ensures b > TWO63 ==> cb == 0
  {
    hide Pow2;
    Pow2Values();
    ClzOrder(num, b, cn, cb);
    ClzBelow(b, 2, 63, cb);
    if b > TWO63 { ClzBelow(b, TWO63, 1, cb); }
    var t := cb - cn + 1;
    var p, x := Pow2(t), Pow2(cn);
    Pow2Adds(t, cn);
    Pow2Adds(cb, 1);
    assert (b * p) * x == b * (p * x) == (b * Pow2(cb)) * 2;
    QuotientBelow(num, b, p, x);
  }

  lemma Monotone(a: nat, b: nat, x: nat, y: nat)
    requires a <= b && x <= y
    ensures a * x <= b * y
  {
    assert a * x <= b * x;
    assert b * x <= b * y;
  }

  datatype Division = DivideByZero | Quotient(q: u64, r: u64)

  /** Quotient and remainder of any two words, or the exception the zero divisor forces. */
  method DivMod(num: u64, b: u64) returns (d: Division)
    ensures b == 0 <==> d == DivideByZero
    ensures d.Quotient? ==> num == d.q * b + d.r && d.r < b
  {
    if b > num {
      return Quotient(0, num);
    }
    if b / TWO32 == 0 {
      if b == 0 {
        return DivideByZero;
      }
      if b == 1 {
        return Quotient(num, 0);
      }
      if num / TWO32 == 0 {
        return Quotient((num % TWO32) / (b % TWO32), (num % TWO32) % (b % TWO32));
      }
    }
    d := LongDivision(num, b);
  }

  /** With `k` numerator bits to come, `q` and `rem` divide the bits already taken. */
  ghost predicate Partial(num: int, b: int, k: nat, q: int, rem: int) {
    0 <= rem < b && num / Pow2(k) == q * b + rem
  }

  /** Taking in one more bit; shifting the remainder loses none and the mask test stays in range. */
  lemma PartialNext(num: u64, b: u64, k: nat, q: nat, rem: u64)
    requires 1 <= k && Partial(num, b, k, q, rem)
    requires b > TWO63 ==> k == 1 && q == 0 && b <= num
    ensures 0 <= BitAt(num, k) <= 1
    ensures var r := 2 * rem + BitAt(num, k);
      && 0 <= r < TWO64 && -TWO63 <= b - r - 1 < TWO63 && r == ShiftIn(rem, BitAt(num, k))
      && if r >= b then Partial(num, b, k - 1, 2 * q + 1, r - b) else Partial(num, b, k - 1, 2 * q, r)
  {
    NextBit(num, k);
    var c := BitAt(num, k);
    RemainderFits(num, b, k, q, rem, c);
    QuotientGrows(q, b, rem, c);
  }

  lemma QuotientGrows(q: nat, b: nat, rem: nat, c: nat)
    ensures 2 * (q * b + rem) + c == (2 * q) * b + (2 * rem + c)
    ensures 2 * (q * b + rem) + c == (2 * q + 1) * b + (2 * rem + c - b)
  {
  }

  lemma RemainderFits(num: u64, b: u64, bits: nat, q: nat, rem: u64, c: nat)
    requires bits >= 1 && b >= 1 && rem < b && c <= 1
    requires b > TWO63 ==> bits == 1 && q == 0 && b <= num
    requires num / Pow2(bits - 1) == 2 * (num / Pow2(bits)) + c && num / Pow2(bits) == q * b + rem
    ensures 2 * rem + c < TWO64
    ensures -TWO63 <= b - (2 * rem + c) - 1 < TWO63
  {
    if b > TWO63 {
      Pow2Zero();
      assert num / 1 == num;
      assert q * b == 0;
    }
  }

  method LongDivision(num: u64, b: u64) returns (d: Division)
    requires 2 <= b <= num
    ensures d.Quotient? && num == d.q * b + d.r && d.r < b
  {
    hide Pow2, Register, Partial;
    var cb := Clz(b);
    var cn := Clz(num);
    BitsInRange(num, b, cn, cb);
    var bits := cb - cn + 1;
    Pow2Positive(bits);
    QuotientNonNegative(num, Pow2(bits));
    var rem: u64 := num / Pow2(bits);
    var a: u64 := num * Pow2(64 - bits) % TWO64;
    RegisterStarts(num, bits);
    PartialStarts(num, b, bits, rem);
    var wrap: u64;
    ghost var q: nat;
    rem, a, wrap, q := DivideBits(num, b, bits, rem, a);
    RegisterEnds(a, num, q, b, rem);
    d := Quotient(ShiftIn(a, wrap % 2), rem);
  }

  /** The loop: one numerator bit per iteration. */
  method DivideBits(ghost num: u64, b: u64, total: nat, rem0: u64, a0: u64)
    returns (rem: u64, a: u64, wrap: u64, ghost q: nat)
    requires 1 <= total <= 63 && (b > TWO63 ==> total == 1 && b <= num)
    requires Partial(num, b, total, 0, rem0) && Register(a0, num, total, 0)
    ensures Partial(num, b, 0, q, rem) && Register(a, num, 0, q) && wrap % 2 == q % 2
  {
    hide Pow2, Register, Partial, BitAt, ShiftIn;
    var bits := total;
    rem, a, wrap, q := rem0, a0, 0, 0;
    while bits > 0
      invariant 0 <= bits <= total
      invariant bits == total ==> q == 0
      invariant Partial(num, b, bits, q, rem) && Register(a, num, bits, q)
      invariant wrap % 2 == q % 2
    {
      PartialNext(num, b, bits, q, rem);
      RegisterShifts(a, num, bits, q, 0);
      RegisterShifts(a, num, bits, q, 1);
      rem := ShiftIn(rem, a / TWO63);
      a := ShiftIn(a, wrap % 2);
      wrap := CompareBits(b, rem);
      bits := bits - 1;
      if wrap != 0 {
        rem := rem - b;
        q := 2 * q + 1;
      } else {
        q := 2 * q;
      }
    }
  }

  /** The branch-free comparison of the loop; `rem -= b & mask` then subtracts b or nothing. */
  method CompareBits(b: u64, rem: u64) returns (wrap: u64)
    requires -TWO63 <= b - rem - 1 < TWO63
    ensures wrap == if rem >= b then TWO64 - 1 else 0
  {
    MaskIsComparison(b, rem);
    wrap := Mask(b, rem);
  }

  lemma PartialStarts(num: u64, b: u64, k: nat, rem: int)
    requires rem == num / Pow2(k) < b
    ensures Partial(num, b, k, 0, rem)
  {
    hide Pow2;
    QuotientNonNegative(num, Pow2(k));
  }

  lemma QuotientNonNegative(n: int, d: int)
    requires n >= 0 && d > 0
    ensures 0 <= n / d <= n
  {
    if n / d < 0 {
      NegativeQuotient(n, d);
    } else {
      DivisionIdentity(n, d);
      Monotone(n / d, n / d, 1, d);
    }
  }

  lemma NegativeQuotient(n: int, d: int)
    requires d > 0 && n / d < 0
    ensures n < 0
  {
    DivisionIdentity(n, d);
    Monotone(1, -(n / d), d, d);
    assert (-(n / d)) * d == -((n / d) * d);
  }

  lemma RegisterStarts(num: u64, bits: nat)
    requires 1 <= bits <= 63
    ensures Register(num * Pow2(64 - bits) % TWO64, num, bits, 0)
  {
    hide Pow2;
    PowersOfRegister(bits);
    Pow2Positive(64 - bits);
    var p, r := Pow2(bits), Pow2(64 - bits);
    var x, y := num / p, num % p;
    assert num == x * p + y;
    assert (x * p + y) * r == x * (p * r) + y * r;
    Monotone(y, p - 1, r, r);
    assert (p - 1) * r == p * r - r;
    DivisionUnique(num * r, TWO64, x, y * r);
  }

  lemma Pow2Positive(n: nat)
    ensures Pow2(n) > 0
  {
  }

  lemma RegisterEnds(a: u64, num: u64, q: nat, b: u64, rem: u64)
    requires Register(a, num, 0, q) && Partial(num, b, 0, q, rem)
    ensures ShiftIn(a, q % 2) == q && num == q * b + rem && rem < b
  {
    hide Pow2;
    Pow2Zero();
    assert num % 1 == 0 && num / 1 == num;
    Monotone(q, q, 1, b);
  }

  // ----- Signed division -----

  /** `arith64_neg`: complement and increment, when the sign word is negative. */
  function Neg(a: u64, negative: bool): u64 {
    if negative then ((TWO64 - 1 - a) + 1) % TWO64 else a
  }

  function Abs(a: s64): u64 { Neg(Unsigned(a), a < 0) }

  function Magnitude(a: int): nat { if a < 0 then -a else a }

  /** Division as C defines it: truncated towards zero, the remainder with the numerator's sign. */
  predicate Truncated(a: int, b: int, q: int, r: int) {
    && b != 0 && a == q * b + r
    && Magnitude(r) < Magnitude(b)
    && (r == 0 || (r < 0 <==> a < 0))
  }

  function TruncQuot(a: int, b: int): int
    requires b != 0
  {
    var q := Magnitude(a) / Magnitude(b);
    if (a < 0) != (b < 0) then -q else q
  }

  function TruncRem(a: int, b: int): int
    requires b != 0
  {
    var r := Magnitude(a) % Magnitude(b);
    if a < 0 then -r else r
  }

  /** Signing the quotient and remainder of the magnitudes gives C's, and no other pair is C's. */
  lemma TruncatedExactly(a: int, b: int, q: int, r: int)
    requires b != 0
    ensures Truncated(a, b, q, r) <==> q == TruncQuot(a, b) && r == TruncRem(a, b)
  {
    hide Truncated, TruncQuot, TruncRem;
    SignedMagnitudes(a, b);
    if Truncated(a, b, q, r) {
      TruncatedUnique(a, b, q, r, TruncQuot(a, b), TruncRem(a, b));
    }
  }

  lemma SignedMagnitudes(a: int, b: int)
    requires b != 0
    ensures Truncated(a, b, TruncQuot(a, b), TruncRem(a, b))
  {
    hide Truncated;
    DivisionIdentity(Magnitude(a), Magnitude(b));
    SignsOfDivision(a, b, Magnitude(a) / Magnitude(b), Magnitude(a) % Magnitude(b));
  }

  lemma DivisionIdentity(n: int, d: int)
    requires d > 0
    ensures n == (n / d) * d + n % d && 0 <= n % d < d
  {
  }

  lemma SignsOfDivision(a: int, b: int, q: int, r: int)
    requires b != 0 && q >= 0 && Magnitude(a) == q * Magnitude(b) + r && 0 <= r < Magnitude(b)
    ensures Truncated(a, b, if (a < 0) != (b < 0) then -q else q, if a < 0 then -r else r)
  {
    if b < 0 {
      assert q * (-b) == (-q) * b;
    } else {
      assert (-q) * b == -(q * b);
    }
  }

  lemma TruncatedUnique(a: int, b: int, q: int, r: int, q': int, r': int)
    requires Truncated(a, b, q, r) && Truncated(a, b, q', r')
    ensures q == q' && r == r'
  {
    var d := Magnitude(b);
    assert (q - q') * b == r' - r;
    assert (if b < 0 then q' - q else q - q') * d == (q - q') * b;
    MultipleApart(if b < 0 then q' - q else q - q', d);
    assert -d < r' - r < d;
  }

  /** A quotient of word magnitudes is a word; only LLONG_MIN by 1 or -1 reaches 2^63. */
  lemma QuotientFits(a: nat, b: nat, q: nat, r: nat)
    requires b >= 1 && a == q * b + r && a <= TWO63
    ensures q <= TWO63 && (q == TWO63 ==> a == TWO63 && b == 1)
  {
    Monotone(q, q, 1, b);
    if b >= 2 {
      Monotone(q, q, 2, b);
    }
  }

  datatype SignedDivision = SignedByZero | SignedResult(value: s64)

  lemma AbsIsMagnitude(a: s64)
    ensures Abs(a) == Magnitude(a)
  {
  }

  /** C's quotient for every pair but one: LLONG_MIN / -1 wraps to LLONG_MIN. */
  method DivDi3(a: s64, b: s64) returns (d: SignedDivision)
    ensures b == 0 <==> d == SignedByZero
    ensures b != 0 ==> (d.value == TruncQuot(a, b) <==> !(a == -TWO63 && b == -1))
    ensures a == -TWO63 && b == -1 ==> d == SignedResult(-TWO63)
  {
    AbsIsMagnitude(a);
    AbsIsMagnitude(b);
    var u := DivMod(Abs(a), Abs(b));
    if u.DivideByZero? {
      return SignedByZero;
    }
    DivisionUnique(Magnitude(a), Magnitude(b), u.q, u.r);
    QuotientFits(Magnitude(a), Magnitude(b), u.q, u.r);
    d := SignedResult(Signed(Neg(u.q, (a < 0) != (b < 0))));
  }

  /** C's remainder for every pair; LLONG_MIN % -1 is 0. */
  method ModDi3(a: s64, b: s64) returns (d: SignedDivision)
    ensures b == 0 <==> d == SignedByZero
    ensures b != 0 ==> d.value == TruncRem(a, b)
  {
    hide Abs, Neg, Signed, TruncRem;
    AbsIsMagnitude(a);
    AbsIsMagnitude(b);
    var u := DivMod(Abs(a), Abs(b));
    if u.DivideByZero? {
      return SignedByZero;
    }
    SignedRemainder(a, b, u.q, u.r);
    d := SignedResult(Signed(Neg(u.r, a < 0)));
  }

  /** A remainder of magnitudes is below 2^63, so giving it the sign of `a` never wraps. */
  lemma SignedRemainder(a: s64, b: s64, q: nat, r: u64)
    requires b != 0 && Magnitude(a) == q * Magnitude(b) + r && r < Magnitude(b)
    ensures Signed(Neg(r, a < 0)) == TruncRem(a, b)
  {
    DivisionUnique(Magnitude(a), Magnitude(b), q, r);
  }
}
