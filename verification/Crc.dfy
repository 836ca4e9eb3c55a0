/**
  The CRC-32 of compressed data (section 8 of RFC 1952), computed two table nibbles per byte.
 */
module Crc {
  type Byte = bv8

  const POLYNOMIAL: bv32 := 0xEDB88320

  const tab: seq<bv32> := [
    0x00000000, 0x1DB71064, 0x3B6E20C8, 0x26D930AC, 0x76DC4190,
    0x6B6B51F4, 0x4DB26158, 0x5005713C, 0xEDB88320, 0xF00F9344,
    0xD6D6A3E8, 0xCB61B38C, 0x9B64C2B0, 0x86D3D2D4, 0xA00AE278,
    0xBDBDF21C]

  function Xor(a: bv32, b: bv32): bv32 { a ^ b }

  function Wide(b: Byte): bv32 { b as bv32 }

  lemma XorAssociates(a: bv32, b: bv32, c: bv32)
    ensures Xor(Xor(a, b), c) == Xor(a, Xor(b, c))
  {
  }

  /** Xor with `c` can be undone from either side. */
  lemma XorInjective(a: bv32, b: bv32, c: bv32)
    ensures Xor(a, c) == Xor(b, c) ==> a == b
    ensures Xor(c, a) == Xor(c, b) ==> a == b
    ensures Xor(a, 0) == a
  {
    assert (a ^ c) ^ c == a && (b ^ c) ^ c == b;
    assert c ^ (c ^ a) == a && c ^ (c ^ b) == b;
  }

  // ----- The definition, one bit at a time -----

  /** Division by the reflected polynomial, one bit. */
  function BitStep(crc: bv32): bv32 {
    if crc & 1 != 0 then (crc >> 1) ^ POLYNOMIAL else crc >> 1
  }

  function Steps(crc: bv32, n: nat): bv32 {
    if n == 0 then crc else BitStep(Steps(crc, n - 1))
  }

  /** The register after the bytes of `s`. */
  function Register(s: seq<Byte>, crc: bv32): bv32 {
    if s == [] then crc else Steps(Xor(Register(s[..|s| - 1], crc), Wide(s[|s| - 1])), 8)
  }

  function Crc32(s: seq<Byte>): bv32 { Xor(Register(s, 0xFFFFFFFF), 0xFFFFFFFF) }

  lemma {:induction false} StepsAdd(crc: bv32, m: nat, n: nat)
    ensures Steps(Steps(crc, m), n) == Steps(crc, m + n)
  {
    hide BitStep;
    if n > 0 {
      StepsAdd(crc, m, n - 1);
    }
  }

  lemma FourSteps(crc: bv32)
    ensures Steps(crc, 4) == BitStep(BitStep(BitStep(BitStep(crc))))
  {
    hide BitStep;
    assert Steps(crc, 1) == BitStep(Steps(crc, 0));
    assert Steps(crc, 2) == BitStep(Steps(crc, 1));
    assert Steps(crc, 3) == BitStep(Steps(crc, 2));
  }

  // ----- The nibble table -----

  /** Entry `x` of the table is four bit steps of `x`. */
  lemma TableEntry(x: bv32)
    requires x < 16
    ensures x as int < 16 && tab[x] == BitStep(BitStep(BitStep(BitStep(x))))
  {
    NibbleValues(x);
  }

  lemma NibbleValues(x: bv32)
    requires x < 16
    ensures x == 0 || x == 1 || x == 2 || x == 3 || x == 4 || x == 5 || x == 6 || x == 7
         || x == 8 || x == 9 || x == 10 || x == 11 || x == 12 || x == 13 || x == 14 || x == 15
  {
  }

  function Half(x: bv32): bv32 { x >> 1 }

  /** `x` shifted down by `k` bits. */
  function Down(x: bv32, k: nat): bv32 {
    if k == 0 then x else Half(Down(x, k - 1))
  }

  lemma {:induction false} DownAdds(x: bv32, m: nat, n: nat)
    ensures Down(Down(x, m), n) == Down(x, m + n)
  {
    hide Half;
    if n > 0 {
      DownAdds(x, m, n - 1);
    }
  }

  lemma DownValues(x: bv32)
    ensures Down(x, 1) == x >> 1 && Down(x, 2) == x >> 2 && Down(x, 3) == x >> 3 && Down(x, 4) == x >> 4
    ensures Down(x, 8) == x >> 8
  {
    HalvesAgain(x);
    HalvesAgain(x >> 4);
    FourHalves(x);
    FourHalves(x >> 4);
    DownAdds(x, 4, 4);
    EightDown(x);
  }

  lemma FourHalves(x: bv32)
    ensures Down(x, 1) == Half(x) && Down(x, 2) == Half(Half(x)) && Down(x, 3) == Half(Half(Half(x)))
    ensures Down(x, 4) == Half(Half(Half(Half(x))))
  {
    hide Half;
    assert Down(x, 1) == Half(Down(x, 0));
    assert Down(x, 2) == Half(Down(x, 1));
    assert Down(x, 3) == Half(Down(x, 2));
  }

  lemma HalvesAgain(x: bv32)
    ensures Half(x) == x >> 1 && Half(x >> 1) == x >> 2 && Half(x >> 2) == x >> 3 && Half(x >> 3) == x >> 4
  {
  }

  lemma EightDown(x: bv32)
    ensures (x >> 4) >> 4 == x >> 8
  {
  }

  predicate Clear(x: bv32, mask: bv32) { x & mask == 0 }

  /** Bits above the lowest only move down: they pass a step untouched. */
  lemma HighBitsPass(low: bv32, high: bv32)
    requires Clear(high, 1)
    ensures BitStep(Xor(low, high)) == Xor(BitStep(low), Down(high, 1))
  {
    assert BitStep(low ^ high) == BitStep(low) ^ (high >> 1) by {
      RawHighBitsPass(low, high);
    }
    hide BitStep;
  }

  lemma RawHighBitsPass(low: bv32, high: bv32)
    requires high & 1 == 0
    ensures BitStep(low ^ high) == BitStep(low) ^ (high >> 1)
  {
  }

  lemma FourHighBitsPass(low: bv32, high: bv32)
    requires Clear(high, 0x0F)
    ensures Steps(Xor(low, high), 4) == Xor(Steps(low, 4), Down(high, 4))
  {
    hide BitStep, Steps, Xor, Clear, Down;
    FourSteps(low);
    FourSteps(Xor(low, high));
    DownAdds(high, 1, 1);
    DownAdds(high, 2, 1);
    DownAdds(high, 3, 1);
    ClearBelow(high);
    HighBitsPass(low, high);
    HighBitsPass(BitStep(low), Down(high, 1));
    HighBitsPass(BitStep(BitStep(low)), Down(high, 2));
    HighBitsPass(BitStep(BitStep(BitStep(low))), Down(high, 3));
  }

  lemma ClearBelow(high: bv32)
    requires Clear(high, 0x0F)
    ensures Clear(high, 1) && Clear(Down(high, 1), 1) && Clear(Down(high, 2), 1) && Clear(Down(high, 3), 1)
  {
    hide Down;
    DownValues(high);
    RawClearBelow(high);
  }

  lemma RawClearBelow(high: bv32)
    requires high & 0x0F == 0
    ensures high & 1 == 0 && (high >> 1) & 1 == 0 && (high >> 2) & 1 == 0 && (high >> 3) & 1 == 0
  {
  }

  /** The step of the routine: look the low nibble up, shift the rest down. */
  function NibbleStep(crc: bv32): bv32 {
    LowNibble(crc);
    tab[crc & 0x0F] ^ (crc >> 4)
  }

  lemma LowNibble(crc: bv32)
    ensures crc & 0x0F < 16 && (crc & 0x0F) as int < 16
  {
  }

  /** One table look-up replaces four bit steps, whatever the register holds. */
  lemma NibbleStepIsFourSteps(crc: bv32)
    ensures NibbleStep(crc) == Steps(crc, 4)
  {
    hide BitStep, Steps, Xor, Clear, Down, NibbleStep;
    var low, high := crc & 0x0F, crc & 0xFFFFFFF0;
    SplitNibble(crc, low, high);
    NibbleStepLooksUp(crc);
    TableEntry(low);
    FourSteps(low);
    FourHighBitsPass(low, high);
  }

  lemma SplitNibble(crc: bv32, low: bv32, high: bv32)
    requires low == crc & 0x0F && high == crc & 0xFFFFFFF0
    ensures Xor(low, high) == crc && Clear(high, 0x0F) && low < 16
    ensures Down(high, 4) == Down(crc, 4)
  {
    hide Down;
    DownValues(crc);
    DownValues(high);
    RawSplit(crc);
    LowNibble(crc);
  }

  lemma NibbleStepLooksUp(crc: bv32)
    ensures crc & 0x0F < 16 && NibbleStep(crc) == Xor(tab[crc & 0x0F], Down(crc, 4))
  {
    hide Down;
    DownValues(crc);
    LowNibble(crc);
  }

  lemma RawSplit(crc: bv32)
    ensures (crc & 0x0F) ^ (crc & 0xFFFFFFF0) == crc
    ensures (crc & 0xFFFFFFF0) & 0x0F == 0 && (crc & 0xFFFFFFF0) >> 4 == crc >> 4
  {
  }

  lemma RegisterSnoc(s: seq<Byte>, b: Byte, crc: bv32)
    ensures Register(s + [b], crc) == Steps(Xor(Register(s, crc), Wide(b)), 8)
  {
    hide Steps, Xor, Wide;
    assert (s + [b])[..|s|] == s;
  }

  /** The whole routine. A zero length is answered before the register is set up. */
  method TinfCrc32(data: array<Byte>, length: int) returns (r: bv32)
    requires 0 <= length <= data.Length && length < 0x1_0000_0000
    ensures r == Crc32(data[..length])
  {
    hide Steps, Xor, Wide, NibbleStep, Register;
    var crc := 0xFFFFFFFF;
    if length == 0 {
      EmptyCrc();
      return 0;
    }
    var i := 0;
    assert crc == Register([], 0xFFFFFFFF) by { EmptyCrc(); }
    while i < length
      invariant 0 <= i <= length
      invariant crc == Register(data[..i], 0xFFFFFFFF)
    {
      RegisterSnoc(data[..i], data[i], 0xFFFFFFFF);
      assert data[..i + 1] == data[..i] + [data[i]];
      crc := Xor(crc, Wide(data[i]));
      NibbleStepIsFourSteps(crc);
      StepsAdd(crc, 4, 4);
      crc := NibbleStep(crc);
      NibbleStepIsFourSteps(crc);
      crc := NibbleStep(crc);
      i := i + 1;
    }
    return Xor(crc, 0xFFFFFFFF);
  }

  lemma EmptyCrc()
    ensures Register([], 0xFFFFFFFF) == 0xFFFFFFFF && Crc32([]) == 0
  {
  }

  function EightSteps(crc: bv32): bv32 {
    BitStep(BitStep(BitStep(BitStep(BitStep(BitStep(BitStep(BitStep(crc))))))))
  }

  lemma EightStepsIs(crc: bv32)
    ensures EightSteps(crc) == Steps(crc, 8)
  {
    hide BitStep, Steps;
    FourSteps(crc);
    FourSteps(Steps(crc, 4));
    StepsAdd(crc, 4, 4);
  }

  lemma ByteFed(s: seq<Byte>, b: Byte, before: bv32, after: bv32)
    requires Register(s, 0xFFFFFFFF) == before && EightSteps(before ^ (b as bv32)) == after
    ensures Register(s + [b], 0xFFFFFFFF) == after
  {
    hide Steps, EightSteps, Register;
    RegisterSnoc(s, b, 0xFFFFFFFF);
    EightStepsIs(before ^ (b as bv32));
  }

  /** The check value of CRC-32: that of the digits from 1 to 9. */
  lemma CheckValue()
    ensures Crc32([0x31, 0x32, 0x33, 0x34, 0x35, 0x36, 0x37, 0x38, 0x39]) == 0xCBF43926
  {
    hide Register;
    EmptyCrc();
    var s: seq<Byte> := [];
    ByteFed(s, 0x31, 0xFFFFFFFF, 0x7C231048);
    s := s + [0x31];
    ByteFed(s, 0x32, 0x7C231048, 0xB0ACBB32);
    s := s + [0x32];
    ByteFed(s, 0x33, 0xB0ACBB32, 0x77B79C2D);
    s := s + [0x33];
    ByteFed(s, 0x34, 0x77B79C2D, 0x641C1F5C);
    s := s + [0x34];
    ByteFed(s, 0x35, 0x641C1F5C, 0x340AC5E3);
    s := s + [0x35];
    ByteFed(s, 0x36, 0x340AC5E3, 0xF68D2C9E);
    s := s + [0x36];
    ByteFed(s, 0x37, 0xF68D2C9E, 0xAFFC9660);
    s := s + [0x37];
    ByteFed(s, 0x38, 0xAFFC9660, 0x651F2550);
    s := s + [0x38];
    ByteFed(s, 0x39, 0x651F2550, 0x340BC6D9);
    s := s + [0x39];
    assert s == [0x31, 0x32, 0x33, 0x34, 0x35, 0x36, 0x37, 0x38, 0x39];
  }

  // ----- What the checksum is for -----

  /** A bit step loses nothing: the bit shifted out decides the top bit. */
  lemma BitStepInjective(a: bv32, b: bv32)
    requires BitStep(a) == BitStep(b)
    ensures a == b
  {
  }

  lemma {:induction false} StepsInjective(a: bv32, b: bv32, n: nat)
    requires Steps(a, n) == Steps(b, n)
    ensures a == b
  {
    hide BitStep;
    if n > 0 {
      BitStepInjective(Steps(a, n - 1), Steps(b, n - 1));
      StepsInjective(a, b, n - 1);
    }
  }

  lemma {:induction false} RegisterInjective(s: seq<Byte>, a: bv32, b: bv32)
    requires Register(s, a) == Register(s, b)
    ensures a == b
  {
    hide Steps, Xor, Wide;
    if s != [] {
      var init, last := s[..|s| - 1], Wide(s[|s| - 1]);
      StepsInjective(Xor(Register(init, a), last), Xor(Register(init, b), last), 8);
      XorInjective(Register(init, a), Register(init, b), last);
      RegisterInjective(init, a, b);
    }
  }

  lemma {:induction false} RegisterAppend(s: seq<Byte>, t: seq<Byte>, crc: bv32)
    ensures Register(s + t, crc) == Register(t, Register(s, crc))
  {
    hide Steps, Xor, Wide;
    if t == [] {
      assert s + t == s;
    } else {
      assert (s + t)[..|s + t| - 1] == s + t[..|t| - 1];
      RegisterAppend(s, t[..|t| - 1], crc);
    }
  }

  /** Byte `b` in position `n` of a little-endian word. */
  function Placed(b: Byte, n: nat): bv32
    requires n < 4
  {
    var w := b as bv32;
    if n == 0 then w else if n == 1 then w << 8 else if n == 2 then w << 16 else w << 24
  }

  function Word(s: seq<Byte>): bv32
    requires |s| <= 4
  {
    if s == [] then 0 else Xor(Word(s[..|s| - 1]), Placed(s[|s| - 1], |s| - 1))
  }

  lemma EightHighBitsPass(low: bv32, high: bv32)
    requires Clear(high, 0xFF)
    ensures Steps(Xor(low, high), 8) == Xor(Steps(low, 8), Down(high, 8))
  {
    hide Steps, Xor, Clear, Down;
    assert Clear(high, 0x0F) && Clear(Down(high, 4), 0x0F) && Down(Down(high, 4), 4) == Down(high, 8) by {
      DownByNibbles(high);
    }
    FourHighBitsPass(low, high);
    FourHighBitsPass(Steps(low, 4), Down(high, 4));
    StepsAdd(low, 4, 4);
    StepsAdd(Xor(low, high), 4, 4);
  }

  lemma DownByNibbles(high: bv32)
    requires Clear(high, 0xFF)
    ensures Clear(high, 0x0F) && Clear(Down(high, 4), 0x0F) && Down(Down(high, 4), 4) == Down(high, 8)
  {
    hide Down;
    DownValues(high);
    DownAdds(high, 4, 4);
    assert high & 0x0F == 0 && (high >> 4) & 0x0F == 0;
  }

  lemma PlacedShifts(b: Byte, n: nat)
    requires 1 <= n < 4
    ensures Clear(Placed(b, n), 0xFF) && Down(Placed(b, n), 8) == Placed(b, n - 1)
  {
    hide Down;
    DownValues(Placed(b, n));
  }

  /** A byte placed `n` bytes up reaches the bottom of the register after `8 * n` steps. */
  lemma {:induction false} PlacedPasses(low: bv32, b: Byte, n: nat)
    requires n < 4
    ensures Steps(Xor(low, Placed(b, n)), 8 * n) == Xor(Steps(low, 8 * n), Wide(b))
    decreases n
  {
    if n == 0 {
      hide Xor, BitStep;
    } else {
      hide Placed, Steps, Xor, Clear, Down, Wide;
      PlacedShifts(b, n);
      EightHighBitsPass(low, Placed(b, n));
      PlacedPasses(Steps(low, 8), b, n - 1);
      StepsAdd(low, 8, 8 * n - 8);
      StepsAdd(Xor(low, Placed(b, n)), 8, 8 * n - 8);
    }
  }

  /** Up to four bytes fed one at a time act like their word put into the register at once. */
  lemma {:induction false} RegisterOfWord(s: seq<Byte>, crc: bv32)
    requires |s| <= 4
    ensures Register(s, crc) == Steps(Xor(crc, Word(s)), 8 * |s|)
  {
    hide Placed, Xor, Wide, BitStep;
    if s == [] {
      XorInjective(crc, crc, crc);
    } else {
      var init, n := s[..|s| - 1], |s| - 1;
      RegisterOfWord(init, crc);
      assert Register(s, crc) == Steps(Xor(Register(init, crc), Wide(s[n])), 8);
      assert Word(s) == Xor(Word(init), Placed(s[n], n));
      hide Steps;
      PlacedPasses(Xor(crc, Word(init)), s[n], n);
      StepsAdd(Xor(Xor(crc, Word(init)), Placed(s[n], n)), 8 * n, 8);
      XorAssociates(crc, Word(init), Placed(s[n], n));
    }
  }

  /** The word of `n` bytes leaves the places from `n` up empty. */
  predicate Fits(w: bv32, n: nat)
    requires n < 4
  {
    Clear(w, if n == 0 then 0xFFFFFFFF else if n == 1 then 0xFFFFFF00 else if n == 2 then 0xFFFF0000 else 0xFF000000)
  }

  lemma FitsPlaced(w: bv32, b: Byte, n: nat)
    requires n < 3 && Fits(w, n)
    ensures Fits(Xor(w, Placed(b, n)), n + 1)
  {
    if n == 0 {
      assert w == 0 && Placed(b, 0) & 0xFFFFFF00 == 0;
    } else if n == 1 {
      assert Placed(b, 1) & 0xFFFF0000 == 0;
    } else {
      assert Placed(b, 2) & 0xFF000000 == 0;
    }
  }

  lemma {:induction false} WordFits(s: seq<Byte>)
    requires |s| < 4
    ensures Fits(Word(s), |s|)
  {
    if s == [] {
      assert Fits(0, 0);
    } else {
      hide Fits, Xor, Placed;
      WordFits(s[..|s| - 1]);
      FitsPlaced(Word(s[..|s| - 1]), s[|s| - 1], |s| - 1);
    }
  }

  lemma PlacedSeparates(a: bv32, b: bv32, x: Byte, y: Byte, n: nat)
    requires n < 4 && Fits(a, n) && Fits(b, n) && Xor(a, Placed(x, n)) == Xor(b, Placed(y, n))
    ensures x == y && a == b
  {
  }

  lemma {:induction false} WordInjective(x: seq<Byte>, y: seq<Byte>)
    requires |x| == |y| <= 4 && Word(x) == Word(y)
    ensures x == y
  {
    hide Fits, Xor, Placed;
    if x != [] {
      var n := |x| - 1;
      WordFits(x[..n]);
      WordFits(y[..n]);
      PlacedSeparates(Word(x[..n]), Word(y[..n]), x[n], y[n], n);
      WordInjective(x[..n], y[..n]);
      assert x == x[..n] + [x[n]] && y == y[..n] + [y[n]];
    }
  }

  /** Any damage confined to four consecutive bytes changes the checksum. */
  lemma BurstDetected(pre: seq<Byte>, x: seq<Byte>, y: seq<Byte>, post: seq<Byte>)
    requires |x| == |y| <= 4
    ensures Crc32(pre + x + post) == Crc32(pre + y + post) <==> x == y
  {
    hide Register, Steps, Word, Xor;
    if Crc32(pre + x + post) == Crc32(pre + y + post) {
      var c := Register(pre, 0xFFFFFFFF);
      XorInjective(Register(pre + x + post, 0xFFFFFFFF), Register(pre + y + post, 0xFFFFFFFF), 0xFFFFFFFF);
      RegisterAppend(pre + x, post, 0xFFFFFFFF);
      RegisterAppend(pre + y, post, 0xFFFFFFFF);
      RegisterInjective(post, Register(pre + x, 0xFFFFFFFF), Register(pre + y, 0xFFFFFFFF));
      RegisterAppend(pre, x, 0xFFFFFFFF);
      RegisterAppend(pre, y, 0xFFFFFFFF);
      RegisterOfWord(x, c);
      RegisterOfWord(y, c);
      StepsInjective(Xor(c, Word(x)), Xor(c, Word(y)), 8 * |x|);
      XorInjective(Word(x), Word(y), c);
      WordInjective(x, y);
    }
  }
}
