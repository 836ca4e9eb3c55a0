/**
  The boot ROM scrambler, written once in C (the loader, to descramble a ROM image) and once in
  Python (the build, to scramble an executable), and the round trip between the two.
 */
module Scramble {
  import opened Arith64

  type Byte = bv8

  /** The three shift registers and the running output bit. The 0/1 locals of the code are bools. */
  datatype Regs = Regs(t: bv16, u: bv16, v: bv16, x: bool)

  const SEED := Regs(0x2953, 0xd9c2, 0x3ff1, true)

  predicate Bit0(reg: bv16) { reg & 1 != 0 }

  predicate Bit1(reg: bv16) { (reg >> 1) & 1 != 0 }

  function Xor(a: bool, b: bool): bool { a != b }

  /** What one clock mixes into the output bit, from the two low bits of each register. */
  function Mix(t0: bool, t1: bool, u0: bool, u1: bool, v0: bool): bool {
    Xor(Xor(Xor(t1, v0), u0 || u1), Xor(Xor(t0, u1), v0) && Xor(t0, u0))
  }

  function Shift(reg: bv16, taps: bv16): bv16 {
    if Bit0(reg) then (reg >> 1) ^ taps else reg >> 1
  }

  /** One clock: `t` always shifts, `u` when t ends in 0, `v` when t and u end alike. */
  function Clock(r: Regs): Regs {
    Regs(Shift(r.t, 0xa740),
         if !Bit0(r.t) then Shift(r.u, 0xfb10) else r.u,
         if Bit0(r.t) == Bit0(r.u) then Shift(r.v, 0xb3d0) else r.v,
         Xor(r.x, Mix(Bit0(r.t), Bit1(r.t), Bit0(r.u), Bit1(r.u), Bit0(r.v))))
  }

  function RegsAfter(n: nat): Regs {
    if n == 0 then SEED else Clock(RegsAfter(n - 1))
  }

  /** Output bit `n` of the generator, as a number. */
  function Output(n: nat): (b: nat)
    ensures b <= 1
  {
    if RegsAfter(n).x then 1 else 0
  }

  /** The accumulator after `n` clocks: eight bits wide, whether a char or an integer modulo 256. */
  function AccAfter(n: nat): (acc: nat)
    ensures acc < 256
  {
    if n == 0 then 0 else (2 * AccAfter(n - 1) + Output(n)) % 256
  }

  /** Byte `k` of the keystream, which depends on nothing but `k`. */
  function KeyByte(k: nat): Byte { AccAfter(8 * k + 8) as bv8 }

  /** The `j` output bits after clock `n`, first one on top. */
  function BitsFrom(n: nat, j: nat): nat {
    if j == 0 then 0 else 2 * BitsFrom(n, j - 1) + Output(n + j)
  }

  /** Each keystream byte is its own eight output bits: nothing of earlier bytes is left in it. */
  lemma KeyByteBits(k: nat)
    ensures AccAfter(8 * k + 8) == BitsFrom(8 * k, 8)
  {
    hide AccAfter, BitsFrom, Pow2;
    LowBits(8 * k, 8);
    Pow2Values();
    SmallModulo(AccAfter(8 * k + 8), 256);
  }

  lemma SmallModulo(x: nat, d: nat)
    requires x < d
    ensures x % d == x
  {
  }

  lemma {:induction false} LowBits(n: nat, j: nat)
    requires j <= 8
    ensures BitsFrom(n, j) < Pow2(j) && AccAfter(n + j) % Pow2(j) == BitsFrom(n, j)
  {
    if j == 0 {
      assert AccAfter(n + 0) % 1 == 0;
    } else {
      LowBits(n, j - 1);
      ShiftModulo(AccAfter(n + j - 1), Output(n + j), j);
    }
  }

  lemma ShiftModulo(acc: nat, o: nat, j: nat)
    requires 1 <= j <= 8 && o <= 1
    ensures ((2 * acc + o) % 256) % Pow2(j) == 2 * (acc % Pow2(j - 1)) + o
  {
    var p, m := Pow2(j - 1), Pow2(8 - j);
    assert Pow2(j) == 2 * p;
    assert 2 * p * m == 256 by {
      Pow2Adds(j, 8 - j);
      Pow2Values();
    }
    hide Pow2;
    ReduceTwice(acc, o, p, m);
  }

  lemma ReduceTwice(acc: nat, o: nat, p: nat, m: nat)
    requires p >= 1 && 2 * p * m == 256 && o <= 1
    ensures ((2 * acc + o) % 256) % (2 * p) == 2 * (acc % p) + o
  {
    var x, q, r, c := 2 * acc + o, acc / p, acc % p, (2 * acc + o) / 256;
    DivisionIdentity(acc, p);
    DivisionIdentity(x, 256);
    assert x % 256 == (q - m * c) * (2 * p) + (2 * r + o) by {
      assert q * (2 * p) == 2 * (q * p);
      assert (m * c) * (2 * p) == (2 * p * m) * c;
      assert (q - m * c) * (2 * p) == q * (2 * p) - (m * c) * (2 * p);
    }
    DivisionUnique(x % 256, 2 * p, q - m * c, 2 * r + o);
  }

  // ----- What the generator does -----

  function Unshift(reg: bv16, taps: bv16): bv16 {
    if reg & 0x8000 != 0 then ((reg ^ taps) << 1) | 1 else reg << 1
  }

  /** The register the clocks came from, given what was mixed into the output bit. */
  function Unclock(n: Regs): Regs {
    var t := Unshift(n.t, 0xa740);
    var u := if t & 1 == 0 then Unshift(n.u, 0xfb10) else n.u;
    var v := if t & 1 == u & 1 then Unshift(n.v, 0xb3d0) else n.v;
    Regs(t, u, v, n.x != Mix(t & 1 == 1, t & 2 == 2, u & 1 == 1, u & 2 == 2, v & 1 == 1))
  }

  /** The top tap shows whether a one was shifted out. */
  lemma UnshiftShift(reg: bv16, taps: bv16)
    requires taps & 0x8000 != 0
    ensures Unshift(Shift(reg, taps), taps) == reg
  {
    if Bit0(reg) {
      TappedBack(reg, taps);
    } else {
      PlainBack(reg);
    }
  }

  lemma TappedBack(reg: bv16, taps: bv16)
    requires taps & 0x8000 != 0 && reg & 1 != 0
    ensures ((reg >> 1) ^ taps) & 0x8000 != 0 && ((((reg >> 1) ^ taps) ^ taps) << 1) | 1 == reg
  {
  }

  lemma PlainBack(reg: bv16)
    requires reg & 1 == 0
    ensures (reg >> 1) & 0x8000 == 0 && (reg >> 1) << 1 == reg
  {
  }

  lemma LowBitTests(reg: bv16)
    ensures (reg & 1 == 1 <==> Bit0(reg)) && (reg & 2 == 2 <==> Bit1(reg)) && (reg & 1 == 0 <==> !Bit0(reg))
  {
  }

  lemma LowBitsAlike(a: bv16, b: bv16)
    ensures a & 1 == b & 1 <==> Bit0(a) == Bit0(b)
  {
  }

  lemma TopTaps()
    ensures 0xa740 & 0x8000 != 0 as bv16 && 0xfb10 & 0x8000 != 0 as bv16 && 0xb3d0 & 0x8000 != 0 as bv16
  {
  }

  /** Every clock can be undone: no two states of the generator ever run together. */
  lemma ClockUndone(r: Regs)
    ensures Unclock(Clock(r)) == r
  {
    hide Shift, Unshift, Bit0, Bit1, Mix;
    TopTaps();
    UnshiftShift(r.t, 0xa740);
    UnshiftShift(r.u, 0xfb10);
    UnshiftShift(r.v, 0xb3d0);
    LowBitTests(r.t);
    LowBitTests(r.u);
    LowBitTests(r.v);
    LowBitsAlike(r.t, r.u);
  }

  lemma ClockFrom(n: nat, r: Regs, next: Regs)
    requires RegsAfter(n) == r && Clock(r) == next
    ensures RegsAfter(n + 1) == next && Output(n + 1) == if next.x then 1 else 0
  {
    hide Clock;
  }

  lemma EightBits(n: nat)
    ensures BitsFrom(n, 8) == 128 * Output(n + 1) + 64 * Output(n + 2) + 32 * Output(n + 3) + 16 * Output(n + 4)
                              + 8 * Output(n + 5) + 4 * Output(n + 6) + 2 * Output(n + 7) + Output(n + 8)
  {
    hide Output;
    assert BitsFrom(n, 4) == 8 * Output(n + 1) + 4 * Output(n + 2) + 2 * Output(n + 3) + Output(n + 4) by {
      assert BitsFrom(n, 2) == 2 * Output(n + 1) + Output(n + 2) by {
        assert BitsFrom(n, 1) == 2 * BitsFrom(n, 0) + Output(n + 1);
      }
      assert BitsFrom(n, 3) == 2 * BitsFrom(n, 2) + Output(n + 3);
    }
    assert BitsFrom(n, 5) == 2 * BitsFrom(n, 4) + Output(n + 5);
    assert BitsFrom(n, 6) == 2 * BitsFrom(n, 5) + Output(n + 6);
    assert BitsFrom(n, 7) == 2 * BitsFrom(n, 6) + Output(n + 7);
  }

  lemma FirstKeyByte()
    ensures RegsAfter(8) == Regs(0xe3f2, 0x66b0, 0x5614, true) && KeyByte(0) == 0x89
  {
    hide RegsAfter, Output, KeyByte, AccAfter, BitsFrom;
    Start();
    ClockFrom(0, Regs(0x2953, 0xd9c2, 0x3ff1, true), Regs(0xb3e9, 0xd9c2, 0x3ff1, true));
    ClockFrom(1, Regs(0xb3e9, 0xd9c2, 0x3ff1, true), Regs(0xfeb4, 0xd9c2, 0x3ff1, false));
    ClockFrom(2, Regs(0xfeb4, 0xd9c2, 0x3ff1, false), Regs(0x7f5a, 0x6ce1, 0xac28, false));
    ClockFrom(3, Regs(0x7f5a, 0x6ce1, 0xac28, false), Regs(0x3fad, 0xcd60, 0xac28, false));
    ClockFrom(4, Regs(0x3fad, 0xcd60, 0xac28, false), Regs(0xb896, 0xcd60, 0xac28, true));
    ClockFrom(5, Regs(0xb896, 0xcd60, 0xac28, true), Regs(0x5c4b, 0x66b0, 0x5614, false));
    ClockFrom(6, Regs(0x5c4b, 0x66b0, 0x5614, false), Regs(0x8965, 0x66b0, 0x5614, false));
    ClockFrom(7, Regs(0x8965, 0x66b0, 0x5614, false), Regs(0xe3f2, 0x66b0, 0x5614, true));
    EightBits(0);
    KeyByteBits(0);
    ByteDone(0);
  }

  lemma SecondKeyByte()
    requires RegsAfter(8) == Regs(0xe3f2, 0x66b0, 0x5614, true)
    ensures RegsAfter(16) == Regs(0xcba6, 0x0cd6, 0xb912, false) && KeyByte(1) == 0x7e
  {
    hide RegsAfter, Output, KeyByte, AccAfter, BitsFrom;
    ClockFrom(8, Regs(0xe3f2, 0x66b0, 0x5614, true), Regs(0x71f9, 0x3358, 0x2b0a, false));
    ClockFrom(9, Regs(0x71f9, 0x3358, 0x2b0a, false), Regs(0x9fbc, 0x3358, 0x2b0a, true));
    ClockFrom(10, Regs(0x9fbc, 0x3358, 0x2b0a, true), Regs(0x4fde, 0x19ac, 0x1585, true));
    ClockFrom(11, Regs(0x4fde, 0x19ac, 0x1585, true), Regs(0x27ef, 0x0cd6, 0xb912, true));
    ClockFrom(12, Regs(0x27ef, 0x0cd6, 0xb912, true), Regs(0xb4b7, 0x0cd6, 0xb912, true));
    ClockFrom(13, Regs(0xb4b7, 0x0cd6, 0xb912, true), Regs(0xfd1b, 0x0cd6, 0xb912, true));
    ClockFrom(14, Regs(0xfd1b, 0x0cd6, 0xb912, true), Regs(0xd9cd, 0x0cd6, 0xb912, true));
    ClockFrom(15, Regs(0xd9cd, 0x0cd6, 0xb912, true), Regs(0xcba6, 0x0cd6, 0xb912, false));
    EightBits(8);
    KeyByteBits(1);
    ByteDone(1);
  }

  /** The generator after sixteen clocks, and the first two bytes of the keystream. */
  lemma FirstKeyBytes()
    ensures RegsAfter(16) == Regs(0xcba6, 0x0cd6, 0xb912, false)
    ensures KeyByte(0) == 0x89 && KeyByte(1) == 0x7e
  {
    hide RegsAfter, KeyByte;
    FirstKeyByte();
    SecondKeyByte();
  }

  function Scrambled(data: seq<Byte>): (r: seq<Byte>)
    ensures |r| == |data|
  {
    seq(|data|, i requires 0 <= i < |data| => data[i] ^ KeyByte(i))
  }

  /** Scrambling is its own inverse, so one routine serves both directions. */
  lemma ScrambledTwice(data: seq<Byte>)
    ensures Scrambled(Scrambled(data)) == data
  {
    hide KeyByte;
    forall i | 0 <= i < |data| ensures Scrambled(Scrambled(data))[i] == data[i] {
      XorTwice(data[i], KeyByte(i));
    }
  }

  lemma XorTwice(a: bv8, k: bv8)
    ensures (a ^ k) ^ k == a
    ensures a ^ k == a <==> k == 0
  {
  }

  // ----- The two programs -----

  /** The C routine: the counter and the accumulator are unsigned chars. */
  method Descrambler(data: array<Byte>)
    modifies data
    ensures data[..] == Scrambled(old(data[..]))
  {
    hide KeyByte, RegsAfter, AccAfter, Clock, Output;
    Start();
    var acc, nacc := 0, 0;
    var r := SEED;
    var it := 0;
    while it < data.Length
      invariant 0 <= it <= data.Length && 0 <= nacc < 8
      invariant it == data.Length ==> nacc == 0
      invariant r == RegsAfter(8 * it + nacc) && acc == AccAfter(8 * it + nacc)
      invariant forall i :: 0 <= i < it ==> data[i] == old(data[i]) ^ KeyByte(i)
      invariant forall i :: it <= i < data.Length ==> data[i] == old(data[i])
      decreases data.Length - it, 8 - nacc
    {
      OneClock(8 * it + nacc);
      r := ClockC(r);
      nacc := (nacc + 1) % 256;
      acc := (2 * acc + if r.x then 1 else 0) % 256;
      if nacc == 8 {
        ByteDone(it);
        data[it] := data[it] ^ (acc as bv8);
        it := it + 1;
        nacc := 0;
      }
    }
  }

  method ShiftOne(reg: bv16, taps: bv16) returns (n: bv16)
    ensures n == Shift(reg, taps)
  {
    n := reg >> 1;
    if Bit0(reg) {
      n := n ^ taps;
    }
  }

  /** One pass of the C loop over the registers. */
  method ClockC(r: Regs) returns (n: Regs)
    ensures n == Clock(r)
  {
    hide Shift, Bit0, Bit1;
    var t0, t1, u0, u1, v0 := Bit0(r.t), Bit1(r.t), Bit0(r.u), Bit1(r.u), Bit0(r.v);
    var t, u, v, x := r.t, r.u, r.v, r.x;
    x := Xor(x, Xor(t1, v0));
    x := Xor(x, u0 || u1);
    x := Xor(x, Xor(Xor(t0, u1), v0) && Xor(t0, u0));
    if t0 == u0 {
      v := ShiftOne(v, 0xb3d0);
    }
    if !t0 {
      u := ShiftOne(u, 0xfb10);
    }
    t := ShiftOne(t, 0xa740);
    n := Regs(t, u, v, x);
  }

  lemma Start()
    ensures RegsAfter(0) == SEED && AccAfter(0) == 0
  {
  }

  lemma OneClock(n: nat)
    ensures RegsAfter(n + 1) == Clock(RegsAfter(n))
    ensures AccAfter(n + 1) == (2 * AccAfter(n) + if RegsAfter(n + 1).x then 1 else 0) % 256
  {
  }

  lemma ByteDone(k: nat)
    ensures AccAfter(8 * k + 8) < 256 && KeyByte(k) == AccAfter(8 * k + 8) as bv8
  {
  }

  /** Python's registers are unbounded integers; 32 bits are twice what they ever need. */
  datatype WideRegs = WideRegs(t: bv32, u: bv32, v: bv32, x: bool)

  predicate Same(wide: bv32, narrow: bv16) { wide == narrow as bv32 }

  predicate SameRegs(w: WideRegs, r: Regs) {
    Same(w.t, r.t) && Same(w.u, r.u) && Same(w.v, r.v) && w.x == r.x
  }

  predicate WideBit0(reg: bv32) { reg & 1 != 0 }

  predicate WideBit1(reg: bv32) { (reg >> 1) & 1 != 0 }

  /** Shifting and tapping never leaves 16 bits, so nothing the C types would cut off appears. */
  lemma SameShift(w: bv32, n: bv16, wideTaps: bv32, taps: bv16)
    requires Same(w, n) && Same(wideTaps, taps)
    ensures Same(w >> 1, n >> 1) && Same((w >> 1) ^ wideTaps, (n >> 1) ^ taps)
  {
  }

  lemma SameBits(w: bv32, n: bv16)
    requires Same(w, n)
    ensures WideBit0(w) == Bit0(n) && WideBit1(w) == Bit1(n)
  {
  }

  lemma SameConstants()
    ensures Same(0xB3D0, 0xb3d0) && Same(0xFB10, 0xfb10) && Same(0xA740, 0xa740)
    ensures SameRegs(WideRegs(0x2953, 0xD9C2, 0x3FF1, true), SEED)
  {
  }

  method PythonShiftOne(reg: bv32, taps: bv32, ghost narrow: bv16, ghost narrowTaps: bv16) returns (n: bv32)
    requires Same(reg, narrow) && Same(taps, narrowTaps)
    ensures Same(n, Shift(narrow, narrowTaps))
  {
    hide Same, Bit0, Bit1, WideBit0, WideBit1;
    SameShift(reg, narrow, taps, narrowTaps);
    SameBits(reg, narrow);
    n := reg >> 1;
    if WideBit0(reg) {
      n := n ^ taps;
    }
  }

  method PythonClock(w: WideRegs, ghost r: Regs) returns (n: WideRegs)
    requires SameRegs(w, r)
    ensures SameRegs(n, Clock(r))
  {
    hide Same, Shift, Bit0, Bit1, WideBit0, WideBit1;
    SameConstants();
    SameBits(w.t, r.t);
    SameBits(w.u, r.u);
    SameBits(w.v, r.v);
    var t0, t1, u0, u1, v0 := WideBit0(w.t), WideBit1(w.t), WideBit0(w.u), WideBit1(w.u), WideBit0(w.v);
    var t, u, v, x := w.t, w.u, w.v, w.x;
    x := Xor(x, Xor(t1, v0));
    x := Xor(x, u0 || u1);
    x := Xor(x, Xor(Xor(t0, u1), v0) && Xor(t0, u0));
    if t0 == u0 {
      v := PythonShiftOne(v, 0xB3D0, r.v, 0xb3d0);
    }
    if !t0 {
      u := PythonShiftOne(u, 0xFB10, r.u, 0xfb10);
    }
    t := PythonShiftOne(t, 0xA740, r.t, 0xa740);
    n := WideRegs(t, u, v, x);
  }

  /** The Python routine. */
  method PythonScramble(data: array<Byte>)
    modifies data
    ensures data[..] == Scrambled(old(data[..]))
  {
    hide KeyByte, RegsAfter, AccAfter, Clock, Output, Same;
    Start();
    SameConstants();
    var acc, nacc := 0, 0;
    var w := WideRegs(0x2953, 0xD9C2, 0x3FF1, true);
    var it := 0;
    while it < data.Length
      invariant 0 <= it <= data.Length && 0 <= nacc < 8
      invariant it == data.Length ==> nacc == 0
      invariant SameRegs(w, RegsAfter(8 * it + nacc)) && acc == AccAfter(8 * it + nacc)
      invariant forall i :: 0 <= i < it ==> data[i] == old(data[i]) ^ KeyByte(i)
      invariant forall i :: it <= i < data.Length ==> data[i] == old(data[i])
      decreases data.Length - it, 8 - nacc
    {
      OneClock(8 * it + nacc);
      w := PythonClock(w, RegsAfter(8 * it + nacc));
      nacc := (nacc + 1) % 256;
      acc := (acc * 2 + if w.x then 1 else 0) % 256;
      if nacc == 8 {
        ByteDone(it);
        data[it] := data[it] ^ (acc as bv8);
        nacc := 0;
        it := it + 1;
      }
    }
  }

  // ----- From executable to ROM and back -----

  const PREFIX: int := 0x700
  const DECRYPT_START: int := 0x100
  const DECRYPT_END: int := 0x1AFF00
  const INJECT_AT: int := 0x800

  /** The build: scramble behind zeros standing for the first boot stage, then drop them. */
  function ScrambledExecutable(exe: seq<Byte>): (r: seq<Byte>)
    ensures |r| == |exe|
  {
    Scrambled(seq(PREFIX, _ => 0) + exe)[PREFIX..]
  }

  /** Replacing the second boot stage of a ROM image; an image too short for it grows. */
  function Injected(rom: seq<Byte>, sexe: seq<Byte>): (r: seq<Byte>)
    requires INJECT_AT <= |rom|
    ensures |r| >= |rom| && |r| >= INJECT_AT + |sexe|
  {
    rom[..INJECT_AT] + sexe + if INJECT_AT + |sexe| <= |rom| then rom[INJECT_AT + |sexe|..] else []
  }

  /** The loader: descramble the coded part of the image in place. */
  function Loaded(rom: seq<Byte>): (r: seq<Byte>)
    requires |rom| >= DECRYPT_END
    ensures |r| == |rom|
  {
    rom[..DECRYPT_START] + Scrambled(rom[DECRYPT_START..DECRYPT_END]) + rom[DECRYPT_END..]
  }

  /** The keystream byte that meets byte `i` of the executable, in the build and in the loader. */
  function ExecutableKey(i: nat): Byte { KeyByte(PREFIX + i) }

  lemma ScrambledExecutableByte(exe: seq<Byte>, i: nat)
    requires i < |exe|
    ensures ScrambledExecutable(exe)[i] == exe[i] ^ ExecutableKey(i)
  {
    hide KeyByte;
    var padded := seq(PREFIX, _ => 0) + exe;
    assert padded[PREFIX + i] == exe[i];
    assert Scrambled(padded)[PREFIX + i] == padded[PREFIX + i] ^ KeyByte(PREFIX + i);
  }

  lemma LoadedAt(rom: seq<Byte>, i: nat)
    requires |rom| >= DECRYPT_END && INJECT_AT + i < |rom|
    ensures Loaded(rom)[INJECT_AT + i] ==
      if INJECT_AT + i < DECRYPT_END then rom[INJECT_AT + i] ^ ExecutableKey(i) else rom[INJECT_AT + i]
  {
    hide KeyByte, Scrambled;
    var coded := rom[DECRYPT_START..DECRYPT_END];
    MiddleIndex(rom[..DECRYPT_START], Scrambled(coded), rom[DECRYPT_END..], INJECT_AT + i);
    if INJECT_AT + i < DECRYPT_END {
      ScrambledByte(coded, PREFIX + i);
    }
  }

  lemma ScrambledByte(data: seq<Byte>, k: nat)
    requires k < |data|
    ensures Scrambled(data)[k] == data[k] ^ KeyByte(k)
  {
    hide KeyByte;
  }

  lemma MiddleIndex(a: seq<Byte>, b: seq<Byte>, c: seq<Byte>, k: nat)
    requires |a| <= k < |a| + |b| + |c|
    ensures (a + b + c)[k] == if k < |a| + |b| then b[k - |a|] else c[k - |a| - |b|]
  {
  }

  lemma LoadedKeyed(rom: seq<Byte>, exe: seq<Byte>, i: nat)
    requires |rom| >= DECRYPT_END && i < |exe|
    ensures Loaded(Injected(rom, ScrambledExecutable(exe)))[INJECT_AT + i] ==
      if INJECT_AT + i < DECRYPT_END then exe[i] else exe[i] ^ ExecutableKey(i)
  {
    hide KeyByte, Loaded, ScrambledExecutable, ExecutableKey;
    var image := Injected(rom, ScrambledExecutable(exe));
    ScrambledExecutableByte(exe, i);
    LoadedAt(image, i);
    XorTwice(exe[i], ExecutableKey(i));
    assert image[INJECT_AT + i] == ScrambledExecutable(exe)[i];
  }

  lemma LoadedByte(rom: seq<Byte>, exe: seq<Byte>, i: nat)
    requires |rom| >= 0x1AFF00 && i < |exe|
    ensures Loaded(Injected(rom, ScrambledExecutable(exe)))[0x800 + i] ==
      if 0x800 + i < 0x1AFF00 then exe[i] else exe[i] ^ KeyByte(0x700 + i)
  {
    hide KeyByte, Loaded, ScrambledExecutable, Injected;
    LoadedKeyed(rom, exe, i);
  }

  /**
    The loader gives back the executable byte for byte exactly if every byte the image puts at or
    past 0x1AFF00 happens to meet a zero keystream byte; in particular whenever it ends there.
   */
  lemma RoundTrip(rom: seq<Byte>, exe: seq<Byte>)
    requires |rom| >= 0x1AFF00
    ensures Loaded(Injected(rom, ScrambledExecutable(exe)))[0x800..0x800 + |exe|] == exe
       <==> forall k :: 0x1AFE00 <= k < 0x700 + |exe| ==> KeyByte(k) == 0
    ensures 0x800 + |exe| <= 0x1AFF00 ==>
      Loaded(Injected(rom, ScrambledExecutable(exe)))[0x800..0x800 + |exe|] == exe
  {
    hide KeyByte, Loaded, Injected, ScrambledExecutable;
    var loaded := Loaded(Injected(rom, ScrambledExecutable(exe)));
    var back := loaded[0x800..0x800 + |exe|];
    forall i | 0 <= i < |exe|
      ensures back[i] == exe[i] <==> (0x800 + i < 0x1AFF00 || KeyByte(0x700 + i) == 0)
    {
      LoadedByte(rom, exe, i);
      XorTwice(exe[i], KeyByte(0x700 + i));
      assert back[i] == loaded[0x800 + i];
    }
    if back == exe {
      forall k | 0x1AFE00 <= k < 0x700 + |exe| ensures KeyByte(k) == 0 {
        assert back[k - 0x700] == exe[k - 0x700];
      }
    }
  }
}
