/** SplitMix64 of `risepir-feed/src/lib.rs`: why distinct account ids never share an address. */
module Rng {
  import opened Words
  import Fnv

  const GAMMA: u64 := 0x9E37_79B9_7F4A_7C15
  const MIX_A: u64 := 0xBF58_476D_1CE4_E5B9
  const MIX_B: u64 := 0x94D0_49BB_1331_11EB
  const SHIFT_A: nat := 30
  const SHIFT_B: nat := 27
  const SHIFT_C: nat := 31
  const ADDR_DOMAIN: u64 := 0x6D6F_636B_5F61_6464

  function WrappingAdd(x: u64, y: u64): u64 {
    (x + y) % TWO_64
  }

  function WrappingMul(x: u64, y: u64): u64 {
    (x * y) % TWO_64
  }

  function ShiftRight(z: nat, s: nat): (r: nat)
    ensures r <= z
    decreases s
  {
    if s == 0 then z else ShiftRight(z / 2, s - 1)
  }

  /** `z ^ (z >> s)`. */
  function XorShift(z: u64, s: nat): u64 {
    ShiftFits(z, s);
    Xor(z, ShiftRight(z, s))
  }

  lemma ShiftFits(z: u64, s: nat)
    ensures Xor(z, ShiftRight(z, s)) < TWO_64
  {
    hide Xor, Or, And, Pow2, ShiftRight;
    Pow2Values();
    BitwiseBounds(z, ShiftRight(z, s), 64);
  }

  lemma {:induction false} BitOfShift(z: nat, s: nat, i: nat)
    ensures Bit(ShiftRight(z, s), i) == Bit(z, i + s)
    decreases s
  {
    if s > 0 {
      BitOfShift(z / 2, s - 1, i);
    }
  }

  /** From the top bit down, an xor-shift determines what it was made from. */
  lemma {:induction false} XorShiftBits(a: u64, b: u64, s: nat, i: nat)
    requires s > 0 && XorShift(a, s) == XorShift(b, s)
    ensures Bit(a, i) == Bit(b, i)
    decreases if i < 64 then 64 - i else 0
  {
    hide Bit, Xor, ShiftRight, Pow2;
    if i >= 64 {
      Pow2Values();
      BitSmall(a, i, 64);
      BitSmall(b, i, 64);
    } else {
      XorShiftBits(a, b, s, i + s);
      BitXor(a, ShiftRight(a, s), i);
      BitXor(b, ShiftRight(b, s), i);
      BitOfShift(a, s, i);
      BitOfShift(b, s, i);
    }
  }

  lemma XorShiftInjective(a: u64, b: u64, s: nat)
    requires s > 0
    ensures XorShift(a, s) == XorShift(b, s) <==> a == b
  {
    hide Bit, Pow2, XorShift;
    if XorShift(a, s) == XorShift(b, s) {
      forall i: nat | i < 64 ensures Bit(a, i) == Bit(b, i) {
        XorShiftBits(a, b, s, i);
      }
      Pow2Values();
      BitsEqual(a, b, 64);
    }
  }

  lemma MulInjective(a: u64, b: u64, p: u64)
    requires p % 2 == 1
    ensures WrappingMul(a, p) == WrappingMul(b, p) <==> a == b
  {
    hide Pow2;
    assert Pow2(64) == TWO_64 by { Pow2Values(); }
    Fnv.ModEqIff(a * p, b * p, Pow2(64));
    assert a * p - b * p == (a - b) * p;
    Fnv.OddFactor(a - b, p, 64);
    Fnv.ModEqIff(a, b, Pow2(64));
  }

  /** The output mix. */
  function Mix(z: u64): u64 {
    XorShift(WrappingMul(XorShift(WrappingMul(XorShift(z, SHIFT_A), MIX_A), SHIFT_B), MIX_B), SHIFT_C)
  }

  /** The mix is a bijection of 64-bit words. */
  lemma MixInjective(a: u64, b: u64)
    ensures Mix(a) == Mix(b) <==> a == b
  {
    hide XorShift, WrappingMul;
    var x, y := XorShift(a, SHIFT_A), XorShift(b, SHIFT_A);
    var p, q := XorShift(WrappingMul(x, MIX_A), SHIFT_B), XorShift(WrappingMul(y, MIX_A), SHIFT_B);
    XorShiftInjective(WrappingMul(p, MIX_B), WrappingMul(q, MIX_B), SHIFT_C);
    MulInjective(p, q, MIX_B);
    XorShiftInjective(WrappingMul(x, MIX_A), WrappingMul(y, MIX_A), SHIFT_B);
    MulInjective(x, y, MIX_A);
    XorShiftInjective(a, b, SHIFT_A);
  }

  class SplitMix64 {
    var state: u64

    constructor (seed: u64)
      ensures state == seed
    {
      state := seed;
    }

    method NextU64() returns (z: u64)
      modifies this
      ensures state == WrappingAdd(old(state), GAMMA) && z == Mix(state)
    {
      state := WrappingAdd(state, GAMMA);
      z := state;
      z := WrappingMul(XorShift(z, SHIFT_A), MIX_A);
      z := WrappingMul(XorShift(z, SHIFT_B), MIX_B);
      z := XorShift(z, SHIFT_C);
    }
  }

  // ----- Addresses -----

  /** `n` draws from `state`, as little-endian bytes. */
  function Draws(state: u64, n: nat): (bytes: seq<u8>)
    ensures |bytes| == 8 * n
    decreases n
  {
    if n == 0 then []
    else
      var next := WrappingAdd(state, GAMMA);
      Draw(next) + Draws(next, n - 1)
  }

  function Draw(state: u64): (bytes: seq<u8>)
    ensures |bytes| == 8
  {
    LeBytes(Mix(state), 8)
  }

  function Seeded(id: u64): u64 {
    SeedFits(id);
    Xor(id, ADDR_DOMAIN)
  }

  lemma SeedFits(id: u64)
    ensures Xor(id, ADDR_DOMAIN) < TWO_64
  {
    hide Xor, Or, And, Pow2;
    Pow2Values();
    BitwiseBounds(id, ADDR_DOMAIN, 64);
  }

  /** The address of account `id`: four draws of a generator seeded with it. */
  function AddressFor(id: u64): (a: seq<u8>)
    ensures |a| == 32
  {
    Draws(Seeded(id), 4)
  }

  method MakeAddress(id: u64) returns (a: seq<u8>)
    ensures a == AddressFor(id)
  {
    hide Mix, WrappingAdd, Seeded, Draws, LeBytes;
    var sm := new SplitMix64(Seeded(id));
    a := [];
    for chunk := 0 to 4
      invariant a + Draws(sm.state, 4 - chunk) == AddressFor(id) && fresh(sm)
    {
      DrawsStep(a, sm.state, 4 - chunk);
      var z := sm.NextU64();
      a := a + LeBytes(z, 8);
    }
    NoDraws(a, sm.state);
  }

  lemma DrawsStep(done: seq<u8>, state: u64, n: nat)
    requires n > 0
    ensures var next := WrappingAdd(state, GAMMA);
      done + Draws(state, n) == (done + LeBytes(Mix(next), 8)) + Draws(next, n - 1)
  {
    hide Mix, WrappingAdd, LeBytes;
    var next := WrappingAdd(state, GAMMA);
    Assoc(done, LeBytes(Mix(next), 8), Draws(next, n - 1));
  }

  lemma NoDraws(done: seq<u8>, state: u64)
    ensures done + Draws(state, 0) == done
  {
  }

  lemma XorInjective(a: u64, b: u64, d: u64)
    requires Xor(a, d) == Xor(b, d)
    ensures a == b
  {
    hide Xor;
    Fnv.XorMod(a, d, b, d, 64);
    Pow2Values();
    ModUnique(a, 0, Pow2(64), a);
    ModUnique(b, 0, Pow2(64), b);
  }

  /** Distinct ids have distinct addresses. */
  lemma AddressInjective(i: u64, j: u64)
    ensures AddressFor(i) == AddressFor(j) <==> i == j
  {
    hide Mix, Xor, LeBytes, FromLe, Pow2, Draws, Seeded, WrappingAdd;
    var a, b := WrappingAdd(Seeded(i), GAMMA), WrappingAdd(Seeded(j), GAMMA);
    FirstDraw(Seeded(i));
    FirstDraw(Seeded(j));
    Pow2Values();
    LeRoundTrip(Mix(a), 8);
    LeRoundTrip(Mix(b), 8);
    MixInjective(a, b);
    if a == b { SeedInjective(i, j); }
  }

  lemma SeedInjective(i: u64, j: u64)
    requires WrappingAdd(Seeded(i), GAMMA) == WrappingAdd(Seeded(j), GAMMA)
    ensures i == j
  {
    hide Xor;
    assert Seeded(i) == Seeded(j);
    XorInjective(i, j, ADDR_DOMAIN);
  }

  lemma FirstDraw(state: u64)
    ensures Draws(state, 4)[..8] == Draw(WrappingAdd(state, GAMMA))
  {
    hide Mix, WrappingAdd;
    assert Draws(state, 4)[..8] == Draw(WrappingAdd(state, GAMMA));
  }

  // ----- In plain arithmetic -----

  lemma {:induction false} ShiftIsDivision(z: nat, s: nat)
    ensures ShiftRight(z, s) == z / Pow2(s)
    decreases s
  {
    if s > 0 {
      ShiftIsDivision(z / 2, s - 1);
      HalfThen(z, Pow2(s - 1));
    }
  }

  lemma HalfThen(z: nat, m: nat)
    requires m > 0
    ensures z / 2 / m == z / (2 * m)
  {
    var q, r := z / 2 / m, z / 2 % m;
    assert z / 2 == q * m + r;
    assert q * (2 * m) == 2 * (q * m);
    ModUnique(z, q, 2 * m, 2 * r + z % 2);
  }

  /** The mix: two rounds of xor-shift and multiply, and a last xor-shift, with SplitMix64's published constants. */
  lemma MixIs(z: u64)
    ensures var a := Xor(z, z / 1_073_741_824) * 13_787_848_793_156_543_929 % 18_446_744_073_709_551_616;
      var b := Xor(a, a / 134_217_728) * 10_723_151_780_598_845_931 % 18_446_744_073_709_551_616;
      Mix(z) == Xor(b, b / 2_147_483_648)
  {
    hide Xor, Pow2, ShiftRight;
    ShiftPowers();
    ShiftIsDivision(z, 30);
    var a := WrappingMul(XorShift(z, 30), 13_787_848_793_156_543_929);
    ShiftIsDivision(a, 27);
    var b := WrappingMul(XorShift(a, 27), 10_723_151_780_598_845_931);
    ShiftIsDivision(b, 31);
  }

  lemma ShiftPowers()
    ensures Pow2(27) == 134_217_728 && Pow2(30) == 1_073_741_824 && Pow2(31) == 2_147_483_648
  {
    hide Pow2;
    Pow2Values();
    Pow2Add(1, 30);
    Pow2Add(4, 27);
    SmallPowers();
  }

  lemma SmallPowers()
    ensures Pow2(1) == 2 && Pow2(4) == 16
  {
  }

  /** Draw by draw: the state of account `id`'s generator, and the eight bytes it gives. */
  lemma AddressIs(id: u64, i: nat)
    requires i < 4
    ensures AddressFor(id)[8 * i..8 * i + 8] ==
      LeBytes(Mix((Xor(id, 7_885_630_785_361_896_548) + (i + 1) * 11_400_714_819_323_198_485) % 18_446_744_073_709_551_616), 8)
  {
    hide Xor, Mix, LeBytes;
    DrawIs(Seeded(id), 4, i);
  }

  lemma {:induction false} DrawIs(state: u64, n: nat, i: nat)
    requires i < n
    ensures Draws(state, n)[8 * i..8 * i + 8] == LeBytes(Mix((state + (i + 1) * GAMMA) % TWO_64), 8)
    decreases n
  {
    hide Mix, LeBytes;
    var next := WrappingAdd(state, GAMMA);
    var head, rest := Draw(next), Draws(next, n - 1);
    if i == 0 {
      assert (head + rest)[0..8] == head;
    } else {
      DrawIs(next, n - 1, i - 1);
      assert (head + rest)[8 * i..8 * i + 8] == rest[8 * (i - 1)..8 * (i - 1) + 8];
      NextState(state, i);
    }
  }

  lemma NextState(state: u64, i: nat)
    ensures (WrappingAdd(state, GAMMA) + i * GAMMA) % TWO_64 == (state + (i + 1) * GAMMA) % TWO_64
  {
    var x, y := WrappingAdd(state, GAMMA) + i * GAMMA, state + (i + 1) * GAMMA;
    Fnv.ModEqIff(x, y, TWO_64);
    Fnv.ModEqIff(WrappingAdd(state, GAMMA), state + GAMMA, TWO_64);
  }
}
