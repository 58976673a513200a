/** FNV-1a-64 and what its low bits can and cannot tell apart. */
module Fnv {
  import opened Words

  const FNV_OFFSET_BASIS: u64 := 0xcbf2_9ce4_8422_2325
  const FNV_PRIME: u64 := 0x0000_0100_0000_01b3

  function Step(h: u64, b: u8): u64 {
    (Xor(h, b) * FNV_PRIME) % TWO_64
  }

  function Hash(bytes: seq<u8>): u64 {
    if bytes == [] then FNV_OFFSET_BASIS
    else Step(Hash(bytes[..|bytes| - 1]), bytes[|bytes| - 1])
  }

  method Fnv1a64(bytes: seq<u8>) returns (hash: u64)
    ensures hash == Hash(bytes)
  {
    hash := FNV_OFFSET_BASIS;
    for i := 0 to |bytes|
      invariant hash == Hash(bytes[..i])
    {
      assert bytes[..i + 1][..i] == bytes[..i];
      var mixed: nat := Xor(hash, bytes[i]);
      hash := (mixed * FNV_PRIME) % TWO_64;
    }
    assert bytes[..|bytes|] == bytes;
  }

  // ----- Reduction mod 2^c -----

  lemma ModMod(x: nat, c: nat, n: nat)
    requires c <= n
    ensures (x % Pow2(n)) % Pow2(c) == x % Pow2(c)
  {
    Pow2Add(c, n - c);
    ModModMul(x, Pow2(c), Pow2(n - c));
  }

  lemma ModModMul(x: nat, m: nat, k: nat)
    requires m > 0 && k > 0 && m * k > 0
    ensures (x % (m * k)) % m == x % m
  {
    var q, r := x / (m * k), x % (m * k);
    assert x == q * (m * k) + r;
    assert q * (m * k) == (q * k) * m;
    assert (q * k) * m + (r / m) * m == (q * k + r / m) * m;
    ModUnique(x, q * k + r / m, m, r % m);
  }

  lemma ModEqIff(x: int, y: int, m: nat)
    requires m > 0
    ensures x % m == y % m <==> (x - y) % m == 0
  {
    var p, q := x / m, y / m;
    assert x == p * m + x % m && y == q * m + y % m;
    if x % m == y % m {
      assert (p - q) * m == p * m - q * m;
      ModUnique(x - y, p - q, m, 0);
    }
    if (x - y) % m == 0 {
      var d := (x - y) / m;
      assert x - y == d * m;
      assert x == (d + q) * m + y % m by { assert (d + q) * m == d * m + q * m; }
      ModUnique(x, d + q, m, y % m);
    }
  }

  /** Multiplying by an odd factor is injective mod 2^c. */
  lemma {:induction false} OddFactor(d: int, p: nat, c: nat)
    requires p % 2 == 1
    ensures (d * p) % Pow2(c) == 0 <==> d % Pow2(c) == 0
    decreases c
  {
    if c > 0 {
      EvenMod(d, Pow2(c - 1));
      EvenMod(d * p, Pow2(c - 1));
      OddParity(d, p);
      if d % 2 == 0 {
        OddFactor(d / 2, p, c - 1);
      }
    }
  }

  lemma OddParity(d: int, p: nat)
    requires p % 2 == 1
    ensures (d * p) % 2 == d % 2
    ensures d % 2 == 0 ==> (d * p) / 2 == (d / 2) * p
  {
    var h := d / 2;
    assert d * p == 2 * (h * p) + (d % 2) * p by {
      assert d == 2 * h + d % 2;
      assert (2 * h + d % 2) * p == 2 * (h * p) + (d % 2) * p;
    }
  }

  lemma EvenMod(z: int, m: nat)
    requires m > 0
    ensures z % (2 * m) == 0 <==> z % 2 == 0 && (z / 2) % m == 0
  {
    if z % (2 * m) == 0 {
      var q := z / (2 * m);
      assert z == q * (2 * m) == 2 * (q * m);
      ModUnique(z / 2, q, m, 0);
    }
    if z % 2 == 0 && (z / 2) % m == 0 {
      var q := (z / 2) / m;
      assert z / 2 == q * m;
      assert z == 2 * (q * m) == q * (2 * m);
      ModUnique(z, q, 2 * m, 0);
    }
  }

  lemma MulPrimeMod(x: nat, y: nat, c: nat)
    requires c <= 64
    ensures ((x * FNV_PRIME) % TWO_64) % Pow2(c) == ((y * FNV_PRIME) % TWO_64) % Pow2(c) <==> x % Pow2(c) == y % Pow2(c)
  {
    hide Pow2;
    assert Pow2(64) == TWO_64 by { Pow2Values(); }
    ModMod(x * FNV_PRIME, c, 64);
    ModMod(y * FNV_PRIME, c, 64);
    ModEqIff(x * FNV_PRIME, y * FNV_PRIME, Pow2(c));
    ModEqIff(x, y, Pow2(c));
    assert x * FNV_PRIME - y * FNV_PRIME == (x - y) * FNV_PRIME;
    OddFactor(x - y, FNV_PRIME, c);
  }

  /** Low bits of an xor: equal on one side, they agree exactly when they agree on the other. */
  lemma XorMod(a: nat, b: nat, a': nat, b': nat, c: nat)
    ensures b % Pow2(c) == b' % Pow2(c) ==>
      (Xor(a, b) % Pow2(c) == Xor(a', b') % Pow2(c) <==> a % Pow2(c) == a' % Pow2(c))
    ensures a % Pow2(c) == a' % Pow2(c) ==>
      (Xor(a, b) % Pow2(c) == Xor(a', b') % Pow2(c) <==> b % Pow2(c) == b' % Pow2(c))
  {
    ModBits(a, a', c);
    ModBits(b, b', c);
    ModBits(Xor(a, b), Xor(a', b'), c);
    XorSameBits(a, b, a', b', c);
  }

  lemma XorSameBits(a: nat, b: nat, a': nat, b': nat, c: nat)
    ensures SameBits(b, b', c) ==> (SameBits(Xor(a, b), Xor(a', b'), c) <==> SameBits(a, a', c))
    ensures SameBits(a, a', c) ==> (SameBits(Xor(a, b), Xor(a', b'), c) <==> SameBits(b, b', c))
  {
    forall i: nat
      ensures Bit(Xor(a, b), i) == if Bit(a, i) == Bit(b, i) then 0 else 1
      ensures Bit(Xor(a', b'), i) == if Bit(a', i) == Bit(b', i) then 0 else 1
    {
      BitXor(a, b, i);
      BitXor(a', b', i);
    }
  }

  /** One byte in: the low c bits of the state evolve on their own, and injectively. */
  lemma StepInjective(h: u64, h': u64, b: u8, c: nat)
    requires c <= 64
    ensures Step(h, b) % Pow2(c) == Step(h', b) % Pow2(c) <==> h % Pow2(c) == h' % Pow2(c)
  {
    MulPrimeMod(Xor(h, b), Xor(h', b), c);
    XorMod(h, b, h', b, c);
  }

  /** A changed byte changes the low c bits of the state exactly when its own low min(c, 8) bits change. */
  lemma StepByte(h: u64, b: u8, b': u8, c: nat)
    requires c <= 64
    ensures Step(h, b) % Pow2(c) == Step(h, b') % Pow2(c) <==> b % Pow2(Min(c, 8)) == b' % Pow2(Min(c, 8))
  {
    MulPrimeMod(Xor(h, b), Xor(h, b'), c);
    XorMod(h, b, h, b', c);
    ByteMod(b, b', c);
  }

  lemma ByteMod(b: u8, b': u8, c: nat)
    ensures b % Pow2(c) == b' % Pow2(c) <==> b % Pow2(Min(c, 8)) == b' % Pow2(Min(c, 8))
  {
    if c > 8 {
      var m, n := Pow2(c), Pow2(8);
      assert m >= n == 256 by {
        Pow2Monotone(8, c);
        Pow2Values();
      }
      ModUnique(b, 0, m, b);
      ModUnique(b', 0, m, b');
    }
  }

  lemma {:induction false} SuffixInjective(a: seq<u8>, b: seq<u8>, i: nat, c: nat)
    requires |a| == |b| && i <= |a| && a[i..] == b[i..] && c <= 64
    ensures Hash(a) % Pow2(c) == Hash(b) % Pow2(c) <==> Hash(a[..i]) % Pow2(c) == Hash(b[..i]) % Pow2(c)
    decreases |a|
  {
    if i == |a| {
      assert a[..i] == a && b[..i] == b;
    } else {
      var n := |a| - 1;
      assert a[n] == a[i..][n - i] == b[i..][n - i] == b[n];
      assert a[..n][i..] == a[i..][..n - i] && b[..n][i..] == b[i..][..n - i];
      assert a[..n][..i] == a[..i] && b[..n][..i] == b[..i];
      SuffixInjective(a[..n], b[..n], i, c);
      StepInjective(Hash(a[..n]), Hash(b[..n]), a[n], c);
    }
  }

  /**
   The exact detection power of the truncated checksum against a change confined to one byte: it is
   missed if and only if the low min(c, 8) bits of that byte are unchanged.
   */
  lemma OneByteChange(a: seq<u8>, b: seq<u8>, i: nat, c: nat)
    requires |a| == |b| && i < |a| && c <= 64
    requires forall j :: 0 <= j < |a| && j != i ==> a[j] == b[j]
    ensures Hash(a) % Pow2(c) == Hash(b) % Pow2(c) <==> a[i] % Pow2(Min(c, 8)) == b[i] % Pow2(Min(c, 8))
  {
    assert a[i + 1..] == b[i + 1..];
    assert a[..i + 1][..i] == a[..i] == b[..i] == b[..i + 1][..i];
    SuffixInjective(a, b, i + 1, c);
    StepByte(Hash(a[..i]), a[i], b[i], c);
  }

  /** The hash in plain arithmetic: from the offset basis, xor each byte in and then multiply by the prime, mod 2^64. */
  lemma HashIs(bytes: seq<u8>, b: u8)
    ensures Hash([]) == 14_695_981_039_346_656_037
    ensures Hash(bytes + [b]) == Xor(Hash(bytes), b) * 1_099_511_628_211 % 18_446_744_073_709_551_616
  {
    assert (bytes + [b])[..|bytes|] == bytes;
  }
}
