/** Machine words as bounded integers, and the few bit operations the model needs. */
module Words {
  const TWO_16: int := 0x1_0000
  const TWO_32: int := 0x1_0000_0000
  const TWO_63: int := 0x8000_0000_0000_0000
  const TWO_64: int := 0x1_0000_0000_0000_0000

  type u8 = x: int | 0 <= x < 0x100
  type u16 = x: int | 0 <= x < TWO_16
  type u32 = x: int | 0 <= x < TWO_32
  type u64 = x: int | 0 <= x < TWO_64
  type i64 = x: int | -TWO_63 <= x < TWO_63

  predicate IsI64(x: int) {
    -TWO_63 <= x < TWO_63
  }

  function Abs(x: int): nat {
    if x < 0 then -x else x
  }

  function Min(x: int, y: int): int {
    if x < y then x else y
  }

  function Max(x: int, y: int): int {
    if x < y then y else x
  }

  /** `ceil(x / y)`. */
  function DivCeil(x: nat, y: nat): nat
    requires y > 0
  {
    (x + y - 1) / y
  }

  function Pow2(n: nat): (p: nat)
    ensures p >= 1
  {
    if n == 0 then 1 else 2 * Pow2(n - 1)
  }

  lemma {:induction false} Pow2Add(m: nat, n: nat)
    ensures Pow2(m + n) == Pow2(m) * Pow2(n)
  {
    if m > 0 {
      Pow2Add(m - 1, n);
    }
  }

  lemma {:induction false} Pow2Monotone(m: nat, n: nat)
    requires m <= n
    ensures Pow2(m) <= Pow2(n)
  {
    if m < n {
      Pow2Monotone(m, n - 1);
    }
  }

  lemma Pow2Values()
    ensures Pow2(7) == 128 && Pow2(8) == 256 && Pow2(16) == TWO_16
    ensures Pow2(31) == 0x8000_0000 && Pow2(32) == TWO_32 && Pow2(63) == TWO_63 && Pow2(64) == TWO_64
  {
    assert Pow2(1) == 2 && Pow2(2) == 4 && Pow2(4) == 16;
    Pow2Add(4, 4);
    Pow2Add(8, 8);
    Pow2Add(16, 16);
    Pow2Add(32, 32);
  }

  /** Bit `i` of `x`, least significant first. */
  function Bit(x: nat, i: nat): (b: nat)
    ensures b <= 1
  {
    if i == 0 then x % 2 else Bit(x / 2, i - 1)
  }

  function Xor(a: nat, b: nat): nat
    decreases a + b
  {
    if a == 0 && b == 0 then 0
    else 2 * Xor(a / 2, b / 2) + (if a % 2 == b % 2 then 0 else 1)
  }

  function Or(a: nat, b: nat): nat
    decreases a + b
  {
    if a == 0 && b == 0 then 0
    else 2 * Or(a / 2, b / 2) + (if a % 2 == 0 && b % 2 == 0 then 0 else 1)
  }

  function And(a: nat, b: nat): nat
    decreases a + b
  {
    if a == 0 && b == 0 then 0
    else 2 * And(a / 2, b / 2) + (if a % 2 == 1 && b % 2 == 1 then 1 else 0)
  }

  /** An n-bit operand pair gives an n-bit result, and `|` never loses a set bit. */
  lemma {:induction false} BitwiseBounds(a: nat, b: nat, n: nat)
    requires a < Pow2(n) && b < Pow2(n)
    ensures Xor(a, b) < Pow2(n) && Or(a, b) < Pow2(n) && And(a, b) < Pow2(n)
    ensures Max(a, b) <= Or(a, b)
  {
    if n > 0 {
      BitwiseBounds(a / 2, b / 2, n - 1);
    }
  }

  lemma {:induction false} XorZeroIffEqual(a: nat, b: nat)
    ensures Xor(a, b) == 0 <==> a == b
    decreases a + b
  {
    if a != 0 || b != 0 {
      XorZeroIffEqual(a / 2, b / 2);
    }
  }

  lemma {:induction false} OrZero(a: nat)
    ensures Or(a, 0) == a && Or(0, a) == a
    ensures And(a, 0) == 0 && And(0, a) == 0
  {
    if a > 0 {
      OrZero(a / 2);
    }
  }

  /** Masking with all ones keeps a value that fits the mask. */
  lemma {:induction false} AndOnes(a: nat, n: nat)
    requires a < Pow2(n)
    ensures And(Pow2(n) - 1, a) == a
  {
    if n == 0 {
      OrZero(a);
    } else {
      MaskHalf(n);
      assert a / 2 < Pow2(n - 1);
      hide And, Pow2;
      OddAnd(Pow2(n) - 1, a);
      AndOnes(a / 2, n - 1);
    }
  }

  lemma OddAnd(a: nat, b: nat)
    requires a % 2 == 1
    ensures And(a, b) == 2 * And(a / 2, b / 2) + b % 2
  {
  }

  /** `x & (2^n - 1)` is reduction mod 2^n. */
  lemma {:induction false} AndMask(x: nat, n: nat)
    ensures And(x, Pow2(n) - 1) == x % Pow2(n)
  {
    hide And, Pow2;
    if n == 0 {
      MaskNothing(x);
    } else {
      var low, high := And(x / 2, Pow2(n - 1) - 1), (x / 2) % Pow2(n - 1);
      MaskHalf(n);
      AndOdd(x, Pow2(n) - 1);
      AndMask(x / 2, n - 1);
      assert low == high;
      ModHalf(x, n);
    }
  }

  lemma MaskNothing(x: nat)
    ensures And(x, Pow2(0) - 1) == x % Pow2(0)
  {
    OrZero(x);
  }

  lemma MaskHalf(n: nat)
    requires n > 0
    ensures (Pow2(n) - 1) % 2 == 1 && (Pow2(n) - 1) / 2 == Pow2(n - 1) - 1
  {
  }

  lemma AndOdd(a: nat, b: nat)
    requires b % 2 == 1
    ensures And(a, b) == 2 * And(a / 2, b / 2) + a % 2
  {
  }

  lemma ModHalf(x: nat, n: nat)
    requires n > 0
    ensures x % Pow2(n) == 2 * ((x / 2) % Pow2(n - 1)) + x % 2
  {
    var m := Pow2(n - 1);
    var q, r := (x / 2) / m, (x / 2) % m;
    assert x / 2 == q * m + r;
    assert x == q * (2 * m) + (2 * r + x % 2) by {
      assert q * (2 * m) == 2 * (q * m);
    }
    ModUnique(x, q, 2 * m, 2 * r + x % 2);
  }

  lemma ModUnique(x: int, q: int, m: nat, r: nat)
    requires r < m && x == q * m + r
    ensures x % m == r && x / m == q
  {
    var p := x / m;
    assert x == p * m + x % m;
    assert (p - q) * m == r - x % m && (q - p) * m == x % m - r;
    if p > q {
      MulAtLeast(p - q, m);
    } else if p < q {
      MulAtLeast(q - p, m);
    }
  }

  lemma MulAtLeast(k: int, m: nat)
    requires k >= 1
    ensures k * m >= m
  {
    assert k * m == (k - 1) * m + m;
  }

  lemma MulMonotone(a: nat, b: nat, c: nat)
    requires a <= b
    ensures a * c <= b * c
  {
    assert b * c == a * c + (b - a) * c;
  }

  lemma Assoc<T>(a: seq<T>, b: seq<T>, c: seq<T>)
    ensures (a + b) + c == a + (b + c)
  {
  }

  lemma SomeElement<T>(s: set<T>) returns (x: T)
    requires s != {}
    ensures x in s
  {
    x :| x in s;
  }

  // ----- Bits -----

  lemma {:induction false} BitOr(a: nat, b: nat, i: nat)
    ensures Bit(Or(a, b), i) == Max(Bit(a, i), Bit(b, i))
    decreases i
  {
    if i > 0 {
      BitOr(a / 2, b / 2, i - 1);
    }
  }

  lemma {:induction false} BitXor(a: nat, b: nat, i: nat)
    ensures Bit(Xor(a, b), i) == if Bit(a, i) == Bit(b, i) then 0 else 1
    decreases i
  {
    if i > 0 {
      BitXor(a / 2, b / 2, i - 1);
    }
  }

  lemma {:induction false} BitPow2(n: nat, i: nat)
    ensures Bit(Pow2(n), i) == if i == n then 1 else 0
  {
    if n == 0 {
      if i > 0 { BitSmall(0, i - 1, 0); }
    } else if i > 0 {
      BitPow2(n - 1, i - 1);
    }
  }

  /** A value below 2^n has no bit at or above n. */
  lemma {:induction false} BitSmall(x: nat, i: nat, n: nat)
    requires x < Pow2(n) && n <= i
    ensures Bit(x, i) == 0
  {
    if n > 0 {
      BitSmall(x / 2, i - 1, n - 1);
    } else if i > 0 {
      BitSmall(x / 2, i - 1, 0);
    }
  }

  predicate SameBits(x: nat, y: nat, n: nat) {
    forall i: nat :: i < n ==> Bit(x, i) == Bit(y, i)
  }

  lemma SameBitsHalf(x: nat, y: nat, n: nat)
    requires n > 0
    ensures SameBits(x, y, n) <==> x % 2 == y % 2 && SameBits(x / 2, y / 2, n - 1)
  {
    if SameBits(x, y, n) {
      assert Bit(x, 0) == Bit(y, 0);
      forall i: nat | i < n - 1 ensures Bit(x / 2, i) == Bit(y / 2, i) {
        assert Bit(x, i + 1) == Bit(y, i + 1);
      }
    }
    if x % 2 == y % 2 && SameBits(x / 2, y / 2, n - 1) {
      forall i: nat | i < n ensures Bit(x, i) == Bit(y, i) {
        if i > 0 { assert Bit(x / 2, i - 1) == Bit(y / 2, i - 1); }
      }
    }
  }

  /** Two values agree mod 2^n exactly when their low n bits agree. */
  lemma {:induction false} ModBits(x: nat, y: nat, n: nat)
    ensures x % Pow2(n) == y % Pow2(n) <==> SameBits(x, y, n)
  {
    if n > 0 {
      ModHalf(x, n);
      ModHalf(y, n);
      ModBits(x / 2, y / 2, n - 1);
      SameBitsHalf(x, y, n);
    }
  }

  lemma BitsEqual(x: nat, y: nat, n: nat)
    requires x < Pow2(n) && y < Pow2(n)
    requires SameBits(x, y, n)
    ensures x == y
  {
    ModBits(x, y, n);
    ModUnique(x, 0, Pow2(n), x);
    ModUnique(y, 0, Pow2(n), y);
  }

  // ----- Little-endian bytes -----

  /** The low `n` little-endian bytes of `x`. */
  function LeBytes(x: nat, n: nat): (bytes: seq<u8>)
    ensures |bytes| == n
  {
    if n == 0 then [] else [x % 256] + LeBytes(x / 256, n - 1)
  }

  function FromLe(bytes: seq<u8>): nat {
    if bytes == [] then 0 else bytes[0] + 256 * FromLe(bytes[1..])
  }

  lemma {:induction false} LeRoundTrip(x: nat, n: nat)
    requires x < Pow2(8 * n)
    ensures FromLe(LeBytes(x, n)) == x
  {
    if n > 0 {
      assert Pow2(8 * n) == 256 * Pow2(8 * (n - 1)) by {
        Pow2Add(8, 8 * (n - 1));
        Pow2Values();
      }
      LeRoundTrip(x / 256, n - 1);
      assert LeBytes(x, n)[1..] == LeBytes(x / 256, n - 1);
    }
  }

  lemma {:induction false} FromLeRoundTrip(bytes: seq<u8>)
    ensures FromLe(bytes) < Pow2(8 * |bytes|)
    ensures LeBytes(FromLe(bytes), |bytes|) == bytes
  {
    if bytes != [] {
      var n := |bytes|;
      assert Pow2(8 * n) == 256 * Pow2(8 * (n - 1)) by {
        Pow2Add(8, 8 * (n - 1));
        Pow2Values();
      }
      var rest := FromLe(bytes[1..]);
      assert FromLe(bytes) == bytes[0] + 256 * rest;
      assert LeBytes(bytes[0] + 256 * rest, n) == [bytes[0]] + LeBytes(rest, n - 1) by { LeBytesFirst(bytes[0], rest, n); }
      hide FromLe, LeBytes, Pow2;
      FromLeRoundTrip(bytes[1..]);
    }
  }

  lemma LeBytesFirst(low: u8, high: nat, n: nat)
    requires n > 0
    ensures LeBytes(low + 256 * high, n) == [low] + LeBytes(high, n - 1)
  {
    assert (low + 256 * high) / 256 == high && (low + 256 * high) % 256 == low;
  }

  lemma EightBytes(chunk: seq<u8>)
    requires |chunk| == 8
    ensures FromLe(chunk) < TWO_64
  {
    FromLeRoundTrip(chunk);
    Pow2Values();
  }
}
