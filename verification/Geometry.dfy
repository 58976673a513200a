/**
 Sizing a store: the bucket-count search of `risepir-proto/src/geometry.rs`. The plaintext width selector is a
 parameter; the ceilings are the published load factors, in hundredths.
 */
module Geometry {
  import opened Words
  import opened Wrappers

  const GLOBAL_TARGET_NUM: nat := 9_000
  const TARGET_DEN: nat := 10_000
  const SAFETY_MARGIN_NUM: nat := 95
  /** The live deployment's account count. */
  const LIVE_ACCOUNTS: u64 := 200_503_969

  datatype GeomError = InvalidArity(arity: u32) | InvalidBucketSize | InvalidFieldWidth | TooManyAccounts | InvalidNumBuckets(found: u32)

  datatype Geometry = Geometry(arity: u32, numBuckets: u32, bucketSize: u32, fingerprintBits: u32, valueBits: u32, plaintextBits: u32)

  const MAX_LOAD_HUNDREDTHS: seq<seq<nat>> := [[48, 83, 89, 91], [85, 93, 94, 94], [91, 94, 95, 95]]

  /** The achievable load of a configuration, where one is published. */
  function MaxLoadHundredths(arity: u32, bucketSize: u32): Option<nat> {
    if 2 <= arity <= 4 && 1 <= bucketSize <= 4 then Some(MAX_LOAD_HUNDREDTHS[arity - 2][bucketSize - 1]) else None
  }

  /** The target load as a numerator over `TARGET_DEN`: a flat cap, tightened where a ceiling is known. */
  function EffectiveTargetLoad(arity: u32, bucketSize: u32): (num: nat)
    ensures 0 < num <= GLOBAL_TARGET_NUM
    ensures MaxLoadHundredths(arity, bucketSize).Some? ==> num < 100 * MaxLoadHundredths(arity, bucketSize).value
    ensures num == GLOBAL_TARGET_NUM <==> MaxLoadHundredths(arity, bucketSize).None? || (arity == 4 && bucketSize >= 3)
  {
    match MaxLoadHundredths(arity, bucketSize)
    case Some(ceiling) =>
      CeilingPositive(arity, bucketSize);
      Min(GLOBAL_TARGET_NUM, SAFETY_MARGIN_NUM * ceiling)
    case None => GLOBAL_TARGET_NUM
  }

  /** The published targets, by arity and bucket size. */
  lemma TargetTable()
    ensures EffectiveTargetLoad(2, 1) == 4_560 && EffectiveTargetLoad(2, 2) == 7_885 && EffectiveTargetLoad(2, 3) == 8_455
    ensures EffectiveTargetLoad(2, 4) == 8_645 && EffectiveTargetLoad(3, 1) == 8_075 && EffectiveTargetLoad(3, 2) == 8_835
    ensures EffectiveTargetLoad(3, 3) == 8_930 && EffectiveTargetLoad(3, 4) == 8_930 && EffectiveTargetLoad(4, 1) == 8_645
    ensures EffectiveTargetLoad(4, 2) == 8_930 && EffectiveTargetLoad(4, 3) == 9_000 && EffectiveTargetLoad(4, 4) == 9_000
  {
  }

  /** More candidate buckets or larger ones never lower the target. */
  lemma TargetMonotone(a: u32, b: u32, a': u32, b': u32)
    requires 2 <= a <= a' && 1 <= b <= b'
    ensures EffectiveTargetLoad(a, b) <= EffectiveTargetLoad(a', b')
  {
  }

  lemma CeilingPositive(arity: u32, bucketSize: u32)
    requires 2 <= arity <= 4 && 1 <= bucketSize <= 4
    ensures 48 <= MAX_LOAD_HUNDREDTHS[arity - 2][bucketSize - 1] <= 95
  {
  }

  function NextPowerOfTwo(n: nat): (p: nat)
    ensures p >= 1 && p >= n
  {
    DoublingFrom(1, n)
  }

  function DoublingFrom(p: nat, n: nat): (q: nat)
    requires p >= 1
    ensures q >= p && q >= n
    decreases n - p
  {
    if p >= n then p else DoublingFrom(2 * p, n)
  }

  lemma {:induction false} DoublingLeast(s: nat, n: nat) returns (t: nat)
    requires s == 0 || Pow2(s - 1) < n
    ensures DoublingFrom(Pow2(s), n) == Pow2(t)
    ensures t == 0 || Pow2(t - 1) < n
    decreases n - Pow2(s)
  {
    if Pow2(s) >= n {
      t := s;
    } else {
      t := DoublingLeast(s + 1, n);
    }
  }

  /** A power of two, and no smaller one reaches `n`. */
  lemma NextPowerOfTwoIsLeast(n: nat)
    ensures IsPow2(NextPowerOfTwo(n))
    ensures forall m: nat :: IsPow2(m) && m >= n ==> m >= NextPowerOfTwo(n)
  {
    assert Pow2(0) == 1;
    var t := DoublingLeast(0, n);
    assert NextPowerOfTwo(n) == Pow2(t);
    forall m: nat | IsPow2(m) && m >= n ensures m >= Pow2(t) {
      var s: nat :| m == Pow2(s);
      if s < t {
        Pow2Monotone(s, t - 1);
      } else {
        Pow2Monotone(t, s);
      }
    }
  }

  ghost predicate IsPow2(n: nat) {
    exists t: nat :: n == Pow2(t)
  }

  /** The bucket counts a scheme of this arity can be built with. */
  ghost predicate HasShape(arity: u32, n: nat) {
    if arity == 3 then n % 3 == 0 && IsPow2(n / 3) else IsPow2(n) && n >= arity
  }

  /** `accounts` fill at most the target share of `n` buckets. */
  predicate WithinTarget(accounts: u64, n: nat, bucketSize: u32, num: nat) {
    accounts * TARGET_DEN <= n * (bucketSize * num)
  }

  function BucketsNeeded(accounts: u64, arity: u32, bucketSize: u32): nat
    requires bucketSize > 0
  {
    ProductPositive(bucketSize, EffectiveTargetLoad(arity, bucketSize));
    DivCeil(accounts * TARGET_DEN, bucketSize * EffectiveTargetLoad(arity, bucketSize))
  }

  lemma ProductPositive(a: nat, b: nat)
    requires a > 0 && b > 0
    ensures a * b > 0
  {
  }

  function BucketCount(accounts: u64, arity: u32, bucketSize: u32): nat
    requires bucketSize > 0 && 2 <= arity <= 4
  {
    var needed := BucketsNeeded(accounts, arity, bucketSize);
    if arity == 3 then NextPowerOfTwo(Max(DivCeil(needed, 3), 1)) * 3 else NextPowerOfTwo(Max(needed, arity))
  }

  function ForNumBuckets(numBuckets: u32, arity: u32, bucketSize: u32, fingerprintBits: u32, valueBits: u32,
                         plaintextBits: (u32, u32, u32) -> u32): Result<Geometry, GeomError> {
    if !(2 <= arity <= 4) then Err(InvalidArity(arity))
    else if bucketSize == 0 then Err(InvalidBucketSize)
    else if fingerprintBits == 0 || valueBits == 0 then Err(InvalidFieldWidth)
    else if numBuckets == 0 || numBuckets % arity != 0 then Err(InvalidNumBuckets(numBuckets))
    else Ok(Geometry(arity, numBuckets, bucketSize, fingerprintBits, valueBits, plaintextBits(arity, numBuckets / arity, bucketSize)))
  }

  /** The sizing search; the widths are checked before the arity. */
  function ForAccounts(accounts: u64, arity: u32, bucketSize: u32, fingerprintBits: u32, valueBits: u32,
                       plaintextBits: (u32, u32, u32) -> u32): Result<Geometry, GeomError> {
    if bucketSize == 0 then Err(InvalidBucketSize)
    else if fingerprintBits == 0 || valueBits == 0 then Err(InvalidFieldWidth)
    else if !(2 <= arity <= 4) then Err(InvalidArity(arity))
    else
      var n := BucketCount(accounts, arity, bucketSize);
      if n >= TWO_32 then Err(TooManyAccounts)
      else ForNumBuckets(n, arity, bucketSize, fingerprintBits, valueBits, plaintextBits)
  }

  /** From a given bucket count: exactly the valid inputs, each fault by its name and in this order. */
  lemma GivenCountIsExact(numBuckets: u32, arity: u32, bucketSize: u32, fingerprintBits: u32, valueBits: u32,
                          plaintextBits: (u32, u32, u32) -> u32)
    ensures ForNumBuckets(numBuckets, arity, bucketSize, fingerprintBits, valueBits, plaintextBits) ==
      if arity < 2 || arity > 4 then Err(InvalidArity(arity))
      else if bucketSize == 0 then Err(InvalidBucketSize)
      else if fingerprintBits == 0 || valueBits == 0 then Err(InvalidFieldWidth)
      else if numBuckets == 0 || (exists q: nat, r: nat :: 0 < r < arity && IsQuotient(numBuckets, q, arity, r)) then Err(InvalidNumBuckets(numBuckets))
      else Ok(Geometry(arity, numBuckets, bucketSize, fingerprintBits, valueBits, plaintextBits(arity, numBuckets / arity, bucketSize)))
  {
    if 2 <= arity <= 4 {
      assert IsQuotient(numBuckets, numBuckets / arity, arity, numBuckets % arity);
      forall q: nat, r: nat | 0 < r < arity && IsQuotient(numBuckets, q, arity, r) ensures numBuckets % arity != 0 {
        ModUnique(numBuckets, q, arity, r);
      }
    }
  }

  ghost predicate IsQuotient(x: nat, q: nat, m: nat, r: nat) {
    x == q * m + r
  }

  lemma CeilIff(x: nat, y: nat, n: nat)
    requires y > 0
    ensures DivCeil(x, y) <= n <==> x <= n * y
  {
    var q, r := (x + y - 1) / y, (x + y - 1) % y;
    assert x + y - 1 == q * y + r;
    if q <= n {
      MulMonotone(q, n, y);
    } else {
      MulMonotone(n + 1, q, y);
      assert (n + 1) * y == n * y + y;
    }
  }

  /** The load bound is met by exactly the counts at or above the computed need. */
  lemma NeededIff(accounts: u64, arity: u32, bucketSize: u32, n: nat)
    requires bucketSize > 0
    ensures WithinTarget(accounts, n, bucketSize, EffectiveTargetLoad(arity, bucketSize)) <==> BucketsNeeded(accounts, arity, bucketSize) <= n
  {
    ProductPositive(bucketSize, EffectiveTargetLoad(arity, bucketSize));
    CeilIff(accounts * TARGET_DEN, bucketSize * EffectiveTargetLoad(arity, bucketSize), n);
  }

  /** The count is of the required shape, within the target load, and the least such. */
  lemma BucketCountIsLeast(accounts: u64, arity: u32, bucketSize: u32)
    requires bucketSize > 0 && 2 <= arity <= 4
    ensures var n := BucketCount(accounts, arity, bucketSize);
      var num := EffectiveTargetLoad(arity, bucketSize);
      && n > 0 && n % arity == 0
      && HasShape(arity, n) && WithinTarget(accounts, n, bucketSize, num)
      && forall m: nat :: HasShape(arity, m) && WithinTarget(accounts, m, bucketSize, num) ==> n <= m
  {
    hide BucketsNeeded, EffectiveTargetLoad, WithinTarget, IsPow2, NextPowerOfTwo, DivCeil;
    var needed := BucketsNeeded(accounts, arity, bucketSize);
    var n := BucketCount(accounts, arity, bucketSize);
    NeededIff(accounts, arity, bucketSize, n);
    if arity == 3 {
      NextPowerOfTwoIsLeast(Max(DivCeil(needed, 3), 1));
      CeilIff(needed, 3, NextPowerOfTwo(Max(DivCeil(needed, 3), 1)));
    } else {
      NextPowerOfTwoIsLeast(Max(needed, arity));
      Pow2Multiple(NextPowerOfTwo(Max(needed, arity)), arity);
    }
    forall m: nat | HasShape(arity, m) && WithinTarget(accounts, m, bucketSize, EffectiveTargetLoad(arity, bucketSize))
      ensures n <= m
    {
      NeededIff(accounts, arity, bucketSize, m);
      if arity == 3 {
        CeilIff(needed, 3, m / 3);
        ShapePositive(m / 3);
      }
    }
  }

  /** The counts the repository pins: the deployed pair of candidates, the triple it replaced, and a small four-candidate store. */
  lemma PinnedCounts()
    ensures BucketCount(LIVE_ACCOUNTS, 2, 4) == 67_108_864
    ensures BucketCount(LIVE_ACCOUNTS, 3, 4) == 100_663_296
    ensures BucketCount(196_608, 4, 4) == 65_536
  {
    hide BucketCount, EffectiveTargetLoad, Pow2;
    TargetTable();
    Powers();
    PinnedAt(LIVE_ACCOUNTS, 2, 26, 8_645);
    PinnedAt(LIVE_ACCOUNTS, 3, 25, 8_930);
    PinnedAt(196_608, 4, 16, 9_000);
  }

  lemma Powers()
    ensures Pow2(15) == 32_768 && Pow2(16) == 65_536
    ensures Pow2(24) == 16_777_216 && Pow2(25) == 33_554_432 && Pow2(26) == 67_108_864
  {
    Pow2Values();
    Pow2Add(16, 8);
    Pow2Add(24, 1);
    Pow2Add(25, 1);
  }

  /** The count's power of two, from a bound that it meets and its half does not. */
  lemma PinnedAt(accounts: u64, arity: u32, t: nat, num: nat)
    requires 2 <= arity <= 4 && t > 1 && num == EffectiveTargetLoad(arity, 4)
    requires var unit := if arity == 3 then 3 else 1;
      Pow2(t - 1) * unit * (4 * num) < accounts * 10_000 <= Pow2(t) * unit * (4 * num)
    ensures BucketCount(accounts, arity, 4) == Pow2(t) * if arity == 3 then 3 else 1
  {
    hide BucketCount, EffectiveTargetLoad, Pow2, WithinTarget;
    var unit := if arity == 3 then 3 else 1;
    var n := BucketCount(accounts, arity, 4);
    BucketCountIsLeast(accounts, arity, 4);
    FourAtLeast(t);
    assert HasShape(arity, Pow2(t) * unit);
    NotBelow(accounts, Pow2(t) * unit, Pow2(t - 1) * unit, num);
    var s: nat :| n / unit == Pow2(s);
    if s < t {
      Pow2Monotone(s, t - 1);
    } else {
      Pow2Monotone(t, s);
    }
  }

  lemma FourAtLeast(t: nat)
    requires t > 1
    ensures Pow2(t) >= 4 && IsPow2(Pow2(t))
  {
  }

  lemma NotBelow(accounts: u64, full: nat, half: nat, num: nat)
    requires half * (4 * num) < accounts * 10_000 <= full * (4 * num)
    ensures WithinTarget(accounts, full, 4, num)
    ensures forall n: nat :: WithinTarget(accounts, n, 4, num) ==> n > half
  {
    forall n: nat | WithinTarget(accounts, n, 4, num) ensures n > half {
      if n <= half {
        MulMonotone(n, half, 4 * num);
      }
    }
  }

  lemma ShapePositive(n: nat)
    requires IsPow2(n)
    ensures n >= 1
  {
  }

  lemma Pow2Multiple(n: nat, arity: u32)
    requires IsPow2(n) && n >= arity && (arity == 2 || arity == 4)
    ensures n % arity == 0
  {
    var t: nat :| n == Pow2(t);
    if t < 2 {
      assert Pow2(0) == 1 && Pow2(1) == 2;
    } else {
      assert Pow2(t) == 2 * Pow2(t - 1) == 4 * Pow2(t - 2);
    }
  }

  /**
   Sizing succeeds exactly when the inputs are valid and the least fitting count is a 32-bit number, and then
   uses that count; otherwise it names what is wrong.
   */
  lemma SizingIsExact(accounts: u64, arity: u32, bucketSize: u32, fingerprintBits: u32, valueBits: u32,
                      plaintextBits: (u32, u32, u32) -> u32)
    ensures var r := ForAccounts(accounts, arity, bucketSize, fingerprintBits, valueBits, plaintextBits);
      if bucketSize == 0 then r == Err(InvalidBucketSize)
      else if fingerprintBits == 0 || valueBits == 0 then r == Err(InvalidFieldWidth)
      else if !(2 <= arity <= 4) then r == Err(InvalidArity(arity))
      else
        && (r.Ok? <==> exists m: u32 :: HasShape(arity, m) && WithinTarget(accounts, m, bucketSize, EffectiveTargetLoad(arity, bucketSize)))
        && (r.Err? ==> r.error == TooManyAccounts)
        && (r.Ok? ==>
              && BucketCount(accounts, arity, bucketSize) < TWO_32
              && r == ForNumBuckets(BucketCount(accounts, arity, bucketSize), arity, bucketSize, fingerprintBits, valueBits, plaintextBits)
              && r.value.numBuckets == BucketCount(accounts, arity, bucketSize))
  {
    if bucketSize > 0 && 2 <= arity <= 4 {
      hide BucketCount, HasShape, WithinTarget, EffectiveTargetLoad;
      BucketCountIsLeast(accounts, arity, bucketSize);
      var n := BucketCount(accounts, arity, bucketSize);
      if n < TWO_32 {
        var least: u32 := n;
        assert HasShape(arity, least);
      }
    }
  }
}
