/** Step 5 of a lookup: the branchless scan of candidate slots, and what it amounts to. */
module Scan {
  import opened Words
  import opened Value

  /** A slot as unpacked from its cells. */
  datatype Slot = Slot(fp: u64, value: seq<u8>)

  const ALL_ONES: u64 := TWO_64 - 1

  function WrappingNeg(x: u64): u64 {
    if x == 0 then 0 else TWO_64 - x
  }

  /** `((x | -x) >> 63) - 1` for `x = a ^ b`, wrapping: all ones when the words agree, zero otherwise. */
  function CtEqMask(a: u64, b: u64): (mask: u64)
    ensures mask == if a == b then ALL_ONES else 0
  {
    XorWord(a, b);
    var x: u64 := Xor(a, b);
    NegSetsTopBit(x);
    (Or(x, WrappingNeg(x)) / TWO_63 - 1) % TWO_64
  }

  lemma XorWord(a: u64, b: u64)
    ensures Xor(a, b) < TWO_64 && (Xor(a, b) == 0 <==> a == b)
  {
    hide Xor, Or, And, Pow2;
    Pow2Values();
    BitwiseBounds(a, b, 64);
    XorZeroIffEqual(a, b);
  }

  lemma NegSetsTopBit(x: u64)
    ensures Or(x, WrappingNeg(x)) / TWO_63 == if x == 0 then 0 else 1
  {
    hide Xor, Or, And, Pow2;
    Pow2Values();
    BitwiseBounds(x, WrappingNeg(x), 64);
    OrZero(0);
  }

  predicate IsMask(m: u64) {
    m == 0 || m == ALL_ONES
  }

  lemma MaskAlgebra(m: u64, n: u64)
    requires IsMask(m) && IsMask(n)
    ensures And(m, n) == if m != 0 && n != 0 then ALL_ONES else 0
    ensures Or(m, n) == if m != 0 || n != 0 then ALL_ONES else 0
    ensures And(m, 0xFF) == if m != 0 then 0xFF else 0
  {
    hide And, Or, Pow2;
    Pow2Values();
    AndOnes(ALL_ONES, 64);
    AndOnes(0xFF, 64);
    OrZero(ALL_ONES);
    OrZero(0xFF);
    OrZero(0);
    BitwiseBounds(ALL_ONES, ALL_ONES, 64);
  }

  lemma MaskedByte(a: u8, v: u8)
    ensures And(0xFF, v) == v && And(0, v) == 0 && Or(a, 0) == a
    ensures Or(a, v) < 256
  {
    hide And, Or, Pow2;
    Pow2Values();
    AndOnes(v, 8);
    OrZero(v);
    OrZero(a);
    BitwiseBounds(a, v, 8);
  }

  // ----- What the scan selects -----

  /** The slot answers for the key: fingerprint and key tag both match, in this same slot. */
  predicate Matches(c: ValueCodec, fp: u64, tag: nat, s: Slot)
    requires c.keyTagBits <= 8 * |s.value|
  {
    s.fp == fp && Field(s.value, 0, c.keyTagBits) == tag
  }

  /** Bytewise or, as far as both go. */
  function OrBytes(a: seq<u8>, v: seq<u8>): (r: seq<u8>)
    ensures |r| == |a|
  {
    seq(|a|, i requires 0 <= i < |a| => if i < |v| then OrByte(a[i], v[i]) else a[i])
  }

  function OrByte(a: u8, v: u8): u8 {
    MaskedByte(a, v);
    Or(a, v)
  }

  predicate Sized(c: ValueCodec, slots: seq<Slot>) {
    forall s :: s in slots ==> |s.value| == c.Size()
  }

  /** The or of every matching slot's bytes. */
  function Selected(c: ValueCodec, fp: u64, tag: nat, slots: seq<Slot>): (acc: seq<u8>)
    requires Sized(c, slots)
    ensures |acc| == c.Size()
  {
    if slots == [] then seq(c.Size(), _ => 0)
    else
      var n := |slots| - 1;
      var acc := Selected(c, fp, tag, slots[..n]);
      if Matches(c, fp, tag, slots[n]) then OrBytes(acc, slots[n].value) else acc
  }

  predicate AnyMatch(c: ValueCodec, fp: u64, tag: nat, slots: seq<Slot>)
    requires Sized(c, slots)
  {
    exists s :: s in slots && Matches(c, fp, tag, s)
  }

  /** What a lookup makes of the slots it may look at. */
  function Verdict(c: ValueCodec, key: Address, fp: u64, slots: seq<Slot>): Lookup
    requires Sized(c, slots)
  {
    if AnyMatch(c, fp, c.KeyTag(key), slots) then Decoded(c, key, Selected(c, fp, c.KeyTag(key), slots)) else NotFound
  }

  /** One slot of the branchless scan. */
  method ScanSlot(c: ValueCodec, fp: u64, tag: u64, acc: seq<u8>, found: u64, slot: Slot)
    returns (acc': seq<u8>, found': u64)
    requires c.keyTagBits <= 64 && c.keyTagBits <= 8 * |slot.value| && IsMask(found)
    ensures acc' == if Matches(c, fp, tag, slot) then OrBytes(acc, slot.value) else acc
    ensures found' == if Matches(c, fp, tag, slot) then ALL_ONES else found
  {
    var stored := ExtractKeyTag(c, slot.value);
    TagFitsWord(slot.value, c.keyTagBits);
    MaskAlgebra(CtEqMask(slot.fp, fp), CtEqMask(stored, tag));
    var mask: u64 := And(CtEqMask(slot.fp, fp), CtEqMask(stored, tag));
    MaskAlgebra(found, mask);
    MaskAlgebra(mask, 0);
    var mask8: u8 := And(mask, 0xFF);
    acc' := acc;
    for i := 0 to Min(|acc|, |slot.value|)
      invariant |acc'| == |acc|
      invariant forall k :: i <= k < |acc| ==> acc'[k] == acc[k]
      invariant forall k :: 0 <= k < i ==> acc'[k] == if mask != 0 then OrBytes(acc, slot.value)[k] else acc[k]
    {
      MaskedByte(acc[i], slot.value[i]);
      acc' := acc'[i := Or(acc'[i], And(mask8, slot.value[i]))];
    }
    found' := Or(found, mask);
  }

  lemma TagFitsWord(bytes: seq<u8>, n: nat)
    requires n <= 64 && n <= 8 * |bytes|
    ensures Field(bytes, 0, n) < TWO_64
  {
    Pow2Monotone(n, 64);
    Pow2Values();
  }

  lemma SelectedPush(c: ValueCodec, fp: u64, tag: nat, slots: seq<Slot>, s: Slot)
    requires Sized(c, slots) && |s.value| == c.Size()
    ensures Sized(c, slots + [s])
    ensures Selected(c, fp, tag, slots + [s]) ==
      if Matches(c, fp, tag, s) then OrBytes(Selected(c, fp, tag, slots), s.value) else Selected(c, fp, tag, slots)
    ensures AnyMatch(c, fp, tag, slots + [s]) <==> AnyMatch(c, fp, tag, slots) || Matches(c, fp, tag, s)
  {
    assert (slots + [s])[..|slots|] == slots;
    if AnyMatch(c, fp, tag, slots) {
      var m :| m in slots && Matches(c, fp, tag, m);
      assert m in slots + [s];
    }
    if Matches(c, fp, tag, s) {
      assert s in slots + [s];
    }
  }

  // ----- The reference scan -----

  /** A slot that does not match on both counts contributes nothing, wherever it sits and whatever its bytes. */
  lemma {:induction false} OthersContributeNothing(c: ValueCodec, fp: u64, tag: nat, a: seq<Slot>, s: Slot, b: seq<Slot>)
    requires Sized(c, a + [s] + b) && Sized(c, a + b) && |s.value| == c.Size() && !Matches(c, fp, tag, s)
    ensures Selected(c, fp, tag, a + [s] + b) == Selected(c, fp, tag, a + b)
    decreases |b|
  {
    hide OrBytes, Matches;
    if b == [] {
      assert a + [s] + b == a + [s] && a + b == a;
      assert (a + [s])[..|a|] == a;
    } else {
      var n := |b| - 1;
      assert (a + [s] + b)[..|a| + 1 + n] == a + [s] + b[..n];
      assert (a + b)[..|a| + n] == a + b[..n];
      OthersContributeNothing(c, fp, tag, a, s, b[..n]);
    }
  }

  lemma {:induction false} NoMatchSelectsNothing(c: ValueCodec, fp: u64, tag: nat, slots: seq<Slot>)
    requires Sized(c, slots) && !AnyMatch(c, fp, tag, slots)
    ensures Selected(c, fp, tag, slots) == seq(c.Size(), _ => 0)
  {
    if slots != [] {
      assert slots[|slots| - 1] in slots;
      NoMatchSelectsNothing(c, fp, tag, slots[..|slots| - 1]);
    }
  }

  /** Whatever matches, a selected bit is set exactly when some matching slot has it set. */
  lemma {:induction false} SelectedBits(c: ValueCodec, fp: u64, tag: nat, slots: seq<Slot>, i: nat, b: nat)
    requires Sized(c, slots) && i < c.Size()
    ensures Bit(Selected(c, fp, tag, slots)[i], b) == 1 <==>
      exists s :: s in slots && s.fp == fp && Field(s.value, 0, c.keyTagBits) == tag && Bit(s.value[i], b) == 1
  {
    hide Field, Bit;
    if slots == [] {
      NoBits(b);
    } else {
      var n := |slots| - 1;
      assert slots == slots[..n] + [slots[n]];
      SelectedBits(c, fp, tag, slots[..n], i, b);
      BitOr(Selected(c, fp, tag, slots[..n])[i], slots[n].value[i], b);
    }
  }

  lemma NoBits(b: nat)
    ensures Bit(0, b) == 0
  {
    BitSmall(0, b, 0);
  }

  /** `i` is the one slot matching both fingerprint and key tag. */
  ghost predicate OnlyMatch(c: ValueCodec, fp: u64, tag: nat, slots: seq<Slot>, i: nat)
    requires Sized(c, slots)
  {
    i < |slots| && forall k :: 0 <= k < |slots| ==> (Matches(c, fp, tag, slots[k]) <==> k == i)
  }

  /** The branchless or-select yields exactly the bytes of the only matching slot. */
  lemma {:induction false} SelectsTheOnlyMatch(c: ValueCodec, fp: u64, tag: nat, slots: seq<Slot>, i: nat)
    requires Sized(c, slots) && OnlyMatch(c, fp, tag, slots, i)
    ensures Selected(c, fp, tag, slots) == slots[i].value
  {
    hide Matches;
    var n := |slots| - 1;
    if i == n {
      forall k | 0 <= k < n ensures !Matches(c, fp, tag, slots[..n][k]) {
        assert slots[..n][k] == slots[k];
      }
      NoMatchSelectsNothing(c, fp, tag, slots[..n]);
      OrWithZeros(slots[n].value);
    } else {
      assert OnlyMatch(c, fp, tag, slots[..n], i) by {
        forall k | 0 <= k < n ensures Matches(c, fp, tag, slots[..n][k]) <==> k == i {
          assert slots[..n][k] == slots[k];
        }
      }
      SelectsTheOnlyMatch(c, fp, tag, slots[..n], i);
    }
  }

  lemma OrWithZeros(v: seq<u8>)
    ensures OrBytes(seq(|v|, _ => 0), v) == v
  {
    forall i | 0 <= i < |v| ensures Or(0, v[i]) == v[i] {
      OrZero(v[i]);
    }
  }

  /** A lookup over slots of which exactly one holds this key's encoded balance finds that balance. */
  lemma FindsBalance(c: ValueCodec, key: Address, fp: u64, slots: seq<Slot>, i: nat, balance: nat)
    requires c.ValidWidths() && Sized(c, slots) && OnlyMatch(c, fp, c.KeyTag(key), slots, i)
    requires Layout(c, slots[i].value, c.KeyTag(key), balance, c.Checksum(balance))
    ensures Verdict(c, key, fp, slots) == Found(balance)
  {
    assert Matches(c, fp, c.KeyTag(key), slots[i]) && slots[i] in slots;
    SelectsTheOnlyMatch(c, fp, c.KeyTag(key), slots, i);
    RoundTrip(c, key, key, balance, slots[i].value);
  }
}
