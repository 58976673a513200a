/** LEB128 varints, zigzag, and reading at a position of the untrusted input. */
module Varint {
  import opened Words
  import opened Wrappers

  datatype CodecError =
    | BadMagic
    | UnexpectedEof
    | MalformedVarint
    | ArityMismatch(expected: u32, found: u32)
    | CountExceedsInput
    | IndexOverflow
    | DeltaOutOfRange
    | TrailingBytes

  /** A value read from the wire and the position just after it. */
  datatype Parsed<+T> = Parsed(value: T, pos: nat)

  /** `enc` is what the input holds at `pos`. */
  predicate Holds(bytes: seq<u8>, pos: nat, enc: seq<u8>) {
    pos + |enc| <= |bytes| && bytes[pos..pos + |enc|] == enc
  }

  lemma HoldsSplit(bytes: seq<u8>, pos: nat, a: seq<u8>, b: seq<u8>)
    requires Holds(bytes, pos, a + b)
    ensures Holds(bytes, pos, a) && Holds(bytes, pos + |a|, b)
  {
    var s := bytes[pos..pos + |a + b|];
    assert bytes[pos..pos + |a|] == s[..|a|];
    assert bytes[pos + |a|..pos + |a| + |b|] == s[|a|..];
  }

  // ----- Varints -----

  function Uvarint(v: nat): (enc: seq<u8>)
    ensures |enc| >= 1
  {
    if v < 128 then [v] else [128 + v % 128] + Uvarint(v / 128)
  }

  method WriteUvarint(out: seq<u8>, value: u64) returns (res: seq<u8>)
    ensures res == out + Uvarint(value)
  {
    res := out;
    var v: nat := value;
    while v / 128 != 0
      invariant res + Uvarint(v) == out + Uvarint(value)
    {
      ghost var before, u := res, v;
      res := res + [128 + v % 128];
      v := v / 128;
      assert Uvarint(u) == [128 + u % 128] + Uvarint(v);
      assert before + ([128 + u % 128] + Uvarint(v)) == res + Uvarint(v);
    }
    res := res + [v];
  }

  /** The value read when `n` groups of the varint have been consumed already. */
  function ReadUvarint(bytes: seq<u8>, pos: nat, n: nat): Result<Parsed<nat>, CodecError>
    requires n <= 10
    decreases 10 - n
  {
    if n == 10 then Err(MalformedVarint)
    else if pos >= |bytes| then Err(UnexpectedEof)
    else
      var low7 := bytes[pos] % 128;
      if n == 9 && low7 > 1 then Err(MalformedVarint)
      else if bytes[pos] < 128 then Ok(Parsed(low7, pos + 1))
      else Grouped(low7, ReadUvarint(bytes, pos + 1, n + 1))
  }

  /** Room left for the value after `n` groups. */
  function Room(n: nat): (room: nat)
    requires n <= 9
    ensures room >= 2
    decreases 9 - n
  {
    if n == 9 then 2 else 128 * Room(n + 1)
  }

  lemma RoomAtStart()
    ensures Room(0) == TWO_64
  {
    assert Room(6) == 128 * 128 * 128 * 2;
    assert Room(3) == 128 * 128 * 128 * Room(6);
  }

  /** Shifting and or-ing group by group, with the 64-bit overflow checks, reads exactly `ReadUvarint`. */
  method ReadUvarintLoop(bytes: seq<u8>, start: nat) returns (r: Result<Parsed<nat>, CodecError>)
    ensures r == ReadUvarint(bytes, start, 0)
  {
    hide Grouped;
    var result: nat, shift: nat, pos: nat := 0, 0, start;
    ghost var n := 0;
    ghost var goal := ReadUvarint(bytes, start, 0);
    ShiftedByZero(goal);
    while true
      invariant n <= 10 && shift == 7 * n
      invariant goal == Shifted(result, shift, ReadUvarint(bytes, pos, n))
      decreases 10 - n
    {
      if shift >= 64 {
        return Err(MalformedVarint);
      }
      if pos >= |bytes| {
        return Err(UnexpectedEof);
      }
      var low7 := bytes[pos] % 128;
      FitsShift(low7, n);
      if low7 * Pow2(shift) >= TWO_64 {
        return Err(MalformedVarint);
      }
      ShiftStep(result, low7, shift, ReadUvarint(bytes, pos + 1, n + 1));
      var last := bytes[pos] < 128;
      pos := pos + 1;
      result := result + low7 * Pow2(shift);
      if last {
        return Ok(Parsed(result, pos));
      }
      shift := shift + 7;
      n := n + 1;
    }
  }

  lemma ShiftedByZero(r: Result<Parsed<nat>, CodecError>)
    ensures Shifted(0, 0, r) == r
  {
  }

  function Shifted(acc: nat, shift: nat, r: Result<Parsed<nat>, CodecError>): Result<Parsed<nat>, CodecError> {
    match r
    case Err(e) => Err(e)
    case Ok(p) => Ok(Parsed(acc + p.value * Pow2(shift), p.pos))
  }

  /** `(low7 << shift) >> shift != low7` happens only for the tenth group, when it carries more than one bit. */
  lemma FitsShift(low7: nat, n: nat)
    requires low7 < 128 && n <= 9
    ensures low7 * Pow2(7 * n) >= TWO_64 <==> n == 9 && low7 > 1
  {
    if n == 9 {
      assert Pow2(7 * n) == TWO_63 by { Pow2Values(); }
    } else {
      Pow2Monotone(7 * n, 56);
      assert Pow2(56) * 256 == TWO_64 by {
        Pow2Add(8, 56);
        Pow2Values();
      }
      MulBound(low7, Pow2(7 * n), Pow2(56));
    }
  }

  lemma MulBound(low7: nat, p: nat, q: nat)
    requires low7 < 128 && p <= q
    ensures low7 * p <= 128 * q
  {
    assert low7 * p + (128 - low7) * p == 128 * p;
    assert (128 - low7) * p >= 0;
  }

  /** Folding one more group into the accumulator. */
  lemma ShiftStep(acc: nat, low7: nat, shift: nat, rest: Result<Parsed<nat>, CodecError>)
    ensures Shifted(acc, shift, Grouped(low7, rest)) == Shifted(acc + low7 * Pow2(shift), shift + 7, rest)
    ensures Shifted(acc, shift, Ok(Parsed(low7, 0))) == Ok(Parsed(acc + low7 * Pow2(shift), 0))
  {
    hide Pow2;
    Pow2Add(shift, 7);
    if rest.Ok? {
      GroupedShift(low7, rest.value.value, Pow2(shift));
      assert Pow2(7) == 128 by { Pow2Values(); }
    }
  }

  function Grouped(low7: nat, rest: Result<Parsed<nat>, CodecError>): Result<Parsed<nat>, CodecError> {
    match rest
    case Err(e) => Err(e)
    case Ok(p) => Ok(Parsed(low7 + 128 * p.value, p.pos))
  }

  lemma GroupedShift(low7: nat, v: nat, p: nat)
    ensures (low7 + 128 * v) * p == low7 * p + v * (p * 128)
  {
  }

  lemma {:induction false} UvarintRoundTrip(bytes: seq<u8>, pos: nat, v: nat, n: nat)
    requires n <= 9 && v < Room(n) && Holds(bytes, pos, Uvarint(v))
    ensures ReadUvarint(bytes, pos, n) == Ok(Parsed(v, pos + |Uvarint(v)|))
    decreases v
  {
    hide ReadUvarint, Room, Uvarint;
    UvarintFirst(v);
    ReadFirst(bytes, pos, n);
    var enc := Uvarint(v);
    assert bytes[pos] == bytes[pos..pos + |enc|][0] == enc[0];
    if v >= 128 {
      RoomNext(v, n);
      HoldsSplit(bytes, pos, [enc[0]], Uvarint(v / 128));
      UvarintRoundTrip(bytes, pos + 1, v / 128, n + 1);
    } else {
      RoomLast(n);
    }
  }

  lemma UvarintFirst(v: nat)
    ensures Uvarint(v) == if v < 128 then [v] else [128 + v % 128] + Uvarint(v / 128)
  {
  }

  lemma ReadFirst(bytes: seq<u8>, pos: nat, n: nat)
    requires n <= 9 && pos < |bytes|
    ensures var low7 := bytes[pos] % 128;
      ReadUvarint(bytes, pos, n) ==
        if n == 9 && low7 > 1 then Err(MalformedVarint)
        else if bytes[pos] < 128 then Ok(Parsed(low7, pos + 1))
        else Grouped(low7, ReadUvarint(bytes, pos + 1, n + 1))
  {
  }

  lemma RoomNext(v: nat, n: nat)
    requires n <= 9 && 128 <= v < Room(n)
    ensures n < 9 && v / 128 < Room(n + 1)
  {
    RoomLast(n);
  }

  lemma RoomLast(n: nat)
    requires n <= 9
    ensures Room(n) == if n == 9 then 2 else 128 * Room(n + 1)
  {
  }

  /** What is read fits the remaining room, and took at least as many bytes as its own shortest form. */
  lemma {:induction false} ReadUvarintBounds(bytes: seq<u8>, pos: nat, n: nat)
    requires n <= 9 && ReadUvarint(bytes, pos, n).Ok?
    ensures var p := ReadUvarint(bytes, pos, n).value;
      p.value < Room(n) && pos + |Uvarint(p.value)| <= p.pos <= |bytes|
    decreases 10 - n
  {
    ReadNeedsByte(bytes, pos, n);
    hide ReadUvarint, Room, Uvarint;
    ReadFirst(bytes, pos, n);
    RoomLast(n);
    if bytes[pos] >= 128 {
      ReadNotPastEnd(bytes, pos, n);
      ReadUvarintBounds(bytes, pos + 1, n + 1);
      var rest := ReadUvarint(bytes, pos + 1, n + 1).value;
      GroupLength(bytes[pos] % 128, rest.value);
    } else {
      UvarintFirst(bytes[pos]);
    }
  }

  lemma GroupLength(low7: nat, high: nat)
    requires low7 < 128
    ensures |Uvarint(low7 + 128 * high)| <= 1 + |Uvarint(high)|
  {
    hide Uvarint;
    UvarintFirst(low7 + 128 * high);
    assert (low7 + 128 * high) / 128 == high;
  }

  lemma ReadNeedsByte(bytes: seq<u8>, pos: nat, n: nat)
    requires n <= 9 && ReadUvarint(bytes, pos, n).Ok?
    ensures pos < |bytes|
  {
  }

  lemma ReadNotPastEnd(bytes: seq<u8>, pos: nat, n: nat)
    requires n <= 9 && pos < |bytes| && ReadUvarint(bytes, pos, n).Ok? && bytes[pos] >= 128
    ensures n < 9
  {
  }

  function UvarintLen(v: nat): nat {
    |Uvarint(v)|
  }

  method UvarintLenLoop(value: u64) returns (n: nat)
    ensures n == UvarintLen(value)
  {
    n := 1;
    var v: nat := value;
    while v >= 128
      invariant n - 1 + UvarintLen(v) == UvarintLen(value)
    {
      v := v / 128;
      n := n + 1;
    }
  }

  /** Signed to unsigned: 0, -1, 1, -2, 2, ... */
  function Zigzag(v: i64): u64 {
    if v >= 0 then 2 * v else -2 * v - 1
  }

  function Unzigzag(u: u64): i64 {
    if u % 2 == 0 then u / 2 else -(u / 2) - 1
  }

  lemma ZigzagRoundTrip(v: i64, u: u64)
    ensures Unzigzag(Zigzag(v)) == v && Zigzag(Unzigzag(u)) == u
  {
  }
}
