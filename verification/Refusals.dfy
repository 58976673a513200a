/** What the decoders refuse and by what name: varints that do not end or overflow, edits too wide, messages cut short or continued. */
module Refusals {
  import opened Words
  import opened Wrappers
  import opened Deltas
  import opened Varint
  import opened Codec
  import opened CodecTheorems
  import opened Formats
  import Sorting
  import SetupPrefix
  import U32s
  import Wire

  // ----- Varints -----

  /** A byte that is not marked ends a varint of `len` bytes at `pos`. */
  predicate Ends(bytes: seq<u8>, pos: nat, len: nat) {
    && 1 <= len && pos + len <= |bytes| && bytes[pos + len - 1] < 128
    && forall i :: pos <= i < pos + len - 1 ==> bytes[i] >= 128
  }

  /** Accepted are exactly the varints of at most ten bytes whose tenth, if there is one, is 0 or 1. */
  lemma {:induction false} EndedVarint(bytes: seq<u8>, pos: nat, n: nat, len: nat)
    requires n <= 10 && Ends(bytes, pos, len)
    ensures var r := ReadUvarint(bytes, pos, n);
      if n + len < 10 || (n + len == 10 && bytes[pos + len - 1] <= 1) then r.Ok? && r.value.pos == pos + len
      else r == Err(MalformedVarint)
    decreases len
  {
    if len > 1 && n < 10 {
      EndedVarint(bytes, pos + 1, n + 1, len - 1);
    }
  }

  /** A varint that runs into the end of the input is cut short, unless ten bytes of it were there. */
  lemma {:induction false} EndlessVarint(bytes: seq<u8>, pos: nat, n: nat)
    requires n <= 10 && pos <= |bytes| && forall i :: pos <= i < |bytes| ==> bytes[i] >= 128
    ensures ReadUvarint(bytes, pos, n) == Err(if |bytes| - pos < 10 - n then UnexpectedEof else MalformedVarint)
    decreases 10 - n
  {
    if n < 10 && pos < |bytes| {
      EndlessVarint(bytes, pos + 1, n + 1);
    }
  }

  /** The bytes from `pos` to `p.pos` are the digits of `p.value`, least significant first, and there are no others. */
  ghost predicate DigitsAt(bytes: seq<u8>, pos: nat, p: Parsed<nat>) {
    && pos < p.pos <= |bytes| && p.value < Power128(p.pos - pos)
    && forall i :: 0 <= i < p.pos - pos ==> Digit(p.value, i) == bytes[pos + i] % 128
  }

  /** What is read has the bytes as its digits. */
  lemma {:induction false} VarintDigits(bytes: seq<u8>, pos: nat, n: nat)
    requires n <= 9 && ReadUvarint(bytes, pos, n).Ok?
    ensures DigitsAt(bytes, pos, ReadUvarint(bytes, pos, n).value)
    decreases 10 - n
  {
    ReadNeedsByte(bytes, pos, n);
    hide ReadUvarint, DigitsAt;
    ReadFirst(bytes, pos, n);
    if bytes[pos] >= 128 {
      ReadNotPastEnd(bytes, pos, n);
      VarintDigits(bytes, pos + 1, n + 1);
      MoreDigits(bytes, pos, ReadUvarint(bytes, pos + 1, n + 1).value);
    } else {
      OneByte(bytes, pos);
    }
  }

  lemma OneByte(bytes: seq<u8>, pos: nat)
    requires pos < |bytes| && bytes[pos] < 128
    ensures DigitsAt(bytes, pos, Parsed(bytes[pos] % 128, pos + 1))
  {
    assert Power128(0) == 1 && Power128(1) == 128;
  }

  lemma MoreDigits(bytes: seq<u8>, pos: nat, rest: Parsed<nat>)
    requires pos < |bytes| && DigitsAt(bytes, pos + 1, rest)
    ensures DigitsAt(bytes, pos, Parsed(bytes[pos] % 128 + 128 * rest.value, rest.pos))
  {
    hide Digit, Power128;
    var low7, len := bytes[pos] % 128, rest.pos - pos - 1;
    var v := low7 + 128 * rest.value;
    OneDigitMore(low7, rest.value, 0, len);
    forall i | 0 <= i < len + 1 ensures Digit(v, i) == bytes[pos + i] % 128 {
      OneDigitMore(low7, rest.value, i, len);
      if i > 0 {
        assert Digit(rest.value, i - 1) == bytes[pos + 1 + (i - 1)] % 128;
      }
    }
  }

  lemma OneDigitMore(low7: nat, high: nat, i: nat, len: nat)
    requires low7 < 128 && high < Power128(len)
    ensures var v := low7 + 128 * high;
      && v < Power128(len + 1)
      && Digit(v, i) == if i == 0 then low7 else Digit(high, i - 1)
  {
    var v := low7 + 128 * high;
    assert v / 128 == high && v % 128 == low7;
    assert Power128(0) == 1;
    if i > 0 {
      DivPower(v, i);
    }
  }

  // ----- Edits too wide for the geometry -----

  lemma WideCell(bytes: seq<u8>, pos: nat, e: Edit, prev: u16, plaintextBits: nat)
    requires prev <= e.off && Abs(e.delta) >= Pow2(plaintextBits)
    requires Holds(bytes, pos, Uvarint(e.off - prev) + Uvarint(Zigzag(e.delta)))
    ensures ReadCell(bytes, pos, prev, plaintextBits) == Err(DeltaOutOfRange)
  {
    hide Holds, Uvarint, ReadUvarint, Pow2;
    ZigzagRoundTrip(e.delta, 0);
    var a, b := Uvarint(e.off - prev), Uvarint(Zigzag(e.delta));
    HoldsSplit(bytes, pos, a, b);
    ReadBack(bytes, pos, e.off - prev);
    ReadBack(bytes, pos + |a|, Zigzag(e.delta));
  }

  lemma {:induction false} WideCells(bytes: seq<u8>, pos: nat, cells: seq<Edit>, prev: u16, plaintextBits: nat)
    requires AscendingCells(cells, prev) && !BoundedCells(cells, plaintextBits)
    requires Holds(bytes, pos, EncodeCells(cells, prev))
    ensures ReadCells(bytes, pos, |cells|, prev, plaintextBits) == Err(DeltaOutOfRange)
    decreases |cells|
  {
    hide ReadCell, ReadCells, EncodeCells, AscendingCells, BoundedCells, Holds, Uvarint, Zigzag, Pow2;
    NoneWide(plaintextBits);
    var e := cells[0];
    FirstCellOrRest(cells, prev, plaintextBits);
    var head := Uvarint(e.off - prev) + Uvarint(Zigzag(e.delta));
    CellsStep(bytes, pos, |cells|, prev, plaintextBits);
    HoldsSplit(bytes, pos, head, EncodeCells(cells[1..], e.off));
    if Abs(e.delta) >= Pow2(plaintextBits) {
      WideCell(bytes, pos, e, prev, plaintextBits);
    } else {
      CellRoundTrip(bytes, pos, e, prev, plaintextBits);
      WideCells(bytes, pos + |head|, cells[1..], e.off, plaintextBits);
    }
  }

  lemma FirstCellOrRest(cells: seq<Edit>, prev: u16, plaintextBits: nat)
    requires AscendingCells(cells, prev) && cells != []
    ensures prev <= cells[0].off && AscendingCells(cells[1..], cells[0].off)
    ensures BoundedCells(cells, plaintextBits) <==> Abs(cells[0].delta) < Pow2(plaintextBits) && BoundedCells(cells[1..], plaintextBits)
    ensures EncodeCells(cells, prev) == Uvarint(cells[0].off - prev) + Uvarint(Zigzag(cells[0].delta)) + EncodeCells(cells[1..], cells[0].off)
  {
    hide Uvarint, Zigzag, Pow2;
    assert cells == [cells[0]] + cells[1..];
  }

  lemma CellsStep(bytes: seq<u8>, pos: nat, count: nat, prev: u16, plaintextBits: nat)
    requires count > 0
    ensures var c := ReadCell(bytes, pos, prev, plaintextBits);
      && (c.Err? ==> ReadCells(bytes, pos, count, prev, plaintextBits) == Err(c.error))
      && (c.Ok? ==>
            var rest := ReadCells(bytes, c.value.pos, count - 1, c.value.value.off, plaintextBits);
            rest.Err? ==> ReadCells(bytes, pos, count, prev, plaintextBits) == Err(rest.error))
  {
    hide ReadCell;
  }

  lemma WideRow(bytes: seq<u8>, pos: nat, r: RowEdits, prev: u32, plaintextBits: nat)
    requires prev <= r.row && AscendingCells(r.cells, 0) && !BoundedCells(r.cells, plaintextBits) && |r.cells| < TWO_64
    requires Holds(bytes, pos, EncodeRow(r, prev))
    ensures ReadRow(bytes, pos, prev, plaintextBits) == Err(DeltaOutOfRange)
  {
    hide ReadCount, ReadCells, EncodeCells, Holds, Uvarint, ReadUvarint;
    var gap, cells := Uvarint(r.row - prev), EncodeCells(r.cells, 0);
    HoldsSplit(bytes, pos, gap, Uvarint(|r.cells|) + cells);
    ReadBack(bytes, pos, r.row - prev);
    CountRoundTrip(bytes, pos + |gap|, |r.cells|, cells);
    WideCells(bytes, pos + |gap| + |Uvarint(|r.cells|)|, r.cells, 0, plaintextBits);
  }

  lemma NoneWide(plaintextBits: nat)
    ensures BoundedCells([], plaintextBits) && Bounded([], plaintextBits) && AllBounded([], plaintextBits)
  {
  }

  lemma FirstRowOrRest(rows: SegmentDelta, plaintextBits: nat)
    requires rows != [] && forall r :: r in rows ==> |r.cells| < TWO_64
    ensures |rows[0].cells| < TWO_64 && forall r :: r in rows[1..] ==> |r.cells| < TWO_64
    ensures Bounded(rows, plaintextBits) <==> BoundedCells(rows[0].cells, plaintextBits) && Bounded(rows[1..], plaintextBits)
  {
    hide BoundedCells;
    assert rows == [rows[0]] + rows[1..];
  }

  lemma {:induction false} WideRows(bytes: seq<u8>, pos: nat, rows: SegmentDelta, prev: u32, plaintextBits: nat)
    requires AscendingRows(rows, prev) && !Bounded(rows, plaintextBits)
    requires forall r :: r in rows ==> |r.cells| < TWO_64
    requires Holds(bytes, pos, EncodeRows(rows, prev))
    ensures ReadRows(bytes, pos, |rows|, prev, plaintextBits) == Err(DeltaOutOfRange)
    decreases |rows|
  {
    hide ReadRow, ReadRows, EncodeRow, EncodeRows, Holds, AscendingRows, AscendingCells, BoundedCells, Bounded;
    NoneWide(plaintextBits);
    var r := rows[0];
    RowsFirst(bytes, pos, rows, prev, plaintextBits);
    RowsStep(bytes, pos, |rows|, prev, plaintextBits);
    FirstRowOrRest(rows, plaintextBits);
    HoldsSplit(bytes, pos, EncodeRow(r, prev), EncodeRows(rows[1..], r.row));
    if !BoundedCells(r.cells, plaintextBits) {
      WideRow(bytes, pos, r, prev, plaintextBits);
    } else {
      RowRoundTrip(bytes, pos, r, prev, plaintextBits);
      WideRows(bytes, pos + |EncodeRow(r, prev)|, rows[1..], r.row, plaintextBits);
    }
  }

  lemma RowsStep(bytes: seq<u8>, pos: nat, count: nat, prev: u32, plaintextBits: nat)
    requires count > 0
    ensures var r := ReadRow(bytes, pos, prev, plaintextBits);
      && (r.Err? ==> ReadRows(bytes, pos, count, prev, plaintextBits) == Err(r.error))
      && (r.Ok? ==>
            var rest := ReadRows(bytes, r.value.pos, count - 1, r.value.value.row, plaintextBits);
            rest.Err? ==> ReadRows(bytes, pos, count, prev, plaintextBits) == Err(rest.error))
  {
    hide ReadRow;
  }

  lemma WideSegment(bytes: seq<u8>, pos: nat, rows: SegmentDelta, plaintextBits: nat)
    requires |rows| < TWO_64 && (forall r :: r in rows ==> |r.cells| < TWO_64) && !Bounded(rows, plaintextBits)
    requires Holds(bytes, pos, SegmentBytes(rows))
    ensures ReadSegment(bytes, pos, plaintextBits) == Err(DeltaOutOfRange)
  {
    hide ReadCount, ReadRows, EncodeRows, SortSegment, Holds, Uvarint, Bounded;
    var sorted := SortSegment(rows);
    SortSegmentAscending(rows);
    SortedCounts(rows);
    if Bounded(sorted, plaintextBits) {
      SortKeepsWide(rows, plaintextBits);
    }
    CountRoundTrip(bytes, pos, |rows|, EncodeRows(sorted, 0));
    WideRows(bytes, pos + |Uvarint(|rows|)|, sorted, 0, plaintextBits);
  }

  lemma SortKeepsWide(rows: SegmentDelta, plaintextBits: nat)
    requires Bounded(SortSegment(rows), plaintextBits)
    ensures Bounded(rows, plaintextBits)
  {
    hide Pow2;
    var sorted := Sorting.StableSort(RowKey(), rows);
    forall r, e | r in rows && e in r.cells ensures Abs(e.delta) < Pow2(plaintextBits) {
      Sorting.SortIn(RowKey(), rows, r);
      var i :| 0 <= i < |sorted| && sorted[i] == r;
      assert SortSegment(rows)[i].cells == SortCells(r.cells);
      Sorting.SortIn(OffKey(), r.cells, e);
      assert BoundedCells(SortSegment(rows)[i].cells, plaintextBits);
    }
  }

  ghost predicate Counted(segs: seq<SegmentDelta>) {
    forall s :: s in segs ==> |s| < TWO_64 && forall r :: r in s ==> |r.cells| < TWO_64
  }

  ghost predicate AllBounded(segs: seq<SegmentDelta>, plaintextBits: nat) {
    forall s :: s in segs ==> Bounded(s, plaintextBits)
  }

  lemma FirstSegmentOrRest(segs: seq<SegmentDelta>, plaintextBits: nat)
    requires Counted(segs) && segs != []
    ensures Counted(segs[1..]) && |segs[0]| < TWO_64 && forall r :: r in segs[0] ==> |r.cells| < TWO_64
    ensures AllBounded(segs, plaintextBits) <==> Bounded(segs[0], plaintextBits) && AllBounded(segs[1..], plaintextBits)
    ensures Bounded(segs[0], plaintextBits) ==> Encodable(segs[0], plaintextBits)
    ensures EncodeSegments(segs) == SegmentBytes(segs[0]) + EncodeSegments(segs[1..])
  {
    hide Bounded, SegmentBytes;
    assert segs == [segs[0]] + segs[1..];
  }

  lemma {:induction false} WideSegments(bytes: seq<u8>, pos: nat, segs: seq<SegmentDelta>, plaintextBits: nat)
    requires Counted(segs) && !AllBounded(segs, plaintextBits)
    requires Holds(bytes, pos, EncodeSegments(segs))
    ensures ReadSegments(bytes, pos, |segs|, plaintextBits) == Err(DeltaOutOfRange)
    decreases |segs|
  {
    hide ReadSegment, ReadSegments, SegmentBytes, EncodeSegments, SortSegment, Holds, Bounded, AllBounded, Counted, Encodable;
    NoneWide(plaintextBits);
    var head, rest := SegmentBytes(segs[0]), EncodeSegments(segs[1..]);
    SegmentsStep(bytes, pos, |segs|, plaintextBits);
    FirstSegmentOrRest(segs, plaintextBits);
    HoldsSplit(bytes, pos, head, rest);
    if !Bounded(segs[0], plaintextBits) {
      WideSegment(bytes, pos, segs[0], plaintextBits);
    } else {
      SegmentRoundTrip(bytes, pos, segs[0], plaintextBits);
      WideSegments(bytes, pos + |head|, segs[1..], plaintextBits);
    }
  }

  lemma SegmentsStep(bytes: seq<u8>, pos: nat, arity: nat, plaintextBits: nat)
    requires arity > 0
    ensures var s := ReadSegment(bytes, pos, plaintextBits);
      && (s.Err? ==> ReadSegments(bytes, pos, arity, plaintextBits) == Err(s.error))
      && (s.Ok? ==>
            var rest := ReadSegments(bytes, s.value.pos, arity - 1, plaintextBits);
            rest.Err? ==> ReadSegments(bytes, pos, arity, plaintextBits) == Err(rest.error))
  {
    hide ReadSegment;
  }

  ghost predicate AllFit(d: BlockDelta, plaintextBits: nat) {
    forall s, r, e :: s in d.perSegment && r in s && e in r.cells ==> Abs(e.delta) < Pow2(plaintextBits)
  }

  /** Under any width, every delta's encoding decodes if and only if every edit fits the width; otherwise that is the error. */
  lemma EncodingAcceptedIff(d: BlockDelta, plaintextBits: u32)
    requires 1 <= plaintextBits <= 31 && |d.perSegment| < 256 && Countable(d)
    ensures Decode(Encode(d), plaintextBits, |d.perSegment|) ==
      if AllFit(d, plaintextBits) then Ok(SortDelta(d)) else Err(DeltaOutOfRange)
  {
    FitMeansBounded(d, plaintextBits);
    assert Counted(d.perSegment);
    hide Bounded, AllFit, SortSegment, Holds, EncodeSegments, ReadSegments, Encode, FromLe, Pow2;
    if AllFit(d, plaintextBits) {
      DeltaRoundTrip(d, plaintextBits);
    } else {
      HeaderRoundTrip(d);
      WideSegments(Encode(d), 13, d.perSegment, plaintextBits);
    }
  }

  lemma FitMeansBounded(d: BlockDelta, plaintextBits: nat)
    ensures AllFit(d, plaintextBits) <==> AllBounded(d.perSegment, plaintextBits)
  {
    hide Pow2;
    if AllBounded(d.perSegment, plaintextBits) {
      forall s, r, e | s in d.perSegment && r in s && e in r.cells ensures Abs(e.delta) < Pow2(plaintextBits) {
        assert Bounded(s, plaintextBits) && BoundedCells(r.cells, plaintextBits);
      }
    }
  }

  // ----- Messages continued, and messages cut short -----

  lemma CountOnPrefix(a: seq<u8>, b: seq<u8>, pos: nat)
    requires a <= b && ReadCount(a, pos).Ok?
    ensures ReadCount(b, pos) == ReadCount(a, pos)
  {
    SetupPrefix.UvarintOnPrefix(a, b, pos, 0);
  }

  lemma CellOnPrefix(a: seq<u8>, b: seq<u8>, pos: nat, prev: u16, plaintextBits: nat)
    requires a <= b && ReadCell(a, pos, prev, plaintextBits).Ok?
    ensures ReadCell(b, pos, prev, plaintextBits) == ReadCell(a, pos, prev, plaintextBits)
  {
    hide ReadUvarint, Pow2;
    SetupPrefix.UvarintOnPrefix(a, b, pos, 0);
    SetupPrefix.UvarintOnPrefix(a, b, ReadUvarint(a, pos, 0).value.pos, 0);
  }

  lemma {:induction false} CellsOnPrefix(a: seq<u8>, b: seq<u8>, pos: nat, count: nat, prev: u16, plaintextBits: nat)
    requires a <= b && ReadCells(a, pos, count, prev, plaintextBits).Ok?
    ensures ReadCells(b, pos, count, prev, plaintextBits) == ReadCells(a, pos, count, prev, plaintextBits)
    decreases count
  {
    hide ReadCell;
    if count > 0 {
      CellOnPrefix(a, b, pos, prev, plaintextBits);
      var c := ReadCell(a, pos, prev, plaintextBits).value;
      CellsOnPrefix(a, b, c.pos, count - 1, c.value.off, plaintextBits);
    }
  }

  lemma RowOnPrefix(a: seq<u8>, b: seq<u8>, pos: nat, prev: u32, plaintextBits: nat)
    requires a <= b && ReadRow(a, pos, prev, plaintextBits).Ok?
    ensures ReadRow(b, pos, prev, plaintextBits) == ReadRow(a, pos, prev, plaintextBits)
  {
    hide ReadUvarint, ReadCount, ReadCells;
    SetupPrefix.UvarintOnPrefix(a, b, pos, 0);
    CountOnPrefix(a, b, ReadUvarint(a, pos, 0).value.pos);
    var count := ReadCount(a, ReadUvarint(a, pos, 0).value.pos).value;
    CellsOnPrefix(a, b, count.pos, count.value, 0, plaintextBits);
  }

  lemma {:induction false} RowsOnPrefix(a: seq<u8>, b: seq<u8>, pos: nat, count: nat, prev: u32, plaintextBits: nat)
    requires a <= b && ReadRows(a, pos, count, prev, plaintextBits).Ok?
    ensures ReadRows(b, pos, count, prev, plaintextBits) == ReadRows(a, pos, count, prev, plaintextBits)
    decreases count
  {
    hide ReadRow;
    if count > 0 {
      RowOnPrefix(a, b, pos, prev, plaintextBits);
      var r := ReadRow(a, pos, prev, plaintextBits).value;
      RowsOnPrefix(a, b, r.pos, count - 1, r.value.row, plaintextBits);
    }
  }

  lemma {:induction false} SegmentsOnPrefix(a: seq<u8>, b: seq<u8>, pos: nat, arity: nat, plaintextBits: nat)
    requires a <= b && ReadSegments(a, pos, arity, plaintextBits).Ok?
    ensures ReadSegments(b, pos, arity, plaintextBits) == ReadSegments(a, pos, arity, plaintextBits)
    decreases arity
  {
    hide ReadCount, ReadRows;
    if arity > 0 {
      CountOnPrefix(a, b, pos);
      var count := ReadCount(a, pos).value;
      RowsOnPrefix(a, b, count.pos, count.value, 0, plaintextBits);
      SegmentsOnPrefix(a, b, ReadSegment(a, pos, plaintextBits).value.pos, arity - 1, plaintextBits);
    }
  }

  /** Whatever continues an accepted delta is refused for its trailing bytes. */
  lemma LongerDelta(a: seq<u8>, b: seq<u8>, plaintextBits: u32, arity: u32)
    requires a <= b && |a| < |b| && Decode(a, plaintextBits, arity).Ok?
    ensures Decode(b, plaintextBits, arity) == Err(TrailingBytes)
  {
    hide ReadSegments, FromLe;
    assert a[..4] == b[..4] && a[12] == b[12];
    SegmentsOnPrefix(a, b, 13, arity, plaintextBits);
  }

  /** A delta's encoding decodes from all of its bytes and from no fewer. */
  lemma OnlyWholeDelta(d: BlockDelta, plaintextBits: u32, n: nat)
    requires 1 <= plaintextBits <= 31 && |d.perSegment| < 256 && Countable(d) && AllFit(d, plaintextBits)
    requires n <= |Encode(d)|
    ensures Decode(Encode(d)[..n], plaintextBits, |d.perSegment|).Ok? <==> n == |Encode(d)|
  {
    hide Decode, Encode, AllFit;
    EncodingAcceptedIff(d, plaintextBits);
    var whole := Encode(d);
    assert whole[..|whole|] == whole;
    if n < |whole| && Decode(whole[..n], plaintextBits, |d.perSegment|).Ok? {
      LongerDelta(whole[..n], whole, plaintextBits, |d.perSegment|);
    }
  }

  /** The header's faults after the magic: cut short before the arity, or another arity. */
  lemma HeaderFaults(bytes: seq<u8>, plaintextBits: u32, arity: u32)
    requires 1 <= plaintextBits <= 31 && |bytes| >= 4 && bytes[..4] == [0x52, 0x50, 0x44, 0x31]
    ensures |bytes| < 13 ==> Decode(bytes, plaintextBits, arity) == Err(UnexpectedEof)
    ensures |bytes| >= 13 && bytes[12] != arity ==> Decode(bytes, plaintextBits, arity) == Err(ArityMismatch(arity, bytes[12]))
  {
  }

  /** A count that exceeds the bytes left is refused as such, before any element is read. */
  lemma CountTooLarge(bytes: seq<u8>, pos: nat, n: u64, plaintextBits: nat)
    requires Holds(bytes, pos, Uvarint(n)) && n > |bytes| - pos - |Uvarint(n)|
    ensures ReadSegment(bytes, pos, plaintextBits) == Err(CountExceedsInput)
  {
    ReadBack(bytes, pos, n);
  }

  /** A gap past the last row, or past the last offset, is refused as such. */
  lemma GapTooLarge(bytes: seq<u8>, pos: nat, gap: u64, row: u32, off: u16, plaintextBits: nat)
    requires Holds(bytes, pos, Uvarint(gap))
    ensures row + gap >= 4_294_967_296 ==> ReadRow(bytes, pos, row, plaintextBits) == Err(IndexOverflow)
    ensures off + gap >= 65_536 ==> ReadCell(bytes, pos, off, plaintextBits) == Err(IndexOverflow)
  {
    ReadBack(bytes, pos, gap);
  }

  // ----- Query and response bundles -----

  /** The refusal for the first vector not of the length asked for: over the ceiling, or too short. */
  function WrongLength(j: nat, expected: nat, found: nat): Wire.WireError {
    if found > expected then Wire.InCodec(CountExceedsInput) else Wire.SegmentLengthMismatch(j, expected, found)
  }

  lemma {:induction false} WrongVector(bytes: seq<u8>, pos: nat, lengths: seq<nat>, vs: seq<seq<u32>>, j: nat, k: nat)
    requires j <= k < |vs| == |lengths| && forall v :: v in vs ==> |v| < TWO_64
    requires |vs[k]| != lengths[k] && forall i :: j <= i < k ==> |vs[i]| == lengths[i]
    requires Holds(bytes, pos, Wire.EncodeVectors(vs[j..]))
    ensures Wire.ReadVectors(bytes, pos, lengths, j) == Err(WrongLength(k, lengths[k], |vs[k]|))
    decreases k - j
  {
    hide U32s.EncodeU32s, Wire.EncodeVectors, U32s.ReadU32s, Wire.ReadVectors, Holds, Wire.Cons;
    Wire.VectorsFirst(bytes, pos, lengths, vs, j);
    VectorsStep(bytes, pos, lengths, j);
    assert vs[j] in vs;
    var head := U32s.EncodeU32s(vs[j]);
    HoldsSplit(bytes, pos, head, Wire.EncodeVectors(vs[j + 1..]));
    if j < k {
      U32s.U32sRoundTrip(bytes, pos, vs[j], lengths[j]);
      WrongVector(bytes, pos + |head|, lengths, vs, j + 1, k);
    } else if |vs[j]| > lengths[j] {
      OverCeiling(bytes, pos, vs[j], lengths[j]);
    } else {
      U32s.U32sRoundTrip(bytes, pos, vs[j], lengths[j]);
    }
  }

  lemma VectorsStep(bytes: seq<u8>, pos: nat, lengths: seq<nat>, j: nat)
    requires j < |lengths|
    ensures var v := U32s.ReadU32s(bytes, pos, lengths[j]);
      && (v.Err? ==> Wire.ReadVectors(bytes, pos, lengths, j) == Err(Wire.InCodec(v.error)))
      && (v.Ok? && |v.value.value| != lengths[j] ==>
            Wire.ReadVectors(bytes, pos, lengths, j) == Err(Wire.SegmentLengthMismatch(j, lengths[j], |v.value.value|)))
      && (v.Ok? && |v.value.value| == lengths[j] && Wire.ReadVectors(bytes, v.value.pos, lengths, j + 1).Err? ==>
            Wire.ReadVectors(bytes, pos, lengths, j) == Err(Wire.ReadVectors(bytes, v.value.pos, lengths, j + 1).error))
  {
    hide U32s.ReadU32s;
  }

  lemma OverCeiling(bytes: seq<u8>, pos: nat, values: seq<u32>, ceiling: nat)
    requires ceiling < |values| < TWO_64 && Holds(bytes, pos, U32s.EncodeU32s(values))
    ensures U32s.ReadU32s(bytes, pos, ceiling) == Err(CountExceedsInput)
  {
    hide Uvarint, ReadUvarint, U32s.Packed;
    HoldsSplit(bytes, pos, Uvarint(|values|), U32s.Packed(values));
    ReadBack(bytes, pos, |values|);
  }

  /** Queries of other lengths than the deployment's are refused for the first segment that differs. */
  lemma QueryOfOtherLengths(queries: seq<seq<u32>>, lengths: seq<nat>, k: nat)
    requires k < |queries| == |lengths| < 256 && forall q :: q in queries ==> |q| < TWO_64
    requires |queries[k]| != lengths[k] && forall i :: 0 <= i < k ==> |queries[i]| == lengths[i]
    ensures Wire.DecodeQueryBundle(Wire.EncodeQueryBundle(queries), |queries|, lengths) ==
      Err(WrongLength(k, lengths[k], |queries[k]|))
  {
    hide Wire.EncodeVectors, Wire.ReadVectors, Holds;
    var bytes := Wire.EncodeQueryBundle(queries);
    Wire.HoldsTail(Wire.QUERY_MAGIC + [|queries|], Wire.EncodeVectors(queries));
    assert queries[0..] == queries;
    WrongVector(bytes, 5, lengths, queries, 0, k);
  }

  /** And so are responses. */
  lemma ResponseOfOtherLengths(responses: seq<seq<u32>>, head: u64, lengths: seq<nat>, k: nat)
    requires k < |responses| == |lengths| < 256 && forall a :: a in responses ==> |a| < TWO_64
    requires |responses[k]| != lengths[k] && forall i :: 0 <= i < k ==> |responses[i]| == lengths[i]
    ensures Wire.DecodeResponseBundle(Wire.EncodeResponseBundle(responses, head), lengths, |responses|) ==
      Err(WrongLength(k, lengths[k], |responses[k]|))
  {
    hide Wire.EncodeVectors, Wire.ReadVectors, Holds, LeBytes;
    var bytes := Wire.EncodeResponseBundle(responses, head);
    Wire.HoldsTail(Wire.RESPONSE_MAGIC + [|responses|] + LeBytes(head, 8), Wire.EncodeVectors(responses));
    assert responses[0..] == responses;
    WrongVector(bytes, 13, lengths, responses, 0, k);
  }

  /** Whatever continues an accepted query or response is refused for its leftover bytes. */
  lemma LongerBundles(a: seq<u8>, b: seq<u8>, arity: nat, lengths: seq<nat>)
    requires a <= b && |a| < |b|
    ensures Wire.DecodeQueryBundle(a, arity, lengths).Ok? ==> Wire.DecodeQueryBundle(b, arity, lengths) == Err(Wire.LeftoverBytes)
    ensures Wire.DecodeResponseBundle(a, lengths, arity).Ok? ==> Wire.DecodeResponseBundle(b, lengths, arity) == Err(Wire.LeftoverBytes)
  {
    hide Wire.ReadVectors, FromLe;
    assert |a| >= 4 ==> a[..4] == b[..4];
    if Wire.DecodeQueryBundle(a, arity, lengths).Ok? {
      SetupPrefix.VectorsOnPrefix(a, b, 5, lengths, 0);
    }
    if Wire.DecodeResponseBundle(a, lengths, arity).Ok? {
      SetupPrefix.VectorsOnPrefix(a, b, 13, lengths, 0);
    }
  }
}
