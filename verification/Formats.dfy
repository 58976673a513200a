/** The message formats, byte by byte: what is where, in plain offsets and little-endian numbers. */
module Formats {
  import opened Words
  import opened Wrappers
  import opened Deltas
  import opened Varint
  import opened Codec
  import opened CodecTheorems
  import opened U32s
  import Sorting
  import Wire
  import WireSetup

  // ----- Varints and zigzag -----

  function Power128(n: nat): (p: nat)
    ensures p >= 1
  {
    if n == 0 then 1 else 128 * Power128(n - 1)
  }

  /** The `i`-th digit to base 128. */
  function Digit(v: nat, i: nat): nat {
    v / Power128(i) % 128
  }

  /** Seven bits to a byte, least significant first; all but the last byte marked; no more bytes than needed. */
  lemma {:induction false} UvarintLayout(v: nat, i: nat)
    requires i < |Uvarint(v)|
    ensures Uvarint(v)[i] % 128 == Digit(v, i)
    ensures Uvarint(v)[i] >= 128 <==> i < |Uvarint(v)| - 1
    ensures v < Power128(|Uvarint(v)|) && (|Uvarint(v)| > 1 ==> v >= Power128(|Uvarint(v)| - 1))
    decreases v
  {
    hide Uvarint, Digit, Power128;
    UvarintFirst(v);
    FirstDigit(v);
    if v >= 128 {
      var rest := Uvarint(v / 128);
      UvarintLayout(v / 128, if i > 0 then i - 1 else 0);
      DigitAfter(v, i, |rest|);
      assert i > 0 ==> Uvarint(v)[i] == rest[i - 1];
    }
  }

  lemma FirstDigit(v: nat)
    ensures Digit(v, 0) == v % 128 && Power128(0) == 1 && Power128(1) == 128
  {
    assert Power128(0) == 1;
  }

  /** Dropping the lowest digit shifts the others down by one. */
  lemma DigitAfter(v: nat, i: nat, len: nat)
    requires len > 0
    ensures i > 0 ==> Digit(v, i) == Digit(v / 128, i - 1)
    ensures v / 128 < Power128(len) ==> v < Power128(len + 1)
    ensures v / 128 >= Power128(len - 1) ==> v >= Power128(len)
  {
    if i > 0 {
      DivPower(v, i);
    }
  }

  lemma DivPower(v: nat, i: nat)
    requires i > 0
    ensures v / Power128(i) == v / 128 / Power128(i - 1)
  {
    var m := Power128(i - 1);
    var q, r := v / 128 / m, v / 128 % m;
    assert v / 128 == q * m + r;
    assert v == q * (128 * m) + (128 * r + v % 128) by {
      assert q * (128 * m) == 128 * (q * m);
    }
    ModUnique(v, q, 128 * m, 128 * r + v % 128);
  }

  /** `(v << 1) ^ (v >> 63)`: nonnegative values are the even codes, negative ones the odd. */
  lemma ZigzagCodes(v: i64)
    ensures Zigzag(v) % 2 == 0 <==> v >= 0
    ensures Zigzag(v) / 2 == if v >= 0 then v else -1 - v
  {
  }

  // ----- Block deltas -----

  lemma DeltaHeader(d: BlockDelta)
    requires |d.perSegment| < 256
    ensures var bytes := Encode(d);
      && |bytes| >= 13 && bytes[..4] == [0x52, 0x50, 0x44, 0x31]
      && FromLe(bytes[4..12]) == d.block && bytes[12] == |d.perSegment| && bytes[13..] == EncodeSegments(d.perSegment)
  {
    hide EncodeSegments, FromLe, LeBytes;
    HeaderRoundTrip(d);
    var bytes := Encode(d);
    assert bytes[13..] == EncodeSegments(d.perSegment);
  }

  function SampleRows(): SegmentDelta {
    [RowEdits(5, [Edit(3, -100), Edit(10, 7)]), RowEdits(1, [Edit(0, 1)])]
  }

  function SampleDelta(): BlockDelta {
    BlockDelta(424242, [SampleRows(), [], [RowEdits(2_000_000, [Edit(65_535, -1)])]])
  }

  /** A whole message: rows sorted, row and offset gaps, zigzag, counts, and an empty segment. */
  lemma SampleMessage()
    ensures Encode(SampleDelta()) ==
      [0x52, 0x50, 0x44, 0x31] + [0x32, 0x79, 0x06, 0x00, 0x00, 0x00, 0x00, 0x00] + [3]
      + ([2, 1, 1, 0, 2, 4, 2, 3, 0xC7, 0x01, 7, 14] + ([0] + [1, 0x80, 0x89, 0x7A, 1, 0xFF, 0xFF, 0x03, 1]))
  {
    FirstSegment();
    LastSegment();
    EmptySegment();
    BlockBytes();
    hide SegmentBytes, LeBytes;
    ThreeSegments(SampleRows(), [], [RowEdits(2_000_000, [Edit(65_535, -1)])]);
    hide EncodeSegments;
  }

  lemma ThreeSegments(a: SegmentDelta, b: SegmentDelta, c: SegmentDelta)
    ensures EncodeSegments([a, b, c]) == SegmentBytes(a) + (SegmentBytes(b) + SegmentBytes(c))
  {
    hide SegmentBytes;
    assert [a, b, c][1..] == [b, c] && [b, c][1..] == [c] && [c][1..] == [];
    assert EncodeSegments([c]) == SegmentBytes(c) + [] == SegmentBytes(c);
  }

  lemma EmptySegment()
    ensures SegmentBytes([]) == [0]
  {
  }

  lemma BlockBytes()
    ensures LeBytes(424242, 8) == [0x32, 0x79, 0x06, 0x00, 0x00, 0x00, 0x00, 0x00]
  {
    assert LeBytes(0, 1) == [0] && LeBytes(0, 2) == [0, 0] && LeBytes(0, 3) == [0, 0, 0];
    assert LeBytes(0, 4) == [0, 0, 0, 0] && LeBytes(0, 5) == [0, 0, 0, 0, 0];
    assert LeBytes(6, 6) == [6, 0, 0, 0, 0, 0] && LeBytes(1657, 7) == [0x79, 6, 0, 0, 0, 0, 0];
  }

  lemma FirstSegment()
    ensures SegmentBytes(SampleRows()) == [2, 1, 1, 0, 2, 4, 2, 3, 0xC7, 0x01, 7, 14]
  {
    var five, one := RowEdits(5, [Edit(3, -100), Edit(10, 7)]), RowEdits(1, [Edit(0, 1)]);
    SampleSorts();
    OneRow(one);
    TwoCells(five);
    SortSegmentAscending(SampleRows());
    hide EncodeRow, SortSegment, EncodeRows, AscendingRows, AscendingCells;
    TwoRows(one, five);
    assert Uvarint(2) == [2] && |SampleRows()| == 2;
    hide Uvarint;
    Joined();
  }

  lemma Joined()
    ensures [2] + ([1, 1, 0, 2] + [4, 2, 3, 0xC7, 0x01, 7, 14]) == [2, 1, 1, 0, 2, 4, 2, 3, 0xC7, 0x01, 7, 14]
  {
  }

  lemma TwoRows(a: RowEdits, b: RowEdits)
    requires a.row <= b.row && AscendingCells(a.cells, 0) && AscendingCells(b.cells, 0)
    ensures AscendingRows([a, b], 0) && EncodeRows([a, b], 0) == EncodeRow(a, 0) + EncodeRow(b, a.row)
  {
    hide EncodeRow, AscendingCells;
    assert [a, b][1..] == [b] && [b][1..] == [];
    assert EncodeRows([b], a.row) == EncodeRow(b, a.row) + [] == EncodeRow(b, a.row);
  }

  lemma OneRow(one: RowEdits)
    requires one == RowEdits(1, [Edit(0, 1)])
    ensures AscendingCells(one.cells, 0) && EncodeRow(one, 0) == [1, 1, 0, 2]
  {
    assert one.cells[1..] == [];
  }

  lemma TwoCells(five: RowEdits)
    requires five == RowEdits(5, [Edit(3, -100), Edit(10, 7)])
    ensures AscendingCells(five.cells, 0) && EncodeRow(five, 1) == [4, 2, 3, 0xC7, 0x01, 7, 14]
  {
    assert five.cells[1..] == [Edit(10, 7)] && five.cells[1..][1..] == [];
    assert Uvarint(199) == [0xC7] + Uvarint(1) == [0xC7, 0x01];
    assert EncodeCells(five.cells[1..], 3) == [7, 14];
  }

  lemma SampleSorts()
    ensures SortSegment(SampleRows()) == [RowEdits(1, [Edit(0, 1)]), RowEdits(5, [Edit(3, -100), Edit(10, 7)])]
  {
    hide Sorting.StableSort, SortSegment, SortCells;
    var five, one := RowEdits(5, [Edit(3, -100), Edit(10, 7)]), RowEdits(1, [Edit(0, 1)]);
    SortTwo(five, one);
    KeptCells(one.cells);
    KeptCells(five.cells);
    SwappedRows(five, one);
  }

  lemma KeptCells(cells: seq<Edit>)
    requires |cells| == 1 || (|cells| == 2 && cells[0].off < cells[1].off)
    ensures SortCells(cells) == cells
  {
    hide Sorting.StableSort;
    Sorting.SortedKept(OffKey(), cells);
  }

  lemma SwappedRows(high: RowEdits, low: RowEdits)
    requires Sorting.StableSort(RowKey(), [high, low]) == [low, high]
    requires SortCells(high.cells) == high.cells && SortCells(low.cells) == low.cells
    ensures SortSegment([high, low]) == [low, high]
  {
    hide Sorting.StableSort, SortCells;
  }

  lemma SortTwo(high: RowEdits, low: RowEdits)
    requires low.row < high.row
    ensures Sorting.StableSort(RowKey(), [high, low]) == [low, high]
  {
    var key := RowKey();
    assert [high, low][..1] == [high] && [high][..0] == [];
    assert Sorting.StableSort(key, [high]) == Sorting.Insert(key, [], high) == [high];
    assert Sorting.Insert(key, [high], low) == Sorting.Insert(key, [], low) + [high];
  }

  lemma LastSegment()
    ensures SegmentBytes([RowEdits(2_000_000, [Edit(65_535, -1)])]) == [1, 0x80, 0x89, 0x7A, 1, 0xFF, 0xFF, 0x03, 1]
  {
    var r := RowEdits(2_000_000, [Edit(65_535, -1)]);
    SortOne(r);
    SortSegmentAscending([r]);
    hide SortSegment;
    WideRow(r);
    hide EncodeRow;
    assert [r][1..] == [] && Uvarint(1) == [1];
    assert EncodeRows([r], 0) == EncodeRow(r, 0) + [] == EncodeRow(r, 0);
  }

  lemma SortOne(r: RowEdits)
    requires |r.cells| == 1
    ensures SortSegment([r]) == [r]
  {
    Sorting.SortedKept(RowKey(), [r]);
    Sorting.SortedKept(OffKey(), r.cells);
  }

  lemma WideRow(r: RowEdits)
    requires r == RowEdits(2_000_000, [Edit(65_535, -1)])
    ensures AscendingCells(r.cells, 0) && EncodeRow(r, 0) == [0x80, 0x89, 0x7A, 1, 0xFF, 0xFF, 0x03, 1]
  {
    assert r.cells[1..] == [];
    assert Uvarint(2_000_000) == [0x80] + Uvarint(15_625) && Uvarint(15_625) == [0x89] + Uvarint(122);
    assert Uvarint(65_535) == [0xFF] + Uvarint(511) && Uvarint(511) == [0xFF] + Uvarint(3);
    assert EncodeCells(r.cells, 0) == [0xFF, 0xFF, 0x03, 1];
  }

  // ----- Vectors of words -----

  /** A vector is its count and then its words, four little-endian bytes each. */
  lemma VectorLayout(values: seq<u32>, i: nat)
    requires i < |values|
    ensures var n := |Uvarint(|values|)|;
      && |EncodeU32s(values)| == n + 4 * |values| && EncodeU32s(values)[..n] == Uvarint(|values|)
      && FromLe(EncodeU32s(values)[n + 4 * i..n + 4 * i + 4]) == values[i]
  {
    hide Uvarint, FromLe, LeBytes, Packed;
    PackedLayout(values, i);
    var n := |Uvarint(|values|)|;
    assert EncodeU32s(values)[n + 4 * i..n + 4 * i + 4] == Packed(values)[4 * i..4 * i + 4];
  }

  lemma {:induction false} PackedLayout(values: seq<u32>, i: nat)
    requires i < |values|
    ensures FromLe(Packed(values)[4 * i..4 * i + 4]) == values[i]
    decreases |values|
  {
    hide FromLe, LeBytes, Pow2;
    var head, rest := LeBytes(values[0], 4), Packed(values[1..]);
    if i == 0 {
      Pow2Values();
      LeRoundTrip(values[0], 4);
      assert (head + rest)[0..4] == head;
    } else {
      PackedLayout(values[1..], i - 1);
      assert (head + rest)[4 * i..4 * i + 4] == rest[4 * (i - 1)..4 * (i - 1) + 4];
    }
  }

  // ----- Query, response and set-up bundles -----

  lemma QueryLayout(queries: seq<seq<u32>>)
    requires |queries| < 256
    ensures var bytes := Wire.EncodeQueryBundle(queries);
      && |bytes| >= 5 && bytes[..4] == [0x52, 0x50, 0x51, 0x31] && bytes[4] == |queries|
      && bytes[5..] == Wire.EncodeVectors(queries)
  {
    hide Wire.EncodeVectors;
  }

  lemma ResponseLayout(responses: seq<seq<u32>>, head: u64)
    requires |responses| < 256
    ensures var bytes := Wire.EncodeResponseBundle(responses, head);
      && |bytes| >= 13 && bytes[..4] == [0x52, 0x50, 0x52, 0x31] && bytes[4] == |responses|
      && FromLe(bytes[5..13]) == head && bytes[13..] == Wire.EncodeVectors(responses)
  {
    hide Wire.EncodeVectors, FromLe, LeBytes, Pow2;
    Pow2Values();
    LeRoundTrip(head, 8);
    var bytes := Wire.EncodeResponseBundle(responses, head);
    assert bytes[5..13] == LeBytes(head, 8) && bytes[13..] == Wire.EncodeVectors(responses);
  }

  /** The fixed part of a set-up bundle. */
  lemma SetupLayout(b: WireSetup.SetupBundle)
    requires b.arity < 256
    ensures var bytes := WireSetup.EncodeSetup(b);
      && |bytes| >= 33 && bytes[..4] == [0x52, 0x50, 0x53, 0x31] && bytes[4] == b.arity
      && FromLe(bytes[5..9]) == b.numBuckets && FromLe(bytes[9..13]) == b.bucketSize && FromLe(bytes[13..17]) == b.fingerprintBits
      && FromLe(bytes[17..21]) == b.valueBits && FromLe(bytes[21..25]) == b.plaintextBits && FromLe(bytes[25..33]) == b.block
      && bytes[33..] == WireSetup.EncodeParams(b.backendParams) + Wire.EncodeVectors(b.hints)
  {
    hide WireSetup.EncodeParams, Wire.EncodeVectors, FromLe, LeBytes, WireSetup.Header;
    WireSetup.HeaderRoundTrip(b, WireSetup.EncodeParams(b.backendParams) + Wire.EncodeVectors(b.hints));
    assert WireSetup.EncodeSetup(b)[33..] == WireSetup.EncodeParams(b.backendParams) + Wire.EncodeVectors(b.hints);
  }

  /** One segment's fifty-two bytes of parameters. */
  lemma ParamsLayout(p: WireSetup.SegmentParams)
    requires |p.sigma| == 8 && |p.seed| == 16
    ensures var bytes := WireSetup.ParamsBytes(p);
      && |bytes| == 52
      && FromLe(bytes[0..4]) == p.lweDim && FromLe(bytes[4..8]) == p.plaintextBits
      && bytes[8..16] == p.sigma && bytes[16..32] == p.seed
      && FromLe(bytes[32..36]) == p.nRows && FromLe(bytes[36..40]) == p.rowWidth && FromLe(bytes[40..44]) == p.k
      && FromLe(bytes[44..48]) == p.reshapeRows && FromLe(bytes[48..52]) == p.reshapeRowWidth
  {
    hide FromLe, LeBytes, WireSetup.ParamsBytes;
    var bytes := WireSetup.ParamsBytes(p);
    assert bytes[0..0 + 52] == bytes;
    WireSetup.ParamsRoundTrip(bytes, 0, p);
  }

  /** The parameters of segment `j` are the `j`-th fifty-two bytes. */
  lemma {:induction false} ParamsInOrder(ps: seq<WireSetup.SegmentParams>, j: nat)
    requires j < |ps| && forall p :: p in ps ==> |p.sigma| == 8 && |p.seed| == 16
    ensures |WireSetup.EncodeParams(ps)| == 52 * |ps|
    ensures WireSetup.EncodeParams(ps)[52 * j..52 * j + 52] == WireSetup.ParamsBytes(ps[j])
    decreases |ps|
  {
    hide WireSetup.ParamsBytes;
    WireSetup.ParamsLength(ps);
    var head, rest := WireSetup.ParamsBytes(ps[0]), WireSetup.EncodeParams(ps[1..]);
    assert ps[0] in ps;
    ParamsLayout(ps[0]);
    if j == 0 {
      assert (head + rest)[0..52] == head;
    } else {
      assert forall p :: p in ps[1..] ==> p in ps;
      ParamsInOrder(ps[1..], j - 1);
      assert (head + rest)[52 * j..52 * j + 52] == rest[52 * (j - 1)..52 * (j - 1) + 52];
    }
  }

  // ----- What a decoder refuses first -----

  /** Too short for its magic or another one: not this message; and that comes before anything else. */
  lemma OtherMessages(bytes: seq<u8>, arity: u32, lengths: seq<nat>, plaintextBits: u32, sigmaOk: seq<u8> -> bool)
    requires 1 <= plaintextBits <= 31
    ensures |bytes| < 4 || bytes[..4] != [0x52, 0x50, 0x44, 0x31] ==> Decode(bytes, plaintextBits, arity) == Err(BadMagic)
    ensures |bytes| < 4 || bytes[..4] != [0x52, 0x50, 0x51, 0x31] ==> Wire.DecodeQueryBundle(bytes, arity, lengths) == Err(Wire.NotThisMessage)
    ensures |bytes| < 4 || bytes[..4] != [0x52, 0x50, 0x52, 0x31] ==> Wire.DecodeResponseBundle(bytes, lengths, arity) == Err(Wire.NotThisMessage)
    ensures |bytes| < 4 || bytes[..4] != [0x52, 0x50, 0x53, 0x31] ==> WireSetup.DecodeSetup(bytes, sigmaOk) == Err(Wire.NotThisMessage)
  {
  }
}
