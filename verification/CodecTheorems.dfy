/** Parser and printer of block deltas are inverse up to sorting, and decoding untrusted bytes is safe and canonical. */
module CodecTheorems {
  import opened Words
  import opened Wrappers
  import opened Deltas
  import opened Varint
  import opened Codec

  /** Every edit respects the magnitude bound the decoder enforces. */
  predicate Bounded(rows: SegmentDelta, plaintextBits: nat) {
    forall r :: r in rows ==> BoundedCells(r.cells, plaintextBits)
  }

  predicate BoundedCells(cells: seq<Edit>, plaintextBits: nat) {
    forall e :: e in cells ==> Abs(e.delta) < Pow2(plaintextBits)
  }

  lemma ReadBack(bytes: seq<u8>, pos: nat, v: nat)
    requires v < TWO_64 && Holds(bytes, pos, Uvarint(v))
    ensures ReadUvarint(bytes, pos, 0) == Ok(Parsed(v, pos + |Uvarint(v)|))
  {
    RoomAtStart();
    UvarintRoundTrip(bytes, pos, v, 0);
  }

  // ----- decode after encode -----

  lemma CellRoundTrip(bytes: seq<u8>, pos: nat, e: Edit, prev: u16, plaintextBits: nat)
    requires prev <= e.off && Abs(e.delta) < Pow2(plaintextBits)
    requires Holds(bytes, pos, Uvarint(e.off - prev) + Uvarint(Zigzag(e.delta)))
    ensures ReadCell(bytes, pos, prev, plaintextBits) ==
      Ok(Parsed(e, pos + |Uvarint(e.off - prev) + Uvarint(Zigzag(e.delta))|))
  {
    hide Holds, Uvarint, ReadUvarint, Pow2;
    ZigzagRoundTrip(e.delta, 0);
    var a, b := Uvarint(e.off - prev), Uvarint(Zigzag(e.delta));
    HoldsSplit(bytes, pos, a, b);
    ReadBack(bytes, pos, e.off - prev);
    ReadBack(bytes, pos + |a|, Zigzag(e.delta));
  }

  lemma {:induction false} CellsRoundTrip(bytes: seq<u8>, pos: nat, cells: seq<Edit>, prev: u16, plaintextBits: nat)
    requires AscendingCells(cells, prev) && BoundedCells(cells, plaintextBits)
    requires Holds(bytes, pos, EncodeCells(cells, prev))
    ensures ReadCells(bytes, pos, |cells|, prev, plaintextBits) == Ok(Parsed(cells, pos + |EncodeCells(cells, prev)|))
    decreases |cells|
  {
    hide ReadCell, ReadCells, EncodeCells, AscendingCells, BoundedCells, Holds, Uvarint, Zigzag;
    CellsFirst(bytes, pos, cells, prev, plaintextBits);
    if cells != [] {
      var e := cells[0];
      var head := Uvarint(e.off - prev) + Uvarint(Zigzag(e.delta));
      var rest := EncodeCells(cells[1..], e.off);
      HoldsSplit(bytes, pos, head, rest);
      CellRoundTrip(bytes, pos, e, prev, plaintextBits);
      CellsRoundTrip(bytes, pos + |head|, cells[1..], e.off, plaintextBits);
      FirstEditThenRest(cells, pos + |head| + |rest|);
    }
  }

  /** What is written, and read back, of no edits and of one edit more. */
  lemma CellsFirst(bytes: seq<u8>, pos: nat, cells: seq<Edit>, prev: u16, plaintextBits: nat)
    requires AscendingCells(cells, prev) && BoundedCells(cells, plaintextBits)
    ensures cells == [] ==> EncodeCells(cells, prev) == [] && ReadCells(bytes, pos, 0, prev, plaintextBits) == Ok(Parsed([], pos))
    ensures cells != [] ==>
      && prev <= cells[0].off && Abs(cells[0].delta) < Pow2(plaintextBits)
      && AscendingCells(cells[1..], cells[0].off) && BoundedCells(cells[1..], plaintextBits)
      && EncodeCells(cells, prev) == Uvarint(cells[0].off - prev) + Uvarint(Zigzag(cells[0].delta)) + EncodeCells(cells[1..], cells[0].off)
    ensures cells != [] && ReadCell(bytes, pos, prev, plaintextBits).Ok? ==>
      var e := ReadCell(bytes, pos, prev, plaintextBits).value;
      ReadCells(bytes, pos, |cells|, prev, plaintextBits) ==
        Prepend([e.value], ReadCells(bytes, e.pos, |cells| - 1, e.value.off, plaintextBits))
  {
    hide ReadCell, Uvarint, Pow2;
    if cells != [] {
      assert cells[0] in cells;
    }
  }

  lemma FirstEditThenRest(cells: seq<Edit>, pos: nat)
    requires cells != []
    ensures Prepend([cells[0]], Ok(Parsed(cells[1..], pos))) == Ok(Parsed(cells, pos))
  {
    assert [cells[0]] + cells[1..] == cells;
  }

  lemma CountRoundTrip(bytes: seq<u8>, pos: nat, n: nat, body: seq<u8>)
    requires n < TWO_64 && |body| >= n && Holds(bytes, pos, Uvarint(n) + body)
    ensures ReadCount(bytes, pos) == Ok(Parsed(n, pos + |Uvarint(n)|))
    ensures Holds(bytes, pos + |Uvarint(n)|, body)
  {
    HoldsSplit(bytes, pos, Uvarint(n), body);
    ReadBack(bytes, pos, n);
    assert pos + |Uvarint(n)| + |body| <= |bytes|;
  }

  lemma RowRoundTrip(bytes: seq<u8>, pos: nat, r: RowEdits, prev: u32, plaintextBits: nat)
    requires prev <= r.row && AscendingCells(r.cells, 0) && BoundedCells(r.cells, plaintextBits) && |r.cells| < TWO_64
    requires Holds(bytes, pos, EncodeRow(r, prev))
    ensures ReadRow(bytes, pos, prev, plaintextBits) == Ok(Parsed(r, pos + |EncodeRow(r, prev)|))
  {
    hide ReadCount, ReadCells, EncodeCells, Holds, Uvarint, ReadUvarint;
    var gap, cells := Uvarint(r.row - prev), EncodeCells(r.cells, 0);
    HoldsSplit(bytes, pos, gap, Uvarint(|r.cells|) + cells);
    ReadBack(bytes, pos, r.row - prev);
    CountRoundTrip(bytes, pos + |gap|, |r.cells|, cells);
    CellsRoundTrip(bytes, pos + |gap| + |Uvarint(|r.cells|)|, r.cells, 0, plaintextBits);
  }

  lemma {:induction false} RowsRoundTrip(bytes: seq<u8>, pos: nat, rows: SegmentDelta, prev: u32, plaintextBits: nat)
    requires AscendingRows(rows, prev) && Bounded(rows, plaintextBits)
    requires forall r :: r in rows ==> |r.cells| < TWO_64
    requires Holds(bytes, pos, EncodeRows(rows, prev))
    ensures ReadRows(bytes, pos, |rows|, prev, plaintextBits) == Ok(Parsed(rows, pos + |EncodeRows(rows, prev)|))
    decreases |rows|
  {
    hide ReadRow, ReadRows, EncodeRow, EncodeRows, Holds, AscendingRows, AscendingCells, Bounded, BoundedCells;
    RowsFirst(bytes, pos, rows, prev, plaintextBits);
    if rows != [] {
      var r := rows[0];
      var head, rest := EncodeRow(r, prev), EncodeRows(rows[1..], r.row);
      RowsTail(rows, prev, plaintextBits);
      HoldsSplit(bytes, pos, head, rest);
      RowRoundTrip(bytes, pos, r, prev, plaintextBits);
      RowsRoundTrip(bytes, pos + |head|, rows[1..], r.row, plaintextBits);
      FirstThenRest(rows, pos + |head| + |rest|);
    }
  }

  /** What is written, and read back, of no rows and of one row more. */
  lemma RowsFirst(bytes: seq<u8>, pos: nat, rows: SegmentDelta, prev: u32, plaintextBits: nat)
    requires AscendingRows(rows, prev)
    ensures rows == [] ==> EncodeRows(rows, prev) == [] && ReadRows(bytes, pos, 0, prev, plaintextBits) == Ok(Parsed([], pos))
    ensures rows != [] ==>
      && prev <= rows[0].row && AscendingCells(rows[0].cells, 0) && AscendingRows(rows[1..], rows[0].row)
      && EncodeRows(rows, prev) == EncodeRow(rows[0], prev) + EncodeRows(rows[1..], rows[0].row)
    ensures rows != [] && ReadRow(bytes, pos, prev, plaintextBits).Ok? ==>
      var r := ReadRow(bytes, pos, prev, plaintextBits).value;
      ReadRows(bytes, pos, |rows|, prev, plaintextBits) ==
        Prepend([r.value], ReadRows(bytes, r.pos, |rows| - 1, r.value.row, plaintextBits))
  {
    hide ReadRow, EncodeRow, AscendingCells;
  }

  lemma RowsTail(rows: SegmentDelta, prev: u32, plaintextBits: nat)
    requires rows != [] && AscendingRows(rows, prev) && Bounded(rows, plaintextBits)
    requires forall r :: r in rows ==> |r.cells| < TWO_64
    ensures var r := rows[0];
      prev <= r.row && AscendingCells(r.cells, 0) && BoundedCells(r.cells, plaintextBits) && |r.cells| < TWO_64
    ensures AscendingRows(rows[1..], rows[0].row) && Bounded(rows[1..], plaintextBits)
    ensures forall r :: r in rows[1..] ==> |r.cells| < TWO_64
  {
    hide AscendingCells, BoundedCells;
    assert rows[0] in rows;
    forall r | r in rows[1..] ensures r in rows {
    }
  }

  lemma FirstThenRest(rows: SegmentDelta, pos: nat)
    requires rows != []
    ensures Prepend([rows[0]], Ok(Parsed(rows[1..], pos))) == Ok(Parsed(rows, pos))
  {
    assert [rows[0]] + rows[1..] == rows;
  }

  lemma SegmentRoundTrip(bytes: seq<u8>, pos: nat, rows: SegmentDelta, plaintextBits: nat)
    requires Encodable(rows, plaintextBits) && Holds(bytes, pos, SegmentBytes(rows))
    ensures ReadSegment(bytes, pos, plaintextBits) == Ok(Parsed(SortSegment(rows), pos + |SegmentBytes(rows)|))
  {
    hide ReadCount, ReadRows, EncodeRows, SortSegment, Holds, Uvarint;
    var sorted := SortSegment(rows);
    SortSegmentAscending(rows);
    SortedCounts(rows);
    SortKeepsBound(rows, plaintextBits);
    CountRoundTrip(bytes, pos, |rows|, EncodeRows(sorted, 0));
    RowsRoundTrip(bytes, pos + |Uvarint(|rows|)|, sorted, 0, plaintextBits);
  }

  lemma SortKeepsBound(rows: SegmentDelta, plaintextBits: nat)
    requires Bounded(rows, plaintextBits)
    ensures Bounded(SortSegment(rows), plaintextBits)
  {
    var sorted := Sorting.StableSort(RowKey(), rows);
    forall i | 0 <= i < |rows| ensures BoundedCells(SortSegment(rows)[i].cells, plaintextBits) {
      Sorting.SortIn(RowKey(), rows, sorted[i]);
      forall e | e in SortCells(sorted[i].cells) ensures Abs(e.delta) < Pow2(plaintextBits) {
        Sorting.SortIn(OffKey(), sorted[i].cells, e);
      }
    }
  }

  lemma {:induction false} SegmentsRoundTrip(bytes: seq<u8>, pos: nat, segs: seq<SegmentDelta>, plaintextBits: nat)
    requires forall s :: s in segs ==> Encodable(s, plaintextBits)
    requires Holds(bytes, pos, EncodeSegments(segs))
    ensures ReadSegments(bytes, pos, |segs|, plaintextBits) ==
      Ok(Parsed(SortSegments(segs), pos + |EncodeSegments(segs)|))
    decreases |segs|
  {
    hide ReadSegment, SegmentBytes, SortSegment, Holds, Encodable;
    if segs != [] {
      var head, rest := SegmentBytes(segs[0]), EncodeSegments(segs[1..]);
      assert EncodeSegments(segs) == head + rest;
      HoldsSplit(bytes, pos, head, rest);
      SegmentRoundTrip(bytes, pos, segs[0], plaintextBits);
      SegmentsRoundTrip(bytes, pos + |head|, segs[1..], plaintextBits);
      assert [SortSegment(segs[0])] + SortSegments(segs[1..]) == SortSegments(segs);
    }
  }

  predicate Encodable(rows: SegmentDelta, plaintextBits: nat) {
    |rows| < TWO_64 && (forall r :: r in rows ==> |r.cells| < TWO_64) && Bounded(rows, plaintextBits)
  }

  /** Decoding an encoding gives the delta back, rows and offsets stably sorted, for every in-range delta. */
  lemma DeltaRoundTrip(d: BlockDelta, plaintextBits: u32)
    requires 1 <= plaintextBits <= 31 && |d.perSegment| < 256
    requires forall s :: s in d.perSegment ==> Encodable(s, plaintextBits)
    ensures Decode(Encode(d), plaintextBits, |d.perSegment|) == Ok(SortDelta(d))
  {
    hide SortSegment, Encodable, Holds, EncodeSegments, ReadSegments, Encode, FromLe;
    HeaderRoundTrip(d);
    SegmentsRoundTrip(Encode(d), 13, d.perSegment, plaintextBits);
  }

  lemma HeaderRoundTrip(d: BlockDelta)
    requires |d.perSegment| < 256
    ensures var bytes := Encode(d);
      && |bytes| == 13 + |EncodeSegments(d.perSegment)| && bytes[..4] == MAGIC
      && FromLe(bytes[4..12]) == d.block && bytes[12] == |d.perSegment|
      && Holds(bytes, 13, EncodeSegments(d.perSegment))
  {
    hide EncodeSegments, FromLe, Pow2;
    var bytes, block := Encode(d), LeBytes(d.block, 8);
    assert d.block < Pow2(8 * 8) by { Pow2Values(); }
    LeRoundTrip(d.block, 8);
    assert bytes[4..12] == block;
    assert bytes[13..13 + |EncodeSegments(d.perSegment)|] == EncodeSegments(d.perSegment);
  }

  // ----- encode after decode -----

  lemma ReadCellCanonical(bytes: seq<u8>, pos: nat, prev: u16, plaintextBits: nat)
    requires ReadCell(bytes, pos, prev, plaintextBits).Ok?
    ensures var p := ReadCell(bytes, pos, prev, plaintextBits).value;
      && prev <= p.value.off && Abs(p.value.delta) < Pow2(plaintextBits)
      && pos + |Uvarint(p.value.off - prev) + Uvarint(Zigzag(p.value.delta))| <= p.pos <= |bytes|
  {
    RoomAtStart();
    ReadUvarintBounds(bytes, pos, 0);
    var gap := ReadUvarint(bytes, pos, 0).value;
    ReadUvarintBounds(bytes, gap.pos, 0);
    var raw := ReadUvarint(bytes, gap.pos, 0).value;
    ZigzagRoundTrip(0, raw.value);
  }

  lemma {:induction false} ReadCellsCanonical(bytes: seq<u8>, pos: nat, count: nat, prev: u16, plaintextBits: nat)
    requires pos <= |bytes| && ReadCells(bytes, pos, count, prev, plaintextBits).Ok?
    ensures var p := ReadCells(bytes, pos, count, prev, plaintextBits).value;
      && |p.value| == count && AscendingCells(p.value, prev) && BoundedCells(p.value, plaintextBits)
      && pos + |EncodeCells(p.value, prev)| <= p.pos <= |bytes|
    decreases count
  {
    hide Abs, Uvarint, ReadCell;
    if count > 0 {
      ReadCellCanonical(bytes, pos, prev, plaintextBits);
      var c := ReadCell(bytes, pos, prev, plaintextBits).value;
      ReadCellsCanonical(bytes, c.pos, count - 1, c.value.off, plaintextBits);
      var rest := ReadCells(bytes, c.pos, count - 1, c.value.off, plaintextBits).value.value;
      assert ([c.value] + rest)[1..] == rest;
    }
  }

  lemma ReadCountBounds(bytes: seq<u8>, pos: nat)
    requires ReadCount(bytes, pos).Ok?
    ensures var p := ReadCount(bytes, pos).value;
      p.value <= |bytes| - p.pos && p.value < TWO_64 && pos + |Uvarint(p.value)| <= p.pos <= |bytes|
  {
    RoomAtStart();
    ReadUvarintBounds(bytes, pos, 0);
  }

  lemma ReadRowCanonical(bytes: seq<u8>, pos: nat, prev: u32, plaintextBits: nat)
    requires ReadRow(bytes, pos, prev, plaintextBits).Ok?
    ensures var p := ReadRow(bytes, pos, prev, plaintextBits).value;
      && prev <= p.value.row && AscendingCells(p.value.cells, 0) && BoundedCells(p.value.cells, plaintextBits)
      && |p.value.cells| < TWO_64
      && pos + |EncodeRow(p.value, prev)| <= p.pos <= |bytes|
  {
    hide ReadCount;
    RoomAtStart();
    ReadUvarintBounds(bytes, pos, 0);
    var gap := ReadUvarint(bytes, pos, 0).value;
    ReadCountBounds(bytes, gap.pos);
    var count := ReadCount(bytes, gap.pos).value;
    ReadCellsCanonical(bytes, count.pos, count.value, 0, plaintextBits);
  }

  lemma {:induction false} ReadRowsCanonical(bytes: seq<u8>, pos: nat, count: nat, prev: u32, plaintextBits: nat)
    requires pos <= |bytes| && ReadRows(bytes, pos, count, prev, plaintextBits).Ok?
    ensures var p := ReadRows(bytes, pos, count, prev, plaintextBits).value;
      && |p.value| == count && AscendingRows(p.value, prev) && Bounded(p.value, plaintextBits)
      && (forall r :: r in p.value ==> |r.cells| < TWO_64)
      && pos + |EncodeRows(p.value, prev)| <= p.pos <= |bytes|
    decreases count
  {
    hide ReadRow, EncodeRow;
    if count > 0 {
      ReadRowCanonical(bytes, pos, prev, plaintextBits);
      var r := ReadRow(bytes, pos, prev, plaintextBits).value;
      ReadRowsCanonical(bytes, r.pos, count - 1, r.value.row, plaintextBits);
      var rest := ReadRows(bytes, r.pos, count - 1, r.value.row, plaintextBits).value.value;
      assert ([r.value] + rest)[1..] == rest;
    }
  }

  lemma {:induction false} AscendingSortedCells(cells: seq<Edit>, prev: int)
    requires AscendingCells(cells, prev)
    ensures Sorting.SortedBy(OffKey(), cells)
    ensures forall e :: e in cells ==> prev <= e.off
    decreases |cells|
  {
    if cells != [] {
      AscendingSortedCells(cells[1..], cells[0].off);
      var key := OffKey();
      forall i, j | 0 <= i < j < |cells| ensures key(cells[i]) <= key(cells[j]) {
        assert cells[j] == cells[1..][j - 1];
        if i > 0 { assert key(cells[1..][i - 1]) <= key(cells[1..][j - 1]); }
      }
      forall e | e in cells ensures prev <= e.off {
        if e != cells[0] { assert e in cells[1..]; }
      }
    }
  }

  lemma {:induction false} AscendingSortedRows(rows: SegmentDelta, prev: int)
    requires AscendingRows(rows, prev)
    ensures Sorting.SortedBy(RowKey(), rows)
    ensures forall r :: r in rows ==> prev <= r.row && AscendingCells(r.cells, 0)
    decreases |rows|
  {
    if rows != [] {
      AscendingSortedRows(rows[1..], rows[0].row);
      var key := RowKey();
      forall i, j | 0 <= i < j < |rows| ensures key(rows[i]) <= key(rows[j]) {
        assert rows[j] == rows[1..][j - 1];
        if i > 0 { assert key(rows[1..][i - 1]) <= key(rows[1..][j - 1]); }
      }
      forall r | r in rows ensures prev <= r.row && AscendingCells(r.cells, 0) {
        if r != rows[0] { assert r in rows[1..]; }
      }
    }
  }

  /** Sorting leaves what is already ascending alone. */
  lemma AscendingKept(rows: SegmentDelta)
    requires AscendingRows(rows, 0)
    ensures SortSegment(rows) == rows
  {
    hide AscendingRows, AscendingCells, Sorting.SortedBy;
    AscendingSortedRows(rows, 0);
    Sorting.SortedKept(RowKey(), rows);
    forall i | 0 <= i < |rows| ensures SortCells(rows[i].cells) == rows[i].cells {
      AscendingSortedCells(rows[i].cells, 0);
      Sorting.SortedKept(OffKey(), rows[i].cells);
    }
    assert SortSegment(rows) == rows;
  }

  lemma ReadSegmentCanonical(bytes: seq<u8>, pos: nat, plaintextBits: nat)
    requires ReadSegment(bytes, pos, plaintextBits).Ok?
    ensures var p := ReadSegment(bytes, pos, plaintextBits).value;
      && Encodable(p.value, plaintextBits) && SortSegment(p.value) == p.value
      && pos + |SegmentBytes(p.value)| <= p.pos <= |bytes|
  {
    hide ReadCount;
    ReadCountBounds(bytes, pos);
    var count := ReadCount(bytes, pos).value;
    ReadRowsCanonical(bytes, count.pos, count.value, 0, plaintextBits);
    AscendingKept(ReadSegment(bytes, pos, plaintextBits).value.value);
  }

  lemma {:induction false} ReadSegmentsCanonical(bytes: seq<u8>, pos: nat, arity: nat, plaintextBits: nat)
    requires pos <= |bytes| && ReadSegments(bytes, pos, arity, plaintextBits).Ok?
    ensures var p := ReadSegments(bytes, pos, arity, plaintextBits).value;
      && |p.value| == arity
      && (forall s :: s in p.value ==> Encodable(s, plaintextBits) && SortSegment(s) == s)
      && pos + |EncodeSegments(p.value)| <= p.pos <= |bytes|
    decreases arity
  {
    hide ReadSegment, SegmentBytes, SortSegment, Encodable;
    if arity > 0 {
      ReadSegmentCanonical(bytes, pos, plaintextBits);
      var s := ReadSegment(bytes, pos, plaintextBits).value;
      ReadSegmentsCanonical(bytes, s.pos, arity - 1, plaintextBits);
      var rest := ReadSegments(bytes, s.pos, arity - 1, plaintextBits).value.value;
      assert ([s.value] + rest)[1..] == rest;
    }
  }

  /** Whatever is accepted is in range and sorted; encoding it again is no longer and means the same. */
  lemma AcceptedIsCanonical(bytes: seq<u8>, plaintextBits: u32, arity: u32)
    requires Decode(bytes, plaintextBits, arity).Ok?
    ensures var d := Decode(bytes, plaintextBits, arity).value;
      && |d.perSegment| == arity < 256
      && (forall s :: s in d.perSegment ==> Encodable(s, plaintextBits))
      && SortDelta(d) == d
      && |Encode(d)| <= |bytes|
      && Decode(Encode(d), plaintextBits, arity) == Ok(d)
  {
    hide SortSegment, Encodable;
    var d := Decode(bytes, plaintextBits, arity).value;
    ReadSegmentsCanonical(bytes, 13, arity, plaintextBits);
    assert SortDelta(d) == d by {
      forall j | 0 <= j < |d.perSegment| ensures SortSegment(d.perSegment[j]) == d.perSegment[j] {
        assert d.perSegment[j] in d.perSegment;
      }
    }
    DeltaRoundTrip(d, plaintextBits);
  }

  // ----- Size -----

  function CellCount(rows: SegmentDelta): nat {
    if rows == [] then 0 else |rows[0].cells| + CellCount(rows[1..])
  }

  function Items(segs: seq<SegmentDelta>): nat {
    if segs == [] then 0 else |segs[0]| + CellCount(segs[0]) + Items(segs[1..])
  }

  lemma {:induction false} RowsOutweighItems(rows: SegmentDelta, prev: nat)
    requires AscendingRows(rows, prev)
    ensures |rows| + CellCount(rows) <= |EncodeRows(rows, prev)|
    decreases |rows|
  {
    if rows != [] {
      RowsOutweighItems(rows[1..], rows[0].row);
    }
  }

  lemma {:induction false} SegmentsOutweighItems(segs: seq<SegmentDelta>)
    requires forall s :: s in segs ==> SortSegment(s) == s
    ensures Items(segs) <= |EncodeSegments(segs)|
  {
    hide SortSegment;
    if segs != [] {
      SortSegmentAscending(segs[0]);
      RowsOutweighItems(segs[0], 0);
      SegmentsOutweighItems(segs[1..]);
    }
  }

  /** A message of n bytes never decodes to more than n rows and cells. */
  lemma DecodedSizeBounded(bytes: seq<u8>, plaintextBits: u32, arity: u32)
    requires Decode(bytes, plaintextBits, arity).Ok?
    ensures Items(Decode(bytes, plaintextBits, arity).value.perSegment) <= |bytes|
  {
    ReadSegmentsCanonical(bytes, 13, arity, plaintextBits);
    SegmentsOutweighItems(Decode(bytes, plaintextBits, arity).value.perSegment);
  }
}
