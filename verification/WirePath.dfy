/** Sending a delta over the wire does not change what it does to an accumulator; `encoded_len` is exact. */
module WirePath {
  import opened Words
  import opened Wrappers
  import opened Deltas
  import opened Coalesce
  import opened Varint
  import opened Codec
  import opened CodecTheorems

  // ----- What sorting keeps -----

  /** The edits of one cell, in order. */
  function Picked(es: seq<Change>, c: Cell): seq<Change> {
    if es == [] then []
    else
      var n := |es| - 1;
      Picked(es[..n], c) + if es[n].cell == c then [es[n]] else []
  }

  lemma PickedPush(es: seq<Change>, e: Change, c: Cell)
    ensures Picked(es + [e], c) == if e.cell == c then Picked(es, c) + [e] else Picked(es, c)
  {
    assert (es + [e])[..|es|] == es;
  }

  lemma {:induction false} PickedConcat(a: seq<Change>, b: seq<Change>, c: Cell)
    ensures Picked(a + b, c) == Picked(a, c) + Picked(b, c)
  {
    hide Picked;
    if b == [] {
      assert a + b == a && Picked(b, c) == [] by { PickedNothing(c); }
    } else {
      var n := |b| - 1;
      assert b == b[..n] + [b[n]] && a + b == (a + b[..n]) + [b[n]];
      PickedConcat(a, b[..n], c);
      PickedPush(a + b[..n], b[n], c);
      PickedPush(b[..n], b[n], c);
    }
  }

  lemma PickedNothing(c: Cell)
    ensures Picked([], c) == []
  {
  }

  lemma {:induction false} PickedSum(es: seq<Change>, c: Cell)
    ensures Sum(Picked(es, c), c) == Sum(es, c)
  {
    if es == [] {
      PickedNothing(c);
    } else {
      hide Sum, Picked;
      var n := |es| - 1;
      assert es == es[..n] + [es[n]];
      PickedSum(es[..n], c);
      PickedPush(es[..n], es[n], c);
      SumPush(es[..n], es[n], c);
      SumPush(Picked(es[..n], c), es[n], c);
    }
  }

  ghost predicate EachRuns(m: CellMap, es: seq<Change>) {
    forall c :: RunningOk(m, Picked(es, c))
  }

  /** Whether a fold overflows is decided cell by cell, by that cell's edits in their order. */
  lemma {:induction false} PickedRunning(m: CellMap, es: seq<Change>)
    ensures RunningOk(m, es) <==> EachRuns(m, es)
  {
    if es == [] {
      forall c ensures RunningOk(m, Picked(es, c)) {
        PickedNothing(c);
      }
    } else {
      hide RunningOk, Picked, Sum, EachRuns;
      var n := |es| - 1;
      assert es == es[..n] + [es[n]];
      PickedRunning(m, es[..n]);
      RunningOkPush(m, es[..n], es[n]);
      PickedRunningPush(m, es[..n], es[n]);
    }
  }

  lemma PickedRunningPush(m: CellMap, es: seq<Change>, e: Change)
    ensures EachRuns(m, es + [e]) <==> EachRuns(m, es) && IsI64(At(m, e.cell) + Sum(es, e.cell) + e.delta)
  {
    hide RunningOk, Picked, Sum, At;
    var fits := IsI64(At(m, e.cell) + Sum(es, e.cell) + e.delta);
    forall c ensures RunningOk(m, Picked(es + [e], c)) <==> RunningOk(m, Picked(es, c)) && (c == e.cell ==> fits) {
      PickedPush(es, e, c);
      RunningOkPush(m, Picked(es, c), e);
      PickedSum(es, c);
    }
    if EachRuns(m, es + [e]) {
      forall c ensures RunningOk(m, Picked(es, c)) && (c == e.cell ==> fits) {
        assert RunningOk(m, Picked(es + [e], c));
      }
      assert RunningOk(m, Picked(es, e.cell));
    }
    if EachRuns(m, es) && fits {
      forall c ensures RunningOk(m, Picked(es + [e], c)) {
        assert RunningOk(m, Picked(es, c));
      }
    }
  }

  lemma {:induction false} PickedRow(row: u32, cells: seq<Edit>, c: Cell)
    ensures Picked(FlatRow(row, cells), c) == if c.row == row then FlatRow(row, Sorting.WithKey(OffKey(), cells, c.off)) else []
  {
    if cells == [] {
      FlatRowNothing(row);
      PickedNothing(c);
    } else {
      hide FlatRow, Picked;
      var n := |cells| - 1;
      assert cells == cells[..n] + [cells[n]];
      PickedRow(row, cells[..n], c);
      FlatRowPush(row, cells[..n], cells[n]);
      PickedPush(FlatRow(row, cells[..n]), Change(Cell(row, cells[n].off), cells[n].delta), c);
      FlatRowPush(row, Sorting.WithKey(OffKey(), cells[..n], c.off), cells[n]);
    }
  }

  lemma FlatRowNothing(row: u32)
    ensures FlatRow(row, []) == []
  {
  }

  /** Only the rows of that number matter. */
  lemma {:induction false} PickedRows(rows: SegmentDelta, c: Cell)
    ensures Picked(Flat(rows), c) == Picked(Flat(Sorting.WithKey(RowKey(), rows, c.row)), c)
  {
    if rows != [] {
      hide Picked, FlatRow;
      var n := |rows| - 1;
      var kept := Sorting.WithKey(RowKey(), rows[..n], c.row);
      PickedRows(rows[..n], c);
      PickedConcat(Flat(rows[..n]), FlatRow(rows[n].row, rows[n].cells), c);
      PickedConcat(Flat(kept), FlatRow(rows[n].row, rows[n].cells), c);
      FlatPush(kept, rows[n]);
      PickedRow(rows[n].row, rows[n].cells, c);
      assert kept + [] == kept && Picked(Flat(kept), c) + [] == Picked(Flat(kept), c);
    }
  }

  lemma {:induction false} SamePicked(a: SegmentDelta, b: SegmentDelta, c: Cell)
    requires |a| == |b|
    requires forall i :: 0 <= i < |a| ==> Picked(FlatRow(a[i].row, a[i].cells), c) == Picked(FlatRow(b[i].row, b[i].cells), c)
    ensures Picked(Flat(a), c) == Picked(Flat(b), c)
  {
    hide Picked, FlatRow;
    if a == [] {
      assert a == b;
    } else {
      var n := |a| - 1;
      SamePicked(a[..n], b[..n], c);
      PickedConcat(Flat(a[..n]), FlatRow(a[n].row, a[n].cells), c);
      PickedConcat(Flat(b[..n]), FlatRow(b[n].row, b[n].cells), c);
      assert Picked(FlatRow(a[n].row, a[n].cells), c) == Picked(FlatRow(b[n].row, b[n].cells), c);
    }
  }

  /** Sorting leaves every cell's edits in the order they were in. */
  lemma SortKeepsPicked(rows: SegmentDelta, c: Cell)
    ensures Picked(Flat(SortSegment(rows)), c) == Picked(Flat(rows), c)
  {
    hide Picked, Flat, FlatRow, SortCells;
    var sorted := Sorting.StableSort(RowKey(), rows);
    forall i | 0 <= i < |rows|
      ensures Picked(FlatRow(sorted[i].row, SortCells(sorted[i].cells)), c) == Picked(FlatRow(sorted[i].row, sorted[i].cells), c)
    {
      SortedRowPicked(sorted[i], c);
    }
    SamePicked(SortSegment(rows), sorted, c);
    PickedRows(sorted, c);
    PickedRows(rows, c);
    Sorting.SortIsStable(RowKey(), rows);
  }

  lemma SortedRowPicked(r: RowEdits, c: Cell)
    ensures Picked(FlatRow(r.row, SortCells(r.cells)), c) == Picked(FlatRow(r.row, r.cells), c)
  {
    hide Picked, FlatRow;
    PickedRow(r.row, r.cells, c);
    PickedRow(r.row, SortCells(r.cells), c);
    Sorting.SortIsStable(OffKey(), r.cells);
  }

  /** Sorting rows and offsets changes no cell's net delta, repeated rows and offsets included. */
  lemma SortKeepsTotals(rows: SegmentDelta, c: Cell)
    ensures Total(SortSegment(rows), c) == Total(rows, c)
  {
    hide Sum, Flat, Picked, SortSegment;
    SortKeepsPicked(rows, c);
    PickedSum(Flat(rows), c);
    PickedSum(Flat(SortSegment(rows)), c);
  }

  /** Nor does it change whether folding the edits overflows. */
  lemma SortKeepsRunning(m: CellMap, rows: SegmentDelta)
    ensures RunningOk(m, Flat(SortSegment(rows))) <==> RunningOk(m, Flat(rows))
  {
    hide Flat, Picked, SortSegment, RunningOk, EachRuns;
    PickedRunning(m, Flat(rows));
    PickedRunning(m, Flat(SortSegment(rows)));
    forall c ensures Picked(Flat(SortSegment(rows)), c) == Picked(Flat(rows), c) {
      SortKeepsPicked(rows, c);
    }
    SameEach(m, Flat(rows), Flat(SortSegment(rows)));
  }

  lemma SameEach(m: CellMap, a: seq<Change>, b: seq<Change>)
    requires forall c :: Picked(a, c) == Picked(b, c)
    ensures EachRuns(m, a) <==> EachRuns(m, b)
  {
    hide RunningOk, Picked;
    forall c ensures RunningOk(m, Picked(a, c)) <==> RunningOk(m, Picked(b, c)) {
      assert Picked(a, c) == Picked(b, c);
    }
    if EachRuns(m, b) {
      forall c ensures RunningOk(m, Picked(a, c)) {
        assert RunningOk(m, Picked(b, c));
      }
    }
  }

  // ----- Path independence through the wire -----

  /** What the receiver of an encoded delta ingests. */
  function Received(p: Pending, d: BlockDelta, plaintextBits: u32): Ingested
    requires |d.perSegment| < 256 && Decode(Encode(d), plaintextBits, |d.perSegment|).Ok?
  {
    IngestInto(p, Decode(Encode(d), plaintextBits, |d.perSegment|).value)
  }

  /** Any in-range delta, unsorted or with repeats, is accepted or refused alike, sent or unsent, and then does the same. */
  lemma WireIngest(p: Pending, d: BlockDelta, plaintextBits: u32)
    requires 1 <= plaintextBits <= 31 && |d.perSegment| < 256 && CanonicalPending(p)
    requires forall s :: s in d.perSegment ==> Encodable(s, plaintextBits)
    ensures Decode(Encode(d), plaintextBits, |d.perSegment|).Ok?
    ensures Received(p, d, plaintextBits).error == IngestInto(p, d).error
    ensures IngestInto(p, d).error.None? ==> Received(p, d, plaintextBits) == IngestInto(p, d)
  {
    hide Encode, Decode, Encodable, SortSegment, Total, FoldSegments;
    DeltaRoundTrip(d, plaintextBits);
    var sorted := SortDelta(d);
    IngestMeaning(p, d);
    IngestMeaning(p, sorted);
    if |d.perSegment| == |p.perSegment| {
      forall j | 0 <= j < |p.perSegment|
        ensures RunningOk(p.perSegment[j], Flat(sorted.perSegment[j])) <==> RunningOk(p.perSegment[j], Flat(d.perSegment[j]))
      {
        SortKeepsRunning(p.perSegment[j], d.perSegment[j]);
      }
    }
    if IngestInto(p, d).error.None? {
      SameAfterSorting(p, d);
    }
  }

  lemma SameAfterSorting(p: Pending, d: BlockDelta)
    requires CanonicalPending(p) && IngestInto(p, d).error.None? && IngestInto(p, SortDelta(d)).error.None?
    ensures IngestInto(p, SortDelta(d)).pending == IngestInto(p, d).pending
  {
    hide IngestInto, SortSegment, Total;
    IngestMeaning(p, d);
    IngestMeaning(p, SortDelta(d));
    var a, b := IngestInto(p, d).pending, IngestInto(p, SortDelta(d)).pending;
    forall j | 0 <= j < |p.perSegment| ensures a.perSegment[j] == b.perSegment[j] {
      assert a.perSegment[j] in a.perSegment && b.perSegment[j] in b.perSegment;
      forall c ensures At(a.perSegment[j], c) == At(b.perSegment[j], c) {
        SortKeepsTotals(d.perSegment[j], c);
      }
      SameAt(a.perSegment[j], b.perSegment[j]);
    }
  }

  lemma {:induction false} CanonicalAscendingCells(cells: seq<Edit>, prev: int)
    requires CanonicalCells(cells) && (cells != [] ==> prev <= cells[0].off)
    ensures AscendingCells(cells, prev)
    decreases |cells|
  {
    if |cells| > 1 {
      assert cells[0].off < cells[1].off;
    }
    if cells != [] {
      CanonicalAscendingCells(cells[1..], cells[0].off);
    }
  }

  lemma {:induction false} CanonicalAscending(rows: SegmentDelta, prev: int)
    requires Canonical(rows) && (rows != [] ==> prev <= rows[0].row)
    ensures AscendingRows(rows, prev)
    decreases |rows|
  {
    if rows != [] {
      assert rows[0] in rows;
      CanonicalAscendingCells(rows[0].cells, 0);
      assert |rows| > 1 ==> rows[0].row < rows[1].row;
      CanonicalAscending(rows[1..], rows[0].row);
    }
  }

  /** A coalesced delta is already in wire order, so the wire gives back exactly it. */
  lemma CoalescedSurvivesWire(deltas: seq<BlockDelta>, span: BlockDelta, plaintextBits: u32)
    requires 1 <= plaintextBits <= 31 && IsCoalesced(deltas, span) && |span.perSegment| < 256
    requires forall s :: s in span.perSegment ==> Encodable(s, plaintextBits)
    ensures Decode(Encode(span), plaintextBits, |span.perSegment|) == Ok(span)
  {
    hide Encode, Decode, Encodable, SortSegment, AscendingRows;
    DeltaRoundTrip(span, plaintextBits);
    forall j | 0 <= j < |span.perSegment| ensures SortSegment(span.perSegment[j]) == span.perSegment[j] {
      CanonicalAscending(span.perSegment[j], 0);
      AscendingKept(span.perSegment[j]);
    }
    assert SortSegments(span.perSegment) == span.perSegment;
  }

  /** Block by block, coalesced, or coalesced and sent: three paths, one accumulator. */
  lemma PathIndependenceThroughWire(p: Pending, deltas: seq<BlockDelta>, span: BlockDelta, plaintextBits: u32)
    requires 1 <= plaintextBits <= 31 && CanonicalPending(p) && IsCoalesced(deltas, span) && |span.perSegment| < 256
    requires forall s :: s in span.perSegment ==> Encodable(s, plaintextBits)
    requires IngestAll(p, deltas).error.None? && IngestInto(p, span).error.None?
    ensures Decode(Encode(span), plaintextBits, |span.perSegment|).Ok?
    ensures Received(p, span, plaintextBits) == IngestInto(p, span) == IngestAll(p, deltas)
  {
    hide Encode, Decode, Encodable, IngestInto;
    PathIndependence(p, deltas, span);
    CoalescedSurvivesWire(deltas, span, plaintextBits);
  }

  // ----- The bound that makes honest spans acceptable -----

  lemma {:induction false} CanonicalCellIsTotal(rows: SegmentDelta, r: RowEdits, e: Edit)
    requires Canonical(rows) && r in rows && e in r.cells
    ensures Total(rows, Cell(r.row, e.off)) == e.delta
  {
    hide Total, FlatRow;
    var n := |rows| - 1;
    LastRowSum(rows, Cell(r.row, e.off));
    if r == rows[n] {
      CanonicalCellInRow(r.row, r.cells, e);
    } else {
      var i :| 0 <= i < n && rows[i] == r;
      assert rows[i].row < rows[n].row && rows[..n][i] == r;
      CanonicalPrefix(rows, n);
      CanonicalCellIsTotal(rows[..n], r, e);
    }
  }

  lemma {:induction false} CanonicalCellInRow(row: u32, cells: seq<Edit>, e: Edit)
    requires CanonicalCells(cells) && e in cells
    ensures Sum(FlatRow(row, cells), Cell(row, e.off)) == e.delta
  {
    hide FlatRow, Sum;
    var n := |cells| - 1;
    LastEditSum(row, cells);
    if e != cells[n] {
      var i :| 0 <= i < n && cells[i] == e;
      assert cells[i].off < cells[n].off && cells[..n][i] == e;
      CanonicalCellsPrefix(cells, n);
      CanonicalCellInRow(row, cells[..n], e);
    }
  }

  /** However many honest blocks a span covers, the decoder accepts it and hands back exactly the span. */
  lemma HonestSpanAccepted(dbs: seq<Database>, deltas: seq<BlockDelta>, span: BlockDelta, plaintextBits: u32)
    requires 1 <= plaintextBits <= 31 && HonestRun(dbs, deltas, plaintextBits) && IsCoalesced(deltas, span)
    requires |span.perSegment| < 256
    requires forall s :: s in span.perSegment ==> |s| < TWO_64 && forall r :: r in s ==> |r.cells| < TWO_64
    ensures Decode(Encode(span), plaintextBits, |span.perSegment|) == Ok(span)
  {
    hide Encode, Decode, Total, HonestRun;
    TelescopingBound(dbs, deltas, plaintextBits);
    forall s | s in span.perSegment ensures Encodable(s, plaintextBits) {
      var j :| 0 <= j < |span.perSegment| && span.perSegment[j] == s;
      forall r | r in s ensures BoundedCells(r.cells, plaintextBits) {
        forall e | e in r.cells ensures Abs(e.delta) < Pow2(plaintextBits) {
          CanonicalCellIsTotal(s, r, e);
          assert Abs(Total(span.perSegment[j], Cell(r.row, e.off))) < Pow2(plaintextBits);
        }
      }
    }
    CoalescedSurvivesWire(deltas, span, plaintextBits);
  }

  // ----- The length of an encoding -----

  /** `encoded_len`: the exact size of the encoding, without making it. */
  method EncodedLen(d: BlockDelta) returns (len: nat)
    requires |d.perSegment| < 256 && Countable(d)
    ensures len == |Encode(d)|
  {
    hide SegmentBytes;
    len := 13;
    for j := 0 to |d.perSegment|
      invariant len + |EncodeSegments(d.perSegment[j..])| == 13 + |EncodeSegments(d.perSegment)|
    {
      assert d.perSegment[j] in d.perSegment;
      assert d.perSegment[j..][0] == d.perSegment[j] && d.perSegment[j..][1..] == d.perSegment[j + 1..];
      var n := SegmentLen(d.perSegment[j]);
      len := len + n;
    }
  }

  method SegmentLen(rows: SegmentDelta) returns (len: nat)
    requires |rows| < TWO_64 && forall r :: r in rows ==> |r.cells| < TWO_64
    ensures len == |SegmentBytes(rows)|
  {
    hide SortSegment, Uvarint, EncodeCells;
    var sorted := SortSegment(rows);
    SortSegmentAscending(rows);
    SortedCounts(rows);
    len := UvarintLenLoop(|rows|);
    var prev: nat := 0;
    for i := 0 to |sorted|
      invariant AscendingRows(sorted[i..], prev) && prev < TWO_32
      invariant len + |EncodeRows(sorted[i..], prev)| == |SegmentBytes(rows)|
    {
      hide SegmentBytes;
      var r := sorted[i];
      assert sorted[i..][0] == r && sorted[i..][1..] == sorted[i + 1..];
      var a := UvarintLenLoop(r.row - prev);
      var b := UvarintLenLoop(|r.cells|);
      var c := CellsLen(r.cells);
      len := len + a + b + c;
      prev := r.row;
    }
  }

  method CellsLen(cells: seq<Edit>) returns (len: nat)
    requires AscendingCells(cells, 0)
    ensures len == |EncodeCells(cells, 0)|
  {
    hide Uvarint;
    len := 0;
    var prev: nat := 0;
    for i := 0 to |cells|
      invariant AscendingCells(cells[i..], prev) && prev < TWO_16
      invariant len + |EncodeCells(cells[i..], prev)| == |EncodeCells(cells, 0)|
    {
      var e := cells[i];
      assert cells[i..][0] == e && cells[i..][1..] == cells[i + 1..];
      var a := UvarintLenLoop(e.off - prev);
      var b := UvarintLenLoop(Zigzag(e.delta));
      len := len + a + b;
      prev := e.off;
    }
  }
}
