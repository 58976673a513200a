/**
 Sparse block deltas: their meaning as sums per cell, the client's rolling accumulator, and the
 coalescing of a run of blocks. A `BTreeMap` is a `map` whose loops take the least remaining key.
 */
module Deltas {
  import opened Words
  import opened Wrappers

  datatype Cell = Cell(row: u32, off: u16)
  datatype Edit = Edit(off: u16, delta: i64)
  datatype RowEdits = RowEdits(row: u32, cells: seq<Edit>)
  type SegmentDelta = seq<RowEdits>
  datatype BlockDelta = BlockDelta(block: u64, perSegment: seq<SegmentDelta>)

  type CellMap = map<Cell, i64>
  type RowMap = map<u32, map<u16, i64>>
  datatype Change = Change(cell: Cell, delta: i64)

  // ----- What a delta means -----

  function FlatRow(row: u32, cells: seq<Edit>): (es: seq<Change>) {
    seq(|cells|, i requires 0 <= i < |cells| => Change(Cell(row, cells[i].off), cells[i].delta))
  }

  /** The edits of one segment in wire order. */
  function Flat(rows: SegmentDelta): seq<Change> {
    if rows == [] then []
    else
      var n := |rows| - 1;
      Flat(rows[..n]) + FlatRow(rows[n].row, rows[n].cells)
  }

  /** Net effect of a list of edits on one cell. */
  function Sum(es: seq<Change>, c: Cell): int {
    if es == [] then 0
    else
      var n := |es| - 1;
      Sum(es[..n], c) + if es[n].cell == c then es[n].delta else 0
  }

  function Total(rows: SegmentDelta, c: Cell): int {
    Sum(Flat(rows), c)
  }

  /** The accumulator's value at a cell; an absent cell is zero. */
  function At(m: CellMap, c: Cell): int {
    if c in m then m[c] else 0
  }

  predicate NoZeros(m: CellMap) {
    forall c :: c in m ==> m[c] != 0
  }

  lemma SameAt(m: CellMap, m': CellMap)
    requires NoZeros(m) && NoZeros(m')
    requires forall c :: At(m, c) == At(m', c)
    ensures m == m'
  {
    forall c ensures c in m <==> c in m' {
      assert At(m, c) == At(m', c);
    }
    forall c | c in m ensures m[c] == m'[c] {
      assert At(m, c) == At(m', c);
    }
  }

  lemma {:induction false} SumConcat(a: seq<Change>, b: seq<Change>, c: Cell)
    ensures Sum(a + b, c) == Sum(a, c) + Sum(b, c)
  {
    if b == [] {
      assert a + b == a;
    } else {
      var n := |b| - 1;
      assert (a + b)[..|a + b| - 1] == a + b[..n];
      SumConcat(a, b[..n], c);
    }
  }

  lemma {:induction false} FlatConcat(a: SegmentDelta, b: SegmentDelta)
    ensures Flat(a + b) == Flat(a) + Flat(b)
  {
    hide FlatRow;
    if b == [] {
      assert a + b == a;
    } else {
      var n := |b| - 1;
      assert (a + b)[..|a + b| - 1] == a + b[..n];
      FlatConcat(a, b[..n]);
      Assoc(Flat(a), Flat(b[..n]), FlatRow(b[n].row, b[n].cells));
    }
  }

  lemma FlatPush(rows: SegmentDelta, r: RowEdits)
    ensures Flat(rows + [r]) == Flat(rows) + FlatRow(r.row, r.cells)
  {
    assert (rows + [r])[..|rows|] == rows;
  }

  lemma FlatRowPush(row: u32, cells: seq<Edit>, e: Edit)
    ensures FlatRow(row, cells + [e]) == FlatRow(row, cells) + [Change(Cell(row, e.off), e.delta)]
  {
  }

  lemma SumPush(es: seq<Change>, e: Change, c: Cell)
    ensures Sum(es + [e], c) == Sum(es, c) + if e.cell == c then e.delta else 0
  {
    assert (es + [e])[..|es|] == es;
  }

  lemma {:induction false} SumOutside(es: seq<Change>, c: Cell)
    requires forall e :: e in es ==> e.cell != c
    ensures Sum(es, c) == 0
  {
    if es != [] {
      SumOutside(es[..|es| - 1], c);
    }
  }

  lemma RowSumOutside(row: u32, cells: seq<Edit>, c: Cell)
    requires c.row != row || forall e :: e in cells ==> e.off != c.off
    ensures Sum(FlatRow(row, cells), c) == 0
  {
    SumOutside(FlatRow(row, cells), c);
  }

  lemma {:induction false} FlatRows(rows: SegmentDelta, e: Change)
    requires e in Flat(rows)
    ensures exists r :: r in rows && r.row == e.cell.row && Edit(e.cell.off, e.delta) in r.cells
  {
    var n := |rows| - 1;
    if e in FlatRow(rows[n].row, rows[n].cells) {
      assert rows[n] in rows;
    } else {
      FlatRows(rows[..n], e);
    }
  }

  // ----- Canonical form -----

  predicate CanonicalCells(cells: seq<Edit>) {
    && (forall i, j :: 0 <= i < j < |cells| ==> cells[i].off < cells[j].off)
    && (forall e :: e in cells ==> e.delta != 0)
  }

  /** Rows and offsets strictly ascending, no zero edit and no empty row. */
  predicate Canonical(rows: SegmentDelta) {
    && (forall i, j :: 0 <= i < j < |rows| ==> rows[i].row < rows[j].row)
    && (forall r :: r in rows ==> r.cells != [] && CanonicalCells(r.cells))
  }

  lemma LastEditSum(row: u32, cells: seq<Edit>)
    requires CanonicalCells(cells) && cells != []
    ensures var e := cells[|cells| - 1]; Sum(FlatRow(row, cells), Cell(row, e.off)) == e.delta
    ensures forall off: u16 :: off > cells[|cells| - 1].off ==> Sum(FlatRow(row, cells), Cell(row, off)) == 0
    ensures forall off: u16 :: off != cells[|cells| - 1].off ==>
              Sum(FlatRow(row, cells), Cell(row, off)) == Sum(FlatRow(row, cells[..|cells| - 1]), Cell(row, off))
  {
    var n := |cells| - 1;
    assert cells == cells[..n] + [cells[n]];
    FlatRowPush(row, cells[..n], cells[n]);
    forall off: u16 ensures Sum(FlatRow(row, cells), Cell(row, off)) ==
      Sum(FlatRow(row, cells[..n]), Cell(row, off)) + if off == cells[n].off then cells[n].delta else 0
    {
      SumPush(FlatRow(row, cells[..n]), Change(Cell(row, cells[n].off), cells[n].delta), Cell(row, off));
    }
    forall off: u16 | off >= cells[n].off ensures Sum(FlatRow(row, cells[..n]), Cell(row, off)) == 0 {
      RowSumOutside(row, cells[..n], Cell(row, off));
    }
  }

  lemma CanonicalCellsPrefix(cells: seq<Edit>, n: nat)
    requires CanonicalCells(cells) && n <= |cells|
    ensures CanonicalCells(cells[..n])
  {
  }

  lemma CanonicalPrefix(rows: SegmentDelta, n: nat)
    requires Canonical(rows) && n <= |rows|
    ensures Canonical(rows[..n])
  {
  }

  lemma SameLastEdit(row: u32, a: seq<Edit>, b: seq<Edit>)
    requires CanonicalCells(a) && CanonicalCells(b) && (a != [] || b != [])
    requires forall off: u16 :: Sum(FlatRow(row, a), Cell(row, off)) == Sum(FlatRow(row, b), Cell(row, off))
    ensures a != [] && b != [] && a[|a| - 1] == b[|b| - 1]
  {
    if a != [] { ReachesEdit(row, a, b); }
    if b != [] { ReachesEdit(row, b, a); }
    LastEditSum(row, a);
    LastEditSum(row, b);
  }

  /** The last edit is a nonzero sum, so the other list must reach at least as far. */
  lemma ReachesEdit(row: u32, a: seq<Edit>, b: seq<Edit>)
    requires CanonicalCells(a) && CanonicalCells(b) && a != []
    requires forall off: u16 :: Sum(FlatRow(row, a), Cell(row, off)) == Sum(FlatRow(row, b), Cell(row, off))
    ensures b != [] && a[|a| - 1].off <= b[|b| - 1].off
  {
    var last := a[|a| - 1];
    LastEditSum(row, a);
    assert Sum(FlatRow(row, b), Cell(row, last.off)) == last.delta != 0;
    if b != [] { LastEditSum(row, b); }
  }

  lemma {:induction false} CanonicalCellsUnique(row: u32, a: seq<Edit>, b: seq<Edit>)
    requires CanonicalCells(a) && CanonicalCells(b)
    requires forall off: u16 :: Sum(FlatRow(row, a), Cell(row, off)) == Sum(FlatRow(row, b), Cell(row, off))
    ensures a == b
  {
    if a != [] || b != [] {
      SameLastEdit(row, a, b);
      var m, n := |a| - 1, |b| - 1;
      CanonicalCellsPrefix(a, m);
      CanonicalCellsPrefix(b, n);
      forall off: u16 ensures Sum(FlatRow(row, a[..m]), Cell(row, off)) == Sum(FlatRow(row, b[..n]), Cell(row, off)) {
        LastEditSum(row, a);
        LastEditSum(row, b);
        if off == a[m].off {
          RowSumOutside(row, a[..m], Cell(row, off));
          RowSumOutside(row, b[..n], Cell(row, off));
        }
      }
      CanonicalCellsUnique(row, a[..m], b[..n]);
      assert a == a[..m] + [a[m]] && b == b[..n] + [b[n]];
    }
  }

  lemma LastRowSum(rows: SegmentDelta, c: Cell)
    requires Canonical(rows) && rows != []
    ensures var r := rows[|rows| - 1];
      Total(rows, c) == if c.row < r.row then Total(rows[..|rows| - 1], c)
                        else if c.row == r.row then Sum(FlatRow(r.row, r.cells), c)
                        else 0
    ensures c.row >= rows[|rows| - 1].row ==> Total(rows[..|rows| - 1], c) == 0
  {
    var n := |rows| - 1;
    var r := rows[n];
    SumConcat(Flat(rows[..n]), FlatRow(r.row, r.cells), c);
    if c.row != r.row {
      RowSumOutside(r.row, r.cells, c);
    }
    if c.row >= r.row {
      forall e | e in Flat(rows[..n]) ensures e.cell != c {
        FlatRows(rows[..n], e);
      }
      SumOutside(Flat(rows[..n]), c);
    }
  }

  ghost predicate SameTotals(a: SegmentDelta, b: SegmentDelta) {
    forall c :: Total(a, c) == Total(b, c)
  }

  /** A delta has exactly one canonical form: equal sums at every cell mean equal bytes on the wire. */
  lemma {:induction false} CanonicalUnique(a: SegmentDelta, b: SegmentDelta)
    requires Canonical(a) && Canonical(b) && SameTotals(a, b)
    ensures a == b
  {
    if a != [] || b != [] {
      if a != [] { ReachesRow(a, b); }
      if b != [] { ReachesRow(b, a); }
      var m, n := |a| - 1, |b| - 1;
      SameLastRow(a, b);
      SamePrefixTotals(a, b);
      CanonicalPrefix(a, m);
      CanonicalPrefix(b, n);
      CanonicalUnique(a[..m], b[..n]);
      assert a == a[..m] + [a[m]] && b == b[..n] + [b[n]];
    }
  }

  /** The last cell of `a`'s last row is a nonzero sum, so `b` must have a row at least that far. */
  lemma ReachesRow(a: SegmentDelta, b: SegmentDelta)
    requires Canonical(a) && Canonical(b) && a != [] && (SameTotals(a, b) || SameTotals(b, a))
    ensures b != [] && a[|a| - 1].row <= b[|b| - 1].row
  {
    var r := a[|a| - 1];
    assert r in a;
    LastEditSum(r.row, r.cells);
    var c := Cell(r.row, r.cells[|r.cells| - 1].off);
    LastRowSum(a, c);
    assert Total(a, c) == Total(b, c);
    if b != [] {
      LastRowSum(b, c);
    }
  }

  lemma SameLastRow(a: SegmentDelta, b: SegmentDelta)
    requires Canonical(a) && Canonical(b) && a != [] && b != [] && a[|a| - 1].row == b[|b| - 1].row
    requires SameTotals(a, b)
    ensures a[|a| - 1] == b[|b| - 1]
  {
    var r, q := a[|a| - 1], b[|b| - 1];
    assert r in a && q in b;
    forall off: u16 ensures Sum(FlatRow(r.row, r.cells), Cell(r.row, off)) == Sum(FlatRow(r.row, q.cells), Cell(r.row, off)) {
      assert Total(a, Cell(r.row, off)) == Total(b, Cell(r.row, off));
      LastRowSum(a, Cell(r.row, off));
      LastRowSum(b, Cell(r.row, off));
    }
    CanonicalCellsUnique(r.row, r.cells, q.cells);
  }

  lemma SamePrefixTotals(a: SegmentDelta, b: SegmentDelta)
    requires Canonical(a) && Canonical(b) && a != [] && b != [] && a[|a| - 1] == b[|b| - 1]
    requires SameTotals(a, b)
    ensures SameTotals(a[..|a| - 1], b[..|b| - 1])
  {
    var x, y := a[..|a| - 1], b[..|b| - 1];
    forall c ensures Total(x, c) == Total(y, c) {
      assert Total(a, c) == Total(b, c);
      LastRowSum(a, c);
      LastRowSum(b, c);
    }
  }

  // ----- Overflow of running sums -----

  /** Adding the edits one at a time to `m` never leaves `i64`. */
  ghost predicate RunningOk(m: CellMap, es: seq<Change>) {
    forall k :: 0 <= k < |es| ==> RunningOkAt(m, es, k)
  }

  ghost predicate RunningOkAt(m: CellMap, es: seq<Change>, k: nat)
    requires k < |es|
  {
    IsI64(At(m, es[k].cell) + Sum(es[..k], es[k].cell) + es[k].delta)
  }

  lemma RunningOkPrefix(m: CellMap, es: seq<Change>, fs: seq<Change>)
    ensures RunningOk(m, es + fs) ==> RunningOk(m, es)
  {
    forall k | RunningOk(m, es + fs) && 0 <= k < |es| ensures RunningOkAt(m, es, k) {
      assert RunningOkAt(m, es + fs, k);
      assert (es + fs)[..k] == es[..k];
    }
  }

  lemma RunningOkPush(m: CellMap, es: seq<Change>, e: Change)
    ensures RunningOk(m, es + [e]) <==> RunningOk(m, es) && IsI64(At(m, e.cell) + Sum(es, e.cell) + e.delta)
  {
    RunningOkPrefix(m, es, [e]);
    var fs := es + [e];
    assert fs[..|es|] == es;
    if RunningOk(m, fs) {
      assert RunningOkAt(m, fs, |es|);
    }
    if RunningOk(m, es) && IsI64(At(m, e.cell) + Sum(es, e.cell) + e.delta) {
      forall k | 0 <= k < |fs| ensures RunningOkAt(m, fs, k) {
        if k < |es| {
          assert RunningOkAt(m, es, k);
          assert fs[..k] == es[..k];
        }
      }
    }
  }

  // ----- The rolling accumulator -----

  datatype ClientError =
    | NonContiguousDelta(currentHead: u64, foundBlock: u64)
    | SegmentCountMismatch(expectedSegments: nat, foundSegments: nat)
    | DeltaOverflow
    | GcTargetMismatch(pendingHead: u64, requested: u64)
    | MalformedResponse(expectedArity: nat, foundArity: nat)
    | ResponseBlockMismatch(head: u64, responseBlock: u64)
    | KeyContextMismatch
    | CellOutOfRange(segment: nat, row: u32, offset: u16)

  datatype Pending = Pending(perSegment: seq<CellMap>, head: u64)
  datatype Ingested = Ingested(pending: Pending, error: Option<ClientError>)
  datatype Folded = Folded(cells: CellMap, ok: bool)
  datatype FoldedAll = FoldedAll(perSegment: seq<CellMap>, ok: bool)

  /** One cell's update: insert, add, or drop an entry that reaches zero; `None` is `i64` overflow. */
  function AddEdit(m: CellMap, e: Change): Option<CellMap> {
    if e.cell !in m then Some(if e.delta != 0 then m[e.cell := e.delta] else m)
    else
      var sum := m[e.cell] + e.delta;
      if !IsI64(sum) then None
      else if sum == 0 then Some(m - {e.cell})
      else Some(m[e.cell := sum])
  }

  /** Folds edits left to right, stopping at the first overflow with the prefix already folded in. */
  function FoldEdits(m: CellMap, es: seq<Change>): Folded {
    if es == [] then Folded(m, true)
    else
      var n := |es| - 1;
      var f := FoldEdits(m, es[..n]);
      if !f.ok then f
      else match AddEdit(f.cells, es[n])
        case None => Folded(f.cells, false)
        case Some(m') => Folded(m', true)
  }

  /** The first segment whose fold overflows, or the segment count. */
  function FirstOverflow(ms: seq<CellMap>, segs: seq<SegmentDelta>, n: nat): (k: nat)
    requires |ms| == |segs| && n <= |ms|
    ensures n <= k <= |ms|
    ensures k < |ms| ==> !FoldEdits(ms[k], Flat(segs[k])).ok
    ensures forall j :: n <= j < k ==> FoldEdits(ms[j], Flat(segs[j])).ok
    decreases |ms| - n
  {
    if n == |ms| || !FoldEdits(ms[n], Flat(segs[n])).ok then n else FirstOverflow(ms, segs, n + 1)
  }

  /** Every segment up to and including the first overflowing one is folded; later ones are untouched. */
  function FoldSegments(ms: seq<CellMap>, segs: seq<SegmentDelta>): FoldedAll
    requires |ms| == |segs|
  {
    var bad := FirstOverflow(ms, segs, 0);
    FoldedAll(
      seq(|ms|, j requires 0 <= j < |ms| => if j <= bad then FoldEdits(ms[j], Flat(segs[j])).cells else ms[j]),
      bad == |ms|)
  }

  function IngestInto(p: Pending, d: BlockDelta): Ingested {
    if d.block <= p.head then Ingested(p, Some(NonContiguousDelta(p.head, d.block)))
    else if |d.perSegment| != |p.perSegment| then
      Ingested(p, Some(SegmentCountMismatch(|p.perSegment|, |d.perSegment|)))
    else
      var f := FoldSegments(p.perSegment, d.perSegment);
      if f.ok then Ingested(Pending(f.perSegment, d.block), None)
      else Ingested(Pending(f.perSegment, p.head), Some(DeltaOverflow))
  }

  lemma {:induction false} FoldPush(m: CellMap, es: seq<Change>, e: Change)
    ensures FoldEdits(m, es + [e]) ==
      var f := FoldEdits(m, es);
      if !f.ok then f
      else match AddEdit(f.cells, e) case None => Folded(f.cells, false) case Some(m') => Folded(m', true)
  {
    assert (es + [e])[..|es|] == es;
  }

  /** A fold succeeds exactly when no running sum overflows, and then adds the net edits cell by cell. */
  lemma {:induction false} FoldMeaning(m: CellMap, es: seq<Change>)
    ensures FoldEdits(m, es).ok <==> RunningOk(m, es)
    ensures FoldEdits(m, es).ok ==> forall c :: At(FoldEdits(m, es).cells, c) == At(m, c) + Sum(es, c)
    ensures NoZeros(m) ==> NoZeros(FoldEdits(m, es).cells)
  {
    if es != [] {
      hide RunningOk, AddEdit;
      var n := |es| - 1;
      assert es == es[..n] + [es[n]];
      FoldMeaning(m, es[..n]);
      RunningOkPush(m, es[..n], es[n]);
      AddMeaning(FoldEdits(m, es[..n]).cells, es[n]);
    }
  }

  lemma AddMeaning(m: CellMap, e: Change)
    ensures AddEdit(m, e).Some? <==> IsI64(At(m, e.cell) + e.delta)
    ensures AddEdit(m, e).Some? ==> forall c :: At(AddEdit(m, e).value, c) == At(m, c) + if c == e.cell then e.delta else 0
    ensures AddEdit(m, e).Some? && NoZeros(m) ==> NoZeros(AddEdit(m, e).value)
  {
  }

  predicate CanonicalPending(p: Pending) {
    forall m :: m in p.perSegment ==> NoZeros(m)
  }

  /** The whole behaviour of `ingest`: exact error conditions, and cell-wise addition on success. */
  lemma IngestMeaning(p: Pending, d: BlockDelta)
    ensures var r := IngestInto(p, d);
      r.error.None? <==>
        && d.block > p.head && |d.perSegment| == |p.perSegment|
        && forall j :: 0 <= j < |p.perSegment| ==> RunningOk(p.perSegment[j], Flat(d.perSegment[j]))
    ensures var r := IngestInto(p, d);
      r.error.None? ==>
        && r.pending.head == d.block && |r.pending.perSegment| == |p.perSegment|
        && forall j, c :: 0 <= j < |p.perSegment| ==>
             At(r.pending.perSegment[j], c) == At(p.perSegment[j], c) + Total(d.perSegment[j], c)
    ensures var r := IngestInto(p, d);
      r.error.Some? ==>
        && r.error.value == (if d.block <= p.head then NonContiguousDelta(p.head, d.block)
                             else if |d.perSegment| != |p.perSegment| then SegmentCountMismatch(|p.perSegment|, |d.perSegment|)
                             else DeltaOverflow)
        && r.pending.head == p.head && (r.error.value != DeltaOverflow ==> r.pending == p)
    ensures CanonicalPending(p) ==> CanonicalPending(IngestInto(p, d).pending)
  {
    if d.block > p.head && |d.perSegment| == |p.perSegment| {
      forall j | 0 <= j < |p.perSegment|
        ensures FoldEdits(p.perSegment[j], Flat(d.perSegment[j])).ok <==> RunningOk(p.perSegment[j], Flat(d.perSegment[j]))
        ensures RunningOk(p.perSegment[j], Flat(d.perSegment[j])) ==>
          forall c :: At(FoldEdits(p.perSegment[j], Flat(d.perSegment[j])).cells, c) == At(p.perSegment[j], c) + Total(d.perSegment[j], c)
        ensures CanonicalPending(p) ==> NoZeros(FoldEdits(p.perSegment[j], Flat(d.perSegment[j])).cells)
      {
        assert p.perSegment[j] in p.perSegment;
        FoldMeaning(p.perSegment[j], Flat(d.perSegment[j]));
      }
    }
  }

  /** A rejected delta does not always leave the accumulator alone: overflow keeps what was folded before it. */
  lemma OverflowCanTear()
    ensures var p := Pending([map[Cell(0, 0) := 1, Cell(0, 1) := TWO_63 - 1]], 5);
      var d := BlockDelta(6, [[RowEdits(0, [Edit(0, 1), Edit(1, 1)])]]);
      var r := IngestInto(p, d);
      r.error == Some(DeltaOverflow) && At(r.pending.perSegment[0], Cell(0, 0)) == 2 && r.pending != p
  {
    var m: CellMap := map[Cell(0, 0) := 1, Cell(0, 1) := TWO_63 - 1];
    var rows := [RowEdits(0, [Edit(0, 1), Edit(1, 1)])];
    var es := [Change(Cell(0, 0), 1), Change(Cell(0, 1), 1)];
    assert Flat(rows) == es by {
      assert rows[..0] == [];
      assert FlatRow(0, rows[0].cells) == es;
    }
    assert es[..1] == [Change(Cell(0, 0), 1)] && es[..1][..0] == [];
    assert FoldEdits(m, es[..1]) == Folded(m[Cell(0, 0) := 2], true);
    assert FoldEdits(m, es) == Folded(m[Cell(0, 0) := 2], false);
    assert FirstOverflow([m], [rows], 0) == 0;
  }

  ghost predicate NetZero(es: seq<Change>) {
    forall c :: Sum(es, c) == 0
  }

  /** Exactly when an overflowing segment is nevertheless left as it was: the edits before the overflow cancel. */
  lemma OverflowKeepsCellsIff(m: CellMap, es: seq<Change>, k: nat)
    requires NoZeros(m) && k < |es|
    requires RunningOk(m, es[..k]) && !RunningOkAt(m, es, k)
    ensures !FoldEdits(m, es).ok
    ensures FoldEdits(m, es).cells == m <==> NetZero(es[..k])
  {
    FoldMeaning(m, es[..k]);
    var f := FoldEdits(m, es[..k]);
    assert es[..k + 1] == es[..k] + [es[k]];
    FoldPush(m, es[..k], es[k]);
    RunningOkPush(m, es[..k], es[k]);
    FoldMeaning(m, es[..k + 1]);
    assert es == es[..k + 1] + es[k + 1..];
    FoldConcat(m, es[..k + 1], es[k + 1..]);
    assert AddEdit(f.cells, es[k]).None?;
    assert FoldEdits(m, es[..k + 1]) == Folded(f.cells, false);
    assert FoldEdits(m, es) == Folded(f.cells, false);
    if f.cells == m {
      forall c ensures Sum(es[..k], c) == 0 {
        assert At(f.cells, c) == At(m, c) + Sum(es[..k], c);
      }
    }
    if NetZero(es[..k]) {
      assert forall c :: At(f.cells, c) == At(m, c);
      SameAt(f.cells, m);
    }
  }

  lemma {:induction false} FirstOverflowIs(ms: seq<CellMap>, segs: seq<SegmentDelta>, n: nat, s: nat)
    requires |ms| == |segs| && n <= s < |ms| && !FoldEdits(ms[s], Flat(segs[s])).ok
    requires forall j :: n <= j < s ==> FoldEdits(ms[j], Flat(segs[j])).ok
    ensures FirstOverflow(ms, segs, n) == s
    decreases s - n
  {
    if n < s {
      FirstOverflowIs(ms, segs, n + 1, s);
    }
  }

  /** The first running sum of the call that leaves `i64` is that of edit `k` of segment `s`. */
  ghost predicate FirstOverflowsAt(p: Pending, d: BlockDelta, s: nat, k: nat)
    requires |d.perSegment| == |p.perSegment|
  {
    && s < |p.perSegment| && k < |Flat(d.perSegment[s])|
    && (forall j :: 0 <= j < s ==> RunningOk(p.perSegment[j], Flat(d.perSegment[j])))
    && RunningOk(p.perSegment[s], Flat(d.perSegment[s])[..k])
    && !RunningOkAt(p.perSegment[s], Flat(d.perSegment[s]), k)
  }

  /** `DeltaOverflow` always has such a first edit. */
  lemma OverflowHasPlace(p: Pending, d: BlockDelta) returns (s: nat, k: nat)
    requires IngestInto(p, d).error == Some(DeltaOverflow)
    ensures |d.perSegment| == |p.perSegment| && FirstOverflowsAt(p, d, s, k)
  {
    s := FirstOverflow(p.perSegment, d.perSegment, 0);
    forall j | 0 <= j <= s
      ensures FoldEdits(p.perSegment[j], Flat(d.perSegment[j])).ok <==> RunningOk(p.perSegment[j], Flat(d.perSegment[j]))
    {
      FoldMeaning(p.perSegment[j], Flat(d.perSegment[j]));
    }
    k := FirstBadSum(p.perSegment[s], Flat(d.perSegment[s]));
  }

  lemma {:induction false} FirstBadSum(m: CellMap, es: seq<Change>) returns (k: nat)
    requires !RunningOk(m, es)
    ensures k < |es| && RunningOk(m, es[..k]) && !RunningOkAt(m, es, k)
  {
    var n := |es| - 1;
    assert es == es[..n] + [es[n]];
    if RunningOk(m, es[..n]) {
      k := n;
      RunningOkPush(m, es[..n], es[n]);
    } else {
      k := FirstBadSum(m, es[..n]);
      assert es[..n][..k] == es[..k];
    }
  }

  /**
   Exactly when a call refused for overflow has changed nothing: every segment before the overflowing one, and
   the overflowing one up to the edit that overflows, sums to zero in every cell.
   */
  lemma RefusedIngestKeepsIff(p: Pending, d: BlockDelta, s: nat, k: nat)
    requires CanonicalPending(p) && d.block > p.head && |d.perSegment| == |p.perSegment| && FirstOverflowsAt(p, d, s, k)
    ensures IngestInto(p, d).error == Some(DeltaOverflow)
    ensures IngestInto(p, d).pending == p <==>
      (forall j :: 0 <= j < s ==> NetZero(Flat(d.perSegment[j]))) && NetZero(Flat(d.perSegment[s])[..k])
  {
    hide RunningOkAt, Flat, FoldEdits, Sum;
    var q := IngestInto(p, d).pending;
    assert p.perSegment[s] in p.perSegment;
    OverflowKeepsCellsIff(p.perSegment[s], Flat(d.perSegment[s]), k);
    forall j | 0 <= j < s
      ensures FoldEdits(p.perSegment[j], Flat(d.perSegment[j])).ok
      ensures FoldEdits(p.perSegment[j], Flat(d.perSegment[j])).cells == p.perSegment[j] <==> NetZero(Flat(d.perSegment[j]))
    {
      assert p.perSegment[j] in p.perSegment;
      FoldKeepsIff(p.perSegment[j], Flat(d.perSegment[j]));
    }
    FirstOverflowIs(p.perSegment, d.perSegment, 0, s);
    assert forall j :: s < j < |p.perSegment| ==> q.perSegment[j] == p.perSegment[j];
    assert forall j :: 0 <= j <= s ==> q.perSegment[j] == FoldEdits(p.perSegment[j], Flat(d.perSegment[j])).cells;
  }

  lemma FoldKeepsIff(m: CellMap, es: seq<Change>)
    requires NoZeros(m) && RunningOk(m, es)
    ensures FoldEdits(m, es).ok && (FoldEdits(m, es).cells == m <==> NetZero(es))
  {
    hide RunningOk, FoldEdits;
    FoldMeaning(m, es);
    var f := FoldEdits(m, es);
    assert forall c :: At(f.cells, c) == At(m, c) + Sum(es, c);
    if NetZero(es) {
      assert forall c :: At(f.cells, c) == At(m, c);
      SameAt(f.cells, m);
    }
  }

  /** The tear can be in an earlier segment alone: here the overflowing one stops at its first edit. */
  lemma OverflowCanTearEarlierSegment()
    ensures var p := Pending([map[], map[Cell(0, 0) := TWO_63 - 1]], 5);
      var d := BlockDelta(6, [[RowEdits(0, [Edit(0, 5)])], [RowEdits(0, [Edit(0, 1)])]]);
      FirstOverflowsAt(p, d, 1, 0) && IngestInto(p, d).error == Some(DeltaOverflow) && IngestInto(p, d).pending != p
  {
    var p := Pending([map[], map[Cell(0, 0) := TWO_63 - 1]], 5);
    var a, b := [RowEdits(0, [Edit(0, 5)])], [RowEdits(0, [Edit(0, 1)])];
    var d := BlockDelta(6, [a, b]);
    OneEdit(a, 0, 0, 5);
    OneEdit(b, 0, 0, 1);
    hide FoldEdits, FoldSegments, Flat, Sum;
    NothingBefore(Flat(b));
    NothingBefore(Flat(a));
    assert !RunningOkAt(p.perSegment[1], Flat(b), 0);
    assert RunningOkAt(p.perSegment[0], Flat(a), 0);
    assert Sum(Flat(a), Cell(0, 0)) == 5;
    assert !NetZero(Flat(a));
    RefusedIngestKeepsIff(p, d, 1, 0);
  }

  lemma NothingBefore(es: seq<Change>)
    ensures es[..0] == [] && forall c :: Sum(es[..0], c) == 0
  {
  }

  lemma OneEdit(rows: SegmentDelta, row: u32, off: u16, delta: i64)
    requires rows == [RowEdits(row, [Edit(off, delta)])]
    ensures Flat(rows) == [Change(Cell(row, off), delta)]
    ensures forall c :: Sum(Flat(rows), c) == if c == Cell(row, off) then delta else 0
  {
    assert rows[..0] == [];
    var es := FlatRow(row, rows[0].cells);
    assert es == [Change(Cell(row, off), delta)];
    assert es[..0] == [];
  }

  class PendingDelta {
    var perSegment: seq<CellMap>
    var head: u64

    function Snapshot(): Pending
      reads this
    {
      Pending(perSegment, head)
    }

    constructor (arity: nat, head: u64)
      ensures Snapshot() == Pending(seq(arity, _ => map[]), head)
    {
      this.perSegment := seq(arity, _ => map[]);
      this.head := head;
    }

    method Ingest(d: BlockDelta) returns (error: Option<ClientError>)
      modifies this
      ensures Ingested(Snapshot(), error) == IngestInto(old(Snapshot()), d)
    {
      hide FirstOverflow, Flat, FoldEdits;
      if d.block <= head {
        return Some(NonContiguousDelta(head, d.block));
      }
      if |d.perSegment| != |perSegment| {
        return Some(SegmentCountMismatch(|perSegment|, |d.perSegment|));
      }
      ghost var before := perSegment;
      for seg := 0 to |d.perSegment|
        invariant |perSegment| == |before| == |d.perSegment| && head == old(head)
        invariant FirstOverflow(before, d.perSegment, 0) == FirstOverflow(before, d.perSegment, seg)
        invariant forall j :: seg <= j < |before| ==> perSegment[j] == before[j]
        invariant forall j :: 0 <= j < seg ==> perSegment[j] == FoldEdits(before[j], Flat(d.perSegment[j])).cells
      {
        var folded, ok := PendingDelta.IngestSegment(perSegment[seg], d.perSegment[seg]);
        perSegment := perSegment[seg := folded];
        if !ok {
          assert perSegment == FoldSegments(before, d.perSegment).perSegment;
          return Some(DeltaOverflow);
        }
      }
      assert perSegment == FoldSegments(before, d.perSegment).perSegment;
      head := d.block;
      return None;
    }

    /** Folds one segment into `m`; on overflow `folded` holds what was folded before it. */
    static method IngestSegment(m: CellMap, rows: SegmentDelta) returns (folded: CellMap, ok: bool)
      ensures Folded(folded, ok) == FoldEdits(m, Flat(rows))
    {
      folded, ok := m, true;
      for i := 0 to |rows|
        invariant ok && FoldEdits(m, Flat(rows[..i])) == Folded(folded, true)
      {
        ghost var before := Flat(rows[..i]);
        ghost var start := folded;
        assert rows[..i + 1] == rows[..i] + [rows[i]];
        FlatPush(rows[..i], rows[i]);
        folded, ok := IngestRow(folded, rows[i].row, rows[i].cells);
        FoldConcat(m, before, FlatRow(rows[i].row, rows[i].cells));
        if !ok {
          FlatConcat(rows[..i + 1], rows[i + 1..]);
          assert rows == rows[..i + 1] + rows[i + 1..];
          FoldConcat(m, Flat(rows[..i + 1]), Flat(rows[i + 1..]));
          return;
        }
      }
      assert rows[..|rows|] == rows;
    }

    static method IngestRow(m: CellMap, row: u32, cells: seq<Edit>) returns (folded: CellMap, ok: bool)
      ensures Folded(folded, ok) == FoldEdits(m, FlatRow(row, cells))
    {
      RowNothing(m, row);
      hide FoldEdits, FlatRow;
      folded, ok := m, true;
      for j := 0 to |cells|
        invariant ok && FoldEdits(m, FlatRow(row, cells[..j])) == Folded(folded, true)
      {
        var key, delta := Cell(row, cells[j].off), cells[j].delta;
        ghost var done := FlatRow(row, cells[..j]);
        assert cells[..j + 1] == cells[..j] + [cells[j]];
        FlatRowPush(row, cells[..j], cells[j]);
        FoldPush(m, done, Change(key, delta));
        if key !in folded {
          if delta != 0 {
            folded := folded[key := delta];
          }
        } else {
          var held: int := folded[key];
          var sum := held + delta;
          if !IsI64(sum) {
            ok := false;
            RowStops(m, row, cells, j + 1);
            return;
          } else if sum == 0 {
            folded := folded - {key};
          } else {
            folded := folded[key := sum];
          }
        }
      }
      assert cells[..|cells|] == cells;
    }

    /** One segment's accumulator in the shape the hint patch takes: rows and offsets ascending. */
    method AsRowDeltas(seg: nat) returns (out: SegmentDelta)
      requires seg < |perSegment| && NoZeros(perSegment[seg])
      ensures Canonical(out)
      ensures forall c :: Total(out, c) == At(perSegment[seg], c)
    {
      var m := perSegment[seg];
      var rest := m.Keys;
      out := [];
      NothingWritten(m);
      hide Written;
      while rest != {}
        invariant rest <= m.Keys && Written(m, rest, out)
      {
        LeastCell(rest);
        var c :| c in rest && forall d :: d in rest ==> d == c || Before(c, d);
        WrittenNext(m, rest, out, c);
        rest := rest - {c};
        ghost var before := out;
        if out != [] && out[|out| - 1].row == c.row {
          var last := out[|out| - 1];
          out := out[|out| - 1 := RowEdits(c.row, last.cells + [Edit(c.off, m[c])])];
        } else {
          out := out + [RowEdits(c.row, [Edit(c.off, m[c])])];
        }
        assert out == PushCell(before, c, m[c]);
      }
      AllWritten(m, out);
    }
  }

  /** `out` is the map without the cells in `rest`, all of which come later. */
  ghost predicate Written(m: CellMap, rest: set<Cell>, out: SegmentDelta) {
    && Canonical(out)
    && (out != [] ==> forall d :: d in rest ==> Before(LastCell(out), d))
    && (forall c :: Total(out, c) == if c in rest then 0 else At(m, c))
  }

  lemma NothingWritten(m: CellMap)
    ensures Written(m, m.Keys, [])
  {
  }

  lemma AllWritten(m: CellMap, out: SegmentDelta)
    requires Written(m, {}, out)
    ensures Canonical(out) && forall c :: Total(out, c) == At(m, c)
  {
  }

  lemma WrittenNext(m: CellMap, rest: set<Cell>, out: SegmentDelta, c: Cell)
    requires NoZeros(m) && rest <= m.Keys && Written(m, rest, out)
    requires c in rest && forall d :: d in rest ==> d == c || Before(c, d)
    ensures Written(m, rest - {c}, PushCell(out, c, m[c]))
  {
    hide Canonical, Total, PushCell;
    PushCellCanonical(out, c, m[c]);
    var next := PushCell(out, c, m[c]);
    forall c' ensures Total(next, c') == if c' in rest - {c} then 0 else At(m, c') {
      PushCellTotal(out, c, m[c], c');
    }
  }

  lemma RowNothing(m: CellMap, row: u32)
    ensures FoldEdits(m, FlatRow(row, [])) == Folded(m, true)
  {
  }

  /** What follows an overflow is not folded. */
  lemma RowStops(m: CellMap, row: u32, cells: seq<Edit>, n: nat)
    requires n <= |cells| && !FoldEdits(m, FlatRow(row, cells[..n])).ok
    ensures FoldEdits(m, FlatRow(row, cells)) == FoldEdits(m, FlatRow(row, cells[..n]))
  {
    hide FoldEdits;
    assert FlatRow(row, cells) == FlatRow(row, cells[..n]) + FlatRow(row, cells[n..]);
    FoldConcat(m, FlatRow(row, cells[..n]), FlatRow(row, cells[n..]));
  }

  function LastCell(rows: SegmentDelta): Cell
    requires Canonical(rows) && rows != []
  {
    var r := rows[|rows| - 1];
    assert r in rows;
    Cell(r.row, r.cells[|r.cells| - 1].off)
  }

  /** Appends an edit to the last row, or opens a new row for it. */
  function PushCell(rows: SegmentDelta, c: Cell, delta: i64): SegmentDelta {
    if rows != [] && rows[|rows| - 1].row == c.row then
      rows[|rows| - 1 := RowEdits(c.row, rows[|rows| - 1].cells + [Edit(c.off, delta)])]
    else rows + [RowEdits(c.row, [Edit(c.off, delta)])]
  }

  lemma PushCellCanonical(rows: SegmentDelta, c: Cell, delta: i64)
    requires Canonical(rows) && delta != 0
    requires rows != [] ==> Before(LastCell(rows), c)
    ensures var out := PushCell(rows, c, delta); Canonical(out) && out != [] && LastCell(out) == c
  {
    var out := PushCell(rows, c, delta);
    if rows != [] {
      var last := rows[|rows| - 1];
      assert last in rows;
      assert CanonicalCells(last.cells);
      if last.row == c.row {
        assert CanonicalCells(last.cells + [Edit(c.off, delta)]);
      }
    }
    assert CanonicalCells([Edit(c.off, delta)]);
    forall r | r in out ensures r.cells != [] && CanonicalCells(r.cells) {
      var i :| 0 <= i < |out| && out[i] == r;
      if i < |out| - 1 { assert r == rows[i] && rows[i] in rows; }
    }
  }

  lemma PushCellTotal(rows: SegmentDelta, c: Cell, delta: i64, c': Cell)
    ensures Total(PushCell(rows, c, delta), c') == Total(rows, c') + if c' == c then delta else 0
  {
    var out := PushCell(rows, c, delta);
    var e := Edit(c.off, delta);
    var n := |rows| - 1;
    if rows != [] && rows[n].row == c.row {
      FlatRowPush(c.row, rows[n].cells, e);
      assert out[..n] == rows[..n];
      assert Flat(out) == Flat(rows[..n]) + (FlatRow(c.row, rows[n].cells) + [Change(c, delta)]);
      assert Flat(out) == Flat(rows) + [Change(c, delta)];
    } else {
      FlatPush(rows, RowEdits(c.row, [e]));
      assert FlatRow(c.row, [e]) == [Change(c, delta)];
    }
    SumPush(Flat(rows), Change(c, delta), c');
  }

  lemma {:induction false} FoldConcat(m: CellMap, es: seq<Change>, fs: seq<Change>)
    ensures FoldEdits(m, es + fs) == if FoldEdits(m, es).ok then FoldEdits(FoldEdits(m, es).cells, fs) else FoldEdits(m, es)
  {
    if fs == [] {
      assert es + fs == es;
    } else {
      var n := |fs| - 1;
      FoldConcat(m, es, fs[..n]);
      assert es + fs == (es + fs[..n]) + [fs[n]];
      FoldPush(m, es + fs[..n], fs[n]);
    }
  }

  /** The order in which a `BTreeMap` keyed by `(row, offset)` is walked. */
  predicate Before(c: Cell, d: Cell) {
    c.row < d.row || (c.row == d.row && c.off < d.off)
  }

  lemma {:induction false} LeastCell(s: set<Cell>)
    requires s != {}
    ensures exists c :: c in s && forall d :: d in s ==> d == c || Before(c, d)
  {
    var c := SomeElement(s);
    if s != {c} {
      var rest := s - {c};
      LeastCell(rest);
      var l :| l in rest && forall d :: d in rest ==> d == l || Before(l, d);
      var least := if Before(c, l) then c else l;
      forall d | d in s ensures d == least || Before(least, d) {
        if d != c { assert d in rest; }
      }
      assert least in s && forall d :: d in s ==> d == least || Before(least, d);
    }
  }
}
