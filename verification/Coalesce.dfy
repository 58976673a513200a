/** `BlockDelta::coalesce`, its equivalence with block-by-block ingestion, and the telescoping bound. */
module Coalesce {
  import opened Words
  import opened Wrappers
  import opened Deltas

  datatype CoalesceError =
    | Empty
    | NonContiguous(expectedBlock: nat, foundBlock: u64)
    | SegmentCounts(expectedSegments: nat, foundSegments: nat)
    | Overflow

  function NestedAt(rm: RowMap, c: Cell): int {
    if c.row in rm && c.off in rm[c.row] then rm[c.row][c.off] else 0
  }

  /** The first fault of a run, in the order the checks are made. */
  function RunFault(deltas: seq<BlockDelta>, i: nat): Option<CoalesceError>
    requires deltas != []
    decreases |deltas| - i
  {
    if i >= |deltas| then None
    else if deltas[i].block != deltas[0].block + i then Some(NonContiguous(deltas[0].block + i, deltas[i].block))
    else if |deltas[i].perSegment| != |deltas[0].perSegment| then
      Some(SegmentCounts(|deltas[0].perSegment|, |deltas[i].perSegment|))
    else RunFault(deltas, i + 1)
  }

  ghost predicate Uniform(deltas: seq<BlockDelta>, arity: nat) {
    forall d :: d in deltas ==> |d.perSegment| == arity
  }

  /** A run has no fault exactly when its blocks are consecutive and its arities agree. */
  lemma {:induction false} RunFaultNoneIff(deltas: seq<BlockDelta>, i: nat)
    requires deltas != []
    ensures RunFault(deltas, i).None? <==>
      forall k :: i <= k < |deltas| ==>
        deltas[k].block == deltas[0].block + k && |deltas[k].perSegment| == |deltas[0].perSegment|
    decreases |deltas| - i
  {
    if i < |deltas| {
      RunFaultNoneIff(deltas, i + 1);
    }
  }

  /** The fault reported is that of the first delta out of place: its height if that is wrong, else its arity. */
  lemma {:induction false} RunFaultIs(deltas: seq<BlockDelta>, i: nat, k: nat)
    requires deltas != [] && i <= k < |deltas|
    requires forall m :: i <= m < k ==>
      deltas[m].block == deltas[0].block + m && |deltas[m].perSegment| == |deltas[0].perSegment|
    ensures deltas[k].block != deltas[0].block + k ==>
      RunFault(deltas, i) == Some(NonContiguous(deltas[0].block + k, deltas[k].block))
    ensures deltas[k].block == deltas[0].block + k && |deltas[k].perSegment| != |deltas[0].perSegment| ==>
      RunFault(deltas, i) == Some(SegmentCounts(|deltas[0].perSegment|, |deltas[k].perSegment|))
    decreases k - i
  {
    if i < k {
      RunFaultIs(deltas, i + 1, k);
    }
  }

  /** Every edit the run makes to segment `j`, in order. */
  ghost function AllEdits(deltas: seq<BlockDelta>, j: nat): seq<Change>
    requires forall d :: d in deltas ==> j < |d.perSegment|
  {
    if deltas == [] then []
    else
      var n := |deltas| - 1;
      AllEdits(deltas[..n], j) + Flat(deltas[n].perSegment[j])
  }

  ghost predicate RunFits(deltas: seq<BlockDelta>, arity: nat)
    requires Uniform(deltas, arity)
  {
    forall j :: 0 <= j < arity ==> RunningOk(map[], AllEdits(deltas, j))
  }

  /** What a coalesced delta is: the last block, canonical, and the exact sum of the run at every cell. */
  ghost predicate IsCoalesced(deltas: seq<BlockDelta>, out: BlockDelta) {
    && deltas != [] && Uniform(deltas, |out.perSegment|)
    && out.block == deltas[|deltas| - 1].block
    && forall j :: 0 <= j < |out.perSegment| ==>
         && Canonical(out.perSegment[j])
         && forall c :: Total(out.perSegment[j], c) == Sum(AllEdits(deltas, j), c)
  }

  /** `IsCoalesced` leaves no choice. */
  lemma CoalescedUnique(deltas: seq<BlockDelta>, a: BlockDelta, b: BlockDelta)
    requires IsCoalesced(deltas, a) && IsCoalesced(deltas, b)
    ensures a == b
  {
    assert deltas[0] in deltas;
    forall j | 0 <= j < |a.perSegment| ensures a.perSegment[j] == b.perSegment[j] {
      CanonicalUnique(a.perSegment[j], b.perSegment[j]);
    }
  }

  method Coalesce(deltas: seq<BlockDelta>) returns (r: Result<BlockDelta, CoalesceError>)
    ensures r == Err(Empty) <==> deltas == []
    ensures deltas != [] && RunFault(deltas, 0).Some? ==> r == Err(RunFault(deltas, 0).value)
    ensures deltas != [] && RunFault(deltas, 0).None? ==>
      && Uniform(deltas, |deltas[0].perSegment|)
      && (r.Ok? <==> RunFits(deltas, |deltas[0].perSegment|))
      && (r.Ok? ==> IsCoalesced(deltas, r.value))
      && (r.Err? ==> r.error == Overflow)
  {
    hide Canonical, NestedAt;
    if deltas == [] {
      return Err(Empty);
    }
    var arity := |deltas[0].perSegment|;
    for i := 0 to |deltas|
      invariant RunFault(deltas, 0) == RunFault(deltas, i)
    {
      if deltas[i].block != deltas[0].block + i {
        return Err(NonContiguous(deltas[0].block + i, deltas[i].block));
      }
      if |deltas[i].perSegment| != arity {
        return Err(SegmentCounts(arity, |deltas[i].perSegment|));
      }
    }
    RunFaultNoneIff(deltas, 0);
    var acc, ok := Accumulate(deltas, arity);
    if !ok {
      return Err(Overflow);
    }
    var perSegment := EmitSegments(acc);
    return Ok(BlockDelta(deltas[|deltas| - 1].block, perSegment));
  }

  method EmitSegments(acc: seq<RowMap>) returns (perSegment: seq<SegmentDelta>)
    ensures |perSegment| == |acc|
    ensures forall k :: 0 <= k < |acc| ==> Canonical(perSegment[k])
    ensures forall k, c :: 0 <= k < |acc| ==> Total(perSegment[k], c) == NestedAt(acc[k], c)
  {
    hide Canonical, NestedAt, Total;
    perSegment := [];
    for j := 0 to |acc|
      invariant |perSegment| == j
      invariant forall k :: 0 <= k < j ==> Canonical(perSegment[k])
      invariant forall k, c :: 0 <= k < j ==> Total(perSegment[k], c) == NestedAt(acc[k], c)
    {
      var rows := EmitSegment(acc[j]);
      perSegment := perSegment + [rows];
    }
  }

  /** `rm` holds the sums of `es`, all of which fitted. */
  ghost predicate HoldsSums(rm: RowMap, es: seq<Change>) {
    && RunningOk(map[], es)
    && forall c :: NestedAt(rm, c) == Sum(es, c)
  }

  method Accumulate(deltas: seq<BlockDelta>, arity: nat) returns (acc: seq<RowMap>, ok: bool)
    requires Uniform(deltas, arity)
    ensures ok <==> RunFits(deltas, arity)
    ensures ok ==> |acc| == arity && forall j :: 0 <= j < arity ==> HoldsSums(acc[j], AllEdits(deltas, j))
  {
    acc, ok := seq(arity, _ => map[]), true;
    for i := 0 to |deltas|
      invariant ok && |acc| == arity
      invariant forall j :: 0 <= j < arity ==> HoldsSums(acc[j], AllEdits(deltas[..i], j))
    {
      ghost var before := acc;
      for j := 0 to arity
        invariant ok && |acc| == arity
        invariant forall k :: 0 <= k < j ==> HoldsSums(acc[k], AllEdits(deltas[..i + 1], k))
        invariant forall k :: j <= k < arity ==> acc[k] == before[k]
      {
        AllEditsStep(deltas, i, j);
        var rm, fits := AccumulateSegment(acc[j], deltas[i].perSegment[j], AllEdits(deltas[..i], j));
        if !fits {
          ok := false;
          return;
        }
        acc := acc[j := rm];
      }
    }
    assert deltas[..|deltas|] == deltas;
  }

  lemma EditsOfLast(done: seq<BlockDelta>, i: nat, j: nat)
    requires |done| == i + 1 && forall d :: d in done ==> j < |d.perSegment|
    ensures AllEdits(done, j) == AllEdits(done[..i], j) + Flat(done[i].perSegment[j])
  {
    hide Flat;
  }

  lemma AllEditsStep(deltas: seq<BlockDelta>, i: nat, j: nat)
    requires i < |deltas| && forall d :: d in deltas ==> j < |d.perSegment|
    ensures AllEdits(deltas[..i + 1], j) == AllEdits(deltas[..i], j) + Flat(deltas[i].perSegment[j])
    ensures RunningOk(map[], AllEdits(deltas, j)) ==> RunningOk(map[], AllEdits(deltas[..i + 1], j))
  {
    var done, rest := deltas[..i + 1], deltas[i + 1..];
    assert done[..i] == deltas[..i] && done[i] == deltas[i];
    EditsOfLast(done, i, j);
    hide Flat, RunningOk, AllEdits;
    assert deltas == done + rest;
    AllEditsConcat(done, rest, j);
    RunningOkPrefix(map[], AllEdits(deltas[..i + 1], j), AllEdits(deltas[i + 1..], j));
  }

  lemma {:induction false} AllEditsConcat(a: seq<BlockDelta>, b: seq<BlockDelta>, j: nat)
    requires forall d :: d in a ==> j < |d.perSegment|
    requires forall d :: d in b ==> j < |d.perSegment|
    ensures AllEdits(a + b, j) == AllEdits(a, j) + AllEdits(b, j)
  {
    hide Flat;
    if b == [] {
      assert a + b == a;
    } else {
      var n := |b| - 1;
      assert (a + b)[..|a + b| - 1] == a + b[..n];
      AllEditsConcat(a, b[..n], j);
      Assoc(AllEdits(a, j), AllEdits(b[..n], j), Flat(b[n].perSegment[j]));
    }
  }

  /** Adds one segment's rows into the nested maps; `done` is what they already hold. */
  method AccumulateSegment(rm: RowMap, rows: SegmentDelta, ghost done: seq<Change>) returns (out: RowMap, ok: bool)
    requires HoldsSums(rm, done)
    ensures ok <==> RunningOk(map[], done + Flat(rows))
    ensures ok ==> HoldsSums(out, done + Flat(rows))
  {
    out, ok := rm, true;
    assert done + Flat(rows[..0]) == done;
    for i := 0 to |rows|
      invariant ok && HoldsSums(out, done + Flat(rows[..i]))
    {
      RowsStep(done, rows, i);
      out, ok := AccumulateRow(out, rows[i].row, rows[i].cells, done + Flat(rows[..i]));
      if !ok {
        return;
      }
    }
    assert rows[..|rows|] == rows;
  }

  lemma RowsStep(done: seq<Change>, rows: SegmentDelta, i: nat)
    requires i < |rows|
    ensures done + Flat(rows[..i + 1]) == (done + Flat(rows[..i])) + FlatRow(rows[i].row, rows[i].cells)
    ensures RunningOk(map[], done + Flat(rows)) ==> RunningOk(map[], done + Flat(rows[..i + 1]))
  {
    FlatTake(rows, i);
    FlatSplit(rows, i + 1);
    RunningOkMid(done, Flat(rows[..i]), FlatRow(rows[i].row, rows[i].cells), Flat(rows[i + 1..]));
  }

  lemma FlatSplit(rows: SegmentDelta, i: nat)
    requires i <= |rows|
    ensures Flat(rows) == Flat(rows[..i]) + Flat(rows[i..])
  {
    var a, b := rows[..i], rows[i..];
    assert rows == a + b;
    FlatConcat(a, b);
  }

  lemma FlatTake(rows: SegmentDelta, i: nat)
    requires i < |rows|
    ensures Flat(rows[..i + 1]) == Flat(rows[..i]) + FlatRow(rows[i].row, rows[i].cells)
  {
    assert rows[..i + 1] == rows[..i] + [rows[i]];
    FlatPush(rows[..i], rows[i]);
  }

  lemma RunningOkMid(done: seq<Change>, a: seq<Change>, f: seq<Change>, b: seq<Change>)
    ensures done + (a + f) == (done + a) + f
    ensures RunningOk(map[], done + ((a + f) + b)) ==> RunningOk(map[], done + (a + f))
  {
    assert done + ((a + f) + b) == (done + (a + f)) + b;
    RunningOkPrefix(map[], done + (a + f), b);
  }

  method AccumulateRow(rm: RowMap, row: u32, cells: seq<Edit>, ghost done: seq<Change>) returns (out: RowMap, ok: bool)
    requires HoldsSums(rm, done)
    ensures ok <==> RunningOk(map[], done + FlatRow(row, cells))
    ensures ok ==> HoldsSums(out, done + FlatRow(row, cells))
  {
    var slots: map<u16, i64> := if row in rm then rm[row] else map[];
    out, ok := rm[row := slots], true;
    assert done + FlatRow(row, cells[..0]) == done;
    assert forall c :: NestedAt(out, c) == NestedAt(rm, c);
    for j := 0 to |cells|
      invariant ok && out == rm[row := slots]
      invariant HoldsSums(out, done + FlatRow(row, cells[..j]))
    {
      var off, delta: int := cells[j].off, cells[j].delta;
      ghost var before := done + FlatRow(row, cells[..j]);
      CellsStep(done, row, cells, j);
      var slot: int := if off in slots then slots[off] else 0;
      assert slot == NestedAt(out, Cell(row, off));
      if !IsI64(slot + delta) {
        ok := false;
        return;
      }
      slots := slots[off := slot + delta];
      SlotAdded(rm, row, out, before, off, delta, slots);
      out := rm[row := slots];
    }
    assert cells[..|cells|] == cells;
  }

  lemma SlotAdded(rm: RowMap, row: u32, held: RowMap, before: seq<Change>, off: u16, delta: i64, slots: map<u16, i64>)
    requires HoldsSums(held, before) && row in held && held == rm[row := held[row]]
    requires off in slots && slots == held[row][off := slots[off]] && slots[off] == NestedAt(held, Cell(row, off)) + delta
    ensures forall c :: NestedAt(rm[row := slots], c) == Sum(before + [Change(Cell(row, off), delta)], c)
  {
    hide RunningOk, Sum;
    forall c ensures NestedAt(rm[row := slots], c) == Sum(before + [Change(Cell(row, off), delta)], c) {
      SumPush(before, Change(Cell(row, off), delta), c);
      assert NestedAt(held, c) == Sum(before, c);
    }
  }

  lemma CellsStep(done: seq<Change>, row: u32, cells: seq<Edit>, j: nat)
    requires j < |cells|
    ensures var e := Change(Cell(row, cells[j].off), cells[j].delta);
      var before := done + FlatRow(row, cells[..j]);
      && done + FlatRow(row, cells[..j + 1]) == before + [e]
      && (RunningOk(map[], before + [e]) <==> RunningOk(map[], before) && IsI64(Sum(before, e.cell) + e.delta))
      && (RunningOk(map[], done + FlatRow(row, cells)) ==> RunningOk(map[], before + [e]))
  {
    var e := Change(Cell(row, cells[j].off), cells[j].delta);
    var before := done + FlatRow(row, cells[..j]);
    assert cells[..j + 1] == cells[..j] + [cells[j]];
    FlatRowPush(row, cells[..j], cells[j]);
    RunningOkPush(map[], before, e);
    assert FlatRow(row, cells) == FlatRow(row, cells[..j + 1]) + FlatRow(row, cells[j + 1..]);
    assert done + FlatRow(row, cells) == (before + [e]) + FlatRow(row, cells[j + 1..]);
    RunningOkPrefix(map[], before + [e], FlatRow(row, cells[j + 1..]));
  }

  lemma {:induction false} Least(s: set<int>)
    requires s != {}
    ensures exists x :: x in s && forall y :: y in s ==> x <= y
  {
    var x := SomeElement(s);
    if s != {x} {
      var rest := s - {x};
      Least(rest);
      var l :| l in rest && forall y :: y in rest ==> l <= y;
      var least := Min(x, l);
      assert least in s;
      forall y | y in s ensures least <= y {
        if y != x { assert y in rest; }
      }
    }
  }

  /** `rows` is what the rows of `rm` outside `rest` come to, and all of it lies below `rest`. */
  ghost predicate Emitted(rm: RowMap, rest: set<int>, rows: SegmentDelta) {
    && Canonical(rows)
    && (forall r, q :: r in rows && q in rest ==> r.row < q)
    && (forall c :: Total(rows, c) == if c.row in rest then 0 else NestedAt(rm, c))
  }

  /** Drops zero cells and rows left empty; what survives is ascending. */
  method EmitSegment(rm: RowMap) returns (rows: SegmentDelta)
    ensures Canonical(rows)
    ensures forall c :: Total(rows, c) == NestedAt(rm, c)
  {
    hide Total, NestedAt, CanonicalCells;
    var rest: set<int> := rm.Keys;
    rows := [];
    EmittedNothing(rm);
    while rest != {}
      invariant rest <= rm.Keys
      invariant Emitted(rm, rest, rows)
    {
      hide Emitted;
      Least(rest);
      var row :| row in rest && forall q :: q in rest ==> row <= q;
      var cells := EmitRow(row, rm[row]);
      EmittedRow(rm, rest, rows, row, cells);
      rest := rest - {row};
      if cells != [] {
        rows := rows + [RowEdits(row, cells)];
      }
    }
  }

  lemma EmittedNothing(rm: RowMap)
    ensures Emitted(rm, rm.Keys, [])
  {
  }

  lemma EmittedRow(rm: RowMap, rest: set<int>, rows: SegmentDelta, row: u32, cells: seq<Edit>)
    requires rest <= rm.Keys && Emitted(rm, rest, rows)
    requires row in rest && forall q :: q in rest ==> row <= q
    requires CanonicalCells(cells)
    requires forall off: u16 :: Sum(FlatRow(row, cells), Cell(row, off)) == (if off in rm[row] then rm[row][off] else 0)
    ensures Emitted(rm, rest - {row}, if cells != [] then rows + [RowEdits(row, cells)] else rows)
  {
    hide Total, CanonicalCells, Sum, FlatRow;
    forall c
      ensures Total(rows + [RowEdits(row, cells)], c) == if c.row in rest - {row} then 0 else NestedAt(rm, c)
      ensures cells == [] ==> Total(rows, c) == Total(rows + [RowEdits(row, cells)], c)
    {
      PushRowTotal(rows, row, cells, c);
      if cells == [] { EmptyRowTotal(rows, row, c); }
      RowNested(rm, row, cells, c);
    }
    if cells != [] { PushRowCanonical(rows, row, cells); }
  }

  lemma RowNested(rm: RowMap, row: u32, cells: seq<Edit>, c: Cell)
    requires row in rm
    requires forall off: u16 :: Sum(FlatRow(row, cells), Cell(row, off)) == (if off in rm[row] then rm[row][off] else 0)
    ensures c.row == row ==> Sum(FlatRow(row, cells), c) == NestedAt(rm, c)
  {
    assert c == Cell(c.row, c.off);
  }

  lemma EmptyRowTotal(rows: SegmentDelta, row: u32, c: Cell)
    ensures Total(rows + [RowEdits(row, [])], c) == Total(rows, c)
  {
    FlatPush(rows, RowEdits(row, []));
    assert Flat(rows) + FlatRow(row, []) == Flat(rows);
  }

  lemma PushRowCanonical(rows: SegmentDelta, row: u32, cells: seq<Edit>)
    requires Canonical(rows) && CanonicalCells(cells) && cells != []
    requires forall r :: r in rows ==> r.row < row
    ensures Canonical(rows + [RowEdits(row, cells)])
  {
  }

  lemma PushRowTotal(rows: SegmentDelta, row: u32, cells: seq<Edit>, c: Cell)
    ensures Total(rows + [RowEdits(row, cells)], c) ==
      Total(rows, c) + if c.row == row then Sum(FlatRow(row, cells), c) else 0
  {
    FlatPush(rows, RowEdits(row, cells));
    SumConcat(Flat(rows), FlatRow(row, cells), c);
    if c.row != row {
      RowSumOutside(row, cells, c);
    }
  }

  ghost predicate EmittedCells(row: u32, slots: map<u16, i64>, rest: set<int>, cells: seq<Edit>) {
    && CanonicalCells(cells)
    && (forall e, o :: e in cells && o in rest ==> e.off < o)
    && (forall o: u16 :: Sum(FlatRow(row, cells), Cell(row, o)) == if o in slots && o !in rest then slots[o] else 0)
  }

  method EmitRow(ghost row: u32, slots: map<u16, i64>) returns (cells: seq<Edit>)
    ensures CanonicalCells(cells)
    ensures forall off: u16 :: Sum(FlatRow(row, cells), Cell(row, off)) == (if off in slots then slots[off] else 0)
  {
    hide Sum, FlatRow;
    var rest: set<int> := slots.Keys;
    cells := [];
    EmittedNoCells(row, slots);
    while rest != {}
      invariant rest <= slots.Keys
      invariant EmittedCells(row, slots, rest, cells)
    {
      hide EmittedCells;
      Least(rest);
      var off :| off in rest && forall o :: o in rest ==> off <= o;
      EmittedCell(row, slots, rest, cells, off);
      rest := rest - {off};
      if slots[off] != 0 {
        cells := cells + [Edit(off, slots[off])];
      }
    }
  }

  lemma EmittedNoCells(row: u32, slots: map<u16, i64>)
    ensures EmittedCells(row, slots, slots.Keys, [])
  {
  }

  lemma EmittedCell(row: u32, slots: map<u16, i64>, rest: set<int>, cells: seq<Edit>, off: u16)
    requires rest <= slots.Keys && EmittedCells(row, slots, rest, cells)
    requires off in rest && forall o :: o in rest ==> off <= o
    ensures EmittedCells(row, slots, rest - {off}, if slots[off] != 0 then cells + [Edit(off, slots[off])] else cells)
  {
    hide FlatRow, Sum;
    var out := if slots[off] != 0 then cells + [Edit(off, slots[off])] else cells;
    EmittedOrder(slots, rest, cells, off);
    hide CanonicalCells;
    forall o: u16
      ensures Sum(FlatRow(row, out), Cell(row, o)) == if o in slots && o !in rest - {off} then slots[o] else 0
    {
      if slots[off] != 0 { PushEditSum(row, cells, Edit(off, slots[off]), o); }
    }
  }

  lemma EmittedOrder(slots: map<u16, i64>, rest: set<int>, cells: seq<Edit>, off: u16)
    requires rest <= slots.Keys && off in rest && forall o :: o in rest ==> off <= o
    requires CanonicalCells(cells) && forall e, o :: e in cells && o in rest ==> e.off < o
    ensures var out := if slots[off] != 0 then cells + [Edit(off, slots[off])] else cells;
      CanonicalCells(out) && forall e, o :: e in out && o in rest - {off} ==> e.off < o
  {
  }

  lemma PushEditSum(row: u32, cells: seq<Edit>, e: Edit, o: u16)
    ensures Sum(FlatRow(row, cells + [e]), Cell(row, o)) == Sum(FlatRow(row, cells), Cell(row, o)) + (if o == e.off then e.delta else 0)
  {
    FlatRowPush(row, cells, e);
    SumPush(FlatRow(row, cells), Change(Cell(row, e.off), e.delta), Cell(row, o));
  }

  // ----- Path independence -----

  /** Ingests a run block by block, stopping at the first error. */
  function IngestAll(p: Pending, deltas: seq<BlockDelta>): Ingested {
    if deltas == [] then Ingested(p, None)
    else
      var n := |deltas| - 1;
      var r := IngestAll(p, deltas[..n]);
      if r.error.Some? then r else IngestInto(r.pending, deltas[n])
  }

  lemma {:induction false} IngestAllMeaning(p: Pending, deltas: seq<BlockDelta>)
    requires IngestAll(p, deltas).error.None?
    ensures var q := IngestAll(p, deltas).pending;
      && Uniform(deltas, |p.perSegment|)
      && |q.perSegment| == |p.perSegment|
      && q.head == (if deltas == [] then p.head else deltas[|deltas| - 1].block)
      && (CanonicalPending(p) ==> CanonicalPending(q))
      && forall j, c :: 0 <= j < |p.perSegment| ==>
           At(q.perSegment[j], c) == At(p.perSegment[j], c) + Sum(AllEdits(deltas, j), c)
  {
    hide IngestInto, Sum, CanonicalPending;
    if deltas == [] {
      NoEditsYet(p);
    } else {
      var n := |deltas| - 1;
      IngestAllMeaning(p, deltas[..n]);
      IngestMeaning(IngestAll(p, deltas[..n]).pending, deltas[n]);
      forall j, c | 0 <= j < |p.perSegment|
        ensures At(IngestAll(p, deltas).pending.perSegment[j], c) == At(p.perSegment[j], c) + Sum(AllEdits(deltas, j), c)
      {
        SumConcat(AllEdits(deltas[..n], j), Flat(deltas[n].perSegment[j]), c);
      }
    }
  }

  lemma NoEditsYet(p: Pending)
    ensures forall j, c :: 0 <= j < |p.perSegment| ==> Sum(AllEdits([], j), c) == 0
  {
  }

  /** One span or many blocks: the accumulator ends up the same, map for map. */
  lemma PathIndependence(p: Pending, deltas: seq<BlockDelta>, span: BlockDelta)
    requires CanonicalPending(p) && IsCoalesced(deltas, span)
    requires IngestAll(p, deltas).error.None? && IngestInto(p, span).error.None?
    ensures IngestAll(p, deltas) == IngestInto(p, span)
    ensures CanonicalPending(IngestInto(p, span).pending)
  {
    IngestAllMeaning(p, deltas);
    IngestMeaning(p, span);
    var a, b := IngestAll(p, deltas).pending, IngestInto(p, span).pending;
    forall j | 0 <= j < |p.perSegment| ensures a.perSegment[j] == b.perSegment[j] {
      assert a.perSegment[j] in a.perSegment && b.perSegment[j] in b.perSegment;
      SameAt(a.perSegment[j], b.perSegment[j]);
    }
  }

  // ----- Databases and the telescoping bound -----

  type Segment = seq<seq<u32>>
  type Database = seq<Segment>

  /** The cell a delta addresses, zero outside the segment. */
  function CellOf(s: Segment, c: Cell): int {
    if c.row < |s| && c.off < |s[c.row]| then s[c.row][c.off] else 0
  }

  ghost predicate InRange(db: Database, plaintextBits: nat) {
    forall j, c :: 0 <= j < |db| ==> 0 <= CellOf(db[j], c) < Pow2(plaintextBits)
  }

  /** `d` is the server's delta from `a` to `b`: canonical, and the exact difference of the cells. */
  ghost predicate Bridges(d: BlockDelta, a: Database, b: Database) {
    && |a| == |b| == |d.perSegment|
    && forall j :: 0 <= j < |a| ==>
         && Canonical(d.perSegment[j])
         && forall c :: Total(d.perSegment[j], c) == CellOf(b[j], c) - CellOf(a[j], c)
  }

  /** The accumulator holds exactly the difference between the pinned and the current database. */
  ghost predicate Tracks(p: Pending, pinned: Database, current: Database) {
    && |p.perSegment| == |pinned| == |current|
    && CanonicalPending(p)
    && forall j, c :: 0 <= j < |pinned| ==> At(p.perSegment[j], c) == CellOf(current[j], c) - CellOf(pinned[j], c)
  }

  lemma CanonicalOnce(rows: SegmentDelta)
    requires Canonical(rows)
    ensures Once(Flat(rows))
    decreases |rows|
  {
    if rows != [] {
      var n := |rows| - 1;
      assert rows[n] in rows;
      CanonicalOnce(rows[..n]);
      forall e | e in Flat(rows[..n]) ensures e.cell.row < rows[n].row {
        FlatRows(rows[..n], e);
      }
    }
  }

  ghost predicate Once(es: seq<Change>) {
    forall i, j :: 0 <= i < j < |es| ==> es[i].cell != es[j].cell
  }

  /** When no cell is touched twice, only the final sums can overflow. */
  lemma OnceRunning(m: CellMap, es: seq<Change>)
    requires Once(es)
    requires forall c :: IsI64(At(m, c) + Sum(es, c))
    ensures RunningOk(m, es)
  {
    forall k | 0 <= k < |es| ensures RunningOkAt(m, es, k) {
      var c := es[k].cell;
      assert es == es[..k + 1] + es[k + 1..] && es[..k + 1] == es[..k] + [es[k]];
      SumConcat(es[..k + 1], es[k + 1..], c);
      SumPush(es[..k], es[k], c);
      SumOutside(es[..k], c);
      SumOutside(es[k + 1..], c);
      assert IsI64(At(m, c) + Sum(es, c));
    }
  }

  /** An honest next block never overflows the accumulator and keeps it tracking. */
  lemma HonestIngest(p: Pending, pinned: Database, a: Database, b: Database, d: BlockDelta, plaintextBits: nat)
    requires plaintextBits <= 31
    requires InRange(pinned, plaintextBits) && InRange(b, plaintextBits)
    requires Tracks(p, pinned, a) && Bridges(d, a, b) && d.block > p.head
    ensures var r := IngestInto(p, d); r.error.None? && r.pending.head == d.block && Tracks(r.pending, pinned, b)
  {
    hide IngestInto, Pow2;
    Pow2Monotone(plaintextBits, 31);
    Pow2Values();
    forall j | 0 <= j < |a| ensures RunningOk(p.perSegment[j], Flat(d.perSegment[j])) {
      CanonicalOnce(d.perSegment[j]);
      forall c ensures IsI64(At(p.perSegment[j], c) + Sum(Flat(d.perSegment[j]), c)) {
        assert Total(d.perSegment[j], c) == CellOf(b[j], c) - CellOf(a[j], c);
        assert At(p.perSegment[j], c) == CellOf(a[j], c) - CellOf(pinned[j], c);
      }
      OnceRunning(p.perSegment[j], Flat(d.perSegment[j]));
    }
    IngestMeaning(p, d);
  }

  ghost predicate HonestRun(dbs: seq<Database>, deltas: seq<BlockDelta>, plaintextBits: nat) {
    && deltas != [] && |dbs| == |deltas| + 1
    && (forall i :: 0 <= i < |dbs| ==> InRange(dbs[i], plaintextBits))
    && (forall i :: 0 <= i < |deltas| ==> Bridges(deltas[i], dbs[i], dbs[i + 1]))
    && (forall i :: 0 <= i < |deltas| ==> deltas[i].block == deltas[0].block + i)
  }

  /** One more honest block on top of edits that already sum to the difference from `first` to `a`. */
  lemma TelescopeStep(before: seq<Change>, rows: SegmentDelta, first: Segment, a: Segment, b: Segment, bound: nat)
    requires bound <= 0x8000_0000 && Canonical(rows) && RunningOk(map[], before)
    requires forall c :: 0 <= CellOf(first, c) < bound && 0 <= CellOf(b, c) < bound
    requires forall c :: Sum(before, c) == CellOf(a, c) - CellOf(first, c)
    requires forall c :: Total(rows, c) == CellOf(b, c) - CellOf(a, c)
    ensures RunningOk(map[], before + Flat(rows))
    ensures forall c :: Sum(before + Flat(rows), c) == CellOf(b, c) - CellOf(first, c)
  {
    FoldMeaning(map[], before);
    var held := FoldEdits(map[], before).cells;
    forall c ensures At(held, c) + Sum(Flat(rows), c) == CellOf(b, c) - CellOf(first, c) {
      assert Total(rows, c) == CellOf(b, c) - CellOf(a, c);
      assert At(held, c) == At(map[], c) + Sum(before, c);
    }
    CanonicalOnce(rows);
    OnceRunning(held, Flat(rows));
    FoldMeaning(held, Flat(rows));
    FoldConcat(map[], before, Flat(rows));
    FoldMeaning(map[], before + Flat(rows));
    forall c ensures Sum(before + Flat(rows), c) == CellOf(b, c) - CellOf(first, c) {
      SumConcat(before, Flat(rows), c);
    }
  }

  lemma {:induction false} Telescope(dbs: seq<Database>, deltas: seq<BlockDelta>, plaintextBits: nat, j: nat)
    requires plaintextBits <= 31
    requires HonestRun(dbs, deltas, plaintextBits) && j < |dbs[0]|
    ensures Uniform(deltas, |dbs[0]|) && |dbs[|dbs| - 1]| == |dbs[0]|
    ensures RunningOk(map[], AllEdits(deltas, j))
    ensures forall c :: Sum(AllEdits(deltas, j), c) == CellOf(dbs[|dbs| - 1][j], c) - CellOf(dbs[0][j], c)
    decreases |deltas|
  {
    var n := |deltas| - 1;
    ArityConstant(dbs, deltas, plaintextBits, |deltas|);
    if n > 0 {
      Telescope(dbs[..n + 1], deltas[..n], plaintextBits, j);
    } else {
      assert AllEdits(deltas[..n], j) == [];
    }
    hide Pow2, RunningOk, Sum, Canonical;
    assert Pow2(plaintextBits) <= 0x8000_0000 by {
      Pow2Monotone(plaintextBits, 31);
      Pow2Values();
    }
    assert InRange(dbs[0], plaintextBits) && InRange(dbs[n + 1], plaintextBits) && Bridges(deltas[n], dbs[n], dbs[n + 1]);
    TelescopeStep(AllEdits(deltas[..n], j), deltas[n].perSegment[j], dbs[0][j], dbs[n][j], dbs[n + 1][j], Pow2(plaintextBits));
  }

  /** However many honest blocks are coalesced, the result exists, bridges the run and stays below 2^plaintextBits. */
  lemma TelescopingBound(dbs: seq<Database>, deltas: seq<BlockDelta>, plaintextBits: nat)
    requires plaintextBits <= 31
    requires HonestRun(dbs, deltas, plaintextBits)
    ensures RunFault(deltas, 0).None? && Uniform(deltas, |dbs[0]|) && RunFits(deltas, |dbs[0]|)
    ensures forall out :: IsCoalesced(deltas, out) ==>
      && Bridges(out, dbs[0], dbs[|dbs| - 1])
      && forall j, c :: 0 <= j < |out.perSegment| ==> Abs(Total(out.perSegment[j], c)) < Pow2(plaintextBits)
  {
    assert Bridges(deltas[0], dbs[0], dbs[1]);
    ArityConstant(dbs, deltas, plaintextBits, |deltas|);
    RunFaultNoneIff(deltas, 0);
    forall j | 0 <= j < |dbs[0]| ensures RunningOk(map[], AllEdits(deltas, j)) {
      Telescope(dbs, deltas, plaintextBits, j);
    }
    forall out | IsCoalesced(deltas, out)
      ensures Bridges(out, dbs[0], dbs[|dbs| - 1])
      ensures forall j, c :: 0 <= j < |out.perSegment| ==> Abs(Total(out.perSegment[j], c)) < Pow2(plaintextBits)
    {
      assert deltas[0] in deltas;
      forall j, c | 0 <= j < |out.perSegment|
        ensures Total(out.perSegment[j], c) == CellOf(dbs[|dbs| - 1][j], c) - CellOf(dbs[0][j], c)
        ensures Abs(Total(out.perSegment[j], c)) < Pow2(plaintextBits)
      {
        Telescope(dbs, deltas, plaintextBits, j);
        assert InRange(dbs[0], plaintextBits) && InRange(dbs[|dbs| - 1], plaintextBits);
      }
    }
  }

  lemma {:induction false} ArityConstant(dbs: seq<Database>, deltas: seq<BlockDelta>, plaintextBits: nat, n: nat)
    requires HonestRun(dbs, deltas, plaintextBits) && n <= |deltas|
    ensures forall i :: 0 <= i <= n ==> |dbs[i]| == |dbs[0]|
    ensures forall i :: 0 <= i < n ==> |deltas[i].perSegment| == |dbs[0]|
  {
    if n > 0 {
      ArityConstant(dbs, deltas, plaintextBits, n - 1);
      assert Bridges(deltas[n - 1], dbs[n - 1], dbs[n]);
    }
  }
}
