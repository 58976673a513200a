/**
 The response rewind `resp -= qT * dD` mod 2^32, for the two index maps: Frodo keeps the segment's
 rows as they are, SimplePIR reshapes it so that `k` rows share one wide row.
 */
module Rewind {
  import opened Words
  import opened Deltas
  import opened Coalesce

  /** A segment read as a function of row and offset; deltas have negative entries, databases do not. */
  type Cells = (nat, nat) -> int

  /** The entry of the answered matrix at wide row `r`, wide column `c`. */
  function Reshaped(f: Cells, rows: nat, width: nat, k: nat, r: nat, c: nat): int
    requires width > 0
  {
    if r * k + c / width < rows then f(r * k + c / width, c % width) else 0
  }

  /** Column `c` of `qT * M` over the first `n` wide rows, before reduction. */
  function Dot(f: Cells, rows: nat, width: nat, k: nat, q: seq<u32>, c: nat, n: nat): int
    requires width > 0 && n <= |q|
  {
    if n == 0 then 0
    else Dot(f, rows, width, k, q, c, n - 1) + q[n - 1] * Reshaped(f, rows, width, k, n - 1, c)
  }

  ghost predicate Shaped(s: Segment, rows: nat, width: nat) {
    |s| == rows && forall r :: r in s ==> |r| == width
  }

  function DbCells(s: Segment): Cells {
    (r: nat, c: nat) => if r < |s| && c < |s[r]| then s[r][c] else 0
  }

  function DeltaCells(m: CellMap): Cells {
    (r: nat, c: nat) => if r < TWO_32 && c < TWO_16 then At(m, Cell(r, c)) else 0
  }

  /** What a server holding `f` answers to `q`: one `u32` per wide column. */
  function Answer(f: Cells, rows: nat, width: nat, k: nat, q: seq<u32>): (a: seq<u32>)
    requires width > 0
    ensures |a| == k * width
  {
    seq(k * width, c requires 0 <= c < k * width => Dot(f, rows, width, k, q, c, |q|) % TWO_32)
  }

  // ----- Index arithmetic of the reshape -----

  lemma WideIndex(row: nat, off: nat, width: nat, k: nat)
    requires k > 0 && off < width
    ensures (row % k) * width + off < k * width
    ensures ((row % k) * width + off) / width == row % k && ((row % k) * width + off) % width == off
    ensures (row / k) * k + row % k == row
  {
    DivModOf(row % k, off, width);
    var m := row % k;
    assert m + 1 <= k;
    MulMonotone(m + 1, k, width);
    assert (m + 1) * width == m * width + width;
  }

  lemma DivModOf(q: nat, r: nat, width: nat)
    requires r < width
    ensures (q * width + r) / width == q && (q * width + r) % width == r
  {
    ModUnique(q * width + r, q, width, r);
  }

  /** The reshape is a bijection between in-range cells and the wide entries that are not padding. */
  lemma ReshapeInverse(r: nat, c: nat, width: nat, k: nat)
    requires k > 0 && width > 0 && c < k * width
    ensures c / width < k
    ensures (r * k + c / width) / k == r && (r * k + c / width) % k == c / width
    ensures (c / width) * width + c % width == c
  {
    if c / width >= k {
      MulMonotone(k, c / width, width);
    }
    DivModOf(r, c / width, k);
  }

  /** Where the reshape puts a cell: rows go `k` to a wide row, side by side; past the last row there is padding. */
  lemma ReshapedEntry(f: Cells, rows: nat, width: nat, k: nat, row: nat, off: nat)
    requires k > 0 && off < width
    ensures Reshaped(f, rows, width, k, row / k, (row % k) * width + off) == if row < rows then f(row, off) else 0
  {
    WideIndex(row, off, width, k);
  }

  /** Two in-range cells never share a wide entry. */
  lemma ReshapeInjective(row: nat, off: nat, row': nat, off': nat, width: nat, k: nat)
    requires k > 0 && off < width && off' < width
    requires row / k == row' / k && (row % k) * width + off == (row' % k) * width + off'
    ensures row == row' && off == off'
  {
    WideIndex(row, off, width, k);
    WideIndex(row', off', width, k);
  }

  lemma WideRowInRange(row: nat, rows: nat, k: nat)
    requires k > 0 && row < rows
    ensures row / k < DivCeil(rows, k)
  {
    var n := rows + k - 1;
    assert n == (n / k) * k + n % k;
    assert row == (row / k) * k + row % k;
    if row / k >= n / k {
      MulMonotone(n / k, row / k, k);
    }
  }

  // ----- Linearity -----

  lemma {:induction false} DotAdd(f: Cells, g: Cells, h: Cells, rows: nat, width: nat, k: nat, q: seq<u32>, c: nat, n: nat)
    requires width > 0 && n <= |q|
    requires forall i: nat, j: nat :: i < rows && j < width ==> h(i, j) == f(i, j) + g(i, j)
    ensures Dot(h, rows, width, k, q, c, n) == Dot(f, rows, width, k, q, c, n) + Dot(g, rows, width, k, q, c, n)
  {
    hide Reshaped;
    if n > 0 {
      DotAdd(f, g, h, rows, width, k, q, c, n - 1);
      ReshapedAdd(f, g, h, rows, width, k, n - 1, c);
      Distribute(q[n - 1], Reshaped(f, rows, width, k, n - 1, c), Reshaped(g, rows, width, k, n - 1, c));
    }
  }

  lemma ReshapedAdd(f: Cells, g: Cells, h: Cells, rows: nat, width: nat, k: nat, r: nat, c: nat)
    requires width > 0
    requires forall i: nat, j: nat :: i < rows && j < width ==> h(i, j) == f(i, j) + g(i, j)
    ensures Reshaped(h, rows, width, k, r, c) == Reshaped(f, rows, width, k, r, c) + Reshaped(g, rows, width, k, r, c)
  {
  }

  lemma Distribute(a: int, x: int, y: int)
    ensures a * (x + y) == a * x + a * y
  {
  }

  lemma {:induction false} DotZero(f: Cells, rows: nat, width: nat, k: nat, q: seq<u32>, c: nat, n: nat)
    requires width > 0 && n <= |q|
    requires forall i: nat, j: nat :: i < rows && j < width ==> f(i, j) == 0
    ensures Dot(f, rows, width, k, q, c, n) == 0
  {
    if n > 0 {
      ReshapedZero(f, rows, width, k, n - 1, c);
      hide Reshaped;
      DotZero(f, rows, width, k, q, c, n - 1);
      assert q[n - 1] * 0 == 0;
    }
  }

  /** A query that is one at wide row `r` and zero elsewhere is answered with that row. */
  lemma {:induction false} UnitQuery(f: Cells, rows: nat, width: nat, k: nat, q: seq<u32>, c: nat, r: nat, n: nat)
    requires width > 0 && n <= |q| && r < |q|
    requires forall i :: 0 <= i < |q| ==> q[i] == if i == r then 1 else 0
    ensures Dot(f, rows, width, k, q, c, n) == if r < n then Reshaped(f, rows, width, k, r, c) else 0
  {
    hide Reshaped;
    if n > 0 {
      UnitQuery(f, rows, width, k, q, c, r, n - 1);
      Unit(q[n - 1], Reshaped(f, rows, width, k, n - 1, c));
    }
  }

  lemma Unit(u: nat, x: int)
    requires u <= 1
    ensures u * x == if u == 1 then x else 0
  {
  }

  lemma ReshapedZero(f: Cells, rows: nat, width: nat, k: nat, r: nat, c: nat)
    requires width > 0
    requires forall i: nat, j: nat :: i < rows && j < width ==> f(i, j) == 0
    ensures Reshaped(f, rows, width, k, r, c) == 0
  {
  }

  /** A single cell shows up at exactly one wide entry. */
  lemma SingleReshaped(cell: Cell, d: int, rows: nat, width: nat, k: nat, r: nat, c: nat)
    requires k > 0 && cell.row < rows && cell.off < width && c < k * width
    ensures Reshaped(SingleCell(cell, d), rows, width, k, r, c) ==
      if r == cell.row / k && c == WideColumn(cell, width, k) then d else 0
  {
    ReshapeInverse(r, c, width, k);
    WideIndex(cell.row, cell.off, width, k);
    var i, j := r * k + c / width, c % width;
    if r == cell.row / k && c == WideColumn(cell, width, k) {
      assert c / width == cell.row % k;
      assert i == cell.row && j == cell.off;
    }
    if i == cell.row && j == cell.off {
      assert r == cell.row / k && c / width == cell.row % k;
    }
  }

  /** One delta entry contributes `q[row / k] * d`, to its own wide column only. */
  lemma {:induction false} DotSingle(cell: Cell, d: int, rows: nat, width: nat, k: nat, q: seq<u32>, c: nat, n: nat)
    requires k > 0 && cell.row < rows && cell.off < width && c < k * width && n <= |q|
    ensures Dot(SingleCell(cell, d), rows, width, k, q, c, n) ==
      if c == WideColumn(cell, width, k) && cell.row / k < n then q[cell.row / k] * d else 0
  {
    if n > 0 {
      DotSingle(cell, d, rows, width, k, q, c, n - 1);
      SingleReshaped(cell, d, rows, width, k, n - 1, c);
      assert q[n - 1] * 0 == 0;
    }
  }

  function WideWidth(k: nat, width: nat): nat {
    k * width
  }

  function WideColumn(cell: Cell, width: nat, k: nat): nat
    requires k > 0
  {
    (cell.row % k) * width + cell.off
  }

  function SingleCell(cell: Cell, d: int): Cells {
    (r: nat, c: nat) => if r == cell.row && c == cell.off then d else 0
  }

  // ----- The rewind -----

  /** The delta addresses only cells of a `rows` by `width` segment. */
  ghost predicate InBounds(m: CellMap, rows: nat, width: nat) {
    forall c :: c in m ==> c.row < rows && c.off < width
  }

  /** Every entry finds its query row and its response column: what the loop needs not to panic. */
  predicate Addressable(m: CellMap, queryRows: nat, columns: nat, width: nat, k: nat)
    requires k > 0
  {
    forall c :: c in m ==> c.row / k < queryRows && WideColumn(c, width, k) < columns
  }

  ghost function Pick(m: CellMap): (c: Cell)
    requires m != map[]
    ensures c in m
  {
    var c :| c in m; c
  }

  /** What the whole delta adds to response column `c`, before reduction. */
  ghost function Correction(m: CellMap, width: nat, k: nat, q: seq<u32>, c: nat): int
    requires k > 0 && forall cell :: cell in m ==> cell.row / k < |q|
    decreases |m|
  {
    if m == map[] then 0
    else
      var cell := Pick(m);
      Correction(m - {cell}, width, k, q, c) + Share(cell, m[cell], width, k, q, c)
  }

  /** One entry's part of column `c`. */
  function Share(cell: Cell, d: int, width: nat, k: nat, q: seq<u32>, c: nat): int
    requires k > 0 && cell.row / k < |q|
  {
    if WideColumn(cell, width, k) == c then q[cell.row / k] * d else 0
  }

  /** The order in which entries are folded does not matter. */
  lemma {:induction false} CorrectionWithout(m: CellMap, cell: Cell, width: nat, k: nat, q: seq<u32>, c: nat)
    requires k > 0 && cell in m && forall e :: e in m ==> e.row / k < |q|
    ensures Correction(m, width, k, q, c) ==
      Correction(m - {cell}, width, k, q, c) + Share(cell, m[cell], width, k, q, c)
    decreases |m|
  {
    hide Share;
    var first := Pick(m);
    if first != cell {
      CorrectionWithout(m - {first}, cell, width, k, q, c);
      CorrectionWithout(m - {cell}, first, width, k, q, c);
      assert m - {first} - {cell} == m - {cell} - {first};
    }
  }

  /** A single entry corrects its own wide column, by its query value times its delta, and no other. */
  lemma CorrectionOfOne(cell: Cell, d: i64, width: nat, k: nat, q: seq<u32>, c: nat)
    requires k > 0 && cell.row / k < |q|
    ensures Correction(map[cell := d], width, k, q, c) ==
      if c == (cell.row % k) * width + cell.off then q[cell.row / k] * d else 0
  {
    CorrectionWithout(map[cell := d], cell, width, k, q, c);
    assert map[cell := d] - {cell} == map[];
  }

  lemma CorrectionPush(done: CellMap, cell: Cell, d: i64, width: nat, k: nat, q: seq<u32>, c: nat)
    requires k > 0 && cell !in done && cell.row / k < |q| && forall e :: e in done ==> e.row / k < |q|
    ensures Correction(done[cell := d], width, k, q, c) == Correction(done, width, k, q, c) + Share(cell, d, width, k, q, c)
  {
    assert done[cell := d] - {cell} == done;
    CorrectionWithout(done[cell := d], cell, width, k, q, c);
  }

  lemma {:induction false} CorrectionIsDot(m: CellMap, rows: nat, width: nat, k: nat, q: seq<u32>, c: nat)
    requires k > 0 && rows <= TWO_32 && 0 < width <= TWO_16 && |q| == DivCeil(rows, k) && c < WideWidth(k, width)
    requires InBounds(m, rows, width)
    ensures forall cell :: cell in m ==> cell.row / k < |q|
    ensures Correction(m, width, k, q, c) == Dot(DeltaCells(m), rows, width, k, q, c, |q|)
    decreases |m|
  {
    hide Dot, DivCeil, DeltaCells, Share;
    QueriedRows(m, rows, width, k);
    if m == map[] {
      NoCells();
      DotZero(DeltaCells(m), rows, width, k, q, c, |q|);
    } else {
      var cell := Pick(m);
      CorrectionIsDot(m - {cell}, rows, width, k, q, c);
      DotWithout(m, cell, rows, width, k, q, c);
    }
  }

  lemma QueriedRows(m: CellMap, rows: nat, width: nat, k: nat)
    requires k > 0 && InBounds(m, rows, width)
    ensures forall cell :: cell in m ==> cell.row / k < DivCeil(rows, k)
  {
    hide DivCeil;
    forall cell | cell in m ensures cell.row / k < DivCeil(rows, k) {
      WideRowInRange(cell.row, rows, k);
    }
  }

  lemma NoCells()
    ensures forall i: nat, j: nat :: DeltaCells(map[])(i, j) == 0
  {
  }

  /** Each entry adds its share to the product. */
  lemma DotWithout(m: CellMap, cell: Cell, rows: nat, width: nat, k: nat, q: seq<u32>, c: nat)
    requires k > 0 && rows <= TWO_32 && 0 < width <= TWO_16 && |q| == DivCeil(rows, k) && c < WideWidth(k, width)
    requires InBounds(m, rows, width) && cell in m && cell.row / k < |q|
    ensures Dot(DeltaCells(m), rows, width, k, q, c, |q|) ==
      Dot(DeltaCells(m - {cell}), rows, width, k, q, c, |q|) + Share(cell, m[cell], width, k, q, c)
  {
    hide Dot, DivCeil;
    DotAdd(DeltaCells(m - {cell}), SingleCell(cell, m[cell]), DeltaCells(m), rows, width, k, q, c, |q|);
    DotSingle(cell, m[cell], rows, width, k, q, c, |q|);
  }

  /** `a` is `start` minus the correction for `done`, in every column, mod 2^32. */
  ghost predicate Rewound(start: seq<u32>, a: seq<u32>, done: CellMap, width: nat, k: nat, q: seq<u32>)
    requires k > 0 && forall cell :: cell in done ==> cell.row / k < |q|
  {
    |a| == |start| && forall c :: 0 <= c < |a| ==> a[c] == (start[c] - Correction(done, width, k, q, c)) % TWO_32
  }

  function Term(q: u32, d: i64): u32 {
    (q * (d % TWO_32)) % TWO_32
  }

  /** Subtracting one more term keeps `Rewound`. */
  lemma RewoundStep(start: seq<u32>, a: seq<u32>, done: CellMap, cell: Cell, d: i64,
                    width: nat, k: nat, q: seq<u32>, r: nat, wide: nat)
    requires k > 0 && r == cell.row / k < |q| && wide == WideColumn(cell, width, k) < |a| && cell !in done
    requires forall e :: e in done ==> e.row / k < |q|
    requires Rewound(start, a, done, width, k, q)
    ensures Rewound(start, a[wide := (a[wide] - Term(q[r], d)) % TWO_32], done[cell := d], width, k, q)
  {
    hide Correction, Term;
    var out := a[wide := (a[wide] - Term(q[r], d)) % TWO_32];
    forall c | 0 <= c < |out|
      ensures out[c] == (start[c] - Correction(done[cell := d], width, k, q, c)) % TWO_32
    {
      CorrectionPush(done, cell, d, width, k, q, c);
      if c == wide {
        WrappingSub(start[c], Correction(done, width, k, q, c), q[r], d);
      }
    }
  }

  /** Reducing each factor and each difference mod 2^32 loses nothing, negative deltas included. */
  lemma WrappingSub(start: int, dot: int, b: u32, d: i64)
    ensures ((start - dot) % TWO_32 - Term(b, d)) % TWO_32 == (start - (dot + b * d)) % TWO_32
  {
    var w := d / TWO_32;
    assert d == w * TWO_32 + d % TWO_32;
    assert b * d == (b * w) * TWO_32 + b * (d % TWO_32) by {
      assert b * (w * TWO_32) == (b * w) * TWO_32;
    }
    ModAbsorb(start - dot, b * (d % TWO_32), b * w);
  }

  lemma ModAbsorb(x: int, y: int, w: int)
    ensures (x % TWO_32 - y % TWO_32) % TWO_32 == (x - (w * TWO_32 + y)) % TWO_32
  {
  }

  lemma ModSub(x: int, y: int)
    ensures (x % TWO_32 - y) % TWO_32 == (x - y) % TWO_32
  {
  }

  /** SimplePIR's in-place loop; the entries may be walked in any order. */
  method RewindSimple(k: u32, width: u32, q: seq<u32>, a: array<u32>, deltas: CellMap)
    requires k > 0 && a.Length < TWO_32 && Addressable(deltas, |q|, a.Length, width, k)
    modifies a
    ensures Rewound(old(a[..]), a[..], deltas, width, k, q)
  {
    hide Correction, WideColumn;
    var rest := deltas.Keys;
    ghost var done: CellMap := map[];
    RewoundNothing(a[..], width, k, q);
    while rest != {}
      invariant rest <= deltas.Keys
      invariant done == map c | c in deltas && c !in rest :: deltas[c]
      invariant Rewound(old(a[..]), a[..], done, width, k, q)
    {
      var cell :| cell in rest;
      rest := rest - {cell};
      RewindCell(k, width, q, a, cell, deltas[cell], old(a[..]), done);
      done := done[cell := deltas[cell]];
    }
    assert done == deltas;
  }

  lemma RewoundNothing(start: seq<u32>, width: nat, k: nat, q: seq<u32>)
    requires k > 0
    ensures Rewound(start, start, map[], width, k, q)
  {
  }

  method RewindCell(k: u32, width: u32, q: seq<u32>, a: array<u32>, cell: Cell, d: i64,
                    ghost start: seq<u32>, ghost done: CellMap)
    requires k > 0 && cell.row / k < |q| && WideColumn(cell, width, k) < a.Length < TWO_32 && cell !in done
    requires forall e :: e in done ==> e.row / k < |q|
    requires Rewound(start, a[..], done, width, k, q)
    modifies a
    ensures Rewound(start, a[..], done[cell := d], width, k, q)
  {
    hide Correction, WideColumn, Rewound, Term;
    var bigR: int := cell.row / k;
    var bigC: int := WideColumn(cell, width, k);
    RewoundStep(start, a[..], done, cell, d, width, k, q, bigR, bigC);
    ghost var before := a[..];
    a[bigC] := (a[bigC] - Term(q[bigR], d)) % TWO_32;
    assert a[..] == before[bigC := (before[bigC] - Term(q[bigR], d)) % TWO_32];
  }

  /** Frodo's in-place loop: no reshape, so the row indexes the query and the offset the response. */
  method RewindFrodo(width: u32, q: seq<u32>, a: array<u32>, deltas: CellMap)
    requires forall c :: c in deltas ==> c.row < |q| && c.off < a.Length
    modifies a
    ensures Rewound(old(a[..]), a[..], deltas, width, 1, q)
  {
    hide Correction, Rewound;
    var rest := deltas.Keys;
    ghost var done: CellMap := map[];
    RewoundNothing(a[..], width, 1, q);
    while rest != {}
      invariant rest <= deltas.Keys
      invariant done == map c | c in deltas && c !in rest :: deltas[c]
      invariant Rewound(old(a[..]), a[..], done, width, 1, q)
    {
      var cell :| cell in rest;
      rest := rest - {cell};
      RewindFlatCell(width, q, a, cell, deltas[cell], old(a[..]), done);
      done := done[cell := deltas[cell]];
    }
    assert done == deltas;
  }

  method RewindFlatCell(width: u32, q: seq<u32>, a: array<u32>, cell: Cell, d: i64, ghost start: seq<u32>, ghost done: CellMap)
    requires cell.row < |q| && cell.off < a.Length && cell !in done
    requires forall e :: e in done ==> e.row < |q|
    requires Rewound(start, a[..], done, width, 1, q)
    modifies a
    ensures Rewound(start, a[..], done[cell := d], width, 1, q)
  {
    hide Correction, WideColumn, Rewound, Term;
    FlatColumn(cell, width);
    RewoundStep(start, a[..], done, cell, d, width, 1, q, cell.row, cell.off);
    ghost var before := a[..];
    a[cell.off] := (a[cell.off] - Term(q[cell.row], d)) % TWO_32;
    assert a[..] == before[cell.off := (before[cell.off] - Term(q[cell.row], d)) % TWO_32];
  }

  lemma FlatColumn(cell: Cell, width: nat)
    ensures WideColumn(cell, width, 1) == cell.off && cell.row / 1 == cell.row
  {
  }

  /** A delta inside the segment is always addressable. */
  lemma InBoundsAddressable(m: CellMap, rows: nat, width: nat, k: nat)
    requires k > 0 && InBounds(m, rows, width)
    ensures Addressable(m, DivCeil(rows, k), WideWidth(k, width), width, k)
  {
    hide DivCeil, WideColumn, WideWidth;
    forall c | c in m ensures c.row / k < DivCeil(rows, k) && WideColumn(c, width, k) < WideWidth(k, width) {
      WideRowInRange(c.row, rows, k);
      ColumnInRange(c, width, k);
    }
  }

  lemma ColumnInRange(cell: Cell, width: nat, k: nat)
    requires k > 0 && cell.off < width
    ensures WideColumn(cell, width, k) < WideWidth(k, width)
  {
    WideIndex(cell.row, cell.off, width, k);
  }

  /** The rewind identity: an answer over D0 + delta becomes, bit for bit, the answer over D0. */
  lemma RewindIdentity(d0: Segment, d1: Segment, m: CellMap, a: seq<u32>, rows: nat, width: nat, k: nat, q: seq<u32>)
    requires k > 0 && 0 < width <= TWO_16 && rows <= TWO_32 && |q| == DivCeil(rows, k)
    requires InBounds(m, rows, width) && forall e :: e in m ==> e.row / k < |q|
    requires forall c :: At(m, c) == CellOf(d1, c) - CellOf(d0, c)
    requires Rewound(Answer(DbCells(d1), rows, width, k, q), a, m, width, k, q)
    ensures a == Answer(DbCells(d0), rows, width, k, q)
  {
    hide Correction, Dot, DivCeil;
    DeltaIsDifference(d0, d1, m, rows, width);
    forall c | 0 <= c < |a| ensures a[c] == Dot(DbCells(d0), rows, width, k, q, c, |q|) % TWO_32 {
      CorrectionIsDot(m, rows, width, k, q, c);
      DotAdd(DbCells(d0), DeltaCells(m), DbCells(d1), rows, width, k, q, c, |q|);
      ModSub(Dot(DbCells(d1), rows, width, k, q, c, |q|), Dot(DeltaCells(m), rows, width, k, q, c, |q|));
    }
  }

  lemma DeltaIsDifference(d0: Segment, d1: Segment, m: CellMap, rows: nat, width: nat)
    requires width <= TWO_16 && rows <= TWO_32
    requires forall c :: At(m, c) == CellOf(d1, c) - CellOf(d0, c)
    ensures forall i: nat, j: nat :: i < rows && j < width ==> DbCells(d1)(i, j) == DbCells(d0)(i, j) + DeltaCells(m)(i, j)
  {
    forall i: nat, j: nat | i < rows && j < width
      ensures DbCells(d1)(i, j) == DbCells(d0)(i, j) + DeltaCells(m)(i, j)
    {
      var cell := Cell(i, j);
      assert At(m, cell) == CellOf(d1, cell) - CellOf(d0, cell);
    }
  }
}
