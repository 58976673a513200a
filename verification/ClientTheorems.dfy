/**
 What the rewind client is for: a lookup finished against a hint of any age equals a direct look
 into the server's current table, and folding deltas into the hint never changes a lookup.
 */
module ClientTheorems {
  import opened Words
  import opened Wrappers
  import opened Deltas
  import opened Coalesce
  import opened Rewind
  import opened Value
  import opened Scan
  import opened Client

  // ----- The reference: looking straight into a table -----

  /** The candidate slots of a key in a database, segment by segment. */
  ghost function TableSlots<Hint>(up: Upstream<Hint>, g: Shape, db: Database, rows: seq<u32>, n: nat): seq<Slot>
    requires GoodDatabase(g, db) && n <= g.arity == |rows| && forall r :: r in rows ==> r < g.segmentSize
  {
    if n == 0 then []
    else
      RowWidth(g, db, rows, n - 1);
      TableSlots(up, g, db, rows, n - 1) + SlotsOf(up, g, db[n - 1][rows[n - 1]], g.bucketSize)
  }

  lemma RowWidth(g: Shape, db: Database, rows: seq<u32>, j: nat)
    requires GoodDatabase(g, db) && j < g.arity == |rows| && forall r :: r in rows ==> r < g.segmentSize
    ensures rows[j] < |db[j]| && |db[j][rows[j]]| == g.Width()
  {
    assert rows[j] in rows;
    assert GoodSegment(g, db[j]);
    assert db[j][rows[j]] in db[j];
  }

  lemma {:induction false} TableSlotsSized<Hint(!new)>(up: Upstream<Hint>, g: Shape, c: ValueCodec, db: Database, rows: seq<u32>, n: nat)
    requires WellFormed(up, g, c) && GoodDatabase(g, db)
    requires n <= g.arity == |rows| && forall r :: r in rows ==> r < g.segmentSize
    ensures Sized(c, TableSlots(up, g, db, rows, n))
  {
    if n > 0 {
      TableSlotsSized(up, g, c, db, rows, n - 1);
      RowWidth(g, db, rows, n - 1);
      SlotsSized(up, g, c, db[n - 1][rows[n - 1]], g.bucketSize);
    }
  }

  /** The answer a reader of the plain table would give. */
  ghost function DirectLookup<Hint(!new)>(up: Upstream<Hint>, g: Shape, c: ValueCodec, db: Database, key: Address): Lookup
    requires WellFormed(up, g, c) && GoodDatabase(g, db)
  {
    TableSlotsSized(up, g, c, db, RowsFor(up, g, key), g.arity);
    Verdict(c, key, up.candidates(key).fp, TableSlots(up, g, db, RowsFor(up, g, key), g.arity))
  }

  // ----- The client's invariant -----

  /** Hint pinned at `db0`, and pending delta exactly the way from `db0` to `db`. */
  ghost predicate Mirrors<Hint>(up: Upstream<Hint>, g: Shape, s: Snap<Hint>, db0: Database, db: Database) {
    && GoodDatabase(g, db0) && GoodDatabase(g, db) && |s.states| == g.arity
    && Tracks(s.pending, db0, db)
    && forall j :: 0 <= j < g.arity ==> up.pins(s.states[j].hint, db0[j])
  }

  /** The client's newest query is the one made with `secrets`, for `key`. */
  ghost predicate Asking<Hint(!new)>(up: Upstream<Hint>, g: Shape, c: ValueCodec, s: Snap<Hint>, key: Address, secrets: seq<Secret>)
    requires WellFormed(up, g, c)
  {
    && |s.states| == |secrets| == g.arity
    && forall j :: 0 <= j < g.arity ==>
         s.states[j].inFlight == Some(secrets[j]) && secrets[j].row == RowsFor(up, g, key)[j]
  }

  /** The server's answer to a bundle of queries. */
  function AnswerAll(g: Shape, db: Database, queries: seq<seq<u32>>): (resp: seq<seq<u32>>)
    requires g.Valid() && |db| == |queries|
    ensures |resp| == |queries|
  {
    seq(|db|, j requires 0 <= j < |db| => SegmentAnswer(g, db[j], queries[j]))
  }

  lemma DifferenceInBounds(g: Shape, d0: Segment, d1: Segment, m: CellMap)
    requires GoodSegment(g, d0) && GoodSegment(g, d1) && NoZeros(m)
    requires forall c :: At(m, c) == CellOf(d1, c) - CellOf(d0, c)
    ensures InBounds(m, g.segmentSize, g.Width())
  {
    forall c | c in m ensures c.row < g.segmentSize && c.off < g.Width() {
      assert At(m, c) == CellOf(d1, c) - CellOf(d0, c);
      if c.row < |d0| { assert d0[c.row] in d0 && d1[c.row] in d1; }
    }
  }

  /** Rewind, decode, add: one segment's row as of the server's head, from a hint pinned earlier. */
  lemma SegmentHonest<Hint(!new)>(up: Upstream<Hint>, g: Shape, c: ValueCodec, hint: Hint, secret: Secret,
                                  d0: Segment, d1: Segment, m: CellMap)
    requires WellFormed(up, g, c) && Sound(up, g) && up.pins(hint, d0)
    requires GoodSegment(g, d0) && GoodSegment(g, d1) && NoZeros(m) && secret.row < g.segmentSize
    requires forall c :: At(m, c) == CellOf(d1, c) - CellOf(d0, c)
    ensures Addressable(m, |up.query(secret)|, |SegmentAnswer(g, d1, up.query(secret))|, g.Width(), g.K())
    ensures SegmentCells(up, g, ClientState(hint, Some(secret)), m, up.query(secret), secret.row,
                         SegmentAnswer(g, d1, up.query(secret))) == Ok(d1[secret.row])
  {
    hide Correction, Dot, Addressable, Answer, FirstBad, Corrected, WideWidth;
    DifferenceInBounds(g, d0, d1, m);
    InBoundsAddressable(m, g.segmentSize, g.Width(), g.K());
    AnswerLength(g, d1, up.query(secret));
    AddressableRows(m, |up.query(secret)|, g.Columns(), g.Width(), g.K());
    var resp := SegmentAnswer(g, d1, up.query(secret));
    var a := RewindOf(resp, m, g.Width(), g.K(), up.query(secret));
    RewindIdentity(d0, d1, m, a, g.segmentSize, g.Width(), g.K(), up.query(secret));
    assert up.decode(ClientState(hint, Some(secret)), a) == d0[secret.row];
    RowCatchesUp(g, d0, d1, m, secret.row);
  }

  lemma AnswerLength(g: Shape, d: Segment, q: seq<u32>)
    requires g.Valid()
    ensures |SegmentAnswer(g, d, q)| == g.Columns()
  {
  }

  lemma AddressableRows(m: CellMap, queryRows: nat, columns: nat, width: nat, k: nat)
    requires k > 0 && Addressable(m, queryRows, columns, width, k)
    ensures forall e :: e in m ==> e.row / k < queryRows
  {
  }

  /** Adding the delta to a pinned row gives the current row, and no cell is out of range. */
  lemma RowCatchesUp(g: Shape, d0: Segment, d1: Segment, m: CellMap, row: u32)
    requires g.Valid() && GoodSegment(g, d0) && GoodSegment(g, d1) && row < g.segmentSize
    requires InBounds(m, g.segmentSize, g.Width())
    requires forall c :: At(m, c) == CellOf(d1, c) - CellOf(d0, c)
    ensures FirstBad(d0[row], m, row, Bound(g), 0).None?
    ensures Corrected(d0[row], m, row, Bound(g)) == d1[row]
  {
    hide FirstBad;
    assert d0[row] in d0 && d1[row] in d1;
    forall o: u16 ensures !BadAt(d0[row], m, row, Bound(g), o) {
      assert At(m, Cell(row, o)) == CellOf(d1, Cell(row, o)) - CellOf(d0, Cell(row, o));
      assert 0 <= CellOf(d1, Cell(row, o)) < Pow2(g.plaintextBits);
    }
    var out := Corrected(d0[row], m, row, Bound(g));
    forall i | 0 <= i < |out| ensures out[i] == d1[row][i] {
      assert out[i] == d0[row][i] + AtOffset(m, row, i);
      assert At(m, Cell(row, i)) == CellOf(d1, Cell(row, i)) - CellOf(d0, Cell(row, i));
    }
  }

  lemma HonestCells<Hint(!new)>(up: Upstream<Hint>, g: Shape, c: ValueCodec, s: Snap<Hint>, key: Address,
                                secrets: seq<Secret>, db0: Database, db: Database, j: nat)
    requires WellFormed(up, g, c) && Sound(up, g) && Mirrors(up, g, s, db0, db) && Asking(up, g, c, s, key, secrets) && j < g.arity
    ensures var q := up.query(secrets[j]);
      && Addressable(s.pending.perSegment[j], |q|, |SegmentAnswer(g, db[j], q)|, g.Width(), g.K())
      && secrets[j].row < |db[j]|
      && SegmentCells(up, g, s.states[j], s.pending.perSegment[j], q, secrets[j].row, SegmentAnswer(g, db[j], q)) == Ok(db[j][secrets[j].row])
  {
    hide SegmentCells, Addressable, SegmentAnswer;
    assert s.pending.perSegment[j] in s.pending.perSegment;
    assert RowsFor(up, g, key)[j] in RowsFor(up, g, key);
    assert s.states[j] == ClientState(s.states[j].hint, Some(secrets[j]));
    SegmentHonest(up, g, c, s.states[j].hint, secrets[j], db0[j], db[j], s.pending.perSegment[j]);
  }

  lemma HonestReady<Hint(!new)>(up: Upstream<Hint>, g: Shape, c: ValueCodec, s: Snap<Hint>, key: Address,
                                secrets: seq<Secret>, db0: Database, db: Database)
    requires WellFormed(up, g, c) && Sound(up, g) && Mirrors(up, g, s, db0, db) && Asking(up, g, c, s, key, secrets)
    ensures var ctx := CtxFor(up, secrets);
      Ready(g, s, ctx, AnswerAll(g, db, ctx.queries)) && LinedUp(g, s, ctx, AnswerAll(g, db, ctx.queries))
  {
    hide SegmentCells, Addressable, SegmentAnswer;
    forall j | 0 <= j < g.arity
      ensures Addressable(s.pending.perSegment[j], |up.query(secrets[j])|, |SegmentAnswer(g, db[j], up.query(secrets[j]))|, g.Width(), g.K())
    {
      HonestCells(up, g, c, s, key, secrets, db0, db, j);
    }
  }

  lemma {:induction false} HonestFrom<Hint(!new)>(up: Upstream<Hint>, g: Shape, c: ValueCodec, s: Snap<Hint>, key: Address,
                                                  secrets: seq<Secret>, db0: Database, db: Database, j: nat)
    requires WellFormed(up, g, c) && Sound(up, g) && Mirrors(up, g, s, db0, db) && Asking(up, g, c, s, key, secrets)
    requires j <= g.arity
    ensures var ctx := CtxFor(up, secrets);
      var resp := AnswerAll(g, db, ctx.queries);
      && Ready(g, s, ctx, resp)
      && Sized(c, TableSlots(up, g, db, RowsFor(up, g, key), j))
      && FinishFrom(up, g, c, s, key, ctx, resp, j, TableSlots(up, g, db, RowsFor(up, g, key), j)) == Done(Ok(DirectLookup(up, g, c, db, key)))
    decreases g.arity - j
  {
    hide SegmentAnswer, CellsAt, FinishFrom, SlotsOf, Ready, LinedUp, Verdict, AnswerAll, Tracks, GoodSegment, Sound, RowsFor;
    var rows := RowsFor(up, g, key);
    var ctx := CtxFor(up, secrets);
    var resp := AnswerAll(g, db, ctx.queries);
    HonestReady(up, g, c, s, key, secrets, db0, db);
    TableSlotsSized(up, g, c, db, rows, j);
    if j == g.arity {
      FinishEnd(up, g, c, s, key, ctx, resp, TableSlots(up, g, db, rows, j));
    } else {
      HonestFrom(up, g, c, s, key, secrets, db0, db, j + 1);
      HonestCellsAt(up, g, c, s, key, secrets, db0, db, j);
      FinishStep(up, g, c, s, key, ctx, resp, j, TableSlots(up, g, db, rows, j));
    }
  }

  lemma HonestCellsAt<Hint(!new)>(up: Upstream<Hint>, g: Shape, c: ValueCodec, s: Snap<Hint>, key: Address,
                                  secrets: seq<Secret>, db0: Database, db: Database, j: nat)
    requires WellFormed(up, g, c) && Sound(up, g) && Mirrors(up, g, s, db0, db) && Asking(up, g, c, s, key, secrets) && j < g.arity
    ensures var ctx := CtxFor(up, secrets);
      var resp := AnswerAll(g, db, ctx.queries);
      var rows := RowsFor(up, g, key);
      && Ready(g, s, ctx, resp) && rows[j] < |db[j]| && |db[j][rows[j]]| == g.Width()
      && CellsAt(up, g, s, ctx, resp, j) == Some(Ok(db[j][rows[j]]))
  {
    hide SegmentCells, SegmentAnswer, Ready, Sound, Addressable;
    HonestReady(up, g, c, s, key, secrets, db0, db);
    HonestCells(up, g, c, s, key, secrets, db0, db, j);
    RowWidth(g, db, RowsFor(up, g, key), j);
  }

  /**
   The theorem of the crate. Whatever the pinned block, however far the server has moved since, a
   lookup answered at the pending head finishes without error and equals a direct look into the
   database of that head: keys created or moved after the pin are found.
   */
  lemma FinishEqualsDirectLookup<Hint(!new)>(up: Upstream<Hint>, g: Shape, c: ValueCodec, s: Snap<Hint>, key: Address,
                                             secrets: seq<Secret>, db0: Database, db: Database)
    requires WellFormed(up, g, c) && Sound(up, g) && Mirrors(up, g, s, db0, db) && Asking(up, g, c, s, key, secrets)
    ensures var ctx := CtxFor(up, secrets);
      var resp := AnswerAll(g, db, ctx.queries);
      && Ready(g, s, ctx, resp)
      && FinishSpec(up, g, c, s, key, ctx, resp, s.pending.head) == Done(Ok(DirectLookup(up, g, c, db, key)))
  {
    hide FinishFrom, Ready, DirectLookup, AnswerAll;
    var ctx := CtxFor(up, secrets);
    HonestFrom(up, g, c, s, key, secrets, db0, db, 0);
    AnswerCount(g, db, ctx.queries);
    assert ctx.rows == RowsFor(up, g, key);
  }

  lemma AnswerCount(g: Shape, db: Database, queries: seq<seq<u32>>)
    requires g.Valid() && |db| == |queries|
    ensures |AnswerAll(g, db, queries)| == |db|
  {
  }

  // ----- Garbage collection -----

  lemma SameSegment(g: Shape, d0: Segment, d1: Segment)
    requires g.Valid() && GoodSegment(g, d0) && GoodSegment(g, d1) && forall c :: CellOf(d0, c) == CellOf(d1, c)
    ensures d0 == d1
  {
    forall i | 0 <= i < |d0| ensures d0[i] == d1[i] {
      assert d0[i] in d0 && d1[i] in d1;
      forall o | 0 <= o < |d0[i]| ensures d0[i][o] == d1[i][o] {
        assert CellOf(d0, Cell(i, o)) == CellOf(d1, Cell(i, o));
      }
    }
  }

  lemma PatchMovesPin<Hint(!new)>(up: Upstream<Hint>, g: Shape, before: ClientState<Hint>, after: ClientState<Hint>,
                                  m: CellMap, d0: Segment, d1: Segment)
    requires g.Valid() && Sound(up, g) && GoodSegment(g, d0) && GoodSegment(g, d1) && up.pins(before.hint, d0)
    requires forall c :: At(m, c) == CellOf(d1, c) - CellOf(d0, c)
    requires PatchedBy(up, before, after, m)
    ensures up.pins(after.hint, d1) && after.inFlight == before.inFlight
  {
    hide Canonical;
    var rows :| IsRows(m, rows) && after == (if rows == [] then before else before.(hint := up.patch(before.hint, rows)));
    if rows == [] {
      forall c ensures CellOf(d0, c) == CellOf(d1, c) {
        assert Total(rows, c) == At(m, c);
      }
      SameSegment(g, d0, d1);
    } else {
      assert Moves(rows, d0, d1);
    }
  }

  /** Collecting moves the pin to the head and leaves nothing pending; the mirrored database is the same. */
  lemma CollectKeepsMirror<Hint(!new)>(up: Upstream<Hint>, g: Shape, s: Snap<Hint>, s': Snap<Hint>, db0: Database, db: Database)
    requires g.Valid() && Sound(up, g) && Mirrors(up, g, s, db0, db) && Collected(up, s, s')
    ensures Mirrors(up, g, s', db, db) && s'.pending.head == s.pending.head == s'.pinnedBlock
    ensures forall j :: 0 <= j < g.arity ==> s'.states[j].inFlight == s.states[j].inFlight
  {
    hide Sound, GoodSegment, PatchedBy;
    forall j | 0 <= j < g.arity ensures up.pins(s'.states[j].hint, db[j]) && s'.states[j].inFlight == s.states[j].inFlight {
      PatchMovesPin(up, g, s.states[j], s'.states[j], s.pending.perSegment[j], db0[j], db[j]);
    }
  }

  /** Collecting between a query and its answer changes nothing about the outcome, nor does not collecting. */
  lemma CollectIsInvisible<Hint(!new)>(up: Upstream<Hint>, g: Shape, c: ValueCodec, s: Snap<Hint>, s': Snap<Hint>, key: Address,
                                       secrets: seq<Secret>, db0: Database, db: Database)
    requires WellFormed(up, g, c) && Sound(up, g) && Mirrors(up, g, s, db0, db) && Asking(up, g, c, s, key, secrets)
    requires Collected(up, s, s')
    ensures var ctx := CtxFor(up, secrets);
      var resp := AnswerAll(g, db, ctx.queries);
      && Ready(g, s, ctx, resp) && Ready(g, s', ctx, resp)
      && FinishSpec(up, g, c, s', key, ctx, resp, s.pending.head) == FinishSpec(up, g, c, s, key, ctx, resp, s.pending.head)
  {
    hide Ready, FinishSpec, AnswerAll, Tracks, GoodDatabase, Collected, Sound;
    CollectKeepsMirror(up, g, s, s', db0, db);
    StillAsking(up, g, c, s, s', key, secrets);
    FinishEqualsDirectLookup(up, g, c, s, key, secrets, db0, db);
    FinishEqualsDirectLookup(up, g, c, s', key, secrets, db, db);
  }

  lemma StillAsking<Hint(!new)>(up: Upstream<Hint>, g: Shape, c: ValueCodec, s: Snap<Hint>, s': Snap<Hint>, key: Address, secrets: seq<Secret>)
    requires WellFormed(up, g, c) && Asking(up, g, c, s, key, secrets) && |s'.states| == |s.states|
    requires forall j :: 0 <= j < |s.states| ==> s'.states[j].inFlight == s.states[j].inFlight
    ensures Asking(up, g, c, s', key, secrets)
  {
  }

  // ----- Ingesting -----

  lemma GoodInRange(g: Shape, db: Database)
    requires GoodDatabase(g, db)
    ensures InRange(db, g.plaintextBits)
  {
    forall j, c | 0 <= j < |db| ensures 0 <= CellOf(db[j], c) < Pow2(g.plaintextBits) {
      assert GoodSegment(g, db[j]);
    }
  }

  /** An honest delta, of one block or of a coalesced span, moves the mirrored head and nothing else. */
  lemma IngestKeepsMirror<Hint>(up: Upstream<Hint>, g: Shape, s: Snap<Hint>, d: BlockDelta, db0: Database, db: Database, db': Database)
    requires g.Valid() && Mirrors(up, g, s, db0, db) && GoodDatabase(g, db') && Bridges(d, db, db') && d.block > s.pending.head
    ensures var r := IngestInto(s.pending, d);
      r.error.None? && r.pending.head == d.block && Mirrors(up, g, s.(pending := r.pending), db0, db')
  {
    hide GoodSegment, InRange;
    GoodInRange(g, db0);
    GoodInRange(g, db');
    HonestIngest(s.pending, db0, db, db', d, g.plaintextBits);
  }

  /**
   `ingest` only checks that a delta's block lies ahead of the head. Fed the span that starts at another
   block's database `from`, it still accepts, and it keeps mirroring if and only if `from` and the
   database it mirrors agree cell for cell.
   */
  lemma SpanFromElsewhere(p: Pending, d: BlockDelta, db0: Database, at: Database, from: Database, to: Database)
    requires Tracks(p, db0, at) && Bridges(d, from, to) && |from| == |at| && d.block > p.head
    requires IngestInto(p, d).error.None?
    ensures Tracks(IngestInto(p, d).pending, db0, to) <==>
      forall j, c :: 0 <= j < |at| ==> CellOf(from[j], c) == CellOf(at[j], c)
  {
    IngestMeaning(p, d);
    var q := IngestInto(p, d).pending;
    forall j, c | 0 <= j < |at|
      ensures At(q.perSegment[j], c) == CellOf(to[j], c) - CellOf(db0[j], c) <==> CellOf(from[j], c) == CellOf(at[j], c)
    {
      assert At(p.perSegment[j], c) == CellOf(at[j], c) - CellOf(db0[j], c);
      assert Total(d.perSegment[j], c) == CellOf(to[j], c) - CellOf(from[j], c);
      assert At(q.perSegment[j], c) == At(p.perSegment[j], c) + Total(d.perSegment[j], c);
    }
  }

  ghost predicate SameCells(a: Database, b: Database) {
    |a| == |b| && forall j, c :: 0 <= j < |a| ==> CellOf(a[j], c) == CellOf(b[j], c)
  }

  lemma SameDatabase(g: Shape, a: Database, b: Database)
    requires g.Valid() && GoodDatabase(g, a) && GoodDatabase(g, b)
    ensures SameCells(a, b) <==> a == b
  {
    hide GoodSegment;
    if SameCells(a, b) {
      forall j | 0 <= j < |a| ensures a[j] == b[j] {
        SameSegment(g, a[j], b[j]);
      }
    }
  }

  /** An honest span ahead of the head is never refused, wherever it starts. */
  lemma SpanAccepted(p: Pending, d: BlockDelta, db0: Database, at: Database, from: Database, to: Database, plaintextBits: nat)
    requires plaintextBits <= 31 && InRange(db0, plaintextBits) && InRange(at, plaintextBits)
    requires InRange(from, plaintextBits) && InRange(to, plaintextBits)
    requires Tracks(p, db0, at) && Bridges(d, from, to) && |from| == |at| && d.block > p.head
    ensures IngestInto(p, d).error.None?
  {
    Pow2Monotone(plaintextBits, 31);
    Pow2Values();
    forall j | 0 <= j < |at| ensures RunningOk(p.perSegment[j], Flat(d.perSegment[j])) {
      CanonicalOnce(d.perSegment[j]);
      forall c ensures IsI64(At(p.perSegment[j], c) + Sum(Flat(d.perSegment[j]), c)) {
        assert Total(d.perSegment[j], c) == CellOf(to[j], c) - CellOf(from[j], c);
        assert At(p.perSegment[j], c) == CellOf(at[j], c) - CellOf(db0[j], c);
      }
      OnceRunning(p.perSegment[j], Flat(d.perSegment[j]));
    }
    IngestMeaning(p, d);
  }

  function OneCell(x: u32): Database {
    [[[x]]]
  }

  function OneCellDelta(block: u64, delta: i64): BlockDelta {
    BlockDelta(block, [[RowEdits(0, [Edit(0, delta)])]])
  }

  lemma OneCellBridges(block: u64, x: u32, y: u32)
    requires x != y
    ensures Bridges(OneCellDelta(block, y - x), OneCell(x), OneCell(y))
  {
    OneEdit([RowEdits(0, [Edit(0, y - x)])], 0, 0, y - x);
  }

  /**
   Two syncs that overlap: both start from block 90, one ends at 100 and the other at 101. Each is honest, both
   are accepted in turn, and after the second the accumulator is not the difference to block 101.
   */
  lemma OverlappingSpans()
    ensures var first, second := OneCellDelta(100, 5), OneCellDelta(101, 7);
      var p := Pending([map[]], 90);
      var q := IngestInto(p, first);
      var r := IngestInto(q.pending, second);
      && Bridges(first, OneCell(0), OneCell(5)) && Bridges(second, OneCell(0), OneCell(7))
      && q.error.None? && Tracks(q.pending, OneCell(0), OneCell(5))
      && r.error.None? && r.pending.head == 101 && !Tracks(r.pending, OneCell(0), OneCell(7))
  {
    hide IngestInto, Bridges;
    var first, second := OneCellDelta(100, 5), OneCellDelta(101, 7);
    OneCellBridges(100, 0, 5);
    OneCellBridges(101, 0, 7);
    var p := Pending([map[]], 90);
    OneCellInRange(0);
    OneCellInRange(5);
    OneCellInRange(7);
    HonestIngest(p, OneCell(0), OneCell(0), OneCell(5), first, 31);
    var q := IngestInto(p, first).pending;
    SpanAccepted(q, second, OneCell(0), OneCell(5), OneCell(0), OneCell(7), 31);
    assert CellOf(OneCell(0)[0], Cell(0, 0)) != CellOf(OneCell(5)[0], Cell(0, 0));
    SpanFromElsewhere(q, second, OneCell(0), OneCell(5), OneCell(0), OneCell(7));
    IngestMeaning(q, second);
  }

  lemma OneCellInRange(x: u32)
    requires x < 100
    ensures InRange(OneCell(x), 31)
  {
    hide Pow2;
    assert Pow2(31) == 0x8000_0000 by { Pow2Values(); }
  }
}
