/**
 The response-rewind client of `risepir-client/src/client.rs`.

 The upstream crates (the LWE backend and the cuckoo layout) are a record of functions, and
 `Sound` says what they promise about the database a hint is pinned to.
 */
module Client {
  import opened Words
  import opened Wrappers
  import opened Deltas
  import opened Coalesce
  import opened Rewind
  import opened Value
  import opened Scan

  datatype Backend = Frodo | Simple(k: u32)

  /** The public geometry of a deployment. */
  datatype Shape = Shape(arity: nat, segmentSize: u32, bucketSize: nat, cellsPerSlot: nat, plaintextBits: nat, backend: Backend) {
    function Width(): nat {
      bucketSize * cellsPerSlot
    }

    /** Rows per wide row of the answered matrix; Frodo does not reshape. */
    function K(): nat {
      if backend.Frodo? then 1 else backend.k
    }

    function QueryRows(): nat
      requires K() > 0
    {
      DivCeil(segmentSize, K())
    }

    function Columns(): nat {
      WideWidth(K(), Width())
    }

    predicate Valid() {
      segmentSize > 0 && 0 < Width() <= TWO_16 && plaintextBits <= 31 && K() > 0 && Columns() < TWO_32
    }
  }

  datatype Candidates = Candidates(fp: u64, indices: seq<u32>)

  /** The secret a segment's state keeps for its one query in flight: the row asked for and the randomness. */
  datatype Secret = Secret(row: u32, seed: nat)

  datatype ClientState<Hint> = ClientState(hint: Hint, inFlight: Option<Secret>)

  datatype Upstream<!Hint> = Upstream(
    candidates: Address -> Candidates,
    unpack: seq<u32> -> Slot,
    query: Secret -> seq<u32>,
    decode: (ClientState<Hint>, seq<u32>) -> seq<u32>,
    patch: (Hint, SegmentDelta) -> Hint,
    pins: (Hint, Segment) -> bool)

  /** The lengths every upstream function respects. */
  ghost predicate WellFormed<Hint(!new)>(up: Upstream<Hint>, g: Shape, c: ValueCodec) {
    && g.Valid() && c.ValidWidths()
    && (forall a :: |up.candidates(a).indices| >= g.arity)
    && (forall s :: |up.unpack(s).value| == c.Size())
    && (forall s :: |up.query(s)| == g.QueryRows())
    && (forall st, r :: |up.decode(st, r)| == g.Width())
  }

  ghost predicate GoodSegment(g: Shape, d: Segment) {
    Shaped(d, g.segmentSize, g.Width()) && forall c :: 0 <= CellOf(d, c) < Pow2(g.plaintextBits)
  }

  ghost predicate GoodDatabase(g: Shape, db: Database) {
    |db| == g.arity && forall j :: 0 <= j < |db| ==> GoodSegment(g, db[j])
  }

  function SegmentAnswer(g: Shape, d: Segment, q: seq<u32>): seq<u32>
    requires g.Valid()
  {
    Answer(DbCells(d), g.segmentSize, g.Width(), g.K(), q)
  }

  /** `rows` takes segment `d` to `d'`. */
  ghost predicate Moves(rows: SegmentDelta, d: Segment, d': Segment) {
    Canonical(rows) && forall c :: Total(rows, c) == CellOf(d', c) - CellOf(d, c)
  }

  /** Decoding against the pinned hint recovers the pinned row, and patching moves the pin. */
  ghost predicate Sound<Hint(!new)>(up: Upstream<Hint>, g: Shape)
    requires g.Valid()
  {
    && (forall h, d, s: Secret ::
          up.pins(h, d) && GoodSegment(g, d) && s.row < g.segmentSize && s.row < |d| ==>
            up.decode(ClientState(h, Some(s)), SegmentAnswer(g, d, up.query(s))) == d[s.row])
    && (forall h, d, d', rows ::
          up.pins(h, d) && GoodSegment(g, d) && GoodSegment(g, d') && Moves(rows, d, d') ==>
            up.pins(up.patch(h, rows), d'))
  }

  datatype QueryCtx = QueryCtx(queries: seq<seq<u32>>, rows: seq<u32>)

  /** The client's state as a value. */
  datatype Snap<Hint> = Snap(states: seq<ClientState<Hint>>, pinnedBlock: u64, pending: Pending)

  function RowsFor<Hint>(up: Upstream<Hint>, g: Shape, key: Address): (rows: seq<u32>)
    requires g.Valid() && |up.candidates(key).indices| >= g.arity
    ensures |rows| == g.arity && forall r :: r in rows ==> r < g.segmentSize
  {
    seq(g.arity, j requires 0 <= j < g.arity => up.candidates(key).indices[j] % g.segmentSize)
  }

  // ----- Finishing a lookup, as a function -----

  /** The delta adds a cell the decoded row does not have, or takes one out of the plaintext range. */
  predicate BadAt(cells: seq<u32>, m: CellMap, row: u32, bound: nat, off: u16) {
    Cell(row, off) in m && (off >= |cells| || !(0 <= cells[off] + m[Cell(row, off)] < bound))
  }

  /** The lowest offending offset at or above `from`. */
  function FirstBad(cells: seq<u32>, m: CellMap, row: u32, bound: nat, from: nat): (off: Option<u16>)
    requires from <= TWO_16
    ensures off.None? <==> forall o: u16 :: from <= o ==> !BadAt(cells, m, row, bound, o)
    ensures off.Some? ==>
      && from <= off.value && BadAt(cells, m, row, bound, off.value)
      && forall o: u16 :: from <= o < off.value ==> !BadAt(cells, m, row, bound, o)
    decreases TWO_16 - from
  {
    if from == TWO_16 then None
    else if BadAt(cells, m, row, bound, from) then Some(from)
    else FirstBad(cells, m, row, bound, from + 1)
  }

  function AtOffset(m: CellMap, row: u32, i: nat): int {
    if i < TWO_16 then At(m, Cell(row, i)) else 0
  }

  /** The row with the pending delta added. */
  function Corrected(cells: seq<u32>, m: CellMap, row: u32, bound: nat): (out: seq<u32>)
    requires bound <= TWO_32 && FirstBad(cells, m, row, bound, 0).None?
    ensures |out| == |cells| && forall i :: 0 <= i < |cells| ==> out[i] == cells[i] + AtOffset(m, row, i)
  {
    seq(|cells|, i requires 0 <= i < |cells| => CorrectedCell(cells, m, row, bound, i))
  }

  function CorrectedCell(cells: seq<u32>, m: CellMap, row: u32, bound: nat, i: nat): (x: u32)
    requires bound <= TWO_32 && FirstBad(cells, m, row, bound, 0).None? && i < |cells|
    ensures x == cells[i] + AtOffset(m, row, i)
  {
    assert i < TWO_16 ==> !BadAt(cells, m, row, bound, i);
    cells[i] + AtOffset(m, row, i)
  }

  /** A response with the delta's contribution taken out of every column. */
  ghost function RewindOf(start: seq<u32>, m: CellMap, width: nat, k: nat, q: seq<u32>): (a: seq<u32>)
    requires k > 0 && forall e :: e in m ==> e.row / k < |q|
    ensures Rewound(start, a, m, width, k, q)
  {
    seq(|start|, c requires 0 <= c < |start| => RewindColumn(start[c], Correction(m, width, k, q, c)))
  }

  function RewindColumn(x: u32, correction: int): (y: u32)
    ensures y == (x - correction) % TWO_32
  {
    (x - correction) % TWO_32
  }

  lemma RewoundIsRewindOf(start: seq<u32>, a: seq<u32>, m: CellMap, width: nat, k: nat, q: seq<u32>)
    requires k > 0 && forall e :: e in m ==> e.row / k < |q|
    requires Rewound(start, a, m, width, k, q)
    ensures a == RewindOf(start, m, width, k, q)
  {
  }

  /** One segment's share: rewind, decode against the pinned hint, then add the row's delta. */
  ghost function SegmentCells<Hint>(up: Upstream<Hint>, g: Shape, st: ClientState<Hint>, m: CellMap,
                                    q: seq<u32>, row: u32, resp: seq<u32>): Result<seq<u32>, u16>
    requires g.Valid() && forall e :: e in m ==> e.row / g.K() < |q|
  {
    var cells := up.decode(st, RewindOf(resp, m, g.Width(), g.K(), q));
    var bad := FirstBad(cells, m, row, Bound(g), 0);
    if bad.Some? then Err(bad.value) else Ok(Corrected(cells, m, row, Bound(g)))
  }

  function Bound(g: Shape): (b: nat)
    requires g.plaintextBits <= 31
    ensures b == Pow2(g.plaintextBits) && 1 <= b <= TWO_32
  {
    Pow2Values();
    Pow2Monotone(g.plaintextBits, 31);
    Pow2(g.plaintextBits)
  }

  /** The slots of one bucket row. */
  function SlotsOf<Hint>(up: Upstream<Hint>, g: Shape, cells: seq<u32>, n: nat): (slots: seq<Slot>)
    requires n <= g.bucketSize && |cells| == g.Width()
    ensures |slots| == n
  {
    if n == 0 then [] else SlotsOf(up, g, cells, n - 1) + [up.unpack(SlotCells(g, cells, n - 1))]
  }

  function SlotCells(g: Shape, cells: seq<u32>, s: nat): seq<u32>
    requires s < g.bucketSize && |cells| == g.Width()
  {
    SlotInRow(g, s);
    cells[s * g.cellsPerSlot..(s + 1) * g.cellsPerSlot]
  }

  lemma SlotInRow(g: Shape, s: nat)
    requires s < g.bucketSize
    ensures 0 <= s * g.cellsPerSlot <= (s + 1) * g.cellsPerSlot <= g.Width()
  {
    MulMonotone(s + 1, g.bucketSize, g.cellsPerSlot);
    MulMonotone(s, s + 1, g.cellsPerSlot);
  }

  /** One query, row and response per segment. */
  predicate LinedUp<Hint>(g: Shape, s: Snap<Hint>, ctx: QueryCtx, resp: seq<seq<u32>>) {
    |s.states| == |s.pending.perSegment| == |ctx.queries| == |ctx.rows| == |resp| == g.arity
  }

  /** The inputs line up, and every pending entry finds its query row and its response column. */
  ghost predicate Ready<Hint>(g: Shape, s: Snap<Hint>, ctx: QueryCtx, resp: seq<seq<u32>>)
    requires g.Valid()
  {
    && LinedUp(g, s, ctx, resp)
    && (forall j :: 0 <= j < g.arity ==> Addressable(s.pending.perSegment[j], |ctx.queries[j]|, |resp[j]|, g.Width(), g.K()))
  }

  /** Segment `j`'s corrected row; `None` where the rewind indexes out of bounds. */
  ghost function CellsAt<Hint>(up: Upstream<Hint>, g: Shape, s: Snap<Hint>, ctx: QueryCtx, resp: seq<seq<u32>>, j: nat): Option<Result<seq<u32>, u16>>
    requires g.Valid() && LinedUp(g, s, ctx, resp) && j < g.arity
  {
    var m, q := s.pending.perSegment[j], ctx.queries[j];
    if !Addressable(m, |q|, |resp[j]|, g.Width(), g.K()) then None
    else Some(SegmentCells(up, g, s.states[j], m, q, ctx.rows[j], resp[j]))
  }

  /** How `finish` ends: with a result, or with an index out of bounds, which stops the program. */
  datatype Finished = Done(result: Result<Lookup, ClientError>) | OutOfBounds

  /** Segments from `j` on, with `slots` already gathered. */
  ghost function FinishFrom<Hint(!new)>(up: Upstream<Hint>, g: Shape, c: ValueCodec, s: Snap<Hint>, key: Address,
                                  ctx: QueryCtx, resp: seq<seq<u32>>, j: nat, slots: seq<Slot>): Finished
    requires WellFormed(up, g, c) && LinedUp(g, s, ctx, resp) && j <= g.arity && Sized(c, slots)
    decreases g.arity - j
  {
    if j == g.arity then Done(Ok(Verdict(c, key, up.candidates(key).fp, slots)))
    else match CellsAt(up, g, s, ctx, resp, j)
      case None => OutOfBounds
      case Some(Err(off)) => Done(Err(CellOutOfRange(j, ctx.rows[j], off)))
      case Some(Ok(cells)) =>
        SlotsSized(up, g, c, cells, g.bucketSize);
        FinishFrom(up, g, c, s, key, ctx, resp, j + 1, slots + SlotsOf(up, g, cells, g.bucketSize))
  }

  lemma {:induction false} SlotsSized<Hint(!new)>(up: Upstream<Hint>, g: Shape, c: ValueCodec, cells: seq<u32>, n: nat)
    requires WellFormed(up, g, c) && n <= g.bucketSize && |cells| == g.Width()
    ensures Sized(c, SlotsOf(up, g, cells, n))
  {
    hide SlotCells;
    if n > 0 {
      SlotsSized(up, g, c, cells, n - 1);
    }
  }

  /** The checks made before any response is touched, in order. */
  ghost function FinishFault<Hint(!new)>(up: Upstream<Hint>, g: Shape, c: ValueCodec, s: Snap<Hint>, key: Address, ctx: QueryCtx,
                              resp: seq<seq<u32>>, atBlock: u64): Option<ClientError>
    requires WellFormed(up, g, c)
  {
    if |resp| != g.arity || |ctx.queries| != g.arity || |ctx.rows| != g.arity then Some(MalformedResponse(g.arity, |resp|))
    else if atBlock != s.pending.head then Some(ResponseBlockMismatch(s.pending.head, atBlock))
    else if ctx.rows != RowsFor(up, g, key) then Some(KeyContextMismatch)
    else None
  }

  /** The whole outcome of `finish`. */
  ghost function FinishSpec<Hint(!new)>(up: Upstream<Hint>, g: Shape, c: ValueCodec, s: Snap<Hint>, key: Address,
                                  ctx: QueryCtx, resp: seq<seq<u32>>, atBlock: u64): Finished
    requires WellFormed(up, g, c) && |s.states| == |s.pending.perSegment| == g.arity
  {
    match FinishFault(up, g, c, s, key, ctx, resp, atBlock)
    case Some(e) => Done(Err(e))
    case None => FinishFrom(up, g, c, s, key, ctx, resp, 0, [])
  }

  // ----- The client -----

  /** `rows` is `m` written out for the hint patch. */
  ghost predicate IsRows(m: CellMap, rows: SegmentDelta) {
    Canonical(rows) && forall c :: Total(rows, c) == At(m, c)
  }

  /** The hint after folding `m` into it; nothing is patched when nothing is pending. */
  ghost predicate PatchedBy<Hint>(up: Upstream<Hint>, before: ClientState<Hint>, after: ClientState<Hint>, m: CellMap) {
    exists rows :: IsRows(m, rows) &&
      after == (if rows == [] then before else before.(hint := up.patch(before.hint, rows)))
  }

  /** What an accepted `collect_garbage` does to a client with something pending. */
  ghost predicate Collected<Hint>(up: Upstream<Hint>, s: Snap<Hint>, s': Snap<Hint>) {
    && |s.states| == |s.pending.perSegment| == |s'.states|
    && s'.pinnedBlock == s.pending.head
    && s'.pending == Pending(seq(|s.states|, _ => map[]), s.pending.head)
    && forall j :: 0 <= j < |s.states| ==> PatchedBy(up, s.states[j], s'.states[j], s.pending.perSegment[j])
  }

  /** What `build_query` leaves behind: every segment's state holds the secret of its newest query. */
  function Queried<Hint>(s: Snap<Hint>, secrets: seq<Secret>): Snap<Hint>
    requires |secrets| == |s.states|
  {
    s.(states := seq(|s.states|, j requires 0 <= j < |s.states| => s.states[j].(inFlight := Some(secrets[j]))))
  }

  function SecretsFor(rows: seq<u32>, seeds: seq<nat>): (ss: seq<Secret>)
    requires |seeds| == |rows|
    ensures |ss| == |rows|
  {
    seq(|rows|, j requires 0 <= j < |rows| => Secret(rows[j], seeds[j]))
  }

  function CtxFor<Hint>(up: Upstream<Hint>, secrets: seq<Secret>): QueryCtx {
    QueryCtx(seq(|secrets|, j requires 0 <= j < |secrets| => up.query(secrets[j])),
             seq(|secrets|, j requires 0 <= j < |secrets| => secrets[j].row))
  }

  class RisePirClient<Hint(!new)> {
    const up: Upstream<Hint>
    const g: Shape
    const codec: ValueCodec
    var states: seq<ClientState<Hint>>
    var pinnedBlock: u64
    var delta: PendingDelta

    function Snapshot(): Snap<Hint>
      reads this, delta
    {
      Snap(states, pinnedBlock, delta.Snapshot())
    }

    ghost predicate Valid()
      reads this, delta
    {
      WellFormed(up, g, codec) && |states| == |delta.perSegment| == g.arity && CanonicalPending(delta.Snapshot())
    }

    constructor FromSetup(up: Upstream<Hint>, g: Shape, codec: ValueCodec, hints: seq<Hint>, block: u64)
      requires WellFormed(up, g, codec) && |hints| == g.arity
      ensures Valid() && fresh(delta) && this.up == up && this.g == g && this.codec == codec
      ensures Snapshot() == Snap(seq(|hints|, j requires 0 <= j < |hints| => ClientState(hints[j], None)), block,
                                 Pending(seq(g.arity, _ => map[]), block))
    {
      this.up, this.g, this.codec := up, g, codec;
      states := seq(|hints|, j requires 0 <= j < |hints| => ClientState(hints[j], None));
      pinnedBlock := block;
      delta := new PendingDelta(g.arity, block);
    }

    method IngestDelta(d: BlockDelta) returns (error: Option<ClientError>)
      requires Valid()
      modifies delta
      ensures Valid() && states == old(states) && pinnedBlock == old(pinnedBlock)
      ensures Ingested(Snapshot().pending, error) == IngestInto(old(Snapshot().pending), d)
    {
      IngestMeaning(delta.Snapshot(), d);
      IngestArity(delta.Snapshot(), d);
      error := delta.Ingest(d);
    }

    method CollectGarbage(upto: u64) returns (error: Option<ClientError>)
      requires Valid()
      modifies this, delta
      ensures Valid() && (delta == old(delta) || fresh(delta))
      ensures upto != old(delta.head) ==>
        error == Some(GcTargetMismatch(old(delta.head), upto)) && Snapshot() == old(Snapshot())
      ensures upto == old(delta.head) ==> error == None
      ensures upto == old(delta.head) == old(pinnedBlock) ==> Snapshot() == old(Snapshot())
      ensures upto == old(delta.head) != old(pinnedBlock) ==> Collected(up, old(Snapshot()), Snapshot())
    {
      if upto != delta.head {
        return Some(GcTargetMismatch(delta.head, upto));
      }
      if upto == pinnedBlock {
        return None;
      }
      ghost var before := Snapshot();
      for j := 0 to |states|
        invariant |states| == |before.states| == g.arity && delta == old(delta) && delta.Snapshot() == before.pending
        invariant forall i :: j <= i < |states| ==> states[i] == before.states[i]
        invariant forall i :: 0 <= i < j ==> PatchedBy(up, before.states[i], states[i], before.pending.perSegment[i])
      {
        assert before.pending.perSegment[j] in before.pending.perSegment;
        var rows := delta.AsRowDeltas(j);
        assert IsRows(before.pending.perSegment[j], rows);
        if rows != [] {
          states := states[j := states[j].(hint := up.patch(states[j].hint, rows))];
        }
      }
      pinnedBlock := upto;
      delta := new PendingDelta(|states|, upto);
      return None;
    }

    /** The seeds are the randomness the backend draws. */
    method BuildQuery(key: Address, seeds: seq<nat>) returns (toSend: seq<seq<u32>>, ctx: QueryCtx)
      requires Valid() && |seeds| == g.arity
      modifies this`states
      ensures Valid()
      ensures var secrets := SecretsFor(RowsFor(up, g, key), seeds);
        Snapshot() == Queried(old(Snapshot()), secrets) && ctx == CtxFor(up, secrets) && toSend == ctx.queries
      // Segment by segment: the row asked for is that of the key's own candidate there.
      ensures |toSend| == |ctx.rows| == |states| == |old(states)| == g.arity
      ensures forall j :: 0 <= j < g.arity ==>
        && ctx.rows[j] == up.candidates(key).indices[j] % g.segmentSize
        && toSend[j] == up.query(Secret(ctx.rows[j], seeds[j]))
        && states[j] == ClientState(old(states)[j].hint, Some(Secret(ctx.rows[j], seeds[j])))
    {
      var indices := up.candidates(key).indices;
      var queries: seq<seq<u32>>, rows: seq<u32> := [], [];
      ghost var before := states;
      ghost var secrets := SecretsFor(RowsFor(up, g, key), seeds);
      for j := 0 to g.arity
        invariant |states| == |before| == g.arity && |queries| == |rows| == j
        invariant forall i :: j <= i < g.arity ==> states[i] == before[i]
        invariant forall i :: 0 <= i < j ==> states[i] == before[i].(inFlight := Some(secrets[i]))
        invariant forall i :: 0 <= i < j ==> queries[i] == up.query(secrets[i]) && rows[i] == secrets[i].row == indices[i] % g.segmentSize
      {
        var row: u32 := indices[j] % g.segmentSize;
        var secret := Secret(row, seeds[j]);
        states := states[j := states[j].(inFlight := Some(secret))];
        queries := queries + [up.query(secret)];
        rows := rows + [row];
      }
      toSend, ctx := queries, QueryCtx(queries, rows);
    }

    /** Steps 2 to 5, segment by segment: rewind, decode, add the pending row delta, scan. */
    method Finish(key: Address, ctx: QueryCtx, resp: seq<seq<u32>>, atBlock: u64) returns (r: Finished)
      requires Valid()
      requires g.backend.Simple? ==> forall a :: a in resp ==> |a| < TWO_32
      ensures r == FinishSpec(up, g, codec, Snapshot(), key, ctx, resp, atBlock)
    {
      hide Decoded, FinishFrom, CellsAt, SegmentCells, Addressable, Verdict, Selected, AnyMatch, SlotsOf;
      if |resp| != g.arity || |ctx.queries| != g.arity || |ctx.rows| != g.arity {
        return Done(Err(MalformedResponse(g.arity, |resp|)));
      }
      if atBlock != delta.head {
        return Done(Err(ResponseBlockMismatch(delta.head, atBlock)));
      }
      var fp, indices := up.candidates(key).fp, up.candidates(key).indices;
      for j := 0 to g.arity
        invariant forall i :: 0 <= i < j ==> ctx.rows[i] == RowsFor(up, g, key)[i]
      {
        if ctx.rows[j] != indices[j] % g.segmentSize {
          return Done(Err(KeyContextMismatch));
        }
      }
      assert ctx.rows == RowsFor(up, g, key);
      TagIsWord(codec, key);
      var keyTag: u64 := codec.KeyTag(key);
      var acc: seq<u8>, found: u64 := seq(codec.Size(), _ => 0), 0;
      ghost var slots: seq<Slot> := [];
      NothingScanned(codec, fp, keyTag);
      ghost var s := Snapshot();
      for j := 0 to g.arity
        invariant Sized(codec, slots) && Scanned(codec, fp, keyTag, slots, acc, found)
        invariant FinishFrom(up, g, codec, s, key, ctx, resp, 0, []) == FinishFrom(up, g, codec, s, key, ctx, resp, j, slots)
      {
        FinishStep(up, g, codec, s, key, ctx, resp, j, slots);
        CellsAtUnfold(up, g, s, ctx, resp, j);
        if !Addressable(delta.perSegment[j], |ctx.queries[j]|, |resp[j]|, g.Width(), g.K()) {
          return OutOfBounds;
        }
        var cells := DecodeRow(j, ctx.queries[j], ctx.rows[j], resp[j]);
        if cells.Err? {
          return Done(Err(CellOutOfRange(j, ctx.rows[j], cells.error)));
        }
        SlotsSized(up, g, codec, cells.value, g.bucketSize);
        acc, found := ScanRow(fp, keyTag, cells.value, acc, found, slots);
        slots := slots + SlotsOf(up, g, cells.value, g.bucketSize);
      }
      FinishEnd(up, g, codec, s, key, ctx, resp, slots);
      VerdictOf(codec, key, fp, slots, acc, found);
      if found == 0 {
        return Done(Ok(NotFound));
      }
      var lookup := Decode(codec, key, acc);
      return Done(Ok(lookup));
    }

    method DecodeRow(j: nat, q: seq<u32>, row: u32, resp: seq<u32>) returns (r: Result<seq<u32>, u16>)
      requires Valid() && j < g.arity && Addressable(delta.perSegment[j], |q|, |resp|, g.Width(), g.K())
      requires g.backend.Simple? ==> |resp| < TWO_32
      ensures r == SegmentCells(up, g, states[j], delta.perSegment[j], q, row, resp)
      ensures r.Ok? ==> |r.value| == g.Width()
    {
      hide Rewound, Correction, FirstBad, Corrected;
      var a := new u32[|resp|](i requires 0 <= i < |resp| => resp[i]);
      assert a[..] == resp;
      var m := delta.perSegment[j];
      WidthWord(g);
      if g.backend.Frodo? {
        FrodoAddressable(m, |q|, |resp|, g.Width());
        RewindFrodo(g.Width(), q, a, m);
      } else {
        RewindSimple(g.backend.k, g.Width(), q, a, m);
      }
      RewoundIsRewindOf(resp, a[..], m, g.Width(), g.K(), q);
      var cells := up.decode(states[j], a[..]);
      r := AddRow(cells, m, row, Bound(g));
    }

    /** Scans one bucket row into the accumulator. */
    method ScanRow(fp: u64, keyTag: u64, cells: seq<u32>, acc: seq<u8>, found: u64, ghost slots: seq<Slot>)
      returns (acc': seq<u8>, found': u64)
      requires Valid() && |cells| == g.Width()
      requires Sized(codec, slots) && Scanned(codec, fp, keyTag, slots, acc, found)
      requires Sized(codec, slots + SlotsOf(up, g, cells, g.bucketSize))
      ensures Scanned(codec, fp, keyTag, slots + SlotsOf(up, g, cells, g.bucketSize), acc', found')
    {
      hide Selected, Matches, OrBytes;
      acc', found' := acc, found;
      assert slots + SlotsOf(up, g, cells, 0) == slots;
      for s := 0 to g.bucketSize
        invariant Sized(codec, slots + SlotsOf(up, g, cells, s))
        invariant Scanned(codec, fp, keyTag, slots + SlotsOf(up, g, cells, s), acc', found')
      {
        hide Scanned, Sized;
        SlotInRow(g, s);
        assert SlotCells(g, cells, s) == cells[s * g.cellsPerSlot..(s + 1) * g.cellsPerSlot];
        var slot := up.unpack(cells[s * g.cellsPerSlot..(s + 1) * g.cellsPerSlot]);
        Assoc(slots, SlotsOf(up, g, cells, s), [slot]);
        ScannedPush(codec, fp, keyTag, slots + SlotsOf(up, g, cells, s), slot, acc', found');
        acc', found' := ScanSlot(codec, fp, keyTag, acc', found', slot);
      }
    }
  }

  lemma IngestArity(p: Pending, d: BlockDelta)
    ensures |IngestInto(p, d).pending.perSegment| == |p.perSegment|
  {
  }

  lemma WidthWord(g: Shape)
    requires g.Valid()
    ensures g.Width() < TWO_32
  {
  }

  lemma TagIsWord(c: ValueCodec, key: Address)
    requires c.ValidWidths()
    ensures c.KeyTag(key) < TWO_64
  {
    TagsFit(c, key, 0);
    Pow2Monotone(c.keyTagBits, 64);
    Pow2Values();
  }

  lemma FrodoAddressable(m: CellMap, rows: nat, columns: nat, width: nat)
    requires Addressable(m, rows, columns, width, 1)
    ensures forall c :: c in m ==> c.row < rows && c.off < columns
  {
    forall c | c in m ensures c.row < rows && c.off < columns {
      FlatColumn(c, width);
    }
  }

  /** `out` is `cells` with the row's entries outside `rest` added; those are lower, and none was bad. */
  ghost predicate Added(cells: seq<u32>, m: CellMap, row: u32, bound: nat, rest: set<Cell>, out: seq<u32>) {
    && |out| == |cells|
    && (forall c :: c in rest ==> c in m && c.row == row)
    && (forall o: u16, d :: Cell(row, o) in m && Cell(row, o) !in rest && d in rest ==> o < d.off)
    && (forall o: u16 :: Cell(row, o) !in rest ==> !BadAt(cells, m, row, bound, o))
    && (forall i :: 0 <= i < |cells| ==> out[i] == AddedCell(cells, m, row, rest, i))
  }

  function AddedCell(cells: seq<u32>, m: CellMap, row: u32, rest: set<Cell>, i: nat): int
    requires i < |cells|
  {
    cells[i] + if i < TWO_16 && Cell(row, i) in rest then 0 else AtOffset(m, row, i)
  }

  /** Adds one row's pending delta to its decoded cells, lowest offset first. */
  method AddRow(cells: seq<u32>, m: CellMap, row: u32, bound: nat) returns (r: Result<seq<u32>, u16>)
    requires bound <= TWO_32
    ensures var bad := FirstBad(cells, m, row, bound, 0);
      r == if bad.Some? then Err(bad.value) else Ok(Corrected(cells, m, row, bound))
  {
    hide FirstBad;
    var out: seq<u32> := cells;
    var rest := set c | c in m && c.row == row;
    AddedNothing(cells, m, row, bound);
    while rest != {}
      invariant Added(cells, m, row, bound, rest, out)
    {
      hide Added, BadAt;
      LeastCell(rest);
      var c :| c in rest && forall d :: d in rest ==> d == c || Before(c, d);
      AddedNext(cells, m, row, bound, rest, out, c);
      if c.off >= |out| {
        return Err(c.off);
      }
      var corrected: int := out[c.off] + m[c];
      if corrected < 0 || corrected >= bound {
        return Err(c.off);
      }
      out := out[c.off := corrected];
      rest := rest - {c};
    }
    AddedAll(cells, m, row, bound, out);
    return Ok(out);
  }

  lemma AddedNothing(cells: seq<u32>, m: CellMap, row: u32, bound: nat)
    ensures Added(cells, m, row, bound, (set c | c in m && c.row == row), cells)
  {
  }

  lemma AddedNext(cells: seq<u32>, m: CellMap, row: u32, bound: nat, rest: set<Cell>, out: seq<u32>, c: Cell)
    requires Added(cells, m, row, bound, rest, out) && bound <= TWO_32
    requires c in rest && forall d :: d in rest ==> d == c || Before(c, d)
    ensures c in m && |out| == |cells| && (c.off < |out| ==> out[c.off] == cells[c.off])
    ensures c.off >= |out| || !(0 <= out[c.off] + m[c] < bound) ==> FirstBad(cells, m, row, bound, 0) == Some(c.off)
    ensures c.off < |out| && 0 <= out[c.off] + m[c] < bound ==>
      Added(cells, m, row, bound, rest - {c}, out[c.off := out[c.off] + m[c]])
  {
    assert c == Cell(row, c.off);
    assert c.off < |out| ==> out[c.off] == AddedCell(cells, m, row, rest, c.off);
    if c.off >= |out| || !(0 <= out[c.off] + m[c] < bound) {
      LeastBad(cells, m, row, bound, c.off, rest);
    } else {
      var next := out[c.off := out[c.off] + m[c]];
      forall i | 0 <= i < |cells| ensures next[i] == AddedCell(cells, m, row, rest - {c}, i) {
        assert out[i] == AddedCell(cells, m, row, rest, i);
      }
    }
  }

  lemma LeastBad(cells: seq<u32>, m: CellMap, row: u32, bound: nat, off: u16, rest: set<Cell>)
    requires BadAt(cells, m, row, bound, off)
    requires forall o: u16 :: o < off ==> Cell(row, o) !in rest
    requires forall o: u16 :: Cell(row, o) !in rest ==> !BadAt(cells, m, row, bound, o)
    ensures FirstBad(cells, m, row, bound, 0) == Some(off)
  {
    hide BadAt;
  }

  lemma AddedAll(cells: seq<u32>, m: CellMap, row: u32, bound: nat, out: seq<u32>)
    requires Added(cells, m, row, bound, {}, out) && bound <= TWO_32
    ensures FirstBad(cells, m, row, bound, 0).None? && out == Corrected(cells, m, row, bound)
  {
    hide BadAt;
    forall i | 0 <= i < |cells| ensures out[i] == cells[i] + AtOffset(m, row, i) {
      assert out[i] == AddedCell(cells, m, row, {}, i);
    }
  }

  /** The accumulators hold what the slots seen so far select. */
  ghost predicate Scanned(c: ValueCodec, fp: u64, tag: nat, slots: seq<Slot>, acc: seq<u8>, found: u64)
    requires Sized(c, slots)
  {
    acc == Selected(c, fp, tag, slots) && found == if AnyMatch(c, fp, tag, slots) then ALL_ONES else 0
  }

  lemma NothingScanned(c: ValueCodec, fp: u64, tag: nat)
    ensures Scanned(c, fp, tag, [], seq(c.Size(), _ => 0), 0)
  {
  }

  lemma ScannedPush(c: ValueCodec, fp: u64, tag: nat, slots: seq<Slot>, s: Slot, acc: seq<u8>, found: u64)
    requires Sized(c, slots) && |s.value| == c.Size() && Scanned(c, fp, tag, slots, acc, found)
    ensures Sized(c, slots + [s]) && IsMask(found) && c.keyTagBits <= 8 * |s.value|
    ensures Scanned(c, fp, tag, slots + [s], if Matches(c, fp, tag, s) then OrBytes(acc, s.value) else acc,
                    if Matches(c, fp, tag, s) then ALL_ONES else found)
  {
    SelectedPush(c, fp, tag, slots, s);
  }

  lemma VerdictOf(c: ValueCodec, key: Address, fp: u64, slots: seq<Slot>, acc: seq<u8>, found: u64)
    requires Sized(c, slots) && Scanned(c, fp, c.KeyTag(key), slots, acc, found)
    ensures Verdict(c, key, fp, slots) == if found == 0 then NotFound else Decoded(c, key, acc)
  {
  }

  lemma FinishStep<Hint(!new)>(up: Upstream<Hint>, g: Shape, c: ValueCodec, s: Snap<Hint>, key: Address,
                         ctx: QueryCtx, resp: seq<seq<u32>>, j: nat, slots: seq<Slot>)
    requires WellFormed(up, g, c) && LinedUp(g, s, ctx, resp) && j < g.arity && Sized(c, slots)
    ensures match CellsAt(up, g, s, ctx, resp, j)
      case None => FinishFrom(up, g, c, s, key, ctx, resp, j, slots) == OutOfBounds
      case Some(Err(off)) => FinishFrom(up, g, c, s, key, ctx, resp, j, slots) == Done(Err(CellOutOfRange(j, ctx.rows[j], off)))
      case Some(Ok(cells)) =>
        && |cells| == g.Width() && Sized(c, slots + SlotsOf(up, g, cells, g.bucketSize))
        && FinishFrom(up, g, c, s, key, ctx, resp, j, slots) ==
             FinishFrom(up, g, c, s, key, ctx, resp, j + 1, slots + SlotsOf(up, g, cells, g.bucketSize))
  {
    hide SlotsOf, Verdict, CellsAt;
    CellsAtWidth(up, g, c, s, ctx, resp, j);
    var cells := CellsAt(up, g, s, ctx, resp, j);
    if cells.Some? && cells.value.Ok? {
      SlotsSized(up, g, c, cells.value.value, g.bucketSize);
    }
  }

  lemma CellsAtWidth<Hint(!new)>(up: Upstream<Hint>, g: Shape, c: ValueCodec, s: Snap<Hint>, ctx: QueryCtx, resp: seq<seq<u32>>, j: nat)
    requires WellFormed(up, g, c) && LinedUp(g, s, ctx, resp) && j < g.arity
    ensures var cells := CellsAt(up, g, s, ctx, resp, j);
      cells.Some? && cells.value.Ok? ==> |cells.value.value| == g.Width()
  {
    hide FirstBad;
  }

  lemma CellsAtUnfold<Hint>(up: Upstream<Hint>, g: Shape, s: Snap<Hint>, ctx: QueryCtx, resp: seq<seq<u32>>, j: nat)
    requires g.Valid() && LinedUp(g, s, ctx, resp) && j < g.arity
    ensures var m, q := s.pending.perSegment[j], ctx.queries[j];
      if Addressable(m, |q|, |resp[j]|, g.Width(), g.K()) then
        (forall e :: e in m ==> e.row / g.K() < |q|)
        && CellsAt(up, g, s, ctx, resp, j) == Some(SegmentCells(up, g, s.states[j], m, q, ctx.rows[j], resp[j]))
      else CellsAt(up, g, s, ctx, resp, j) == None
  {
    hide SegmentCells;
  }

  lemma FinishEnd<Hint(!new)>(up: Upstream<Hint>, g: Shape, c: ValueCodec, s: Snap<Hint>, key: Address,
                        ctx: QueryCtx, resp: seq<seq<u32>>, slots: seq<Slot>)
    requires WellFormed(up, g, c) && LinedUp(g, s, ctx, resp) && Sized(c, slots)
    ensures FinishFrom(up, g, c, s, key, ctx, resp, g.arity, slots) == Done(Ok(Verdict(c, key, up.candidates(key).fp, slots)))
  {
  }

  /** An index goes out of bounds exactly where a segment's pending entry is not addressable and every earlier segment went well. */
  lemma {:induction false} OutOfBoundsIff<Hint(!new)>(up: Upstream<Hint>, g: Shape, c: ValueCodec, s: Snap<Hint>, key: Address,
                        ctx: QueryCtx, resp: seq<seq<u32>>, j: nat, slots: seq<Slot>)
    requires WellFormed(up, g, c) && LinedUp(g, s, ctx, resp) && j <= g.arity && Sized(c, slots)
    ensures FinishFrom(up, g, c, s, key, ctx, resp, j, slots).OutOfBounds? <==>
      exists i :: j <= i < g.arity && CellsAt(up, g, s, ctx, resp, i).None?
        && forall k :: j <= k < i ==> CellsAt(up, g, s, ctx, resp, k).Some? && CellsAt(up, g, s, ctx, resp, k).value.Ok?
    decreases g.arity - j
  {
    hide CellsAt, SlotsOf, Verdict, FinishFrom;
    if j == g.arity {
      FinishEnd(up, g, c, s, key, ctx, resp, slots);
    } else {
      FinishStep(up, g, c, s, key, ctx, resp, j, slots);
      var cells := CellsAt(up, g, s, ctx, resp, j);
      if cells.Some? && cells.value.Ok? {
        OutOfBoundsIff(up, g, c, s, key, ctx, resp, j + 1, slots + SlotsOf(up, g, cells.value.value, g.bucketSize));
      }
    }
  }

  /** Segment `i`'s correction reports a cell, and `e` names it. */
  ghost predicate CellFault<Hint(!new)>(up: Upstream<Hint>, g: Shape, s: Snap<Hint>, ctx: QueryCtx, resp: seq<seq<u32>>, i: nat, e: ClientError)
    requires g.Valid() && LinedUp(g, s, ctx, resp) && i < g.arity
  {
    var cells := CellsAt(up, g, s, ctx, resp, i);
    cells.Some? && cells.value.Err? && e == CellOutOfRange(i, ctx.rows[i], cells.value.error)
  }

  /** A cell is reported out of range exactly where a segment's correction reports it and every earlier segment went well. */
  lemma {:induction false} CellOutOfRangeIff<Hint(!new)>(up: Upstream<Hint>, g: Shape, c: ValueCodec, s: Snap<Hint>, key: Address,
                        ctx: QueryCtx, resp: seq<seq<u32>>, j: nat, slots: seq<Slot>, e: ClientError)
    requires WellFormed(up, g, c) && LinedUp(g, s, ctx, resp) && j <= g.arity && Sized(c, slots)
    ensures FinishFrom(up, g, c, s, key, ctx, resp, j, slots) == Done(Err(e)) <==>
      exists i :: j <= i < g.arity && CellFault(up, g, s, ctx, resp, i, e)
        && forall k :: j <= k < i ==> CellsAt(up, g, s, ctx, resp, k).Some? && CellsAt(up, g, s, ctx, resp, k).value.Ok?
    decreases g.arity - j
  {
    hide CellsAt, SlotsOf, Verdict, FinishFrom;
    if j == g.arity {
      FinishEnd(up, g, c, s, key, ctx, resp, slots);
    } else {
      FinishStep(up, g, c, s, key, ctx, resp, j, slots);
      var cells := CellsAt(up, g, s, ctx, resp, j);
      if cells.Some? && cells.value.Ok? {
        CellOutOfRangeIff(up, g, c, s, key, ctx, resp, j + 1, slots + SlotsOf(up, g, cells.value.value, g.bucketSize), e);
      } else {
        assert CellFault(up, g, s, ctx, resp, j, e) <==> FinishFrom(up, g, c, s, key, ctx, resp, j, slots) == Done(Err(e));
      }
    }
  }

  /** What is refused before any response is touched: the counts first, then the block, then rows that are not the key's own. */
  lemma RefusedBeforehand<Hint(!new)>(up: Upstream<Hint>, g: Shape, c: ValueCodec, s: Snap<Hint>, key: Address, ctx: QueryCtx,
                        resp: seq<seq<u32>>, atBlock: u64)
    requires WellFormed(up, g, c) && |s.states| == |s.pending.perSegment| == g.arity
    ensures var r := FinishSpec(up, g, c, s, key, ctx, resp, atBlock);
      var indices := up.candidates(key).indices;
      if !(|resp| == |ctx.queries| == |ctx.rows| == g.arity) then r == Done(Err(MalformedResponse(g.arity, |resp|)))
      else if atBlock != s.pending.head then r == Done(Err(ResponseBlockMismatch(s.pending.head, atBlock)))
      else r == Done(Err(KeyContextMismatch)) <==> exists j :: 0 <= j < g.arity && ctx.rows[j] != indices[j] % g.segmentSize
  {
    hide CellsAt, SlotsOf, Verdict, FinishFrom, WellFormed;
    if |resp| == |ctx.queries| == |ctx.rows| == g.arity && atBlock == s.pending.head {
      SameRows(up, g, c, key, ctx.rows);
      if ctx.rows == RowsFor(up, g, key) {
        CellOutOfRangeIff(up, g, c, s, key, ctx, resp, 0, [], KeyContextMismatch);
      }
    }
  }

  lemma SameRows<Hint(!new)>(up: Upstream<Hint>, g: Shape, c: ValueCodec, key: Address, rows: seq<u32>)
    requires WellFormed(up, g, c) && |rows| == g.arity
    ensures g.Valid() && |up.candidates(key).indices| >= g.arity
    ensures rows == RowsFor(up, g, key) <==> forall j :: 0 <= j < g.arity ==> rows[j] == up.candidates(key).indices[j] % g.segmentSize
  {
  }
}
