/**
 What a lookup is, over the table's own cells: the slots a key may be in, which of them answers for it, and what
 is then read. Bytes are read as little-endian integers, so nothing here goes through the client's own helpers.
 */
module TableLookup {
  import opened Words
  import opened Wrappers
  import opened Coalesce
  import opened Value
  import opened ValueIntegers
  import opened Scan
  import opened Client
  import opened ClientTheorems
  import opened Runs

  lemma CandidateRow<Hint(!new)>(up: Upstream<Hint>, g: Shape, c: ValueCodec, db: Database, key: Address, j: nat)
    requires WellFormed(up, g, c) && GoodDatabase(g, db) && j < g.arity
    ensures j < |up.candidates(key).indices| && g.segmentSize > 0
    ensures var row := up.candidates(key).indices[j] % g.segmentSize;
      row < |db[j]| && |db[j][row]| == g.Width()
  {
    var row := up.candidates(key).indices[j] % g.segmentSize;
    assert GoodSegment(g, db[j]);
    assert db[j][row] in db[j];
  }

  lemma SlotInBucket(g: Shape, s: nat)
    requires s < g.bucketSize
    ensures 0 <= s * g.cellsPerSlot <= (s + 1) * g.cellsPerSlot <= g.bucketSize * g.cellsPerSlot
  {
    SlotInRow(g, s);
  }

  /** Slot `s` of the bucket that is the key's `j`-th candidate. */
  ghost function SlotAt<Hint(!new)>(up: Upstream<Hint>, g: Shape, c: ValueCodec, db: Database, key: Address, j: nat, s: nat): (slot: Slot)
    requires WellFormed(up, g, c) && GoodDatabase(g, db) && j < g.arity && s < g.bucketSize
    ensures |slot.value| == c.Size()
  {
    CandidateRow(up, g, c, db, key, j);
    SlotInBucket(g, s);
    up.unpack(db[j][up.candidates(key).indices[j] % g.segmentSize][s * g.cellsPerSlot..(s + 1) * g.cellsPerSlot])
  }

  /** That slot has the key's fingerprint and the key's tag. */
  ghost predicate HitAt<Hint(!new)>(up: Upstream<Hint>, g: Shape, c: ValueCodec, db: Database, key: Address, j: nat, s: nat)
    requires WellFormed(up, g, c) && GoodDatabase(g, db) && j < g.arity && s < g.bucketSize
  {
    var slot := SlotAt(up, g, c, db, key, j, s);
    slot.fp == up.candidates(key).fp && HasTag(c, key, slot.value)
  }

  // ----- The scanned slots are those slots -----

  lemma {:induction false} SlotOf<Hint(!new)>(up: Upstream<Hint>, g: Shape, cells: seq<u32>, n: nat, s: nat)
    requires s < n <= g.bucketSize && |cells| == g.Width()
    ensures 0 <= s * g.cellsPerSlot <= (s + 1) * g.cellsPerSlot <= |cells|
    ensures SlotsOf(up, g, cells, n)[s] == up.unpack(cells[s * g.cellsPerSlot..(s + 1) * g.cellsPerSlot])
  {
    SlotInBucket(g, s);
    if s < n - 1 {
      SlotOf(up, g, cells, n - 1, s);
    }
  }

  lemma {:induction false} TableSlot<Hint(!new)>(up: Upstream<Hint>, g: Shape, c: ValueCodec, db: Database, key: Address, n: nat, j: nat, s: nat, k: nat)
    requires WellFormed(up, g, c) && GoodDatabase(g, db) && j < n <= g.arity && s < g.bucketSize && k == j * g.bucketSize + s
    ensures var slots := TableSlots(up, g, db, RowsFor(up, g, key), n);
      k < |slots| && slots[k] == SlotAt(up, g, c, db, key, j, s)
  {
    hide SlotsOf, GoodSegment;
    var rows := RowsFor(up, g, key);
    RowWidth(g, db, rows, n - 1);
    SlotCount(up, g, db, rows, n - 1);
    SlotCount(up, g, db, rows, n);
    Below(j, n, s, g.bucketSize);
    if j == n - 1 {
      CandidateRow(up, g, c, db, key, j);
      SlotOf(up, g, db[j][rows[j]], g.bucketSize, s);
    } else {
      TableSlot(up, g, c, db, key, n - 1, j, s, k);
    }
  }

  lemma {:induction false} SlotCount<Hint>(up: Upstream<Hint>, g: Shape, db: Database, rows: seq<u32>, n: nat)
    requires GoodDatabase(g, db) && n <= g.arity == |rows| && forall r :: r in rows ==> r < g.segmentSize
    ensures |TableSlots(up, g, db, rows, n)| == n * g.bucketSize
  {
    hide SlotsOf;
    if n > 0 {
      RowWidth(g, db, rows, n - 1);
      SlotCount(up, g, db, rows, n - 1);
      assert n * g.bucketSize == (n - 1) * g.bucketSize + g.bucketSize;
    }
  }

  lemma Below(j: nat, n: nat, s: nat, b: nat)
    requires j < n && s < b
    ensures j * b + s < n * b && (n - 1) * b + b == n * b
    ensures j < n - 1 ==> j * b + s < (n - 1) * b
  {
    MulMonotone(j + 1, n, b);
    assert (j + 1) * b == j * b + b;
    assert (n - 1) * b + b == n * b;
    if j < n - 1 {
      MulMonotone(j + 1, n - 1, b);
    }
  }

  lemma MatchesIsHit<Hint(!new)>(up: Upstream<Hint>, g: Shape, c: ValueCodec, db: Database, key: Address, j: nat, s: nat)
    requires WellFormed(up, g, c) && GoodDatabase(g, db) && j < g.arity && s < g.bucketSize
    ensures Matches(c, up.candidates(key).fp, c.KeyTag(key), SlotAt(up, g, c, db, key, j, s)) <==> HitAt(up, g, c, db, key, j, s)
  {
    hide Field, HasTag, SlotAt;
    TagAndSum(c, key, SlotAt(up, g, c, db, key, j, s).value);
  }

  lemma Place(k: nat, n: nat, b: nat)
    requires k < n * b
    ensures b > 0 && k / b < n && k % b < b && (k / b) * b + k % b == k
  {
    if k / b >= n {
      MulMonotone(n, k / b, b);
    }
  }

  /** Every scanned slot is a candidate slot, and it is a match exactly where the table has a hit. */
  lemma ScannedIs<Hint(!new)>(up: Upstream<Hint>, g: Shape, c: ValueCodec, db: Database, key: Address, k: nat) returns (j: nat, s: nat)
    requires WellFormed(up, g, c) && GoodDatabase(g, db)
    requires k < |TableSlots(up, g, db, RowsFor(up, g, key), g.arity)|
    ensures j < g.arity && s < g.bucketSize && k == j * g.bucketSize + s
    ensures var slot := TableSlots(up, g, db, RowsFor(up, g, key), g.arity)[k];
      slot == SlotAt(up, g, c, db, key, j, s) && |slot.value| == c.Size()
      && (Matches(c, up.candidates(key).fp, c.KeyTag(key), slot) <==> HitAt(up, g, c, db, key, j, s))
  {
    hide Matches, HitAt, SlotAt, TableSlots, GoodSegment;
    SlotCount(up, g, db, RowsFor(up, g, key), g.arity);
    Place(k, g.arity, g.bucketSize);
    j, s := k / g.bucketSize, k % g.bucketSize;
    TableSlot(up, g, c, db, key, g.arity, j, s, k);
    MatchesIsHit(up, g, c, db, key, j, s);
  }

  // ----- The lookup -----

  /** No candidate slot has the key's fingerprint and tag: the key is not there. */
  lemma NoHitIsNotFound<Hint(!new)>(up: Upstream<Hint>, g: Shape, c: ValueCodec, db: Database, key: Address)
    requires WellFormed(up, g, c) && GoodDatabase(g, db)
    requires forall j, s :: 0 <= j < g.arity && 0 <= s < g.bucketSize ==> !HitAt(up, g, c, db, key, j, s)
    ensures DirectLookup(up, g, c, db, key) == NotFound
  {
    hide Matches, HitAt, SlotAt, TableSlots, Selected, GoodSegment;
    var slots := TableSlots(up, g, db, RowsFor(up, g, key), g.arity);
    TableSlotsSized(up, g, c, db, RowsFor(up, g, key), g.arity);
    forall slot | slot in slots ensures !Matches(c, up.candidates(key).fp, c.KeyTag(key), slot) {
      var k :| 0 <= k < |slots| && slots[k] == slot;
      var j, s := ScannedIs(up, g, c, db, key, k);
    }
  }

  /** Exactly one candidate slot has both: its bytes decide, wherever it is. */
  lemma OnlyHitDecides<Hint(!new)>(up: Upstream<Hint>, g: Shape, c: ValueCodec, db: Database, key: Address, j: nat, s: nat)
    requires WellFormed(up, g, c) && GoodDatabase(g, db) && j < g.arity && s < g.bucketSize
    requires forall i, t :: 0 <= i < g.arity && 0 <= t < g.bucketSize ==> (HitAt(up, g, c, db, key, i, t) <==> i == j && t == s)
    ensures var row := up.candidates(key).indices[j] % g.segmentSize;
      && row < |db[j]| && 0 <= s * g.cellsPerSlot <= (s + 1) * g.cellsPerSlot <= |db[j][row]|
      && var bytes := up.unpack(db[j][row][s * g.cellsPerSlot..(s + 1) * g.cellsPerSlot]).value;
         var balance := FromLe(bytes) / Pow2(c.keyTagBits) % Pow2(c.balanceBits);
         DirectLookup(up, g, c, db, key) == if HasChecksum(c, bytes, balance) then Found(balance) else DecodeFailed
  {
    CandidateRow(up, g, c, db, key, j);
    SlotInBucket(g, s);
    var slot := SlotAt(up, g, c, db, key, j, s);
    OnlySlotDecides(up, g, c, db, key, j, s);
    hide HasChecksum, HasTag, Decoded, FromLe, Pow2;
    DecodedMeaning(c, key, slot.value);
    assert HitAt(up, g, c, db, key, j, s);
  }

  lemma OnlySlotDecides<Hint(!new)>(up: Upstream<Hint>, g: Shape, c: ValueCodec, db: Database, key: Address, j: nat, s: nat)
    requires WellFormed(up, g, c) && GoodDatabase(g, db) && j < g.arity && s < g.bucketSize
    requires forall i, t :: 0 <= i < g.arity && 0 <= t < g.bucketSize ==> (HitAt(up, g, c, db, key, i, t) <==> i == j && t == s)
    ensures DirectLookup(up, g, c, db, key) == Decoded(c, key, SlotAt(up, g, c, db, key, j, s).value)
  {
    hide Matches, HitAt, SlotAt, TableSlots, Selected, Decoded, GoodSegment, OnlyMatch;
    var fp, tag := up.candidates(key).fp, c.KeyTag(key);
    var slots := TableSlots(up, g, db, RowsFor(up, g, key), g.arity);
    TableSlotsSized(up, g, c, db, RowsFor(up, g, key), g.arity);
    var only: nat := j * g.bucketSize + s;
    TableSlot(up, g, c, db, key, g.arity, j, s, only);
    OnlyOneMatches(up, g, c, db, key, j, s, only);
    SelectsTheOnlyMatch(c, fp, tag, slots, only);
    MatchesIsHit(up, g, c, db, key, j, s);
    assert slots[only] in slots;
  }

  lemma OnlyOneMatches<Hint(!new)>(up: Upstream<Hint>, g: Shape, c: ValueCodec, db: Database, key: Address, j: nat, s: nat, only: nat)
    requires WellFormed(up, g, c) && GoodDatabase(g, db) && j < g.arity && s < g.bucketSize && only == j * g.bucketSize + s
    requires forall i, t :: 0 <= i < g.arity && 0 <= t < g.bucketSize ==> (HitAt(up, g, c, db, key, i, t) <==> i == j && t == s)
    ensures var slots := TableSlots(up, g, db, RowsFor(up, g, key), g.arity);
      Sized(c, slots) && OnlyMatch(c, up.candidates(key).fp, c.KeyTag(key), slots, only)
  {
    hide Matches, HitAt, SlotAt, TableSlots, GoodSegment, RowsFor;
    var slots := TableSlots(up, g, db, RowsFor(up, g, key), g.arity);
    TableSlotsSized(up, g, c, db, RowsFor(up, g, key), g.arity);
    TableSlot(up, g, c, db, key, g.arity, j, s, only);
    forall k | 0 <= k < |slots| ensures Matches(c, up.candidates(key).fp, c.KeyTag(key), slots[k]) <==> k == only {
      var i, t := ScannedIs(up, g, c, db, key, k);
      OnePlace(i, t, j, s, g.bucketSize);
    }
  }

  lemma OnePlace(i: nat, t: nat, j: nat, s: nat, b: nat)
    requires t < b && s < b
    ensures i * b + t == j * b + s <==> i == j && t == s
  {
    if i * b + t == j * b + s {
      ModUnique(i * b + t, i, b, t);
      ModUnique(j * b + s, j, b, s);
    }
  }

  /** A key whose encoded balance is in one slot of one of its candidate buckets, and hit nowhere else, is found. */
  lemma HeldKeyIsFound<Hint(!new)>(up: Upstream<Hint>, g: Shape, c: ValueCodec, db: Database, key: Address, j: nat, s: nat, balance: nat)
    requires WellFormed(up, g, c) && GoodDatabase(g, db) && j < g.arity && s < g.bucketSize
    requires forall i, t :: 0 <= i < g.arity && 0 <= t < g.bucketSize ==> (HitAt(up, g, c, db, key, i, t) <==> i == j && t == s)
    requires Layout(c, SlotAt(up, g, c, db, key, j, s).value, c.KeyTag(key), balance, c.Checksum(balance))
    ensures DirectLookup(up, g, c, db, key) == Found(balance)
  {
    hide SlotAt, HitAt, Layout, HasChecksum, DirectLookup;
    OnlySlotDecides(up, g, c, db, key, j, s);
    RoundTrip(c, key, key, balance, SlotAt(up, g, c, db, key, j, s).value);
  }

  /**
   The promise of a private lookup, end to end: in every run, an answer at the client's head finishes with the
   balance of a key that one slot of its candidate buckets holds at the block the answer names, and with
   `NotFound` for a key that no such slot hits.
   */
  lemma EveryLookupIsTrue<Hint(!new)>(d: Deployment<Hint>, hints: seq<Hint>, ws: seq<World<Hint>>, es: seq<Event<Hint>>,
                                      i: nat, a: AnswerReply, j: nat, s: nat, balance: nat)
    requires Honest(d) && Run(d, hints, ws, es) && AllStartRight(ws, es) && i < |ws| && Answers(d, ws[i], a)
    requires a.atBlock == ws[i].client.snap.pending.head
    ensures Point(ws[i].client.epoch, a.atBlock) in ws[i].history
    ensures var c := ws[i].client;
      var key, db := c.asked.value.key, ws[i].history[Point(c.epoch, a.atBlock)];
      var ctx := CtxFor(d.up, c.asked.value.secrets);
      && GoodDatabase(d.g, db) && |c.snap.states| == |c.snap.pending.perSegment| == d.g.arity
      && var r := FinishSpec(d.up, d.g, d.codec, c.snap, key, ctx, a.resp, a.atBlock);
         && (Holds(d, db, key, j, s, balance) ==> r == Done(Ok(Found(balance))))
         && (Absent(d, db, key) ==> r == Done(Ok(NotFound)))
  {
    hide FinishSpec, Run, Sound, GoodDatabase, WellFormed, DirectLookup, HitAt, SlotAt, Layout, AllStartRight;
    EveryFinishIsRight(d, hints, ws, es, i, a);
    var c := ws[i].client;
    var key, db := c.asked.value.key, ws[i].history[Point(c.epoch, a.atBlock)];
    if Holds(d, db, key, j, s, balance) {
      HeldKeyIsFound(d.up, d.g, d.codec, db, key, j, s, balance);
    }
    if Absent(d, db, key) {
      NoHitIsNotFound(d.up, d.g, d.codec, db, key);
    }
  }

  /** Slot `s` of the key's `j`-th candidate bucket holds its encoded balance, and no other candidate slot hits. */
  ghost predicate Holds<Hint(!new)>(d: Deployment<Hint>, db: Database, key: Address, j: nat, s: nat, balance: nat)
    requires WellFormed(d.up, d.g, d.codec) && GoodDatabase(d.g, db)
  {
    && j < d.g.arity && s < d.g.bucketSize
    && Layout(d.codec, SlotAt(d.up, d.g, d.codec, db, key, j, s).value, d.codec.KeyTag(key), balance, d.codec.Checksum(balance))
    && forall i, t :: 0 <= i < d.g.arity && 0 <= t < d.g.bucketSize ==>
         (HitAt(d.up, d.g, d.codec, db, key, i, t) <==> i == j && t == s)
  }

  ghost predicate Absent<Hint(!new)>(d: Deployment<Hint>, db: Database, key: Address)
    requires WellFormed(d.up, d.g, d.codec) && GoodDatabase(d.g, db)
  {
    forall i, t :: 0 <= i < d.g.arity && 0 <= t < d.g.bucketSize ==> !HitAt(d.up, d.g, d.codec, db, key, i, t)
  }
}
