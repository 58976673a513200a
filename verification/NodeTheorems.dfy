/** What a served set-up bundle is worth: from its block the client can always catch up, within the window. */
module NodeTheorems {
  import opened Words
  import opened Wrappers
  import opened Deltas
  import opened Coalesce
  import opened Node

  lemma {:induction false} SelectedShorter(buf: seq<BlockDelta>, from: u64, upto: u64)
    ensures |Selected(buf, from, upto)| <= |buf|
  {
    if buf != [] {
      SelectedShorter(buf[..|buf| - 1], from, upto);
    }
  }

  /** The exact reach of `/sync` to the head: no height skipped since `from`, and at most `capacity` of them. */
  lemma RetainedIff(s: Snap, from: u64)
    requires Inv(s) && from <= s.head
    ensures Covers(s.ring, from, s.head) <==> Covers(s.log, from, s.head) && s.head - from <= s.capacity
  {
    hide Ascending, Indexes, Last, Covers, Has;
    if from == s.head {
      NothingToCover(s.log, from);
      NothingToCover(s.ring, from);
    } else {
      if Covers(s.ring, from, s.head) {
        CoveredFits(s.log, s.capacity, from, s.head);
      }
      if Covers(s.log, from, s.head) && s.head - from <= s.capacity {
        CoveredRetained(s.log, s.capacity, from, s.head);
      }
    }
  }

  lemma NothingToCover(log: seq<BlockDelta>, block: u64)
    ensures Covers(log, block, block)
  {
  }

  lemma CoveredFits(log: seq<BlockDelta>, capacity: nat, from: u64, head: u64)
    requires Ascending(log) && from < head && Covers(Last(log, capacity), from, head)
    ensures Covers(log, from, head) && head - from <= capacity
  {
    hide Ascending, Selected;
    var ring := Last(log, capacity);
    AscendingLast(log, capacity);
    FullSelection(ring, from, head);
    SelectedShorter(ring, from, head);
    forall b | from < b <= head ensures Has(log, b) {
      assert Has(ring, b);
      var i := Find(ring, b);
      assert ring[i] in log;
    }
  }

  lemma CoveredRetained(log: seq<BlockDelta>, capacity: nat, from: u64, head: u64)
    requires Ascending(log) && (log != [] ==> log[|log| - 1].block <= head)
    requires Covers(log, from, head) && head - from <= capacity
    ensures Covers(Last(log, capacity), from, head)
  {
    hide Ascending, Last;
    forall b | from < b <= head ensures Has(Last(log, capacity), b) {
      assert Has(log, b);
      var i := Find(log, b);
      StillRetained(log, capacity, head, i);
    }
  }

  /** A delta less than `capacity` heights below the head has not been evicted, whatever was skipped. */
  lemma StillRetained(log: seq<BlockDelta>, capacity: nat, head: u64, i: nat)
    requires Ascending(log) && i < |log| && log[|log| - 1].block <= head && head - log[i].block < capacity
    ensures Has(Last(log, capacity), log[i].block)
  {
    Spread(log, i, |log| - 1);
    hide Ascending;
    var k := if |log| <= capacity then 0 else |log| - capacity;
    var ring := Last(log, capacity);
    assert ring[i - k] == log[i];
    assert log[i] in ring;
  }

  // ----- Runs without gaps -----

  datatype Event = Apply(delta: BlockDelta) | Serve

  /** What `setup_bytes` leaves in the cache; `bytes` is the bundle of the head. */
  function Served(s: Snap, bytes: seq<u8>): Snap
    requires s.cache.Some? ==> s.cache.value.block <= s.head
  {
    if s.cache.Some? && s.head - s.cache.value.block <= s.capacity / 8 then s
    else s.(cache := Some(Cached(s.head, bytes)))
  }

  /** The follow loop applies the block after the head; anyone may ask for a bundle at any time. */
  ghost predicate Step(bundle: u64 -> seq<u8>, s: Snap, e: Event, s': Snap) {
    match e
    case Apply(d) => d.block == s.head + 1 && s' == Applied(s, d)
    case Serve => Inv(s) && s' == Served(s, bundle(s.head))
  }

  ghost predicate Run(bundle: u64 -> seq<u8>, ss: seq<Snap>, es: seq<Event>) {
    && |ss| == |es| + 1 && Inv(ss[0]) && ss[0].cache.None?
    && forall i :: 0 <= i < |es| ==> Step(bundle, ss[i], es[i], ss[i + 1])
  }

  /** Nothing was skipped between the cached bundle's block and the head. */
  ghost predicate Bridged(s: Snap) {
    s.cache.Some? ==> Covers(s.log, s.cache.value.block, s.head)
  }

  lemma CoversPush(log: seq<BlockDelta>, d: BlockDelta, from: u64, head: u64)
    requires Covers(log, from, head) && d.block == head + 1
    ensures Covers(log + [d], from, head + 1)
  {
    forall b | from < b <= head + 1 ensures Has(log + [d], b) {
      if b == head + 1 {
        assert d in log + [d];
      } else {
        assert Has(log, b);
        var i := Find(log, b);
        assert log[i] in log + [d];
      }
    }
  }

  lemma StepKeeps(bundle: u64 -> seq<u8>, s: Snap, e: Event, s': Snap)
    requires Inv(s) && Bridged(s) && Step(bundle, s, e, s')
    ensures Inv(s') && Bridged(s') && s'.capacity == s.capacity && s.head <= s'.head
    ensures forall from: u64 :: from <= s.head && Covers(s.log, from, s.head) ==> Covers(s'.log, from, s'.head)
  {
    hide Covers, Inv;
    InvBounds(s);
    match e
    case Apply(d) =>
      AppliedKeepsInv(s, d);
      forall from: u64 | from <= s.head && Covers(s.log, from, s.head) ensures Covers(s'.log, from, s'.head) {
        CoversPush(s.log, d, from, s.head);
      }
    case Serve =>
      ServedKeepsInv(s, bundle(s.head));
      NothingToCover(s.log, s.head);
  }

  lemma InvBounds(s: Snap)
    requires Inv(s)
    ensures s.cache.Some? ==> s.cache.value.block <= s.head
  {
  }

  lemma ServedKeepsInv(s: Snap, bytes: seq<u8>)
    requires Inv(s)
    ensures Inv(Served(s, bytes))
  {
  }

  lemma {:induction false} RunKeeps(bundle: u64 -> seq<u8>, ss: seq<Snap>, es: seq<Event>, i: nat, k: nat)
    requires Run(bundle, ss, es) && i <= k < |ss|
    ensures Inv(ss[k]) && Bridged(ss[k]) && ss[k].capacity == ss[0].capacity && ss[i].head <= ss[k].head
    ensures forall from: u64 :: from <= ss[i].head && Covers(ss[i].log, from, ss[i].head) ==> Covers(ss[k].log, from, ss[k].head)
    decreases k
  {
    hide Covers, Step, Inv;
    if i == k {
      if k > 0 {
        RunKeeps(bundle, ss, es, k - 1, k - 1);
        StepKeeps(bundle, ss[k - 1], es[k - 1], ss[k]);
      }
    } else {
      RunKeeps(bundle, ss, es, i, k - 1);
      StepKeeps(bundle, ss[k - 1], es[k - 1], ss[k]);
    }
  }

  /**
   In every reachable state a served bundle is at most an eighth of the ring behind the head, and from its
   block the whole way to any later head is retained exactly while that head is within `capacity` of it.
   */
  lemma ServedBundleCatchesUp(bundle: u64 -> seq<u8>, ss: seq<Snap>, es: seq<Event>, i: nat, k: nat)
    requires Run(bundle, ss, es) && i < |es| && es[i].Serve? && i < k < |ss|
    ensures ss[i + 1].cache.Some?
    ensures var b := ss[i + 1].cache.value.block;
      && b <= ss[i + 1].head <= ss[k].head && ss[i + 1].head - b <= ss[k].capacity / 8
      && (Covers(ss[k].ring, b, ss[k].head) <==> ss[k].head - b <= ss[k].capacity)
  {
    hide Covers, Inv;
    RunKeeps(bundle, ss, es, i, i);
    assert Step(bundle, ss[i], es[i], ss[i + 1]);
    RunKeeps(bundle, ss, es, i + 1, i + 1);
    RunKeeps(bundle, ss, es, i + 1, k);
    CacheBehind(ss[i], bundle(ss[i].head));
    RetainedIff(ss[k], ss[i + 1].cache.value.block);
  }

  lemma CacheBehind(s: Snap, bytes: seq<u8>)
    requires Inv(s)
    ensures Served(s, bytes).cache.Some?
    ensures Served(s, bytes).cache.value.block <= s.head && s.head - Served(s, bytes).cache.value.block <= s.capacity / 8
  {
  }

  // ----- What a sync reply is -----

  /** Every delta in the log is the difference of the databases either side of it. */
  ghost predicate TrueLog(log: seq<BlockDelta>, history: map<int, Database>, plaintextBits: nat) {
    && (forall b :: b in history ==> InRange(history[b], plaintextBits))
    && (forall d :: d in log ==> TrueDelta(d, history))
  }

  ghost predicate TrueDelta(d: BlockDelta, history: map<int, Database>) {
    && d.block as int - 1 in history && d.block as int in history
    && Bridges(d, history[d.block as int - 1], history[d.block as int])
  }

  /** Whatever range an honest server can serve, the reply exists and is the difference of its two ends. */
  lemma SyncReplyBridges(ring: seq<BlockDelta>, history: map<int, Database>, from: u64, upto: u64, plaintextBits: nat)
    requires plaintextBits <= 31 && Ascending(ring) && from < upto && Covers(ring, from, upto)
    requires TrueLog(ring, history, plaintextBits)
    ensures from as int in history && upto as int in history
    ensures Addable(Selected(ring, from, upto))
    ensures forall d :: IsCoalesced(Selected(ring, from, upto), d) ==> Bridges(d, history[from as int], history[upto as int])
  {
    hide Bridges, InRange, IsCoalesced, Ascending, Selected, HonestRun, Covers;
    var deltas := Selected(ring, from, upto);
    var dbs := Ends(ring, history, from, upto, plaintextBits);
    TelescopingBound(dbs, deltas, plaintextBits);
    FirstUniform(dbs, deltas, plaintextBits);
  }

  lemma Ends(ring: seq<BlockDelta>, history: map<int, Database>, from: u64, upto: u64, plaintextBits: nat) returns (dbs: seq<Database>)
    requires Ascending(ring) && from < upto && Covers(ring, from, upto) && TrueLog(ring, history, plaintextBits)
    ensures HonestRun(dbs, Selected(ring, from, upto), plaintextBits)
    ensures from as int in history && upto as int in history
    ensures dbs[0] == history[from as int] && dbs[|dbs| - 1] == history[upto as int]
  {
    hide Bridges, InRange, Ascending, Selected;
    var deltas := Selected(ring, from, upto);
    FullSelection(ring, from, upto);
    forall i | 0 <= i < |deltas| ensures TrueDelta(deltas[i], history) && deltas[i].block == from + 1 + i {
      SelectedIn(ring, from, upto, deltas[i]);
    }
    dbs := seq(|deltas| + 1, i requires 0 <= i <= |deltas| => StateAt(history, from + i));
    forall i | 0 <= i < |deltas|
      ensures Bridges(deltas[i], dbs[i], dbs[i + 1]) && InRange(dbs[i], plaintextBits)
    {
      assert TrueDelta(deltas[i], history) && deltas[i].block as int == from + i + 1;
      assert dbs[i] == StateAt(history, from + i) && dbs[i + 1] == StateAt(history, from + (i + 1));
    }
    assert dbs[0] == StateAt(history, from + 0) && dbs[|deltas|] == StateAt(history, from + |deltas|);
    assert TrueDelta(deltas[0], history) && deltas[0].block == from + 1;
    assert TrueDelta(deltas[|deltas| - 1], history) && deltas[|deltas| - 1].block == upto;
    assert InRange(dbs[|deltas|], plaintextBits);
  }

  function StateAt(history: map<int, Database>, block: int): Database {
    if block in history then history[block] else []
  }

  lemma FirstUniform(dbs: seq<Database>, deltas: seq<BlockDelta>, plaintextBits: nat)
    requires HonestRun(dbs, deltas, plaintextBits)
    ensures deltas != [] && |deltas[0].perSegment| == |dbs[0]|
  {
    assert Bridges(deltas[0], dbs[0], dbs[1]);
  }

  lemma TrueRing(s: Snap, history: map<int, Database>, plaintextBits: nat)
    requires Inv(s) && TrueLog(s.log, history, plaintextBits)
    ensures Ascending(s.ring) && TrueLog(s.ring, history, plaintextBits)
  {
    hide TrueDelta, InRange, Indexes, Ascending;
    AscendingLast(s.log, s.capacity);
    forall d | d in s.ring ensures d in s.log {
    }
  }

  /**
   The promise behind a served bundle: in every run without gaps of a node whose deltas are true, the way from
   the block of any bundle served so far to the head adds up, for as long as the head is within `capacity`
   blocks, and its sum is the difference of the two databases.
   */
  lemma ServedBundleSyncs(bundle: u64 -> seq<u8>, ss: seq<Snap>, es: seq<Event>, i: nat, k: nat, history: map<int, Database>, plaintextBits: nat)
    requires plaintextBits <= 31 && Run(bundle, ss, es) && i < |es| && es[i].Serve? && i < k < |ss|
    requires TrueLog(ss[k].log, history, plaintextBits)
    ensures ss[i + 1].cache.Some? && Inv(ss[k])
    ensures var from, head := ss[i + 1].cache.value.block, ss[k].head;
      var selected := Selected(ss[k].ring, from, head);
      && (Covers(ss[k].ring, from, head) <==> head - from <= ss[k].capacity)
      && (from < head && head - from <= ss[k].capacity ==>
            && Addable(selected) && from as int in history && head as int in history
            && forall d :: IsCoalesced(selected, d) ==> Bridges(d, history[from as int], history[head as int]))
  {
    hide Covers, Bridges, TrueLog, IsCoalesced, Selected, Addable, Inv;
    ServedBundleCatchesUp(bundle, ss, es, i, k);
    RunKeeps(bundle, ss, es, k, k);
    TrueRing(ss[k], history, plaintextBits);
    var from, head := ss[i + 1].cache.value.block, ss[k].head;
    if from < head && Covers(ss[k].ring, from, head) {
      SyncReplyBridges(ss[k].ring, history, from, head, plaintextBits);
    }
  }

  /** The code keeps it: `/sync` from such a block to the head answers exactly within `capacity`, and truly. */
  method CatchUp(node: NodeState, from: u64, ghost bundle: u64 -> seq<u8>, ghost ss: seq<Snap>, ghost es: seq<Event>, ghost i: nat,
                 ghost history: map<int, Database>, ghost plaintextBits: nat)
    returns (delta: Option<BlockDelta>)
    requires node.Valid() && plaintextBits <= 31
    requires Run(bundle, ss, es) && i < |es| && es[i].Serve? && ss[|es|] == node.Snapshot()
    requires ss[i + 1].cache.Some? && from == ss[i + 1].cache.value.block
    requires TrueLog(node.log, history, plaintextBits)
    ensures delta.Some? <==> from < node.head && node.head - from <= node.ring.capacity
    ensures delta.Some? ==> from as int in history && node.head as int in history
    ensures delta.Some? ==> delta.value.block == node.head && Bridges(delta.value, history[from as int], history[node.head as int])
  {
    hide Covers, Bridges, TrueLog, IsCoalesced, Selected, Addable;
    ServedBundleSyncs(bundle, ss, es, i, |es|, history, plaintextBits);
    delta := node.Sync(from, node.head);
  }

  /** A block number skipped at the server, with the ring far from full, and a client behind it cannot catch up. */
  lemma SkippedHeight()
    ensures var one, three := BlockDelta(1, []), BlockDelta(3, []);
      var s := Snap(8, 3, [one, three], map[1 := one, 3 := three], None, [one, three]);
      Inv(s) && s.head - 0 <= s.capacity && !Covers(s.ring, 0, s.head) && Covers(s.ring, 2, s.head)
  {
    var one, three := BlockDelta(1, []), BlockDelta(3, []);
    var ring := [one, three];
    assert !Has(ring, 2);
    assert three in ring;
    assert one in ring;
    forall b | 2 < b <= 3 ensures Has(ring, b) {
      assert b == 3;
    }
  }
}
