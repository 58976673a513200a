/**
 The server's retention window and set-up cache: `risepir-server/src/delta_ring.rs` and the parts of
 `risepir-http/src/node.rs` that keep the ring, the per-block index and the cached bundle together.
 */
module Node {
  import opened Words
  import opened Wrappers
  import opened Deltas
  import opened Coalesce

  // ----- The ring -----

  /** The retained deltas of `(from, to]`, in order. */
  function Selected(buf: seq<BlockDelta>, from: u64, to: u64): seq<BlockDelta> {
    if buf == [] then []
    else
      var n := |buf| - 1;
      Selected(buf[..n], from, to) + if from < buf[n].block <= to then [buf[n]] else []
  }

  ghost predicate Ascending(buf: seq<BlockDelta>) {
    forall i, j :: 0 <= i < j < |buf| ==> buf[i].block < buf[j].block
  }

  /** Every block of `(from, to]` is there. */
  ghost predicate Covers(buf: seq<BlockDelta>, from: int, to: int) {
    forall b :: from < b <= to ==> Has(buf, b)
  }

  ghost predicate Has(buf: seq<BlockDelta>, block: int) {
    exists d :: d in buf && d.block == block
  }

  lemma {:induction false} SelectedIn(buf: seq<BlockDelta>, from: u64, to: u64, d: BlockDelta)
    ensures d in Selected(buf, from, to) <==> d in buf && from < d.block <= to
  {
    if buf != [] {
      var n := |buf| - 1;
      SelectedIn(buf[..n], from, to, d);
      assert buf == buf[..n] + [buf[n]];
    }
  }

  lemma {:induction false} SelectedAscending(buf: seq<BlockDelta>, from: u64, to: u64)
    requires Ascending(buf)
    ensures Ascending(Selected(buf, from, to))
  {
    if buf != [] {
      var n := |buf| - 1;
      SelectedAscending(buf[..n], from, to);
      forall d | d in Selected(buf[..n], from, to) ensures d.block < buf[n].block {
        SelectedIn(buf[..n], from, to, d);
      }
    }
  }

  /** In an ascending list the first `i` blocks are at least `i` apart. */
  lemma {:induction false} Spread(s: seq<BlockDelta>, i: nat, j: nat)
    requires Ascending(s) && i <= j < |s|
    ensures s[j].block - s[i].block >= j - i
  {
    if i < j {
      Spread(s, i, j - 1);
    }
  }

  /** As many deltas as heights: then they are exactly the heights, one after the other. */
  lemma FullSelection(buf: seq<BlockDelta>, from: u64, to: u64)
    requires Ascending(buf) && from < to
    ensures |Selected(buf, from, to)| <= to - from
    ensures |Selected(buf, from, to)| == to - from ==>
      forall i :: 0 <= i < to - from ==> Selected(buf, from, to)[i].block == from + 1 + i
    ensures |Selected(buf, from, to)| == to - from <==> Covers(buf, from, to)
  {
    var s := Selected(buf, from, to);
    SelectedAscending(buf, from, to);
    forall d ensures d in s <==> d in buf && from < d.block <= to {
      SelectedIn(buf, from, to, d);
    }
    if s != [] {
      Spread(s, 0, |s| - 1);
      assert s[0] in s && s[|s| - 1] in s;
    }
    if |s| == to - from {
      forall i | 0 <= i < |s| ensures s[i].block == from + 1 + i {
        Spread(s, 0, i);
        Spread(s, i, |s| - 1);
      }
      forall b | from < b <= to ensures Has(buf, b) {
        assert s[b - from - 1] in s;
      }
    }
    if Covers(buf, from, to) {
      forall b | from < b <= to ensures Has(s, b) {
        assert Has(buf, b);
      }
      CoveredCount(s, from, to);
    }
  }

  lemma Find(s: seq<BlockDelta>, block: int) returns (i: nat)
    requires Has(s, block)
    ensures i < |s| && s[i].block == block
  {
    var d :| d in s && d.block == block;
    i :| 0 <= i < |s| && s[i] == d;
  }

  lemma HasOther(s: seq<BlockDelta>, i: nat, block: int)
    requires i < |s| && s[i].block != block && Has(s, block)
    ensures Has(s[..i] + s[i + 1..], block)
  {
    var k := Find(s, block);
    var rest := s[..i] + s[i + 1..];
    assert s[k] == if k < i then rest[k] else rest[k - 1];
    assert s[k] in rest;
  }

  lemma {:induction false} CoveredCount(s: seq<BlockDelta>, lo: int, hi: int)
    requires lo <= hi && Covers(s, lo, hi)
    ensures |s| >= hi - lo
    decreases hi - lo
  {
    if lo < hi {
      assert Has(s, hi);
      var i := Find(s, hi);
      var rest := s[..i] + s[i + 1..];
      forall b | lo < b <= hi - 1 ensures Has(rest, b) {
        HasOther(s, i, b);
      }
      CoveredCount(rest, lo, hi - 1);
    }
  }

  /** The deltas can be added up: one arity, and no sum leaves `i64`. */
  ghost predicate Addable(deltas: seq<BlockDelta>) {
    deltas != [] && Uniform(deltas, |deltas[0].perSegment|) && RunFits(deltas, |deltas[0].perSegment|)
  }

  class DeltaRing {
    const capacity: nat
    var buf: seq<BlockDelta>

    constructor (capacity: nat)
      requires capacity > 0
      ensures this.capacity == capacity && buf == []
    {
      this.capacity := capacity;
      buf := [];
    }

    method Push(d: BlockDelta)
      requires capacity > 0
      modifies this
      ensures buf == (if |old(buf)| == capacity then old(buf)[1..] else old(buf)) + [d]
    {
      if |buf| == capacity {
        buf := buf[1..];
      }
      buf := buf + [d];
    }

    /** Something exactly when the whole range is retained (and adds up); then it is the whole range's sum. */
    method Range(from: u64, to: u64) returns (r: Option<BlockDelta>)
      requires Ascending(buf)
      ensures r.Some? <==> from < to && Covers(buf, from, to) && Addable(Selected(buf, from, to))
      ensures r.Some? ==> IsCoalesced(Selected(buf, from, to), r.value) && r.value.block == to
    {
      if from >= to {
        return None;
      }
      FullSelection(buf, from, to);
      var want := to - from;
      var selected: seq<BlockDelta> := [];
      for i := 0 to |buf|
        invariant selected == Selected(buf[..i], from, to)
      {
        assert buf[..i + 1][..i] == buf[..i];
        if buf[i].block > from && buf[i].block <= to {
          selected := selected + [buf[i]];
        }
      }
      assert buf[..|buf|] == buf;
      if |selected| != want {
        return None;
      }
      RunFaultNoneIff(selected, 0);
      var sum := Coalesce.Coalesce(selected);
      return match sum case Ok(d) => Some(d) case Err(_) => None;
    }

    function Oldest(): Option<u64>
      reads this
    {
      if buf == [] then None else Some(buf[0].block)
    }
  }

  // ----- The node -----

  datatype Cached = Cached(block: u64, bytes: seq<u8>)

  /** The part of a node's state that decides what `/setup`, `/sync` and `/delta` serve. */
  datatype Snap = Snap(
    capacity: nat,
    head: u64,
    ring: seq<BlockDelta>,
    perBlock: map<u64, BlockDelta>,
    cache: Option<Cached>,
    log: seq<BlockDelta>)

  /** The last `n` elements, or all of them. */
  function Last<T>(s: seq<T>, n: nat): seq<T> {
    if |s| <= n then s else s[|s| - n..]
  }

  ghost predicate Indexes(perBlock: map<u64, BlockDelta>, ring: seq<BlockDelta>) {
    && (forall b :: b in perBlock ==> perBlock[b] in ring && perBlock[b].block == b)
    && (forall d :: d in ring ==> d.block in perBlock && perBlock[d.block] == d)
  }

  /** `log` is every delta pushed so far; the ring keeps its tail and the index holds exactly the ring. */
  ghost predicate Inv(s: Snap) {
    && s.capacity > 0
    && Ascending(s.log) && (s.log != [] ==> s.log[|s.log| - 1].block <= s.head)
    && s.ring == Last(s.log, s.capacity) && Indexes(s.perBlock, s.ring)
    && (s.cache.Some? ==> s.cache.value.block <= s.head)
  }

  /** The state after pushing one more delta onto ring and index, with nothing yet evicted from the index. */
  function Pushed(s: Snap, d: BlockDelta): Snap {
    s.(ring := Last(s.ring + [d], s.capacity), log := s.log + [d], perBlock := s.perBlock[d.block := d])
  }

  /** The index without the blocks the ring has let go. */
  function Pruned(perBlock: map<u64, BlockDelta>, ring: seq<BlockDelta>): map<u64, BlockDelta> {
    if ring == [] then perBlock else map b | b in perBlock && b >= ring[0].block :: perBlock[b]
  }

  lemma LastPush<T>(s: seq<T>, x: T, n: nat)
    requires n > 0
    ensures Last(Last(s, n) + [x], n) == Last(s + [x], n)
  {
  }

  ghost predicate IndexHolds(perBlock: map<u64, BlockDelta>, ring: seq<BlockDelta>) {
    && (forall b :: b in perBlock ==> perBlock[b].block == b)
    && (forall d :: d in ring ==> d.block in perBlock && perBlock[d.block] == d)
    && (ring != [] ==> forall b :: b in perBlock && b >= ring[0].block ==> perBlock[b] in ring)
  }

  lemma PushIndex(perBlock: map<u64, BlockDelta>, ring: seq<BlockDelta>, d: BlockDelta, capacity: nat)
    requires capacity > 0 && |ring| <= capacity && Ascending(ring + [d]) && IndexHolds(perBlock, ring)
    requires ring == [] ==> perBlock == map[]
    ensures IndexHolds(perBlock[d.block := d], Last(ring + [d], capacity))
  {
    var next := Last(ring + [d], capacity);
    var index := perBlock[d.block := d];
    var k := if |ring| == capacity then 1 else 0;
    assert next == (ring + [d])[k..];
    forall e | e in next ensures e.block in index && index[e.block] == e {
      var i :| 0 <= i < |next| && next[i] == e;
      PushedHeld(perBlock, ring, d, i + k);
    }
    hide Ascending;
    forall b | b in index && b >= next[0].block ensures index[b] in next {
      if b == d.block {
        assert next[|next| - 1] == d;
      } else {
        RetainedStays(perBlock, ring, d, k, b);
      }
    }
  }

  lemma PushedHeld(perBlock: map<u64, BlockDelta>, ring: seq<BlockDelta>, d: BlockDelta, i: nat)
    requires Ascending(ring + [d]) && IndexHolds(perBlock, ring) && i <= |ring|
    ensures var e := (ring + [d])[i]; e.block in perBlock[d.block := d] && perBlock[d.block := d][e.block] == e
  {
    var e := (ring + [d])[i];
    if i < |ring| {
      assert e == ring[i] && ring[i] in ring && (ring + [d])[|ring|] == d;
    }
  }

  lemma RetainedStays(perBlock: map<u64, BlockDelta>, ring: seq<BlockDelta>, d: BlockDelta, k: nat, b: u64)
    requires k <= |ring| && k <= 1 && Ascending(ring + [d]) && IndexHolds(perBlock, ring) && ring != []
    requires b in perBlock && b >= (ring + [d])[k].block
    ensures perBlock[b] in (ring + [d])[k..]
  {
    var all := ring + [d];
    assert all[0] == ring[0] && all[0].block <= all[k].block;
    var i :| 0 <= i < |ring| && ring[i] == perBlock[b];
    assert all[i] == ring[i];
    assert i >= k;
    assert all[k..][i - k] == ring[i];
  }

  lemma PruneIndex(perBlock: map<u64, BlockDelta>, ring: seq<BlockDelta>)
    requires Ascending(ring) && IndexHolds(perBlock, ring) && (ring == [] ==> perBlock == map[])
    ensures Indexes(Pruned(perBlock, ring), ring)
  {
    forall d | d in ring ensures d.block >= ring[0].block {
    }
  }

  /** Applying a block: pushed, indexed, pruned, and the head is the block. */
  function Applied(s: Snap, d: BlockDelta): Snap {
    var p := Pushed(s, d);
    p.(head := d.block, perBlock := Pruned(p.perBlock, p.ring))
  }

  /** After every applied block the index holds exactly what the ring retains. */
  lemma AppliedKeepsInv(s: Snap, d: BlockDelta)
    requires Inv(s) && d.block > s.head
    ensures Inv(Applied(s, d))
  {
    var p := Pushed(s, d);
    LastPush(s.log, d, s.capacity);
    assert Ascending(p.log);
    AscendingLast(p.log, s.capacity);
    AscendingAfter(s, d);
    PushIndex(s.perBlock, s.ring, d, s.capacity);
    PruneIndex(p.perBlock, p.ring);
  }

  /** The rest of what a block changes: the oldest delta goes when the ring is full, and the cached bundle stays. */
  lemma AppliedIs(s: Snap, d: BlockDelta)
    requires Inv(s)
    ensures var a := Applied(s, d);
      && a.capacity == s.capacity && a.head == d.block && a.cache == s.cache && a.log == s.log + [d]
      && a.ring == (if |s.ring| == s.capacity then s.ring[1..] else s.ring) + [d]
  {
    RingFits(s);
    hide Inv, Pruned, Last;
    PushIsLast(s.ring, d, s.capacity);
  }

  lemma AscendingLast(s: seq<BlockDelta>, n: nat)
    requires Ascending(s)
    ensures Ascending(Last(s, n))
  {
  }

  lemma AscendingAfter(s: Snap, d: BlockDelta)
    requires Inv(s) && Ascending(s.log + [d])
    ensures |s.ring| <= s.capacity && Ascending(s.ring + [d]) && IndexHolds(s.perBlock, s.ring)
    ensures s.ring == [] ==> s.perBlock == map[]
  {
    AscendingTailPush(s.log, d, s.capacity);
    hide Ascending, Last;
    assert s.ring == [] ==> forall b :: b !in s.perBlock;
  }

  class NodeState {
    const ring: DeltaRing
    /** The bundle bytes of the server at a block of this lineage. */
    const bundle: u64 -> seq<u8>
    var head: u64
    var perBlock: map<u64, BlockDelta>
    var cache: Option<Cached>
    ghost var log: seq<BlockDelta>

    ghost function Snapshot(): Snap
      reads this, ring
    {
      Snap(ring.capacity, head, ring.buf, perBlock, cache, log)
    }

    ghost predicate Valid()
      reads this, ring
    {
      Inv(Snapshot()) && (cache.Some? ==> cache.value.bytes == bundle(cache.value.block))
    }

    constructor (capacity: nat, head: u64, bundle: u64 -> seq<u8>)
      requires capacity > 0
      ensures Valid() && fresh(ring) && Snapshot() == Snap(capacity, head, [], map[], None, [])
    {
      this.ring := new DeltaRing(capacity);
      this.bundle := bundle;
      this.head, this.perBlock, this.cache := head, map[], None;
      this.log := [];
    }

    /** `applied` is what the wrapped server made of the block: its delta, or a refusal. */
    method ApplyBlock(applied: Option<BlockDelta>) returns (ok: bool)
      requires Valid() && (applied.Some? ==> applied.value.block > head)
      modifies this, ring
      ensures Valid() && ok == applied.Some?
      ensures Snapshot() == if applied.Some? then Applied(old(Snapshot()), applied.value) else old(Snapshot())
    {
      hide Inv, Pruned, Last;
      if applied.None? {
        return false;
      }
      var d := applied.value;
      ghost var before := Snapshot();
      AppliedKeepsInv(before, d);
      RingFits(before);
      head := d.block;
      PushIsLast(ring.buf, d, ring.capacity);
      ring.Push(d);
      log := log + [d];
      perBlock := perBlock[d.block := d];
      Prune();
      return true;
    }

    method Prune()
      modifies `perBlock
      ensures perBlock == Pruned(old(perBlock), ring.buf)
    {
      var oldest := ring.Oldest();
      if oldest.Some? {
        var stale := set b | b in perBlock && b < oldest.value;
        perBlock := map b | b in perBlock && b !in stale :: perBlock[b];
      }
    }

    /** Deltas replayed from the journal, none of them above the head. */
    method SeedHistory(deltas: seq<BlockDelta>)
      requires Valid() && Ascending(log + deltas) && forall d :: d in deltas ==> d.block <= head
      modifies this, ring
      ensures Valid() && head == old(head) && cache == old(cache)
      ensures log == old(log) + deltas
    {
      hide IndexHolds, Indexes, Ascending, Last;
      SeededNothing(Snapshot());
      for i := 0 to |deltas|
        invariant head == old(head) && cache == old(cache) && log == old(log) + deltas[..i]
        invariant Seeded(Snapshot())
      {
        var d := deltas[i];
        assert log + [d] == (old(log) + deltas)[..|log| + 1];
        AscendingPrefix(old(log) + deltas, |log| + 1);
        assert d in deltas;
        SeededPush(Snapshot(), d);
        PushIsLast(ring.buf, d, ring.capacity);
        ring.Push(d);
        log := log + [d];
        perBlock := perBlock[d.block := d];
        assert log == old(log) + deltas[..i + 1];
      }
      assert deltas[..|deltas|] == deltas;
      AscendingLast(log, ring.capacity);
      PruneIndex(perBlock, ring.buf);
      Prune();
    }

    /** The cached bundle while it is at most an eighth of the ring old, a new one otherwise. */
    method SetupBytes() returns (bytes: seq<u8>, block: u64)
      requires Valid()
      modifies this`cache
      ensures Valid() && bytes == bundle(block) && cache == Some(Cached(block, bytes))
      ensures block <= head && head - block <= ring.capacity / 8
      ensures block == if old(cache).Some? && head - old(cache).value.block <= ring.capacity / 8 then old(cache).value.block else head
    {
      var freshWindow := ring.capacity / 8;
      if cache.Some? && head - cache.value.block <= freshWindow {
        return cache.value.bytes, cache.value.block;
      }
      bytes, block := bundle(head), head;
      cache := Some(Cached(block, bytes));
    }

    method Sync(from: u64, to: u64) returns (r: Option<BlockDelta>)
      requires Valid()
      ensures r.Some? <==> from < to && Covers(ring.buf, from, to) && Addable(Selected(ring.buf, from, to))
      ensures r.Some? ==> IsCoalesced(Selected(ring.buf, from, to), r.value) && r.value.block == to
    {
      AscendingLast(log, ring.capacity);
      r := ring.Range(from, to);
    }
  }

  lemma PushIsLast(buf: seq<BlockDelta>, d: BlockDelta, capacity: nat)
    requires capacity > 0 && |buf| <= capacity
    ensures (if |buf| == capacity then buf[1..] else buf) + [d] == Last(buf + [d], capacity)
  {
  }

  /** `Inv` while the index has not been pruned yet. */
  ghost predicate Seeded(s: Snap) {
    && s.capacity > 0
    && Ascending(s.log) && (s.log != [] ==> s.log[|s.log| - 1].block <= s.head)
    && s.ring == Last(s.log, s.capacity) && IndexHolds(s.perBlock, s.ring) && (s.ring == [] ==> s.perBlock == map[])
    && (s.cache.Some? ==> s.cache.value.block <= s.head)
  }

  lemma SeededNothing(s: Snap)
    requires Inv(s)
    ensures Seeded(s)
  {
  }

  lemma RingFits(s: Snap)
    requires Inv(s)
    ensures |s.ring| <= s.capacity
  {
  }

  lemma AscendingPrefix(s: seq<BlockDelta>, n: nat)
    requires Ascending(s) && n <= |s|
    ensures Ascending(s[..n])
  {
  }

  lemma AscendingTailPush(log: seq<BlockDelta>, d: BlockDelta, capacity: nat)
    requires Ascending(log + [d])
    ensures Ascending(Last(log, capacity) + [d]) && |Last(log, capacity)| <= capacity
  {
    var k := if |log| <= capacity then 0 else |log| - capacity;
    assert Last(log, capacity) + [d] == (log + [d])[k..];
  }

  lemma SeededPush(s: Snap, d: BlockDelta)
    requires Seeded(s) && Ascending(s.log + [d]) && d.block <= s.head
    ensures Seeded(Pushed(s, d)) && |s.ring| <= s.capacity
  {
    hide Ascending, IndexHolds;
    LastPush(s.log, d, s.capacity);
    AscendingTailPush(s.log, d, s.capacity);
    PushIndex(s.perBlock, s.ring, d, s.capacity);
  }
}
