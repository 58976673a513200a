/** The mock chain feed of `risepir-feed/src/lib.rs`: an exact oracle for the stream it emits. */
module MockFeed {
  import opened Words
  import opened Ledger
  import opened Rng

  // ----- Balances -----

  /** `(raw & (2^bits - 1)) | 2^(bits - 1)`: a random value of exactly `bits` bits. */
  function Scaled(raw: nat, bits: nat): nat
    requires bits >= 1
  {
    Or(And(raw, Pow2(bits) - 1), Pow2(bits - 1))
  }

  lemma ScaledRange(raw: nat, bits: nat)
    requires bits >= 1
    ensures Pow2(bits - 1) <= Scaled(raw, bits) < Pow2(bits)
  {
    hide Or, And, Xor;
    AndMask(raw, bits);
    BitwiseBounds(raw % Pow2(bits), Pow2(bits - 1), bits);
  }

  /** Exactly `bits` bits: the top one set, the others from the raw value. */
  lemma ScaledIs(raw: nat, bits: nat)
    requires bits >= 1
    ensures Scaled(raw, bits) == Pow2(bits - 1) + raw % Pow2(bits - 1)
  {
    hide Or, And, Xor, Pow2;
    AndMask(raw, bits);
    TopBit(raw, bits);
  }

  function Low(x: nat, n: nat): nat {
    x % Pow2(n)
  }

  lemma LowHalf(x: nat, n: nat)
    requires n > 0
    ensures Low(x, n) == 2 * Low(x / 2, n - 1) + x % 2
  {
    ModHalf(x, n);
  }

  lemma {:induction false} TopBit(raw: nat, bits: nat)
    requires bits >= 1
    ensures Or(Low(raw, bits), Pow2(bits - 1)) == Pow2(bits - 1) + Low(raw, bits - 1)
  {
    hide Or, Pow2, Low;
    if bits == 1 {
      LastBit(raw);
    } else {
      TopBit(raw / 2, bits - 1);
      LowHalf(raw, bits);
      LowHalf(raw, bits - 1);
      PowerHalf(bits - 1);
      OrEven(Low(raw / 2, bits - 1), raw % 2, Pow2(bits - 2));
    }
  }

  lemma LastBit(raw: nat)
    ensures Or(Low(raw, 1), Pow2(0)) == Pow2(0) + Low(raw, 0)
  {
    OrOne(raw % 2);
  }

  lemma PowerHalf(n: nat)
    requires n > 0
    ensures Pow2(n) == 2 * Pow2(n - 1)
  {
  }

  lemma OrOne(bit: nat)
    requires bit <= 1
    ensures Or(bit, 1) == 1
  {
    OrZero(0);
  }

  lemma OrEven(x: nat, low: nat, y: nat)
    requires low <= 1 && y > 0
    ensures Or(2 * x + low, 2 * y) == 2 * Or(x, y) + low
  {
    assert (2 * x + low) / 2 == x && (2 * x + low) % 2 == low;
  }

  /** A magnitude between `low` and `high` bits stays between those powers of two. */
  lemma ScaledWithin(raw: nat, bits: nat, low: nat, high: nat)
    requires 1 <= low <= bits <= high
    ensures Pow2(low - 1) <= Scaled(raw, bits) < Pow2(high)
  {
    hide Scaled, Pow2;
    ScaledRange(raw, bits);
    Pow2Monotone(low - 1, bits - 1);
    Pow2Monotone(bits, high);
  }

  /** The generator's state after `n` draws. */
  function After(state: u64, n: nat): u64 {
    if n == 0 then state else WrappingAdd(After(state, n - 1), GAMMA)
  }

  /** `2^top` and `top` bits of `raw` below it. */
  function Magnitude(raw: nat, top: nat): nat {
    Pow2(top) + raw % Pow2(top)
  }

  /** A balance of 40 to 89 bits: the first draw decides how many, the next two are the bits. */
  method RandomBalance(rng: SplitMix64) returns (balance: nat)
    modifies rng
    ensures var s := old(rng.state);
      && rng.state == After(s, 3)
      && balance == Magnitude(Mix(After(s, 3)) * TWO_64 + Mix(After(s, 2)), 39 + Mix(After(s, 1)) % 50)
    ensures Pow2(39) <= balance < Pow2(89) && balance >= 1
  {
    hide Scaled, Pow2, Mix, WrappingAdd;
    ghost var s := rng.state;
    assert After(s, 1) == WrappingAdd(s, GAMMA);
    var draw := rng.NextU64();
    var bits: nat := 40 + draw % 50;
    var lo := rng.NextU64();
    var hi := rng.NextU64();
    var raw: nat := hi * TWO_64 + lo;
    ScaledWithin(raw, bits, 40, 89);
    ScaledIs(raw, bits);
    balance := Max(Scaled(raw, bits), 1);
  }

  const BALANCE_CAP: nat := 0x1_0000_0000_0000_0000 * 0x1_0000_0000

  lemma CapIsPow2()
    ensures Pow2(96) == BALANCE_CAP
  {
    Pow2Values();
    Pow2Add(64, 32);
  }

  /** A move of 43 to 63 bits up or down, as the last draw decides, stopped only at the ends of `[1, 2^96)`. */
  method Perturb(rng: SplitMix64, old_: nat) returns (balance: nat)
    requires 1 <= old_ < BALANCE_CAP
    modifies rng
    ensures var s := old(rng.state);
      var amount := Magnitude(Mix(After(s, 2)), 42 + Mix(After(s, 1)) % 21);
      && rng.state == After(s, 3)
      && balance == if Mix(After(s, 3)) % 2 == 0 then Min(old_ + amount, BALANCE_CAP - 1) else Max(old_ - amount, 1)
    ensures 1 <= balance < BALANCE_CAP
    ensures Mix(rng.state) % 2 == 0 ==> old_ <= balance && (Pow2(42) <= balance - old_ < Pow2(63) || balance == BALANCE_CAP - 1)
    ensures Mix(rng.state) % 2 == 1 ==> balance <= old_ && (Pow2(42) <= old_ - balance < Pow2(63) || balance == 1)
    ensures Abs(balance - old_) < Pow2(63)
  {
    hide Scaled, Pow2, Mix, WrappingAdd;
    ghost var s := rng.state;
    assert After(s, 1) == WrappingAdd(s, GAMMA);
    var draw := rng.NextU64();
    var dbits: nat := 43 + draw % 21;
    var lo := rng.NextU64();
    ScaledWithin(lo, dbits, 43, 63);
    ScaledIs(lo, dbits);
    var amount := Max(Scaled(lo, dbits), 1);
    var coin := rng.NextU64();
    var moved := if coin % 2 == 0 then Min(old_ + amount, BALANCE_CAP - 1) else Max(old_ - amount, 0);
    balance := Max(moved, 1);
  }

  // ----- The live set -----

  predicate Distinct(live: seq<Key>) {
    forall i, j :: 0 <= i < j < |live| ==> live[i] != live[j]
  }

  /** `live` lists the keys of the table, each once. */
  ghost predicate Lists(live: seq<Key>, t: Table) {
    Distinct(live) && forall k :: k in live <==> k in t
  }

  predicate InRange(t: Table) {
    forall k :: k in t ==> 1 <= t[k] < BALANCE_CAP
  }

  /** `a` is the address of one of the first `n` ids. */
  ghost predicate Generated(a: Key, n: nat) {
    exists id: u64 :: id < n && AddressFor(id) == a
  }

  ghost predicate AllGenerated(t: Table, n: nat) {
    forall k :: k in t ==> Generated(k, n)
  }

  /** Removes element `i` by moving the last one into its place. */
  function SwapRemove(live: seq<Key>, i: nat): seq<Key>
    requires i < |live|
  {
    if i == |live| - 1 then live[..i] else live[..|live| - 1][i := live[|live| - 1]]
  }

  lemma SwapRemoveLists(live: seq<Key>, t: Table, i: nat)
    requires i < |live| && Lists(live, t)
    ensures Lists(SwapRemove(live, i), t - {live[i]})
  {
    var n := |live| - 1;
    var out := SwapRemove(live, i);
    forall k ensures k in out <==> k in t - {live[i]} {
      if k in t && k != live[i] {
        assert k in live;
        var j :| 0 <= j < |live| && live[j] == k;
        if j < n { assert out[j] == k; } else { assert out[i] == k; }
      }
      if k in out {
        var j :| 0 <= j < |out| && out[j] == k;
        assert k == if j == i then live[n] else live[j];
        assert k in live;
      }
    }
  }

  lemma PushLists(live: seq<Key>, t: Table, a: Key, balance: nat)
    requires Lists(live, t) && a !in t
    ensures Lists(live + [a], t[a := balance])
  {
  }

  /** An id not used yet gives an address not used yet, by any key live now or ever. */
  lemma FreshAddress(n: u64)
    ensures !Generated(AddressFor(n), n)
  {
    if Generated(AddressFor(n), n) {
      var id: u64 :| id < n && AddressFor(n) == AddressFor(id);
      AddressInjective(n, id);
      assert false;
    }
  }

  lemma GeneratedMonotone(a: Key, m: nat, n: nat)
    requires m <= n && Generated(a, m)
    ensures Generated(a, n)
  {
    var id: u64 :| id < m && AddressFor(id) == a;
  }

  lemma GeneratedGrows(t: Table, n: u64, balance: nat)
    requires AllGenerated(t, n)
    ensures AllGenerated(t[AddressFor(n) := balance], n + 1)
  {
    var grown, next := t[AddressFor(n) := balance], n + 1;
    forall k | k in grown ensures Generated(k, next) {
      if k in t {
        GeneratedMonotone(k, n, next);
      } else {
        assert k == AddressFor(n);
      }
    }
  }

  /** The live list, the table and the id counter belong together. */
  ghost predicate Coherent(live: seq<Key>, t: Table, n: nat) {
    Lists(live, t) && InRange(t) && AllGenerated(t, n)
  }

  lemma DeleteKeeps(live: seq<Key>, t: Table, n: nat, i: nat)
    requires Coherent(live, t, n) && i < |live|
    ensures Coherent(SwapRemove(live, i), ApplyChange(t, Change(live[i], 0)), n)
  {
    hide Generated;
    SwapRemoveLists(live, t, i);
  }

  lemma InsertKeeps(live: seq<Key>, t: Table, n: u64, balance: nat)
    requires Coherent(live, t, n) && 1 <= balance < BALANCE_CAP
    ensures Coherent(live + [AddressFor(n)], ApplyChange(t, Change(AddressFor(n), balance)), n + 1)
    ensures !Generated(AddressFor(n), n)
  {
    hide Generated, AddressFor;
    FreshAddress(n);
    PushLists(live, t, AddressFor(n), balance);
    GeneratedGrows(t, n, balance);
  }

  lemma UpdateKeeps(live: seq<Key>, t: Table, n: nat, i: nat, balance: nat)
    requires Coherent(live, t, n) && i < |live| && 1 <= balance < BALANCE_CAP
    ensures Coherent(live, ApplyChange(t, Change(live[i], balance)), n)
  {
    hide Generated;
    assert live[i] in live;
  }

  lemma LiveInRange(live: seq<Key>, t: Table, n: nat, i: nat)
    requires Coherent(live, t, n) && i < |live|
    ensures live[i] in t && 1 <= t[live[i]] < BALANCE_CAP
  {
    assert live[i] in live;
  }

  datatype MockConfig = MockConfig(seed: u64, numGenesisKeys: u64, changesPerBlock: nat, insertsPerBlock: nat, deletesPerBlock: nat)

  datatype BlockUpdate = BlockUpdate(block: nat, changes: seq<Change>)

  lemma ApplyPush(t: Table, cs: seq<Change>, c: Change)
    ensures ApplyChanges(t, cs + [c]) == ApplyChange(ApplyChanges(t, cs), c)
  {
    assert (cs + [c])[..|cs|] == cs;
  }

  lemma {:induction false} ApplyConcat(t: Table, a: seq<Change>, b: seq<Change>)
    ensures ApplyChanges(t, a + b) == ApplyChanges(ApplyChanges(t, a), b)
  {
    if b == [] {
      assert a + b == a;
    } else {
      ApplyConcat(t, a, b[..|b| - 1]);
      assert (a + b)[..|a + b| - 1] == a + b[..|b| - 1];
    }
  }

  class MockFeed {
    const cfg: MockConfig
    const rng: SplitMix64
    var live: seq<Key>
    var balances: Table
    var block: nat
    var nextId: nat
    /** The table at block 0, and every change emitted since. */
    ghost var genesis: Table
    ghost var emitted: seq<Change>

    /** The balances are the replay of the emitted stream, and `live` lists them. */
    ghost predicate Valid()
      reads this
    {
      balances == ApplyChanges(genesis, emitted) && Coherent(live, balances, nextId)
    }

    constructor (cfg: MockConfig)
      requires cfg.changesPerBlock >= cfg.insertsPerBlock + cfg.deletesPerBlock
      ensures Valid() && fresh(rng) && this.cfg == cfg && block == 0 && nextId == cfg.numGenesisKeys
      ensures emitted == [] && |live| == cfg.numGenesisKeys
      ensures forall k :: k in balances <==> Generated(k, cfg.numGenesisKeys)
    {
      hide Coherent, AddressFor, Generated, Pow2;
      var generator := new SplitMix64(cfg.seed);
      var keys: seq<Key>, table: Table := [], map[];
      NothingYet();
      for id := 0 to cfg.numGenesisKeys
        invariant Coherent(keys, table, id) && |keys| == id
        invariant forall k: u64 :: k < id ==> AddressFor(k) in table
        invariant fresh(generator)
      {
        var addr := MakeAddress(id);
        var balance := RandomBalance(generator);
        RandomFits(balance);
        InsertKeeps(keys, table, id, balance);
        keys := keys + [addr];
        table := table[addr := balance];
      }
      this.cfg, rng, live, balances, block, nextId := cfg, generator, keys, table, 0, cfg.numGenesisKeys;
      genesis, emitted := table, [];
      ExactlyGenerated(keys, table, cfg.numGenesisKeys);
    }

    function BalanceFor(addr: Key): nat
      reads this
    {
      BalanceOf(balances, addr)
    }

    method Delete(i: nat) returns (c: Change)
      requires Valid() && i < |live|
      modifies this`live, this`balances, this`emitted
      ensures Valid() && |live| == |old(live)| - 1
      ensures c == Change(old(live[i]), 0) && emitted == old(emitted) + [c]
    {
      hide Coherent, ApplyChanges, Pow2;
      var a := live[i];
      c := Change(a, 0);
      DeleteKeeps(live, balances, nextId, i);
      ApplyPush(genesis, emitted, c);
      live := SwapRemove(live, i);
      balances := balances - {a};
      emitted := emitted + [c];
    }

    method Insert() returns (c: Change)
      requires Valid() && nextId < TWO_64
      modifies this`live, this`balances, this`emitted, this`nextId, rng
      ensures Valid() && nextId == old(nextId) + 1 && |live| == |old(live)| + 1
      ensures c.key == AddressFor(old(nextId)) && !Generated(c.key, old(nextId)) && 1 <= c.balance < BALANCE_CAP
      ensures emitted == old(emitted) + [c]
    {
      hide Coherent, ApplyChanges, AddressFor, Generated, Pow2;
      var id: u64 := nextId;
      var a := MakeAddress(id);
      var balance := RandomBalance(rng);
      RandomFits(balance);
      InsertKeeps(live, balances, id, balance);
      c := Change(a, balance);
      ApplyPush(genesis, emitted, c);
      nextId := nextId + 1;
      live := live + [a];
      balances := balances[a := balance];
      emitted := emitted + [c];
    }

    method Update(i: nat) returns (c: Change)
      requires Valid() && i < |live|
      modifies this`balances, this`emitted, rng
      ensures Valid()
      ensures c.key == live[i] && 1 <= c.balance < BALANCE_CAP && emitted == old(emitted) + [c]
    {
      hide Coherent, ApplyChanges, Pow2;
      var a := live[i];
      LiveInRange(live, balances, nextId, i);
      var balance := Perturb(rng, balances[a]);
      c := Change(a, balance);
      UpdateKeeps(live, balances, nextId, i, balance);
      ApplyPush(genesis, emitted, c);
      balances := balances[a := balance];
      emitted := emitted + [c];
    }

    /** Swap-removes random live keys, each emitted as a balance of zero. */
    method Deletes() returns (changes: seq<Change>)
      requires Valid()
      modifies this`live, this`balances, this`emitted, rng
      ensures Valid() && emitted == old(emitted) + changes
      ensures |changes| == Min(cfg.deletesPerBlock, |old(live)|) && |live| == |old(live)| - |changes|
      ensures forall c :: c in changes ==> c.balance == 0
    {
      hide ApplyChanges, Coherent, Pow2, Mix, WrappingAdd;
      changes := [];
      while |changes| < cfg.deletesPerBlock && live != []
        invariant Valid() && emitted == old(emitted) + changes
        invariant |changes| <= cfg.deletesPerBlock && |live| == |old(live)| - |changes|
        invariant forall c :: c in changes ==> c.balance == 0
      {
        var draw := rng.NextU64();
        var c := Delete(draw % |live|);
        Assoc(old(emitted), changes, [c]);
        changes := changes + [c];
      }
    }

    /** Fresh ids, with new balances. */
    method Inserts() returns (changes: seq<Change>)
      requires Valid() && nextId + cfg.insertsPerBlock <= TWO_64
      modifies this`live, this`balances, this`emitted, this`nextId, rng
      ensures Valid() && emitted == old(emitted) + changes && nextId == old(nextId) + cfg.insertsPerBlock
      ensures |changes| == cfg.insertsPerBlock && |live| == |old(live)| + cfg.insertsPerBlock
      ensures forall i :: 0 <= i < |changes| ==> IsInsert(changes[i], old(nextId), i)
    {
      hide ApplyChanges, Coherent, Pow2, IsInsert, AddressFor, Generated;
      changes := [];
      for k := 0 to cfg.insertsPerBlock
        invariant Valid() && emitted == old(emitted) + changes && nextId == old(nextId) + k
        invariant |changes| == k && |live| == |old(live)| + k
        invariant forall i :: 0 <= i < k ==> IsInsert(changes[i], old(nextId), i)
      {
        var c := Insert();
        NewInsert(c, old(nextId), k);
        Assoc(old(emitted), changes, [c]);
        changes := changes + [c];
      }
    }

    /** Perturbs random live keys, with replacement. */
    method Updates(n: nat) returns (changes: seq<Change>)
      requires Valid()
      modifies this`balances, this`emitted, rng
      ensures Valid() && emitted == old(emitted) + changes
      ensures |changes| == if live == [] then 0 else n
      ensures forall c :: c in changes ==> 1 <= c.balance < BALANCE_CAP
    {
      hide ApplyChanges, Coherent, Pow2, Mix, WrappingAdd;
      changes := [];
      while |changes| < n && live != []
        invariant Valid() && emitted == old(emitted) + changes && |changes| <= n
        invariant live == [] ==> changes == []
        invariant forall c :: c in changes ==> 1 <= c.balance < BALANCE_CAP
      {
        var draw := rng.NextU64();
        var c := Update(draw % |live|);
        Assoc(old(emitted), changes, [c]);
        changes := changes + [c];
      }
    }

    /**
     One block: deletes, then inserts of fresh ids, then updates. What is emitted, replayed over the genesis
     snapshot, is exactly what `balance_of` answers from.
     */
    method NextBlock() returns (update: BlockUpdate)
      requires Valid() && nextId + cfg.insertsPerBlock <= TWO_64
      modifies this, rng
      ensures Valid() && genesis == old(genesis)
      ensures block == old(block) + 1 == update.block && nextId == old(nextId) + cfg.insertsPerBlock
      ensures emitted == old(emitted) + update.changes
      ensures balances == ApplyChanges(old(balances), update.changes)
      ensures BlockShape(update.changes, Min(cfg.deletesPerBlock, |old(live)|), cfg.insertsPerBlock, old(nextId))
      ensures |live| == |old(live)| - Min(cfg.deletesPerBlock, |old(live)|) + cfg.insertsPerBlock
      ensures live != [] && cfg.changesPerBlock >= cfg.insertsPerBlock + cfg.deletesPerBlock ==>
        |update.changes| == cfg.changesPerBlock
    {
      hide ApplyChanges, Coherent, Pow2, IsInsert, BlockShape;
      block := block + 1;
      var deleted := Deletes();
      var inserted := Inserts();
      var updated := Updates(Max(Max(cfg.changesPerBlock - |deleted|, 0) - cfg.insertsPerBlock, 0));
      var changes := deleted + inserted + updated;
      assert emitted == old(emitted) + changes by {
        Assoc(old(emitted), deleted, inserted);
        Assoc(old(emitted), deleted + inserted, updated);
      }
      ApplyConcat(genesis, old(emitted), changes);
      ShapeOf(deleted, inserted, updated, old(nextId));
      update := BlockUpdate(block, changes);
    }
  }

  /** The `i`-th insert of a block that starts at id `first`: a key never generated before, with a live balance. */
  ghost predicate IsInsert(c: Change, first: nat, i: nat) {
    && first + i < TWO_64 && c.key == AddressFor(first + i) && !Generated(c.key, first)
    && 1 <= c.balance < BALANCE_CAP
  }

  /** `d` deletes, then `n` inserts of ids from `first` on, then updates that leave a live balance. */
  ghost predicate BlockShape(changes: seq<Change>, d: nat, n: nat, first: nat) {
    && d + n <= |changes|
    && (forall i :: 0 <= i < d ==> changes[i].balance == 0)
    && (forall i :: d <= i < d + n ==> IsInsert(changes[i], first, i - d))
    && (forall i :: d + n <= i < |changes| ==> 1 <= changes[i].balance < BALANCE_CAP)
  }

  lemma ShapeOf(deleted: seq<Change>, inserted: seq<Change>, updated: seq<Change>, first: nat)
    requires forall c :: c in deleted ==> c.balance == 0
    requires forall i :: 0 <= i < |inserted| ==> IsInsert(inserted[i], first, i)
    requires forall c :: c in updated ==> 1 <= c.balance < BALANCE_CAP
    ensures BlockShape(deleted + inserted + updated, |deleted|, |inserted|, first)
  {
    hide IsInsert;
    var changes := deleted + inserted + updated;
    forall i | |deleted| <= i < |deleted| + |inserted| ensures IsInsert(changes[i], first, i - |deleted|) {
      assert changes[i] == inserted[i - |deleted|];
    }
  }

  lemma NewInsert(c: Change, first: nat, i: nat)
    requires first + i < TWO_64 && c.key == AddressFor(first + i) && 1 <= c.balance < BALANCE_CAP
    ensures IsInsert(c, first, i)
  {
    hide Generated, AddressFor;
    NotGeneratedBefore(first + i, first);
  }

  lemma RandomFits(balance: nat)
    requires balance < Pow2(89)
    ensures balance < BALANCE_CAP
  {
    CapIsPow2();
    Pow2Monotone(89, 96);
  }

  /** A later id's address was not among the earlier ones either. */
  lemma NotGeneratedBefore(n: nat, before: nat)
    requires before <= n < TWO_64
    ensures !Generated(AddressFor(n), before)
  {
    hide Generated;
    if Generated(AddressFor(n), before) { GeneratedMonotone(AddressFor(n), before, n); }
    FreshAddress(n);
  }

  lemma NothingYet()
    ensures Coherent([], map[], 0)
  {
  }

  lemma ExactlyGenerated(live: seq<Key>, t: Table, n: nat)
    requires Coherent(live, t, n) && forall k: u64 :: k < n ==> AddressFor(k) in t
    ensures forall k :: k in t <==> Generated(k, n)
  {
    hide AddressFor;
  }

  /** After any number of blocks, the oracle's answer for any key is its last emitted balance, or the genesis one. */
  method Follow(feed: MockFeed, blocks: nat, key: Key) returns (stream: seq<Change>)
    requires feed.Valid() && feed.nextId + blocks * feed.cfg.insertsPerBlock <= TWO_64
    modifies feed, feed.rng
    ensures feed.Valid() && feed.block == old(feed.block) + blocks
    ensures feed.balances == ApplyChanges(old(feed.balances), stream)
    ensures feed.BalanceFor(key) == if LastFor(stream, key).Some? then LastFor(stream, key).value else old(feed.BalanceFor(key))
  {
    hide ApplyChanges;
    stream := [];
    NoChanges(feed.balances);
    for b := 0 to blocks
      invariant feed.Valid() && feed.block == old(feed.block) + b
      invariant feed.nextId + (blocks - b) * feed.cfg.insertsPerBlock <= TWO_64
      invariant feed.balances == ApplyChanges(old(feed.balances), stream)
    {
      OneBlockLess(blocks - b, feed.cfg.insertsPerBlock);
      var update := feed.NextBlock();
      ApplyConcat(old(feed.balances), stream, update.changes);
      stream := stream + update.changes;
    }
    LastChangeWins(old(feed.balances), stream, key);
  }

  lemma NoChanges(t: Table)
    ensures ApplyChanges(t, []) == t
  {
  }

  lemma OneBlockLess(blocks: nat, inserts: nat)
    requires blocks > 0
    ensures blocks * inserts == (blocks - 1) * inserts + inserts
    ensures blocks * inserts >= inserts
  {
    assert (blocks - 1) * inserts >= 0;
  }
}
