/** Balances by key and the absolute changes a block makes to them. */
module Ledger {
  import opened Words
  import opened Wrappers

  type Key = seq<u8>
  /** The nonzero balances; a key that is absent has balance zero. */
  type Table = map<Key, nat>

  function BalanceOf(t: Table, k: Key): nat {
    if k in t then t[k] else 0
  }

  datatype Change = Change(key: Key, balance: nat)

  /** One absolute change; zero is a deletion. */
  function ApplyChange(t: Table, c: Change): Table {
    if c.balance == 0 then t - {c.key} else t[c.key := c.balance]
  }

  function ApplyChanges(t: Table, cs: seq<Change>): Table {
    if cs == [] then t else ApplyChange(ApplyChanges(t, cs[..|cs| - 1]), cs[|cs| - 1])
  }

  /** The last value given to `k`, if any. */
  function LastFor(cs: seq<Change>, k: Key): Option<nat> {
    if cs == [] then None
    else if cs[|cs| - 1].key == k then Some(cs[|cs| - 1].balance)
    else LastFor(cs[..|cs| - 1], k)
  }

  lemma {:induction false} LastChangeWins(t: Table, cs: seq<Change>, k: Key)
    ensures BalanceOf(ApplyChanges(t, cs), k) == if LastFor(cs, k).Some? then LastFor(cs, k).value else BalanceOf(t, k)
  {
    if cs != [] {
      LastChangeWins(t, cs[..|cs| - 1], k);
    }
  }

  lemma {:induction false} LastOfBoth(a: seq<Change>, b: seq<Change>, k: Key)
    ensures LastFor(a + b, k) == if LastFor(b, k).Some? then LastFor(b, k) else LastFor(a, k)
  {
    if b == [] {
      assert a + b == a;
    } else {
      assert (a + b)[..|a + b| - 1] == a + b[..|b| - 1];
      LastOfBoth(a, b[..|b| - 1], k);
    }
  }
}
