/**
 Hard-refresh corrections against the chain itself. The providers are asked at one height, fixed when the run
 starts; the current value is read later, and the correction lands later still.
 */
module RefreshHeights {
  import opened Wrappers
  import opened Ledger
  import opened HardRefresh

  /** What really happened in one block. */
  datatype Happening = Happening(feed: seq<Change>, credits: seq<Change>)

  /** The true balances at every height, and the block that leads to each: `blocks[n]` takes `chain[n]` to `chain[n + 1]`. */
  ghost predicate TrueChain(chain: seq<Table>, blocks: seq<Happening>) {
    |chain| == |blocks| + 1 && forall n :: 0 <= n < |blocks| ==> Leads(chain[n], blocks[n], chain[n + 1])
  }

  ghost predicate Leads(t: Table, b: Happening, t': Table) {
    ApplyBlock(t, b.feed, b.credits) == Some(t')
  }

  /** The block changes or credits `k`. */
  predicate Mentions(b: Happening, k: Key) {
    LastFor(b.feed, k).Some? || CreditFor(b.credits, k) > 0
  }

  lemma TrueStep(t: Table, b: Happening, t': Table, k: Key)
    requires Leads(t, b, t')
    ensures BalanceOf(t', k) == (if LastFor(b.feed, k).Some? then LastFor(b.feed, k).value else BalanceOf(t, k)) + CreditFor(b.credits, k)
  {
    assert PrependCorrections([], b.feed) == b.feed;
    BlockOutcome(t, [], b.feed, b.credits, k);
  }

  /**
   The last surviving correction for a key, agreed at height `asked` by providers that tell the truth, lands
   with block `n`. Unless the block itself sets the key, the balance is then the true one if and only if the
   true balance just before that block was still what the providers gave.
   */
  lemma LandsTrueIff(chain: seq<Table>, blocks: seq<Happening>, asked: nat, n: nat, t: Table, survivors: seq<Correction>, k: Key, t': Table)
    requires TrueChain(chain, blocks) && asked <= n < |blocks|
    requires LastFor(AsChanges(survivors), k) == Some(BalanceOf(chain[asked], k))
    requires ApplyBlock(t, PrependCorrections(survivors, blocks[n].feed), blocks[n].credits) == Some(t')
    ensures BalanceOf(t', k) == BalanceOf(chain[n + 1], k) <==>
      LastFor(blocks[n].feed, k).Some? || BalanceOf(chain[asked], k) == BalanceOf(chain[n], k)
  {
    assert Leads(chain[n], blocks[n], chain[n + 1]);
    BlockOutcome(t, survivors, blocks[n].feed, blocks[n].credits, k);
    TrueStep(chain[n], blocks[n], chain[n + 1], k);
  }

  /** In particular it lands right if no block in between mentions the key. */
  lemma {:induction false} NothingBetween(chain: seq<Table>, blocks: seq<Happening>, asked: nat, n: nat, k: Key)
    requires TrueChain(chain, blocks) && asked <= n <= |blocks|
    requires forall m :: asked <= m < n ==> !Mentions(blocks[m], k)
    ensures BalanceOf(chain[asked], k) == BalanceOf(chain[n], k)
    decreases n
  {
    if asked < n {
      NothingBetween(chain, blocks, asked, n - 1, k);
      assert Leads(chain[n - 1], blocks[n - 1], chain[n - 1 + 1]);
      TrueStep(chain[n - 1], blocks[n - 1], chain[n], k);
    }
  }

  function At(balance: nat): Table {
    map[[1] := balance]
  }

  /** The four worlds of a late read. */
  function Before(): World {
    World(true, At(5), [], 0)
  }

  function Moved(): World {
    World(true, At(7), [], 0)
  }

  function Checked(): World {
    World(true, At(7), [Entry(Correction([1], 5, 7), [Ok(5)])], 0)
  }

  function Overwritten(): World {
    World(true, At(5), Checked().pushed, 1)
  }

  /**
   A run that corrects a right balance into a wrong one: asked at height 0, where the balance is 5, the providers
   all tell the truth; block 1 makes it 7; the check then reads 7, and its correction back to 5 survives.
   */
  lemma LateRead()
    ensures TrueChain([At(5), At(7), At(7)], [Happening([Change([1], 7)], []), Happening([], [])])
    ensures Run([Before(), Moved(), Checked(), Overwritten()],
                [Block([Change([1], 7)], []), Check([1], [Ok(BalanceOf(At(5), [1]))]), Block([], [])])
    ensures Checked().table == At(7) && Overwritten().table != At(7)
  {
    hide Step, Leads;
    TheBlock();
    TheCheck();
    TheCorrection();
    assert At(5)[[1]] == 5 && At(7)[[1]] == 7;
    var ws := [Before(), Moved(), Checked(), Overwritten()];
    var es := [Block([Change([1], 7)], []), Check([1], [Ok(5)]), Block([], [])];
    forall i | 0 <= i < 3 ensures Step(ws[i], es[i], ws[i + 1]) {
    }
  }

  lemma OneChange(t: Table, c: Change)
    ensures ApplyChanges(t, [c]) == ApplyChange(t, c)
  {
    assert [c][..0] == [];
  }

  lemma TheBlock()
    ensures Leads(At(5), Happening([Change([1], 7)], []), At(7)) && Leads(At(7), Happening([], []), At(7))
    ensures Step(Before(), Block([Change([1], 7)], []), Moved())
  {
    var change := Change([1], 7);
    OneChange(At(5), change);
    assert ApplyChange(At(5), change) == At(7);
    assert Drained(Before()) == [] && PrependCorrections([], [change]) == [change];
  }

  lemma TheCheck()
    ensures Step(Moved(), Check([1], [Ok(5)]), Checked())
  {
    AgreedIffUnanimous([Ok(5)], 5);
  }

  lemma TheCorrection()
    ensures Step(Checked(), Block([], []), Overwritten())
  {
    var c := Correction([1], 5, 7);
    assert Drained(Checked()) == [c];
    OneSurvives(c);
    hide Surviving, ApplyChanges, Drained;
    OneChange(At(7), Change([1], 5));
    assert ApplyChange(At(7), Change([1], 5)) == At(5);
    assert PrependCorrections([c], []) == [Change([1], 5)];
  }

  lemma OneSurvives(c: Correction)
    requires c == Correction([1], 5, 7)
    ensures Surviving(At(7), [c]) == [c]
  {
    assert [c][..0] == [];
  }
}
