/**
 Hard-refresh corrections: `risepir-rpc/src/hard_refresh.rs`, and how they ride a block in the follow loop
 of `mainnet.rs` and the apply loop of `risepir-server/src/server.rs`.
 */
module HardRefresh {
  import opened Words
  import opened Wrappers
  import opened Ledger

  const MAX_CORRECTIONS_PER_BLOCK: nat := 2000
  const MAX_BALANCE: nat := 0x1_0000_0000_0000_0000 * 0x1_0000_0000_0000_0000

  // ----- Quorum and decision -----

  datatype Quorum = Agreed(balance: nat) | Disagreed | Errored

  function Decide(results: seq<Result<nat, ()>>): Quorum {
    if results == [] || exists r :: r in results && r.Err? then Errored
    else if forall r :: r in results ==> r.Ok? && r.value == results[0].value then Agreed(results[0].value)
    else Disagreed
  }

  /** Agreement means every provider that was asked, and at least one, gave exactly this balance. */
  lemma AgreedIffUnanimous(results: seq<Result<nat, ()>>, balance: nat)
    ensures Decide(results) == Agreed(balance) <==> results != [] && forall i :: 0 <= i < |results| ==> results[i] == Ok(balance)
    ensures Decide(results) == Errored <==> results == [] || exists i :: 0 <= i < |results| && results[i].Err?
  {
    if results != [] {
      assert results[0] in results;
      forall i | 0 <= i < |results| && results[i].Err? ensures exists r :: r in results && r.Err? {
        assert results[i] in results;
      }
      if Decide(results) == Agreed(balance) {
        forall i | 0 <= i < |results| ensures results[i] == Ok(balance) {
          assert results[i] in results;
        }
      }
      if Decide(results) == Errored {
        var r :| r in results && r.Err?;
        var i :| 0 <= i < |results| && results[i] == r;
      }
    }
  }

  datatype CheckOutcome = Skipped | SkippedDisagreement | AlreadyCorrect | Correct(newBalance: nat, oldBalance: nat)

  function DecideCorrection(q: Quorum, current: nat): (o: CheckOutcome)
    ensures o.Correct? <==> q.Agreed? && q.balance != current
    ensures o.Correct? ==> o.newBalance == q.balance && o.oldBalance == current
  {
    match q
    case Errored => Skipped
    case Disagreed => SkippedDisagreement
    case Agreed(value) => if value == current then AlreadyCorrect else Correct(value, current)
  }

  /** Each outcome exactly, over what the providers answered. */
  lemma EachOutcome(answers: seq<Result<nat, ()>>, current: nat)
    ensures var o := DecideCorrection(Decide(answers), current);
      var failed := answers == [] || exists i :: 0 <= i < |answers| && answers[i].Err?;
      && (o == Skipped <==> failed)
      && (o == SkippedDisagreement <==> !failed && exists i, j :: 0 <= i < j < |answers| && answers[i] != answers[j])
      && (o == AlreadyCorrect <==> answers != [] && forall i :: 0 <= i < |answers| ==> answers[i] == Ok(current))
      && (o.Correct? <==> !failed && answers[0] != Ok(current) && forall i :: 0 <= i < |answers| ==> answers[i] == answers[0])
      && (o.Correct? ==> Ok(o.newBalance) == answers[0] && o.oldBalance == current)
  {
    var q := Decide(answers);
    AgreedIffUnanimous(answers, current);
    if q.Agreed? {
      AgreedIffUnanimous(answers, q.balance);
    }
    if q.Disagreed? {
      var r :| r in answers && !(r.Ok? && r.value == answers[0].value);
      var j :| 0 <= j < |answers| && answers[j] == r;
      assert answers[0] != answers[j];
    }
  }

  datatype Correction = Correction(key: Key, balance: nat, baseline: nat)

  // ----- The queue -----

  class CorrectionQueue {
    var inner: seq<Correction>

    constructor ()
      ensures inner == []
    {
      inner := [];
    }

    method PushOne(c: Correction)
      modifies this
      ensures inner == old(inner) + [c]
    {
      inner := inner + [c];
    }

    method PushMany(cs: seq<Correction>)
      modifies this
      ensures inner == old(inner) + cs
    {
      inner := inner + cs;
    }

    /** The front of the queue, at most `max` of it, in order. */
    method DrainUpTo(max: nat) returns (drained: seq<Correction>)
      modifies this
      ensures drained + inner == old(inner) && |drained| == Min(max, |old(inner)|)
    {
      var n := Min(max, |inner|);
      drained := inner[..n];
      inner := inner[n..];
    }
  }

  /** The corrections whose baseline is still what the table holds. */
  function Surviving(t: Table, drained: seq<Correction>): seq<Correction> {
    if drained == [] then []
    else
      var n := |drained| - 1;
      Surviving(t, drained[..n]) + if BalanceOf(t, drained[n].key) == drained[n].baseline then [drained[n]] else []
  }

  method FilterStaleCorrections(t: Table, drained: seq<Correction>) returns (stillValid: seq<Correction>, stale: nat)
    ensures stillValid == Surviving(t, drained) && |stillValid| + stale == |drained|
  {
    stillValid, stale := [], 0;
    for i := 0 to |drained|
      invariant stillValid == Surviving(t, drained[..i]) && |stillValid| + stale == i
    {
      assert drained[..i + 1][..i] == drained[..i];
      var c := drained[i];
      if BalanceOf(t, c.key) == c.baseline {
        stillValid := stillValid + [c];
      } else {
        stale := stale + 1;
      }
    }
    assert drained[..|drained|] == drained;
  }

  lemma {:induction false} SurvivorsAreCurrent(t: Table, drained: seq<Correction>, c: Correction)
    ensures c in Surviving(t, drained) <==> c in drained && BalanceOf(t, c.key) == c.baseline
  {
    if drained != [] {
      SurvivorsAreCurrent(t, drained[..|drained| - 1], c);
      assert drained == drained[..|drained| - 1] + [drained[|drained| - 1]];
    }
  }

  function AsChanges(cs: seq<Correction>): (out: seq<Change>)
    ensures |out| == |cs|
  {
    seq(|cs|, i requires 0 <= i < |cs| => Change(cs[i].key, cs[i].balance))
  }

  /** Corrections first, so that the feed's own change for a key comes after and wins. */
  function PrependCorrections(cs: seq<Correction>, changes: seq<Change>): seq<Change> {
    AsChanges(cs) + changes
  }

  // ----- Applying a block -----

  /** A credit adds to whatever the changes left; an overflow refuses the block. */
  function ApplyCredits(t: Table, credits: seq<Change>): Option<Table> {
    if credits == [] then Some(t)
    else
      var n := |credits| - 1;
      match ApplyCredits(t, credits[..n])
      case None => None
      case Some(u) =>
        var credited := BalanceOf(u, credits[n].key) + credits[n].balance;
        if credited >= MAX_BALANCE then None else Some(ApplyChange(u, Change(credits[n].key, credited)))
  }

  function ApplyBlock(t: Table, changes: seq<Change>, credits: seq<Change>): Option<Table> {
    ApplyCredits(ApplyChanges(t, changes), credits)
  }

  function CreditFor(credits: seq<Change>, k: Key): nat {
    if credits == [] then 0
    else CreditFor(credits[..|credits| - 1], k) + if credits[|credits| - 1].key == k then credits[|credits| - 1].balance else 0
  }

  lemma {:induction false} CreditsAccumulate(t: Table, credits: seq<Change>, k: Key)
    requires ApplyCredits(t, credits).Some?
    ensures BalanceOf(ApplyCredits(t, credits).value, k) == BalanceOf(t, k) + CreditFor(credits, k)
  {
    if credits != [] {
      CreditsAccumulate(t, credits[..|credits| - 1], k);
    }
  }

  /** Adding the credits overflows exactly when some credited account would reach 2^128 in the end. */
  lemma {:induction false} CreditsFit(t: Table, credits: seq<Change>)
    ensures ApplyCredits(t, credits).Some? <==>
      forall c :: c in credits ==> BalanceOf(t, c.key) + CreditFor(credits, c.key) < Pow2(128)
  {
    hide Pow2;
    Pow2Values();
    Pow2Add(64, 64);
    if credits != [] {
      var n := |credits| - 1;
      var rest, last := credits[..n], credits[n];
      assert credits == rest + [last];
      CreditsFit(t, rest);
      if ApplyCredits(t, rest).Some? {
        CreditsAccumulate(t, rest, last.key);
      }
      forall c | c in rest ensures CreditFor(rest, c.key) <= CreditFor(credits, c.key) {
      }
    }
  }

  /**
   The credits a block applies. Without a complete table a credit counts only for an account the block changes
   or the table holds: what another one had before is not known.
   */
  function KeptCredits(complete: bool, t: Table, feed: seq<Change>, credits: seq<Change>): seq<Change> {
    if complete || credits == [] then credits
    else
      var n := |credits| - 1;
      KeptCredits(complete, t, feed, credits[..n]) + if Tracked(t, feed, credits[n].key) then [credits[n]] else []
  }

  predicate Tracked(t: Table, feed: seq<Change>, k: Key) {
    k in t || exists c :: c in feed && c.key == k
  }

  method FilterCredits(complete: bool, t: Table, feed: seq<Change>, credits: seq<Change>) returns (kept: seq<Change>)
    ensures kept == KeptCredits(complete, t, feed, credits)
  {
    if complete || credits == [] {
      return credits;
    }
    var changed := set c | c in feed :: c.key;
    kept := [];
    for i := 0 to |credits|
      invariant kept == KeptCredits(complete, t, feed, credits[..i])
    {
      assert credits[..i + 1][..i] == credits[..i];
      if credits[i].key in changed || credits[i].key in t {
        kept := kept + [credits[i]];
      }
    }
    assert credits[..|credits|] == credits;
  }

  lemma {:induction false} ChangedIsTracked(t: Table, feed: seq<Change>, k: Key)
    ensures LastFor(feed, k).Some? ==> Tracked(t, feed, k)
  {
    if feed != [] && feed[|feed| - 1].key != k {
      ChangedIsTracked(t, feed[..|feed| - 1], k);
    } else if feed != [] {
      assert feed[|feed| - 1] in feed;
    }
  }

  /** A tracked account gets all of its credits, and another one none, unless the table is complete. */
  lemma {:induction false} KeptCreditsFor(complete: bool, t: Table, feed: seq<Change>, credits: seq<Change>, k: Key)
    ensures CreditFor(KeptCredits(complete, t, feed, credits), k) ==
      if complete || Tracked(t, feed, k) then CreditFor(credits, k) else 0
  {
    if complete || credits == [] {
      NothingDropped(complete, t, feed, credits, k);
    } else {
      hide Tracked, CreditFor, KeptCredits;
      var n := |credits| - 1;
      var last, before := credits[n], KeptCredits(complete, t, feed, credits[..n]);
      KeptCreditsFor(complete, t, feed, credits[..n], k);
      KeptNext(t, feed, credits);
      CreditLast(credits, k);
      if Tracked(t, feed, last.key) {
        CreditPush(before, last, k);
      }
      if last.key == k {
        assert Tracked(t, feed, last.key) == Tracked(t, feed, k);
      }
    }
  }

  lemma CreditLast(credits: seq<Change>, k: Key)
    requires credits != []
    ensures var n := |credits| - 1;
      CreditFor(credits, k) == CreditFor(credits[..n], k) + if credits[n].key == k then credits[n].balance else 0
  {
  }

  lemma NothingDropped(complete: bool, t: Table, feed: seq<Change>, credits: seq<Change>, k: Key)
    requires complete || credits == []
    ensures KeptCredits(complete, t, feed, credits) == credits && (credits == [] ==> CreditFor(credits, k) == 0)
  {
  }

  lemma KeptNext(t: Table, feed: seq<Change>, credits: seq<Change>)
    requires credits != []
    ensures var n := |credits| - 1;
      var before := KeptCredits(false, t, feed, credits[..n]);
      KeptCredits(false, t, feed, credits) == if Tracked(t, feed, credits[n].key) then before + [credits[n]] else before
  {
    hide Tracked;
    var before := KeptCredits(false, t, feed, credits[..|credits| - 1]);
    assert before + [] == before;
  }

  lemma CreditPush(credits: seq<Change>, c: Change, k: Key)
    ensures CreditFor(credits + [c], k) == CreditFor(credits, k) + if c.key == k then c.balance else 0
  {
    assert (credits + [c])[..|credits|] == credits;
  }

  /** For every key: the feed's change if there is one, else the last surviving correction, else the old value; then credits. */
  lemma BlockOutcome(t: Table, corrections: seq<Correction>, feed: seq<Change>, credits: seq<Change>, k: Key)
    requires ApplyBlock(t, PrependCorrections(corrections, feed), credits).Some?
    ensures BalanceOf(ApplyBlock(t, PrependCorrections(corrections, feed), credits).value, k) ==
      (if LastFor(feed, k).Some? then LastFor(feed, k).value
       else if LastFor(AsChanges(corrections), k).Some? then LastFor(AsChanges(corrections), k).value
       else BalanceOf(t, k)) + CreditFor(credits, k)
  {
    LastChangeWins(t, PrependCorrections(corrections, feed), k);
    LastOfBoth(AsChanges(corrections), feed, k);
    CreditsAccumulate(ApplyChanges(t, PrependCorrections(corrections, feed)), credits, k);
  }

  // ----- What a correction replaces -----

  /** Decided against a value it differs from. */
  predicate Real(c: Correction) {
    c.balance != c.baseline
  }

  lemma {:induction false} LastAmong(cs: seq<Correction>, k: Key, v: nat)
    requires forall c :: c in cs && c.key == k ==> c.balance != v
    ensures LastFor(AsChanges(cs), k).None? <==> forall c :: c in cs ==> c.key != k
    ensures LastFor(AsChanges(cs), k).Some? ==> LastFor(AsChanges(cs), k).value != v
  {
    if cs != [] {
      var n := |cs| - 1;
      assert AsChanges(cs)[..n] == AsChanges(cs[..n]);
      assert cs == cs[..n] + [cs[n]] && cs[n] in cs;
      LastAmong(cs[..n], k, v);
    }
  }

  /**
   Within one block's batch, a survivor replaces exactly the value it was decided against if and only if no
   earlier survivor of the batch is for the same key: the staleness check looks at the table before the batch.
   */
  lemma ReplacesItsBaselineIff(t: Table, drained: seq<Correction>, i: nat)
    requires forall c :: c in drained ==> Real(c)
    requires i < |Surviving(t, drained)|
    ensures var s := Surviving(t, drained);
      BalanceOf(ApplyChanges(t, AsChanges(s[..i])), s[i].key) == s[i].baseline <==>
      forall c :: c in s[..i] ==> c.key != s[i].key
  {
    var s := Surviving(t, drained);
    var k := s[i].key;
    assert s[i] in s;
    SurvivorsAreCurrent(t, drained, s[i]);
    forall c | c in s[..i] && c.key == k ensures c.balance != s[i].baseline {
      assert c in s;
      SurvivorsAreCurrent(t, drained, c);
      assert Real(c);
    }
    LastAmong(s[..i], k, s[i].baseline);
    LastChangeWins(t, AsChanges(s[..i]), k);
  }

  /** Two checks of one address before either is applied: both survive, and the second replaces the first's value. */
  lemma DuplicateInBatch()
    ensures var t: Table := map[[1] := 5];
      var drained := [Correction([1], 6, 5), Correction([1], 7, 5)];
      && Surviving(t, drained) == drained
      && BalanceOf(ApplyChanges(t, AsChanges(drained[..1])), [1]) == 6 != drained[1].baseline
  {
    var t: Table := map[[1] := 5];
    var drained := [Correction([1], 6, 5), Correction([1], 7, 5)];
    assert drained[..1] == [drained[0]] && drained[..1][..0] == [];
    assert Surviving(t, drained[..1]) == [drained[0]];
    assert AsChanges(drained[..1]) == [Change([1], 6)] && AsChanges(drained[..1])[..0] == [];
    assert ApplyChanges(t, AsChanges(drained[..1])) == ApplyChange(t, Change([1], 6));
  }

  // ----- Runs -----

  /** A queued correction with the reads that justified it. */
  datatype Entry = Entry(correction: Correction, answers: seq<Result<nat, ()>>)

  datatype World = World(complete: bool, table: Table, pushed: seq<Entry>, taken: nat)

  datatype Event = Check(key: Key, answers: seq<Result<nat, ()>>) | Block(feed: seq<Change>, credits: seq<Change>)

  function Queue(w: World): seq<Correction>
    requires w.taken <= |w.pushed|
  {
    Corrections(w.pushed[w.taken..])
  }

  function Corrections(es: seq<Entry>): (cs: seq<Correction>)
    ensures |cs| == |es|
  {
    seq(|es|, i requires 0 <= i < |es| => es[i].correction)
  }

  function Drained(w: World): seq<Correction>
    requires w.taken <= |w.pushed|
  {
    Corrections(w.pushed[w.taken..w.taken + Min(MAX_CORRECTIONS_PER_BLOCK, |w.pushed| - w.taken)])
  }

  ghost predicate Step(w: World, e: Event, w': World) {
    w.taken <= |w.pushed|
    && match e
       case Check(key, answers) =>
         (match DecideCorrection(Decide(answers), BalanceOf(w.table, key))
          case Correct(agreed, current) => w' == w.(pushed := w.pushed + [Entry(Correction(key, agreed, current), answers)])
          case _ => w' == w)
       case Block(feed, credits) =>
         var survivors := Surviving(w.table, Drained(w));
         var applied := ApplyBlock(w.table, PrependCorrections(survivors, feed), KeptCredits(w.complete, w.table, feed, credits));
         applied.Some? && w' == w.(table := applied.value, taken := w.taken + |Drained(w)|)
  }

  ghost predicate Run(ws: seq<World>, es: seq<Event>) {
    |ws| == |es| + 1 && ws[0].pushed == [] && ws[0].taken == 0 && forall i :: 0 <= i < |es| ==> Step(ws[i], es[i], ws[i + 1])
  }

  /** Every queued correction came from a unanimous quorum, against a value it differs from. */
  ghost predicate Justified(e: Entry) {
    && Real(e.correction) && e.answers != []
    && forall i :: 0 <= i < |e.answers| ==> e.answers[i] == Ok(e.correction.balance)
  }

  ghost predicate Inv(w: World) {
    w.taken <= |w.pushed| && forall e :: e in w.pushed ==> Justified(e)
  }

  lemma StepKeepsInv(w: World, e: Event, w': World)
    requires Inv(w) && Step(w, e, w')
    ensures Inv(w') && w.taken <= w'.taken && w.pushed <= w'.pushed
  {
    if e.Check? {
      var q := Decide(e.answers);
      if q.Agreed? { AgreedIffUnanimous(e.answers, q.balance); }
    }
  }

  lemma {:induction false} RunKeepsInv(ws: seq<World>, es: seq<Event>, i: nat)
    requires Run(ws, es) && i < |ws|
    ensures Inv(ws[i])
  {
    if i > 0 {
      RunKeepsInv(ws, es, i - 1);
      StepKeepsInv(ws[i - 1], es[i - 1], ws[i]);
    }
  }

  lemma DrainedWasPushed(w: World, c: Correction)
    requires w.taken <= |w.pushed| && c in Drained(w)
    ensures exists e :: e in w.pushed && e.correction == c
  {
    var j :| 0 <= j < |Drained(w)| && Drained(w)[j] == c;
    assert w.pushed[w.taken + j] in w.pushed && w.pushed[w.taken + j].correction == c;
  }

  /** The drained are the front of the queue, at most the cap, and the rest stays. */
  lemma QueueSplits(w: World, e: Event, w': World)
    requires Step(w, e, w') && e.Block?
    ensures w'.taken <= |w'.pushed| && |Drained(w)| <= MAX_CORRECTIONS_PER_BLOCK
    ensures Drained(w) + Queue(w') == Queue(w)
    ensures Corrections(w'.pushed[..w'.taken]) + Queue(w') == Corrections(w'.pushed)
  {
    hide ApplyBlock, Surviving, PrependCorrections, KeptCredits;
    var n := Min(MAX_CORRECTIONS_PER_BLOCK, |w.pushed| - w.taken);
    assert w'.taken == w.taken + n && w'.pushed == w.pushed;
  }

  lemma BlockForKey(w: World, e: Event, w': World, k: Key)
    requires Step(w, e, w') && e.Block?
    ensures LastFor(e.feed, k).Some? ==> BalanceOf(w'.table, k) == LastFor(e.feed, k).value + CreditFor(e.credits, k)
    ensures (!w.complete && !Tracked(w.table, e.feed, k) && LastFor(AsChanges(Surviving(w.table, Drained(w))), k).None?) ==>
      BalanceOf(w'.table, k) == 0
  {
    hide ApplyBlock, Surviving, PrependCorrections, KeptCredits, LastFor, CreditFor, Drained;
    var kept := KeptCredits(w.complete, w.table, e.feed, e.credits);
    BlockOutcome(w.table, Surviving(w.table, Drained(w)), e.feed, kept, k);
    KeptCreditsFor(w.complete, w.table, e.feed, e.credits, k);
    ChangedIsTracked(w.table, e.feed, k);
  }

  /**
   At every block of every run: what is drained is the front of the queue, at most the cap, and the rest stays
   queued in order; each survivor was agreed by every provider and is current; the feed's own change wins; and
   without a complete table, credits alone never bring an account in.
   */
  lemma EveryBlock(ws: seq<World>, es: seq<Event>, i: nat, k: Key)
    requires Run(ws, es) && i < |es| && es[i].Block?
    ensures Inv(ws[i]) && Inv(ws[i + 1])
    ensures var w, w' := ws[i], ws[i + 1];
      && |Drained(w)| <= MAX_CORRECTIONS_PER_BLOCK
      && Drained(w) + Queue(w') == Queue(w)
      && Corrections(w'.pushed[..w'.taken]) + Queue(w') == Corrections(w'.pushed)
    ensures var w := ws[i];
      forall c :: c in Surviving(w.table, Drained(w)) ==>
        && BalanceOf(w.table, c.key) == c.baseline
        && exists e :: e in w.pushed && e.correction == c && Justified(e)
    ensures LastFor(es[i].feed, k).Some? ==>
      BalanceOf(ws[i + 1].table, k) == LastFor(es[i].feed, k).value + CreditFor(es[i].credits, k)
    ensures var w := ws[i];
      (!w.complete && !Tracked(w.table, es[i].feed, k) && LastFor(AsChanges(Surviving(w.table, Drained(w))), k).None?) ==>
        BalanceOf(ws[i + 1].table, k) == 0
  {
    hide Step, Surviving, Justified, LastFor, CreditFor, Tracked;
    RunKeepsInv(ws, es, i);
    RunKeepsInv(ws, es, i + 1);
    assert Step(ws[i], es[i], ws[i + 1]);
    var w := ws[i];
    QueueSplits(w, es[i], ws[i + 1]);
    BlockForKey(w, es[i], ws[i + 1], k);
    hide Queue, Corrections;
    forall c | c in Surviving(w.table, Drained(w))
      ensures BalanceOf(w.table, c.key) == c.baseline && exists e :: e in w.pushed && e.correction == c && Justified(e)
    {
      SurvivorsAreCurrent(w.table, Drained(w), c);
      DrainedWasPushed(w, c);
    }
  }

  /** In every run, a correction replaces the very value it was decided against unless its own batch repeats the key. */
  lemma EveryReplacement(ws: seq<World>, es: seq<Event>, i: nat, j: nat)
    requires Run(ws, es) && i < |es| && es[i].Block?
    requires ws[i].taken <= |ws[i].pushed| && j < |Surviving(ws[i].table, Drained(ws[i]))|
    ensures var t := ws[i].table;
      var s := Surviving(t, Drained(ws[i]));
      BalanceOf(ApplyChanges(t, AsChanges(s[..j])), s[j].key) == s[j].baseline <==>
      forall c :: c in s[..j] ==> c.key != s[j].key
  {
    RunKeepsInv(ws, es, i);
    var w := ws[i];
    forall c | c in Drained(w) ensures Real(c) {
      var n :| 0 <= n < |Drained(w)| && Drained(w)[n] == c;
      assert w.pushed[w.taken + n] in w.pushed;
      assert Justified(w.pushed[w.taken + n]);
    }
    ReplacesItsBaselineIff(w.table, Drained(w), j);
  }
}
