/** The journal at work: what is acknowledged, what every append and rotation does, and that progress is made. */
module AutosaveProgress {
  import opened Wrappers
  import opened Autosave
  import opened AutosaveRuns

  /** Nothing parked, a sound writer at the head, and everything up to the head promised. */
  ghost predicate Current<S, D>(l: Laws<S, D>, w: World<S, D>) {
    && Inv(l, w) && w.pending.None? && !w.rotating && !w.saver.journalBroken
    && w.saver.journal == Some(w.head) && w.durable == w.head && w.disk.base.Some?
  }

  /** A current world recovers its head. */
  lemma CurrentRecoversHead<S, D>(l: Laws<S, D>, w: World<S, D>)
    requires Current(l, w)
    ensures w.head in w.history && w.durable == w.head
    ensures Restore(l.apply, l.digest, w.disk) == RestoredAt(Recovered(w.head, w.history[w.head]))
  {
    RecoveredAt(l, w);
  }

  /** A save and a good rotation make the world current, whatever the journal was; a parked append changes nothing. */
  lemma SavedIsCurrent<S, D>(l: Laws<S, D>, w: World<S, D>, force: bool, w1: World<S, D>, w2: World<S, D>)
    requires Inv(l, w) && !w.saver.journalBroken
    requires Step(l, w, SaveBase(force), w1) && Step(l, w1, Rotate(Rotated), w2)
    ensures w2.head == w.head && w2.history == w.history
    ensures w.pending.None? ==> Current(l, w2)
    ensures forall io, w3 :: Step(l, w2, Append(io), w3) ==> Current(l, w3) && w3.head == w.head && w3.history == w.history
  {
    SaveBaseKeepsInv(l, w, force, w1);
    RotateKeepsInv(l, w1, Rotated, w2);
    forall io, w3 | Step(l, w2, Append(io), w3) ensures Current(l, w3) {
      AppendKeepsInv(l, w2, io, w3);
    }
  }

  /** One block, applied and written to the journal, and the world is current at the next height. */
  lemma OneBlock<S, D>(l: Laws<S, D>, w: World<S, D>, d: D, w1: World<S, D>, w2: World<S, D>)
    requires Current(l, w) && Step(l, w, Apply(d), w1) && Step(l, w1, Append(Written), w2)
    ensures Current(l, w2) && w2.head == w.head + 1
    ensures w2.disk.base == w.disk.base
  {
    ApplyKeepsInv(l, w, d, w1);
    AppendKeepsInv(l, w1, Written, w2);
  }

  /** The follow loop on a good disk. */
  function Blocks<D>(ds: seq<D>): (es: seq<Event<D>>)
    ensures |es| == 2 * |ds|
  {
    if ds == [] then [] else Blocks(ds[..|ds| - 1]) + [Apply(ds[|ds| - 1]), Append(Written)]
  }

  ghost predicate Follows<S, D>(l: Laws<S, D>, ws: seq<World<S, D>>, es: seq<Event<D>>) {
    |ws| == |es| + 1 && forall i :: 0 <= i < |es| ==> Step(l, ws[i], es[i], ws[i + 1])
  }

  lemma {:induction false} BlocksStayCurrent<S, D>(l: Laws<S, D>, ws: seq<World<S, D>>, ds: seq<D>)
    requires Follows(l, ws, Blocks(ds)) && Current(l, ws[0])
    ensures Current(l, ws[2 * |ds|]) && ws[2 * |ds|].head == ws[0].head + |ds|
  {
    hide Current, Step;
    if ds != [] {
      var n := |ds| - 1;
      var es := Blocks(ds);
      assert es[..2 * n] == Blocks(ds[..n]) && es[2 * n] == Apply(ds[n]) && es[2 * n + 1] == Append(Written);
      forall i | 0 <= i < 2 * n ensures Step(l, ws[..2 * n + 1][i], Blocks(ds[..n])[i], ws[..2 * n + 1][i + 1]) {
        assert Step(l, ws[i], es[i], ws[i + 1]);
      }
      BlocksStayCurrent(l, ws[..2 * n + 1], ds[..n]);
      assert Step(l, ws[2 * n], es[2 * n], ws[2 * n + 1]);
      assert Step(l, ws[2 * n + 1], es[2 * n + 1], ws[2 * n + 1 + 1]);
      OneBlock(l, ws[2 * n], ds[n], ws[2 * n + 1], ws[2 * n + 2]);
    }
  }

  /**
   Progress. While the journal is not broken, a save whose rotation works makes every later block that is written
   count: after any number of them the whole of the head is promised, and is what a crash recovers.
   */
  lemma SavedThenEveryBlockCounts<S, D>(l: Laws<S, D>, w: World<S, D>, force: bool, w1: World<S, D>, ws: seq<World<S, D>>, ds: seq<D>)
    requires Inv(l, w) && !w.saver.journalBroken && w.pending.None?
    requires Step(l, w, SaveBase(force), w1) && Follows(l, ws, Blocks(ds)) && Step(l, w1, Rotate(Rotated), ws[0])
    ensures var last := ws[2 * |ds|];
      && last.head == w.head + |ds| && last.durable == last.head && last.head in last.history
      && Restore(l.apply, l.digest, last.disk) == RestoredAt(Recovered(last.head, last.history[last.head]))
  {
    hide Step, Inv, Restore, Current, Blocks;
    SavedIsCurrent(l, w, force, w1, ws[0]);
    BlocksStayCurrent(l, ws, ds);
    CurrentRecoversHead(l, ws[2 * |ds|]);
  }

  // ----- Every outcome of an append and of a rotation -----

  /** Without a sound writer, or for a block it already has, an append does nothing at all. */
  lemma IdleAppend<S, D>(l: Laws<S, D>, w: World<S, D>, io: AppendIo, w': World<S, D>)
    requires Inv(l, w) && Step(l, w, Append(io), w')
    requires w.saver.journal.None? || w.pending.value.block <= w.saver.journal.value
    ensures w' == w.(pending := None)
  {
  }

  /**
   The writer takes exactly the next block. A good write adds its record and acknowledges it; a failed one leaves
   what it left on disk, acknowledges nothing, and breaks the journal.
   */
  lemma LiveAppend<S, D>(l: Laws<S, D>, w: World<S, D>, io: AppendIo, w': World<S, D>)
    requires Inv(l, w) && Step(l, w, Append(io), w')
    requires w.saver.journal.Some? && w.pending.value.block > w.saver.journal.value
    ensures w.disk.journal.Some? && w'.disk.journal.Some? && w'.disk.base == w.disk.base
    ensures w'.head == w.head && w'.history == w.history && w'.pending.None? && w'.saver.lastSavedBlock == w.saver.lastSavedBlock
    ensures w.pending.value.block == w.saver.journal.value + 1
    ensures w'.disk.journal.value.records ==
      if io == Written || io == FailedWhole then w.disk.journal.value.records + [w.pending.value] else w.disk.journal.value.records
    ensures w'.disk.journal.value.torn <==> io == FailedTorn
    ensures io == Written ==>
      && w'.saver.journal == Some(w.pending.value.block) && !w'.saver.journalBroken
      && w'.saver.recordsSinceSave == w.saver.recordsSinceSave + 1 && w'.durable == w.pending.value.block
    ensures io != Written ==> w'.saver.journal.None? && w'.saver.journalBroken && w'.durable == w.durable
  {
  }

  /** A rotation replaces the journal by an empty one for the new base, unless it fails before the rename or the journal is broken. */
  lemma EveryRotation<S, D>(l: Laws<S, D>, w: World<S, D>, io: RotateIo, w': World<S, D>)
    requires Inv(l, w) && Step(l, w, Rotate(io), w')
    ensures w'.disk.base == w.disk.base && w'.head == w.head && w'.durable == w.durable && !w'.rotating
    ensures w'.saver.journalBroken == w.saver.journalBroken && w'.saver.lastSavedBlock == w.saver.lastSavedBlock
    ensures w'.disk.journal ==
      if w.saver.journalBroken || io == NotRenamed then w.disk.journal
      else Some(JournalFile(l.digest(w.disk.base.value.block, w.disk.base.value.state), w.disk.base.value.block, [], false))
    ensures w'.saver.journal == if !w.saver.journalBroken && io == Rotated then Some(w.disk.base.value.block) else None
    ensures w'.saver.recordsSinceSave == if !w.saver.journalBroken && io == Rotated then 0 else w.saver.recordsSinceSave
  {
  }
}
