/**
 Crash consistency of the state file and its journal, over every interleaving of applied blocks, appends
 parked behind a save, saves, rotations that fail on either side of the rename, and crashes, one between
 base rename and rotation included.
 */
module AutosaveRuns {
  import opened Words
  import opened Wrappers
  import opened Autosave

  /**
   `history` is every state the process has been in, by height. `pending` is the applied block whose append
   is still parked; `rotating` says that a base has been renamed into place and its rotation is still to come.
   `durable` is the highest block a completed save or an acknowledged append has promised to keep.
   */
  datatype World<S, D> = World(
    head: nat,
    history: map<nat, S>,
    pending: Option<Record<D>>,
    saver: Saver,
    rotating: bool,
    disk: Disk<S, D>,
    durable: nat)

  datatype Event<D> =
    | Apply(delta: D)
    | Append(io: AppendIo)
    | SaveBase(force: bool)
    | Rotate(rotation: RotateIo)
    | Crash(adopted: bool)

  /** What the blocks do to the state, and the content hash of a state file. */
  datatype Laws<!S, !D> = Laws(apply: (S, D) -> Option<S>, digest: (nat, S) -> nat)

  /** The follow loop applies the next block, if the server takes it; it does not start on another before this one's append. */
  ghost predicate Applies<S, D>(l: Laws<S, D>, w: World<S, D>, d: D, w': World<S, D>) {
    && w.pending.None? && w.head in w.history && l.apply(w.history[w.head], d).Some?
    && w' == w.(head := w.head + 1, history := w.history[w.head + 1 := l.apply(w.history[w.head], d).value],
                pending := Some(Record(w.head + 1, d)))
  }

  /** The parked append gets the lock, which no save may hold. */
  ghost predicate Appends<S, D>(w: World<S, D>, io: AppendIo, w': World<S, D>) {
    && w.pending.Some? && !w.rotating
    && var r := w.pending.value;
       var written := AppendSaver(w.saver, r.block, io).journal == Some(r.block) && w.saver.journal != Some(r.block);
       w' == w.(pending := None, saver := AppendSaver(w.saver, r.block, io), disk := AppendDisk(w.saver, w.disk, r, io),
                durable := if written then Max(w.durable, r.block) else w.durable)
  }

  /** A save reaches the rename of the new base. */
  ghost predicate SavesBase<S, D>(w: World<S, D>, force: bool, w': World<S, D>) {
    && !w.rotating && w.head in w.history && (force || w.saver.lastSavedBlock != Some(w.head))
    && w' == w.(disk := w.disk.(base := Some(Base(w.head, w.history[w.head]))), rotating := true,
                saver := w.saver.(lastSavedBlock := Some(w.head)), durable := Max(w.durable, w.head))
  }

  ghost predicate Rotates<S, D>(l: Laws<S, D>, w: World<S, D>, io: RotateIo, w': World<S, D>) {
    && w.rotating && w.disk.base.Some?
    && var b := w.disk.base.value;
       w' == w.(rotating := false, saver := RotateSaver(w.saver, b.block, io),
                disk := RotateDisk(w.saver, w.disk, l.digest(b.block, b.state), b.block, io))
  }

  /** A crash, and the restart from what is on disk; a matching journal is appended to again if it reopens. */
  ghost predicate Crashes<S, D>(l: Laws<S, D>, w: World<S, D>, adopted: bool, w': World<S, D>) {
    && w.disk.base.Some? && Restore(l.apply, l.digest, w.disk).RestoredAt?
    && var at := Restore(l.apply, l.digest, w.disk).at;
       var writer := adopted && w.disk.journal.Some? && BoundTo(l.digest, w.disk.journal.value, w.disk.base.value);
       && w'.head == at.block && w'.history == (map h | h in w.history && h <= at.block :: w.history[h])[at.block := at.state]
       && w'.pending == None && !w'.rotating && w'.durable == w.durable
       && w'.saver == Saver(Some(w.disk.base.value.block), if writer then Some(at.block) else None, false, 0)
       && w'.disk == if writer then w.disk.(journal := Some(w.disk.journal.value.(torn := false))) else w.disk
  }

  ghost predicate Step<S, D>(l: Laws<S, D>, w: World<S, D>, e: Event<D>, w': World<S, D>) {
    match e
    case Apply(d) => Applies(l, w, d, w')
    case Append(io) => Appends(w, io, w')
    case SaveBase(force) => SavesBase(w, force, w')
    case Rotate(io) => Rotates(l, w, io, w')
    case Crash(adopted) => Crashes(l, w, adopted, w')
  }

  /** A first save has landed, or nothing is on disk yet. */
  ghost predicate Init<S, D>(l: Laws<S, D>, w: World<S, D>) {
    && w.history.Keys == {w.head} && w.pending.None? && !w.rotating && !w.saver.journalBroken
    && if w.disk.base.None? then w.disk.journal.None? && w.saver.journal.None? && w.durable == 0
       else
         && w.disk.base == Some(Base(w.head, w.history[w.head])) && w.durable == w.head
         && (w.disk.journal.Some? ==>
               w.disk.journal.value == JournalFile(l.digest(w.head, w.history[w.head]), w.head, [], false))
         && (w.saver.journal.Some? ==> w.disk.journal.Some? && w.saver.journal == Some(w.head))
  }

  ghost predicate Run<S, D>(l: Laws<S, D>, ws: seq<World<S, D>>, es: seq<Event<D>>) {
    |ws| == |es| + 1 && Init(l, ws[0]) && forall i :: 0 <= i < |es| ==> Step(l, ws[i], es[i], ws[i + 1])
  }

  // ----- The invariant -----

  /** The records lead from the base, one height each, through states the process has really been in. */
  ghost predicate Chain<S, D>(l: Laws<S, D>, history: map<nat, S>, head: nat, base: nat, records: seq<Record<D>>) {
    base + |records| <= head && forall i :: 0 <= i < |records| ==> Link(l, history, base + i, records[i])
  }

  ghost predicate Link<S, D>(l: Laws<S, D>, history: map<nat, S>, from: nat, r: Record<D>) {
    && r.block == from + 1 && from in history && from + 1 in history
    && l.apply(history[from], r.delta) == Some(history[from + 1])
  }

  /** A journal is for this base, and true, or for an older base and will be ignored. */
  ghost predicate JournalOk<S, D>(l: Laws<S, D>, w: World<S, D>) {
    w.disk.journal.Some? ==>
      && w.disk.base.Some? && w.disk.journal.value.baseBlock <= w.disk.base.value.block
      && (w.disk.journal.value.baseBlock == w.disk.base.value.block ==>
            && BoundTo(l.digest, w.disk.journal.value, w.disk.base.value)
            && Chain(l, w.history, w.head, w.disk.base.value.block, w.disk.journal.value.records))
  }

  /** A writer that is not about to be replaced appends to this base's journal, at the head or one short of it. */
  ghost predicate WriterOk<S, D>(w: World<S, D>) {
    w.saver.journal.Some? && !w.rotating ==>
      && w.disk.journal.Some? && w.disk.base.Some? && !w.disk.journal.value.torn
      && w.disk.journal.value.baseBlock == w.disk.base.value.block
      && w.saver.journal.value == w.disk.base.value.block + |w.disk.journal.value.records|
      && (w.saver.journal.value == w.head || (w.pending.Some? && w.saver.journal.value + 1 == w.head))
  }

  ghost predicate BaseOk<S, D>(w: World<S, D>) {
    && w.head in w.history && w.durable <= w.head
    && (w.disk.base.Some? ==>
          && w.disk.base.value.block <= w.head && w.disk.base.value.block in w.history
          && w.history[w.disk.base.value.block] == w.disk.base.value.state)
    && (w.disk.base.None? ==> w.durable == 0 && !w.rotating)
    && (w.rotating ==> w.durable <= w.disk.base.value.block && (w.disk.base.value.block == w.head || w.disk.base.value.block + 1 == w.head))
    && (w.rotating && w.disk.base.value.block != w.head ==> w.pending.Some?)
  }

  ghost predicate PendingOk<S, D>(l: Laws<S, D>, w: World<S, D>) {
    w.pending.Some? ==> w.head > 0 && Link(l, w.history, w.head - 1, w.pending.value)
  }

  /** Everything promised is in the base or in the journal that goes with it. */
  ghost predicate DurableOk<S, D>(w: World<S, D>) {
    w.disk.base.Some? && w.durable > w.disk.base.value.block ==>
      && w.disk.journal.Some? && w.disk.journal.value.baseBlock == w.disk.base.value.block
      && w.durable <= w.disk.base.value.block + |w.disk.journal.value.records|
  }

  ghost predicate Inv<S, D>(l: Laws<S, D>, w: World<S, D>) {
    && BaseOk(w) && JournalOk(l, w) && WriterOk(w) && PendingOk(l, w) && DurableOk(w)
    && (w.saver.journalBroken ==> w.saver.journal.None?)
  }

  lemma ChainGrows<S, D>(l: Laws<S, D>, history: map<nat, S>, head: nat, base: nat, records: seq<Record<D>>, s: S)
    requires Chain(l, history, head, base, records)
    ensures Chain(l, history[head + 1 := s], head + 1, base, records)
  {
    forall i | 0 <= i < |records| ensures Link(l, history[head + 1 := s], base + i, records[i]) {
      assert Link(l, history, base + i, records[i]);
    }
  }

  lemma ApplyKeepsInv<S, D>(l: Laws<S, D>, w: World<S, D>, d: D, w': World<S, D>)
    requires Inv(l, w) && Applies(l, w, d, w')
    ensures Inv(l, w')
  {
    if w.disk.journal.Some? && w.disk.journal.value.baseBlock == w.disk.base.value.block {
      ChainGrows(l, w.history, w.head, w.disk.base.value.block, w.disk.journal.value.records, l.apply(w.history[w.head], d).value);
    }
  }

  lemma ChainPush<S, D>(l: Laws<S, D>, history: map<nat, S>, head: nat, base: nat, records: seq<Record<D>>, r: Record<D>)
    requires Chain(l, history, head, base, records) && base + |records| < head && Link(l, history, base + |records|, r)
    ensures Chain(l, history, head, base, records + [r])
  {
  }

  lemma AppendKeepsInv<S, D>(l: Laws<S, D>, w: World<S, D>, io: AppendIo, w': World<S, D>)
    requires Inv(l, w) && Appends(w, io, w')
    ensures Inv(l, w')
  {
    if w.saver.journal.Some? && w.saver.journal.value + 1 == w.head {
      ChainPush(l, w.history, w.head, w.disk.base.value.block, w.disk.journal.value.records, w.pending.value);
    }
  }

  lemma SaveBaseKeepsInv<S, D>(l: Laws<S, D>, w: World<S, D>, force: bool, w': World<S, D>)
    requires Inv(l, w) && SavesBase(w, force, w')
    ensures Inv(l, w')
  {
  }

  lemma RotateKeepsInv<S, D>(l: Laws<S, D>, w: World<S, D>, io: RotateIo, w': World<S, D>)
    requires Inv(l, w) && Rotates(l, w, io, w')
    ensures Inv(l, w')
  {
  }

  // ----- Recovery -----

  lemma {:induction false} ReplayFollowsHistory<S, D>(l: Laws<S, D>, history: map<nat, S>, head: nat, base: nat, records: seq<Record<D>>, state: S)
    requires Chain(l, history, head, base, records) && base in history && history[base] == state
    ensures base + |records| in history
    ensures Replay(l.apply, Recovered(base, state), records) == RestoredAt(Recovered(base + |records|, history[base + |records|]))
    decreases |records|
  {
    if records != [] {
      assert Link(l, history, base + 0, records[0]);
      forall i | 0 <= i < |records| - 1 ensures Link(l, history, base + 1 + i, records[1..][i]) {
        assert Link(l, history, base + (i + 1), records[i + 1]);
      }
      ReplayFollowsHistory(l, history, head, base + 1, records[1..], history[base + 1]);
    }
  }

  /**
   What a restart finds is a state the server really was in, no older than the base and with nothing
   promised missing: no block is skipped, and a journal that goes with another base does no harm.
   */
  lemma RecoveryIsReal<S, D>(l: Laws<S, D>, w: World<S, D>)
    requires Inv(l, w) && w.disk.base.Some?
    ensures var r := Restore(l.apply, l.digest, w.disk);
      && r.RestoredAt? && r.at.block in w.history && r.at.state == w.history[r.at.block]
      && w.disk.base.value.block <= r.at.block <= w.head && w.durable <= r.at.block
  {
    RecoveredAt(l, w);
  }

  /** The height recovered: the end of the journal that goes with the base, or the base alone. */
  function RecoveredHeight<S, D>(disk: Disk<S, D>): nat
    requires disk.base.Some?
  {
    if disk.journal.Some? && disk.journal.value.baseBlock == disk.base.value.block
    then disk.base.value.block + |disk.journal.value.records| else disk.base.value.block
  }

  lemma RecoveredAt<S, D>(l: Laws<S, D>, w: World<S, D>)
    requires Inv(l, w) && w.disk.base.Some?
    ensures RecoveredHeight(w.disk) in w.history
    ensures Restore(l.apply, l.digest, w.disk) == RestoredAt(Recovered(RecoveredHeight(w.disk), w.history[RecoveredHeight(w.disk)]))
  {
    var base := w.disk.base.value;
    if w.disk.journal.Some? && w.disk.journal.value.baseBlock == base.block {
      ReplayFollowsHistory(l, w.history, w.head, base.block, w.disk.journal.value.records, base.state);
    }
  }

  lemma CrashKeepsInv<S, D>(l: Laws<S, D>, w: World<S, D>, adopted: bool, w': World<S, D>)
    requires Inv(l, w) && Crashes(l, w, adopted, w')
    ensures Inv(l, w')
  {
    RecoveredAt(l, w);
    if w.disk.journal.Some? && w.disk.journal.value.baseBlock == w.disk.base.value.block {
      var base, records := w.disk.base.value.block, w.disk.journal.value.records;
      forall i | 0 <= i < |records| ensures Link(l, w'.history, base + i, records[i]) {
        assert Link(l, w.history, base + i, records[i]);
      }
    }
  }

  lemma StepKeepsInv<S, D>(l: Laws<S, D>, w: World<S, D>, e: Event<D>, w': World<S, D>)
    requires Inv(l, w) && Step(l, w, e, w')
    ensures Inv(l, w')
  {
    hide Inv, Applies, Appends, SavesBase, Rotates, Crashes;
    match e
    case Apply(d) => ApplyKeepsInv(l, w, d, w');
    case Append(io) => AppendKeepsInv(l, w, io, w');
    case SaveBase(force) => SaveBaseKeepsInv(l, w, force, w');
    case Rotate(io) => RotateKeepsInv(l, w, io, w');
    case Crash(adopted) => CrashKeepsInv(l, w, adopted, w');
  }

  lemma InitInv<S, D>(l: Laws<S, D>, w: World<S, D>)
    requires Init(l, w)
    ensures Inv(l, w)
  {
    assert w.head in w.history.Keys;
  }

  lemma {:induction false} RunKeepsInv<S, D>(l: Laws<S, D>, ws: seq<World<S, D>>, es: seq<Event<D>>, i: nat)
    requires Run(l, ws, es) && i < |ws|
    ensures Inv(l, ws[i])
  {
    hide Inv, Step, Init;
    if i == 0 {
      InitInv(l, ws[0]);
    } else {
      RunKeepsInv(l, ws, es, i - 1);
      StepKeepsInv(l, ws[i - 1], es[i - 1], ws[i]);
    }
  }

  /** Crash consistency: at every point of every run, whenever the power goes. */
  lemma CrashConsistency<S, D>(l: Laws<S, D>, ws: seq<World<S, D>>, es: seq<Event<D>>, i: nat)
    requires Run(l, ws, es) && i < |ws| && ws[i].disk.base.Some?
    ensures var w := ws[i];
      var r := Restore(l.apply, l.digest, w.disk);
      && r.RestoredAt? && r.at.block in w.history && r.at.state == w.history[r.at.block]
      && w.disk.base.value.block <= r.at.block <= w.head && w.durable <= r.at.block
  {
    hide Inv, Run;
    RunKeepsInv(l, ws, es, i);
    RecoveryIsReal(l, ws[i]);
  }

  /** A refused append is always for a block the base already holds: nothing is ever missing in between. */
  lemma OnlyBackwardGaps<S, D>(l: Laws<S, D>, ws: seq<World<S, D>>, es: seq<Event<D>>, i: nat)
    requires Run(l, ws, es) && i < |ws| && ws[i].pending.Some? && !ws[i].rotating && ws[i].saver.journal.Some?
    ensures var w := ws[i];
      && w.pending.value.block <= w.saver.journal.value + 1
      && (w.pending.value.block != w.saver.journal.value + 1 ==>
            w.disk.base.Some? && w.pending.value.block <= RecoveredHeight(w.disk))
  {
    hide Run;
    RunKeepsInv(l, ws, es, i);
  }

  /** A broken journal stays off, through every save, until the process is started again. */
  lemma BrokenStaysBroken<S, D>(l: Laws<S, D>, w: World<S, D>, e: Event<D>, w': World<S, D>)
    requires Inv(l, w) && Step(l, w, e, w') && !e.Crash? && w.saver.journalBroken
    ensures w'.saver.journalBroken && w'.saver.journal.None? && w'.disk.journal == w.disk.journal
  {
  }
}
