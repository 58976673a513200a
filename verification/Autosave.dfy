/**
 State saves and the delta journal beside them: `risepir-rpc/src/autosave.rs` over the file contract of
 `journal.rs` and the restore of `state.rs`. What I/O does is a parameter; `digest` is the content hash a
 journal is bound to, which is not part of this model.
 */
module Autosave {
  import opened Wrappers

  datatype Record<D> = Record(block: nat, delta: D)

  /** A journal on disk: what it is bound to, its whole records, and whether half of one follows them. */
  datatype JournalFile<D> = JournalFile(digest: nat, baseBlock: nat, records: seq<Record<D>>, torn: bool)

  datatype Base<S> = Base(block: nat, state: S)

  datatype Disk<S, D> = Disk(base: Option<Base<S>>, journal: Option<JournalFile<D>>)

  /** How one append ended: on disk and synced, or failed with all, part or nothing of the record written. */
  datatype AppendIo = Written | FailedWhole | FailedTorn | FailedClean

  /** How one rotation ended: done, failed before the rename, or failed between rename and reopening. */
  datatype RotateIo = Rotated | NotRenamed | NotReopened

  datatype SaveOutcome = Saved(block: nat) | Unchanged(block: nat) | NotDue | Busy | Failed

  /** The saver's own fields; `journal` is the last height its writer has recorded. */
  datatype Saver = Saver(lastSavedBlock: Option<nat>, journal: Option<nat>, journalBroken: bool, recordsSinceSave: nat)

  /** `append`: refuses anything but the next height before any I/O, else writes one record. */
  function AppendFile<D>(file: JournalFile<D>, r: Record<D>, io: AppendIo): JournalFile<D> {
    match io
    case Written | FailedWhole => file.(records := file.records + [r])
    case FailedTorn => file.(torn := true)
    case FailedClean => file
  }

  function AppendSaver(s: Saver, block: nat, io: AppendIo): Saver {
    if s.journalBroken || s.journal.None? || block < s.journal.value + 1 then s
    else if block > s.journal.value + 1 || io != Written then s.(journal := None, journalBroken := true)
    else s.(journal := Some(block), recordsSinceSave := s.recordsSinceSave + 1)
  }

  function AppendDisk<S, D>(s: Saver, disk: Disk<S, D>, r: Record<D>, io: AppendIo): Disk<S, D> {
    if s.journalBroken || s.journal.None? || r.block != s.journal.value + 1 || disk.journal.None? then disk
    else disk.(journal := Some(AppendFile(disk.journal.value, r, io)))
  }

  /** A rotation begins an empty journal bound to the base just written; a failed one leaves no writer. */
  function RotateSaver(s: Saver, block: nat, io: RotateIo): Saver {
    if s.journalBroken then s
    else if io == Rotated then s.(journal := Some(block), recordsSinceSave := 0)
    else s.(journal := None)
  }

  function RotateDisk<S, D>(s: Saver, disk: Disk<S, D>, digest: nat, block: nat, io: RotateIo): Disk<S, D> {
    if s.journalBroken || io == NotRenamed then disk
    else disk.(journal := Some(JournalFile(digest, block, [], false)))
  }

  /** The saver and the disk after a save that wrote its base: first the rename, then the rotation. */
  ghost predicate AfterSave<S, D>(digest: (nat, S) -> nat, s: Saver, disk: Disk<S, D>, block: nat, state: S, io: RotateIo,
                                  s': Saver, disk': Disk<S, D>) {
    var renamed := disk.(base := Some(Base(block, state)));
    && s' == RotateSaver(s.(lastSavedBlock := Some(block)), block, io)
    && disk' == RotateDisk(s, renamed, digest(block, state), block, io)
  }

  class FileSystem<S, D> {
    var base: Option<Base<S>>
    var journal: Option<JournalFile<D>>

    function Contents(): Disk<S, D>
      reads this
    {
      Disk(base, journal)
    }

    constructor (disk: Disk<S, D>)
      ensures Contents() == disk
    {
      base, journal := disk.base, disk.journal;
    }
  }

  class StateSaver<S(!new), D(!new)> {
    const fs: FileSystem<S, D>
    const digest: (nat, S) -> nat
    const interval: nat
    var lastSavedBlock: Option<nat>
    var lastFinished: nat
    var journal: Option<nat>
    var journalBroken: bool
    var recordsSinceSave: nat

    function Fields(): Saver
      reads this
    {
      Saver(lastSavedBlock, journal, journalBroken, recordsSinceSave)
    }

    /** A writer always has a file under it. */
    predicate Valid()
      reads this, fs
    {
      journal.Some? ==> fs.journal.Some?
    }

    constructor (fs: FileSystem<S, D>, digest: (nat, S) -> nat, interval: nat, now: nat, lastSavedBlock: Option<nat>, initialJournal: Option<nat>)
      requires initialJournal.Some? ==> fs.journal.Some?
      ensures Valid() && this.fs == fs && this.digest == digest && this.interval == interval && lastFinished == now
      ensures Fields() == Saver(lastSavedBlock, initialJournal, false, 0)
    {
      this.fs, this.digest, this.interval := fs, digest, interval;
      this.lastSavedBlock, lastFinished, journal := lastSavedBlock, now, initialJournal;
      journalBroken, recordsSinceSave := false, 0;
    }

    method AppendDelta(r: Record<D>, io: AppendIo)
      requires Valid()
      modifies this, fs
      ensures Valid() && lastFinished == old(lastFinished)
      ensures Fields() == AppendSaver(old(Fields()), r.block, io)
      ensures fs.Contents() == AppendDisk(old(Fields()), old(fs.Contents()), r, io)
    {
      if journalBroken {
        return;
      }
      if journal.None? {
        return;
      }
      var expected := journal.value + 1;
      if r.block != expected {
        if r.block < expected {
          return;
        }
        journal := None;
        journalBroken := true;
        return;
      }
      fs.journal := Some(AppendFile(fs.journal.value, r, io));
      if io == Written {
        journal := Some(r.block);
        recordsSinceSave := recordsSinceSave + 1;
      } else {
        journal := None;
        journalBroken := true;
      }
    }

    /** `block` and `state` are the server's under its read lock. */
    method SaveWith(block: nat, state: S, force: bool, now: nat, baseOk: bool, io: RotateIo) returns (outcome: SaveOutcome)
      requires Valid()
      modifies this, fs
      ensures Valid() && lastFinished == now
      ensures outcome == if !force && old(lastSavedBlock) == Some(block) then Unchanged(block) else if baseOk then Saved(block) else Failed
      ensures if outcome.Saved? then AfterSave(digest, old(Fields()), old(fs.Contents()), block, state, io, Fields(), fs.Contents())
        else Fields() == old(Fields()) && fs.Contents() == old(fs.Contents())
    {
      if !force && lastSavedBlock == Some(block) {
        lastFinished := now;
        return Unchanged(block);
      }
      if !baseOk {
        lastFinished := now;
        return Failed;
      }
      fs.base := Some(Base(block, state));
      lastFinished := now;
      lastSavedBlock := Some(block);
      if !journalBroken {
        match io
        case Rotated =>
          fs.journal := Some(JournalFile(digest(block, state), block, [], false));
          journal := Some(block);
          recordsSinceSave := 0;
        case NotRenamed =>
          journal := None;
        case NotReopened =>
          fs.journal := Some(JournalFile(digest(block, state), block, [], false));
          journal := None;
      }
      return Saved(block);
    }

    method MaybeSave(block: nat, state: S, busy: bool, now: nat, baseOk: bool, io: RotateIo) returns (outcome: SaveOutcome)
      requires Valid() && lastFinished <= now
      modifies this, fs
      ensures Valid()
      ensures interval == 0 ==> outcome == NotDue
      ensures interval != 0 && busy ==> outcome == Busy
      ensures interval != 0 && !busy && now - old(lastFinished) < interval ==> outcome == NotDue
      ensures interval != 0 && !busy && now - old(lastFinished) >= interval ==>
        lastFinished == now && (outcome.Unchanged? <==> old(lastSavedBlock) == Some(block))
      ensures if outcome.Saved? then AfterSave(digest, old(Fields()), old(fs.Contents()), block, state, io, Fields(), fs.Contents())
        else Fields() == old(Fields()) && fs.Contents() == old(fs.Contents())
    {
      if interval == 0 {
        return NotDue;
      }
      if busy {
        return Busy;
      }
      if now - lastFinished < interval {
        return NotDue;
      }
      outcome := SaveWith(block, state, false, now, baseOk, io);
    }

    method SaveNow(block: nat, state: S, now: nat, baseOk: bool, io: RotateIo) returns (outcome: SaveOutcome)
      requires Valid()
      modifies this, fs
      ensures Valid() && outcome == if baseOk then Saved(block) else Failed
      ensures if outcome.Saved? then AfterSave(digest, old(Fields()), old(fs.Contents()), block, state, io, Fields(), fs.Contents())
        else Fields() == old(Fields()) && fs.Contents() == old(fs.Contents())
    {
      outcome := SaveWith(block, state, true, now, baseOk, io);
    }
  }

  // ----- Restoring -----

  datatype Recovered<S> = Recovered(block: nat, state: S)

  /** No state file, a record that would not apply, or a state. */
  datatype Restored<S> = NoState | ApplyFailure | RestoredAt(at: Recovered<S>)

  /** Applies records while each is the next height; the first that is not ends the scan, one that fails to apply the restore. */
  function Replay<S, D>(apply: (S, D) -> Option<S>, from: Recovered<S>, records: seq<Record<D>>): Restored<S>
    decreases |records|
  {
    if records == [] || records[0].block != from.block + 1 then RestoredAt(from)
    else match apply(from.state, records[0].delta)
      case None => ApplyFailure
      case Some(state) => Replay(apply, Recovered(from.block + 1, state), records[1..])
  }

  /** A journal counts only when its header names exactly this base. */
  predicate BoundTo<S, D>(digest: (nat, S) -> nat, file: JournalFile<D>, base: Base<S>) {
    file.digest == digest(base.block, base.state) && file.baseBlock == base.block
  }

  function Restore<S, D>(apply: (S, D) -> Option<S>, digest: (nat, S) -> nat, disk: Disk<S, D>): Restored<S> {
    match disk.base
    case None => NoState
    case Some(base) =>
      var start := Recovered(base.block, base.state);
      if disk.journal.Some? && BoundTo(digest, disk.journal.value, base)
      then Replay(apply, start, disk.journal.value.records)
      else RestoredAt(start)
  }

  /** The restore: replays onto the base's raw parts; `adoptAt` is the height appending may go on from. */
  method LoadWithJournalRestore<S, D>(apply: (S, D) -> Option<S>, digest: (nat, S) -> nat, disk: Disk<S, D>)
    returns (restored: Restored<S>, adoptAt: Option<nat>)
    ensures restored == Restore(apply, digest, disk)
    ensures adoptAt == if restored.RestoredAt? && disk.journal.Some? && BoundTo(digest, disk.journal.value, disk.base.value)
                       then Some(restored.at.block) else None
  {
    if disk.base.None? {
      return NoState, None;
    }
    var base := disk.base.value;
    var at := Recovered(base.block, base.state);
    if disk.journal.None? || !BoundTo(digest, disk.journal.value, base) {
      return RestoredAt(at), None;
    }
    var records := disk.journal.value.records;
    var i := 0;
    while i < |records| && records[i].block == at.block + 1
      invariant i <= |records| && Replay(apply, at, records[i..]) == Replay(apply, Recovered(base.block, base.state), records)
    {
      assert records[i..][1..] == records[i + 1..];
      var next := apply(at.state, records[i].delta);
      if next.None? {
        return ApplyFailure, None;
      }
      at := Recovered(at.block + 1, next.value);
      i := i + 1;
    }
    return RestoredAt(at), Some(at.block);
  }

  /** A journal for another base, by digest or by height, counts for nothing, and neither does one without a base. */
  lemma OtherJournal<S, D>(apply: (S, D) -> Option<S>, digest: (nat, S) -> nat, disk: Disk<S, D>)
    ensures disk.base.None? ==> Restore(apply, digest, disk) == NoState
    ensures disk.base.Some? && disk.journal.Some?
            && (disk.journal.value.digest != digest(disk.base.value.block, disk.base.value.state)
                || disk.journal.value.baseBlock != disk.base.value.block) ==>
      Restore(apply, digest, disk) == RestoredAt(Recovered(disk.base.value.block, disk.base.value.state))
    ensures disk.base.Some? && disk.journal.Some?
            && disk.journal.value.digest == digest(disk.base.value.block, disk.base.value.state)
            && disk.journal.value.baseBlock == disk.base.value.block ==>
      Restore(apply, digest, disk) ==
        Replay(apply, Recovered(disk.base.value.block, disk.base.value.state), disk.journal.value.records)
  {
  }

  /** `states` are what the first `n` records lead through, one height after the other. */
  ghost predicate LeadsThrough<S, D>(apply: (S, D) -> Option<S>, from: Recovered<S>, records: seq<Record<D>>, states: seq<S>, n: nat) {
    && n <= |records| && |states| == n + 1 && states[0] == from.state
    && forall i :: 0 <= i < n ==> records[i].block == from.block + 1 + i && apply(states[i], records[i].delta) == Some(states[i + 1])
  }

  /** Replay ends at the first height that is not the next, or fails at the first record that does not apply. */
  lemma {:induction false} ReplayIs<S, D>(apply: (S, D) -> Option<S>, from: Recovered<S>, records: seq<Record<D>>, states: seq<S>, n: nat)
    requires LeadsThrough(apply, from, records, states, n)
    ensures n == |records| || records[n].block != from.block + 1 + n ==>
      Replay(apply, from, records) == RestoredAt(Recovered(from.block + n, states[n]))
    ensures n < |records| && records[n].block == from.block + 1 + n && apply(states[n], records[n].delta).None? ==>
      Replay(apply, from, records) == ApplyFailure
    decreases n
  {
    if n > 0 {
      ReplayIs(apply, Recovered(from.block + 1, states[1]), records[1..], states[1..], n - 1);
    }
  }
}
