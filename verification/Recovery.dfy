/** Crash recovery as a transition system over what a node keeps on disk.

    The durable state is the key-value store, the write-ahead log with its hard state, and the snapshot
    directory.  Every durable effect is one step, and a crash may come between any two.  The history
    variable `log` is the committed log: the entries up to the persisted commit index.  The Raft library
    is represented by what it guarantees: it never offers entries at or below the persisted commit
    again, offers no gap, commits nothing it has not persisted, never takes the commit back, and after a
    restart delivers committed entries again from right above the newest snapshot.
 */
module Recovery {
  import opened Options
  import opened Lex
  import opened Storage
  import opened Replay
  import opened RaftLog
  import opened SnapshotStore

  type Snapshots = Dir<Payload>

  /** `Booting(next)` has restored the snapshot and applied every entry below `next`;
      `Running(cursor)` has delivered the committed entries up to `cursor` since the start. */
  datatype Mode = Down | Booting(next: nat) | Running(cursor: nat)

  datatype State = State(kv: Db, wal: seq<Entry>, commit: nat, snaps: Snapshots, mode: Mode, log: seq<Entry>)

  /** The store a replica would have had it applied the committed log once, from nothing. */
  function Expected(log: seq<Entry>): Db {
    Business(Fold(map[], Commands(log)))
  }

  /** A store as the log makes it, key by key: entry `i` is the last normal one whose command touches the
      key, or -1 when none does.  A put leaves its value, a delete or prefix delete nothing. */
  lemma SettledByLastEntry(db: Db, log: seq<Entry>, key: string, i: int)
    requires Business(db) == Expected(log) && !("__meta__/" <= key) && -1 <= i < |log|
    requires forall j :: 0 <= j < |log| && i <= j ==>
               (j == i <==>
                && log[j].kind.Normal?
                && match log[j].command
                   case Some(Put(k, _)) => k == key
                   case Some(Delete(k)) => k == key
                   case Some(DeletePrefix(prefix)) =>
                     prefix <= key && (|key| == |prefix| || key[|prefix|] < '\U{FF}')
                   case _ => false)
    ensures key in db <==> i >= 0 && log[i].command.value.Put?
    ensures key in db ==> db[key] == log[i].command.value.value
  {
    hide Business;
    forall j | 0 <= j < |log| && i <= j
      ensures EffectOf(CommandOf(log[j]), key) ==
              if j != i then Untouched
              else if log[i].command.value.Put? then Stored(log[i].command.value.value) else Cleared {
      EntryTouches(log[j], key);
    }
    if i >= 0 {
      LastWriteIs(log, key, i);
    } else {
      NeverWritten(log, key);
    }
    FoldByKey(map[], Commands(log), key);
    SameBusinessSameLookup(db, Fold(map[], Commands(log)), key);
  }

  lemma EntryTouches(e: Entry, key: string)
    ensures EffectOf(CommandOf(e), key) ==
            if !e.kind.Normal? || e.command.None? then Untouched
            else
              match e.command.value
              case Put(k, value) => if k == key then Stored(value) else Untouched
              case Delete(k) => if k == key then Cleared else Untouched
              case DeletePrefix(prefix) =>
                if prefix <= key && (|key| == |prefix| || key[|prefix|] < '\U{FF}') then Cleared else Untouched
              case Unknown => Untouched
  {
    if e.command.Some? && e.command.value.DeletePrefix? {
      PrefixRange(e.command.value.prefix, key);
    }
  }

  lemma {:induction false} LastWriteIs(log: seq<Entry>, key: string, i: nat)
    requires i < |log| && !EffectOf(CommandOf(log[i]), key).Untouched?
    requires forall j :: i < j < |log| ==> EffectOf(CommandOf(log[j]), key).Untouched?
    ensures LastWrite(Commands(log), key) == EffectOf(CommandOf(log[i]), key)
    decreases |log|
  {
    hide EffectOf, CommandOf;
    var front := log[..|log| - 1];
    assert Commands(log)[..|log| - 1] == Commands(front);
    if i < |front| {
      LastWriteIs(front, key, i);
    }
  }

  lemma {:induction false} NeverWritten(log: seq<Entry>, key: string)
    requires forall j :: 0 <= j < |log| ==> EffectOf(CommandOf(log[j]), key).Untouched?
    ensures LastWrite(Commands(log), key).Untouched?
    decreases |log|
  {
    hide EffectOf, CommandOf;
    if log != [] {
      var front := log[..|log| - 1];
      assert Commands(log)[..|log| - 1] == Commands(front);
      NeverWritten(front, key);
    }
  }

  /** A store from which the log, delivered from position `p` on, ends in the expected one.  It need not
      equal the prefix: entries above `p` may already be reflected in it. */
  ghost predicate Tracks(kv: Db, p: nat, log: seq<Entry>) {
    p <= |log| && Business(Fold(kv, Commands(log[p..]))) == Expected(log)
  }

  /** A store that holds no business key the log did not put. */
  ghost predicate WrittenBy(kv: Db, log: seq<Entry>) {
    Business(kv).Keys <= KeysWritten(Commands(log))
  }

  /** The index of the newest snapshot, 0 when there is none. */
  ghost predicate SnapshotAt(snaps: Snapshots, s: nat) {
    (snaps.metas == {} && s == 0) || exists id :: IsNewest(snaps.metas, id) && id.index == s
  }

  // The steps.

  ghost predicate Initial(st: State) {
    st == State(map[], [], 0, Dir(map[], {}), Down, [])
  }

  ghost predicate PowerOn(a: State, b: State) {
    && a.mode.Down?
    && ((a.snaps.metas == {} && b == a.(mode := Booting(1)))
        || exists id :: IsNewest(a.snaps.metas, id) && id in a.snaps.data
                        && b == a.(kv := Restored(a.kv, a.snaps.data[id]), mode := Booting(id.index + 1)))
  }

  /** Bootstrap applies the next committed entry of the write-ahead log. */
  predicate BootApply(a: State, b: State) {
    && a.mode.Booting? && a.mode.next <= a.commit
    && At(a.wal, a.mode.next).Some?
    && b == a.(kv := ApplyCommand(a.kv, CommandOf(At(a.wal, a.mode.next).value)), mode := Booting(a.mode.next + 1))
  }

  /** Bootstrap ends; the library will deliver from above the newest snapshot. */
  ghost predicate BootDone(a: State, b: State) {
    && a.mode.Booting? && a.mode.next > a.commit
    && exists s :: SnapshotAt(a.snaps, s) && b == a.(mode := Running(s))
  }

  /** Applied index and term, once something is committed. */
  predicate WriteMeta(a: State, b: State) {
    && !a.mode.Down? && a.log != []
    && Business(b.kv) == Business(a.kv) && b == a.(kv := b.kv)
  }

  /** One append of hard state and entries: the log grows by what the new commit index covers. */
  predicate Persist(a: State, b: State, commit: nat, batch: seq<Entry>) {
    && a.mode.Running? && a.commit <= commit
    && Contiguous(batch)
    && (batch != [] ==> a.commit < batch[0].index && batch[0].index <= NextIndex(a.wal))
    && FlatAppend(a.wal, batch).Appended?
    && b.wal == FlatAppend(a.wal, batch).log
    && commit < NextIndex(b.wal)
    && b == a.(wal := b.wal, commit := commit, log := a.log + Window(b.wal, a.commit, commit))
  }

  function NextIndex(wal: seq<Entry>): nat {
    if wal == [] then 1 else LastIndex(wal) + 1
  }

  /** The entries of the log with indices above `low` up to `high`. */
  function Window(wal: seq<Entry>, low: nat, high: nat): seq<Entry> {
    if low < high && wal != [] && wal[0].index <= low + 1 && high < wal[0].index + |wal|
    then wal[low + 1 - wal[0].index..high + 1 - wal[0].index] else []
  }

  /** One delivered committed entry is applied. */
  predicate Deliver(a: State, b: State) {
    && a.mode.Running? && a.mode.cursor < |a.log|
    && b == a.(kv := ApplyCommand(a.kv, CommandOf(a.log[a.mode.cursor])), mode := Running(a.mode.cursor + 1))
  }

  /** A file operation of taking or cleaning up snapshots: new ones are of the store as it is, at the
      delivery cursor, above every earlier one. */
  ghost predicate SnapshotFile(a: State, b: State, op: FileOp<Payload>) {
    && a.mode.Running? && Safe(a.snaps, op)
    && (op.RenameData? || op.RenameMeta? ==>
          op.id.index == a.mode.cursor && forall id :: id in a.snaps.metas ==> id.index < op.id.index)
    && (op.RenameData? ==> op.contents == Export(a.kv))
    && (op.RenameMeta? ==> a.snaps.data[op.id] == Export(a.kv) && op.id.index >= 1)
    && b == a.(snaps := Do(a.snaps, op))
  }

  /** The write-ahead log is truncated below an index the newest snapshot covers. */
  ghost predicate Compact(a: State, b: State, index: nat) {
    && a.mode.Running?
    && (exists s :: SnapshotAt(a.snaps, s) && index <= s)
    && b == a.(wal := FlatTruncate(a.wal, index))
  }

  ghost predicate Step(a: State, b: State) {
    || PowerOn(a, b) || BootApply(a, b) || BootDone(a, b) || WriteMeta(a, b)
    || (exists commit, batch :: Persist(a, b, commit, batch))
    || Deliver(a, b)
    || (exists op :: SnapshotFile(a, b, op))
    || (exists index :: Compact(a, b, index))
    || b == a.(mode := Down)
  }

  ghost predicate Run(states: seq<State>) {
    && states != [] && Initial(states[0])
    && forall i :: 0 <= i < |states| - 1 ==> Step(states[i], states[i + 1])
  }

  /** A crash may come at any moment of a run. */
  lemma CrashAnytime(states: seq<State>, i: nat)
    requires Run(states) && i < |states|
    ensures Run(states[..i + 1] + [states[i].(mode := Down)])
  {
    hide PowerOn, BootApply, BootDone, WriteMeta, Persist, Deliver, SnapshotFile, Compact;
    var run := states[..i + 1] + [states[i].(mode := Down)];
    forall k | 0 <= k < |run| - 1 ensures Step(run[k], run[k + 1]) {
      if k < i {
        assert run[k] == states[k] && run[k + 1] == states[k + 1];
      } else {
        assert run[k] == states[i] && run[k + 1] == states[i].(mode := Down);
      }
    }
  }

  // The invariant.

  /** Everything committed above the snapshot is in the write-ahead log, with no gap in between. */
  ghost predicate Covers(wal: seq<Entry>, s: nat, log: seq<Entry>) {
    && Contiguous(wal)
    && (wal != [] ==> wal[0].index <= s + 1)
    && |log| < NextIndex(wal)
    && forall i :: 0 <= i < |log| && At(wal, i + 1).Some? ==> At(wal, i + 1).value == log[i]
  }

  ghost predicate SnapshotTracks(snaps: Snapshots, id: Id, log: seq<Entry>) {
    id.index >= 1 && id in snaps.data && exists kv :: snaps.data[id] == Export(kv) && Tracks(kv, id.index, log)
  }

  ghost predicate DiskInv(st: State, s: nat) {
    && SnapshotAt(st.snaps, s)
    && Sound(st.snaps)
    && st.commit == |st.log| && s <= |st.log|
    && Numbered(st.log)
    && Covers(st.wal, s, st.log)
    && (forall id :: IsNewest(st.snaps.metas, id) ==> SnapshotTracks(st.snaps, id, st.log))
    && (s == 0 ==> WrittenBy(st.kv, st.log))
    && (st.log == [] ==> AppliedIndexOf(st.kv) == 0)
  }

  ghost predicate ModeInv(st: State, s: nat) {
    match st.mode
    case Down => true
    case Booting(next) => s < next <= |st.log| + 1 && Tracks(st.kv, next - 1, st.log)
    case Running(cursor) => s <= cursor <= |st.log| && Tracks(st.kv, cursor, st.log)
  }

  ghost predicate Inv(st: State) {
    exists s :: DiskInv(st, s) && ModeInv(st, s)
  }

  // Replaying from a position of the log.

  lemma FoldNext(kv: Db, log: seq<Entry>, p: nat)
    requires p < |log|
    ensures Fold(kv, Commands(log[p..])) == Fold(ApplyCommand(kv, CommandOf(log[p])), Commands(log[p + 1..]))
  {
    assert log[p..] == [log[p]] + log[p + 1..];
    CommandsConcat([log[p]], log[p + 1..]);
    FoldOfConcat(kv, Commands([log[p]]), Commands(log[p + 1..]));
    assert Commands([log[p]]) == [CommandOf(log[p])] && [CommandOf(log[p])][..0] == [];
    assert Fold(kv, [CommandOf(log[p])]) == ApplyCommand(Fold(kv, [CommandOf(log[p])][..0]), CommandOf(log[p]));
  }

  lemma TracksNext(kv: Db, p: nat, log: seq<Entry>)
    requires Tracks(kv, p, log) && p < |log|
    ensures Tracks(ApplyCommand(kv, CommandOf(log[p])), p + 1, log)
  {
    FoldNext(kv, log, p);
  }

  lemma TracksBusiness(a: Db, b: Db, p: nat, log: seq<Entry>)
    requires Tracks(a, p, log) && Business(a) == Business(b)
    ensures Tracks(b, p, log)
  {
    BusinessOfFold(a, b, Commands(log[p..]));
  }

  /** A store that tracks a log keeps tracking it as it grows. */
  lemma TracksGrown(kv: Db, p: nat, log: seq<Entry>, more: seq<Entry>)
    requires Tracks(kv, p, log)
    ensures Tracks(kv, p, log + more)
  {
    var tail := log[p..];
    assert (log + more)[p..] == tail + more;
    CommandsConcat(tail, more);
    CommandsConcat(log, more);
    FoldOfConcat(kv, Commands(tail), Commands(more));
    FoldOfConcat(map[], Commands(log), Commands(more));
    BusinessOfFold(Fold(kv, Commands(tail)), Fold(map[], Commands(log)), Commands(more));
  }

  lemma TracksToTheEnd(kv: Db, log: seq<Entry>)
    ensures Tracks(kv, |log|, log) <==> Business(kv) == Expected(log)
  {
    assert Commands(log[|log|..]) == [];
  }

  /** A store that is complete tracks the log from every position: redelivery does no harm. */
  lemma TracksEverywhere(kv: Db, p: nat, log: seq<Entry>)
    requires Business(kv) == Expected(log) && p <= |log|
    ensures Tracks(kv, p, log)
  {
    var xs, ys := Commands(log[..p]), Commands(log[p..]);
    CommandsConcat(log[..p], log[p..]);
    assert log[..p] + log[p..] == log;
    ReplayIsHarmless(map[], xs, ys);
    BusinessOfFold(kv, Fold(map[], xs + ys), ys);
  }

  /** Tracking from a position means tracking from every earlier one: what lies between is settled by what
      is replayed after it. */
  lemma TracksEarlier(kv: Db, p: nat, log: seq<Entry>, r: nat)
    requires Tracks(kv, p, log) && r <= p
    ensures Tracks(kv, r, log)
  {
    hide Business;
    var before, between, after := Commands(log[..r]), Commands(log[r..p]), Commands(log[p..]);
    CommandsConcat(log[..r], log[r..p]);
    CommandsConcat(log[..r] + log[r..p], log[p..]);
    CommandsConcat(log[r..p], log[p..]);
    ThreeParts(log, r, p);
    forall key | !IsMetaKey(key)
      ensures Lookup(Fold(kv, between + after), key) == Lookup(Fold(map[], before + between + after), key) {
      SameBusinessSameLookup(Fold(kv, after), Fold(map[], before + between + after), key);
      FoldByKey(kv, after, key);
      FoldByKey(kv, between + after, key);
      FoldByKey(map[], before + between + after, key);
      LastWriteOfConcat(between, after, key);
      LastWriteOfConcat(before + between, after, key);
      LastWriteOfConcat(before, between, key);
    }
    SameLookupsSameBusiness(Fold(kv, between + after), Fold(map[], before + between + after));
  }

  lemma ThreeParts(log: seq<Entry>, r: nat, p: nat)
    requires r <= p <= |log|
    ensures log[..r] + log[r..p] + log[p..] == log && log[r..p] + log[p..] == log[r..]
  {
  }

  lemma TracksFromStart(kv: Db, log: seq<Entry>)
    requires WrittenBy(kv, log)
    ensures Tracks(kv, 0, log)
  {
    assert log[0..] == log;
    var cmds := Commands(log);
    forall key | !IsMetaKey(key) ensures Lookup(Fold(kv, cmds), key) == Lookup(Fold(map[], cmds), key) {
      FoldByKey(kv, cmds, key);
      FoldByKey(map[], cmds, key);
      if key in kv {
        assert key in Business(kv);
        WrittenKeysAreSettled(cmds, key);
      }
    }
    SameLookupsSameBusiness(Fold(kv, cmds), Fold(map[], cmds));
  }

  lemma TracksRestored(over: Db, kv: Db, p: nat, log: seq<Entry>)
    requires Tracks(kv, p, log)
    ensures Tracks(Restored(over, Export(kv)), p, log)
  {
    RestoreOfExport(over, kv);
    TracksBusiness(kv, Restored(over, Export(kv)), p, log);
  }

  lemma WrittenApplied(kv: Db, log: seq<Entry>, i: nat)
    requires WrittenBy(kv, log) && i < |log|
    ensures WrittenBy(ApplyCommand(kv, CommandOf(log[i])), log)
  {
    var cmd := CommandOf(log[i]);
    assert Commands(log)[i] == cmd;
    forall key | key in Business(ApplyCommand(kv, cmd)) ensures key in KeysWritten(Commands(log)) {
      assert key in Business(kv) || (cmd.Put? && cmd.key == key);
    }
  }

  lemma WrittenGrown(kv: Db, log: seq<Entry>, more: seq<Entry>)
    requires WrittenBy(kv, log)
    ensures WrittenBy(kv, log + more)
  {
    CommandsConcat(log, more);
    var cmds, all := Commands(log), Commands(log + more);
    forall i | 0 <= i < |cmds| && cmds[i].Put? ensures cmds[i].key in KeysWritten(all) { assert all[i] == cmds[i]; }
  }

  // Every step keeps the invariant.

  lemma PowerOnKeeps(a: State, b: State, s: nat)
    requires DiskInv(a, s) && PowerOn(a, b)
    ensures DiskInv(b, s) && ModeInv(b, s)
  {
    hide Restored, Tracks, Covers, SnapshotTracks, Fold, Business;
    if a.snaps.metas == {} {
      TracksFromStart(a.kv, a.log);
    } else {
      var id :| IsNewest(a.snaps.metas, id)
        && b == a.(kv := Restored(a.kv, a.snaps.data[id]), mode := Booting(id.index + 1));
      SnapshotRestores(a.kv, a.snaps, id, a.log);
    }
  }

  lemma BootApplyKeeps(a: State, b: State, s: nat)
    requires DiskInv(a, s) && ModeInv(a, s) && BootApply(a, b)
    ensures DiskInv(b, s) && ModeInv(b, s)
  {
    var p := a.mode.next - 1;
    assert At(a.wal, p + 1).value == a.log[p];
    TracksNext(a.kv, p, a.log);
    if s == 0 {
      WrittenApplied(a.kv, a.log, p);
    }
  }

  lemma BootDoneKeeps(a: State, b: State, s: nat)
    requires DiskInv(a, s) && ModeInv(a, s) && BootDone(a, b)
    ensures DiskInv(b, s) && ModeInv(b, s)
    ensures Business(a.kv) == Expected(a.log)
  {
    TracksToTheEnd(a.kv, a.log);
    TracksEverywhere(a.kv, s, a.log);
  }

  lemma WriteMetaKeeps(a: State, b: State, s: nat)
    requires DiskInv(a, s) && ModeInv(a, s) && WriteMeta(a, b)
    ensures DiskInv(b, s) && ModeInv(b, s)
  {
    hide Tracks, Covers, SnapshotTracks, Business;
    match a.mode
    case Booting(next) => TracksBusiness(a.kv, b.kv, next - 1, a.log);
    case Running(cursor) => TracksBusiness(a.kv, b.kv, cursor, a.log);
  }

  lemma PersistKeeps(a: State, b: State, s: nat, commit: nat, batch: seq<Entry>)
    requires DiskInv(a, s) && ModeInv(a, s) && Persist(a, b, commit, batch)
    ensures DiskInv(b, s) && ModeInv(b, s)
  {
    var more := Window(b.wal, a.commit, commit);
    PersistCovers(a.wal, b.wal, s, a.log, commit, batch);
    TracksGrown(a.kv, a.mode.cursor, a.log, more);
    forall id | IsNewest(b.snaps.metas, id) ensures SnapshotTracks(b.snaps, id, b.log) {
      var kv :| a.snaps.data[id] == Export(kv) && Tracks(kv, id.index, a.log);
      TracksGrown(kv, id.index, a.log, more);
    }
    if s == 0 {
      WrittenGrown(a.kv, a.log, more);
    }
  }

  lemma PersistCovers(wal: seq<Entry>, wal': seq<Entry>, s: nat, log: seq<Entry>, commit: nat, batch: seq<Entry>)
    requires Covers(wal, s, log) && Numbered(log) && s <= |log| <= commit && Contiguous(batch)
    requires batch != [] ==> |log| < batch[0].index <= NextIndex(wal)
    requires FlatAppend(wal, batch) == Appended(wal') && commit < NextIndex(wal')
    ensures Covers(wal', s, log + Window(wal', |log|, commit))
    ensures |log + Window(wal', |log|, commit)| == commit && Numbered(log + Window(wal', |log|, commit))
  {
    hide FlatAppend, AcceptedBatch, Window, Contiguous;
    AppendedStart(wal, wal', s, batch);
    var more := Window(wal', |log|, commit);
    WindowIs(wal', |log|, commit);
    forall i | 0 <= i < commit && At(wal', i + 1).Some? ensures At(wal', i + 1).value == (log + more)[i] {
      if i < |log| {
        AppendByIndex(wal, batch, i + 1);
      }
    }
  }

  lemma WindowIs(wal: seq<Entry>, low: nat, high: nat)
    requires Contiguous(wal) && low <= high < NextIndex(wal) && (wal != [] ==> wal[0].index <= low + 1)
    ensures |Window(wal, low, high)| == high - low
    ensures forall k :: 0 <= k < high - low ==> Window(wal, low, high)[k].index == low + k + 1
    ensures forall i {:trigger At(wal, i + 1)} :: low <= i < high ==>
              At(wal, i + 1) == Some(Window(wal, low, high)[i - low])
  {
  }

  lemma AppendedStart(wal: seq<Entry>, wal': seq<Entry>, s: nat, batch: seq<Entry>)
    requires Contiguous(wal) && (wal != [] ==> wal[0].index <= s + 1) && Contiguous(batch)
    requires batch != [] ==> s < batch[0].index <= NextIndex(wal)
    requires FlatAppend(wal, batch) == Appended(wal')
    ensures AcceptedBatch(wal, batch) && Contiguous(wal')
    ensures wal' != [] ==> wal'[0].index <= s + 1
    ensures wal != [] ==> wal' != []
  {
    AppendByIndex(wal, batch, 0);
    if wal != [] {
      AppendKeepsFirst(wal, batch);
    }
  }

  lemma DeliverKeeps(a: State, b: State, s: nat)
    requires DiskInv(a, s) && ModeInv(a, s) && Deliver(a, b)
    ensures DiskInv(b, s) && ModeInv(b, s)
  {
    TracksNext(a.kv, a.mode.cursor, a.log);
    if s == 0 {
      WrittenApplied(a.kv, a.log, a.mode.cursor);
    }
  }

  /** Publishing metadata makes the new snapshot the newest; everything else leaves the newest alone. */
  lemma SnapshotFileKeeps(a: State, b: State, s: nat, op: FileOp<Payload>)
    requires DiskInv(a, s) && ModeInv(a, s) && SnapshotFile(a, b, op)
    ensures Inv(b)
  {
    hide Tracks, WrittenBy, Export, Numbered;
    StepIsSafe(a.snaps, op, op.id);
    if op.RenameMeta? {
      assert IsNewest(b.snaps.metas, op.id);
      assert SnapshotTracks(b.snaps, op.id, b.log);
      assert DiskInv(b, op.id.index);
    } else {
      SameNewest(a.snaps, op, s);
      assert DiskInv(b, s);
    }
  }

  lemma SameNewest(snaps: Snapshots, op: FileOp<Payload>, s: nat)
    requires SnapshotAt(snaps, s) && Safe(snaps, op) && !op.RenameMeta?
    requires op.RenameData? ==> op.id !in snaps.metas
    ensures SnapshotAt(Do(snaps, op), s)
    ensures forall id :: IsNewest(Do(snaps, op).metas, id) ==> IsNewest(snaps.metas, id)
    ensures forall id :: IsNewest(snaps.metas, id) && id in snaps.data ==>
              id in Do(snaps, op).data && Do(snaps, op).data[id] == snaps.data[id]
  {
    forall id | IsNewest(Do(snaps, op).metas, id) ensures IsNewest(snaps.metas, id) {
      NewestAfter(snaps, op, id);
    }
    if snaps.metas != {} {
      var id :| IsNewest(snaps.metas, id) && id.index == s;
      assert IsNewest(Do(snaps, op).metas, id);
    }
  }

  lemma CompactKeeps(a: State, b: State, s: nat, index: nat)
    requires DiskInv(a, s) && ModeInv(a, s) && Compact(a, b, index)
    ensures DiskInv(b, s) && ModeInv(b, s)
  {
    hide Covers, Tracks, WrittenBy, FlatTruncate, SnapshotTracks;
    TruncateCovers(a.wal, index, s, a.log);
  }

  lemma TruncateCovers(wal: seq<Entry>, index: nat, s: nat, log: seq<Entry>)
    requires Covers(wal, s, log) && index <= s <= |log|
    ensures Covers(FlatTruncate(wal, index), s, log)
  {
    var c := Cut(wal, index);
    FiltersAreSlices(wal, index);
    ContiguousSlice(wal, c, |wal|);
    forall i | 0 <= i < |log| && At(wal[c..], i + 1).Some? ensures At(wal[c..], i + 1).value == log[i] {
      assert At(wal, i + 1) == At(wal[c..], i + 1);
    }
  }

  lemma StepKeeps(a: State, b: State)
    requires Inv(a) && Step(a, b)
    ensures Inv(b)
  {
    var s :| DiskInv(a, s) && ModeInv(a, s);
    if PowerOn(a, b) { PowerOnKeeps(a, b, s); }
    else if BootApply(a, b) { BootApplyKeeps(a, b, s); }
    else if BootDone(a, b) { BootDoneKeeps(a, b, s); }
    else if WriteMeta(a, b) { WriteMetaKeeps(a, b, s); }
    else if commit, batch :| Persist(a, b, commit, batch) { PersistKeeps(a, b, s, commit, batch); }
    else if Deliver(a, b) { DeliverKeeps(a, b, s); }
    else if op :| SnapshotFile(a, b, op) { SnapshotFileKeeps(a, b, s, op); }
    else if index :| Compact(a, b, index) { CompactKeeps(a, b, s, index); }
    else { assert DiskInv(b, s); }
  }

  // Over whole runs.

  lemma {:induction false} InvAlways(states: seq<State>, i: nat)
    requires Run(states) && i < |states|
    ensures Inv(states[i])
  {
    if i == 0 {
      assert DiskInv(states[0], 0);
    } else {
      InvAlways(states, i - 1);
      assert Step(states[i - 1], states[(i - 1) + 1]);
      StepKeeps(states[i - 1], states[i]);
    }
  }

  /** However the run was cut by crashes, a finished bootstrap leaves the store equal to the committed
      log folded from nothing. */
  lemma BootRebuilds(states: seq<State>, i: nat)
    requires Run(states) && i + 1 < |states| && BootDone(states[i], states[i + 1])
    ensures Business(states[i + 1].kv) == Expected(states[i + 1].log)
    ensures |states[i + 1].log| == states[i + 1].commit
  {
    InvAlways(states, i);
    var s :| DiskInv(states[i], s) && ModeInv(states[i], s);
    BootDoneKeeps(states[i], states[i + 1], s);
  }

  /** Redelivery may take the store back for a while; once it has caught up the store is right again. */
  lemma CaughtUpIsExpected(states: seq<State>, i: nat)
    requires Run(states) && i < |states| && states[i].mode == Running(states[i].commit)
    ensures Business(states[i].kv) == Expected(states[i].log)
  {
    InvAlways(states, i);
    TracksToTheEnd(states[i].kv, states[i].log);
  }

  /** Nothing committed is outside snapshot plus write-ahead log, at any moment. */
  lemma CompactionCoverage(states: seq<State>, i: nat, s: nat, index: nat)
    requires Run(states) && i < |states| && SnapshotAt(states[i].snaps, s)
    ensures s <= states[i].commit == |states[i].log|
    ensures s < index <= states[i].commit ==> At(states[i].wal, index) == Some(states[i].log[index - 1])
    ensures forall id :: IsNewest(states[i].snaps.metas, id) ==> id in states[i].snaps.data
  {
    InvAlways(states, i);
    var st := states[i];
    var t :| DiskInv(st, t);
    if s < index <= st.commit {
      assert At(st.wal, index - 1 + 1).Some?;
    }
  }

  /** The committed log only grows: no crash, truncation or overwrite loses a committed entry. */
  lemma {:induction false} CommittedLogGrows(states: seq<State>, i: nat, j: nat)
    requires Run(states) && i <= j < |states|
    ensures states[i].log <= states[j].log
    ensures states[i].commit <= states[j].commit
    decreases j
  {
    hide Initial, Inv, Step;
    InvAlways(states, i);
    InvAlways(states, j);
    CommitIsLength(states[i]);
    CommitIsLength(states[j]);
    if i < j {
      CommittedLogGrows(states, i, j - 1);
      assert Step(states[j - 1], states[(j - 1) + 1]);
      StepGrows(states[j - 1], states[j]);
    }
  }

  lemma CommitIsLength(st: State)
    requires Inv(st)
    ensures st.commit == |st.log|
  {
  }

  lemma StepGrows(a: State, b: State)
    requires Step(a, b)
    ensures a.log <= b.log
  {
    hide Restored, ApplyCommand, Business, Do, Safe, FlatTruncate, FlatAppend, Window, Contiguous, SnapshotAt;
  }

  /** Bootstrap always has its next step: a snapshot to restore, an entry to apply, or nothing left to do. */
  lemma BootNeverStuck(states: seq<State>, i: nat)
    requires Run(states) && i < |states|
    ensures states[i].mode.Down? ==> exists b :: PowerOn(states[i], b)
    ensures states[i].mode.Booting? ==> exists b :: BootApply(states[i], b) || BootDone(states[i], b)
  {
    hide Restored, ApplyCommand, Business, WrittenBy, Tracks, SnapshotTracks, Contiguous;
    InvAlways(states, i);
    var s :| DiskInv(states[i], s) && ModeInv(states[i], s);
    if states[i].mode.Down? {
      CanPowerOn(states[i], s);
    } else if states[i].mode.Booting? {
      CanBoot(states[i], s);
    }
  }

  lemma CanPowerOn(st: State, s: nat)
    requires DiskInv(st, s) && st.mode.Down?
    ensures exists b :: PowerOn(st, b)
  {
    hide Restored, WrittenBy, SnapshotTracks, Covers;
    if st.snaps.metas == {} {
      assert PowerOn(st, st.(mode := Booting(1)));
    } else {
      var id := NewestExists(st.snaps.metas);
      assert PowerOn(st, st.(kv := Restored(st.kv, st.snaps.data[id]), mode := Booting(id.index + 1)));
    }
  }

  lemma CanBoot(st: State, s: nat)
    requires DiskInv(st, s) && ModeInv(st, s) && st.mode.Booting?
    ensures exists b :: BootApply(st, b) || BootDone(st, b)
  {
    hide ApplyCommand, WrittenBy, Tracks, SnapshotTracks;
    var next := st.mode.next;
    if next > st.commit {
      assert BootDone(st, st.(mode := Running(s)));
    } else {
      var cmd := CommandOf(At(st.wal, next).value);
      assert BootApply(st, st.(kv := ApplyCommand(st.kv, cmd), mode := Booting(next + 1)));
    }
  }

  /** The entries bootstrap replays: above the snapshot, up to the persisted commit. */
  function BootEntries(wal: seq<Entry>, s: nat, commit: nat): seq<Entry> {
    KeepBelow(DropBelow(wal, s + 1), commit + 1)
  }

  lemma BootEntriesAreTheRest(wal: seq<Entry>, s: nat, log: seq<Entry>)
    requires Covers(wal, s, log) && s <= |log|
    ensures BootEntries(wal, s, |log|) == log[s..]
  {
    FiltersAreSlices(wal, s + 1);
    var rest := wal[Cut(wal, s + 1)..];
    ContiguousSlice(wal, Cut(wal, s + 1), |wal|);
    FiltersAreSlices(rest, |log| + 1);
    RestIs(wal, s, log);
  }

  lemma RestIs(wal: seq<Entry>, s: nat, log: seq<Entry>)
    requires Covers(wal, s, log) && s <= |log|
    ensures var rest := wal[Cut(wal, s + 1)..];
            rest[..Cut(rest, |log| + 1)] == log[s..]
  {
    var rest := wal[Cut(wal, s + 1)..];
    if s < |log| {
      assert |log| - s == Cut(rest, |log| + 1);
      forall k | 0 <= k < |log| - s ensures rest[k] == log[s..][k] {
        assert At(wal, s + k + 1) == Some(rest[k]);
      }
    }
  }

  /** Bootstrap as one function of the disk, run on any state a crash can leave behind. */
  lemma BootstrapOfAnyCrash(states: seq<State>, i: nat, s: nat)
    requires Run(states) && i < |states| && SnapshotAt(states[i].snaps, s)
    ensures var st := states[i];
            var replayed := Commands(BootEntries(st.wal, s, st.commit));
            (st.snaps.metas == {} ==> Business(Fold(st.kv, replayed)) == Expected(st.log))
            && forall id :: IsNewest(st.snaps.metas, id) ==>
                 id in st.snaps.data
                 && Business(Fold(Restored(st.kv, st.snaps.data[id]), replayed)) == Expected(st.log)
  {
    hide BootEntries, Covers, WrittenBy, Restored, Fold, Business, Commands;
    InvAlways(states, i);
    var st := states[i];
    var t :| DiskInv(st, t);
    BootEntriesAreTheRest(st.wal, s, st.log);
    if st.snaps.metas == {} {
      TracksFromStart(st.kv, st.log);
    }
    forall id | IsNewest(st.snaps.metas, id)
      ensures Tracks(Restored(st.kv, st.snaps.data[id]), s, st.log) {
      SnapshotRestores(st.kv, st.snaps, id, st.log);
    }
  }

  lemma SnapshotRestores(over: Db, snaps: Snapshots, id: Id, log: seq<Entry>)
    requires SnapshotTracks(snaps, id, log)
    ensures id.index >= 1 && Tracks(Restored(over, snaps.data[id]), id.index, log)
  {
    var kv :| snaps.data[id] == Export(kv) && Tracks(kv, id.index, log);
    TracksRestored(over, kv, id.index, log);
  }

  // What a reader sees while entries are delivered again.

  /** What a key holds in a replica that has applied the first `p` entries. */
  function ValueAt(log: seq<Entry>, p: nat, key: string): Write
    requires p <= |log|
  {
    Lookup(Fold(map[], Commands(log[..p])), key)
  }

  /** No business key is older than position `p` of the log: each shows some prefix at or past it. */
  ghost predicate FreshAt(kv: Db, p: nat, log: seq<Entry>) {
    forall key :: !IsMetaKey(key) ==> exists q :: p <= q <= |log| && Lookup(kv, key) == ValueAt(log, q, key)
  }

  lemma ValueNext(log: seq<Entry>, p: nat, key: string)
    requires p < |log|
    ensures var effect := EffectOf(CommandOf(log[p]), key);
            ValueAt(log, p + 1, key) == if effect.Untouched? then ValueAt(log, p, key) else effect
  {
    var cmds := Commands(log[..p + 1]);
    assert cmds[..p] == Commands(log[..p]);
    StoreNext(Fold(map[], cmds[..p]), CommandOf(log[p]), key);
  }

  lemma StoreNext(kv: Db, cmd: Command, key: string)
    ensures Lookup(ApplyCommand(kv, cmd), key) ==
            if EffectOf(cmd, key).Untouched? then Lookup(kv, key) else EffectOf(cmd, key)
  {
  }

  lemma FreshNext(kv: Db, p: nat, log: seq<Entry>)
    requires FreshAt(kv, p, log) && p < |log|
    ensures FreshAt(ApplyCommand(kv, CommandOf(log[p])), p + 1, log)
  {
    hide ValueAt, ApplyCommand, Lookup;
    var cmd := CommandOf(log[p]);
    forall key | !IsMetaKey(key)
      ensures exists q :: p + 1 <= q <= |log| && Lookup(ApplyCommand(kv, cmd), key) == ValueAt(log, q, key) {
      var q :| p <= q <= |log| && Lookup(kv, key) == ValueAt(log, q, key);
      ValueNext(log, p, key);
      StoreNext(kv, cmd, key);
      if !EffectOf(cmd, key).Untouched? || q == p {
        assert Lookup(ApplyCommand(kv, cmd), key) == ValueAt(log, p + 1, key);
      }
    }
  }

  lemma FreshGrown(kv: Db, p: nat, log: seq<Entry>, more: seq<Entry>)
    requires FreshAt(kv, p, log)
    ensures FreshAt(kv, p, log + more)
  {
    forall key | !IsMetaKey(key)
      ensures exists q :: p <= q <= |log + more| && Lookup(kv, key) == ValueAt(log + more, q, key) {
      var q :| p <= q <= |log| && Lookup(kv, key) == ValueAt(log, q, key);
      assert (log + more)[..q] == log[..q];
      assert ValueAt(log + more, q, key) == ValueAt(log, q, key);
    }
  }

  lemma FreshWhenComplete(kv: Db, p: nat, log: seq<Entry>)
    requires Business(kv) == Expected(log) && p <= |log|
    ensures FreshAt(kv, p, log)
  {
    assert log[..|log|] == log;
    forall key | !IsMetaKey(key)
      ensures exists q :: p <= q <= |log| && Lookup(kv, key) == ValueAt(log, q, key) {
      SameBusinessSameLookup(kv, Fold(map[], Commands(log)), key);
      assert Lookup(kv, key) == ValueAt(log, |log|, key);
    }
  }

  lemma FreshMeta(a: Db, b: Db, p: nat, log: seq<Entry>)
    requires FreshAt(a, p, log) && Business(a) == Business(b)
    ensures FreshAt(b, p, log)
  {
    forall key | !IsMetaKey(key)
      ensures exists q :: p <= q <= |log| && Lookup(b, key) == ValueAt(log, q, key) {
      SameBusinessSameLookup(a, b, key);
    }
  }

  /** In every run, while entries are delivered, no key is older than the delivery cursor. */
  lemma {:induction false} DeliveredIsFresh(states: seq<State>, i: nat)
    requires Run(states) && i < |states| && states[i].mode.Running?
    ensures FreshAt(states[i].kv, states[i].mode.cursor, states[i].log)
    decreases i
  {
    hide Inv, FreshAt;
    assert Initial(states[0]);
    var a, b := states[i - 1], states[(i - 1) + 1];
    assert Step(a, b);
    InvAlways(states, i - 1);
    InvAlways(states, i);
    if a.mode.Running? {
      DeliveredIsFresh(states, i - 1);
    }
    FreshStep(a, b);
  }

  lemma FreshStep(a: State, b: State)
    requires Inv(a) && Inv(b) && Step(a, b) && b.mode.Running?
    requires a.mode.Running? ==> FreshAt(a.kv, a.mode.cursor, a.log)
    ensures FreshAt(b.kv, b.mode.cursor, b.log)
  {
    hide FreshAt, Restored, Business, FlatAppend, FlatTruncate, Window, Do, Safe, ApplyCommand, Contiguous, Inv,
      SnapshotAt;
    if BootDone(a, b) {
      BootDoneIsFresh(a, b);
    } else if WriteMeta(a, b) {
      FreshMeta(a.kv, b.kv, a.mode.cursor, a.log);
    } else if commit, batch :| Persist(a, b, commit, batch) {
      FreshGrown(a.kv, a.mode.cursor, a.log, Window(b.wal, a.commit, commit));
    } else if Deliver(a, b) {
      FreshNext(a.kv, a.mode.cursor, a.log);
    }
  }

  lemma BootDoneIsFresh(a: State, b: State)
    requires Inv(a) && Inv(b) && BootDone(a, b)
    ensures FreshAt(b.kv, b.mode.cursor, b.log)
  {
    hide FreshAt;
    var s :| DiskInv(a, s) && ModeInv(a, s);
    BootDoneKeeps(a, b, s);
    FreshWhenComplete(b.kv, b.mode.cursor, b.log);
  }
}
