/** The node's processing of Ready batches, its snapshots and its bootstrap, over the real stores.

    Every durable effect is recorded in the history variable `history`, and each method is proved to
    take only steps of the recovery model, so what is proved of all runs there holds of this code.
 */
module RaftNode {
  import opened Options
  import Bytes
  import opened Storage
  import opened RaftLog
  import opened SnapshotStore
  import opened SegmentFormat
  import opened WalLayout
  import opened Wal
  import opened Recovery

  datatype Config = Config(snapshotEntries: nat, compactRetainEntries: nat, keepSnapshots: int)

  /** What the Raft library hands over; `hard` is empty when unchanged. */
  datatype Ready = Ready(hard: HardState, entries: seq<Entry>, committed: seq<Entry>)

  // The library's in-memory log, as far as the node's code depends on it.

  datatype Memory = Memory(snapshot: nat, first: nat, last: nat)

  datatype MemoryResult = Changed(memory: Memory) | OutOfDate | Panics

  const EMPTY_MEMORY := Memory(0, 1, 0)

  function MemorySnapshot(m: Memory, index: nat): MemoryResult {
    if m.snapshot >= index then OutOfDate else Changed(Memory(index, index + 1, index))
  }

  function MemoryAppend(m: Memory, es: seq<Entry>): MemoryResult {
    if es == [] || LastIndex(es) < m.first then Changed(m)
    else if es[0].index > m.last + 1 then Panics
    else Changed(m.(last := LastIndex(es)))
  }

  function MemoryCreateSnapshot(m: Memory, index: nat): MemoryResult {
    if index <= m.snapshot then OutOfDate
    else if index > m.last || index + 1 < m.first then Panics
    else Changed(m.(snapshot := index))
  }

  function MemoryCompact(m: Memory, index: nat): MemoryResult {
    if index < m.first then OutOfDate
    else if index > m.last then Panics
    else Changed(m.(first := index + 1))
  }

  /** The log the node will have committed once a batch is persisted. */
  function NextCommit(commit: nat, hard: HardState): nat {
    if IsEmptyHardState(hard) then commit else hard.commit
  }

  ghost function NextLog(wal: seq<Entry>, commit: nat, log: seq<Entry>, rd: Ready): seq<Entry> {
    match FlatAppend(wal, rd.entries)
    case Appended(after) => log + Window(after, commit, NextCommit(commit, rd.hard))
    case Gap => log
  }

  /** What the library guarantees of a batch: new entries lie above the persisted commit and leave no
      gap, the commit never goes back and never passes the log, and the committed entries are the next
      ones after those already delivered, at least one when there is any. */
  ghost predicate Offered(codec: Codec, wal: seq<Entry>, commit: nat, log: seq<Entry>, cursor: nat, rd: Ready) {
    && Contiguous(rd.entries) && AllEncodable(codec, rd.entries)
    && (rd.entries != [] ==> commit < rd.entries[0].index <= NextIndex(wal))
    && FlatAppend(wal, rd.entries).Appended?
    && commit <= NextCommit(commit, rd.hard) < NextIndex(FlatAppend(wal, rd.entries).log)
    && var after := NextLog(wal, commit, log, rd);
       && |after| < Bytes.UINT64_LIMIT
       && cursor + |rd.committed| <= |after|
       && rd.committed == after[cursor..cursor + |rd.committed|]
       && (cursor < |after| ==> rd.committed != [])
  }

  /** A batch as the library offers it: `longer` is the committed log that the persisted log and the new entries
      give up to the new commit, and the committed entries are its next ones. */
  lemma ReadyIsOffered(codec: Codec, wal: seq<Entry>, log: seq<Entry>, longer: seq<Entry>, cursor: nat, rd: Ready)
    requires Contiguous(wal) && (wal != [] ==> wal[0].index <= |log| + 1) && |log| < NextIndex(wal)
    requires Contiguous(rd.entries) && forall e :: e in rd.entries ==> Encodable(codec, e)
    requires rd.entries != [] ==> |log| < rd.entries[0].index <= NextIndex(wal)
    requires log <= longer && |longer| < Bytes.UINT64_LIMIT
    requires |longer| == if rd.hard == HardState(0, 0, 0) then |log| else rd.hard.commit
    requires forall i :: |log| <= i < |longer| ==>
               if rd.entries != [] && rd.entries[0].index <= i + 1 then At(rd.entries, i + 1) == Some(longer[i])
               else At(wal, i + 1) == Some(longer[i])
    requires cursor + |rd.committed| <= |longer| && rd.committed == longer[cursor..cursor + |rd.committed|]
    requires cursor < |longer| ==> rd.committed != []
    ensures Offered(codec, wal, |log|, log, cursor, rd)
  {
    hide At, Window, FlatAppend, Contiguous, NextIndex;
    LongerLog(wal, log, longer, rd.entries);
  }

  lemma LongerLog(wal: seq<Entry>, log: seq<Entry>, longer: seq<Entry>, batch: seq<Entry>)
    requires Contiguous(wal) && (wal != [] ==> wal[0].index <= |log| + 1) && |log| < NextIndex(wal)
    requires Contiguous(batch) && log <= longer
    requires batch != [] ==> |log| < batch[0].index <= NextIndex(wal)
    requires forall i :: |log| <= i < |longer| ==>
               if batch != [] && batch[0].index <= i + 1 then At(batch, i + 1) == Some(longer[i])
               else At(wal, i + 1) == Some(longer[i])
    ensures FlatAppend(wal, batch).Appended?
    ensures |longer| < NextIndex(FlatAppend(wal, batch).log)
    ensures log + Window(FlatAppend(wal, batch).log, |log|, |longer|) == longer
  {
    hide At, Window, FlatAppend, Contiguous, NextIndex;
    AcceptedBehind(wal, |log|, batch);
    EndsBehind(wal, batch, |log|);
    var after := FlatAppend(wal, batch).log;
    AppendedStart(wal, after, |log|, batch);
    forall i | |log| <= i < |longer| ensures At(after, i + 1) == Some(longer[i]) {
      AppendByIndex(wal, batch, i + 1);
    }
    if |longer| > |log| {
      assert At(after, |longer| - 1 + 1) == Some(longer[|longer| - 1]);
      FoundIsInside(after, |longer|);
    }
    WindowIs(after, |log|, |longer|);
    SameTail(log, longer, Window(after, |log|, |longer|), after);
  }

  lemma SameTail(log: seq<Entry>, longer: seq<Entry>, window: seq<Entry>, after: seq<Entry>)
    requires log <= longer && |window| == |longer| - |log|
    requires forall i :: |log| <= i < |longer| ==> At(after, i + 1) == Some(longer[i])
    requires forall i {:trigger At(after, i + 1)} :: |log| <= i < |longer| ==>
               At(after, i + 1) == Some(window[i - |log|])
    ensures log + window == longer
  {
    hide At;
    forall i | 0 <= i < |longer| ensures (log + window)[i] == longer[i] {
      if i >= |log| {
        assert At(after, i + 1) == Some(longer[i]) && At(after, i + 1) == Some(window[i - |log|]);
      } else {
        assert longer[..|log|] == log;
      }
    }
  }

  lemma AcceptedBehind(wal: seq<Entry>, commit: nat, batch: seq<Entry>)
    requires Contiguous(batch) && (wal != [] ==> wal[0].index <= commit + 1)
    requires batch != [] ==> commit < batch[0].index <= NextIndex(wal)
    ensures AcceptedBatch(wal, batch)
  {
  }

  lemma FoundIsInside(log: seq<Entry>, index: nat)
    requires Contiguous(log) && At(log, index).Some?
    ensures index < NextIndex(log)
  {
  }

  lemma EndsBehind(wal: seq<Entry>, batch: seq<Entry>, commit: nat)
    requires Contiguous(wal) && AcceptedBatch(wal, batch) && commit < NextIndex(wal)
    requires batch != [] ==> commit < batch[0].index
    ensures FlatAppend(wal, batch).Appended? && commit < NextIndex(FlatAppend(wal, batch).log)
  {
    AppendByIndex(wal, batch, 0);
    if batch != [] {
      AppendEndsWithBatch(wal, batch);
    }
  }

  class RaftNode {
    const kv: PebbleStore
    const wal: FileWAL
    const snaps: FileStore<Payload>
    const config: Config
    var memory: Memory
    var appliedIndex: nat
    var commitIndex: nat
    var freshNode: bool
    ghost var mode: Mode
    ghost var log: seq<Entry>
    ghost var history: seq<State>

    /** A new process over what an earlier one left on disk. */
    constructor (kv: PebbleStore, wal: FileWAL, snaps: FileStore<Payload>, config: Config,
                 ghost history: seq<State>, ghost log: seq<Entry>)
      requires Run(history) && snaps.keep >= 1 && wal.Sound() && !wal.isOpen
      requires history[|history| - 1] ==
               State(kv.disk, wal.Persisted(), wal.PersistedState().commit, snaps.Files(), Down, log)
      ensures this.kv == kv && this.wal == wal && this.snaps == snaps && this.config == config
      ensures this.log == log && this.history == history && mode == Down && memory == EMPTY_MEMORY
      ensures Linked()
    {
      this.kv, this.wal, this.snaps, this.config := kv, wal, snaps, config;
      memory, appliedIndex, commitIndex, freshNode := EMPTY_MEMORY, 0, 0, true;
      mode := Down;
      this.log, this.history := log, history;
    }

    /** The durable state as the recovery model sees it. */
    ghost function Now(): State
      reads this, kv, wal, wal.disk, snaps
    {
      State(kv.disk, wal.Persisted(), wal.PersistedState().commit, snaps.Files(), mode, log)
    }

    /** The stores hold what a run of the recovery model leads to. */
    ghost predicate Linked()
      reads this, kv, wal, wal.disk, snaps
    {
      history != [] && Run(history) && history[|history| - 1] == Now()
    }

    ghost predicate Open()
      reads kv, wal, wal.disk, snaps
    {
      wal.Valid() && wal.isOpen && kv.isOpen && snaps.keep >= 1
    }

    /** Between two Ready batches. */
    ghost predicate Valid()
      reads this, kv, wal, wal.disk, snaps
    {
      && Linked() && Open() && mode.Running?
      && memory.last + 1 == NextIndex(wal.entries)
      && memory.first <= memory.snapshot + 1
      && SnapshotAt(snaps.Files(), memory.snapshot)
      && (mode.cursor < |log| || AppliedIndexOf(kv.disk) == mode.cursor)
      && |log| < Bytes.UINT64_LIMIT
    }

    /** What is reported as applied was delivered, or is in the store because the store is complete. */
    ghost predicate Reported()
      reads this, kv, wal, wal.disk, snaps
    {
      ReportedBy(appliedIndex, Now())
    }

    /** One delivered entry: configuration changes and empty or undecodable payloads leave the store alone. */
    method ApplyEntry(e: Entry)
      requires Linked() && Open() && mode.Running? && mode.cursor < |log| && e == log[mode.cursor]
      modifies this`mode, this`history, kv`disk
      ensures Linked() && Open() && old(history) <= history
      ensures mode == Running(old(mode).cursor + 1)
      ensures kv.disk == ApplyCommand(old(kv.disk), CommandOf(e))
      ensures kv.disk == if e.kind.Normal? && e.command.Some? then ApplyCommand(old(kv.disk), e.command.value)
                         else old(kv.disk)
    {
      hide Run, Step;
      ghost var before := Now();
      if e.kind.Normal? && e.command.Some? {
        var _ := kv.Apply(e.command.value);
      }
      mode := Running(mode.cursor + 1);
      DeliverIsStep(before, Now());
      RunSnoc(history, Now());
      history := history + [Now()];
    }

    /** Applied index and term: two separate durable writes. */
    method MarkApplied(index: nat, term: nat)
      requires Linked() && Open() && !mode.Down? && log != []
      requires index < Bytes.UINT64_LIMIT
      modifies this`history, kv`disk
      ensures Linked() && Open() && old(history) <= history
      ensures Business(kv.disk) == Business(old(kv.disk)) && AppliedIndexOf(kv.disk) == index
      ensures APPLIED_TERM_KEY in kv.disk && kv.disk[APPLIED_TERM_KEY] == Bytes.BigEndian(term, 8)
    {
      hide Run, Step, Business, AppliedIndexOf, WithAppliedIndex, IsMetaKey;
      WriteAppliedMeta(APPLIED_INDEX_KEY, Bytes.BigEndian(index, 8));
      assert kv.disk == WithAppliedIndex(old(kv.disk), index) by { WithAppliedIndexIs(old(kv.disk), index); }
      AppliedIndexReadsBack(old(kv.disk), index);
      TermKeyIsApart(kv.disk, Bytes.BigEndian(term, 8));
      WriteAppliedMeta(APPLIED_TERM_KEY, Bytes.BigEndian(term, 8));
    }

    method WriteAppliedMeta(key: string, value: string)
      requires Linked() && Open() && !mode.Down? && log != []
      requires key == APPLIED_INDEX_KEY || key == APPLIED_TERM_KEY
      modifies this`history, kv`disk
      ensures Linked() && Open() && old(history) <= history
      ensures kv.disk == old(kv.disk)[key := value]
    {
      hide Run, Step, Business;
      ghost var before := Now();
      MetaKeysStayHidden(kv.disk, key, value);
      var _ := kv.SetMeta(key, value);
      MetaIsStep(before, Now());
      RunSnoc(history, Now());
      history := history + [Now()];
    }

    /** The committed entries of a batch, in order, then the applied index and term once. */
    method ApplyCommittedEntries(entries: seq<Entry>)
      requires Linked() && Open() && mode.Running? && mode.cursor + |entries| <= |log| < Bytes.UINT64_LIMIT
      requires entries == log[mode.cursor..mode.cursor + |entries|]
      requires forall i :: 0 <= i < |entries| ==> entries[i].index == mode.cursor + i + 1
      modifies this`mode, this`history, this`appliedIndex, kv`disk
      ensures Linked() && Open() && old(history) <= history
      ensures mode == Running(old(mode).cursor + |entries|)
      ensures Business(kv.disk) == Business(Fold(old(kv.disk), Commands(entries)))
      ensures entries != [] ==> AppliedIndexOf(kv.disk) == appliedIndex == mode.cursor
      ensures entries != [] ==> APPLIED_TERM_KEY in kv.disk
                                && kv.disk[APPLIED_TERM_KEY] == Bytes.BigEndian(entries[|entries| - 1].term, 8)
      ensures entries == [] ==> kv.disk == old(kv.disk) && appliedIndex == old(appliedIndex)
    {
      hide Run, Step, Business, AppliedIndexOf, Holds, SegmentsOf, Flatten, Contiguous, ApplyCommand, CommandOf, Fold,
        SnapshotAt, NextIndex, Commands;
      NothingFolded(kv.disk);
      if |entries| == 0 {
        return;
      }
      var index, term := 0, 0;
      ghost var start := mode.cursor;
      for i := 0 to |entries|
        invariant Linked() && Open() && old(history) <= history
        invariant mode == Running(start + i)
        invariant kv.disk == Fold(old(kv.disk), Commands(entries[..i]))
        invariant i > 0 ==> index == start + i && term == entries[i - 1].term
      {
        FoldSnoc(old(kv.disk), entries, i);
        ApplyEntry(entries[i]);
        index, term := entries[i].index, entries[i].term;
      }
      assert entries[..|entries|] == entries;
      if index > 0 {
        MarkApplied(index, term);
      }
      appliedIndex := index;
    }

    /** Hard state and entries go to the write-ahead log in one append, then to the library's memory. */
    method PersistReady(rd: Ready)
      requires Valid() && Offered(wal.codec, wal.entries, Now().commit, log, mode.cursor, rd)
      modifies this`memory, this`history, this`log, wal, wal.disk
      ensures Linked() && Open() && old(history) <= history
      ensures wal.entries == FlatAppend(old(wal.entries), rd.entries).log
      ensures log == NextLog(old(wal.entries), old(Now().commit), old(log), rd)
      ensures |log| == if rd.hard == HardState(0, 0, 0) then |old(log)| else rd.hard.commit
      ensures forall i :: |old(log)| <= i < |log| ==> At(wal.entries, i + 1) == Some(log[i])
      ensures memory == old(memory).(last := memory.last) && memory.last + 1 == NextIndex(wal.entries)
    {
      hide Run, Step, Business, Offered, Persist, Inv, Contiguous, FlatAppend, NextLog, MemoryAppend, SnapshotAt,
        SegmentsOf, Flatten, Holds, NoneEmpty, At, NextIndex, NextCommit, ApplyCommand, AppliedIndexOf;
      ghost var before := Now();
      NodeFacts(history, before);
      PersistMatches(before, memory, wal.codec, rd);
      StoreReady(rd);
      if |rd.entries| > 0 {
        memory := MemoryAppend(memory, rd.entries).memory;
      }
      log := NextLog(before.wal, before.commit, log, rd);
      PersistIsStep(before, Now(), NextCommit(before.commit, rd.hard), rd.entries);
      RunSnoc(history, Now());
      history := history + [Now()];
    }

    method StoreReady(rd: Ready)
      requires Open() && Contiguous(rd.entries) && AllEncodable(wal.codec, rd.entries)
      requires FlatAppend(wal.entries, rd.entries).Appended?
      modifies wal, wal.disk
      ensures Open()
      ensures wal.Persisted() == FlatAppend(old(wal.entries), rd.entries).log
      ensures wal.PersistedState().commit == NextCommit(old(wal.PersistedState().commit), rd.hard)
    {
      if !IsEmptyHardState(rd.hard) || |rd.entries| > 0 {
        var _ := wal.Append(rd.hard, rd.entries);
      }
    }

    /** The state machine is exported into a snapshot file at the applied index. */
    method CreateSnapshotFile(id: Id, payload: Payload)
      requires Linked() && Open() && mode == Running(id.index) && id.index >= 1
      requires payload == Export(kv.disk) && forall other :: other in snaps.metas ==> other.index < id.index
      modifies this`history, snaps
      ensures Linked() && Open() && old(history) <= history
      ensures IsNewest(snaps.metas, id) && id in snaps.data && snaps.data[id] == payload
    {
      hide Run, Step, Inv, AllSafe, After, Sound, IsNewest, Export, Holds, SegmentsOf, Flatten, Contiguous;
      ghost var before, past := Now(), snaps.journal;
      NodeFacts(history, before);
      snaps.Create(id, payload);
      ghost var ops := snaps.journal[|past|..];
      assert ops[0] == RenameData(id, payload) && ops[1] == RenameMeta(id) && OnlyRemovals(ops, 2);
      history := CreateTrail(history, before, ops, id);
      RemovalsKeepNewest(before.snaps, ops, id);
    }

    method CleanupSnapshots()
      requires Linked() && Open() && mode.Running?
      modifies this`history, snaps
      ensures Linked() && Open() && old(history) <= history
      ensures forall id :: IsNewest(old(snaps.metas), id) && id in old(snaps.data) ==>
                IsNewest(snaps.metas, id) && id in snaps.data && snaps.data[id] == old(snaps.data)[id]
      ensures |snaps.metas| <= if config.keepSnapshots <= 0 then snaps.keep else config.keepSnapshots
    {
      hide Run, Step, Inv, AllSafe, After, Sound, SnapshotAt, Holds, SegmentsOf, Flatten, Contiguous;
      ghost var before, past := Now(), snaps.journal;
      NodeFacts(history, before);
      var _ := snaps.Cleanup(config.keepSnapshots);
      history := RemovalTrail(history, before, snaps.journal[|past|..]);
      forall id | IsNewest(before.snaps.metas, id) && id in before.snaps.data
        ensures IsNewest(snaps.metas, id) && id in snaps.data && snaps.data[id] == before.snaps.data[id] {
        RemovalsKeep(before.snaps, snaps.journal[|past|..], id);
      }
    }

    method CompactLog(index: nat)
      requires Linked() && Open() && mode.Running?
      requires SnapshotAt(snaps.Files(), memory.snapshot) && index <= memory.snapshot
      modifies this`history, wal`entries, wal`segments, wal.disk
      ensures Linked() && Open() && old(history) <= history
      ensures wal.entries == FlatTruncate(old(wal.entries), index)
    {
      hide Run, Step, Holds, SegmentsOf, Flatten, Contiguous, FlatTruncate, SnapshotAt;
      ghost var before := Now();
      var _ := wal.TruncatePrefix(index);
      assert Compact(before, Now(), index) by { assert SnapshotAt(before.snaps, memory.snapshot); }
      CompactIsStep(before, Now(), index);
      RunSnoc(history, Now());
      history := history + [Now()];
    }

    /** Takes a snapshot once enough entries were applied since the last one, then compacts behind it. */
    method MaybeTriggerSnapshot(term: nat)
      requires Valid() && AppliedIndexOf(kv.disk) == mode.cursor
      modifies this`memory, this`history, wal`entries, wal`segments, wal.disk, snaps
      ensures Valid() && old(history) <= history
      ensures old(memory.snapshot) <= mode.cursor
      ensures mode.cursor == old(memory.snapshot) || mode.cursor - old(memory.snapshot) < config.snapshotEntries ==>
                memory == old(memory) && wal.entries == old(wal.entries) && snaps.Files() == old(snaps.Files())
      ensures mode.cursor > old(memory.snapshot) && mode.cursor - old(memory.snapshot) >= config.snapshotEntries ==>
                var id, retain := Id(term, mode.cursor), config.compactRetainEntries;
                IsNewest(snaps.metas, id) && id in snaps.data && snaps.data[id] == Export(kv.disk)
                && |snaps.metas| <= (if config.keepSnapshots <= 0 then snaps.keep else config.keepSnapshots)
                && memory.snapshot == mode.cursor
                && var c := if 0 < retain < mode.cursor then mode.cursor - retain else mode.cursor;
                   wal.entries == if c >= old(memory).first then FlatTruncate(old(wal.entries), c) else old(wal.entries)
    {
      hide Run, Step, Holds, SegmentsOf, Flatten, Contiguous, FlatTruncate, AppliedIndexOf, Export, SnapshotAt,
        IsNewest;
      NodeFacts(history, Now());
      var applied := kv.AppliedIndex();
      if applied.value == 0 {
        return;
      }
      if (applied.value - memory.snapshot) % Bytes.UINT64_LIMIT < config.snapshotEntries {
        return;
      }
      var payload := kv.Snapshot();
      var created := MemoryCreateSnapshot(memory, applied.value);
      if created.OutOfDate? {
        return;
      }
      TakeSnapshot(Id(term, applied.value), payload.value);
    }

    method TakeSnapshot(id: Id, payload: Payload)
      requires Valid() && AppliedIndexOf(kv.disk) == mode.cursor == id.index > memory.snapshot
      requires payload == Export(kv.disk)
      modifies this`memory, this`history, wal`entries, wal`segments, wal.disk, snaps
      ensures Valid() && old(history) <= history
      ensures IsNewest(snaps.metas, id) && id in snaps.data && snaps.data[id] == Export(kv.disk)
      ensures |snaps.metas| <= if config.keepSnapshots <= 0 then snaps.keep else config.keepSnapshots
      ensures var c := CompactIndex(config, id.index);
              c <= memory.snapshot == id.index
              && wal.entries == if c >= old(memory).first then FlatTruncate(old(wal.entries), c) else old(wal.entries)
    {
      hide Run, Step, Holds, SegmentsOf, Flatten, Contiguous, FlatTruncate, AppliedIndexOf, Export, Inv;
      NodeFacts(history, Now());
      OldSnapshotsBelow(snaps.Files(), memory.snapshot);
      memory := MemoryCreateSnapshot(memory, id.index).memory;
      CreateSnapshotFile(id, payload);
      var compactIndex := CompactIndex(config, id.index);
      if compactIndex >= memory.first {
        memory := MemoryCompact(memory, compactIndex).memory;
        TruncatedEnd(history, Now(), compactIndex);
        CompactLog(compactIndex);
      }
      CleanupSnapshots();
    }

    /** One Ready batch: persist, apply what is committed, snapshot when due. */
    method HandleReady(rd: Ready, term: nat)
      requires Valid() && Offered(wal.codec, wal.entries, Now().commit, log, mode.cursor, rd)
      modifies this, wal, wal.disk, kv`disk, snaps
      ensures Valid() && old(history) <= history
      ensures log == NextLog(old(wal.entries), old(Now().commit), old(log), rd) && old(log) <= log
      ensures |log| == if rd.hard == HardState(0, 0, 0) then |old(log)| else rd.hard.commit
      ensures mode == Running(old(mode).cursor + |rd.committed|)
      ensures Business(kv.disk) == Business(Fold(old(kv.disk), Commands(rd.committed)))
      ensures mode.cursor == |log| ==> Business(kv.disk) == Expected(log)
      ensures appliedIndex == if rd.committed == [] then old(appliedIndex) else mode.cursor
      ensures commitIndex == if rd.hard == HardState(0, 0, 0) then old(commitIndex) else rd.hard.commit
      ensures old(Reported()) ==> Reported()
      ensures old(memory.snapshot) <= mode.cursor
      ensures if mode.cursor > old(memory.snapshot) && mode.cursor - old(memory.snapshot) >= config.snapshotEntries
              then
                var id := Id(term, mode.cursor);
                IsNewest(snaps.metas, id) && id in snaps.data && snaps.data[id] == Export(kv.disk)
                && memory.snapshot == mode.cursor
              else snaps.Files() == old(snaps.Files()) && memory.snapshot == old(memory.snapshot)
    {
      hide Run, Step, Holds, SegmentsOf, Flatten, Contiguous, AppliedIndexOf, Business, Fold, FlatAppend, NextLog,
        Offered, Inv, SnapshotAt, Expected, IsNewest, Export, ReportedBy;
      ghost var before, applied := Now(), appliedIndex;
      PersistAndApply(rd);
      UpdateStatus(rd);
      MaybeTriggerSnapshot(term);
      BatchIsReported(before, Now(), applied, rd.committed);
      if mode.cursor == |log| {
        Complete(history, Now());
      }
    }

    method PersistAndApply(rd: Ready)
      requires Valid() && Offered(wal.codec, wal.entries, Now().commit, log, mode.cursor, rd)
      modifies this`memory, this`history, this`log, this`mode, this`appliedIndex, wal, wal.disk, kv`disk
      ensures Valid() && AppliedIndexOf(kv.disk) == mode.cursor && old(history) <= history
      ensures memory.snapshot == old(memory.snapshot)
      ensures log == NextLog(old(wal.entries), old(Now().commit), old(log), rd) && old(log) <= log
      ensures |log| == if rd.hard == HardState(0, 0, 0) then |old(log)| else rd.hard.commit
      ensures mode == Running(old(mode).cursor + |rd.committed|)
      ensures if rd.committed != [] then LastIndex(rd.committed) == mode.cursor else mode.cursor == |log|
      ensures old(log) <= log && mode.cursor <= |log|
      ensures Business(kv.disk) == Business(Fold(old(kv.disk), Commands(rd.committed)))
      ensures appliedIndex == if rd.committed == [] then old(appliedIndex) else mode.cursor
    {
      hide Run, Step, Holds, SegmentsOf, Flatten, Contiguous, AppliedIndexOf, Business, Fold, FlatAppend, NextLog,
        Offered, Inv;
      OfferedFacts(history, Now(), wal.codec, rd);
      PersistReady(rd);
      NodeFacts(history, Now());
      InPosition(log, mode.cursor, rd.committed);
      ApplyCommittedEntries(rd.committed);
    }

    method UpdateStatus(rd: Ready)
      modifies this`appliedIndex, this`commitIndex
      ensures commitIndex == if rd.hard == HardState(0, 0, 0) then old(commitIndex) else rd.hard.commit
      ensures appliedIndex == if rd.committed == [] then old(appliedIndex) else LastIndex(rd.committed)
    {
      if !IsEmptyHardState(rd.hard) {
        commitIndex := rd.hard.commit;
      }
      if |rd.committed| > 0 {
        appliedIndex := LastIndex(rd.committed);
      }
    }

    // Starting.

    /** Opens the stores and rebuilds the state machine from what is on disk. */
    method Start()
      requires Linked() && mode.Down? && memory == EMPTY_MEMORY && |log| < Bytes.UINT64_LIMIT
      requires wal.Sound() && !wal.isOpen && snaps.keep >= 1
      modifies this, wal`state, wal`entries, wal`segments, wal`isOpen, kv
      ensures Valid() && old(history) <= history && log == old(log)
      ensures mode == Running(memory.snapshot)
      ensures Business(kv.disk) == Expected(log) && AppliedIndexOf(kv.disk) == |log|
      ensures appliedIndex == commitIndex == |log| && Reported()
    {
      hide Run, Step, Holds, SegmentsOf, Flatten, Contiguous, AppliedIndexOf, Business, Expected, Export, Restored, Inv;
      kv.Open();
      var outcome := wal.Open();
      BootstrapStorage();
    }

    method BootstrapStorage()
      requires Linked() && Open() && mode.Down? && memory == EMPTY_MEMORY && |log| < Bytes.UINT64_LIMIT
      modifies this, kv`disk
      ensures Valid() && old(history) <= history && log == old(log)
      ensures mode == Running(memory.snapshot)
      ensures Business(kv.disk) == Expected(log) && AppliedIndexOf(kv.disk) == |log|
      ensures appliedIndex == commitIndex == |log|
      ensures freshNode ==
              (old(freshNode) && wal.state == HardState(0, 0, 0) && wal.entries == [] && memory.snapshot == 0)
    {
      hide Run, Step, Holds, SegmentsOf, Flatten, Contiguous, AppliedIndexOf, Business, Expected, Export, Restored, Inv,
        SnapshotAt;
      var snapshotIndex := RestoreLatest();
      RecoverLog(snapshotIndex);
      FinishBoot(snapshotIndex);
    }

    /** The write-ahead log goes to the library's memory and its committed part to the state machine. */
    method RecoverLog(snapshotIndex: nat)
      requires Linked() && Open() && |log| < Bytes.UINT64_LIMIT && SnapshotAt(snaps.Files(), snapshotIndex)
      requires mode == Booting(snapshotIndex + 1) && memory == Memory(snapshotIndex, snapshotIndex + 1, snapshotIndex)
      requires snapshotIndex > 0 ==> AppliedIndexOf(kv.disk) == snapshotIndex
      modifies this, kv`disk
      ensures Linked() && Open() && old(history) <= history && log == old(log)
      ensures mode == Booting(|log| + 1) && AppliedIndexOf(kv.disk) == |log|
      ensures memory.snapshot == snapshotIndex && memory.first == snapshotIndex + 1
      ensures memory.last + 1 == NextIndex(wal.entries)
      ensures appliedIndex == commitIndex == |log|
      ensures freshNode ==
              (old(freshNode) && wal.state == HardState(0, 0, 0) && wal.entries == [] && snapshotIndex == 0)
    {
      hide Run, Step, Holds, SegmentsOf, Flatten, Contiguous, AppliedIndexOf, Business, Expected, Export, Restored, Inv,
        SnapshotAt;
      NodeFacts(history, Now());
      var _, hard, entries := wal.LoadAll();
      BootMemory(memory, entries, |log|);
      if |entries| > 0 {
        memory := MemoryAppend(memory, entries).memory;
      }
      if !IsEmptyHardState(hard) || |entries| > 0 || snapshotIndex > 0 {
        freshNode := false;
      }
      appliedIndex, commitIndex := hard.commit, hard.commit;
      if !IsEmptyHardState(hard) && hard.commit > snapshotIndex {
        ReplayCommitted(snapshotIndex, hard.commit, entries);
      }
    }

    /** The newest snapshot, when there is one, becomes the state machine and the library's memory. */
    method RestoreLatest() returns (snapshotIndex: nat)
      requires Linked() && Open() && mode.Down? && memory == EMPTY_MEMORY && |log| < Bytes.UINT64_LIMIT
      modifies this`memory, this`mode, this`history, kv`disk
      ensures Linked() && Open() && old(history) <= history
      ensures mode == Booting(snapshotIndex + 1) && memory == Memory(snapshotIndex, snapshotIndex + 1, snapshotIndex)
      ensures SnapshotAt(snaps.Files(), snapshotIndex)
      ensures snapshotIndex > 0 ==> AppliedIndexOf(kv.disk) == snapshotIndex
    {
      hide Run, Step, Holds, SegmentsOf, Flatten, Contiguous, AppliedIndexOf, Business, Expected, Export, Restored, Inv;
      ghost var before := Now();
      NodeFacts(history, before);
      NewestFacts(history, before);
      var found := snaps.OpenLatest();
      snapshotIndex := 0;
      if found.Opened? && found.id.index > 0 {
        snapshotIndex := found.id.index;
        var _ := kv.Restore(found.contents);
        memory := MemorySnapshot(memory, snapshotIndex).memory;
      }
      mode := Booting(snapshotIndex + 1);
      PowerOnIsStep(before, Now());
      RunSnoc(history, Now());
      history := history + [Now()];
      if found.Opened? && found.id.index > 0 {
        MarkApplied(snapshotIndex, found.id.term);
      }
    }

    /** Applies again every entry above the snapshot up to the persisted commit. */
    method ReplayCommitted(snapshotIndex: nat, commit: nat, entries: seq<Entry>)
      requires Linked() && Open() && mode == Booting(snapshotIndex + 1) && SnapshotAt(snaps.Files(), snapshotIndex)
      requires entries == wal.entries && commit == |log| && snapshotIndex < |log| < Bytes.UINT64_LIMIT
      modifies this`mode, this`history, kv`disk
      ensures Linked() && Open() && old(history) <= history
      ensures mode == Booting(|log| + 1) && AppliedIndexOf(kv.disk) == |log|
    {
      hide Run, Step, Holds, SegmentsOf, Flatten, Contiguous, AppliedIndexOf, Business, Expected, Export, Restored, Inv,
        SnapshotAt;
      hide NextAfter, At;
      NodeFacts(history, Now());
      WalkFacts(entries, snapshotIndex, commit);
      for i := 0 to |entries|
        invariant Linked() && Open() && old(history) <= history
        invariant mode == Booting(NextAfter(snapshotIndex, commit, entries[0].index + i - 1))
        invariant i == 0 || mode.next == snapshotIndex + 1 || AppliedIndexOf(kv.disk) == mode.next - 1
      {
        if entries[i].index <= snapshotIndex || entries[i].index > commit {
          continue;
        }
        BootEntry(entries[i]);
      }
    }

    method BootEntry(e: Entry)
      requires Linked() && Open() && mode.Booting? && 1 <= mode.next <= |log| < Bytes.UINT64_LIMIT
      requires At(wal.entries, mode.next) == Some(e) && e.index == mode.next
      modifies this`mode, this`history, kv`disk
      ensures Linked() && Open() && old(history) <= history
      ensures mode == Booting(old(mode).next + 1) && AppliedIndexOf(kv.disk) == old(mode).next
      ensures Business(kv.disk) ==
              Business(if e.kind.Normal? && e.command.Some? then ApplyCommand(old(kv.disk), e.command.value)
                       else old(kv.disk))
    {
      hide Run, Step, Holds, SegmentsOf, Flatten, Contiguous, AppliedIndexOf, Business, Expected, Export, Restored, Inv,
        SnapshotAt, At, ApplyCommand, CommandOf, NextIndex;
      ghost var before := Now();
      NodeFacts(history, before);
      if e.kind.Normal? && e.command.Some? {
        var _ := kv.Apply(e.command.value);
      }
      mode := Booting(mode.next + 1);
      CommandIs(e);
      BootApplyIsStep(before, Now(), e);
      RunSnoc(history, Now());
      history := history + [Now()];
      MarkApplied(e.index, e.term);
    }

    ghost method FinishBoot(s: nat)
      requires Linked() && mode == Booting(|log| + 1) && SnapshotAt(snaps.Files(), s)
      modifies this`mode, this`history
      ensures Linked() && old(history) <= history && mode == Running(s) && s <= |log|
      ensures Business(kv.disk) == Expected(log)
    {
      hide Run, Step, Holds, SegmentsOf, Flatten, Contiguous, AppliedIndexOf, Business, Expected, Export, Restored, Inv,
        SnapshotAt;
      ghost var before := Now();
      NodeFacts(history, before);
      mode := Running(s);
      BootDoneIsStep(before, Now(), s);
      RunSnoc(history, Now());
      history := history + [Now()];
      BootRebuilds(history, |history| - 2);
    }
  }

  /** The next entry to apply when the write-ahead log has been walked up to an index. */
  function NextAfter(s: nat, commit: nat, walked: nat): nat {
    if walked <= s then s + 1 else if walked <= commit then walked + 1 else commit + 1
  }

  ghost predicate ReportedBy(applied: nat, st: State) {
    && st.mode.Running? && applied <= |st.log|
    && (applied <= st.mode.cursor || Business(st.kv) == Expected(st.log))
  }

  lemma BatchIsReported(a: State, b: State, applied: nat, committed: seq<Entry>)
    requires a.mode.Running? && b.mode == Running(a.mode.cursor + |committed|) && b.mode.cursor <= |b.log|
             && a.log <= b.log
    requires committed == [] ==> a.mode.cursor == |b.log|
    ensures ReportedBy(applied, a) ==> ReportedBy(if committed == [] then applied else b.mode.cursor, b)
  {
    hide Business, Expected;
  }

  function CompactIndex(config: Config, applied: nat): (index: nat)
    ensures index <= applied
  {
    if config.compactRetainEntries > 0 && applied > config.compactRetainEntries
    then applied - config.compactRetainEntries else applied
  }

  /** Compaction keeps the configured number of entries before the applied index exactly when more than
      that many were applied; an earlier snapshot drops all of them. */
  lemma RecentEntriesStayExactly(config: Config, log: seq<Entry>, applied: nat, index: nat)
    requires Contiguous(log) && index < applied <= index + config.compactRetainEntries && At(log, index).Some?
    ensures At(FlatTruncate(log, CompactIndex(config, applied)), index) == At(log, index)
       <==> applied > config.compactRetainEntries
  {
    TruncateByIndex(log, CompactIndex(config, applied), index);
  }

  lemma WithAppliedIndexIs(db: Db, index: nat)
    ensures db[APPLIED_INDEX_KEY := Bytes.BigEndian(index, 8)] == WithAppliedIndex(db, index)
  {
  }

  lemma TermKeyIsApart(db: Db, value: string)
    ensures AppliedIndexOf(db[APPLIED_TERM_KEY := value]) == AppliedIndexOf(db)
    ensures Business(db[APPLIED_TERM_KEY := value]) == Business(db)
  {
    assert APPLIED_TERM_KEY[|APPLIED_TERM_KEY| - 1] != APPLIED_INDEX_KEY[|APPLIED_INDEX_KEY| - 1];
    assert META_PREFIX == APPLIED_TERM_KEY[..|META_PREFIX|];
  }

  lemma MetaKeysStayHidden(db: Db, key: string, value: string)
    requires key == APPLIED_INDEX_KEY || key == APPLIED_TERM_KEY
    ensures IsMetaKey(key) && Business(db[key := value]) == Business(db)
  {
    assert META_PREFIX == key[..|META_PREFIX|];
  }

  lemma NothingFolded(db: Db)
    ensures Fold(db, Commands([])) == db
  {
  }

  lemma FoldSnoc(db: Db, es: seq<Entry>, i: nat)
    requires i < |es|
    ensures Fold(db, Commands(es[..i + 1])) == ApplyCommand(Fold(db, Commands(es[..i])), CommandOf(es[i]))
  {
    var cmds := Commands(es[..i + 1]);
    assert cmds[..i] == Commands(es[..i]);
  }

  lemma RunSnoc(history: seq<State>, st: State)
    requires Run(history) && Step(history[|history| - 1], st)
    ensures Run(history + [st])
  {
  }

  lemma DeliverIsStep(a: State, b: State)
    requires Deliver(a, b)
    ensures Step(a, b)
  {
  }

  lemma MetaIsStep(a: State, b: State)
    requires WriteMeta(a, b)
    ensures Step(a, b)
  {
  }

  lemma PersistIsStep(a: State, b: State, commit: nat, batch: seq<Entry>)
    requires Persist(a, b, commit, batch)
    ensures Step(a, b)
  {
  }

  /** What the recovery invariant says about the state a run has led to. */
  lemma NodeFacts(history: seq<State>, st: State)
    requires Run(history) && history[|history| - 1] == st
    ensures Inv(st) && st.commit == |st.log| < NextIndex(st.wal) && Contiguous(st.wal) && Sound(st.snaps)
            && Numbered(st.log)
    ensures st.mode.Running? ==> st.mode.cursor <= |st.log|
    ensures st.log == [] ==> AppliedIndexOf(st.kv) == 0
    ensures forall s: nat :: SnapshotAt(st.snaps, s) ==>
              s <= |st.log| && (st.wal != [] ==> st.wal[0].index <= s + 1) && (st.mode.Running? ==> s <= st.mode.cursor)
  {
    InvAlways(history, |history| - 1);
  }

  /** The library's memory takes the batch without panicking, and ends where the write-ahead log ends. */
  lemma BatchFits(st: State, m: Memory, batch: seq<Entry>)
    requires Inv(st) && SnapshotAt(st.snaps, m.snapshot) && m.first <= m.snapshot + 1
    requires m.last + 1 == NextIndex(st.wal)
    requires Contiguous(batch) && (batch != [] ==> st.commit < batch[0].index <= NextIndex(st.wal))
    ensures AcceptedBatch(st.wal, batch) && FlatAppend(st.wal, batch).Appended?
    ensures MemoryAppend(m, batch).Changed?
    ensures var after := MemoryAppend(m, batch).memory;
            after == m.(last := after.last) && after.last + 1 == NextIndex(FlatAppend(st.wal, batch).log)
  {
    if batch != [] {
      AppendEndsWithBatch(st.wal, batch);
    }
  }

  /** The committed log grows up to the new commit, by the entries persisted there. */
  lemma LogGrows(wal: seq<Entry>, commit: nat, log: seq<Entry>, rd: Ready)
    requires Contiguous(wal) && AcceptedBatch(wal, rd.entries) && commit == |log|
    requires wal != [] ==> wal[0].index <= commit + 1
    requires rd.entries != [] ==> commit < rd.entries[0].index <= NextIndex(wal)
    requires FlatAppend(wal, rd.entries).Appended?
    requires commit <= NextCommit(commit, rd.hard) < NextIndex(FlatAppend(wal, rd.entries).log)
    ensures var after, longer := FlatAppend(wal, rd.entries).log, NextLog(wal, commit, log, rd);
            && log <= longer
            && |longer| == (if rd.hard == HardState(0, 0, 0) then commit else rd.hard.commit)
            && forall i :: commit <= i < |longer| ==> At(after, i + 1) == Some(longer[i])
  {
    hide FlatAppend, At, Window, Contiguous, NextIndex;
    AppendedStart(wal, FlatAppend(wal, rd.entries).log, commit, rd.entries);
    WindowIs(FlatAppend(wal, rd.entries).log, commit, NextCommit(commit, rd.hard));
  }

  lemma PersistMatches(st: State, m: Memory, codec: Codec, rd: Ready)
    requires Inv(st) && st.mode.Running? && SnapshotAt(st.snaps, m.snapshot) && m.first <= m.snapshot + 1
    requires m.last + 1 == NextIndex(st.wal)
    requires Offered(codec, st.wal, st.commit, st.log, st.mode.cursor, rd)
    ensures FlatAppend(st.wal, rd.entries).Appended? && Contiguous(rd.entries) && AllEncodable(codec, rd.entries)
    ensures MemoryAppend(m, rd.entries).Changed?
    ensures var after := MemoryAppend(m, rd.entries).memory;
            after == m.(last := after.last) && after.last + 1 == NextIndex(FlatAppend(st.wal, rd.entries).log)
    ensures rd.entries == [] ==> FlatAppend(st.wal, rd.entries).log == st.wal
    ensures Persist(st, st.(wal := FlatAppend(st.wal, rd.entries).log,
                            commit := NextCommit(st.commit, rd.hard),
                            log := NextLog(st.wal, st.commit, st.log, rd)),
                    NextCommit(st.commit, rd.hard), rd.entries)
    ensures var after, log := FlatAppend(st.wal, rd.entries).log, NextLog(st.wal, st.commit, st.log, rd);
            && |log| == (if rd.hard == HardState(0, 0, 0) then |st.log| else rd.hard.commit)
            && forall i :: |st.log| <= i < |log| ==> At(after, i + 1) == Some(log[i])
  {
    BatchFits(st, m, rd.entries);
    LogGrows(st.wal, st.commit, st.log, rd);
  }

  lemma FileIsStep(a: State, b: State, op: FileOp<Payload>)
    requires SnapshotFile(a, b, op)
    ensures Step(a, b)
  {
  }

  /** The states a series of removals passes through. */
  lemma {:induction false} RemovalTrail(history: seq<State>, st: State, ops: seq<FileOp<Payload>>)
    returns (longer: seq<State>)
    requires Run(history) && history != [] && history[|history| - 1] == st && st.mode.Running?
    requires AllSafe(st.snaps, ops) && OnlyRemovals(ops, 0)
    ensures history <= longer && longer != [] && Run(longer)
    ensures longer[|longer| - 1] == st.(snaps := After(st.snaps, ops))
    decreases |ops|
  {
    hide Run, Step;
    longer := history;
    if ops != [] {
      var front, op := ops[..|ops| - 1], ops[|ops| - 1];
      longer := RemovalTrail(history, st, front);
      var last, next := longer[|longer| - 1], st.(snaps := After(st.snaps, ops));
      assert SnapshotFile(last, next, op);
      FileIsStep(last, next, op);
      RunSnoc(longer, next);
      longer := longer + [next];
    }
  }

  /** The states a snapshot's creation passes through: data, metadata, removals. */
  lemma CreateTrail(history: seq<State>, st: State, ops: seq<FileOp<Payload>>, id: Id)
    returns (longer: seq<State>)
    requires Run(history) && history[|history| - 1] == st && st.mode == Running(id.index) && id.index >= 1
    requires |ops| >= 2 && ops[0] == RenameData(id, Export(st.kv)) && ops[1] == RenameMeta(id)
    requires AllSafe(st.snaps, ops) && OnlyRemovals(ops, 2)
    requires forall other :: other in st.snaps.metas ==> other.index < id.index
    ensures history <= longer && longer != [] && Run(longer)
    ensures longer[|longer| - 1] == st.(snaps := After(st.snaps, ops))
  {
    hide Run, Step;
    var data := st.(snaps := Do(st.snaps, ops[0]));
    var meta := data.(snaps := Do(data.snaps, ops[1]));
    assert SnapshotFile(st, data, ops[0]) && SnapshotFile(data, meta, ops[1]);
    FileIsStep(st, data, ops[0]);
    RunSnoc(history, data);
    FileIsStep(data, meta, ops[1]);
    RunSnoc(history + [data], meta);
    HeadAndRest(st.snaps, ops);
    longer := RemovalTrail(history + [data] + [meta], meta, ops[2..]);
  }

  lemma HeadAndRest(dir: Snapshots, ops: seq<FileOp<Payload>>)
    requires |ops| >= 2 && AllSafe(dir, ops) && OnlyRemovals(ops, 2)
    ensures var middle := Do(Do(dir, ops[0]), ops[1]);
            AllSafe(middle, ops[2..]) && After(dir, ops) == After(middle, ops[2..])
    ensures OnlyRemovals(ops[2..], 0)
  {
    assert [ops[0], ops[1]] + ops[2..] == ops;
    AfterPair(dir, ops[0], ops[1]);
    AfterConcat(dir, [ops[0], ops[1]], ops[2..]);
  }

  lemma {:induction false} RemovalsKeep(dir: Snapshots, ops: seq<FileOp<Payload>>, id: Id)
    requires AllSafe(dir, ops) && OnlyRemovals(ops, 0) && IsNewest(dir.metas, id) && id in dir.data
    ensures IsNewest(After(dir, ops).metas, id)
    ensures id in After(dir, ops).data && After(dir, ops).data[id] == dir.data[id]
    decreases |ops|
  {
    if ops != [] {
      RemovalsKeep(dir, ops[..|ops| - 1], id);
    }
  }

  lemma RemovalsKeepNewest(dir: Snapshots, ops: seq<FileOp<Payload>>, id: Id)
    requires |ops| >= 2 && ops[0].RenameData? && ops[0].id == id && ops[1] == RenameMeta(id)
    requires AllSafe(dir, ops) && OnlyRemovals(ops, 2)
    requires forall other :: other in dir.metas ==> other.index < id.index
    ensures IsNewest(After(dir, ops).metas, id)
    ensures id in After(dir, ops).data && After(dir, ops).data[id] == ops[0].contents
  {
    HeadAndRest(dir, ops);
    RemovalsKeep(Do(Do(dir, ops[0]), ops[1]), ops[2..], id);
  }

  lemma CompactIsStep(a: State, b: State, index: nat)
    requires Compact(a, b, index)
    ensures Step(a, b)
  {
  }

  lemma OldSnapshotsBelow(dir: Snapshots, s: nat)
    requires SnapshotAt(dir, s)
    ensures forall id :: id in dir.metas ==> id.index <= s
  {
  }

  /** Truncating at a covered index leaves the end of the write-ahead log where it was. */
  lemma TruncatedEnd(history: seq<State>, st: State, index: nat)
    requires Run(history) && history[|history| - 1] == st && index <= |st.log|
    ensures NextIndex(FlatTruncate(st.wal, index)) == NextIndex(st.wal)
  {
    NodeFacts(history, st);
    FiltersAreSlices(st.wal, index);
  }

  /** The offered committed entries carry the positions they are delivered at. */
  lemma OfferedFacts(history: seq<State>, st: State, codec: Codec, rd: Ready)
    requires Run(history) && history[|history| - 1] == st && st.mode.Running?
    requires Offered(codec, st.wal, st.commit, st.log, st.mode.cursor, rd)
    ensures var after := NextLog(st.wal, st.commit, st.log, rd);
            && st.log <= after && |after| < Bytes.UINT64_LIMIT
            && st.mode.cursor + |rd.committed| <= |after|
            && rd.committed == after[st.mode.cursor..st.mode.cursor + |rd.committed|]
            && (rd.committed == [] ==> st.mode.cursor == |after|)
  {
    NodeFacts(history, st);
  }

  lemma InPosition(log: seq<Entry>, low: nat, committed: seq<Entry>)
    requires Numbered(log) && low + |committed| <= |log| && committed == log[low..low + |committed|]
    ensures forall i :: 0 <= i < |committed| ==> committed[i].index == low + i + 1
    ensures committed != [] ==> LastIndex(committed) == low + |committed|
  {
  }

  lemma Complete(history: seq<State>, st: State)
    requires Run(history) && history[|history| - 1] == st && st.mode == Running(|st.log|)
    ensures Business(st.kv) == Expected(st.log)
  {
    NodeFacts(history, st);
    CaughtUpIsExpected(history, |history| - 1);
  }

  lemma PowerOnIsStep(a: State, b: State)
    requires PowerOn(a, b)
    ensures Step(a, b)
  {
  }

  lemma BootApplyIsStep(a: State, b: State, e: Entry)
    requires a.mode.Booting? && a.mode.next <= a.commit && At(a.wal, a.mode.next) == Some(e)
    requires b == a.(kv := ApplyCommand(a.kv, CommandOf(e)), mode := Booting(a.mode.next + 1))
    ensures Step(a, b)
  {
    assert BootApply(a, b);
  }

  lemma CommandIs(e: Entry)
    ensures CommandOf(e) == if e.kind.Normal? && e.command.Some? then e.command.value else Unknown
    ensures forall db :: ApplyCommand(db, Unknown) == db
  {
  }

  lemma BootDoneIsStep(a: State, b: State, s: nat)
    requires a.mode.Booting? && a.mode.next > a.commit && SnapshotAt(a.snaps, s) && b == a.(mode := Running(s))
    ensures BootDone(a, b) && Step(a, b)
  {
  }

  lemma NewestFacts(history: seq<State>, st: State)
    requires Run(history) && history[|history| - 1] == st
    ensures forall id :: IsNewest(st.snaps.metas, id) ==>
              id in st.snaps.data && id.index >= 1 && id.index <= |st.log| && SnapshotAt(st.snaps, id.index)
  {
    NodeFacts(history, st);
  }

  /** Walking the whole write-ahead log passes exactly the entries above the snapshot up to the commit. */
  lemma WalkFacts(es: seq<Entry>, s: nat, commit: nat)
    requires Contiguous(es) && s < commit < NextIndex(es) && es[0].index <= s + 1
    ensures es[0].index >= 1 && NextAfter(s, commit, es[0].index - 1) == s + 1
    ensures NextAfter(s, commit, es[0].index + |es| - 1) == commit + 1 > s + 1
    ensures forall i :: 0 <= i < |es| ==>
              var before := NextAfter(s, commit, es[0].index + i - 1);
              var after := NextAfter(s, commit, es[0].index + (i + 1) - 1);
              if es[i].index <= s || es[i].index > commit then after == before
              else s < before == es[i].index && after == before + 1 && At(es, before) == Some(es[i])
  {
  }

  /** The library's memory takes the write-ahead log without panicking, and ends where that ends. */
  lemma BootMemory(m: Memory, es: seq<Entry>, committed: nat)
    requires m.first == m.snapshot + 1 && m.last == m.snapshot <= committed < NextIndex(es)
    requires Contiguous(es) && (es != [] ==> es[0].index <= m.snapshot + 1)
    ensures MemoryAppend(m, es).Changed?
    ensures var after := MemoryAppend(m, es).memory;
            after == m.(last := after.last) && after.last + 1 == NextIndex(es)
  {
  }
}
