/** Whole histories of the write-ahead log against one flat log. */
module WalRuns {
  import opened Options
  import opened RaftLog
  import opened SegmentFormat
  import opened WalLayout
  import opened Wal

  /** `Reopen` closes the log and opens the directory again with a new log object. */
  datatype Op = Write(hard: HardState, batch: seq<Entry>) | Truncate(index: nat) | Reopen

  datatype Flat = Flat(hard: HardState, log: seq<Entry>)

  const EMPTY := Flat(HardState(0, 0, 0), [])

  function FlatStep(flat: Flat, op: Op): Flat {
    match op
    case Write(hard, batch) =>
      var kept := if IsEmptyHardState(hard) then flat.hard else hard;
      (match FlatAppend(flat.log, batch)
       case Appended(log) => Flat(kept, log)
       case Gap => Flat(kept, flat.log))
    case Truncate(index) => flat.(log := FlatTruncate(flat.log, index))
    case Reopen => flat
  }

  function FlatRun(ops: seq<Op>): Flat {
    if ops == [] then EMPTY else FlatStep(FlatRun(ops[..|ops| - 1]), ops[|ops| - 1])
  }

  ghost predicate Writable(codec: Codec, op: Op) {
    op.Write? ==> Contiguous(op.batch) && AllEncodable(codec, op.batch)
  }

  /** After any sequence of appends, truncations and restarts, accepted or refused, loading returns what
      the flat log holds. */
  method LoadAfter(disk: WalDisk, codec: Codec, maxSegmentSize: int, ops: seq<Op>)
    returns (hard: HardState, log: seq<Entry>)
    requires disk.files == map[] && disk.hard == None && disk.layout == []
    requires forall op :: op in ops ==> Writable(codec, op)
    modifies disk
    ensures Flat(hard, log) == FlatRun(ops)
    ensures forall k :: 0 <= k < |ops| && ops[k].Write? && ops[k].hard != HardState(0, 0, 0) ==>
              (forall j :: k < j < |ops| && ops[j].Write? ==> ops[j].hard == HardState(0, 0, 0)) ==> hard == ops[k].hard
    ensures (forall j :: 0 <= j < |ops| && ops[j].Write? ==> ops[j].hard == HardState(0, 0, 0)) ==>
              hard == HardState(0, 0, 0)
  {
    hide Holds, Flatten, FlatAppend, FlatTruncate, Contiguous, SegmentsOf;
    NothingHeld(codec, maxSegmentSize);
    var wal := new FileWAL(disk, codec, maxSegmentSize);
    var opened_ := wal.Open();
    NothingFlat();
    for i := 0 to |ops|
      invariant wal.disk == disk && wal.codec == codec && wal.maxSegmentSize == maxSegmentSize && fresh(wal)
      invariant wal.Valid() && wal.isOpen && Flat(wal.state, wal.entries) == FlatRun(ops[..i])
    {
      assert ops[..i + 1][..i] == ops[..i] && ops[i] in ops;
      wal := Perform(wal, ops[i]);
    }
    assert ops[..|ops|] == ops;
    var outcome;
    outcome, hard, log := wal.LoadAll();
    forall k | 0 <= k < |ops| && ops[k].Write? && ops[k].hard != HardState(0, 0, 0)
               && forall j :: k < j < |ops| && ops[j].Write? ==> ops[j].hard == HardState(0, 0, 0)
      ensures hard == ops[k].hard {
      LastHardState(ops, k);
    }
    if forall j :: 0 <= j < |ops| && ops[j].Write? ==> ops[j].hard == HardState(0, 0, 0) {
      LastHardState(ops, -1);
    }
  }

  /** The hard state after a history is the last one written that is not empty, if any. */
  lemma {:induction false} LastHardState(ops: seq<Op>, k: int)
    requires -1 <= k < |ops| && (k >= 0 ==> ops[k].Write? && ops[k].hard != HardState(0, 0, 0))
    requires forall j :: k < j < |ops| && ops[j].Write? ==> ops[j].hard == HardState(0, 0, 0)
    ensures FlatRun(ops).hard == if k < 0 then HardState(0, 0, 0) else ops[k].hard
    decreases |ops|
  {
    hide FlatAppend, FlatTruncate;
    if k < |ops| - 1 {
      LastHardState(ops[..|ops| - 1], k);
    }
  }

  method Perform(wal: FileWAL, op: Op) returns (after: FileWAL)
    requires wal.Valid() && wal.isOpen && Writable(wal.codec, op)
    modifies wal, wal.disk
    ensures after == wal || fresh(after)
    ensures after.disk == wal.disk && after.codec == wal.codec && after.maxSegmentSize == wal.maxSegmentSize
    ensures after.Valid() && after.isOpen
    ensures Flat(after.state, after.entries) == FlatStep(old(Flat(wal.state, wal.entries)), op)
  {
    hide Holds, Flatten, FlatAppend, FlatTruncate, Contiguous, SegmentsOf;
    after := wal;
    match op {
      case Write(hard, batch) => var outcome := wal.Append(hard, batch);
      case Truncate(index) => var outcome := wal.TruncatePrefix(index);
      case Reopen =>
        wal.Close();
        after := new FileWAL(wal.disk, wal.codec, wal.maxSegmentSize);
        var outcome := after.Open();
    }
  }

  lemma NothingHeld(codec: Codec, maxSegmentSize: int)
    ensures Holds(codec, maxSegmentSize, map[], [])
  {
    NothingFlat();
  }

  lemma NothingFlat()
    ensures Flatten([]) == [] && Ids([]) == {}
  {
  }
}
