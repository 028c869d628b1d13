/** The Raft log as one flat sequence, and what appending and truncating mean on it. */
module RaftLog {
  import opened Options
  import opened Storage

  datatype EntryKind = Normal | ConfChange | ConfChangeV2

  /** A log entry; `command` is its decoded payload, None when the payload is empty or does not decode. */
  datatype Entry = Entry(index: nat, term: nat, kind: EntryKind, command: Option<Command>)

  /** What the state machine does for an entry: configuration changes and empty or undecodable payloads
      do nothing to it. */
  function CommandOf(e: Entry): Command {
    if e.kind.Normal? && e.command.Some? then e.command.value else Unknown
  }

  function Commands(es: seq<Entry>): seq<Command> {
    seq(|es|, i requires 0 <= i < |es| => CommandOf(es[i]))
  }

  lemma CommandsConcat(a: seq<Entry>, b: seq<Entry>)
    ensures Commands(a + b) == Commands(a) + Commands(b)
  {
  }

  datatype HardState = HardState(term: nat, vote: nat, commit: nat)

  predicate IsEmptyHardState(state: HardState) {
    state.term == 0 && state.vote == 0 && state.commit == 0
  }

  /** Consecutive indices, counted from 1. */
  predicate Contiguous(es: seq<Entry>) {
    && (es != [] ==> es[0].index >= 1)
    && forall i :: 0 <= i < |es| ==> es[i].index == es[0].index + i
  }

  /** The whole log from its first entry on: each entry's index is its position, counted from 1. */
  predicate Numbered(log: seq<Entry>) {
    forall i :: 0 <= i < |log| ==> log[i].index == i + 1
  }

  function LastIndex(es: seq<Entry>): nat
    requires es != []
  {
    es[|es| - 1].index
  }

  /** The entries with at least the given index, in order. */
  function DropBelow(es: seq<Entry>, index: nat): seq<Entry> {
    if es == [] then []
    else DropBelow(es[..|es| - 1], index) + (if es[|es| - 1].index >= index then [es[|es| - 1]] else [])
  }

  /** The entries below the given index, in order. */
  function KeepBelow(es: seq<Entry>, index: nat): seq<Entry> {
    if es == [] then []
    else KeepBelow(es[..|es| - 1], index) + (if es[|es| - 1].index < index then [es[|es| - 1]] else [])
  }

  /** The least position whose entry has at least the given index; the length when there is none. */
  function FirstAtOrAfter(es: seq<Entry>, index: nat): (pos: nat)
    ensures pos <= |es|
  {
    if es == [] || es[0].index >= index then 0 else 1 + FirstAtOrAfter(es[1..], index)
  }

  function MergeEntries(existing: seq<Entry>, incoming: seq<Entry>): seq<Entry> {
    if incoming == [] then existing
    else if existing == [] then incoming
    else existing[..FirstAtOrAfter(existing, incoming[0].index)] + incoming
  }

  /** On a contiguous log an index is a position, clamped to the ends. */
  function Cut(es: seq<Entry>, index: nat): (pos: nat)
    ensures pos <= |es|
  {
    if es == [] || index <= es[0].index then 0
    else if index - es[0].index > |es| then |es|
    else index - es[0].index
  }

  lemma ContiguousSlice(es: seq<Entry>, i: nat, j: nat)
    requires Contiguous(es) && i <= j <= |es|
    ensures Contiguous(es[i..j])
  {
  }

  lemma {:induction false} FiltersAreSlices(es: seq<Entry>, index: nat)
    requires Contiguous(es)
    ensures DropBelow(es, index) == es[Cut(es, index)..]
    ensures KeepBelow(es, index) == es[..Cut(es, index)]
    decreases |es|
  {
    if es != [] {
      var front, last := es[..|es| - 1], es[|es| - 1];
      hide Cut, Contiguous;
      ContiguousSlice(es, 0, |es| - 1);
      assert es[0..|es| - 1] == front && front + [last] == es;
      FiltersAreSlices(front, index);
      CutSnoc(es, index);
      SliceSnoc(front, last, Cut(front, index));
    }
  }

  lemma CutSnoc(es: seq<Entry>, index: nat)
    requires Contiguous(es) && es != []
    ensures var front, last := es[..|es| - 1], es[|es| - 1];
            if last.index >= index then Cut(es, index) == Cut(front, index)
            else Cut(es, index) == |es| && Cut(front, index) == |front|
  {
  }

  lemma SliceSnoc(front: seq<Entry>, last: Entry, c: nat)
    requires c <= |front|
    ensures (front + [last])[c..] == front[c..] + [last]
    ensures (front + [last])[..c] == front[..c]
    ensures (front + [last])[|front| + 1..] == []
    ensures (front + [last])[..|front| + 1] == front + [last]
  {
  }

  lemma {:induction false} SearchIsCut(es: seq<Entry>, index: nat)
    requires Contiguous(es)
    ensures FirstAtOrAfter(es, index) == Cut(es, index)
    decreases |es|
  {
    if es != [] && es[0].index < index {
      SearchIsCut(es[1..], index);
    }
  }

  datatype AppendResult = Appended(log: seq<Entry>) | Gap

  /** What one append of a batch makes of the retained log, exactly as the segmented log behaves:
      an overlapping batch overwrites the tail, but nothing below the first retained index comes back. */
  function FlatAppend(log: seq<Entry>, batch: seq<Entry>): AppendResult {
    if batch == [] then Appended(log)
    else if log == [] || batch[0].index == LastIndex(log) + 1 then Appended(log + batch)
    else if batch[0].index > LastIndex(log) + 1 then Gap
    else Appended(DropBelow(MergeEntries(log, batch), log[0].index))
  }

  function FlatTruncate(log: seq<Entry>, index: nat): seq<Entry> {
    DropBelow(log, index)
  }

  /** An append in full: a batch behind the log is joined to it, one that leaves a gap is refused, and one
      that overlaps replaces everything from its first index on, less what lies below the log's start. */
  lemma FlatAppendExactly(log: seq<Entry>, batch: seq<Entry>)
    requires Contiguous(log) && Contiguous(batch)
    ensures FlatAppend(log, batch) ==
            if batch == [] then Appended(log)
            else if log == [] then Appended(batch)
            else if batch[0].index > log[0].index + |log| then Gap
            else if batch[0].index >= log[0].index then Appended(log[..batch[0].index - log[0].index] + batch)
            else if log[0].index - batch[0].index <= |batch| then Appended(batch[log[0].index - batch[0].index..])
            else Appended([])
  {
    if batch != [] && log != [] && batch[0].index <= LastIndex(log) {
      OverlapMerge(log, batch);
      FiltersAreSlices(MergeEntries(log, batch), log[0].index);
      if batch[0].index < log[0].index {
        assert log[..0] + batch == batch;
      }
    } else if log == [] {
      assert log + batch == batch;
    } else if batch != [] {
      assert log[..|log|] == log;
    }
  }

  lemma FlatTruncateExactly(log: seq<Entry>, index: nat)
    requires Contiguous(log)
    ensures FlatTruncate(log, index) ==
            if log == [] || index <= log[0].index then log
            else if index - log[0].index <= |log| then log[index - log[0].index..]
            else []
  {
    FiltersAreSlices(log, index);
  }

  predicate AcceptedBatch(log: seq<Entry>, batch: seq<Entry>) {
    Contiguous(batch) && (batch != [] && log != [] ==> log[0].index <= batch[0].index <= LastIndex(log) + 1)
  }

  /** The entry a log holds at an index. */
  function At(log: seq<Entry>, index: nat): Option<Entry> {
    if log != [] && log[0].index <= index < log[0].index + |log| then Some(log[index - log[0].index]) else None
  }

  lemma OverlapMerge(log: seq<Entry>, batch: seq<Entry>)
    requires Contiguous(log) && Contiguous(batch) && log != [] && batch != []
    requires batch[0].index <= LastIndex(log) + 1
    ensures Contiguous(MergeEntries(log, batch))
    ensures MergeEntries(log, batch) == log[..Cut(log, batch[0].index)] + batch
  {
    SearchIsCut(log, batch[0].index);
  }

  /** Overlap overwrites: inside an accepted batch the batch answers, below it the old log does, and
      nothing of the old tail survives past the batch's end. */
  lemma AppendByIndex(log: seq<Entry>, batch: seq<Entry>, index: nat)
    requires Contiguous(log) && AcceptedBatch(log, batch)
    ensures FlatAppend(log, batch).Appended? && Contiguous(FlatAppend(log, batch).log)
    ensures At(FlatAppend(log, batch).log, index) ==
            if batch == [] || index < batch[0].index then At(log, index) else At(batch, index)
  {
    if batch != [] && log != [] && batch[0].index != LastIndex(log) + 1 {
      OverlapKeepsAll(log, batch);
    }
  }

  lemma OverlapKeepsAll(log: seq<Entry>, batch: seq<Entry>)
    requires Contiguous(log) && Contiguous(batch) && log != [] && batch != []
    requires log[0].index <= batch[0].index <= LastIndex(log)
    ensures FlatAppend(log, batch) == Appended(log[..batch[0].index - log[0].index] + batch)
  {
    OverlapMerge(log, batch);
    FiltersAreSlices(MergeEntries(log, batch), log[0].index);
  }

  /** An overlapping batch leaves the plain merge exactly when it starts no lower than the retained log;
      a lower one loses the entries below. */
  lemma AppendMergesExactly(log: seq<Entry>, batch: seq<Entry>)
    requires Contiguous(log) && Contiguous(batch) && log != [] && batch != []
    requires batch[0].index <= LastIndex(log)
    ensures FlatAppend(log, batch) == Appended(MergeEntries(log, batch)) <==> log[0].index <= batch[0].index
  {
    OverlapMerge(log, batch);
    FiltersAreSlices(MergeEntries(log, batch), log[0].index);
  }

  lemma TruncateByIndex(log: seq<Entry>, limit: nat, index: nat)
    requires Contiguous(log)
    ensures Contiguous(FlatTruncate(log, limit))
    ensures At(FlatTruncate(log, limit), index) == if index < limit then None else At(log, index)
  {
    FiltersAreSlices(log, limit);
  }

  /** Appending never moves the first retained index. */
  lemma AppendKeepsFirst(log: seq<Entry>, batch: seq<Entry>)
    requires Contiguous(log) && AcceptedBatch(log, batch) && log != []
    ensures FlatAppend(log, batch).Appended?
    ensures FlatAppend(log, batch).log != [] && FlatAppend(log, batch).log[0].index == log[0].index
  {
    if batch != [] && batch[0].index != LastIndex(log) + 1 {
      OverlapKeepsAll(log, batch);
    }
  }

  lemma AppendEndsWithBatch(log: seq<Entry>, batch: seq<Entry>)
    requires Contiguous(log) && AcceptedBatch(log, batch) && batch != []
    ensures FlatAppend(log, batch).Appended?
    ensures FlatAppend(log, batch).log != [] && LastIndex(FlatAppend(log, batch).log) == LastIndex(batch)
  {
    if log != [] && batch[0].index != LastIndex(log) + 1 {
      OverlapKeepsAll(log, batch);
    }
  }
}
