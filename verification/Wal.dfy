/** The write-ahead log on segment files.

    `WalDisk` is the directory: it outlives the log object, so opening another log on it is a restart.
    The file name of a segment is its id; a file is written through one append per record or replaced
    as a whole.
 */
module Wal {
  import opened Options
  import opened RaftLog
  import opened SegmentFormat
  import opened WalLayout

  class WalDisk {
    var files: Files
    var hard: Option<HardState>
    ghost var layout: seq<Part>

    constructor ()
      ensures files == map[] && hard == None && layout == []
    {
      files, hard, layout := map[], None, [];
    }
  }

  datatype Outcome = Done | NotOpen | GapDetected | ParseError

  class FileWAL {
    const disk: WalDisk
    const codec: Codec
    const maxSegmentSize: int
    var state: HardState
    var entries: seq<Entry>
    var segments: seq<Segment>
    var isOpen: bool

    constructor (disk: WalDisk, codec: Codec, maxSegmentSize: int)
      ensures this.disk == disk && this.codec == codec && this.maxSegmentSize == maxSegmentSize && !isOpen
    {
      this.disk, this.codec, this.maxSegmentSize := disk, codec, maxSegmentSize;
      state, entries, segments, isOpen := HardState(0, 0, 0), [], [], false;
    }

    /** The directory holds what such a log wrote. */
    ghost predicate Sound()
      reads disk
    {
      Holds(codec, maxSegmentSize, disk.files, disk.layout)
    }

    ghost function Persisted(): seq<Entry>
      reads disk
    {
      Flatten(disk.layout)
    }

    function PersistedState(): HardState
      reads disk
    {
      if disk.hard.Some? then disk.hard.value else HardState(0, 0, 0)
    }

    ghost predicate Mirrors()
      reads this, disk
    {
      && NoneEmpty(disk.layout)
      && segments == SegmentsOf(disk.layout)
      && entries == Persisted()
      && state == PersistedState()
    }

    ghost predicate Valid()
      reads this, disk
    {
      Sound() && (isOpen ==> Mirrors())
    }

    /** Opening reads the directory back; it fails when a file does not parse. */
    method Open() returns (outcome: Outcome)
      modifies this`state, this`entries, this`segments, this`isOpen
      ensures old(isOpen) ==> outcome == Done && unchanged(this)
      ensures !old(isOpen) && Sound() ==> outcome == Done && isOpen && Valid()
      ensures !old(isOpen) && outcome != Done ==> outcome == ParseError && unchanged(this)
      ensures forall id :: id in IdsInOrder(disk.files.Keys) ==> id in disk.files
      ensures !old(isOpen) ==> match Load(codec, disk.files, IdsInOrder(disk.files.Keys))
                               case Unreadable => outcome == ParseError
                               case Loaded(es, segs) =>
                                 outcome == Done && isOpen && entries == es && segments == segs
                                 && state == if disk.hard.Some? then disk.hard.value else HardState(0, 0, 0)
    {
      hide Load, IdsInOrder;
      IdsInOrderFacts(disk.files.Keys);
      if isOpen {
        return Done;
      }
      var loaded := LoadEntries();
      if Sound() {
        LoadOfHolds(codec, maxSegmentSize, disk.files, disk.layout);
      }
      if loaded.Unreadable? {
        return ParseError;
      }
      state := PersistedState();
      entries, segments := loaded.entries, loaded.segments;
      isOpen := true;
      return Done;
    }

    method LoadEntries() returns (loaded: Loaded)
      ensures forall id :: id in IdsInOrder(disk.files.Keys) ==> id in disk.files
      ensures loaded == Load(codec, disk.files, IdsInOrder(disk.files.Keys))
    {
      hide Load, Read, IdsInOrder;
      IdsInOrderFacts(disk.files.Keys);
      ghost var all := IdsInOrder(disk.files.Keys);
      var ahead := disk.files.Keys;
      var es: seq<Entry>, segs: seq<Segment> := [], [];
      while ahead != {}
        invariant ahead <= disk.files.Keys
        invariant forall id :: id in IdsInOrder(ahead) ==> id in disk.files
        invariant Load(codec, disk.files, all) == PrependLoaded(es, segs, Load(codec, disk.files, IdsInOrder(ahead)))
        decreases |ahead|
      {
        ghost var least := LeastId(ahead);
        var id :| id in ahead && forall other :: other in ahead ==> id <= other;
        LoadStep(codec, disk.files, ahead, id);
        var read := ReadSegment(codec, disk.files[id]);
        if read.Corrupt? {
          return Unreadable;
        }
        ahead := ahead - {id};
        if read.entries != [] {
          var segment := Segment(id, read.entries[0].index, LastIndex(read.entries));
          PrependLoadedAssociates(es, segs, read.entries, segment, Load(codec, disk.files, IdsInOrder(ahead)));
          es := es + read.entries;
          segs := segs + [segment];
        }
      }
      LoadNothing(codec, disk.files, es, segs);
      return Loaded(es, segs);
    }

    method Close()
      requires Valid()
      modifies this`isOpen
      ensures Valid() && !isOpen
    {
      isOpen := false;
    }

    /** The in-memory view: entries and hard state. */
    method LoadAll() returns (outcome: Outcome, hard: HardState, log: seq<Entry>)
      requires Valid()
      ensures outcome == if isOpen then Done else NotOpen
      ensures if isOpen then hard == state && log == entries else hard == HardState(0, 0, 0) && log == []
    {
      if !isOpen {
        return NotOpen, HardState(0, 0, 0), [];
      }
      return Done, state, entries;
    }

    method PersistState()
      modifies disk`hard
      ensures disk.hard == Some(state)
    {
      disk.hard := Some(state);
    }

    /** A batch continues the log, overwrites its tail, or leaves a gap and is refused; the hard state
        is stored first, even when the batch is refused. */
    method Append(newState: HardState, batch: seq<Entry>) returns (outcome: Outcome)
      requires Valid() && Contiguous(batch) && AllEncodable(codec, batch)
      modifies this`state, this`entries, this`segments, disk
      ensures Valid()
      ensures !isOpen ==> outcome == NotOpen && unchanged(this) && unchanged(disk)
      ensures isOpen ==> state == if newState == HardState(0, 0, 0) then old(state) else newState
      ensures isOpen ==> match FlatAppend(old(entries), batch)
                         case Appended(log) => outcome == Done && entries == log
                         case Gap => outcome == GapDetected && entries == old(entries)
    {
      if !isOpen {
        return NotOpen;
      }
      if !IsEmptyHardState(newState) {
        state := newState;
      }
      PersistState();
      if batch == [] {
        return Done;
      }
      outcome := ExtendLog(batch);
    }

    method ExtendLog(batch: seq<Entry>) returns (outcome: Outcome)
      requires Sound() && Mirrors() && Contiguous(batch) && batch != [] && AllEncodable(codec, batch)
      modifies this`entries, this`segments, disk`files, disk`layout
      ensures Sound() && Mirrors()
      ensures match FlatAppend(old(entries), batch)
              case Appended(log) => outcome == Done && entries == log
              case Gap => outcome == GapDetected && entries == old(entries)
    {
      if entries == [] || batch[0].index == LastIndex(entries) + 1 {
        ContiguousJoin(entries, batch);
        AppendEntriesIncremental(batch, NextSegmentId(segments), true);
        entries := entries + batch;
        return Done;
      }
      if batch[0].index > LastIndex(entries) + 1 {
        return GapDetected;
      }
      RewriteTail(batch[0].index, MergeEntries(entries, batch), batch);
      return Done;
    }

    /** Writes a batch record by record, rolling to a new segment when the last one is full. */
    method AppendEntriesIncremental(batch: seq<Entry>, startId: nat, appendToLast: bool)
      requires Sound() && NoneEmpty(disk.layout) && segments == SegmentsOf(disk.layout)
      requires Contiguous(Persisted() + batch) && AllEncodable(codec, batch)
      requires startId >= 1 && forall part :: part in disk.layout ==> part.id < startId
      modifies this`segments, disk`files, disk`layout
      ensures Sound() && NoneEmpty(disk.layout) && segments == SegmentsOf(disk.layout)
      ensures Persisted() == old(Persisted()) + batch
    {
      hide Holds, HoldsPart, Flatten, SegmentsOf, FollowsOn, Frame, Contiguous, Encodable;
      var current := segments;
      var nextId := startId;
      var hasLast := appendToLast && |current| > 0 && startId == NextSegmentId(segments);
      for i := 0 to |batch|
        modifies disk`files, disk`layout
        invariant Sound() && NoneEmpty(disk.layout) && current == SegmentsOf(disk.layout)
        invariant Persisted() == old(Persisted()) + batch[..i]
        invariant nextId >= 1 && forall part :: part in disk.layout ==> part.id < nextId
        invariant hasLast ==> |current| > 0
      {
        assert batch[i] in batch && batch[..i + 1] == batch[..i] + [batch[i]];
        JoinedOn(old(Persisted()), batch, i);
        NextFollows(old(Persisted()), batch, i);
        current, nextId := WriteRecord(batch[i], current, nextId, hasLast);
        hasLast := true;
      }
      assert batch[..|batch|] == batch;
      segments := current;
    }

    /** One record: into the last segment when there is one and it fits, else into a new segment. */
    method WriteRecord(e: Entry, current: seq<Segment>, nextId: nat, hasLast: bool)
      returns (after: seq<Segment>, afterId: nat)
      requires Sound() && NoneEmpty(disk.layout) && current == SegmentsOf(disk.layout)
      requires Encodable(codec, e) && FollowsOn(Persisted(), e)
      requires nextId >= 1 && forall part :: part in disk.layout ==> part.id < nextId
      requires hasLast ==> |current| > 0
      modifies disk`files, disk`layout
      ensures Sound() && NoneEmpty(disk.layout) && after == SegmentsOf(disk.layout)
      ensures Persisted() == old(Persisted()) + [e]
      ensures afterId >= nextId && forall part :: part in disk.layout ==> part.id < afterId
      ensures |after| > 0
      ensures var framed := Frame(codec.encode(e));
              var last := if hasLast then current[|current| - 1].id else nextId;
              if hasLast && last in old(disk.files) && |old(disk.files)[last]| + |framed| <= maxSegmentSize then
                afterId == nextId && disk.files == old(disk.files)[last := old(disk.files)[last] + framed]
              else afterId == nextId + 1 && disk.files == old(disk.files)[nextId := framed]
    {
      hide Holds, HoldsPart, Flatten, SegmentsOf, SegmentOf, ExtendedLayout, NoneEmpty, Frame, FollowsOn, Encodable;
      var record := codec.encode(e);
      after, afterId := current, nextId;
      ghost var files, layout := disk.files, disk.layout;
      ghost var rolled := !hasLast;
      LastSegmentFacts(codec, maxSegmentSize, files, layout, e);
      if !hasLast {
        after, afterId := CreateSegment(after, afterId, e.index), afterId + 1;
        disk.files := disk.files[nextId := ""];
      }
      var last := |after| - 1;
      var size := |disk.files[after[last].id]|;
      if size > 0 && size + |Frame(record)| > maxSegmentSize {
        rolled := true;
        after, afterId := CreateSegment(after, afterId, e.index), afterId + 1;
        disk.files := disk.files[nextId := ""];
        last := |after| - 1;
      }
      disk.files := disk.files[after[last].id := disk.files[after[last].id] + Frame(record)];
      var first := if after[last].first == 0 then e.index else after[last].first;
      after := after[last := Segment(after[last].id, first, e.index)];
      if rolled {
        NewPartFacts(codec, maxSegmentSize, files, layout, nextId, e);
        disk.layout := layout + [Part(nextId, [e])];
        assert "" + Frame(record) == Frame(record);
        assert disk.files == files[nextId := Frame(record)];
      } else {
        LastPartFacts(codec, maxSegmentSize, files, layout, nextId, e);
        disk.layout := ExtendedLayout(layout, e);
      }
    }

    /** Removes the segments from the first affected one on and writes their share of the merged log anew. */
    method RewriteTail(overlapIndex: nat, merged: seq<Entry>, ghost batch: seq<Entry>)
      requires Sound() && Mirrors() && entries != []
      requires Contiguous(batch) && batch != [] && AllEncodable(codec, batch)
      requires overlapIndex == batch[0].index <= LastIndex(entries)
      requires merged == MergeEntries(entries, batch)
      modifies this`entries, this`segments, disk`files, disk`layout
      ensures Sound() && Mirrors()
      ensures entries == DropBelow(merged, old(entries)[0].index)
    {
      hide Holds, HoldsPart;
      FlattenNonEmptyLayout(disk.layout);
      if |segments| == 0 {
        assert false;  // a non-empty log has a segment: a full rewrite is never needed
        return;
      }
      var pos := FindSegment(segments, overlapIndex);
      HoldsFacts(codec, maxSegmentSize, disk.files, disk.layout);
      FindSegmentSplits(disk.layout, overlapIndex);
      if pos >= |segments| {
        assert false;  // the last segment reaches the end of the log: the append fallback is unreachable
        return;
      }
      RewriteFrom(pos, merged, batch);
    }

    /** Everything from segment `pos` on is removed and written anew from the merged log. */
    method RewriteFrom(pos: nat, merged: seq<Entry>, ghost batch: seq<Entry>)
      requires Sound() && Mirrors() && pos < |segments|
      requires Contiguous(batch) && batch != [] && AllEncodable(codec, batch) && entries != []
      requires batch[0].index <= LastIndex(entries)
      requires |Flatten(disk.layout[..pos])| <= Cut(entries, batch[0].index)
      requires merged == MergeEntries(entries, batch)
      modifies this`entries, this`segments, disk`files, disk`layout
      ensures Sound() && Mirrors()
      ensures entries == DropBelow(merged, old(entries)[0].index)
    {
      hide Holds, HoldsPart, DropBelow, KeepBelow, MergeEntries;
      HoldsFacts(codec, maxSegmentSize, disk.files, disk.layout);
      var rewriteFrom, startId := segments[pos].first, segments[pos].id;
      ghost var files, layout := disk.files, disk.layout;
      RewriteSplits(layout, pos, batch);
      MergedEncodable(codec, entries, batch, rewriteFrom);
      SegmentsSplit(layout, pos);
      RemoveFiles(segments[pos..], layout[pos..]);
      CutLayout(codec, maxSegmentSize, files, layout, pos);
      disk.layout := layout[..pos];
      var preserved := EntriesBelow(entries, rewriteFrom);
      var rewritten := EntriesFrom(merged, rewriteFrom);
      segments := segments[..pos];
      entries := preserved;
      AppendEntriesIncremental(rewritten, startId, false);
      entries := entries + rewritten;
    }

    /** Removes the files of some segments, one by one. */
    method RemoveFiles(doomed: seq<Segment>, ghost parts: seq<Part>)
      requires NoneEmpty(parts) && doomed == SegmentsOf(parts)
      modifies disk`files
      ensures disk.files == old(disk.files) - Ids(parts)
    {
      ghost var gone: set<nat> := {};
      for i := 0 to |doomed|
        invariant disk.files == old(disk.files) - gone
        invariant gone == Ids(parts[..i])
      {
        disk.files := disk.files - {doomed[i].id};
        gone := gone + {doomed[i].id};
        assert parts[..i + 1] == parts[..i] + [parts[i]];
        IdsOfConcat(parts[..i], [parts[i]]);
        IdsOfOne(parts[i]);
      }
      assert parts[..|parts|] == parts;
    }

    /** Drops the log below an index: whole segments are removed, the boundary segment is rewritten. */
    method TruncatePrefix(index: nat) returns (outcome: Outcome)
      requires Valid()
      modifies this`entries, this`segments, disk
      ensures Valid()
      ensures !isOpen ==> outcome == NotOpen && unchanged(this) && unchanged(disk)
      ensures isOpen ==> outcome == Done && entries == FlatTruncate(old(entries), index)
    {
      if !isOpen {
        return NotOpen;
      }
      Shorten(index);
      PersistState();
      return Done;
    }

    method Shorten(index: nat)
      requires Sound() && Mirrors()
      modifies this`entries, this`segments, disk`files, disk`layout
      ensures Sound() && Mirrors()
      ensures entries == FlatTruncate(old(entries), index)
    {
      hide Holds, HoldsPart, Flatten, DropBelow;
      HoldsFacts(codec, maxSegmentSize, disk.files, disk.layout);
      if |entries| == 0 || index <= entries[0].index {
        NothingDropped(entries, index);
        return;
      }
      var filtered := EntriesFrom(entries, index);
      if |filtered| == 0 {
        RemoveAll();
      } else {
        DropSegments(index, filtered);
      }
    }

    method RemoveAll()
      requires Sound() && Mirrors()
      modifies this`entries, this`segments, disk`files, disk`layout
      ensures Sound() && Mirrors()
      ensures entries == []
    {
      hide Holds, HoldsPart;
      AllRemoved(codec, maxSegmentSize, disk.files, disk.layout);
      RemoveFiles(segments, disk.layout);
      disk.layout := [];
      entries, segments := [], [];
    }

    /** Removes the segments wholly below the index and rewrites the one the index falls into. */
    method DropSegments(index: nat, filtered: seq<Entry>)
      requires Sound() && Mirrors() && filtered != []
      requires filtered == DropBelow(entries, index)
      modifies this`entries, this`segments, disk`files, disk`layout
      ensures Sound() && Mirrors()
      ensures entries == filtered
    {
      hide Holds, HoldsPart, Flatten, DropBelow;
      HoldsFacts(codec, maxSegmentSize, disk.files, disk.layout);
      FiltersAreSlices(entries, index);
      FlattenNonEmptyLayout(disk.layout);
      var pos := FindSegment(segments, index);
      FindSegmentSplits(disk.layout, index);
      if pos >= |segments| {
        assert false;  // a log with an entry to keep has a segment reaching the index
        return;
      }
      ghost var files, layout := disk.files, disk.layout;
      SegmentsSplit(layout, pos);
      CutLayout(codec, maxSegmentSize, files, layout, pos);
      DropAcross(layout, pos, index);
      RemoveFiles(segments[..pos], layout[..pos]);
      disk.layout := layout[pos..];
      var kept := segments[pos..];
      if kept[0].first < index {
        kept := RewriteBoundary(kept, filtered, index);
      }
      entries, segments := filtered, kept;
    }

    /** The segment the truncation index falls into is replaced by a file with its remaining entries. */
    method RewriteBoundary(kept: seq<Segment>, filtered: seq<Entry>, index: nat) returns (after: seq<Segment>)
      requires Sound() && NoneEmpty(disk.layout) && disk.layout != [] && kept == SegmentsOf(disk.layout)
      requires kept[0].first < index && Cut(Persisted(), index) < |disk.layout[0].entries|
      requires filtered == DropBelow(Persisted(), index)
      modifies disk`files, disk`layout
      ensures Sound() && NoneEmpty(disk.layout) && after == SegmentsOf(disk.layout)
      ensures Persisted() == filtered
    {
      hide Holds, HoldsPart, Flatten, DropBelow;
      ghost var log, first, rest := Persisted(), disk.layout[0], disk.layout[1..];
      HoldsFacts(codec, maxSegmentSize, disk.files, disk.layout);
      assert disk.layout == [first] + rest && first in disk.layout;
      BoundaryIs(first, rest, index);
      HoldsFirstCut(codec, maxSegmentSize, disk.files, first, rest, Cut(Persisted(), index));
      var boundary := EntriesWithin(filtered, index, kept[0].last);
      if |boundary| == 0 {
        assert false;  // the boundary segment always keeps an entry
        return kept;
      }
      CutSegments(first, rest, boundary);
      disk.files := disk.files[kept[0].id := Frames(codec, boundary)];
      disk.layout := [first.(entries := boundary)] + rest;
      SamePrefix(first.entries[..Cut(log, index)], Flatten(disk.layout), filtered);
      after := kept[0 := Segment(kept[0].id, boundary[0].index, LastIndex(boundary))];
    }
  }

  lemma JoinedOn(log: seq<Entry>, batch: seq<Entry>, i: nat)
    requires i < |batch|
    ensures log + batch[..i] + [batch[i]] == log + batch[..i + 1]
  {
  }

  // Loops over entries.

  method EntriesFrom(es: seq<Entry>, index: nat) returns (kept: seq<Entry>)
    ensures kept == DropBelow(es, index)
  {
    kept := [];
    for i := 0 to |es|
      invariant kept == DropBelow(es[..i], index)
    {
      assert es[..i + 1][..i] == es[..i];
      if es[i].index >= index {
        kept := kept + [es[i]];
      }
    }
    assert es[..|es|] == es;
  }

  method EntriesBelow(es: seq<Entry>, index: nat) returns (kept: seq<Entry>)
    ensures kept == KeepBelow(es, index)
  {
    kept := [];
    for i := 0 to |es|
      invariant kept == KeepBelow(es[..i], index)
    {
      assert es[..i + 1][..i] == es[..i];
      if es[i].index < index {
        kept := kept + [es[i]];
      }
    }
    assert es[..|es|] == es;
  }

  /** The entries from `low` on, up to the first one past `high`. */
  method EntriesWithin(es: seq<Entry>, low: nat, high: nat) returns (kept: seq<Entry>)
    requires Contiguous(es) && es != [] && es[0].index >= low
    ensures kept == es[..Cut(es, high + 1)]
  {
    kept := [];
    var i := 0;
    while i < |es| && es[i].index <= high
      invariant i <= Cut(es, high + 1)
      invariant kept == es[..i]
    {
      if es[i].index >= low {
        kept := kept + [es[i]];
      }
      i := i + 1;
    }
  }

  function NextSegmentId(segments: seq<Segment>): nat {
    if segments == [] then 1 else segments[|segments| - 1].id + 1
  }

  /** A new empty segment's bookkeeping: its range is empty until its first record is written. */
  function CreateSegment(segments: seq<Segment>, id: nat, firstIndex: nat): seq<Segment>
    requires firstIndex >= 1
  {
    segments + [Segment(id, firstIndex, firstIndex - 1)]
  }

  function PrependLoaded(es: seq<Entry>, segs: seq<Segment>, rest: Loaded): Loaded {
    match rest
    case Unreadable => Unreadable
    case Loaded(entries, segments) => Loaded(es + entries, segs + segments)
  }

  lemma LoadNothing(codec: Codec, files: Files, es: seq<Entry>, segs: seq<Segment>)
    ensures PrependLoaded(es, segs, Load(codec, files, IdsInOrder({}))) == Loaded(es, segs)
  {
    assert es + [] == es && segs + [] == segs;
  }

  lemma LoadStep(codec: Codec, files: Files, ahead: set<nat>, id: nat)
    requires ahead <= files.Keys && id in ahead && LeastId(ahead) == id
    ensures forall i :: i in IdsInOrder(ahead) ==> i in files
    ensures forall i :: i in IdsInOrder(ahead - {id}) ==> i in files
    ensures Load(codec, files, IdsInOrder(ahead)) ==
            match Read(codec, files[id])
            case Corrupt => Unreadable
            case Entries(es) =>
              PrependLoaded(es, if es == [] then [] else [Segment(id, es[0].index, LastIndex(es))],
                            Load(codec, files, IdsInOrder(ahead - {id})))
  {
    IdsInOrderFacts(ahead);
    IdsInOrderFacts(ahead - {id});
    assert IdsInOrder(ahead)[1..] == IdsInOrder(ahead - {id});
    var rest := Load(codec, files, IdsInOrder(ahead - {id}));
    if rest.Loaded? {
      assert [] + rest.entries == rest.entries && [] + rest.segments == rest.segments;
    }
  }

  lemma PrependLoadedAssociates(es: seq<Entry>, segs: seq<Segment>, more: seq<Entry>, segment: Segment, rest: Loaded)
    ensures PrependLoaded(es, segs, PrependLoaded(more, [segment], rest))
         == PrependLoaded(es + more, segs + [segment], rest)
  {
    if rest.Loaded? {
      assert es + (more + rest.entries) == (es + more) + rest.entries;
      assert segs + ([segment] + rest.segments) == (segs + [segment]) + rest.segments;
    }
  }

  lemma ContiguousJoin(es: seq<Entry>, batch: seq<Entry>)
    requires Contiguous(es) && Contiguous(batch) && batch != []
    requires es != [] ==> batch[0].index == LastIndex(es) + 1
    ensures Contiguous(es + batch)
  {
  }

  lemma NextFollows(before: seq<Entry>, batch: seq<Entry>, i: nat)
    requires Contiguous(before + batch) && i < |batch|
    ensures FollowsOn(before + batch[..i], batch[i])
  {
    var all := before + batch;
    assert all[|before| + i] == batch[i];
    if before + batch[..i] != [] {
      assert all[|before| + i - 1] == (before + batch[..i])[|before| + i - 1];
      assert all[0] == (before + batch[..i])[0];
    }
  }

  /** The consequences of the representation invariant that callers use. */
  lemma HoldsFacts(codec: Codec, maxSize: int, files: Files, layout: seq<Part>)
    requires Holds(codec, maxSize, files, layout)
    ensures NoneEmpty(layout) && Contiguous(Flatten(layout)) && AllEncodable(codec, Flatten(layout))
    ensures |layout| <= |Flatten(layout)|
  {
    HoldsNoneEmpty(codec, maxSize, files, layout);
    FlattenNonEmpty(layout);
    FlatEncodable(codec, maxSize, files, layout);
  }

  lemma FlattenNonEmptyLayout(layout: seq<Part>)
    ensures Flatten(layout) != [] ==> layout != []
  {
  }

  lemma LastPartFile(codec: Codec, maxSize: int, files: Files, layout: seq<Part>)
    requires Holds(codec, maxSize, files, layout) && layout != []
    ensures var last := layout[|layout| - 1];
            last.entries != [] && last.entries[0].index >= 1 && last.id in files && |files[last.id]| > 0
  {
    var last := layout[|layout| - 1];
    assert last in layout && HoldsPart(codec, maxSize, files, last);
    HoldsNoneEmpty(codec, maxSize, files, layout);
    PartIndices(layout, |layout| - 1);
  }

  /** What is known of the last segment, and of the entry that follows. */
  lemma LastSegmentFacts(codec: Codec, maxSize: int, files: Files, layout: seq<Part>, e: Entry)
    requires Holds(codec, maxSize, files, layout) && NoneEmpty(layout) && FollowsOn(Flatten(layout), e)
    ensures e.index >= 1 && |SegmentsOf(layout)| == |layout|
    ensures layout != [] ==>
              var n := |layout| - 1;
              var last := SegmentsOf(layout)[n];
              last.id == layout[n].id && last.id in files && |files[last.id]| > 0 && last.first >= 1
  {
    hide Holds, HoldsPart, Flatten;
    if layout != [] {
      LastPartFile(codec, maxSize, files, layout);
    }
  }

  lemma NewPartFacts(codec: Codec, maxSize: int, files: Files, layout: seq<Part>, id: nat, e: Entry)
    requires Holds(codec, maxSize, files, layout) && NoneEmpty(layout)
    requires id >= 1 && forall part :: part in layout ==> part.id < id
    requires Encodable(codec, e) && FollowsOn(Flatten(layout), e)
    ensures var longer := layout + [Part(id, [e])];
            && Holds(codec, maxSize, files[id := Frame(codec.encode(e))], longer)
            && Flatten(longer) == Flatten(layout) + [e] && NoneEmpty(longer)
            && SegmentsOf(longer) == SegmentsOf(layout) + [Segment(id, e.index, e.index)]
            && forall part :: part in longer ==> part.id < id + 1
  {
    hide Holds, HoldsPart, Flatten, Encodable, FollowsOn, Frame, SegmentsOf, NoneEmpty;
    HoldsNewPart(codec, maxSize, files, layout, id, e);
    SegmentsSnoc(layout, Part(id, [e]));
  }

  lemma LastPartFacts(codec: Codec, maxSize: int, files: Files, layout: seq<Part>, nextId: nat, e: Entry)
    requires Holds(codec, maxSize, files, layout) && NoneEmpty(layout) && layout != []
    requires forall part :: part in layout ==> part.id < nextId
    requires Encodable(codec, e) && FollowsOn(Flatten(layout), e)
    requires var id := layout[|layout| - 1].id;
             id in files && |files[id]| + |Frame(codec.encode(e))| <= maxSize
    ensures var n, longer := |layout| - 1, ExtendedLayout(layout, e);
            && Holds(codec, maxSize, files[layout[n].id := files[layout[n].id] + Frame(codec.encode(e))], longer)
            && Flatten(longer) == Flatten(layout) + [e] && NoneEmpty(longer)
            && |SegmentsOf(layout)| == |layout|
            && SegmentsOf(longer) == SegmentsOf(layout)[n := SegmentsOf(layout)[n].(last := e.index)]
            && forall part :: part in longer ==> part.id < nextId
  {
    SegmentsByPart(layout);
    hide Holds, HoldsPart, Flatten, Encodable, FollowsOn, Frame, SegmentsOf, SegmentOf, NoneEmpty, ExtendedLayout;
    ExtendLast(codec, maxSize, files, layout, e);
    ExtendLastSegments(layout, e);
  }

  lemma SegmentsByPart(layout: seq<Part>)
    requires NoneEmpty(layout)
    ensures |SegmentsOf(layout)| == |layout|
    ensures forall i :: 0 <= i < |layout| ==>
              layout[i].entries != [] && SegmentsOf(layout)[i] == SegmentOf(layout[i])
  {
  }

  lemma SegmentsSnoc(front: seq<Part>, last: Part)
    requires NoneEmpty(front) && last.entries != []
    ensures NoneEmpty(front + [last])
    ensures SegmentsOf(front + [last]) == SegmentsOf(front) + [SegmentOf(last)]
  {
  }

  ghost function ExtendedLayout(layout: seq<Part>, e: Entry): seq<Part>
    requires layout != []
  {
    var last := layout[|layout| - 1];
    layout[..|layout| - 1] + [last.(entries := last.entries + [e])]
  }

  lemma ExtendLast(codec: Codec, maxSize: int, files: Files, layout: seq<Part>, e: Entry)
    requires Holds(codec, maxSize, files, layout) && layout != []
    requires Encodable(codec, e) && FollowsOn(Flatten(layout), e)
    requires var id := layout[|layout| - 1].id;
             id in files && |files[id]| + |Frame(codec.encode(e))| <= maxSize
    ensures var id := layout[|layout| - 1].id;
            Holds(codec, maxSize, files[id := files[id] + Frame(codec.encode(e))], ExtendedLayout(layout, e))
    ensures Flatten(ExtendedLayout(layout, e)) == Flatten(layout) + [e]
  {
    hide Holds, HoldsPart, Flatten, FollowsOn, Encodable, Frame;
    var front, last := layout[..|layout| - 1], layout[|layout| - 1];
    assert layout == front + [last];
    HoldsExtended(codec, maxSize, files, front, last, e);
  }

  lemma ExtendLastSegments(layout: seq<Part>, e: Entry)
    requires layout != [] && NoneEmpty(layout)
    ensures NoneEmpty(ExtendedLayout(layout, e))
    ensures var n := |layout| - 1;
            layout[n] in layout
            && SegmentsOf(ExtendedLayout(layout, e)) == SegmentsOf(layout)[n := SegmentOf(layout[n]).(last := e.index)]
    ensures forall part :: part in ExtendedLayout(layout, e) ==> exists p :: p in layout && p.id == part.id
  {
    hide SegmentsOf, NoneEmpty, SegmentOf;
    var front, last := layout[..|layout| - 1], layout[|layout| - 1];
    assert layout == front + [last];
    ExtendedSegments(front, last, e);
  }

  lemma ExtendedSegments(front: seq<Part>, last: Part, e: Entry)
    requires NoneEmpty(front + [last])
    ensures var grown := last.(entries := last.entries + [e]);
            NoneEmpty(front + [grown])
            && SegmentsOf(front + [grown]) == SegmentsOf(front + [last])[|front| := SegmentOf(last).(last := e.index)]
    ensures var grown := last.(entries := last.entries + [e]);
            forall part :: part in front + [grown] ==> exists p :: p in front + [last] && p.id == part.id
  {
    var grown := last.(entries := last.entries + [e]);
    assert last in front + [last];
    forall part | part in front ensures part in front + [last] { }
    SegmentsSnoc(front, last);
    SegmentsSnoc(front, grown);
    forall part | part in front + [grown] ensures exists p :: p in front + [last] && p.id == part.id {
      assert part == grown || part in front;
    }
  }

  /** The part of the merged log from the first affected segment on completes what is preserved. */
  lemma RewriteSplits(layout: seq<Part>, pos: nat, batch: seq<Entry>)
    requires NoneEmpty(layout) && Contiguous(Flatten(layout)) && pos < |layout|
    requires Contiguous(batch) && batch != []
    requires Flatten(layout) != [] && batch[0].index <= LastIndex(Flatten(layout))
    requires |Flatten(layout[..pos])| <= Cut(Flatten(layout), batch[0].index)
    ensures var log, merged := Flatten(layout), MergeEntries(Flatten(layout), batch);
            var from := SegmentOf(layout[pos]).first;
            KeepBelow(log, from) == Flatten(layout[..pos])
            && KeepBelow(log, from) + DropBelow(merged, from) == DropBelow(merged, log[0].index)
            && Contiguous(DropBelow(merged, log[0].index))
  {
    hide DropBelow, KeepBelow, MergeEntries, Flatten;
    var before := |Flatten(layout[..pos])|;
    PartIndices(layout, pos);
    PartInFlat(layout, pos);
    assert layout[pos] in layout && Flatten(layout)[..before] == Flatten(layout[..pos]);
    RewriteAt(Flatten(layout), before, batch);
  }

  /** The same on flat logs: rewriting from position `k`, at or below the overlap, yields the merged log. */
  lemma RewriteAt(log: seq<Entry>, k: nat, batch: seq<Entry>)
    requires Contiguous(log) && Contiguous(batch) && k < |log| && batch != []
    requires batch[0].index <= LastIndex(log) && k <= Cut(log, batch[0].index)
    ensures var merged, from := MergeEntries(log, batch), log[0].index + k;
            KeepBelow(log, from) == log[..k]
            && log[..k] + DropBelow(merged, from) == DropBelow(merged, log[0].index)
            && Contiguous(DropBelow(merged, log[0].index))
  {
    hide DropBelow, KeepBelow, MergeEntries, Cut, Contiguous;
    var merged, from := MergeEntries(log, batch), log[0].index + k;
    OverlapMerge(log, batch);
    KeepIsPrefix(log, k);
    if k > 0 {
      PrefixOfMerge(log, k, Cut(log, batch[0].index), batch);
      RewriteAbove(log, k, merged);
    } else {
      DropContiguous(merged, from);
      NothingBefore(log, DropBelow(merged, from));
    }
  }

  lemma KeepIsPrefix(log: seq<Entry>, k: nat)
    requires Contiguous(log) && k < |log|
    ensures KeepBelow(log, log[0].index + k) == log[..k]
  {
    hide DropBelow, KeepBelow, Contiguous;
    FiltersAreSlices(log, log[0].index + k);
  }

  lemma NothingBefore(log: seq<Entry>, es: seq<Entry>)
    ensures log[..0] + es == es
  {
  }

  lemma NothingDropped(log: seq<Entry>, index: nat)
    requires Contiguous(log) && (log == [] || index <= log[0].index)
    ensures DropBelow(log, index) == log
  {
    FiltersAreSlices(log, index);
  }

  lemma DropContiguous(es: seq<Entry>, index: nat)
    requires Contiguous(es)
    ensures Contiguous(DropBelow(es, index))
  {
    FiltersAreSlices(es, index);
    ContiguousSlice(es, Cut(es, index), |es|);
  }

  lemma PrefixOfMerge(log: seq<Entry>, k: nat, c: nat, batch: seq<Entry>)
    requires k <= c <= |log|
    ensures log[..k] <= log[..c] + batch
  {
  }

  lemma RewriteAbove(log: seq<Entry>, k: nat, merged: seq<Entry>)
    requires Contiguous(log) && Contiguous(merged) && 0 < k <= |log| && log[..k] <= merged
    ensures log[..k] + DropBelow(merged, log[0].index + k) == merged == DropBelow(merged, log[0].index)
  {
    hide DropBelow, KeepBelow;
    assert merged[0] == log[..k][0] == log[0];
    FiltersAreSlices(merged, log[0].index + k);
    FiltersAreSlices(merged, log[0].index);
    assert Cut(merged, log[0].index + k) == k && merged[..k] == log[..k];
  }

  lemma MergedEncodable(codec: Codec, log: seq<Entry>, batch: seq<Entry>, index: nat)
    requires AllEncodable(codec, log) && AllEncodable(codec, batch)
    ensures AllEncodable(codec, DropBelow(MergeEntries(log, batch), index))
  {
    var merged := MergeEntries(log, batch);
    forall e | e in merged ensures Encodable(codec, e) {
      assert e in log || e in batch;
    }
    DropEncodable(codec, merged, index);
  }

  lemma {:induction false} FlatEncodable(codec: Codec, maxSize: int, files: Files, layout: seq<Part>)
    requires PartsHold(codec, maxSize, files, layout)
    ensures AllEncodable(codec, Flatten(layout))
    decreases |layout|
  {
    if layout != [] {
      var front, last := layout[..|layout| - 1], layout[|layout| - 1];
      assert layout == front + [last];
      PartsHoldConcat(codec, maxSize, files, front, [last]);
      PartsHoldOne(codec, maxSize, files, last);
      FlatEncodable(codec, maxSize, files, front);
    }
  }

  lemma {:induction false} DropEncodable(codec: Codec, es: seq<Entry>, index: nat)
    requires AllEncodable(codec, es)
    ensures AllEncodable(codec, DropBelow(es, index))
    decreases |es|
  {
    if es != [] {
      DropEncodable(codec, es[..|es| - 1], index);
    }
  }

  lemma CutLayout(codec: Codec, maxSize: int, files: Files, layout: seq<Part>, pos: nat)
    requires Holds(codec, maxSize, files, layout) && pos < |layout| && NoneEmpty(layout)
    ensures Holds(codec, maxSize, files - Ids(layout[pos..]), layout[..pos])
    ensures Holds(codec, maxSize, files - Ids(layout[..pos]), layout[pos..])
    ensures Flatten(layout) == Flatten(layout[..pos]) + Flatten(layout[pos..])
    ensures layout[pos].id >= 1 && forall part :: part in layout[..pos] ==> part.id < layout[pos].id
  {
    hide HoldsPart, Flatten;
    var a, b := layout[..pos], layout[pos..];
    assert layout == a + b;
    HoldsFront(codec, maxSize, files, a, b);
    HoldsBack(codec, maxSize, files, a, b);
    FlattenConcat(a, b);
    PartIds(codec, maxSize, files, layout, pos);
  }

  lemma PartIds(codec: Codec, maxSize: int, files: Files, layout: seq<Part>, pos: nat)
    requires PartsHold(codec, maxSize, files, layout) && AscendingIds(layout) && pos < |layout|
    ensures layout[pos].id >= 1 && forall part :: part in layout[..pos] ==> part.id < layout[pos].id
  {
    assert layout[pos] in layout && HoldsPart(codec, maxSize, files, layout[pos]);
    forall part | part in layout[..pos] ensures part.id < layout[pos].id {
      var i :| 0 <= i < pos && layout[..pos][i] == part;
      assert layout[i] == part;
    }
  }

  lemma SegmentsSplit(layout: seq<Part>, pos: nat)
    requires NoneEmpty(layout) && pos <= |layout|
    ensures NoneEmpty(layout[..pos]) && NoneEmpty(layout[pos..])
    ensures SegmentsOf(layout[..pos]) == SegmentsOf(layout)[..pos]
    ensures SegmentsOf(layout[pos..]) == SegmentsOf(layout)[pos..]
  {
    forall part | part in layout[..pos] || part in layout[pos..] ensures part in layout { }
  }

  lemma AllRemoved(codec: Codec, maxSize: int, files: Files, layout: seq<Part>)
    requires Holds(codec, maxSize, files, layout)
    ensures files - Ids(layout) == map[] && Holds(codec, maxSize, map[], [])
    ensures NoneEmpty([]) && SegmentsOf([]) == [] && Flatten([]) == []
  {
    assert Flatten([]) == [] && Ids([]) == {};
  }

  /** Segments wholly below the index hold nothing that is kept. */
  lemma DropAcross(layout: seq<Part>, pos: nat, index: nat)
    requires Contiguous(Flatten(layout)) && NoneEmpty(layout) && pos < |layout|
    requires var before := |Flatten(layout[..pos])|;
             before <= Cut(Flatten(layout), index) < before + |layout[pos].entries|
    ensures var rest := Flatten(layout[pos..]);
            rest != [] && Contiguous(rest)
            && DropBelow(Flatten(layout), index) == DropBelow(rest, index)
            && Cut(rest, index) < |layout[pos].entries|
            && rest[0].index == SegmentOf(layout[pos]).first
            && (rest[0].index >= index ==> DropBelow(rest, index) == rest)
  {
    hide DropBelow, Flatten;
    var a, rest := Flatten(layout[..pos]), Flatten(layout[pos..]);
    FlattenSplit(layout, pos);
    PartIndices(layout, pos);
    PartInFlat(layout, pos);
    assert layout[pos] in layout && |rest| > 0 && rest[0] == (a + rest)[|a|];
    DropRest(a, rest, index);
  }

  lemma DropRest(a: seq<Entry>, rest: seq<Entry>, index: nat)
    requires Contiguous(a + rest) && rest != [] && |a| <= Cut(a + rest, index) < |a + rest|
    ensures Contiguous(rest) && rest[0].index == (a + rest)[0].index + |a|
    ensures Cut(rest, index) == Cut(a + rest, index) - |a|
    ensures DropBelow(a + rest, index) == DropBelow(rest, index)
    ensures rest[0].index >= index ==> DropBelow(rest, index) == rest
  {
    hide Contiguous, Cut, DropBelow;
    ContiguousParts(a, rest);
    CutBehind(a, rest, index);
    FiltersAreSlices(a + rest, index);
    FiltersAreSlices(rest, index);
    TailOfConcat(a, rest, Cut(rest, index));
  }

  lemma TailOfConcat(a: seq<Entry>, rest: seq<Entry>, k: nat)
    requires k <= |rest|
    ensures (a + rest)[|a| + k..] == rest[k..] && rest[0..] == rest
  {
  }

  lemma CutBehind(a: seq<Entry>, rest: seq<Entry>, index: nat)
    requires Contiguous(a + rest) && rest != [] && |a| <= Cut(a + rest, index) < |a + rest|
    ensures Cut(rest, index) == Cut(a + rest, index) - |a|
    ensures rest[0].index == (a + rest)[0].index + |a|
    ensures rest[0].index >= index ==> Cut(rest, index) == 0
  {
    assert (a + rest)[|a|] == rest[0];
  }

  /** The boundary segment keeps its entries from the truncation index on, and there is one. */
  lemma BoundaryIs(first: Part, rest: seq<Part>, index: nat)
    requires first.entries != [] && Contiguous(Flatten([first] + rest))
    requires Cut(Flatten([first] + rest), index) < |first.entries| && first.entries[0].index < index
    ensures var log := Flatten([first] + rest);
            var filtered, cut := DropBelow(log, index), Cut(log, index);
            filtered != [] && Contiguous(filtered) && filtered[0].index >= index
            && filtered[..Cut(filtered, SegmentOf(first).last + 1)] == first.entries[cut..]
            && log == first.entries[..cut] + filtered
  {
    hide DropBelow;
    FlattenConcat([first], rest);
    FlattenOne(first);
    BoundaryAt(first.entries, Flatten(rest), index);
  }

  lemma BoundaryAt(part: seq<Entry>, rest: seq<Entry>, index: nat)
    requires part != [] && Contiguous(part + rest) && Cut(part + rest, index) < |part|
    requires part[0].index < index
    ensures var filtered, cut := DropBelow(part + rest, index), Cut(part + rest, index);
            filtered != [] && Contiguous(filtered) && filtered[0].index >= index
            && filtered[..Cut(filtered, LastIndex(part) + 1)] == part[cut..]
            && part + rest == part[..cut] + filtered
  {
    hide DropBelow;
    var log := part + rest;
    var cut := Cut(log, index);
    FiltersAreSlices(log, index);
    ContiguousSlice(log, cut, |log|);
    ContiguousParts(part, rest);
    assert log[0] == part[0] && log[cut..][0] == log[cut];
    assert Cut(log[cut..], LastIndex(part) + 1) == |part| - cut;
    assert log[cut..][..|part| - cut] == part[cut..];
  }

  lemma SamePrefix(front: seq<Entry>, a: seq<Entry>, b: seq<Entry>)
    requires front + a == front + b
    ensures a == b
  {
    assert a == (front + a)[|front|..] && b == (front + b)[|front|..];
  }

  lemma CutSegments(first: Part, rest: seq<Part>, boundary: seq<Entry>)
    requires first.entries != [] && NoneEmpty([first] + rest) && boundary != []
    ensures NoneEmpty([first.(entries := boundary)] + rest)
    ensures SegmentsOf([first.(entries := boundary)] + rest)
         == SegmentsOf([first] + rest)[0 := Segment(first.id, boundary[0].index, LastIndex(boundary))]
  {
    forall part | part in rest ensures part.entries != [] { assert part in [first] + rest; }
  }

  // Crashes between the file removals of one operation.

  /** The directory after some segments in a row were removed. */
  lemma MiddleRemoved(codec: Codec, maxSize: int, files: Files, a: seq<Part>, gone: seq<Part>, b: seq<Part>)
    requires Holds(codec, maxSize, files, a + gone + b)
    ensures var left := files - Ids(gone);
            PartsHold(codec, maxSize, left, a + b) && AscendingIds(a + b) && left.Keys == Ids(a + b)
    ensures Flatten(a + gone + b) == Flatten(a) + Flatten(gone) + Flatten(b)
            && Flatten(a + b) == Flatten(a) + Flatten(b)
  {
    hide HoldsPart, Flatten;
    var left := files - Ids(gone);
    SplitFacts(codec, maxSize, files, a + gone, b);
    PartsHoldConcat(codec, maxSize, files, a, gone);
    AscendingParts(a + gone, b);
    AscendingParts(a, gone);
    IdsOfConcat(a, gone);
    IdsOfConcat(a, b);
    FlattenConcat(a, gone);
    FlattenConcat(a, b);
    KeepsOwnFiles(codec, maxSize, files, a, Ids(gone));
    KeepsOwnFiles(codec, maxSize, files, b, Ids(gone));
    PartsHoldElsewhere(codec, maxSize, files, left, a);
    PartsHoldElsewhere(codec, maxSize, files, left, b);
    PartsHoldConcat(codec, maxSize, left, a, b);
    AscendingWithout(a, gone, b);
  }

  lemma AscendingWithout(a: seq<Part>, gone: seq<Part>, b: seq<Part>)
    requires AscendingIds(a + gone + b)
    ensures AscendingIds(a + b)
  {
    var all, left := a + gone + b, a + b;
    forall i, j | 0 <= i < j < |left| ensures left[i].id < left[j].id {
      var i', j' := if i < |a| then i else i + |gone|, if j < |a| then j else j + |gone|;
      assert left[i] == all[i'] && left[j] == all[j'];
    }
  }

  /** A prefix truncation cut off after any number of its segment removals, before the boundary file is
      replaced, leaves a directory that opens to a log with every entry at or above the index. */
  lemma TruncationCrash(codec: Codec, maxSize: int, files: Files, gone: seq<Part>, rest: seq<Part>, index: nat)
    requires Holds(codec, maxSize, files, gone + rest)
    requires |Flatten(gone)| <= Cut(Flatten(gone + rest), index)
    ensures var left := files - Ids(gone);
            && Holds(codec, maxSize, left, rest)
            && (forall id :: id in IdsInOrder(left.Keys) ==> id in left)
            && Load(codec, left, IdsInOrder(left.Keys)).Loaded?
            && DropBelow(Load(codec, left, IdsInOrder(left.Keys)).entries, index)
               == DropBelow(Flatten(gone + rest), index)
  {
    hide HoldsPart, Flatten, DropBelow, Holds, PartsHold;
    HoldsBack(codec, maxSize, files, gone, rest);
    LoadOfHolds(codec, maxSize, files - Ids(gone), rest);
    FlattenConcat(gone, rest);
    HoldsFacts(codec, maxSize, files, gone + rest);
    DropFront(Flatten(gone), Flatten(rest), index);
  }

  lemma DropFront(a: seq<Entry>, rest: seq<Entry>, index: nat)
    requires Contiguous(a + rest) && |a| <= Cut(a + rest, index)
    ensures DropBelow(a + rest, index) == DropBelow(rest, index)
  {
    ContiguousParts(a, rest);
    FiltersAreSlices(a + rest, index);
    FiltersAreSlices(rest, index);
    if rest != [] {
      assert (a + rest)[|a|] == rest[0];
    }
    assert (a + rest)[Cut(a + rest, index)..] == rest[Cut(rest, index)..];
  }

  /** A tail rewrite cut off between its segment removals opens without an error, but to a log with a hole
      unless nothing was removed yet, nothing lies before or nothing remains behind; and the entries of
      the removed segments below the overlap, which the batch does not replace, are lost. */
  lemma RewriteCrashExactly(codec: Codec, maxSize: int, files: Files, a: seq<Part>, gone: seq<Part>, b: seq<Part>)
    requires Holds(codec, maxSize, files, a + gone + b)
    ensures var left := files - Ids(gone);
            && (forall id :: id in IdsInOrder(left.Keys) ==> id in left)
            && Load(codec, left, IdsInOrder(left.Keys)).Loaded?
            && var log := Load(codec, left, IdsInOrder(left.Keys)).entries;
               && log == Flatten(a) + Flatten(b)
               && (Contiguous(log) <==> a == [] || gone == [] || b == [])
  {
    hide HoldsPart, Flatten, Holds, PartsHold;
    MiddleRemoved(codec, maxSize, files, a, gone, b);
    LoadOfParts(codec, maxSize, files - Ids(gone), a + b);
    HoldsFacts(codec, maxSize, files, a + gone + b);
    NoneEmptyParts(a, gone, b);
    FlattenNonEmpty(a);
    FlattenNonEmpty(gone);
    FlattenNonEmpty(b);
    NothingFlattened();
    HoleExactly(Flatten(a), Flatten(gone), Flatten(b));
  }

  /** The hard state is renamed into place before any entry of its batch is written.  A crash between the two
      opens to the old log with the new commit.  Up to that commit it is the appended log exactly when it
      already held the batch's entries there; when the batch continues the log, exactly when the batch does
      not commit entries of its own. */
  lemma HardStateCrashExactly(codec: Codec, maxSize: int, files: Files, layout: seq<Part>, batch: seq<Entry>,
                              commit: nat)
    requires Holds(codec, maxSize, files, layout) && AcceptedBatch(Flatten(layout), batch) && batch != []
    ensures (forall id :: id in IdsInOrder(files.Keys) ==> id in files)
    ensures var log := Flatten(layout);
            && Load(codec, files, IdsInOrder(files.Keys)) == Loaded(log, SegmentsOf(layout))
            && FlatAppend(log, batch).Appended?
            && (AgreeUpTo(log, FlatAppend(log, batch).log, commit) <==>
                forall i :: batch[0].index <= i <= commit ==> At(log, i) == At(batch, i))
            && (log == [] || batch[0].index == LastIndex(log) + 1 ==>
                  (AgreeUpTo(log, FlatAppend(log, batch).log, commit) <==> commit < batch[0].index))
  {
    hide Flatten, Holds, At, FlatAppend, Contiguous;
    LoadOfHolds(codec, maxSize, files, layout);
    HoldsFacts(codec, maxSize, files, layout);
    var log, index := Flatten(layout), batch[0].index;
    AppendByIndex(log, batch, 0);
    forall i: nat ensures At(FlatAppend(log, batch).log, i) == if i < index then At(log, i) else At(batch, i) {
      AppendByIndex(log, batch, i);
    }
    if (log == [] || index == LastIndex(log) + 1) && index <= commit {
      BeyondTheEnd(log, batch);
    }
  }

  /** Two logs hold the same entries up to an index. */
  ghost predicate AgreeUpTo(a: seq<Entry>, b: seq<Entry>, index: nat) {
    forall i :: 0 <= i <= index ==> At(a, i) == At(b, i)
  }

  lemma BeyondTheEnd(log: seq<Entry>, batch: seq<Entry>)
    requires Contiguous(log) && batch != [] && (log == [] || batch[0].index == LastIndex(log) + 1)
    ensures At(log, batch[0].index) == None && At(batch, batch[0].index) == Some(batch[0])
  {
  }

  lemma NoneEmptyParts(a: seq<Part>, gone: seq<Part>, b: seq<Part>)
    requires NoneEmpty(a + gone + b)
    ensures NoneEmpty(a) && NoneEmpty(gone) && NoneEmpty(b)
  {
    forall part | part in a || part in gone || part in b ensures part in a + gone + b { }
  }

  lemma NothingFlattened()
    ensures Flatten([]) == []
  {
  }

  lemma HoleExactly(a: seq<Entry>, gone: seq<Entry>, b: seq<Entry>)
    requires Contiguous(a + gone + b)
    ensures Contiguous(a + b) <==> a == [] || gone == [] || b == []
  {
    var all := a + gone + b;
    ContiguousParts(a + gone, b);
    ContiguousParts(a, gone);
    if a != [] && b != [] {
      assert all[|a + gone|] == b[0] && all[0] == a[0] && (a + b)[|a|] == b[0] && (a + b)[0] == a[0];
    }
    if a == [] || gone == [] || b == [] {
      assert a + b == b || a + b == all || a + b == a;
    }
  }
}
