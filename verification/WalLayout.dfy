/** How a log lies on disk: ascending segment files, each holding one non-empty run of entries. */
module WalLayout {
  import opened RaftLog
  import opened SegmentFormat

  /** One segment file and the entries it holds. */
  datatype Part = Part(id: nat, entries: seq<Entry>)

  /** The index range the log keeps in memory for a segment file. */
  datatype Segment = Segment(id: nat, first: nat, last: nat)

  type Files = map<nat, string>

  function SegmentOf(part: Part): Segment
    requires part.entries != []
  {
    Segment(part.id, part.entries[0].index, LastIndex(part.entries))
  }

  predicate NoneEmpty(layout: seq<Part>) {
    forall part :: part in layout ==> part.entries != []
  }

  function SegmentsOf(layout: seq<Part>): seq<Segment>
    requires NoneEmpty(layout)
  {
    seq(|layout|, i requires 0 <= i < |layout| => SegmentOf(layout[i]))
  }

  function Flatten(layout: seq<Part>): seq<Entry> {
    if layout == [] then [] else Flatten(layout[..|layout| - 1]) + layout[|layout| - 1].entries
  }

  function Ids(layout: seq<Part>): set<nat> {
    set part | part in layout :: part.id
  }

  predicate AscendingIds(layout: seq<Part>) {
    forall i, j :: 0 <= i < j < |layout| ==> layout[i].id < layout[j].id
  }

  /** A file holds its part, and stays within the size limit unless it holds a single record. */
  ghost predicate HoldsPart(codec: Codec, maxSize: int, files: Files, part: Part) {
    && part.entries != []
    && part.id >= 1
    && AllEncodable(codec, part.entries)
    && part.id in files
    && files[part.id] == Frames(codec, part.entries)
    && (|part.entries| >= 2 ==> |files[part.id]| <= maxSize)
  }

  ghost predicate PartsHold(codec: Codec, maxSize: int, files: Files, layout: seq<Part>) {
    forall part :: part in layout ==> HoldsPart(codec, maxSize, files, part)
  }

  /** The representation invariant of the segmented log. */
  ghost predicate Holds(codec: Codec, maxSize: int, files: Files, layout: seq<Part>) {
    && PartsHold(codec, maxSize, files, layout)
    && AscendingIds(layout)
    && files.Keys == Ids(layout)
    && Contiguous(Flatten(layout))
  }

  lemma {:induction false} FlattenConcat(a: seq<Part>, b: seq<Part>)
    ensures Flatten(a + b) == Flatten(a) + Flatten(b)
    decreases |b|
  {
    if b == [] {
      assert a + b == a;
    } else {
      assert (a + b)[..|a + b| - 1] == a + b[..|b| - 1];
      FlattenConcat(a, b[..|b| - 1]);
    }
  }

  lemma FlattenSplit(layout: seq<Part>, k: nat)
    requires k <= |layout|
    ensures Flatten(layout) == Flatten(layout[..k]) + Flatten(layout[k..])
  {
    var a, b := layout[..k], layout[k..];
    assert layout == a + b;
    FlattenConcat(a, b);
  }

  lemma FlattenOne(part: Part)
    ensures Flatten([part]) == part.entries
  {
    FlattenConcat([], [part]);
    assert [part][..0] == [];
    assert Flatten([part][..0]) == [];
  }

  /** A part sits in the flat log right after everything before it. */
  lemma PartInFlat(layout: seq<Part>, i: nat)
    requires i < |layout|
    ensures Flatten(layout[..i + 1]) == Flatten(layout[..i]) + layout[i].entries
    ensures Flatten(layout) == Flatten(layout[..i]) + layout[i].entries + Flatten(layout[i + 1..])
  {
    assert layout[..i + 1][..i] == layout[..i];
    FlattenSplit(layout, i + 1);
  }

  lemma {:induction false} FlattenNonEmpty(layout: seq<Part>)
    requires NoneEmpty(layout)
    ensures |Flatten(layout)| >= |layout|
    decreases |layout|
  {
    if layout != [] {
      FlattenNonEmpty(layout[..|layout| - 1]);
    }
  }

  /** The first and last index of a part follow from how many entries lie before it. */
  lemma PartIndices(layout: seq<Part>, i: nat)
    requires NoneEmpty(layout) && Contiguous(Flatten(layout)) && i < |layout|
    ensures Flatten(layout) != []
    ensures layout[i].entries[0].index == Flatten(layout)[0].index + |Flatten(layout[..i])|
    ensures LastIndex(layout[i].entries) == layout[i].entries[0].index + |layout[i].entries| - 1
    ensures Contiguous(layout[i].entries)
  {
    assert layout[i] in layout;
    PartInFlat(layout, i);
    MiddleIndices(Flatten(layout[..i]), layout[i].entries, Flatten(layout[i + 1..]));
  }

  lemma MiddleIndices(a: seq<Entry>, b: seq<Entry>, c: seq<Entry>)
    requires Contiguous(a + b + c) && b != []
    ensures b[0].index == (a + b + c)[0].index + |a|
    ensures LastIndex(b) == b[0].index + |b| - 1
    ensures Contiguous(b)
  {
    assert (a + b + c)[|a|] == b[0];
    ContiguousParts(a + b, c);
    ContiguousParts(a, b);
  }

  /** The least segment whose last index reaches `index`, as the binary search over segments finds it. */
  function FindSegment(segments: seq<Segment>, index: nat): (pos: nat)
    ensures pos <= |segments|
    ensures pos < |segments| ==> segments[pos].last >= index
    ensures forall i :: 0 <= i < pos ==> segments[i].last < index
  {
    if segments == [] || segments[0].last >= index then 0 else 1 + FindSegment(segments[1..], index)
  }

  /** That segment exists for every index up to the end, and splits the flat log around the index. */
  lemma FindSegmentSplits(layout: seq<Part>, index: nat)
    requires NoneEmpty(layout) && layout != [] && Contiguous(Flatten(layout))
    requires Flatten(layout) != [] && index <= LastIndex(Flatten(layout))
    ensures var pos := FindSegment(SegmentsOf(layout), index);
            pos < |layout|
            && |Flatten(layout[..pos])| <= Cut(Flatten(layout), index)
            && Cut(Flatten(layout), index) < |Flatten(layout[..pos])| + |layout[pos].entries|
  {
    var segments := SegmentsOf(layout);
    var pos := FindSegment(segments, index);
    LastPartReaches(layout);
    assert segments[|layout| - 1].last == LastIndex(Flatten(layout));
    PartIndices(layout, pos);
    PartInFlat(layout, pos);
    assert segments[pos] == SegmentOf(layout[pos]);
    if pos > 0 {
      assert segments[pos - 1] == SegmentOf(layout[pos - 1]);
      PartIndices(layout, pos - 1);
      PartInFlat(layout, pos - 1);
    } else {
      assert layout[..0] == [] && Flatten(layout[..0]) == [];
    }
  }

  lemma LastPartReaches(layout: seq<Part>)
    requires NoneEmpty(layout) && layout != []
    ensures Flatten(layout) != [] && LastIndex(Flatten(layout)) == LastIndex(layout[|layout| - 1].entries)
  {
    hide Contiguous;
    var front, last := layout[..|layout| - 1], layout[|layout| - 1];
    assert last in layout;
    assert Flatten(layout) == Flatten(front) + last.entries;
    LastOfConcat(Flatten(front), last.entries);
  }

  lemma LastOfConcat(a: seq<Entry>, b: seq<Entry>)
    requires b != []
    ensures a + b != [] && LastIndex(a + b) == LastIndex(b)
  {
  }

  lemma IdsOfConcat(a: seq<Part>, b: seq<Part>)
    ensures Ids(a + b) == Ids(a) + Ids(b)
  {
    forall part | part in a + b ensures part in a || part in b { }
    forall part | part in a || part in b ensures part in a + b { }
  }

  lemma IdsOfOne(part: Part)
    ensures Ids([part]) == {part.id}
  {
    assert part in [part];
  }

  lemma AscendingParts(a: seq<Part>, b: seq<Part>)
    requires AscendingIds(a + b)
    ensures AscendingIds(a) && AscendingIds(b)
    ensures Ids(a) !! Ids(b)
  {
    var all := a + b;
    forall i, j | 0 <= i < j < |a| ensures a[i].id < a[j].id { assert all[i] == a[i] && all[j] == a[j]; }
    forall i, j | 0 <= i < j < |b| ensures b[i].id < b[j].id { assert all[|a| + i] == b[i] && all[|a| + j] == b[j]; }
    forall p, q | p in a && q in b ensures p.id < q.id {
      var i :| 0 <= i < |a| && a[i] == p;
      var j :| 0 <= j < |b| && b[j] == q;
      assert all[i] == p && all[|a| + j] == q;
    }
  }

  /** Parts hold in any set of files that agrees on theirs. */
  lemma PartsHoldElsewhere(codec: Codec, maxSize: int, files: Files, files': Files, layout: seq<Part>)
    requires PartsHold(codec, maxSize, files, layout)
    requires forall part :: part in layout ==>
               part.id in files && part.id in files' && files'[part.id] == files[part.id]
    ensures PartsHold(codec, maxSize, files', layout)
  {
    forall part | part in layout ensures HoldsPart(codec, maxSize, files', part) {
      assert HoldsPart(codec, maxSize, files, part);
    }
  }

  lemma PartsHoldConcat(codec: Codec, maxSize: int, files: Files, a: seq<Part>, b: seq<Part>)
    ensures PartsHold(codec, maxSize, files, a + b)
       <==> PartsHold(codec, maxSize, files, a) && PartsHold(codec, maxSize, files, b)
  {
    if PartsHold(codec, maxSize, files, a + b) {
      forall part | part in a || part in b ensures HoldsPart(codec, maxSize, files, part) { assert part in a + b; }
    }
    if PartsHold(codec, maxSize, files, a) && PartsHold(codec, maxSize, files, b) {
      forall part | part in a + b ensures HoldsPart(codec, maxSize, files, part) { assert part in a || part in b; }
    }
  }

  /** Removing the files of the later segments keeps a well-formed front. */
  lemma HoldsFront(codec: Codec, maxSize: int, files: Files, a: seq<Part>, b: seq<Part>)
    requires Holds(codec, maxSize, files, a + b)
    ensures Holds(codec, maxSize, files - Ids(b), a)
  {
    SplitFacts(codec, maxSize, files, a, b);
    KeepsOwnFiles(codec, maxSize, files, a, Ids(b));
    PartsHoldElsewhere(codec, maxSize, files, files - Ids(b), a);
  }

  /** Removing the files of the earlier segments keeps a well-formed back. */
  lemma HoldsBack(codec: Codec, maxSize: int, files: Files, a: seq<Part>, b: seq<Part>)
    requires Holds(codec, maxSize, files, a + b)
    ensures Holds(codec, maxSize, files - Ids(a), b)
  {
    SplitFacts(codec, maxSize, files, a, b);
    KeepsOwnFiles(codec, maxSize, files, b, Ids(a));
    PartsHoldElsewhere(codec, maxSize, files, files - Ids(a), b);
  }

  lemma SplitFacts(codec: Codec, maxSize: int, files: Files, a: seq<Part>, b: seq<Part>)
    requires Holds(codec, maxSize, files, a + b)
    ensures PartsHold(codec, maxSize, files, a) && PartsHold(codec, maxSize, files, b)
    ensures AscendingIds(a) && AscendingIds(b)
    ensures files.Keys == Ids(a) + Ids(b) && Ids(a) !! Ids(b)
    ensures Flatten(a + b) == Flatten(a) + Flatten(b)
    ensures Contiguous(Flatten(a)) && Contiguous(Flatten(b))
  {
    PartsHoldConcat(codec, maxSize, files, a, b);
    AscendingParts(a, b);
    IdsOfConcat(a, b);
    FlattenConcat(a, b);
    ContiguousParts(Flatten(a), Flatten(b));
  }

  lemma ContiguousParts(a: seq<Entry>, b: seq<Entry>)
    requires Contiguous(a + b)
    ensures Contiguous(a) && Contiguous(b)
  {
    var all := a + b;
    forall i | 0 <= i < |a| ensures a[i].index == a[0].index + i { assert all[i] == a[i] && all[0] == a[0]; }
    forall i | 0 <= i < |b| ensures b[i].index == b[0].index + i && b[0].index >= 1 {
      assert all[|a| + i] == b[i] && all[|a|] == b[0];
    }
  }

  lemma KeepsOwnFiles(codec: Codec, maxSize: int, files: Files, kept: seq<Part>, gone: set<nat>)
    requires PartsHold(codec, maxSize, files, kept) && Ids(kept) !! gone
    ensures forall part :: part in kept ==>
              part.id in files && part.id in files - gone && (files - gone)[part.id] == files[part.id]
  {
    forall part | part in kept ensures part.id in files && part.id !in gone {
      assert HoldsPart(codec, maxSize, files, part) && part.id in Ids(kept);
    }
  }

  predicate FollowsOn(es: seq<Entry>, e: Entry) {
    e.index >= 1 && (es != [] ==> e.index == LastIndex(es) + 1)
  }

  lemma ContiguousSnoc(es: seq<Entry>, e: Entry)
    requires Contiguous(es) && FollowsOn(es, e)
    ensures Contiguous(es + [e])
  {
  }

  /** A segment added after all others, or put in place of the last one. */
  lemma HoldsWithLast(codec: Codec, maxSize: int, files: Files, front: seq<Part>, last: Part, bytes: string)
    requires PartsHold(codec, maxSize, files, front) && AscendingIds(front)
    requires files.Keys + {last.id} == Ids(front) + {last.id}
    requires forall part :: part in front ==> part.id < last.id
    requires HoldsPart(codec, maxSize, map[last.id := bytes], last)
    requires Contiguous(Flatten(front) + last.entries)
    ensures Holds(codec, maxSize, files[last.id := bytes], front + [last])
    ensures Flatten(front + [last]) == Flatten(front) + last.entries
  {
    FlattenConcat(front, [last]);
    FlattenOne(last);
    PartsHoldWithLast(codec, maxSize, files, front, last, bytes);
    IdsWithLast(front, last);
  }

  lemma IdsWithLast(front: seq<Part>, last: Part)
    requires AscendingIds(front)
    requires forall part :: part in front ==> part.id < last.id
    ensures AscendingIds(front + [last])
    ensures Ids(front + [last]) == Ids(front) + {last.id}
  {
    IdsOfConcat(front, [last]);
    IdsOfOne(last);
    AscendingSnoc(front, last);
  }

  lemma PartsHoldWithLast(codec: Codec, maxSize: int, files: Files, front: seq<Part>, last: Part, bytes: string)
    requires PartsHold(codec, maxSize, files, front)
    requires forall part :: part in front ==> part.id < last.id
    requires HoldsPart(codec, maxSize, map[last.id := bytes], last)
    ensures PartsHold(codec, maxSize, files[last.id := bytes], front + [last])
  {
    var files' := files[last.id := bytes];
    forall part | part in front ensures part.id in files && part.id in files' && files'[part.id] == files[part.id] {
      assert HoldsPart(codec, maxSize, files, part);
    }
    PartsHoldElsewhere(codec, maxSize, files, files', front);
    assert HoldsPart(codec, maxSize, files', last);
    PartsHoldOne(codec, maxSize, files', last);
    PartsHoldConcat(codec, maxSize, files', front, [last]);
  }

  lemma AscendingSnoc(front: seq<Part>, last: Part)
    requires AscendingIds(front)
    requires forall part :: part in front ==> part.id < last.id
    ensures AscendingIds(front + [last])
  {
    var all := front + [last];
    forall i, j | 0 <= i < j < |all| ensures all[i].id < all[j].id {
      assert all[i] == front[i] && front[i] in front;
      if j < |front| { assert all[j] == front[j]; }
    }
  }

  /** A record written to a newly rolled segment. */
  lemma HoldsNewPart(codec: Codec, maxSize: int, files: Files, layout: seq<Part>, id: nat, e: Entry)
    requires Holds(codec, maxSize, files, layout)
    requires id >= 1 && forall part :: part in layout ==> part.id < id
    requires Encodable(codec, e) && FollowsOn(Flatten(layout), e)
    ensures Holds(codec, maxSize, files[id := Frame(codec.encode(e))], layout + [Part(id, [e])])
    ensures Flatten(layout + [Part(id, [e])]) == Flatten(layout) + [e]
  {
    ContiguousSnoc(Flatten(layout), e);
    FramesSnoc(codec, [], e);
    assert Frames(codec, []) + Frame(codec.encode(e)) == Frame(codec.encode(e)) && [] + [e] == [e];
    HoldsWithLast(codec, maxSize, files, layout, Part(id, [e]), Frame(codec.encode(e)));
  }

  lemma FramesSnoc(codec: Codec, es: seq<Entry>, e: Entry)
    ensures Frames(codec, es + [e]) == Frames(codec, es) + Frame(codec.encode(e))
  {
    assert (es + [e])[..|es|] == es;
  }

  /** A record appended to the last segment while it still fits. */
  lemma HoldsExtended(codec: Codec, maxSize: int, files: Files, front: seq<Part>, last: Part, e: Entry)
    requires Holds(codec, maxSize, files, front + [last])
    requires Encodable(codec, e) && FollowsOn(Flatten(front + [last]), e)
    requires last.id in files && |files[last.id]| + |Frame(codec.encode(e))| <= maxSize
    ensures Holds(codec, maxSize, files[last.id := files[last.id] + Frame(codec.encode(e))],
                  front + [last.(entries := last.entries + [e])])
    ensures Flatten(front + [last.(entries := last.entries + [e])]) == Flatten(front + [last]) + [e]
  {
    SplitFacts(codec, maxSize, files, front, [last]);
    FlatWithLast(front, last, e);
    GrownPartHolds(codec, maxSize, files, last, e);
    IdsOfOne(last);
    FrontBelowLast(front, last);
    HoldsWithLast(codec, maxSize, files, front, last.(entries := last.entries + [e]),
                  files[last.id] + Frame(codec.encode(e)));
  }

  lemma FlatWithLast(front: seq<Part>, last: Part, e: Entry)
    requires Contiguous(Flatten(front + [last])) && FollowsOn(Flatten(front + [last]), e)
    ensures Flatten(front + [last]) + [e] == Flatten(front) + (last.entries + [e])
    ensures Contiguous(Flatten(front) + (last.entries + [e]))
  {
    FlattenConcat(front, [last]);
    FlattenOne(last);
    ContiguousSnoc(Flatten(front + [last]), e);
  }

  lemma GrownPartHolds(codec: Codec, maxSize: int, files: Files, last: Part, e: Entry)
    requires PartsHold(codec, maxSize, files, [last]) && Encodable(codec, e)
    requires last.id in files && |files[last.id]| + |Frame(codec.encode(e))| <= maxSize
    ensures HoldsPart(codec, maxSize, map[last.id := files[last.id] + Frame(codec.encode(e))],
                      last.(entries := last.entries + [e]))
  {
    assert last in [last] && HoldsPart(codec, maxSize, files, last);
    FramesSnoc(codec, last.entries, e);
  }

  lemma FrontBelowLast(front: seq<Part>, last: Part)
    requires AscendingIds(front + [last])
    ensures forall part :: part in front ==> part.id < last.id
  {
    var all := front + [last];
    forall part | part in front ensures part.id < last.id {
      var i :| 0 <= i < |front| && front[i] == part;
      assert all[i] == part && all[|front|] == last;
    }
  }

  /** The first segment rewritten to keep only its entries from position `k` on. */
  lemma HoldsFirstCut(codec: Codec, maxSize: int, files: Files, first: Part, rest: seq<Part>, k: nat)
    requires Holds(codec, maxSize, files, [first] + rest) && k < |first.entries|
    ensures Holds(codec, maxSize, files[first.id := Frames(codec, first.entries[k..])],
                  [first.(entries := first.entries[k..])] + rest)
    ensures Flatten([first] + rest) == first.entries[..k] + Flatten([first.(entries := first.entries[k..])] + rest)
  {
    CutFlat(first, rest, k);
    SameIds(first, first.(entries := first.entries[k..]), rest);
    CutPartsHold(codec, maxSize, files, first, rest, k);
  }

  lemma CutFlat(first: Part, rest: seq<Part>, k: nat)
    requires Contiguous(Flatten([first] + rest)) && k < |first.entries|
    ensures var kept := first.(entries := first.entries[k..]);
            Contiguous(Flatten([kept] + rest))
            && Flatten([first] + rest) == first.entries[..k] + Flatten([kept] + rest)
  {
    var kept := first.(entries := first.entries[k..]);
    FlattenOne(first);
    FlattenOne(kept);
    FlattenConcat([first], rest);
    FlattenConcat([kept], rest);
    SplitAssociates(first.entries, k, Flatten(rest));
    ContiguousParts(first.entries[..k], kept.entries + Flatten(rest));
  }

  lemma SplitAssociates(es: seq<Entry>, k: nat, rest: seq<Entry>)
    requires k <= |es|
    ensures es + rest == es[..k] + (es[k..] + rest)
  {
  }

  lemma SameIds(first: Part, kept: Part, rest: seq<Part>)
    requires AscendingIds([first] + rest) && first.id == kept.id
    ensures AscendingIds([kept] + rest)
    ensures Ids([kept] + rest) == Ids([first] + rest) == Ids([first] + rest) + {first.id}
  {
    SameIdAscends(first, kept, rest);
    IdsOfOne(first);
    IdsOfOne(kept);
    IdsOfConcat([first], rest);
    IdsOfConcat([kept], rest);
  }

  lemma CutPartsHold(codec: Codec, maxSize: int, files: Files, first: Part, rest: seq<Part>, k: nat)
    requires PartsHold(codec, maxSize, files, [first] + rest)
    requires AscendingIds([first] + rest) && k < |first.entries|
    ensures PartsHold(codec, maxSize, files[first.id := Frames(codec, first.entries[k..])],
                      [first.(entries := first.entries[k..])] + rest)
  {
    var kept := first.(entries := first.entries[k..]);
    var files' := files[first.id := Frames(codec, kept.entries)];
    PartsHoldConcat(codec, maxSize, files, [first], rest);
    AscendingParts([first], rest);
    IdsOfOne(first);
    CutPartHolds(codec, maxSize, files, first, k);
    forall part | part in rest ensures part.id in files && part.id in files' && files'[part.id] == files[part.id] {
      assert HoldsPart(codec, maxSize, files, part) && part.id in Ids(rest);
    }
    PartsHoldElsewhere(codec, maxSize, files, files', rest);
    PartsHoldOne(codec, maxSize, files', kept);
    PartsHoldConcat(codec, maxSize, files', [kept], rest);
  }

  lemma PartsHoldOne(codec: Codec, maxSize: int, files: Files, part: Part)
    ensures PartsHold(codec, maxSize, files, [part]) <==> HoldsPart(codec, maxSize, files, part)
  {
    assert part in [part];
  }

  lemma SameIdAscends(first: Part, kept: Part, rest: seq<Part>)
    requires AscendingIds([first] + rest) && first.id == kept.id
    ensures AscendingIds([kept] + rest)
  {
    var a, b := [first] + rest, [kept] + rest;
    forall i, j | 0 <= i < j < |b| ensures b[i].id < b[j].id {
      assert a[i].id == b[i].id && a[j].id == b[j].id;
    }
  }

  lemma CutPartHolds(codec: Codec, maxSize: int, files: Files, part: Part, k: nat)
    requires PartsHold(codec, maxSize, files, [part]) && k < |part.entries|
    ensures var kept := part.entries[k..];
            HoldsPart(codec, maxSize, files[part.id := Frames(codec, kept)], part.(entries := kept))
  {
    hide Frames, Encodable;
    var front, kept := part.entries[..k], part.entries[k..];
    assert part in [part] && HoldsPart(codec, maxSize, files, part);
    assert front + kept == part.entries;
    FramesOfConcat(codec, front, kept);
    assert AllEncodable(codec, kept) by {
      forall e | e in kept ensures Encodable(codec, e) { assert e in part.entries; }
    }
  }

  lemma {:induction false} FramesOfConcat(codec: Codec, a: seq<Entry>, b: seq<Entry>)
    ensures Frames(codec, a + b) == Frames(codec, a) + Frames(codec, b)
    decreases |b|
  {
    if b == [] {
      assert a + b == a;
    } else {
      assert (a + b)[..|a + b| - 1] == a + b[..|b| - 1];
      FramesOfConcat(codec, a, b[..|b| - 1]);
    }
  }

  // Opening a directory of segment files.

  ghost function LeastId(ids: set<nat>): (least: nat)
    requires ids != {}
    ensures least in ids && forall id :: id in ids ==> least <= id
  {
    var x :| x in ids;
    if ids == {x} then x
    else
      var m := LeastId(ids - {x});
      assert forall id :: id in ids ==> id == x || id in ids - {x};
      if x < m then x else m
  }

  /** File ids in the order the directory listing yields them: zero-padded names sort like numbers. */
  ghost function IdsInOrder(ids: set<nat>): seq<nat> {
    if ids == {} then [] else [LeastId(ids)] + IdsInOrder(ids - {LeastId(ids)})
  }

  datatype Loaded = Loaded(entries: seq<Entry>, segments: seq<Segment>) | Unreadable

  /** Files read in order; empty ones are skipped, one bad file fails the whole load. */
  function Load(codec: Codec, files: Files, ids: seq<nat>): Loaded
    requires forall id :: id in ids ==> id in files
  {
    if ids == [] then Loaded([], [])
    else
      match Read(codec, files[ids[0]])
      case Corrupt => Unreadable
      case Entries(es) =>
        match Load(codec, files, ids[1..])
        case Unreadable => Unreadable
        case Loaded(entries, segments) =>
          if es == [] then Loaded(entries, segments)
          else Loaded(es + entries, [Segment(ids[0], es[0].index, LastIndex(es))] + segments)
  }

  lemma {:induction false} IdsInOrderFacts(ids: set<nat>)
    ensures forall id :: id in IdsInOrder(ids) <==> id in ids
    decreases |ids|
  {
    if ids != {} {
      IdsInOrderFacts(ids - {LeastId(ids)});
      forall id ensures id in IdsInOrder(ids) <==> id in ids {
        assert id in IdsInOrder(ids - {LeastId(ids)}) <==> id in ids - {LeastId(ids)};
      }
    }
  }

  function IdList(layout: seq<Part>): seq<nat> {
    if layout == [] then [] else [layout[0].id] + IdList(layout[1..])
  }

  lemma {:induction false} IdsOfLayout(layout: seq<Part>)
    requires AscendingIds(layout)
    ensures IdsInOrder(Ids(layout)) == IdList(layout)
    decreases |layout|
  {
    if layout != [] {
      var first, rest := layout[0], layout[1..];
      assert layout == [first] + rest;
      AscendingParts([first], rest);
      IdsOfConcat([first], rest);
      IdsOfOne(first);
      FirstIdIsLeast(layout);
      assert Ids(layout) - {first.id} == Ids(rest);
      IdsOfLayout(rest);
    }
  }

  lemma FirstIdIsLeast(layout: seq<Part>)
    requires AscendingIds(layout) && layout != []
    ensures Ids(layout) != {} && LeastId(Ids(layout)) == layout[0].id
  {
    assert layout[0] in layout && layout[0].id in Ids(layout);
    forall part | part in layout ensures layout[0].id <= part.id {
      var i :| 0 <= i < |layout| && layout[i] == part;
    }
  }

  lemma {:induction false} IdListIn(codec: Codec, maxSize: int, files: Files, layout: seq<Part>)
    requires PartsHold(codec, maxSize, files, layout)
    ensures forall id :: id in IdList(layout) ==> id in files
    decreases |layout|
  {
    if layout != [] {
      assert layout[0] in layout && HoldsPart(codec, maxSize, files, layout[0]);
      assert PartsHold(codec, maxSize, files, layout[1..]) by {
        forall part | part in layout[1..] ensures HoldsPart(codec, maxSize, files, part) { assert part in layout; }
      }
      IdListIn(codec, maxSize, files, layout[1..]);
    }
  }

  lemma {:induction false} LoadInOrder(codec: Codec, maxSize: int, files: Files, layout: seq<Part>)
    requires PartsHold(codec, maxSize, files, layout) && NoneEmpty(layout)
    requires forall id :: id in IdList(layout) ==> id in files
    ensures Load(codec, files, IdList(layout)) == Loaded(Flatten(layout), SegmentsOf(layout))
    decreases |layout|
  {
    if layout != [] {
      var first, rest := layout[0], layout[1..];
      assert layout == [first] + rest;
      PartsHoldConcat(codec, maxSize, files, [first], rest);
      HoldsNoneEmpty(codec, maxSize, files, rest);
      PartsHoldOne(codec, maxSize, files, first);
      ReadBack(codec, first.entries);
      LoadInOrder(codec, maxSize, files, rest);
      LoadCons(first, rest);
      assert IdList(layout)[1..] == IdList(rest);
    }
  }

  lemma LoadCons(first: Part, rest: seq<Part>)
    requires first.entries != [] && NoneEmpty(rest)
    ensures NoneEmpty([first] + rest)
    ensures Flatten([first] + rest) == first.entries + Flatten(rest)
    ensures SegmentsOf([first] + rest) == [SegmentOf(first)] + SegmentsOf(rest)
    ensures IdList([first] + rest) == [first.id] + IdList(rest)
  {
    FlattenConcat([first], rest);
    FlattenOne(first);
    SegmentsCons(first, rest);
    assert ([first] + rest)[1..] == rest;
  }

  lemma SegmentsCons(first: Part, rest: seq<Part>)
    requires first.entries != [] && NoneEmpty(rest)
    ensures NoneEmpty([first] + rest)
    ensures SegmentsOf([first] + rest) == [SegmentOf(first)] + SegmentsOf(rest)
  {
  }

  lemma HoldsNoneEmpty(codec: Codec, maxSize: int, files: Files, layout: seq<Part>)
    requires PartsHold(codec, maxSize, files, layout)
    ensures NoneEmpty(layout)
  {
    forall part | part in layout ensures part.entries != [] { assert HoldsPart(codec, maxSize, files, part); }
  }

  /** Opening a directory of whole segment files finds what they hold, in the order of their ids. */
  lemma LoadOfParts(codec: Codec, maxSize: int, files: Files, layout: seq<Part>)
    requires PartsHold(codec, maxSize, files, layout) && AscendingIds(layout) && files.Keys == Ids(layout)
    ensures NoneEmpty(layout)
    ensures forall id :: id in IdsInOrder(files.Keys) ==> id in files
    ensures Load(codec, files, IdsInOrder(files.Keys)) == Loaded(Flatten(layout), SegmentsOf(layout))
  {
    HoldsNoneEmpty(codec, maxSize, files, layout);
    IdsOfLayout(layout);
    IdListIn(codec, maxSize, files, layout);
    LoadInOrder(codec, maxSize, files, layout);
  }

  /** Whatever the segmented log wrote, opening its directory finds it again. */
  lemma LoadOfHolds(codec: Codec, maxSize: int, files: Files, layout: seq<Part>)
    requires Holds(codec, maxSize, files, layout)
    ensures NoneEmpty(layout)
    ensures forall id :: id in IdsInOrder(files.Keys) ==> id in files
    ensures Load(codec, files, IdsInOrder(files.Keys)) == Loaded(Flatten(layout), SegmentsOf(layout))
  {
    LoadOfParts(codec, maxSize, files, layout);
  }
}
