/** Snapshot files: a data file and a metadata file per snapshot, written by renames and removed one by one.

    Every durable change of the directory is one `FileOp`; a crash leaves the directory as it was
    after some prefix of the operations, so what holds after every prefix holds across crashes.
 */
module SnapshotStore {

  const DEFAULT_KEEP := 2

  datatype Id = Id(term: nat, index: nat)

  datatype Dir<D> = Dir(data: map<Id, D>, metas: set<Id>)

  datatype FileOp<D> =
    | RenameData(id: Id, contents: D)
    | RenameMeta(id: Id)
    | RemoveData(id: Id)
    | RemoveMeta(id: Id)

  datatype Opened<D> = Opened(id: Id, contents: D) | NoSnapshot | MissingData

  predicate Older(a: Id, b: Id) {
    a.index < b.index || (a.index == b.index && a.term < b.term)
  }

  predicate IsNewest(metas: set<Id>, id: Id) {
    id in metas && forall other :: other in metas ==> other == id || Older(other, id)
  }

  function Do<D>(dir: Dir<D>, op: FileOp<D>): Dir<D> {
    match op
    case RenameData(id, contents) => dir.(data := dir.data[id := contents])
    case RenameMeta(id) => dir.(metas := dir.metas + {id})
    case RemoveData(id) => dir.(data := dir.data - {id})
    case RemoveMeta(id) => dir.(metas := dir.metas - {id})
  }

  function After<D>(dir: Dir<D>, ops: seq<FileOp<D>>): Dir<D> {
    if ops == [] then dir else Do(After(dir, ops[..|ops| - 1]), ops[|ops| - 1])
  }

  /** The newest metadata, if any, can be opened: its data file is there. */
  ghost predicate Sound<D(!new)>(dir: Dir<D>) {
    forall id :: IsNewest(dir.metas, id) ==> id in dir.data
  }

  /** Metadata comes after its data; files are removed only below a newer snapshot. */
  ghost predicate Safe<D(!new)>(dir: Dir<D>, op: FileOp<D>) {
    match op
    case RenameData(id, contents) => true
    case RenameMeta(id) => id in dir.data
    case RemoveData(id) => exists newer :: newer in dir.metas && Older(id, newer)
    case RemoveMeta(id) => exists newer :: newer in dir.metas && Older(id, newer)
  }

  ghost predicate AllSafe<D(!new)>(dir: Dir<D>, ops: seq<FileOp<D>>) {
    ops == [] || (AllSafe(dir, ops[..|ops| - 1]) && Safe(After(dir, ops[..|ops| - 1]), ops[|ops| - 1]))
  }

  /** Some metadata at least as new as `id` is there. */
  ghost predicate Reaches(metas: set<Id>, id: Id) {
    exists newest :: IsNewest(metas, newest) && (newest == id || Older(id, newest))
  }

  lemma {:induction false} NewestExists(metas: set<Id>) returns (newest: Id)
    requires metas != {}
    ensures IsNewest(metas, newest)
    decreases |metas|
  {
    newest :| newest in metas;
    if metas != {newest} {
      var other := NewestExists(metas - {newest});
      assert forall id :: id in metas ==> id == newest || id in metas - {newest};
      if Older(newest, other) {
        newest := other;
      }
    }
  }

  lemma NewestOfRest(metas: set<Id>, newest: Id)
    requires IsNewest(metas, newest)
    ensures forall id :: id in metas - {newest} ==> Older(id, newest)
  {
    forall id | id in metas - {newest} ensures Older(id, newest) { assert id in metas; }
  }

  lemma NewestReaches(metas: set<Id>, id: Id)
    requires id in metas
    ensures Reaches(metas, id)
  {
    var newest := NewestExists(metas);
  }

  lemma NewestAfter<D(!new)>(dir: Dir<D>, op: FileOp<D>, n: Id)
    requires Safe(dir, op) && IsNewest(Do(dir, op).metas, n)
    ensures IsNewest(dir.metas, n) || op == RenameMeta(n)
    ensures op != RemoveData(n)
  {
    if op.RemoveMeta? {
      var newer :| newer in dir.metas && Older(op.id, newer);
      assert newer in Do(dir, op).metas;
    }
  }

  lemma StepIsSafe<D(!new)>(dir: Dir<D>, op: FileOp<D>, id: Id)
    requires Sound(dir) && Safe(dir, op)
    ensures Sound(Do(dir, op))
    ensures Reaches(dir.metas, id) ==> Reaches(Do(dir, op).metas, id)
  {
    forall n | IsNewest(Do(dir, op).metas, n) ensures n in Do(dir, op).data {
      NewestAfter(dir, op, n);
    }
    if Reaches(dir.metas, id) {
      var newest :| IsNewest(dir.metas, newest) && (newest == id || Older(id, newest));
      NewestReaches(Do(dir, op).metas, newest);
    }
  }

  /** After any number of the operations, whatever metadata was newest is still reached by the newest,
      and the newest has its data file. */
  lemma {:induction false} NewestNeverMovesBack<D(!new)>(dir: Dir<D>, ops: seq<FileOp<D>>, k: nat, id: Id)
    requires Sound(dir) && AllSafe(dir, ops) && k <= |ops|
    ensures Sound(After(dir, ops[..k]))
    ensures IsNewest(dir.metas, id) ==> Reaches(After(dir, ops[..k]).metas, id)
    decreases |ops|
  {
    var front := ops[..|ops| - (if ops == [] then 0 else 1)];
    if k == |ops| {
      assert ops[..k] == ops;
      if ops != [] {
        NewestNeverMovesBack(dir, front, |front|, id);
        assert front[..|front|] == front;
        StepIsSafe(After(dir, front), ops[|ops| - 1], id);
      }
    } else {
      NewestNeverMovesBack(dir, front, k, id);
      assert front[..k] == ops[..k];
    }
  }

  lemma {:induction false} AfterConcat<D(!new)>(dir: Dir<D>, a: seq<FileOp<D>>, b: seq<FileOp<D>>)
    ensures After(dir, a + b) == After(After(dir, a), b)
    ensures AllSafe(dir, a + b) <==> AllSafe(dir, a) && AllSafe(After(dir, a), b)
    decreases |b|
  {
    if b == [] {
      assert a + b == a;
    } else {
      assert (a + b)[..|a + b| - 1] == a + b[..|b| - 1];
      AfterConcat(dir, a, b[..|b| - 1]);
    }
  }

  predicate NewestFirst(ids: seq<Id>) {
    forall i, j :: 0 <= i < j < |ids| ==> Older(ids[j], ids[i])
  }

  /** How many snapshots a cleanup retains. */
  function KeepCount(keep: int, fallback: nat): nat {
    if keep <= 0 then fallback else keep
  }

  class FileStore<D(!new)> {
    var data: map<Id, D>
    var metas: set<Id>
    const keep: nat
    ghost var journal: seq<FileOp<D>>

    constructor ()
      ensures data == map[] && metas == {} && journal == [] && keep == 2
      ensures Sound(Files())
    {
      data, metas, keep, journal := map[], {}, DEFAULT_KEEP, [];
    }

    function Files(): Dir<D>
      reads this
    {
      Dir(data, metas)
    }

    /** What the store did since it held `before`: only safe operations, each of them in the journal. */
    ghost predicate Extends(before: Dir<D>, past: seq<FileOp<D>>)
      reads this
    {
      && past <= journal
      && AllSafe(before, journal[|past|..])
      && Files() == After(before, journal[|past|..])
    }

    /** Data file first, metadata second, then older snapshots beyond the retained ones are removed. */
    method Create(id: Id, contents: D)
      requires keep >= 1 && Sound(Files())
      modifies this
      ensures Sound(Files()) && Extends(old(Files()), old(journal))
      ensures |journal| >= |old(journal)| + 2
      ensures journal[|old(journal)|] == RenameData(id, contents)
      ensures journal[|old(journal)| + 1] == RenameMeta(id)
      ensures OnlyRemovals(journal, |old(journal)| + 2)
      ensures var all := old(metas) + {id};
              && metas <= all && |metas| == (if |all| < keep then |all| else keep)
              && (forall kept, gone :: kept in metas && gone in all - metas ==>
                    gone.index < kept.index || (gone.index == kept.index && gone.term < kept.term))
              && data == old(data)[id := contents] - (all - metas)
    {
      hide AllSafe, After, Sound;
      ghost var before, past := Files(), journal;
      WritePair(id, contents);
      ghost var between := journal;
      var _ := Cleanup(keep);
      Chained(before, [RenameData(id, contents), RenameMeta(id)], journal[|between|..]);
      assert journal == between + journal[|between|..];
      assert journal[|past|..] == [RenameData(id, contents), RenameMeta(id)] + journal[|between|..];
    }

    method WritePair(id: Id, contents: D)
      requires Sound(Files())
      modifies this
      ensures Sound(Files())
      ensures journal == old(journal) + [RenameData(id, contents), RenameMeta(id)]
      ensures AllSafe(old(Files()), [RenameData(id, contents), RenameMeta(id)])
      ensures Files() == After(old(Files()), [RenameData(id, contents), RenameMeta(id)])
      ensures data == old(data)[id := contents] && metas == old(metas) + {id}
    {
      hide AllSafe, After, Sound;
      ghost var before := Files();
      data := data[id := contents];
      journal := journal + [RenameData(id, contents)];
      metas := metas + {id};
      journal := journal + [RenameMeta(id)];
      ghost var written := [RenameData(id, contents), RenameMeta(id)];
      WrittenPair(before, id, contents);
      NewestNeverMovesBack(before, written, 2, id);
      assert written[..2] == written;
    }

    /** Installing a remote snapshot takes the same steps as creating one. */
    method Install(id: Id, contents: D)
      requires keep >= 1 && Sound(Files())
      modifies this
      ensures Sound(Files()) && Extends(old(Files()), old(journal))
      ensures RenameMeta(id) in journal[|old(journal)|..]
      ensures var all := old(metas) + {id};
              && metas <= all && |metas| == (if |all| < keep then |all| else keep)
              && (forall kept, gone :: kept in metas && gone in all - metas ==>
                    gone.index < kept.index || (gone.index == kept.index && gone.term < kept.term))
              && data == old(data)[id := contents] - (all - metas)
    {
      Create(id, contents);
      assert journal[|old(journal)|..][1] == RenameMeta(id);
    }

    method OpenLatest() returns (found: Opened<D>)
      ensures found.NoSnapshot? <==> metas == {}
      ensures Sound(Files()) ==> !found.MissingData?
      ensures found.Opened? ==> IsNewest(metas, found.id) && found.id in data && found.contents == data[found.id]
      ensures found.Opened? ==> forall id :: id in metas && id != found.id ==>
                id.index < found.id.index || (id.index == found.id.index && id.term < found.id.term)
    {
      var list := ListMetadata();
      if list == [] {
        return NoSnapshot;
      }
      HeadIsNewest(metas, list);
      if list[0] !in data {
        return MissingData;
      }
      return Opened(list[0], data[list[0]]);
    }

    /** All metadata, newest first. */
    method ListMetadata() returns (list: seq<Id>)
      ensures NewestFirst(list)
      ensures forall id :: id in list <==> id in metas
    {
      list := [];
      var ahead := metas;
      while ahead != {}
        invariant NewestFirst(list)
        invariant forall id :: id in metas <==> id in list || id in ahead
        invariant forall i, id :: 0 <= i < |list| && id in ahead ==> Older(id, list[i])
        decreases |ahead|
      {
        ghost var witnessed := NewestExists(ahead);
        var next :| next in ahead && IsNewest(ahead, next);
        NewestOfRest(ahead, next);
        list := list + [next];
        ahead := ahead - {next};
      }
    }

    /** Keeps exactly the newest snapshots, as many as asked for; everything older loses both files. */
    method Cleanup(keep: int) returns (ghost list: seq<Id>)
      requires this.keep >= 1 && Sound(Files())
      modifies this
      ensures NewestFirst(list) && forall id :: id in list <==> id in old(metas)
      ensures var n := KeepCount(keep, this.keep);
              metas == (set id | id in old(metas) && id in (if |list| <= n then list else list[..n]))
      ensures metas <= old(metas)
      ensures var n := if keep <= 0 then this.keep else keep;
              |metas| == if |old(metas)| < n then |old(metas)| else n
      ensures forall kept, gone :: kept in metas && gone in old(metas) - metas ==>
                gone.index < kept.index || (gone.index == kept.index && gone.term < kept.term)
      ensures data == old(data) - (old(metas) - metas)
      ensures Sound(Files()) && Extends(old(Files()), old(journal))
      ensures OnlyRemovals(journal, |old(journal)|)
    {
      var n := KeepCount(keep, this.keep);
      var found := ListMetadata();
      list := found;
      KeptNewest(metas, list, n);
      if |found| <= n {
        assert journal[|journal|..] == [];
        return;
      }
      RemoveAll(found, n);
    }

    method RemoveAll(list: seq<Id>, n: nat)
      requires Sound(Files()) && 1 <= n <= |list| && NewestFirst(list)
      requires forall id :: id in list <==> id in metas
      modifies this
      ensures metas == set id | id in old(metas) && id in list[..n]
      ensures data == old(data) - (old(metas) - metas)
      ensures Sound(Files()) && Extends(old(Files()), old(journal))
      ensures OnlyRemovals(journal, |old(journal)|)
    {
      ghost var before, past := Files(), journal;
      assert journal[|past|..] == [];
      for i := n to |list|
        invariant Sound(Files()) && Extends(before, past) && OnlyRemovals(journal, |past|)
        invariant metas == Survivors(before.metas, list, n, i)
        invariant data == before.data - (before.metas - metas)
      {
        SurvivorsStep(before.metas, list, n, i);
        RemovePair(list[i], list[0], before, past);
      }
    }

    /** The two removals of one snapshot below a newer one. */
    method RemovePair(id: Id, ghost newer: Id, ghost before: Dir<D>, ghost past: seq<FileOp<D>>)
      requires Sound(Files()) && newer in metas && Older(id, newer)
      requires Extends(before, past) && OnlyRemovals(journal, |past|)
      modifies this
      ensures metas == old(metas) - {id} && data == old(data) - {id}
      ensures Sound(Files()) && Extends(before, past) && OnlyRemovals(journal, |past|)
    {
      ghost var so := journal[|past|..];
      RemovedPair(Files(), id, newer);
      Chained(before, so, [RemoveData(id), RemoveMeta(id)]);
      data := data - {id};
      journal := journal + [RemoveData(id)];
      metas := metas - {id};
      journal := journal + [RemoveMeta(id)];
      assert journal[|past|..] == so + [RemoveData(id), RemoveMeta(id)];
    }
  }

  predicate OnlyRemovals<D(!new)>(journal: seq<FileOp<D>>, from: nat) {
    forall i :: from <= i < |journal| ==> journal[i].RemoveData? || journal[i].RemoveMeta?
  }

  /** What is left when the listed metadata from position `n` up to `i` has been removed. */
  function Survivors(metas: set<Id>, list: seq<Id>, n: nat, i: nat): set<Id>
    requires n <= i <= |list|
  {
    set id | id in metas && (id in list[..n] || id in list[i..])
  }

  lemma SurvivorsStep(metas: set<Id>, list: seq<Id>, n: nat, i: nat)
    requires 1 <= n <= i < |list| && NewestFirst(list) && forall id :: id in list <==> id in metas
    ensures Survivors(metas, list, n, i + 1) == Survivors(metas, list, n, i) - {list[i]}
    ensures list[i] in metas && Older(list[i], list[0]) && list[0] in Survivors(metas, list, n, i)
    ensures Survivors(metas, list, n, |list|) == set id | id in metas && id in list[..n]
  {
    assert list[i..] == [list[i]] + list[i + 1..];
    assert list[..n][0] == list[0];
    Distinct(list, n, i);
  }

  /** Cutting the listing keeps as many as asked for, each newer than all that are dropped. */
  lemma KeptNewest(metas: set<Id>, list: seq<Id>, n: nat)
    requires NewestFirst(list) && forall id :: id in list <==> id in metas
    ensures |metas| == |list|
    ensures var kept := set id | id in metas && id in (if |list| <= n then list else list[..n]);
            && |kept| == (if |list| < n then |list| else n)
            && (|list| <= n ==> kept == metas)
            && forall a, b :: a in kept && b in metas - kept ==> Older(b, a)
  {
    var head := if |list| <= n then list else list[..n];
    var kept := set id | id in metas && id in head;
    ListedOnce(list);
    ListedOnce(head);
    assert metas == set id | id in list;
    assert kept == set id | id in head;
  }

  lemma {:induction false} ListedOnce(list: seq<Id>)
    requires NewestFirst(list)
    ensures |set id | id in list| == |list|
  {
    if list != [] {
      var front, last := list[..|list| - 1], list[|list| - 1];
      ListedOnce(front);
      assert list == front + [last];
      assert (set id | id in list) == (set id | id in front) + {last};
      assert last !in front;
    }
  }

  lemma Distinct(list: seq<Id>, n: nat, i: nat)
    requires NewestFirst(list) && n <= i < |list|
    ensures list[i] !in list[..n] && list[i] !in list[i + 1..]
  {
  }

  lemma HeadIsNewest(metas: set<Id>, list: seq<Id>)
    requires NewestFirst(list) && list != [] && forall id :: id in list <==> id in metas
    ensures IsNewest(metas, list[0])
  {
  }

  lemma WrittenPair<D(!new)>(dir: Dir<D>, id: Id, contents: D)
    ensures AllSafe(dir, [RenameData(id, contents), RenameMeta(id)])
    ensures After(dir, [RenameData(id, contents), RenameMeta(id)]) == Dir(dir.data[id := contents], dir.metas + {id})
  {
    AfterPair(dir, RenameData(id, contents), RenameMeta(id));
  }

  lemma RemovedPair<D(!new)>(dir: Dir<D>, id: Id, newer: Id)
    requires Sound(dir) && newer in dir.metas && Older(id, newer)
    ensures AllSafe(dir, [RemoveData(id), RemoveMeta(id)])
    ensures After(dir, [RemoveData(id), RemoveMeta(id)]) == Dir(dir.data - {id}, dir.metas - {id})
    ensures Sound(Dir(dir.data - {id}, dir.metas - {id}))
  {
    AfterPair(dir, RemoveData(id), RemoveMeta(id));
    StepIsSafe(dir, RemoveData(id), id);
    StepIsSafe(Do(dir, RemoveData(id)), RemoveMeta(id), id);
  }

  lemma AfterPair<D(!new)>(dir: Dir<D>, first: FileOp<D>, second: FileOp<D>)
    ensures After(dir, [first, second]) == Do(Do(dir, first), second)
    ensures AllSafe(dir, [first, second]) <==> Safe(dir, first) && Safe(Do(dir, first), second)
  {
    var ops := [first, second];
    assert ops[..1] == [first] && [first][..0] == [];
    assert After(dir, [first]) == Do(After(dir, [first][..0]), first);
    assert AllSafe(dir, [first]) <==> Safe(dir, first);
    assert AllSafe(dir, ops) <==> AllSafe(dir, ops[..1]) && Safe(After(dir, ops[..1]), second);
  }

  lemma Chained<D(!new)>(dir: Dir<D>, a: seq<FileOp<D>>, b: seq<FileOp<D>>)
    requires AllSafe(dir, a) && AllSafe(After(dir, a), b)
    ensures AllSafe(dir, a + b) && After(dir, a + b) == After(After(dir, a), b)
  {
    AfterConcat(dir, a, b);
  }
}
