/** Copying one service's instances from another region, with a stored checkpoint to resume from.

    The consumer only proposes commands.  What it proposed is taken to commit in order, so that after a crash
    some prefix of its proposals is in the downstream store, between commands of others; what a change of
    leader may do instead is decided in `Resume.LostDataSafeExactly`.
 */
module Replication {
  import opened Options
  import opened Picks
  import opened Lex
  import opened Text
  import opened Storage
  import opened Replay
  import opened RegistryKeys
  import opened Directory
  import opened Mirror
  import opened WatchStream

  const NO_HIERARCHY := Hierarchy("", "", "", "", "")

  /** A stored replicated instance. */
  datatype Replicated = Replicated(value: Value, region: string, cluster: string, sourceRevision: nat,
                                   replicatedAt: int)

  datatype Checkpoint = Checkpoint(source: Source, applied: nat, snapshot: nat, updatedAt: int)

  /** The stored form of replicated instances and checkpoints. */
  datatype ReplicaCodec = ReplicaCodec(
    encodeValue: Replicated -> string, decodeValue: string -> Option<Replicated>,
    encodeCheckpoint: Checkpoint -> string, decodeCheckpoint: string -> Option<Checkpoint>)

  ghost predicate Faithful(codec: ReplicaCodec) {
    && (forall r :: codec.decodeValue(codec.encodeValue(r)) == Some(r))
    && (forall c :: codec.decodeCheckpoint(codec.encodeCheckpoint(c)) == Some(c))
  }

  /** The fields a copy carries: the service hierarchy is not among them. */
  function Carried(v: Value): Value {
    v.(hierarchy := NO_HIERARCHY)
  }

  function PutInstance(s: Source, v: Value, revision: nat, stamp: int, codec: ReplicaCodec): Command {
    var copy := Carried(v).(ttl := EffectiveTtl(v.ttl));
    var id := ReplicatedId(s.(namespace := v.id.namespace, service := v.id.service), v.id.instance);
    Put(ReplicatedKey(id),
        codec.encodeValue(Replicated(copy, TrimSpace(s.region), TrimSpace(s.cluster), revision, stamp)))
  }

  function PutCheckpoint(s: Source, applied: nat, snapshot: nat, stamp: int, codec: ReplicaCodec): Command {
    Put(CheckpointKey(s), codec.encodeCheckpoint(Checkpoint(s, applied, snapshot, stamp)))
  }

  function PutInstances(s: Source, items: seq<Value>, revision: nat, stamp: int, codec: ReplicaCodec): seq<Command> {
    if items == [] then []
    else
      PutInstances(s, items[..|items| - 1], revision, stamp, codec)
      + [PutInstance(s, items[|items| - 1], revision, stamp, codec)]
  }

  function UpsertProposals(s: Source, revision: nat, instance: Option<Value>, stamp: int,
                           codec: ReplicaCodec): seq<Command> {
    (match instance case None => [] case Some(v) => [PutInstance(s, v, revision, stamp, codec)])
    + [PutCheckpoint(s, revision, 0, stamp, codec)]
  }

  /** What the consumer proposes for one frame: the data first, the checkpoint last. */
  function Proposals(s: Source, frame: Frame, stamp: int, codec: ReplicaCodec): seq<Command> {
    match frame
    case Snapshot(revision, items) =>
      [DeletePrefix(ReplicationServicePrefix(s))] + PutInstances(s, items, revision, stamp, codec)
      + [PutCheckpoint(s, revision, revision, stamp, codec)]
    case Change(Upsert(revision, id, instance)) =>
      UpsertProposals(s, revision, Some(instance), stamp, codec)
    case Change(Remove(revision, id)) =>
      (if id.instance == "" then [] else [Delete(ReplicatedKey(ReplicatedId(s, id.instance)))])
      + [PutCheckpoint(s, revision, 0, stamp, codec)]
  }

  function AllProposals(s: Source, frames: seq<Frame>, stamp: int, codec: ReplicaCodec): seq<Command> {
    if frames == [] then []
    else AllProposals(s, frames[..|frames| - 1], stamp, codec) + Proposals(s, frames[|frames| - 1], stamp, codec)
  }

  function RevisionOf(frame: Frame): nat {
    match frame
    case Snapshot(revision, _) => revision
    case Change(Upsert(revision, _, _)) => revision
    case Change(Remove(revision, _)) => revision
  }

  /** Frames the consumer acts on: each with a higher revision than the last one acted on, from 0. */
  function Accepted(frames: seq<Frame>): seq<Frame> {
    if frames == [] then []
    else
      var front, last := Accepted(frames[..|frames| - 1]), frames[|frames| - 1];
      if RevisionOf(last) > Top(front) then front + [last] else front
  }

  function Top(frames: seq<Frame>): nat {
    if frames == [] then 0 else RevisionOf(frames[|frames| - 1])
  }

  predicate Rising(frames: seq<Frame>) {
    && (forall i :: 0 <= i < |frames| ==> RevisionOf(frames[i]) > 0)
    && forall i, j :: 0 <= i < j < |frames| ==> RevisionOf(frames[i]) < RevisionOf(frames[j])
  }

  /** A well-ordered stream is acted on in full. */
  lemma {:induction false} RisingIsAccepted(frames: seq<Frame>)
    requires Rising(frames)
    ensures Accepted(frames) == frames
    decreases |frames|
  {
    hide Rising, RevisionOf;
    if frames != [] {
      var front, last := frames[..|frames| - 1], frames[|frames| - 1];
      RisingFront(frames);
      RisingIsAccepted(front);
      assert front + [last] == frames;
    }
  }

  lemma RisingFront(frames: seq<Frame>)
    requires Rising(frames) && frames != []
    ensures var front := frames[..|frames| - 1];
            Rising(front) && RevisionOf(frames[|frames| - 1]) > Top(front)
  {
    hide RevisionOf;
  }

  /** Of any stream exactly the frames with a revision above all earlier ones are acted on, in order. */
  lemma AcceptedInOrder(frames: seq<Frame>) returns (picks: seq<nat>)
    ensures forall i, j :: 0 <= i < j < |picks| ==> picks[i] < picks[j]
    ensures forall k: nat :: k in picks <==>
              k < |frames| && RevisionOf(frames[k]) > 0
              && forall j :: 0 <= j < k ==> RevisionOf(frames[j]) < RevisionOf(frames[k])
    ensures |Accepted(frames)| == |picks|
    ensures forall i :: 0 <= i < |picks| ==> picks[i] < |frames| && Accepted(frames)[i] == frames[picks[i]]
  {
    picks := AcceptedPicks(frames);
    hide RevisionOf, Accepted;
  }

  predicate Rises(frames: seq<Frame>, k: nat) {
    k < |frames| && RevisionOf(frames[k]) > 0
    && forall j :: 0 <= j < k ==> RevisionOf(frames[j]) < RevisionOf(frames[k])
  }

  lemma {:induction false} AcceptedPicks(frames: seq<Frame>) returns (picks: seq<nat>)
    ensures Picked(Accepted(frames), picks, frames)
    ensures forall k: nat :: k in picks <==> Rises(frames, k)
    ensures forall j :: 0 <= j < |frames| ==> RevisionOf(frames[j]) <= Top(Accepted(frames))
    decreases |frames|
  {
    hide RevisionOf, Accepted, Top, Rises, Picked;
    picks := [];
    if frames == [] {
      NoneAccepted();
      PickedNone<Frame>();
    } else {
      var n := |frames| - 1;
      var front := AcceptedPicks(frames[..n]);
      var take := RevisionOf(frames[n]) > Top(Accepted(frames[..n]));
      picks := if take then front + [n] else front;
      AcceptedLast(frames, front);
      PickedNext(Accepted(frames[..n]), front, frames, take);
      RisesInFront(frames);
      forall k: nat ensures k in picks <==> Rises(frames, k) { MemberNext(front, n, k); }
    }
  }

  lemma RisesInFront(frames: seq<Frame>)
    requires frames != []
    ensures var n := |frames| - 1;
            && (forall k: nat :: k < n ==> (Rises(frames[..n], k) <==> Rises(frames, k)))
            && (forall k: nat :: k >= n ==> !Rises(frames[..n], k))
            && (forall k: nat :: k > n ==> !Rises(frames, k))
            && (Rises(frames, n) <==>
                  RevisionOf(frames[n]) > 0 && forall j :: 0 <= j < n ==> RevisionOf(frames[j]) < RevisionOf(frames[n]))
  {
    hide RevisionOf;
  }

  lemma NoneAccepted()
    ensures Accepted([]) == [] && forall k: nat :: !Rises([], k)
  {
  }

  lemma AcceptedLast(frames: seq<Frame>, picks: seq<nat>)
    requires frames != []
    requires var front := Accepted(frames[..|frames| - 1]);
             && Picked(front, picks, frames[..|frames| - 1])
             && forall j :: 0 <= j < |frames| - 1 ==> RevisionOf(frames[j]) <= Top(front)
    ensures var n, front := |frames| - 1, Accepted(frames[..|frames| - 1]);
            && Accepted(frames) == (if RevisionOf(frames[n]) > Top(front) then front + [frames[n]] else front)
            && (RevisionOf(frames[n]) > Top(front) <==>
                  RevisionOf(frames[n]) > 0 && forall j :: 0 <= j < n ==> RevisionOf(frames[j]) < RevisionOf(frames[n]))
            && forall j :: 0 <= j < |frames| ==> RevisionOf(frames[j]) <= Top(Accepted(frames))
  {
    hide RevisionOf, Accepted, Top, Picked;
    var n := |frames| - 1;
    var front := Accepted(frames[..n]);
    AcceptedNext(frames);
    TopOfNext(front, frames[n]);
    if front != [] {
      var j := TopIsReached(front, picks, frames[..n]);
      assert frames[..n][j] == frames[j];
    }
  }

  lemma AcceptedNext(frames: seq<Frame>)
    requires frames != []
    ensures var n, front := |frames| - 1, Accepted(frames[..|frames| - 1]);
            Accepted(frames) == if RevisionOf(frames[n]) > Top(front) then front + [frames[n]] else front
  {
    hide RevisionOf;
  }

  lemma TopOfNext(front: seq<Frame>, last: Frame)
    ensures Top([]) == 0 && Top(front + [last]) == RevisionOf(last)
  {
    hide RevisionOf;
  }

  lemma TopIsReached(front: seq<Frame>, picks: seq<nat>, frames: seq<Frame>) returns (j: nat)
    requires front != [] && Picked(front, picks, frames)
    ensures j < |frames| && Top(front) == RevisionOf(frames[j])
  {
    hide RevisionOf;
    j := picks[|picks| - 1];
  }

  /** The proposals of a frame one by one. */
  lemma ProposalsInOrder(s: Source, frame: Frame, stamp: int, codec: ReplicaCodec)
    ensures var p := Proposals(s, frame, stamp, codec);
            match frame
            case Snapshot(revision, items) =>
              && |p| == |items| + 2
              && p[0] == DeletePrefix(ReplicationServicePrefix(s))
              && (forall i :: 0 <= i < |items| ==> p[i + 1] == PutInstance(s, items[i], revision, stamp, codec))
              && p[|items| + 1] == PutCheckpoint(s, revision, revision, stamp, codec)
            case Change(Upsert(revision, _, instance)) =>
              p == [PutInstance(s, instance, revision, stamp, codec), PutCheckpoint(s, revision, 0, stamp, codec)]
            case Change(Remove(revision, id)) =>
              var mark := PutCheckpoint(s, revision, 0, stamp, codec);
              p == if id.instance == "" then [mark] else [Delete(ReplicatedKey(ReplicatedId(s, id.instance))), mark]
  {
    hide PutInstance, PutInstances, PutCheckpoint, ReplicatedKey, ReplicationServicePrefix;
    if frame.Snapshot? {
      PutsInOrder(s, frame.instances, frame.revision, stamp, codec);
      Between(DeletePrefix(ReplicationServicePrefix(s)), PutInstances(s, frame.instances, frame.revision, stamp, codec),
              PutCheckpoint(s, frame.revision, frame.revision, stamp, codec));
    }
  }

  lemma Between(first: Command, middle: seq<Command>, last: Command)
    ensures var all := [first] + middle + [last];
            && |all| == |middle| + 2 && all[0] == first && all[|middle| + 1] == last
            && forall i :: 0 <= i < |middle| ==> all[i + 1] == middle[i]
  {
  }

  lemma {:induction false} PutsInOrder(s: Source, items: seq<Value>, revision: nat, stamp: int, codec: ReplicaCodec)
    ensures var puts := PutInstances(s, items, revision, stamp, codec);
            |puts| == |items| && forall i :: 0 <= i < |items| ==>
                puts[i] == PutInstance(s, items[i], revision, stamp, codec)
    decreases |items|
  {
    hide PutInstance;
    if items != [] {
      PutsInOrder(s, items[..|items| - 1], revision, stamp, codec);
    }
  }

  /** A row of proposals was attempted one by one, each accepted or refused as `accepts` says of its number: all
      of them went in, or those before the first refusal did. */
  ghost predicate Attempted(before: seq<Command>, after: seq<Command>, all: seq<Command>, from: nat, to: nat, ok: bool,
                            accepts: nat -> bool) {
    && |before| <= |after| <= |before| + |all|
    && var n := |after| - |before|;
       && after == before + all[..n]
       && (forall i :: from <= i < from + n ==> accepts(i))
       && (ok <==> n == |all|)
       && (!ok ==> !accepts(from + n))
       && to == from + n + (if ok then 0 else 1)
  }

  class Consumer {
    const source: Source
    const codec: ReplicaCodec
    const accepts: nat -> bool
    var attempts: nat
    var proposed: seq<Command>

    constructor (source: Source, codec: ReplicaCodec, accepts: nat -> bool)
      ensures this.source == source && this.codec == codec && this.accepts == accepts
      ensures attempts == 0 && proposed == []
    {
      this.source, this.codec, this.accepts := source, codec, accepts;
      attempts, proposed := 0, [];
    }

    /** A proposal is accepted or refused. */
    method Propose(cmd: Command) returns (ok: bool)
      modifies this
      ensures ok == accepts(old(attempts)) && attempts == old(attempts) + 1
      ensures proposed == if ok then old(proposed) + [cmd] else old(proposed)
      ensures Attempted(old(proposed), proposed, [cmd], old(attempts), attempts, ok, accepts)
    {
      ok := accepts(attempts);
      attempts := attempts + 1;
      if ok {
        proposed := proposed + [cmd];
      }
    }

    /** Old instances are cleared, the snapshot's are put one by one, then the checkpoint is written. */
    method ApplySnapshot(revision: nat, items: seq<Value>, stamp: int) returns (ok: bool)
      modifies this
      ensures Attempted(old(proposed), proposed, Proposals(source, Snapshot(revision, items), stamp, codec),
                        old(attempts), attempts, ok, accepts)
    {
      hide PutInstances, PutCheckpoint, ReplicationServicePrefix, Attempted;
      ghost var before, from := proposed, attempts;
      ghost var clear := [DeletePrefix(ReplicationServicePrefix(source))];
      ghost var puts := PutInstances(source, items, revision, stamp, codec);
      ghost var last := [PutCheckpoint(source, revision, revision, stamp, codec)];
      ok := Propose(DeletePrefix(ReplicationServicePrefix(source)));
      if !ok {
        AttemptStops(before, proposed, clear, puts + last, from, attempts, accepts);
        assert clear + (puts + last) == clear + puts + last;
        return false;
      }
      ghost var middle, at := proposed, attempts;
      ok := PutAll(revision, items, stamp);
      AttemptGoesOn(before, middle, proposed, clear, puts, from, at, attempts, ok, accepts);
      if !ok {
        AttemptStops(before, proposed, clear + puts, last, from, attempts, accepts);
        return false;
      }
      middle, at := proposed, attempts;
      ok := Propose(PutCheckpoint(source, revision, revision, stamp, codec));
      AttemptGoesOn(before, middle, proposed, clear + puts, last, from, at, attempts, ok, accepts);
    }

    method PutAll(revision: nat, items: seq<Value>, stamp: int) returns (ok: bool)
      modifies this
      ensures Attempted(old(proposed), proposed, PutInstances(source, items, revision, stamp, codec), old(attempts),
                        attempts, ok, accepts)
    {
      hide PutInstance, PutInstances, Attempted;
      ghost var before, from, all := proposed, attempts, PutInstances(source, items, revision, stamp, codec);
      NoPuts(source, revision, stamp, codec);
      NothingAttempted(before, from, accepts);
      for i := 0 to |items|
        invariant Attempted(before, proposed, PutInstances(source, items[..i], revision, stamp, codec), from, attempts,
                            true, accepts)
      {
        PutsStep(source, items, i, revision, stamp, codec);
        PutsPrefix(source, items, i + 1, revision, stamp, codec);
        ghost var middle, at := proposed, attempts;
        ok := Propose(PutInstance(source, items[i], revision, stamp, codec));
        AttemptGoesOn(before, middle, proposed, PutInstances(source, items[..i], revision, stamp, codec),
                      [PutInstance(source, items[i], revision, stamp, codec)], from, at, attempts, ok, accepts);
        if !ok {
          ghost var part := PutInstances(source, items[..i + 1], revision, stamp, codec);
          AttemptStops(before, proposed, part, all[|part|..], from, attempts, accepts);
          assert part + all[|part|..] == all;
          return false;
        }
      }
      assert items[..|items|] == items;
      return true;
    }

    /** Without an instance only the checkpoint is written. */
    method ApplyUpsert(revision: nat, instance: Option<Value>, stamp: int) returns (ok: bool)
      modifies this
      ensures Attempted(old(proposed), proposed, UpsertProposals(source, revision, instance, stamp, codec),
                        old(attempts),
                        attempts, ok, accepts)
    {
      hide PutInstance, PutCheckpoint, Attempted;
      ghost var mark := [PutCheckpoint(source, revision, 0, stamp, codec)];
      if instance.None? {
        ok := Propose(PutCheckpoint(source, revision, 0, stamp, codec));
        assert [] + mark == mark;
      } else {
        ok := ProposePair(PutInstance(source, instance.value, revision, stamp, codec),
                          PutCheckpoint(source, revision, 0, stamp, codec));
      }
    }

    method ApplyDelete(revision: nat, id: Identity, stamp: int) returns (ok: bool)
      modifies this
      ensures Attempted(old(proposed), proposed, Proposals(source, Change(Remove(revision, id)), stamp, codec),
                        old(attempts), attempts, ok, accepts)
    {
      hide PutCheckpoint, Attempted;
      ghost var mark := [PutCheckpoint(source, revision, 0, stamp, codec)];
      if id.instance == "" {
        ok := Propose(PutCheckpoint(source, revision, 0, stamp, codec));
        assert [] + mark == mark;
      } else {
        ok := ProposePair(Delete(ReplicatedKey(ReplicatedId(source, id.instance))),
                          PutCheckpoint(source, revision, 0, stamp, codec));
      }
    }

    /** Data, and when that was accepted its checkpoint. */
    method ProposePair(data: Command, mark: Command) returns (ok: bool)
      modifies this
      ensures Attempted(old(proposed), proposed, [data] + [mark], old(attempts), attempts, ok, accepts)
    {
      hide Attempted;
      ghost var before, from := proposed, attempts;
      ok := Propose(data);
      if !ok {
        AttemptStops(before, proposed, [data], [mark], from, attempts, accepts);
        return false;
      }
      ghost var middle, at := proposed, attempts;
      ok := Propose(mark);
      AttemptGoesOn(before, middle, proposed, [data], [mark], from, at, attempts, ok, accepts);
    }

    method ApplyFrame(frame: Frame, stamp: int) returns (ok: bool)
      modifies this
      ensures Attempted(old(proposed), proposed, Proposals(source, frame, stamp, codec), old(attempts), attempts, ok,
                        accepts)
    {
      hide Attempted;
      match frame {
        case Snapshot(revision, items) => ok := ApplySnapshot(revision, items, stamp);
        case Change(Upsert(revision, id, instance)) => ok := ApplyUpsert(revision, Some(instance), stamp);
        case Change(Remove(revision, id)) => ok := ApplyDelete(revision, id, stamp);
      }
    }

    /** The stream loop: frames at or below the current revision are skipped, a refused proposal ends it. */
    method RunStream(frames: seq<Frame>, stamp: int) returns (ok: bool)
      modifies this
      ensures Attempted(old(proposed), proposed, AllProposals(source, Accepted(frames), stamp, codec), old(attempts),
                        attempts, ok, accepts)
    {
      hide Proposals, AllProposals, Accepted, Attempted;
      ghost var before, from, all := proposed, attempts, AllProposals(source, Accepted(frames), stamp, codec);
      var current := 0;
      NoProposals(source, stamp, codec);
      NothingAttempted(before, from, accepts);
      for i := 0 to |frames|
        invariant Attempted(before, proposed, AllProposals(source, Accepted(frames[..i]), stamp, codec), from, attempts,
                            true, accepts)
        invariant current == Top(Accepted(frames[..i]))
      {
        AcceptedStep(source, frames, i, stamp, codec);
        if RevisionOf(frames[i]) > current {
          ghost var middle, at := proposed, attempts;
          ok := ApplyFrame(frames[i], stamp);
          AttemptGoesOn(before, middle, proposed, AllProposals(source, Accepted(frames[..i]), stamp, codec),
                        Proposals(source, frames[i], stamp, codec), from, at, attempts, ok, accepts);
          if !ok {
            ghost var part := AllProposals(source, Accepted(frames[..i + 1]), stamp, codec);
            AttemptStops(before, proposed, part, all[|part|..], from, attempts, accepts);
            assert part + all[|part|..] == all;
            return false;
          }
          current := RevisionOf(frames[i]);
        }
      }
      assert frames[..|frames|] == frames;
      return true;
    }
  }

  lemma NothingAttempted(before: seq<Command>, from: nat, accepts: nat -> bool)
    ensures Attempted(before, before, [], from, from, true, accepts)
  {
  }

  lemma AttemptGoesOn(before: seq<Command>, middle: seq<Command>, after: seq<Command>, a: seq<Command>, b: seq<Command>,
                      from: nat, at: nat, to: nat, ok: bool, accepts: nat -> bool)
    requires Attempted(before, middle, a, from, at, true, accepts) && Attempted(middle, after, b, at, to, ok, accepts)
    ensures Attempted(before, after, a + b, from, to, ok, accepts)
  {
    var n := |after| - |middle|;
    assert (a + b)[..|a| + n] == a + b[..n];
    assert before + (a + b[..n]) == before + a + b[..n];
  }

  lemma AttemptStops(before: seq<Command>, after: seq<Command>, a: seq<Command>, rest: seq<Command>, from: nat, to: nat,
                     accepts: nat -> bool)
    requires Attempted(before, after, a, from, to, false, accepts)
    ensures Attempted(before, after, a + rest, from, to, false, accepts)
  {
    var n := |after| - |before|;
    assert (a + rest)[..n] == a[..n];
  }

  lemma NoPuts(s: Source, revision: nat, stamp: int, codec: ReplicaCodec)
    ensures PutInstances(s, [], revision, stamp, codec) == []
  {
  }

  lemma NoProposals(s: Source, stamp: int, codec: ReplicaCodec)
    ensures Accepted([]) == [] && AllProposals(s, [], stamp, codec) == []
  {
  }

  lemma AcceptedStep(s: Source, frames: seq<Frame>, i: nat, stamp: int, codec: ReplicaCodec)
    requires i < |frames|
    ensures var done, more := Accepted(frames[..i]), Accepted(frames[..i + 1]);
            if RevisionOf(frames[i]) > Top(done) then
              Top(more) == RevisionOf(frames[i])
              && AllProposals(s, more, stamp, codec)
                 == AllProposals(s, done, stamp, codec) + Proposals(s, frames[i], stamp, codec)
            else more == done
    ensures AllProposals(s, Accepted(frames[..i + 1]), stamp, codec) <= AllProposals(s, Accepted(frames), stamp, codec)
  {
    hide Proposals, AllProposals;
    assert frames[..i + 1][..i] == frames[..i];
    var done := Accepted(frames[..i]);
    if RevisionOf(frames[i]) > Top(done) {
      ProposalsConcat(s, done, [frames[i]], stamp, codec);
      OneProposal(s, frames[i], stamp, codec);
    }
    AcceptedPrefix(frames, i + 1);
    var more, all := Accepted(frames[..i + 1]), Accepted(frames);
    ProposalsConcat(s, more, all[|more|..], stamp, codec);
    assert more + all[|more|..] == all;
  }

  lemma OneProposal(s: Source, frame: Frame, stamp: int, codec: ReplicaCodec)
    ensures AllProposals(s, [frame], stamp, codec) == Proposals(s, frame, stamp, codec)
  {
    assert [frame][..0] == [];
    assert [] + Proposals(s, frame, stamp, codec) == Proposals(s, frame, stamp, codec);
  }

  lemma {:induction false} AcceptedPrefix(frames: seq<Frame>, i: nat)
    requires i <= |frames|
    ensures Accepted(frames[..i]) <= Accepted(frames)
    decreases |frames|
  {
    if i == |frames| {
      assert frames[..i] == frames;
    } else {
      AcceptedPrefix(frames[..|frames| - 1], i);
      assert frames[..|frames| - 1][..i] == frames[..i];
    }
  }

  lemma {:induction false} ProposalsConcat(s: Source, a: seq<Frame>, b: seq<Frame>, stamp: int, codec: ReplicaCodec)
    ensures AllProposals(s, a + b, stamp, codec) == AllProposals(s, a, stamp, codec) + AllProposals(s, b, stamp, codec)
    decreases |b|
  {
    hide Proposals;
    if b == [] {
      assert a + b == a;
      assert AllProposals(s, a, stamp, codec) + [] == AllProposals(s, a, stamp, codec);
    } else {
      assert (a + b)[..|a + b| - 1] == a + b[..|b| - 1];
      ProposalsConcat(s, a, b[..|b| - 1], stamp, codec);
    }
  }

  lemma PutsStep(s: Source, items: seq<Value>, i: nat, revision: nat, stamp: int, codec: ReplicaCodec)
    requires i < |items|
    ensures PutInstances(s, items[..i + 1], revision, stamp, codec)
         == PutInstances(s, items[..i], revision, stamp, codec) + [PutInstance(s, items[i], revision, stamp, codec)]
  {
    hide PutInstance;
    assert items[..i + 1][..i] == items[..i];
  }

  lemma {:induction false} PutsPrefix(s: Source, items: seq<Value>, i: nat, revision: nat, stamp: int,
                                      codec: ReplicaCodec)
    requires i <= |items|
    ensures PutInstances(s, items[..i], revision, stamp, codec) <= PutInstances(s, items, revision, stamp, codec)
    decreases |items|
  {
    hide PutInstance;
    if i == |items| {
      assert items[..i] == items;
    } else {
      PutsPrefix(s, items[..|items| - 1], i, revision, stamp, codec);
      assert items[..|items| - 1][..i] == items[..i];
    }
  }

  // What a store holds of the copy.

  /** The instance names a copy can hold: normalised, and text.  They may hold slashes. */
  predicate TidyName(name: string) {
    Tidy(name) && TextBytes(name)
  }

  function CopyOf(db: Db, s: Source, codec: ReplicaCodec, name: string): Option<Value> {
    var key := ReplicatedKey(ReplicatedId(s, name));
    if key !in db then None
    else
      match codec.decodeValue(db[key])
      case None => None
      case Some(r) => Some(r.value)
  }

  function CheckpointOf(db: Db, s: Source, codec: ReplicaCodec): nat {
    if CheckpointKey(s) !in db then 0
    else
      match codec.decodeCheckpoint(db[CheckpointKey(s)])
      case None => 0
      case Some(c) => c.applied
  }

  function CarriedOption(v: Option<Value>): Option<Value> {
    match v
    case None => None
    case Some(value) => Some(Carried(value))
  }

  /** The store holds, on the carried fields, exactly the service's instances a client holds. */
  ghost predicate Copies(db: Db, client: Client, s: Source, codec: ReplicaCodec) {
    forall name :: TidyName(name) ==>
      CopyOf(db, s, codec, name) == CarriedOption(Held(client, Identity(s.namespace, s.service, name)))
  }

  /** An instance of the copied service, as a query shows it. */
  predicate OfService(v: Value, s: Source) {
    v.id.namespace == s.namespace && v.id.service == s.service && TidyName(v.id.instance) && v.ttl > 0
  }

  predicate GoodFrame(frame: Frame, s: Source) {
    match frame
    case Snapshot(_, items) => forall v :: v in items ==> OfService(v, s)
    case Change(Upsert(_, id, instance)) => instance.id == id && OfService(instance, s)
    case Change(Remove(_, id)) => id.namespace == s.namespace && id.service == s.service && TidyName(id.instance)
  }

  lemma NamesApart(s: Source, a: string, b: string)
    requires PlainSource(s) && Tidy(a) && Tidy(b)
    ensures ReplicatedKey(ReplicatedId(s, a)) == ReplicatedKey(ReplicatedId(s, b)) <==> a == b
    ensures ReplicatedKey(ReplicatedId(s, a)) != CheckpointKey(s)
  {
    hide ReplicatedKey, CheckpointKey, ReplicationServicePrefix;
    ServicePrefixMatches(s, ReplicatedId(s, a));
    ServicePrefixMatches(s, ReplicatedId(s, b));
    RootRest(ReplicationServicePrefix(s), a);
    RootRest(ReplicationServicePrefix(s), b);
    CheckpointsApart(s, ReplicatedId(s, a));
  }

  lemma CheckpointsApart(s: Source, id: ReplicatedId)
    ensures ReplicatedKey(id) != CheckpointKey(s)
  {
    hide SourcePath, Slashed;
    RootLetters();
    assert ReplicatedKey(id)[13] == REPLICATED_ROOT[13] && CheckpointKey(s)[13] == CHECKPOINT_ROOT[13];
  }

  /** Writing the checkpoint leaves the copy alone and reads back. */
  lemma CheckpointWritten(db: Db, client: Client, s: Source, applied: nat, snapshot: nat, stamp: int,
                          codec: ReplicaCodec)
    requires PlainSource(s) && Faithful(codec) && Copies(db, client, s, codec)
    ensures var after := ApplyCommand(db, PutCheckpoint(s, applied, snapshot, stamp, codec));
            Copies(after, client, s, codec) && CheckpointOf(after, s, codec) == applied
  {
    hide ReplicatedKey, CheckpointKey, Held;
    var after := ApplyCommand(db, PutCheckpoint(s, applied, snapshot, stamp, codec));
    forall name | TidyName(name)
      ensures CopyOf(after, s, codec, name) == CarriedOption(Held(client, Identity(s.namespace, s.service, name))) {
      NamesApart(s, name, name);
    }
  }

  lemma InstancePut(db: Db, client: Client, s: Source, v: Value, revision: nat, stamp: int, codec: ReplicaCodec)
    requires PlainSource(s) && Faithful(codec) && OfService(v, s) && Copies(db, client, s, codec)
    ensures var after := ApplyCommand(db, PutInstance(s, v, revision, stamp, codec));
            Copies(after, client[v.id := v], s, codec) && CheckpointOf(after, s, codec) == CheckpointOf(db, s, codec)
  {
    hide ReplicatedKey, CheckpointKey, CheckpointOf, Copies, PutInstance;
    var text := PutIs(s, v, revision, stamp, codec);
    TextPut(db, client, s, v, text, codec);
  }

  lemma PutIs(s: Source, v: Value, revision: nat, stamp: int, codec: ReplicaCodec) returns (text: string)
    requires Faithful(codec) && OfService(v, s)
    ensures PutInstance(s, v, revision, stamp, codec) == Put(ReplicatedKey(ReplicatedId(s, v.id.instance)), text)
    ensures codec.decodeValue(text).Some? && codec.decodeValue(text).value.value == Carried(v)
  {
    hide ReplicatedKey;
    text := PutInstance(s, v, revision, stamp, codec).value;
  }

  lemma TextPut(db: Db, client: Client, s: Source, v: Value, text: string, codec: ReplicaCodec)
    requires PlainSource(s) && OfService(v, s) && Copies(db, client, s, codec)
    requires codec.decodeValue(text).Some? && codec.decodeValue(text).value.value == Carried(v)
    ensures var after := db[ReplicatedKey(ReplicatedId(s, v.id.instance)) := text];
            Copies(after, client[v.id := v], s, codec) && CheckpointOf(after, s, codec) == CheckpointOf(db, s, codec)
  {
    hide ReplicatedKey, CheckpointKey, Carried;
    var after := db[ReplicatedKey(ReplicatedId(s, v.id.instance)) := text];
    NamesApart(s, v.id.instance, v.id.instance);
    forall name | TidyName(name)
      ensures CopyOf(after, s, codec, name)
              == CarriedOption(Held(client[v.id := v], Identity(s.namespace, s.service, name))) {
      NamesApart(s, name, v.id.instance);
      assert v.id == Identity(s.namespace, s.service, v.id.instance);
    }
  }

  lemma InstanceDeleted(db: Db, client: Client, s: Source, id: Identity, codec: ReplicaCodec)
    requires PlainSource(s) && Copies(db, client, s, codec)
    requires id.namespace == s.namespace && id.service == s.service && TidyName(id.instance)
    ensures var after := ApplyCommand(db, Delete(ReplicatedKey(ReplicatedId(s, id.instance))));
            Copies(after, client - {id}, s, codec) && CheckpointOf(after, s, codec) == CheckpointOf(db, s, codec)
  {
    hide ReplicatedKey, CheckpointKey;
    var after := ApplyCommand(db, Delete(ReplicatedKey(ReplicatedId(s, id.instance))));
    NamesApart(s, id.instance, id.instance);
    forall name | TidyName(name)
      ensures CopyOf(after, s, codec, name)
              == CarriedOption(Held(client - {id}, Identity(s.namespace, s.service, name))) {
      NamesApart(s, name, id.instance);
    }
  }

  lemma ServiceCleared(db: Db, s: Source, codec: ReplicaCodec)
    requires PlainSource(s)
    ensures var after := ApplyCommand(db, DeletePrefix(ReplicationServicePrefix(s)));
            Copies(after, map[], s, codec) && CheckpointOf(after, s, codec) == CheckpointOf(db, s, codec)
  {
    hide ReplicatedKey, CheckpointKey, ApplyCommand, ReplicationServicePrefix;
    var after := ApplyCommand(db, DeletePrefix(ReplicationServicePrefix(s)));
    forall name | TidyName(name) ensures CopyOf(after, s, codec, name) == None {
      NameStartsWithText(name);
      DeleteServiceExactly(db, s, ReplicatedId(s, name));
    }
    DeleteServiceSparesOthers(db, s, s, Identity("", "", ""), CheckpointKey(s));
  }

  lemma NameStartsWithText(name: string)
    requires TidyName(name)
    ensures name != "" && name[0] < MAX_BYTE
  {
    assert name[0] in name;
  }

  lemma {:induction false} InstancesPut(db: Db, s: Source, items: seq<Value>, revision: nat, stamp: int,
                                        codec: ReplicaCodec)
    requires PlainSource(s) && Faithful(codec) && Copies(db, map[], s, codec)
    requires forall v :: v in items ==> OfService(v, s)
    ensures var after := Fold(db, PutInstances(s, items, revision, stamp, codec));
            Copies(after, FromSnapshot(items), s, codec) && CheckpointOf(after, s, codec) == CheckpointOf(db, s, codec)
    decreases |items|
  {
    hide Copies, CheckpointOf, PutInstance, Faithful;
    if items != [] {
      var front, last := items[..|items| - 1], items[|items| - 1];
      assert last in items && forall v :: v in front ==> v in items;
      InstancesPut(db, s, front, revision, stamp, codec);
      var puts := PutInstances(s, front, revision, stamp, codec);
      FoldOne(db, puts, PutInstance(s, last, revision, stamp, codec));
      InstancePut(Fold(db, puts), FromSnapshot(front), s, last, revision, stamp, codec);
    }
  }

  lemma FoldOne(db: Db, cmds: seq<Command>, cmd: Command)
    ensures Fold(db, cmds + [cmd]) == ApplyCommand(Fold(db, cmds), cmd)
  {
    assert (cmds + [cmd])[..|cmds|] == cmds;
  }

  /** All proposals of a frame do to the copy what the frame does to a client, and leave its revision as
      the checkpoint; a snapshot replaces the service's instances exactly. */
  lemma FrameIsCopied(db: Db, client: Client, s: Source, frame: Frame, stamp: int, codec: ReplicaCodec)
    requires PlainSource(s) && Faithful(codec) && GoodFrame(frame, s)
    requires frame.Snapshot? || Copies(db, client, s, codec)
    ensures var after := Fold(db, Proposals(s, frame, stamp, codec));
            Copies(after, Shows(client, frame), s, codec) && CheckpointOf(after, s, codec) == RevisionOf(frame)
  {
    hide Copies, CheckpointOf, PutInstance, PutCheckpoint, Faithful, ReplicatedKey, ApplyCommand;
    match frame
    case Snapshot(revision, items) =>
      var clear := DeletePrefix(ReplicationServicePrefix(s));
      var puts := PutInstances(s, items, revision, stamp, codec);
      ServiceCleared(db, s, codec);
      FoldOne(db, [], clear);
      assert [] + [clear] == [clear];
      InstancesPut(ApplyCommand(db, clear), s, items, revision, stamp, codec);
      FoldOfConcat(db, [clear], puts);
      FoldOne(db, [clear] + puts, PutCheckpoint(s, revision, revision, stamp, codec));
      CheckpointWritten(Fold(db, [clear] + puts), FromSnapshot(items), s, revision, revision, stamp, codec);
    case Change(message) =>
      var data := DataOf(s, message, stamp, codec);
      ChangeIsCopied(db, client, s, message, stamp, codec);
      ChangeProposals(s, message, stamp, codec);
      FoldOne(db, [data], PutCheckpoint(s, RevisionOf(frame), 0, stamp, codec));
      FoldOne(db, [], data);
      assert [] + [data] == [data];
      CheckpointWritten(ApplyCommand(db, data), Shows(client, frame), s, RevisionOf(frame), 0, stamp, codec);
  }

  /** The same field by field: the copy of a shown instance has its id, zone, labels, metadata, endpoints, lease
      and times, and no hierarchy; what is not shown has no copy. */
  lemma FrameIsCopiedByField(db: Db, client: Client, s: Source, frame: Frame, stamp: int, codec: ReplicaCodec,
                             name: string)
    requires PlainSource(s) && Faithful(codec) && GoodFrame(frame, s) && TidyName(name)
    requires frame.Snapshot? || Copies(db, client, s, codec)
    ensures var copy := CopyOf(Fold(db, Proposals(s, frame, stamp, codec)), s, codec, name);
            var shown, id := Shows(client, frame), Identity(s.namespace, s.service, name);
            && (copy.Some? <==> id in shown)
            && (id in shown ==>
                  && copy.value.id == shown[id].id && copy.value.zone == shown[id].zone
                  && copy.value.labels == shown[id].labels && copy.value.metadata == shown[id].metadata
                  && copy.value.endpoints == shown[id].endpoints && copy.value.ttl == shown[id].ttl
                  && copy.value.registeredAt == shown[id].registeredAt
                  && copy.value.lastHeartbeat == shown[id].lastHeartbeat
                  && copy.value.hierarchy == Hierarchy("", "", "", "", ""))
  {
    hide CopyOf, Proposals, Fold, PlainSource, Faithful, GoodFrame, TidyName, Shows;
    FrameIsCopied(db, client, s, frame, stamp, codec);
  }

  /** What an upsert leaves stored: the instance as it was sent but without hierarchy, with the source's region and
      cluster, the revision and the time; and the checkpoint. */
  lemma UpsertIsStored(db: Db, s: Source, revision: nat, v: Value, stamp: int, codec: ReplicaCodec)
    requires PlainSource(s) && Faithful(codec) && OfService(v, s)
    ensures var after := Fold(db, Proposals(s, Change(Upsert(revision, v.id, v)), stamp, codec));
            var key := ReplicatedKey(ReplicatedId(s, v.id.instance));
            && key in after && CheckpointKey(s) in after
            && codec.decodeValue(after[key]) ==
               Some(Replicated(v.(hierarchy := Hierarchy("", "", "", "", "")), TrimSpace(s.region),
                               TrimSpace(s.cluster),
                               revision, stamp))
            && codec.decodeCheckpoint(after[CheckpointKey(s)]) == Some(Checkpoint(s, revision, 0, stamp))
  {
    hide ReplicatedKey, CheckpointKey, OfService, PlainSource;
    var put, mark := PutInstance(s, v, revision, stamp, codec), PutCheckpoint(s, revision, 0, stamp, codec);
    PutHolds(s, v, revision, stamp, codec);
    OfServiceFacts(v, s);
    NamesApart(s, v.id.instance, v.id.instance);
    FoldOne(db, [], put);
    FoldOne(db, [put], mark);
    assert [] + [put] == [put];
  }

  /** What a snapshot leaves stored: likewise each of its instances - of several with one name the last. */
  lemma SnapshotIsStored(db: Db, s: Source, revision: nat, items: seq<Value>, i: nat, stamp: int, codec: ReplicaCodec)
    requires PlainSource(s) && Faithful(codec) && (forall v :: v in items ==> OfService(v, s))
    requires i < |items| && forall j :: i < j < |items| ==> items[j].id.instance != items[i].id.instance
    ensures var after := Fold(db, Proposals(s, Snapshot(revision, items), stamp, codec));
            var key := ReplicatedKey(ReplicatedId(s, items[i].id.instance));
            && key in after && CheckpointKey(s) in after
            && codec.decodeValue(after[key]) ==
               Some(Replicated(items[i].(hierarchy := Hierarchy("", "", "", "", "")), TrimSpace(s.region),
                               TrimSpace(s.cluster), revision, stamp))
            && codec.decodeCheckpoint(after[CheckpointKey(s)]) == Some(Checkpoint(s, revision, revision, stamp))
  {
    hide ReplicatedKey, CheckpointKey, OfService, PlainSource, ReplicationServicePrefix, PutInstance, PutInstances,
      ApplyCommand;
    var clear := DeletePrefix(ReplicationServicePrefix(s));
    var puts := PutInstances(s, items, revision, stamp, codec);
    assert items[i] in items;
    OfServiceFacts(items[i], s);
    NamesApart(s, items[i].id.instance, items[i].id.instance);
    FoldOfConcat(db, [clear], puts);
    PutsAreStored(Fold(db, [clear]), s, items, i, revision, stamp, codec);
    FoldOne(db, [clear] + puts, PutCheckpoint(s, revision, revision, stamp, codec));
    CheckpointPut(Fold(db, [clear] + puts), s, revision, revision, stamp, codec);
  }

  lemma CheckpointPut(db: Db, s: Source, applied: nat, snapshot: nat, stamp: int, codec: ReplicaCodec)
    requires Faithful(codec)
    ensures var after := ApplyCommand(db, PutCheckpoint(s, applied, snapshot, stamp, codec));
            && CheckpointKey(s) in after
            && codec.decodeCheckpoint(after[CheckpointKey(s)]) == Some(Checkpoint(s, applied, snapshot, stamp))
            && forall key :: key in db && key != CheckpointKey(s) ==> key in after && after[key] == db[key]
  {
    hide CheckpointKey;
  }

  lemma {:induction false} PutsAreStored(db: Db, s: Source, items: seq<Value>, i: nat, revision: nat, stamp: int,
                                         codec: ReplicaCodec)
    requires PlainSource(s) && Faithful(codec) && (forall v :: v in items ==> OfService(v, s))
    requires i < |items| && forall j :: i < j < |items| ==> items[j].id.instance != items[i].id.instance
    ensures var after := Fold(db, PutInstances(s, items, revision, stamp, codec));
            var key := ReplicatedKey(ReplicatedId(s, items[i].id.instance));
            && key in after
            && codec.decodeValue(after[key]) ==
               Some(Replicated(items[i].(hierarchy := Hierarchy("", "", "", "", "")), TrimSpace(s.region),
                               TrimSpace(s.cluster), revision, stamp))
    decreases |items|
  {
    hide ReplicatedKey, CheckpointKey, OfService, PlainSource, PutInstance, PutInstances, Faithful, Tidy, TidyName,
      TrimSpace, Fold;
    PutsSnoc(s, items, revision, stamp, codec);
    var front, last := items[..|items| - 1], items[|items| - 1];
    var puts := PutInstances(s, front, revision, stamp, codec);
    assert last in items && items[i] in items && forall v :: v in front ==> v in items;
    PutHolds(s, last, revision, stamp, codec);
    FoldOne(db, puts, PutInstance(s, last, revision, stamp, codec));
    if i < |front| {
      PutsAreStored(db, s, front, i, revision, stamp, codec);
      OfServiceFacts(last, s);
      OfServiceFacts(items[i], s);
      NamesApart(s, last.id.instance, items[i].id.instance);
    }
  }

  lemma PutsSnoc(s: Source, items: seq<Value>, revision: nat, stamp: int, codec: ReplicaCodec)
    requires items != []
    ensures PutInstances(s, items, revision, stamp, codec) ==
            PutInstances(s, items[..|items| - 1], revision, stamp, codec)
            + [PutInstance(s, items[|items| - 1], revision, stamp, codec)]
  {
    hide PutInstance;
  }

  lemma PutHolds(s: Source, v: Value, revision: nat, stamp: int, codec: ReplicaCodec)
    requires Faithful(codec) && OfService(v, s)
    ensures var put := PutInstance(s, v, revision, stamp, codec);
            && put.Put? && put.key == ReplicatedKey(ReplicatedId(s, v.id.instance))
            && codec.decodeValue(put.value) ==
               Some(Replicated(v.(hierarchy := Hierarchy("", "", "", "", "")), TrimSpace(s.region),
                               TrimSpace(s.cluster),
                               revision, stamp))
  {
    hide ReplicatedKey, TidyName;
    assert s.(namespace := v.id.namespace, service := v.id.service) == s;
  }

  lemma OfServiceFacts(v: Value, s: Source)
    requires OfService(v, s)
    ensures TidyName(v.id.instance) && Tidy(v.id.instance)
  {
  }

  /** The data part of a change. */
  function DataOf(s: Source, message: Message, stamp: int, codec: ReplicaCodec): Command {
    match message
    case Upsert(revision, _, instance) => PutInstance(s, instance, revision, stamp, codec)
    case Remove(_, id) => Delete(ReplicatedKey(ReplicatedId(s, id.instance)))
  }

  lemma ChangeProposals(s: Source, message: Message, stamp: int, codec: ReplicaCodec)
    requires GoodFrame(Change(message), s)
    ensures Proposals(s, Change(message), stamp, codec) ==
            [DataOf(s, message, stamp, codec)] + [PutCheckpoint(s, RevisionOf(Change(message)), 0, stamp, codec)]
  {
    hide PutInstance, PutCheckpoint, ReplicatedKey;
  }

  lemma ChangeIsCopied(db: Db, client: Client, s: Source, message: Message, stamp: int, codec: ReplicaCodec)
    requires PlainSource(s) && Faithful(codec) && GoodFrame(Change(message), s) && Copies(db, client, s, codec)
    ensures var after := ApplyCommand(db, DataOf(s, message, stamp, codec));
            Copies(after, Shows(client, Change(message)), s, codec)
            && CheckpointOf(after, s, codec) == CheckpointOf(db, s, codec)
  {
    hide Copies, CheckpointOf, PutInstance, Faithful, ReplicatedKey, ApplyCommand;
    match message
    case Upsert(revision, id, instance) => InstancePut(db, client, s, instance, revision, stamp, codec);
    case Remove(_, id) => InstanceDeleted(db, client, s, id, codec);
  }

  /** What a consumer proposes never touches the local directory: neither its rows nor, by its prefix
      delete, anybody's watch of them. */
  lemma ProposalsAreClean(s: Source, frame: Frame, stamp: int, codec: ReplicaCodec, decode: Decoder)
    ensures AllClean(Proposals(s, frame, stamp, codec), decode)
  {
    hide ReplicatedKey, CheckpointKey, ReplicationServicePrefix, WellPlacedRow;
    OutsideRoot(s);
    match frame
    case Snapshot(revision, items) => PutsAreClean(s, items, revision, stamp, codec, decode);
    case Change(_) =>
  }

  lemma OutsideRoot(s: Source)
    ensures forall id :: !(ROOT <= ReplicatedKey(id))
    ensures !(ROOT <= CheckpointKey(s))
    ensures !(ReplicationServicePrefix(s) <= ROOT) && !(ROOT <= ReplicationServicePrefix(s))
  {
    hide SourcePath, Slashed;
    RootLetters();
    assert ROOT[3] != CHECKPOINT_ROOT[3];
    forall id ensures !(ROOT <= ReplicatedKey(id)) {
      assert ReplicatedKey(id)[3] == REPLICATED_ROOT[3];
    }
    assert CheckpointKey(s)[3] == CHECKPOINT_ROOT[3] && ReplicationServicePrefix(s)[3] == REPLICATED_ROOT[3];
  }

  lemma {:induction false} PutsAreClean(s: Source, items: seq<Value>, revision: nat, stamp: int, codec: ReplicaCodec,
                                        decode: Decoder)
    ensures AllClean(PutInstances(s, items, revision, stamp, codec), decode)
    decreases |items|
  {
    hide ReplicatedKey, WellPlacedRow;
    OutsideRoot(s);
    if items != [] {
      PutsAreClean(s, items[..|items| - 1], revision, stamp, codec, decode);
    }
  }

  // Other writers of the downstream store.

  /** The keys of the copy: the service's replicated instances and its checkpoint. */
  predicate OwnKey(key: string, s: Source) {
    ReplicationServicePrefix(s) <= key || key == CheckpointKey(s)
  }

  /** A command that stays off the copy's keys. */
  predicate Foreign(cmd: Command, s: Source) {
    match cmd
    case Put(key, _) => !OwnKey(key, s)
    case Delete(key) => !OwnKey(key, s)
    case DeletePrefix(prefix) =>
      && !(prefix <= ReplicationServicePrefix(s)) && !(ReplicationServicePrefix(s) <= prefix)
      && !(prefix <= CheckpointKey(s))
    case Unknown => true
  }

  /** Of all commands that reach the store, the ones on the copy's keys. */
  function OwnPart(cmds: seq<Command>, s: Source): seq<Command> {
    if cmds == [] then []
    else
      var last := cmds[|cmds| - 1];
      OwnPart(cmds[..|cmds| - 1], s) + (if Foreign(last, s) then [] else [last])
  }

  ghost predicate SameOwn(a: Db, b: Db, s: Source) {
    forall key :: OwnKey(key, s) ==> Lookup(a, key) == Lookup(b, key)
  }

  lemma ForeignIsUntouched(cmd: Command, s: Source, key: string)
    requires Foreign(cmd, s) && OwnKey(key, s)
    ensures EffectOf(cmd, key) == Untouched
  {
    hide ReplicationServicePrefix, CheckpointKey, InPrefixRange;
    if cmd.DeletePrefix? {
      NotInRange(cmd.prefix, key);
      Comparable(cmd.prefix, ReplicationServicePrefix(s), key);
    }
  }

  lemma {:induction false} OwnPartOfConcat(a: seq<Command>, b: seq<Command>, s: Source)
    ensures OwnPart(a + b, s) == OwnPart(a, s) + OwnPart(b, s)
    decreases |b|
  {
    hide Foreign;
    if b == [] {
      assert a + b == a;
    } else {
      assert (a + b)[..|a + b| - 1] == a + b[..|b| - 1];
      OwnPartOfConcat(a, b[..|b| - 1], s);
    }
  }

  /** Commands of others leave no part, own ones are all of it. */
  lemma {:induction false} OwnPartOf(cmds: seq<Command>, s: Source)
    ensures (forall cmd :: cmd in cmds ==> Foreign(cmd, s)) ==> OwnPart(cmds, s) == []
    ensures (forall cmd :: cmd in cmds ==> !Foreign(cmd, s)) ==> OwnPart(cmds, s) == cmds
    decreases |cmds|
  {
    hide Foreign;
    if cmds != [] {
      var front, last := cmds[..|cmds| - 1], cmds[|cmds| - 1];
      assert last in cmds && cmds == front + [last] && forall cmd :: cmd in front ==> cmd in cmds;
      OwnPartOf(front, s);
    }
  }

  lemma {:induction false} OwnPartWrites(cmds: seq<Command>, s: Source, key: string)
    requires OwnKey(key, s)
    ensures LastWrite(OwnPart(cmds, s), key) == LastWrite(cmds, key)
    decreases |cmds|
  {
    hide Foreign, OwnKey, EffectOf;
    if cmds != [] {
      var front, last := cmds[..|cmds| - 1], cmds[|cmds| - 1];
      OwnPartWrites(front, s, key);
      if Foreign(last, s) {
        ForeignIsUntouched(last, s, key);
        assert OwnPart(front, s) + [] == OwnPart(front, s);
      } else {
        assert (OwnPart(front, s) + [last])[..|OwnPart(front, s)|] == OwnPart(front, s);
      }
    }
  }

  /** Whatever commands of others come in between, the copy's keys hold what its own commands make of them. */
  lemma OwnPartDecides(db: Db, cmds: seq<Command>, s: Source)
    ensures SameOwn(Fold(db, cmds), Fold(db, OwnPart(cmds, s)), s)
  {
    hide OwnKey, Foreign, OwnPart;
    forall key | OwnKey(key, s) ensures Lookup(Fold(db, cmds), key) == Lookup(Fold(db, OwnPart(cmds, s)), key) {
      FoldByKey(db, cmds, key);
      FoldByKey(db, OwnPart(cmds, s), key);
      OwnPartWrites(cmds, s, key);
    }
  }

  lemma SameOwnSameCopy(a: Db, b: Db, s: Source, codec: ReplicaCodec)
    requires SameOwn(a, b, s) && PlainSource(s)
    ensures forall name :: TidyName(name) ==> CopyOf(a, s, codec, name) == CopyOf(b, s, codec, name)
    ensures CheckpointOf(a, s, codec) == CheckpointOf(b, s, codec)
    ensures forall client :: Copies(a, client, s, codec) <==> Copies(b, client, s, codec)
  {
    hide ReplicatedKey, CheckpointKey, ReplicationServicePrefix, Held, TextBytes, Tidy;
    SameKey(a, b, s, CheckpointKey(s));
    forall name | TidyName(name) ensures CopyOf(a, s, codec, name) == CopyOf(b, s, codec, name) {
      ServicePrefixMatches(s, ReplicatedId(s, name));
      SameKey(a, b, s, ReplicatedKey(ReplicatedId(s, name)));
    }
  }

  lemma SameKey(a: Db, b: Db, s: Source, key: string)
    requires SameOwn(a, b, s) && OwnKey(key, s)
    ensures key in a <==> key in b
    ensures key in a ==> a[key] == b[key]
  {
    hide OwnKey;
    assert Lookup(a, key) == Lookup(b, key);
  }

  /** Local registrations and what a consumer of another source proposes are off the copy's keys. */
  lemma LocalIsForeign(cmd: Command, s: Source)
    requires (cmd.Put? || cmd.Delete?) && ROOT <= cmd.key
    ensures Foreign(cmd, s)
  {
    hide ReplicationServicePrefix, CheckpointKey;
    OutsideRoot(s);
    Comparable(ROOT, ReplicationServicePrefix(s), cmd.key);
  }

  lemma OthersAreForeign(s: Source, other: Source, frame: Frame, stamp: int, codec: ReplicaCodec)
    requires PlainSource(s) && PlainSource(other) && s != other && GoodFrame(frame, other)
    ensures forall cmd :: cmd in Proposals(other, frame, stamp, codec) ==> Foreign(cmd, s)
  {
    hide PutInstance, PutCheckpoint, ReplicatedKey, ReplicationServicePrefix, CheckpointKey, OfService, TidyName,
      PlainSource;
    OtherCheckpointIsForeign(s, other, RevisionOf(frame), if frame.Snapshot? then RevisionOf(frame) else 0, stamp,
                             codec);
    match frame
    case Snapshot(revision, items) =>
      OtherPrefixIsForeign(s, other);
      OtherPutsAreForeign(s, other, items, revision, stamp, codec);
    case Change(Upsert(revision, _, instance)) => OtherPutIsForeign(s, other, instance, revision, stamp, codec);
    case Change(Remove(_, id)) => OtherKeyIsForeign(s, other, id.instance);
  }

  lemma OtherKeyIsForeign(s: Source, other: Source, name: string)
    requires PlainSource(s) && PlainSource(other) && s != other && TidyName(name)
    ensures !OwnKey(ReplicatedKey(ReplicatedId(other, name)), s)
  {
    hide ReplicatedKey, ReplicationServicePrefix, CheckpointKey, PlainSource;
    ServicePrefixMatches(s, ReplicatedId(other, name));
    CheckpointsApart(s, ReplicatedId(other, name));
  }

  lemma OtherPutIsForeign(s: Source, other: Source, v: Value, revision: nat, stamp: int, codec: ReplicaCodec)
    requires PlainSource(s) && PlainSource(other) && s != other && OfService(v, other)
    ensures Foreign(PutInstance(other, v, revision, stamp, codec), s)
  {
    hide ReplicatedKey, ReplicationServicePrefix, CheckpointKey, PlainSource, TidyName;
    OtherKeyIsForeign(s, other, v.id.instance);
    assert other.(namespace := v.id.namespace, service := v.id.service) == other;
  }

  lemma {:induction false} OtherPutsAreForeign(s: Source, other: Source, items: seq<Value>, revision: nat, stamp: int,
                                               codec: ReplicaCodec)
    requires PlainSource(s) && PlainSource(other) && s != other && forall v :: v in items ==> OfService(v, other)
    ensures forall cmd :: cmd in PutInstances(other, items, revision, stamp, codec) ==> Foreign(cmd, s)
    decreases |items|
  {
    hide PutInstance, OfService, Foreign, PlainSource;
    if items != [] {
      var front, last := items[..|items| - 1], items[|items| - 1];
      assert last in items && forall v :: v in front ==> v in items;
      OtherPutsAreForeign(s, other, front, revision, stamp, codec);
      OtherPutIsForeign(s, other, last, revision, stamp, codec);
    }
  }

  lemma OtherPrefixIsForeign(s: Source, other: Source)
    requires PlainSource(s) && PlainSource(other) && s != other
    ensures Foreign(DeletePrefix(ReplicationServicePrefix(other)), s)
  {
    hide SourcePath, Slashed, PlainSource;
    PathMatches(s, other, "", "");
    PathMatches(other, s, "", "");
    RootCancels(REPLICATED_ROOT, SourcePath(s, ""), SourcePath(other, ""));
    RootCancels(REPLICATED_ROOT, SourcePath(other, ""), SourcePath(s, ""));
    CheckpointIsNotUnder(other, s);
  }

  lemma CheckpointIsNotUnder(s: Source, other: Source)
    ensures !(ReplicationServicePrefix(s) <= CheckpointKey(other))
  {
    hide SourcePath, Slashed;
    RootLetters();
    assert ReplicationServicePrefix(s)[13] == REPLICATED_ROOT[13] && CheckpointKey(other)[13] == CHECKPOINT_ROOT[13];
  }

  lemma OtherCheckpointIsForeign(s: Source, other: Source, applied: nat, snapshot: nat, stamp: int, codec: ReplicaCodec)
    requires PlainSource(s) && PlainSource(other) && s != other
    ensures Foreign(PutCheckpoint(other, applied, snapshot, stamp, codec), s)
  {
    hide CheckpointKey, ReplicationServicePrefix, ParseCheckpointKey, PlainSource;
    CheckpointKeyRoundTrip(s);
    CheckpointKeyRoundTrip(other);
    CheckpointIsNotUnder(s, other);
  }

  /** What a consumer proposes itself is all on the copy's keys. */
  lemma ProposalsAreOwn(s: Source, frame: Frame, stamp: int, codec: ReplicaCodec)
    requires PlainSource(s) && GoodFrame(frame, s)
    ensures forall cmd :: cmd in Proposals(s, frame, stamp, codec) ==> !Foreign(cmd, s)
  {
    hide PutInstance, PutCheckpoint, ReplicatedKey, ReplicationServicePrefix, CheckpointKey, OfService, TidyName,
      PlainSource;
    OwnCheckpoint(s, RevisionOf(frame), if frame.Snapshot? then RevisionOf(frame) else 0, stamp, codec);
    match frame
    case Snapshot(revision, items) => OwnPuts(s, items, revision, stamp, codec);
    case Change(Upsert(revision, _, instance)) => OwnPut(s, instance, revision, stamp, codec);
    case Change(Remove(_, id)) => OwnNameKey(s, id.instance);
  }

  lemma OwnCheckpoint(s: Source, applied: nat, snapshot: nat, stamp: int, codec: ReplicaCodec)
    ensures !Foreign(PutCheckpoint(s, applied, snapshot, stamp, codec), s)
  {
    hide CheckpointKey, ReplicationServicePrefix;
  }

  lemma OwnNameKey(s: Source, name: string)
    requires PlainSource(s) && TidyName(name)
    ensures OwnKey(ReplicatedKey(ReplicatedId(s, name)), s)
  {
    hide ReplicatedKey, ReplicationServicePrefix, CheckpointKey, PlainSource;
    ServicePrefixMatches(s, ReplicatedId(s, name));
  }

  lemma OwnPut(s: Source, v: Value, revision: nat, stamp: int, codec: ReplicaCodec)
    requires PlainSource(s) && OfService(v, s)
    ensures !Foreign(PutInstance(s, v, revision, stamp, codec), s)
  {
    hide ReplicatedKey, ReplicationServicePrefix, CheckpointKey, PlainSource, TidyName;
    OwnNameKey(s, v.id.instance);
    assert s.(namespace := v.id.namespace, service := v.id.service) == s;
  }

  lemma {:induction false} OwnPuts(s: Source, items: seq<Value>, revision: nat, stamp: int, codec: ReplicaCodec)
    requires PlainSource(s) && forall v :: v in items ==> OfService(v, s)
    ensures forall cmd :: cmd in PutInstances(s, items, revision, stamp, codec) ==> !Foreign(cmd, s)
    decreases |items|
  {
    hide PutInstance, OfService, Foreign, PlainSource;
    if items != [] {
      var front, last := items[..|items| - 1], items[|items| - 1];
      assert last in items && forall v :: v in front ==> v in items;
      OwnPuts(s, front, revision, stamp, codec);
      OwnPut(s, last, revision, stamp, codec);
    }
  }
}
