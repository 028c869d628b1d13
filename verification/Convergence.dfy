/** Watching a node through crashes and restarts: recovery and the watch protocol together.

    A snapshot may be scanned while entries are delivered again after a restart.  The store is then no
    prefix of the log, yet the client that starts from it ends right.
 */
module Convergence {
  import opened Text
  import opened Storage
  import opened RaftLog
  import opened SnapshotStore
  import opened Recovery
  import opened Selector
  import opened Directory
  import opened Mirror
  import WatchStream
  import Resume
  import RaftNode

  ghost predicate PlacedSnapshots(snaps: Snapshots, decode: Decoder) {
    forall id :: id in snaps.data ==> PlacedPayload(snaps.data[id], decode)
  }

  ghost predicate PlacedPayload(payload: Payload, decode: Decoder) {
    exists kv :: payload == Export(kv) && WellPlaced(kv, decode)
  }

  ghost predicate Placed(st: State, decode: Decoder) {
    WellPlaced(st.kv, decode) && PlacedSnapshots(st.snaps, decode)
  }

  lemma RestoredIsPlaced(over: Db, payload: Payload, decode: Decoder)
    requires PlacedPayload(payload, decode)
    ensures WellPlaced(Restored(over, payload), decode)
  {
    hide WellPlaced, Export, Restored, Business;
    var kv :| payload == Export(kv) && WellPlaced(kv, decode);
    RestoreOfExport(over, kv);
    WatchStream.PlacedOfBusiness(kv, Restored(over, payload), decode);
  }

  lemma AppliedIsPlaced(kv: Db, log: seq<Entry>, i: nat, decode: Decoder)
    requires WellPlaced(kv, decode) && AllClean(Commands(log), decode) && i < |log|
    ensures WellPlaced(ApplyCommand(kv, CommandOf(log[i])), decode)
  {
    hide WellPlaced, Clean;
    assert Commands(log)[i] == CommandOf(log[i]) && CommandOf(log[i]) in Commands(log);
    CleanKeepsPlaced(kv, CommandOf(log[i]), decode);
  }

  lemma StepIsPlaced(a: State, b: State, decode: Decoder)
    requires Inv(a) && Step(a, b) && Placed(a, decode) && AllClean(Commands(b.log), decode)
    ensures Placed(b, decode)
  {
    hide WellPlaced, PlacedPayload, Restored, Export, AllClean, ApplyCommand, Business, Safe, FlatAppend, FlatTruncate,
      Window, SnapshotAt;
    if PowerOn(a, b) {
      if a.snaps.metas != {} {
        var id :| IsNewest(a.snaps.metas, id) && id in a.snaps.data
                  && b == a.(kv := Restored(a.kv, a.snaps.data[id]), mode := Booting(id.index + 1));
        RestoredIsPlaced(a.kv, a.snaps.data[id], decode);
      }
    } else if BootApply(a, b) {
      BootEntryIsCommitted(a);
      AppliedIsPlaced(a.kv, a.log, a.mode.next - 1, decode);
    } else if WriteMeta(a, b) {
      WatchStream.PlacedOfBusiness(a.kv, b.kv, decode);
    } else if Deliver(a, b) {
      AppliedIsPlaced(a.kv, a.log, a.mode.cursor, decode);
    } else if op :| SnapshotFile(a, b, op) {
      if op.RenameData? {
        ExportIsPlaced(a.kv, decode);
      }
    }
  }

  lemma ExportIsPlaced(kv: Db, decode: Decoder)
    requires WellPlaced(kv, decode)
    ensures PlacedPayload(Export(kv), decode)
  {
  }

  lemma BootEntryIsCommitted(a: State)
    requires Inv(a) && a.mode.Booting? && a.mode.next <= a.commit && At(a.wal, a.mode.next).Some?
    ensures 1 <= a.mode.next <= |a.log| && At(a.wal, a.mode.next).value == a.log[a.mode.next - 1]
  {
    var s :| DiskInv(a, s) && ModeInv(a, s);
    assert At(a.wal, a.mode.next - 1 + 1).Some?;
  }

  /** When the committed log holds only what registration and replication write, every store and every
      snapshot of every run holds only such rows. */
  lemma {:induction false} RunIsPlaced(states: seq<State>, i: nat, decode: Decoder)
    requires Run(states) && i < |states| && AllClean(Commands(states[i].log), decode)
    ensures Placed(states[i], decode)
  {
    hide Inv, Step, Initial;
    if i == 0 {
      FirstIsPlaced(states[0], decode);
    } else {
      var a, b := states[i - 1], states[(i - 1) + 1];
      assert Step(a, b);
      StepGrows(a, b);
      assert a.log + b.log[|a.log|..] == b.log;
      CleanParts(a.log, b.log[|a.log|..], decode);
      RunIsPlaced(states, i - 1, decode);
      InvAlways(states, i - 1);
      StepIsPlaced(a, b, decode);
    }
  }

  lemma FirstIsPlaced(st: State, decode: Decoder)
    requires Initial(st)
    ensures Placed(st, decode)
  {
  }

  /** In every run: a snapshot scanned from a running node, whose revision delivery had reached or whose
      store was complete, followed by the events above that revision, makes any client right at any later
      position - also in the middle of a redelivery. */
  lemma WatchConverges(states: seq<State>, i: nat, log: seq<Entry>, sub: nat, revision: nat, upto: nat, client: Client,
                       decode: Decoder, q: Query, taken: int, clock: Clock, now: int)
    requires Run(states) && i < |states| && states[i].mode.Running?
    requires Numbered(log) && states[i].log <= log && AllClean(Commands(log), decode)
    requires sub <= revision <= |states[i].log| <= upto <= |log|
    requires revision <= states[i].mode.cursor || Business(states[i].kv) == Expected(states[i].log)
    requires AllWellFormed(q.selector) && q.namespace != "" && Trimmed(q.namespace) && q.limit <= 0
    requires 0 < taken <= now && UpTo(clock, now)
    ensures var items := Take(ShownRows(PrefixRows(states[i].kv, ScanPrefix(q)), decode, q, taken), q.limit);
            var frames := [WatchStream.Snapshot(revision, items)]
                          + WatchStream.Sent(WatchStream.Published(log[sub..upto], decode), q, clock, revision);
            Mirrors(WatchStream.After(client, frames), Fold(map[], Commands(log[..upto])), decode, q, now)
  {
    hide Mirrors, WellPlaced, PlacedSnapshots, AllClean, ShownRows, ScanPrefix, UpTo, Business, Run, Tracks, Numbered;
    var st := states[i];
    assert log[..|st.log|] == st.log && st.log + log[|st.log|..] == log;
    CleanParts(st.log, log[|st.log|..], decode);
    RunIsPlaced(states, i, decode);
    InvAlways(states, i);
    RevisionIsTracked(st, revision);
    WatchStream.SnapshotStreamMirrors(log, sub, revision, |st.log|, upto, st.kv, client, decode, q, taken, clock, now);
  }

  lemma RevisionIsTracked(st: State, revision: nat)
    requires Inv(st) && st.mode.Running? && revision <= |st.log|
    requires revision <= st.mode.cursor || Business(st.kv) == Expected(st.log)
    ensures Tracks(st.kv, revision, st.log)
  {
    hide Business;
    var s :| DiskInv(st, s) && ModeInv(st, s);
    if revision <= st.mode.cursor {
      TracksEarlier(st.kv, st.mode.cursor, st.log, revision);
    } else {
      TracksEverywhere(st.kv, revision, st.log);
    }
  }

  /** Between any two Ready batches of a node the reported applied index, and every lower one, is such a
      revision: a snapshot scanned then and labelled with it makes any client right.  So is one labelled
      with an index read earlier, unless the reported index went back below it. */
  lemma NodeConverges(node: RaftNode.RaftNode, log: seq<Entry>, sub: nat, revision: nat, upto: nat, client: Client,
                      decode: Decoder, q: Query, taken: int, clock: Clock, now: int)
    requires node.Valid() && node.Reported()
    requires Numbered(log) && node.log <= log && AllClean(Commands(log), decode)
    requires sub <= revision <= node.appliedIndex && |node.log| <= upto <= |log|
    requires AllWellFormed(q.selector) && q.namespace != "" && Trimmed(q.namespace) && q.limit <= 0
    requires 0 < taken <= now && UpTo(clock, now)
    ensures var items := Take(ShownRows(PrefixRows(node.kv.disk, ScanPrefix(q)), decode, q, taken), q.limit);
            var frames := [WatchStream.Snapshot(revision, items)]
                          + WatchStream.Sent(WatchStream.Published(log[sub..upto], decode), q, clock, revision);
            Mirrors(WatchStream.After(client, frames), Fold(map[], Commands(log[..upto])), decode, q, now)
  {
    hide Mirrors, AllClean, ShownRows, ScanPrefix, UpTo, Business, Run, Numbered;
    var states := node.history;
    WatchConverges(states, |states| - 1, log, sub, revision, upto, client, decode, q, taken, clock, now);
  }

  /** A running node is such a source of replication snapshots as `Resume.SnapshotSessionIsSafe` asks for. */
  lemma RunIsServed(states: seq<State>, i: nat, log: seq<Entry>, revision: nat, decode: Decoder)
    requires Run(states) && i < |states| && states[i].mode.Running?
    requires Numbered(log) && states[i].log <= log && AllClean(Commands(log), decode)
    requires revision <= |states[i].log|
    requires revision <= states[i].mode.cursor || Business(states[i].kv) == Expected(states[i].log)
    ensures Resume.Served(states[i].kv, revision, log, |states[i].log|, decode)
  {
    hide WellPlaced, PlacedSnapshots, AllClean, Business, Run, Tracks, Numbered;
    var st := states[i];
    assert log[..|st.log|] == st.log && st.log + log[|st.log|..] == log;
    CleanParts(st.log, log[|st.log|..], decode);
    RunIsPlaced(states, i, decode);
    InvAlways(states, i);
    RevisionIsTracked(st, revision);
  }
}
