/** The watch handlers: a snapshot or a replay first, then live events, each revision at most once. */
module WatchStream {
  import opened Options
  import opened Storage
  import opened Replay
  import opened RaftLog
  import Recovery
  import Bytes
  import RegistryKeys
  import opened Selector
  import opened Text
  import opened Directory
  import opened Mirror
  import opened WatchHub

  datatype Frame = Snapshot(revision: nat, instances: seq<Value>) | Change(message: Message)

  datatype Stream = Gone | Frames(frames: seq<Frame>)

  /** What is sent of a run of events: the matching ones above a revision. */
  function Sent(events: seq<Event>, q: Query, clock: Clock, above: nat): seq<Frame>
    requires AllWellFormed(q.selector)
  {
    if events == [] then []
    else
      var last := events[|events| - 1];
      Sent(events[..|events| - 1], q, clock, above) + (if last.revision > above then FrameOf(last, q, clock) else [])
  }

  function FrameOf(event: Event, q: Query, clock: Clock): seq<Frame>
    requires AllWellFormed(q.selector)
  {
    match MessageOf(event, q, clock(event.revision))
    case None => []
    case Some(message) => [Change(message)]
  }

  lemma SentPrefix(events: seq<Event>, i: nat, q: Query, clock: Clock, above: nat)
    requires AllWellFormed(q.selector) && i < |events|
    ensures Sent(events[..i + 1], q, clock, above) ==
            Sent(events[..i], q, clock, above)
              + (if events[i].revision > above then FrameOf(events[i], q, clock) else [])
  {
    assert events[..i + 1][..i] == events[..i];
  }

  lemma FrameIs(event: Event, q: Query, clock: Clock)
    requires AllWellFormed(q.selector)
    ensures var message := MessageOf(event, q, clock(event.revision));
            FrameOf(event, q, clock) == if message.Some? then [Change(message.value)] else []
  {
  }

  /** One frame for each event above the revision that has a message, in the order of the events. */
  lemma {:induction false} SentInOrder(events: seq<Event>, q: Query, clock: Clock, above: nat) returns (picks: seq<nat>)
    requires AllWellFormed(q.selector)
    ensures forall i, j :: 0 <= i < j < |picks| ==> picks[i] < picks[j]
    ensures forall k: nat :: k in picks <==>
              k < |events| && events[k].revision > above && MessageOf(events[k], q, clock(events[k].revision)).Some?
    ensures |Sent(events, q, clock, above)| == |picks|
    ensures forall i :: 0 <= i < |picks| ==>
              var e := if picks[i] < |events| then Some(events[picks[i]]) else None;
              && e.Some? && MessageOf(e.value, q, clock(e.value.revision)).Some?
              && Sent(events, q, clock, above)[i] == Change(MessageOf(e.value, q, clock(e.value.revision)).value)
    decreases |events|
  {
    hide MessageOf, FrameOf;
    picks := [];
    if events != [] {
      var n := |events| - 1;
      FrameIs(events[n], q, clock);
      var front := SentInOrder(events[..n], q, clock, above);
      assert forall i :: 0 <= i < |front| ==> front[i] in front;
      picks := front;
      if events[n].revision > above && MessageOf(events[n], q, clock(events[n].revision)).Some? {
        picks := front + [n];
      }
    }
  }

  /** The retained events are sent as they are; the revision of the last one sent is kept. */
  method SendReplay(replay: seq<Event>, q: Query, clock: Clock, since: nat) returns (frames: seq<Frame>, current: nat)
    requires AllWellFormed(q.selector) && Increasing(replay) && forall e :: e in replay ==> e.revision > since
    ensures frames == Sent(replay, q, clock, since)
    ensures current >= since && (replay == [] ==> current == since)
            && (replay != [] ==> current <= replay[|replay| - 1].revision)
  {
    hide Sent, MessageOf;
    frames, current := [], since;
    SentNone(q, clock, since);
    for i := 0 to |replay|
      invariant frames == Sent(replay[..i], q, clock, since)
      invariant current >= since && (i == 0 ==> current == since) && (i > 0 ==> current <= replay[i - 1].revision)
    {
      SentPrefix(replay, i, q, clock, since);
      assert replay[i] in replay;
      var message := MessageOf(replay[i], q, clock(replay[i].revision));
      if message.Some? {
        frames := frames + [Change(message.value)];
        current := replay[i].revision;
      }
    }
    assert replay[..|replay|] == replay;
  }

  lemma SentNone(q: Query, clock: Clock, above: nat)
    requires AllWellFormed(q.selector)
    ensures Sent([], q, clock, above) == []
  {
  }

  /** Live events up to the current revision were sent before and are skipped. */
  method SendLive(incoming: seq<Event>, q: Query, clock: Clock, start: nat) returns (frames: seq<Frame>)
    requires AllWellFormed(q.selector) && Increasing(incoming)
    ensures frames == Sent(incoming, q, clock, start)
  {
    hide Sent, MessageOf;
    var current := start;
    frames := [];
    SentNone(q, clock, start);
    for i := 0 to |incoming|
      invariant frames == Sent(incoming[..i], q, clock, start)
      invariant current == start || exists k :: 0 <= k < i && current == incoming[k].revision > start
    {
      SentPrefix(incoming, i, q, clock, start);
      if incoming[i].revision <= current {
        continue;
      }
      var message := MessageOf(incoming[i], q, clock(incoming[i].revision));
      if message.None? {
        continue;
      }
      frames := frames + [Change(message.value)];
      current := incoming[i].revision;
    }
    assert incoming[..|incoming|] == incoming;
  }

  /** The whole stream for a subscription: `revision` and `items` are what a snapshot read then, `incoming`
      what the channel delivers until it is closed. */
  method WatchInstances(q: Query, clock: Clock, since: nat, includeSnapshot: bool, exact: bool, replay: seq<Event>,
                        revision: nat, items: seq<Value>, incoming: seq<Event>) returns (stream: Stream)
    requires AllWellFormed(q.selector) && Increasing(replay) && Increasing(incoming)
    requires forall e :: e in replay ==> e.revision > since
    requires forall e, f :: e in replay && f in incoming ==> e.revision < f.revision
    ensures stream ==
            if since > 0 && !exact && !includeSnapshot then Gone
            else if since != 0 && exact then Frames(Sent(replay, q, clock, since) + Sent(incoming, q, clock, since))
            else if includeSnapshot then Frames([Snapshot(revision, items)] + Sent(incoming, q, clock, revision))
            else Frames(Sent(incoming, q, clock, since))
  {
    hide Sent, Increasing, AllWellFormed;
    var current := since;
    if since > 0 && !exact && !includeSnapshot {
      return Gone;
    }
    var frames: seq<Frame> := [];
    if since == 0 || !exact {
      if includeSnapshot {
        frames := [Snapshot(revision, items)];
        current := revision;
      }
    } else {
      frames, current := SendReplay(replay, q, clock, since);
      SkippingNothing(incoming, q, clock, since, current, replay);
    }
    var live := SendLive(incoming, q, clock, current);
    assert [] + live == live;
    return Frames(frames + live);
  }

  /** The replication stream always falls back to a snapshot. */
  method WatchReplication(q: Query, clock: Clock, since: nat, exact: bool, replay: seq<Event>,
                          revision: nat, items: seq<Value>, incoming: seq<Event>) returns (frames: seq<Frame>)
    requires AllWellFormed(q.selector) && Increasing(replay) && Increasing(incoming)
    requires forall e :: e in replay ==> e.revision > since
    requires forall e, f :: e in replay && f in incoming ==> e.revision < f.revision
    ensures frames ==
            if since != 0 && exact then Sent(replay, q, clock, since) + Sent(incoming, q, clock, since)
            else [Snapshot(revision, items)] + Sent(incoming, q, clock, revision)
  {
    var stream := WatchInstances(q, clock, since, true, exact, replay, revision, items, incoming);
    return stream.frames;
  }

  lemma {:induction false} SameAbove(events: seq<Event>, q: Query, clock: Clock, a: nat, b: nat)
    requires AllWellFormed(q.selector) && forall e :: e in events ==> (e.revision > a <==> e.revision > b)
    ensures Sent(events, q, clock, a) == Sent(events, q, clock, b)
    decreases |events|
  {
    if events != [] {
      SameAbove(events[..|events| - 1], q, clock, a, b);
    }
  }

  lemma SkippingNothing(incoming: seq<Event>, q: Query, clock: Clock, since: nat, current: nat, replay: seq<Event>)
    requires AllWellFormed(q.selector) && current >= since
    requires current == since || (replay != [] && current <= replay[|replay| - 1].revision)
    requires forall e, f :: e in replay && f in incoming ==> e.revision < f.revision
    ensures Sent(incoming, q, clock, current) == Sent(incoming, q, clock, since)
  {
    if current > since {
      assert replay[|replay| - 1] in replay;
      SameAbove(incoming, q, clock, current, since);
    }
  }

  // The stream and the committed log.

  function EventsOf(e: Entry, decode: Decoder): (events: seq<Event>)
    ensures |events| <= 1 && forall event :: event in events ==> event.revision == e.index
  {
    match EventOf(e, decode)
    case None => []
    case Some(event) => [event]
  }

  /** The events a run of committed entries is published as. */
  function Published(es: seq<Entry>, decode: Decoder): seq<Event> {
    if es == [] then [] else Published(es[..|es| - 1], decode) + EventsOf(es[|es| - 1], decode)
  }

  lemma PublishedSnoc(front: seq<Entry>, last: Entry, decode: Decoder)
    ensures Published(front + [last], decode) == Published(front, decode) + EventsOf(last, decode)
  {
    assert (front + [last])[..|front|] == front;
  }

  /** Publishes the events of applied entries, in order; other entries are passed over. */
  method PublishRegistryEvents(hub: WatchHub, entries: seq<Entry>, decode: Decoder)
    requires hub.Valid() && forall i, j :: 0 <= i < j < |entries| ==> entries[i].index < entries[j].index
    requires forall e, i :: e in hub.published && 0 <= i < |entries| ==> e.revision < entries[i].index
    modifies hub
    ensures hub.Valid() && hub.published == old(hub.published) + Published(entries, decode)
  {
    hide EventOf, Published;
    NothingPublished(decode, 0);
    for i := 0 to |entries|
      invariant hub.Valid() && hub.published == old(hub.published) + Published(entries[..i], decode)
      invariant forall e, j :: e in hub.published && i <= j < |entries| ==> e.revision < entries[j].index
    {
      assert entries[..i + 1] == entries[..i] + [entries[i]];
      PublishedSnoc(entries[..i], entries[i], decode);
      var event := EventOf(entries[i], decode);
      if event.Some? {
        assert event.value in EventsOf(entries[i], decode);
        hub.Publish(event.value);
      }
    }
    assert entries[..|entries|] == entries;
  }

  lemma FollowedSnoc(client: Client, front: seq<Entry>, last: Entry, decode: Decoder, q: Query, clock: Clock)
    requires AllWellFormed(q.selector)
    ensures Followed(client, front + [last], decode, q, clock)
         == Received(Followed(client, front, decode, q, clock), EntryMessage(last, decode, q, clock(last.index)))
  {
    assert (front + [last])[..|front|] == front;
  }

  lemma WindowSnoc(log: seq<Entry>, a: nat, b: nat)
    requires a < b <= |log|
    ensures log[a..b] == log[a..b - 1] + [log[b - 1]]
  {
  }

  /** A snapshot replaces the client's copy, a change is applied to it. */
  /** What a right copy holds of a slash-free identity, in terms of the log and the stored values: entry `i` is
      the last normal one whose command touches its key, or -1.  When that is a put of a value the query shows,
      the copy holds it as shown; otherwise the copy holds nothing, or a value whose lease has run out. */
  lemma RightCopyExactly(client: Client, log: seq<Entry>, decode: Decoder, q: Query, now: int,
                         id: RegistryKeys.Identity, i: int)
    requires AllWellFormed(q.selector) && Mirrors(client, Fold(map[], Commands(log)), decode, q, now)
    requires '/' !in id.namespace && '/' !in id.service && '/' !in id.instance && -1 <= i < |log|
    requires var key := "/registry/" + id.namespace + "/" + id.service + "/" + id.instance;
             forall j :: 0 <= j < |log| && i <= j ==>
               (j == i <==>
                && log[j].kind.Normal?
                && match log[j].command
                   case Some(Put(k, _)) => k == key
                   case Some(Delete(k)) => k == key
                   case Some(DeletePrefix(prefix)) =>
                     prefix <= key && (|key| == |prefix| || key[|prefix|] < '\U{FF}')
                   case _ => false)
    ensures var stored :=
              if i >= 0 && log[i].command.value.Put? then decode(log[i].command.value.value) else None;
            if stored.Some? && stored.value.id == id && Shown(stored.value, q, now).Some? then
              id in client && client[id] == Shown(stored.value, q, now).value
            else
              id in client ==>
                var since := if client[id].lastHeartbeat > 0 then client[id].lastHeartbeat else client[id].registeredAt;
                now > 0 && since > 0 && now - since > if client[id].ttl > 0 then client[id].ttl else 30
  {
    hide Shown, Fold, Commands, ApplyCommand;
    var db := Fold(map[], Commands(log));
    RegistryKeys.KeysSpelled(id);
    KeyUnderRoot(id);
    RootIsNotMeta(RegistryKeys.Key(id));
    Recovery.SettledByLastEntry(db, log, RegistryKeys.Key(id), i);
    assert Right(client, db, decode, q, now, id);
  }

  function Shows(client: Client, frame: Frame): Client {
    match frame
    case Snapshot(_, instances) => FromSnapshot(instances)
    case Change(message) => Received(client, Some(message))
  }

  function After(client: Client, frames: seq<Frame>): Client {
    if frames == [] then client else Shows(After(client, frames[..|frames| - 1]), frames[|frames| - 1])
  }

  lemma {:induction false} AfterConcat(client: Client, a: seq<Frame>, b: seq<Frame>)
    ensures After(client, a + b) == After(After(client, a), b)
    decreases |b|
  {
    if b == [] {
      assert a + b == a;
    } else {
      assert (a + b)[..|a + b| - 1] == a + b[..|b| - 1];
      AfterConcat(client, a, b[..|b| - 1]);
    }
  }

  lemma SentConcat(a: seq<Event>, more: seq<Event>, q: Query, clock: Clock, above: nat)
    requires AllWellFormed(q.selector) && |more| <= 1
    ensures Sent(a + more, q, clock, above) == Sent(a, q, clock, above) + Sent(more, q, clock, above)
  {
    if more == [] {
      assert a + more == a;
      assert Sent(a, q, clock, above) + [] == Sent(a, q, clock, above);
    } else {
      assert (a + more)[..|a|] == a && more[..0] == [];
      assert Sent(more, q, clock, above) == [] + (if more[0].revision > above then FrameOf(more[0], q, clock) else []);
    }
  }

  /** What the stream sends above a revision does to the client what following the entries above does. */
  lemma {:induction false} SentIsFollowed(client: Client, log: seq<Entry>, base: nat, above: nat, upto: nat,
                                          decode: Decoder, q: Query, clock: Clock)
    requires Numbered(log) && base <= upto <= |log| && base <= above && AllWellFormed(q.selector)
    ensures After(client, Sent(Published(log[base..upto], decode), q, clock, above)) ==
            if above <= upto then Followed(client, log[above..upto], decode, q, clock) else client
    decreases upto
  {
    hide Published, Followed, EventsOf, Sent, After, EntryMessage, FrameOf;
    if upto == base {
      NothingToSend(client, decode, q, clock, above);
      assert log[base..upto] == [] && (above == upto ==> log[above..upto] == []);
    } else {
      var front, last := log[base..upto - 1], log[upto - 1];
      SentIsFollowed(client, log, base, above, upto - 1, decode, q, clock);
      WindowSnoc(log, base, upto);
      PublishedSnoc(front, last, decode);
      var sent := Sent(Published(front, decode), q, clock, above);
      SentConcat(Published(front, decode), EventsOf(last, decode), q, clock, above);
      var tail := Sent(EventsOf(last, decode), q, clock, above);
      AfterConcat(client, sent, tail);
      LastFrame(After(client, sent), last, above, decode, q, clock);
      if above < upto {
        WindowSnoc(log, above, upto);
        FollowedSnoc(client, log[above..upto - 1], last, decode, q, clock);
        NothingToSend(client, decode, q, clock, above);
        assert above == upto - 1 ==> log[above..upto - 1] == [];
      } else if above == upto {
        NothingToSend(client, decode, q, clock, above);
        assert log[above..upto] == [];
      }
    }
  }

  lemma NothingToSend(client: Client, decode: Decoder, q: Query, clock: Clock, above: nat)
    requires AllWellFormed(q.selector)
    ensures After(client, Sent(Published([], decode), q, clock, above)) == client
    ensures Followed(client, [], decode, q, clock) == client
  {
  }

  lemma LastFrame(client: Client, last: Entry, above: nat, decode: Decoder, q: Query, clock: Clock)
    requires AllWellFormed(q.selector)
    ensures After(client, Sent(EventsOf(last, decode), q, clock, above)) ==
            if last.index > above then Received(client, EntryMessage(last, decode, q, clock(last.index))) else client
  {
    hide MessageOf, After, Sent, Received, EventOf, FrameOf;
    SentNothing(client, q, clock, above);
    match EventOf(last, decode)
    case None =>
      assert EventsOf(last, decode) == [] && EntryMessage(last, decode, q, clock(last.index)) == None;
      ReceivedNothing(client);
    case Some(event) =>
      assert EventsOf(last, decode) == [event] && event in EventsOf(last, decode);
      SentOne(event, q, clock, above);
      FrameReceived(client, event, q, clock);
  }

  lemma ReceivedNothing(client: Client)
    ensures Received(client, None) == client
  {
  }

  lemma FrameReceived(client: Client, event: Event, q: Query, clock: Clock)
    requires AllWellFormed(q.selector)
    ensures After(client, FrameOf(event, q, clock)) == Received(client, MessageOf(event, q, clock(event.revision)))
  {
    hide MessageOf, After;
    AfterOne(client, FrameOf(event, q, clock));
  }

  lemma SentOne(event: Event, q: Query, clock: Clock, above: nat)
    requires AllWellFormed(q.selector)
    ensures Sent([event], q, clock, above)
            == if event.revision > above then FrameOf(event, q, clock) else Sent([], q, clock, above)
  {
    assert [event][..0] == [];
    assert Sent([], q, clock, above) + FrameOf(event, q, clock) == FrameOf(event, q, clock);
  }

  lemma AfterOne(client: Client, frames: seq<Frame>)
    requires |frames| <= 1
    ensures After(client, frames) == if frames == [] then client else Shows(client, frames[0])
  {
    if frames != [] {
      assert frames[..0] == [];
    }
  }

  lemma PlacedOfBusiness(a: Db, b: Db, decode: Decoder)
    requires Business(a) == Business(b) && WellPlaced(a, decode)
    ensures WellPlaced(b, decode)
  {
    hide WellPlacedRow;
    forall key | key in b && RegistryKeys.ROOT <= key ensures WellPlacedRow(key, b[key], decode) {
      RootIsNotMeta(key);
      SameBusinessSameLookup(a, b, key);
    }
  }

  /** A snapshot stream: subscribed at `sub`, revision read as `revision`, scanned when `read` entries were
      committed.  The store scanned need not be a prefix of the log: it is enough that it tracks the log
      from the revision, as every store a node serves does once delivery has reached the revision.
      Whatever the client held before, after the events up to any later position it is right there. */
  lemma SnapshotStreamMirrors(log: seq<Entry>, sub: nat, revision: nat, read: nat, upto: nat, kv: Db, client: Client,
                              decode: Decoder, q: Query, taken: int, clock: Clock, now: int)
    requires Numbered(log) && sub <= revision <= read <= upto <= |log| && AllClean(Commands(log), decode)
    requires AllWellFormed(q.selector) && q.namespace != "" && Trimmed(q.namespace) && q.limit <= 0
    requires 0 < taken <= now && UpTo(clock, now)
    requires WellPlaced(kv, decode) && Recovery.Tracks(kv, revision, log[..read])
    ensures var items := Take(ShownRows(PrefixRows(kv, ScanPrefix(q)), decode, q, taken), q.limit);
            var frames := [Snapshot(revision, items)] + Sent(Published(log[sub..upto], decode), q, clock, revision);
            Mirrors(After(client, frames), Fold(map[], Commands(log[..upto])), decode, q, now)
  {
    hide Mirrors, WellPlaced, AllClean, ShownRows, ScanPrefix, FromSnapshot, Seen, UpTo, Right, Recovery.Tracks;
    var items := Take(ShownRows(PrefixRows(kv, ScanPrefix(q)), decode, q, taken), q.limit);
    SnapshotIsView(kv, decode, q, taken);
    AllIsSlashFree(FromSnapshot(items), kv, decode, q, taken);
    MirrorsLater(FromSnapshot(items), kv, decode, q, taken, now);
    TrackedMirror(log, revision, read, upto, kv, FromSnapshot(items), decode, q, clock, now);
    var live := Sent(Published(log[sub..upto], decode), q, clock, revision);
    AfterConcat(client, [Snapshot(revision, items)], live);
    assert [Snapshot(revision, items)][..0] == [];
    assert After(client, [Snapshot(revision, items)]) == FromSnapshot(items);
    SentIsFollowed(FromSnapshot(items), log, sub, revision, upto, decode, q, clock);
  }

  lemma AllIsSlashFree(client: Client, db: Db, decode: Decoder, q: Query, now: int)
    requires AllWellFormed(q.selector) && MirrorsAll(client, db, decode, q, now)
    ensures Mirrors(client, db, decode, q, now)
  {
  }

  /** A copy of a store that tracks the log, following the log from there, ends right. */
  lemma TrackedMirror(log: seq<Entry>, revision: nat, read: nat, upto: nat, kv: Db, client: Client,
                      decode: Decoder, q: Query, clock: Clock, now: int)
    requires revision <= read <= upto <= |log| && AllClean(Commands(log), decode)
    requires AllWellFormed(q.selector) && q.namespace != "" && UpTo(clock, now)
    requires WellPlaced(kv, decode) && Recovery.Tracks(kv, revision, log[..read])
    requires Mirrors(client, kv, decode, q, now)
    ensures Mirrors(Followed(client, log[revision..upto], decode, q, clock), Fold(map[], Commands(log[..upto])), decode,
                    q, now)
  {
    hide Mirrors, WellPlaced, AllClean, UpTo, Followed, Fold, Business;
    var xs, ys := log[..revision], log[revision..upto];
    assert xs + ys == log[..upto] && xs + ys + log[upto..] == log && xs + (ys + log[upto..]) == log;
    CleanParts(xs, ys + log[upto..], decode);
    CleanParts(ys, log[upto..], decode);
    Recovery.TracksGrown(kv, revision, log[..read], log[read..upto]);
    assert log[..read] + log[read..upto] == log[..upto] && log[..upto][revision..] == ys;
    MirrorFold(kv, client, ys, decode, q, clock, now);
    SameMirror(Followed(client, ys, decode, q, clock), Fold(kv, Commands(ys)), Fold(map[], Commands(log[..upto])),
               decode, q, now);
  }

  lemma {:induction false} ReplayedEvents(log: seq<Entry>, base: nat, sub: nat, since: nat, decode: Decoder)
    requires Numbered(log) && base <= sub <= |log| && base <= since
    ensures Above(Published(log[base..sub], decode), since)
            == if since <= sub then Published(log[since..sub], decode) else []
    decreases sub
  {
    hide Published, EventsOf, Above;
    NothingPublished(decode, since);
    if sub == base {
      assert log[base..sub] == [] && (since == sub ==> log[since..sub] == []);
    } else {
      var front, last := log[base..sub - 1], log[sub - 1];
      ReplayedEvents(log, base, sub - 1, since, decode);
      WindowSnoc(log, base, sub);
      PublishedSnoc(front, last, decode);
      AboveConcat(Published(front, decode), EventsOf(last, decode), since);
      AboveOne(EventsOf(last, decode), since, last.index);
      if since < sub {
        WindowSnoc(log, since, sub);
        PublishedSnoc(log[since..sub - 1], last, decode);
        assert since == sub - 1 ==> log[since..sub - 1] == [];
      } else if since == sub {
        assert log[since..sub] == [];
      }
    }
  }

  lemma NothingPublished(decode: Decoder, since: nat)
    ensures Published([], decode) == [] && Above([], since) == []
  {
  }

  lemma AboveOne(events: seq<Event>, since: nat, revision: nat)
    requires |events| <= 1 && forall e :: e in events ==> e.revision == revision
    ensures Above(events, since) == if revision > since then events else []
  {
    if events != [] {
      assert events[0] in events && events[..0] == [];
    }
  }

  /** A hub that has only published events past a position replays exactly only revisions from there on:
      after a restart older revisions fall back to a snapshot. */
  lemma ExactIsAfterBase(published: seq<Event>, base: nat, since: nat)
    requires (forall e :: e in published ==> base < e.revision) && since < Bytes.UINT64_LIMIT
    requires Covers(LastPart(published, HISTORY_LIMIT), since)
    ensures base <= since
  {
    var history := LastPart(published, HISTORY_LIMIT);
    var first, last := history[0], history[|history| - 1];
    assert first in published && last in published;
    assert (since + 1) % Bytes.UINT64_LIMIT <= since + 1;
  }

  /** A resumed stream with an exact replay, from a hub that has published from position `base` on, at or
      below the client's revision whenever the replay is exact: a client that holds the directory at `since`
      holds it at `upto` afterwards, also when it is ahead of what was published when it subscribed. */
  lemma ReplayStreamMirrors(log: seq<Entry>, base: nat, sub: nat, since: nat, upto: nat, client: Client,
                            decode: Decoder, q: Query, clock: Clock, now: int)
    requires Numbered(log) && base <= sub <= upto <= |log| && base <= since <= upto && AllClean(Commands(log), decode)
    requires AllWellFormed(q.selector) && q.namespace != "" && UpTo(clock, now)
    requires Mirrors(client, Fold(map[], Commands(log[..since])), decode, q, now)
    ensures var replay := Above(Published(log[base..sub], decode), since);
            var frames := Sent(replay, q, clock, since) + Sent(Published(log[sub..upto], decode), q, clock, since);
            Mirrors(After(client, frames), Fold(map[], Commands(log[..upto])), decode, q, now)
  {
    hide Mirrors, AllClean, Followed, Sent, After, Fold, Published, Above, Numbered, Covers, LastPart, UpTo;
    ReplayedEvents(log, base, sub, since, decode);
    var replay := Above(Published(log[base..sub], decode), since);
    var live := Sent(Published(log[sub..upto], decode), q, clock, since);
    AfterConcat(client, Sent(replay, q, clock, since), live);
    MirrorTheorem(log, since, since, upto, client, decode, q, clock, now);
    if since <= sub {
      TwoStretches(log, sub, since, upto, client, decode, q, clock);
    } else {
      SentNothing(client, q, clock, since);
      SentIsFollowed(client, log, sub, since, upto, decode, q, clock);
    }
  }

  lemma TwoStretches(log: seq<Entry>, sub: nat, since: nat, upto: nat, client: Client, decode: Decoder, q: Query,
                     clock: Clock)
    requires Numbered(log) && since <= sub <= upto <= |log| && AllWellFormed(q.selector)
    ensures After(After(client, Sent(Published(log[since..sub], decode), q, clock, since)),
                  Sent(Published(log[sub..upto], decode), q, clock, since))
         == Followed(client, log[since..upto], decode, q, clock)
  {
    hide Followed, Sent, After, Published, Numbered;
    SentIsFollowed(client, log, since, since, sub, decode, q, clock);
    var middle := Followed(client, log[since..sub], decode, q, clock);
    SentFromStart(middle, log, sub, since, upto, decode, q, clock);
    FollowedConcat(client, log[since..sub], log[sub..upto], decode, q, clock);
    assert log[since..sub] + log[sub..upto] == log[since..upto];
  }

  lemma SentNothing(client: Client, q: Query, clock: Clock, since: nat)
    requires AllWellFormed(q.selector)
    ensures After(client, Sent([], q, clock, since)) == client
  {
  }

  lemma SentFromStart(client: Client, log: seq<Entry>, sub: nat, since: nat, upto: nat, decode: Decoder, q: Query,
                      clock: Clock)
    requires Numbered(log) && since <= sub <= upto <= |log| && AllWellFormed(q.selector)
    ensures After(client, Sent(Published(log[sub..upto], decode), q, clock, since))
            == Followed(client, log[sub..upto], decode, q, clock)
  {
    hide Sent, After, Followed;
    PublishedAbove(log, sub, upto, decode);
    SameAbove(Published(log[sub..upto], decode), q, clock, since, sub);
    SentIsFollowed(client, log, sub, sub, upto, decode, q, clock);
  }

  lemma {:induction false} PublishedAbove(log: seq<Entry>, sub: nat, upto: nat, decode: Decoder)
    requires Numbered(log) && sub <= upto <= |log|
    ensures forall e :: e in Published(log[sub..upto], decode) ==> sub < e.revision <= upto
    ensures Increasing(Published(log[sub..upto], decode))
    decreases upto
  {
    hide EventsOf;
    if sub == upto {
      assert log[sub..upto] == [];
    } else {
      hide Published;
      PublishedAbove(log, sub, upto - 1, decode);
      WindowSnoc(log, sub, upto);
      PublishedSnoc(log[sub..upto - 1], log[upto - 1], decode);
    }
  }

  lemma {:induction false} FollowedConcat(client: Client, a: seq<Entry>, b: seq<Entry>, decode: Decoder, q: Query,
                                          clock: Clock)
    requires AllWellFormed(q.selector)
    ensures Followed(client, a + b, decode, q, clock)
            == Followed(Followed(client, a, decode, q, clock), b, decode, q, clock)
    decreases |b|
  {
    if b == [] {
      assert a + b == a;
    } else {
      assert (a + b)[..|a + b| - 1] == a + b[..|b| - 1];
      FollowedConcat(client, a, b[..|b| - 1], decode, q, clock);
    }
  }
}
