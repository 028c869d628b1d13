/** Crashing and resuming a replication: a stored checkpoint never runs ahead of the copied data.

    Sessions may run at different times.  A copy is compared with the source by the instances still alive,
    on the fields it carries, for the slash-free identities that events can name.
 */
module Resume {
  import opened Options
  import opened Lex
  import opened Text
  import opened Storage
  import opened Replay
  import opened RaftLog
  import Recovery
  import opened RegistryKeys
  import opened Selector
  import opened Directory
  import opened Mirror
  import opened WatchStream
  import opened Replication

  /** The query a consumer watches one service with. */
  function ServiceQuery(s: Source): Query {
    Query(s.namespace, s.service, [s.service], [], "", "", [], 0)
  }

  lemma QueryIsPlain(s: Source)
    ensures AllWellFormed(ServiceQuery(s).selector) && ServiceQuery(s).limit <= 0
    ensures PlainSource(s) ==> ServiceQuery(s).namespace != "" && Trimmed(ServiceQuery(s).namespace)
  {
  }

  /** Deletes name instances as deregistration and cleanup do: trimmed text. */
  predicate TidyDelete(cmd: Command) {
    cmd.Delete? && ParseKey(cmd.key).Some? ==> TidyIdentity(ParseKey(cmd.key).value) && TextBytes(cmd.key)
  }

  ghost predicate GoodLog(log: seq<Entry>, decode: Decoder) {
    Numbered(log) && AllClean(Commands(log), decode) && forall e :: e in log ==> TidyDelete(CommandOf(e))
  }

  /** A log of the commands that registration, deregistration, cleanup and replication write is such a log. */
  lemma WrittenLogIsGood(log: seq<Entry>, decode: Decoder)
    requires forall i :: 0 <= i < |log| ==> log[i].index == i + 1
    requires forall i :: 0 <= i < |log| && log[i].kind.Normal? && log[i].command.Some? ==>
               match log[i].command.value
               case Put(key, text) =>
                 "/registry/" <= key ==>
                   decode(text).Some? && IsRegistration(key, decode(text).value.id)
               case Delete(key) => "/registry/" <= key ==> exists id :: IsRegistration(key, id)
               case DeletePrefix(prefix) => !(prefix <= "/registry/") && !("/registry/" <= prefix)
               case Unknown => true
    ensures GoodLog(log, decode)
  {
    hide IsRegistration, Clean, TidyDelete;
    forall i | 0 <= i < |log| ensures Clean(CommandOf(log[i]), decode) && TidyDelete(CommandOf(log[i])) {
      WrittenIsGood(CommandOf(log[i]), decode);
    }
  }

  /** A key of text built from trimmed components. */
  predicate IsRegistration(key: string, id: Identity) {
    && key == "/registry/" + id.namespace + "/" + id.service + "/" + id.instance
    && id.namespace != "" && id.service != "" && id.instance != ""
    && TrimSpace(id.namespace) == id.namespace && TrimSpace(id.service) == id.service
    && TrimSpace(id.instance) == id.instance && forall c :: c in key ==> c < '\U{FF}'
  }

  lemma WrittenIsGood(cmd: Command, decode: Decoder)
    requires match cmd
             case Put(key, text) =>
               "/registry/" <= key ==> decode(text).Some? && IsRegistration(key, decode(text).value.id)
             case Delete(key) => "/registry/" <= key ==> exists id :: IsRegistration(key, id)
             case DeletePrefix(prefix) => !(prefix <= "/registry/") && !("/registry/" <= prefix)
             case Unknown => true
    ensures Clean(cmd, decode) && TidyDelete(cmd)
  {
    hide TrimSpace, Trimmed;
    match cmd
    case Put(key, text) =>
      if ROOT <= key {
        KeysSpelled(decode(text).value.id);
      }
    case Delete(key) => DeletedIsTidy(key);
    case DeletePrefix(_) =>
    case Unknown =>
  }

  lemma DeletedIsTidy(key: string)
    requires "/registry/" <= key ==> exists id :: IsRegistration(key, id)
    ensures TidyDelete(Delete(key))
  {
    hide ParseKey, IsRegistration, TidyIdentity, TextBytes;
    if ParseKey(key).Some? {
      RootOfParsed(key);
      var id :| IsRegistration(key, id);
      RegistrationParses(key, id);
    }
  }

  lemma RegistrationParses(key: string, id: Identity)
    requires IsRegistration(key, id) && ParseKey(key).Some?
    ensures ParseKey(key) == Some(id) && TidyIdentity(id) && TextBytes(key)
  {
    hide Key, ParseKey, TrimSpace;
    KeysSpelled(id);
    BuiltKeyParses(id);
  }

  function SourceStore(log: seq<Entry>): Db {
    Fold(map[], Commands(log))
  }

  /** A copy that is right now in everything no entry after position `c` is about. */
  ghost predicate FollowsTo(client: Client, c: nat, log: seq<Entry>, decode: Decoder, q: Query, now: int)
    requires AllWellFormed(q.selector)
  {
    c <= |log|
    && forall id :: SlashFree(id) && !Touched(log[c..], id, decode, q) ==>
         Right(client, SourceStore(log), decode, q, now, id)
  }

  /** The checkpoint does not run ahead: whatever no event after it will settle is right already. */
  ghost predicate Safe(db: Db, log: seq<Entry>, s: Source, codec: ReplicaCodec, decode: Decoder, now: int) {
    exists client :: Copies(db, client, s, codec)
                     && FollowsTo(client, CheckpointOf(db, s, codec), log, decode, ServiceQuery(s), now)
  }

  lemma SafeFrom(db: Db, client: Client, log: seq<Entry>, s: Source, codec: ReplicaCodec, decode: Decoder, now: int)
    requires Copies(db, client, s, codec)
             && FollowsTo(client, CheckpointOf(db, s, codec), log, decode, ServiceQuery(s), now)
    ensures Safe(db, log, s, codec, decode, now)
  {
  }

  lemma SafeCopy(db: Db, log: seq<Entry>, s: Source, codec: ReplicaCodec, decode: Decoder, now: int)
    returns (client: Client)
    requires Safe(db, log, s, codec, decode, now)
    ensures Copies(db, client, s, codec)
            && FollowsTo(client, CheckpointOf(db, s, codec), log, decode, ServiceQuery(s), now)
  {
    client :| Copies(db, client, s, codec)
      && FollowsTo(client, CheckpointOf(db, s, codec), log, decode, ServiceQuery(s), now);
  }

  /** A store that holds the same under the copy's keys is as safe. */
  lemma SafeOfOwn(a: Db, b: Db, log: seq<Entry>, s: Source, codec: ReplicaCodec, decode: Decoder, now: int)
    requires PlainSource(s) && SameOwn(a, b, s) && Safe(a, log, s, codec, decode, now)
    ensures Safe(b, log, s, codec, decode, now)
  {
    hide CheckpointOf, Copies, FollowsTo, ServiceQuery, SameOwn, PlainSource, Safe;
    QueryIsPlain(s);
    SameOwnSameCopy(a, b, s, codec);
    var client := SafeCopy(a, log, s, codec, decode, now);
    SafeFrom(b, client, log, s, codec, decode, now);
  }

  /** Commands of others between a session's proposals make it neither more nor less safe. */
  lemma SafeAmongOthers(db: Db, committed: seq<Command>, log: seq<Entry>, s: Source, codec: ReplicaCodec,
                        decode: Decoder, now: int)
    requires PlainSource(s)
    ensures Safe(Fold(db, committed), log, s, codec, decode, now)
       <==> Safe(Fold(db, OwnPart(committed, s)), log, s, codec, decode, now)
  {
    hide SameOwn, Safe, OwnPart, Fold, PlainSource;
    OwnPartDecides(db, committed, s);
    var all, own := Fold(db, committed), Fold(db, OwnPart(committed, s));
    SameOwnBothWays(all, own, s);
    if Safe(all, log, s, codec, decode, now) {
      SafeOfOwn(all, own, log, s, codec, decode, now);
    }
    if Safe(own, log, s, codec, decode, now) {
      SafeOfOwn(own, all, log, s, codec, decode, now);
    }
  }

  lemma SameOwnBothWays(a: Db, b: Db, s: Source)
    requires SameOwn(a, b, s)
    ensures SameOwn(b, a, s)
  {
    hide OwnKey;
  }

  // What single identities go through at the source.

  lemma SourceIsPlaced(log: seq<Entry>, decode: Decoder)
    requires AllClean(Commands(log), decode)
    ensures WellPlaced(SourceStore(log), decode)
  {
    NothingPlaced(decode);
    FoldKeepsPlaced(map[], Commands(log), decode);
  }

  lemma SourceOfConcat(a: seq<Entry>, b: seq<Entry>)
    ensures SourceStore(a + b) == Fold(SourceStore(a), Commands(b))
  {
    CommandsConcat(a, b);
    FoldOfConcat(map[], Commands(a), Commands(b));
  }

  /** What no entry from a position on is about is shown as it was there. */
  lemma ShownSince(log: seq<Entry>, p: nat, decode: Decoder, q: Query, now: int, id: Identity)
    requires p <= |log| && AllClean(Commands(log), decode) && AllWellFormed(q.selector) && q.namespace != ""
    requires 0 < now && SlashFree(id) && !Touched(log[p..], id, decode, q)
    ensures Seen(SourceStore(log), decode, q, now, id) == Seen(SourceStore(log[..p]), decode, q, now, id)
  {
    hide SourceStore, AllClean, Touched, Seen, SlashFree, WellPlaced;
    assert log[..p] + log[p..] == log;
    CleanParts(log[..p], log[p..], decode);
    SourceIsPlaced(log[..p], decode);
    SourceOfConcat(log[..p], log[p..]);
    UntouchedIsSame(SourceStore(log[..p]), log[p..], decode, q, now, id);
  }

  /** Following a stretch of the log brings a copy forward. */
  lemma SessionFollows(client: Client, c: nat, p: nat, log: seq<Entry>, decode: Decoder, q: Query, clock: Clock,
                       now: int)
    requires c <= p <= |log| && AllClean(Commands(log), decode) && AllWellFormed(q.selector) && q.namespace != ""
    requires 0 < now && UpTo(clock, now) && FollowsTo(client, c, log, decode, q, now)
    ensures FollowsTo(Followed(client, log[c..p], decode, q, clock), p, log, decode, q, now)
  {
    hide Touched, Right, SlashFree, Followed, SourceStore, AllClean, UpTo;
    forall id | SlashFree(id) && !Touched(log[p..], id, decode, q)
      ensures Right(Followed(client, log[c..p], decode, q, clock), SourceStore(log), decode, q, now, id) {
      StretchIsRight(client, c, p, log, decode, q, clock, now, id);
    }
  }

  lemma StretchIsRight(client: Client, c: nat, p: nat, log: seq<Entry>, decode: Decoder, q: Query, clock: Clock,
                       now: int, id: Identity)
    requires c <= p <= |log| && AllClean(Commands(log), decode) && AllWellFormed(q.selector) && q.namespace != ""
    requires 0 < now && UpTo(clock, now) && SlashFree(id) && !Touched(log[p..], id, decode, q)
    requires !Touched(log[c..], id, decode, q) ==> Right(client, SourceStore(log), decode, q, now, id)
    ensures Right(Followed(client, log[c..p], decode, q, clock), SourceStore(log), decode, q, now, id)
  {
    hide Touched, SlashFree, Followed, SourceStore, AllClean, UpTo, Seen, AliveAt, WellPlaced;
    Slices(log, 0, c, p);
    assert log[c..p] + log[p..] == log[c..] && log[..c] + log[c..p] == log[..p] && log[..p] + log[p..] == log;
    TouchedConcat(log[c..p], log[p..], id, decode, q);
    if Touched(log[c..p], id, decode, q) {
      CleanParts(log[..p], log[p..], decode);
      CleanParts(log[..c], log[c..p], decode);
      SourceIsPlaced(log[..c], decode);
      SourceOfConcat(log[..c], log[c..p]);
      FollowedIsRight(SourceStore(log[..c]), client, log[c..p], decode, q, clock, now, id);
      ShownSince(log, p, decode, q, now, id);
    } else {
      UntouchedIsHeld(client, log[c..p], decode, q, clock, id);
    }
  }

  /** What follows from a position follows from every earlier one. */
  lemma FollowsEarlier(client: Client, p: nat, c: nat, log: seq<Entry>, decode: Decoder, q: Query, now: int)
    requires AllWellFormed(q.selector) && c <= p && FollowsTo(client, p, log, decode, q, now)
    ensures FollowsTo(client, c, log, decode, q, now)
  {
    hide Touched, Right, SlashFree, SourceStore;
    forall id | SlashFree(id) && !Touched(log[c..], id, decode, q)
      ensures Right(client, SourceStore(log), decode, q, now, id) {
      assert log[c..p] + log[p..] == log[c..];
      TouchedConcat(log[c..p], log[p..], id, decode, q);
    }
  }

  // One session.

  function EntryProposals(e: Entry, s: Source, stamp: int, codec: ReplicaCodec, decode: Decoder,
                          clock: Clock): seq<Command> {
    match EntryMessage(e, decode, ServiceQuery(s), clock(e.index))
    case None => []
    case Some(message) => Proposals(s, Change(message), stamp, codec)
  }

  /** What the consumer proposes for the events of a run of entries. */
  function StreamProposals(es: seq<Entry>, s: Source, stamp: int, codec: ReplicaCodec, decode: Decoder,
                           clock: Clock): seq<Command> {
    if es == [] then []
    else
      StreamProposals(es[..|es| - 1], s, stamp, codec, decode, clock)
      + EntryProposals(es[|es| - 1], s, stamp, codec, decode, clock)
  }

  lemma StreamSnoc(front: seq<Entry>, last: Entry, s: Source, stamp: int, codec: ReplicaCodec, decode: Decoder,
                   clock: Clock)
    ensures StreamProposals(front + [last], s, stamp, codec, decode, clock)
         == StreamProposals(front, s, stamp, codec, decode, clock)
           + EntryProposals(last, s, stamp, codec, decode, clock)
  {
    assert (front + [last])[..|front|] == front;
  }

  /** The frames of a resumed stream make the consumer propose exactly that. */
  lemma {:induction false} StreamIsProposed(log: seq<Entry>, c: nat, upto: nat, s: Source, stamp: int,
                                            codec: ReplicaCodec, decode: Decoder, clock: Clock)
    requires Numbered(log) && c <= upto <= |log|
    ensures AllProposals(s, Sent(Published(log[c..upto], decode), ServiceQuery(s), clock, c), stamp, codec)
         == StreamProposals(log[c..upto], s, stamp, codec, decode, clock)
    decreases upto
  {
    hide Published, Sent, EventsOf, Proposals, EntryMessage, AllProposals, EntryProposals, StreamProposals,
      ServiceQuery;
    if upto == c {
      assert log[c..upto] == [];
      NothingProposed(s, stamp, codec, decode, clock, c);
    } else {
      var front, last := log[c..upto - 1], log[upto - 1];
      StreamIsProposed(log, c, upto - 1, s, stamp, codec, decode, clock);
      WindowSnoc(log, c, upto);
      PublishedSnoc(front, last, decode);
      QueryIsPlain(s);
      SentConcat(Published(front, decode), EventsOf(last, decode), ServiceQuery(s), clock, c);
      ProposalsConcat(s, Sent(Published(front, decode), ServiceQuery(s), clock, c),
                      Sent(EventsOf(last, decode), ServiceQuery(s), clock, c), stamp, codec);
      LastProposed(last, c, s, stamp, codec, decode, clock);
      StreamSnoc(front, last, s, stamp, codec, decode, clock);
    }
  }

  lemma NothingProposed(s: Source, stamp: int, codec: ReplicaCodec, decode: Decoder, clock: Clock, above: nat)
    ensures AllProposals(s, Sent(Published([], decode), ServiceQuery(s), clock, above), stamp, codec) == []
    ensures StreamProposals([], s, stamp, codec, decode, clock) == []
  {
  }

  lemma LastProposed(last: Entry, above: nat, s: Source, stamp: int, codec: ReplicaCodec, decode: Decoder, clock: Clock)
    requires last.index > above
    ensures AllProposals(s, Sent(EventsOf(last, decode), ServiceQuery(s), clock, above), stamp, codec)
         == EntryProposals(last, s, stamp, codec, decode, clock)
  {
    hide MessageOf, Sent, EventOf, Proposals, AllProposals, ServiceQuery;
    QueryIsPlain(s);
    match EventOf(last, decode)
    case None =>
      assert EventsOf(last, decode) == [];
      SentNone(ServiceQuery(s), clock, above);
      NoProposals(s, stamp, codec);
    case Some(event) =>
      assert EventsOf(last, decode) == [event] && event in EventsOf(last, decode);
      SentOne(event, ServiceQuery(s), clock, above);
      NoProposals(s, stamp, codec);
      if MessageOf(event, ServiceQuery(s), clock(last.index)).Some? {
        OneProposal(s, Change(MessageOf(event, ServiceQuery(s), clock(last.index)).value), stamp, codec);
      }
  }

  /** What a good log's entries send fits the copied service. */
  lemma EntryFrameIsGood(e: Entry, s: Source, decode: Decoder, t: int)
    requires PlainSource(s) && Clean(CommandOf(e), decode) && TidyDelete(CommandOf(e))
    ensures var message := EntryMessage(e, decode, ServiceQuery(s), t);
            message.Some? ==> GoodFrame(Change(message.value), s) && RevisionOf(Change(message.value)) == e.index
  {
    hide Concerns, TextBytes, ParseKey, Key, Shown, TidyIdentity, TidyName;
    if EventOf(e, decode).Some? {
      var key := e.command.value.key;
      var id := ParseKey(key).value;
      ParsedIsSlashFree(key);
      if e.command.value.Put? {
        RootOfParsed(key);
        OwnRow(id, e.command.value.value, decode);
        ShownFacts(decode(e.command.value.value).value, ServiceQuery(s), t);
        PlacedRowIsText(key, e.command.value.value, decode);
      }
      if Concerns(id, ServiceQuery(s)) {
        ServiceIsExact(id, s);
      }
      NameOfKey(id);
    }
  }

  lemma RootOfParsed(key: string)
    ensures ParseKey(key).Some? ==> ROOT <= key
  {
  }

  lemma PlacedRowIsText(key: string, text: string, decode: Decoder)
    requires WellPlacedRow(key, text, decode)
    ensures TextBytes(key) && decode(text).Some? && TidyIdentity(decode(text).value.id)
            && key == Key(decode(text).value.id)
  {
  }

  lemma ServiceIsExact(id: Identity, s: Source)
    requires TidyIdentity(id) && PlainSource(s) && Concerns(id, ServiceQuery(s))
    ensures id.namespace == s.namespace && id.service == s.service
  {
  }

  lemma NameOfKey(id: Identity)
    requires TidyIdentity(id) && TextBytes(Key(id))
    ensures TidyName(id.instance)
  {
    hide Key, ServicePrefix, Trimmed;
    KeyEndsWithName(id);
    SuffixOf(ServicePrefix(id.namespace, id.service), id.instance);
  }

  lemma KeyEndsWithName(id: Identity)
    ensures Key(id) == ServicePrefix(id.namespace, id.service) + id.instance
  {
    hide Slashed;
    SlashedEnd(id.service, "", id.instance);
    SlashedEnd(id.namespace, Slashed(id.service, ""), id.instance);
    assert ROOT + (Slashed(id.namespace, Slashed(id.service, "")) + id.instance)
        == ROOT + Slashed(id.namespace, Slashed(id.service, "")) + id.instance;
  }

  lemma SuffixOf(front: string, back: string)
    ensures TextBytes(front + back) ==> TextBytes(back)
  {
    forall c | c in back ensures c in front + back { }
  }

  lemma ShownFacts(v: Value, q: Query, now: int)
    requires AllWellFormed(q.selector) && q.namespace != ""
    ensures var shown := Shown(v, q, now);
            shown.Some? ==> shown.value.id == v.id && shown.value.ttl > 0 && Concerns(v.id, q)
  {
    hide MatchServiceQuery, IsAlive, FilterEndpoints;
  }

  lemma EntryIsGood(log: seq<Entry>, i: nat, s: Source, decode: Decoder, t: int)
    requires PlainSource(s) && GoodLog(log, decode) && i < |log|
    ensures var message := EntryMessage(log[i], decode, ServiceQuery(s), t);
            message.Some? ==> GoodFrame(Change(message.value), s) && RevisionOf(Change(message.value)) == i + 1
  {
    hide EntryMessage, GoodFrame, Clean, TidyDelete;
    assert Commands(log)[i] == CommandOf(log[i]) && CommandOf(log[i]) in Commands(log) && log[i] in log;
    EntryFrameIsGood(log[i], s, decode, t);
  }

  /** All a session proposes is on the copy's keys. */
  lemma {:induction false} SessionIsOwn(log: seq<Entry>, c: nat, p: nat, s: Source, stamp: int, codec: ReplicaCodec,
                                        decode: Decoder, clock: Clock)
    requires PlainSource(s) && GoodLog(log, decode) && c <= p <= |log|
    ensures var proposals := StreamProposals(log[c..p], s, stamp, codec, decode, clock);
            OwnPart(proposals, s) == proposals
    decreases p
  {
    hide Proposals, EntryMessage, GoodFrame, GoodLog, PlainSource, ServiceQuery, Foreign, EntryProposals,
      StreamProposals;
    QueryIsPlain(s);
    if p == c {
      assert log[c..p] == [];
      NothingProposed(s, stamp, codec, decode, clock, c);
    } else {
      var front, last := log[c..p - 1], log[p - 1];
      SessionIsOwn(log, c, p - 1, s, stamp, codec, decode, clock);
      WindowSnoc(log, c, p);
      StreamSnoc(front, last, s, stamp, codec, decode, clock);
      EntryIsOwn(log, p, s, stamp, codec, decode, clock);
      OwnPartOfConcat(StreamProposals(front, s, stamp, codec, decode, clock),
                      EntryProposals(last, s, stamp, codec, decode, clock), s);
    }
  }

  lemma EntryIsOwn(log: seq<Entry>, p: nat, s: Source, stamp: int, codec: ReplicaCodec, decode: Decoder, clock: Clock)
    requires PlainSource(s) && GoodLog(log, decode) && 1 <= p <= |log|
    ensures var proposals := EntryProposals(log[p - 1], s, stamp, codec, decode, clock);
            OwnPart(proposals, s) == proposals
  {
    hide Proposals, EntryMessage, GoodFrame, GoodLog, PlainSource, ServiceQuery, Foreign;
    QueryIsPlain(s);
    var t := clock(log[p - 1].index);
    var message := EntryMessage(log[p - 1], decode, ServiceQuery(s), t);
    EntryIsGood(log, p - 1, s, decode, t);
    if message.Some? {
      ProposalsAreOwn(s, Change(message.value), stamp, codec);
    }
    OwnPartOf(EntryProposals(log[p - 1], s, stamp, codec, decode, clock), s);
  }

  /** After all proposals for the entries up to `p` the copy is what following them gives, and the
      checkpoint is no further than that. */
  lemma {:induction false} SessionState(db: Db, client: Client, log: seq<Entry>, c: nat, p: nat, s: Source, stamp: int,
                                        codec: ReplicaCodec, decode: Decoder, clock: Clock)
    requires PlainSource(s) && Faithful(codec) && GoodLog(log, decode) && c <= p <= |log|
    requires Copies(db, client, s, codec) && CheckpointOf(db, s, codec) == c
    ensures var after := Fold(db, StreamProposals(log[c..p], s, stamp, codec, decode, clock));
            Copies(after, Followed(client, log[c..p], decode, ServiceQuery(s), clock), s, codec)
            && c <= CheckpointOf(after, s, codec) <= p
    decreases p
  {
    hide Copies, CheckpointOf, StreamProposals, EntryProposals, EntryMessage, Received, Followed, Faithful,
      ServiceQuery, GoodLog, PlainSource;
    QueryIsPlain(s);
    var q := ServiceQuery(s);
    if p == c {
      assert log[c..p] == [];
      NothingProposed(s, stamp, codec, decode, clock, c);
      NothingToSend(client, decode, q, clock, c);
    } else {
      var front, last := log[c..p - 1], log[p - 1];
      SessionState(db, client, log, c, p - 1, s, stamp, codec, decode, clock);
      WindowSnoc(log, c, p);
      StreamSnoc(front, last, s, stamp, codec, decode, clock);
      FollowedSnoc(client, front, last, decode, q, clock);
      var proposals := StreamProposals(front, s, stamp, codec, decode, clock);
      FoldOfConcat(db, proposals, EntryProposals(last, s, stamp, codec, decode, clock));
      EntrySession(Fold(db, proposals), Followed(client, front, decode, q, clock), log, p, s, stamp, codec, decode,
                   clock);
    }
  }

  /** The same for one entry, and for its data without its checkpoint. */
  lemma EntrySession(db: Db, client: Client, log: seq<Entry>, p: nat, s: Source, stamp: int,
                     codec: ReplicaCodec, decode: Decoder, clock: Clock)
    requires PlainSource(s) && Faithful(codec) && GoodLog(log, decode) && 1 <= p <= |log|
    requires Copies(db, client, s, codec) && CheckpointOf(db, s, codec) <= p - 1
    ensures var all := EntryProposals(log[p - 1], s, stamp, codec, decode, clock);
            var next := Received(client, EntryMessage(log[p - 1], decode, ServiceQuery(s), clock(log[p - 1].index)));
            && Copies(Fold(db, all), next, s, codec)
            && CheckpointOf(db, s, codec) <= CheckpointOf(Fold(db, all), s, codec) <= p
            && forall k :: 1 <= k <= |all| ==>
                 Copies(Fold(db, all[..k]), next, s, codec)
                 && CheckpointOf(db, s, codec) <= CheckpointOf(Fold(db, all[..k]), s, codec) <= p
  {
    hide Copies, CheckpointOf, EntryMessage, Proposals, Faithful, ServiceQuery, GoodLog, PlainSource, GoodFrame, DataOf,
      PutCheckpoint, Received;
    QueryIsPlain(s);
    var last := log[p - 1];
    var message := EntryMessage(last, decode, ServiceQuery(s), clock(last.index));
    if message.Some? {
      var m := message.value;
      EntryIsGood(log, p - 1, s, decode, clock(last.index));
      FrameIsCopied(db, client, s, Change(m), stamp, codec);
      ChangeIsCopied(db, client, s, m, stamp, codec);
      ChangeProposals(s, m, stamp, codec);
      PartsOfPair(db, DataOf(s, m, stamp, codec), PutCheckpoint(s, RevisionOf(Change(m)), 0, stamp, codec));
    } else {
      NothingReceived(client);
    }
  }

  lemma PartsOfPair(db: Db, data: Command, last: Command)
    ensures var all := [data] + [last];
            |all| == 2 && Fold(db, all[..1]) == ApplyCommand(db, data) && all[..2] == all
  {
    hide ApplyCommand;
    FoldOne(db, [], data);
    assert [] + [data] == [data] && ([data] + [last])[..1] == [data];
  }

  lemma NothingReceived(client: Client)
    ensures Received(client, None) == client
  {
  }

  /** Whatever part of a resumed session's proposals has committed, the checkpoint does not run ahead. */
  lemma {:induction false} CommittedPrefixIsSafe(db: Db, client: Client, log: seq<Entry>, c: nat, p: nat, k: nat,
                                                 s: Source, stamp: int, codec: ReplicaCodec, decode: Decoder,
                                                 clock: Clock, now: int)
    requires PlainSource(s) && Faithful(codec) && GoodLog(log, decode) && c <= p <= |log| && 0 < now && UpTo(clock, now)
    requires Copies(db, client, s, codec) && CheckpointOf(db, s, codec) == c
    requires FollowsTo(client, c, log, decode, ServiceQuery(s), now)
    requires k <= |StreamProposals(log[c..p], s, stamp, codec, decode, clock)|
    ensures Safe(Fold(db, StreamProposals(log[c..p], s, stamp, codec, decode, clock)[..k]), log, s, codec, decode, now)
    decreases p
  {
    hide Copies, CheckpointOf, StreamProposals, EntryProposals, Followed, Faithful, ServiceQuery, GoodLog, PlainSource,
      FollowsTo, UpTo, EntryMessage, Received, Safe;
    QueryIsPlain(s);
    if p == c {
      assert log[c..p] == [];
      NothingProposed(s, stamp, codec, decode, clock, c);
      SafeFrom(db, client, log, s, codec, decode, now);
    } else {
      var front := log[c..p - 1];
      var before := StreamProposals(front, s, stamp, codec, decode, clock);
      var more := EntryProposals(log[p - 1], s, stamp, codec, decode, clock);
      WindowSnoc(log, c, p);
      StreamSnoc(front, log[p - 1], s, stamp, codec, decode, clock);
      PartOf(before, more, k);
      if k <= |before| {
        CommittedPrefixIsSafe(db, client, log, c, p - 1, k, s, stamp, codec, decode, clock, now);
      } else {
        FoldOfConcat(db, before, more[..k - |before|]);
        SessionState(db, client, log, c, p - 1, s, stamp, codec, decode, clock);
        EntrySession(Fold(db, before), Followed(client, front, decode, ServiceQuery(s), clock), log, p, s, stamp, codec,
                     decode, clock);
        FollowedSnoc(client, front, log[p - 1], decode, ServiceQuery(s), clock);
        ReachedIsSafe(Fold(Fold(db, before), more[..k - |before|]), client, log, c, p, s, codec, decode, clock, now);
      }
    }
  }

  /** A copy of what following gives, with a checkpoint no further, is safe. */
  lemma ReachedIsSafe(db: Db, client: Client, log: seq<Entry>, c: nat, p: nat, s: Source, codec: ReplicaCodec,
                      decode: Decoder, clock: Clock, now: int)
    requires PlainSource(s) && GoodLog(log, decode) && c <= p <= |log| && 0 < now && UpTo(clock, now)
    requires FollowsTo(client, c, log, decode, ServiceQuery(s), now)
    requires Copies(db, Followed(client, log[c..p], decode, ServiceQuery(s), clock), s, codec)
             && CheckpointOf(db, s, codec) <= p
    ensures Safe(db, log, s, codec, decode, now)
  {
    hide Copies, CheckpointOf, Followed, ServiceQuery, PlainSource, FollowsTo, UpTo, AllClean;
    QueryIsPlain(s);
    var q, copy := ServiceQuery(s), Followed(client, log[c..p], decode, ServiceQuery(s), clock);
    SessionFollows(client, c, p, log, decode, q, clock, now);
    FollowsEarlier(copy, p, CheckpointOf(db, s, codec), log, decode, q, now);
    SafeFrom(db, copy, log, s, codec, decode, now);
  }

  lemma PartOf(before: seq<Command>, more: seq<Command>, k: nat)
    requires k <= |before + more|
    ensures (before + more)[..k] == if k <= |before| then before[..k] else before + more[..k - |before|]
  {
  }

  // Over sessions.

  /** A session resumed at the stored checkpoint, cut after any number of its proposals, leaves a
      checkpoint that does not run ahead, whatever commands of others commit before, between and after them. */
  lemma ResumedSessionIsSafe(db: Db, log: seq<Entry>, upto: nat, s: Source, stamp: int, codec: ReplicaCodec,
                             decode: Decoder, clock: Clock, now: int)
    requires PlainSource(s) && Faithful(codec) && GoodLog(log, decode) && Safe(db, log, s, codec, decode, now)
    requires CheckpointOf(db, s, codec) <= upto <= |log| && 0 < now && UpTo(clock, now)
    ensures var c := CheckpointOf(db, s, codec);
            var proposals := AllProposals(s, Sent(Published(log[c..upto], decode), ServiceQuery(s), clock, c), stamp,
                                          codec);
            forall committed :: OwnPart(committed, s) <= proposals ==>
              Safe(Fold(db, committed), log, s, codec, decode, now)
  {
    hide CheckpointOf, Copies, FollowsTo, Clean, TidyDelete, AllProposals, Sent, Published, StreamProposals, Fold, UpTo,
      OwnPart, Safe, PlainSource;
    var c := CheckpointOf(db, s, codec);
    var client := SafeCopy(db, log, s, codec, decode, now);
    StreamIsProposed(log, c, upto, s, stamp, codec, decode, clock);
    var proposals := StreamProposals(log[c..upto], s, stamp, codec, decode, clock);
    forall committed | OwnPart(committed, s) <= proposals
      ensures Safe(Fold(db, committed), log, s, codec, decode, now) {
      var k := |OwnPart(committed, s)|;
      assert OwnPart(committed, s) == proposals[..k];
      CommittedPrefixIsSafe(db, client, log, c, upto, k, s, stamp, codec, decode, clock, now);
      SafeAmongOthers(db, committed, log, s, codec, decode, now);
    }
  }

  // Proposals that commit in another way than a resumed session expects.

  /** A change of leader may lose an accepted proposal and commit a later one.  When an event's data is lost
      and its checkpoint commits, the checkpoint runs ahead unless a later event is about the same identity
      or the copy's living instance is the source's as it is. */
  lemma LostDataSafeExactly(db: Db, client: Client, log: seq<Entry>, p: nat, id: Identity, s: Source, stamp: int,
                            codec: ReplicaCodec, decode: Decoder, now: int)
    requires PlainSource(s) && Faithful(codec) && GoodLog(log, decode) && 1 <= p <= |log|
    requires Copies(db, client, s, codec) && FollowsTo(client, p - 1, log, decode, ServiceQuery(s), now)
    requires About(log[p - 1], decode, ServiceQuery(s)) == Some(id)
    ensures Safe(ApplyCommand(db, PutCheckpoint(s, p, 0, stamp, codec)), log, s, codec, decode, now)
       <==> || Touched(log[p..], id, decode, ServiceQuery(s))
            || AliveAt(CopyOf(db, s, codec, id.instance), now)
               == CarriedOption(Seen(SourceStore(log), decode, ServiceQuery(s), now, id))
  {
    hide Copies, CheckpointOf, FollowsTo, PutCheckpoint, Faithful, GoodLog, PlainSource, ServiceQuery, About, Touched,
      Seen, SourceStore, CopyOf, ApplyCommand, Safe, FollowsBut;
    QueryIsPlain(s);
    var after := ApplyCommand(db, PutCheckpoint(s, p, 0, stamp, codec));
    AboutService(log, p, s, decode, id);
    CheckpointWritten(db, client, s, p, 0, stamp, codec);
    CopiedName(db, client, s, codec, id);
    CopiedName(after, client, s, codec, id);
    FollowsButEntry(client, p, log, decode, ServiceQuery(s), now, id);
    OneNameDecides(after, client, log, s, codec, decode, now, id);
  }

  /** A session may read the checkpoint before all proposals of the one before it have committed, and then
      begins at an event at or below the checkpoint it finds later.  Its data alone, with the higher
      checkpoint still stored, is harmless exactly when a later event is about the same identity or what it
      sends is alive in the source as it is.  With its own checkpoint it is harmless, and what follows is a
      session resumed there. */
  lemma StaleResumeSafeExactly(db: Db, client: Client, log: seq<Entry>, p: nat, message: Message, s: Source, stamp: int,
                               codec: ReplicaCodec, decode: Decoder, clock: Clock, now: int)
    requires PlainSource(s) && Faithful(codec) && GoodLog(log, decode) && 0 < now && UpTo(clock, now)
    requires Copies(db, client, s, codec)
    requires FollowsTo(client, CheckpointOf(db, s, codec), log, decode, ServiceQuery(s), now)
    requires 1 <= p <= CheckpointOf(db, s, codec) <= |log|
    requires EntryMessage(log[p - 1], decode, ServiceQuery(s), clock(log[p - 1].index)) == Some(message)
    ensures var proposals := EntryProposals(log[p - 1], s, stamp, codec, decode, clock);
            var sent := Held(Received(map[], Some(message)), message.id);
            && |proposals| == 2
            && (Safe(Fold(db, proposals[..1]), log, s, codec, decode, now) <==>
                || Touched(log[CheckpointOf(db, s, codec)..], message.id, decode, ServiceQuery(s))
                || AliveAt(CarriedOption(sent), now)
                   == CarriedOption(Seen(SourceStore(log), decode, ServiceQuery(s), now, message.id)))
            && CheckpointOf(Fold(db, proposals), s, codec) == p
            && Safe(Fold(db, proposals), log, s, codec, decode, now)
  {
    hide Copies, CheckpointOf, FollowsTo, PutCheckpoint, Faithful, GoodLog, PlainSource, ServiceQuery, Touched, Seen,
      SourceStore, ApplyCommand, Safe, EntryMessage, DataOf, Received, UpTo, Proposals, CarriedOption, AliveAt, Held,
      Fold, GoodFrame;
    QueryIsPlain(s);
    var data := DataOf(s, message, stamp, codec);
    EntryIsGood(log, p - 1, s, decode, clock(log[p - 1].index));
    ChangeProposals(s, message, stamp, codec);
    PartsOfPair(db, data, PutCheckpoint(s, RevisionOf(Change(message)), 0, stamp, codec));
    StaleDataDecides(db, client, log, p, message, s, stamp, codec, decode, clock(log[p - 1].index), now);
    WholeEntryIsSafe(db, client, log, p, message, s, stamp, codec, decode, clock, now);
  }

  lemma StaleDataDecides(db: Db, client: Client, log: seq<Entry>, p: nat, message: Message, s: Source, stamp: int,
                         codec: ReplicaCodec, decode: Decoder, t: int, now: int)
    requires PlainSource(s) && Faithful(codec) && GoodLog(log, decode) && 1 <= p <= |log|
    requires Copies(db, client, s, codec) && CheckpointOf(db, s, codec) <= |log|
    requires FollowsTo(client, CheckpointOf(db, s, codec), log, decode, ServiceQuery(s), now)
    requires EntryMessage(log[p - 1], decode, ServiceQuery(s), t) == Some(message)
    ensures Safe(ApplyCommand(db, DataOf(s, message, stamp, codec)), log, s, codec, decode, now)
       <==> || Touched(log[CheckpointOf(db, s, codec)..], message.id, decode, ServiceQuery(s))
            || AliveAt(CarriedOption(Held(Received(map[], Some(message)), message.id)), now)
               == CarriedOption(Seen(SourceStore(log), decode, ServiceQuery(s), now, message.id))
  {
    hide Copies, CheckpointOf, FollowsTo, Faithful, GoodLog, PlainSource, ServiceQuery, About, Touched, Seen,
      SourceStore, CopyOf, ApplyCommand, Safe, FollowsBut, EntryMessage, DataOf, Received, CarriedOption, AliveAt, Held,
      SlashFree, TidyName, GoodFrame, Clean, TidyDelete, Concerns;
    QueryIsPlain(s);
    var q, c, next := ServiceQuery(s), CheckpointOf(db, s, codec), Received(client, Some(message));
    var after := ApplyCommand(db, DataOf(s, message, stamp, codec));
    EntryIsGood(log, p - 1, s, decode, t);
    MessageIsAbout(log[p - 1], decode, q, t);
    AboutService(log, p, s, decode, message.id);
    ChangeIsCopied(db, client, s, message, stamp, codec);
    ShowsReceived(client, message);
    ReceivedFacts(client, message);
    FollowsButOne(client, next, c, log, decode, q, now, message.id);
    CopiedName(after, next, s, codec, message.id);
    OneNameDecides(after, next, log, s, codec, decode, now, message.id);
  }

  lemma WholeEntryIsSafe(db: Db, client: Client, log: seq<Entry>, p: nat, message: Message, s: Source, stamp: int,
                         codec: ReplicaCodec, decode: Decoder, clock: Clock, now: int)
    requires PlainSource(s) && Faithful(codec) && GoodLog(log, decode) && 0 < now && UpTo(clock, now)
    requires Copies(db, client, s, codec)
    requires FollowsTo(client, CheckpointOf(db, s, codec), log, decode, ServiceQuery(s), now)
    requires 1 <= p <= CheckpointOf(db, s, codec) <= |log|
    requires EntryMessage(log[p - 1], decode, ServiceQuery(s), clock(log[p - 1].index)) == Some(message)
    ensures var after := Fold(db, Proposals(s, Change(message), stamp, codec));
            CheckpointOf(after, s, codec) == p && Safe(after, log, s, codec, decode, now)
  {
    hide Copies, CheckpointOf, FollowsTo, Faithful, PlainSource, ServiceQuery, Safe, EntryMessage, Received, UpTo,
      Proposals, Fold, GoodFrame, TidyDelete, Followed, AllClean;
    QueryIsPlain(s);
    var q, c, next := ServiceQuery(s), CheckpointOf(db, s, codec), Received(client, Some(message));
    EntryIsGood(log, p - 1, s, decode, clock(log[p - 1].index));
    FrameIsCopied(db, client, s, Change(message), stamp, codec);
    ShowsReceived(client, message);
    FollowsEarlier(client, c, p - 1, log, decode, q, now);
    SessionFollows(client, p - 1, p, log, decode, q, clock, now);
    OneEntryFollowed(client, log, p, decode, q, clock);
    SafeFrom(Fold(db, Proposals(s, Change(message), stamp, codec)), next, log, s, codec, decode, now);
  }

  lemma ShowsReceived(client: Client, message: Message)
    ensures Shows(client, Change(message)) == Received(client, Some(message))
  {
  }

  lemma ReceivedFacts(client: Client, message: Message)
    ensures forall other :: other != message.id ==> Held(Received(client, Some(message)), other) == Held(client, other)
    ensures Held(Received(client, Some(message)), message.id) == Held(Received(map[], Some(message)), message.id)
  {
  }

  lemma OneEntryFollowed(client: Client, log: seq<Entry>, p: nat, decode: Decoder, q: Query, clock: Clock)
    requires 1 <= p <= |log| && AllWellFormed(q.selector)
    ensures Followed(client, log[p - 1..p], decode, q, clock)
         == Received(client, EntryMessage(log[p - 1], decode, q, clock(log[p - 1].index)))
  {
    hide EntryMessage, Received;
    assert log[p - 1..p] == [] + [log[p - 1]];
    FollowedSnoc(client, [], log[p - 1], decode, q, clock);
  }

  /** A copy that follows from a position but perhaps in one identity. */
  ghost predicate FollowsBut(client: Client, c: nat, log: seq<Entry>, decode: Decoder, q: Query, now: int, id: Identity)
    requires AllWellFormed(q.selector)
  {
    c <= |log|
    && forall other :: other != id && SlashFree(other) && !Touched(log[c..], other, decode, q) ==>
         Right(client, SourceStore(log), decode, q, now, other)
  }

  /** Then that one identity decides whether the checkpoint runs ahead. */
  lemma OneNameDecides(db: Db, client: Client, log: seq<Entry>, s: Source, codec: ReplicaCodec, decode: Decoder,
                       now: int, id: Identity)
    requires Copies(db, client, s, codec) && AllWellFormed(ServiceQuery(s).selector)
    requires FollowsBut(client, CheckpointOf(db, s, codec), log, decode, ServiceQuery(s), now, id)
    requires SlashFree(id) && id.namespace == s.namespace && id.service == s.service && TidyName(id.instance)
    ensures CheckpointOf(db, s, codec) <= |log|
    ensures Safe(db, log, s, codec, decode, now)
       <==> || Touched(log[CheckpointOf(db, s, codec)..], id, decode, ServiceQuery(s))
            || AliveAt(CopyOf(db, s, codec, id.instance), now)
               == CarriedOption(Seen(SourceStore(log), decode, ServiceQuery(s), now, id))
  {
    hide Copies, CheckpointOf, FollowsTo, ServiceQuery, Touched, Seen, SourceStore, CopyOf, Safe, SlashFree, TidyName;
    var q, c := ServiceQuery(s), CheckpointOf(db, s, codec);
    CopiedName(db, client, s, codec, id);
    if Safe(db, log, s, codec, decode, now) && !Touched(log[c..], id, decode, q) {
      var other := SafeCopy(db, log, s, codec, decode, now);
      CopiedName(db, other, s, codec, id);
      RightWhereUntouched(other, c, log, decode, q, now, id);
      CarriedIsAlive(Held(other, id), now);
    }
    var seen := Seen(SourceStore(log), decode, q, now, id);
    if Touched(log[c..], id, decode, q) || AliveAt(CopyOf(db, s, codec, id.instance), now) == CarriedOption(seen) {
      var copy := if seen.Some? && !Touched(log[c..], id, decode, q) then client[id := seen.value] else client;
      SameNamesCopied(db, client, copy, s, codec, id);
      CarriedIsAlive(Held(client, id), now);
      SettledFollows(client, copy, c, log, decode, q, now, id);
      SafeFrom(db, copy, log, s, codec, decode, now);
    }
  }

  lemma AboutService(log: seq<Entry>, p: nat, s: Source, decode: Decoder, id: Identity)
    requires PlainSource(s) && GoodLog(log, decode) && 1 <= p <= |log|
             && About(log[p - 1], decode, ServiceQuery(s)) == Some(id)
    ensures SlashFree(id) && id.namespace == s.namespace && id.service == s.service && TidyName(id.instance)
  {
    hide ServiceQuery, GoodLog, PlainSource, TidyName, EntryMessage, SlashFree, Concerns, About;
    QueryIsPlain(s);
    EntryIsGood(log, p - 1, s, decode, 0);
    MessageIsAbout(log[p - 1], decode, ServiceQuery(s), 0);
  }

  lemma CopiedName(db: Db, client: Client, s: Source, codec: ReplicaCodec, id: Identity)
    requires Copies(db, client, s, codec) && id.namespace == s.namespace && id.service == s.service
             && TidyName(id.instance)
    ensures CopyOf(db, s, codec, id.instance) == CarriedOption(Held(client, id))
  {
    hide CopyOf, TidyName;
    assert id == Identity(s.namespace, s.service, id.instance);
  }

  lemma RightWhereUntouched(client: Client, c: nat, log: seq<Entry>, decode: Decoder, q: Query, now: int, id: Identity)
    requires AllWellFormed(q.selector) && FollowsTo(client, c, log, decode, q, now)
    requires SlashFree(id) && !Touched(log[c..], id, decode, q)
    ensures Right(client, SourceStore(log), decode, q, now, id)
  {
    hide Touched, SourceStore, SlashFree, Right;
  }

  /** A copy may be read as one that holds the same carried fields of an identity. */
  lemma SameNamesCopied(db: Db, client: Client, copy: Client, s: Source, codec: ReplicaCodec, id: Identity)
    requires Copies(db, client, s, codec) && forall other :: other != id ==> Held(copy, other) == Held(client, other)
    requires CarriedOption(Held(copy, id)) == CarriedOption(Held(client, id))
    ensures Copies(db, copy, s, codec)
  {
    hide CopyOf, TidyName, Held;
  }

  /** A copy right in the one identity as well follows. */
  lemma SettledFollows(client: Client, copy: Client, c: nat, log: seq<Entry>, decode: Decoder, q: Query, now: int,
                       id: Identity)
    requires AllWellFormed(q.selector) && FollowsBut(client, c, log, decode, q, now, id)
    requires forall other :: other != id ==> Held(copy, other) == Held(client, other)
    requires Touched(log[c..], id, decode, q) || Right(copy, SourceStore(log), decode, q, now, id)
    ensures FollowsTo(copy, c, log, decode, q, now)
  {
    hide SourceStore, SlashFree, Seen, Touched, Held;
  }

  lemma FollowsButEntry(client: Client, p: nat, log: seq<Entry>, decode: Decoder, q: Query, now: int, id: Identity)
    requires AllWellFormed(q.selector) && 1 <= p <= |log| && FollowsTo(client, p - 1, log, decode, q, now)
    requires About(log[p - 1], decode, q) == Some(id)
    ensures FollowsBut(client, p, log, decode, q, now, id)
  {
    hide SourceStore, SlashFree, Right, About;
    assert log[p - 1..] == [log[p - 1]] + log[p..];
    forall other | other != id && SlashFree(other) && !Touched(log[p..], other, decode, q)
      ensures Right(client, SourceStore(log), decode, q, now, other) {
      TouchedConcat([log[p - 1]], log[p..], other, decode, q);
    }
  }

  lemma FollowsButOne(client: Client, copy: Client, c: nat, log: seq<Entry>, decode: Decoder, q: Query, now: int,
                      id: Identity)
    requires AllWellFormed(q.selector) && FollowsTo(client, c, log, decode, q, now)
    requires forall other :: other != id ==> Held(copy, other) == Held(client, other)
    ensures FollowsBut(copy, c, log, decode, q, now, id)
  {
    hide SourceStore, SlashFree, Seen, Touched, Held;
  }

  /** A name as a complete session leaves it: without a slash, its living copy is the source's instance on
      the carried fields; with one, the copy is untouched. */
  predicate Converged(before: Db, after: Db, log: seq<Entry>, s: Source, codec: ReplicaCodec, decode: Decoder, now: int,
                      name: string)
  {
    && (SLASH in name ==> CopyOf(after, s, codec, name) == CopyOf(before, s, codec, name))
    && (SLASH !in name ==>
          AliveAt(CopyOf(after, s, codec, name), now)
          == CarriedOption(Seen(SourceStore(log), decode, ServiceQuery(s), now,
                                Identity(s.namespace, s.service, name))))
  }

  /** A session that catches up with the source, whatever commands of others commit among its own: the
      living instances of the copy are the source's, on the carried fields, for every name events can carry;
      a name with a slash is left as it was. */
  lemma CompletedSessionConverges(db: Db, log: seq<Entry>, s: Source, stamp: int, codec: ReplicaCodec, decode: Decoder,
                                  clock: Clock, now: int)
    requires PlainSource(s) && Faithful(codec) && GoodLog(log, decode) && Safe(db, log, s, codec, decode, now)
    requires 0 < now && UpTo(clock, now)
    ensures var c := CheckpointOf(db, s, codec);
            c <= |log|
            && var proposals := AllProposals(s, Sent(Published(log[c..], decode), ServiceQuery(s), clock, c), stamp,
                                             codec);
               forall committed, name :: OwnPart(committed, s) == proposals && TidyName(name) ==>
                 Converged(db, Fold(db, committed), log, s, codec, decode, now, name)
  {
    hide CheckpointOf, Clean, TidyDelete, Sent, Published, Fold, AllProposals, PlainSource, Copies, UpTo,
      StreamProposals, ServiceQuery, Converged, TidyName, OwnPart, Safe, FollowsTo, SameOwn;
    QueryIsPlain(s);
    var c := CheckpointOf(db, s, codec);
    var client := SafeCopy(db, log, s, codec, decode, now);
    FollowsWithin(client, c, log, decode, ServiceQuery(s), now);
    assert log[c..|log|] == log[c..];
    StreamIsProposed(log, c, |log|, s, stamp, codec, decode, clock);
    SessionState(db, client, log, c, |log|, s, stamp, codec, decode, clock);
    var proposals := StreamProposals(log[c..], s, stamp, codec, decode, clock);
    forall committed, name | OwnPart(committed, s) == proposals && TidyName(name)
      ensures Converged(db, Fold(db, committed), log, s, codec, decode, now, name) {
      OwnPartDecides(db, committed, s);
      SameOwnSameCopy(Fold(db, committed), Fold(db, proposals), s, codec);
      NameConverges(db, Fold(db, committed), client, log, c, s, codec, decode, clock, now, name);
    }
  }

  lemma FollowsWithin(client: Client, c: nat, log: seq<Entry>, decode: Decoder, q: Query, now: int)
    requires AllWellFormed(q.selector) && FollowsTo(client, c, log, decode, q, now)
    ensures c <= |log|
  {
  }

  /** The same in the fields of what is stored: entry `i` is the last normal one of the source whose command
      touches the instance's key, or -1.  When it put a value whose lease has not run out, the copy has that
      value's id, zone, labels, metadata, endpoints, lease and times; otherwise there is no copy, or one whose
      lease has run out. */
  lemma ConvergedByField(before: Db, after: Db, log: seq<Entry>, s: Source, codec: ReplicaCodec, decode: Decoder,
                         now: int, name: string, i: int)
    requires PlainSource(s) && TidyName(name) && '/' !in name && -1 <= i < |log| && now > 0
    requires Converged(before, after, log, s, codec, decode, now, name)
    requires var key := "/registry/" + s.namespace + "/" + s.service + "/" + name;
             forall j :: 0 <= j < |log| && i <= j ==>
               (j == i <==>
                && log[j].kind.Normal?
                && match log[j].command
                   case Some(Put(k, _)) => k == key
                   case Some(Delete(k)) => k == key
                   case Some(DeletePrefix(prefix)) =>
                     prefix <= key && (|key| == |prefix| || key[|prefix|] < '\U{FF}')
                   case _ => false)
    ensures var stored :=
              if i >= 0 && log[i].command.value.Put? then decode(log[i].command.value.value) else None;
            var copy := CopyOf(after, s, codec, name);
            if stored.Some? && stored.value.id == Identity(s.namespace, s.service, name)
              && InLease(stored.value, now) then
              && copy.Some? && copy.value.id == stored.value.id && copy.value.zone == stored.value.zone
              && copy.value.labels == stored.value.labels && copy.value.metadata == stored.value.metadata
              && copy.value.endpoints == stored.value.endpoints
              && copy.value.ttl == (if stored.value.ttl > 0 then stored.value.ttl else 30)
              && copy.value.registeredAt == stored.value.registeredAt
              && copy.value.lastHeartbeat == stored.value.lastHeartbeat
            else copy.Some? ==> !InLease(copy.value, now)
  {
    hide Fold, Commands, ApplyCommand, CopyOf, TidyName, PlainSource, Seen, AliveAt, InLease, ServiceQuery;
    var id, db := Identity(s.namespace, s.service, name), SourceStore(log);
    QueryIsPlain(s);
    KeysSpelled(id);
    KeyUnderRoot(id);
    RootIsNotMeta(Key(id));
    Recovery.SettledByLastEntry(db, log, Key(id), i);
    SeenOfSource(db, s, decode, now, id);
    LeaseIsLife(CopyOf(after, s, codec, name), now);
  }

  lemma SeenOfSource(db: Db, s: Source, decode: Decoder, now: int, id: Identity)
    requires PlainSource(s) && now > 0 && id.namespace == s.namespace && id.service == s.service
    ensures AllWellFormed(ServiceQuery(s).selector)
    ensures var stored := if Key(id) in db then decode(db[Key(id)]) else None;
            Seen(db, decode, ServiceQuery(s), now, id) ==
            if stored.Some? && stored.value.id == id && InLease(stored.value, now)
            then Some(stored.value.(ttl := if stored.value.ttl > 0 then stored.value.ttl else 30)) else None
  {
    hide Shown, PlainSource, ServiceQuery, InLease, Key;
    QueryIsPlain(s);
    if Key(id) in db && decode(db[Key(id)]).Some? && decode(db[Key(id)]).value.id == id {
      ShownToItself(decode(db[Key(id)]).value, s, now);
    }
  }

  lemma LeaseIsLife(v: Option<Value>, now: int)
    requires now > 0
    ensures AliveAt(v, now) == if v.Some? && InLease(v.value, now) then v else None
  {
  }

  /** A lease, counted from the last heartbeat or else the registration, has not run out. */
  predicate InLease(v: Value, now: int) {
    var since := if v.lastHeartbeat > 0 then v.lastHeartbeat else v.registeredAt;
    since <= 0 || now - since <= if v.ttl > 0 then v.ttl else 30
  }

  lemma ShownToItself(v: Value, s: Source, now: int)
    requires PlainSource(s) && now > 0 && v.id.namespace == s.namespace && v.id.service == s.service
    ensures AllWellFormed(ServiceQuery(s).selector)
    ensures Shown(v, ServiceQuery(s), now) ==
            if InLease(v, now) then Some(v.(ttl := if v.ttl > 0 then v.ttl else 30)) else None
  {
    QueryIsPlain(s);
    ShownExactly(v, ServiceQuery(s), now);
    hide Shown;
  }

  lemma NameConverges(db: Db, after: Db, client: Client, log: seq<Entry>, c: nat, s: Source, codec: ReplicaCodec,
                      decode: Decoder, clock: Clock, now: int, name: string)
    requires PlainSource(s) && GoodLog(log, decode) && c <= |log| && 0 < now && UpTo(clock, now) && TidyName(name)
    requires Copies(db, client, s, codec) && FollowsTo(client, c, log, decode, ServiceQuery(s), now)
    requires Copies(after, Followed(client, log[c..], decode, ServiceQuery(s), clock), s, codec)
    ensures Converged(db, after, log, s, codec, decode, now, name)
  {
    hide Clean, TidyDelete, UpTo, SourceStore, CopyOf, Seen, TidyName, Followed, ServiceQuery;
    QueryIsPlain(s);
    var q, id := ServiceQuery(s), Identity(s.namespace, s.service, name);
    var copy := Followed(client, log[c..], decode, q, clock);
    if SLASH in name {
      SlashedIsNeverSent(client, log[c..], decode, q, clock, id);
    } else {
      assert log[c..|log|] == log[c..] && log[|log|..] == [];
      SessionFollows(client, c, |log|, log, decode, q, clock, now);
      NeverTouched(id, decode, q);
      assert Right(copy, SourceStore(log), decode, q, now, id);
      CarriedIsAlive(Held(copy, id), now);
    }
  }

  lemma CarriedIsAlive(v: Option<Value>, now: int)
    ensures AliveAt(CarriedOption(v), now) == CarriedOption(AliveAt(v, now))
  {
  }

  /** Time passing does not put a checkpoint ahead. */
  lemma SafeLater(db: Db, log: seq<Entry>, s: Source, codec: ReplicaCodec, decode: Decoder, t: int, now: int)
    requires 0 < t <= now && Safe(db, log, s, codec, decode, t)
    ensures Safe(db, log, s, codec, decode, now)
  {
    hide CheckpointOf, Copies, Touched, Right, SlashFree, SourceStore, ServiceQuery;
    QueryIsPlain(s);
    var q, c := ServiceQuery(s), CheckpointOf(db, s, codec);
    var client :| Copies(db, client, s, codec) && FollowsTo(client, c, log, decode, q, t);
    forall id | SlashFree(id) && !Touched(log[c..], id, decode, q)
      ensures Right(client, SourceStore(log), decode, q, now, id) {
      RightLater(client, SourceStore(log), decode, q, t, now, id);
    }
    assert FollowsTo(client, c, log, decode, q, now);
  }

  /** Nor do later source entries. */
  lemma SafeAsSourceGrows(db: Db, log: seq<Entry>, more: seq<Entry>, s: Source, codec: ReplicaCodec, decode: Decoder,
                          now: int)
    requires GoodLog(log + more, decode) && PlainSource(s) && 0 < now && Safe(db, log, s, codec, decode, now)
    ensures Safe(db, log + more, s, codec, decode, now)
  {
    hide CheckpointOf, Copies, Touched, SlashFree, SourceStore, ServiceQuery, PlainSource, Seen, AllClean, AliveAt,
      Held;
    QueryIsPlain(s);
    var q, c, all := ServiceQuery(s), CheckpointOf(db, s, codec), log + more;
    var client :| Copies(db, client, s, codec) && FollowsTo(client, c, log, decode, q, now);
    assert all[c..] == log[c..] + more && all[|log|..] == more && all[..|log|] == log;
    forall id | SlashFree(id) && !Touched(all[c..], id, decode, q)
      ensures Right(client, SourceStore(all), decode, q, now, id) {
      TouchedConcat(log[c..], more, id, decode, q);
      ShownSince(all, |log|, decode, q, now, id);
      assert Right(client, SourceStore(log), decode, q, now, id);
    }
    assert FollowsTo(client, c, all, decode, q, now);
  }

  // Snapshots.

  /** The instances a snapshot of the service holds. */
  ghost function ServiceSnapshot(kv: Db, s: Source, decode: Decoder, taken: int): seq<Value> {
    var q := ServiceQuery(s);
    Take(ShownRows(PrefixRows(kv, ScanPrefix(q)), decode, q, taken), q.limit)
  }

  /** A store a source serves a snapshot from: registered rows, tracking the log from a position. */
  ghost predicate Served(kv: Db, at: nat, log: seq<Entry>, read: nat, decode: Decoder) {
    at <= read <= |log| && WellPlaced(kv, decode) && Recovery.Tracks(kv, at, log[..read])
  }

  /** What such a store shows of an identity that no later entry is about is final. */
  lemma ServedIsFinal(kv: Db, at: nat, log: seq<Entry>, read: nat, decode: Decoder, q: Query, now: int, id: Identity)
    requires Served(kv, at, log, read, decode) && AllClean(Commands(log), decode) && AllWellFormed(q.selector)
             && q.namespace != ""
    requires 0 < now && SlashFree(id) && !Touched(log[at..], id, decode, q)
    ensures Seen(kv, decode, q, now, id) == Seen(SourceStore(log), decode, q, now, id)
  {
    hide AllClean, Touched, Seen, SlashFree, WellPlaced, Business;
    assert log[..read] + log[read..] == log && log[..at] + log[at..] == log;
    Recovery.TracksGrown(kv, at, log[..read], log[read..]);
    CleanParts(log[..at], log[at..], decode);
    UntouchedIsSame(kv, log[at..], decode, q, now, id);
    SeenOfBusiness(Fold(kv, Commands(log[at..])), SourceStore(log), decode, q, now, id);
  }

  /** What a snapshot holds of each identity, and that its items fit the service. */
  lemma ServiceSnapshotHolds(kv: Db, s: Source, decode: Decoder, taken: int)
    requires PlainSource(s) && WellPlaced(kv, decode)
    ensures var items := ServiceSnapshot(kv, s, decode, taken);
            (forall id :: Held(FromSnapshot(items), id) == Seen(kv, decode, ServiceQuery(s), taken, id))
            && (forall v :: v in items ==> OfService(v, s))
            && forall v :: v in items ==> Held(FromSnapshot(items), v.id) == Some(v)
  {
    hide WellPlaced, ShownRows, ScanPrefix, Seen, FromSnapshot, OfService, PrefixRows, ServiceQuery, PlainSource;
    QueryIsPlain(s);
    var items := ServiceSnapshot(kv, s, decode, taken);
    forall id ensures Held(FromSnapshot(items), id) == Seen(kv, decode, ServiceQuery(s), taken, id) {
      SnapshotHolds(kv, decode, ServiceQuery(s), taken, id);
    }
    ItemsOfService(kv, s, decode, taken);
  }

  /** An item of the service, as the directory shows it. */
  ghost predicate ItemOf(v: Value, kv: Db, s: Source, decode: Decoder, now: int) {
    OfService(v, s) && Seen(kv, decode, ServiceQuery(s), now, v.id) == Some(v)
  }

  lemma ItemsOfService(kv: Db, s: Source, decode: Decoder, now: int)
    requires PlainSource(s) && WellPlaced(kv, decode)
    ensures forall v :: v in ShownRows(PrefixRows(kv, ScanPrefix(ServiceQuery(s))), decode, ServiceQuery(s), now) ==>
              ItemOf(v, kv, s, decode, now)
  {
    hide WellPlaced, ItemOf, ShownRows, ScanPrefix;
    QueryIsPlain(s);
    var prefix := ScanPrefix(ServiceQuery(s));
    var keys := ScanKeys(kv, prefix, Before(PrefixEnd(prefix)));
    ListingFacts(keys);
    ScansUnderRoot(s);
    forall k | k in Listing(keys) ensures k in kv && ROOT <= k { NotInRange(prefix, k); }
    KeysOfService(kv, Listing(keys), s, decode, now);
  }

  lemma ScansUnderRoot(s: Source)
    ensures ROOT <= ScanPrefix(ServiceQuery(s))
  {
    hide ServicePrefix, NamespacePrefix;
    RootOfPrefixes(s.namespace, s.service);
  }

  lemma {:induction false} KeysOfService(kv: Db, keys: seq<string>, s: Source, decode: Decoder, now: int)
    requires PlainSource(s) && WellPlaced(kv, decode) && forall k :: k in keys ==> k in kv && ROOT <= k
    ensures forall v :: v in ShownRows(Rows(kv, keys), decode, ServiceQuery(s), now) ==> ItemOf(v, kv, s, decode, now)
    decreases |keys|
  {
    hide WellPlaced, ItemOf, ShownRow, ShownRows, ServiceQuery, Rows;
    QueryIsPlain(s);
    if keys == [] {
      assert keys == [];
      NoRows(kv, decode, ServiceQuery(s), now);
    } else {
      var front, last := keys[..|keys| - 1], keys[|keys| - 1];
      assert last in keys && front + [last] == keys && forall k :: k in front ==> k in keys;
      KeysOfService(kv, front, s, decode, now);
      ShownOfSnoc(kv, front, last, decode, ServiceQuery(s), now);
      RowOfService(kv, last, s, decode, now);
    }
  }

  lemma RowOfService(kv: Db, key: string, s: Source, decode: Decoder, now: int)
    requires PlainSource(s) && WellPlaced(kv, decode) && key in kv && ROOT <= key
    ensures forall v :: v in ShownRow(KV(key, kv[key]), decode, ServiceQuery(s), now) ==> ItemOf(v, kv, s, decode, now)
  {
    hide Shown, TextBytes, Key, Concerns, WellPlaced, TidyIdentity, TidyName;
    QueryIsPlain(s);
    RowIsPlaced(kv, key, decode);
    var v := decode(kv[key]).value;
    ShownFacts(v, ServiceQuery(s), now);
    if Shown(v, ServiceQuery(s), now).Some? {
      ServiceIsExact(v.id, s);
    }
    NameOfKey(v.id);
    RowIsSeen(kv, decode, ServiceQuery(s), now, key);
  }

  /** A completed snapshot leaves a checkpoint that does not run ahead, whatever the downstream store held
      before and whatever commands of others commit among its own, and though the source was scanned later
      than the snapshot's revision or in the middle of a redelivery. */
  lemma SnapshotSessionIsSafe(db: Db, log: seq<Entry>, revision: nat, read: nat, kv: Db, s: Source, stamp: int,
                              codec: ReplicaCodec, decode: Decoder, taken: int, now: int)
    requires PlainSource(s) && Faithful(codec) && GoodLog(log, decode) && Served(kv, revision, log, read, decode)
    requires 0 < taken <= now
    ensures var frame := Snapshot(revision, ServiceSnapshot(kv, s, decode, taken));
            forall committed :: OwnPart(committed, s) == Proposals(s, frame, stamp, codec) ==>
              Safe(Fold(db, committed), log, s, codec, decode, now)
  {
    hide CheckpointOf, Copies, Clean, TidyDelete, ServiceSnapshot, Seen, Proposals, PlainSource, Faithful, FromSnapshot,
      ServiceQuery, FollowsTo, OfService, OwnPart, Fold, Safe;
    QueryIsPlain(s);
    var items := ServiceSnapshot(kv, s, decode, taken);
    ServiceSnapshotHolds(kv, s, decode, taken);
    FrameIsCopied(db, map[], s, Snapshot(revision, items), stamp, codec);
    PartFollows(log, revision, revision, read, kv, items, |items|, s, decode, taken, now);
    assert items[..|items|] == items;
    var proposals := Proposals(s, Snapshot(revision, items), stamp, codec);
    SafeFrom(Fold(db, proposals), FromSnapshot(items), log, s, codec, decode, now);
    forall committed | OwnPart(committed, s) == proposals
      ensures Safe(Fold(db, committed), log, s, codec, decode, now) {
      SafeAmongOthers(db, committed, log, s, codec, decode, now);
    }
  }

  /** Every living instance of the source was put already or is sent again after position `c`. */
  ghost predicate PutOrTouched(items: seq<Value>, log: seq<Entry>, c: nat, decode: Decoder, q: Query, now: int)
    requires AllWellFormed(q.selector)
  {
    c <= |log|
    && forall id :: SlashFree(id) && Seen(SourceStore(log), decode, q, now, id).Some? ==>
         Touched(log[c..], id, decode, q) || exists v :: v in items && v.id == id
  }

  /** Part of a snapshot's items, each of them as the whole snapshot holds it. */
  lemma {:induction false} PartHolds(items: seq<Value>, whole: Client, id: Identity)
    requires forall v :: v in items ==> Held(whole, v.id) == Some(v)
    ensures Held(FromSnapshot(items), id) == if exists v :: v in items && v.id == id then Held(whole, id) else None
    decreases |items|
  {
    if items != [] {
      var front, last := items[..|items| - 1], items[|items| - 1];
      assert last in items && items == front + [last] && forall v :: v in front ==> v in items;
      PartHolds(front, whole, id);
    }
  }

  /** The first items of a snapshot follow from a position at or below the one the source tracked from,
      when the rest is dead or sent again; all of them always do. */
  lemma PartFollows(log: seq<Entry>, c: nat, at: nat, read: nat, kv: Db, items: seq<Value>, j: nat, s: Source,
                    decode: Decoder, taken: int, now: int)
    requires PlainSource(s) && GoodLog(log, decode) && c <= at && Served(kv, at, log, read, decode) && 0 < taken <= now
    requires items == ServiceSnapshot(kv, s, decode, taken) && j <= |items|
    requires j < |items| ==> PutOrTouched(items[..j], log, c, decode, ServiceQuery(s), now)
    ensures FollowsTo(FromSnapshot(items[..j]), c, log, decode, ServiceQuery(s), now)
  {
    hide Seen, PlainSource, Touched, ServiceQuery, FromSnapshot, ServiceSnapshot, SlashFree, SourceStore, TidyDelete,
      AllClean, OfService, Served, AliveAt, Held;
    QueryIsPlain(s);
    var q, whole, part := ServiceQuery(s), FromSnapshot(items), FromSnapshot(items[..j]);
    ServedFacts(kv, at, log, read, decode);
    ServiceSnapshotHolds(kv, s, decode, taken);
    assert forall v :: v in items[..j] ==> v in items;
    forall id | SlashFree(id) && !Touched(log[c..], id, decode, q)
      ensures Right(part, SourceStore(log), decode, q, now, id) {
      assert log[c..at] + log[at..] == log[c..];
      TouchedConcat(log[c..at], log[at..], id, decode, q);
      ServedIsFinal(kv, at, log, read, decode, q, now, id);
      SeenLater(kv, decode, q, taken, now, id);
      PartHolds(items[..j], whole, id);
      NothingIsAlive(now);
      if j == |items| {
        assert items[..j] == items;
      }
    }
  }

  lemma ServedFacts(kv: Db, at: nat, log: seq<Entry>, read: nat, decode: Decoder)
    requires Served(kv, at, log, read, decode)
    ensures at <= read <= |log| && WellPlaced(kv, decode)
  {
  }

  lemma NothingIsAlive(now: int)
    ensures AliveAt(None, now) == None
  {
  }

  /** What is proposed of a snapshot before it is cut off. */
  function CutOff(s: Source, items: seq<Value>, revision: nat, stamp: int, codec: ReplicaCodec): seq<Command> {
    [DeletePrefix(ReplicationServicePrefix(s))] + PutInstances(s, items, revision, stamp, codec)
  }

  lemma CutOffHolds(db: Db, s: Source, items: seq<Value>, revision: nat, stamp: int, codec: ReplicaCodec)
    requires PlainSource(s) && Faithful(codec) && forall v :: v in items ==> OfService(v, s)
    ensures var cut := Fold(db, CutOff(s, items, revision, stamp, codec));
            Copies(cut, FromSnapshot(items), s, codec) && CheckpointOf(cut, s, codec) == CheckpointOf(db, s, codec)
  {
    hide CheckpointOf, Copies, PutInstances, ApplyCommand, PlainSource, Faithful, OfService, FromSnapshot;
    var clear := DeletePrefix(ReplicationServicePrefix(s));
    ServiceCleared(db, s, codec);
    FoldOne(db, [], clear);
    assert [] + [clear] == [clear];
    FoldOfConcat(db, [clear], PutInstances(s, items, revision, stamp, codec));
    InstancesPut(ApplyCommand(db, clear), s, items, revision, stamp, codec);
  }

  /** A snapshot cut off before its checkpoint, after the prefix delete and the puts of its first `j`
      instances, keeps the old checkpoint.  Whatever commands of others commit among these, that is harmless
      exactly when every living instance of the source was put already or is sent again after the old
      checkpoint. */
  lemma InterruptedSnapshotSafeExactly(db: Db, log: seq<Entry>, revision: nat, at: nat, read: nat, kv: Db, j: nat,
                                       s: Source, stamp: int, codec: ReplicaCodec, decode: Decoder, taken: int,
                                       now: int)
    requires PlainSource(s) && Faithful(codec) && GoodLog(log, decode) && Served(kv, at, log, read, decode)
    requires CheckpointOf(db, s, codec) <= at && 0 < taken <= now
    ensures var items := ServiceSnapshot(kv, s, decode, taken);
            j <= |items| ==>
              forall committed ::
                OwnPart(committed, s) <= Proposals(s, Snapshot(revision, items), stamp, codec) ==>
                |OwnPart(committed, s)| == j + 1 ==>
                (Safe(Fold(db, committed), log, s, codec, decode, now) <==>
                 PutOrTouched(items[..j], log, CheckpointOf(db, s, codec), decode, ServiceQuery(s), now))
  {
    hide CheckpointOf, GoodLog, PlainSource, CutOff, PutOrTouched, Copies, FollowsTo, Faithful, OfService,
      ServiceSnapshot, Seen, Held, FromSnapshot, OwnPart, Fold, Safe, Proposals;
    QueryIsPlain(s);
    var items, c := ServiceSnapshot(kv, s, decode, taken), CheckpointOf(db, s, codec);
    if j <= |items| {
      ServiceSnapshotHolds(kv, s, decode, taken);
      assert forall v :: v in items[..j] ==> v in items;
      CutOffHolds(db, s, items[..j], revision, stamp, codec);
      var proposals := CutOff(s, items[..j], revision, stamp, codec);
      var cut := Fold(db, proposals);
      if PutOrTouched(items[..j], log, c, decode, ServiceQuery(s), now) {
        PartFollows(log, c, at, read, kv, items, j, s, decode, taken, now);
        SafeFrom(cut, FromSnapshot(items[..j]), log, s, codec, decode, now);
      }
      if Safe(cut, log, s, codec, decode, now) {
        var other := SafeCopy(cut, log, s, codec, decode, now);
        OnlyWhatIsThere(cut, other, items[..j], log, c, s, codec, decode, now);
      }
      forall committed | OwnPart(committed, s) <= Proposals(s, Snapshot(revision, items), stamp, codec)
                         && |OwnPart(committed, s)| == j + 1
        ensures Safe(Fold(db, committed), log, s, codec, decode, now) <==> Safe(cut, log, s, codec, decode, now) {
        CutIsPart(s, items, j, OwnPart(committed, s), revision, stamp, codec);
        SafeAmongOthers(db, committed, log, s, codec, decode, now);
      }
    }
  }

  lemma CutIsPart(s: Source, items: seq<Value>, j: nat, part: seq<Command>, revision: nat, stamp: int,
                  codec: ReplicaCodec)
    requires part <= Proposals(s, Snapshot(revision, items), stamp, codec) && |part| == j + 1 <= |items| + 1
    ensures part == CutOff(s, items[..j], revision, stamp, codec)
  {
    hide PutInstance, PutInstances, ReplicationServicePrefix, Proposals, PutCheckpoint;
    ProposalsInOrder(s, Snapshot(revision, items), stamp, codec);
    PutsInOrder(s, items[..j], revision, stamp, codec);
  }

  lemma OnlyWhatIsThere(db: Db, other: Client, items: seq<Value>, log: seq<Entry>, c: nat, s: Source,
                        codec: ReplicaCodec, decode: Decoder, now: int)
    requires PlainSource(s) && GoodLog(log, decode)
    requires Copies(db, FromSnapshot(items), s, codec) && Copies(db, other, s, codec)
    requires FollowsTo(other, c, log, decode, ServiceQuery(s), now)
    ensures PutOrTouched(items, log, c, decode, ServiceQuery(s), now)
  {
    hide Seen, PlainSource, Touched, ServiceQuery, Copies, FromSnapshot, TidyDelete, AllClean, WellPlaced, SourceStore,
      SlashFree, IsAlive;
    QueryIsPlain(s);
    var q := ServiceQuery(s);
    SourceIsPlaced(log, decode);
    forall id | SlashFree(id) && Seen(SourceStore(log), decode, q, now, id).Some?
      ensures Touched(log[c..], id, decode, q) || exists v :: v in items && v.id == id {
      if !Touched(log[c..], id, decode, q) {
        assert Right(other, SourceStore(log), decode, q, now, id);
        SeenOfService(SourceStore(log), s, decode, now, id);
        SameCopied(db, other, FromSnapshot(items), s, codec, id);
        HeldIsItem(items, id);
      }
    }
  }

  lemma {:induction false} HeldIsItem(items: seq<Value>, id: Identity)
    ensures Held(FromSnapshot(items), id).Some? ==> exists v :: v in items && v.id == id
    decreases |items|
  {
    if items != [] {
      var front, last := items[..|items| - 1], items[|items| - 1];
      assert last in items && forall v :: v in front ==> v in items;
      HeldIsItem(front, id);
    }
  }

  lemma SameCopied(db: Db, a: Client, b: Client, s: Source, codec: ReplicaCodec, id: Identity)
    requires Copies(db, a, s, codec) && Copies(db, b, s, codec)
    requires id.namespace == s.namespace && id.service == s.service && TidyName(id.instance)
    ensures Held(a, id).Some? <==> Held(b, id).Some?
  {
    hide CopyOf, TidyName;
    assert id == Identity(s.namespace, s.service, id.instance);
  }

  lemma SeenOfService(db: Db, s: Source, decode: Decoder, now: int, id: Identity)
    requires PlainSource(s) && WellPlaced(db, decode) && Seen(db, decode, ServiceQuery(s), now, id).Some?
    ensures id.namespace == s.namespace && id.service == s.service && TidyName(id.instance)
  {
    hide Shown, TextBytes, Key, Concerns, WellPlaced, TidyIdentity, TidyName;
    QueryIsPlain(s);
    KeyUnderRoot(id);
    RowIsPlaced(db, Key(id), decode);
    ShownFacts(decode(db[Key(id)]).value, ServiceQuery(s), now);
    ServiceIsExact(id, s);
    NameOfKey(id);
  }
}
