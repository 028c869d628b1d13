/** Watching the directory: a snapshot followed by events keeps a client's copy equal to the directory.

    Each event is judged by the clock at the moment it is sent.  An expiring lease produces no event, so a
    copy is compared with the directory by the instances that are still alive.  Keys with a slash inside a
    component are published as nothing; what is proved of copies is therefore about slash-free identities,
    and exactly when it extends to all is stated beside it.
 */
module Mirror {
  import opened Options
  import opened Lex
  import opened Text
  import opened Storage
  import opened Replay
  import opened RaftLog
  import opened RegistryKeys
  import opened Selector
  import opened Directory

  /** What is published of a committed entry. */
  datatype Event =
    | Upserted(revision: nat, id: Identity, value: Value)
    | Deleted(revision: nat, id: Identity)

  /** What a watch sends of an event. */
  datatype Message =
    | Upsert(revision: nat, id: Identity, instance: Value)
    | Remove(revision: nat, id: Identity)

  type Client = map<Identity, Value>

  /** The time at which the event of a revision is sent. */
  type Clock = nat -> int

  ghost predicate UpTo(clock: Clock, now: int) {
    forall revision :: 0 < clock(revision) <= now
  }

  /** Puts and deletes of instance keys; undecodable values, other keys and prefix deletes give nothing. */
  function EventOf(e: Entry, decode: Decoder): Option<Event> {
    if !e.kind.Normal? || e.command.None? then None
    else
      match e.command.value
      case Put(key, text) =>
        (match ParseKey(key)
         case None => None
         case Some(id) =>
           match decode(text)
           case None => None
           case Some(v) => Some(Upserted(e.index, id, v)))
      case Delete(key) =>
        (match ParseKey(key)
         case None => None
         case Some(id) => Some(Deleted(e.index, id)))
      case DeletePrefix(prefix) => None
      case Unknown => None
  }

  predicate Concerns(id: Identity, q: Query) {
    id.namespace == q.namespace && MatchServiceQuery(id.service, q)
  }

  /** An instance the query does not show any more is sent as removed. */
  function MessageOf(e: Event, q: Query, now: int): Option<Message>
    requires AllWellFormed(q.selector)
  {
    if !Concerns(e.id, q) then None
    else
      match e
      case Deleted(revision, id) => Some(Remove(revision, id))
      case Upserted(revision, id, value) =>
        match Shown(value, q, now)
        case Some(instance) => Some(Upsert(revision, id, instance))
        case None => Some(Remove(revision, id))
  }

  function EntryMessage(e: Entry, decode: Decoder, q: Query, now: int): Option<Message>
    requires AllWellFormed(q.selector)
  {
    match EventOf(e, decode)
    case None => None
    case Some(event) => MessageOf(event, q, now)
  }

  function Received(client: Client, message: Option<Message>): Client {
    match message
    case None => client
    case Some(Upsert(_, id, instance)) => client[id := instance]
    case Some(Remove(_, id)) => client - {id}
  }

  /** The client after the messages of a run of entries, each sent at its time. */
  function Followed(client: Client, es: seq<Entry>, decode: Decoder, q: Query, clock: Clock): Client
    requires AllWellFormed(q.selector)
  {
    if es == [] then client
    else
      var last := es[|es| - 1];
      Received(Followed(client, es[..|es| - 1], decode, q, clock), EntryMessage(last, decode, q, clock(last.index)))
  }

  function Held(client: Client, id: Identity): Option<Value> {
    if id in client then Some(client[id]) else None
  }

  function AliveAt(v: Option<Value>, now: int): Option<Value> {
    if v.Some? && !IsAlive(v.value, now) then None else v
  }

  /** The event of an entry: a normal put or delete under the key of an identity without slashes or blank
      components is published as this identity's, with the entry's index; nothing else is. */
  lemma EventExactly(e: Entry, decode: Decoder, id: Identity)
    requires '/' !in id.namespace && '/' !in id.service && '/' !in id.instance
    requires TrimSpace(id.namespace) != "" && TrimSpace(id.service) != "" && TrimSpace(id.instance) != ""
    ensures var key := "/registry/" + id.namespace + "/" + id.service + "/" + id.instance;
            match EventOf(e, decode)
            case Some(Upserted(revision, i, v)) =>
              i == id ==> e.kind.Normal? && revision == e.index && e.command.Some?
                          && e.command.value.Put? && e.command.value.key == key
                             && decode(e.command.value.value) == Some(v)
            case Some(Deleted(revision, i)) =>
              i == id ==> e.kind.Normal? && revision == e.index && e.command == Some(Delete(key))
            case None => true
    ensures var key := "/registry/" + id.namespace + "/" + id.service + "/" + id.instance;
            e.kind.Normal? && e.command.Some? ==>
              && (e.command == Some(Delete(key)) ==> EventOf(e, decode) == Some(Deleted(e.index, id)))
              && (e.command.value.Put? && e.command.value.key == key ==>
                    EventOf(e, decode) == match decode(e.command.value.value)
                                          case None => None
                                          case Some(v) => Some(Upserted(e.index, id, v)))
              && (e.command.value.DeletePrefix? ==> EventOf(e, decode) == None)
  {
    hide Key, ParseKey, TrimSpace;
    KeysSpelled(id);
    ParseKeyExactly(Key(id), id);
    if e.command.Some? && (e.command.value.Put? || e.command.value.Delete?) && ParseKey(e.command.value.key).Some? {
      ParseKeyExactly(e.command.value.key, ParseKey(e.command.value.key).value);
    }
  }

  /** What a query is sent for an event: for an instance of its namespace and services the instance as it is
      shown, or its removal when it was deleted or is not shown; for others nothing. */
  lemma MessageExactly(e: Event, q: Query, now: int)
    requires AllWellFormed(q.selector)
    ensures var service := TrimSpace(e.id.service);
            var concerns :=
              && e.id.namespace == q.namespace
              && (q.service == "" || service == q.service)
              && (q.services == [] || service in q.services)
              && (q.servicePrefixes == [] ||
                  exists i :: 0 <= i < |q.servicePrefixes| && q.servicePrefixes[i] <= service);
            MessageOf(e, q, now) ==
            if !concerns then None
            else if e.Upserted? && Shown(e.value, q, now).Some? then
              Some(Upsert(e.revision, e.id, Shown(e.value, q, now).value))
            else Some(Remove(e.revision, e.id))
  {
    hide Shown, TrimSpace;
    PrefixesMatch(TrimSpace(e.id.service), q.servicePrefixes);
  }

  lemma ClockIsUpTo(clock: Clock, now: int)
    requires forall revision :: clock(revision) > 0 && clock(revision) <= now
    ensures UpTo(clock, now)
  {
  }

  /** Registrations as the handlers write them, deletes of any key and all writes outside the local directory
      are among the commands the theorems below allow. */
  lemma WrittenIsClean(v: Value, text: string, decode: Decoder, other: string)
    requires decode(text) == Some(v)
    requires v.id.namespace != "" && v.id.service != "" && v.id.instance != ""
    requires TrimSpace(v.id.namespace) == v.id.namespace && TrimSpace(v.id.service) == v.id.service
             && TrimSpace(v.id.instance) == v.id.instance
    requires var key := "/registry/" + v.id.namespace + "/" + v.id.service + "/" + v.id.instance;
             forall c :: c in key ==> c < '\U{FF}'
    ensures Clean(Put("/registry/" + v.id.namespace + "/" + v.id.service + "/" + v.id.instance, text), decode)
    ensures Clean(Delete(other), decode) && Clean(Unknown, decode)
    ensures !("/registry/" <= other) ==> Clean(Put(other, text), decode)
  {
    hide TrimSpace;
    KeysSpelled(v.id);
  }

  /** What the directory shows of one instance. */
  function Seen(db: Db, decode: Decoder, q: Query, now: int, id: Identity): Option<Value>
    requires AllWellFormed(q.selector)
  {
    if Key(id) !in db then None
    else
      match decode(db[Key(id)])
      case None => None
      case Some(v) => if v.id == id then Shown(v, q, now) else None
  }

  /** The living part of a copy is what the directory shows of one instance. */
  predicate Right(client: Client, db: Db, decode: Decoder, q: Query, now: int, id: Identity)
    requires AllWellFormed(q.selector)
  {
    AliveAt(Held(client, id), now) == Seen(db, decode, q, now, id)
  }

  ghost predicate Mirrors(client: Client, db: Db, decode: Decoder, q: Query, now: int)
    requires AllWellFormed(q.selector)
  {
    forall id :: SlashFree(id) ==> Right(client, db, decode, q, now, id)
  }

  ghost predicate MirrorsAll(client: Client, db: Db, decode: Decoder, q: Query, now: int)
    requires AllWellFormed(q.selector)
  {
    forall id :: Right(client, db, decode, q, now, id)
  }

  /** Commands as registration, deregistration, cleanup and replication issue them: registered rows under
      the local root, and no prefix delete there. */
  predicate Clean(cmd: Command, decode: Decoder) {
    match cmd
    case Put(key, text) => ROOT <= key ==> WellPlacedRow(key, text, decode)
    case Delete(key) => true
    case DeletePrefix(prefix) => !(prefix <= ROOT) && !(ROOT <= prefix)
    case Unknown => true
  }

  ghost predicate AllClean(cmds: seq<Command>, decode: Decoder) {
    forall cmd :: cmd in cmds ==> Clean(cmd, decode)
  }

  // Time.

  /** What is shown later is what is still alive of what is shown now. */
  lemma ShownLater(v: Value, q: Query, t: int, now: int)
    requires AllWellFormed(q.selector) && 0 < t <= now
    ensures Shown(v, q, now) == AliveAt(Shown(v, q, t), now)
  {
    hide MatchQuery, FilterEndpoints;
  }

  lemma SeenLater(db: Db, decode: Decoder, q: Query, t: int, now: int, id: Identity)
    requires AllWellFormed(q.selector) && 0 < t <= now
    ensures Seen(db, decode, q, now, id) == AliveAt(Seen(db, decode, q, t, id), now)
  {
    hide Shown, Key;
    if Key(id) in db && decode(db[Key(id)]).Some? {
      ShownLater(decode(db[Key(id)]).value, q, t, now);
    }
  }

  /** A copy that was right stays right as time passes. */
  lemma RightLater(client: Client, db: Db, decode: Decoder, q: Query, t: int, now: int, id: Identity)
    requires AllWellFormed(q.selector) && 0 < t <= now && Right(client, db, decode, q, t, id)
    ensures Right(client, db, decode, q, now, id)
  {
    hide Seen;
    SeenLater(db, decode, q, t, now, id);
  }

  lemma MirrorsLater(client: Client, db: Db, decode: Decoder, q: Query, t: int, now: int)
    requires AllWellFormed(q.selector) && 0 < t <= now && Mirrors(client, db, decode, q, t)
    ensures Mirrors(client, db, decode, q, now)
  {
    hide Right;
    forall id | SlashFree(id) ensures Right(client, db, decode, q, now, id) {
      RightLater(client, db, decode, q, t, now, id);
    }
  }

  // One command.

  lemma KeyUnderRoot(id: Identity)
    ensures ROOT <= Key(id)
  {
    RootRest(ROOT, Slashed(id.namespace, Slashed(id.service, id.instance)));
  }

  lemma RowIsPlaced(db: Db, key: string, decode: Decoder)
    requires WellPlaced(db, decode) && key in db && ROOT <= key
    ensures WellPlacedRow(key, db[key], decode)
  {
  }

  /** A slash-free identity's row, when there is one, is its own. */
  lemma OwnRow(id: Identity, text: string, decode: Decoder)
    requires WellPlacedRow(Key(id), text, decode) && SlashFree(id)
    ensures decode(text).Some? && decode(text).value.id == id && TidyIdentity(id) && ParseKey(Key(id)) == Some(id)
  {
    hide Key, ParseKey, TextBytes, Tidy;
    SlashFreeKeyIsOwn(decode(text).value.id, id);
    BuiltKeyParses(id);
  }

  lemma OwnRowInStore(db: Db, decode: Decoder, id: Identity)
    requires WellPlaced(db, decode) && SlashFree(id) && Key(id) in db
    ensures ParseKey(Key(id)) == Some(id) && decode(db[Key(id)]).Some? && decode(db[Key(id)]).value.id == id
  {
    hide Key, ParseKey, WellPlaced;
    KeyUnderRoot(id);
    RowIsPlaced(db, Key(id), decode);
    OwnRow(id, db[Key(id)], decode);
  }

  lemma SeenMatches(db: Db, decode: Decoder, q: Query, now: int, id: Identity)
    requires AllWellFormed(q.selector) && q.namespace != ""
    ensures Seen(db, decode, q, now, id).Some? ==> Concerns(id, q)
  {
    hide MatchServiceQuery, FilterEndpoints, IsAlive, Key;
  }

  lemma CleanKeepsPlaced(db: Db, cmd: Command, decode: Decoder)
    requires WellPlaced(db, decode) && Clean(cmd, decode)
    ensures WellPlaced(ApplyCommand(db, cmd), decode)
  {
    hide WellPlacedRow, InPrefixRange;
  }

  /** One command: the message sent for it, at any time up to now, does to the client what the command
      does to the directory. */
  lemma MirrorStep(db: Db, client: Client, e: Entry, cmd: Command, decode: Decoder, q: Query, t: int, now: int)
    requires WellPlaced(db, decode) && Clean(cmd, decode) && AllWellFormed(q.selector) && q.namespace != ""
    requires e.kind.Normal? && e.command == Some(cmd) && 0 < t <= now
    requires Mirrors(client, db, decode, q, now)
    ensures Mirrors(Received(client, EntryMessage(e, decode, q, t)), ApplyCommand(db, cmd), decode, q, now)
  {
    hide Right, SlashFree, WellPlaced, EntryMessage, Received, ApplyCommand, Clean;
    forall id | SlashFree(id)
      ensures Right(Received(client, EntryMessage(e, decode, q, t)), ApplyCommand(db, cmd), decode, q, now, id) {
      StepIsRight(db, client, e, cmd, decode, q, t, now, id);
    }
  }

  lemma StepIsRight(db: Db, client: Client, e: Entry, cmd: Command, decode: Decoder, q: Query, t: int, now: int,
                    id: Identity)
    requires WellPlaced(db, decode) && Clean(cmd, decode) && AllWellFormed(q.selector) && q.namespace != ""
    requires e.kind.Normal? && e.command == Some(cmd) && 0 < t <= now && SlashFree(id)
    requires Right(client, db, decode, q, now, id)
    ensures Right(Received(client, EntryMessage(e, decode, q, t)), ApplyCommand(db, cmd), decode, q, now, id)
  {
    hide Right, SlashFree, WellPlaced, EntryMessage, Received;
    match cmd
    case Put(key, text) => MirrorPut(db, client, e, key, text, decode, q, t, now, id);
    case Delete(key) => MirrorDelete(db, client, e, key, decode, q, t, now, id);
    case DeletePrefix(prefix) => MirrorPrefix(db, client, e, prefix, decode, q, t, now, id);
    case Unknown => MirrorUnknown(db, client, e, decode, q, t, now, id);
  }

  lemma MirrorPut(db: Db, client: Client, e: Entry, key: string, text: string, decode: Decoder, q: Query, t: int,
                  now: int, id: Identity)
    requires WellPlaced(db, decode) && Clean(Put(key, text), decode) && AllWellFormed(q.selector) && q.namespace != ""
    requires e.kind.Normal? && e.command == Some(Put(key, text)) && 0 < t <= now && SlashFree(id)
    requires Right(client, db, decode, q, now, id)
    ensures Right(Received(client, EntryMessage(e, decode, q, t)), db[key := text], decode, q, now, id)
  {
    hide Shown, Concerns, Key, WellPlaced, ParseKey, WellPlacedRow, SlashFree, IsAlive;
    KeyUnderRoot(id);
    SeenMatches(db[key := text], decode, q, now, id);
    if key == Key(id) {
      OwnRow(id, text, decode);
      SeenMatches(db, decode, q, now, id);
      ShownLater(decode(text).value, q, t, now);
      ShownIsAlive(decode(text).value, q, t);
    } else {
      OtherKeyIsOther(key, id);
    }
  }

  lemma ShownIsAlive(v: Value, q: Query, now: int)
    requires AllWellFormed(q.selector)
    ensures Shown(v, q, now).Some? ==> Shown(v, q, now).value.id == v.id
  {
    hide MatchQuery, IsAlive, FilterEndpoints;
  }

  /** A key that is not an identity's never parses to it. */
  lemma OtherKeyIsOther(key: string, id: Identity)
    requires key != Key(id)
    ensures ParseKey(key) != Some(id)
  {
    hide Key, ParseKey;
    ParseKeyExactly(key, id);
  }

  lemma MirrorDelete(db: Db, client: Client, e: Entry, key: string, decode: Decoder, q: Query, t: int, now: int,
                     id: Identity)
    requires WellPlaced(db, decode) && AllWellFormed(q.selector) && q.namespace != ""
    requires e.kind.Normal? && e.command == Some(Delete(key)) && SlashFree(id)
    requires Right(client, db, decode, q, now, id)
    ensures Right(Received(client, EntryMessage(e, decode, q, t)), db - {key}, decode, q, now, id)
  {
    hide Shown, Concerns, Key, WellPlaced, ParseKey, SlashFree, IsAlive;
    SeenMatches(db, decode, q, now, id);
    if key == Key(id) {
      if key in db {
        OwnRowInStore(db, decode, id);
      }
    } else {
      OtherKeyIsOther(key, id);
    }
  }

  lemma MirrorPrefix(db: Db, client: Client, e: Entry, prefix: string, decode: Decoder, q: Query, t: int, now: int,
                     id: Identity)
    requires Clean(DeletePrefix(prefix), decode) && AllWellFormed(q.selector)
    requires e.kind.Normal? && e.command == Some(DeletePrefix(prefix)) && Right(client, db, decode, q, now, id)
    ensures Right(Received(client, EntryMessage(e, decode, q, t)), ApplyCommand(db, DeletePrefix(prefix)), decode, q,
                  now, id)
  {
    hide Shown, Key, InPrefixRange;
    KeyUnderRoot(id);
    NotInRange(prefix, Key(id));
    Comparable(prefix, ROOT, Key(id));
  }

  lemma MirrorUnknown(db: Db, client: Client, e: Entry, decode: Decoder, q: Query, t: int, now: int, id: Identity)
    requires AllWellFormed(q.selector) && e.command == Some(Unknown) && Right(client, db, decode, q, now, id)
    ensures Right(Received(client, EntryMessage(e, decode, q, t)), ApplyCommand(db, Unknown), decode, q, now, id)
  {
  }

  lemma Comparable(a: string, b: string, key: string)
    ensures a <= key && b <= key ==> a <= b || b <= a
  {
  }

  // Runs of entries.

  lemma {:induction false} FoldKeepsPlaced(db: Db, cmds: seq<Command>, decode: Decoder)
    requires WellPlaced(db, decode) && AllClean(cmds, decode)
    ensures WellPlaced(Fold(db, cmds), decode)
    decreases |cmds|
  {
    if cmds != [] {
      FoldKeepsPlaced(db, cmds[..|cmds| - 1], decode);
      CleanKeepsPlaced(Fold(db, cmds[..|cmds| - 1]), cmds[|cmds| - 1], decode);
    }
  }

  /** Following the messages of a run of entries is applying its commands to the directory. */
  lemma {:induction false} MirrorFold(db: Db, client: Client, es: seq<Entry>, decode: Decoder, q: Query, clock: Clock,
                                      now: int)
    requires WellPlaced(db, decode) && AllClean(Commands(es), decode)
    requires AllWellFormed(q.selector) && q.namespace != "" && UpTo(clock, now)
    requires Mirrors(client, db, decode, q, now)
    ensures Mirrors(Followed(client, es, decode, q, clock), Fold(db, Commands(es)), decode, q, now)
    decreases |es|
  {
    hide Mirrors, WellPlaced, Clean, EntryMessage;
    if es != [] {
      var front, last := es[..|es| - 1], es[|es| - 1];
      var cmds := Commands(es);
      assert cmds[..|es| - 1] == Commands(front) && cmds[|es| - 1] in cmds;
      assert forall cmd :: cmd in Commands(front) ==> cmd in cmds;
      MirrorFold(db, client, front, decode, q, clock, now);
      FoldKeepsPlaced(db, Commands(front), decode);
      var before := Fold(db, Commands(front));
      if last.kind.Normal? && last.command.Some? {
        MirrorStep(before, Followed(client, front, decode, q, clock), last, last.command.value, decode, q,
                   clock(last.index), now);
      } else {
        NoMessage(last, decode, q, clock(last.index));
      }
    }
  }

  lemma NoMessage(e: Entry, decode: Decoder, q: Query, now: int)
    requires AllWellFormed(q.selector) && !(e.kind.Normal? && e.command.Some?)
    ensures EntryMessage(e, decode, q, now) == None
  {
  }

  lemma CleanParts(a: seq<Entry>, b: seq<Entry>, decode: Decoder)
    requires AllClean(Commands(a + b), decode)
    ensures AllClean(Commands(a), decode) && AllClean(Commands(b), decode)
  {
    CommandsConcat(a, b);
    forall cmd | cmd in Commands(a) || cmd in Commands(b) ensures cmd in Commands(a + b) { }
  }

  /** A client that copied the directory at some position `read` and then follows the events after an
      earlier or equal position `from` - so that some are delivered again - is right at every later one. */
  lemma MirrorTheorem(log: seq<Entry>, from: nat, read: nat, upto: nat, client: Client, decode: Decoder, q: Query,
                      clock: Clock, now: int)
    requires from <= read <= upto <= |log| && AllClean(Commands(log), decode)
    requires AllWellFormed(q.selector) && q.namespace != "" && UpTo(clock, now)
    requires Mirrors(client, Fold(map[], Commands(log[..read])), decode, q, now)
    ensures Mirrors(Followed(client, log[from..upto], decode, q, clock), Fold(map[], Commands(log[..upto])), decode, q,
                    now)
  {
    hide Mirrors, WellPlaced, AllClean, UpTo;
    var xs, ys, zs := log[..from], log[from..read], log[read..upto];
    Slices(log, from, read, upto);
    CleanParts(xs + ys, log[read..], decode);
    CleanParts(xs, log[from..], decode);
    CleanParts(ys + zs, log[upto..], decode);
    var store := Fold(map[], Commands(xs + ys));
    NothingPlaced(decode);
    FoldKeepsPlaced(map[], Commands(xs + ys), decode);
    MirrorFold(store, client, ys + zs, decode, q, clock, now);
    CommandsConcat(xs, ys);
    CommandsConcat(ys, zs);
    CommandsConcat(xs + ys, zs);
    ReplayIsHarmless(map[], Commands(xs), Commands(ys));
    FoldOfConcat(store, Commands(ys), Commands(zs));
    FoldOfConcat(map[], Commands(xs + ys), Commands(zs));
  }

  lemma Slices(log: seq<Entry>, i: nat, j: nat, k: nat)
    requires i <= j <= k <= |log|
    ensures log[..i] + log[i..j] == log[..j] && log[..i] + log[i..j] + log[j..k] == log[..k]
    ensures log[i..j] + log[j..k] == log[i..k]
    ensures log[..i] + log[i..j] + log[j..] == log && log[..i] + log[i..] == log
    ensures log[i..j] + log[j..k] + log[k..] == log[i..]
  {
  }

  lemma NothingPlaced(decode: Decoder)
    ensures WellPlaced(map[], decode)
  {
  }

  // What single identities go through.

  /** An entry's step, whether or not it is a command. */
  lemma EntryIsRight(db: Db, client: Client, e: Entry, decode: Decoder, q: Query, t: int, now: int, id: Identity)
    requires WellPlaced(db, decode) && Clean(CommandOf(e), decode) && AllWellFormed(q.selector) && q.namespace != ""
    requires 0 < t <= now && SlashFree(id) && Right(client, db, decode, q, now, id)
    ensures Right(Received(client, EntryMessage(e, decode, q, t)), ApplyCommand(db, CommandOf(e)), decode, q, now, id)
  {
    hide Right, SlashFree, WellPlaced, EntryMessage, Clean;
    if e.kind.Normal? && e.command.Some? {
      StepIsRight(db, client, e, e.command.value, decode, q, t, now, id);
    } else {
      NoMessage(e, decode, q, t);
    }
  }

  /** A client that holds just what the directory shows of one identity. */
  function Only(id: Identity, v: Option<Value>): Client {
    match v
    case None => map[]
    case Some(value) => map[id := value]
  }

  lemma OnlyIsRight(db: Db, decode: Decoder, q: Query, now: int, id: Identity)
    requires AllWellFormed(q.selector)
    ensures Right(Only(id, Seen(db, decode, q, now, id)), db, decode, q, now, id)
    ensures Held(Only(id, Seen(db, decode, q, now, id)), id) == Seen(db, decode, q, now, id)
  {
    hide Seen;
    SeenIsAlive(db, decode, q, now, id);
  }

  /** A message about an identity settles it, whatever the client held. */
  lemma AboutIsRight(db: Db, client: Client, e: Entry, decode: Decoder, q: Query, t: int, now: int, id: Identity)
    requires WellPlaced(db, decode) && Clean(CommandOf(e), decode) && AllWellFormed(q.selector) && q.namespace != ""
    requires 0 < t <= now && SlashFree(id) && About(e, decode, q) == Some(id)
    ensures Right(Received(client, EntryMessage(e, decode, q, t)), ApplyCommand(db, CommandOf(e)), decode, q, now, id)
  {
    hide SlashFree, WellPlaced, EntryMessage, Clean, About, Seen, ApplyCommand;
    var other := Only(id, Seen(db, decode, q, now, id));
    OnlyIsRight(db, decode, q, now, id);
    EntryIsRight(db, other, e, decode, q, t, now, id);
    MessageIsAbout(e, decode, q, t);
  }

  lemma NotAboutIsSame(db: Db, e: Entry, decode: Decoder, q: Query, now: int, id: Identity)
    requires WellPlaced(db, decode) && Clean(CommandOf(e), decode) && AllWellFormed(q.selector) && q.namespace != ""
    requires 0 < now && SlashFree(id) && About(e, decode, q) != Some(id)
    ensures Seen(ApplyCommand(db, CommandOf(e)), decode, q, now, id) == Seen(db, decode, q, now, id)
  {
    hide SlashFree, WellPlaced, EntryMessage, Clean, About, Seen, ApplyCommand;
    var client := Only(id, Seen(db, decode, q, now, id));
    OnlyIsRight(db, decode, q, now, id);
    EntryIsRight(db, client, e, decode, q, now, now, id);
    MessageIsAbout(e, decode, q, now);
    SeenIsAlive(db, decode, q, now, id);
  }

  /** Some entry of a run sends a message about an identity. */
  ghost predicate Touched(es: seq<Entry>, id: Identity, decode: Decoder, q: Query) {
    exists e :: e in es && About(e, decode, q) == Some(id)
  }

  lemma TouchedSnoc(front: seq<Entry>, last: Entry, id: Identity, decode: Decoder, q: Query)
    ensures Touched(front + [last], id, decode, q) <==>
              Touched(front, id, decode, q) || About(last, decode, q) == Some(id)
  {
    hide About;
    assert last in front + [last] && forall e :: e in front ==> e in front + [last];
  }

  lemma TouchedConcat(a: seq<Entry>, b: seq<Entry>, id: Identity, decode: Decoder, q: Query)
    ensures Touched(a + b, id, decode, q) <==> Touched(a, id, decode, q) || Touched(b, id, decode, q)
  {
    hide About;
    assert forall e :: e in a || e in b ==> e in a + b;
  }

  lemma SameLength(es: seq<Entry>)
    ensures |Commands(es)| == |es|
  {
  }

  lemma LastIsClean(es: seq<Entry>, decode: Decoder)
    requires es != [] && AllClean(Commands(es), decode)
    ensures AllClean(Commands(es[..|es| - 1]), decode) && Clean(CommandOf(es[|es| - 1]), decode)
    ensures Commands(es)[..|es| - 1] == Commands(es[..|es| - 1]) && Commands(es)[|es| - 1] == CommandOf(es[|es| - 1])
  {
    hide Clean;
    assert es == es[..|es| - 1] + [es[|es| - 1]];
    CleanParts(es[..|es| - 1], [es[|es| - 1]], decode);
    assert Commands([es[|es| - 1]])[0] in Commands([es[|es| - 1]]);
  }

  /** An identity no entry is about is shown unchanged. */
  lemma {:induction false} UntouchedIsSame(db: Db, es: seq<Entry>, decode: Decoder, q: Query, now: int, id: Identity)
    requires WellPlaced(db, decode) && AllClean(Commands(es), decode) && AllWellFormed(q.selector) && q.namespace != ""
    requires 0 < now && SlashFree(id) && !Touched(es, id, decode, q)
    ensures Seen(Fold(db, Commands(es)), decode, q, now, id) == Seen(db, decode, q, now, id)
    decreases |es|
  {
    hide WellPlaced, Clean, AllClean, Seen, SlashFree, Touched, ApplyCommand, AllWellFormed, CommandOf, Commands;
    SameLength(es);
    if es != [] {
      var front, last := es[..|es| - 1], es[|es| - 1];
      assert es == front + [last];
      LastIsClean(es, decode);
      TouchedSnoc(front, last, id, decode, q);
      UntouchedIsSame(db, front, decode, q, now, id);
      FoldKeepsPlaced(db, Commands(front), decode);
      NotAboutIsSame(Fold(db, Commands(front)), last, decode, q, now, id);
    }
  }

  lemma {:induction false} UntouchedIsHeld(client: Client, es: seq<Entry>, decode: Decoder, q: Query, clock: Clock,
                                           id: Identity)
    requires AllWellFormed(q.selector) && !Touched(es, id, decode, q)
    ensures Held(Followed(client, es, decode, q, clock), id) == Held(client, id)
    decreases |es|
  {
    hide EntryMessage, About, Touched;
    if es != [] {
      var front, last := es[..|es| - 1], es[|es| - 1];
      assert es == front + [last];
      TouchedSnoc(front, last, id, decode, q);
      UntouchedIsHeld(client, front, decode, q, clock, id);
      MessageIsAbout(last, decode, q, clock(last.index));
    }
  }

  /** Following a run makes an identity right that was right before or that some entry was about. */
  lemma {:induction false} FollowedIsRight(db: Db, client: Client, es: seq<Entry>, decode: Decoder, q: Query,
                                           clock: Clock, now: int, id: Identity)
    requires WellPlaced(db, decode) && AllClean(Commands(es), decode) && AllWellFormed(q.selector) && q.namespace != ""
    requires UpTo(clock, now) && SlashFree(id)
    requires Touched(es, id, decode, q) || Right(client, db, decode, q, now, id)
    ensures Right(Followed(client, es, decode, q, clock), Fold(db, Commands(es)), decode, q, now, id)
    decreases |es|
  {
    hide WellPlaced, Clean, AllClean, SlashFree, Touched, Right, EntryMessage, About, ApplyCommand, AllWellFormed,
      CommandOf, Commands;
    if es == [] {
      NeverTouched(id, decode, q);
      SameLength(es);
    } else {
      var front, last := es[..|es| - 1], es[|es| - 1];
      assert es == front + [last];
      LastIsClean(es, decode);
      TouchedSnoc(front, last, id, decode, q);
      FoldKeepsPlaced(db, Commands(front), decode);
      SameLength(es);
      var store, copy := Fold(db, Commands(front)), Followed(client, front, decode, q, clock);
      if About(last, decode, q) == Some(id) {
        AboutIsRight(store, copy, last, decode, q, clock(last.index), now, id);
      } else {
        FollowedIsRight(db, client, front, decode, q, clock, now, id);
        EntryIsRight(store, copy, last, decode, q, clock(last.index), now, id);
      }
    }
  }

  lemma NeverTouched(id: Identity, decode: Decoder, q: Query)
    ensures !Touched([], id, decode, q)
  {
  }

  // Identities with slashes.

  /** The identity a message for an entry would be about; it does not depend on the time. */
  function About(e: Entry, decode: Decoder, q: Query): Option<Identity> {
    match EventOf(e, decode)
    case None => None
    case Some(event) => if Concerns(event.id, q) then Some(event.id) else None
  }

  lemma MessageIsAbout(e: Entry, decode: Decoder, q: Query, t: int)
    requires AllWellFormed(q.selector)
    ensures var message := EntryMessage(e, decode, q, t);
            (message.Some? <==> About(e, decode, q).Some?)
            && (message.Some? ==> About(e, decode, q) == Some(message.value.id) && message.value.revision == e.index)
    ensures About(e, decode, q).Some? ==> SlashFree(About(e, decode, q).value) && Concerns(About(e, decode, q).value, q)
  {
    hide Shown, Concerns, EventOf, SlashFree;
    EventIsSlashFree(e, decode);
  }

  lemma EventIsSlashFree(e: Entry, decode: Decoder)
    ensures var event := EventOf(e, decode);
            event.Some? ==> SlashFree(event.value.id) && event.value.revision == e.index
  {
    hide SlashFree, ParseKey;
    if e.command.Some? && (e.command.value.Put? || e.command.value.Delete?) {
      ParsedIsSlashFree(e.command.value.key);
    }
  }

  lemma ParsedIsSlashFree(key: string)
    ensures ParseKey(key).Some? ==> SlashFree(ParseKey(key).value) && Key(ParseKey(key).value) == key
  {
    hide Key, ParseKey;
    if ParseKey(key).Some? {
      ParseKeyExactly(key, ParseKey(key).value);
    }
  }

  /** No run of messages ever touches an identity with a slash. */
  lemma {:induction false} SlashedIsNeverSent(client: Client, es: seq<Entry>, decode: Decoder, q: Query, clock: Clock,
                                              id: Identity)
    requires AllWellFormed(q.selector) && !SlashFree(id)
    ensures Held(Followed(client, es, decode, q, clock), id) == Held(client, id)
    decreases |es|
  {
    hide EntryMessage, SlashFree, About;
    if es != [] {
      var last := es[|es| - 1];
      SlashedIsNeverSent(client, es[..|es| - 1], decode, q, clock, id);
      MessageIsAbout(last, decode, q, clock(last.index));
    }
  }

  /** The copy of everything, slashes included, stays right exactly when the directory shows the same of
      every identity with a slash as it did when it was copied. */
  lemma MirrorTheoremExactly(log: seq<Entry>, from: nat, read: nat, upto: nat, client: Client, decode: Decoder,
                             q: Query, clock: Clock, now: int)
    requires from <= read <= upto <= |log| && AllClean(Commands(log), decode)
    requires AllWellFormed(q.selector) && q.namespace != "" && UpTo(clock, now)
    requires MirrorsAll(client, Fold(map[], Commands(log[..read])), decode, q, now)
    ensures MirrorsAll(Followed(client, log[from..upto], decode, q, clock), Fold(map[], Commands(log[..upto])), decode,
                       q, now)
       <==> forall id :: !SlashFree(id) ==>
              Seen(Fold(map[], Commands(log[..upto])), decode, q, now, id)
              == Seen(Fold(map[], Commands(log[..read])), decode, q, now, id)
  {
    hide Seen, AliveAt, Held, Fold, Followed, SlashFree, AllClean, UpTo;
    var before, after := Fold(map[], Commands(log[..read])), Fold(map[], Commands(log[..upto]));
    var copy := Followed(client, log[from..upto], decode, q, clock);
    assert Mirrors(client, before, decode, q, now);
    MirrorTheorem(log, from, read, upto, client, decode, q, clock, now);
    forall id | !SlashFree(id)
      ensures Right(copy, after, decode, q, now, id)
         <==> Seen(after, decode, q, now, id) == Seen(before, decode, q, now, id) {
      assert Right(client, before, decode, q, now, id);
      SlashedIsNeverSent(client, log[from..upto], decode, q, clock, id);
    }
  }

  /** A registration: the copy of everything stays right exactly when no component holds a slash or what the
      directory shows does not change. */
  lemma PutIsMirroredExactly(db: Db, client: Client, e: Entry, v: Value, text: string, decode: Decoder, q: Query,
                             t: int, now: int)
    requires WellPlaced(db, decode) && decode(text) == Some(v) && TidyIdentity(v.id) && TextBytes(Key(v.id))
    requires AllWellFormed(q.selector) && q.namespace != "" && 0 < t <= now
    requires e.kind.Normal? && e.command == Some(Put(Key(v.id), text))
    requires MirrorsAll(client, db, decode, q, now)
    ensures MirrorsAll(Received(client, EntryMessage(e, decode, q, t)), db[Key(v.id) := text], decode, q, now)
       <==> (SLASH !in v.id.namespace && SLASH !in v.id.service && SLASH !in v.id.instance)
            || forall id :: Seen(db[Key(v.id) := text], decode, q, now, id) == Seen(db, decode, q, now, id)
  {
    hide Right, EntryMessage, Received, Key, WellPlaced, TidyIdentity, TextBytes, Seen, SlashFree;
    var after, copy := db[Key(v.id) := text], Received(client, EntryMessage(e, decode, q, t));
    SlashFreeIs(v.id);
    if SlashFree(v.id) {
      PlainPutIsMirrored(db, client, e, v, text, decode, q, t, now);
    } else {
      SlashedPutIsSilent(e, v.id, text, decode, q, t);
      SilentExactly(client, db, after, decode, q, now);
    }
  }

  lemma SlashFreeIs(id: Identity)
    ensures SlashFree(id) <==> SLASH !in id.namespace && SLASH !in id.service && SLASH !in id.instance
  {
  }

  lemma SilentExactly(client: Client, db: Db, after: Db, decode: Decoder, q: Query, now: int)
    requires AllWellFormed(q.selector) && MirrorsAll(client, db, decode, q, now)
    ensures Received(client, None) == client
    ensures MirrorsAll(client, after, decode, q, now)
       <==> forall id :: Seen(after, decode, q, now, id) == Seen(db, decode, q, now, id)
  {
    hide Seen, AliveAt, Held;
    forall id ensures Right(client, after, decode, q, now, id)
                 <==> Seen(after, decode, q, now, id) == Seen(db, decode, q, now, id) {
      assert Right(client, db, decode, q, now, id);
    }
  }

  lemma PlainPutIsMirrored(db: Db, client: Client, e: Entry, v: Value, text: string, decode: Decoder, q: Query, t: int,
                           now: int)
    requires WellPlaced(db, decode) && decode(text) == Some(v) && TidyIdentity(v.id) && TextBytes(Key(v.id))
             && SlashFree(v.id)
    requires AllWellFormed(q.selector) && q.namespace != "" && 0 < t <= now
    requires e.kind.Normal? && e.command == Some(Put(Key(v.id), text))
    requires MirrorsAll(client, db, decode, q, now)
    ensures MirrorsAll(Received(client, EntryMessage(e, decode, q, t)), db[Key(v.id) := text], decode, q, now)
  {
    hide Seen, AliveAt, EntryMessage, Key, WellPlaced, TidyIdentity, TextBytes, SlashFree, About;
    var after, copy := db[Key(v.id) := text], Received(client, EntryMessage(e, decode, q, t));
    assert Mirrors(client, db, decode, q, now);
    MirrorStep(db, client, e, Put(Key(v.id), text), decode, q, t, now);
    MessageIsAbout(e, decode, q, t);
    forall id ensures Right(copy, after, decode, q, now, id) {
      assert Right(client, db, decode, q, now, id);
      if !SlashFree(id) {
        OtherIsUnseen(db, v.id, text, decode, q, now, id);
      }
    }
  }

  lemma OtherIsUnseen(db: Db, own: Identity, text: string, decode: Decoder, q: Query, now: int, id: Identity)
    requires AllWellFormed(q.selector) && SlashFree(own) && !SlashFree(id)
    ensures Seen(db[Key(own) := text], decode, q, now, id) == Seen(db, decode, q, now, id)
  {
    hide Key, SlashFree, Shown;
    if Key(id) == Key(own) {
      SlashFreeKeyIsOwn(id, own);
    }
  }

  lemma SlashedPutIsSilent(e: Entry, id: Identity, text: string, decode: Decoder, q: Query, t: int)
    requires AllWellFormed(q.selector) && TidyIdentity(id) && !SlashFree(id) && e.command == Some(Put(Key(id), text))
    ensures EntryMessage(e, decode, q, t) == None
  {
    hide Key, ParseKey;
    BuiltKeyParses(id);
  }

  /** For instance: an instance "a/b" that registers newly and matches is sent to nobody, and every copy is wrong. */
  lemma SlashedInstanceIsMissed(db: Db, client: Client, e: Entry, v: Value, text: string, decode: Decoder, q: Query,
                                now: int)
    requires decode(text) == Some(v) && TidyIdentity(v.id) && v.id.instance == "a/b"
    requires AllWellFormed(q.selector) && e.kind.Normal? && e.command == Some(Put(Key(v.id), text))
    requires MirrorsAll(client, db, decode, q, now) && Seen(db, decode, q, now, v.id) == None && Shown(v, q, now).Some?
    ensures EntryMessage(e, decode, q, now) == None
    ensures !MirrorsAll(Received(client, EntryMessage(e, decode, q, now)), db[Key(v.id) := text], decode, q, now)
  {
    hide Key, Shown, AliveAt;
    assert v.id.instance[1] == SLASH;
    SlashedPutIsSilent(e, v.id, text, decode, q, now);
    assert Right(client, db, decode, q, now, v.id);
    assert !Right(client, db[Key(v.id) := text], decode, q, now, v.id);
  }

  // The snapshot.

  /** A client that starts from a snapshot's instances. */
  function FromSnapshot(items: seq<Value>): Client {
    if items == [] then map[] else FromSnapshot(items[..|items| - 1])[items[|items| - 1].id := items[|items| - 1]]
  }

  lemma {:induction false} FromMoreItems(items: seq<Value>, more: seq<Value>)
    requires |more| <= 1
    ensures FromSnapshot(items + more)
            == if more == [] then FromSnapshot(items) else FromSnapshot(items)[more[0].id := more[0]]
  {
    if more == [] {
      assert items + more == items;
    } else {
      assert (items + more)[..|items|] == items;
    }
  }

  lemma RowIsSeen(db: Db, decode: Decoder, q: Query, now: int, key: string)
    requires AllWellFormed(q.selector) && WellPlaced(db, decode) && key in db && ROOT <= key
    ensures var shown := ShownRow(KV(key, db[key]), decode, q, now);
            |shown| <= 1
              && (shown != [] ==> Key(shown[0].id) == key && Seen(db, decode, q, now, shown[0].id) == Some(shown[0]))
    ensures ShownRow(KV(key, db[key]), decode, q, now) == [] ==>
              forall id :: Key(id) == key ==> Seen(db, decode, q, now, id) == None
    ensures forall id :: Key(id) == key && Seen(db, decode, q, now, id).Some? ==>
              ShownRow(KV(key, db[key]), decode, q, now) == [Seen(db, decode, q, now, id).value]
              && Seen(db, decode, q, now, id).value.id == id
  {
    hide MatchQuery, IsAlive, FilterEndpoints, Key, TextBytes, Tidy;
    assert WellPlacedRow(key, db[key], decode);
  }

  lemma {:induction false} SnapshotOfKeys(db: Db, keys: seq<string>, decode: Decoder, q: Query, now: int, id: Identity)
    requires AllWellFormed(q.selector) && WellPlaced(db, decode) && forall k :: k in keys ==> k in db && ROOT <= k
    ensures Held(FromSnapshot(ShownRows(Rows(db, keys), decode, q, now)), id)
         == if Key(id) in keys then Seen(db, decode, q, now, id) else None
    decreases |keys|
  {
    hide Key, ShownRows, ShownRow, Seen, WellPlaced, Rows;
    if keys == [] {
      NoRows(db, decode, q, now);
      assert keys == [];
    } else {
      var front, last := keys[..|keys| - 1], keys[|keys| - 1];
      assert last in keys && front + [last] == keys && forall k :: k in front ==> k in keys;
      SnapshotOfKeys(db, front, decode, q, now, id);
      ShownOfSnoc(db, front, last, decode, q, now);
      RowIsSeen(db, decode, q, now, last);
      FromMoreItems(ShownRows(Rows(db, front), decode, q, now), ShownRow(KV(last, db[last]), decode, q, now));
    }
  }

  lemma NoRows(db: Db, decode: Decoder, q: Query, now: int)
    requires AllWellFormed(q.selector)
    ensures ShownRows(Rows(db, []), decode, q, now) == []
  {
  }

  /** What a snapshot without a limit holds of each identity, with or without slashes. */
  lemma SnapshotHolds(db: Db, decode: Decoder, q: Query, now: int, id: Identity)
    requires AllWellFormed(q.selector) && WellPlaced(db, decode)
    requires q.namespace != "" && Trimmed(q.namespace) && q.limit <= 0
    ensures Held(FromSnapshot(Take(ShownRows(PrefixRows(db, ScanPrefix(q)), decode, q, now), q.limit)), id)
         == Seen(db, decode, q, now, id)
  {
    hide ScanPrefix, ShownRows, FromSnapshot, Seen, Key, NamespacePrefix, WellPlaced, ServicePrefix, Scannable;
    PlacedIsScannable(db, decode);
    NarrowedScanIsSame(db, decode, q, now);
    var prefix := NamespacePrefix(q.namespace);
    var keys := ScanKeys(db, prefix, Before(PrefixEnd(prefix)));
    ListingFacts(keys);
    RootOfPrefixes(q.namespace, "");
    forall k | k in Listing(keys) ensures k in db && ROOT <= k {
      NotInRange(prefix, k);
    }
    SnapshotOfKeys(db, Listing(keys), decode, q, now, id);
    SeenIsScanned(db, decode, q, now, id);
  }

  /** A snapshot without a limit copies exactly what the directory shows, slashes included. */
  lemma SnapshotIsView(db: Db, decode: Decoder, q: Query, now: int)
    requires AllWellFormed(q.selector) && WellPlaced(db, decode)
    requires q.namespace != "" && Trimmed(q.namespace) && q.limit <= 0
    ensures MirrorsAll(FromSnapshot(Take(ShownRows(PrefixRows(db, ScanPrefix(q)), decode, q, now), q.limit)), db,
                       decode, q, now)
  {
    hide ScanPrefix, ShownRows, FromSnapshot, Seen, WellPlaced, Take;
    var client := FromSnapshot(Take(ShownRows(PrefixRows(db, ScanPrefix(q)), decode, q, now), q.limit));
    forall id ensures Right(client, db, decode, q, now, id) {
      SnapshotHolds(db, decode, q, now, id);
      SeenIsAlive(db, decode, q, now, id);
    }
  }

  lemma SeenIsAlive(db: Db, decode: Decoder, q: Query, now: int, id: Identity)
    requires AllWellFormed(q.selector)
    ensures AliveAt(Seen(db, decode, q, now, id), now) == Seen(db, decode, q, now, id)
  {
    hide MatchQuery, FilterEndpoints, Key;
  }

  lemma SeenIsScanned(db: Db, decode: Decoder, q: Query, now: int, id: Identity)
    requires AllWellFormed(q.selector) && WellPlaced(db, decode) && q.namespace != "" && Trimmed(q.namespace)
    ensures var prefix := NamespacePrefix(q.namespace);
            Seen(db, decode, q, now, id).Some? ==> Key(id) in ScanKeys(db, prefix, Before(PrefixEnd(prefix)))
  {
    hide MatchServiceQuery, NamespacePrefix, ServicePrefix, Key, IsAlive, FilterEndpoints, WellPlaced, Scannable;
    if Seen(db, decode, q, now, id).Some? {
      SeenMatches(db, decode, q, now, id);
      RootOfPrefixes(id.namespace, id.service);
      KeyHasPrefix(id);
      PlacedIsScannable(db, decode);
      InPrefix(db, decode, NamespacePrefix(q.namespace), Key(id));
    }
  }

  /** What the watch shows depends on business data only. */
  lemma SeenOfBusiness(a: Db, b: Db, decode: Decoder, q: Query, now: int, id: Identity)
    requires AllWellFormed(q.selector) && Business(a) == Business(b)
    ensures Seen(a, decode, q, now, id) == Seen(b, decode, q, now, id)
  {
    hide Shown;
    KeyUnderRoot(id);
    RootIsNotMeta(Key(id));
    SameBusinessSameLookup(a, b, Key(id));
  }

  lemma SameMirror(client: Client, a: Db, b: Db, decode: Decoder, q: Query, now: int)
    requires AllWellFormed(q.selector) && Business(a) == Business(b) && Mirrors(client, a, decode, q, now)
    ensures Mirrors(client, b, decode, q, now)
  {
    hide Seen, Business, AliveAt, Held;
    forall id | SlashFree(id) ensures Right(client, b, decode, q, now, id) {
      assert Right(client, a, decode, q, now, id);
      SeenOfBusiness(a, b, decode, q, now, id);
    }
  }

  /** A prefix delete is published as nothing; a right copy stays right exactly when it hits no shown instance. */
  lemma PrefixDeleteIsSilent(db: Db, client: Client, e: Entry, prefix: string, decode: Decoder, q: Query, now: int)
    requires AllWellFormed(q.selector) && e.command == Some(DeletePrefix(prefix))
    requires MirrorsAll(client, db, decode, q, now)
    ensures MirrorsAll(Received(client, EntryMessage(e, decode, q, now)), ApplyCommand(db, DeletePrefix(prefix)),
                       decode, q, now)
       <==> forall id :: Seen(db, decode, q, now, id).Some? ==> !InPrefixRange(Key(id), prefix)
  {
    hide Shown, Key, InPrefixRange, AliveAt, Held;
    var after := ApplyCommand(db, DeletePrefix(prefix));
    forall id ensures Seen(after, decode, q, now, id) ==
                      if InPrefixRange(Key(id), prefix) then None else Seen(db, decode, q, now, id) { }
    assert Received(client, EntryMessage(e, decode, q, now)) == client;
    forall id ensures Right(client, after, decode, q, now, id)
                 <==> Seen(after, decode, q, now, id) == Seen(db, decode, q, now, id) {
      assert Right(client, db, decode, q, now, id);
    }
  }
}
