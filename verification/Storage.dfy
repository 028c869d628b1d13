/** The key-value state machine: an ordered map written in atomic batches.

    Business keys and internal metadata share one key space; metadata lives under `__meta__/`.
 */
module Storage {
  import opened Lex
  import opened Members
  import Bytes

  type Db = map<string, string>

  datatype KV = KV(key: string, value: string)

  /** A decoded state-machine command; `Unknown` is any operation the store ignores. */
  datatype Command =
    | Put(key: string, value: string)
    | Delete(key: string)
    | DeletePrefix(prefix: string)
    | Unknown

  datatype Result<+T> = Ok(value: T) | NotOpen

  const META_PREFIX := "__meta__/"
  const APPLIED_INDEX_KEY := "__meta__/applied_index"
  const APPLIED_TERM_KEY := "__meta__/applied_term"

  predicate IsMetaKey(key: string) {
    META_PREFIX <= key
  }

  predicate InPrefixRange(key: string, prefix: string) {
    InRange(key, prefix, Before(PrefixEnd(prefix)))
  }

  predicate IsMemberKey(key: string) {
    InPrefixRange(key, MEMBERS_PREFIX)
  }

  lemma MemberKeysAreMeta(key: string)
    requires IsMemberKey(key)
    ensures IsMetaKey(key)
  {
    PrefixRange(MEMBERS_PREFIX, key);
    assert META_PREFIX == MEMBERS_PREFIX[..|META_PREFIX|];
  }

  function ApplyCommand(db: Db, cmd: Command): Db {
    match cmd
    case Put(key, value) => db[key := value]
    case Delete(key) => db - {key}
    case DeletePrefix(prefix) => map k | k in db && !InPrefixRange(k, prefix) :: db[k]
    case Unknown => db
  }

  /** A put binds its key, a delete unbinds it, a prefix delete unbinds the keys of its range; no other key
      changes. */
  lemma ApplyCommandExactly(db: Db, cmd: Command, key: string)
    ensures var after := ApplyCommand(db, cmd);
            match cmd
            case Put(k, value) => after == db[k := value]
            case Delete(k) => (key in after <==> key in db && key != k) && (key in after ==> after[key] == db[key])
            case DeletePrefix(prefix) =>
              && (key in after <==>
                    key in db && !(prefix <= key && (|key| == |prefix| || key[|prefix|] < '\U{FF}')))
              && (key in after ==> after[key] == db[key])
            case Unknown => after == db
  {
    if cmd.DeletePrefix? {
      PrefixRange(cmd.prefix, key);
    }
  }

  function Fold(db: Db, cmds: seq<Command>): Db {
    if cmds == [] then db else ApplyCommand(Fold(db, cmds[..|cmds| - 1]), cmds[|cmds| - 1])
  }

  /** What a client of the registry can see: everything but the metadata. */
  function Business(db: Db): Db {
    map k | k in db && !IsMetaKey(k) :: db[k]
  }

  function MemberData(db: Db): Db {
    map k | k in db && IsMemberKey(k) :: db[k]
  }

  function Take<T>(items: seq<T>, limit: int): seq<T> {
    if limit > 0 && |items| > limit then items[..limit] else items
  }

  function Rows(db: Db, keys: seq<string>): seq<KV>
    requires forall k :: k in keys ==> k in db
  {
    seq(|keys|, i requires 0 <= i < |keys| => KV(keys[i], db[keys[i]]))
  }

  function RowsToMap(rows: seq<KV>): Db {
    if rows == [] then map[] else RowsToMap(rows[..|rows| - 1])[rows[|rows| - 1].key := rows[|rows| - 1].value]
  }

  function ScanKeys(db: Db, lo: string, hi: Bound): set<string> {
    set k | k in db && InRange(k, lo, hi) && !IsMetaKey(k)
  }

  /** What a scan returns: the business rows of the range in key order, cut at the limit. */
  ghost function ScanRows(db: Db, lo: string, hi: Bound, limit: int): seq<KV> {
    var keys := Listing(ScanKeys(db, lo, hi));
    assert forall k :: k in Take(keys, limit) ==> k in db by {
      ListingFacts(ScanKeys(db, lo, hi));
      assert forall k :: k in Take(keys, limit) ==> k in keys;
    }
    Rows(db, Take(keys, limit))
  }

  /** A scan shows, in key order, each key of the range that is no metadata with its value, and with a limit
      the first ones of these. */
  lemma ScanRowsExactly(db: Db, lo: string, hi: Bound, limit: int)
    ensures var rows, all := ScanRows(db, lo, hi, limit), ScanRows(db, lo, hi, 0);
            && rows == (if 0 < limit < |all| then all[..limit] else all)
            && (forall i, j :: 0 <= i < j < |all| ==> Less(all[i].key, all[j].key))
            && (forall row :: row in all ==> row.key in db && db[row.key] == row.value)
            && forall key :: KV(key, if key in db then db[key] else "") in all <==>
                 key in db && !Less(key, lo) && (hi.Before? ==> Less(key, hi.key)) && !("__meta__/" <= key)
  {
    var keys := Listing(ScanKeys(db, lo, hi));
    ListingFacts(ScanKeys(db, lo, hi));
    hide Less, Rows, Listing, ScanKeys, Ascending;
    assert Take(keys, 0) == keys && forall k :: k in keys ==> k in db by { ScannedAreStored(db, lo, hi); }
    RowsExactly(db, keys);
    AscendingPairs(keys);
    forall key ensures key in ScanKeys(db, lo, hi) <==>
                 key in db && !Less(key, lo) && (hi.Before? ==> Less(key, hi.key)) && !("__meta__/" <= key) {
      ScanKeysExactly(db, lo, hi, key);
    }
  }

  lemma ScannedAreStored(db: Db, lo: string, hi: Bound)
    ensures ScanKeys(db, lo, hi) <= db.Keys
  {
  }

  lemma AscendingPairs(keys: seq<string>)
    requires Ascending(keys)
    ensures forall i, j :: 0 <= i < j < |keys| ==> Less(keys[i], keys[j])
  {
  }

  lemma ScanKeysExactly(db: Db, lo: string, hi: Bound, key: string)
    ensures key in ScanKeys(db, lo, hi) <==>
              key in db && !Less(key, lo) && (hi.Before? ==> Less(key, hi.key)) && !("__meta__/" <= key)
  {
  }

  lemma RowsExactly(db: Db, keys: seq<string>)
    requires forall k :: k in keys ==> k in db
    ensures var rows := Rows(db, keys);
            && |rows| == |keys|
            && (forall i :: 0 <= i < |keys| ==> rows[i].key == keys[i])
            && (forall row :: row in rows ==> row.key in db && db[row.key] == row.value)
            && (forall key :: KV(key, if key in db then db[key] else "") in rows <==> key in keys)
            && forall n :: 0 <= n <= |keys| ==> Rows(db, keys[..n]) == rows[..n]
  {
    var rows := Rows(db, keys);
    forall key | key in keys ensures KV(key, if key in db then db[key] else "") in rows {
      var i :| 0 <= i < |keys| && keys[i] == key;
      assert rows[i] == KV(key, db[key]);
    }
  }

  /** A state-machine snapshot: every business row in key order and every member address row by node id. */
  datatype Payload = Payload(data: seq<KV>, members: seq<KV>)

  ghost function Export(db: Db): Payload {
    Payload(ScanRows(db, "", Unbounded, 0), MemberRows(db))
  }

  ghost function MemberRows(db: Db): seq<KV> {
    ByNodeFacts(MemberData(db).Keys);
    Rows(db, ByNode(MemberData(db).Keys))
  }

  /** Every member row once, by node id. */
  lemma MemberRowsExactly(db: Db)
    ensures var rows := MemberRows(db);
            && (forall row :: row in rows ==> row.key in db && db[row.key] == row.value)
            && (forall key :: KV(key, if key in db then db[key] else "") in rows <==>
                  key in db && "__meta__/members/" <= key && (|key| == 17 || key[17] < '\U{FF}'))
            && forall a: nat, b: nat, i, j ::
                 0 <= i < j < |rows| && rows[i].key == MemberKey(a) && rows[j].key == MemberKey(b) ==> a < b
  {
    var keys := ByNode(MemberData(db).Keys);
    ByNodeFacts(MemberData(db).Keys);
    RowsExactly(db, keys);
    forall key ensures IsMemberKey(key) <==> "__meta__/members/" <= key && (|key| == 17 || key[17] < '\U{FF}') {
      PrefixRange(MEMBERS_PREFIX, key);
    }
    forall a: nat, b: nat, i, j | 0 <= i < j < |keys| && keys[i] == MemberKey(a) && keys[j] == MemberKey(b)
      ensures a < b {
      NodeOrderIsNumeric(a, b);
    }
  }

  /** Business data and members are cleared, the payload is written, other metadata stays. */
  function Restored(db: Db, payload: Payload): Db {
    (map k | k in db && IsMetaKey(k) && !IsMemberKey(k) :: db[k]) + RowsToMap(payload.data) + RowsToMap(payload.members)
  }

  lemma {:induction false} RowsToMapOfRows(db: Db, keys: seq<string>)
    requires forall k :: k in keys ==> k in db
    ensures RowsToMap(Rows(db, keys)) == map k | k in keys :: db[k]
    decreases |keys|
  {
    if keys != [] {
      var front := keys[..|keys| - 1];
      assert Rows(db, keys)[..|keys| - 1] == Rows(db, front);
      RowsToMapOfRows(db, front);
      assert keys == front + [keys[|keys| - 1]];
    }
  }

  /** A snapshot restored over any store carries the business data and the members over exactly. */
  lemma RestoreOfExport(over: Db, db: Db)
    ensures Business(Restored(over, Export(db))) == Business(db)
    ensures MemberData(Restored(over, Export(db))) == MemberData(db)
  {
    ExportHolds(db);
    RestoredParts(over, Export(db), Business(db), MemberData(db));
  }

  /** Key by key: member rows and business rows are those of the exported store, other metadata is kept. */
  lemma RestoreOfExportByKey(over: Db, db: Db, key: string)
    ensures var after := Restored(over, Export(db));
            var from :=
              if "__meta__/" <= key && !("__meta__/members/" <= key && (|key| == 17 || key[17] < '\U{FF}')) then over
              else db;
            (key in after <==> key in from) && (key in after ==> after[key] == from[key])
  {
    var after := Restored(over, Export(db));
    ExportHolds(db);
    PrefixRange(MEMBERS_PREFIX, key);
    assert |MEMBERS_PREFIX| == 17;
    if IsMemberKey(key) {
      MemberKeysAreMeta(key);
      assert key in MemberData(db) <==> key in db;
    } else if !IsMetaKey(key) {
      assert key in Business(db) <==> key in db;
    }
  }

  lemma ExportHolds(db: Db)
    ensures RowsToMap(Export(db).data) == Business(db)
    ensures RowsToMap(Export(db).members) == MemberData(db)
  {
    hide Less, LessEq;
    var plain := ScanKeys(db, "", Unbounded);
    assert plain == Business(db).Keys by { AllAreScanned(db); }
    hide IsMetaKey, IsMemberKey;
    RowsOfListing(db, plain);
    RowsByNode(db, MemberData(db).Keys);
  }

  lemma AllAreScanned(db: Db)
    ensures ScanKeys(db, "", Unbounded) == Business(db).Keys
  {
    forall k | k in db ensures LessEq("", k) { Trichotomy(k, ""); }
  }

  lemma RowsOfListing(db: Db, keys: set<string>)
    requires keys <= db.Keys
    ensures forall k :: k in Listing(keys) ==> k in db
    ensures RowsToMap(Rows(db, Listing(keys))) == map k | k in keys :: db[k]
  {
    ListingFacts(keys);
    RowsToMapOfRows(db, Listing(keys));
  }

  lemma RowsByNode(db: Db, keys: set<string>)
    requires keys <= db.Keys
    ensures forall k :: k in ByNode(keys) ==> k in db
    ensures RowsToMap(Rows(db, ByNode(keys))) == map k | k in keys :: db[k]
  {
    ByNodeFacts(keys);
    RowsToMapOfRows(db, ByNode(keys));
  }

  lemma RestoredParts(over: Db, payload: Payload, data: Db, members: Db)
    requires RowsToMap(payload.data) == data && RowsToMap(payload.members) == members
    requires forall k :: k in data ==> !IsMetaKey(k)
    requires forall k :: k in members ==> IsMemberKey(k)
    ensures Business(Restored(over, payload)) == data
    ensures MemberData(Restored(over, payload)) == members
  {
    var after := Restored(over, payload);
    forall k ensures k in Business(after) <==> k in data
             ensures k in data ==> after[k] == data[k] {
      if k in members { MemberKeysAreMeta(k); }
    }
    forall k ensures k in MemberData(after) <==> k in members {
      if IsMemberKey(k) { MemberKeysAreMeta(k); }
    }
  }

  function AppliedIndexOf(db: Db): nat {
    if APPLIED_INDEX_KEY in db then DecodeUint64(db[APPLIED_INDEX_KEY]) else 0
  }

  function DecodeUint64(data: string): nat {
    if |data| < 8 then 0 else Bytes.FromBigEndian(data[..8])
  }

  function WithAppliedIndex(db: Db, index: nat): Db {
    db[APPLIED_INDEX_KEY := Bytes.BigEndian(index, 8)]
  }

  lemma AppliedIndexReadsBack(db: Db, index: nat)
    requires index < Bytes.UINT64_LIMIT
    ensures AppliedIndexOf(WithAppliedIndex(db, index)) == index
    ensures Business(WithAppliedIndex(db, index)) == Business(db)
  {
    Bytes.WidthsSuffice();
    Bytes.BigEndianRoundTrip(index, 8);
    var data := Bytes.BigEndian(index, 8);
    assert data[..8] == data;
    assert META_PREFIX == APPLIED_INDEX_KEY[..|META_PREFIX|];
  }

  lemma MetaKeysSpelled()
    ensures APPLIED_INDEX_KEY == "__meta__/applied_index" && APPLIED_TERM_KEY == "__meta__/applied_term"
  {
  }

  /** The applied index is the first eight bytes under its key, most significant first; 0 without them. */
  lemma AppliedIndexExactly(db: Db, index: nat)
    requires index < 0x1_0000_0000_0000_0000
    ensures AppliedIndexOf(db[APPLIED_INDEX_KEY := Bytes.BigEndian(index, 8)]) == index
    ensures APPLIED_INDEX_KEY !in db || |db[APPLIED_INDEX_KEY]| < 8 ==> AppliedIndexOf(db) == 0
  {
    AppliedIndexReadsBack(db, index);
  }

  /** The Pebble-backed store.  `disk` survives Close; everything else needs the store to be open. */
  class PebbleStore {
    var disk: Db
    var isOpen: bool

    constructor ()
      ensures disk == map[] && !isOpen
    {
      disk, isOpen := map[], false;
    }

    method Open()
      modifies this`isOpen
      ensures isOpen
    {
      isOpen := true;
    }

    method Close()
      modifies this`isOpen
      ensures !isOpen
    {
      isOpen := false;
    }

    method Apply(cmd: Command) returns (modified: Result<nat>)
      modifies this`disk
      ensures modified == if !isOpen then NotOpen else Ok(if cmd.Unknown? then 0 else 1)
      ensures disk == if isOpen then ApplyCommand(old(disk), cmd) else old(disk)
    {
      if !isOpen {
        return NotOpen;
      }
      match cmd {
        case Put(key, value) => disk := disk[key := value];
        case Delete(key) => disk := disk - {key};
        case DeletePrefix(prefix) =>
          disk := map k | k in disk && !InPrefixRange(k, prefix) :: disk[k];
        case Unknown =>
          return Ok(0);
      }
      return Ok(1);
    }

    /** A missing key reads as the empty value. */
    method Get(key: string) returns (value: Result<string>)
      ensures value == if !isOpen then NotOpen else Ok(if key in disk then disk[key] else "")
    {
      if !isOpen {
        return NotOpen;
      }
      return Ok(if key in disk then disk[key] else "");
    }

    method Scan(lo: string, hi: Bound, limit: int) returns (items: Result<seq<KV>>)
      ensures items == if !isOpen then NotOpen else Ok(ScanRows(disk, lo, hi, limit))
    {
      if !isOpen {
        return NotOpen;
      }
      var range := set k | k in disk && InRange(k, lo, hi);
      assert PlainKeys(range) == ScanKeys(disk, lo, hi);
      var rows := Iterate(range, limit);
      return Ok(rows);
    }

    /** Walks the iterator, skipping metadata, until the limit is reached. */
    method Iterate(range: set<string>, limit: int) returns (rows: seq<KV>)
      requires range <= disk.Keys
      ensures forall k :: k in Take(Listing(PlainKeys(range)), limit) ==> k in disk
      ensures rows == Rows(disk, Take(Listing(PlainKeys(range)), limit))
    {
      var ahead := range;
      rows := [];
      ghost var all := Listing(PlainKeys(range));
      ghost var keys: seq<string> := [];
      while ahead != {}
        invariant ahead <= disk.Keys
        invariant forall k :: k in keys ==> k in disk
        invariant rows == Rows(disk, keys)
        invariant all == keys + Listing(PlainKeys(ahead))
        invariant limit > 0 ==> |rows| < limit
        decreases |ahead|
      {
        var key := NextKey(ahead);
        PlainStep(ahead, key);
        ahead := ahead - {key};
        if !IsMetaKey(key) {
          rows := rows + [KV(key, disk[key])];
          RowsSnoc(disk, keys, key);
          AppendAssociates(keys, key, Listing(PlainKeys(ahead)));
          keys := keys + [key];
          if limit > 0 && |rows| >= limit {
            TakePrefix(keys, Listing(PlainKeys(ahead)), limit);
            return;
          }
        }
      }
      assert all == keys;
    }

    method Snapshot() returns (payload: Result<Payload>)
      ensures payload == if !isOpen then NotOpen else Ok(Export(disk))
    {
      if !isOpen {
        return NotOpen;
      }
      var items := Scan("", Unbounded, 0);
      var members := ListMemberAddresses();
      return Ok(Payload(items.value, members.value));
    }

    /** Member rows by node id. */
    method ListMemberAddresses() returns (members: Result<seq<KV>>)
      ensures members == if !isOpen then NotOpen else Ok(MemberRows(disk))
    {
      if !isOpen {
        return NotOpen;
      }
      var ahead := set k | k in disk && IsMemberKey(k);
      var rows: seq<KV> := [];
      ghost var all := ByNode(MemberData(disk).Keys);
      ghost var keys: seq<string> := [];
      assert ahead == MemberData(disk).Keys;
      while ahead != {}
        invariant ahead <= disk.Keys
        invariant forall k :: k in keys ==> k in disk
        invariant rows == Rows(disk, keys)
        invariant all == keys + ByNode(ahead)
        decreases |ahead|
      {
        var key := NextMember(ahead);
        ahead := ahead - {key};
        rows := rows + [KV(key, disk[key])];
        RowsSnoc(disk, keys, key);
        AppendAssociates(keys, key, ByNode(ahead));
        keys := keys + [key];
      }
      assert all == keys;
      return Ok(rows);
    }

    /** One batch: deletes for all business and member keys, then the payload rows in order. */
    method Restore(payload: Payload) returns (done: bool)
      modifies this`disk
      ensures done == isOpen
      ensures disk == if isOpen then Restored(old(disk), payload) else old(disk)
    {
      if !isOpen {
        return false;
      }
      var batch := map k | k in disk && IsMetaKey(k) && !IsMemberKey(k) :: disk[k];
      batch := SetRows(batch, payload.data);
      batch := SetRows(batch, payload.members);
      disk := batch;
      return true;
    }

    method AppliedIndex() returns (index: Result<nat>)
      ensures index == if !isOpen then NotOpen else Ok(AppliedIndexOf(disk))
    {
      if !isOpen {
        return NotOpen;
      }
      return Ok(AppliedIndexOf(disk));
    }

    /** Writes one internal key; applied index, applied term and member addresses go through here. */
    method SetMeta(key: string, value: string) returns (done: bool)
      requires IsMetaKey(key)
      modifies this`disk
      ensures done == isOpen
      ensures disk == if isOpen then old(disk)[key := value] else old(disk)
    {
      if isOpen {
        disk := disk[key := value];
      }
      return isOpen;
    }
  }

  method SetRows(batch: Db, rows: seq<KV>) returns (after: Db)
    ensures after == batch + RowsToMap(rows)
  {
    after := batch;
    for i := 0 to |rows|
      invariant after == batch + RowsToMap(rows[..i])
    {
      assert rows[..i + 1][..i] == rows[..i];
      after := after[rows[i].key := rows[i].value];
    }
    assert rows[..|rows|] == rows;
  }

  lemma RowsSnoc(db: Db, keys: seq<string>, key: string)
    requires key in db && forall k :: k in keys ==> k in db
    ensures forall k :: k in keys + [key] ==> k in db
    ensures Rows(db, keys + [key]) == Rows(db, keys) + [KV(key, db[key])]
  {
  }

  lemma AppendAssociates<T>(front: seq<T>, x: T, back: seq<T>)
    ensures front + ([x] + back) == (front + [x]) + back
  {
  }

  lemma TakePrefix<T>(front: seq<T>, back: seq<T>, limit: int)
    requires |front| == limit > 0
    ensures Take(front + back, limit) == front
  {
  }

  ghost function PlainKeys(keys: set<string>): set<string> {
    set k | k in keys && !IsMetaKey(k)
  }

  /** The iterator's next position: the smallest key still ahead. */
  method NextKey(ahead: set<string>) returns (key: string)
    requires ahead != {}
    ensures key in ahead && key == Least(ahead)
    ensures Listing(ahead) == [key] + Listing(ahead - {key})
  {
    ghost var least := Least(ahead);
    key :| key in ahead && forall k :: k in ahead ==> LessEq(key, k);
    LeastIsUnique(ahead, key);
  }

  /** The member with the lowest node id still ahead. */
  method NextMember(ahead: set<string>) returns (key: string)
    requires ahead != {}
    ensures key in ahead && ByNode(ahead) == [key] + ByNode(ahead - {key})
  {
    ghost var lowest := Lowest(ahead);
    key :| key in ahead && forall k :: k in ahead ==> k == key || Lower(key, k);
    LowestIsUnique(ahead, key);
  }

  lemma PlainStep(ahead: set<string>, key: string)
    requires ahead != {} && key == Least(ahead)
    ensures IsMetaKey(key) ==> PlainKeys(ahead - {key}) == PlainKeys(ahead)
    ensures !IsMetaKey(key) ==> Listing(PlainKeys(ahead)) == [key] + Listing(PlainKeys(ahead - {key}))
  {
    if !IsMetaKey(key) {
      LeastIsUnique(PlainKeys(ahead), key);
      assert PlainKeys(ahead - {key}) == PlainKeys(ahead) - {key};
    } else {
      assert PlainKeys(ahead - {key}) == PlainKeys(ahead);
    }
  }
}
