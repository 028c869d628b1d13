/** Sweeping expired registrations page by page over the key space. */
module Cleanup {
  import opened Lex
  import opened Storage
  import opened Replay
  import opened Directory

  /** The cursor after a page: behind its last key when the page was full, at the start otherwise. */
  function Moved(start: string, keys: seq<string>, limit: int): string {
    if keys == [] || limit <= 0 || |keys| < limit then start else keys[|keys| - 1] + [ZERO_BYTE]
  }

  function KeysOf(rows: seq<KV>): seq<string> {
    seq(|rows|, i requires 0 <= i < |rows| => rows[i].key)
  }

  class CleanupCursor {
    var scanStart: string

    constructor ()
      ensures scanStart == ""
    {
      scanStart := "";
    }

    /** Where the next page begins: an unset cursor means the default start. */
    function Next(defaultStart: string): string
      reads this
    {
      if scanStart == "" then defaultStart else scanStart
    }

    method Advance(defaultStart: string, rows: seq<KV>, limit: int)
      modifies this
      ensures scanStart == Moved(defaultStart, KeysOf(rows), limit)
    {
      if |rows| == 0 || limit <= 0 || |rows| < limit {
        scanStart := defaultStart;
        return;
      }
      scanStart := rows[|rows| - 1].key + [ZERO_BYTE];
    }
  }

  class Cleaner {
    const cursor: CleanupCursor
    const store: PebbleStore

    constructor (store: PebbleStore)
      ensures this.store == store && fresh(cursor) && cursor.scanStart == ""
    {
      this.store := store;
      cursor := new CleanupCursor();
    }

    /** One round: scan a page, move the cursor, propose a delete for each expired instance while leading.
        `leads` tells whether the node still leads before each row, `accepts` whether a proposal goes in. */
    method CleanupExpiredRegistry(start: string, limit: int, decode: Decoder, now: int, leads: nat -> bool,
                                  accepts: string -> bool) returns (deletes: seq<string>, ghost seen: nat)
      modifies cursor
      ensures !store.isOpen ==> deletes == [] && cursor.scanStart == old(cursor.scanStart)
      ensures store.isOpen ==>
                var from := if old(cursor.scanStart) == "" then start else old(cursor.scanStart);
                var rows := ScanRows(store.disk, from, Before(start + ['\U{FF}']), limit);
                cursor.scanStart == (if 0 < limit <= |rows| then rows[|rows| - 1].key + ['\0'] else start)
                && Swept(rows, deletes, seen, limit, decode, now, leads, accepts)
    {
      seen := 0;
      deletes := [];
      var scanned := store.Scan(cursor.Next(start), Before(PrefixEnd(start)), limit);
      if scanned.NotOpen? {
        return;
      }
      cursor.Advance(start, scanned.value, limit);
      deletes, seen := ProposeDeletes(scanned.value, limit, decode, now, leads, accepts);
    }

    /** Round after round, at most `most` of them, until the cursor is back at the start; between the rounds
        the store becomes whatever `versions` says.  The rounds are a sweep: each key that stays is on some
        page, only instances whose lease has run out are deleted, and all of these that are on a page when
        lead and proposals hold. */
    method Sweep(start: string, limit: nat, decode: Decoder, times: nat -> int, leads: nat -> nat -> bool,
                 accepts: nat -> string -> bool, versions: nat -> Db, most: nat)
      returns (finished: bool, deletes: seq<seq<string>>, ghost dbs: seq<Db>, ghost pages: seq<seq<string>>)
      requires store.isOpen && limit >= 1 && (cursor.scanStart == "" || cursor.scanStart == start)
      modifies cursor, store`disk
      ensures |dbs| == |pages| == |deletes| <= most && forall k :: 0 <= k < |dbs| ==> dbs[k] == versions(k)
      ensures finished ==> cursor.scanStart == start && IsSweep(dbs, start, start + ['\U{FF}'], limit)
      ensures finished ==>
                forall key :: !Less(key, start) && Less(key, start + ['\U{FF}']) && !("__meta__/" <= key) ==>
                  (forall db :: db in dbs ==> key in db) ==> exists page :: page in pages && key in page
      ensures forall k, key :: 0 <= k < |deletes| && key in deletes[k] ==>
                key in pages[k] && RunOut(dbs[k], key, decode, times(k))
      ensures (forall k: nat, i: nat :: leads(k)(i)) && (forall k: nat, key :: accepts(k)(key)) ==>
                forall k, key :: 0 <= k < |deletes| && key in pages[k] && RunOut(dbs[k], key, decode, times(k)) ==>
                  key in deletes[k]
    {
      hide IsSweep, RunOut, Visited, Wanted, LessEq, Less, Swept, ScanRows, SweepSoFar, AllSwept, Accounted;
      finished, deletes, dbs, pages := false, [], [], [];
      ghost var end, from := start + ['\U{FF}'], start;
      SweepBegins(start, end, limit);
      NothingAccounted(decode, times, leads, accepts, versions);
      while !finished && |deletes| < most
        invariant |deletes| <= most && store.isOpen
        invariant Accounted(dbs, pages, deletes, decode, times, leads, accepts, versions)
        invariant finished ==> cursor.scanStart == start && IsSweep(dbs, start, end, limit)
        invariant finished ==> AllSwept(dbs, pages, start, end)
        invariant !finished ==> from == (if cursor.scanStart == "" then start else cursor.scanStart)
        invariant !finished ==> SweepSoFar(dbs, pages, start, from, end, limit)
        decreases most - |deletes|
      {
        var round := |deletes|;
        store.disk := versions(round);
        ghost var rows := ScanRows(store.disk, from, Before(end), limit);
        var deleted, seen_ := CleanupExpiredRegistry(start, limit, decode, times(round), leads(round), accepts(round));
        RoundAccounted(dbs, pages, deletes, store.disk, from, end, limit, deleted, seen_, decode, times, leads, accepts,
                       versions);
        SweepGoesOn(dbs, pages, store.disk, start, from, end, limit);
        deletes, dbs, pages := deletes + [deleted], dbs + [store.disk], pages + [KeysOf(rows)];
        finished := cursor.scanStart == start;
        from := cursor.scanStart;
      }
      AccountedFacts(dbs, pages, deletes, decode, times, leads, accepts, versions);
      if finished {
        AllVisited(dbs, pages, start, end);
      }
    }
  }

  /** A key whose stored value decodes and whose lease - counted from the last heartbeat or else the
      registration, 30 seconds when none was asked for - has run out. */
  predicate RunOut(db: Db, key: string, decode: Decoder, now: int) {
    && key in db && decode(db[key]).Some?
    && var v := decode(db[key]).value;
       var since := if v.lastHeartbeat > 0 then v.lastHeartbeat else v.registeredAt;
       now > 0 && since > 0 && now - since > if v.ttl > 0 then v.ttl else 30
  }

  /** A key that is there in every round was on some page. */
  ghost predicate Visited(dbs: seq<Db>, pages: seq<seq<string>>, key: string) {
    (forall db :: db in dbs ==> key in db) ==> exists page :: page in pages && key in page
  }

  /** The first `seen` rows were dealt with, each expired one deleted; only a lost lead, a refused proposal
      or the limit stops before the end. */
  ghost predicate Swept(rows: seq<KV>, deletes: seq<string>, seen: nat, limit: int, decode: Decoder, now: int,
                        leads: nat -> bool, accepts: string -> bool) {
    && seen <= |rows| && deletes == Expired(rows[..seen], decode, now)
    && (forall i :: 0 <= i < seen ==> leads(i)) && (forall key :: key in deletes ==> accepts(key))
    && (seen == |rows| || !leads(seen) || !accepts(rows[seen].key) || |deletes| >= limit)
  }

  method ProposeDeletes(rows: seq<KV>, limit: int, decode: Decoder, now: int, leads: nat -> bool,
                        accepts: string -> bool)
    returns (deletes: seq<string>, ghost seen: nat)
    ensures Swept(rows, deletes, seen, limit, decode, now, leads, accepts)
  {
    hide IsAlive;
    seen := 0;
    deletes := [];
    for i := 0 to |rows|
      invariant seen == i && deletes == Expired(rows[..i], decode, now)
      invariant (forall j :: 0 <= j < i ==> leads(j)) && (forall key :: key in deletes ==> accepts(key))
    {
      ExpiredStep(rows, i, decode, now);
      if !leads(i) {
        return;
      }
      var decoded := decode(rows[i].value);
      if decoded.None? || IsAlive(decoded.value, now) {
        seen := i + 1;
        continue;
      }
      if !accepts(rows[i].key) {
        return;
      }
      deletes := deletes + [rows[i].key];
      seen := i + 1;
      if |deletes| >= limit {
        return;
      }
    }
  }

  /** A round in the fields of the stored values: of the rows dealt with, it deletes exactly those whose value
      decodes and whose lease - counted from the last heartbeat or else the registration, 30 seconds when none
      was asked for - has run out, in their order, each while leading and accepted. */
  lemma SweptExactly(rows: seq<KV>, deletes: seq<string>, seen: nat, limit: int, decode: Decoder, now: int,
                     leads: nat -> bool, accepts: string -> bool) returns (picks: seq<nat>)
    requires Swept(rows, deletes, seen, limit, decode, now, leads, accepts)
    ensures seen <= |rows| && forall i :: 0 <= i < seen ==> leads(i)
    ensures seen == |rows| || !leads(seen) || !accepts(rows[seen].key) || |deletes| >= limit
    ensures |picks| == |deletes| && forall i, j :: 0 <= i < j < |picks| ==> picks[i] < picks[j]
    ensures forall i :: 0 <= i < |picks| ==> picks[i] < seen && deletes[i] == rows[picks[i]].key && accepts(deletes[i])
    ensures forall i: nat :: i in picks <==>
              && i < seen && decode(rows[i].value).Some?
              && var v := decode(rows[i].value).value;
                 var since := if v.lastHeartbeat > 0 then v.lastHeartbeat else v.registeredAt;
                 now > 0 && since > 0 && now - since > if v.ttl > 0 then v.ttl else 30
  {
    picks := ExpiredInOrder(rows[..seen], decode, now);
    assert forall i :: 0 <= i < |deletes| ==> deletes[i] in deletes;
  }

  lemma {:induction false} ExpiredInOrder(rows: seq<KV>, decode: Decoder, now: int) returns (picks: seq<nat>)
    ensures forall i, j :: 0 <= i < j < |picks| ==> picks[i] < picks[j]
    ensures forall k: nat :: k in picks <==>
              k < |rows| && decode(rows[k].value).Some? && !IsAlive(decode(rows[k].value).value, now)
    ensures |Expired(rows, decode, now)| == |picks|
    ensures forall i :: 0 <= i < |picks| ==> picks[i] < |rows| && Expired(rows, decode, now)[i] == rows[picks[i]].key
    decreases |rows|
  {
    hide IsAlive;
    picks := [];
    if rows != [] {
      var n := |rows| - 1;
      var front := ExpiredInOrder(rows[..n], decode, now);
      assert forall i :: 0 <= i < |front| ==> front[i] in front;
      picks := front;
      if decode(rows[n].value).Some? && !IsAlive(decode(rows[n].value).value, now) {
        picks := front + [n];
      }
    }
  }

  lemma ExpiredStep(rows: seq<KV>, i: nat, decode: Decoder, now: int)
    requires i < |rows|
    ensures Expired(rows[..i + 1], decode, now) ==
            Expired(rows[..i], decode, now)
            + (if decode(rows[i].value).Some? && !IsAlive(decode(rows[i].value).value, now) then [rows[i].key] else [])
  {
    assert rows[..i + 1][..i] == rows[..i];
  }

  /** The keys of a page whose instance has expired; undecodable values are left alone. */
  function Expired(rows: seq<KV>, decode: Decoder, now: int): seq<string> {
    if rows == [] then []
    else
      var last := rows[|rows| - 1];
      Expired(rows[..|rows| - 1], decode, now)
      + (if decode(last.value).Some? && !IsAlive(decode(last.value).value, now) then [last.key] else [])
  }

  lemma {:induction false} ExpiredFits(rows: seq<KV>, decode: Decoder, now: int)
    ensures |Expired(rows, decode, now)| <= |rows|
    decreases |rows|
  {
    if rows != [] {
      ExpiredFits(rows[..|rows| - 1], decode, now);
    }
  }

  // What has changed when a delete commits.

  predicate Lives(db: Db, key: string, decode: Decoder, t: int) {
    key in db && decode(db[key]).Some? && IsAlive(decode(db[key]).value, t)
  }

  predicate Renewed(w: Write, decode: Decoder, t: int) {
    w.Stored? && decode(w.value).Some? && IsAlive(decode(w.value).value, t)
  }

  /** The deletes of a round are proposed as of its scan and carry no condition.  After the commands that
      commit between the scan and a delete, the instance it removes is a living one exactly when the last of
      them that wrote its key stored an instance still alive: a heartbeat or a new registration is undone. */
  lemma DeletedIsAliveExactly(db: Db, lo: string, hi: Bound, limit: int, deletes: seq<string>, seen: nat,
                              decode: Decoder, now: int, leads: nat -> bool, accepts: string -> bool, key: string,
                              between: seq<Command>, t: int)
    requires Swept(ScanRows(db, lo, hi, limit), deletes, seen, limit, decode, now, leads, accepts) && key in deletes
    requires now <= t
    ensures Lives(Fold(db, between), key, decode, t) <==> Renewed(LastWrite(between, key), decode, t)
    ensures key !in Fold(db, between + [Delete(key)])
  {
    hide IsAlive, ScanRows;
    var rows := ScanRows(db, lo, hi, limit);
    var i := ExpiredRow(rows[..seen], decode, now, key);
    RowOfScan(db, lo, hi, limit, i);
    ExpiredStays(decode(rows[i].value).value, now, t);
    FoldByKey(db, between, key);
    assert (between + [Delete(key)])[..|between|] == between;
  }

  lemma {:induction false} ExpiredRow(rows: seq<KV>, decode: Decoder, now: int, key: string) returns (i: nat)
    requires key in Expired(rows, decode, now)
    ensures i < |rows| && rows[i].key == key && decode(rows[i].value).Some?
            && !IsAlive(decode(rows[i].value).value, now)
    decreases |rows|
  {
    hide IsAlive;
    i := |rows| - 1;
    if key in Expired(rows[..i], decode, now) {
      i := ExpiredRow(rows[..i], decode, now, key);
    }
  }

  lemma RowOfScan(db: Db, lo: string, hi: Bound, limit: int, i: nat)
    requires i < |ScanRows(db, lo, hi, limit)|
    ensures var row := ScanRows(db, lo, hi, limit)[i]; row.key in db && db[row.key] == row.value
  {
    ListingFacts(ScanKeys(db, lo, hi));
    var keys := Listing(ScanKeys(db, lo, hi));
    assert keys[i] in keys;
  }

  lemma ExpiredStays(v: Value, now: int, t: int)
    requires !IsAlive(v, now) && now <= t
    ensures !IsAlive(v, t)
  {
  }

  // Sweeps.

  /** The keys one page visits. */
  ghost function Page(db: Db, start: string, end: string, limit: nat): seq<string> {
    Take(Listing(ScanKeys(db, start, Before(end))), limit)
  }

  lemma PageIsScanned(db: Db, start: string, end: string, limit: nat)
    ensures KeysOf(ScanRows(db, start, Before(end), limit)) == Page(db, start, end, limit)
  {
  }

  /** A sweep: each round sees the store as it then is, begins where the last full page ended, and the
      first page that is not full ends it. */
  ghost predicate IsSweep(dbs: seq<Db>, start: string, end: string, limit: nat) {
    && dbs != []
    && var page := Page(dbs[0], start, end, limit);
       if |page| < limit then |dbs| == 1
       else |dbs| > 1 && page != [] && IsSweep(dbs[1..], page[|page| - 1] + [ZERO_BYTE], end, limit)
  }

  /** In how many rounds of a sweep a key is visited. */
  ghost function Visits(dbs: seq<Db>, start: string, end: string, limit: nat, key: string): nat {
    if dbs == [] then 0
    else
      var page := Page(dbs[0], start, end, limit);
      (if key in page then 1 else 0)
      + (if |page| < limit || page == [] then 0 else Visits(dbs[1..], page[|page| - 1] + [ZERO_BYTE], end, limit, key))
  }

  predicate Wanted(key: string, start: string, end: string) {
    !Less(key, start) && Less(key, end) && !("__meta__/" <= key)
  }

  /** Some rounds have swept the keys below `from`: a sweep from there completes them to one from the start. */
  ghost predicate SweepSoFar(dbs: seq<Db>, pages: seq<seq<string>>, start: string, from: string, end: string,
                             limit: nat) {
    && LessEq(start, from)
    && (forall rest :: IsSweep(rest, from, end, limit) ==> IsSweep(dbs + rest, start, end, limit))
    && forall key :: Wanted(key, start, end) && Less(key, from) ==> Visited(dbs, pages, key)
  }

  ghost predicate AllSwept(dbs: seq<Db>, pages: seq<seq<string>>, start: string, end: string) {
    forall key :: Wanted(key, start, end) ==> Visited(dbs, pages, key)
  }

  /** Each round's deletes: only leases that have run out, and all of those on its page when lead and proposals
      hold. */
  ghost predicate Accounted(dbs: seq<Db>, pages: seq<seq<string>>, deletes: seq<seq<string>>, decode: Decoder,
                            times: nat -> int, leads: nat -> nat -> bool, accepts: nat -> string -> bool,
                            versions: nat -> Db) {
    && |dbs| == |pages| == |deletes| && (forall k :: 0 <= k < |dbs| ==> dbs[k] == versions(k))
    && (forall k, key :: 0 <= k < |deletes| && key in deletes[k] ==>
          key in pages[k] && RunOut(dbs[k], key, decode, times(k)))
    && ((forall k: nat, i: nat :: leads(k)(i)) && (forall k: nat, key :: accepts(k)(key)) ==>
          forall k, key :: 0 <= k < |deletes| && key in pages[k] && RunOut(dbs[k], key, decode, times(k)) ==>
            key in deletes[k])
  }

  lemma AccountedFacts(dbs: seq<Db>, pages: seq<seq<string>>, deletes: seq<seq<string>>, decode: Decoder,
                       times: nat -> int, leads: nat -> nat -> bool, accepts: nat -> string -> bool,
                       versions: nat -> Db)
    requires Accounted(dbs, pages, deletes, decode, times, leads, accepts, versions)
    ensures |dbs| == |pages| == |deletes| && forall k :: 0 <= k < |dbs| ==> dbs[k] == versions(k)
    ensures forall k, key :: 0 <= k < |deletes| && key in deletes[k] ==>
              key in pages[k] && RunOut(dbs[k], key, decode, times(k))
    ensures (forall k: nat, i: nat :: leads(k)(i)) && (forall k: nat, key :: accepts(k)(key)) ==>
              forall k, key :: 0 <= k < |deletes| && key in pages[k] && RunOut(dbs[k], key, decode, times(k)) ==>
                key in deletes[k]
  {
  }

  lemma NothingAccounted(decode: Decoder, times: nat -> int, leads: nat -> nat -> bool, accepts: nat -> string -> bool,
                         versions: nat -> Db)
    ensures Accounted([], [], [], decode, times, leads, accepts, versions)
  {
  }

  lemma RoundAccounted(dbs: seq<Db>, pages: seq<seq<string>>, deletes: seq<seq<string>>, db: Db, from: string,
                       end: string, limit: nat, deleted: seq<string>, seen: nat, decode: Decoder, times: nat -> int,
                       leads: nat -> nat -> bool, accepts: nat -> string -> bool, versions: nat -> Db)
    requires Accounted(dbs, pages, deletes, decode, times, leads, accepts, versions)
    requires var k := |deletes|;
             && limit >= 1 && db == versions(k)
             && Swept(ScanRows(db, from, Before(end), limit), deleted, seen, limit, decode, times(k), leads(k),
                      accepts(k))
    ensures Accounted(dbs + [db], pages + [KeysOf(ScanRows(db, from, Before(end), limit))], deletes + [deleted], decode,
                      times, leads, accepts, versions)
  {
    hide ScanRows, RunOut, Swept, KeysOf;
    var k := |deletes|;
    RoundDeletes(db, from, end, limit, deleted, seen, decode, times(k), leads(k), accepts(k));
  }

  lemma SweepBegins(start: string, end: string, limit: nat)
    ensures SweepSoFar([], [], start, start, end, limit)
  {
    Trichotomy(start, start);
    forall rest | IsSweep(rest, start, end, limit) ensures IsSweep([] + rest, start, end, limit) {
      assert [] + rest == rest;
    }
  }

  lemma SweepGoesOn(dbs: seq<Db>, pages: seq<seq<string>>, db: Db, start: string, from: string, end: string, limit: nat)
    requires limit >= 1 && SweepSoFar(dbs, pages, start, from, end, limit)
    ensures var rows := ScanRows(db, from, Before(end), limit);
            if |rows| < limit then
              IsSweep(dbs + [db], start, end, limit)
              && AllSwept(dbs + [db], pages + [KeysOf(rows)], start, end)
            else
              rows != [] && var next := rows[|rows| - 1].key + ['\0'];
              next != start && next != "" && SweepSoFar(dbs + [db], pages + [KeysOf(rows)], start, next, end, limit)
  {
    hide Less, LessEq, Page, ScanRows;
    var rows := ScanRows(db, from, Before(end), limit);
    var page := Page(db, from, end, limit);
    PageIsScanned(db, from, end, limit);
    if |page| < limit {
      assert [db][1..] == [] && IsSweep([db], from, end, limit);
    } else {
      LastIsInPage(db, from, end, limit);
      var next := page[|page| - 1] + [ZERO_BYTE];
      Behind(start, from, page[|page| - 1]);
      forall rest | IsSweep(rest, next, end, limit) ensures IsSweep(dbs + [db] + rest, start, end, limit) {
        assert ([db] + rest)[1..] == rest && dbs + ([db] + rest) == dbs + [db] + rest;
        assert IsSweep([db] + rest, from, end, limit);
      }
    }
    forall key | Wanted(key, start, end) && (|page| >= limit ==> Less(key, page[|page| - 1] + [ZERO_BYTE]))
      ensures Visited(dbs + [db], pages + [KeysOf(rows)], key) {
      VisitedNow(dbs, pages, db, start, from, end, limit, key);
    }
  }

  lemma Behind(start: string, from: string, last: string)
    requires LessEq(start, from) && LessEq(from, last)
    ensures LessEq(start, last + [ZERO_BYTE]) && start != last + [ZERO_BYTE]
  {
    LessEqTransitive(start, from, last);
    ZeroByteIsNext(last, last);
    Trichotomy(last, last);
    Trichotomy(last, last + [ZERO_BYTE]);
    LessEqTransitive(start, last, last + [ZERO_BYTE]);
    Trichotomy(start, last + [ZERO_BYTE]);
  }

  lemma VisitedNow(dbs: seq<Db>, pages: seq<seq<string>>, db: Db, start: string, from: string, end: string, limit: nat,
                   key: string)
    requires limit >= 1 && SweepSoFar(dbs, pages, start, from, end, limit) && Wanted(key, start, end)
    requires var page := Page(db, from, end, limit);
             |page| >= limit ==> Less(key, page[|page| - 1] + [ZERO_BYTE])
    ensures Visited(dbs + [db], pages + [Page(db, from, end, limit)], key)
  {
    hide Less, Page;
    var page := Page(db, from, end, limit);
    if forall other :: other in dbs + [db] ==> key in other {
      assert db in dbs + [db] && forall other :: other in dbs ==> other in dbs + [db];
      if Less(key, from) {
        assert Visited(dbs, pages, key);
        var old_ :| old_ in pages && key in old_;
        assert old_ in pages + [page];
      } else {
        PageFacts(db, from, end, limit, key);
        if |page| >= limit {
          Trichotomy(page[|page| - 1], key);
          ZeroByteIsNext(page[|page| - 1], key);
        }
        assert key in ScanKeys(db, from, Before(end));
        assert page in pages + [page];
      }
    }
  }

  lemma AllVisited(dbs: seq<Db>, pages: seq<seq<string>>, start: string, end: string)
    requires AllSwept(dbs, pages, start, end)
    ensures forall key :: !Less(key, start) && Less(key, end) && !("__meta__/" <= key) ==>
              (forall db :: db in dbs ==> key in db) ==> exists page :: page in pages && key in page
  {
    forall key | !Less(key, start) && Less(key, end) && !("__meta__/" <= key) && forall db :: db in dbs ==> key in db
      ensures exists page :: page in pages && key in page {
      assert Wanted(key, start, end) && Visited(dbs, pages, key);
    }
  }

  lemma RoundDeletes(db: Db, from: string, end: string, limit: nat, deletes: seq<string>, seen: nat, decode: Decoder,
                     now: int, leads: nat -> bool, accepts: string -> bool)
    requires limit >= 1
             && Swept(ScanRows(db, from, Before(end), limit), deletes, seen, limit, decode, now, leads, accepts)
    ensures var page := KeysOf(ScanRows(db, from, Before(end), limit));
            && (forall key :: key in deletes ==> key in page && RunOut(db, key, decode, now))
            && ((forall i: nat :: leads(i)) && (forall key :: accepts(key)) ==>
                  forall key :: key in page && RunOut(db, key, decode, now) ==> key in deletes)
  {
    hide ScanRows, Swept;
    var rows := ScanRows(db, from, Before(end), limit);
    var page := KeysOf(rows);
    var picks := SweptExactly(rows, deletes, seen, limit, decode, now, leads, accepts);
    forall i | 0 <= i < |rows| ensures rows[i].key in db && db[rows[i].key] == rows[i].value && page[i] == rows[i].key {
      RowOfScan(db, from, Before(end), limit, i);
    }
    forall key | key in deletes ensures key in page && RunOut(db, key, decode, now) {
      var k :| 0 <= k < |deletes| && deletes[k] == key;
      assert page[picks[k]] == key && picks[k] in picks;
    }
    if (forall i: nat :: leads(i)) && (forall key :: accepts(key)) {
      ScanIsLimited(db, from, Before(end), limit);
      AllSeen(rows, deletes, seen, limit, decode, now, leads, accepts);
      forall key | key in page && RunOut(db, key, decode, now) ensures key in deletes {
        var i :| 0 <= i < |page| && page[i] == key;
        assert i in picks;
        var k :| 0 <= k < |picks| && picks[k] == i;
        assert deletes[k] == key;
      }
    }
  }

  lemma AllSeen(rows: seq<KV>, deletes: seq<string>, seen: nat, limit: nat, decode: Decoder, now: int,
                leads: nat -> bool, accepts: string -> bool)
    requires Swept(rows, deletes, seen, limit, decode, now, leads, accepts) && 1 <= limit && |rows| <= limit
    requires (forall i: nat :: leads(i)) && forall key :: accepts(key)
    ensures seen == |rows|
  {
    LimitNeverCutsAPage(rows, seen, limit, decode, now);
  }

  lemma ScanIsLimited(db: Db, lo: string, hi: Bound, limit: int)
    ensures limit > 0 ==> |ScanRows(db, lo, hi, limit)| <= limit
  {
  }

  /** A page holds every key of the range up to its last one, and all of the range when it is not full. */
  lemma PageFacts(db: Db, start: string, end: string, limit: nat, key: string)
    requires limit >= 1
    ensures var page := Page(db, start, end, limit);
            && (key in page ==> LessEq(start, key))
            && (|page| < limit ==> (key in page <==> key in ScanKeys(db, start, Before(end))))
            && (|page| >= limit ==>
                  page != []
                    && (key in page <==> key in ScanKeys(db, start, Before(end)) && LessEq(key, page[|page| - 1])))
  {
    hide LessEq, Less;
    var all := ScanKeys(db, start, Before(end));
    ListingFacts(all);
    var page := Page(db, start, end, limit);
    if |page| >= limit {
      CutFacts(Listing(all), limit, key);
    }
  }

  lemma CutFacts(keys: seq<string>, n: nat, key: string)
    requires Ascending(keys) && 1 <= n <= |keys|
    ensures key in keys[..n] <==> key in keys && LessEq(key, keys[n - 1])
  {
    if key in keys {
      var i :| 0 <= i < |keys| && keys[i] == key;
      Trichotomy(key, keys[n - 1]);
      if i < n {
        assert keys[..n][i] == key;
      } else {
        assert Less(keys[n - 1], keys[i]);
        forall j | 0 <= j < n ensures keys[j] != key { assert Less(keys[j], keys[i]); Trichotomy(keys[j], keys[i]); }
      }
    }
  }

  /** A key that stays present is visited exactly once by a sweep that begins at or below it, and never by
      one that begins above it - whatever else is added or deleted between the rounds. */
  lemma {:induction false} PresentKeyIsVisitedOnce(dbs: seq<Db>, start: string, end: string, limit: nat, key: string)
    requires limit >= 1 && IsSweep(dbs, start, end, limit)
    requires forall db :: db in dbs ==> key in db
    requires !IsMetaKey(key) && Less(key, end)
    ensures Visits(dbs, start, end, limit, key) == if LessEq(start, key) then 1 else 0
    decreases |dbs|
  {
    hide Page, LessEq, Less;
    var page := Page(dbs[0], start, end, limit);
    PageFacts(dbs[0], start, end, limit, key);
    assert dbs[0] in dbs;
    if |page| >= limit {
      var last := page[|page| - 1];
      assert forall db :: db in dbs[1..] ==> db in dbs;
      PresentKeyIsVisitedOnce(dbs[1..], last + [ZERO_BYTE], end, limit, key);
      ZeroByteIsNext(last, key);
      LastIsInPage(dbs[0], start, end, limit);
      Ordered(start, last, key);
    }
  }

  lemma LastIsInPage(db: Db, start: string, end: string, limit: nat)
    requires limit >= 1 && |Page(db, start, end, limit)| >= limit
    ensures LessEq(start, Page(db, start, end, limit)[limit - 1])
    ensures |Page(db, start, end, limit)| == limit
  {
    var page := Page(db, start, end, limit);
    PageFacts(db, start, end, limit, page[|page| - 1]);
  }

  lemma Ordered(start: string, last: string, key: string)
    requires LessEq(start, last)
    ensures Less(last, key) <==> !LessEq(key, last)
    ensures Less(last, key) ==> LessEq(start, key)
  {
    Trichotomy(last, key);
    Trichotomy(start, key);
    if Less(last, key) {
      LessEqTransitive(start, last, key);
      Trichotomy(start, key);
    }
  }

  // A sweep over an unchanged range.

  /** Where the cursor stands after `k` full pages of the range. */
  ghost function CursorAfter(all: seq<string>, start: string, limit: nat, k: nat): string
    requires k * limit <= |all|
  {
    if k == 0 || limit == 0 then start else all[k * limit - 1] + [ZERO_BYTE]
  }

  /** From the cursor after `n` keys the range holds exactly the keys behind them. */
  lemma RestOfRange(db: Db, start: string, end: string, n: nat)
    requires var all := Listing(ScanKeys(db, start, Before(end)));
             1 <= n <= |all|
    ensures var all := Listing(ScanKeys(db, start, Before(end)));
            Listing(ScanKeys(db, all[n - 1] + [ZERO_BYTE], Before(end))) == all[n..]
  {
    hide LessEq, Less;
    var keys := ScanKeys(db, start, Before(end));
    var all := Listing(keys);
    ListingFacts(keys);
    var from := all[n - 1] + [ZERO_BYTE];
    var rest := ScanKeys(db, from, Before(end));
    ListingFacts(rest);
    AscendingTail(all, n);
    assert all[n - 1] in all;
    forall k ensures k in rest <==> k in all[n..] {
      ZeroByteIsNext(all[n - 1], k);
      BehindFacts(all, n, k);
      Ordered(start, all[n - 1], k);
    }
    AscendingIsUnique(Listing(rest), all[n..]);
  }

  lemma AscendingTail(all: seq<string>, n: nat)
    requires Ascending(all) && n <= |all|
    ensures Ascending(all[n..])
  {
    hide Less;
    forall i, j | 0 <= i < j < |all[n..]|
      ensures Less(all[n..][i], all[n..][j]) { assert Less(all[n + i], all[n + j]); }
  }

  lemma BehindFacts(all: seq<string>, n: nat, k: string)
    requires Ascending(all) && 1 <= n <= |all|
    ensures k in all[n..] <==> k in all && Less(all[n - 1], k)
  {
    if k in all {
      CutFacts(all, n, k);
      Trichotomy(all[n - 1], k);
      assert all == all[..n] + all[n..];
      if k in all[n..] {
        var j :| 0 <= j < |all[n..]| && all[n..][j] == k;
        assert Less(all[n - 1], all[n + j]);
      }
    }
  }

  /** Round `k` visits the `k`-th slice of the range: the sweep visits every key exactly once, and the
      page after the last full one is short, so it resets after floor(n / limit) + 1 rounds. */
  lemma SweepInPages(db: Db, start: string, end: string, limit: nat, k: nat)
    requires limit >= 1
    requires var n := |Listing(ScanKeys(db, start, Before(end)))|; k * limit <= n
    ensures var all := Listing(ScanKeys(db, start, Before(end)));
            var page := Page(db, CursorAfter(all, start, limit, k), end, limit);
            if (k + 1) * limit <= |all| then
              page == all[k * limit..(k + 1) * limit]
              && Moved(start, page, limit) == CursorAfter(all, start, limit, k + 1)
            else
              page == all[k * limit..] && |page| < limit && Moved(start, page, limit) == start
  {
    hide Listing, ScanKeys;
    var all := Listing(ScanKeys(db, start, Before(end)));
    Steps(k, limit);
    if k > 0 {
      RestOfRange(db, start, end, k * limit);
    }
    assert all[k * limit..] == if k == 0 then all else all[k * limit..];
  }

  lemma Steps(k: nat, limit: nat)
    requires limit >= 1
    ensures (k + 1) * limit == k * limit + limit
    ensures k >= 1 ==> k * limit >= 1
  {
    if k >= 1 {
      assert k * limit == (k - 1) * limit + limit;
    }
  }

  /** A sweep of an unchanged range of n keys ends after exactly floor(n / limit) + 1 rounds. */
  lemma {:induction false} SweepRounds(dbs: seq<Db>, db: Db, start: string, end: string, limit: nat)
    requires limit >= 1 && IsSweep(dbs, start, end, limit) && forall other :: other in dbs ==> other == db
    ensures |dbs| == |Listing(ScanKeys(db, start, Before(end)))| / limit + 1
    decreases |dbs|
  {
    hide Listing, ScanKeys;
    var all, page := Listing(ScanKeys(db, start, Before(end))), Page(db, start, end, limit);
    assert dbs[0] in dbs;
    if |page| >= limit {
      assert forall other :: other in dbs[1..] ==> other in dbs;
      assert page == all[..limit] && page[|page| - 1] == all[limit - 1];
      RestOfRange(db, start, end, limit);
      SweepRounds(dbs[1..], db, page[|page| - 1] + [ZERO_BYTE], end, limit);
      OneMoreRound(|all|, limit);
    } else {
      assert |all| < limit;
    }
  }

  lemma OneMoreRound(n: nat, limit: nat)
    requires 1 <= limit <= n
    ensures n / limit == (n - limit) / limit + 1
  {
    var q, r := (n - limit) / limit, (n - limit) % limit;
    assert limit * (q + 1) == limit * q + limit;
    QuotientIs(n, limit, q + 1, r);
  }

  lemma QuotientIs(n: nat, limit: nat, q: nat, r: nat)
    requires n == limit * q + r && r < limit
    ensures n / limit == q
  {
    var p := n / limit;
    assert n == limit * p + n % limit;
    Gap(limit, p, q);
    Gap(limit, q, p);
  }

  lemma Gap(limit: nat, p: nat, q: nat)
    ensures p < q ==> limit * p + limit <= limit * q
  {
    if p < q {
      assert limit * q == limit * p + limit * (q - p);
      assert limit * (q - p) == limit * (q - p - 1) + limit;
    }
  }

  /** With a positive limit a round is only cut short by losing the lead or a refused proposal: the count
      of deletes cannot reach the limit before the page ends. */
  lemma LimitNeverCutsAPage(rows: seq<KV>, seen: nat, limit: int, decode: Decoder, now: int)
    requires seen <= |rows| && (limit > 0 ==> |rows| <= limit)
    ensures limit > 0 && |Expired(rows[..seen], decode, now)| >= limit ==> seen == |rows|
  {
    ExpiredFits(rows[..seen], decode, now);
  }
}
