/** Registered instances, queries over them, and scanning the directory for a query. */
module Directory {
  import opened Options
  import opened Picks
  import opened Lex
  import opened Text
  import opened Storage
  import opened RegistryKeys
  import opened Selector

  const DEFAULT_TTL := 30

  datatype Endpoint = Endpoint(name: string, protocol: string, host: string, port: int, path: string, weight: int)

  /** The service's place in the organisation; a structured service name is composed of it. */
  datatype Hierarchy = Hierarchy(organization: string, businessDomain: string, capabilityDomain: string,
                                 application: string, role: string)

  datatype Value = Value(id: Identity, hierarchy: Hierarchy, zone: string,
                         labels: map<string, string>, metadata: map<string, string>, endpoints: seq<Endpoint>,
                         ttl: int, registeredAt: int, lastHeartbeat: int)

  datatype Query = Query(namespace: string, service: string, services: seq<string>, servicePrefixes: seq<string>,
                         zone: string, endpoint: string, selector: seq<Requirement>, limit: int)

  /** Decoding of stored values. */
  type Decoder = string -> Option<Value>

  function EffectiveTtl(ttl: int): (effective: int)
    ensures effective > 0
  {
    if ttl > 0 then ttl else DEFAULT_TTL
  }

  predicate IsAlive(v: Value, now: int) {
    var heartbeat := if v.lastHeartbeat <= 0 then v.registeredAt else v.lastHeartbeat;
    now <= 0 || heartbeat <= 0 || now <= heartbeat + EffectiveTtl(v.ttl)
  }

  predicate MatchServiceQuery(raw: string, q: Query) {
    var service := TrimSpace(raw);
    && (q.service != "" ==> service == q.service)
    && (q.services != [] ==> service in q.services)
    && (q.servicePrefixes != [] ==>
          exists prefix ::
            prefix in q.servicePrefixes && (service == prefix || prefix + "." <= service || prefix <= service))
  }

  function FilterEndpoints(endpoints: seq<Endpoint>, expected: string): seq<Endpoint> {
    if endpoints == [] then []
    else
      var last := endpoints[|endpoints| - 1];
      FilterEndpoints(endpoints[..|endpoints| - 1], expected)
      + (if expected == "" || last.name == expected || last.protocol == expected then [last] else [])
  }

  predicate MatchQuery(v: Value, q: Query)
    requires AllWellFormed(q.selector)
  {
    && (q.namespace != "" ==> v.id.namespace == q.namespace)
    && MatchServiceQuery(v.id.service, q)
    && (q.zone != "" ==> v.zone == q.zone)
    && (forall r :: r in q.selector ==> Matches(v.labels, r))
    && (q.endpoint != "" ==> FilterEndpoints(v.endpoints, q.endpoint) != [])
  }

  /** What a query shows of an instance: nothing when expired or not matching. */
  function Shown(v: Value, q: Query, now: int): Option<Value>
    requires AllWellFormed(q.selector)
  {
    if IsAlive(v, now) && MatchQuery(v, q)
    then Some(v.(endpoints := FilterEndpoints(v.endpoints, q.endpoint), ttl := EffectiveTtl(v.ttl)))
    else None
  }

  function ShownRow(row: KV, decode: Decoder, q: Query, now: int): seq<Value>
    requires AllWellFormed(q.selector)
  {
    match decode(row.value)
    case None => []
    case Some(v) =>
      match Shown(v, q, now)
      case None => []
      case Some(instance) => [instance]
  }

  function ShownRows(rows: seq<KV>, decode: Decoder, q: Query, now: int): seq<Value>
    requires AllWellFormed(q.selector)
  {
    if rows == [] then []
    else ShownRows(rows[..|rows| - 1], decode, q, now) + ShownRow(rows[|rows| - 1], decode, q, now)
  }

  /** The filtering loop of queries and snapshots, which stops at the limit. */
  method FilterInstances(rows: seq<KV>, decode: Decoder, q: Query, now: int) returns (result: seq<Value>)
    requires AllWellFormed(q.selector)
    ensures result == Take(ShownRows(rows, decode, q, now), q.limit)
  {
    hide Shown, ShownRows;
    result := [];
    NoneShown(decode, q, now);
    for i := 0 to |rows|
      invariant result == ShownRows(rows[..i], decode, q, now)
      invariant q.limit > 0 ==> |result| < q.limit
    {
      ShownStep(rows, i, decode, q, now);
      var decoded := decode(rows[i].value);
      if decoded.None? {
        continue;
      }
      var shown := Shown(decoded.value, q, now);
      if shown.None? {
        continue;
      }
      result := result + [shown.value];
      if q.limit > 0 && |result| >= q.limit {
        MoreRows(rows, i + 1, decode, q, now);
        return;
      }
    }
    assert rows[..|rows|] == rows;
  }

  lemma NoneShown(decode: Decoder, q: Query, now: int)
    requires AllWellFormed(q.selector)
    ensures ShownRows([], decode, q, now) == []
  {
  }

  lemma ShownStep(rows: seq<KV>, i: nat, decode: Decoder, q: Query, now: int)
    requires AllWellFormed(q.selector) && i < |rows|
    ensures ShownRows(rows[..i + 1], decode, q, now) ==
            ShownRows(rows[..i], decode, q, now) + ShownRow(rows[i], decode, q, now)
    ensures ShownRow(rows[i], decode, q, now) == [] ==>
              ShownRows(rows[..i + 1], decode, q, now) == ShownRows(rows[..i], decode, q, now)
  {
    hide ShownRow;
    assert rows[..i + 1][..i] == rows[..i];
  }

  lemma {:induction false} MoreRows(rows: seq<KV>, i: nat, decode: Decoder, q: Query, now: int)
    requires AllWellFormed(q.selector) && i <= |rows|
    ensures ShownRows(rows[..i], decode, q, now) <= ShownRows(rows, decode, q, now)
    decreases |rows|
  {
    hide ShownRow;
    if i == |rows| {
      assert rows[..i] == rows;
    } else {
      MoreRows(rows[..|rows| - 1], i, decode, q, now);
      assert rows[..|rows| - 1][..i] == rows[..i];
    }
  }

  // What a query answers, in the fields of the stored values.

  /** A value is shown when its lease - counted from the last heartbeat, without one from the registration, and
      30 seconds long when none was asked for - has not run out, and namespace, service, zone, labels and
      endpoint are as the query says.  It is shown with its lease and its endpoints of the name or protocol
      asked for. */
  lemma ShownExactly(v: Value, q: Query, now: int)
    requires AllWellFormed(q.selector)
    ensures var since := if v.lastHeartbeat > 0 then v.lastHeartbeat else v.registeredAt;
            var lease := if v.ttl > 0 then v.ttl else 30;
            var service := TrimSpace(v.id.service);
            Shown(v, q, now).Some? <==>
              && (now <= 0 || since <= 0 || now - since <= lease)
              && (q.namespace == "" || v.id.namespace == q.namespace)
              && (q.service == "" || service == q.service)
              && (q.services == [] || service in q.services)
              && (q.servicePrefixes == [] ||
                  exists i :: 0 <= i < |q.servicePrefixes| && q.servicePrefixes[i] <= service)
              && (q.zone == "" || v.zone == q.zone)
              && (forall i :: 0 <= i < |q.selector| ==> Matches(v.labels, q.selector[i]))
              && (q.endpoint == "" ||
                  exists i :: 0 <= i < |v.endpoints|
                              && (v.endpoints[i].name == q.endpoint || v.endpoints[i].protocol == q.endpoint))
    ensures Shown(v, q, now).Some? ==>
              var x := Shown(v, q, now).value;
              && x == v.(endpoints := x.endpoints, ttl := if v.ttl > 0 then v.ttl else 30)
              && (q.endpoint == "" ==> x.endpoints == v.endpoints)
  {
    hide TrimSpace, Matches;
    FilterIsEmpty(v.endpoints, q.endpoint);
    assert forall r :: r in q.selector <==> exists i :: 0 <= i < |q.selector| && q.selector[i] == r;
    PrefixesMatch(TrimSpace(v.id.service), q.servicePrefixes);
    hide FilterEndpoints;
  }

  lemma PrefixesMatch(service: string, prefixes: seq<string>)
    ensures (exists p :: p in prefixes && (service == p || p + "." <= service || p <= service)) <==>
            (exists i :: 0 <= i < |prefixes| && prefixes[i] <= service)
  {
    forall p | p in prefixes && (service == p || p + "." <= service || p <= service)
      ensures exists i :: 0 <= i < |prefixes| && prefixes[i] <= service {
      if p + "." <= service {
        assert service[..|p|] == (p + ".")[..|p|] == p;
      }
      var i :| 0 <= i < |prefixes| && prefixes[i] == p;
    }
    assert forall i :: 0 <= i < |prefixes| ==> prefixes[i] in prefixes;
  }

  lemma {:induction false} FilterIsEmpty(endpoints: seq<Endpoint>, expected: string)
    ensures expected == "" ==> FilterEndpoints(endpoints, expected) == endpoints
    ensures expected != "" ==>
              (FilterEndpoints(endpoints, expected) != [] <==>
                 exists i :: 0 <= i < |endpoints|
                   && (endpoints[i].name == expected || endpoints[i].protocol == expected))
    decreases |endpoints|
  {
    if endpoints != [] {
      var front, last := endpoints[..|endpoints| - 1], endpoints[|endpoints| - 1];
      FilterIsEmpty(front, expected);
      assert endpoints == front + [last];
      assert forall i :: 0 <= i < |front| ==> endpoints[i] == front[i];
    }
  }

  /** The endpoints shown are those of the name or protocol, in the order of the value. */
  lemma EndpointsInOrder(endpoints: seq<Endpoint>, expected: string) returns (picks: seq<nat>)
    ensures forall i, j :: 0 <= i < j < |picks| ==> picks[i] < picks[j]
    ensures forall k: nat :: k in picks <==>
              k < |endpoints|
              && (expected == "" || endpoints[k].name == expected || endpoints[k].protocol == expected)
    ensures |FilterEndpoints(endpoints, expected)| == |picks|
    ensures forall i :: 0 <= i < |picks| ==>
              picks[i] < |endpoints| && FilterEndpoints(endpoints, expected)[i] == endpoints[picks[i]]
  {
    picks := EndpointPicks(endpoints, expected);
    hide FilterEndpoints;
  }

  predicate Offers(e: Endpoint, expected: string) {
    expected == "" || e.name == expected || e.protocol == expected
  }

  lemma {:induction false} EndpointPicks(endpoints: seq<Endpoint>, expected: string) returns (picks: seq<nat>)
    ensures Picked(FilterEndpoints(endpoints, expected), picks, endpoints)
    ensures forall k: nat :: k in picks <==> k < |endpoints| && Offers(endpoints[k], expected)
    decreases |endpoints|
  {
    hide Offers, FilterEndpoints, Picked;
    picks := [];
    FilteredNext(endpoints, expected);
    if endpoints == [] {
      PickedNone<Endpoint>();
    } else {
      var n := |endpoints| - 1;
      var front := EndpointPicks(endpoints[..n], expected);
      picks := if Offers(endpoints[n], expected) then front + [n] else front;
      PickedNext(FilterEndpoints(endpoints[..n], expected), front, endpoints, Offers(endpoints[n], expected));
      forall k: nat ensures k in picks <==> k < |endpoints| && Offers(endpoints[k], expected) {
        MemberNext(front, n, k);
        assert k < n ==> endpoints[..n][k] == endpoints[k];
      }
    }
  }

  lemma FilteredNext(endpoints: seq<Endpoint>, expected: string)
    ensures endpoints == [] ==> FilterEndpoints(endpoints, expected) == []
    ensures endpoints != [] ==>
              var n := |endpoints| - 1;
              var front := FilterEndpoints(endpoints[..n], expected);
              FilterEndpoints(endpoints, expected) ==
                if Offers(endpoints[n], expected) then front + [endpoints[n]] else front
  {
  }

  /** The rows shown are those that decode to a value that is shown, in the order of the rows. */
  lemma RowsInOrder(rows: seq<KV>, decode: Decoder, q: Query, now: int) returns (picks: seq<nat>)
    requires AllWellFormed(q.selector)
    ensures forall i, j :: 0 <= i < j < |picks| ==> picks[i] < picks[j]
    ensures forall k: nat :: k in picks <==>
              k < |rows| && decode(rows[k].value).Some? && Shown(decode(rows[k].value).value, q, now).Some?
    ensures |ShownRows(rows, decode, q, now)| == |picks|
    ensures forall i :: 0 <= i < |picks| ==>
              && picks[i] < |rows| && decode(rows[picks[i]].value).Some?
              && Some(ShownRows(rows, decode, q, now)[i]) == Shown(decode(rows[picks[i]].value).value, q, now)
  {
    picks := ShownPicks(rows, decode, q, now);
    hide Shown, ShownRows;
    assert forall i :: 0 <= i < |picks| ==> picks[i] in picks;
  }

  /** What one row contributes. */
  predicate Answers(row: KV, decode: Decoder, q: Query, now: int)
    requires AllWellFormed(q.selector)
  {
    decode(row.value).Some? && Shown(decode(row.value).value, q, now).Some?
  }

  lemma OneRow(row: KV, decode: Decoder, q: Query, now: int)
    requires AllWellFormed(q.selector)
    ensures ShownRow(row, decode, q, now) ==
            if Answers(row, decode, q, now) then [Shown(decode(row.value).value, q, now).value] else []
  {
    hide Shown;
  }

  lemma {:induction false} ShownPicks(rows: seq<KV>, decode: Decoder, q: Query, now: int) returns (picks: seq<nat>)
    requires AllWellFormed(q.selector)
    ensures forall i, j :: 0 <= i < j < |picks| ==> picks[i] < picks[j]
    ensures forall k: nat :: k in picks <==> k < |rows| && Answers(rows[k], decode, q, now)
    ensures |ShownRows(rows, decode, q, now)| == |picks|
    ensures forall i :: 0 <= i < |picks| ==>
              picks[i] < |rows| && ShownRow(rows[picks[i]], decode, q, now) == [ShownRows(rows, decode, q, now)[i]]
    decreases |rows|
  {
    hide Shown, ShownRow, Answers, AllWellFormed;
    picks := [];
    if rows != [] {
      var n := |rows| - 1;
      var front := ShownPicks(rows[..n], decode, q, now);
      assert forall i :: 0 <= i < |front| ==> front[i] in front;
      picks := front;
      OneRow(rows[n], decode, q, now);
      if Answers(rows[n], decode, q, now) {
        picks := front + [n];
      }
    }
  }

  /** A query for one exact service scans just that service's keys, others the whole namespace. */
  function ScanPrefix(q: Query): string {
    if q.service != "" && |q.services| <= 1 && q.servicePrefixes == []
    then ServicePrefix(q.namespace, q.service) else NamespacePrefix(q.namespace)
  }

  ghost function PrefixRows(db: Db, prefix: string): seq<KV> {
    ScanRows(db, prefix, Before(PrefixEnd(prefix)), 0)
  }

  /** The query's scan and filter over the store. */
  method QueryInstances(store: PebbleStore, decode: Decoder, q: Query, now: int)
    returns (result: Storage.Result<seq<Value>>)
    requires AllWellFormed(q.selector)
    ensures result == if !store.isOpen then NotOpen
                      else Ok(Take(ShownRows(PrefixRows(store.disk, ScanPrefix(q)), decode, q, now), q.limit))
  {
    var prefix := ScanPrefix(q);
    var rows := store.Scan(prefix, Before(PrefixEnd(prefix)), 0);
    if rows.NotOpen? {
      return NotOpen;
    }
    var shown := FilterInstances(rows.value, decode, q, now);
    return Ok(shown);
  }

  // The directory as registration leaves it.

  /** UTF-8 text never holds the byte that ends every prefix range. */
  predicate TextBytes(s: string) {
    forall c :: c in s ==> c < MAX_BYTE
  }

  /** What registration writes: a decodable value under the key built from its own normalised identity.
      The components may hold slashes. */
  predicate WellPlacedRow(key: string, value: string, decode: Decoder) {
    match decode(value)
    case None => false
    case Some(v) => key == Key(v.id) && TidyIdentity(v.id) && TextBytes(key)
  }

  /** Every local registry key was written by registration. */
  ghost predicate WellPlaced(db: Db, decode: Decoder) {
    forall key :: key in db && ROOT <= key ==> WellPlacedRow(key, db[key], decode)
  }

  /** All that narrowing a scan needs: text keys, and values, where they decode at all, under their own key. */
  predicate ScannableRow(key: string, value: string, decode: Decoder) {
    && TextBytes(key)
    && match decode(value)
       case None => true
       case Some(v) => key == Key(v.id) && Trimmed(v.id.service)
  }

  ghost predicate Scannable(db: Db, decode: Decoder) {
    forall key :: key in db && ROOT <= key ==> ScannableRow(key, db[key], decode)
  }

  lemma PlacedIsScannable(db: Db, decode: Decoder)
    requires WellPlaced(db, decode)
    ensures Scannable(db, decode)
  {
    forall key | key in db && ROOT <= key ensures ScannableRow(key, db[key], decode) {
      assert WellPlacedRow(key, db[key], decode);
    }
  }

  // Scanning less without losing anything.

  function Keep(keys: seq<string>, only: set<string>): seq<string> {
    if keys == [] then []
    else Keep(keys[..|keys| - 1], only) + (if keys[|keys| - 1] in only then [keys[|keys| - 1]] else [])
  }

  lemma {:induction false} KeepFacts(keys: seq<string>, only: set<string>)
    requires Ascending(keys)
    ensures Ascending(Keep(keys, only))
    ensures forall k :: k in Keep(keys, only) <==> k in keys && k in only
    decreases |keys|
  {
    if keys != [] {
      hide Less;
      var front, last := keys[..|keys| - 1], keys[|keys| - 1];
      assert keys == front + [last];
      AscendingParts(front, last);
      KeepFacts(front, only);
      AscendingSnoc(Keep(front, only), last);
    }
  }

  lemma AscendingParts(front: seq<string>, last: string)
    requires Ascending(front + [last])
    ensures Ascending(front) && forall k :: k in front ==> Less(k, last)
  {
    hide Less;
    var all := front + [last];
    forall i, j | 0 <= i < j < |front| ensures Less(front[i], front[j]) { assert Less(all[i], all[j]); }
    forall k | k in front ensures Less(k, last) {
      var i :| 0 <= i < |front| && front[i] == k;
      assert Less(all[i], all[|front|]);
    }
  }

  lemma AscendingSnoc(front: seq<string>, last: string)
    requires Ascending(front) && forall k :: k in front ==> Less(k, last)
    ensures Ascending(front + [last])
  {
    hide Less;
    var all := front + [last];
    forall i, j | 0 <= i < j < |all| ensures Less(all[i], all[j]) {
      assert all[i] == front[i];
      if j < |front| { assert all[j] == front[j]; }
    }
  }

  lemma KeepOfListing(all: set<string>, only: set<string>)
    requires only <= all
    ensures Keep(Listing(all), only) == Listing(only)
  {
    ListingFacts(all);
    ListingFacts(only);
    KeepFacts(Listing(all), only);
    AscendingIsUnique(Keep(Listing(all), only), Listing(only));
  }

  lemma {:induction false} ShownOfKept(db: Db, keys: seq<string>, only: set<string>, decode: Decoder, q: Query,
                                       now: int)
    requires AllWellFormed(q.selector) && forall k :: k in keys ==> k in db
    requires forall k :: k in keys && k !in only ==> ShownRow(KV(k, db[k]), decode, q, now) == []
    ensures forall k :: k in Keep(keys, only) ==> k in db
    ensures ShownRows(Rows(db, keys), decode, q, now) == ShownRows(Rows(db, Keep(keys, only)), decode, q, now)
    decreases |keys|
  {
    hide ShownRows, ShownRow, Rows;
    if keys == [] {
      assert Keep(keys, only) == keys;
    } else {
      var front, last := keys[..|keys| - 1], keys[|keys| - 1];
      assert last in keys && forall k :: k in front ==> k in keys;
      ShownOfKept(db, front, only, decode, q, now);
      assert front + [last] == keys;
      ShownOfSnoc(db, front, last, decode, q, now);
      if last in only {
        ShownOfSnoc(db, Keep(front, only), last, decode, q, now);
      } else {
        assert Keep(keys, only) == Keep(front, only);
        NothingMore(ShownRows(Rows(db, front), decode, q, now));
      }
    }
  }

  lemma NothingMore(shown: seq<Value>)
    ensures shown + [] == shown
  {
  }

  lemma ShownOfSnoc(db: Db, keys: seq<string>, last: string, decode: Decoder, q: Query, now: int)
    requires AllWellFormed(q.selector) && last in db && forall k :: k in keys ==> k in db
    ensures forall k :: k in keys + [last] ==> k in db
    ensures ShownRows(Rows(db, keys + [last]), decode, q, now)
         == ShownRows(Rows(db, keys), decode, q, now) + ShownRow(KV(last, db[last]), decode, q, now)
  {
    RowsSnoc(db, keys, last);
    var rows := Rows(db, keys + [last]);
    assert rows[..|rows| - 1] == Rows(db, keys);
  }

  /** A text key lies in the range of every prefix it has. */
  lemma InPrefix(db: Db, decode: Decoder, prefix: string, key: string)
    requires Scannable(db, decode) && key in db && ROOT <= prefix
    ensures InPrefixRange(key, prefix) <==> prefix <= key
    ensures prefix <= key ==> !IsMetaKey(key)
  {
    PrefixRange(prefix, key);
    if prefix <= key {
      assert ROOT <= key;
      assert ScannableRow(key, db[key], decode);
      if |prefix| < |key| { assert key[|prefix|] in key; }
      RootIsNotMeta(key);
    }
  }

  lemma RootIsNotMeta(key: string)
    requires ROOT <= key
    ensures !IsMetaKey(key)
  {
    assert key[0] == ROOT[0];
  }

  lemma RootOfPrefixes(namespace: string, service: string)
    ensures ROOT <= NamespacePrefix(namespace) && ROOT <= ServicePrefix(namespace, service)
    ensures Trimmed(namespace) ==> NamespacePrefix(namespace) <= ServicePrefix(namespace, service)
  {
    RootRest(ROOT, Slashed(TrimSpace(namespace), ""));
    RootRest(ROOT, Slashed(namespace, Slashed(service, "")));
    SlashedEnd(namespace, "", Slashed(service, ""));
    if Trimmed(namespace) {
      RootCancels(ROOT, Slashed(namespace, ""), Slashed(namespace, Slashed(service, "")));
    }
  }

  lemma KeyHasPrefix(id: Identity)
    ensures ServicePrefix(id.namespace, id.service) <= Key(id)
  {
    SlashedEnd(id.service, "", id.instance);
    SlashedEnd(id.namespace, Slashed(id.service, ""), id.instance);
    RootCancels(ROOT, Slashed(id.namespace, Slashed(id.service, "")),
                Slashed(id.namespace, Slashed(id.service, id.instance)));
  }

  /** What a scan of the narrower range misses, the filter would have dropped. */
  lemma NarrowedMissesNothing(db: Db, decode: Decoder, q: Query, now: int, key: string)
    requires Scannable(db, decode) && AllWellFormed(q.selector) && Trimmed(q.namespace) && q.namespace != ""
    requires q.service != "" && key in db && NamespacePrefix(q.namespace) <= key
    requires !InPrefixRange(key, ServicePrefix(q.namespace, q.service))
    ensures ShownRow(KV(key, db[key]), decode, q, now) == []
  {
    hide InPrefixRange, FilterEndpoints, IsAlive, ServicePrefix, NamespacePrefix, Key, TextBytes, AllWellFormed;
    RootOfPrefixes(q.namespace, q.service);
    assert ScannableRow(key, db[key], decode);
    if decode(db[key]).Some? {
      var v := decode(db[key]).value;
      InPrefix(db, decode, ServicePrefix(q.namespace, q.service), key);
      KeyHasPrefix(v.id);
      ShownIsOfService(v, q, now);
    }
  }

  lemma ShownIsOfService(v: Value, q: Query, now: int)
    requires AllWellFormed(q.selector) && q.namespace != "" && q.service != "" && Trimmed(v.id.service)
    ensures Shown(v, q, now).Some? ==> v.id.namespace == q.namespace && v.id.service == q.service
  {
    hide TrimSpace, FilterEndpoints, Matches;
  }

  /** Scanning one exact service instead of the namespace yields the same instances in the same order,
      cut at the same limit. */
  lemma NarrowedScanIsSame(db: Db, decode: Decoder, q: Query, now: int)
    requires Scannable(db, decode) && AllWellFormed(q.selector) && Trimmed(q.namespace) && q.namespace != ""
    ensures ShownRows(PrefixRows(db, ScanPrefix(q)), decode, q, now)
         == ShownRows(PrefixRows(db, NamespacePrefix(q.namespace)), decode, q, now)
  {
    hide ServicePrefix, NamespacePrefix, Scannable, AllWellFormed, ShownRows, ShownRow, Keep, Rows, LessEq, Less,
      Trimmed;
    var wide, narrow := NamespacePrefix(q.namespace), ScanPrefix(q);
    var all := ScanKeys(db, wide, Before(PrefixEnd(wide)));
    var only := ScanKeys(db, narrow, Before(PrefixEnd(narrow)));
    if narrow != wide {
      RootOfPrefixes(q.namespace, q.service);
      forall k | k in only ensures k in all {
        InPrefix(db, decode, narrow, k);
        InPrefix(db, decode, wide, k);
      }
      ListingFacts(all);
      forall k | k in Listing(all) && k !in only ensures ShownRow(KV(k, db[k]), decode, q, now) == [] {
        InPrefix(db, decode, wide, k);
        NarrowedMissesNothing(db, decode, q, now, k);
      }
      KeepOfListing(all, only);
      ShownOfKept(db, Listing(all), only, decode, q, now);
    }
  }
}
