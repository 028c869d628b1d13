/** Where instances, replicated instances and replication checkpoints live in the key space. */
module RegistryKeys {
  import opened Options
  import opened Lex
  import opened Text
  import opened Storage

  const ROOT := "/registry/"
  const REPLICATED_ROOT := "/replication/regions/"
  const CHECKPOINT_ROOT := "/replication/checkpoints/"
  const MARKER := "/registry/"
  const SLASH := '/'

  datatype Identity = Identity(namespace: string, service: string, instance: string)

  /** A replicated service: which remote directory it comes from and which service it is. */
  datatype Source = Source(region: string, cluster: string, namespace: string, service: string)

  datatype ReplicatedId = ReplicatedId(source: Source, instance: string)

  function Slashed(a: string, rest: string): string {
    a + [SLASH] + rest
  }

  function NamespacePrefix(namespace: string): string {
    ROOT + Slashed(TrimSpace(namespace), "")
  }

  function ServicePrefix(namespace: string, service: string): string {
    ROOT + Slashed(namespace, Slashed(service, ""))
  }

  function Key(id: Identity): string {
    ROOT + Slashed(id.namespace, Slashed(id.service, id.instance))
  }

  function ParseKey(key: string): Option<Identity> {
    if ROOT <= key then ParseIdentity(key[|ROOT|..]) else None
  }

  function ParseIdentity(path: string): Option<Identity> {
    var parts := SplitOn(path, SLASH);
    if |parts| != 3 then None
    else if TrimSpace(parts[0]) == "" || TrimSpace(parts[1]) == "" || TrimSpace(parts[2]) == "" then None
    else Some(Identity(parts[0], parts[1], parts[2]))
  }

  function SourcePath(s: Source, rest: string): string {
    Slashed(TrimSpace(s.region), Slashed("clusters", Slashed(TrimSpace(s.cluster),
      Slashed("registry", Slashed(TrimSpace(s.namespace), Slashed(TrimSpace(s.service), rest))))))
  }

  function ReplicationServicePrefix(s: Source): string {
    REPLICATED_ROOT + SourcePath(s, "")
  }

  function ReplicatedKey(id: ReplicatedId): string {
    REPLICATED_ROOT + SourcePath(id.source, TrimSpace(id.instance))
  }

  function CheckpointKey(s: Source): string {
    CHECKPOINT_ROOT + Slashed(TrimSpace(s.region), Slashed(TrimSpace(s.cluster),
      Slashed(TrimSpace(s.namespace), TrimSpace(s.service))))
  }

  function ParseReplicatedKey(key: string): Option<ReplicatedId> {
    if REPLICATED_ROOT <= key then ParseReplicatedPath(key[|REPLICATED_ROOT|..]) else None
  }

  /** Cuts at the first marker; what lies before it must be region, "clusters", cluster. */
  function ParseReplicatedPath(path: string): Option<ReplicatedId> {
    match IndexOf(path, MARKER)
    case None => None
    case Some(at) =>
      var from := SplitOn(path[..at], SLASH);
      var to := SplitOn(path[at + |MARKER|..], SLASH);
      if |from| != 3 || from[1] != "clusters" || |to| != 3 then None
      else
        var id := ReplicatedId(Source(TrimSpace(from[0]), TrimSpace(from[2]), TrimSpace(to[0]), TrimSpace(to[1])),
                               TrimSpace(to[2]));
        if NoneBlank(id) then Some(id) else None
  }

  // The keys spelled out.

  lemma KeysSpelled(id: Identity)
    ensures Key(id) == "/registry/" + id.namespace + "/" + id.service + "/" + id.instance
    ensures ServicePrefix(id.namespace, id.service) == "/registry/" + id.namespace + "/" + id.service + "/"
    ensures NamespacePrefix(id.namespace) == "/registry/" + TrimSpace(id.namespace) + "/"
  {
    Joined("/registry/", id.namespace, "/", id.service, "/", id.instance);
    Joined("/registry/", id.namespace, "/", id.service, "/", "");
  }

  lemma Joined(a: string, b: string, c: string, d: string, e: string, f: string)
    ensures a + (b + c + (d + e + f)) == a + b + c + d + e + f
    ensures a + (b + c + "") == a + b + c
  {
  }

  lemma ReplicationKeysSpelled(s: Source, name: string)
    ensures ReplicationServicePrefix(s) ==
            "/replication/regions/" + (TrimSpace(s.region) + "/" + ("clusters" + "/" + (TrimSpace(s.cluster) + "/"
              + ("registry" + "/" + (TrimSpace(s.namespace) + "/" + (TrimSpace(s.service) + "/" + ""))))))
    ensures ReplicatedKey(ReplicatedId(s, name)) ==
            "/replication/regions/" + (TrimSpace(s.region) + "/" + ("clusters" + "/" + (TrimSpace(s.cluster) + "/"
              + ("registry" + "/" + (TrimSpace(s.namespace) + "/" + (TrimSpace(s.service) + "/" + TrimSpace(name)))))))
    ensures CheckpointKey(s) ==
            "/replication/checkpoints/" + (TrimSpace(s.region) + "/" + (TrimSpace(s.cluster) + "/"
              + (TrimSpace(s.namespace) + "/" + TrimSpace(s.service))))
  {
    hide TrimSpace;
  }

  predicate NoneBlank(id: ReplicatedId) {
    && id.source.region != "" && id.source.cluster != "" && id.source.namespace != "" && id.source.service != ""
    && id.instance != ""
  }

  function ParseCheckpointKey(key: string): Option<Source> {
    if CHECKPOINT_ROOT <= key then ParseCheckpointPath(key[|CHECKPOINT_ROOT|..]) else None
  }

  function ParseCheckpointPath(path: string): Option<Source> {
    var parts := SplitOn(path, SLASH);
    if |parts| != 4 then None
    else
      var s := Source(TrimSpace(parts[0]), TrimSpace(parts[1]), TrimSpace(parts[2]), TrimSpace(parts[3]));
      if s.region == "" || s.cluster == "" || s.namespace == "" || s.service == "" then None else Some(s)
  }

  /** A key component that survives parsing: no slash, not blank. */
  predicate Component(c: string) {
    SLASH !in c && TrimSpace(c) != ""
  }

  /** A key component as callers normalise it: trimmed and not empty.  It may hold slashes. */
  predicate Tidy(c: string) {
    c != "" && Trimmed(c)
  }

  predicate Plain(c: string) {
    Tidy(c) && SLASH !in c
  }

  predicate TidyIdentity(id: Identity) {
    Tidy(id.namespace) && Tidy(id.service) && Tidy(id.instance)
  }

  predicate SlashFree(id: Identity) {
    SLASH !in id.namespace && SLASH !in id.service && SLASH !in id.instance
  }

  predicate PlainSource(s: Source) {
    Plain(s.region) && Plain(s.cluster) && Plain(s.namespace) && Plain(s.service)
  }

  lemma PlainSourceExactly(s: Source)
    ensures PlainSource(s) <==>
              && s.region != "" && TrimSpace(s.region) == s.region && '/' !in s.region
              && s.cluster != "" && TrimSpace(s.cluster) == s.cluster && '/' !in s.cluster
              && s.namespace != "" && TrimSpace(s.namespace) == s.namespace && '/' !in s.namespace
              && s.service != "" && TrimSpace(s.service) == s.service && '/' !in s.service
  {
    hide Plain, TrimSpace;
    PlainExactly(s.region);
    PlainExactly(s.cluster);
    PlainExactly(s.namespace);
    PlainExactly(s.service);
  }

  lemma PlainExactly(c: string)
    ensures Plain(c) <==> c != "" && TrimSpace(c) == c && '/' !in c
  {
    hide TrimSpace, Trimmed;
  }

  predicate PlainId(id: ReplicatedId) {
    PlainSource(id.source) && Plain(id.instance)
  }

  lemma SlashedIsJoin(a: string, b: string, c: string)
    ensures Join([a], [SLASH]) == a
    ensures Join([a, b], [SLASH]) == Slashed(a, b)
    ensures Join([a, b, c], [SLASH]) == Slashed(a, Slashed(b, c))
  {
    JoinCons(a, [b], [SLASH]);
    JoinCons(b, [c], [SLASH]);
    JoinCons(a, [b, c], [SLASH]);
    assert [a] + [b] == [a, b] && [b] + [c] == [b, c] && [a] + [b, c] == [a, b, c];
  }

  lemma JoinCons(a: string, rest: seq<string>, sep: string)
    requires rest != []
    ensures Join([a] + rest, sep) == a + sep + Join(rest, sep)
    ensures Join([a], sep) == a
    ensures |rest| == 1 ==> Join(rest, sep) == rest[0]
  {
    assert ([a] + rest)[1..] == rest;
  }

  lemma RootRest(root: string, rest: string)
    ensures root <= root + rest && (root + rest)[|root|..] == rest
  {
  }

  lemma RootCancels(root: string, p: string, k: string)
    ensures root + p <= root + k <==> p <= k
  {
    RootRest(root, p);
    RootRest(root, k);
    if p <= k {
      assert root + k == (root + p) + k[|p|..];
    }
    if root + p <= root + k {
      assert p == (root + k)[|root|..|root| + |p|] == k[..|p|];
    }
  }

  lemma RootsApart(rootA: string, p: string, rootB: string, k: string, i: nat)
    requires i < |rootA| && i < |rootB| && rootA[i] != rootB[i]
    ensures !(rootA + p <= rootB + k)
  {
    assert (rootA + p)[i] == rootA[i] && (rootB + k)[i] == rootB[i];
  }

  /** An instance key parses to an identity exactly when it was built from it and no component is blank
      or holds a slash. */
  lemma ParseKeyExactly(key: string, id: Identity)
    ensures ParseKey(key) == Some(id) <==>
            && key == Key(id)
            && Component(id.namespace) && Component(id.service) && Component(id.instance)
  {
    hide Slashed, ParseIdentity, Component;
    var path := Slashed(id.namespace, Slashed(id.service, id.instance));
    RootRest(ROOT, path);
    if ROOT <= key {
      ParseIdentityExactly(key[|ROOT|..], id);
      assert key == ROOT + key[|ROOT|..];
    }
  }

  lemma ParseIdentityExactly(path: string, id: Identity)
    ensures ParseIdentity(path) == Some(id) <==>
            && path == Slashed(id.namespace, Slashed(id.service, id.instance))
            && Component(id.namespace) && Component(id.service) && Component(id.instance)
  {
    hide SplitOn, Join, Slashed, TrimSpace;
    var parts := [id.namespace, id.service, id.instance];
    SlashedIsJoin(id.namespace, id.service, id.instance);
    SplitExactly(path, parts);
    InThree(id.namespace, id.service, id.instance);
    var found := SplitOn(path, SLASH);
    if |found| == 3 {
      assert found == [found[0], found[1], found[2]];
    }
  }

  lemma InThree(a: string, b: string, c: string)
    ensures (forall part :: part in [a, b, c] ==> SLASH !in part) <==> SLASH !in a && SLASH !in b && SLASH !in c
  {
    assert a in [a, b, c] && b in [a, b, c] && c in [a, b, c];
  }

  /** Splitting gives certain parts exactly when the text is their join and none holds a slash. */
  lemma SplitExactly(path: string, parts: seq<string>)
    requires parts != []
    ensures SplitOn(path, SLASH) == parts <==> path == Join(parts, [SLASH]) && forall c :: c in parts ==> SLASH !in c
  {
    JoinOfSplit(path, SLASH);
    if forall c :: c in parts ==> SLASH !in c { SplitOfJoin(parts, SLASH); }
  }

  // Slashes inside components.

  lemma {:induction false} PiecesOfSlashed(a: string, rest: string)
    ensures |SplitOn(Slashed(a, rest), SLASH)| == |SplitOn(a, SLASH)| + |SplitOn(rest, SLASH)|
    decreases |a|
  {
    if a == [] {
      assert Slashed(a, rest)[1..] == rest;
    } else {
      PiecesOfSlashed(a[1..], rest);
      assert Slashed(a, rest)[1..] == Slashed(a[1..], rest);
    }
  }

  lemma {:induction false} OnePieceExactly(s: string)
    ensures |SplitOn(s, SLASH)| == 1 <==> SLASH !in s
    decreases |s|
  {
    if s != [] {
      OnePieceExactly(s[1..]);
      assert s == [s[0]] + s[1..];
    }
  }

  /** An instance path has three pieces exactly when no component holds a slash. */
  lemma ThreePiecesExactly(id: Identity)
    ensures |SplitOn(Slashed(id.namespace, Slashed(id.service, id.instance)), SLASH)| == 3 <==> SlashFree(id)
  {
    hide SplitOn, Slashed;
    PiecesOfSlashed(id.namespace, Slashed(id.service, id.instance));
    PiecesOfSlashed(id.service, id.instance);
    OnePieceExactly(id.namespace);
    OnePieceExactly(id.service);
    OnePieceExactly(id.instance);
  }

  /** Only slash-free identities own their key alone. */
  lemma SlashFreeKeyIsOwn(a: Identity, b: Identity)
    requires Key(a) == Key(b) && SlashFree(b)
    ensures a == b
  {
    hide SplitOn, Slashed, Join;
    var pathA := Slashed(a.namespace, Slashed(a.service, a.instance));
    var pathB := Slashed(b.namespace, Slashed(b.service, b.instance));
    RootRest(ROOT, pathA);
    RootRest(ROOT, pathB);
    ThreePiecesExactly(a);
    ThreePiecesExactly(b);
    SplitThree(a.namespace, a.service, a.instance);
    SplitThree(b.namespace, b.service, b.instance);
  }

  /** A built key parses to its identity exactly when no component holds a slash or is blank. */
  lemma BuiltKeyParses(id: Identity)
    requires TidyIdentity(id)
    ensures ParseKey(Key(id)) == if SlashFree(id) then Some(id) else None
  {
    hide Key, ParseKey, Trimmed;
    ParseKeyExactly(Key(id), id);
    if ParseKey(Key(id)).Some? {
      var other := ParseKey(Key(id)).value;
      ParseKeyExactly(Key(id), other);
      SlashFreeKeyIsOwn(id, other);
    }
  }

  /** A segment followed by a slash matches a word and a slash only when it is that word. */
  lemma SegmentMatch(a: string, x: string, b: string, y: string)
    requires SLASH !in a && SLASH !in b
    ensures Slashed(a, x) <= Slashed(b, y) <==> a == b && x <= y
  {
    var p, k := Slashed(a, x), Slashed(b, y);
    assert p[|a|] == SLASH && k[|b|] == SLASH;
    assert |a| < |b| ==> k[|a|] == b[|a|] && b[|a|] in b;
    assert |b| < |a| ==> p[|b|] == a[|b|] && a[|b|] in a;
    if p <= k {
      assert a == p[..|a|] == k[..|a|] == b;
      assert x == p[|a| + 1..] && y == k[|a| + 1..];
    }
    if a == b && x <= y {
      assert y == x + y[|x|..];
      assert k == p + y[|x|..];
    }
  }

  function Marked(word: string): string {
    [SLASH] + Slashed(word, "")
  }

  /** Where the first slash-word-slash of a path is: after the cluster, or already at the cluster when
      that is the very word. */
  lemma FirstMarker(region: string, mid: string, cluster: string, word: string, rest: string)
    requires SLASH !in region && SLASH !in mid && SLASH !in cluster && SLASH !in word && mid != word
    ensures IndexOf(Slashed(region, Slashed(mid, Slashed(cluster, Slashed(word, rest)))), Marked(word)) ==
            Some(|region| + 1 + |mid| + if cluster == word then 0 else 1 + |cluster|)
  {
    hide IndexOf;
    var inner := Slashed(cluster, Slashed(word, rest));
    MarkerHere(word, rest);
    MarkerPast(cluster, word, Slashed(word, rest));
    MarkerPast(mid, word, inner);
    SegmentThen(region, Slashed(mid, inner));
    IndexAfter(region, [SLASH] + Slashed(mid, inner), Marked(word));
  }

  lemma MarkerHere(word: string, rest: string)
    ensures IndexOf([SLASH] + Slashed(word, rest), Marked(word)) == Some(0)
  {
    assert [SLASH] + Slashed(word, rest) == Marked(word) + rest;
  }

  /** One segment further: found here when the segment is the word, otherwise searched for behind it. */
  lemma MarkerPast(segment: string, word: string, rest: string)
    requires SLASH !in segment && SLASH !in word
    ensures IndexOf([SLASH] + Slashed(segment, rest), Marked(word)) ==
            if segment == word then Some(0) else Shifted(IndexOf([SLASH] + rest, Marked(word)), 1 + |segment|)
  {
    var text := [SLASH] + Slashed(segment, rest);
    SegmentMatch(word, "", segment, rest);
    RootCancels([SLASH], Slashed(word, ""), Slashed(segment, rest));
    SegmentThen(segment, rest);
    IndexAfter(segment, [SLASH] + rest, Marked(word));
    assert text[1..] == Slashed(segment, rest);
  }

  lemma SegmentThen(segment: string, rest: string)
    ensures Slashed(segment, rest) == segment + ([SLASH] + rest)
  {
  }

  lemma MarkerIsWord()
    ensures MARKER == Marked("registry")
    ensures SLASH !in "registry" && SLASH !in "clusters" && "clusters" != "registry" && |"clusters"| == 8
  {
    assert "clusters"[0] != "registry"[0];
  }

  /** A built replicated key parses back to its five components exactly when the cluster is not called
      "registry". */
  lemma ReplicatedKeyRoundTrip(id: ReplicatedId)
    requires PlainId(id)
    ensures ParseReplicatedKey(ReplicatedKey(id)) == Some(id) <==> id.source.cluster != "registry"
    ensures id.source.cluster == "registry" ==> ParseReplicatedKey(ReplicatedKey(id)) == None
  {
    hide SourcePath, ParseReplicatedPath;
    RootRest(REPLICATED_ROOT, SourcePath(id.source, id.instance));
    PathRoundTrip(id);
  }

  lemma PathRoundTrip(id: ReplicatedId)
    requires PlainId(id)
    ensures ParseReplicatedPath(SourcePath(id.source, id.instance)) ==
            if id.source.cluster == "registry" then None else Some(id)
  {
    hide SourcePath, IndexOf, SplitOn;
    if id.source.cluster == "registry" {
      CutAtCluster(id);
    } else {
      CutAfterCluster(id);
    }
  }

  lemma CutAfterCluster(id: ReplicatedId)
    requires PlainId(id) && id.source.cluster != "registry"
    ensures var s, path := id.source, SourcePath(id.source, id.instance);
            && IndexOf(path, MARKER).Some?
            && var at := IndexOf(path, MARKER).value;
               && SplitOn(path[..at], SLASH) == [s.region, "clusters", s.cluster]
               && SplitOn(path[at + |MARKER|..], SLASH) == [s.namespace, s.service, id.instance]
  {
    hide IndexOf, SplitOn, Slashed, Marked, SourcePath, Trimmed;
    var s := id.source;
    MarkerIsWord();
    PlainPath(s, id.instance);
    CutAtMarker(s.region, "clusters", s.cluster, "registry", Slashed(s.namespace, Slashed(s.service, id.instance)));
    SplitThree(s.namespace, s.service, id.instance);
  }

  lemma PlainPath(s: Source, rest: string)
    requires PlainSource(s)
    ensures SourcePath(s, rest) ==
            Slashed(s.region, Slashed("clusters", Slashed(s.cluster,
              Slashed("registry", Slashed(s.namespace, Slashed(s.service, rest))))))
  {
  }

  lemma CutAtMarker(region: string, mid: string, cluster: string, word: string, target: string)
    requires SLASH !in region && SLASH !in mid && SLASH !in cluster && SLASH !in word && mid != word && cluster != word
    ensures var path := Slashed(region, Slashed(mid, Slashed(cluster, Slashed(word, target))));
            && IndexOf(path, Marked(word)).Some?
            && var at := IndexOf(path, Marked(word)).value;
               SplitOn(path[..at], SLASH) == [region, mid, cluster] && path[at + |Marked(word)|..] == target
  {
    hide IndexOf, Marked, SplitOn;
    SplitThree(region, mid, cluster);
    FirstMarker(region, mid, cluster, word, target);
    FrontAndTarget(region, mid, cluster, word, target);
    CutMiddle(Slashed(region, Slashed(mid, cluster)), Marked(word), target);
  }

  lemma SplitThree(a: string, b: string, c: string)
    requires SLASH !in a && SLASH !in b && SLASH !in c
    ensures SplitOn(Slashed(a, Slashed(b, c)), SLASH) == [a, b, c]
  {
    SlashedIsJoin(a, b, c);
    InThree(a, b, c);
    SplitOfJoin([a, b, c], SLASH);
  }

  lemma FrontAndTarget(region: string, mid: string, cluster: string, word: string, target: string)
    ensures Slashed(region, Slashed(mid, Slashed(cluster, Slashed(word, target))))
         == Slashed(region, Slashed(mid, cluster)) + Marked(word) + target
    ensures |Slashed(region, Slashed(mid, cluster))| == |region| + 1 + |mid| + 1 + |cluster|
  {
    SegmentThen(cluster, Slashed(word, target));
    assert [SLASH] + Slashed(word, target) == Marked(word) + target;
    SlashedEnd(mid, cluster, Marked(word) + target);
    SlashedEnd(region, Slashed(mid, cluster), Marked(word) + target);
    Regroup(Slashed(region, Slashed(mid, cluster)), Marked(word), target);
  }

  lemma Regroup(a: string, b: string, c: string)
    ensures a + (b + c) == a + b + c
  {
  }

  lemma CutMiddle(a: string, b: string, c: string)
    ensures (a + b + c)[..|a|] == a && (a + b + c)[|a| + |b|..] == c
  {
  }

  lemma CutAtCluster(id: ReplicatedId)
    requires PlainId(id) && id.source.cluster == "registry"
    ensures var path := SourcePath(id.source, id.instance);
            && IndexOf(path, MARKER).Some?
            && |SplitOn(path[..IndexOf(path, MARKER).value], SLASH)| == 2
  {
    hide IndexOf, SplitOn, Join;
    var s := id.source;
    MarkerIsWord();
    var target := Slashed(s.namespace, Slashed(s.service, id.instance));
    FirstMarker(s.region, "clusters", s.cluster, "registry", target);
    var tail := Slashed(s.cluster, Slashed("registry", target));
    TwoSegments(s.region, "clusters", tail);
    SlashedIsJoin(s.region, "clusters", "");
    forall part | part in [s.region, "clusters"] ensures SLASH !in part { }
    SplitOfJoin([s.region, "clusters"], SLASH);
  }

  lemma TwoSegments(a: string, b: string, rest: string)
    ensures Slashed(a, Slashed(b, rest))[..|a| + 1 + |b|] == Slashed(a, b)
  {
    SegmentThen(b, rest);
    SlashedEnd(a, b, [SLASH] + rest);
  }

  lemma CheckpointKeyRoundTrip(s: Source)
    requires PlainSource(s)
    ensures ParseCheckpointKey(CheckpointKey(s)) == Some(s)
  {
    var parts := [s.region, s.cluster, s.namespace, s.service];
    RootRest(CHECKPOINT_ROOT, Join(parts, [SLASH]));
    SlashedIsJoin(s.cluster, s.namespace, s.service);
    assert parts[1..] == [s.cluster, s.namespace, s.service];
    SplitOfJoin(parts, SLASH);
    assert CheckpointKey(s) == CHECKPOINT_ROOT + Join(parts, [SLASH]);
  }

  /** The prefix of one replicated service is a prefix of exactly that service's replicated keys. */
  lemma ServicePrefixMatches(s: Source, id: ReplicatedId)
    requires PlainSource(s) && PlainSource(id.source) && Tidy(id.instance)
    ensures ReplicationServicePrefix(s) <= ReplicatedKey(id) <==> s == id.source
    ensures s == id.source ==> ReplicatedKey(id) == ReplicationServicePrefix(s) + id.instance
  {
    hide SourcePath, Trimmed, Slashed;
    PathMatches(s, id.source, "", id.instance);
    RootCancels(REPLICATED_ROOT, SourcePath(s, ""), SourcePath(id.source, id.instance));
    if s == id.source {
      PathEnd(s, id.instance);
      assert REPLICATED_ROOT + (SourcePath(s, "") + id.instance) == REPLICATED_ROOT + SourcePath(s, "") + id.instance;
    }
  }

  lemma PathEnd(s: Source, end: string)
    ensures SourcePath(s, end) == SourcePath(s, "") + end
  {
    SlashedEnd(TrimSpace(s.service), "", end);
    var s1 := Slashed(TrimSpace(s.service), "");
    SlashedEnd(TrimSpace(s.namespace), s1, end);
    var s2 := Slashed(TrimSpace(s.namespace), s1);
    SlashedEnd("registry", s2, end);
    var s3 := Slashed("registry", s2);
    SlashedEnd(TrimSpace(s.cluster), s3, end);
    var s4 := Slashed(TrimSpace(s.cluster), s3);
    SlashedEnd("clusters", s4, end);
    SlashedEnd(TrimSpace(s.region), Slashed("clusters", s4), end);
  }

  lemma SlashedEnd(a: string, rest: string, end: string)
    ensures Slashed(a, rest + end) == Slashed(a, rest) + end
    ensures "" + end == end
  {
    assert a + [SLASH] + (rest + end) == (a + [SLASH] + rest) + end;
  }

  lemma PathMatches(a: Source, b: Source, x: string, y: string)
    requires PlainSource(a) && PlainSource(b)
    ensures SourcePath(a, x) <= SourcePath(b, y) <==> a == b && x <= y
  {
    var (a4, b4) := (Slashed(a.service, x), Slashed(b.service, y));
    var (a3, b3) := (Slashed(a.namespace, a4), Slashed(b.namespace, b4));
    var (a2, b2) := (Slashed("registry", a3), Slashed("registry", b3));
    var (a1, b1) := (Slashed(a.cluster, a2), Slashed(b.cluster, b2));
    SegmentMatch(a.service, x, b.service, y);
    SegmentMatch(a.namespace, a4, b.namespace, b4);
    SegmentMatch("registry", a3, "registry", b3);
    SegmentMatch(a.cluster, a2, b.cluster, b2);
    SegmentMatch("clusters", a1, "clusters", b1);
    SegmentMatch(a.region, Slashed("clusters", a1), b.region, Slashed("clusters", b1));
  }

  /** Deleting a replicated service's prefix removes its instances and no other replicated instance. */
  lemma DeleteServiceExactly(db: Db, s: Source, id: ReplicatedId)
    requires PlainSource(s) && PlainSource(id.source) && Tidy(id.instance)
    ensures var key, after := ReplicatedKey(id), ApplyCommand(db, DeletePrefix(ReplicationServicePrefix(s)));
            key in after <==> key in db && (id.source != s || id.instance[0] >= MAX_BYTE)
  {
    hide ReplicatedKey, ReplicationServicePrefix, InPrefixRange, Trimmed;
    ServicePrefixMatches(s, id);
    RangeOfName(ReplicationServicePrefix(s), ReplicatedKey(id), id.instance);
  }

  lemma RangeOfName(prefix: string, key: string, name: string)
    requires name != "" && (prefix <= key ==> key == prefix + name)
    ensures InPrefixRange(key, prefix) <==> prefix <= key && name[0] < MAX_BYTE
  {
    PrefixRange(prefix, key);
  }

  /** It removes nothing outside the replicated directory: no checkpoint, local instance or metadata. */
  lemma DeleteServiceSparesOthers(db: Db, s: Source, other: Source, id: Identity, key: string)
    ensures var after := ApplyCommand(db, DeletePrefix(ReplicationServicePrefix(s)));
            key == CheckpointKey(other) || key == Key(id) || IsMetaKey(key) ==>
              (key in after <==> key in db) && (key in db ==> after[key] == db[key])
  {
    hide SourcePath, InPrefixRange, Slashed;
    var prefix, path := ReplicationServicePrefix(s), SourcePath(s, "");
    NotInRange(prefix, key);
    RootLetters();
    if IsMetaKey(key) {
      assert key == META_PREFIX + key[|META_PREFIX|..];
      RootsApart(REPLICATED_ROOT, path, META_PREFIX, key[|META_PREFIX|..], 0);
    } else if key == Key(id) {
      RootsApart(REPLICATED_ROOT, path, ROOT, Slashed(id.namespace, Slashed(id.service, id.instance)), 3);
    } else if key == CheckpointKey(other) {
      RootsApart(REPLICATED_ROOT, path, CHECKPOINT_ROOT, key[|CHECKPOINT_ROOT|..], 13);
    }
  }

  lemma NotInRange(prefix: string, key: string)
    ensures InPrefixRange(key, prefix) ==> prefix <= key
  {
    PrefixRange(prefix, key);
  }

  lemma RootLetters()
    ensures REPLICATED_ROOT[0] != META_PREFIX[0] && REPLICATED_ROOT[3] != ROOT[3]
    ensures REPLICATED_ROOT[13] != CHECKPOINT_ROOT[13]
    ensures 13 < |CHECKPOINT_ROOT| && 13 < |REPLICATED_ROOT| && 3 < |ROOT|
  {
  }
}
