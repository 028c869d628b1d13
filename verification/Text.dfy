/** The string functions the key parsers and the selector grammar rest on, over ASCII white space. */
module Text {

  import opened Options

  predicate IsSpace(c: char) {
    c == ' ' || c == '\t' || c == '\n' || c == '\r' || c == '\U{0B}' || c == '\U{0C}'
  }

  /** The characters that count as white space. */
  lemma SpacesListed(c: char)
    ensures IsSpace(c) <==> c in " \t\n\r\U{0B}\U{0C}"
  {
    var spaces := " \t\n\r\U{0B}\U{0C}";
    assert spaces[0] == ' ' && spaces[1] == '\t' && spaces[2] == '\n' && spaces[3] == '\r' && spaces[4] == '\U{0B}'
      && spaces[5] == '\U{0C}';
  }

  function TrimLeft(s: string): (t: string)
    ensures |t| <= |s| && t == s[|s| - |t|..]
    ensures t != [] ==> !IsSpace(t[0])
    ensures s != [] && !IsSpace(s[0]) ==> t == s
  {
    if s != [] && IsSpace(s[0]) then TrimLeft(s[1..]) else s
  }

  function TrimRight(s: string): (t: string)
    ensures t <= s
    ensures t != [] ==> !IsSpace(t[|t| - 1])
    ensures s != [] && !IsSpace(s[|s| - 1]) ==> t == s
  {
    if s != [] && IsSpace(s[|s| - 1]) then TrimRight(s[..|s| - 1]) else s
  }

  function TrimSpace(s: string): (t: string)
    ensures Trimmed(t)
    ensures Trimmed(s) ==> t == s
  {
    TrimRight(TrimLeft(s))
  }

  /** Trimming cuts white space off both ends and nothing else. */
  lemma TrimSpaceExactly(s: string) returns (front: string, back: string)
    ensures s == front + TrimSpace(s) + back
    ensures forall c :: c in front || c in back ==> IsSpace(c)
    ensures var t := TrimSpace(s); t != "" ==> !IsSpace(t[0]) && !IsSpace(t[|t| - 1])
  {
    TrimmedEnds(TrimSpace(s));
    hide IsSpace, TrimLeft, TrimRight, Trimmed;
    TrimLeftCuts(s);
    TrimRightCuts(TrimLeft(s));
    ThreePieces(s, TrimLeft(s), TrimSpace(s));
    front, back := s[..|s| - |TrimLeft(s)|], TrimLeft(s)[|TrimSpace(s)|..];
  }

  lemma ThreePieces(s: string, left: string, t: string)
    requires |left| <= |s| && left == s[|s| - |left|..] && t <= left
    ensures s == s[..|s| - |left|] + t + left[|t|..]
  {
    assert left == t + left[|t|..];
  }

  lemma TrimmedEnds(t: string)
    ensures Trimmed(t) && t != "" ==> !IsSpace(t[0]) && !IsSpace(t[|t| - 1])
  {
  }

  lemma {:induction false} TrimLeftCuts(s: string)
    ensures forall c :: c in s[..|s| - |TrimLeft(s)|] ==> IsSpace(c)
  {
    if s != [] && IsSpace(s[0]) {
      var rest := s[1..];
      TrimLeftCuts(rest);
      var n := |rest| - |TrimLeft(rest)|;
      assert s[..n + 1] == [s[0]] + rest[..n];
    }
  }

  lemma {:induction false} TrimRightCuts(s: string)
    ensures forall c :: c in s[|TrimRight(s)|..] ==> IsSpace(c)
  {
    if s != [] && IsSpace(s[|s| - 1]) {
      var front := s[..|s| - 1];
      TrimRightCuts(front);
      assert s[|TrimRight(s)|..] == front[|TrimRight(front)|..] + [s[|s| - 1]];
    }
  }

  predicate Trimmed(s: string) {
    s != [] ==> !IsSpace(s[0]) && !IsSpace(s[|s| - 1])
  }

  /** The least position of a text, or None. */
  function IndexOf(s: string, sub: string): (pos: Option<nat>)
    ensures pos.Some? ==> pos.value + |sub| <= |s|
  {
    if sub <= s then Some(0)
    else if s == [] then None
    else Shifted(IndexOf(s[1..], sub), 1)
  }

  /** It is the first occurrence, and None means there is none. */
  lemma {:induction false} IndexOfExactly(s: string, sub: string, j: nat)
    requires j <= |s|
    ensures var pos := IndexOf(s, sub);
            && (pos.None? || j < pos.value ==> !(sub <= s[j..]))
            && (pos.Some? ==> s[pos.value..pos.value + |sub|] == sub)
    decreases |s|
  {
    assert s[0..] == s;
    if !(sub <= s) && s != [] {
      IndexOfExactly(s[1..], sub, if j > 0 then j - 1 else 0);
      if j > 0 {
        assert s[1..][j - 1..] == s[j..];
      }
      var rest := IndexOf(s[1..], sub);
      if rest.Some? {
        SliceOfTail(s, rest.value, |sub|);
      }
    }
  }

  lemma SliceOfTail(s: string, i: nat, n: nat)
    requires s != [] && i + n <= |s| - 1
    ensures s[1..][i..i + n] == s[1 + i..1 + i + n]
  {
  }

  function Shifted(pos: Option<nat>, n: nat): Option<nat> {
    match pos
    case None => None
    case Some(i) => Some(n + i)
  }

  /** All parts between separators; always at least one. */
  function SplitOn(s: string, sep: char): (parts: seq<string>)
    ensures parts != []
  {
    if s == [] then [""]
    else
      var rest := SplitOn(s[1..], sep);
      if s[0] == sep then [""] + rest else [[s[0]] + rest[0]] + rest[1..]
  }

  function Join(parts: seq<string>, sep: string): string {
    if parts == [] then ""
    else if |parts| == 1 then parts[0]
    else parts[0] + sep + Join(parts[1..], sep)
  }

  lemma IndexStep(c: char, t: string, sub: string)
    requires sub != [] && c != sub[0]
    ensures IndexOf([c] + t, sub) == Shifted(IndexOf(t, sub), 1)
  {
    var s := [c] + t;
    assert !(sub <= s) by { assert s[0] == c; }
    assert s[1..] == t;
  }

  /** Nothing is found before a text that cannot begin anywhere in the front. */
  lemma {:induction false} IndexAfter(front: string, back: string, sub: string)
    requires sub != [] && sub[0] !in front
    ensures IndexOf(front + back, sub) == Shifted(IndexOf(back, sub), |front|)
    decreases |front|
  {
    if front == [] {
      assert front + back == back;
    } else {
      hide IndexOf;
      IndexAfter(front[1..], back, sub);
      IndexStep(front[0], front[1..] + back, sub);
      assert [front[0]] + (front[1..] + back) == front + back;
    }
  }

  /** A text whose first character does not occur is not found. */
  lemma {:induction false} NotFound(s: string, sub: string)
    requires sub != [] && sub[0] !in s
    ensures IndexOf(s, sub) == None
  {
    if s != [] {
      NotFound(s[1..], sub);
    }
  }

  lemma {:induction false} SplitSkips(front: string, back: string, sep: char)
    requires sep !in front
    ensures var rest := SplitOn(back, sep);
            SplitOn(front + back, sep) == [front + rest[0]] + rest[1..]
    decreases |front|
  {
    var rest := SplitOn(back, sep);
    if front == [] {
      assert front + back == back && front + rest[0] == rest[0];
    } else {
      assert (front + back)[1..] == front[1..] + back && (front + back)[0] == front[0];
      SplitSkips(front[1..], back, sep);
      assert [front[0]] + (front[1..] + rest[0]) == front + rest[0];
    }
  }

  /** Splitting undoes joining, when no part holds the separator. */
  lemma {:induction false} SplitOfJoin(parts: seq<string>, sep: char)
    requires parts != [] && forall part :: part in parts ==> sep !in part
    ensures SplitOn(Join(parts, [sep]), sep) == parts
    decreases |parts|
  {
    var first := parts[0];
    if |parts| == 1 {
      SplitSkips(first, "", sep);
      assert first + "" == first;
    } else {
      var back := Join(parts[1..], [sep]);
      SplitOfJoin(parts[1..], sep);
      SplitSkips(first, [sep] + back, sep);
      assert first + ([sep] + back) == Join(parts, [sep]);
      assert ([sep] + back)[1..] == back;
      assert first + "" == first;
    }
  }

  /** Joining undoes splitting, and no part holds the separator. */
  lemma {:induction false} JoinOfSplit(s: string, sep: char)
    ensures Join(SplitOn(s, sep), [sep]) == s
    ensures forall part :: part in SplitOn(s, sep) ==> sep !in part
  {
    if s != [] {
      hide Join;
      JoinOfSplit(s[1..], sep);
      var rest := SplitOn(s[1..], sep);
      if s[0] == sep {
        JoinBlank(rest, sep);
        assert [sep] + s[1..] == s;
      } else {
        JoinHead(s[0], rest, [sep]);
        HeadWithout(s[0], rest, sep);
        assert [s[0]] + s[1..] == s;
      }
    }
  }

  lemma JoinBlank(rest: seq<string>, sep: char)
    requires rest != []
    ensures Join([""] + rest, [sep]) == [sep] + Join(rest, [sep])
    ensures (forall part :: part in rest ==> sep !in part) ==> forall part :: part in [""] + rest ==> sep !in part
  {
    assert ([""] + rest)[1..] == rest;
    assert "" + [sep] + Join(rest, [sep]) == [sep] + Join(rest, [sep]);
  }

  lemma HeadWithout(c: char, rest: seq<string>, sep: char)
    requires rest != [] && c != sep && forall part :: part in rest ==> sep !in part
    ensures forall part :: part in [[c] + rest[0]] + rest[1..] ==> sep !in part
  {
    assert rest[0] in rest;
    forall part | part in rest[1..] ensures part in rest { }
  }

  lemma JoinHead(c: char, rest: seq<string>, sep: string)
    requires rest != []
    ensures Join([[c] + rest[0]] + rest[1..], sep) == [c] + Join(rest, sep)
  {
    var all := [[c] + rest[0]] + rest[1..];
    assert all[1..] == rest[1..];
    if |rest| > 1 {
      assert ([c] + rest[0]) + sep + Join(rest[1..], sep) == [c] + (rest[0] + sep + Join(rest[1..], sep));
    }
  }
}
