/** Member addresses are listed by node id.

    Their keys end in the decimal node id, so among them the order by node id is: shorter keys first, keys
    of one length in lexicographic order.
 */
module Members {
  import opened Lex

  const MEMBERS_PREFIX := "__meta__/members/"

  predicate Lower(a: string, b: string) {
    |a| < |b| || (|a| == |b| && Less(a, b))
  }

  lemma LowerTrichotomy(a: string, b: string)
    ensures !Lower(a, a) && !(Lower(a, b) && Lower(b, a))
    ensures Lower(a, b) || a == b || Lower(b, a)
  {
    Trichotomy(a, b);
  }

  lemma LowerTransitive(a: string, b: string, c: string)
    requires Lower(a, b) && Lower(b, c)
    ensures Lower(a, c)
  {
    if |a| == |b| == |c| {
      Transitive(a, b, c);
    }
  }

  ghost function Lowest(keys: set<string>): (lowest: string)
    requires keys != {}
    ensures lowest in keys && forall k :: k in keys ==> k == lowest || Lower(lowest, k)
  {
    var x :| x in keys;
    if keys == {x} then x
    else
      var m := Lowest(keys - {x});
      LowerTrichotomy(x, m);
      assert forall k :: k in keys ==> k == x || k in keys - {x};
      if Lower(x, m) then
        assert forall k :: k in keys - {x} ==> Lower(x, k) by {
          forall k | k in keys - {x} && k != m ensures Lower(x, k) { LowerTransitive(x, m, k); }
        }
        x
      else
        m
  }

  /** Keys by node id. */
  ghost function ByNode(keys: set<string>): seq<string> {
    if keys == {} then [] else [Lowest(keys)] + ByNode(keys - {Lowest(keys)})
  }

  lemma {:induction false} ByNodeFacts(keys: set<string>)
    ensures forall k :: k in ByNode(keys) <==> k in keys
    ensures forall i, j :: 0 <= i < j < |ByNode(keys)| ==> Lower(ByNode(keys)[i], ByNode(keys)[j])
    decreases |keys|
  {
    if keys != {} {
      var m := Lowest(keys);
      var rest := ByNode(keys - {m});
      ByNodeFacts(keys - {m});
      forall k ensures k in [m] + rest <==> k in keys { assert k in rest <==> k in keys - {m}; }
      forall i, j | 0 <= i < j < |[m] + rest| ensures Lower(([m] + rest)[i], ([m] + rest)[j]) {
        assert ([m] + rest)[j] == rest[j - 1] && rest[j - 1] in rest;
        if i > 0 { assert ([m] + rest)[i] == rest[i - 1]; }
      }
    }
  }

  lemma LowestIsUnique(keys: set<string>, m: string)
    requires m in keys && forall k :: k in keys ==> k == m || Lower(m, k)
    ensures Lowest(keys) == m
  {
    LowerTrichotomy(m, Lowest(keys));
  }

  // Decimal node ids.

  function Digit(n: nat): char
    requires n < 10
  {
    (n + 48) as char
  }

  function Decimal(n: nat): string {
    if n < 10 then [Digit(n)] else Decimal(n / 10) + [Digit(n % 10)]
  }

  /** Decimal digits, the highest first. */
  lemma DecimalExactly(n: nat)
    ensures if n < 10 then Decimal(n) == ["0123456789"[n]] else Decimal(n) == Decimal(n / 10) + Decimal(n % 10)
  {
    var digits := "0123456789";
    if n < 10 {
      assert digits[n] == (n + 48) as char;
    }
  }

  function MemberKey(node: nat): string {
    MEMBERS_PREFIX + Decimal(node)
  }

  lemma {:induction false} LessWithEnds(a: string, b: string, x: char, y: char)
    requires |a| == |b|
    ensures Less(a + [x], b + [y]) <==> Less(a, b) || (a == b && x < y)
    decreases |a|
  {
    if a != [] {
      LessWithEnds(a[1..], b[1..], x, y);
      assert (a + [x])[1..] == a[1..] + [x] && (b + [y])[1..] == b[1..] + [y];
      assert a == [a[0]] + a[1..] && b == [b[0]] + b[1..];
      Trichotomy(a, b);
    } else {
      assert [] + [x] == [x] && [] + [y] == [y] && [x][1..] == [] && [y][1..] == [];
    }
  }

  lemma {:induction false} LessBehind(prefix: string, a: string, b: string)
    ensures Less(prefix + a, prefix + b) <==> Less(a, b)
    decreases |prefix|
  {
    if prefix == [] {
      assert prefix + a == a && prefix + b == b;
    } else {
      LessBehind(prefix[1..], a, b);
      assert (prefix + a)[1..] == prefix[1..] + a && (prefix + b)[1..] == prefix[1..] + b;
    }
  }

  lemma {:induction false} DecimalRises(a: nat, b: nat)
    requires a < b
    ensures Lower(Decimal(a), Decimal(b))
    decreases b
  {
    if b < 10 {
      assert Decimal(a)[1..] == [] && Decimal(b)[1..] == [];
    } else if a >= 10 {
      if a / 10 < b / 10 {
        DecimalRises(a / 10, b / 10);
      }
      if |Decimal(a / 10)| == |Decimal(b / 10)| {
        LessWithEnds(Decimal(a / 10), Decimal(b / 10), Digit(a % 10), Digit(b % 10));
      }
    }
  }

  /** On member keys this order is the order of the node ids. */
  lemma NodeOrderIsNumeric(a: nat, b: nat)
    ensures Lower(MemberKey(a), MemberKey(b)) <==> a < b
  {
    LessBehind(MEMBERS_PREFIX, Decimal(a), Decimal(b));
    LessBehind(MEMBERS_PREFIX, Decimal(b), Decimal(a));
    LowerTrichotomy(Decimal(a), Decimal(b));
    if a < b {
      DecimalRises(a, b);
    } else if b < a {
      DecimalRises(b, a);
    }
  }
}
