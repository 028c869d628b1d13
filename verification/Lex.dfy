/** Byte strings in lexicographic order.

    A Go string or byte slice is a `string` here, one `char` per byte: the char with
    code c stands for the byte c.  Keys of the store are compared byte by byte, a proper
    prefix coming first.
 */
module Lex {

  const ZERO_BYTE: char := '\0'
  const MAX_BYTE: char := '\U{FF}'

  predicate Less(a: string, b: string) {
    if b == [] then false
    else if a == [] then true
    else a[0] < b[0] || (a[0] == b[0] && Less(a[1..], b[1..]))
  }

  predicate LessEq(a: string, b: string) {
    !Less(b, a)
  }

  lemma {:induction false} Trichotomy(a: string, b: string)
    ensures !Less(a, a)
    ensures !(Less(a, b) && Less(b, a))
    ensures Less(a, b) || a == b || Less(b, a)
    decreases |a| + |b|
  {
    if a != [] {
      Trichotomy(a[1..], []);
      if b != [] {
        Trichotomy(a[1..], b[1..]);
        assert a == [a[0]] + a[1..] && b == [b[0]] + b[1..];
      }
    }
  }

  /** The order compares at the first byte that differs; a proper prefix comes first. */
  lemma LessExactly(a: string, b: string)
    ensures Less(a, b) <==>
              exists i :: 0 <= i <= |a| && i < |b| && a[..i] == b[..i] && (i == |a| || a[i] < b[i])
  {
    if Less(a, b) {
      var i := FirstDifference(a, b);
    }
    if i :| 0 <= i <= |a| && i < |b| && a[..i] == b[..i] && (i == |a| || a[i] < b[i]) {
      DifferenceDecides(a, b, i);
    }
  }

  lemma {:induction false} FirstDifference(a: string, b: string) returns (i: nat)
    requires Less(a, b)
    ensures i <= |a| && i < |b| && a[..i] == b[..i] && (i == |a| || a[i] < b[i])
  {
    i := 0;
    if a != [] && a[0] == b[0] {
      var j := FirstDifference(a[1..], b[1..]);
      i := j + 1;
      assert a[..i] == [a[0]] + a[1..][..j] && b[..i] == [b[0]] + b[1..][..j];
    }
  }

  lemma {:induction false} DifferenceDecides(a: string, b: string, i: nat)
    requires i <= |a| && i < |b| && a[..i] == b[..i] && (i == |a| || a[i] < b[i])
    ensures Less(a, b)
    decreases i
  {
    if i > 0 {
      assert a[0] == a[..i][0] == b[..i][0] == b[0];
      assert a[1..][..i - 1] == a[..i][1..] && b[1..][..i - 1] == b[..i][1..];
      DifferenceDecides(a[1..], b[1..], i - 1);
    }
  }

  lemma {:induction false} Transitive(a: string, b: string, c: string)
    requires Less(a, b) && Less(b, c)
    ensures Less(a, c)
    decreases |a|
  {
    if a != [] && a[0] == b[0] && b[0] == c[0] {
      Transitive(a[1..], b[1..], c[1..]);
    }
  }

  lemma LessEqTransitive(a: string, b: string, c: string)
    requires LessEq(a, b) && LessEq(b, c)
    ensures LessEq(a, c)
    ensures Less(a, b) || Less(b, c) ==> Less(a, c)
  {
    Trichotomy(a, b);
    Trichotomy(b, c);
    Trichotomy(a, c);
    if Less(a, b) && Less(b, c) {
      Transitive(a, b, c);
    }
  }

  /** Appending a zero byte gives the immediate successor of a key: nothing lies between. */
  lemma {:induction false} ZeroByteIsNext(a: string, k: string)
    ensures Less(a, k) <==> LessEq(a + [ZERO_BYTE], k)
    decreases |a|
  {
    if a == [] {
      assert [ZERO_BYTE][1..] == [];
      if k != [] {
        assert k[0] as int >= ZERO_BYTE as int;
        assert !Less(k[1..], []);
      }
    } else if k != [] {
      assert (a + [ZERO_BYTE])[1..] == a[1..] + [ZERO_BYTE];
      ZeroByteIsNext(a[1..], k[1..]);
    }
  }

  /** The half-open range of keys from `lo` up to, not including, `hi`; no `hi` means no upper bound. */
  datatype Bound = Unbounded | Before(key: string)

  predicate InRange(k: string, lo: string, hi: Bound) {
    LessEq(lo, k) && (hi.Before? ==> Less(k, hi.key))
  }

  /** The range every prefix scan and prefix delete uses: from the prefix to the prefix plus byte 0xFF. */
  function PrefixEnd(prefix: string): string {
    prefix + [MAX_BYTE]
  }

  /** Which keys that range holds: the extensions of the prefix whose next byte is not 0xFF. */
  lemma {:induction false} PrefixRange(prefix: string, k: string)
    ensures InRange(k, prefix, Before(PrefixEnd(prefix)))
       <==> prefix <= k && (|k| == |prefix| || k[|prefix|] < MAX_BYTE)
    decreases |prefix|
  {
    if prefix == [] {
      if k != [] {
        assert PrefixEnd([])[1..] == [] && !Less(k[1..], []);
      }
    } else if k != [] {
      assert PrefixEnd(prefix)[1..] == PrefixEnd(prefix[1..]);
      PrefixRange(prefix[1..], k[1..]);
      assert prefix == [prefix[0]] + prefix[1..] && k == [k[0]] + k[1..];
      if k[0] == prefix[0] {
        assert prefix <= k <==> prefix[1..] <= k[1..];
      }
    }
  }

  predicate Ascending(ks: seq<string>) {
    forall i, j :: 0 <= i < j < |ks| ==> Less(ks[i], ks[j])
  }

  ghost function Least(ks: set<string>): (least: string)
    requires ks != {}
    ensures least in ks && forall k :: k in ks ==> LessEq(least, k)
  {
    var x :| x in ks;
    if ks == {x} then
      Trichotomy(x, x);
      x
    else
      var m := Least(ks - {x});
      assert forall k :: k in ks ==> k == x || k in ks - {x};
      if Less(x, m) then
        assert forall k :: k in ks - {x} ==> LessEq(x, k) by {
          forall k | k in ks - {x} ensures LessEq(x, k) { Trichotomy(x, m); LessEqTransitive(x, m, k); }
        }
        Trichotomy(x, x);
        x
      else
        m
  }

  /** The keys of a finite set in ascending order: what an iterator over it yields. */
  ghost function Listing(ks: set<string>): seq<string> {
    if ks == {} then [] else [Least(ks)] + Listing(ks - {Least(ks)})
  }

  lemma {:induction false} ListingFacts(ks: set<string>)
    ensures forall k :: k in Listing(ks) <==> k in ks
    ensures |Listing(ks)| == |ks|
    ensures Ascending(Listing(ks))
    decreases |ks|
  {
    if ks != {} {
      var m := Least(ks);
      var rest := Listing(ks - {m});
      ListingFacts(ks - {m});
      forall k | k in rest ensures Less(m, k) { Trichotomy(m, k); }
      AscendingCons(m, rest);
      forall k ensures k in [m] + rest <==> k in ks { assert k in rest <==> k in ks - {m}; }
    }
  }

  lemma AscendingCons(m: string, rest: seq<string>)
    requires Ascending(rest)
    requires forall k :: k in rest ==> Less(m, k)
    ensures Ascending([m] + rest)
  {
    var all := [m] + rest;
    forall i, j | 0 <= i < j < |all| ensures Less(all[i], all[j]) {
      assert all[j] == rest[j - 1];
      if i > 0 { assert all[i] == rest[i - 1]; }
    }
  }

  lemma LeastIsUnique(ks: set<string>, m: string)
    requires m in ks && forall k :: k in ks ==> LessEq(m, k)
    ensures Least(ks) == m
  {
    Trichotomy(m, Least(ks));
  }

  /** An ascending sequence is determined by its elements. */
  lemma {:induction false} AscendingIsUnique(a: seq<string>, b: seq<string>)
    requires Ascending(a) && Ascending(b)
    requires forall k :: k in a <==> k in b
    ensures a == b
    decreases |a|
  {
    assert (a == [] || a[0] in a) && (b == [] || b[0] in b);
    if a != [] && b != [] {
      SameHead(a, b);
      forall k ensures k in a[1..] <==> k in b[1..] {
        TailElement(a, k);
        TailElement(b, k);
      }
      AscendingIsUnique(a[1..], b[1..]);
    }
  }

  lemma SameHead(a: seq<string>, b: seq<string>)
    requires a != [] && b != [] && Ascending(a) && Ascending(b)
    requires a[0] in b && b[0] in a
    ensures a[0] == b[0]
  {
    var i :| 0 <= i < |b| && b[i] == a[0];
    var j :| 0 <= j < |a| && a[j] == b[0];
    if a[0] != b[0] {
      Trichotomy(a[0], b[0]);
    }
  }

  lemma TailElement(a: seq<string>, k: string)
    requires a != [] && Ascending(a)
    ensures k in a[1..] <==> k in a && k != a[0]
  {
    Trichotomy(k, k);
    assert a == [a[0]] + a[1..];
  }
}
