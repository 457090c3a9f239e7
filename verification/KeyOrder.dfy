/** The iteration order of std::map<std::string, …>: keys in lexicographic order. */
module KeyOrder {

  /** a < b for strings, character by character. */
  predicate Less(a: string, b: string) {
    b != "" && (a == "" || a[0] < b[0] || (a[0] == b[0] && Less(a[1..], b[1..])))
  }

  /** a and b agree up to place k, where a ends or has the smaller character. */
  ghost predicate DecidedAt(a: string, b: string, k: nat) {
    k <= |a| && k < |b| && a[..k] == b[..k] && (k == |a| || a[k] < b[k])
  }

  ghost predicate Precedes(a: string, b: string) {
    exists k: nat :: DecidedAt(a, b, k)
  }

  /** a comes before b exactly when it is a proper beginning of b or has the smaller character
      where the two first differ. */
  lemma {:induction false} LessIffPrecedes(a: string, b: string)
    ensures Less(a, b) <==> Precedes(a, b)
  {
    if b != "" && (a == "" || a[0] < b[0]) {
      assert DecidedAt(a, b, 0);
    } else if a != "" && b != "" && a[0] == b[0] {
      LessIffPrecedes(a[1..], b[1..]);
      assert a == [a[0]] + a[1..] && b == [b[0]] + b[1..];
      if k: nat :| DecidedAt(a[1..], b[1..], k) {
        assert a[..k + 1] == [a[0]] + a[1..][..k] && b[..k + 1] == [b[0]] + b[1..][..k];
        assert DecidedAt(a, b, k + 1);
      }
      if k: nat :| DecidedAt(a, b, k) {
        assert k > 0;
        assert a[1..][..k - 1] == a[..k][1..] && b[1..][..k - 1] == b[..k][1..];
        assert DecidedAt(a[1..], b[1..], k - 1);
      }
    }
  }

  /** The keys of a map in the order of its iterator. */
  lemma SortedKeysPrecede(s: set<string>)
    ensures var ks := SortedKeys(s);
            forall i, j | 0 <= i < j < |ks| :: Precedes(ks[i], ks[j])
  {
    var ks := SortedKeys(s);
    forall i, j | 0 <= i < j < |ks| ensures Precedes(ks[i], ks[j]) {
      LessIffPrecedes(ks[i], ks[j]);
    }
  }

  lemma {:induction false} LessTotal(a: string, b: string)
    ensures a == b || Less(a, b) || Less(b, a)
    ensures !(Less(a, b) && Less(b, a))
    ensures !Less(a, a)
  {
    if a != "" {
      LessTotal(a[1..], a[1..]);
    }
    if a != "" && b != "" {
      LessTotal(a[1..], b[1..]);
      assert a == [a[0]] + a[1..] && b == [b[0]] + b[1..];
    }
  }

  lemma {:induction false} LessTransitive(a: string, b: string, c: string)
    requires Less(a, b) && Less(b, c)
    ensures Less(a, c)
  {
    if a != "" && a[0] == b[0] == c[0] {
      LessTransitive(a[1..], b[1..], c[1..]);
    }
  }

  predicate IsLeast(k: string, s: set<string>) {
    k in s && forall x | x in s :: x == k || Less(k, x)
  }

  lemma LeastExists(s: set<string>) returns (k: string)
    requires s != {}
    ensures IsLeast(k, s)
  {
    var x :| x in s;
    if s == {x} {
      k := x;
    } else {
      assert s - {x} != {} by {
        assert s != {x};
      }
      var y := LeastExists(s - {x});
      LessTotal(x, y);
      k := if Less(x, y) then x else y;
      forall z | z in s ensures z == k || Less(k, z) {
        if z != x && z != y && k == x {
          LessTransitive(x, y, z);
        }
      }
    }
  }

  lemma LeastInhabited(s: set<string>)
    requires s != {}
    ensures exists k :: IsLeast(k, s)
  {
    var k := LeastExists(s);
  }

  lemma LeastUnique(s: set<string>, j: string, k: string)
    requires IsLeast(j, s) && IsLeast(k, s)
    ensures j == k
  {
    LessTotal(j, k);
  }

  function Least(s: set<string>): (k: string)
    requires s != {}
    ensures IsLeast(k, s)
  {
    LeastInhabited(s);
    assert forall j, k | IsLeast(j, s) && IsLeast(k, s) :: j == k by {
      forall j, k | IsLeast(j, s) && IsLeast(k, s) ensures j == k {
        LeastUnique(s, j, k);
      }
    }
    var k :| k in s && IsLeast(k, s);
    k
  }

  ghost predicate Ascending(ks: seq<string>) {
    forall i, j | 0 <= i < j < |ks| :: Less(ks[i], ks[j])
  }

  /** The keys in the order the iterator of a std::map visits them: every key once, in
      ascending order. */
  function SortedKeys(s: set<string>): (ks: seq<string>)
    ensures Ascending(ks) && |ks| == |s|
    ensures forall k :: k in ks <==> k in s
    decreases s
  {
    if s == {} then [] else
      var k := Least(s);
      [k] + SortedKeys(s - {k})
  }

  lemma HasFirst(s: seq<string>)
    ensures s != [] ==> exists k :: k in s
  {
    if s != [] {
      assert s[0] in s;
    }
  }

  /** There is only one such order. */
  lemma {:induction false} AscendingUnique(a: seq<string>, b: seq<string>)
    requires Ascending(a) && Ascending(b) && forall k :: k in a <==> k in b
    ensures a == b
    decreases |a|
  {
    if a == [] {
      HasFirst(b);
    } else {
      assert a[0] in b && b != [];
      assert b[0] in a;
      LessTotal(a[0], b[0]);
      forall k ensures k in a[1..] <==> k in b[1..] {
        LessTotal(k, k);
        assert k in a <==> k == a[0] || k in a[1..];
        assert k in b <==> k == b[0] || k in b[1..];
      }
      AscendingUnique(a[1..], b[1..]);
    }
  }
}
