// Ascending walks over finite sets of integers, as std::set and std::map iterate.
module SetWalk {
  import opened Common

  lemma SomeMember(s: set<int>) returns (y: int)
    requires s != {}
    ensures y in s
  {
    if forall y :: y !in s {
      assert false;
    }
    y :| y in s;
  }

  lemma {:induction false} LeastExists(s: set<int>)
    requires s != {}
    ensures exists m :: m in s && forall x :: x in s ==> m <= x
  {
    var y := SomeMember(s);
    if s == {y} {
      assert forall x :: x in s ==> y <= x;
    } else {
      LeastExists(s - {y});
      var m :| m in s - {y} && forall x :: x in s - {y} ==> m <= x;
      var k := Min(m, y);
      assert k in s && forall x :: x in s ==> k <= x by {
        forall x | x in s ensures k <= x { if x != y { assert x in s - {y}; } }
      }
    }
  }

  // The next element of an ascending walk over a set.
  method Least(s: set<int>) returns (m: int)
    requires s != {}
    ensures m in s && forall x :: x in s ==> m <= x
  {
    LeastExists(s);
    m :| m in s && forall x :: x in s ==> m <= x;
  }

  predicate Increasing(s: seq<int>) { forall i, j :: 0 <= i < j < |s| ==> s[i] < s[j] }

  // The elements in the order of the walk.
  ghost function Ascending(s: set<int>): (r: seq<int>)
    ensures |r| == |s| && Increasing(r) && forall x :: x in r <==> x in s
  {
    if s == {} then []
    else
      LeastExists(s);
      var m :| m in s && forall x :: x in s ==> m <= x;
      [m] + Ascending(s - {m})
  }

  // Elements in increasing order can be listed in one way only.
  lemma {:induction false} SameOrder(a: seq<int>, b: seq<int>)
    requires Increasing(a) && Increasing(b) && forall x :: x in a <==> x in b
    ensures a == b
  {
    assert b != [] ==> b[0] in b;
    if a != [] {
      assert a[0] in a;
      var m, n := |a| - 1, |b| - 1;
      assert a[m] in a && b[n] in b;
      assert a[m] == b[n];
      forall x ensures x in a[..m] <==> x in b[..n] {
        assert x in a[..m] <==> x in a && x != a[m];
        assert x in b[..n] <==> x in b && x != b[n];
      }
      SameOrder(a[..m], b[..n]);
    }
  }
}
