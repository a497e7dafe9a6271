/** Notions that several components share. */
module Collections {

  datatype Option<+T> = None | Some(value: T)

  /** No element occurs twice. */
  ghost predicate Distinct<T>(s: seq<T>) {
    forall i, j :: 0 <= i < j < |s| ==> s[i] != s[j]
  }

  /** n consecutive numbers. */
  function Range(from: nat, n: nat): (r: set<nat>)
    ensures |r| == n
    ensures forall v :: v in r <==> from <= v < from + n
  {
    if n == 0 then {} else Range(from, n - 1) + {from + n - 1}
  }

  function Elements(s: seq<nat>): set<nat> {
    set v | v in s
  }

  lemma {:induction false} ElementsSize(s: seq<nat>)
    ensures |Elements(s)| <= |s|
    ensures |Elements(s)| == |s| <==> Distinct(s)
  {
    if s != [] {
      var k := |s| - 1;
      var front := s[..k];
      ElementsSize(front);
      assert Elements(s) == Elements(front) + {s[k]};
      if s[k] in front {
        var i :| 0 <= i < k && s[i] == s[k];
        assert Elements(s) == Elements(front);
      } else {
        assert Distinct(front) ==> Distinct(s);
      }
      assert Distinct(s) ==> Distinct(front);
    }
  }

  /** There are at most n different numbers below n. */
  lemma DistinctBelow(s: seq<nat>, n: nat)
    requires Distinct(s) && forall i :: 0 <= i < |s| ==> s[i] < n
    ensures |s| <= n
  {
    ElementsSize(s);
    var some, all := Elements(s), Range(0, n);
    assert some <= all;
    assert all == some + (all - some);
  }
}
