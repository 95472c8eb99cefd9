/** Lists of numbers without repetitions. */
module Lists {

  predicate Distinct(s: seq<nat>) {
    forall i, j :: 0 <= i < j < |s| ==> s[i] != s[j]
  }

  /** How often x occurs in the list. */
  function Count(s: seq<nat>, x: nat): nat {
    multiset(s)[x]
  }

  lemma CountAppend(s: seq<nat>, x: nat)
    ensures forall y :: Count(s + [x], y) == Count(s, y) + if x == y then 1 else 0
  {
  }

  lemma CountNext(s: seq<nat>, k: nat)
    requires k < |s|
    ensures forall y :: Count(s[..k + 1], y) == Count(s[..k], y) + if s[k] == y then 1 else 0
  {
    assert s[..k + 1] == s[..k] + [s[k]];
    CountAppend(s[..k], s[k]);
  }

  lemma {:induction false} DistinctCount(s: seq<nat>, x: nat)
    requires Distinct(s)
    ensures Count(s, x) == if x in s then 1 else 0
    decreases |s|
  {
    if s != [] {
      assert s == [s[0]] + s[1..];
      DistinctCount(s[1..], x);
      if x == s[0] {
        assert x !in s[1..];
      }
    }
  }

  /** The numbers below n. */
  function Below(n: nat): (ids: set<nat>)
    ensures |ids| == n && forall w: nat :: w in ids <==> w < n
  {
    if n == 0 then {} else Below(n - 1) + {n - 1}
  }

  /** A list without repetitions is no longer than a set that holds its elements. */
  lemma {:induction false} DistinctFits(s: seq<nat>, r: set<nat>)
    requires Distinct(s) && forall x :: x in s ==> x in r
    ensures |s| <= |r|
    ensures |s| == |r| ==> forall x :: x in r ==> x in s
    decreases |s|
  {
    if s == [] {
      assert |r| == 0 ==> r == {};
    } else {
      var k := |s| - 1;
      assert s == s[..k] + [s[k]];
      assert s[k] in s && forall x :: x in s[..k] ==> x in s;
      DistinctFits(s[..k], r - {s[k]});
    }
  }
}
