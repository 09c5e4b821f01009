/** Iteration order of a map with integer keys: ascending, each key once. */
module Ordered {

  ghost predicate IsLeast(m: int, s: set<int>) {
    m in s && forall k :: k in s ==> m <= k
  }

  lemma EmptyOrInhabited(s: set<int>)
    ensures s == {} || exists k :: k in s
  {
    if forall k :: k !in s {
      assert s == {};
    }
  }

  lemma {:induction false} LeastExists(s: set<int>)
    requires s != {}
    ensures exists m :: IsLeast(m, s)
    decreases |s|
  {
    EmptyOrInhabited(s);
    var k :| k in s;
    if s != {k} {
      LeastExists(s - {k});
      var m :| IsLeast(m, s - {k});
      assert s == s - {k} + {k};
      assert IsLeast(if k <= m then k else m, s);
    } else {
      assert IsLeast(k, s);
    }
  }

  function Least(s: set<int>): (m: int)
    requires s != {}
    ensures m in s && forall k :: k in s ==> m <= k
  {
    LeastExists(s);
    assert exists m :: m in s && forall k :: k in s ==> m <= k by {
      var m :| IsLeast(m, s);
    }
    var m :| m in s && forall k :: k in s ==> m <= k;
    m
  }

  predicate StrictlyRising(s: seq<int>) {
    forall i, j :: 0 <= i < j < |s| ==> s[i] < s[j]
  }

  predicate StrictlyFalling(s: seq<int>) {
    forall i, j :: 0 <= i < j < |s| ==> s[i] > s[j]
  }

  function Ascending(s: set<int>): (r: seq<int>)
    ensures |r| == |s|
    ensures forall i :: 0 <= i < |r| ==> r[i] in s
    ensures forall k :: k in s ==> k in r
    ensures StrictlyRising(r)
    decreases |s|
  {
    if s == {} then [] else
      var m := Least(s);
      [m] + Ascending(s - {m})
  }

  function Descending(s: set<int>): (r: seq<int>)
    ensures |r| == |s|
    ensures forall i :: 0 <= i < |r| ==> r[i] in s
    ensures forall k :: k in s ==> k in r
    ensures StrictlyFalling(r)
    decreases |s|
  {
    if s == {} then [] else
      var m := Least(s);
      var rest := Descending(s - {m});
      AppendLeast(s, m, rest);
      rest + [m]
  }

  lemma AppendLeast(s: set<int>, m: int, rest: seq<int>)
    requires m in s && (forall k :: k in s ==> m <= k) && StrictlyFalling(rest)
    requires forall i :: 0 <= i < |rest| ==> rest[i] in s - {m}
    requires forall k :: k in s - {m} ==> k in rest
    ensures StrictlyFalling(rest + [m])
    ensures forall k :: k in s ==> k in rest + [m]
  {
  }
}
