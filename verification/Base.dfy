/** Small vocabulary shared by the models: options, and sequences used as queues of distinct elements. */
module Base {

  datatype Option<+T> = None | Some(value: T)

  function Max(a: int, b: int): int {
    if a < b then b else a
  }

  /** Every element occurs once: what it means for an object to be linked on at most one place of a queue. */
  ghost predicate Distinct<T>(s: seq<T>) {
    forall i, j :: 0 <= i < j < |s| ==> s[i] != s[j]
  }

  /** The queue after its (first) occurrence of x has been unlinked. */
  function Without<T(==)>(s: seq<T>, x: T): (r: seq<T>)
    ensures x !in s ==> r == s
    ensures x in s ==> |r| == |s| - 1
  {
    if s == [] then []
    else if s[0] == x then s[1..]
    else [s[0]] + Without(s[1..], x)
  }

  lemma {:induction false} WithoutMembers<T>(s: seq<T>, x: T)
    requires Distinct(s)
    ensures Distinct(Without(s, x))
    ensures forall y :: y in Without(s, x) <==> y in s && y != x
  {
    if s != [] {
      var rest := s[1..];
      assert Distinct(rest);
      assert s == [s[0]] + rest;
      if s[0] == x {
        assert x !in rest;
      } else {
        WithoutMembers(rest, x);
        var w := Without(rest, x);
        assert s[0] !in rest;
        assert s[0] !in w;
      }
    }
  }

  lemma AppendDistinct<T>(s: seq<T>, x: T)
    requires Distinct(s) && x !in s
    ensures Distinct(s + [x])
    ensures forall y :: y in s + [x] <==> y in s || y == x
  {
  }

  /** What is left of a queue when its head has been taken. */
  lemma PopMembers<T>(s: seq<T>)
    requires Distinct(s) && s != []
    ensures Distinct(s[1..])
    ensures forall y :: y in s[1..] <==> y in s && y != s[0]
  {
    WithoutMembers(s, s[0]);
  }

  /** Distinct elements of a set are no more than the set has. */
  lemma {:induction false} DistinctInside<T>(q: seq<T>, all: set<T>)
    requires Distinct(q) && forall a :: a in q ==> a in all
    ensures |q| <= |all|
    decreases |q|
  {
    if q != [] {
      PopMembers(q);
      var h := q[0];
      assert h in q;
      assert h in all;
      DistinctInside(q[1..], all - {h});
    }
  }

  /** How many elements satisfy p. */
  function Count<T>(s: seq<T>, p: T -> bool): nat {
    if s == [] then 0 else (if p(s[0]) then 1 else 0) + Count(s[1..], p)
  }

  /** How a count moves when one element changes. */
  lemma {:induction false} CountPut<T>(s: seq<T>, i: nat, x: T, p: T -> bool)
    requires i < |s|
    ensures Count(s[i := x], p) == Count(s, p) - (if p(s[i]) then 1 else 0) + (if p(x) then 1 else 0)
    ensures p(s[i]) ==> Count(s, p) >= 1
  {
    var r := s[i := x];
    if i == 0 {
      assert r[1..] == s[1..];
    } else {
      CountPut(s[1..], i - 1, x, p);
      assert r[1..] == s[1..][i - 1 := x];
    }
  }

  lemma {:induction false} CountNone<T>(s: seq<T>, p: T -> bool)
    requires forall i :: 0 <= i < |s| ==> !p(s[i])
    ensures Count(s, p) == 0
  {
    if s != [] {
      CountNone(s[1..], p);
    }
  }
}
