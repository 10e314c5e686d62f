/** Counting, distinctness and removal, used by several modules. */
module Sequences {
  ghost function Count<T>(s: seq<T>, x: T): nat {
    if s == [] then 0 else (if s[0] == x then 1 else 0) + Count(s[1..], x)
  }

  lemma {:induction false} CountAppend<T>(a: seq<T>, b: seq<T>, x: T)
    ensures Count(a + b, x) == Count(a, x) + Count(b, x)
    decreases a
  {
    if a == [] {
      assert a + b == b;
    } else {
      assert (a + b)[1..] == a[1..] + b;
      CountAppend(a[1..], b, x);
    }
  }

  ghost predicate Distinct<T>(s: seq<T>) {
    forall i, j :: 0 <= i < j < |s| ==> s[i] != s[j]
  }

  function Without<T(==, !new)>(s: seq<T>, x: T): (r: seq<T>)
    requires Distinct(s)
    ensures Distinct(r) && forall y :: y in r <==> y in s && y != x
    ensures x in s ==> |r| == |s| - 1
  {
    if s == [] then []
    else if s[0] == x then assert x !in s[1..]; s[1..]
    else
      var r := [s[0]] + Without(s[1..], x);
      assert s == [s[0]] + s[1..];
      assert s[0] !in s[1..];
      r
  }
}
