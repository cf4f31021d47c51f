// Lists as the rest of the model uses them: sums, duplicates, removal, concatenation.
module Sequences {

  datatype Option<T> = None | Some(value: T)

  function Sum(q: seq<nat>): nat
  {
    if q == [] then 0 else q[0] + Sum(q[1..])
  }

  lemma Assoc<T>(a: seq<T>, b: seq<T>, c: seq<T>)
    ensures (a + b) + c == a + (b + c)
  {
  }

  predicate Distinct<T(==)>(q: seq<T>)
  {
    forall i, j :: 0 <= i < j < |q| ==> q[i] != q[j]
  }

  /** Every occurrence of x removed. */
  function Without<T(==)>(q: seq<T>, x: T): (r: seq<T>)
    ensures x !in r && forall y :: y in r ==> y in q
  {
    if q == [] then [] else (if q[0] == x then [] else [q[0]]) + Without(q[1..], x)
  }

  lemma {:induction false} WithoutKeepsDistinct<T>(q: seq<T>, x: T)
    requires Distinct(q)
    ensures Distinct(Without(q, x))
  {
    if q != [] {
      WithoutKeepsDistinct(q[1..], x);
      var r := Without(q[1..], x);
      assert q[0] !in q[1..];
      assert q[0] !in r;
    }
  }

  lemma {:induction false} WithoutStranger<T>(q: seq<T>, x: T)
    requires x !in q
    ensures Without(q, x) == q
  {
    if q != [] { WithoutStranger(q[1..], x); }
  }

  lemma {:induction false} WithoutJoin<T>(a: seq<T>, b: seq<T>, x: T)
    ensures Without(a + b, x) == Without(a, x) + Without(b, x)
  {
    if a == [] {
      assert a + b == b;
    } else {
      assert (a + b)[1..] == a[1..] + b;
      WithoutJoin(a[1..], b, x);
    }
  }

  lemma OnlyGone<T>(x: T)
    ensures Without([x], x) == []
  {
    assert [x][1..] == [];
  }

  /** Removing takes out the element and nothing else. */
  lemma WithoutOne<T>(a: seq<T>, x: T, b: seq<T>)
    requires x !in a && x !in b
    ensures Without(a + [x] + b, x) == a + b
  {
    WithoutJoin(a + [x], b, x);
    WithoutJoin(a, [x], x);
    WithoutStranger(a, x);
    WithoutStranger(b, x);
    OnlyGone(x);
    assert a + [] == a;
  }
}
