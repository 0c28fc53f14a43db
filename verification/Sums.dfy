/** Finite sums over sequences. */
module Sums {

  function Sum<T>(f: T -> real, s: seq<T>): real {
    if s == [] then 0.0 else f(s[0]) + Sum(f, s[1..])
  }

  lemma {:induction false} SumConcat<T>(f: T -> real, a: seq<T>, b: seq<T>)
    ensures Sum(f, a + b) == Sum(f, a) + Sum(f, b)
  {
    if a == [] {
      assert a + b == b;
    } else {
      assert (a + b)[1..] == a[1..] + b;
      SumConcat(f, a[1..], b);
    }
  }

  lemma SumAppend<T>(f: T -> real, s: seq<T>, x: T)
    ensures Sum(f, s + [x]) == Sum(f, s) + f(x)
  {
    SumConcat(f, s, [x]);
    assert [x][1..] == [];
  }

  lemma SumWithout<T>(f: T -> real, before: seq<T>, x: T, after: seq<T>)
    ensures Sum(f, before + [x] + after) == Sum(f, before + after) + f(x)
  {
    SumConcat(f, before + [x], after);
    SumAppend(f, before, x);
    SumConcat(f, before, after);
  }

  lemma SumFirst<T>(f: T -> real, s: seq<T>)
    requires s != []
    ensures Sum(f, s) == f(s[0]) + Sum(f, s[1..])
  {
  }

  /** The first of one arrangement, found and taken out of another. */
  lemma TakeOut<T>(a: seq<T>, b: seq<T>) returns (before: seq<T>, after: seq<T>)
    requires a != [] && multiset(a) == multiset(b)
    ensures b == before + [a[0]] + after && multiset(a[1..]) == multiset(before + after)
  {
    var x := a[0];
    assert x in multiset(b);
    var i :| 0 <= i < |b| && b[i] == x;
    before, after := b[..i], b[i + 1..];
    BagFirst(a);
    BagMiddle(before, x, after);
    assert b == before + [x] + after;
    BagCancel(multiset(a[1..]), multiset(before + after), x);
  }

  lemma BagFirst<T>(s: seq<T>)
    requires s != []
    ensures multiset(s) == multiset(s[1..]) + multiset{s[0]}
  {
    assert s == [s[0]] + s[1..];
  }

  lemma BagMiddle<T>(before: seq<T>, x: T, after: seq<T>)
    ensures multiset(before + [x] + after) == multiset(before + after) + multiset{x}
  {
  }

  lemma BagCancel<T>(m: multiset<T>, n: multiset<T>, x: T)
    requires m + multiset{x} == n + multiset{x}
    ensures m == n
  {
    assert m == (m + multiset{x}) - multiset{x} && n == (n + multiset{x}) - multiset{x};
  }

  /** A sum does not depend on the order of its terms. */
  lemma {:induction false} SumPermutes<T>(f: T -> real, a: seq<T>, b: seq<T>)
    requires multiset(a) == multiset(b)
    ensures Sum(f, a) == Sum(f, b)
    decreases |a|
  {
    hide Sum;
    if a == [] {
      assert |multiset(b)| == 0;
    } else {
      var before, after := TakeOut(a, b);
      SumPermutes(f, a[1..], before + after);
      SumWithout(f, before, a[0], after);
      SumFirst(f, a);
    }
  }
}
