/** Python's `sorted`: a stable sort by a total preorder. */
module Sorting {

  ghost predicate TotalPreorder<T(!new)>(leq: (T, T) -> bool) {
    && (forall x, y :: leq(x, y) || leq(y, x))
    && (forall x, y, z :: leq(x, y) && leq(y, z) ==> leq(x, z))
  }

  /** No two different elements of `s` tie. */
  ghost predicate Antisymmetric<T>(leq: (T, T) -> bool, s: seq<T>) {
    forall x, y :: x in s && y in s && leq(x, y) && leq(y, x) ==> x == y
  }

  ghost predicate Sorted<T>(leq: (T, T) -> bool, s: seq<T>) {
    forall i, j :: 0 <= i < j < |s| ==> leq(s[i], s[j])
  }

  /** Insertion from the right: `x` goes behind everything it does not precede. */
  function Insert<T>(leq: (T, T) -> bool, x: T, s: seq<T>): (r: seq<T>)
    ensures |r| == |s| + 1
  {
    if s == [] then [x]
    else if leq(s[|s| - 1], x) then s + [x]
    else Insert(leq, x, s[..|s| - 1]) + [s[|s| - 1]]
  }

  function Sort<T>(leq: (T, T) -> bool, s: seq<T>): (r: seq<T>)
    ensures |r| == |s|
  {
    if s == [] then [] else Insert(leq, s[|s| - 1], Sort(leq, s[..|s| - 1]))
  }

  lemma {:induction false} InsertPermutes<T>(leq: (T, T) -> bool, x: T, s: seq<T>)
    ensures multiset(Insert(leq, x, s)) == multiset(s) + multiset{x}
  {
    if s != [] {
      var init, last := s[..|s| - 1], s[|s| - 1];
      assert s == init + [last];
      InsertPermutes(leq, x, init);
    }
  }

  lemma {:induction false} SortPermutes<T>(leq: (T, T) -> bool, s: seq<T>)
    ensures multiset(Sort(leq, s)) == multiset(s)
  {
    if s != [] {
      var init, last := s[..|s| - 1], s[|s| - 1];
      assert s == init + [last];
      SortPermutes(leq, init);
      InsertPermutes(leq, last, Sort(leq, init));
    }
  }

  lemma {:induction false} InsertSorted<T(!new)>(leq: (T, T) -> bool, x: T, s: seq<T>)
    requires TotalPreorder(leq) && Sorted(leq, s)
    ensures Sorted(leq, Insert(leq, x, s))
  {
    if s != [] {
      var init, last := s[..|s| - 1], s[|s| - 1];
      if leq(last, x) {
        forall i | 0 <= i < |s| ensures leq(s[i], x) {
          assert i == |s| - 1 || leq(s[i], last);
        }
      } else {
        InsertSorted(leq, x, init);
        InsertPermutes(leq, x, init);
        var r := Insert(leq, x, init);
        forall i | 0 <= i < |r| ensures leq(r[i], last) {
          assert r[i] in multiset(r);
          assert r[i] == x || r[i] in init;
        }
      }
    }
  }

  lemma {:induction false} SortSorted<T(!new)>(leq: (T, T) -> bool, s: seq<T>)
    requires TotalPreorder(leq)
    ensures Sorted(leq, Sort(leq, s))
  {
    if s != [] {
      SortSorted(leq, s[..|s| - 1]);
      InsertSorted(leq, s[|s| - 1], Sort(leq, s[..|s| - 1]));
    }
  }

  lemma SortAppend<T>(leq: (T, T) -> bool, s: seq<T>, x: T)
    ensures Sort(leq, s + [x]) == Insert(leq, x, Sort(leq, s))
  {
    assert (s + [x])[..|s|] == s;
  }

  lemma SortedHead<T(!new)>(leq: (T, T) -> bool, a: seq<T>, x: T)
    requires TotalPreorder(leq) && Sorted(leq, a) && x in a
    ensures leq(a[0], x)
  {
    var i :| 0 <= i < |a| && a[i] == x;
    if i == 0 {
      assert leq(x, x);
    }
  }

  /** Where no two elements tie, the sorted arrangement of a bag of elements is unique. */
  lemma {:induction false} SortedUnique<T(!new)>(leq: (T, T) -> bool, a: seq<T>, b: seq<T>)
    requires TotalPreorder(leq) && Antisymmetric(leq, a) && Sorted(leq, a) && Sorted(leq, b)
    requires multiset(a) == multiset(b)
    ensures a == b
  {
    hide TotalPreorder;
    assert |multiset(a)| == |a| && |multiset(b)| == |b|;
    if a != [] {
      assert a[0] in multiset(b) && b[0] in multiset(a);
      SortedHead(leq, a, b[0]);
      SortedHead(leq, b, a[0]);
      assert a[0] == b[0];
      TailBag(a);
      TailBag(b);
      assert Antisymmetric(leq, a[1..]);
      SortedUnique(leq, a[1..], b[1..]);
      assert a == [a[0]] + a[1..] && b == [b[0]] + b[1..];
    }
  }

  lemma TailBag<T>(s: seq<T>)
    requires s != []
    ensures multiset(s[1..]) == multiset(s) - multiset{s[0]}
  {
    assert s == [s[0]] + s[1..];
  }

  /** Lexicographic order on strings, as Python compares them. */
  predicate StringLeq(a: string, b: string) {
    if a == [] then true
    else if b == [] then false
    else if a[0] == b[0] then StringLeq(a[1..], b[1..])
    else a[0] < b[0]
  }

  lemma {:induction false} StringLeqTotal(a: string, b: string)
    ensures StringLeq(a, b) || StringLeq(b, a)
    ensures StringLeq(a, b) && StringLeq(b, a) ==> a == b
  {
    if a != [] && b != [] && a[0] == b[0] {
      StringLeqTotal(a[1..], b[1..]);
      assert a == [a[0]] + a[1..] && b == [b[0]] + b[1..];
    }
  }

  lemma {:induction false} StringLeqTransitive(a: string, b: string, c: string)
    requires StringLeq(a, b) && StringLeq(b, c)
    ensures StringLeq(a, c)
  {
    if a != [] && b != [] && c != [] && a[0] == b[0] && b[0] == c[0] {
      StringLeqTransitive(a[1..], b[1..], c[1..]);
    }
  }
}
