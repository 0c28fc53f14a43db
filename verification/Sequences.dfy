/** Filtering, mapping and distinct elements of sequences. */
module Sequences {

  function Filter<T(!new)>(p: T -> bool, s: seq<T>): (r: seq<T>)
    ensures forall x :: x in r <==> x in s && p(x)
  {
    if s == [] then []
    else
      var last := s[|s| - 1];
      assert s == s[..|s| - 1] + [last];
      Filter(p, s[..|s| - 1]) + (if p(last) then [last] else [])
  }

  lemma {:induction false} FilterCount<T(!new)>(p: T -> bool, s: seq<T>, x: T)
    ensures multiset(Filter(p, s))[x] == if p(x) then multiset(s)[x] else 0
  {
    if s != [] {
      FilterCount(p, s[..|s| - 1], x);
      assert s == s[..|s| - 1] + [s[|s| - 1]];
    }
  }

  /** Filtering commutes with rearranging. */
  lemma FilterPermutes<T(!new)>(p: T -> bool, a: seq<T>, b: seq<T>)
    requires multiset(a) == multiset(b)
    ensures multiset(Filter(p, a)) == multiset(Filter(p, b)) && |Filter(p, a)| == |Filter(p, b)|
  {
    forall x ensures multiset(Filter(p, a))[x] == multiset(Filter(p, b))[x] {
      FilterCount(p, a, x);
      FilterCount(p, b, x);
    }
    assert multiset(Filter(p, a)) == multiset(Filter(p, b));
    assert |multiset(Filter(p, a))| == |Filter(p, a)|;
  }

  lemma {:induction false} FilterConcat<T(!new)>(p: T -> bool, a: seq<T>, b: seq<T>)
    ensures Filter(p, a + b) == Filter(p, a) + Filter(p, b)
  {
    if b == [] {
      assert a + b == a;
    } else {
      assert (a + b)[..|a + b| - 1] == a + b[..|b| - 1];
      FilterConcat(p, a, b[..|b| - 1]);
    }
  }

  lemma {:induction false} FilterDistinct<T(!new)>(p: T -> bool, s: seq<T>)
    requires Distinct(s)
    ensures Distinct(Filter(p, s))
  {
    if s != [] { FilterDistinct(p, s[..|s| - 1]); }
  }

  lemma SameElements<T>(a: seq<T>, b: seq<T>)
    requires multiset(a) == multiset(b)
    ensures forall x :: x in a <==> x in b
  {
    forall x ensures x in a <==> x in b {
      assert x in a <==> x in multiset(a);
      assert x in b <==> x in multiset(b);
    }
  }

  ghost predicate Distinct<T>(s: seq<T>) {
    forall i, j :: 0 <= i < j < |s| ==> s[i] != s[j]
  }

  lemma {:induction false} DistinctBag<T>(s: seq<T>, x: T)
    requires Distinct(s)
    ensures multiset(s)[x] == if x in s then 1 else 0
  {
    if s != [] {
      var init, last := s[..|s| - 1], s[|s| - 1];
      assert s == init + [last];
      DistinctBag(init, x);
    }
  }

  /** Sequences without repetition are rearrangements of each other when they have the same elements. */
  lemma DistinctPermutes<T>(a: seq<T>, b: seq<T>)
    requires Distinct(a) && Distinct(b) && forall x :: x in a <==> x in b
    ensures multiset(a) == multiset(b)
  {
    forall x ensures multiset(a)[x] == multiset(b)[x] {
      DistinctBag(a, x);
      DistinctBag(b, x);
    }
  }

  lemma TwiceCounted<T>(s: seq<T>, i: nat, j: nat)
    requires i < j < |s| && s[i] == s[j]
    ensures multiset(s)[s[i]] >= 2
  {
    assert s == s[..i] + [s[i]] + s[i + 1..j] + [s[j]] + s[j + 1..];
  }

  lemma DistinctKept<T>(a: seq<T>, b: seq<T>)
    requires Distinct(a) && multiset(a) == multiset(b)
    ensures Distinct(b)
  {
    forall i, j | 0 <= i < j < |b| ensures b[i] != b[j] {
      DistinctBag(a, b[i]);
      if b[i] == b[j] { TwiceCounted(b, i, j); }
    }
  }

  /** Dictionary keys in insertion order: `key` of each element, first occurrences only. */
  function Keys<T, K(==,!new)>(key: T -> K, s: seq<T>): (r: seq<K>)
    ensures Distinct(r)
    ensures forall x :: x in s ==> key(x) in r
    ensures forall k :: k in r ==> exists i :: 0 <= i < |s| && key(s[i]) == k
  {
    if s == [] then []
    else
      var init, last := s[..|s| - 1], s[|s| - 1];
      assert s == init + [last];
      AddKey(Keys(key, init), key(last))
  }

  function AddKey<K(==,!new)>(keys: seq<K>, k: K): (r: seq<K>)
    requires Distinct(keys)
    ensures Distinct(r) && forall x :: x in r <==> x in keys || x == k
  {
    if k in keys then keys else keys + [k]
  }

  lemma KeysPermute<T, K(!new)>(key: T -> K, a: seq<T>, b: seq<T>)
    requires multiset(a) == multiset(b)
    ensures multiset(Keys(key, a)) == multiset(Keys(key, b))
  {
    SameElements(a, b);
    forall k ensures k in Keys(key, a) <==> k in Keys(key, b) {
      if k in Keys(key, a) { var i :| 0 <= i < |a| && key(a[i]) == k; assert a[i] in b; }
      if k in Keys(key, b) { var i :| 0 <= i < |b| && key(b[i]) == k; assert b[i] in a; }
    }
    DistinctPermutes(Keys(key, a), Keys(key, b));
  }

  function MapSeq<T, U>(f: T -> U, s: seq<T>): (r: seq<U>)
    ensures |r| == |s| && forall i :: 0 <= i < |s| ==> r[i] == f(s[i])
  {
    seq(|s|, i requires 0 <= i < |s| => f(s[i]))
  }

  ghost function Hits<T, U>(f: T -> U, y: U): T -> bool {
    x => f(x) == y
  }

  lemma {:induction false} MapCount<T(!new), U>(f: T -> U, s: seq<T>, y: U)
    ensures multiset(MapSeq(f, s))[y] == |Filter(Hits(f, y), s)|
  {
    if s != [] {
      var init, last := s[..|s| - 1], s[|s| - 1];
      MapCount(f, init, y);
      assert MapSeq(f, s) == MapSeq(f, init) + [f(last)];
    }
  }

  lemma MapPermutes<T(!new), U(!new)>(f: T -> U, a: seq<T>, b: seq<T>)
    requires multiset(a) == multiset(b)
    ensures multiset(MapSeq(f, a)) == multiset(MapSeq(f, b))
  {
    forall y ensures multiset(MapSeq(f, a))[y] == multiset(MapSeq(f, b))[y] {
      MapCount(f, a, y);
      MapCount(f, b, y);
      FilterPermutes(Hits(f, y), a, b);
    }
  }
}
