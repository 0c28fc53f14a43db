/** The one-line specification every limiter is measured against: a request is allowed iff fewer
    than `limit` earlier allowed requests count against it. */
module RateSpec {

  /** A verdict: allowed, or denied with a number of seconds to wait. */
  datatype Verdict = Allow | Deny(retryAfter: int)

  /** Python's `int` on a float. */
  function Trunc(x: real): (n: int)
    ensures x >= 0.0 ==> n as real <= x < n as real + 1.0
    ensures x < 0.0 ==> n as real - 1.0 < x <= n as real
  {
    if x >= 0.0 then x.Floor else -(-x).Floor
  }

  /** `counts(i, j)`: the earlier request j counts against request i. */
  type Against = (nat, nat) -> bool

  ghost predicate NonDecreasing(times: seq<real>) {
    forall i, j :: 0 <= i < j < |times| ==> times[i] <= times[j]
  }

  /** The requests that count against request i. */
  function On(counts: Against, i: nat): nat -> bool {
    (j: nat) => counts(i, j)
  }

  /** How many of the first `n` requests were allowed and satisfy `p`. */
  function Count(p: nat -> bool, allowed: seq<bool>, n: nat): (c: nat)
    requires n <= |allowed|
    ensures c <= n
  {
    if n == 0 then 0 else Count(p, allowed, n - 1) + if allowed[n - 1] && p(n - 1) then 1 else 0
  }

  lemma CountNext(p: nat -> bool, allowed: seq<bool>, next: bool)
    ensures Count(p, allowed + [next], |allowed| + 1)
         == Count(p, allowed, |allowed|) + if next && p(|allowed|) then 1 else 0
  {
    CountPrefix(p, p, allowed, allowed + [next], |allowed|);
  }

  ghost predicate Conforms(counts: Against, limit: nat, allowed: seq<bool>) {
    forall i: nat :: i < |allowed| ==> Decided(counts, limit, allowed, i)
  }

  ghost predicate Decided(counts: Against, limit: nat, allowed: seq<bool>, i: nat)
    requires i < |allowed|
  {
    allowed[i] <==> Count(On(counts, i), allowed, i) < limit
  }

  lemma {:induction false} CountPrefix(p: nat -> bool, q: nat -> bool, a: seq<bool>, b: seq<bool>, n: nat)
    requires n <= |a| && n <= |b| && a[..n] == b[..n]
    requires forall j: nat :: j < n ==> (p(j) <==> q(j))
    ensures Count(p, a, n) == Count(q, b, n)
  {
    if n > 0 {
      assert a[..n][n - 1] == a[n - 1] && b[..n][n - 1] == b[n - 1];
      assert a[..n][..n - 1] == a[..n - 1] && b[..n][..n - 1] == b[..n - 1];
      CountPrefix(p, q, a, b, n - 1);
    }
  }

  /** The specification leaves no freedom: two conforming limiters decide alike. */
  lemma {:induction false} ConformsUnique(
    counts: Against, counts': Against, limit: nat, a: seq<bool>, b: seq<bool>, n: nat)
    requires Conforms(counts, limit, a) && Conforms(counts', limit, b)
    requires n <= |a| && n <= |b|
    requires forall i: nat, j: nat :: j < i < n ==> (counts(i, j) <==> counts'(i, j))
    ensures a[..n] == b[..n]
  {
    if n > 0 {
      var i := n - 1;
      ConformsUnique(counts, counts', limit, a, b, i);
      assert Decided(counts, limit, a, i) && Decided(counts', limit, b, i);
      CountPrefix(On(counts, i), On(counts', i), a, b, i);
      assert a[..n] == a[..i] + [a[i]] && b[..n] == b[..i] + [b[i]];
    }
  }

  lemma {:induction false} ConformsExtend(counts: Against, limit: nat, allowed: seq<bool>, next: bool)
    requires Conforms(counts, limit, allowed)
    requires next <==> Count(On(counts, |allowed|), allowed, |allowed|) < limit
    ensures Conforms(counts, limit, allowed + [next])
  {
    var all := allowed + [next];
    forall i: nat | i < |all| ensures Decided(counts, limit, all, i) {
      CountPrefix(On(counts, i), On(counts, i), allowed, all, i);
      if i < |allowed| {
        assert Decided(counts, limit, allowed, i);
      }
    }
  }

  lemma {:induction false} CountWeaker(p: nat -> bool, q: nat -> bool, allowed: seq<bool>, n: nat)
    requires n <= |allowed|
    requires forall j: nat :: j < n && p(j) ==> q(j)
    ensures Count(p, allowed, n) <= Count(q, allowed, n)
  {
    if n > 0 { CountWeaker(p, q, allowed, n - 1); }
  }

  lemma {:induction false} CountEither(p: nat -> bool, q: nat -> bool, r: nat -> bool, allowed: seq<bool>, n: nat)
    requires n <= |allowed|
    requires forall j: nat :: j < n && p(j) ==> q(j) || r(j)
    ensures Count(p, allowed, n) <= Count(q, allowed, n) + Count(r, allowed, n)
  {
    if n > 0 { CountEither(p, q, r, allowed, n - 1); }
  }

  /** Never allowing a request past its quota: the safe half of conformance. */
  ghost predicate Sound(counts: Against, limit: nat, allowed: seq<bool>) {
    forall i: nat :: i < |allowed| ==> WithinQuota(counts, limit, allowed, i)
  }

  ghost predicate WithinQuota(counts: Against, limit: nat, allowed: seq<bool>, i: nat)
    requires i < |allowed|
  {
    allowed[i] ==> Count(On(counts, i), allowed, i) < limit
  }

  lemma ConformsSound(counts: Against, limit: nat, allowed: seq<bool>)
    requires Conforms(counts, limit, allowed)
    ensures Sound(counts, limit, allowed)
  {
    forall i: nat | i < |allowed| ensures WithinQuota(counts, limit, allowed, i) {
      assert Decided(counts, limit, allowed, i);
    }
  }

  /** Of the requests that reach a limiter, it takes exactly those that fewer than `limit` it took
      before count against. */
  ghost predicate Admits(counts: Against, limit: nat, reached: seq<bool>, taken: seq<bool>) {
    |taken| <= |reached| && forall i: nat :: i < |taken| ==> Admitted(counts, limit, reached, taken, i)
  }

  ghost predicate Admitted(counts: Against, limit: nat, reached: seq<bool>, taken: seq<bool>, i: nat)
    requires i < |taken| <= |reached|
  {
    taken[i] <==> reached[i] && Count(On(counts, i), taken, i) < limit
  }

  lemma AdmitsExtend(counts: Against, limit: nat, reached: seq<bool>, taken: seq<bool>, next: bool)
    requires Admits(counts, limit, reached, taken) && |taken| < |reached|
    requires next <==> reached[|taken|] && Count(On(counts, |taken|), taken, |taken|) < limit
    ensures Admits(counts, limit, reached, taken + [next])
  {
    var all := taken + [next];
    forall i: nat | i < |all| ensures Admitted(counts, limit, reached, all, i) {
      CountPrefix(On(counts, i), On(counts, i), taken, all, i);
      if i < |taken| { assert Admitted(counts, limit, reached, taken, i); }
    }
  }

  lemma AdmitsSound(counts: Against, limit: nat, reached: seq<bool>, taken: seq<bool>)
    requires Admits(counts, limit, reached, taken)
    ensures Sound(counts, limit, taken)
  {
    forall i: nat | i < |taken| ensures WithinQuota(counts, limit, taken, i) {
      assert Admitted(counts, limit, reached, taken, i);
    }
  }

  /** Among requests that all count against one another at most `limit` are allowed. */
  lemma {:induction false} Cap(counts: Against, limit: nat, allowed: seq<bool>, p: nat -> bool, n: nat)
    requires Sound(counts, limit, allowed) && n <= |allowed|
    requires forall i: nat, j: nat :: j < i < n && p(i) && p(j) ==> counts(i, j)
    ensures Count(p, allowed, n) <= limit
  {
    if n > 0 {
      assert WithinQuota(counts, limit, allowed, n - 1);
      Cap(counts, limit, allowed, p, n - 1);
      if allowed[n - 1] && p(n - 1) {
        forall j: nat | j < n - 1 && p(j) ensures On(counts, n - 1)(j) {
          assert counts(n - 1, j);
        }
        CountWeaker(p, On(counts, n - 1), allowed, n - 1);
      }
    }
  }
}
