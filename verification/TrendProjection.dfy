/** Closed form of the ledger replay. */
module TrendProjection {
  import opened Decay
  import opened Sorting
  import opened Sums
  import opened TrendLedger

  /** What one entry still contributes at `asOf`. */
  function Term(rate: Rate, asOf: Time): Entry -> real {
    (e: Entry) => Carry(e.delta, rate, e.at, asOf)
  }

  /** What the entries still contribute at `asOf`: the sum of delta_i * f(asOf - t_i). */
  function Contribution(es: seq<Entry>, rate: Rate, asOf: Time): real {
    Sum(Term(rate, asOf), es)
  }

  ghost predicate TimeOrdered(es: seq<Entry>) {
    forall i, j :: 0 <= i < j < |es| ==> es[i].at <= es[j].at
  }

  ghost predicate Within(es: seq<Entry>, from: Time, to: Time) {
    forall i :: 0 <= i < |es| ==> from <= es[i].at <= to
  }

  /** The replay loop returns B + (S - B) f(T - t0) + sum of delta_i f(T - t_i). */
  lemma {:induction false} ReplayClosedForm(
    es: seq<Entry>, current: real, last: Time, baseline: real, rate: Rate, asOf: Time)
    requires TimeOrdered(es) && Within(es, last, asOf) && last <= asOf
    ensures Replayed(es, current, last, baseline, rate, asOf)
         == baseline + Carry(current - baseline, rate, last, asOf) + Contribution(es, rate, asOf)
    decreases es
  {
    hide Carry, DecayLogOdds;
    if es == [] {
      DecayIsCarry(current, baseline, rate, last, asOf);
    } else {
      var e, rest := es[0], es[1..];
      var v := DecayLogOdds(current, baseline, rate, last, e.at);
      assert TimeOrdered(rest) && Within(rest, e.at, asOf);
      ReplayClosedForm(rest, v + e.delta, e.at, baseline, rate, asOf);
      DecayIsCarry(current, baseline, rate, last, e.at);
      CarryAdd(v - baseline, e.delta, rate, e.at, asOf);
      CarryChain(current - baseline, rate, last, e.at, asOf);
      assert v + e.delta - baseline == (v - baseline) + e.delta;
    }
  }

  /** Only the times order the replay: the tie-break on entry type and id never matters. */
  lemma ReplayIgnoresTieBreak(
    a: seq<Entry>, b: seq<Entry>, current: real, last: Time, baseline: real, rate: Rate, asOf: Time)
    requires TimeOrdered(a) && TimeOrdered(b) && multiset(a) == multiset(b)
    requires Within(a, last, asOf) && last <= asOf
    ensures Replayed(a, current, last, baseline, rate, asOf) == Replayed(b, current, last, baseline, rate, asOf)
  {
    forall i | 0 <= i < |b| ensures last <= b[i].at <= asOf {
      assert b[i] in multiset(a);
    }
    ReplayClosedForm(a, current, last, baseline, rate, asOf);
    ReplayClosedForm(b, current, last, baseline, rate, asOf);
    SumPermutes(Term(rate, asOf), a, b);
  }

  lemma EntryLeqPreorder()
    ensures TotalPreorder(EntryLeq)
  {
    forall x: Entry, y: Entry ensures EntryLeq(x, y) || EntryLeq(y, x) {
      StringLeqTotal(x.kind, y.kind);
    }
    forall x: Entry, y: Entry, z: Entry | EntryLeq(x, y) && EntryLeq(y, z) ensures EntryLeq(x, z) {
      if x.at == y.at == z.at && x.kind != y.kind && y.kind != z.kind {
        StringLeqTransitive(x.kind, y.kind, z.kind);
        StringLeqTotal(x.kind, y.kind);
      }
    }
  }

  lemma SortedEntriesOrdered(es: seq<Entry>, from: Time, to: Time)
    requires Within(es, from, to)
    ensures var sorted := Sort(EntryLeq, es);
      TimeOrdered(sorted) && Within(sorted, from, to) && multiset(sorted) == multiset(es)
  {
    EntryLeqPreorder();
    SortSorted(EntryLeq, es);
    SortPermutes(EntryLeq, es);
    var sorted := Sort(EntryLeq, es);
    forall i | 0 <= i < |sorted| ensures from <= sorted[i].at <= to {
      assert sorted[i] in multiset(es);
    }
  }

  /** The ledger of the active state is no older than its activation. */
  ghost predicate LedgerStarts(s: Store, asOf: Time)
    requires Linked(s)
  {
    Within(Entries(s, asOf), s.versions[s.row.active].activatedAt, asOf)
  }

  lemma ProjectedClosedForm(s: Store, asOf: Time)
    requires Linked(s) && LedgerStarts(s, asOf) && s.versions[s.row.active].activatedAt <= asOf
    ensures var v := s.versions[s.row.active];
      Projected(s, asOf) == v.baseline + Carry(v.starting - v.baseline, v.rate, v.activatedAt, asOf)
                            + Contribution(Entries(s, asOf), v.rate, asOf)
  {
    hide Carry, DecayLogOdds, Sort, Entries, Replayed, Sum, EntryLeq, Fade, Factor;
    var v := s.versions[s.row.active];
    var es := Entries(s, asOf);
    var sorted := Sort(EntryLeq, es);
    SortedEntriesOrdered(es, v.activatedAt, asOf);
    ReplayClosedForm(sorted, v.starting, v.activatedAt, v.baseline, v.rate, asOf);
    SumPermutes(Term(v.rate, asOf), sorted, es);
  }
}
