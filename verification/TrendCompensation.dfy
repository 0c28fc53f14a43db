/** Restatements that take an evidence row back. */
module TrendCompensation {
  import opened Wrappers
  import opened Decay
  import opened Sums
  import opened TrendLedger
  import opened TrendProjection
  import opened TrendDrift

  /** SUM(compensation_delta) over the restatements of one evidence row. */
  function CompensationTotal(rows: seq<Restatement>, id: Id): real {
    if rows == [] then 0.0
    else
      var last := rows[|rows| - 1];
      CompensationTotal(rows[..|rows| - 1], id) + (if last.evidence == Some(id) then last.delta else 0.0)
  }

  function RemainingDelta(e: Evidence, priorCompensation: real): real {
    e.delta + priorCompensation
  }

  /** What the ledger still holds for an evidence row. */
  function Outstanding(s: Store, e: Evidence): real {
    RemainingDelta(e, CompensationTotal(s.restatements, e.id))
  }

  lemma GridClosed(x: real, y: real)
    requires OnGrid(x) && OnGrid(y)
    ensures OnGrid(x + y) && OnGrid(-x)
  {
    var j: int :| x == Millionths(j);
    var k: int :| y == Millionths(k);
    assert x + y == Millionths(j + k);
    assert -x == Millionths((-j));
  }

  /** Every ledger amount is one the columns can hold. */
  ghost predicate StoredAmounts(p: Precision, s: Store) {
    p.Micro? ==>
      && (forall i :: 0 <= i < |s.evidence| ==> OnGrid(s.evidence[i].delta))
      && (forall i :: 0 <= i < |s.restatements| ==> OnGrid(s.restatements[i].delta))
  }

  lemma StepStoresAmounts(p: Precision, s: Store, op: Op)
    requires Linked(s) && StoredAmounts(p, s)
    ensures StoredAmounts(p, Step(p, s, op))
  {
    hide DecayLogOdds, RoundMicro, OnGrid;
    if op.Score? || op.Restate? {
      RoundLandsOnGrid(op.delta);
    } else if op.Prune? {
      var rows := Remaining(s.evidence, op.id);
      forall i | 0 <= i < |rows| ensures exists j :: 0 <= j < |s.evidence| && s.evidence[j] == rows[i] {
        assert rows[i] in rows;
      }
    }
  }

  lemma {:induction false} TotalOnGrid(rows: seq<Restatement>, id: Id)
    requires forall i :: 0 <= i < |rows| ==> OnGrid(rows[i].delta)
    ensures OnGrid(CompensationTotal(rows, id))
  {
    if rows == [] {
      assert 0.0 == Millionths(0);
    } else {
      TotalOnGrid(rows[..|rows| - 1], id);
      GridClosed(CompensationTotal(rows[..|rows| - 1], id), rows[|rows| - 1].delta);
    }
  }

  /** After any history of partial restatements, restating an evidence row by `delta` leaves
      nothing outstanding exactly when `delta` takes back the remaining contribution. */
  lemma FullCompensationIff(p: Precision, s: Store, e: Evidence, id: Id, kind: string, delta: real, at: Time)
    requires Linked(s) && StoredAmounts(p, s) && e in s.evidence
    requires Write(p, delta) == delta
    ensures Outstanding(Step(p, s, Restate(id, Some(e), kind, delta, at)), e) == 0.0 <==> delta == -Outstanding(s, e)
    ensures Write(p, -Outstanding(s, e)) == -Outstanding(s, e)
  {
    hide DecayLogOdds, RoundMicro;
    var s' := Step(p, s, Restate(id, Some(e), kind, delta, at));
    assert s'.restatements[..|s'.restatements| - 1] == s.restatements;
    if p.Micro? {
      TotalOnGrid(s.restatements, e.id);
      GridClosed(e.delta, CompensationTotal(s.restatements, e.id));
      GridClosed(Outstanding(s, e), 0.0 + e.delta);
      GridIsStored(p, -Outstanding(s, e));
    }
  }

  lemma {:induction false} TotalDetached(rows: seq<Restatement>, gone: Id, id: Id)
    ensures CompensationTotal(Detached(rows, gone), id) == if id == gone then 0.0 else CompensationTotal(rows, id)
  {
    if rows != [] {
      TotalDetached(rows[..|rows| - 1], gone, id);
      assert Detached(rows, gone)[..|rows| - 1] == Detached(rows[..|rows| - 1], gone);
    }
  }

  /** What is outstanding on an evidence row moves with the restatements of that row alone, by what
      their columns hold; deleting the row lets go of them. */
  lemma OutstandingStep(p: Precision, s: Store, op: Op, e: Evidence)
    requires Linked(s)
    ensures Outstanding(Step(p, s, op), e) ==
      if op.Restate? && op.target.Some? && op.target.value.id == e.id then Outstanding(s, e) + Write(p, op.delta)
      else if op == Prune(e.id) then e.delta
      else Outstanding(s, e)
    ensures s.restatements == [] ==> Outstanding(s, e) == e.delta
  {
    hide DecayLogOdds, RoundMicro, Detached;
    var s' := Step(p, s, op);
    if op.Restate? {
      assert s'.restatements[..|s'.restatements| - 1] == s.restatements;
    } else if op.Prune? {
      TotalDetached(s.restatements, op.id, e.id);
    }
  }

  /** The ledger had row `i` never been written. */
  function Without(s: Store, i: nat): Store
    requires i < |s.evidence|
  {
    s.(evidence := s.evidence[..i] + s.evidence[i + 1..])
  }

  /** What one full invalidation at `undone` leaves of a delta scored at `scored`. */
  function Residual(delta: real, rate: Rate, scored: Time, undone: Time, asOf: Time): real {
    delta * Fade(rate, undone, asOf) * (Fade(rate, scored, undone) - 1.0)
  }

  lemma {:induction false} EvidenceEntriesConcat(a: seq<Evidence>, b: seq<Evidence>, state: Id, asOf: Time)
    ensures EvidenceEntries(a + b, state, asOf) == EvidenceEntries(a, state, asOf) + EvidenceEntries(b, state, asOf)
  {
    hide EvidenceEntries;
    if b == [] {
      EvidenceNext(a, Evidence(0, 0, 0, "", 0.0, 0, false), state, asOf);
      assert a + b == a;
    } else {
      var init, last := b[..|b| - 1], b[|b| - 1];
      EvidenceEntriesConcat(a, init, state, asOf);
      EvidenceNext(init, last, state, asOf);
      EvidenceNext(a + init, last, state, asOf);
      assert init + [last] == b && (a + init) + [last] == a + b;
    }
  }

  /** The ledger of a store is that of the store without one evidence row, plus that row. */
  lemma LedgerWithout(s: Store, i: nat, asOf: Time)
    requires Linked(s) && i < |s.evidence|
    requires s.evidence[i].state == s.row.active && s.evidence[i].createdAt <= asOf
    ensures Ledger(s, asOf) == Ledger(Without(s, i), asOf)
         + Carry(s.evidence[i].delta, s.versions[s.row.active].rate, s.evidence[i].createdAt, asOf)
  {
    hide Carry, EvidenceEntries, RestatementEntries;
    var e, state := s.evidence[i], s.row.active;
    var before, after := s.evidence[..i], s.evidence[i + 1..];
    var entry := Entry(e.createdAt, "evidence", e.id, e.delta);
    assert s.evidence == (before + [e]) + after;
    EvidenceEntriesConcat(before + [e], after, state, asOf);
    EvidenceEntriesConcat(before, after, state, asOf);
    EvidenceAppends(before, e, state, asOf);
    var restated := RestatementEntries(s.restatements, state, asOf);
    assert Entries(s, asOf)
        == EvidenceEntries(before, state, asOf) + [entry] + (EvidenceEntries(after, state, asOf) + restated);
    assert Entries(Without(s, i), asOf)
        == EvidenceEntries(before, state, asOf) + (EvidenceEntries(after, state, asOf) + restated);
    SumWithout(Term(s.versions[s.row.active].rate, asOf), EvidenceEntries(before, state, asOf), entry,
               EvidenceEntries(after, state, asOf) + restated);
    assert Term(s.versions[s.row.active].rate, asOf)(entry)
        == Carry(e.delta, s.versions[s.row.active].rate, e.createdAt, asOf);
  }

  lemma ProjectedIsLedger(s: Store, asOf: Time)
    requires Coherent(s) && s.row.updatedAt <= asOf
    ensures var v := s.versions[s.row.active];
      Projected(s, asOf)
      == v.baseline + Carry(v.starting - v.baseline, v.rate, v.activatedAt, asOf) + Ledger(s, asOf)
  {
    hide Carry, DecayLogOdds;
    DriftClosedForm(s, asOf);
    DecayIsCarry(s.row.current, s.row.baseline, s.row.rate, s.row.updatedAt, asOf);
  }

  lemma CarryOut(delta: real, rate: Rate, scored: Time, undone: Time, asOf: Time)
    requires scored <= undone <= asOf
    ensures Carry(delta, rate, scored, asOf) + Carry(-delta, rate, undone, asOf)
         == Residual(delta, rate, scored, undone, asOf)
  {
    CarryChain(delta, rate, scored, undone, asOf);
    var f, g := Fade(rate, scored, undone), Fade(rate, undone, asOf);
    assert (delta * f) * g == (delta * g) * f;
  }

  /** Invalidating an untouched evidence row in full does not erase it from the replay: the
      residual of its decayed head start stays. */
  lemma InvalidationResidual(s: Store, i: nat, id: Id, kind: string, at: Time, asOf: Time)
    requires Coherent(s) && i < |s.evidence| && s.evidence[i].state == s.row.active
    requires Legal(s, Restate(id, Some(s.evidence[i]), kind, -s.evidence[i].delta, at))
    requires s.row.updatedAt <= at <= asOf
    ensures var e := s.evidence[i];
      Projected(Step(Exact, s, Restate(id, Some(e), kind, -e.delta, at)), asOf)
      == Projected(Without(s, i), asOf) + Residual(e.delta, s.row.rate, e.createdAt, at, asOf)
  {
    hide Carry, DecayLogOdds, Ledger, Projected, Residual;
    var e := s.evidence[i];
    var op := Restate(id, Some(e), kind, -e.delta, at);
    var s' := Step(Exact, s, op);
    StepCoherent(Exact, s, op);
    StepKeepsState(Exact, s, op);
    LedgerStep(Exact, s, op, asOf);
    ZeroCarries(Exact, s.row.rate, at, asOf);
    LedgerWithout(s, i, asOf);
    CarryOut(e.delta, s.row.rate, e.createdAt, at, asOf);
    ProjectedIsLedger(s', asOf);
    ProjectedIsLedger(Without(s, i), asOf);
  }

  // ---------------------------------------------------------------- a residual, concretely

  const SCORED: Evidence := Evidence(1, 0, 0, "signal", 0.25, 0, false)

  /** A trend on its baseline of zero, with one tick to the half-life, scored once at creation. */
  const ONCE: Store := Store(
    Row(0.0, 0.5, 0.25, 0, 0), map[0 := StateVersion(None, Create, 0.0, 0.5, 0.0, 0.25, 0)], [0], [SCORED], [])

  const UNDO: Op := Restate(2, Some(SCORED), "full_invalidation", -0.25, 1)

  /** One tick later the evidence is taken back in full, and the replay is left at -0.125, where
      without the evidence it is at zero. */
  lemma InvalidationLeavesResidual()
    ensures ONCE == Step(Exact, CreateTrend(Exact, 0, 0.0, 0.0, 0.5, 0), Score(1, 0, "signal", 0.25, 0, 0))
    ensures Outstanding(Step(Exact, ONCE, UNDO), SCORED) == 0.0
    ensures Projected(Step(Exact, ONCE, UNDO), 1) == -0.125 && Projected(Without(ONCE, 0), 1) == 0.0
  {
    hide Projected;
    OnceIsScored();
    FullCompensationIff(Exact, ONCE, SCORED, 2, "full_invalidation", -0.25, 1);
    InvalidationResidual(ONCE, 0, 2, "full_invalidation", 1, 1);
    ResidualOfOne();
    NothingWithout();
  }

  /** Retention deletes the only evidence of that trend: the row keeps its 0.25 and the replay is back
      at zero. */
  lemma PruneDrifts()
    ensures Legal(ONCE, Prune(1)) && Drift(ONCE, 0) == 0.0 && Drift(Step(Exact, ONCE, Prune(1)), 0) == 0.25
  {
    hide Drift;
    OnceIsScored();
    OncePruned();
    DriftOfOnce();
  }

  lemma OncePruned()
    ensures Step(Exact, ONCE, Prune(1)) == Without(ONCE, 0)
  {
    assert Without(ONCE, 0).evidence == [];
    assert Remaining([SCORED], 1) == Remaining([], 1) by {
      RemainingNext([], SCORED, 1);
      assert [] + [SCORED] == [SCORED];
    }
  }

  lemma DriftOfOnce()
    ensures Drift(ONCE, 0) == 0.0 && Drift(Without(ONCE, 0), 0) == 0.25
  {
    hide Carry, DecayLogOdds, Contribution, Drift;
    var term, entry := Term(0.5, 0), Entry(0, "evidence", 1, 0.25);
    OnceIsScored();
    DriftClosedForm(ONCE, 0);
    DriftClosedForm(Without(ONCE, 0), 0);
    assert Without(ONCE, 0).evidence == [];
    assert Entries(Without(ONCE, 0), 0) == [];
    EvidenceNext([], SCORED, 0, 0);
    assert [] + [SCORED] == [SCORED] && Entries(ONCE, 0) == [entry];
    ContributionOne(entry, 0.5, 0);
    NowCarries(0.25);
    NowCarries(0.0);
    assert Contribution([], 0.5, 0) == 0.0 by { NoContribution(); }
  }

  lemma NowCarries(x: real)
    ensures Carry(x, 0.5, 0, 0) == x
  {
  }

  lemma NoContribution()
    ensures Contribution([], 0.5, 0) == 0.0
  {
  }

  lemma OnceIsScored()
    ensures ONCE == Step(Exact, CreateTrend(Exact, 0, 0.0, 0.0, 0.5, 0), Score(1, 0, "signal", 0.25, 0, 0))
    ensures Coherent(ONCE)
  {
  }

  lemma ResidualOfOne()
    ensures Residual(0.25, 0.5, 0, 1, 1) == -0.125
  {
    assert Factor(0.5, 1) == 0.5 * Factor(0.5, 0);
  }

  lemma NothingWithout()
    ensures Projected(Without(ONCE, 0), 1) == 0.0
  {
    assert Without(ONCE, 0).evidence == [];
    assert Entries(Without(ONCE, 0), 1) == [];
  }

  /** The residual never has the sign of the delta, is smaller than it, and vanishes only when
      nothing had decayed. */
  lemma ResidualBounds(delta: real, rate: Rate, scored: Time, undone: Time, asOf: Time)
    requires scored <= undone <= asOf
    ensures var r := Residual(delta, rate, scored, undone, asOf);
      && delta * r <= 0.0
      && (delta != 0.0 ==> Abs(r) < Abs(delta))
      && (r == 0.0 <==> delta == 0.0 || scored == undone)
  {
    Shrunk(delta, Fade(rate, undone, asOf), Fade(rate, scored, undone));
  }

  lemma Shrunk(delta: real, g: real, f: real)
    requires 0.0 < f <= 1.0 && 0.0 < g <= 1.0
    ensures var r := delta * g * (f - 1.0);
      && delta * r <= 0.0
      && (delta != 0.0 ==> Abs(r) < Abs(delta))
      && (r == 0.0 <==> delta == 0.0 || f == 1.0)
  {
    var lost := g * (1.0 - f);
    assert 0.0 <= lost <= 1.0 - f;
    assert f < 1.0 ==> lost > 0.0;
    assert delta * g * (f - 1.0) == -(delta * lost);
    var size := Abs(delta);
    assert delta != 0.0 ==> size > 0.0;
    var part := PartOf(size, lost);
    assert delta * g * (f - 1.0) == if delta >= 0.0 then -part else part;
    Opposite(delta, part, delta * g * (f - 1.0));
  }

  lemma Opposite(delta: real, part: real, r: real)
    requires 0.0 <= part && (delta != 0.0 ==> part < Abs(delta))
    requires r == if delta >= 0.0 then -part else part
    ensures delta * r <= 0.0
    ensures delta != 0.0 ==> Abs(r) < Abs(delta)
    ensures r == 0.0 <==> part == 0.0
  {}

  lemma PartOf(size: real, share: real) returns (part: real)
    requires 0.0 <= size && 0.0 <= share < 1.0
    ensures part == size * share && 0.0 <= part
    ensures size > 0.0 ==> part < size
    ensures part == 0.0 <==> size == 0.0 || share == 0.0
  {
    part := size * share;
    if size > 0.0 {
      var rest := 1.0 - share;
      assert rest > 0.0;
      assert size * rest > 0.0;
      assert size * rest == size - part;
      assert part < size;
      assert share > 0.0 ==> part > 0.0;
    }
  }
}
