/** The drift law, replay agreement and the rounding bound, over every run from creation. */
module TrendAgreement {
  import opened Wrappers
  import opened Decay
  import opened Sums
  import opened TrendLedger
  import opened TrendProjection
  import opened TrendDrift

  /** The parameters a trend is created with. */
  datatype Birth = Birth(id: Id, baseline: real, current: real, rate: Rate, at: Time)

  function Born(p: Precision, b: Birth): (s: Store)
    ensures Linked(s)
  {
    CreateTrend(p, b.id, b.baseline, b.current, b.rate, b.at)
  }

  lemma BornCoherent(p: Precision, b: Birth)
    ensures Coherent(Born(p, b))
    ensures forall asOf :: b.at <= asOf ==> Drift(Born(p, b), asOf) == 0.0
  {
    var s := Born(p, b);
    forall asOf | b.at <= asOf ensures Drift(s, asOf) == 0.0 {
      hide Carry, DecayLogOdds, Drift;
      DriftClosedForm(s, asOf);
    }
  }

  lemma ClockAdvances(p: Precision, s: Store, op: Op)
    requires Linked(s) && Legal(s, op) && !op.Activate?
    ensures s.row.updatedAt <= Step(p, s, op).row.updatedAt
  {
    hide DecayLogOdds;
  }

  // ---------------------------------------------------------------- what the law is made of

  /** What an operation slips: the decay an add or another edit of the row skipped, or the deltas
      a deletion took out of the ledger. */
  function SlipOf(p: Precision, s: Store, op: Op): seq<Slip> {
    match op
    case Score(_, claim, signal, delta, createdAt, at) =>
      if Duplicate(s, claim, signal) then []
      else [Late(s.row.current - s.row.baseline, s.row.updatedAt, at, createdAt, Write(p, delta))]
    case Touch(at) => [Late(s.row.current - s.row.baseline, s.row.updatedAt, at, at, 0.0)]
    case Prune(id) => PrunedSlips(s.evidence, id, s.row.active)
    case _ => []
  }

  /** The slips since the last activation. */
  function Slips(p: Precision, s: Store, ops: seq<Op>): seq<Slip>
    requires Linked(s)
  {
    if ops == [] then []
    else
      var op := ops[|ops| - 1];
      if op.Activate? then []
      else Slips(p, s, ops[..|ops| - 1]) + SlipOf(p, Run(p, s, ops[..|ops| - 1]), op)
  }

  /** Whether an operation writes the row's value. */
  function Writes(s: Store, op: Op): nat {
    match op
    case Decay(asOf) => if asOf <= s.row.updatedAt then 0 else 1
    case Score(_, claim, signal, _, _, _) => if Duplicate(s, claim, signal) then 0 else 1
    case Restate(_, target, _, delta, _) =>
      if delta == 0.0 || RestatedState(s, target) != s.row.active then 0 else 1
    case Activate(_, _, _, _, _) => 1
    case _ => 0
  }

  /** Row writes since the last activation. */
  function WriteCount(p: Precision, s: Store, ops: seq<Op>): nat
    requires Linked(s)
  {
    if ops == [] then 0
    else if ops[|ops| - 1].Activate? then 0
    else WriteCount(p, s, ops[..|ops| - 1]) + Writes(Run(p, s, ops[..|ops| - 1]), ops[|ops| - 1])
  }

  // ---------------------------------------------------------------- one step

  /** A late write in terms of what is carried to `asOf`. */
  lemma SlipAsCarry(rate: Rate, k: Slip, asOf: Time)
    requires k.Late? && k.from <= k.at <= asOf
    ensures SlipTerm(rate, asOf)(k)
         == Carry(k.deviation, rate, k.at, asOf) - Carry(k.deviation, rate, k.from, asOf)
            + Carry(k.delta, rate, k.at, asOf) - Carry(k.delta, rate, k.createdAt, asOf)
  {
    hide Skipped, Fade, Factor;
    FadeChain(rate, k.from, k.at, asOf);
    SkippedSplit(k.deviation, Fade(rate, k.from, k.at), Fade(rate, k.at, asOf), k.delta, Fade(rate, k.createdAt, asOf));
  }

  lemma SkippedSplit(d: real, f: real, g: real, delta: real, h: real)
    ensures Skipped(d, f, g, delta, h) == d * g - d * (f * g) + delta * g - delta * h
  {}

  /** A decayed row, given a delta: seen later, it is the old deviation plus that delta. */
  lemma DecayThenAdd(row: Row, delta: real, at: Time, asOf: Time)
    requires row.updatedAt <= at <= asOf
    ensures Carry(RowDecayed(row, at) + delta - row.baseline, row.rate, at, asOf)
         == Carry(row.current - row.baseline, row.rate, row.updatedAt, asOf) + Carry(delta, row.rate, at, asOf)
  {
    hide Carry, DecayLogOdds;
    var dev := Carry(row.current - row.baseline, row.rate, row.updatedAt, at);
    DecayIsCarry(row.current, row.baseline, row.rate, row.updatedAt, at);
    CarryAdd(dev, delta, row.rate, at, asOf);
    CarryChain(row.current - row.baseline, row.rate, row.updatedAt, at, asOf);
    assert RowDecayed(row, at) + delta - row.baseline == dev + delta;
  }

  lemma WriteError(p: Precision, row: Row, delta: real, at: Time, asOf: Time)
    requires row.updatedAt <= at <= asOf
    ensures Abs(Carry(Write(p, RowDecayed(row, at) + delta) - row.baseline, row.rate, at, asOf)
              - Carry(row.current - row.baseline, row.rate, row.updatedAt, asOf)
              - Carry(Write(p, delta), row.rate, at, asOf)) <= Allowance(p, 1)
  {
    hide Carry, DecayLogOdds, RoundMicro;
    var exact := RowDecayed(row, at) + delta;
    var e1, e2 := Write(p, exact) - exact, Write(p, delta) - delta;
    assert Abs(e1 - e2) <= Allowance(p, 1);
    CarryBound(e1 - e2, row.rate, at, asOf, Allowance(p, 1));
    DecayThenAdd(row, delta, at, asOf);
    CarryAdd(e1, e2, row.rate, at, asOf);
    CarryAdd(exact - row.baseline, e1, row.rate, at, asOf);
    CarryAdd(delta, e2, row.rate, at, asOf);
    assert Write(p, exact) - row.baseline == (exact - row.baseline) + e1;
    assert Write(p, delta) == delta + e2;
  }

  /** An add without decay, rounded: what it moves, less what it logs, is its slip up to one unit
      in the last decimal. */
  lemma LateError(p: Precision, row: Row, delta: real, createdAt: Time, at: Time, asOf: Time)
    requires row.updatedAt <= at <= asOf
    ensures var k := Late(row.current - row.baseline, row.updatedAt, at, createdAt, Write(p, delta));
      Abs(Carry(Write(p, row.current + delta) - row.baseline, row.rate, at, asOf)
          - Carry(row.current - row.baseline, row.rate, row.updatedAt, asOf)
          - Carry(Write(p, delta), row.rate, createdAt, asOf) - SlipTerm(row.rate, asOf)(k)) <= Allowance(p, 1)
  {
    hide Carry, DecayLogOdds, RoundMicro, SlipTerm;
    var exact, stored := row.current + delta, Write(p, delta);
    var e1, e2 := Write(p, exact) - exact, stored - delta;
    var k := Late(row.current - row.baseline, row.updatedAt, at, createdAt, stored);
    assert Abs(e1 - e2) <= Allowance(p, 1);
    CarryBound(e1 - e2, row.rate, at, asOf, Allowance(p, 1));
    SlipAsCarry(row.rate, k, asOf);
    CarryAdd(k.deviation, stored, row.rate, at, asOf);
    CarryAdd(k.deviation + stored, e1 - e2, row.rate, at, asOf);
    assert Write(p, exact) - row.baseline == (k.deviation + stored) + (e1 - e2);
  }

  /** A step changes the drift by its slips, up to one unit in the last decimal per row write. */
  lemma StepDrift(p: Precision, s: Store, op: Op, asOf: Time)
    requires Coherent(s) && Legal(s, op) && !op.Activate?
    requires Step(p, s, op).row.updatedAt <= asOf
    ensures Abs(Drift(Step(p, s, op), asOf) - Drift(s, asOf) - Sum(SlipTerm(s.row.rate, asOf), SlipOf(p, s, op)))
         <= Allowance(p, Writes(s, op))
  {
    hide Carry, DecayLogOdds, Drift, RoundMicro, SlipTerm, PrunedSlips;
    hide KnownStates, EvidenceTimely, RestatementsTimely;
    ClockAdvances(p, s, op);
    DriftStep(p, s, op, asOf);
    AllowanceAdds(p, 0, 0);
    match op {
      case Decay(at) =>
        if s.row.updatedAt < at {
          WriteError(p, s.row, 0.0, at, asOf);
          ZeroCarries(p, s.row.rate, at, asOf);
        }
      case Invalidate(_) =>
      case Prune(_) =>
      case Restate(_, target, _, delta, at) =>
        if Writes(s, op) == 1 {
          WriteError(p, s.row, delta, at, asOf);
          assert s.row.current + ((RowDecayed(s.row, at) - s.row.current) + delta) == RowDecayed(s.row, at) + delta;
        }
      case Score(_, _, _, delta, createdAt, at) =>
        if Writes(s, op) == 1 {
          LateError(p, s.row, delta, createdAt, at, asOf);
          SumOne(SlipTerm(s.row.rate, asOf), SlipOf(p, s, op)[0]);
        }
      case Touch(at) =>
        var k := SlipOf(p, s, op)[0];
        SlipAsCarry(s.row.rate, k, asOf);
        CarryAdd(0.0, 0.0, s.row.rate, at, asOf);
        SumOne(SlipTerm(s.row.rate, asOf), k);
    }
  }

  // ---------------------------------------------------------------- whole runs

  lemma Triangle(before: real, after: real, sum: real, slip: real, m: real, n: real)
    requires Abs(before - sum) <= m && Abs(after - before - slip) <= n
    ensures Abs(after - (sum + slip)) <= m + n
  {
  }

  lemma StepKeepsRate(p: Precision, s: Store, op: Op)
    requires Coherent(s) && Legal(s, op) && !op.Activate?
    ensures Step(p, s, op).row.rate == s.row.rate
  {
    hide Step, Legal, KnownStates, EvidenceTimely, RestatementsTimely;
    StepKeepsState(p, s, op);
    StepCoherent(p, s, op);
  }

  /** One step further along a run. */
  lemma DriftExtends(p: Precision, s: Store, op: Op, asOf: Time, slips: seq<Slip>, writes: nat)
    requires Coherent(s) && Legal(s, op) && !op.Activate? && Step(p, s, op).row.updatedAt <= asOf
    requires Abs(Drift(s, asOf) - Sum(SlipTerm(s.row.rate, asOf), slips)) <= Allowance(p, writes)
    ensures Abs(Drift(Step(p, s, op), asOf) - Sum(SlipTerm(s.row.rate, asOf), slips + SlipOf(p, s, op)))
         <= Allowance(p, writes + Writes(s, op))
  {
    hide SlipTerm, SlipOf, Drift, Allowance, Abs, Writes, Step, Legal, KnownStates, EvidenceTimely,
        RestatementsTimely, Sum;
    StepDrift(p, s, op, asOf);
    var term := SlipTerm(s.row.rate, asOf);
    SumConcat(term, slips, SlipOf(p, s, op));
    AllowanceAdds(p, writes, Writes(s, op));
    Triangle(Drift(s, asOf), Drift(Step(p, s, op), asOf), Sum(term, slips), Sum(term, SlipOf(p, s, op)),
             Allowance(p, writes), Allowance(p, Writes(s, op)));
  }

  /** On every legal run, under either precision, stored minus replayed is the sum over the slips
      since the last activation, up to one millionth per rounded row write: decay never amplifies
      earlier error. */
  lemma {:induction false} DriftWithin(p: Precision, b: Birth, ops: seq<Op>, asOf: Time)
    requires LegalRun(p, Born(p, b), ops)
    requires Run(p, Born(p, b), ops).row.updatedAt <= asOf
    ensures var s := Run(p, Born(p, b), ops);
      Abs(Drift(s, asOf) - Sum(SlipTerm(s.row.rate, asOf), Slips(p, Born(p, b), ops)))
      <= Allowance(p, WriteCount(p, Born(p, b), ops))
    decreases |ops|
  {
    hide SlipTerm, SlipOf, Drift, Allowance, Abs, Writes, Step, Legal, Coherent, Born;
    BornCoherent(p, b);
    NoSlips(p, b, SlipTerm(Born(p, b).row.rate, asOf));
    if ops != [] {
      var init, op := ops[..|ops| - 1], ops[|ops| - 1];
      var s := Run(p, Born(p, b), init);
      RunCoherent(p, Born(p, b), init);
      NoSlips(p, b, SlipTerm(Step(p, s, op).row.rate, asOf));
      if op.Activate? {
        ActivationStamps(p, s, op);
        ActivationClearsDrift(p, s, op, asOf);
      } else {
        ClockAdvances(p, s, op);
        StepKeepsRate(p, s, op);
        DriftWithin(p, b, init, asOf);
        DriftExtends(p, s, op, asOf, Slips(p, Born(p, b), init), WriteCount(p, Born(p, b), init));
      }
    }
  }

  lemma ActivationStamps(p: Precision, s: Store, op: Op)
    requires Linked(s) && op.Activate?
    ensures Step(p, s, op).row.updatedAt == op.at
  {
  }

  /** The start of a run, and of the stretch after an activation. */
  lemma NoSlips(p: Precision, b: Birth, term: Slip -> real)
    ensures Born(p, b).row.updatedAt == b.at && Sum(term, []) == 0.0 && Allowance(p, 0) == 0.0 && Abs(0.0 - 0.0) == 0.0
  {
  }

  /** With exact columns the law has no error term. */
  lemma DriftLaw(b: Birth, ops: seq<Op>, asOf: Time)
    requires LegalRun(Exact, Born(Exact, b), ops)
    requires Run(Exact, Born(Exact, b), ops).row.updatedAt <= asOf
    ensures var s := Run(Exact, Born(Exact, b), ops);
      Drift(s, asOf) == Sum(SlipTerm(s.row.rate, asOf), Slips(Exact, Born(Exact, b), ops))
  {
    hide Drift, Slips, SlipTerm, Run, LegalRun, Sum, WriteCount;
    DriftWithin(Exact, b, ops, asOf);
  }

  // ---------------------------------------------------------------- agreement and rounding

  /** Evidence that lands at the row's last write and is stamped there, no other edit that moves
      the stamp, and no deletion from the active ledger. */
  ghost predicate Punctual(s: Store, op: Op) {
    match op
    case Score(_, claim, signal, _, createdAt, at) =>
      !Duplicate(s, claim, signal) ==> createdAt == at == s.row.updatedAt
    case Touch(at) => at == s.row.updatedAt
    case Prune(id) => forall e :: e in s.evidence && e.id == id ==> e.state != s.row.active
    case _ => true
  }

  ghost predicate PunctualRun(p: Precision, s: Store, ops: seq<Op>)
    requires Linked(s)
  {
    ops == [] || (PunctualRun(p, s, ops[..|ops| - 1]) && Punctual(Run(p, s, ops[..|ops| - 1]), ops[|ops| - 1]))
  }

  lemma {:induction false} NonePruned(rows: seq<Evidence>, id: Id, state: Id)
    requires forall e :: e in rows && e.id == id ==> e.state != state
    ensures PrunedSlips(rows, id, state) == []
  {
    if rows != [] {
      assert rows[|rows| - 1] in rows;
      NonePruned(rows[..|rows| - 1], id, state);
    }
  }

  lemma SlipStill(rate: Rate, asOf: Time, deviation: real, at: Time, delta: real)
    ensures SlipTerm(rate, asOf)(Late(deviation, at, at, at, delta)) == 0.0
  {
    assert Fade(rate, at, at) == 1.0;
  }

  lemma PunctualStep(p: Precision, s: Store, op: Op, rate: Rate, asOf: Time)
    requires Punctual(s, op)
    ensures Sum(SlipTerm(rate, asOf), SlipOf(p, s, op)) == 0.0
  {
    hide SlipTerm, PrunedSlips, Fade, RoundMicro;
    match op {
      case Score(_, claim, signal, delta, _, at) =>
        if !Duplicate(s, claim, signal) {
          SlipStill(rate, asOf, s.row.current - s.row.baseline, at, Write(p, delta));
          SumOne(SlipTerm(rate, asOf), SlipOf(p, s, op)[0]);
        }
      case Touch(at) =>
        SlipStill(rate, asOf, s.row.current - s.row.baseline, at, 0.0);
        SumOne(SlipTerm(rate, asOf), SlipOf(p, s, op)[0]);
      case Prune(id) => NonePruned(s.evidence, id, s.row.active);
      case _ =>
    }
  }

  lemma {:induction false} PunctualSlips(p: Precision, s: Store, ops: seq<Op>, rate: Rate, asOf: Time)
    requires Linked(s) && PunctualRun(p, s, ops)
    ensures Sum(SlipTerm(rate, asOf), Slips(p, s, ops)) == 0.0
    decreases |ops|
  {
    hide SlipTerm, SlipOf, Punctual, Step;
    if ops != [] && !ops[|ops| - 1].Activate? {
      var init, op := ops[..|ops| - 1], ops[|ops| - 1];
      PunctualSlips(p, s, init, rate, asOf);
      PunctualStep(p, Run(p, s, init), op, rate, asOf);
      SumConcat(SlipTerm(rate, asOf), Slips(p, s, init), SlipOf(p, Run(p, s, init), op));
    }
  }

  /** Punctual runs slip nothing: only rounding parts the row and the replay, by at most one
      millionth per row write since the last activation. */
  lemma RoundingBound(p: Precision, b: Birth, ops: seq<Op>, asOf: Time)
    requires LegalRun(p, Born(p, b), ops) && PunctualRun(p, Born(p, b), ops)
    requires Run(p, Born(p, b), ops).row.updatedAt <= asOf
    ensures Abs(Drift(Run(p, Born(p, b), ops), asOf)) <= Allowance(p, WriteCount(p, Born(p, b), ops))
  {
    hide Drift, Slips, SlipTerm, Run, LegalRun, PunctualRun, Sum, WriteCount, Allowance;
    DriftWithin(p, b, ops, asOf);
    PunctualSlips(p, Born(p, b), ops, Run(p, Born(p, b), ops).row.rate, asOf);
  }

  /** On every punctual run the exact stored value is the ledger replay, after every step and at
      every later instant. */
  lemma ReplayAgreement(b: Birth, ops: seq<Op>, n: nat, asOf: Time)
    requires n <= |ops|
    requires LegalRun(Exact, Born(Exact, b), ops) && PunctualRun(Exact, Born(Exact, b), ops)
    requires Run(Exact, Born(Exact, b), ops[..n]).row.updatedAt <= asOf
    ensures var s := Run(Exact, Born(Exact, b), ops[..n]);
      RowDecayed(s.row, asOf) == Projected(s, asOf) &&
      s.row.current == Projected(s, s.row.updatedAt)
  {
    hide Carry, DecayLogOdds, Projected, Run, Born, LegalRun, PunctualRun;
    PrefixRun(Exact, Born(Exact, b), ops, n);
    var s := Run(Exact, Born(Exact, b), ops[..n]);
    RoundingBound(Exact, b, ops[..n], asOf);
    RoundingBound(Exact, b, ops[..n], s.row.updatedAt);
    DecayIsItself(s.row);
  }

  lemma {:induction false} PrefixRun(p: Precision, s: Store, ops: seq<Op>, n: nat)
    requires n <= |ops| && Linked(s) && LegalRun(p, s, ops) && PunctualRun(p, s, ops)
    ensures LegalRun(p, s, ops[..n]) && PunctualRun(p, s, ops[..n])
  {
    if n < |ops| {
      PrefixRun(p, s, ops[..|ops| - 1], n);
      assert ops[..|ops| - 1][..n] == ops[..n];
    } else {
      assert ops[..n] == ops;
    }
  }

  // ---------------------------------------------------------------- when agreement is kept

  /** From an agreeing state, evidence stamped when applied keeps agreement exactly when the row
      sits on its baseline or was last written at that very instant. */
  lemma EvidenceKeepsAgreementIff(s: Store, op: Op, asOf: Time)
    requires Coherent(s) && Legal(s, op) && op.Score? && !Duplicate(s, op.claim, op.signal)
    requires op.createdAt == op.at <= asOf && Drift(s, asOf) == 0.0
    ensures Drift(Step(Exact, s, op), asOf) == 0.0 <==> s.row.current == s.row.baseline || op.at == s.row.updatedAt
  {
    hide Drift, Projected, Step, SlipTerm, DecayLogOdds, Carry;
    ClockStops(s, op);
    StepDrift(Exact, s, op, asOf);
    SumOne(SlipTerm(s.row.rate, asOf), SlipOf(Exact, s, op)[0]);
    SlipVanishesIff(s.row.rate, SlipOf(Exact, s, op)[0], asOf);
  }

  /** The same for any other edit of the trend, which moves the stamp and nothing else. */
  lemma EditKeepsAgreementIff(s: Store, at: Time, asOf: Time)
    requires Coherent(s) && Legal(s, Touch(at)) && at <= asOf && Drift(s, asOf) == 0.0
    ensures Drift(Step(Exact, s, Touch(at)), asOf) == 0.0 <==> s.row.current == s.row.baseline || at == s.row.updatedAt
  {
    hide Drift, Projected, Step, SlipTerm, DecayLogOdds, Carry;
    ClockStops(s, Touch(at));
    StepDrift(Exact, s, Touch(at), asOf);
    SumOne(SlipTerm(s.row.rate, asOf), SlipOf(Exact, s, Touch(at))[0]);
    SlipVanishesIff(s.row.rate, SlipOf(Exact, s, Touch(at))[0], asOf);
  }

  lemma PrunedAppend(init: seq<Evidence>, last: Evidence, id: Id, state: Id)
    ensures PrunedSlips(init + [last], id, state)
         == PrunedSlips(init, id, state)
            + if last.id == id && last.state == state then [Pruned(last.createdAt, last.delta)] else []
  {
    assert (init + [last])[..|init|] == init;
  }

  ghost predicate UniqueId(rows: seq<Evidence>, id: Id) {
    forall i, j :: 0 <= i < j < |rows| && rows[i].id == id ==> rows[j].id != id
  }

  /** Deleting by a unique id takes out one row of the state or none. */
  lemma {:induction false} PrunedOnce(rows: seq<Evidence>, id: Id, state: Id) returns (gone: Option<Evidence>)
    requires UniqueId(rows, id)
    ensures gone.None? ==> PrunedSlips(rows, id, state) == []
    ensures gone.Some? ==> PrunedSlips(rows, id, state) == [Pruned(gone.value.createdAt, gone.value.delta)]
    ensures forall e :: e in rows && e.id == id && e.state == state <==> gone == Some(e)
  {
    hide PrunedSlips;
    if rows == [] {
      gone := None;
      NonePruned(rows, id, state);
    } else {
      var init, last := rows[..|rows| - 1], rows[|rows| - 1];
      assert rows == init + [last];
      PrunedAppend(init, last, id, state);
      gone := PrunedOnce(init, id, state);
      if last.id == id {
        forall e | e in init ensures e.id != id {
          var i :| 0 <= i < |init| && init[i] == e;
          assert rows[i] == e && rows[|init|] == last;
        }
        gone := if last.state == state then Some(last) else None;
        NonePruned(init, id, state);
      }
    }
  }

  /** And for the deletion of an evidence row, ids being unique: the replay loses a delta that the
      row keeps, so agreement is kept exactly when that delta is none or not the active state's. */
  lemma PruneKeepsAgreementIff(p: Precision, s: Store, id: Id, asOf: Time)
    requires Coherent(s) && s.row.updatedAt <= asOf && Drift(s, asOf) == 0.0
    requires UniqueId(s.evidence, id)
    ensures Drift(Step(p, s, Prune(id)), asOf) == 0.0
       <==> forall e :: e in s.evidence && e.id == id && e.state == s.row.active ==> e.delta == 0.0
  {
    hide Drift, Projected, DecayLogOdds, Carry, PrunedSlips, Coherent;
    var gone := PrunedOnce(s.evidence, id, s.row.active);
    PruneDrift(p, s, id, asOf);
    if gone.Some? {
      var e := gone.value;
      SumOne(SlipTerm(s.row.rate, asOf), Pruned(e.createdAt, e.delta));
      CarryZeroIff(e.delta, s.row.rate, e.createdAt, asOf);
    } else {
      assert Sum(SlipTerm(s.row.rate, asOf), []) == 0.0;
    }
  }

  /** A deletion adds to the drift what it takes out of the replay. */
  lemma PruneDrift(p: Precision, s: Store, id: Id, asOf: Time)
    requires Coherent(s) && s.row.updatedAt <= asOf
    ensures Drift(Step(p, s, Prune(id)), asOf)
         == Drift(s, asOf) + Sum(SlipTerm(s.row.rate, asOf), PrunedSlips(s.evidence, id, s.row.active))
  {
    hide Drift, DecayLogOdds, Carry, PrunedSlips, SlipTerm;
    DriftStep(p, s, Prune(id), asOf);
  }

  lemma CarryZeroIff(x: real, rate: Rate, from: Time, to: Time)
    ensures Carry(x, rate, from, to) == 0.0 <==> x == 0.0
  {
    ProductZero(x, 1.0, Fade(rate, from, to));
  }

  lemma ClockStops(s: Store, op: Op)
    requires Linked(s) && ((op.Score? && !Duplicate(s, op.claim, op.signal)) || op.Touch?)
    ensures Step(Exact, s, op).row.updatedAt == op.at
  {
  }

  lemma SlipVanishesIff(rate: Rate, k: Slip, asOf: Time)
    requires k.Late? && k.from <= k.createdAt == k.at <= asOf
    ensures SlipTerm(rate, asOf)(k) == 0.0 <==> k.deviation == 0.0 || k.at == k.from
  {
    var gap, tail := 1.0 - Fade(rate, k.from, k.at), Fade(rate, k.at, asOf);
    assert gap == 0.0 <==> k.at == k.from;
    ProductZero(k.deviation, gap, tail);
  }

  lemma ProductZero(x: real, y: real, z: real)
    requires z > 0.0
    ensures x * y * z == 0.0 <==> x == 0.0 || y == 0.0
  {
    if x != 0.0 && y != 0.0 {
      assert x * y != 0.0;
    }
  }

  const LATE_BIRTH := Birth(0, 0.0, 1.0, 0.5, 0)
  const LATE_EVIDENCE := Score(1, 0, "signal", 0.25, 1, 1)

  /** Evidence applied one tick after creation on a row off its baseline: the row keeps 1.25
      where the ledger replays to 0.75. */
  lemma LateEvidenceDrifts()
    ensures var s0 := Born(Exact, LATE_BIRTH);
      Legal(s0, LATE_EVIDENCE) && Drift(Step(Exact, s0, LATE_EVIDENCE), 1) == 0.5
  {
    var s0 := Born(Exact, LATE_BIRTH);
    BornCoherent(Exact, LATE_BIRTH);
    StepDrift(Exact, s0, LATE_EVIDENCE, 1);
    var k := Late(1.0, 0, 1, 1, 0.25);
    assert SlipOf(Exact, s0, LATE_EVIDENCE) == [k];
    SumOne(SlipTerm(0.5, 1), k);
    assert Factor(0.5, 1) == 0.5 * Factor(0.5, 0);
  }

  // ---------------------------------------------------------------- the bound is attained

  const TIGHT_BIRTH := Birth(0, 0.0, -MICRO, 0.5, 0)

  function TightOps(n: nat): (ops: seq<Op>)
    ensures |ops| == n
  {
    if n == 0 then [] else TightOps(n - 1) + [Score(n - 1, n - 1, "signal", MICRO / 2.0, 0, 0)]
  }

  lemma HalvesRoundAway()
    ensures RoundMicro(MICRO / 2.0) == MICRO
    ensures RoundMicro(-MICRO / 2.0) == -MICRO
    ensures RoundMicro(-MICRO) == -MICRO
    ensures RoundMicro(0.0) == 0.0
  {
    assert MICRO / 2.0 * 1000000.0 + 0.5 == 1.0;
    assert MICRO * 1000000.0 + 0.5 == 1.5;
    assert (1.0 as real).Floor == 1 && (1.5 as real).Floor == 1 && (0.5 as real).Floor == 0;
  }

  ghost predicate Tight(s: Store, n: nat) {
    && Coherent(s) && s.row == Row(0.0, 0.5, -MICRO, 0, 0) && s.versions[0].activatedAt == 0
    && |s.evidence| == n && (forall i :: 0 <= i < n ==> s.evidence[i].claim == i)
  }

  lemma TightStep(s: Store, n: nat, op: Op)
    requires Tight(s, n) && op == Score(n, n, "signal", MICRO / 2.0, 0, 0)
    ensures Legal(s, op) && Punctual(s, op) && Writes(s, op) == 1
    ensures Tight(Step(Micro, s, op), n + 1)
    ensures Drift(Step(Micro, s, op), 0) == Drift(s, 0) - MICRO
  {
    hide DecayLogOdds, RoundMicro, Drift;
    HalvesRoundAway();
    StepCoherent(Micro, s, op);
    DriftStep(Micro, s, op, 0);
    assert Fade(0.5, 0, 0) == 1.0;
  }

  /** Half a millionth added again and again to minus one millionth: the ledger counts a full
      millionth each time and the row never moves, so n writes drift by n millionths. */
  lemma {:induction false} RoundingBoundAttained(n: nat)
    ensures var s0 := Born(Micro, TIGHT_BIRTH);
      && LegalRun(Micro, s0, TightOps(n)) && PunctualRun(Micro, s0, TightOps(n))
      && WriteCount(Micro, s0, TightOps(n)) == n
      && Tight(Run(Micro, s0, TightOps(n)), n)
      && Drift(Run(Micro, s0, TightOps(n)), 0) == -Allowance(Micro, n)
  {
    hide DecayLogOdds, RoundMicro, Drift, Tight, Step, Legal, Punctual, Writes, Allowance;
    AllowanceOfOneMore(n);
    if n == 0 {
      TightBirth();
    } else {
      var ops := TightOps(n);
      assert ops[..n - 1] == TightOps(n - 1);
      RoundingBoundAttained(n - 1);
      TightStep(Run(Micro, Born(Micro, TIGHT_BIRTH), TightOps(n - 1)), n - 1, ops[n - 1]);
    }
  }

  lemma AllowanceOfOneMore(n: nat)
    ensures Allowance(Micro, 0) == 0.0
    ensures n > 0 ==> Allowance(Micro, n) == Allowance(Micro, n - 1) + MICRO
  {
  }

  lemma TightBirth()
    ensures Tight(Born(Micro, TIGHT_BIRTH), 0) && Drift(Born(Micro, TIGHT_BIRTH), 0) == 0.0
  {
    hide Drift, RoundMicro;
    HalvesRoundAway();
    BornCoherent(Micro, TIGHT_BIRTH);
  }
}
