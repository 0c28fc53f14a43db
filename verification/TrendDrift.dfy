/** Stored value against replayed value over whole runs. */
module TrendDrift {
  import opened Decay
  import opened Sums
  import opened TrendLedger
  import opened TrendProjection

  ghost predicate EvidenceTimely(rows: seq<Evidence>, state: Id, from: Time, to: Time) {
    forall i :: 0 <= i < |rows| && rows[i].state == state ==> from <= rows[i].createdAt <= to
  }

  /** A restatement stamped after the row's last write can only be one of zero. */
  ghost predicate RestatementsTimely(rows: seq<Restatement>, state: Id, from: Time, to: Time) {
    forall i :: 0 <= i < |rows| && rows[i].state == state ==>
      from <= rows[i].recordedAt && (rows[i].recordedAt <= to || rows[i].delta == 0.0)
  }

  ghost predicate KnownStates(s: Store) {
    && (forall i :: 0 <= i < |s.evidence| ==> s.evidence[i].state in s.versions)
    && (forall i :: 0 <= i < |s.restatements| ==> s.restatements[i].state in s.versions)
  }

  /** The row mirrors its active version and no ledger row of that version predates it. */
  ghost predicate Coherent(s: Store) {
    && Linked(s)
    && KnownStates(s)
    && var v := s.versions[s.row.active];
       && s.row.baseline == v.baseline && s.row.rate == v.rate && s.row.current == v.current
       && v.activatedAt <= s.row.updatedAt
       && EvidenceTimely(s.evidence, s.row.active, v.activatedAt, s.row.updatedAt)
       && RestatementsTimely(s.restatements, s.row.active, v.activatedAt, s.row.updatedAt)
  }

  /** What a caller must respect: clocks do not run back past the row's last write, evidence is
      stamped no later than it is applied, ids are fresh and foreign keys exist. */
  ghost predicate Legal(s: Store, op: Op)
    requires Linked(s)
  {
    var since := s.versions[s.row.active].activatedAt;
    match op
    case Decay(_) => true
    case Invalidate(_) => true
    case Score(_, _, _, _, createdAt, at) => since <= createdAt <= at && s.row.updatedAt <= at
    case Restate(_, target, _, delta, at) =>
      var state := RestatedState(s, target);
      state in s.versions && (state == s.row.active ==> if delta == 0.0 then since <= at else s.row.updatedAt <= at)
    case Activate(id, _, _, _, _) => id !in s.versions
    case Touch(at) => s.row.updatedAt <= at
    case Prune(_) => true
  }

  ghost predicate LegalRun(p: Precision, s: Store, ops: seq<Op>)
    requires Linked(s)
  {
    ops == [] || (LegalRun(p, s, ops[..|ops| - 1]) && Legal(Run(p, s, ops[..|ops| - 1]), ops[|ops| - 1]))
  }

  lemma RoundZero()
    ensures RoundMicro(0.0) == 0.0
  {
    assert (0.5 as real).Floor == 0;
  }

  lemma PruneCoherent(s: Store, id: Id)
    requires Coherent(s)
    ensures Coherent(s.(evidence := Remaining(s.evidence, id), restatements := Detached(s.restatements, id)))
  {
    var rows := Remaining(s.evidence, id);
    forall i | 0 <= i < |rows| ensures exists j :: 0 <= j < |s.evidence| && s.evidence[j] == rows[i] {
      assert rows[i] in rows;
    }
  }

  lemma StepCoherent(p: Precision, s: Store, op: Op)
    requires Coherent(s) && Legal(s, op)
    ensures Coherent(Step(p, s, op))
  {
    hide DecayLogOdds, RoundMicro;
    match op {
      case Prune(id) => PruneCoherent(s, id);
      case Restate(_, _, _, _, _) => RestateCoherent(p, s, op);
      case Score(_, _, _, _, _, _) => ScoreCoherent(p, s, op);
      case Activate(_, _, _, _, _) => ActivateCoherent(p, s, op);
      case _ =>
    }
  }

  lemma ScoreCoherent(p: Precision, s: Store, op: Op)
    requires Coherent(s) && Legal(s, op) && op.Score?
    ensures Coherent(Step(p, s, op))
  {
    hide DecayLogOdds, RoundMicro, Duplicate;
  }

  lemma RestateCoherent(p: Precision, s: Store, op: Op)
    requires Coherent(s) && Legal(s, op) && op.Restate?
    ensures Coherent(Step(p, s, op))
  {
    hide DecayLogOdds, RoundMicro;
    RoundZero();
  }

  lemma ActivateCoherent(p: Precision, s: Store, op: Op)
    requires Coherent(s) && Legal(s, op) && op.Activate?
    ensures Coherent(Step(p, s, op))
  {
    hide DecayLogOdds, RoundMicro;
    var s' := Step(p, s, op);
    assert forall i :: 0 <= i < |s.evidence| ==> s.evidence[i].state != op.id;
    assert forall i :: 0 <= i < |s.restatements| ==> s.restatements[i].state != op.id;
  }

  lemma {:induction false} RunCoherent(p: Precision, s: Store, ops: seq<Op>)
    requires Coherent(s) && LegalRun(p, s, ops)
    ensures Coherent(Run(p, s, ops))
  {
    if ops != [] {
      RunCoherent(p, s, ops[..|ops| - 1]);
      StepCoherent(p, Run(p, s, ops[..|ops| - 1]), ops[|ops| - 1]);
    }
  }

  // ---------------------------------------------------------------- the ledger as entries

  lemma {:induction false} EvidenceEntriesWithin(rows: seq<Evidence>, state: Id, from: Time, to: Time, asOf: Time)
    requires EvidenceTimely(rows, state, from, to)
    ensures Within(EvidenceEntries(rows, state, asOf), from, asOf)
  {
    if rows != [] {
      EvidenceEntriesWithin(rows[..|rows| - 1], state, from, to, asOf);
    }
  }

  lemma {:induction false} RestatementEntriesWithin(rows: seq<Restatement>, state: Id, from: Time, to: Time, asOf: Time)
    requires RestatementsTimely(rows, state, from, to)
    ensures Within(RestatementEntries(rows, state, asOf), from, asOf)
  {
    if rows != [] {
      RestatementEntriesWithin(rows[..|rows| - 1], state, from, to, asOf);
    }
  }

  /** What the ledger of a state contributes at `asOf`. */
  function Ledger(s: Store, asOf: Time): real
    requires Linked(s)
  {
    Contribution(Entries(s, asOf), s.versions[s.row.active].rate, asOf)
  }

  /** Drift in closed form. */
  lemma DriftClosedForm(s: Store, asOf: Time)
    requires Coherent(s) && s.row.updatedAt <= asOf
    ensures var v := s.versions[s.row.active];
      Drift(s, asOf) == Carry(s.row.current - v.baseline, v.rate, s.row.updatedAt, asOf)
                        - Carry(v.starting - v.baseline, v.rate, v.activatedAt, asOf) - Ledger(s, asOf)
  {
    hide Carry, DecayLogOdds;
    var v := s.versions[s.row.active];
    EvidenceEntriesWithin(s.evidence, s.row.active, v.activatedAt, s.row.updatedAt, asOf);
    RestatementEntriesWithin(s.restatements, s.row.active, v.activatedAt, s.row.updatedAt, asOf);
    ProjectedClosedForm(s, asOf);
    DecayIsCarry(s.row.current, v.baseline, v.rate, s.row.updatedAt, asOf);
  }

  lemma {:induction false} EntriesIgnoreInvalidation(rows: seq<Evidence>, id: Id, state: Id, asOf: Time)
    ensures EvidenceEntries(MarkInvalidated(rows, id), state, asOf) == EvidenceEntries(rows, state, asOf)
  {
    if rows != [] {
      EntriesIgnoreInvalidation(rows[..|rows| - 1], id, state, asOf);
      assert MarkInvalidated(rows, id)[..|rows| - 1] == MarkInvalidated(rows[..|rows| - 1], id);
    }
  }

  lemma LedgerGrows(s: Store, s': Store, asOf: Time, added: seq<Entry>)
    requires Linked(s) && Linked(s')
    requires s'.row.active == s.row.active
    requires s'.versions[s.row.active].rate == s.versions[s.row.active].rate
    requires multiset(Entries(s', asOf)) == multiset(Entries(s, asOf) + added)
    ensures Ledger(s', asOf) == Ledger(s, asOf) + Contribution(added, s.versions[s.row.active].rate, asOf)
  {
    var term := Term(s.versions[s.row.active].rate, asOf);
    SumPermutes(term, Entries(s', asOf), Entries(s, asOf) + added);
    SumConcat(term, Entries(s, asOf), added);
  }

  lemma EvidenceNext(rows: seq<Evidence>, e: Evidence, state: Id, asOf: Time)
    ensures EvidenceEntries(rows + [e], state, asOf)
         == EvidenceEntries(rows, state, asOf)
            + if e.state == state && e.createdAt <= asOf then [Entry(e.createdAt, "evidence", e.id, e.delta)] else []
    ensures EvidenceEntries([], state, asOf) == []
  {
    assert (rows + [e])[..|rows|] == rows;
  }

  lemma EvidenceAppends(rows: seq<Evidence>, e: Evidence, state: Id, asOf: Time)
    requires e.state == state && e.createdAt <= asOf
    ensures EvidenceEntries(rows + [e], state, asOf)
         == EvidenceEntries(rows, state, asOf) + [Entry(e.createdAt, "evidence", e.id, e.delta)]
  {
    assert (rows + [e])[..|rows + [e]| - 1] == rows;
  }

  lemma RestatementAppends(rows: seq<Restatement>, e: Restatement, state: Id, asOf: Time)
    ensures RestatementEntries(rows + [e], state, asOf)
         == RestatementEntries(rows, state, asOf)
            + if e.state == state && e.recordedAt <= asOf then [Entry(e.recordedAt, e.kind, e.id, e.delta)] else []
  {
    assert (rows + [e])[..|rows + [e]| - 1] == rows;
  }

  lemma ContributionOne(e: Entry, rate: Rate, asOf: Time)
    ensures Contribution([e], rate, asOf) == Carry(e.delta, rate, e.at, asOf)
  {
    assert Term(rate, asOf)(e) == Carry(e.delta, rate, e.at, asOf);
    assert Sum(Term(rate, asOf), [e][1..]) == 0.0;
  }

  // ---------------------------------------------------------------- slips

  /** What puts the row and the replay apart. `Late`: a write that skipped the decay of
      `deviation` from `from` to `at`, with a delta stamped at `createdAt`. `Pruned`: a delta that
      the row holds and the ledger no longer does. */
  datatype Slip =
    | Late(deviation: real, from: Time, at: Time, createdAt: Time, delta: real)
    | Pruned(createdAt: Time, delta: real)

  /** The part of `deviation` that should have decayed over the gap, as it survives the tail,
      and the delta's excess for counting from the apply time instead of its stamp. */
  function Skipped(deviation: real, gap: real, tail: real, delta: real, stamped: real): real {
    deviation * (1.0 - gap) * tail + delta * (tail - stamped)
  }

  function SlipTerm(rate: Rate, asOf: Time): Slip -> real {
    (k: Slip) =>
      match k
      case Late(deviation, from, at, createdAt, delta) =>
        Skipped(deviation, Fade(rate, from, at), Fade(rate, at, asOf), delta, Fade(rate, createdAt, asOf))
      case Pruned(createdAt, delta) => Carry(delta, rate, createdAt, asOf)
  }

  /** The rows of a state that a deletion takes out of its ledger. */
  function PrunedSlips(rows: seq<Evidence>, id: Id, state: Id): seq<Slip> {
    if rows == [] then []
    else
      var e := rows[|rows| - 1];
      PrunedSlips(rows[..|rows| - 1], id, state)
      + if e.id == id && e.state == state then [Pruned(e.createdAt, e.delta)] else []
  }

  lemma SumOne<T>(f: T -> real, x: T)
    ensures Sum(f, [x]) == f(x)
  {
    SumAppend(f, [], x);
    assert [] + [x] == [x];
  }

  lemma SumMaybe<T>(f: T -> real, s: seq<T>, t: seq<T>)
    requires |t| <= 1
    ensures Sum(f, s + t) == Sum(f, s) + (if t == [] then 0.0 else f(t[0]))
  {
    if t == [] {
      assert s + t == s;
    } else {
      assert t == [t[0]];
      SumAppend(f, s, t[0]);
    }
  }

  /** What one evidence row of a state contributes. */
  function Share(e: Evidence, state: Id, rate: Rate, asOf: Time): real {
    if e.state == state then Carry(e.delta, rate, e.createdAt, asOf) else 0.0
  }

  lemma EntriesNext(rows: seq<Evidence>, e: Evidence, state: Id, rate: Rate, asOf: Time)
    requires e.state == state ==> e.createdAt <= asOf
    ensures Contribution(EvidenceEntries(rows + [e], state, asOf), rate, asOf)
         == Contribution(EvidenceEntries(rows, state, asOf), rate, asOf) + Share(e, state, rate, asOf)
  {
    hide Carry, Sum;
    assert (rows + [e])[..|rows|] == rows;
    SumMaybe(Term(rate, asOf), EvidenceEntries(rows, state, asOf),
             if e.state == state then [Entry(e.createdAt, "evidence", e.id, e.delta)] else []);
  }

  lemma PrunedNext(rows: seq<Evidence>, e: Evidence, id: Id, state: Id, rate: Rate, asOf: Time)
    ensures Sum(SlipTerm(rate, asOf), PrunedSlips(rows + [e], id, state))
         == Sum(SlipTerm(rate, asOf), PrunedSlips(rows, id, state))
            + (if e.id == id then Share(e, state, rate, asOf) else 0.0)
  {
    hide Carry, Sum, Skipped, Fade;
    assert (rows + [e])[..|rows|] == rows;
    SumMaybe(SlipTerm(rate, asOf), PrunedSlips(rows, id, state),
             if e.id == id && e.state == state then [Pruned(e.createdAt, e.delta)] else []);
  }

  lemma RemainingNext(rows: seq<Evidence>, e: Evidence, id: Id)
    ensures Remaining(rows + [e], id) == Remaining(rows, id) + if e.id == id then [] else [e]
  {
    assert (rows + [e])[..|rows|] == rows;
  }

  /** Deleting evidence takes exactly its rows' contributions out of the ledger sum. */
  lemma {:induction false} EntriesPruned(rows: seq<Evidence>, id: Id, state: Id, rate: Rate, asOf: Time)
    requires forall e :: e in rows && e.state == state ==> e.createdAt <= asOf
    ensures Contribution(EvidenceEntries(Remaining(rows, id), state, asOf), rate, asOf)
         == Contribution(EvidenceEntries(rows, state, asOf), rate, asOf)
            - Sum(SlipTerm(rate, asOf), PrunedSlips(rows, id, state))
    decreases rows
  {
    hide Share, Contribution, EvidenceEntries, Sum, PrunedSlips, Remaining, SlipTerm;
    if rows == [] {
      NoneToPrune(id, state, rate, asOf);
    } else {
      var init, e := rows[..|rows| - 1], rows[|rows| - 1];
      assert rows == init + [e] && e in rows;
      EntriesPruned(init, id, state, rate, asOf);
      EntriesNext(init, e, state, rate, asOf);
      PrunedNext(init, e, id, state, rate, asOf);
      RemainingNext(init, e, id);
      if e.id == id {
        assert Remaining(init, id) + [] == Remaining(init, id);
      } else {
        EntriesNext(Remaining(init, id), e, state, rate, asOf);
      }
    }
  }

  lemma NoneToPrune(id: Id, state: Id, rate: Rate, asOf: Time)
    ensures Remaining([], id) == [] && Sum(SlipTerm(rate, asOf), PrunedSlips([], id, state)) == 0.0
  {
  }

  lemma {:induction false} EntriesDetached(rows: seq<Restatement>, id: Id, state: Id, asOf: Time)
    ensures RestatementEntries(Detached(rows, id), state, asOf) == RestatementEntries(rows, state, asOf)
  {
    if rows != [] {
      EntriesDetached(rows[..|rows| - 1], id, state, asOf);
      assert Detached(rows, id)[..|rows| - 1] == Detached(rows[..|rows| - 1], id);
    }
  }

  lemma LedgerPrune(p: Precision, s: Store, id: Id, asOf: Time)
    requires Coherent(s) && s.row.updatedAt <= asOf
    ensures Ledger(Step(p, s, Prune(id)), asOf)
         == Ledger(s, asOf) - Sum(SlipTerm(s.row.rate, asOf), PrunedSlips(s.evidence, id, s.row.active))
  {
    hide Carry, EvidenceEntries, RestatementEntries, PrunedSlips, SlipTerm;
    var state, rate := s.row.active, s.row.rate;
    forall e | e in s.evidence && e.state == state ensures e.createdAt <= asOf {
      var i :| 0 <= i < |s.evidence| && s.evidence[i] == e;
    }
    EntriesPruned(s.evidence, id, state, rate, asOf);
    EntriesDetached(s.restatements, id, state, asOf);
    var r := RestatementEntries(s.restatements, state, asOf);
    SumConcat(Term(rate, asOf), EvidenceEntries(s.evidence, state, asOf), r);
    SumConcat(Term(rate, asOf), EvidenceEntries(Remaining(s.evidence, id), state, asOf), r);
  }

  // ---------------------------------------------------------------- one step

  /** How far an operation moves the row, seen at `asOf`. */
  function Moved(s: Store, s': Store, asOf: Time): real
    requires Linked(s)
  {
    var v := s.versions[s.row.active];
    Carry(s'.row.current - v.baseline, v.rate, s'.row.updatedAt, asOf)
    - Carry(s.row.current - v.baseline, v.rate, s.row.updatedAt, asOf)
  }

  /** A fresh state starts without drift, wherever it starts. */
  lemma ActivationClearsDrift(p: Precision, s: Store, op: Op, asOf: Time)
    requires Coherent(s) && Legal(s, op) && op.Activate? && op.at <= asOf
    ensures Drift(Step(p, s, op), asOf) == 0.0
  {
    hide Carry, DecayLogOdds;
    var s' := Step(p, s, op);
    StepCoherent(p, s, op);
    DriftClosedForm(s', asOf);
    NoEvidence(s'.evidence, op.id, asOf);
    NoRestatements(s'.restatements, op.id, asOf);
  }

  /** The row holds a value that its column can hold. */
  ghost predicate RowStored(p: Precision, s: Store) {
    p.Micro? ==> OnGrid(s.row.current)
  }

  lemma StepStoresRow(p: Precision, s: Store, op: Op)
    requires Linked(s) && RowStored(p, s)
    ensures RowStored(p, Step(p, s, op))
  {
    hide OnGrid, RoundMicro, Duplicate;
    forall x ensures OnGrid(RoundMicro(x)) {
      RoundLandsOnGrid(x);
    }
  }

  /** Where a new state starts: a replay or a new line at its own baseline, a created or rebased one
      at the value the row had; and the projection starts there with it. */
  lemma ActivationStarts(p: Precision, s: Store, op: Op)
    requires Coherent(s) && Legal(s, op) && op.Activate? && RowStored(p, s)
    ensures var s' := Step(p, s, op);
      && s'.row.active == op.id && s'.row.updatedAt == op.at && Stores(p, s'.row.baseline, op.baseline)
      && s'.row.current == (match op.activation
                            case Create => s.row.current
                            case Rebase => s.row.current
                            case Replay => s'.row.baseline
                            case NewLine => s'.row.baseline)
      && s'.versions[op.id].starting == s'.versions[op.id].current == s'.row.current
      && Projected(s', op.at) == s'.row.current
  {
    hide Projected, RoundMicro;
    WriteStores(p, op.baseline);
    if p.Micro? { GridIsStored(p, s.row.current); }
    ActivationClearsDrift(p, s, op, op.at);
    DecayIsItself(Step(p, s, op).row);
  }

  lemma {:induction false} NoEvidence(rows: seq<Evidence>, state: Id, asOf: Time)
    requires forall i :: 0 <= i < |rows| ==> rows[i].state != state
    ensures EvidenceEntries(rows, state, asOf) == []
  {
    if rows != [] { NoEvidence(rows[..|rows| - 1], state, asOf); }
  }

  lemma {:induction false} NoRestatements(rows: seq<Restatement>, state: Id, asOf: Time)
    requires forall i :: 0 <= i < |rows| ==> rows[i].state != state
    ensures RestatementEntries(rows, state, asOf) == []
  {
    if rows != [] { NoRestatements(rows[..|rows| - 1], state, asOf); }
  }

  /** What an operation adds to the replay of the active state, seen at `asOf`. */
  function Logged(p: Precision, s: Store, op: Op, asOf: Time): real
    requires Linked(s)
  {
    var rate := s.versions[s.row.active].rate;
    match op
    case Score(_, claim, signal, delta, createdAt, _) =>
      if Duplicate(s, claim, signal) then 0.0 else Carry(Write(p, delta), rate, createdAt, asOf)
    case Restate(_, target, _, delta, at) =>
      if delta == 0.0 || RestatedState(s, target) != s.row.active then 0.0
      else Carry(Write(p, delta), rate, at, asOf)
    case Prune(id) => -Sum(SlipTerm(rate, asOf), PrunedSlips(s.evidence, id, s.row.active))
    case _ => 0.0
  }

  lemma LedgerStep(p: Precision, s: Store, op: Op, asOf: Time)
    requires Coherent(s) && Legal(s, op) && !op.Activate?
    requires s.row.updatedAt <= asOf && Step(p, s, op).row.updatedAt <= asOf
    ensures Ledger(Step(p, s, op), asOf) == Ledger(s, asOf) + Logged(p, s, op, asOf)
  {
    hide Carry, DecayLogOdds, Contribution, EvidenceEntries, RestatementEntries, SlipTerm, PrunedSlips;
    match op {
      case Decay(_) =>
        assert Entries(Step(p, s, op), asOf) == Entries(s, asOf);
      case Touch(_) =>
        assert Entries(Step(p, s, op), asOf) == Entries(s, asOf);
      case Prune(id) => LedgerPrune(p, s, id, asOf);
      case Invalidate(id) =>
        EntriesIgnoreInvalidation(s.evidence, id, s.row.active, asOf);
      case Score(_, _, _, _, _, _) => LedgerScore(p, s, op, asOf);
      case Restate(_, _, _, _, _) => LedgerRestate(p, s, op, asOf);
    }
  }

  lemma LedgerScore(p: Precision, s: Store, op: Op, asOf: Time)
    requires Coherent(s) && Legal(s, op) && op.Score?
    requires Step(p, s, op).row.updatedAt <= asOf
    ensures Ledger(Step(p, s, op), asOf) == Ledger(s, asOf) + Logged(p, s, op, asOf)
  {
    hide Carry, DecayLogOdds, Contribution, EvidenceEntries, RestatementEntries;
    var s' := Step(p, s, op);
    if !Duplicate(s, op.claim, op.signal) {
      var e := s'.evidence[|s.evidence|];
      EvidenceAppends(s.evidence, e, s.row.active, asOf);
      var added := Entry(op.createdAt, "evidence", op.id, Write(p, op.delta));
      LedgerGrows(s, s', asOf, [added]);
      ContributionOne(added, s.versions[s.row.active].rate, asOf);
    }
  }

  lemma LedgerRestate(p: Precision, s: Store, op: Op, asOf: Time)
    requires Coherent(s) && Legal(s, op) && op.Restate?
    requires s.row.updatedAt <= asOf && Step(p, s, op).row.updatedAt <= asOf
    ensures Ledger(Step(p, s, op), asOf) == Ledger(s, asOf) + Logged(p, s, op, asOf)
  {
    hide Carry, DecayLogOdds, Contribution, EvidenceEntries, RestatementEntries;
    var s' := Step(p, s, op);
    var state, rate := s.row.active, s.versions[s.row.active].rate;
    var r := s'.restatements[|s.restatements|];
    assert s'.restatements == s.restatements + [r] && s'.evidence == s.evidence;
    StepKeepsState(p, s, op);
    if r.state == state && op.at <= asOf {
      ZeroCarries(p, rate, op.at, asOf);
      LedgerLogs(s, s', r, asOf);
    } else {
      RestatementAppends(s.restatements, r, state, asOf);
      assert Entries(s', asOf) == Entries(s, asOf);
    }
  }

  lemma ZeroCarries(p: Precision, rate: Rate, at: Time, asOf: Time)
    ensures Carry(Write(p, 0.0), rate, at, asOf) == 0.0
  {
    RoundZero();
  }

  lemma LedgerLogs(s: Store, s': Store, r: Restatement, asOf: Time)
    requires Linked(s) && Linked(s') && s'.row.active == s.row.active == r.state
    requires s'.versions[s.row.active].rate == s.versions[s.row.active].rate
    requires s'.restatements == s.restatements + [r] && s'.evidence == s.evidence && r.recordedAt <= asOf
    ensures Ledger(s', asOf) == Ledger(s, asOf) + Carry(r.delta, s.versions[s.row.active].rate, r.recordedAt, asOf)
  {
    hide Carry, DecayLogOdds, Contribution, EvidenceEntries, RestatementEntries, Ledger;
    var added := Entry(r.recordedAt, r.kind, r.id, r.delta);
    RestatementAppends(s.restatements, r, r.state, asOf);
    assert Entries(s', asOf) == Entries(s, asOf) + [added];
    LedgerGrows(s, s', asOf, [added]);
    ContributionOne(added, s.versions[s.row.active].rate, asOf);
  }

  lemma DriftMoves(s: Store, s': Store, asOf: Time, logged: real)
    requires Coherent(s) && Coherent(s') && s'.row.active == s.row.active
    requires s'.versions[s.row.active].(current := s.versions[s.row.active].current) == s.versions[s.row.active]
    requires s.row.updatedAt <= asOf && s'.row.updatedAt <= asOf
    requires Ledger(s', asOf) == Ledger(s, asOf) + logged
    ensures Drift(s', asOf) == Drift(s, asOf) + Moved(s, s', asOf) - logged
  {
    hide Carry, DecayLogOdds, Ledger, Drift, EvidenceTimely, RestatementsTimely, KnownStates;
    DriftClosedForm(s, asOf);
    DriftClosedForm(s', asOf);
  }

  /** Every operation but an activation changes the drift by what it moved the row less what
      it logged. */
  lemma DriftStep(p: Precision, s: Store, op: Op, asOf: Time)
    requires Coherent(s) && Legal(s, op) && !op.Activate?
    requires s.row.updatedAt <= asOf && Step(p, s, op).row.updatedAt <= asOf
    ensures Drift(Step(p, s, op), asOf) == Drift(s, asOf) + Moved(s, Step(p, s, op), asOf) - Logged(p, s, op, asOf)
  {
    hide Carry, DecayLogOdds, Step, Ledger, Drift, Logged, Moved, Legal, KnownStates, EvidenceTimely,
        RestatementsTimely;
    StepCoherent(p, s, op);
    StepKeepsState(p, s, op);
    LedgerStep(p, s, op, asOf);
    DriftMoves(s, Step(p, s, op), asOf, Logged(p, s, op, asOf));
  }

  /** Only an activation changes the active version's contract. */
  lemma StepKeepsState(p: Precision, s: Store, op: Op)
    requires Linked(s) && !op.Activate?
    ensures var s' := Step(p, s, op);
      s'.row.active == s.row.active &&
      s'.versions[s.row.active].(current := s.versions[s.row.active].current) == s.versions[s.row.active]
  {
    hide DecayLogOdds;
  }
}
