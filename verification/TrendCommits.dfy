/** Committed interleavings as runs of the ledger's own operations. */
module TrendCommits {
  import opened Wrappers
  import opened Decay
  import opened Sums
  import opened TrendLedger
  import L = TrendLedger
  import opened TrendDrift
  import opened TrendAgreement
  import opened TrendConcurrency
  import opened TrendSerializability
  import opened TrendStaleness

  /** An operation of the ledger that does this work on that store: a score of a key without a live
      row, a restatement of the active state by something, or a decay. */
  ghost predicate Does(s: Store, work: Work, at: Time, op: Op) {
    match work
    case Scorer(key, delta) =>
      && op.Score? && op.claim == key.claim && op.signal == key.signal && op.delta == delta && op.at == at
      && key.state == s.row.active && !Duplicate(s, key.claim, key.signal)
    case Restater(delta) =>
      op.Restate? && op.delta == delta != 0.0 && op.at == at && RestatedState(s, op.target) == s.row.active
    case Decayer => op == Op.Decay(at)
  }

  /** A work that reads the row it writes over writes the row that the ledger's operation writes. */
  lemma WorkIsStep(p: Precision, s: Store, work: Work, at: Time, op: Op)
    requires Linked(s) && Does(s, work, at, op)
    ensures L.Step(p, s, op).row == Perform(p, work, s.row, s.row, at)
  {
    hide RoundMicro, DecayLogOdds, Duplicate;
  }

  // ---------------------------------------------------------------- scores alone

  /** What the writes of a log score. */
  function Scored(c: Config, log: seq<RowWrite>): real
    requires LogOk(c, log)
  {
    if log == [] then 0.0
    else
      var work := WorkOf(c, log[|log| - 1].slot);
      Scored(c, log[..|log| - 1]) + if work.Scorer? then work.delta else 0.0
  }

  lemma {:induction false} ScoresAddUp(c: Config, log: seq<RowWrite>)
    requires LogOk(c, log) && c.p.Exact? && forall i :: 0 <= i < |log| ==> WorkOf(c, log[i].slot).Scorer?
    ensures Serial(c, log).current == c.start.current + Scored(c, log)
  {
    if log != [] { ScoresAddUp(c, log[..|log| - 1]); }
  }

  /** In every interleaving whose committed writes are scores, the row is the start plus their deltas. */
  lemma CommittedScoresAddUp(c: Config, steps: seq<Step>, states: seq<System>, n: nat)
    requires Behaviour(c, steps, states) && n < |states| && c.p.Exact?
    requires forall e :: e in states[n].log && SlotOk(c, e.slot) ==> WorkOf(c, e.slot).Scorer?
    ensures LogOk(c, states[n].log) && states[n].row.current == c.start.current + Scored(c, states[n].log)
  {
    hide Perform, Serial, Do, Enabled, Scored;
    SerialEquivalence(c, steps, states, n);
    ScoresAddUp(c, states[n].log);
  }

  // ---------------------------------------------------------------- a log as a run

  /** The ledger's operation for one write. */
  function OpOf(c: Config, e: RowWrite, id: Id): Op
    requires SlotOk(c, e.slot)
  {
    match WorkOf(c, e.slot)
    case Scorer(key, delta) => Score(id, key.claim, key.signal, delta, e.at, e.at)
    case Restater(delta) => Restate(id, None, "restated", delta, e.at)
    case Decayer => Op.Decay(e.at)
  }

  function Ops(c: Config, log: seq<RowWrite>): seq<Op>
    requires LogOk(c, log)
  {
    seq(|log|, i requires 0 <= i < |log| => OpOf(c, log[i], i))
  }

  /** The transactions work on the active state of that store, where the keys counted before are
      those of its live evidence, and no restatement is of zero. */
  ghost predicate WorksOn(c: Config, s: Store) {
    && Linked(s) && c.start == s.row
    && (forall k: Key :: k in c.counted <==> k.state == s.row.active && Duplicate(s, k.claim, k.signal))
    && forall slot :: SlotOk(c, slot) ==>
         match WorkOf(c, slot)
         case Scorer(key, _) => key.state == s.row.active
         case Restater(delta) => delta != 0.0
         case Decayer => true
  }

  /** Each write reads what it writes over, and each score is of a key not counted yet. */
  ghost predicate Clean(c: Config, log: seq<RowWrite>)
    requires LogOk(c, log)
  {
    && (forall i: nat :: i < |log| ==> Served(c, log, i))
    && CountedOnce(c, Slots(log)) && (forall k :: Counted(c, Slots(log), k) ==> k !in c.counted)
  }

  lemma CleanBefore(c: Config, log: seq<RowWrite>, e: RowWrite)
    requires LogOk(c, log) && SlotOk(c, e.slot) && LogOk(c, log + [e]) && Clean(c, log + [e])
    ensures Clean(c, log) && Served(c, log + [e], |log|) && (log + [e])[..|log|] == log
    ensures WorkOf(c, e.slot).Scorer? ==>
      WorkOf(c, e.slot).key !in c.counted && !Counted(c, Slots(log), WorkOf(c, e.slot).key)
    ensures forall k :: (Counted(c, Slots(log + [e]), k) <==>
                           Counted(c, Slots(log), k) || (WorkOf(c, e.slot).Scorer? && WorkOf(c, e.slot).key == k))
  {
    hide Owed;
    var all := log + [e];
    assert Slots(all) == Slots(log) + [e.slot];
    CountsConcat(c, Slots(log), [e.slot]);
    OneSlot(c, e.slot);
    forall i: nat | i < |log| ensures Served(c, log, i) {
      assert Served(c, all, i) && all[..i] == log[..i] && all[i] == log[i];
    }
    forall i: nat, k | Counts(c, Slots(log), i, k) ensures Counts(c, Slots(all), i, k) {
    }
    if WorkOf(c, e.slot).Scorer? {
      assert Counts(c, Slots(all), |log|, WorkOf(c, e.slot).key);
    }
  }

  /** The live keys of a store. */
  ghost predicate Live(s: Store, k: Key) {
    k.state == s.row.active && Duplicate(s, k.claim, k.signal)
  }

  lemma ScoredIsLive(p: Precision, s: Store, op: Op, k: Key)
    requires Linked(s) && !op.Activate? && !op.Invalidate? && !op.Prune?
    ensures Live(L.Step(p, s, op), k)
       <==> Live(s, k) || (op.Score? && k == Key(s.row.active, op.claim, op.signal))
  {
    hide RoundMicro, DecayLogOdds;
    var s' := L.Step(p, s, op);
    if Duplicate(s, k.claim, k.signal) {
      var i :| 0 <= i < |s.evidence| && SameKey(s.evidence[i], s.row.active, k.claim, k.signal);
      assert SameKey(s'.evidence[i], s.row.active, k.claim, k.signal);
    }
    if op.Score? && !Duplicate(s, op.claim, op.signal) {
      assert SameKey(s'.evidence[|s.evidence|], s.row.active, op.claim, op.signal);
    }
  }

  lemma OpsExtend(c: Config, log: seq<RowWrite>, e: RowWrite)
    requires LogOk(c, log) && SlotOk(c, e.slot) && LogOk(c, log + [e])
    ensures Ops(c, log + [e]) == Ops(c, log) + [OpOf(c, e, |log|)]
  {
  }

  lemma RunExtends(p: Precision, s: Store, ops: seq<Op>, op: Op)
    requires Linked(s)
    ensures L.Run(p, s, ops + [op]) == L.Step(p, L.Run(p, s, ops), op)
  {
    hide L.Step;
    assert (ops + [op])[..|ops|] == ops;
  }

  /** A clean log does to the row what the ledger's operations do, one after the other. */
  lemma {:induction false} LogIsRun(c: Config, s: Store, log: seq<RowWrite>)
    requires LogOk(c, log) && WorksOn(c, s) && Clean(c, log)
    ensures var s' := L.Run(c.p, s, Ops(c, log));
      && s'.row == Serial(c, log) && s'.row.active == s.row.active
      && forall k :: Live(s', k) <==> k in c.counted || Counted(c, Slots(log), k)
  {
    hide L.Step, Clean, Serial, Counted, Served, Perform, Duplicate;
    if log == [] {
      NoSlots(c);
      NoWrites(c, s);
    } else {
      var init, e := log[..|log| - 1], log[|log| - 1];
      assert log == init + [e];
      CleanBefore(c, init, e);
      LogIsRun(c, s, init);
      LogStep(c, s, init, e);
    }
  }

  lemma NoWrites(c: Config, s: Store)
    requires Linked(s) && c.start == s.row
    ensures L.Run(c.p, s, Ops(c, [])) == s && Serial(c, []) == s.row && Slots([]) == []
  {
  }

  lemma LogStep(c: Config, s: Store, init: seq<RowWrite>, e: RowWrite)
    requires LogOk(c, init) && SlotOk(c, e.slot) && LogOk(c, init + [e]) && WorksOn(c, s) && Clean(c, init + [e])
    requires var s' := L.Run(c.p, s, Ops(c, init));
      && s'.row == Serial(c, init) && s'.row.active == s.row.active
      && forall k :: Live(s', k) <==> k in c.counted || Counted(c, Slots(init), k)
    ensures var s' := L.Run(c.p, s, Ops(c, init + [e]));
      && s'.row == Serial(c, init + [e]) && s'.row.active == s.row.active
      && forall k :: Live(s', k) <==> k in c.counted || Counted(c, Slots(init + [e]), k)
  {
    hide L.Step, Clean, Serial, Counted, Perform, Duplicate, Owed;
    var before, op, work := L.Run(c.p, s, Ops(c, init)), OpOf(c, e, |init|), WorkOf(c, e.slot);
    CleanBefore(c, init, e);
    OpsExtend(c, init, e);
    RunExtends(c.p, s, Ops(c, init), op);
    if work.Scorer? { assert !Live(before, work.key); }
    WorkIsStep(c.p, before, work, e.at, op);
    SerialExtends(c, init, e);
    ReadingServes(c.p, work, e.read, before.row, e.at);
    forall k ensures Live(L.Step(c.p, before, op), k) <==> Live(before, k) || (work.Scorer? && work.key == k) {
      ScoredIsLive(c.p, before, op, k);
    }
    StepKeepsState(c.p, before, op);
  }

  /** In every interleaving whose readings served, the committed row is the one that the ledger's own
      operations make of the store the transactions found, one after the other. */
  lemma CommittedRowIsRun(c: Config, steps: seq<Step>, states: seq<System>, n: nat, s: Store)
    requires Behaviour(c, steps, states) && n < |states| && WorksOn(c, s) && LogOk(c, states[n].log)
    requires forall i: nat :: i < |states[n].log| ==> Served(c, states[n].log, i)
    ensures Clean(c, states[n].log) && L.Run(c.p, s, Ops(c, states[n].log)).row == states[n].row
  {
    hide WorksOn, Served, Perform, Serial, Schedule, Taken, Do, Enabled, Counted, CountedOnce;
    SerialEquivalence(c, steps, states, n);
    ScheduleCounts(c, CommitOrder(steps[..n]));
    LogIsRun(c, s, states[n].log);
  }

  // ---------------------------------------------------------------- and of the drift law

  /** The writes come one after the other and not before the store's last. */
  ghost predicate Timely(s: Store, log: seq<RowWrite>) {
    && (forall i :: 0 <= i < |log| ==> s.row.updatedAt <= log[i].at)
    && forall i, j :: 0 <= i < j < |log| ==> log[i].at <= log[j].at
  }

  lemma {:induction false} LogIsLegal(c: Config, s: Store, log: seq<RowWrite>)
    requires LogOk(c, log) && WorksOn(c, s) && Coherent(s) && Timely(s, log)
    ensures LegalRun(c.p, s, Ops(c, log))
    ensures var s' := L.Run(c.p, s, Ops(c, log));
      Coherent(s') && s'.row.updatedAt <= if log == [] then s.row.updatedAt else log[|log| - 1].at
  {
    hide L.Step, Coherent, Legal;
    if log == [] {
      NoWrites(c, s);
    } else {
      var init, e := log[..|log| - 1], log[|log| - 1];
      assert log == init + [e] && e == log[|init|];
      LogIsLegal(c, s, init);
      assert init != [] ==> init[|init| - 1].at <= e.at;
      OpsExtend(c, init, e);
      RunExtends(c.p, s, Ops(c, init), OpOf(c, e, |init|));
      assert Ops(c, log)[..|init|] == Ops(c, init);
      LegalNext(c, L.Run(c.p, s, Ops(c, init)), e, |init|);
    }
  }

  lemma LegalNext(c: Config, s: Store, e: RowWrite, id: Id)
    requires SlotOk(c, e.slot) && Coherent(s) && s.row.updatedAt <= e.at
    ensures var s' := L.Step(c.p, s, OpOf(c, e, id));
      Legal(s, OpOf(c, e, id)) && Coherent(s') && s'.row.updatedAt <= e.at
  {
    hide RoundMicro, DecayLogOdds, Duplicate;
    StepCoherent(c.p, s, OpOf(c, e, id));
  }

  lemma {:induction false} RunsJoin(p: Precision, s: Store, a: seq<Op>, b: seq<Op>)
    requires Linked(s)
    ensures L.Run(p, s, a + b) == L.Run(p, L.Run(p, s, a), b)
    ensures LegalRun(p, s, a) && LegalRun(p, L.Run(p, s, a), b) ==> LegalRun(p, s, a + b)
  {
    hide L.Step, Legal;
    if b == [] {
      assert a + b == a;
    } else {
      RunsJoin(p, s, a, b[..|b| - 1]);
      assert (a + b)[..|a + b| - 1] == a + b[..|b| - 1];
    }
  }

  /** So the committed row is that of a legal run from the trend's creation on, and the drift law holds of it. */
  lemma CommittedRowDrifts(
      c: Config, steps: seq<Step>, states: seq<System>, n: nat, b: Birth, history: seq<Op>, asOf: Time)
    returns (ops: seq<Op>)
    requires Behaviour(c, steps, states) && n < |states| && LogOk(c, states[n].log)
    requires LegalRun(c.p, Born(c.p, b), history) && WorksOn(c, L.Run(c.p, Born(c.p, b), history))
    requires Timely(L.Run(c.p, Born(c.p, b), history), states[n].log)
    requires forall i: nat :: i < |states[n].log| ==> Served(c, states[n].log, i)
    requires states[n].row.updatedAt <= asOf
    ensures ops == history + Ops(c, states[n].log) && LegalRun(c.p, Born(c.p, b), ops)
    ensures var s := L.Run(c.p, Born(c.p, b), ops);
      && s.row == states[n].row
      && Abs(Drift(s, asOf) - Sum(SlipTerm(s.row.rate, asOf), Slips(c.p, Born(c.p, b), ops)))
         <= Allowance(c.p, WriteCount(c.p, Born(c.p, b), ops))
  {
    hide Behaviour, WorksOn, Served, Drift, Slips, SlipTerm, Sum, WriteCount, Allowance, Coherent, Ops, Timely;
    hide LegalRun, L.Run, Clean;
    var born := Born(c.p, b);
    var s, log := L.Run(c.p, born, history), states[n].log;
    ops := history + Ops(c, log);
    BornCoherent(c.p, b);
    RunCoherent(c.p, born, history);
    CommittedRowIsRun(c, steps, states, n, s);
    LogIsLegal(c, s, log);
    RunsJoin(c.p, born, history, Ops(c, log));
    DriftWithin(c.p, b, ops, asOf);
  }
}
