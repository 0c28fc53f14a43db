/** What restatements cost by taking no lock. */
module TrendStaleness {
  import opened Wrappers
  import opened Decay
  import opened TrendLedger
  import opened TrendConcurrency
  import opened TrendSerializability

  /** The decay a row has coming by `at`. */
  function Owed(row: Row, at: Time): real {
    (row.current - row.baseline) - Carry(row.current - row.baseline, row.rate, row.updatedAt, at)
  }

  /** The serial run the restatements meant: each decays the row it writes over. */
  function Intended(c: Config, log: seq<RowWrite>): Row
    requires LogOk(c, log)
  {
    if log == [] then c.start
    else
      var last, row := log[|log| - 1], Intended(c, log[..|log| - 1]);
      Perform(c.p, WorkOf(c, last.slot), row, row, last.at)
  }

  /** What outdated readings have cost: each restatement adds the decay the row it found still owed
      less the decay its reading owed, and later decays and restatements fade the sum. */
  function Staleness(c: Config, log: seq<RowWrite>): real
    requires LogOk(c, log)
  {
    if log == [] then 0.0
    else
      var last, init := log[|log| - 1], log[..|log| - 1];
      var row := Serial(c, init);
      match WorkOf(c, last.slot)
      case Scorer(_, _) => Staleness(c, init)
      case Decayer => Carry(Staleness(c, init), row.rate, row.updatedAt, last.at)
      case Restater(_) =>
        Carry(Staleness(c, init), row.rate, row.updatedAt, last.at) + Owed(row, last.at) - Owed(last.read, last.at)
  }

  lemma OwedIsDecay(row: Row, at: Time)
    ensures RowDecayed(row, at) == row.current - Owed(row, at)
  {
    hide Carry;
    DecayIsCarry(row.current, row.baseline, row.rate, row.updatedAt, at);
  }

  /** One step of the gap between a row and the row that was meant. */
  lemma GapStep(work: Work, read: Row, row: Row, meant: Row, at: Time)
    requires meant == row.(current := meant.current)
    ensures var row', meant' := Perform(Exact, work, read, row, at), Perform(Exact, work, meant, meant, at);
      var gap := row.current - meant.current;
      && meant' == row'.(current := meant'.current)
      && row'.current - meant'.current ==
           match work
           case Scorer(_, _) => gap
           case Decayer => Carry(gap, row.rate, row.updatedAt, at)
           case Restater(_) => Carry(gap, row.rate, row.updatedAt, at) + Owed(row, at) - Owed(read, at)
  {
    hide Carry, DecayLogOdds;
    OwedIsDecay(read, at);
    OwedIsDecay(row, at);
    OwedIsDecay(meant, at);
    CarryAdd(row.current - row.baseline, meant.current - row.baseline, row.rate, row.updatedAt, at);
    assert (row.current - row.baseline) - (meant.current - row.baseline) == row.current - meant.current;
    if at <= row.updatedAt { NoTimeNoDecay(row.current - meant.current, row.rate, row.updatedAt, at); }
  }

  lemma NoTimeNoDecay(x: real, rate: Rate, from: Time, to: Time)
    requires to <= from
    ensures Carry(x, rate, from, to) == x
  {
  }

  /** A column that rounds moves one write by at most half a millionth, and nothing else of the row. */
  lemma PerformRounds(p: Precision, work: Work, read: Row, row: Row, at: Time)
    ensures var exact, stored := Perform(Exact, work, read, row, at), Perform(p, work, read, row, at);
      && exact == stored.(current := exact.current)
      && Abs(stored.current - exact.current) <= Allowance(p, 1) / 2.0
  {
    hide RoundMicro, RowDecayed;
  }

  /** The part of a gap that a work leaves behind. */
  function Faded(work: Work, gap: real, row: Row, at: Time): real {
    if work.Scorer? then gap else Carry(gap, row.rate, row.updatedAt, at)
  }

  /** One step of the gap, in columns of either kind, beside what staleness makes of it. */
  lemma GapExtends(p: Precision, work: Work, read: Row, row: Row, meant: Row, at: Time, stale: real, n: nat)
    requires meant == row.(current := meant.current)
    requires Abs((row.current - meant.current) - stale) <= Allowance(p, n)
    ensures var row', meant' := Perform(p, work, read, row, at), Perform(p, work, meant, meant, at);
      && meant' == row'.(current := meant'.current)
      && Abs((row'.current - meant'.current)
             - (Faded(work, stale, row, at) + if work.Restater? then Owed(row, at) - Owed(read, at) else 0.0))
         <= Allowance(p, n + 1)
  {
    hide Carry, Owed, Perform, Allowance;
    var gap := row.current - meant.current;
    GapStep(work, read, row, meant, at);
    PerformRounds(p, work, read, row, at);
    PerformRounds(p, work, meant, meant, at);
    AllowanceAdds(p, n, 1);
    CarryAdd(stale, gap - stale, row.rate, row.updatedAt, at);
    CarryBound(gap - stale, row.rate, row.updatedAt, at, Allowance(p, n));
    assert stale + (gap - stale) == gap;
  }

  /** What an interleaving leaves is the row that was meant plus the staleness, exactly, or up to a
      millionth per rounded write: with restatements that read the row they write over, or none at
      all, it is that row. */
  lemma {:induction false} GapIsStaleness(c: Config, log: seq<RowWrite>)
    requires LogOk(c, log)
    ensures var row, meant := Serial(c, log), Intended(c, log);
      && meant == row.(current := meant.current)
      && Abs((row.current - meant.current) - Staleness(c, log)) <= Allowance(c.p, |log|)
  {
    hide Carry, Owed, Perform, Allowance;
    AllowanceAdds(c.p, 0, 0);
    if log != [] {
      var last, init := log[|log| - 1], log[..|log| - 1];
      var work, row := WorkOf(c, last.slot), Serial(c, init);
      GapIsStaleness(c, init);
      GapExtends(c.p, work, last.read, row, Intended(c, init), last.at, Staleness(c, init), |init|);
    }
  }

  /** The same for the committed row of every interleaving. */
  lemma StaleRestatements(c: Config, steps: seq<Step>, states: seq<System>, n: nat)
    requires Behaviour(c, steps, states) && n < |states|
    ensures var s := states[n];
      && LogOk(c, s.log)
      && Abs(s.row.current - Intended(c, s.log).current - Staleness(c, s.log)) <= Allowance(c.p, |s.log|)
  {
    hide Perform, Serial, Do, Enabled, Allowance;
    SerialEquivalence(c, steps, states, n);
    GapIsStaleness(c, states[n].log);
  }

  // ---------------------------------------------------------------- when restatements cost nothing

  /** A restatement writes what it meant exactly when its reading owes the decay the row owes. Both
      sides of the condition are at hand before the write. */
  lemma ReadingServesIff(delta: real, read: Row, row: Row, at: Time)
    ensures Perform(Exact, Restater(delta), read, row, at) == Perform(Exact, Restater(delta), row, row, at)
       <==> Owed(read, at) == Owed(row, at)
  {
    hide Owed, DecayLogOdds;
    OwedIsDecay(read, at);
    OwedIsDecay(row, at);
  }

  lemma ReadingServes(p: Precision, work: Work, read: Row, row: Row, at: Time)
    requires work.Restater? ==> Owed(read, at) == Owed(row, at)
    ensures Perform(p, work, read, row, at) == Perform(p, work, row, row, at)
  {
    hide Owed, DecayLogOdds;
    OwedIsDecay(read, at);
    OwedIsDecay(row, at);
  }

  /** In every interleaving, when a restatement writes over a row that is still as meant, the new
      row is as meant if and only if the reading it took owes, by then, what that row owes. */
  lemma RestatementServesIff(c: Config, steps: seq<Step>, states: seq<System>, n: nat)
    requires Behaviour(c, steps, states) && n < |steps| && c.p.Exact?
    requires steps[n].Add? && At(c, states[n], steps[n].w) && StageOf(c, states[n], steps[n].w).Posted?
    ensures var s, s', w := states[n], states[n + 1], steps[n].w;
      && LogOk(c, s.log + DraftsOf(s, w)) && LogOk(c, s'.log + s'.drafts)
      && (ViewOf(s, w) == Intended(c, s.log + DraftsOf(s, w)) ==>
            (s'.pending == Intended(c, s'.log + s'.drafts)
             <==> Owed(StageOf(c, s, w).read, steps[n].at) == Owed(ViewOf(s, w), steps[n].at)))
  {
    hide Perform, Owed, Intended, Serial;
    var s, w, at := states[n], steps[n].w, steps[n].at;
    Writes(c, steps, states, n);
    var e := RowWrite(Slot(w, s.phases[w].pos), at, StageOf(c, s, w).read);
    IntendedExtends(c, s.log + DraftsOf(s, w), e);
    ReadingServesIff(WorkAt(c, s, w).delta, e.read, ViewOf(s, w), at);
  }

  /** What a worker goes by when it writes: the reading it took, or the row as it stands. */
  function ReadingOf(c: Config, s: System, w: nat): Row
    requires At(c, s, w)
  {
    if StageOf(c, s, w).Posted? then StageOf(c, s, w).read else ViewOf(s, w)
  }

  /** Each write is the work at hand done over the row as it stands, at the time of the step. */
  lemma Writes(c: Config, steps: seq<Step>, states: seq<System>, n: nat)
    requires Behaviour(c, steps, states) && n < |steps| && (steps[n].Add? || steps[n].Fade?)
    ensures At(c, states[n], steps[n].w)
    ensures var s, s', w, at := states[n], states[n + 1], steps[n].w, steps[n].at;
      var work, read := WorkAt(c, s, w), ReadingOf(c, s, w);
      && LogOk(c, s.log + DraftsOf(s, w)) && LogOk(c, s'.log + s'.drafts) && s'.lock == Some(w)
      && (StageOf(c, s, w).Posted? ==> work.Restater?)
      && s'.log + s'.drafts == s.log + DraftsOf(s, w) + [RowWrite(Slot(w, s.phases[w].pos), at, read)]
      && s'.pending == Perform(c.p, work, read, ViewOf(s, w), at)
  {
    hide Perform, Serial, TurnOk, OrderOk, Initial;
    var s, w := states[n], steps[n].w;
    BehaviourInv(c, steps, states, n);
    assert StageOk(c, s, w) && s.log + [] == s.log;
    var e := RowWrite(Slot(w, s.phases[w].pos), steps[n].at, ReadingOf(c, s, w));
    assert s.log + (DraftsOf(s, w) + [e]) == s.log + DraftsOf(s, w) + [e];
  }

  ghost predicate Reads(c: Config, s: System, w: nat) {
    At(c, s, w) && (StageOf(c, s, w).Loaded? || StageOf(c, s, w).Posted?)
  }

  lemma NobodyReads(c: Config)
    ensures forall w: nat :: !Reads(c, Initial(c), w)
  {
  }

  lemma LoadReads(c: Config, s: System, step: Step, w: nat)
    requires Enabled(c, s, step) && Reads(c, Do(c, s, step), w)
    ensures if step == Load(w) then StageOf(c, Do(c, s, step), w).read == ViewOf(s, w)
            else Reads(c, s, w) && StageOf(c, Do(c, s, step), w).read == StageOf(c, s, w).read
  {
    hide Perform;
  }

  /** A reading is the committed row, or the transaction's own, as it stood when the worker loaded it. */
  lemma {:induction false} ReadingIsCommitted(c: Config, steps: seq<Step>, states: seq<System>, n: nat, w: nat)
    returns (m: nat)
    requires Behaviour(c, steps, states) && n < |states| && Reads(c, states[n], w)
    ensures m < n && steps[m] == Load(w)
    ensures StageOf(c, states[n], w).read == if states[m].lock == Some(w) then states[m].pending else states[m].row
  {
    hide Do, Enabled, Initial;
    if n == 0 {
      NobodyReads(c);
    } else {
      LoadReads(c, states[n - 1], steps[n - 1], w);
    }
    if steps[n - 1] == Load(w) {
      m := n - 1;
    } else {
      m := ReadingIsCommitted(c, steps, states, n - 1, w);
    }
  }

  /** A restatement whose transaction holds the row reads what it writes over. */
  lemma HeldReadingServes(c: Config, steps: seq<Step>, states: seq<System>, n: nat, w: nat)
    requires Behaviour(c, steps, states) && n < |states| && states[n].lock == Some(w)
    requires At(c, states[n], w) && (StageOf(c, states[n], w).Loaded? || StageOf(c, states[n], w).Posted?)
    ensures StageOf(c, states[n], w).read == ViewOf(states[n], w)
  {
    hide Serial, TurnOk, OrderOk, Initial, Do, Enabled;
    BehaviourInv(c, steps, states, n);
    assert StageOk(c, states[n], w);
  }

  lemma IntendedExtends(c: Config, log: seq<RowWrite>, last: RowWrite)
    requires SlotOk(c, last.slot) && LogOk(c, log)
    ensures var row := Intended(c, log);
      Intended(c, log + [last]) == Perform(c.p, WorkOf(c, last.slot), row, row, last.at)
  {
    hide Perform;
    assert (log + [last])[..|log|] == log;
  }

  /** The restatement of write `i`, if it is one, read a row that owed what it wrote over owed. */
  ghost predicate Served(c: Config, log: seq<RowWrite>, i: nat)
    requires i < |log| && LogOk(c, log)
  {
    WorkOf(c, log[i].slot).Restater? ==> Owed(log[i].read, log[i].at) == Owed(Serial(c, log[..i]), log[i].at)
  }

  ghost predicate AsMeant(c: Config, log: seq<RowWrite>, k: nat)
    requires k <= |log| && LogOk(c, log)
  {
    Serial(c, log[..k]) == Intended(c, log[..k])
  }

  /** Write by write the row is as meant throughout if and only if every reading served. */
  lemma {:induction false} AlwaysAsMeantIff(c: Config, log: seq<RowWrite>)
    requires c.p.Exact? && LogOk(c, log)
    ensures (forall k: nat :: k <= |log| ==> AsMeant(c, log, k)) <==> (forall i: nat :: i < |log| ==> Served(c, log, i))
  {
    hide Owed, Perform, Serial, Intended, Served, AsMeant;
    if log == [] {
      NothingYet(c, log);
    } else {
      var init, n := log[..|log| - 1], |log| - 1;
      AlwaysAsMeantIff(c, init);
      forall k: nat | k <= n ensures AsMeant(c, log, k) <==> AsMeant(c, init, k) { SamePrefix(c, log, k); }
      forall i: nat | i < n ensures Served(c, log, i) <==> Served(c, init, i) { SamePrefix(c, log, i); }
      if AsMeant(c, init, n) { LastServesIff(c, log); }
    }
  }

  lemma NothingYet(c: Config, log: seq<RowWrite>)
    requires log == []
    ensures AsMeant(c, log, 0)
  {
  }

  lemma SamePrefix(c: Config, log: seq<RowWrite>, k: nat)
    requires k < |log| && LogOk(c, log)
    ensures var init := log[..|log| - 1];
      && (AsMeant(c, log, k) <==> AsMeant(c, init, k))
      && (k < |init| ==> (Served(c, log, k) <==> Served(c, init, k)))
  {
    hide Owed, Serial, Intended;
    assert log[..|log| - 1][..k] == log[..k];
  }

  lemma LastServesIff(c: Config, log: seq<RowWrite>)
    requires log != [] && c.p.Exact? && LogOk(c, log)
    requires AsMeant(c, log[..|log| - 1], |log| - 1)
    ensures AsMeant(c, log, |log|) <==> Served(c, log, |log| - 1)
  {
    hide Owed, RowDecayed, RowDecay;
    var init, last := log[..|log| - 1], log[|log| - 1];
    assert init[..|log| - 1] == init && log[..|log|] == log;
    var row, work := Serial(c, init), WorkOf(c, last.slot);
    if work.Restater? { ReadingServesIff(work.delta, last.read, row, last.at); }
  }

  /** With readings that all served, an interleaving leaves the row that was meant, rounded columns
      included. */
  lemma {:induction false} CurrentReadings(c: Config, log: seq<RowWrite>)
    requires LogOk(c, log)
    requires forall i: nat :: i < |log| ==> Served(c, log, i)
    ensures Serial(c, log) == Intended(c, log) && Staleness(c, log) == 0.0
  {
    hide Carry, Owed;
    if log != [] {
      var last, init := log[|log| - 1], log[..|log| - 1];
      forall i: nat | i < |init| ensures Served(c, init, i) {
        assert Served(c, log, i) && log[..i] == init[..i];
      }
      CurrentReadings(c, init);
      assert Served(c, log, |log| - 1);
      ReadingServes(c.p, WorkOf(c, last.slot), last.read, Serial(c, init), last.at);
      CarryAdd(0.0, 0.0, Serial(c, init).rate, Serial(c, init).updatedAt, last.at);
    }
  }

  // ---------------------------------------------------------------- a run that fails

  const DOUBLED: Config := Config(Exact, Row(0.0, 0.5, 1.0, 0, 0), {}, [[Restater(0.25)], [Decayer]])

  const DOUBLED_STEPS: seq<Step> := [Load(0), Lock(1), Step.Fade(1, 1), Finish(1), Share(0), Add(0, 1), Finish(0)]

  /** The system after n of those steps. */
  function Doubling(n: nat): System {
    var start, decayed, end := DOUBLED.start, Row(0.0, 0.5, 0.5, 1, 0), Row(0.0, 0.5, 0.25, 1, 0);
    var first, last := RowWrite(Slot(1, 0), 1, start), RowWrite(Slot(0, 0), 1, start);
    var begin, read, over := Running(0, Ready), Running(0, Loaded(start)), Running(1, Ready);
    match n
    case 0 => System(start, {}, map[], None, false, start, [], [begin, begin], [])
    case 1 => System(start, {}, map[], None, false, start, [], [read, begin], [])
    case 2 => System(start, {}, map[], Some(1), true, start, [], [read, Running(0, Locked)], [])
    case 3 => System(start, {}, map[], Some(1), true, decayed, [first], [read, over], [])
    case 4 => System(decayed, {}, map[], None, false, decayed, [], [read, Committed], [first])
    case 5 => System(decayed, {}, map[], None, false, decayed, [], [Running(0, Posted(start)), Committed], [first])
    case 6 => System(decayed, {}, map[], Some(0), false, end, [last], [over, Committed], [first])
    case _ => System(end, {}, map[], None, false, end, [], [Committed, Committed], [first, last])
  }

  lemma DoublingStep(n: nat)
    requires n < 7
    ensures Enabled(DOUBLED, Doubling(n), DOUBLED_STEPS[n])
    ensures Do(DOUBLED, Doubling(n), DOUBLED_STEPS[n]) == Doubling(n + 1)
  {
    hide RowDecayed;
    HalfLife();
    assert Doubling(n).claims - Mine(Doubling(n), DOUBLED_STEPS[n].w) == map[];
  }

  /** A decay commits between a restatement's reading and its write: the row ends at 0.25, where
      the restatement meant 0.75, because the same decay was taken twice. */
  lemma DecayTakenTwice() returns (states: seq<System>)
    ensures Behaviour(DOUBLED, DOUBLED_STEPS, states)
    ensures var s := states[7];
      && Slots(s.log) == [Slot(1, 0), Slot(0, 0)] && LogOk(DOUBLED, s.log)
      && s.row.current == 0.25 && Intended(DOUBLED, s.log).current == 0.75
  {
    states := seq(8, n requires 0 <= n < 8 => Doubling(n));
    assert Doubling(0) == Initial(DOUBLED) by {
      assert Initial(DOUBLED).phases == [Running(0, Ready), Running(0, Ready)];
    }
    forall n | 0 <= n < 7 ensures Enabled(DOUBLED, states[n], DOUBLED_STEPS[n])
                               && states[n + 1] == Do(DOUBLED, states[n], DOUBLED_STEPS[n])
    {
      DoublingStep(n);
    }
    DoublingMeant();
  }

  lemma DoublingMeant()
    ensures LogOk(DOUBLED, Doubling(7).log) && Intended(DOUBLED, Doubling(7).log).current == 0.75
  {
    hide RowDecayed;
    HalfLife();
    var first, last := RowWrite(Slot(1, 0), 1, DOUBLED.start), RowWrite(Slot(0, 0), 1, DOUBLED.start);
    assert Intended(DOUBLED, []) == DOUBLED.start;
    IntendedExtends(DOUBLED, [], first);
    assert [] + [first] == [first];
    IntendedExtends(DOUBLED, [first], last);
    assert [first] + [last] == Doubling(7).log;
  }

  lemma HalfLife()
    ensures RowDecayed(Row(0.0, 0.5, 1.0, 0, 0), 1) == 0.5 && RowDecayed(Row(0.0, 0.5, 0.5, 1, 0), 1) == 0.5
  {
    assert Factor(0.5, 1) == 0.5 * Factor(0.5, 0);
  }
}
