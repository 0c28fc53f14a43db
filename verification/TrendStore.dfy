/** The trend row as the engine updates it in place. */
module TrendStore {
  import opened Wrappers
  import opened Decay
  import opened Sequences
  import opened Sorting
  import opened TrendLedger
  import opened TrendVersions

  datatype ProjectionCheck = ProjectionCheck(
    asOf: Time, stored: real, projected: real, drift: real,
    evidenceCount: nat, restatementCount: nat, entryCount: nat)

  /** A column is given a value it may hold already. */
  ghost predicate StartsAt(p: Precision, start: real, value: real) {
    Stores(p, start, value) && (OnGrid(value) ==> start == value)
  }

  lemma WriteStarts(p: Precision, x: real)
    ensures StartsAt(p, Write(p, x), x)
  {
    WriteStores(p, x);
    if OnGrid(x) { GridIsStored(p, x); }
  }

  lemma RowDecayedIs(row: Row, asOf: Time)
    ensures RowDecayed(row, asOf) == row.baseline + (row.current - row.baseline) * Fade(row.rate, row.updatedAt, asOf)
  {
  }

  class Trend {
    const precision: Precision
    var row: Row
    var versions: map<Id, StateVersion>
    var order: seq<Id>
    var evidence: seq<Evidence>
    var restatements: seq<Restatement>

    function State(): Store
      reads this
    {
      Store(row, versions, order, evidence, restatements)
    }

    ghost predicate Valid()
      reads this
    {
      Lineage(State())
    }

    constructor (p: Precision, id: Id, baseline: real, current: real, rate: Rate, at: Time)
      ensures precision == p && State() == CreateTrend(p, id, baseline, current, rate, at)
      ensures Valid()
      ensures Stores(p, row.baseline, baseline) && Stores(p, row.current, current)
      ensures row.rate == rate && row.updatedAt == at && row.active == id
      ensures versions == map[id := StateVersion(None, Create, row.baseline, rate, row.current, row.current, at)]
      ensures order == [id] && evidence == [] && restatements == []
    {
      precision := p;
      row := Row(Write(p, baseline), rate, Write(p, current), at, id);
      var b, c := Write(p, baseline), Write(p, current);
      versions := map[id := StateVersion(None, Create, b, rate, c, c, at)];
      order := [id];
      evidence := [];
      restatements := [];
      new;
      WriteStores(p, baseline);
      WriteStores(p, current);
      BornLineage(p, id, baseline, current, rate, at);
    }

    /** The atomic SQL add; returns the value before and after as the engine reports them. */
    method ApplyLogOddsDelta(delta: real, at: Time) returns (previousLo: real, newLo: real)
      requires Valid()
      modifies this`row, this`versions
      ensures State() == ApplyDelta(precision, old(State()), delta, at) && Valid()
      ensures newLo == row.current && previousLo == newLo - delta
      ensures Stores(precision, row.current, old(row).current + delta)
      ensures row == old(row).(current := row.current, updatedAt := at)
      ensures versions == old(versions)[row.active := old(versions)[row.active].(current := row.current)]
    {
      hide RoundMicro, Stores;
      WriteStores(precision, row.current + delta);
      ghost var before := State();
      row := row.(current := Write(precision, row.current + delta), updatedAt := at);
      newLo := row.current;
      previousLo := newLo - delta;
      var version := versions[row.active];
      versions := versions[row.active := version.(current := Write(precision, version.current + delta))];
      DeltaKeepsLineage(precision, before, delta, at);
    }

    method ApplyEvidence(id: Id, claim: Id, signal: string, delta: real, createdAt: Time, at: Time)
      returns (applied: real)
      requires Valid()
      modifies this
      ensures State() == Step(precision, old(State()), Score(id, claim, signal, delta, createdAt, at)) && Valid()
      ensures order == old(order) && restatements == old(restatements)
      ensures if exists e :: e in old(evidence) && !e.invalidated && e.state == old(row).active
                             && e.claim == claim && e.signal == signal
              then applied == 0.0 && State() == old(State())
              else
                && applied == delta && |evidence| == |old(evidence)| + 1
                && Stores(precision, evidence[|old(evidence)|].delta, delta)
                && evidence == old(evidence) + [Evidence(
                     id, row.active, claim, signal, evidence[|old(evidence)|].delta, createdAt, false)]
                && Stores(precision, row.current, old(row).current + delta)
                && row == old(row).(current := row.current, updatedAt := at)
                && versions == old(versions)[row.active := old(versions)[row.active].(current := row.current)]
    {
      hide RoundMicro, Stores;
      DuplicateIsLive(State(), claim, signal);
      WriteStores(precision, delta);
      if Duplicate(State(), claim, signal) {
        return 0.0;
      }
      evidence := evidence + [Evidence(id, row.active, claim, signal, Write(precision, delta), createdAt, false)];
      RowsKeepLineage(old(State()), State());
      var _, _ := ApplyLogOddsDelta(delta, at);
      applied := delta;
    }

    /** Reads the locked row, decays it and writes it and its mirror; a clock that has not moved
        writes nothing. */
    method ApplyDecay(asOf: Time) returns (newLo: real)
      requires Valid()
      modifies this`row, this`versions
      ensures State() == Step(precision, old(State()), TrendLedger.Op.Decay(asOf)) && Valid()
      ensures newLo == row.current
      ensures asOf <= old(row).updatedAt ==> row == old(row) && versions == old(versions)
      ensures asOf > old(row).updatedAt ==>
        && Stores(precision, row.current,
                  old(row.baseline + (row.current - row.baseline) * Fade(row.rate, row.updatedAt, asOf)))
        && row == old(row).(current := row.current, updatedAt := asOf)
        && versions == old(versions)[row.active := old(versions)[row.active].(current := row.current)]
    {
      hide RoundMicro, Write, Stores, Fade, Factor;
      var elapsed := asOf - row.updatedAt;
      if elapsed <= 0 {
        return row.current;
      }
      StepLineage(precision, State(), TrendLedger.Op.Decay(asOf));
      var factor := Factor(row.rate, elapsed);
      FadeIsFactor(row.rate, row.updatedAt, asOf);
      var deviation := row.current - row.baseline;
      var decayed := row.baseline + deviation * factor;
      RowDecayedIs(row, asOf);
      assert decayed == RowDecayed(row, asOf);
      newLo := Write(precision, decayed);
      WriteStores(precision, RowDecayed(row, asOf));
      ghost var target := Step(precision, State(), TrendLedger.Op.Decay(asOf));
      row := row.(current := newLo, updatedAt := asOf);
      versions := versions[row.active := versions[row.active].(current := newLo)];
      assert State() == target;
      assert Stores(precision, newLo, old(RowDecayed(row, asOf)));
      assert old(RowDecayed(row, asOf))
          == old(row.baseline + (row.current - row.baseline) * Fade(row.rate, row.updatedAt, asOf));
    }

    method ApplyCompensatingRestatement(id: Id, target: Option<Evidence>, kind: string, delta: real, at: Time)
      requires Valid()
      modifies this
      ensures State() == Step(precision, old(State()), Restate(id, target, kind, delta, at)) && Valid()
      ensures order == old(order) && evidence == old(evidence) && |restatements| == |old(restatements)| + 1
      ensures Stores(precision, restatements[|old(restatements)|].delta, delta)
      ensures restatements == old(restatements) + [Restatement(
                id, if target.Some? then Some(target.value.id) else None,
                if target.Some? then target.value.state else row.active,
                kind, restatements[|old(restatements)|].delta, at)]
      ensures if delta == 0.0 || (target.Some? && target.value.state != old(row).active)
              then row == old(row) && versions == old(versions)
              else
                && Stores(precision, row.current, delta
                     + old(row.baseline + (row.current - row.baseline) * Fade(row.rate, row.updatedAt, at)))
                && row == old(row).(current := row.current, updatedAt := at)
                && versions == old(versions)[row.active := old(versions)[row.active].(current := row.current)]
    {
      hide RoundMicro, Stores, DecayLogOdds, Fade;
      WriteStores(precision, delta);
      RowDecayedIs(row, at);
      var state := if target.Some? then target.value.state else row.active;
      var evidenceId := if target.Some? then Some(target.value.id) else None;
      restatements := restatements + [Restatement(id, evidenceId, state, kind, Write(precision, delta), at)];
      RowsKeepLineage(old(State()), State());
      if delta != 0.0 && state == row.active {
        var prior := row.current;
        var decayed := DecayLogOdds(prior, row.baseline, row.rate, row.updatedAt, at);
        var _, _ := ApplyLogOddsDelta((decayed - prior) + delta, at);
        assert prior + ((decayed - prior) + delta) == delta + old(RowDecayed(row, at));
      }
    }

    /** The route writes the new contract on the row, then appends and activates a version. */
    method ActivateTrendState(id: Id, kind: ActivationKind, baseline: real, rate: Rate, at: Time)
      requires Valid() && id !in versions
      modifies this
      ensures State() == Step(precision, old(State()), Activate(id, kind, baseline, rate, at)) && Valid()
      ensures Stores(precision, row.baseline, baseline)
      ensures match kind
              case Create => StartsAt(precision, row.current, old(row).current)
              case Rebase => StartsAt(precision, row.current, old(row).current)
              case Replay => row.current == row.baseline
              case NewLine => row.current == row.baseline
      ensures row.rate == rate && row.updatedAt == at && row.active == id
      ensures versions == old(versions)[id := StateVersion(
                Some(old(row).active), kind, row.baseline, rate, row.current, row.current, at)]
      ensures order == old(order) + [id] && evidence == old(evidence) && restatements == old(restatements)
    {
      hide RoundMicro, Stores;
      WriteStores(precision, baseline);
      WriteStarts(precision, row.current);
      StepLineage(precision, State(), Activate(id, kind, baseline, rate, at));
      var previous := row.active;
      var starting := Write(precision, if kind.Replay? || kind.NewLine? then baseline else row.current);
      var version := StateVersion(Some(previous), kind, Write(precision, baseline), rate, starting, starting, at);
      versions := versions[id := version];
      order := order + [id];
      row := Row(version.baseline, rate, starting, at, id);
    }

    /** An edit of another column: the `onupdate` default stamps the row. */
    method Touch(at: Time)
      requires Valid()
      modifies this`row
      ensures State() == Step(precision, old(State()), TrendLedger.Op.Touch(at)) && Valid()
      ensures row == old(row).(updatedAt := at)
    {
      StepLineage(precision, State(), TrendLedger.Op.Touch(at));
      row := row.(updatedAt := at);
    }

    /** One caller claims the invalidation of a live evidence row; its delta stays where it is. */
    method ClaimEvidenceInvalidation(id: Id) returns (claimed: bool)
      requires Valid()
      modifies this`evidence
      ensures State() == Step(precision, old(State()), Invalidate(id)) && Valid()
      ensures claimed <==> exists e :: e in old(evidence) && e.id == id && !e.invalidated
      ensures |evidence| == |old(evidence)| && forall i :: 0 <= i < |evidence| ==>
        evidence[i] == if old(evidence)[i].id == id
                       then old(evidence)[i].(invalidated := true) else old(evidence)[i]
    {
      claimed := exists e :: e in evidence && e.id == id && !e.invalidated;
      evidence := MarkInvalidated(evidence, id);
      RowsKeepLineage(old(State()), State());
    }

    /** Retention deletes an evidence row; restatements that named it no longer do. */
    method PruneEvidence(id: Id)
      requires Valid()
      modifies this`evidence, this`restatements
      ensures State() == Step(precision, old(State()), Prune(id)) && Valid()
      ensures forall e :: multiset(evidence)[e] == if e.id == id then 0 else multiset(old(evidence))[e]
      ensures |restatements| == |old(restatements)| && forall i :: 0 <= i < |restatements| ==>
        restatements[i] == if old(restatements)[i].evidence == Some(id)
                           then old(restatements)[i].(evidence := None) else old(restatements)[i]
    {
      RemainingCounts(evidence, id);
      evidence, restatements := Remaining(evidence, id), Detached(restatements, id);
      RowsKeepLineage(old(State()), State());
    }

    /** Replays the ledger of the active state up to `asOf`, by default the row's last write. */
    method BuildTrendProjectionCheck(asOf: Option<Time>) returns (check: ProjectionCheck)
      requires Valid()
      ensures check.asOf == if asOf.Some? then asOf.value else row.updatedAt
      ensures check.projected == Projected(State(), check.asOf)
      ensures check.stored == row.current && check.drift == check.stored - check.projected
      ensures check.asOf == row.updatedAt ==> check.drift == Drift(State(), check.asOf)
      ensures check.entryCount == check.evidenceCount + check.restatementCount == |Entries(State(), check.asOf)|
      ensures check.evidenceCount == |Filter(EvidenceOf(row.active, check.asOf), evidence)|
      ensures check.restatementCount == |Filter(RestatementOf(row.active, check.asOf), restatements)|
    {
      hide EvidenceEntries, RestatementEntries, Sort, EntryLeq, DecayLogOdds, Replayed;
      var projectedAt := if asOf.Some? then asOf.value else row.updatedAt;
      var evidenceRows := EvidenceEntries(evidence, row.active, projectedAt);
      var restatementRows := RestatementEntries(restatements, row.active, projectedAt);
      EvidenceCounted(evidence, row.active, projectedAt);
      RestatementsCounted(restatements, row.active, projectedAt);
      var entries := Sort(EntryLeq, evidenceRows + restatementRows);
      var active := versions[row.active];
      var current, lastAt := active.starting, active.activatedAt;
      assert entries[0..] == entries;
      for i := 0 to |entries|
        invariant Replayed(entries[i..], current, lastAt, active.baseline, active.rate, projectedAt)
               == Projected(State(), projectedAt)
      {
        ReplayNext(entries, i, current, lastAt, active.baseline, active.rate, projectedAt);
        current := DecayLogOdds(current, active.baseline, active.rate, lastAt, entries[i].at) + entries[i].delta;
        lastAt := entries[i].at;
      }
      DecayIsItself(row);
      ReplayEnd(entries[|entries|..], current, lastAt, active.baseline, active.rate, projectedAt);
      var projected := DecayLogOdds(current, active.baseline, active.rate, lastAt, projectedAt);
      check := ProjectionCheck(projectedAt, row.current, projected, row.current - projected,
                               |evidenceRows|, |restatementRows|, |entries|);
    }
  }

  lemma ReplayNext(es: seq<Entry>, i: nat, current: real, last: Time, baseline: real, rate: Rate, asOf: Time)
    requires i < |es|
    ensures Replayed(es[i..], current, last, baseline, rate, asOf)
         == Replayed(es[i + 1..], DecayLogOdds(current, baseline, rate, last, es[i].at) + es[i].delta, es[i].at,
                     baseline, rate, asOf)
  {
    hide DecayLogOdds;
    assert es[i..][1..] == es[i + 1..];
  }

  lemma ReplayEnd(es: seq<Entry>, current: real, last: Time, baseline: real, rate: Rate, asOf: Time)
    requires es == []
    ensures Replayed(es, current, last, baseline, rate, asOf) == DecayLogOdds(current, baseline, rate, last, asOf)
  {
  }

  lemma DuplicateIsLive(s: Store, claim: Id, signal: string)
    ensures Duplicate(s, claim, signal) <==>
      exists e :: e in s.evidence && !e.invalidated && e.state == s.row.active && e.claim == claim && e.signal == signal
  {
    if Duplicate(s, claim, signal) {
      var i :| 0 <= i < |s.evidence| && SameKey(s.evidence[i], s.row.active, claim, signal);
      assert s.evidence[i] in s.evidence;
    }
  }

  /** The evidence of a state stamped by then. */
  function EvidenceOf(state: Id, asOf: Time): Evidence -> bool {
    (e: Evidence) => e.state == state && e.createdAt <= asOf
  }

  function RestatementOf(state: Id, asOf: Time): Restatement -> bool {
    (r: Restatement) => r.state == state && r.recordedAt <= asOf
  }

  lemma {:induction false} EvidenceCounted(rows: seq<Evidence>, state: Id, asOf: Time)
    ensures |EvidenceEntries(rows, state, asOf)| == |Filter(EvidenceOf(state, asOf), rows)|
  {
    if rows != [] { EvidenceCounted(rows[..|rows| - 1], state, asOf); }
  }

  lemma {:induction false} RestatementsCounted(rows: seq<Restatement>, state: Id, asOf: Time)
    ensures |RestatementEntries(rows, state, asOf)| == |Filter(RestatementOf(state, asOf), rows)|
  {
    if rows != [] { RestatementsCounted(rows[..|rows| - 1], state, asOf); }
  }

  lemma RowsKeepLineage(s: Store, s': Store)
    requires Lineage(s) && s'.row == s.row && s'.versions == s.versions && s'.order == s.order
    ensures Lineage(s')
  {
    forall i | 0 <= i < |s'.order| ensures Follows(s', i) {
      assert Follows(s, i);
    }
  }

  lemma DeltaKeepsLineage(p: Precision, s: Store, delta: real, at: Time)
    requires Lineage(s)
    ensures Lineage(ApplyDelta(p, s, delta, at))
  {
    hide RoundMicro;
    var s' := ApplyDelta(p, s, delta, at);
    forall i | 0 <= i < |s'.order| ensures Follows(s', i) {
      assert Follows(s, i);
    }
  }
}
