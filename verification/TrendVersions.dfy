/** The chain of state versions. */
module TrendVersions {
  import opened Wrappers
  import opened Decay
  import opened Sequences
  import opened TrendLedger

  function ParentOf(order: seq<Id>, i: nat): Option<Id>
    requires i < |order|
  {
    if i == 0 then None else Some(order[i - 1])
  }

  ghost predicate Follows(s: Store, i: nat)
    requires i < |s.order|
  {
    s.order[i] in s.versions && s.versions[s.order[i]].parent == ParentOf(s.order, i)
  }

  /** The versions form one chain, newest active, and the row mirrors the active version. */
  ghost predicate Lineage(s: Store) {
    && |s.order| > 0 && Distinct(s.order)
    && (forall id :: id in s.versions <==> id in s.order)
    && s.row.active == s.order[|s.order| - 1]
    && (forall i :: 0 <= i < |s.order| ==> Follows(s, i))
    && var v := s.versions[s.row.active];
       s.row.current == v.current && s.row.baseline == v.baseline && s.row.rate == v.rate
  }

  ghost predicate FreshIds(p: Precision, s: Store, ops: seq<Op>)
    requires Linked(s)
  {
    ops == [] ||
    (FreshIds(p, s, ops[..|ops| - 1]) &&
     (ops[|ops| - 1].Activate? ==> ops[|ops| - 1].id !in Run(p, s, ops[..|ops| - 1]).versions))
  }

  lemma BornLineage(p: Precision, id: Id, baseline: real, current: real, rate: Rate, at: Time)
    ensures Lineage(CreateTrend(p, id, baseline, current, rate, at))
  {}

  /** Operations other than activation only touch the active version's value. */
  lemma StepMirrors(p: Precision, s: Store, op: Op)
    requires Lineage(s) && !op.Activate?
    ensures var s' := Step(p, s, op);
      s'.order == s.order && s'.row == s.row.(current := s'.row.current, updatedAt := s'.row.updatedAt) &&
      s'.versions == s.versions[s.row.active := s.versions[s.row.active].(current := s'.row.current)]
  {
    hide DecayLogOdds, RoundMicro, Follows;
    if Step(p, s, op).row == s.row {
      assert s.versions == s.versions[s.row.active := s.versions[s.row.active]];
    }
  }

  lemma ActivationLineage(p: Precision, s: Store, op: Op)
    requires Lineage(s) && op.Activate? && op.id !in s.versions
    ensures Lineage(Step(p, s, op))
  {
    hide RoundMicro;
    var s' := Step(p, s, op);
    forall i | 0 <= i < |s'.order| ensures Follows(s', i) {
      if i < |s.order| {
        assert s'.order[i] == s.order[i] && Follows(s, i);
      }
    }
    assert forall id :: id in s'.order <==> id in s.order || id == op.id;
  }

  lemma MirroredLineage(s: Store, s': Store)
    requires Lineage(s)
    requires s'.order == s.order && s'.row == s.row.(current := s'.row.current, updatedAt := s'.row.updatedAt)
    requires s'.versions == s.versions[s.row.active := s.versions[s.row.active].(current := s'.row.current)]
    ensures Lineage(s')
  {
    forall i | 0 <= i < |s'.order| ensures Follows(s', i) {
      assert Follows(s, i);
    }
  }

  lemma StepLineage(p: Precision, s: Store, op: Op)
    requires Lineage(s) && (op.Activate? ==> op.id !in s.versions)
    ensures Lineage(Step(p, s, op))
    ensures forall id :: id in s.versions && id != s.row.active ==>
      id in Step(p, s, op).versions && id != Step(p, s, op).row.active &&
      Step(p, s, op).versions[id] == s.versions[id]
  {
    hide DecayLogOdds, RoundMicro;
    if op.Activate? {
      ActivationLineage(p, s, op);
    } else {
      StepMirrors(p, s, op);
      MirroredLineage(s, Step(p, s, op));
    }
  }

  /** Every step of every run keeps the lineage: the trend's value is its active version's. */
  lemma {:induction false} RunLineage(p: Precision, s: Store, ops: seq<Op>)
    requires Lineage(s) && FreshIds(p, s, ops)
    ensures Lineage(Run(p, s, ops))
  {
    if ops != [] {
      RunLineage(p, s, ops[..|ops| - 1]);
      StepLineage(p, Run(p, s, ops[..|ops| - 1]), ops[|ops| - 1]);
    }
  }

  /** A superseded version is never activated again and never changes again. */
  lemma {:induction false} SupersededFrozen(p: Precision, s: Store, ops: seq<Op>, id: Id)
    requires Lineage(s) && FreshIds(p, s, ops)
    requires id in s.versions && id != s.row.active
    ensures var s' := Run(p, s, ops);
      id in s'.versions && s'.versions[id] == s.versions[id] && s'.row.active != id
  {
    if ops != [] {
      SupersededFrozen(p, s, ops[..|ops| - 1], id);
      RunLineage(p, s, ops[..|ops| - 1]);
      StepLineage(p, Run(p, s, ops[..|ops| - 1]), ops[|ops| - 1]);
    }
  }

  // ---------------------------------------------------------------- following parent links

  /** Follow parent links for at most `fuel` hops. */
  function Ancestry(versions: map<Id, StateVersion>, from: Option<Id>, fuel: nat): seq<Id>
    decreases fuel
  {
    if fuel == 0 || from.None? || from.value !in versions then []
    else [from.value] + Ancestry(versions, versions[from.value].parent, fuel - 1)
  }

  function Reversed(ids: seq<Id>): seq<Id> {
    if ids == [] then [] else [ids[|ids| - 1]] + Reversed(ids[..|ids| - 1])
  }

  lemma {:induction false} AncestryFrom(s: Store, n: nat, fuel: nat)
    requires Lineage(s) && n <= |s.order| && n <= fuel
    ensures Ancestry(s.versions, if n == 0 then None else Some(s.order[n - 1]), fuel) == Reversed(s.order[..n])
  {
    if n > 0 {
      assert Follows(s, n - 1);
      AncestryFrom(s, n - 1, fuel - 1);
      assert s.order[..n][..n - 1] == s.order[..n - 1];
    }
  }

  /** From the active version the parent links visit every version once, newest activation
      first, and stop: more hops than versions find nothing more. */
  lemma AncestryVisitsAll(s: Store, fuel: nat)
    requires Lineage(s) && |s.order| <= fuel
    ensures Ancestry(s.versions, Some(s.row.active), fuel) == Reversed(s.order)
    ensures multiset(Reversed(s.order)) == multiset(s.versions.Keys)
  {
    AncestryFrom(s, |s.order|, fuel);
    assert s.order[..|s.order|] == s.order;
    ReversedPermutes(s.order);
    OrderIsKeys(s.order, s.versions.Keys);
  }

  lemma {:induction false} ReversedPermutes(ids: seq<Id>)
    ensures multiset(Reversed(ids)) == multiset(ids)
  {
    if ids != [] {
      ReversedPermutes(ids[..|ids| - 1]);
      assert ids == ids[..|ids| - 1] + [ids[|ids| - 1]];
    }
  }

  lemma {:induction false} OrderIsKeys(ids: seq<Id>, keys: set<Id>)
    requires Distinct(ids) && forall id :: id in keys <==> id in ids
    ensures multiset(ids) == multiset(keys)
  {
    if ids != [] {
      var last := ids[|ids| - 1];
      OrderIsKeys(ids[..|ids| - 1], keys - {last});
      assert ids == ids[..|ids| - 1] + [last];
      assert multiset(keys) == multiset(keys - {last}) + multiset{last};
    }
  }
}
