/** The live trend row, its ledger and its chain of state versions, with every operation that
    writes them, and the replay that recomputes the row from the ledger. */
module TrendLedger {
  import opened Wrappers
  import opened Decay
  import opened Sorting

  /** A UUID; its canonical text sorts as its number does. */
  type Id = nat

  /** NUMERIC(10, 6) columns keep six decimals; `Exact` switches the rounding off. */
  datatype Precision = Exact | Micro

  const MICRO: real := 0.000001

  /** Nearest multiple of one millionth, halves away from zero, as NUMERIC rounds. */
  function RoundMicro(x: real): (q: real)
    ensures Abs(q - x) <= MICRO / 2.0
  {
    if x >= 0.0 then (x * 1000000.0 + 0.5).Floor as real / 1000000.0
    else -((-x * 1000000.0 + 0.5).Floor as real / 1000000.0)
  }

  function Write(p: Precision, x: real): (w: real)
    ensures p.Exact? ==> w == x
    ensures Abs(w - x) <= MICRO / 2.0
  {
    if p.Exact? then x else RoundMicro(x)
  }

  /** A whole number of millionths, which the NUMERIC columns store unchanged. */
  function Millionths(k: int): real {
    k as real / 1000000.0
  }

  ghost predicate OnGrid(x: real) {
    exists k :: x == Millionths(k)
  }

  lemma RoundLandsOnGrid(x: real)
    ensures OnGrid(RoundMicro(x))
  {
    if x >= 0.0 {
      var k := (x * 1000000.0 + 0.5).Floor;
      assert RoundMicro(x) == Millionths(k);
    } else {
      var k := -(-x * 1000000.0 + 0.5).Floor;
      assert RoundMicro(x) == Millionths(k);
    }
  }

  lemma GridIsStored(p: Precision, x: real)
    requires OnGrid(x)
    ensures Write(p, x) == x
  {
    var k: int :| x == Millionths(k);
    assert x * 1000000.0 == k as real;
    if x >= 0.0 {
      assert (k as real + 0.5).Floor == k;
    } else {
      assert ((-k) as real + 0.5).Floor == -k;
    }
  }

  /** A column that was given x reads `stored`: x itself, or the nearest millionth, halves away from zero. */
  ghost predicate Stores(p: Precision, stored: real, x: real) {
    if p.Exact? then stored == x
    else OnGrid(stored) && Abs(stored - x) <= 0.0000005 && (Abs(stored - x) == 0.0000005 ==> Abs(stored) > Abs(x))
  }

  lemma WriteStores(p: Precision, x: real)
    ensures Stores(p, Write(p, x), x)
  {
    if p.Micro? { RoundLandsOnGrid(x); }
  }

  /** A column can only read one thing. */
  lemma StoresOne(p: Precision, a: real, b: real, x: real)
    requires Stores(p, a, x) && Stores(p, b, x)
    ensures a == b
  {
    if p.Micro? {
      var j: int :| a == Millionths(j);
      var k: int :| b == Millionths(k);
      assert Abs(a - b) <= 0.000001;
      assert j == k || j == k + 1 || k == j + 1;
    }
  }

  /** What `writes` rounded writes may add up to: a millionth each, nothing when exact. */
  function Allowance(p: Precision, writes: nat): real {
    if p.Exact? then 0.0 else writes as real * MICRO
  }

  lemma AllowanceAdds(p: Precision, m: nat, n: nat)
    ensures Allowance(p, m + n) == Allowance(p, m) + Allowance(p, n)
    ensures Allowance(p, 0) == 0.0
  {}

  datatype ActivationKind = Create | Rebase | Replay | NewLine

  datatype StateVersion = StateVersion(
    parent: Option<Id>, kind: ActivationKind, baseline: real, rate: Rate,
    starting: real, current: real, activatedAt: Time)

  datatype Row = Row(baseline: real, rate: Rate, current: real, updatedAt: Time, active: Id)

  datatype Evidence = Evidence(
    id: Id, state: Id, claim: Id, signal: string, delta: real, createdAt: Time, invalidated: bool)

  datatype Restatement = Restatement(
    id: Id, evidence: Option<Id>, state: Id, kind: string, delta: real, recordedAt: Time)

  /** The rows of one trend. `order` lists the state versions as they were inserted. */
  datatype Store = Store(
    row: Row, versions: map<Id, StateVersion>, order: seq<Id>,
    evidence: seq<Evidence>, restatements: seq<Restatement>)

  predicate Linked(s: Store) {
    s.row.active in s.versions
  }

  // ---------------------------------------------------------------- row writes

  /** `UPDATE trends SET current = current + delta, updated_at = at`: no decay first. */
  function RowAdd(p: Precision, row: Row, delta: real, at: Time): Row {
    row.(current := Write(p, row.current + delta), updatedAt := at)
  }

  function RowDecayed(row: Row, at: Time): real {
    DecayLogOdds(row.current, row.baseline, row.rate, row.updatedAt, at)
  }

  lemma DecayIsItself(row: Row)
    ensures RowDecayed(row, row.updatedAt) == row.current
  {}

  function RowDecay(p: Precision, row: Row, asOf: Time): Row {
    if asOf <= row.updatedAt then row
    else row.(current := Write(p, RowDecayed(row, asOf)), updatedAt := asOf)
  }

  // ---------------------------------------------------------------- operations

  /** The atomic add on the trend row together with the same add on its active version. */
  function ApplyDelta(p: Precision, s: Store, delta: real, at: Time): Store
    requires Linked(s)
  {
    var v := s.versions[s.row.active];
    s.(row := RowAdd(p, s.row, delta, at),
       versions := s.versions[s.row.active := v.(current := Write(p, v.current + delta))])
  }

  predicate SameKey(e: Evidence, state: Id, claim: Id, signal: string) {
    !e.invalidated && e.state == state && e.claim == claim && e.signal == signal
  }

  predicate Duplicate(s: Store, claim: Id, signal: string) {
    exists i :: 0 <= i < |s.evidence| && SameKey(s.evidence[i], s.row.active, claim, signal)
  }

  datatype Op =
    | Decay(asOf: Time)
    | Score(id: Id, claim: Id, signal: string, delta: real, createdAt: Time, at: Time)
    | Invalidate(id: Id)
    | Restate(id: Id, target: Option<Evidence>, kind: string, delta: real, at: Time)
    | Activate(id: Id, activation: ActivationKind, baseline: real, rate: Rate, at: Time)
    | Touch(at: Time)   // any other edit of the trend: its `onupdate` moves the stamp
    | Prune(id: Id)     // retention deletes an evidence row

  function ApplyDecay(p: Precision, s: Store, asOf: Time): Store
    requires Linked(s)
  {
    if asOf <= s.row.updatedAt then s
    else
      var v := s.versions[s.row.active];
      s.(row := RowDecay(p, s.row, asOf),
         versions := s.versions[s.row.active := v.(current := Write(p, RowDecayed(s.row, asOf)))])
  }

  function ApplyEvidence(p: Precision, s: Store, id: Id, claim: Id, signal: string,
                         delta: real, createdAt: Time, at: Time): Store
    requires Linked(s)
  {
    if Duplicate(s, claim, signal) then s
    else
      var e := Evidence(id, s.row.active, claim, signal, Write(p, delta), createdAt, false);
      ApplyDelta(p, s.(evidence := s.evidence + [e]), delta, at)
  }

  function MarkInvalidated(rows: seq<Evidence>, id: Id): (r: seq<Evidence>)
    ensures |r| == |rows|
    ensures forall i :: 0 <= i < |rows| ==>
      r[i] == if rows[i].id == id then rows[i].(invalidated := true) else rows[i]
  {
    if rows == [] then []
    else
      var e := rows[|rows| - 1];
      MarkInvalidated(rows[..|rows| - 1], id) + [if e.id == id then e.(invalidated := true) else e]
  }

  function Remaining(rows: seq<Evidence>, id: Id): (r: seq<Evidence>)
    ensures forall e :: e in r <==> e in rows && e.id != id
  {
    if rows == [] then []
    else
      var init, e := rows[..|rows| - 1], rows[|rows| - 1];
      assert rows == init + [e];
      Remaining(init, id) + if e.id == id then [] else [e]
  }

  lemma {:induction false} RemainingCounts(rows: seq<Evidence>, id: Id)
    ensures forall e :: multiset(Remaining(rows, id))[e] == if e.id == id then 0 else multiset(rows)[e]
  {
    if rows != [] {
      RemainingCounts(rows[..|rows| - 1], id);
      assert rows == rows[..|rows| - 1] + [rows[|rows| - 1]];
    }
  }

  /** The foreign key is set to null when its evidence row goes. */
  function Detached(rows: seq<Restatement>, id: Id): (r: seq<Restatement>)
    ensures |r| == |rows|
    ensures forall i :: 0 <= i < |rows| ==>
      r[i] == if rows[i].evidence == Some(id) then rows[i].(evidence := None) else rows[i]
  {
    if rows == [] then []
    else
      var e := rows[|rows| - 1];
      Detached(rows[..|rows| - 1], id) + [if e.evidence == Some(id) then e.(evidence := None) else e]
  }

  function RestatedState(s: Store, target: Option<Evidence>): Id {
    if target.Some? then target.value.state else s.row.active
  }

  /** The ledger row is always written; the live row only moves for a nonzero compensation
      of the active state, and then it is decayed first. */
  function ApplyRestatement(p: Precision, s: Store, id: Id, target: Option<Evidence>, kind: string,
                            delta: real, at: Time): Store
    requires Linked(s)
  {
    var state := RestatedState(s, target);
    var evidenceId := if target.Some? then Some(target.value.id) else None;
    var logged := s.(restatements := s.restatements +
                                     [Restatement(id, evidenceId, state, kind, Write(p, delta), at)]);
    if delta == 0.0 || state != s.row.active then logged
    else ApplyDelta(p, logged, (RowDecayed(s.row, at) - s.row.current) + delta, at)
  }

  function ActivateState(p: Precision, s: Store, id: Id, kind: ActivationKind,
                         baseline: real, rate: Rate, at: Time): Store
    requires Linked(s)
  {
    var b := Write(p, baseline);
    var start := Write(p, if kind.Replay? || kind.NewLine? then baseline else s.row.current);
    s.(row := Row(b, rate, start, at, id),
       versions := s.versions[id := StateVersion(Some(s.row.active), kind, b, rate, start, start, at)],
       order := s.order + [id])
  }

  /** A new trend is inserted with its probability and at once activated with kind `create`. */
  function CreateTrend(p: Precision, id: Id, baseline: real, current: real, rate: Rate, at: Time): Store {
    var b, c := Write(p, baseline), Write(p, current);
    Store(Row(b, rate, c, at, id), map[id := StateVersion(None, Create, b, rate, c, c, at)], [id], [], [])
  }

  function Step(p: Precision, s: Store, op: Op): (s': Store)
    requires Linked(s)
    ensures Linked(s')
  {
    match op
    case Decay(asOf) => ApplyDecay(p, s, asOf)
    case Score(id, claim, signal, delta, createdAt, at) =>
      ApplyEvidence(p, s, id, claim, signal, delta, createdAt, at)
    case Invalidate(id) => s.(evidence := MarkInvalidated(s.evidence, id))
    case Restate(id, target, kind, delta, at) => ApplyRestatement(p, s, id, target, kind, delta, at)
    case Activate(id, kind, baseline, rate, at) => ActivateState(p, s, id, kind, baseline, rate, at)
    case Touch(at) => s.(row := s.row.(updatedAt := at))
    case Prune(id) => s.(evidence := Remaining(s.evidence, id), restatements := Detached(s.restatements, id))
  }

  function Run(p: Precision, s: Store, ops: seq<Op>): (s': Store)
    requires Linked(s)
    ensures Linked(s')
  {
    if ops == [] then s else Step(p, Run(p, s, ops[..|ops| - 1]), ops[|ops| - 1])
  }

  // ---------------------------------------------------------------- replay

  datatype Entry = Entry(at: Time, kind: string, source: Id, delta: real)

  function EvidenceEntries(rows: seq<Evidence>, state: Id, asOf: Time): seq<Entry> {
    if rows == [] then []
    else
      var e := rows[|rows| - 1];
      EvidenceEntries(rows[..|rows| - 1], state, asOf)
      + if e.state == state && e.createdAt <= asOf then [Entry(e.createdAt, "evidence", e.id, e.delta)] else []
  }

  function RestatementEntries(rows: seq<Restatement>, state: Id, asOf: Time): seq<Entry> {
    if rows == [] then []
    else
      var e := rows[|rows| - 1];
      RestatementEntries(rows[..|rows| - 1], state, asOf)
      + if e.state == state && e.recordedAt <= asOf then [Entry(e.recordedAt, e.kind, e.id, e.delta)] else []
  }

  function Entries(s: Store, asOf: Time): seq<Entry> {
    EvidenceEntries(s.evidence, s.row.active, asOf) + RestatementEntries(s.restatements, s.row.active, asOf)
  }

  /** The sort key (recorded_at, entry_type, str(source_id)). */
  predicate EntryLeq(a: Entry, b: Entry) {
    a.at < b.at || (a.at == b.at &&
    (if a.kind == b.kind then a.source <= b.source else StringLeq(a.kind, b.kind)))
  }

  /** Decay to each entry in turn, add it, and decay to the end. */
  function Replayed(es: seq<Entry>, current: real, last: Time, baseline: real, rate: Rate, asOf: Time): real
    decreases es
  {
    if es == [] then DecayLogOdds(current, baseline, rate, last, asOf)
    else
      Replayed(es[1..], DecayLogOdds(current, baseline, rate, last, es[0].at) + es[0].delta, es[0].at,
               baseline, rate, asOf)
  }

  function Projected(s: Store, asOf: Time): real
    requires Linked(s)
  {
    var v := s.versions[s.row.active];
    Replayed(Sort(EntryLeq, Entries(s, asOf)), v.starting, v.activatedAt, v.baseline, v.rate, asOf)
  }

  /** Stored minus projected, with the stored value carried forward from `updatedAt`
      (at `updatedAt` itself, where the check looks by default, it is the stored value). */
  function Drift(s: Store, asOf: Time): real
    requires Linked(s)
  {
    RowDecayed(s.row, asOf) - Projected(s, asOf)
  }
}
