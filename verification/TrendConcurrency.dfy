/** Transactions that score, restate and decay one trend at the same time.

    Every step below is one statement of one transaction under READ COMMITTED: a duplicate check
    sees committed rows and the transaction's own, the unique index makes an insert wait for an
    uncommitted rival of the same key, and the row lock taken by an UPDATE or a SELECT ... FOR UPDATE
    is held until the transaction commits or rolls back. An inserted evidence or restatement row
    shares the trend row through its foreign key; an UPDATE goes along with that, a SELECT ... FOR
    UPDATE does not. A restatement reads the row without locking it. A transaction may do any number
    of these, as one event's reconciliation does. */
module TrendConcurrency {
  import opened Wrappers
  import opened Decay
  import opened TrendLedger

  /** The columns of the partial unique index over rows that are not invalidated. */
  datatype Key = Key(state: Id, claim: Id, signal: string)

  /** A restatement of zero never reaches the row, so it is no work. */
  datatype Work = Scorer(key: Key, delta: real) | Restater(delta: real) | Decayer

  /** `tasks[w]` is what worker w does in one transaction, in order. */
  datatype Config = Config(p: Precision, start: Row, counted: set<Key>, tasks: seq<seq<Work>>)

  /** How far a transaction is with the work at hand. */
  datatype Stage =
    | Ready
    | Checked               // no duplicate was seen
    | Inserted              // the index entry is in, uncommitted
    | Shared                // the evidence row is in, and the trend row is shared
    | Loaded(read: Row)     // a restatement has read the row, unlocked
    | Posted(read: Row)     // its ledger row is in, and the trend row is shared
    | Locked                // a decay has locked and read the row

  datatype Phase = Running(pos: nat, stage: Stage) | Committed | Failed

  /** Work `pos` of a worker. */
  datatype Slot = Slot(worker: nat, pos: nat)

  /** Which work rewrote the row, when, and from which reading of it. */
  datatype RowWrite = RowWrite(slot: Slot, at: Time, read: Row)

  /** `row` and `keys` are committed state; `pending` and `drafts` are what the lock holder has
      written so far, and `barred` says that it locked the row for update; `claims` are uncommitted
      index entries; `log` lists the committed writes. */
  datatype System = System(
    row: Row, keys: set<Key>, claims: map<Key, nat>, lock: Option<nat>, barred: bool, pending: Row,
    drafts: seq<RowWrite>, phases: seq<Phase>, log: seq<RowWrite>)

  datatype Step =
    | Check(w: nat) | Insert(w: nat) | Load(w: nat) | Share(w: nat) | Add(w: nat, at: Time)
    | Lock(w: nat) | Fade(w: nat, at: Time)
    | Finish(w: nat) | Abort(w: nat) | Retry(w: nat)

  function Initial(c: Config): System {
    System(c.start, c.counted, map[], None, false, c.start, [], seq(|c.tasks|, _ => Running(0, Ready)), [])
  }

  /** What a worker that has read `read` writes over `row`. */
  function Perform(p: Precision, work: Work, read: Row, row: Row, at: Time): Row {
    match work
    case Scorer(_, delta) => RowAdd(p, row, delta, at)
    case Restater(delta) => RowAdd(p, row, (RowDecayed(read, at) - read.current) + delta, at)
    case Decayer => RowDecay(p, row, at)
  }

  /** Worker w is running and has work at hand. */
  predicate At(c: Config, s: System, w: nat) {
    w < |c.tasks| == |s.phases| && s.phases[w].Running? && s.phases[w].pos < |c.tasks[w]|
  }

  function WorkAt(c: Config, s: System, w: nat): Work
    requires At(c, s, w)
  {
    c.tasks[w][s.phases[w].pos]
  }

  function StageOf(c: Config, s: System, w: nat): Stage
    requires At(c, s, w)
  {
    s.phases[w].stage
  }

  predicate MayLock(s: System, w: nat) {
    s.lock == None || s.lock == Some(w)
  }

  /** The row as worker w sees it: its own version while it holds the lock. */
  function ViewOf(s: System, w: nat): Row {
    if s.lock == Some(w) then s.pending else s.row
  }

  function DraftsOf(s: System, w: nat): seq<RowWrite> {
    if s.lock == Some(w) then s.drafts else []
  }

  /** Worker v has a row in that refers to the trend row, and has not written that one yet. */
  predicate Sharing(s: System, v: nat) {
    v < |s.phases| && s.phases[v].Running? && (s.phases[v].stage.Shared? || s.phases[v].stage.Posted?)
  }

  predicate Claimed(s: System, k: Key, w: nat) {
    k in s.claims && s.claims[k] == w
  }

  predicate Enabled(c: Config, s: System, step: Step) {
    && step.w < |c.tasks| == |s.phases|
    && var w := step.w;
       match step
       case Check(_) => At(c, s, w) && WorkAt(c, s, w).Scorer? && StageOf(c, s, w).Ready?
       case Insert(_) =>
         At(c, s, w) && WorkAt(c, s, w).Scorer? && StageOf(c, s, w).Checked? && WorkAt(c, s, w).key !in s.claims
       case Load(_) => At(c, s, w) && WorkAt(c, s, w).Restater? && StageOf(c, s, w).Ready?
       case Share(_) =>
         At(c, s, w) && (StageOf(c, s, w).Inserted? || StageOf(c, s, w).Loaded?) && (s.barred ==> MayLock(s, w))
       case Add(_, _) => At(c, s, w) && (StageOf(c, s, w).Shared? || StageOf(c, s, w).Posted?) && MayLock(s, w)
       case Lock(_) =>
         && At(c, s, w) && WorkAt(c, s, w).Decayer? && StageOf(c, s, w).Ready? && MayLock(s, w)
         && forall v: nat :: v < |s.phases| && v != w ==> !Sharing(s, v)
       case Fade(_, _) => At(c, s, w) && StageOf(c, s, w).Locked?
       case Finish(_) => s.phases[w] == Running(|c.tasks[w]|, Ready)
       case Abort(_) => s.phases[w].Running?
       case Retry(_) => s.phases[w].Failed?
  }

  function Mine(s: System, w: nat): set<Key> {
    set k | k in s.claims && s.claims[k] == w
  }

  /** Ending a transaction gives up its uncommitted index entries, the row lock and the drafts. */
  function Released(s: System, w: nat): System {
    var mine := Mine(s, w);
    if s.lock == Some(w) then s.(claims := s.claims - mine, lock := None, barred := false, drafts := [])
    else s.(claims := s.claims - mine)
  }

  function Do(c: Config, s: System, step: Step): System
    requires Enabled(c, s, step)
  {
    var w := step.w;
    match step
    case Check(_) =>
      var pos, key := s.phases[w].pos, WorkAt(c, s, w).key;
      var seen := key in s.keys || Claimed(s, key, w);
      s.(phases := s.phases[w := if seen then Running(pos + 1, Ready) else Running(pos, Checked)])
    case Insert(_) =>
      var pos, key := s.phases[w].pos, WorkAt(c, s, w).key;
      if key in s.keys then s.(phases := s.phases[w := Running(pos + 1, Ready)])
      else s.(phases := s.phases[w := Running(pos, Inserted)], claims := s.claims[key := w])
    case Load(_) => s.(phases := s.phases[w := Running(s.phases[w].pos, Loaded(ViewOf(s, w)))])
    case Share(_) =>
      var pos, stage := s.phases[w].pos, StageOf(c, s, w);
      s.(phases := s.phases[w := Running(pos, if stage.Loaded? then Posted(stage.read) else Shared)])
    case Add(_, at) =>
      var pos, stage, row := s.phases[w].pos, StageOf(c, s, w), ViewOf(s, w);
      var read := if stage.Posted? then stage.read else row;
      s.(phases := s.phases[w := Running(pos + 1, Ready)], lock := Some(w),
         pending := Perform(c.p, WorkAt(c, s, w), read, row, at),
         drafts := DraftsOf(s, w) + [RowWrite(Slot(w, pos), at, read)])
    case Lock(_) =>
      s.(phases := s.phases[w := Running(s.phases[w].pos, Locked)], lock := Some(w), barred := true,
         pending := ViewOf(s, w), drafts := DraftsOf(s, w))
    case Fade(_, at) =>
      var pos := s.phases[w].pos;
      s.(phases := s.phases[w := Running(pos + 1, Ready)],
         pending := Perform(c.p, WorkAt(c, s, w), s.pending, s.pending, at),
         drafts := s.drafts + [RowWrite(Slot(w, pos), at, s.pending)])
    case Finish(_) =>
      Released(s, w).(row := ViewOf(s, w), log := s.log + DraftsOf(s, w), keys := s.keys + Mine(s, w),
                      phases := s.phases[w := Committed])
    case Abort(_) => Released(s, w).(phases := s.phases[w := Failed])
    case Retry(_) => s.(phases := s.phases[w := Running(0, Ready)])
  }

  /** A behaviour: from the initial state, each step enabled when its turn comes. */
  ghost predicate Behaviour(c: Config, steps: seq<Step>, states: seq<System>) {
    && |states| == |steps| + 1
    && states[0] == Initial(c)
    && (forall i :: 0 <= i < |steps| ==> Enabled(c, states[i], steps[i]) && states[i + 1] == Do(c, states[i], steps[i]))
  }

  predicate SlotOk(c: Config, slot: Slot) {
    slot.worker < |c.tasks| && slot.pos < |c.tasks[slot.worker]|
  }

  function WorkOf(c: Config, slot: Slot): Work
    requires SlotOk(c, slot)
  {
    c.tasks[slot.worker][slot.pos]
  }

  predicate LogOk(c: Config, log: seq<RowWrite>) {
    forall i :: 0 <= i < |log| ==> SlotOk(c, log[i].slot)
  }

  /** The same writes made one at a time, in order; a restatement adds the decay it worked out from
      its own reading. */
  function Serial(c: Config, log: seq<RowWrite>): Row
    requires LogOk(c, log)
  {
    if log == [] then c.start
    else
      var last := log[|log| - 1];
      Perform(c.p, WorkOf(c, last.slot), last.read, Serial(c, log[..|log| - 1]), last.at)
  }

  lemma SerialExtends(c: Config, log: seq<RowWrite>, last: RowWrite)
    requires LogOk(c, log) && SlotOk(c, last.slot)
    ensures LogOk(c, log + [last])
    ensures Serial(c, log + [last]) == Perform(c.p, WorkOf(c, last.slot), last.read, Serial(c, log), last.at)
  {
    hide Perform;
    assert (log + [last])[..|log|] == log;
  }

  // ---------------------------------------------------------------- rows and locks

  /** The stage fits the work, and the lock belongs to a running transaction with a use for it. */
  ghost predicate StageOk(c: Config, s: System, w: nat)
    requires w < |c.tasks| == |s.phases|
  {
    && (s.lock == Some(w) ==> s.phases[w].Running? && (s.drafts != [] || s.phases[w].stage.Locked?))
    && (s.phases[w].Running? ==>
          && s.phases[w].pos <= |c.tasks[w]|
          && (!s.phases[w].stage.Ready? ==> At(c, s, w))
          && (At(c, s, w) ==>
                match StageOf(c, s, w)
                case Ready => true
                case Checked => WorkAt(c, s, w).Scorer? && !Claimed(s, WorkAt(c, s, w).key, w)
                case Inserted => WorkAt(c, s, w).Scorer?
                case Shared => WorkAt(c, s, w).Scorer?
                case Loaded(read) => WorkAt(c, s, w).Restater? && (s.lock == Some(w) ==> read == s.pending)
                case Posted(read) => WorkAt(c, s, w).Restater? && (s.lock == Some(w) ==> read == s.pending)
                case Locked => WorkAt(c, s, w).Decayer? && s.lock == Some(w) && s.barred))
  }

  /** The drafts are the lock holder's, in order of its work; played after the log they give its row. */
  ghost predicate RowsOk(c: Config, s: System)
    requires |c.tasks| == |s.phases|
  {
    && LogOk(c, s.log) && s.row == Serial(c, s.log)
    && (s.lock.None? ==> s.drafts == [])
    && (s.lock.Some? ==>
          && s.lock.value < |c.tasks| && LogOk(c, s.log + s.drafts) && s.pending == Serial(c, s.log + s.drafts))
  }

  ghost predicate StagesOk(c: Config, s: System) {
    |s.phases| == |c.tasks| && forall w: nat :: w < |c.tasks| ==> StageOk(c, s, w)
  }

  lemma StepStages(c: Config, s: System, step: Step)
    requires StagesOk(c, s) && Enabled(c, s, step)
    ensures StagesOk(c, Do(c, s, step))
  {
    hide Perform;
    var s' := Do(c, s, step);
    assert StageOk(c, s, step.w);
    forall w: nat | w < |c.tasks| ensures StageOk(c, s', w) {
      assert StageOk(c, s, w);
    }
  }

  lemma DraftAdded(c: Config, s: System, w: nat, e: RowWrite)
    requires |s.phases| == |c.tasks| && RowsOk(c, s) && MayLock(s, w) && SlotOk(c, e.slot)
    ensures var all := s.log + (DraftsOf(s, w) + [e]);
      LogOk(c, all) && Serial(c, all) == Perform(c.p, WorkOf(c, e.slot), e.read, ViewOf(s, w), e.at)
  {
    hide Perform, Serial;
    var drafts := DraftsOf(s, w);
    assert s.log + (drafts + [e]) == (s.log + drafts) + [e];
    assert s.log + [] == s.log;
    SerialExtends(c, s.log + drafts, e);
  }

  lemma StepRows(c: Config, s: System, step: Step)
    requires StagesOk(c, s) && RowsOk(c, s) && Enabled(c, s, step)
    ensures |s.phases| == |Do(c, s, step).phases| && RowsOk(c, Do(c, s, step))
  {
    hide Perform, Serial;
    assert StageOk(c, s, step.w);
    assert s.log + [] == s.log;
    match step {
      case Add(w, at) =>
        var row, stage := ViewOf(s, w), StageOf(c, s, w);
        DraftAdded(c, s, w, RowWrite(Slot(w, s.phases[w].pos), at, if stage.Posted? then stage.read else row));
      case Fade(w, at) =>
        DraftAdded(c, s, w, RowWrite(Slot(w, s.phases[w].pos), at, s.pending));
      case _ =>
    }
  }

  /** A row locked for update is shared by nobody else, and one locked by writes alone has seen no decay. */
  ghost predicate LockOk(c: Config, s: System) {
    && (s.barred ==> s.lock.Some? && forall v: nat :: v < |s.phases| && Sharing(s, v) ==> Some(v) == s.lock)
    && (!s.barred ==> forall e :: e in s.drafts ==> SlotOk(c, e.slot) && !WorkOf(c, e.slot).Decayer?)
  }

  lemma StepLock(c: Config, s: System, step: Step)
    requires StagesOk(c, s) && LockOk(c, s) && Enabled(c, s, step)
    ensures LockOk(c, Do(c, s, step))
  {
    hide Perform;
    var s' := Do(c, s, step);
    assert StageOk(c, s, step.w);
    forall v: nat | v < |s.phases| && v != step.w ensures Sharing(s', v) <==> Sharing(s, v) {
    }
  }
}
