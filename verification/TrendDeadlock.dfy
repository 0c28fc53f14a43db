/** When transactions over one trend get in each other's way. */
module TrendDeadlock {
  import opened Wrappers
  import opened TrendLedger
  import opened TrendConcurrency
  import opened TrendSerializability

  ghost predicate CanMove(c: Config, s: System, w: nat) {
    exists step: Step :: step.w == w && !step.Abort? && Enabled(c, s, step)
  }

  lemma {:induction false} NoWriteNoKey(c: Config, keys: set<Key>, w: nat, n: nat)
    requires w < |c.tasks| && n <= |c.tasks[w]| && Turn(c, keys, w, n) == []
    ensures KeysAfter(c, keys, w, n) == keys
  {
    if n > 0 { NoWriteNoKey(c, keys, w, n - 1); }
  }

  /** An entry of a transaction without the row lock is the one it is inserting. */
  lemma ClaimantWaits(c: Config, s: System, order: seq<nat>, k: Key)
    requires Inv(c, s, order) && k in s.claims && s.lock != Some(s.claims[k])
    ensures var v := s.claims[k];
      && At(c, s, v) && (StageOf(c, s, v).Inserted? || StageOf(c, s, v).Shared?)
      && WorkAt(c, s, v).Scorer? && WorkAt(c, s, v).key == k
  {
    hide StageOk, Schedule, Taken, Serial;
    var v := s.claims[k];
    assert ClaimOk(s, k) && TurnOk(c, s, v) && k in Mine(s, v);
    assert Slots(DraftsOf(s, v)) == [];
    NoWriteNoKey(c, s.keys, v, s.phases[v].pos);
  }

  /** The step at which worker w would go on. */
  function NextStep(c: Config, s: System, w: nat): Step
    requires w < |c.tasks| == |s.phases|
  {
    if s.phases[w].Failed? then Retry(w)
    else if !At(c, s, w) then Finish(w)
    else
      match StageOf(c, s, w)
      case Ready =>
        var work := WorkAt(c, s, w);
        if work.Scorer? then Check(w) else if work.Restater? then Load(w) else Lock(w)
      case Checked => Insert(w)
      case Inserted => Share(w)
      case Loaded(_) => Share(w)
      case Shared => Add(w, 0)
      case Posted(_) => Add(w, 0)
      case Locked => Step.Fade(w, 0)
  }

  /** Waiting for an index entry of another transaction to be committed or rolled back. */
  ghost predicate WaitsForKey(c: Config, s: System, w: nat, v: nat) {
    At(c, s, w) && StageOf(c, s, w).Checked? && WorkAt(c, s, w).Scorer? && Claimed(s, WorkAt(c, s, w).key, v) && v != w
  }

  /** Waiting to lock the row for update while another transaction shares it. */
  ghost predicate WaitsForShare(c: Config, s: System, w: nat, v: nat) {
    At(c, s, w) && StageOf(c, s, w).Ready? && WorkAt(c, s, w).Decayer? && MayLock(s, w) && Sharing(s, v) && v != w
  }

  /** Waiting for the row itself: to write it, to lock it, or to share it while it is locked for update. */
  ghost predicate WaitsForRow(c: Config, s: System, w: nat, h: nat) {
    && At(c, s, w) && s.lock == Some(h) && h != w
    && match StageOf(c, s, w)
       case Ready => WorkAt(c, s, w).Decayer?
       case Inserted => s.barred
       case Loaded(_) => s.barred
       case Shared => true
       case Posted(_) => true
       case _ => false
  }

  lemma MovesIff(c: Config, s: System, w: nat)
    requires StagesOk(c, s) && w < |c.tasks| && !s.phases[w].Committed?
    ensures CanMove(c, s, w) <==>
      !exists v: nat :: WaitsForKey(c, s, w, v) || WaitsForShare(c, s, w, v) || WaitsForRow(c, s, w, v)
  {
    assert StageOk(c, s, w);
    if CanMove(c, s, w) {
      var step: Step :| step.w == w && !step.Abort? && Enabled(c, s, step);
    } else {
      assert !Enabled(c, s, NextStep(c, s, w));
      if At(c, s, w) && StageOf(c, s, w).Checked? {
        assert WaitsForKey(c, s, w, s.claims[WorkAt(c, s, w).key]);
      } else if At(c, s, w) && StageOf(c, s, w).Ready? && MayLock(s, w) {
        var v: nat :| v < |s.phases| && v != w && Sharing(s, v);
        assert WaitsForShare(c, s, w, v);
      } else {
        assert WaitsForRow(c, s, w, s.lock.value);
      }
    }
  }

  /** Worker v has an index entry or a share, and gives neither up before it has written the row. */
  ghost predicate Pending(c: Config, s: System, v: nat) {
    At(c, s, v) && (StageOf(c, s, v).Inserted? || StageOf(c, s, v).Shared? || StageOf(c, s, v).Posted?)
  }

  /** The holder of the row waits for a key or a share of a transaction that needs the row. */
  ghost predicate Deadlocked(c: Config, s: System, h: nat, v: nat) {
    s.lock == Some(h) && v != h && Pending(c, s, v) && (WaitsForKey(c, s, h, v) || WaitsForShare(c, s, h, v))
  }

  lemma HolderWaits(c: Config, s: System, order: seq<nat>, h: nat, v: nat)
    requires Inv(c, s, order) && s.lock == Some(h)
    ensures WaitsForKey(c, s, h, v) || WaitsForShare(c, s, h, v) ==> Deadlocked(c, s, h, v)
  {
    hide TurnOk, OrderOk, Serial, ClaimOk;
    if WaitsForKey(c, s, h, v) { ClaimantWaits(c, s, order, WorkAt(c, s, h).key); }
    if WaitsForShare(c, s, h, v) { assert StageOk(c, s, v); }
  }

  /** In every interleaving the holder of the row can go on if and only if it is in no deadlock. */
  lemma HolderMovesIff(c: Config, steps: seq<Step>, states: seq<System>, n: nat, h: nat)
    requires Behaviour(c, steps, states) && n < |states| && states[n].lock == Some(h)
    ensures CanMove(c, states[n], h) <==> !exists v: nat :: Deadlocked(c, states[n], h, v)
  {
    hide Initial, Do, TurnOk, OrderOk, Serial, CanMove;
    BehaviourInv(c, steps, states, n);
    assert StageOk(c, states[n], h);
    MovesIff(c, states[n], h);
    forall v: nat ensures WaitsForKey(c, states[n], h, v) || WaitsForShare(c, states[n], h, v)
      <==> Deadlocked(c, states[n], h, v)
    {
      HolderWaits(c, states[n], CommitOrder(steps[..n]), h, v);
    }
  }

  /** As long as a transaction has not committed, one can go on, or two are in a deadlock. */
  lemma MoveOrDeadlock(c: Config, steps: seq<Step>, states: seq<System>, n: nat, w: nat)
    requires Behaviour(c, steps, states) && n < |states| && w < |c.tasks| == |states[n].phases|
    requires !states[n].phases[w].Committed?
    ensures (exists v: nat :: CanMove(c, states[n], v)) || (exists h: nat, v: nat :: Deadlocked(c, states[n], h, v))
  {
    hide Initial, Do, TurnOk, OrderOk, Serial, CanMove;
    var s := states[n];
    BehaviourInv(c, steps, states, n);
    if s.lock.Some? {
      HolderMovesIff(c, steps, states, n, s.lock.value);
      assert CanMove(c, s, s.lock.value) || !CanMove(c, s, s.lock.value);
    } else {
      MovesIff(c, s, w);
      if v: nat :| WaitsForKey(c, s, w, v) {
        ClaimantWaits(c, s, CommitOrder(steps[..n]), WorkAt(c, s, w).key);
        MovesIff(c, s, v);
      }
      if v: nat :| WaitsForShare(c, s, w, v) {
        assert StageOk(c, s, v);
        MovesIff(c, s, v);
      }
    }
  }

  lemma StepKeepsDeadlock(c: Config, s: System, step: Step, h: nat, v: nat)
    requires Deadlocked(c, s, h, v) && Enabled(c, s, step) && step != Abort(h) && step != Abort(v)
    ensures Deadlocked(c, Do(c, s, step), h, v)
  {
    hide Perform;
  }

  /** A deadlock lasts until one of the two rolls back, whatever the others do meanwhile. */
  lemma {:induction false} DeadlockLasts(
      c: Config, steps: seq<Step>, states: seq<System>, from: nat, to: nat, h: nat, v: nat)
    requires Behaviour(c, steps, states) && from <= to < |states| && Deadlocked(c, states[from], h, v)
    requires forall i :: from <= i < to ==> steps[i] != Abort(h) && steps[i] != Abort(v)
    ensures Deadlocked(c, states[to], h, v)
  {
    hide Deadlocked, Initial, Do, Enabled;
    if from < to {
      DeadlockLasts(c, steps, states, from, to - 1, h, v);
      StepKeepsDeadlock(c, states[to - 1], steps[to - 1], h, v);
    }
  }

  // ---------------------------------------------------------------- which work can end in a deadlock

  /** Some interleaving, in which the workers of `order` commit in turn, reaches s. */
  ghost predicate Reaches(c: Config, s: System, order: seq<nat>) {
    exists steps: seq<Step>, states: seq<System> ::
      Behaviour(c, steps, states) && states[|steps|] == s && CommitOrder(steps) == order
  }

  lemma Start(c: Config)
    ensures Reaches(c, Initial(c), [])
  {
    assert Behaviour(c, [], [Initial(c)]) && CommitOrder([]) == [];
  }

  lemma Onward(c: Config, s: System, order: seq<nat>, step: Step)
    requires Reaches(c, s, order) && Enabled(c, s, step)
    ensures Reaches(c, Do(c, s, step), if step.Finish? then order + [step.w] else order)
  {
    hide Enabled, Do, Initial;
    var steps: seq<Step>, states: seq<System> :|
      Behaviour(c, steps, states) && states[|steps|] == s && CommitOrder(steps) == order;
    assert (steps + [step])[..|steps|] == steps;
    assert Behaviour(c, steps + [step], states + [Do(c, s, step)]);
  }

  lemma ReachedInv(c: Config, s: System, order: seq<nat>)
    requires Reaches(c, s, order)
    ensures Inv(c, s, order)
  {
    hide Inv, Initial, Do, Enabled;
    var steps: seq<Step>, states: seq<System> :|
      Behaviour(c, steps, states) && states[|steps|] == s && CommitOrder(steps) == order;
    assert |states| == |steps| + 1 && steps[..|steps|] == steps;
    BehaviourInv(c, steps, states, |steps|);
  }

  /** Worker w stands ready before work `pos`, and the row is free to it. */
  ghost predicate Free(c: Config, s: System, w: nat, pos: nat) {
    && w < |c.tasks| == |s.phases| && pos <= |c.tasks[w]| && s.phases[w] == Running(pos, Ready) && MayLock(s, w)
  }

  /** Only worker w, its index entries, the row and the drafts have changed. */
  ghost predicate OnlyMoved(s: System, s': System, w: nat) {
    && |s'.phases| == |s.phases| && (forall v: nat :: v < |s.phases| && v != w ==> s'.phases[v] == s.phases[v])
    && (forall k :: k in s.claims ==> Claimed(s', k, s.claims[k]))
    && (forall k :: k in s'.claims && k !in s.claims ==> s'.claims[k] == w)
  }

  /** Nobody else has in what work `pos` waits for. */
  ghost predicate Clear(c: Config, s: System, w: nat, pos: nat)
    requires w < |c.tasks| && pos < |c.tasks[w]|
  {
    match c.tasks[w][pos]
    case Scorer(key, _) => key in s.claims ==> s.claims[key] == w
    case Restater(_) => true
    case Decayer => forall v: nat :: Sharing(s, v) ==> v == w
  }

  lemma DoesScore(c: Config, s: System, order: seq<nat>, w: nat, pos: nat) returns (s': System)
    requires Reaches(c, s, order) && Free(c, s, w, pos) && pos < |c.tasks[w]| && Clear(c, s, w, pos)
    requires c.tasks[w][pos].Scorer?
    ensures Reaches(c, s', order) && Free(c, s', w, pos + 1) && OnlyMoved(s, s', w)
  {
    hide Reaches, Perform;
    Onward(c, s, order, Check(w));
    s' := Do(c, s, Check(w));
    if s'.phases[w] == Running(pos, Checked) {
      Onward(c, s', order, Insert(w));
      var mid := Do(c, s', Insert(w));
      s' := WritesNext(c, mid, order, w);
      MovedOn(s, mid, s', w);
    }
  }

  lemma MovedOn(s: System, mid: System, s': System, w: nat)
    requires OnlyMoved(s, mid, w) && OnlyMoved(mid, s', w)
    ensures OnlyMoved(s, s', w)
  {
    forall k | k in s.claims ensures Claimed(s', k, s.claims[k]) {
      assert Claimed(mid, k, s.claims[k]);
    }
  }

  /** A row that is in is followed by the write it goes with. */
  lemma WritesNext(c: Config, s: System, order: seq<nat>, w: nat) returns (s': System)
    requires Reaches(c, s, order) && At(c, s, w) && MayLock(s, w)
    requires StageOf(c, s, w).Inserted? || StageOf(c, s, w).Loaded?
    ensures Reaches(c, s', order) && Free(c, s', w, s.phases[w].pos + 1) && OnlyMoved(s, s', w)
  {
    hide Reaches, Perform;
    Onward(c, s, order, Share(w));
    s' := Do(c, s, Share(w));
    Onward(c, s', order, Add(w, 0));
    s' := Do(c, s', Add(w, 0));
  }

  lemma DoesDecay(c: Config, s: System, order: seq<nat>, w: nat, pos: nat) returns (s': System)
    requires Reaches(c, s, order) && Free(c, s, w, pos) && pos < |c.tasks[w]| && Clear(c, s, w, pos)
    requires c.tasks[w][pos].Decayer?
    ensures Reaches(c, s', order) && Free(c, s', w, pos + 1) && OnlyMoved(s, s', w)
  {
    hide Reaches, Perform;
    Onward(c, s, order, Lock(w));
    s' := Do(c, s, Lock(w));
    Onward(c, s', order, Step.Fade(w, 0));
    s' := Do(c, s', Step.Fade(w, 0));
  }

  lemma DoesNext(c: Config, s: System, order: seq<nat>, w: nat, pos: nat) returns (s': System)
    requires Reaches(c, s, order) && Free(c, s, w, pos) && pos < |c.tasks[w]| && Clear(c, s, w, pos)
    ensures Reaches(c, s', order) && Free(c, s', w, pos + 1) && OnlyMoved(s, s', w)
  {
    hide Reaches, Perform;
    match c.tasks[w][pos]
    case Scorer(_, _) => s' := DoesScore(c, s, order, w, pos);
    case Restater(_) =>
      Onward(c, s, order, Load(w));
      s' := Do(c, s, Load(w));
      s' := WritesNext(c, s', order, w);
    case Decayer => s' := DoesDecay(c, s, order, w, pos);
  }

  /** The first works of a worker in whose way nobody stands. */
  lemma {:induction false} DoesFirst(c: Config, s: System, order: seq<nat>, w: nat, pos: nat) returns (s': System)
    requires Reaches(c, s, order) && Free(c, s, w, 0) && pos <= |c.tasks[w]|
    requires forall i: nat :: i < pos ==> Clear(c, s, w, i)
    ensures Reaches(c, s', order) && Free(c, s', w, pos) && OnlyMoved(s, s', w)
  {
    hide Reaches;
    if pos == 0 {
      s' := s;
    } else {
      s' := DoesFirst(c, s, order, w, pos - 1);
      assert Clear(c, s, w, pos - 1);
      forall v: nat | v != w ensures Sharing(s', v) <==> Sharing(s, v) {
      }
      s' := DoesNext(c, s', order, w, pos - 1);
    }
  }

  /** Nobody is under way. */
  ghost predicate Resting(c: Config, s: System, order: seq<nat>) {
    && |s.phases| == |c.tasks| && s.claims == map[] && s.lock == None
    && forall w: nat :: w < |c.tasks| ==> s.phases[w] == if w in order then Committed else Running(0, Ready)
  }

  /** Workers can run whole, one after the other, in any order. */
  lemma {:induction false} RunsWhole(c: Config, order: seq<nat>) returns (s: System)
    requires OrderOf(c, order) && Distinct(order)
    ensures Reaches(c, s, order) && Resting(c, s, order)
  {
    hide Reaches;
    if order == [] {
      Start(c);
      s := Initial(c);
    } else {
      var w, before := order[|order| - 1], order[..|order| - 1];
      s := RunsWhole(c, before);
      assert w !in before;
      var end := DoesFirst(c, s, before, w, |c.tasks[w]|);
      Onward(c, end, before, Finish(w));
      assert before + [w] == order;
      s := Do(c, end, Finish(w));
      assert s.claims == map[];
      assert s.lock == None;
    }
  }

  /** A score of a key not in `keys`, or a restatement. */
  ghost predicate NewTo(keys: set<Key>, work: Work) {
    match work
    case Scorer(key, _) => key !in keys
    case Restater(_) => true
    case Decayer => false
  }

  /** Once the workers of `order` have run, v comes to new work `m` with nothing written, and h comes
      to work `j` with something written: either both come to score the same key, or h comes to its
      first decay. */
  ghost predicate Cross(c: Config, order: seq<nat>, h: nat, v: nat, j: nat, m: nat) {
    && OrderOf(c, order) && Distinct(order) && h !in order && v !in order && h != v
    && h < |c.tasks| && j < |c.tasks[h]| && v < |c.tasks| && m < |c.tasks[v]|
    && Turn(c, Taken(c, order), h, j) != [] && Turn(c, Taken(c, order), v, m) == []
    && NewTo(KeysAfter(c, Taken(c, order), h, j), c.tasks[v][m])
    && match c.tasks[h][j]
       case Scorer(key, _) => c.tasks[v][m].Scorer? && c.tasks[v][m].key == key
       case Restater(_) => false
       case Decayer => forall i: nat :: i < j ==> !c.tasks[h][i].Decayer?
  }

  /** A lock taken by writes alone stands for no decay. */
  lemma NoDecayYet(c: Config, s: System, order: seq<nat>, h: nat)
    requires Inv(c, s, order) && At(c, s, h) && s.lock == Some(h) && !s.barred
    ensures forall i: nat :: i < s.phases[h].pos ==> !c.tasks[h][i].Decayer?
  {
    hide Serial, OrderOk, StageOk, ClaimOk;
    assert TurnOk(c, s, h);
    TurnWhole(c, s.keys, h, s.phases[h].pos);
    forall i: nat | i < s.phases[h].pos ensures !c.tasks[h][i].Decayer? {
      Drafted(s.drafts, Slot(h, i));
    }
  }

  lemma Drafted(log: seq<RowWrite>, slot: Slot)
    ensures slot in Slots(log) ==> exists e :: e in log && e.slot == slot
  {
    if slot in Slots(log) {
      var k :| 0 <= k < |log| && Slots(log)[k] == slot;
      assert log[k] in log;
    }
  }

  lemma DeadlockCrosses(c: Config, s: System, order: seq<nat>, h: nat, v: nat)
    requires Inv(c, s, order) && Deadlocked(c, s, h, v)
    ensures exists j: nat, m: nat :: Cross(c, order, h, v, j, m)
  {
    hide Serial, Schedule, RowsOk;
    assert StageOk(c, s, h) && StageOk(c, s, v) && TurnOk(c, s, h) && TurnOk(c, s, v);
    assert Slots(s.drafts)[0] == s.drafts[0].slot;
    assert Slots(DraftsOf(s, v)) == [];
    if WaitsForKey(c, s, h, v) {
      var k := WorkAt(c, s, h).key;
      ClaimantWaits(c, s, order, k);
      assert ClaimOk(s, k) && k !in Mine(s, h);
    } else {
      if WorkAt(c, s, v).Scorer? { assert ClaimOk(s, WorkAt(c, s, v).key); }
      NoDecayYet(c, s, order, h);
    }
    assert Cross(c, order, h, v, s.phases[h].pos, s.phases[v].pos);
  }

  /** A worker that has written nothing holds neither an index entry nor the row. */
  lemma LightTurn(c: Config, s: System, order: seq<nat>, v: nat, m: nat)
    requires Inv(c, s, order) && Free(c, s, v, m) && Turn(c, Taken(c, order), v, m) == []
    requires forall k :: k in s.claims ==> s.claims[k] == v
    ensures s.claims == map[] && s.lock == None
  {
    hide Serial, Schedule, Taken;
    assert StageOk(c, s, v) && TurnOk(c, s, v);
    NoWriteNoKey(c, s.keys, v, m);
    assert Slots(DraftsOf(s, v)) == [];
    forall k ensures k in s.claims ==> k !in s.keys && k in Mine(s, v) {
    }
    assert s.claims.Keys == {};
  }

  lemma HeavyTurn(c: Config, s: System, order: seq<nat>, h: nat, j: nat)
    requires Inv(c, s, order) && Free(c, s, h, j) && Turn(c, Taken(c, order), h, j) != []
    ensures s.lock == Some(h)
  {
    hide Serial, Schedule, Taken;
    assert TurnOk(c, s, h);
    assert Slots([]) == [];
  }

  lemma KeyIsFree(c: Config, s: System, order: seq<nat>, h: nat, j: nat, k: Key)
    requires Inv(c, s, order) && h < |c.tasks| && j < |c.tasks[h]|
    requires k !in KeysAfter(c, Taken(c, order), h, j)
    ensures k !in s.keys
  {
    hide Serial, Schedule, StageOk, TurnOk;
    KeysGrow(c, s.keys, h, j);
  }

  /** v has its row in, or just its index entry where h is to want the same key. */
  ghost predicate InTheWay(c: Config, s: System, h: nat, v: nat, j: nat, m: nat)
    requires h < |c.tasks| && j < |c.tasks[h]| && v < |c.tasks| && m < |c.tasks[v]|
  {
    && Free(c, s, h, 0) && s.lock == None && Pending(c, s, v) && s.phases[v].pos == m
    && s.claims == (if c.tasks[v][m].Scorer? then map[c.tasks[v][m].key := v] else map[])
    && (forall u: nat :: Sharing(s, u) <==> u == v && c.tasks[h][j].Decayer?)
  }

  lemma FirstComes(c: Config, order: seq<nat>, h: nat, v: nat, j: nat, m: nat) returns (s: System)
    requires Cross(c, order, h, v, j, m)
    ensures Reaches(c, s, order) && InTheWay(c, s, h, v, j, m)
  {
    hide Reaches, Turn, Taken, Inv, KeysAfter;
    var rest := RunsWhole(c, order);
    forall i: nat | i < m ensures Clear(c, rest, v, i) {
    }
    s := DoesFirst(c, rest, order, v, m);
    ReachedInv(c, s, order);
    LightTurn(c, s, order, v, m);
    if c.tasks[v][m].Scorer? {
      KeyIsFree(c, s, order, h, j, c.tasks[v][m].key);
      Onward(c, s, order, Check(v));
      s := Do(c, s, Check(v));
      Onward(c, s, order, Insert(v));
      s := Do(c, s, Insert(v));
    } else {
      Onward(c, s, order, Load(v));
      s := Do(c, s, Load(v));
    }
    if c.tasks[h][j].Decayer? {
      Onward(c, s, order, Share(v));
      s := Do(c, s, Share(v));
    }
  }

  lemma CrossDeadlocks(c: Config, order: seq<nat>, h: nat, v: nat, j: nat, m: nat) returns (s: System)
    requires Cross(c, order, h, v, j, m)
    ensures Reaches(c, s, order) && Deadlocked(c, s, h, v)
  {
    hide Reaches, Turn, Taken, Inv, KeysAfter;
    var first := FirstComes(c, order, h, v, j, m);
    forall i: nat | i < j ensures Clear(c, first, h, i) {
      if c.tasks[h][i].Scorer? { OwnKeysTaken(c, Taken(c, order), h, j, i); }
    }
    s := DoesFirst(c, first, order, h, j);
    assert s.phases[v] == first.phases[v] && (Sharing(first, v) ==> Sharing(s, v));
    ReachedInv(c, s, order);
    HeavyTurn(c, s, order, h, j);
    if c.tasks[h][j].Scorer? {
      var k := c.tasks[h][j].key;
      KeyIsFree(c, s, order, h, j, k);
      assert k in first.claims && Claimed(s, k, v);
      Onward(c, s, order, Check(h));
      s := Do(c, s, Check(h));
      assert s.phases[h] == Running(j, Checked);
      assert WaitsForKey(c, s, h, v);
    } else {
      assert WaitsForShare(c, s, h, v);
    }
  }

  /** Some interleaving of the transactions ends in a deadlock if and only if two of them cross. */
  lemma DeadlockIff(c: Config)
    ensures (exists s: System, order: seq<nat>, h: nat, v: nat :: Reaches(c, s, order) && Deadlocked(c, s, h, v))
       <==> (exists order: seq<nat>, h: nat, v: nat, j: nat, m: nat :: Cross(c, order, h, v, j, m))
  {
    hide Reaches, Deadlocked, Cross;
    if s: System, order: seq<nat>, h: nat, v: nat :| Reaches(c, s, order) && Deadlocked(c, s, h, v) {
      ReachedInv(c, s, order);
      DeadlockCrosses(c, s, order, h, v);
    }
    if order: seq<nat>, h: nat, v: nat, j: nat, m: nat :| Cross(c, order, h, v, j, m) {
      var s := CrossDeadlocks(c, order, h, v, j, m);
    }
  }

  /** Where only restatements follow other work of their transaction, no two cross. */
  lemma RestatementsFollow(c: Config, s: System, order: seq<nat>, h: nat, v: nat)
    requires Reaches(c, s, order)
    requires forall w: nat, pos: nat :: w < |c.tasks| && 0 < pos < |c.tasks[w]| ==> c.tasks[w][pos].Restater?
    ensures !Deadlocked(c, s, h, v)
  {
    hide Inv, Reaches, Deadlocked;
    ReachedInv(c, s, order);
    if Deadlocked(c, s, h, v) { DeadlockCrosses(c, s, order, h, v); }
  }

  const FIRST: Key := Key(1, 1, "first")
  const SECOND: Key := Key(1, 1, "second")
  const CROSSED: Config :=
    Config(Exact, Row(0.0, 0.5, 0.0, 0, 0), {}, [[Scorer(FIRST, 0.25), Scorer(SECOND, 0.25)], [Scorer(SECOND, 0.25)]])

  /** One transaction scores two signals and another the second of them: each can end up waiting for
      the other. */
  lemma TwoSignalsDeadlock() returns (s: System)
    ensures Reaches(CROSSED, s, []) && Deadlocked(CROSSED, s, 0, 1)
  {
    hide Reaches, Deadlocked;
    assert FIRST.signal != SECOND.signal by { assert |FIRST.signal| != |SECOND.signal|; }
    assert KeysAfter(CROSSED, {}, 0, 0) == {};
    assert KeysAfter(CROSSED, {}, 0, 1) == {FIRST};
    s := CrossDeadlocks(CROSSED, [], 0, 1, 1, 0);
  }

  const MIXED: Config :=
    Config(Exact, Row(0.0, 0.5, 0.0, 0, 0), {}, [[Scorer(FIRST, 0.25), Decayer], [Scorer(SECOND, 0.25)]])

  /** Keys that differ are no help where a decay follows a score: it waits for the other's share. */
  lemma DecayAfterScoreDeadlocks() returns (s: System)
    ensures Reaches(MIXED, s, []) && Deadlocked(MIXED, s, 0, 1)
  {
    hide Reaches, Deadlocked;
    assert FIRST.signal != SECOND.signal by { assert |FIRST.signal| != |SECOND.signal|; }
    assert KeysAfter(MIXED, {}, 0, 0) == {};
    assert KeysAfter(MIXED, {}, 0, 1) == {FIRST};
    s := CrossDeadlocks(MIXED, [], 0, 1, 1, 0);
  }
}
