/** What every interleaving of transactions over one trend guarantees: its committed writes are
    those of the committed transactions run whole, one after the other, in the order they committed. */
module TrendSerializability {
  import opened Wrappers
  import opened TrendLedger
  import opened TrendConcurrency

  // ---------------------------------------------------------------- one transaction at a time

  /** The keys taken once worker w has done its first n works alone. */
  function KeysAfter(c: Config, keys: set<Key>, w: nat, n: nat): set<Key>
    requires w < |c.tasks| && n <= |c.tasks[w]|
  {
    if n == 0 then keys
    else
      match c.tasks[w][n - 1]
      case Scorer(key, _) => KeysAfter(c, keys, w, n - 1) + {key}
      case _ => KeysAfter(c, keys, w, n - 1)
  }

  /** The writes of its first n works: each restatement and decay, and each score of a new key. */
  function Turn(c: Config, keys: set<Key>, w: nat, n: nat): seq<Slot>
    requires w < |c.tasks| && n <= |c.tasks[w]|
  {
    if n == 0 then []
    else
      var work, before := c.tasks[w][n - 1], Turn(c, keys, w, n - 1);
      if work.Scorer? && work.key in KeysAfter(c, keys, w, n - 1) then before else before + [Slot(w, n - 1)]
  }

  predicate OrderOf(c: Config, order: seq<nat>) {
    forall i :: 0 <= i < |order| ==> order[i] < |c.tasks|
  }

  ghost predicate Distinct(order: seq<nat>) {
    forall i, j :: 0 <= i < j < |order| ==> order[i] != order[j]
  }

  /** The keys taken once the workers of `order` have run whole, one after the other. */
  function Taken(c: Config, order: seq<nat>): set<Key>
    requires OrderOf(c, order)
  {
    if order == [] then c.counted
    else
      var w := order[|order| - 1];
      KeysAfter(c, Taken(c, order[..|order| - 1]), w, |c.tasks[w]|)
  }

  /** The writes they make. */
  function Schedule(c: Config, order: seq<nat>): seq<Slot>
    requires OrderOf(c, order)
  {
    if order == [] then []
    else
      var w, before := order[|order| - 1], order[..|order| - 1];
      Schedule(c, before) + Turn(c, Taken(c, before), w, |c.tasks[w]|)
  }

  function Slots(log: seq<RowWrite>): seq<Slot> {
    seq(|log|, i requires 0 <= i < |log| => log[i].slot)
  }

  /** The workers that have committed, in that order. */
  function CommitOrder(steps: seq<Step>): seq<nat> {
    if steps == [] then []
    else
      var last, before := steps[|steps| - 1], CommitOrder(steps[..|steps| - 1]);
      if last.Finish? then before + [last.w] else before
  }

  lemma KeysGrow(c: Config, keys: set<Key>, w: nat, n: nat)
    requires w < |c.tasks| && n <= |c.tasks[w]|
    ensures keys <= KeysAfter(c, keys, w, n)
  {
  }

  /** Keys that others take, and worker w does not, change nothing it writes. */
  lemma {:induction false} TurnApart(c: Config, keys: set<Key>, more: set<Key>, w: nat, n: nat)
    requires w < |c.tasks| && n <= |c.tasks[w]| && more !! (KeysAfter(c, keys, w, n) - keys)
    ensures KeysAfter(c, keys + more, w, n) == KeysAfter(c, keys, w, n) + more
    ensures Turn(c, keys + more, w, n) == Turn(c, keys, w, n)
  {
    if n > 0 {
      KeysGrow(c, keys, w, n - 1);
      TurnApart(c, keys, more, w, n - 1);
    }
  }

  // ---------------------------------------------------------------- the invariant

  /** An uncommitted index entry is a running transaction's, of a key not yet committed. */
  ghost predicate ClaimOk(s: System, k: Key)
    requires k in s.claims
  {
    k !in s.keys && s.claims[k] < |s.phases| && s.phases[s.claims[k]].Running?
  }

  /** A running transaction has written, and taken, what it would have alone over the committed keys. */
  ghost predicate TurnOk(c: Config, s: System, w: nat)
    requires w < |c.tasks| == |s.phases|
  {
    s.phases[w].Running? ==>
      && var pos, stage := s.phases[w].pos, s.phases[w].stage;
         && pos <= |c.tasks[w]|
         && Slots(DraftsOf(s, w)) == Turn(c, s.keys, w, pos)
         && (if stage.Inserted? || stage.Shared? then Adding(c, s, w)
             else s.keys + Mine(s, w) == KeysAfter(c, s.keys, w, pos))
  }

  /** The key being inserted is new to its transaction too. */
  ghost predicate Adding(c: Config, s: System, w: nat) {
    && At(c, s, w) && WorkAt(c, s, w).Scorer?
    && var key, before := WorkAt(c, s, w).key, KeysAfter(c, s.keys, w, s.phases[w].pos);
       key in Mine(s, w) && key !in before && s.keys + Mine(s, w) == before + {key}
  }

  ghost predicate OrderOk(c: Config, s: System, order: seq<nat>) {
    && OrderOf(c, order) && |s.phases| == |c.tasks|
    && Distinct(order) && (forall w: nat :: w < |c.tasks| ==> (s.phases[w].Committed? <==> w in order))
    && s.keys == Taken(c, order) && Slots(s.log) == Schedule(c, order)
  }

  ghost predicate Inv(c: Config, s: System, order: seq<nat>) {
    && StagesOk(c, s) && RowsOk(c, s) && LockOk(c, s)
    && (forall k :: k in s.claims ==> ClaimOk(s, k))
    && (forall w: nat :: w < |c.tasks| ==> TurnOk(c, s, w))
    && OrderOk(c, s, order)
  }

  lemma InitialInv(c: Config)
    ensures Inv(c, Initial(c), [])
  {
    assert Slots(Initial(c).log) == [];
    forall w: nat | w < |c.tasks| ensures TurnOk(c, Initial(c), w) {
      assert Slots(DraftsOf(Initial(c), w)) == [];
    }
  }

  lemma StepClaims(c: Config, s: System, step: Step)
    requires Enabled(c, s, step) && forall k :: k in s.claims ==> ClaimOk(s, k)
    ensures var s' := Do(c, s, step); forall k :: k in s'.claims ==> ClaimOk(s', k)
  {
    hide Perform;
    var s' := Do(c, s, step);
    forall k | k in s'.claims ensures ClaimOk(s', k) {
      assert k in s.claims ==> ClaimOk(s, k);
    }
  }

  /** A turn depends on its own worker, and on keys only as far as it takes them. */
  lemma TurnStands(c: Config, s: System, s': System, v: nat, more: set<Key>)
    requires v < |c.tasks| == |s.phases| == |s'.phases| && TurnOk(c, s, v) && more !! Mine(s, v)
    requires s'.phases[v] == s.phases[v] && DraftsOf(s', v) == DraftsOf(s, v) && Mine(s', v) == Mine(s, v)
    requires s'.keys == s.keys + more
    ensures TurnOk(c, s', v)
  {
    hide Mine;
    if s.phases[v].Running? { TurnApart(c, s.keys, more, v, s.phases[v].pos); }
  }

  /** What one worker's step leaves of another's turn. */
  lemma StepOthers(c: Config, s: System, step: Step, v: nat)
    requires Enabled(c, s, step) && StagesOk(c, s) && v < |c.tasks| && v != step.w && TurnOk(c, s, v)
    ensures |Do(c, s, step).phases| == |c.tasks| && TurnOk(c, Do(c, s, step), v)
  {
    hide Perform, TurnOk;
    var s', w := Do(c, s, step), step.w;
    assert StageOk(c, s, w);
    assert Mine(s', v) == Mine(s, v);
    TurnStands(c, s, s', v, if step.Finish? then Mine(s, w) else {});
  }

  /** Skipping a work whose key is taken, or has just been claimed, keeps the turn. */
  lemma StepIndexTurn(c: Config, s: System, step: Step)
    requires Enabled(c, s, step) && StagesOk(c, s) && TurnOk(c, s, step.w)
    requires step.Check? || step.Insert?
    ensures |Do(c, s, step).phases| == |c.tasks| && TurnOk(c, Do(c, s, step), step.w)
  {
    var s', w := Do(c, s, step), step.w;
    var key, pos := WorkAt(c, s, w).key, s.phases[w].pos;
    assert StageOk(c, s, w);
    assert DraftsOf(s', w) == DraftsOf(s, w);
    KeysGrow(c, s.keys, w, pos);
    if s'.claims == s.claims {
      assert Mine(s', w) == Mine(s, w);
    } else {
      assert Mine(s', w) == Mine(s, w) + {key};
      assert key !in Mine(s, w);
    }
  }

  lemma StepWriteTurn(c: Config, s: System, step: Step)
    requires Enabled(c, s, step) && StagesOk(c, s) && TurnOk(c, s, step.w)
    requires step.Add? || step.Fade?
    ensures |Do(c, s, step).phases| == |c.tasks| && TurnOk(c, Do(c, s, step), step.w)
  {
    hide Perform;
    var s', w := Do(c, s, step), step.w;
    assert StageOk(c, s, w);
    assert Mine(s', w) == Mine(s, w);
    assert Slots(s'.drafts) == Slots(DraftsOf(s, w)) + [Slot(w, s.phases[w].pos)];
  }

  lemma StepOwn(c: Config, s: System, step: Step)
    requires Enabled(c, s, step) && StagesOk(c, s) && TurnOk(c, s, step.w)
    requires forall k :: k in s.claims ==> ClaimOk(s, k)
    ensures |Do(c, s, step).phases| == |c.tasks| && TurnOk(c, Do(c, s, step), step.w)
  {
    hide Perform;
    var s', w := Do(c, s, step), step.w;
    assert StageOk(c, s, w);
    match step {
      case Check(_) => StepIndexTurn(c, s, step);
      case Insert(_) => StepIndexTurn(c, s, step);
      case Add(_, _) => StepWriteTurn(c, s, step);
      case Fade(_, _) => StepWriteTurn(c, s, step);
      case Retry(_) =>
        assert DraftsOf(s', w) == [];
        assert Mine(s', w) == {};
      case _ =>
        assert DraftsOf(s', w) == if step.Load? || step.Share? || step.Lock? then DraftsOf(s, w) else [];
        assert step.Load? || step.Share? || step.Lock? ==> Mine(s', w) == Mine(s, w);
    }
  }

  lemma StepOrder(c: Config, s: System, step: Step, order: seq<nat>)
    requires Inv(c, s, order) && Enabled(c, s, step)
    ensures OrderOk(c, Do(c, s, step), if step.Finish? then order + [step.w] else order)
  {
    hide Perform, Serial, Schedule, Taken, StageOk;
    var s', w := Do(c, s, step), step.w;
    assert TurnOk(c, s, w);
    if step.Finish? {
      ScheduleExtends(c, order, w);
      assert Slots(s'.log) == Slots(s.log) + Slots(DraftsOf(s, w));
    }
  }

  lemma ScheduleExtends(c: Config, order: seq<nat>, w: nat)
    requires OrderOf(c, order) && w < |c.tasks|
    ensures OrderOf(c, order + [w])
    ensures Taken(c, order + [w]) == KeysAfter(c, Taken(c, order), w, |c.tasks[w]|)
    ensures Schedule(c, order + [w]) == Schedule(c, order) + Turn(c, Taken(c, order), w, |c.tasks[w]|)
  {
    assert (order + [w])[..|order|] == order;
  }

  lemma StepInv(c: Config, s: System, step: Step, order: seq<nat>)
    requires Inv(c, s, order) && Enabled(c, s, step)
    ensures Inv(c, Do(c, s, step), if step.Finish? then order + [step.w] else order)
  {
    hide StagesOk, RowsOk, LockOk, ClaimOk, OrderOk, TurnOk, Do;
    var s' := Do(c, s, step);
    StepStages(c, s, step);
    StepRows(c, s, step);
    StepLock(c, s, step);
    StepClaims(c, s, step);
    StepOrder(c, s, step, order);
    forall v: nat | v < |c.tasks| ensures |s'.phases| == |c.tasks| && TurnOk(c, s', v) {
      if v == step.w { StepOwn(c, s, step); } else { StepOthers(c, s, step, v); }
    }
  }

  lemma {:induction false} BehaviourInv(c: Config, steps: seq<Step>, states: seq<System>, n: nat)
    requires Behaviour(c, steps, states) && n < |states|
    ensures Inv(c, states[n], CommitOrder(steps[..n]))
  {
    hide Inv, Initial, Do, Enabled;
    if n == 0 {
      InitialInv(c);
    } else {
      BehaviourInv(c, steps, states, n - 1);
      StepInv(c, states[n - 1], steps[n - 1], CommitOrder(steps[..n - 1]));
      assert steps[..n][..n - 1] == steps[..n - 1];
    }
  }

  // ---------------------------------------------------------------- what every interleaving guarantees

  /** In every interleaving the committed row is what the committed transactions would have made of
      it run whole, one after the other, in the order they committed: they write in the same places,
      skip the same duplicates and take the same keys. No delta and no decay is lost. */
  lemma SerialEquivalence(c: Config, steps: seq<Step>, states: seq<System>, n: nat)
    requires Behaviour(c, steps, states) && n < |states|
    ensures var s, order := states[n], CommitOrder(steps[..n]);
      && |s.phases| == |c.tasks| && OrderOf(c, order) && Distinct(order)
      && (forall w: nat :: w < |c.tasks| ==> (w in order <==> s.phases[w].Committed?))
      && LogOk(c, s.log) && s.row == Serial(c, s.log)
      && Slots(s.log) == Schedule(c, order) && s.keys == Taken(c, order)
  {
    hide Perform, Serial, Schedule, Taken, Do, Enabled, StageOk, TurnOk, ClaimOk;
    BehaviourInv(c, steps, states, n);
  }

  /** Write `i` counts key `k`. */
  ghost predicate Counts(c: Config, slots: seq<Slot>, i: nat, k: Key) {
    i < |slots| && SlotOk(c, slots[i]) && WorkOf(c, slots[i]).Scorer? && WorkOf(c, slots[i]).key == k
  }

  ghost predicate Counted(c: Config, slots: seq<Slot>, k: Key) {
    exists i: nat :: Counts(c, slots, i, k)
  }

  ghost predicate CountedOnce(c: Config, slots: seq<Slot>) {
    forall i: nat, j: nat, k :: Counts(c, slots, i, k) && Counts(c, slots, j, k) ==> i == j
  }

  lemma CountsSplit(c: Config, a: seq<Slot>, b: seq<Slot>, i: nat, k: Key)
    requires Counts(c, a + b, i, k)
    ensures if i < |a| then Counted(c, a, k) && Counts(c, a, i, k) else Counted(c, b, k) && Counts(c, b, i - |a|, k)
  {
    if i < |a| { assert Counts(c, a, i, k); } else { assert Counts(c, b, i - |a|, k); }
  }

  lemma CountsConcat(c: Config, a: seq<Slot>, b: seq<Slot>)
    ensures forall k :: Counted(c, a + b, k) <==> Counted(c, a, k) || Counted(c, b, k)
    ensures CountedOnce(c, a) && CountedOnce(c, b) && (forall k :: Counted(c, a, k) ==> !Counted(c, b, k))
      ==> CountedOnce(c, a + b)
  {
    var all := a + b;
    forall i: nat, k | Counts(c, all, i, k)
      ensures if i < |a| then Counted(c, a, k) && Counts(c, a, i, k) else Counted(c, b, k) && Counts(c, b, i - |a|, k)
    {
      CountsSplit(c, a, b, i, k);
    }
    forall i: nat, k | Counts(c, a, i, k) ensures Counts(c, all, i, k) {
    }
    forall i: nat, k | Counts(c, b, i, k) ensures Counts(c, all, i + |a|, k) {
    }
  }

  lemma OneSlot(c: Config, slot: Slot)
    requires SlotOk(c, slot)
    ensures CountedOnce(c, [slot])
    ensures forall k :: Counted(c, [slot], k) <==> WorkOf(c, slot).Scorer? && WorkOf(c, slot).key == k
  {
    forall k ensures Counts(c, [slot], 0, k) <==> WorkOf(c, slot).Scorer? && WorkOf(c, slot).key == k {
    }
    forall k ensures Counted(c, [slot], k) <==> Counts(c, [slot], 0, k) {
    }
  }

  /** A turn counts once each key it takes. */
  lemma {:induction false} TurnCounts(c: Config, keys: set<Key>, w: nat, n: nat)
    requires w < |c.tasks| && n <= |c.tasks[w]|
    ensures CountedOnce(c, Turn(c, keys, w, n))
    ensures forall k :: Counted(c, Turn(c, keys, w, n), k) <==> k in KeysAfter(c, keys, w, n) && k !in keys
  {
    hide CountedOnce, Counted;
    if n == 0 {
      NoSlots(c);
    } else {
      KeysGrow(c, keys, w, n - 1);
      TurnCounts(c, keys, w, n - 1);
      OneSlot(c, Slot(w, n - 1));
      CountsConcat(c, Turn(c, keys, w, n - 1), [Slot(w, n - 1)]);
    }
  }

  lemma NoSlots(c: Config)
    ensures CountedOnce(c, []) && forall k :: !Counted(c, [], k)
  {
  }

  /** A serial run counts once each key that was not counted before it. */
  lemma {:induction false} ScheduleCounts(c: Config, order: seq<nat>)
    requires OrderOf(c, order)
    ensures c.counted <= Taken(c, order) && CountedOnce(c, Schedule(c, order))
    ensures forall k :: Counted(c, Schedule(c, order), k) <==> k in Taken(c, order) && k !in c.counted
  {
    hide CountedOnce, Counted;
    if order == [] {
      NoSlots(c);
    } else {
      var w, before := order[|order| - 1], order[..|order| - 1];
      ScheduleCounts(c, before);
      TurnCounts(c, Taken(c, before), w, |c.tasks[w]|);
      KeysGrow(c, Taken(c, before), w, |c.tasks[w]|);
      CountsConcat(c, Schedule(c, before), Turn(c, Taken(c, before), w, |c.tasks[w]|));
    }
  }

  lemma {:induction false} OwnKeysTaken(c: Config, keys: set<Key>, w: nat, n: nat, pos: nat)
    requires w < |c.tasks| && pos < n <= |c.tasks[w]| && c.tasks[w][pos].Scorer?
    ensures c.tasks[w][pos].key in KeysAfter(c, keys, w, n)
  {
    if pos < n - 1 { OwnKeysTaken(c, keys, w, n - 1, pos); }
  }

  lemma {:induction false} TheirKeysTaken(c: Config, order: seq<nat>, w: nat, pos: nat)
    requires OrderOf(c, order) && w in order && pos < |c.tasks[w]| && c.tasks[w][pos].Scorer?
    ensures c.tasks[w][pos].key in Taken(c, order)
  {
    var last, before := order[|order| - 1], order[..|order| - 1];
    if last == w {
      OwnKeysTaken(c, Taken(c, before), w, |c.tasks[w]|, pos);
    } else {
      TheirKeysTaken(c, before, w, pos);
      KeysGrow(c, Taken(c, before), last, |c.tasks[last]|);
    }
  }

  /** Each key that a committed transaction scored is taken, and it was counted exactly once: never
      here if it was counted before, else by exactly one write. */
  lemma ExactlyOnce(c: Config, steps: seq<Step>, states: seq<System>, n: nat, w: nat, pos: nat)
    requires Behaviour(c, steps, states) && n < |states| && w < |c.tasks| == |states[n].phases|
    requires states[n].phases[w].Committed? && pos < |c.tasks[w]| && c.tasks[w][pos].Scorer?
    ensures var s, k := states[n], c.tasks[w][pos].key;
      && k in s.keys && (Counted(c, Slots(s.log), k) <==> k !in c.counted)
      && (forall i: nat, j: nat :: Counts(c, Slots(s.log), i, k) && Counts(c, Slots(s.log), j, k) ==> i == j)
  {
    hide Counted, Counts, Slots, Perform, Serial, Schedule, Taken, Do, Enabled;
    var order := CommitOrder(steps[..n]);
    SerialEquivalence(c, steps, states, n);
    TheirKeysTaken(c, order, w, pos);
    ScheduleCounts(c, order);
  }

  ghost predicate NoRepeats(slots: seq<Slot>) {
    forall i, j :: 0 <= i < j < |slots| ==> slots[i] != slots[j]
  }

  /** A turn writes its worker's restatements and decays, in their order and each once. */
  lemma {:induction false} TurnWhole(c: Config, keys: set<Key>, w: nat, n: nat)
    requires w < |c.tasks| && n <= |c.tasks[w]|
    ensures var turn := Turn(c, keys, w, n);
      && NoRepeats(turn) && (forall slot :: slot in turn ==> slot.worker == w && slot.pos < n)
      && (forall pos: nat :: pos < n && !c.tasks[w][pos].Scorer? ==> Slot(w, pos) in turn)
  {
    if n > 0 { TurnWhole(c, keys, w, n - 1); }
  }

  lemma {:induction false} ScheduleWhole(c: Config, order: seq<nat>)
    requires OrderOf(c, order) && Distinct(order)
    ensures var slots := Schedule(c, order);
      && NoRepeats(slots) && (forall slot :: slot in slots ==> slot.worker in order)
      && (forall w: nat, pos: nat ::
            w in order && pos < |c.tasks[w]| && !c.tasks[w][pos].Scorer? ==> Slot(w, pos) in slots)
  {
    if order != [] {
      var w, before := order[|order| - 1], order[..|order| - 1];
      ScheduleWhole(c, before);
      TurnWhole(c, Taken(c, before), w, |c.tasks[w]|);
    }
  }

  /** Nothing is written twice, only committed transactions have written, and every restatement and
      decay of one that committed is in the row. */
  lemma NothingLost(c: Config, steps: seq<Step>, states: seq<System>, n: nat)
    requires Behaviour(c, steps, states) && n < |states|
    ensures var s, slots := states[n], Slots(states[n].log);
      && |s.phases| == |c.tasks| && NoRepeats(slots)
      && (forall slot :: slot in slots ==> slot.worker < |c.tasks| && s.phases[slot.worker].Committed?)
      && (forall w: nat, pos: nat ::
            w < |c.tasks| && s.phases[w].Committed? && pos < |c.tasks[w]| && !c.tasks[w][pos].Scorer?
            ==> Slot(w, pos) in slots)
  {
    hide Slots, Perform, Serial, Schedule, Taken, Do, Enabled, NoRepeats;
    SerialEquivalence(c, steps, states, n);
    ScheduleWhole(c, CommitOrder(steps[..n]));
  }
}
