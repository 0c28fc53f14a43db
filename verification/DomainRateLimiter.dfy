/** The per-domain limiter as interleaved steps of any number of waiters.

    A waiter takes its domain's lock, reads the clock, sleeps while holding the lock if the last
    grant is too recent, and records the clock again before it releases the lock. Sleeps last at
    least as long as asked, and a sleeping waiter may be cancelled. */
module DomainRateLimiter {
  import opened Wrappers

  type Domain = string

  /** `domains[w]` is the domain waiter w is going to request. */
  datatype Config = Config(interval: real, domains: seq<Domain>)

  datatype Phase = Waiting | Ready | Sleeping(until: real) | Granted | Cancelled

  datatype Grant = Grant(domain: Domain, at: real)

  datatype System = System(
    clock: real, last: map<Domain, real>, locks: map<Domain, nat>, phases: seq<Phase>, grants: seq<Grant>)

  datatype Step = Tick(elapsed: real) | Acquire(w: nat) | Record(w: nat) | Cancel(w: nat)

  function Initial(c: Config): System {
    System(0.0, map[], map[], seq(|c.domains|, _ => Waiting), [])
  }

  predicate Enabled(c: Config, s: System, step: Step) {
    match step
    case Tick(elapsed) => elapsed >= 0.0
    case Acquire(w) => w < |c.domains| == |s.phases| && s.phases[w].Waiting? && c.domains[w] !in s.locks
    case Record(w) =>
      w < |c.domains| == |s.phases| && (s.phases[w].Ready? || (s.phases[w].Sleeping? && s.phases[w].until <= s.clock))
    case Cancel(w) => w < |c.domains| == |s.phases| && (s.phases[w].Waiting? || s.phases[w].Sleeping?)
  }

  function Do(c: Config, s: System, step: Step): System
    requires Enabled(c, s, step)
  {
    match step
    case Tick(elapsed) => s.(clock := s.clock + elapsed)
    case Acquire(w) =>
      var d := c.domains[w];
      var remaining := if d in s.last then c.interval - (s.clock - s.last[d]) else 0.0;
      s.(locks := s.locks[d := w],
         phases := s.phases[w := if remaining > 0.0 then Sleeping(s.clock + remaining) else Ready])
    case Record(w) =>
      var d := c.domains[w];
      s.(last := s.last[d := s.clock], locks := s.locks - {d}, phases := s.phases[w := Granted],
         grants := s.grants + [Grant(d, s.clock)])
    case Cancel(w) =>
      s.(locks := if s.phases[w].Sleeping? then s.locks - {c.domains[w]} else s.locks,
         phases := s.phases[w := Cancelled])
  }

  /** The state after a schedule; a step that cannot be taken is skipped. */
  function Exec(c: Config, steps: seq<Step>): System {
    if steps == [] then Initial(c)
    else
      var s := Exec(c, steps[..|steps| - 1]);
      if Enabled(c, s, steps[|steps| - 1]) then Do(c, s, steps[|steps| - 1]) else s
  }

  /** Every step of the schedule can be taken when its turn comes. */
  ghost predicate Schedule(c: Config, steps: seq<Step>) {
    steps == [] ||
    (Schedule(c, steps[..|steps| - 1]) && Enabled(c, Exec(c, steps[..|steps| - 1]), steps[|steps| - 1]))
  }

  // ---------------------------------------------------------------- spacing

  ghost predicate WaiterOk(c: Config, s: System, w: nat)
    requires w < |c.domains| == |s.phases|
  {
    var d, phase := c.domains[w], s.phases[w];
    && (phase.Ready? || phase.Sleeping? <==> d in s.locks && s.locks[d] == w)
    && (phase.Ready? ==> d in s.last ==> s.last[d] + c.interval <= s.clock)
    && (phase.Sleeping? ==> d in s.last && phase.until == s.last[d] + c.interval)
  }

  ghost predicate Spaced(c: Config, grants: seq<Grant>) {
    forall i, j :: 0 <= i < j < |grants| && grants[i].domain == grants[j].domain ==>
      grants[i].at + c.interval <= grants[j].at
  }

  ghost predicate LastOk(s: System) {
    && (forall i :: 0 <= i < |s.grants| ==>
          s.grants[i].domain in s.last && s.grants[i].at <= s.last[s.grants[i].domain])
    && (forall d :: d in s.last ==> s.last[d] <= s.clock)
  }

  ghost predicate Inv(c: Config, s: System) {
    && |s.phases| == |c.domains|
    && (forall w: nat :: w < |c.domains| ==> WaiterOk(c, s, w))
    && (forall d :: d in s.locks ==> s.locks[d] < |c.domains| && c.domains[s.locks[d]] == d)
    && LastOk(s) && Spaced(c, s.grants)
  }

  lemma StepInv(c: Config, s: System, step: Step)
    requires c.interval >= 0.0 && Inv(c, s) && Enabled(c, s, step)
    ensures Inv(c, Do(c, s, step))
  {
    var s' := Do(c, s, step);
    if !step.Tick? { assert WaiterOk(c, s, step.w); }
    forall w: nat | w < |c.domains| ensures WaiterOk(c, s', w) {
      assert WaiterOk(c, s, w);
    }
  }

  /** In every interleaving successive grants of one domain are at least the interval apart, and
      a waiter that sleeps does so to the exact end of that interval, never longer. */
  lemma {:induction false} GrantsSpaced(c: Config, steps: seq<Step>)
    requires c.interval >= 0.0 && Schedule(c, steps)
    ensures Inv(c, Exec(c, steps))
    ensures Spaced(c, Exec(c, steps).grants)
  {
    if steps != [] {
      GrantsSpaced(c, steps[..|steps| - 1]);
      StepInv(c, Exec(c, steps[..|steps| - 1]), steps[|steps| - 1]);
    }
  }

  /** Nobody waits longer than the interval asks: in every schedule a waiter that has its domain's
      turn can be granted if and only if the last grant is an interval ago, and a waiter can take
      the turn if and only if no other has it. */
  lemma GrantedOnTime(c: Config, steps: seq<Step>, w: nat)
    requires c.interval >= 0.0 && Schedule(c, steps) && w < |c.domains|
    ensures var s, d := Exec(c, steps), c.domains[w];
      && |s.phases| == |c.domains|
      && (s.phases[w].Ready? || s.phases[w].Sleeping? ==>
            (Enabled(c, s, Record(w)) <==> d !in s.last || s.last[d] + c.interval <= s.clock))
      && (s.phases[w].Waiting? ==>
            (Enabled(c, s, Acquire(w)) <==>
               forall v: nat :: v < |c.domains| && c.domains[v] == d ==>
                 !s.phases[v].Ready? && !s.phases[v].Sleeping?))
  {
    hide Exec, Schedule, Spaced, LastOk;
    GrantsSpaced(c, steps);
    var s, d := Exec(c, steps), c.domains[w];
    assert WaiterOk(c, s, w);
    if d in s.locks {
      var v: nat := s.locks[d];
      assert WaiterOk(c, s, v) && c.domains[v] == d;
    } else {
      forall v: nat | v < |c.domains| && c.domains[v] == d ensures !s.phases[v].Ready? && !s.phases[v].Sleeping? {
        assert WaiterOk(c, s, v);
      }
    }
  }

  // ---------------------------------------------------------------- independence

  /** Everything a waiter of domain d can see. */
  datatype View = View(
    clock: real, last: Option<real>, lock: Option<nat>, phases: seq<Option<Phase>>, grants: seq<Grant>)

  function Mine(grants: seq<Grant>, d: Domain): seq<Grant> {
    if grants == [] then []
    else
      var g := grants[|grants| - 1];
      Mine(grants[..|grants| - 1], d) + if g.domain == d then [g] else []
  }

  function ViewOf(c: Config, s: System, d: Domain): View {
    View(s.clock,
         if d in s.last then Some(s.last[d]) else None,
         if d in s.locks then Some(s.locks[d]) else None,
         PhasesOf(c, s.phases, d),
         Mine(s.grants, d))
  }

  predicate Concerns(c: Config, step: Step, d: Domain) {
    step.Tick? || (step.w < |c.domains| && c.domains[step.w] == d)
  }

  function Only(c: Config, steps: seq<Step>, d: Domain): seq<Step> {
    if steps == [] then []
    else Only(c, steps[..|steps| - 1], d)
         + (if Concerns(c, steps[|steps| - 1], d) then [steps[|steps| - 1]] else [])
  }

  lemma OtherDomainsInvisible(c: Config, s: System, step: Step, d: Domain)
    requires Enabled(c, s, step) && !Concerns(c, step, d)
    ensures ViewOf(c, Do(c, s, step), d) == ViewOf(c, s, d)
  {
    hide PhasesOf, Mine;
    var s' := Do(c, s, step);
    OtherPhases(c, s.phases, step.w, s'.phases[step.w], d);
    if step.Record? { OtherGrants(s.grants, c.domains[step.w], d, s.clock); }
  }

  lemma OtherPhases(c: Config, phases: seq<Phase>, w: nat, phase: Phase, d: Domain)
    requires w < |phases| && w < |c.domains| && c.domains[w] != d
    ensures PhasesOf(c, phases[w := phase], d) == PhasesOf(c, phases, d)
  {
  }

  lemma OtherGrants(grants: seq<Grant>, other: Domain, d: Domain, at: real)
    requires other != d
    ensures Mine(grants + [Grant(other, at)], d) == Mine(grants, d)
  {
    assert (grants + [Grant(other, at)])[..|grants|] == grants;
    assert Mine(grants, d) + [] == Mine(grants, d);
  }

  /** What a waiter of d asks of the state it steps from is in its view. */
  lemma SameViewSameFacts(c: Config, s: System, t: System, w: nat, d: Domain)
    requires ViewOf(c, s, d) == ViewOf(c, t, d) && w < |c.domains| && c.domains[w] == d
    ensures |s.phases| == |t.phases| && s.clock == t.clock && Mine(s.grants, d) == Mine(t.grants, d)
    ensures w < |s.phases| ==> s.phases[w] == t.phases[w]
    ensures (d in s.last <==> d in t.last) && (d in s.last ==> s.last[d] == t.last[d])
    ensures (d in s.locks <==> d in t.locks) && (d in s.locks ==> s.locks[d] == t.locks[d])
  {
    var u, v := ViewOf(c, s, d), ViewOf(c, t, d);
    assert |s.phases| == |u.phases| == |v.phases| == |t.phases|;
    assert w < |s.phases| ==> u.phases[w] == v.phases[w];
  }

  lemma SameViewEnabled(c: Config, s: System, t: System, step: Step, d: Domain)
    requires ViewOf(c, s, d) == ViewOf(c, t, d) && Concerns(c, step, d) && Enabled(c, s, step)
    ensures Enabled(c, t, step)
  {
    hide ViewOf;
    if !step.Tick? { SameViewSameFacts(c, s, t, step.w, d); }
  }

  function PhasesOf(c: Config, phases: seq<Phase>, d: Domain): seq<Option<Phase>> {
    seq(|phases|, w requires 0 <= w < |phases| =>
      if w < |c.domains| && c.domains[w] == d then Some(phases[w]) else None)
  }

  lemma PhaseChange(c: Config, phases: seq<Phase>, w: nat, phase: Phase, d: Domain)
    requires w < |phases| && w < |c.domains| && c.domains[w] == d
    ensures PhasesOf(c, phases[w := phase], d) == PhasesOf(c, phases, d)[w := Some(phase)]
  {
  }

  lemma OneMoreGrant(grants: seq<Grant>, d: Domain, at: real)
    ensures Mine(grants + [Grant(d, at)], d) == Mine(grants, d) + [Grant(d, at)]
  {
    assert (grants + [Grant(d, at)])[..|grants|] == grants;
  }

  /** The view after a step of d's own is a function of the view before it. */
  lemma ViewAfter(c: Config, s: System, step: Step, d: Domain)
    requires Concerns(c, step, d) && Enabled(c, s, step)
    ensures var v, s' := ViewOf(c, s, d), Do(c, s, step);
      ViewOf(c, s', d) ==
        match step
        case Tick(elapsed) => v.(clock := v.clock + elapsed)
        case Acquire(w) =>
          v.(lock := Some(w), phases := v.phases[w := Some(s'.phases[w])])
        case Record(w) =>
          v.(last := Some(v.clock), lock := None, phases := v.phases[w := Some(Granted)],
             grants := v.grants + [Grant(d, v.clock)])
        case Cancel(w) =>
          v.(lock := if s.phases[w].Sleeping? then None else v.lock, phases := v.phases[w := Some(Cancelled)])
  {
    if !step.Tick? { PhaseChange(c, s.phases, step.w, Do(c, s, step).phases[step.w], d); }
    if step.Record? { OneMoreGrant(s.grants, d, s.clock); }
  }

  lemma SamePhase(c: Config, s: System, t: System, step: Step, d: Domain)
    requires ViewOf(c, s, d) == ViewOf(c, t, d) && Concerns(c, step, d) && step.Acquire?
    requires Enabled(c, s, step) && Enabled(c, t, step)
    ensures Do(c, s, step).phases[step.w] == Do(c, t, step).phases[step.w]
  {
    hide ViewOf;
    SameViewSameFacts(c, s, t, step.w, d);
  }

  lemma SameViewSameStep(c: Config, s: System, t: System, step: Step, d: Domain)
    requires ViewOf(c, s, d) == ViewOf(c, t, d) && Concerns(c, step, d) && Enabled(c, s, step)
    ensures Enabled(c, t, step) && ViewOf(c, Do(c, s, step), d) == ViewOf(c, Do(c, t, step), d)
  {
    hide ViewOf, Do;
    SameViewEnabled(c, s, t, step, d);
    ViewAfter(c, s, step, d);
    ViewAfter(c, t, step, d);
    if step.Acquire? { SamePhase(c, s, t, step, d); }
    if !step.Tick? { SameViewSameFacts(c, s, t, step.w, d); }
  }

  /** Different domains never delay each other: striking every other domain's steps from an
      interleaving leaves one in which this domain's waiters see, and are granted, exactly the
      same at exactly the same times. */
  lemma {:induction false} DomainsIndependent(c: Config, steps: seq<Step>, d: Domain)
    requires Schedule(c, steps)
    ensures Schedule(c, Only(c, steps, d))
    ensures ViewOf(c, Exec(c, Only(c, steps, d)), d) == ViewOf(c, Exec(c, steps), d)
  {
    hide Do, Enabled, ViewOf;
    if steps != [] {
      var init, step := steps[..|steps| - 1], steps[|steps| - 1];
      DomainsIndependent(c, init, d);
      if Concerns(c, step, d) {
        SameViewSameStep(c, Exec(c, init), Exec(c, Only(c, init, d)), step, d);
        assert Only(c, steps, d)[..|Only(c, init, d)|] == Only(c, init, d);
      } else {
        OtherDomainsInvisible(c, Exec(c, init), step, d);
        assert Only(c, steps, d) == Only(c, init, d);
      }
    }
  }
}
