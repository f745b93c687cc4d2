/**
 * Calls of one circuit breaker that overlap in time (backend/src/circuit_breaker.rs):
 * the counter of active half-open probes, which guards decrement on drop and
 * transitions set to zero.
 *
 * Every atomic operation is one step, so a call may act on a state it read earlier.
 * Whether the open duration has passed is part of the action: time is up to the run.
 */
module HalfOpenProbes {

  import opened Wrappers
  import opened Counting
  import opened CircuitBreaker

  const U64: nat := 0x1_0000_0000_0000_0000

  /** The three settings are 32-bit numbers. */
  type u32 = n: nat | n < 0x1_0000_0000

  datatype Config = Config(failureThreshold: u32, successThreshold: u32, halfOpenMax: u32)

  /** Where a call stands. The comment names the step it takes next. */
  datatype Pc =
    | Moving(to: State)       // transition: read the state, return if it is already `to`
    | Storing(to: State)      // transition: state.store
    | Trying                  // try_acquire_half_open_permit
    | Running(guarded: bool)  // the operation returns and the permit is dropped
    | Reporting(ok: bool)     // clear the other consecutive count
    | Looking(ok: bool)       // on_success or on_failure: read the state
    | Adding(ok: bool)        // fetch_add on the consecutive count
    | Clearing                // consecutive_successes.store(0) before closing
    | Forgetting              // transition to closed: consecutive_failures.store(0)
    | Resetting               // transition to open or closed: half_open_active.store(0)

  datatype System = System(state: State, active: nat, failures: nat, successes: nat, calls: map<nat, Pc>)

  datatype Action =
    | Arrive(t: nat, elapsed: bool)  // acquire_call_permit: read the state
    | Try(t: nat)
    | Finish(t: nat, ok: bool)
    | Reset(t: nat)
    | Advance(t: nat)                // any other step

  function CapOf(cfg: Config): nat {
    if cfg.halfOpenMax == 0 then 1 else cfg.halfOpenMax
  }

  /** The call goes on at `pc`. */
  function Goes(s: System, t: nat, pc: Pc): System {
    s.(calls := s.calls[t := pc])
  }

  /** The call returns. */
  function Leaves(s: System, t: nat): System {
    s.(calls := s.calls - {t})
  }

  function Step(cfg: Config, s: System, a: Action): Option<System> {
    if a.Arrive? then
      if a.t in s.calls then None
      else
        match s.state
        case Closed => Some(Goes(s, a.t, Running(false)))
        case HalfOpen => Some(Goes(s, a.t, Trying))
        case Open => Some(if a.elapsed then Goes(s, a.t, Moving(HalfOpen)) else s)
    else if a.t !in s.calls then None
    else StepOf(cfg, s, a, s.calls[a.t])
  }

  /** Steps of a call already under way, standing at `pc`. */
  function StepOf(cfg: Config, s: System, a: Action, pc: Pc): Option<System>
    requires !a.Arrive?
  {
    match a
    case Try(t) =>
      if !pc.Trying? then None
      else if s.active >= CapOf(cfg) then Some(Leaves(s, t))
      else Some(Goes(s.(active := s.active + 1), t, Running(true)))
    case Finish(t, ok) =>
      if !pc.Running? then None
      else
        var active := if !pc.guarded then s.active else if s.active == 0 then U64 - 1 else s.active - 1;
        Some(Goes(s.(active := active), t, Reporting(ok)))
    case Reset(t) =>
      if !pc.Resetting? then None else Some(Leaves(s.(active := 0), t))
    case Advance(t) => Advanced(cfg, s, t, pc)
  }

  /** The steps that leave the counter of active probes alone. */
  function Advanced(cfg: Config, s: System, t: nat, pc: Pc): Option<System> {
    match pc
    case Moving(to) =>
      Some(
        if s.state != to then Goes(s, t, Storing(to))
        else if to == HalfOpen then Goes(s, t, Trying) else Leaves(s, t))
    case Storing(to) =>
      var next := match to case HalfOpen => Trying case Closed => Forgetting case Open => Resetting;
      Some(Goes(s.(state := to), t, next))
    case Reporting(ok) =>
      Some(Goes(if ok then s.(failures := 0) else s.(successes := 0), t, Looking(ok)))
    case Looking(ok) =>
      Some(
        if ok then if s.state == HalfOpen then Goes(s, t, Adding(true)) else Leaves(s, t)
        else
          match s.state
          case Closed => Goes(s, t, Adding(false))
          case HalfOpen => Goes(s, t, Moving(Open))
          case Open => Leaves(s, t))
    case Adding(ok) =>
      Some(
        if ok then
          var s' := s.(successes := s.successes + 1);
          if s'.successes >= cfg.successThreshold then Goes(s', t, Clearing) else Leaves(s', t)
        else
          var s' := s.(failures := s.failures + 1);
          if s'.failures >= cfg.failureThreshold then Goes(s', t, Moving(Open)) else Leaves(s', t))
    case Clearing => Some(Goes(s.(successes := 0), t, Moving(Closed)))
    case Forgetting => Some(Goes(s.(failures := 0), t, Resetting))
    case _ => None
  }

  const INITIAL: System := System(Closed, 0, 0, 0, map[])

  function RunFrom(cfg: Config, s: System, actions: seq<Action>): Option<System> {
    if actions == [] then Some(s)
    else
      match RunFrom(cfg, s, actions[..|actions| - 1])
      case None => None
      case Some(s') => Step(cfg, s', actions[|actions| - 1])
  }

  function Run(cfg: Config, actions: seq<Action>): Option<System> {
    RunFrom(cfg, INITIAL, actions)
  }

  lemma {:induction false} RunPrefix(cfg: Config, actions: seq<Action>, n: nat)
    requires n <= |actions| && Run(cfg, actions).Some?
    ensures Run(cfg, actions[..n]).Some?
    ensures n < |actions| ==>
      && Step(cfg, Run(cfg, actions[..n]).value, actions[n]).Some?
      && Run(cfg, actions[..n + 1]) == Step(cfg, Run(cfg, actions[..n]).value, actions[n])
    decreases |actions| - n
  {
    hide Step;
    if n == |actions| {
      assert actions[..n] == actions;
    } else {
      RunPrefix(cfg, actions, n + 1);
      assert actions[..n + 1][..n] == actions[..n];
    }
  }

  // ---------------------------------------------------------------------
  // Every call returns
  // ---------------------------------------------------------------------

  /** Steps a call at `pc` may still have before it. */
  function Left(pc: Pc): nat {
    match pc
    case Moving(to) => if to == HalfOpen then 12 else 4
    case Storing(to) => if to == HalfOpen then 11 else 3
    case Trying => 10
    case Running(_) => 9
    case Reporting(_) => 8
    case Looking(_) => 7
    case Adding(_) => 6
    case Clearing => 5
    case Forgetting => 2
    case Resetting => 1
  }

  /** The step a call at `pc` takes next. */
  function NextOf(t: nat, pc: Pc, ok: bool): Action {
    match pc
    case Trying => Try(t)
    case Running(_) => Finish(t, ok)
    case Resetting => Reset(t)
    case _ => Advance(t)
  }

  /**
   * No call waits for another: whatever the state, a call under way can take its next step,
   * which leaves the other calls where they are and brings this one closer to returning.
   */
  lemma EveryCallMovesOn(cfg: Config, s: System, t: nat, ok: bool)
    requires t in s.calls
    ensures
      var next := Step(cfg, s, NextOf(t, s.calls[t], ok));
      && next.Some?
      && next.value.calls - {t} == s.calls - {t}
      && (t in next.value.calls ==> Left(next.value.calls[t]) < Left(s.calls[t]))
  {
  }

  /** And it can take no other. */
  lemma OnlyNextStep(cfg: Config, s: System, a: Action)
    requires !a.Arrive? && Step(cfg, s, a).Some?
    ensures a in {NextOf(a.t, s.calls[a.t], true), NextOf(a.t, s.calls[a.t], false)}
  {
  }

  /** A transition to the state the breaker is in changes nothing; a probe then still asks for its permit. */
  lemma AlreadyThere(cfg: Config, s: System, t: nat)
    requires t in s.calls && s.calls[t] == Moving(s.state)
    ensures
      var next := Step(cfg, s, Advance(t));
      && next.Some? && next.value.(calls := s.calls) == s
      && next.value.calls == if s.state == HalfOpen then s.calls[t := Trying] else s.calls - {t}
  {
  }

  // ---------------------------------------------------------------------
  // The counter
  // ---------------------------------------------------------------------

  predicate IsProbe(pc: Pc) { pc == Running(true) }

  /** Probes running now: each holds a guard. */
  ghost function Probes(s: System): nat { Count(s.calls, IsProbe) }

  /** One step changes the number of probes by what its call contributes before and after. */
  lemma ProbesOfStep(cfg: Config, s: System, a: Action)
    requires Step(cfg, s, a).Some?
    ensures
      var s' := Step(cfg, s, a).value;
      Probes(s') == Probes(s)
        + (if a.Try? && s.active < (if cfg.halfOpenMax == 0 then 1 else cfg.halfOpenMax) then 1 else 0)
        - (if a.Finish? && s.calls[a.t].guarded then 1 else 0)
  {
    var s' := Step(cfg, s, a).value;
    if a.t in s.calls {
      if a.t in s'.calls {
        CountMove(s.calls, a.t, s'.calls[a.t], IsProbe);
      } else {
        CountLeave(s.calls, a.t, IsProbe);
      }
    } else if a.t in s'.calls {
      CountArrive(s.calls, a.t, s'.calls[a.t], IsProbe);
    }
  }

  /** In every state of the run the counter is the number of probes running. */
  ghost predicate AlwaysExact(cfg: Config, actions: seq<Action>)
    requires Run(cfg, actions).Some?
  {
    forall n :: 0 <= n <= |actions| ==> ExactAt(cfg, actions[..n])
  }

  ghost predicate ExactAt(cfg: Config, actions: seq<Action>) {
    Run(cfg, actions).Some? ==>
      var s := Run(cfg, actions).value;
      s.active == Probes(s)
  }

  /** No probe is running when a transition sets the counter to zero. */
  ghost predicate CleanResets(cfg: Config, actions: seq<Action>)
    requires Run(cfg, actions).Some?
  {
    forall n :: 0 <= n < |actions| && actions[n].Reset? ==> CleanAt(cfg, actions[..n])
  }

  ghost predicate CleanAt(cfg: Config, actions: seq<Action>) {
    Run(cfg, actions).Some? ==> Probes(Run(cfg, actions).value) == 0
  }

  /** A guarded call is counted, so a step never takes an exact counter below zero. */
  lemma ExactStep(cfg: Config, s: System, a: Action)
    requires s.active == Probes(s) && Step(cfg, s, a).Some?
    ensures
      var s' := Step(cfg, s, a).value;
      s'.active == Probes(s') <==> (a.Reset? ==> Probes(s) == 0)
  {
    ProbesOfStep(cfg, s, a);
  }

  lemma {:induction false} CleanMeansExact(cfg: Config, actions: seq<Action>, n: nat)
    requires Run(cfg, actions).Some? && CleanResets(cfg, actions) && n <= |actions|
    ensures ExactAt(cfg, actions[..n])
  {
    if n == 0 {
      assert actions[..0] == [];
      CountOfNone(INITIAL.calls, IsProbe);
    } else {
      hide Step, Run, Probes, CleanResets, ExactAt, CleanAt;
      CleanMeansExact(cfg, actions, n - 1);
      CleanBefore(cfg, actions, n - 1);
      ExactOneMore(cfg, actions, n - 1);
    }
  }

  lemma ExactOneMore(cfg: Config, actions: seq<Action>, n: nat)
    requires Run(cfg, actions).Some? && n < |actions| && ExactAt(cfg, actions[..n])
    requires actions[n].Reset? ==> CleanAt(cfg, actions[..n])
    ensures ExactAt(cfg, actions[..n + 1])
  {
    hide Step, Run, Probes;
    RunPrefix(cfg, actions, n);
    ExactStep(cfg, Run(cfg, actions[..n]).value, actions[n]);
  }

  lemma CleanBefore(cfg: Config, actions: seq<Action>, n: nat)
    requires Run(cfg, actions).Some? && CleanResets(cfg, actions) && n < |actions|
    ensures actions[n].Reset? ==> CleanAt(cfg, actions[..n])
  {
  }

  /**
   * The exact condition: the counter is the number of running probes throughout a run if and only
   * if no probe is running whenever a transition sets it to zero.
   */
  lemma ExactlyWhenClean(cfg: Config, actions: seq<Action>)
    requires Run(cfg, actions).Some?
    ensures AlwaysExact(cfg, actions) <==> CleanResets(cfg, actions)
  {
    hide Step, Run, Probes;
    if CleanResets(cfg, actions) {
      forall n | 0 <= n <= |actions|
        ensures ExactAt(cfg, actions[..n])
      {
        CleanMeansExact(cfg, actions, n);
      }
    }
    if AlwaysExact(cfg, actions) {
      forall n | 0 <= n < |actions| && actions[n].Reset?
        ensures CleanAt(cfg, actions[..n])
      {
        assert ExactAt(cfg, actions[..n]) && ExactAt(cfg, actions[..n + 1]);
        RunPrefix(cfg, actions, n);
        ExactStep(cfg, Run(cfg, actions[..n]).value, actions[n]);
      }
    }
  }

  lemma CapStep(cfg: Config, s: System, a: Action)
    requires s.active == Probes(s) && s.active <= CapOf(cfg) && Step(cfg, s, a).Some?
    ensures Step(cfg, s, a).value.active <= CapOf(cfg)
  {
    ProbesOfStep(cfg, s, a);
  }

  lemma CapOneMore(cfg: Config, actions: seq<Action>, n: nat)
    requires Run(cfg, actions).Some? && n < |actions| && ExactAt(cfg, actions[..n])
    requires Run(cfg, actions[..n]).Some? && Run(cfg, actions[..n]).value.active <= CapOf(cfg)
    ensures Run(cfg, actions[..n + 1]).Some? && Run(cfg, actions[..n + 1]).value.active <= CapOf(cfg)
  {
    hide Step, Run, Probes, CapOf;
    RunPrefix(cfg, actions, n);
    CapStep(cfg, Run(cfg, actions[..n]).value, actions[n]);
  }

  lemma {:induction false} ActiveWithinCap(cfg: Config, actions: seq<Action>, n: nat)
    requires Run(cfg, actions).Some? && CleanResets(cfg, actions) && n <= |actions|
    ensures Run(cfg, actions[..n]).Some?
    ensures Run(cfg, actions[..n]).value.active <= CapOf(cfg)
  {
    if n == 0 {
      assert actions[..0] == [];
    } else {
      hide Step, Run, Probes, CleanResets, ExactAt, CapOf;
      ActiveWithinCap(cfg, actions, n - 1);
      CleanMeansExact(cfg, actions, n - 1);
      CapOneMore(cfg, actions, n - 1);
    }
  }

  /** Then at most `max(1, half_open_max_requests)` probes ever run at once. */
  lemma ProbesWithinCap(cfg: Config, actions: seq<Action>, n: nat)
    requires Run(cfg, actions).Some? && CleanResets(cfg, actions) && n <= |actions|
    ensures Run(cfg, actions[..n]).Some?
    ensures Probes(Run(cfg, actions[..n]).value) <= if cfg.halfOpenMax == 0 then 1 else cfg.halfOpenMax
  {
    hide Run, Probes;
    ActiveWithinCap(cfg, actions, n);
    CleanMeansExact(cfg, actions, n);
  }

  // ---------------------------------------------------------------------
  // What an unclean reset leads to
  // ---------------------------------------------------------------------

  /** Steps that can only end in an attempt to get a permit. */
  predicate OnlyTries(pc: Pc) { pc == Trying || pc == Moving(HalfOpen) || pc == Storing(HalfOpen) }

  /** Half-open, no operation running or ending, and no room for a probe. */
  ghost predicate Wedged(cfg: Config, s: System) {
    s.state == HalfOpen && s.active >= CapOf(cfg) && forall t :: t in s.calls ==> OnlyTries(s.calls[t])
  }

  /** A wedged breaker stays so whatever is called later: every call is turned away. */
  lemma {:induction false} WedgedForGood(cfg: Config, s: System, actions: seq<Action>)
    requires Wedged(cfg, s) && RunFrom(cfg, s, actions).Some?
    ensures Wedged(cfg, RunFrom(cfg, s, actions).value)
  {
    if actions != [] {
      WedgedForGood(cfg, s, actions[..|actions| - 1]);
    }
  }

  /** Steps of a call that has not decided to leave the open state. */
  predicate Outgoing(pc: Pc) {
    pc.Running? || pc.Reporting? || pc.Looking? || pc in {Adding(false), Moving(Open), Storing(Open), Resetting}
  }

  /** An open breaker all of whose calls are on their way out. */
  ghost predicate Shut(s: System) {
    s.state == Open && forall t :: t in s.calls ==> Outgoing(s.calls[t])
  }

  /**
   * While the open duration has not passed, an open breaker stays open and starts no operation:
   * what runs later was running before.
   */
  lemma {:induction false} OpenStaysShut(cfg: Config, s: System, actions: seq<Action>)
    requires Shut(s) && RunFrom(cfg, s, actions).Some?
    requires forall i :: 0 <= i < |actions| && actions[i].Arrive? ==> !actions[i].elapsed
    ensures
      var s' := RunFrom(cfg, s, actions).value;
      && Shut(s')
      && (forall t :: t in s'.calls ==> t in s.calls)
      && (forall t :: t in s'.calls && s'.calls[t].Running? ==> s'.calls[t] == s.calls[t])
  {
    if actions != [] {
      OpenStaysShut(cfg, s, actions[..|actions| - 1]);
      assert actions[|actions| - 1].Arrive? ==> !actions[|actions| - 1].elapsed;
    }
  }

  ghost predicate Leads(cfg: Config, s: System, s': System) {
    exists actions :: RunFrom(cfg, s, actions) == Some(s')
  }

  lemma {:induction false} RunConcat(cfg: Config, s: System, a: seq<Action>, b: seq<Action>)
    requires RunFrom(cfg, s, a).Some?
    ensures RunFrom(cfg, s, a + b) == RunFrom(cfg, RunFrom(cfg, s, a).value, b)
  {
    hide Step;
    if b == [] {
      assert a + b == a;
    } else {
      RunConcat(cfg, s, a, b[..|b| - 1]);
      assert (a + b)[..|a + b| - 1] == a + b[..|b| - 1];
    }
  }

  lemma LeadsOn(cfg: Config, s: System, m: System, s': System)
    requires Leads(cfg, s, m) && Leads(cfg, m, s')
    ensures Leads(cfg, s, s')
  {
    var a :| RunFrom(cfg, s, a) == Some(m);
    var b :| RunFrom(cfg, m, b) == Some(s');
    RunConcat(cfg, s, a, b);
  }

  lemma LeadsNowhere(cfg: Config, s: System)
    ensures Leads(cfg, s, s)
  {
    assert RunFrom(cfg, s, []) == Some(s);
  }

  /** One more step. */
  lemma ThenStep(cfg: Config, s: System, m: System, a: Action, s': System)
    requires Leads(cfg, s, m) && Step(cfg, m, a) == Some(s')
    ensures Leads(cfg, s, s')
  {
    var actions :| RunFrom(cfg, s, actions) == Some(m);
    assert (actions + [a])[..|actions|] == actions;
    assert RunFrom(cfg, s, actions + [a]) == Some(s');
  }

  /** A call going on twice has gone on once; one that goes on and returns is gone. */
  lemma SameCall(s: System, t: nat, pc: Pc, pc': Pc)
    ensures Goes(Goes(s, t, pc), t, pc') == Goes(s, t, pc')
    ensures Leaves(Goes(s, t, pc), t) == Leaves(s, t)
    ensures t !in s.calls ==> Leaves(s, t) == s
  {
    assert t !in s.calls ==> s.calls - {t} == s.calls;
  }

  /** Taking its steps, a call returns and leaves the other calls where they are. */
  lemma {:induction false} EveryCallReturns(cfg: Config, s: System, t: nat, ok: bool) returns (s': System)
    requires t in s.calls
    ensures Leads(cfg, s, s') && s'.calls == s.calls - {t}
    decreases Left(s.calls[t])
  {
    EveryCallMovesOn(cfg, s, t, ok);
    hide Leads, Step, Left;
    var a := NextOf(t, s.calls[t], ok);
    var m := Step(cfg, s, a).value;
    LeadsNowhere(cfg, s);
    ThenStep(cfg, s, s, a, m);
    if t in m.calls {
      s' := EveryCallReturns(cfg, m, t, ok);
      LeadsOn(cfg, s, m, s');
    } else {
      assert m.calls - {t} == m.calls;
      s' := m;
    }
  }

  /** A call that starts closed and has failed is about to add to the count. */
  lemma FailsClosed(cfg: Config, s: System, t: nat)
    requires s.state == Closed && t !in s.calls
    ensures Leads(cfg, s, Goes(s.(successes := 0), t, Adding(false)))
  {
    hide Leads;
    LeadsNowhere(cfg, s);
    var s1 := Goes(s, t, Running(false));
    ThenStep(cfg, s, s, Arrive(t, false), s1);
    var s2 := Goes(s, t, Reporting(false));
    SameCall(s, t, Running(false), Reporting(false));
    ThenStep(cfg, s, s1, Finish(t, false), s2);
    var z := s.(successes := 0);
    var s3 := Goes(z, t, Looking(false));
    SameCall(z, t, Reporting(false), Looking(false));
    ThenStep(cfg, s, s2, Advance(t), s3);
    SameCall(z, t, Looking(false), Adding(false));
    ThenStep(cfg, s, s3, Advance(t), Goes(z, t, Adding(false)));
  }

  /** Below the threshold a failing call only counts. */
  lemma OneMoreFailure(cfg: Config, s: System, t: nat)
    requires s.state == Closed && t !in s.calls && s.failures + 1 < cfg.failureThreshold
    ensures Leads(cfg, s, s.(failures := s.failures + 1, successes := 0))
  {
    hide Leads;
    FailsClosed(cfg, s, t);
    var s' := s.(failures := s.failures + 1, successes := 0);
    SameCall(s', t, Adding(false), Adding(false));
    ThenStep(cfg, s, Goes(s.(successes := 0), t, Adding(false)), Advance(t), s');
  }

  /** From a decision to open, the state is stored and the counter reset. */
  lemma Opens(cfg: Config, s: System, t: nat)
    requires s.state != Open && t in s.calls && s.calls[t] == Moving(Open)
    ensures Leads(cfg, s, Leaves(s.(state := Open, active := 0), t))
  {
    hide Leads;
    LeadsNowhere(cfg, s);
    var s1 := Goes(s, t, Storing(Open));
    ThenStep(cfg, s, s, Advance(t), s1);
    var o := s.(state := Open);
    var s2 := Goes(o, t, Resetting);
    SameCall(o, t, Storing(Open), Resetting);
    ThenStep(cfg, s, s1, Advance(t), s2);
    SameCall(o.(active := 0), t, Resetting, Resetting);
    ThenStep(cfg, s, s2, Reset(t), Leaves(o.(active := 0), t));
  }

  /** At the threshold it opens the breaker. */
  lemma LastFailure(cfg: Config, s: System, t: nat)
    requires s.state == Closed && t !in s.calls && s.failures + 1 >= cfg.failureThreshold
    ensures Leads(cfg, s, s.(state := Open, active := 0, failures := s.failures + 1, successes := 0))
  {
    hide Leads;
    FailsClosed(cfg, s, t);
    var f := s.(failures := s.failures + 1, successes := 0);
    var s1 := Goes(f, t, Moving(Open));
    SameCall(f, t, Adding(false), Moving(Open));
    ThenStep(cfg, s, Goes(s.(successes := 0), t, Adding(false)), Advance(t), s1);
    Opens(cfg, s1, t);
    var o := f.(state := Open, active := 0);
    SameCall(o, t, Moving(Open), Moving(Open));
    LeadsOn(cfg, s, s1, o);
  }

  /** Enough failing calls, one after the other, open a closed breaker whatever its threshold. */
  lemma {:induction false} FailuresOpen(cfg: Config, s: System, t: nat) returns (s': System)
    requires s.state == Closed && t !in s.calls
    ensures Leads(cfg, s, s') && s'.state == Open && s'.active == 0 && s'.calls == s.calls
    decreases cfg.failureThreshold - s.failures
  {
    hide Leads;
    if s.failures + 1 >= cfg.failureThreshold {
      LastFailure(cfg, s, t);
      s' := s.(state := Open, active := 0, failures := s.failures + 1, successes := 0);
    } else {
      OneMoreFailure(cfg, s, t);
      var m := s.(failures := s.failures + 1, successes := 0);
      s' := FailuresOpen(cfg, m, t);
      LeadsOn(cfg, s, m, s');
    }
  }

  /** A call that finds the open duration over makes the breaker half-open and tries for a permit. */
  lemma ProbeTries(cfg: Config, s: System, t: nat)
    requires s.state != Closed && t !in s.calls
    ensures Leads(cfg, s, Goes(s.(state := HalfOpen), t, Trying))
  {
    hide Leads;
    LeadsNowhere(cfg, s);
    var h := s.(state := HalfOpen);
    if s.state == HalfOpen {
      ThenStep(cfg, s, s, Arrive(t, true), Goes(h, t, Trying));
    } else {
      var s1 := Goes(s, t, Moving(HalfOpen));
      ThenStep(cfg, s, s, Arrive(t, true), s1);
      var s2 := Goes(s, t, Storing(HalfOpen));
      SameCall(s, t, Moving(HalfOpen), Storing(HalfOpen));
      ThenStep(cfg, s, s1, Advance(t), s2);
      SameCall(h, t, Storing(HalfOpen), Trying);
      ThenStep(cfg, s, s2, Advance(t), Goes(h, t, Trying));
    }
  }

  lemma ProbeStarts(cfg: Config, s: System, t: nat)
    requires s.state != Closed && t !in s.calls && s.active < CapOf(cfg)
    ensures Leads(cfg, s, Goes(s.(state := HalfOpen, active := s.active + 1), t, Running(true)))
  {
    hide Leads;
    ProbeTries(cfg, s, t);
    var h := s.(state := HalfOpen);
    var s' := Goes(h.(active := s.active + 1), t, Running(true));
    SameCall(h.(active := s.active + 1), t, Trying, Running(true));
    ThenStep(cfg, s, Goes(h, t, Trying), Try(t), s');
  }

  lemma ProbeRefused(cfg: Config, s: System, t: nat)
    requires s.state != Closed && t !in s.calls && s.active >= CapOf(cfg)
    ensures Leads(cfg, s, s.(state := HalfOpen))
  {
    hide Leads;
    ProbeTries(cfg, s, t);
    var h := s.(state := HalfOpen);
    SameCall(h, t, Trying, Trying);
    ThenStep(cfg, s, Goes(h, t, Trying), Try(t), h);
  }

  /** A call admitted while closed that fails while the breaker is half-open reopens it. */
  lemma StragglerReopens(cfg: Config, s: System, t: nat)
    requires s.state == HalfOpen && t in s.calls && s.calls[t] == Running(false)
    ensures Leads(cfg, s, Leaves(s.(state := Open, active := 0, successes := 0), t))
  {
    hide Leads;
    LeadsNowhere(cfg, s);
    var s1 := Goes(s, t, Reporting(false));
    ThenStep(cfg, s, s, Finish(t, false), s1);
    var z := s.(successes := 0);
    var s2 := Goes(z, t, Looking(false));
    SameCall(z, t, Reporting(false), Looking(false));
    ThenStep(cfg, s, s1, Advance(t), s2);
    var s3 := Goes(z, t, Moving(Open));
    SameCall(z, t, Looking(false), Moving(Open));
    ThenStep(cfg, s, s2, Advance(t), s3);
    Opens(cfg, s3, t);
    var o := z.(state := Open, active := 0);
    SameCall(o, t, Moving(Open), Moving(Open));
    LeadsOn(cfg, s, s3, Leaves(o, t));
  }

  /** The guard of a probe that outlived a reset takes the counter below zero. */
  lemma ProbeEnds(cfg: Config, s: System, t: nat)
    requires s.state == Open && s.active == 0 && t in s.calls && s.calls[t] == Running(true)
    ensures Leads(cfg, s, Leaves(s.(active := U64 - 1, successes := 0), t))
  {
    hide Leads;
    LeadsNowhere(cfg, s);
    var m := s.(active := U64 - 1);
    var s1 := Goes(m, t, Reporting(false));
    ThenStep(cfg, s, s, Finish(t, false), s1);
    var z := m.(successes := 0);
    var s2 := Goes(z, t, Looking(false));
    SameCall(z, t, Reporting(false), Looking(false));
    ThenStep(cfg, s, s1, Advance(t), s2);
    SameCall(z, t, Looking(false), Looking(false));
    ThenStep(cfg, s, s2, Advance(t), Leaves(z, t));
  }

  /** A call starts while closed and outlasts the failures that open the breaker; then a probe starts. */
  lemma ProbeBesideStraggler(cfg: Config) returns (s: System)
    ensures Leads(cfg, INITIAL, s)
    ensures s.state == HalfOpen && s.calls == map[0 := Running(false), 2 := Running(true)]
  {
    hide Leads;
    LeadsNowhere(cfg, INITIAL);
    var s1 := Goes(INITIAL, 0, Running(false));
    ThenStep(cfg, INITIAL, INITIAL, Arrive(0, false), s1);
    var s2 := FailuresOpen(cfg, s1, 1);
    LeadsOn(cfg, INITIAL, s1, s2);
    ProbeStarts(cfg, s2, 2);
    s := Goes(s2.(state := HalfOpen, active := 1), 2, Running(true));
    LeadsOn(cfg, INITIAL, s2, s);
    assert s.calls == map[0 := Running(false), 2 := Running(true)];
  }

  /**
   * For every configuration some run wedges the breaker with no call in flight: a call admitted
   * while closed fails during a probe and reopens the breaker, and the guard of the probe takes
   * the counter, set to zero by then, to the 64-bit maximum.
   */
  lemma ResetUnderProbeWedges(cfg: Config) returns (actions: seq<Action>)
    ensures Run(cfg, actions).Some?
    ensures
      var s := Run(cfg, actions).value;
      Wedged(cfg, s) && s.calls == map[] && s.active == 0xFFFF_FFFF_FFFF_FFFF
  {
    var s0 := ProbeBesideStraggler(cfg);
    var s1 := Leaves(s0.(state := Open, active := 0, successes := 0), 0);
    var s2 := Leaves(s1.(active := U64 - 1, successes := 0), 2);
    var s3 := s2.(state := HalfOpen);
    assert s1.calls == map[2 := Running(true)] && s2.calls == map[];
    assert Leads(cfg, INITIAL, s3) by {
      hide Leads;
      StragglerReopens(cfg, s0, 0);
      LeadsOn(cfg, INITIAL, s0, s1);
      ProbeEnds(cfg, s1, 2);
      LeadsOn(cfg, INITIAL, s1, s2);
      ProbeRefused(cfg, s2, 3);
      LeadsOn(cfg, INITIAL, s2, s3);
    }
    actions :| RunFrom(cfg, INITIAL, actions) == Some(s3);
  }
}
