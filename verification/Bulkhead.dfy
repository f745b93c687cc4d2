/**
 * One bulkhead instance (backend/src/bulkhead.rs): a semaphore, a queue counter
 * that is bumped before it is checked, and a guard that releases on drop.
 *
 * Every atomic operation of `acquire` and of the permit's drop is one step.
 * A request waiting for the semaphore may be cancelled (its future dropped).
 */
module Bulkhead {
  import opened Wrappers
  import opened Counting

  datatype Config = Config(maxConcurrent: nat, maxQueue: nat)

  /** Where a request stands. The comment names the step it takes next. */
  datatype Pc =
    | Arrived              // try_acquire_owned
    | NoSlot               // queued.fetch_add
    | Bumped(ticket: int)  // compare the ticket with the queue bound
    | Refused              // queued.fetch_sub
    | Counting             // rejected.fetch_add, then return the error
    | Waiting              // acquire_owned().await
    | Granted              // queued.fetch_sub
    | Admitted             // active.fetch_add
    | Running              // drop: active.fetch_sub
    | Dropping             // drop: completed.fetch_add
    | Releasing            // drop: return the semaphore permit

  /**
   * `available` is the semaphore; the next four fields are the metrics. The last
   * three only count events: permits granted, waiters cancelled, requests made.
   */
  datatype System = System(
    available: int, active: int, queued: int, rejected: int, completed: int,
    threads: map<nat, Pc>, grants: nat, cancelled: nat, requests: nat)

  datatype Action = Request(t: nat) | Advance(t: nat) | Cancel(t: nat)

  function Step(cfg: Config, s: System, a: Action): Option<System> {
    match a
    case Request(t) =>
      if t in s.threads then None
      else Some(s.(threads := s.threads[t := Arrived], requests := s.requests + 1))
    case Advance(t) =>
      if t !in s.threads then None else AdvanceOf(cfg, s, t, s.threads[t])
    case Cancel(t) =>
      if t !in s.threads || !s.threads[t].Waiting? then None
      else Some(s.(threads := s.threads - {t}, cancelled := s.cancelled + 1))
  }

  function AdvanceOf(cfg: Config, s: System, t: nat, pc: Pc): Option<System> {
    match pc
    case Arrived =>
      if s.available > 0 then
        Some(s.(available := s.available - 1, grants := s.grants + 1, threads := s.threads[t := Admitted]))
      else Some(s.(threads := s.threads[t := NoSlot]))
    case NoSlot => Some(s.(queued := s.queued + 1, threads := s.threads[t := Bumped(s.queued + 1)]))
    case Bumped(ticket) =>
      Some(s.(threads := s.threads[t := if ticket > cfg.maxQueue then Refused else Waiting]))
    case Refused => Some(s.(queued := s.queued - 1, threads := s.threads[t := Pc.Counting]))
    case Counting => Some(s.(rejected := s.rejected + 1, threads := s.threads - {t}))
    case Waiting =>
      if s.available > 0 then
        Some(s.(available := s.available - 1, grants := s.grants + 1, threads := s.threads[t := Granted]))
      else None
    case Granted => Some(s.(queued := s.queued - 1, threads := s.threads[t := Admitted]))
    case Admitted => Some(s.(active := s.active + 1, threads := s.threads[t := Running]))
    case Running => Some(s.(active := s.active - 1, threads := s.threads[t := Dropping]))
    case Dropping => Some(s.(completed := s.completed + 1, threads := s.threads[t := Releasing]))
    case Releasing => Some(s.(available := s.available + 1, threads := s.threads - {t}))
  }

  function Initial(cfg: Config): System {
    System(cfg.maxConcurrent, 0, 0, 0, 0, map[], 0, 0, 0)
  }

  function Run(cfg: Config, actions: seq<Action>): Option<System> {
    if actions == [] then Some(Initial(cfg))
    else
      match Run(cfg, actions[..|actions| - 1])
      case None => None
      case Some(s) => Step(cfg, s, actions[|actions| - 1])
  }

  // ---------------------------------------------------------------------
  // What the counters mean
  // ---------------------------------------------------------------------

  predicate HasPermit(pc: Pc) { pc.Granted? || pc.Admitted? || pc.Running? || pc.Dropping? || pc.Releasing? }
  predicate IsActive(pc: Pc) { pc.Running? }
  /** Has bumped the queue counter and not yet given the bump back. */
  predicate InQueueCount(pc: Pc) { pc.Bumped? || pc.Refused? || pc.Waiting? || pc.Granted? }
  /** Permit holders that have not yet been added to `completed`. */
  predicate Uncompleted(pc: Pc) { pc.Granted? || pc.Admitted? || pc.Running? || pc.Dropping? }
  /** Requests that have neither been granted a permit nor been turned away. */
  predicate Undecided(pc: Pc) { pc.Bumped? || pc.Arrived? || pc.NoSlot? || pc.Refused? || pc.Counting? || pc.Waiting? }
  /** Passed the queue check: waiting, or granted and about to leave the queue. */
  predicate InQueue(pc: Pc) { pc.Waiting? || pc.Granted? }
  /** In the queue, or holding a ticket that will pass the check. */
  predicate WillQueue(maxQueue: nat, pc: Pc) { InQueue(pc) || (pc.Bumped? && pc.ticket <= maxQueue) }

  ghost function Will(cfg: Config): Pc -> bool { pc => WillQueue(cfg.maxQueue, pc) }

  ghost predicate PermitsCounted(cfg: Config, s: System) {
    && s.available + Count(s.threads, HasPermit) == cfg.maxConcurrent
    && s.available >= 0
    && s.active == Count(s.threads, IsActive)
    && s.completed + Count(s.threads, Uncompleted) == s.grants
  }

  ghost predicate QueueCounted(cfg: Config, s: System) {
    && s.queued == Count(s.threads, InQueueCount) + s.cancelled
    && Count(s.threads, Will(cfg)) <= cfg.maxQueue
  }

  ghost predicate RequestsCounted(s: System) {
    s.grants + s.rejected + s.cancelled + Count(s.threads, Undecided) == s.requests
  }

  ghost predicate Inv(cfg: Config, s: System) {
    PermitsCounted(cfg, s) && QueueCounted(cfg, s) && RequestsCounted(s)
  }

  /** One count after a step, told from the thread that moved. */
  lemma CountOfStep(cfg: Config, s: System, a: Action, p: Pc -> bool)
    requires Step(cfg, s, a).Some?
    ensures var s' := Step(cfg, s, a).value;
      var before := if a.t in s.threads then One(p(s.threads[a.t])) else 0;
      var after := if a.t in s'.threads then One(p(s'.threads[a.t])) else 0;
      Count(s'.threads, p) == Count(s.threads, p) - before + after
  {
    var s' := Step(cfg, s, a).value;
    if a.Request? {
      CountArrive(s.threads, a.t, Arrived, p);
    } else if a.t in s'.threads {
      CountMove(s.threads, a.t, s'.threads[a.t], p);
    } else {
      CountLeave(s.threads, a.t, p);
    }
  }

  /** Counting is monotone in the predicate. */
  lemma CountWithin(threads: map<nat, Pc>, p: Pc -> bool, q: Pc -> bool)
    requires forall pc :: p(pc) ==> q(pc)
    ensures Count(threads, p) <= Count(threads, q)
  {
    SubsetSize(At(threads, p), At(threads, q));
  }

  lemma StepKeepsPermits(cfg: Config, s: System, a: Action)
    requires PermitsCounted(cfg, s) && Step(cfg, s, a).Some?
    ensures PermitsCounted(cfg, Step(cfg, s, a).value)
  {
    CountOfStep(cfg, s, a, HasPermit);
    CountOfStep(cfg, s, a, IsActive);
    CountOfStep(cfg, s, a, Uncompleted);
  }

  /** A ticket is at least the number of bumps outstanding, so a passing one leaves room. */
  lemma StepKeepsQueue(cfg: Config, s: System, a: Action)
    requires QueueCounted(cfg, s) && Step(cfg, s, a).Some?
    ensures QueueCounted(cfg, Step(cfg, s, a).value)
  {
    CountOfStep(cfg, s, a, InQueueCount);
    CountOfStep(cfg, s, a, Will(cfg));
    CountWithin(s.threads, Will(cfg), InQueueCount);
  }

  lemma StepKeepsRequests(cfg: Config, s: System, a: Action)
    requires RequestsCounted(s) && Step(cfg, s, a).Some?
    ensures RequestsCounted(Step(cfg, s, a).value)
  {
    CountOfStep(cfg, s, a, Undecided);
  }

  lemma {:induction false} RunKeepsInv(cfg: Config, actions: seq<Action>)
    requires Run(cfg, actions).Some?
    ensures Inv(cfg, Run(cfg, actions).value)
  {
    if actions == [] {
      var s := Initial(cfg);
      CountOfNone(s.threads, HasPermit);
      CountOfNone(s.threads, IsActive);
      CountOfNone(s.threads, InQueueCount);
      CountOfNone(s.threads, Uncompleted);
      CountOfNone(s.threads, Undecided);
      CountOfNone(s.threads, Will(cfg));
    } else {
      RunKeepsInv(cfg, actions[..|actions| - 1]);
      var s, last := Run(cfg, actions[..|actions| - 1]).value, actions[|actions| - 1];
      StepKeepsPermits(cfg, s, last);
      StepKeepsQueue(cfg, s, last);
      StepKeepsRequests(cfg, s, last);
    }
  }

  /** Concurrency and queue bounds, in every interleaving and with any cancellations. */
  lemma EveryRunIsBounded(cfg: Config, actions: seq<Action>)
    requires Run(cfg, actions).Some?
    ensures
      var s := Run(cfg, actions).value;
      && 0 <= s.active <= Count(s.threads, HasPermit) <= cfg.maxConcurrent
      && Count(s.threads, InQueue) <= cfg.maxQueue
      && s.queued >= Count(s.threads, InQueue)
      && s.completed <= s.grants
  {
    var s := Run(cfg, actions).value;
    RunKeepsInv(cfg, actions);
    CountWithin(s.threads, IsActive, HasPermit);
    CountWithin(s.threads, InQueue, Will(cfg));
    CountWithin(s.threads, InQueue, InQueueCount);
  }

  /**
   * Once no request is in flight, every permit is back, everything granted has
   * completed and every request is accounted for; the queue counter is back at
   * zero exactly when no waiter was ever cancelled.
   */
  lemma QuiescentRun(cfg: Config, actions: seq<Action>)
    requires Run(cfg, actions).Some? && Run(cfg, actions).value.threads == map[]
    ensures
      var s := Run(cfg, actions).value;
      && s.active == 0 && s.available == cfg.maxConcurrent
      && s.completed == s.grants
      && s.requests == s.completed + s.rejected + s.cancelled
      && s.queued == s.cancelled
      && (s.queued == 0 <==> forall i :: 0 <= i < |actions| ==> !actions[i].Cancel?)
  {
    var s := Run(cfg, actions).value;
    RunKeepsInv(cfg, actions);
    CountOfNone(s.threads, HasPermit);
    CountOfNone(s.threads, IsActive);
    CountOfNone(s.threads, InQueueCount);
    CountOfNone(s.threads, Uncompleted);
    CountOfNone(s.threads, Undecided);
    CancelsAreCounted(cfg, actions);
  }

  lemma {:induction false} CancelsAreCounted(cfg: Config, actions: seq<Action>)
    requires Run(cfg, actions).Some?
    ensures Run(cfg, actions).value.cancelled == 0 <==> forall i :: 0 <= i < |actions| ==> !actions[i].Cancel?
  {
    if actions != [] {
      var before := actions[..|actions| - 1];
      CancelsAreCounted(cfg, before);
      assert forall i :: 0 <= i < |before| ==> before[i] == actions[i];
      if forall i :: 0 <= i < |before| ==> !before[i].Cancel? {
        assert forall i :: 0 <= i < |actions| - 1 ==> !actions[i].Cancel?;
      } else {
        var i :| 0 <= i < |before| && before[i].Cancel?;
        assert actions[i].Cancel?;
      }
    }
  }

  /** A new request gets a slot at once exactly when fewer than `max_concurrent` permits are held. */
  lemma AdmittedExactlyWhenFree(cfg: Config, actions: seq<Action>, t: nat)
    requires Run(cfg, actions).Some?
    requires var s := Run(cfg, actions).value; t in s.threads && s.threads[t].Arrived?
    ensures
      var s := Run(cfg, actions).value;
      var s1 := Step(cfg, s, Advance(t)).value;
      s1.threads[t] == if Count(s.threads, HasPermit) < cfg.maxConcurrent then Admitted else NoSlot
  {
    RunKeepsInv(cfg, actions);
  }

  /** A request without a slot is turned away exactly when the bumps outstanding and leaked fill the queue bound. */
  lemma RefusedExactlyWhenFull(cfg: Config, actions: seq<Action>, t: nat)
    requires Run(cfg, actions).Some?
    requires var s := Run(cfg, actions).value; t in s.threads && s.threads[t].NoSlot?
    ensures
      var s := Run(cfg, actions).value;
      var s1 := Step(cfg, s, Advance(t)).value;
      && s1.threads[t].Bumped?
      && Step(cfg, s1, Advance(t)).value.threads[t]
         == if Count(s.threads, InQueueCount) + s.cancelled >= cfg.maxQueue then Refused else Waiting
  {
    RunKeepsInv(cfg, actions);
  }

  /** A waiter is served exactly when fewer than `max_concurrent` permits are held, and then holds one. */
  lemma WaiterServedExactly(cfg: Config, actions: seq<Action>, t: nat)
    requires Run(cfg, actions).Some?
    requires var s := Run(cfg, actions).value; t in s.threads && s.threads[t].Waiting?
    ensures
      var s := Run(cfg, actions).value;
      var next := Step(cfg, s, Advance(t));
      && (next.Some? <==> Count(s.threads, HasPermit) < cfg.maxConcurrent)
      && (next.Some? ==>
            && next.value.threads == s.threads[t := Granted]
            && Count(next.value.threads, HasPermit) == Count(s.threads, HasPermit) + 1
            && next.value.grants == s.grants + 1)
  {
    RunKeepsInv(cfg, actions);
    var s := Run(cfg, actions).value;
    if Step(cfg, s, Advance(t)).Some? {
      CountOfStep(cfg, s, Advance(t), HasPermit);
    }
  }

  /** Only waiting for a permit can hold a request up; every other step of it is always possible. */
  lemma OnlyWaitersWait(cfg: Config, s: System, t: nat)
    ensures t in s.threads && !s.threads[t].Waiting? ==> Step(cfg, s, Advance(t)).Some?
    ensures Step(cfg, s, Request(t)).Some? <==> t !in s.threads
    ensures Step(cfg, s, Cancel(t)).Some? <==> t in s.threads && s.threads[t].Waiting?
  {
  }

  /** A waiter that got its permit runs after two more steps, counted as active and out of the queue. */
  lemma GrantedRuns(cfg: Config, s: System, t: nat)
    requires t in s.threads && s.threads[t].Granted?
    ensures
      var s1 := Step(cfg, s, Advance(t));
      var s2 := if s1.Some? then Step(cfg, s1.value, Advance(t)) else None;
      && s2.Some? && s2.value.threads[t] == Running
      && s2.value.active == s.active + 1 && s2.value.queued == s.queued - 1 && s2.value.available == s.available
  {
  }

  /** A running request that is dropped gives its permit back after three steps and is counted as completed. */
  lemma DroppedReleases(cfg: Config, s: System, t: nat)
    requires t in s.threads && s.threads[t].Running?
    ensures
      var s1 := Step(cfg, s, Advance(t));
      var s2 := if s1.Some? then Step(cfg, s1.value, Advance(t)) else None;
      var s3 := if s2.Some? then Step(cfg, s2.value, Advance(t)) else None;
      && s3.Some? && s3.value.threads == s.threads - {t} && s3.value.available == s.available + 1
      && s3.value.active == s.active - 1 && s3.value.completed == s.completed + 1
  {
    var s1 := Step(cfg, s, Advance(t)).value;
    var s2 := Step(cfg, s1, Advance(t)).value;
    assert s2.threads - {t} == s.threads - {t};
  }

  /** At most how many steps a request has ahead of it. */
  function Rank(pc: Pc): nat {
    match pc
    case Arrived => 9
    case NoSlot => 8
    case Bumped(_) => 7
    case Waiting => 6
    case Granted => 5
    case Admitted => 4
    case Running => 3
    case Dropping => 2
    case Releasing => 1
    case Refused => 2
    case Counting => 1
  }

  lemma AdvanceLowersRank(cfg: Config, s: System, t: nat)
    requires Step(cfg, s, Advance(t)).Some?
    ensures Total(Step(cfg, s, Advance(t)).value.threads, Rank) < Total(s.threads, Rank)
  {
    var s' := Step(cfg, s, Advance(t)).value;
    assert s'.threads - {t} == s.threads - {t};
    TotalFalls(s.threads, s'.threads, Rank, t);
  }

  /** Some request can always advance: if all of them wait, no permit is held. */
  lemma SomeoneAdvances(cfg: Config, actions: seq<Action>) returns (t: nat)
    requires Run(cfg, actions).Some? && Run(cfg, actions).value.threads != map[] && cfg.maxConcurrent >= 1
    ensures Step(cfg, Run(cfg, actions).value, Advance(t)).Some?
  {
    var s := Run(cfg, actions).value;
    if u :| u in s.threads && !s.threads[u].Waiting? {
      t := u;
    } else {
      t :| t in s.threads;
      CountOfNone(s.threads, HasPermit);
      WaiterServedExactly(cfg, actions, t);
    }
  }

  /**
   * Nothing gets stuck: with at least one slot, every reachable state can be run to the end, every
   * request in flight finishing on its own, without cancelling any and without new ones.
   */
  lemma {:induction false} EveryRunCanFinish(cfg: Config, actions: seq<Action>) returns (more: seq<Action>)
    requires Run(cfg, actions).Some? && cfg.maxConcurrent >= 1
    ensures forall i :: 0 <= i < |more| ==> more[i].Advance?
    ensures Run(cfg, actions + more).Some? && Run(cfg, actions + more).value.threads == map[]
    decreases Total(Run(cfg, actions).value.threads, Rank)
  {
    hide Step, Total;
    var s := Run(cfg, actions).value;
    if s.threads == map[] {
      more := [];
      assert actions + more == actions;
    } else {
      var t := SomeoneAdvances(cfg, actions);
      AdvanceLowersRank(cfg, s, t);
      assert (actions + [Advance(t)])[..|actions|] == actions;
      var rest := EveryRunCanFinish(cfg, actions + [Advance(t)]);
      more := [Advance(t)] + rest;
      assert actions + more == actions + [Advance(t)] + rest;
    }
  }

  /** Leaked bumps are not harmless: after as many as the queue holds, nobody is ever queued again. */
  lemma LeakClosesTheQueue(cfg: Config, actions: seq<Action>, t: nat)
    requires Run(cfg, actions).Some?
    requires var s := Run(cfg, actions).value;
      s.cancelled >= cfg.maxQueue && t in s.threads && s.threads[t].NoSlot?
    ensures var s := Run(cfg, actions).value;
      var s1 := Step(cfg, s, Advance(t)).value;
      s1.threads[t].Bumped? && Step(cfg, s1, Advance(t)).value.threads[t] == Refused
  {
    RunKeepsInv(cfg, actions);
  }

  lemma RunStep(cfg: Config, actions: seq<Action>, a: Action, s: System, s': System)
    requires Run(cfg, actions) == Some(s) && Step(cfg, s, a) == Some(s')
    ensures Run(cfg, actions + [a]) == Some(s')
  {
    assert (actions + [a])[..|actions|] == actions;
  }

  /** One request takes the only slot, a second one waits and is cancelled. */
  lemma WaiterCancelled(maxQueue: nat) returns (actions: seq<Action>, s: System)
    requires maxQueue >= 1
    ensures Run(Config(1, maxQueue), actions) == Some(s)
    ensures s.threads == map[0 := Admitted] && s.queued == 1 && s.active == 0
  {
    var cfg := Config(1, maxQueue);
    var s0 := Initial(cfg);
    assert Run(cfg, []) == Some(s0);
    hide Run;
    var s1 := s0.(threads := s0.threads[0 := Arrived], requests := 1);
    RunStep(cfg, [], Request(0), s0, s1);
    var s2 := s1.(available := 0, grants := 1, threads := s1.threads[0 := Admitted]);
    RunStep(cfg, [] + [Request(0)], Advance(0), s1, s2);
    var a2 := [] + [Request(0)] + [Advance(0)];
    var s3 := s2.(threads := s2.threads[1 := Arrived], requests := 2);
    RunStep(cfg, a2, Request(1), s2, s3);
    var s4 := s3.(threads := s3.threads[1 := NoSlot]);
    RunStep(cfg, a2 + [Request(1)], Advance(1), s3, s4);
    var a4 := a2 + [Request(1)] + [Advance(1)];
    var s5 := s4.(queued := 1, threads := s4.threads[1 := Bumped(1)]);
    RunStep(cfg, a4, Advance(1), s4, s5);
    var s6 := s5.(threads := s5.threads[1 := Waiting]);
    RunStep(cfg, a4 + [Advance(1)], Advance(1), s5, s6);
    s := s6.(threads := s6.threads - {1}, cancelled := 1);
    RunStep(cfg, a4 + [Advance(1)] + [Advance(1)], Cancel(1), s6, s);
    actions := a4 + [Advance(1)] + [Advance(1)] + [Cancel(1)];
    assert s.threads == map[0 := Admitted];
  }

  /** A run that ends with no request in flight and a queue count of one. */
  lemma CancelLeaksOne(maxQueue: nat) returns (actions: seq<Action>)
    requires maxQueue >= 1
    ensures Run(Config(1, maxQueue), actions).Some?
    ensures
      var s := Run(Config(1, maxQueue), actions).value;
      s.threads == map[] && s.queued == 1
  {
    hide Run;
    var cfg := Config(1, maxQueue);
    var a0, s0 := WaiterCancelled(maxQueue);
    var s1 := s0.(active := 1, threads := s0.threads[0 := Running]);
    RunStep(cfg, a0, Advance(0), s0, s1);
    var s2 := s1.(active := 0, threads := s1.threads[0 := Dropping]);
    RunStep(cfg, a0 + [Advance(0)], Advance(0), s1, s2);
    var s3 := s2.(completed := s2.completed + 1, threads := s2.threads[0 := Releasing]);
    var a3 := a0 + [Advance(0)] + [Advance(0)];
    RunStep(cfg, a3, Advance(0), s2, s3);
    var s4 := s3.(available := s3.available + 1, threads := s3.threads - {0});
    RunStep(cfg, a3 + [Advance(0)], Advance(0), s3, s4);
    actions := a3 + [Advance(0)] + [Advance(0)];
    assert s4.threads == map[];
  }
}
