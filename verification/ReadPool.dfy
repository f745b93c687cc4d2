/**
 * The bounded pool of read connections (backend/src/db_read_pool.rs): a mutex,
 * a condition variable, and a fallible open that runs outside the mutex.
 *
 * Each critical section is one atomic step; a thread may be preempted between
 * any two of them, and in particular between changing the pool and notifying.
 */
module ReadPool {
  import opened Wrappers
  import opened Arithmetic
  import opened Counting

  /** A connection token. */
  type Conn = nat

  /** What the mutex protects. `open` counts connections opened so far, idle or not. */
  datatype Shared = Shared(idle: seq<Conn>, open: int)

  datatype Taken = Got(conn: Conn) | Reserved | Exhausted

  /** The critical section of `acquire`, up to the point where it returns or waits. */
  function Take(max: nat, s: Shared): (Taken, Shared) {
    if s.idle != [] then (Got(s.idle[|s.idle| - 1]), s.(idle := s.idle[..|s.idle| - 1]))
    else if s.open < max then (Reserved, s.(open := s.open + 1))
    else (Exhausted, s)
  }

  /** A reserved connection could not be opened. */
  function GiveBack(s: Shared): Shared {
    s.(open := s.open - 1)
  }

  function Return(s: Shared, conn: Conn): Shared {
    s.(idle := s.idle + [conn])
  }

  /** The pool right after opening its first `n` connections. */
  function Opened(n: nat): Shared {
    Shared(seq(n, i => i), n)
  }

  // ---------------------------------------------------------------------
  // The pool object
  // ---------------------------------------------------------------------

  function EffectiveMax(max: nat, sharedMemory: bool): nat {
    if sharedMemory then 1 else if max < 1 then 1 else max
  }

  class Pool {
    const max: nat
    var idle: seq<Conn>
    var open: int

    ghost function View(): Shared
      reads this
    {
      Shared(idle, open)
    }

    /**
     * `ReadPool::new`: `opens(i)` says whether the i-th initial open succeeds.
     * The source returns an error at the first failure; here that shows as
     * fewer idle connections than wanted.
     */
    constructor (min: nat, requested: nat, sharedMemory: bool, opens: nat -> bool)
      ensures max == if sharedMemory || requested == 0 then 1 else requested
      ensures |idle| <= min && |idle| <= max && View() == Opened(|idle|)
      ensures forall i :: 0 <= i < |idle| ==> idle[i] == i && opens(i)
      ensures |idle| < min && |idle| < max ==> !opens(|idle|)
    {
      var cap := EffectiveMax(requested, sharedMemory);
      var wanted := Min(min, cap);
      var ready: seq<Conn> := [];
      while |ready| < wanted && opens(|ready|)
        invariant |ready| <= wanted
        invariant forall i :: 0 <= i < |ready| ==> ready[i] == i && opens(i)
      {
        ready := ready + [|ready|];
      }
      max, idle, open := cap, ready, |ready|;
    }

    method TakeOrReserve() returns (taken: Taken)
      modifies this
      ensures (taken, View()) == Take(max, old(View()))
    {
      if idle != [] {
        taken := Got(idle[|idle| - 1]);
        idle := idle[..|idle| - 1];
      } else if open < max {
        open := open + 1;
        taken := Reserved;
      } else {
        taken := Exhausted;
      }
    }

    /** A reserved connection could not be opened. */
    method UndoReserve()
      modifies this
      ensures View() == GiveBack(old(View()))
    {
      open := open - 1;
    }

    method Release(conn: Conn)
      modifies this
      ensures View() == Return(old(View()), conn)
    {
      idle := idle + [conn];
    }
  }

  // ---------------------------------------------------------------------
  // The protocol: every thread at a program point between critical sections
  // ---------------------------------------------------------------------

  datatype Pc =
    | Entering(deadline: int)   // called acquire, has not run the critical section yet
    | Sleeping(deadline: int)   // in wait_timeout
    | Woken(deadline: int)      // notified, timed out or spuriously woken; will retry
    | Opening                   // reserved a slot, opening outside the mutex
    | Holding(conn: Conn)       // acquire returned a connection
    | Notifying                 // gave a slot back, has yet to call notify_one

  datatype System = System(shared: Shared, threads: map<nat, Pc>, now: int, nextConn: Conn)

  datatype Config = Config(max: nat, timeout: nat)

  datatype Action =
    | Arrive(t: nat)
    | Try(t: nat)
    | OpenOk(t: nat)
    | OpenFail(t: nat)
    | Release(t: nat)
    | NotifyOne(t: nat, woken: nat)
    | NotifyNobody(t: nat)
    | WakeUp(t: nat)
    | Tick

  predicate SomeoneSleeps(threads: map<nat, Pc>) {
    exists t :: t in threads && threads[t].Sleeping?
  }

  /** The effect of one action, or `None` when it is not enabled. */
  function Step(cfg: Config, s: System, a: Action): Option<System> {
    match a
    case Tick => Some(s.(now := s.now + 1))
    case Arrive(t) =>
      if t in s.threads then None
      else Some(s.(threads := s.threads[t := Entering(s.now + cfg.timeout)]))
    case _ =>
      if a.t !in s.threads then None else StepOf(cfg, s, a, s.threads[a.t])
  }

  /** Steps of a thread already inside the pool, standing at `pc`. */
  function StepOf(cfg: Config, s: System, a: Action, pc: Pc): Option<System>
    requires !a.Tick? && !a.Arrive? && a.t in s.threads && pc == s.threads[a.t]
  {
    match a
    case Try(t) =>
      if !pc.Entering? && !pc.Woken? then None
      else
        var (taken, shared) := Take(cfg.max, s.shared);
        Some(match taken
          case Got(conn) => s.(shared := shared, threads := s.threads[t := Holding(conn)])
          case Reserved => s.(shared := shared, threads := s.threads[t := Opening])
          case Exhausted =>
            if s.now >= pc.deadline then s.(threads := s.threads - {t})
            else s.(threads := s.threads[t := Sleeping(pc.deadline)]))
    case OpenOk(t) =>
      if !pc.Opening? then None
      else Some(s.(threads := s.threads[t := Holding(s.nextConn)], nextConn := s.nextConn + 1))
    case OpenFail(t) =>
      if !pc.Opening? then None
      else Some(s.(shared := GiveBack(s.shared), threads := s.threads[t := Notifying]))
    case Release(t) =>
      if !pc.Holding? then None
      else Some(s.(shared := Return(s.shared, pc.conn), threads := s.threads[t := Notifying]))
    case NotifyOne(t, u) =>
      if !pc.Notifying? || u !in s.threads || !s.threads[u].Sleeping? then None
      else Some(s.(threads := s.threads[u := Woken(s.threads[u].deadline)] - {t}))
    case NotifyNobody(t) =>
      if !pc.Notifying? || SomeoneSleeps(s.threads) then None
      else Some(s.(threads := s.threads - {t}))
    case WakeUp(t) =>
      if !pc.Sleeping? then None
      else Some(s.(threads := s.threads[t := Woken(pc.deadline)]))
  }

  function Initial(cfg: Config, idle: nat): System {
    System(Opened(idle), map[], 0, idle)
  }

  // ---------------------------------------------------------------------
  // Invariants
  // ---------------------------------------------------------------------

  predicate IsHolding(pc: Pc) { pc.Holding? }
  predicate IsOpening(pc: Pc) { pc.Opening? }
  predicate IsNotifying(pc: Pc) { pc.Notifying? }
  predicate IsWoken(pc: Pc) { pc.Woken? }

  ghost function Lent(s: System): nat { Count(s.threads, IsHolding) }
  ghost function BeingOpened(s: System): nat { Count(s.threads, IsOpening) }
  ghost function Pending(s: System): nat { Count(s.threads, IsNotifying) }
  ghost function Awake(s: System): nat { Count(s.threads, IsWoken) }

  /** Slots a retrying thread could use now: idle connections plus unopened ones. */
  function FreeSlots(cfg: Config, s: System): int {
    |s.shared.idle| + cfg.max - s.shared.open
  }

  ghost predicate Accounted(cfg: Config, s: System) {
    && s.shared.open == |s.shared.idle| + Lent(s) + BeingOpened(s)
    && s.shared.open <= cfg.max
  }

  ghost predicate NoLostWakeUp(cfg: Config, s: System) {
    SomeoneSleeps(s.threads) ==> FreeSlots(cfg, s) <= Pending(s) + Awake(s)
  }

  /** Every connection is idle once, or lent to one thread, and never both. */
  ghost predicate Exclusive(s: System) {
    && (forall i, j :: 0 <= i < j < |s.shared.idle| ==> s.shared.idle[i] != s.shared.idle[j])
    && (forall t, i :: t in s.threads && s.threads[t].Holding? && 0 <= i < |s.shared.idle|
          ==> s.shared.idle[i] != s.threads[t].conn)
    && (forall t, u :: t in s.threads && u in s.threads && t != u && s.threads[t].Holding? && s.threads[u].Holding?
          ==> s.threads[t].conn != s.threads[u].conn)
    && (forall i :: 0 <= i < |s.shared.idle| ==> s.shared.idle[i] < s.nextConn)
    && (forall t :: t in s.threads && s.threads[t].Holding? ==> s.threads[t].conn < s.nextConn)
  }

  /** How many more threads hold, open, have to notify and are awake in `s'` than in `s`. */
  ghost predicate Moves(s: System, s': System, lent: int, opening: int, pending: int, awake: int) {
    && Lent(s') == Lent(s) + lent && BeingOpened(s') == BeingOpened(s) + opening
    && Pending(s') == Pending(s) + pending && Awake(s') == Awake(s) + awake
  }

  /** How one action by one thread moves the four counts. */
  lemma CountsOfStep(cfg: Config, s: System, a: Action)
    requires Step(cfg, s, a).Some?
    ensures
      var s' := Step(cfg, s, a).value;
      match a
      case Tick => Moves(s, s', 0, 0, 0, 0)
      case Arrive(_) => Moves(s, s', 0, 0, 0, 0)
      case Try(t) =>
        var lends, reserves := s.shared.idle != [], s.shared.idle == [] && s.shared.open < cfg.max;
        Moves(s, s', One(lends), One(reserves), 0, if s.threads[t].Woken? then -1 else 0)
      case OpenOk(_) => Moves(s, s', 1, -1, 0, 0)
      case OpenFail(_) => Moves(s, s', 0, -1, 1, 0)
      case Release(_) => Moves(s, s', -1, 0, 1, 0)
      case NotifyOne(_, _) => Moves(s, s', 0, 0, -1, 1)
      case NotifyNobody(_) => Moves(s, s', 0, 0, -1, 0)
      case WakeUp(_) => Moves(s, s', 0, 0, 0, 1)
  {
    CountOfStep(cfg, s, a, IsHolding);
    CountOfStep(cfg, s, a, IsOpening);
    CountOfStep(cfg, s, a, IsNotifying);
    CountOfStep(cfg, s, a, IsWoken);
  }

  /** The same for one arbitrary count, told from the threads that moved. */
  lemma CountOfStep(cfg: Config, s: System, a: Action, p: Pc -> bool)
    requires Step(cfg, s, a).Some?
    ensures var s' := Step(cfg, s, a).value;
      Count(s'.threads, p) ==
        if a.Tick? then Count(s.threads, p)
        else
          var before := if a.t in s.threads then One(p(s.threads[a.t])) else 0;
          var after := if a.t in s'.threads then One(p(s'.threads[a.t])) else 0;
          var woken :=
            if a.NotifyOne? then One(p(Woken(s.threads[a.woken].deadline))) - One(p(s.threads[a.woken])) else 0;
          Count(s.threads, p) - before + after + woken
  {
    var s' := Step(cfg, s, a).value;
    if a.Arrive? {
      CountArrive(s.threads, a.t, s'.threads[a.t], p);
    } else if a.NotifyOne? {
      var mid := s.threads[a.woken := Woken(s.threads[a.woken].deadline)];
      CountMove(s.threads, a.woken, Woken(s.threads[a.woken].deadline), p);
      CountLeave(mid, a.t, p);
    } else if !a.Tick? {
      if a.t in s'.threads {
        CountMove(s.threads, a.t, s'.threads[a.t], p);
      } else {
        CountLeave(s.threads, a.t, p);
      }
    }
  }

  lemma StepKeepsAccount(cfg: Config, s: System, a: Action)
    requires Accounted(cfg, s) && Step(cfg, s, a).Some?
    ensures Accounted(cfg, Step(cfg, s, a).value)
  {
    CountsOfStep(cfg, s, a);
  }

  lemma StepKeepsWakeUps(cfg: Config, s: System, a: Action)
    requires Accounted(cfg, s) && NoLostWakeUp(cfg, s) && Step(cfg, s, a).Some?
    ensures NoLostWakeUp(cfg, Step(cfg, s, a).value)
  {
    CountsOfStep(cfg, s, a);
    var s' := Step(cfg, s, a).value;
    if t :| t in s'.threads && s'.threads[t].Sleeping? {
      if a.Try? && a.t == t {
        assert FreeSlots(cfg, s') == 0;
      } else {
        assert t in s.threads && s.threads[t].Sleeping?;
      }
    }
  }

  lemma StepKeepsExclusive(cfg: Config, s: System, a: Action)
    requires Exclusive(s) && Step(cfg, s, a).Some?
    ensures Exclusive(Step(cfg, s, a).value)
  {
    var s' := Step(cfg, s, a).value;
    if a.Release? {
      ReleaseKeepsExclusive(s, s', a.t);
    } else if a.Try? && s.shared.idle != [] {
      LendKeepsExclusive(s, s', a.t);
    } else if a.OpenOk? {
      OpenKeepsExclusive(s, s', a.t);
    } else {
      assert s'.shared.idle == s.shared.idle && s'.nextConn == s.nextConn;
      assert forall t :: t in s'.threads && s'.threads[t].Holding? ==> t in s.threads && s.threads[t] == s'.threads[t];
    }
  }

  lemma OpenKeepsExclusive(s: System, s': System, t: nat)
    requires Exclusive(s) && t in s.threads
    requires s' == s.(threads := s.threads[t := Holding(s.nextConn)], nextConn := s.nextConn + 1)
    ensures Exclusive(s')
  {
    assert forall u :: u in s'.threads && u != t ==> s'.threads[u] == s.threads[u];
  }

  lemma ReleaseKeepsExclusive(s: System, s': System, t: nat)
    requires Exclusive(s) && t in s.threads && s.threads[t].Holding?
    requires s' == s.(shared := Return(s.shared, s.threads[t].conn), threads := s.threads[t := Notifying])
    ensures Exclusive(s')
  {
    assert forall u :: u in s'.threads && s'.threads[u].Holding? ==> u != t && s'.threads[u] == s.threads[u];
  }

  lemma LendKeepsExclusive(s: System, s': System, t: nat)
    requires Exclusive(s) && t in s.threads && !s.threads[t].Holding? && s.shared.idle != []
    requires var last := |s.shared.idle| - 1;
      s' == s.(shared := s.shared.(idle := s.shared.idle[..last]),
        threads := s.threads[t := Holding(s.shared.idle[last])])
    ensures Exclusive(s')
  {
    assert forall u :: u in s'.threads && u != t ==> s'.threads[u] == s.threads[u];
  }

  // ---------------------------------------------------------------------
  // Whole runs
  // ---------------------------------------------------------------------

  /** The state after `actions`, starting with `idle` open connections; `None` if one was not enabled. */
  function Run(cfg: Config, idle: nat, actions: seq<Action>): Option<System> {
    if actions == [] then Some(Initial(cfg, idle))
    else
      match Run(cfg, idle, actions[..|actions| - 1])
      case None => None
      case Some(s) => Step(cfg, s, actions[|actions| - 1])
  }

  /**
   * In every interleaving: `open` is exactly the idle, lent and opening
   * connections and within the maximum, connections are never shared, and no
   * wake-up is lost.
   */
  lemma {:induction false} EveryRunIsSafe(cfg: Config, idle: nat, actions: seq<Action>)
    requires idle <= cfg.max && Run(cfg, idle, actions).Some?
    ensures var s := Run(cfg, idle, actions).value;
      Accounted(cfg, s) && Exclusive(s) && NoLostWakeUp(cfg, s)
  {
    if actions == [] {
      var s := Initial(cfg, idle);
      CountOfNone(s.threads, IsHolding);
      CountOfNone(s.threads, IsOpening);
    } else {
      var before, last := actions[..|actions| - 1], actions[|actions| - 1];
      EveryRunIsSafe(cfg, idle, before);
      var s := Run(cfg, idle, before).value;
      StepKeepsAccount(cfg, s, last);
      StepKeepsExclusive(cfg, s, last);
      StepKeepsWakeUps(cfg, s, last);
    }
  }

  /** Nobody sleeps beside a usable slot once every notification has been delivered and acted on. */
  lemma SleepersMeanExhausted(cfg: Config, idle: nat, actions: seq<Action>)
    requires idle <= cfg.max && Run(cfg, idle, actions).Some?
    ensures var s := Run(cfg, idle, actions).value;
      SomeoneSleeps(s.threads) && (forall t :: t in s.threads ==> !s.threads[t].Notifying? && !s.threads[t].Woken?)
      ==> s.shared.idle == [] && s.shared.open == cfg.max
  {
    var s := Run(cfg, idle, actions).value;
    EveryRunIsSafe(cfg, idle, actions);
    if forall t :: t in s.threads ==> !s.threads[t].Notifying? && !s.threads[t].Woken? {
      CountOfNone(s.threads, IsNotifying);
      CountOfNone(s.threads, IsWoken);
    }
  }

  /** `acquire` gives up exactly past its deadline with no slot free; otherwise it is served or sleeps. */
  lemma GivesUpOnlyWhenExhausted(cfg: Config, idle: nat, actions: seq<Action>, t: nat)
    requires idle <= cfg.max && Run(cfg, idle, actions).Some?
    requires Step(cfg, Run(cfg, idle, actions).value, Try(t)).Some?
    ensures
      var s := Run(cfg, idle, actions).value;
      var s' := Step(cfg, s, Try(t)).value;
      && (t !in s'.threads <==> FreeSlots(cfg, s) == 0 && s.now >= s.threads[t].deadline)
      && (FreeSlots(cfg, s) > 0 <==> t in s'.threads && (s'.threads[t].Holding? || s'.threads[t].Opening?))
      && FreeSlots(cfg, s) >= 0
  {
    EveryRunIsSafe(cfg, idle, actions);
  }

  /** How many ticks have gone by since thread `t` last arrived. */
  function TicksSince(actions: seq<Action>, t: nat): nat {
    if actions == [] || actions[|actions| - 1] == Arrive(t) then 0
    else TicksSince(actions[..|actions| - 1], t) + if actions[|actions| - 1].Tick? then 1 else 0
  }

  predicate InAcquire(pc: Pc) { pc.Entering? || pc.Sleeping? || pc.Woken? }

  /** Through every sleep and wake-up, a deadline is the timeout after the arrival. */
  lemma {:induction false} DeadlineIsTimeout(cfg: Config, idle: nat, actions: seq<Action>, t: nat)
    requires Run(cfg, idle, actions).Some?
    ensures
      var s := Run(cfg, idle, actions).value;
      t in s.threads && InAcquire(s.threads[t]) ==>
        s.threads[t].deadline - s.now == cfg.timeout - TicksSince(actions, t)
  {
    if actions != [] {
      hide Take;
      DeadlineIsTimeout(cfg, idle, actions[..|actions| - 1], t);
    }
  }

  /** `acquire` gives up exactly when no slot is free and the timeout has passed since the thread arrived. */
  lemma GivesUpExactly(cfg: Config, idle: nat, actions: seq<Action>, t: nat)
    requires idle <= cfg.max && Run(cfg, idle, actions).Some?
    requires Step(cfg, Run(cfg, idle, actions).value, Try(t)).Some?
    ensures
      var s := Run(cfg, idle, actions).value;
      t !in Step(cfg, s, Try(t)).value.threads <==> FreeSlots(cfg, s) == 0 && TicksSince(actions, t) >= cfg.timeout
  {
    GivesUpOnlyWhenExhausted(cfg, idle, actions, t);
    DeadlineIsTimeout(cfg, idle, actions, t);
  }

  /** What a thread can always do next, wherever it stands, and what that gives. */
  lemma EveryThreadCanMove(cfg: Config, s: System, t: nat)
    requires t in s.threads
    ensures
      var pc := s.threads[t];
      && (pc.Entering? || pc.Woken? ==> Step(cfg, s, Try(t)).Some?)
      && (pc.Sleeping? ==> Step(cfg, s, WakeUp(t)) == Some(s.(threads := s.threads[t := Woken(pc.deadline)])))
      && (pc.Opening? ==>
            && Step(cfg, s, OpenOk(t)).Some? && Step(cfg, s, OpenOk(t)).value.threads[t] == Holding(s.nextConn)
            && Step(cfg, s, OpenFail(t)).Some? && Step(cfg, s, OpenFail(t)).value.threads[t] == Notifying
            && Step(cfg, s, OpenFail(t)).value.shared.open == s.shared.open - 1)
      && (pc.Holding? ==>
            && Step(cfg, s, Release(t)).Some? && Step(cfg, s, Release(t)).value.threads[t] == Notifying
            && Step(cfg, s, Release(t)).value.shared.idle == s.shared.idle + [pc.conn])
  {
  }

  /** A notification wakes one sleeper, whichever, and is lost exactly when nobody sleeps. */
  lemma NotifyWakesOne(cfg: Config, s: System, t: nat, u: nat)
    requires t in s.threads && s.threads[t].Notifying?
    ensures Step(cfg, s, NotifyNobody(t)).Some? <==> !SomeoneSleeps(s.threads)
    ensures Step(cfg, s, NotifyOne(t, u)).Some? <==> u in s.threads && s.threads[u].Sleeping?
    ensures Step(cfg, s, NotifyOne(t, u)).Some? ==>
      Step(cfg, s, NotifyOne(t, u)).value.threads == (s.threads - {t})[u := Woken(s.threads[u].deadline)]
  {
    if u in s.threads && s.threads[u].Sleeping? {
      assert s.threads[u := Woken(s.threads[u].deadline)] - {t} == (s.threads - {t})[u := Woken(s.threads[u].deadline)];
    }
  }

  /** A thread may call `acquire` at any time, and only from outside. */
  lemma AnyoneMayArrive(cfg: Config, idle: nat, actions: seq<Action>, t: nat)
    requires Run(cfg, idle, actions).Some?
    ensures Run(cfg, idle, actions + [Arrive(t)]).Some? <==> t !in Run(cfg, idle, actions).value.threads
  {
    assert (actions + [Arrive(t)])[..|actions|] == actions;
  }

  /** How far a thread is from leaving the pool, when it finds a slot free. */
  function Rank(pc: Pc): nat {
    match pc
    case Sleeping(_) => 5
    case Entering(_) | Woken(_) => 4
    case Opening => 3
    case Holding(_) => 2
    case Notifying => 1
  }

  /** The step that takes a thread further. */
  ghost function Onward(s: System, t: nat): Action
    requires t in s.threads
  {
    match s.threads[t]
    case Sleeping(_) => WakeUp(t)
    case Entering(_) | Woken(_) => Try(t)
    case Opening => OpenOk(t)
    case Holding(_) => Release(t)
    case Notifying =>
      if SomeoneSleeps(s.threads) then
        var u :| u in s.threads && s.threads[u].Sleeping?;
        NotifyOne(t, u)
      else NotifyNobody(t)
  }

  /** It is always possible, and brings the pool closer to empty unless it finds no slot. */
  lemma OnwardLowersRank(cfg: Config, s: System, t: nat)
    requires t in s.threads
    requires s.threads[t].Entering? || s.threads[t].Woken? ==> s.shared.idle != [] || s.shared.open < cfg.max
    ensures Step(cfg, s, Onward(s, t)).Some?
    ensures Total(Step(cfg, s, Onward(s, t)).value.threads, Rank) < Total(s.threads, Rank)
  {
    var a := Onward(s, t);
    var s' := Step(cfg, s, a).value;
    if a.NotifyOne? {
      var woken := s.threads[a.woken := Woken(s.threads[a.woken].deadline)];
      assert woken - {a.woken} == s.threads - {a.woken};
      TotalFalls(s.threads, woken, Rank, a.woken);
      assert s'.threads - {t} == woken - {t};
      TotalFalls(woken, s'.threads, Rank, t);
    } else {
      assert s'.threads - {t} == s.threads - {t};
      TotalFalls(s.threads, s'.threads, Rank, t);
    }
  }

  /** Whoever is past `acquire` goes first; if nobody is, every slot is free. */
  lemma SomeoneGoesOn(cfg: Config, idle: nat, actions: seq<Action>) returns (a: Action)
    requires idle <= cfg.max && cfg.max >= 1 && Run(cfg, idle, actions).Some?
    requires Run(cfg, idle, actions).value.threads != map[]
    ensures
      var s := Run(cfg, idle, actions).value;
      Step(cfg, s, a).Some? && Total(Step(cfg, s, a).value.threads, Rank) < Total(s.threads, Rank)
    ensures !a.Arrive? && !a.Tick? && !a.OpenFail?
  {
    var s := Run(cfg, idle, actions).value;
    var t: nat;
    if u :| u in s.threads && !InAcquire(s.threads[u]) {
      t := u;
    } else {
      t :| t in s.threads;
      EveryRunIsSafe(cfg, idle, actions);
      CountOfNone(s.threads, IsHolding);
      CountOfNone(s.threads, IsOpening);
    }
    hide Step, Total, Run;
    a := Onward(s, t);
    OnwardLowersRank(cfg, s, t);
  }

  /**
   * Nothing gets stuck: every reachable state can be run, with nobody new, no time passing and no
   * failing open, until no thread is inside the pool.
   */
  lemma {:induction false} EveryRunCanFinish(cfg: Config, idle: nat, actions: seq<Action>) returns (more: seq<Action>)
    requires idle <= cfg.max && cfg.max >= 1 && Run(cfg, idle, actions).Some?
    ensures forall i :: 0 <= i < |more| ==> !more[i].Arrive? && !more[i].Tick? && !more[i].OpenFail?
    ensures Run(cfg, idle, actions + more).Some? && Run(cfg, idle, actions + more).value.threads == map[]
    decreases Total(Run(cfg, idle, actions).value.threads, Rank)
  {
    hide Step, Total;
    if Run(cfg, idle, actions).value.threads == map[] {
      more := [];
      assert actions + more == actions;
    } else {
      var a := SomeoneGoesOn(cfg, idle, actions);
      assert (actions + [a])[..|actions|] == actions;
      var rest := EveryRunCanFinish(cfg, idle, actions + [a]);
      more := [a] + rest;
      assert actions + more == actions + [a] + rest;
    }
  }

  /** When no thread is inside the pool, every connection opened is idle again. */
  lemma AllComeHome(cfg: Config, idle: nat, actions: seq<Action>)
    requires idle <= cfg.max && Run(cfg, idle, actions).Some?
    ensures var s := Run(cfg, idle, actions).value;
      s.threads == map[] ==> |s.shared.idle| == s.shared.open <= cfg.max
  {
    var s := Run(cfg, idle, actions).value;
    EveryRunIsSafe(cfg, idle, actions);
    if s.threads == map[] {
      CountOfNone(s.threads, IsHolding);
      CountOfNone(s.threads, IsOpening);
    }
  }
}
