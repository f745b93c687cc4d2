/**
 * The circuit breaker (backend/src/circuit_breaker.rs), driven by one call at a
 * time, against a specification that only looks at the trace of past calls.
 */
module CircuitBreaker {

  import opened Wrappers
  import opened Sequences

  datatype State = Closed | Open | HalfOpen

  datatype Config = Config(failureThreshold: nat, successThreshold: nat, openDuration: nat, halfOpenMax: nat)

  /** One past call: turned away, or run in some state from `at` to `done` with some outcome. */
  datatype Rec = Rejected(at: int) | Ran(at: int, done: int, phase: State, ok: bool)

  datatype Link = Link(from: State, to: State, at: int)

  const MAX_EVENT_HISTORY: nat := 200

  // ---------------------------------------------------------------------
  // The trace specification
  // ---------------------------------------------------------------------

  /** Thresholds are compared with `>=` after counting a call, so zero acts as one. */
  function AtLeastOne(n: nat): nat {
    if n == 0 then 1 else n
  }

  function Elapsed(since: int, now: int): int {
    if now < since then 0 else now - since
  }

  predicate ClosedFailure(r: Rec) { r.Ran? && r.phase == Closed && !r.ok }
  predicate ProbeSuccess(r: Rec) { r.Ran? && r.phase == HalfOpen && r.ok }

  /** Length of the longest run of records satisfying `p` at the end of the trace. */
  function Trailing(tr: seq<Rec>, p: Rec -> bool): nat {
    if tr == [] || !p(tr[|tr| - 1]) then 0 else 1 + Trailing(tr[..|tr| - 1], p)
  }

  /** The state after a trace, read off its end. */
  function StateAfter(cfg: Config, tr: seq<Rec>): State {
    if tr == [] then Closed
    else
      match tr[|tr| - 1]
      case Rejected(_) => Open
      case Ran(_, _, phase, ok) =>
        if phase == HalfOpen then
          if !ok then Open
          else if Trailing(tr, ProbeSuccess) >= AtLeastOne(cfg.successThreshold) then Closed
          else HalfOpen
        else if !ok && Trailing(tr, ClosedFailure) >= AtLeastOne(cfg.failureThreshold) then Open
        else Closed
  }

  /** When the operation last finished. */
  function LastDone(tr: seq<Rec>): int {
    if tr == [] then 0
    else if tr[|tr| - 1].Ran? then tr[|tr| - 1].done
    else LastDone(tr[..|tr| - 1])
  }

  /** What becomes of a call at `now` whose operation would finish at `done` with `ok`. */
  function NextRec(cfg: Config, tr: seq<Rec>, now: int, done: int, ok: bool): Rec {
    match StateAfter(cfg, tr)
    case Closed => Ran(now, done, Closed, ok)
    case HalfOpen => Ran(now, done, HalfOpen, ok)
    case Open =>
      if Elapsed(LastDone(tr), now) >= cfg.openDuration then Ran(now, done, HalfOpen, ok) else Rejected(now)
  }

  predicate IsNext(cfg: Config, tr: seq<Rec>, r: Rec) {
    match r
    case Rejected(at) => r == NextRec(cfg, tr, at, at, false)
    case Ran(at, done, _, ok) => r == NextRec(cfg, tr, at, done, ok)
  }

  predicate Legal(cfg: Config, tr: seq<Rec>) {
    tr == [] ||
    var init, last := tr[..|tr| - 1], tr[|tr| - 1];
    Legal(cfg, init) && IsNext(cfg, init, last)
  }

  /** The transitions caused by one call. */
  function LinksOf(before: State, r: Rec, after: State): seq<Link> {
    if r.Rejected? then []
    else
      var probing := if before == Open then [Link(Open, HalfOpen, r.at)] else [];
      probing + if r.phase != after then [Link(r.phase, after, r.done)] else []
  }

  function ChainOf(cfg: Config, tr: seq<Rec>): seq<Link> {
    if tr == [] then []
    else
      var init := tr[..|tr| - 1];
      ChainOf(cfg, init) + LinksOf(StateAfter(cfg, init), tr[|tr| - 1], StateAfter(cfg, tr))
  }

  function Tally(tr: seq<Rec>, p: Rec -> bool): nat {
    if tr == [] then 0 else Tally(tr[..|tr| - 1], p) + if p(tr[|tr| - 1]) then 1 else 0
  }

  predicate IsRan(r: Rec) { r.Ran? }
  predicate IsRejected(r: Rec) { r.Rejected? }
  predicate IsSuccess(r: Rec) { r.Ran? && r.ok }
  predicate IsFailure(r: Rec) { r.Ran? && !r.ok }

  // ---------------------------------------------------------------------
  // What every legal trace satisfies
  // ---------------------------------------------------------------------

  ghost predicate EndsWith(tr: seq<Rec>, n: nat, p: Rec -> bool) {
    |tr| >= n && forall i :: |tr| - n <= i < |tr| ==> p(tr[i])
  }

  lemma {:induction false} TrailingMeaning(tr: seq<Rec>, p: Rec -> bool, n: nat)
    ensures Trailing(tr, p) >= n <==> EndsWith(tr, n, p)
  {
    if n > 0 && tr != [] && p(tr[|tr| - 1]) {
      var init := tr[..|tr| - 1];
      TrailingMeaning(init, p, n - 1);
      assert forall i :: 0 <= i < |init| ==> init[i] == tr[i];
      if EndsWith(init, n - 1, p) {
        assert EndsWith(tr, n, p);
      }
      if EndsWith(tr, n, p) {
        assert forall i :: |init| - (n - 1) <= i < |init| ==> p(tr[i]);
      }
    }
  }

  lemma TrailingAppend(tr: seq<Rec>, r: Rec, p: Rec -> bool)
    ensures Trailing(tr + [r], p) == if p(r) then 1 + Trailing(tr, p) else 0
  {
    assert (tr + [r])[..|tr|] == tr;
  }

  /** In a legal trace the counts stop exactly at their thresholds. */
  lemma CountsStayBelow(cfg: Config, tr: seq<Rec>)
    requires Legal(cfg, tr)
    ensures StateAfter(cfg, tr) == Closed ==> Trailing(tr, ClosedFailure) < AtLeastOne(cfg.failureThreshold)
    ensures StateAfter(cfg, tr) == HalfOpen ==> 1 <= Trailing(tr, ProbeSuccess) < AtLeastOne(cfg.successThreshold)
    ensures StateAfter(cfg, tr) == Open ==> tr != [] && Trailing(tr, ProbeSuccess) == 0
  {
  }

  /**
   * A closed breaker trips exactly when the call it runs is the last of
   * `failure_threshold` consecutive failures since it closed, no sooner or later.
   */
  lemma TripsExactly(cfg: Config, tr: seq<Rec>, now: int, done: int, ok: bool)
    requires Legal(cfg, tr) && StateAfter(cfg, tr) == Closed
    ensures
      var n := AtLeastOne(cfg.failureThreshold);
      var tr' := tr + [NextRec(cfg, tr, now, done, ok)];
      && (StateAfter(cfg, tr') == Open <==> EndsWith(tr', n, ClosedFailure))
      && (StateAfter(cfg, tr') == Open || StateAfter(cfg, tr') == Closed)
      && !EndsWith(tr', n + 1, ClosedFailure)
  {
    var n := AtLeastOne(cfg.failureThreshold);
    var r := NextRec(cfg, tr, now, done, ok);
    CountsStayBelow(cfg, tr);
    TrailingAppend(tr, r, ClosedFailure);
    TrailingMeaning(tr + [r], ClosedFailure, n);
    TrailingMeaning(tr + [r], ClosedFailure, n + 1);
  }

  /**
   * A breaker that is probing closes exactly when the call it runs is the last
   * of `success_threshold` successes in the current half-open episode, and
   * reopens exactly when that call fails.
   */
  lemma ClosesExactly(cfg: Config, tr: seq<Rec>, now: int, done: int, ok: bool)
    requires Legal(cfg, tr) && StateAfter(cfg, tr) != Closed && NextRec(cfg, tr, now, done, ok).Ran?
    ensures
      var n := AtLeastOne(cfg.successThreshold);
      var tr' := tr + [NextRec(cfg, tr, now, done, ok)];
      && (StateAfter(cfg, tr') == Closed <==> EndsWith(tr', n, ProbeSuccess))
      && (StateAfter(cfg, tr') == Open <==> !ok)
      && !EndsWith(tr', n + 1, ProbeSuccess)
  {
    var n := AtLeastOne(cfg.successThreshold);
    var r := NextRec(cfg, tr, now, done, ok);
    CountsStayBelow(cfg, tr);
    TrailingAppend(tr, r, ProbeSuccess);
    TrailingMeaning(tr + [r], ProbeSuccess, n);
    TrailingMeaning(tr + [r], ProbeSuccess, n + 1);
  }

  lemma {:induction false} LegalPrefix(cfg: Config, tr: seq<Rec>, n: nat)
    requires Legal(cfg, tr) && n <= |tr|
    ensures Legal(cfg, tr[..n])
    ensures n < |tr| ==> IsNext(cfg, tr[..n], tr[n])
  {
    if n < |tr| {
      LegalPrefix(cfg, tr[..|tr| - 1], n);
      assert tr[..|tr| - 1][..n] == tr[..n];
    } else {
      assert tr[..n] == tr;
    }
  }

  /** Once open, the operation is not run again before the open duration has passed. */
  lemma {:induction false} NeverRunsEarly(cfg: Config, tr: seq<Rec>, i: nat, j: nat)
    requires Legal(cfg, tr) && i < j < |tr|
    requires tr[i].Ran? && StateAfter(cfg, tr[..i + 1]) == Open
    requires forall k :: i < k <= j ==> 0 <= tr[k].at - tr[i].done < cfg.openDuration
    ensures tr[j].Rejected?
    ensures StateAfter(cfg, tr[..j + 1]) == Open && LastDone(tr[..j + 1]) == tr[i].done
    decreases j
  {
    LegalPrefix(cfg, tr, j);
    assert tr[..j + 1][..j] == tr[..j];
    if j == i + 1 {
      assert tr[..j] == tr[..i + 1];
    } else {
      NeverRunsEarly(cfg, tr, i, j - 1);
      assert tr[..j] == tr[..(j - 1) + 1];
    }
  }

  /** Rejections after the call that opened the breaker leave it open since that call finished. */
  lemma {:induction false} OpenSince(cfg: Config, tr: seq<Rec>, i: nat)
    requires i < |tr| && tr[i].Ran? && StateAfter(cfg, tr[..i + 1]) == Open
    requires forall k :: i < k < |tr| ==> tr[k].Rejected?
    ensures StateAfter(cfg, tr) == Open && LastDone(tr) == tr[i].done
  {
    if i == |tr| - 1 {
      assert tr[..i + 1] == tr;
    } else {
      var before := tr[..|tr| - 1];
      assert before[..i + 1] == tr[..i + 1];
      OpenSince(cfg, before, i);
    }
  }

  /**
   * An open breaker is tried again exactly when the open duration has passed since the call that
   * opened it finished: until then calls are rejected, and the first one after that runs as a probe.
   */
  lemma RetriesExactly(cfg: Config, tr: seq<Rec>, i: nat, now: int, done: int, ok: bool)
    requires i < |tr| && tr[i].Ran? && StateAfter(cfg, tr[..i + 1]) == Open
    requires forall k :: i < k < |tr| ==> tr[k].Rejected?
    ensures NextRec(cfg, tr, now, done, ok) ==
      if cfg.openDuration > 0 && now - tr[i].done < cfg.openDuration then Rejected(now)
      else Ran(now, done, HalfOpen, ok)
  {
    OpenSince(cfg, tr, i);
  }

  predicate LegalLink(l: Link) {
    || (l.from == Closed && l.to == Open)
    || (l.from == Open && l.to == HalfOpen)
    || (l.from == HalfOpen && l.to == Closed)
    || (l.from == HalfOpen && l.to == Open)
  }

  predicate LegalChain(chain: seq<Link>, last: State) {
    if chain == [] then last == Closed
    else
      var l := chain[|chain| - 1];
      l.to == last && LegalLink(l) && LegalChain(chain[..|chain| - 1], l.from)
  }

  /** A call runs in the current state, or as a probe of an open breaker, and moves it along a legal link. */
  lemma CallMovesLegally(cfg: Config, tr: seq<Rec>)
    requires Legal(cfg, tr) && tr != []
    ensures
      var r, before, after := tr[|tr| - 1], StateAfter(cfg, tr[..|tr| - 1]), StateAfter(cfg, tr);
      && (r.Rejected? ==> before == after == Open)
      && (r.Ran? ==> r.phase == if before == Open then HalfOpen else before)
      && (r.Ran? && r.phase != after ==> LegalLink(Link(r.phase, after, r.done)))
      && (r.Ran? && r.phase != after ==> (r.phase, after) in {(Closed, Open), (HalfOpen, Open), (HalfOpen, Closed)})
  {
  }

  lemma ChainGrows(chain: seq<Link>, from: State, to: State, at: int)
    requires LegalChain(chain, from) && LegalLink(Link(from, to, at))
    ensures LegalChain(chain + [Link(from, to, at)], to)
  {
    assert (chain + [Link(from, to, at)])[..|chain|] == chain;
  }

  /** The transitions of a legal trace link up from closed to the current state. */
  lemma {:induction false} ChainIsLegal(cfg: Config, tr: seq<Rec>)
    requires Legal(cfg, tr)
    ensures LegalChain(ChainOf(cfg, tr), StateAfter(cfg, tr))
  {
    if tr != [] {
      hide StateAfter, LegalChain, NextRec;
      var init, r := tr[..|tr| - 1], tr[|tr| - 1];
      var after := StateAfter(cfg, tr);
      ChainIsLegal(cfg, init);
      CallMovesLegally(cfg, tr);
      var chain := ChainOf(cfg, init);
      if r.Ran? {
        if StateAfter(cfg, init) == Open {
          ChainGrows(chain, Open, HalfOpen, r.at);
          chain := chain + [Link(Open, HalfOpen, r.at)];
        }
        if r.phase != after {
          ChainGrows(chain, r.phase, after, r.done);
          chain := chain + [Link(r.phase, after, r.done)];
        }
      }
      assert chain == ChainOf(cfg, tr);
    }
  }

  lemma {:induction false} TalliesAddUp(tr: seq<Rec>)
    ensures Tally(tr, IsRan) == Tally(tr, IsSuccess) + Tally(tr, IsFailure)
    ensures Tally(tr, IsRan) + Tally(tr, IsRejected) == |tr|
  {
    if tr != [] {
      TalliesAddUp(tr[..|tr| - 1]);
    }
  }

  /** Everything the specification says about a trace grown by its next record. */
  lemma Appended(cfg: Config, tr: seq<Rec>, now: int, done: int, ok: bool)
    requires Legal(cfg, tr)
    ensures
      var r := NextRec(cfg, tr, now, done, ok);
      var tr' := tr + [r];
      && Legal(cfg, tr')
      && StateAfter(cfg, tr') == (
           if r.Rejected? then Open
           else if r.phase == HalfOpen then
             if !ok then Open
             else if 1 + Trailing(tr, ProbeSuccess) >= AtLeastOne(cfg.successThreshold) then Closed
             else HalfOpen
           else if !ok && 1 + Trailing(tr, ClosedFailure) >= AtLeastOne(cfg.failureThreshold) then Open
           else Closed)
      && LastDone(tr') == (if r.Ran? then done else LastDone(tr))
      && ChainOf(cfg, tr') == ChainOf(cfg, tr) + LinksOf(StateAfter(cfg, tr), r, StateAfter(cfg, tr'))
      && Trailing(tr', ClosedFailure) == (if ClosedFailure(r) then 1 + Trailing(tr, ClosedFailure) else 0)
      && Trailing(tr', ProbeSuccess) == (if ProbeSuccess(r) then 1 + Trailing(tr, ProbeSuccess) else 0)
  {
    var r := NextRec(cfg, tr, now, done, ok);
    assert (tr + [r])[..|tr|] == tr;
  }

  lemma TallyAppended(tr: seq<Rec>, r: Rec, p: Rec -> bool)
    ensures Tally(tr + [r], p) == Tally(tr, p) + if p(r) then 1 else 0
  {
    assert (tr + [r])[..|tr|] == tr;
  }

  // ---------------------------------------------------------------------
  // The breaker
  // ---------------------------------------------------------------------

  class Breaker {
    const cfg: Config
    var state: State
    var consecutiveFailures: nat
    var consecutiveSuccesses: nat
    var allowed: nat
    var rejected: nat
    var failures: nat
    var successes: nat
    var transitions: nat
    var halfOpenActive: int
    var openedAt: Option<int>
    var events: seq<Link>

    /** Every call so far, and every transition so far, kept only for the specification. */
    ghost var trace: seq<Rec>
    ghost var chain: seq<Link>

    /** The breaker is exactly where its trace puts it. */
    ghost predicate Valid()
      reads this
    {
      && Legal(cfg, trace)
      && state == StateAfter(cfg, trace)
      && (state == Closed ==> consecutiveFailures == Trailing(trace, ClosedFailure) && consecutiveSuccesses == 0)
      && (state == HalfOpen ==> consecutiveSuccesses == Trailing(trace, ProbeSuccess))
      && (state == Open ==> consecutiveSuccesses == 0 && openedAt == Some(LastDone(trace)))
      && halfOpenActive == 0
      && Counted()
      && chain == ChainOf(cfg, trace)
    }

    ghost predicate Counted()
      reads this
    {
      && allowed == Tally(trace, IsRan)
      && rejected == Tally(trace, IsRejected)
      && successes == Tally(trace, IsSuccess)
      && failures == Tally(trace, IsFailure)
      && Logged()
    }

    ghost predicate Logged()
      reads this
    {
      transitions == |chain| && events == LastOf(chain, MAX_EVENT_HISTORY)
    }

    constructor (cfg: Config)
      ensures Valid() && this.cfg == cfg && trace == [] && state == Closed
    {
      this.cfg := cfg;
      state := Closed;
      consecutiveFailures, consecutiveSuccesses := 0, 0;
      allowed, rejected, failures, successes, transitions := 0, 0, 0, 0, 0;
      halfOpenActive := 0;
      openedAt, events := None, [];
      trace, chain := [], [];
    }

    /**
     * Run an operation that finishes at `done` with `ok`, if the breaker permits it at `now`.
     * The answer is the one the trace specification gives.
     */
    method Call(now: int, done: int, ok: bool) returns (r: Rec)
      requires Valid()
      modifies this
      ensures Valid()
      ensures r == NextRec(cfg, old(trace), now, done, ok)
      ensures trace == old(trace) + [r]
      ensures allowed == successes + failures && halfOpenActive == 0
      ensures LegalChain(chain, state) && events == LastOf(chain, 200)
    {
      hide Trailing, StateAfter, LastDone, ChainOf, Tally, Legal, LegalChain, LastOf;
      CountsStayBelow(cfg, trace);
      Appended(cfg, trace, now, done, ok);
      r := Attempt(now, done, ok);
      assert r == NextRec(cfg, trace, now, done, ok);
      TallyAppended(trace, r, IsRan);
      TallyAppended(trace, r, IsRejected);
      TallyAppended(trace, r, IsSuccess);
      TallyAppended(trace, r, IsFailure);
      trace := trace + [r];
      ChainIsLegal(cfg, trace);
      TalliesAddUp(trace);
    }

    /** The body of `call`, told by how it moves the fields. */
    method Attempt(now: int, done: int, ok: bool) returns (r: Rec)
      requires halfOpenActive == 0 && Logged()
      requires state == Open ==> openedAt.Some?
      modifies `state, `consecutiveFailures, `consecutiveSuccesses, `allowed, `rejected, `failures, `successes,
        `transitions, `halfOpenActive, `openedAt, `events, `chain
      ensures Logged() && halfOpenActive == 0
      ensures r == match old(state)
        case Open =>
          if cfg.openDuration > 0 && now - old(openedAt).value < cfg.openDuration then Rejected(now)
          else Ran(now, done, HalfOpen, ok)
        case phase => Ran(now, done, phase, ok)
      ensures allowed == old(allowed) + (if r.Ran? then 1 else 0)
      ensures rejected == old(rejected) + (if r.Ran? then 0 else 1)
      ensures successes == old(successes) + (if r.Ran? && ok then 1 else 0)
      ensures failures == old(failures) + (if r.Ran? && !ok then 1 else 0)
      ensures chain == old(chain) + LinksOf(old(state), r, state)
      ensures r.Rejected? ==>
        && state == Open && openedAt == old(openedAt)
        && consecutiveSuccesses == old(consecutiveSuccesses)
      ensures r.Ran? && ok && r.phase == Closed ==>
        state == Closed && consecutiveFailures == 0 && consecutiveSuccesses == old(consecutiveSuccesses)
      ensures r.Ran? && ok && r.phase == HalfOpen ==>
        var n := old(consecutiveSuccesses) + 1;
        if n >= cfg.successThreshold then state == Closed && consecutiveFailures == 0 && consecutiveSuccesses == 0
        else state == HalfOpen && consecutiveSuccesses == n
      ensures r.Ran? && !ok ==> consecutiveSuccesses == 0
      ensures r.Ran? && !ok && r.phase == Closed ==>
        && consecutiveFailures == old(consecutiveFailures) + 1
        && if consecutiveFailures >= cfg.failureThreshold then state == Open && openedAt == Some(done)
           else state == Closed
      ensures r.Ran? && !ok && r.phase == HalfOpen ==> state == Open && openedAt == Some(done)
    {
      hide LastOf;
      var phase := AcquireCallPermit(now);
      if phase == None {
        rejected := rejected + 1;
        return Rejected(now);
      }
      allowed := allowed + 1;
      if phase == Some(HalfOpen) {
        halfOpenActive := halfOpenActive - 1;
      }
      if ok {
        OnSuccess(done);
      } else {
        OnFailure(done);
      }
      r := Ran(now, done, phase.value, ok);
    }

    /** The permit names the state the operation runs in. */
    method AcquireCallPermit(now: int) returns (permit: Option<State>)
      requires halfOpenActive == 0 && Logged()
      modifies `state, `transitions, `openedAt, `consecutiveFailures, `halfOpenActive, `events, `chain
      ensures Logged() && consecutiveFailures == old(consecutiveFailures) && openedAt == old(openedAt)
      ensures old(state) == Closed ==>
        && permit == Some(Closed) && state == Closed && halfOpenActive == 0
        && chain == old(chain)
      ensures old(state) == HalfOpen ==>
        && permit == Some(HalfOpen) && state == HalfOpen && halfOpenActive == 1
        && chain == old(chain)
      ensures old(state) == Open ==>
        var elapsed := old(openedAt) == None || cfg.openDuration == 0 || now - old(openedAt).value >= cfg.openDuration;
        && (elapsed ==> permit == Some(HalfOpen) && state == HalfOpen && halfOpenActive == 1)
        && (elapsed ==> chain == old(chain) + [Link(Open, HalfOpen, now)])
        && (!elapsed ==> permit == None && state == Open && halfOpenActive == 0 && chain == old(chain))
    {
      hide LastOf;
      match state
      case Closed => permit := Some(Closed);
      case Open =>
        var elapsed := openedAt == None || Elapsed(openedAt.value, now) >= cfg.openDuration;
        if elapsed {
          Transition(HalfOpen, now);
          permit := TryAcquireHalfOpenPermit();
        } else {
          permit := None;
        }
      case HalfOpen => permit := TryAcquireHalfOpenPermit();
    }

    method TryAcquireHalfOpenPermit() returns (permit: Option<State>)
      modifies `halfOpenActive
      ensures
        var cap := AtLeastOne(cfg.halfOpenMax);
        && (old(halfOpenActive) < cap ==> permit == Some(HalfOpen) && halfOpenActive == old(halfOpenActive) + 1)
        && (old(halfOpenActive) >= cap ==> permit == None && halfOpenActive == old(halfOpenActive))
    {
      var cap := AtLeastOne(cfg.halfOpenMax);
      if halfOpenActive >= cap {
        return None;
      }
      halfOpenActive := halfOpenActive + 1;
      return Some(HalfOpen);
    }

    method OnSuccess(now: int)
      requires Logged()
      modifies `successes, `consecutiveFailures, `consecutiveSuccesses, `state, `transitions, `openedAt,
        `halfOpenActive, `events, `chain
      ensures Logged() && successes == old(successes) + 1 && consecutiveFailures == 0
      ensures old(state) != HalfOpen ==>
        state == old(state) && consecutiveSuccesses == old(consecutiveSuccesses) && openedAt == old(openedAt)
        && halfOpenActive == old(halfOpenActive) && chain == old(chain)
      ensures old(state) == HalfOpen ==>
        var n := old(consecutiveSuccesses) + 1;
        if n >= cfg.successThreshold then
          && state == Closed && consecutiveSuccesses == 0 && openedAt == None && halfOpenActive == 0
          && chain == old(chain) + [Link(HalfOpen, Closed, now)]
        else
          state == HalfOpen && consecutiveSuccesses == n && halfOpenActive == old(halfOpenActive) && chain == old(chain)
    {
      hide LastOf;
      successes := successes + 1;
      consecutiveFailures := 0;
      if state == HalfOpen {
        consecutiveSuccesses := consecutiveSuccesses + 1;
        if consecutiveSuccesses >= cfg.successThreshold {
          consecutiveSuccesses := 0;
          Transition(Closed, now);
        }
      }
    }

    method OnFailure(now: int)
      requires Logged()
      modifies `failures, `consecutiveFailures, `consecutiveSuccesses, `state, `transitions, `openedAt,
        `halfOpenActive, `events, `chain
      ensures Logged() && failures == old(failures) + 1 && consecutiveSuccesses == 0
      ensures old(state) == Closed ==>
        && consecutiveFailures == old(consecutiveFailures) + 1
        && if consecutiveFailures >= cfg.failureThreshold then
             state == Open && openedAt == Some(now) && halfOpenActive == 0
               && chain == old(chain) + [Link(Closed, Open, now)]
           else
             state == Closed && openedAt == old(openedAt) && halfOpenActive == old(halfOpenActive)
               && chain == old(chain)
      ensures old(state) == HalfOpen ==>
        state == Open && openedAt == Some(now) && halfOpenActive == 0
          && chain == old(chain) + [Link(HalfOpen, Open, now)]
      ensures old(state) == Open ==> state == Open && openedAt == old(openedAt) && chain == old(chain)
    {
      hide LastOf;
      failures := failures + 1;
      consecutiveSuccesses := 0;
      match state
      case Closed =>
        consecutiveFailures := consecutiveFailures + 1;
        if consecutiveFailures >= cfg.failureThreshold {
          Transition(Open, now);
        }
      case HalfOpen => Transition(Open, now);
      case Open =>
    }

    method Transition(to: State, now: int)
      requires Logged()
      modifies `state, `transitions, `openedAt, `consecutiveFailures, `halfOpenActive, `events, `chain
      ensures state == to && Logged()
      ensures chain == if old(state) == to then old(chain) else old(chain) + [Link(old(state), to, now)]
      ensures openedAt ==
        if old(state) == to || to == HalfOpen then old(openedAt) else if to == Open then Some(now) else None
      ensures halfOpenActive == if old(state) == to || to == HalfOpen then old(halfOpenActive) else 0
      ensures consecutiveFailures == if old(state) != to && to == Closed then 0 else old(consecutiveFailures)
    {
      var from := state;
      if from == to {
        return;
      }
      state := to;
      transitions := transitions + 1;
      if to == Open {
        openedAt := Some(now);
        halfOpenActive := 0;
      }
      if to == Closed {
        openedAt := None;
        consecutiveFailures := 0;
        halfOpenActive := 0;
      }
      events := events + [Link(from, to, now)];
      chain := chain + [Link(from, to, now)];
      if |events| > MAX_EVENT_HISTORY {
        events := events[|events| - MAX_EVENT_HISTORY..];
      }
    }
  }
}
