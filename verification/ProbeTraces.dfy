/**
 * Calls one after the other, in the atomic steps of HalfOpenProbes: they do what the trace
 * specification of CircuitBreaker says, and they bring a quiet breaker back to closed.
 */
module ProbeTraces {

  import opened CircuitBreaker
  import opened HalfOpenProbes

  /** What a whole call does to a breaker that nothing else touches meanwhile. */
  function AfterCall(cfg: HalfOpenProbes.Config, s: System, elapsed: bool, ok: bool): System {
    if s.state == Closed then
      if ok then s.(failures := 0)
      else
        var f := s.(failures := s.failures + 1, successes := 0);
        if f.failures >= cfg.failureThreshold then f.(state := Open, active := 0) else f
    else if s.state == Open && !elapsed then s
    else if s.active >= CapOf(cfg) then s.(state := HalfOpen)
    else if !ok then s.(state := Open, active := 0, successes := 0)
    else if s.successes + 1 >= cfg.successThreshold then System(Closed, 0, 0, 0, s.calls)
    else s.(state := HalfOpen, failures := 0, successes := s.successes + 1)
  }

  /** A call that starts closed and succeeds clears the failures. */
  lemma SucceedsClosed(cfg: HalfOpenProbes.Config, s: System, t: nat)
    requires s.state == Closed && t !in s.calls
    ensures Leads(cfg, s, s.(failures := 0))
  {
    hide Leads;
    LeadsNowhere(cfg, s);
    var s1 := Goes(s, t, Running(false));
    ThenStep(cfg, s, s, Arrive(t, false), s1);
    var s2 := Goes(s, t, Reporting(true));
    SameCall(s, t, Running(false), Reporting(true));
    ThenStep(cfg, s, s1, Finish(t, true), s2);
    var z := s.(failures := 0);
    var s3 := Goes(z, t, Looking(true));
    SameCall(z, t, Reporting(true), Looking(true));
    ThenStep(cfg, s, s2, Advance(t), s3);
    SameCall(z, t, Looking(true), Looking(true));
    ThenStep(cfg, s, s3, Advance(t), z);
  }

  /** A probe that has returned gave its permit back and is about to report. */
  lemma ProbeReports(cfg: HalfOpenProbes.Config, s: System, t: nat, ok: bool)
    requires s.state != Closed && t !in s.calls && s.active < CapOf(cfg)
    ensures Leads(cfg, s, Goes(s.(state := HalfOpen), t, Reporting(ok)))
  {
    hide Leads;
    ProbeStarts(cfg, s, t);
    var h := s.(state := HalfOpen);
    SameCall(h, t, Running(true), Reporting(ok));
    ThenStep(cfg, s, Goes(h.(active := s.active + 1), t, Running(true)), Finish(t, ok), Goes(h, t, Reporting(ok)));
  }

  lemma ProbeFails(cfg: HalfOpenProbes.Config, s: System, t: nat)
    requires s.state != Closed && t !in s.calls && s.active < CapOf(cfg)
    ensures Leads(cfg, s, s.(state := Open, active := 0, successes := 0))
  {
    hide Leads;
    ProbeReports(cfg, s, t, false);
    var z := s.(state := HalfOpen, successes := 0);
    SameCall(z, t, Reporting(false), Looking(false));
    ThenStep(cfg, s, Goes(s.(state := HalfOpen), t, Reporting(false)), Advance(t), Goes(z, t, Looking(false)));
    SameCall(z, t, Looking(false), Moving(Open));
    ThenStep(cfg, s, Goes(z, t, Looking(false)), Advance(t), Goes(z, t, Moving(Open)));
    Opens(cfg, Goes(z, t, Moving(Open)), t);
    var o := z.(state := Open, active := 0);
    SameCall(o, t, Moving(Open), Moving(Open));
    LeadsOn(cfg, s, Goes(z, t, Moving(Open)), o);
  }

  lemma ProbeAdds(cfg: HalfOpenProbes.Config, s: System, t: nat)
    requires s.state != Closed && t !in s.calls && s.active < CapOf(cfg)
    ensures Leads(cfg, s, Goes(s.(state := HalfOpen, failures := 0), t, Adding(true)))
  {
    hide Leads;
    ProbeReports(cfg, s, t, true);
    var z := s.(state := HalfOpen, failures := 0);
    SameCall(z, t, Reporting(true), Looking(true));
    ThenStep(cfg, s, Goes(s.(state := HalfOpen), t, Reporting(true)), Advance(t), Goes(z, t, Looking(true)));
    SameCall(z, t, Looking(true), Adding(true));
    ThenStep(cfg, s, Goes(z, t, Looking(true)), Advance(t), Goes(z, t, Adding(true)));
  }

  /** From a decision to close, the state is stored and the counts and the counter are reset. */
  lemma Closes(cfg: HalfOpenProbes.Config, s: System, t: nat)
    requires s.state == HalfOpen && t in s.calls && s.calls[t] == Clearing
    ensures Leads(cfg, s, Leaves(System(Closed, 0, 0, 0, s.calls), t))
  {
    hide Leads;
    LeadsNowhere(cfg, s);
    var z := s.(successes := 0);
    ThenStep(cfg, s, s, Advance(t), Goes(z, t, Moving(Closed)));
    SameCall(z, t, Moving(Closed), Storing(Closed));
    ThenStep(cfg, s, Goes(z, t, Moving(Closed)), Advance(t), Goes(z, t, Storing(Closed)));
    var c := z.(state := Closed);
    SameCall(c, t, Storing(Closed), Forgetting);
    ThenStep(cfg, s, Goes(z, t, Storing(Closed)), Advance(t), Goes(c, t, Forgetting));
    var f := c.(failures := 0);
    SameCall(f, t, Forgetting, Resetting);
    ThenStep(cfg, s, Goes(c, t, Forgetting), Advance(t), Goes(f, t, Resetting));
    SameCall(f.(active := 0), t, Resetting, Resetting);
    ThenStep(cfg, s, Goes(f, t, Resetting), Reset(t), Leaves(f.(active := 0), t));
  }

  lemma ProbeSucceeds(cfg: HalfOpenProbes.Config, s: System, t: nat)
    requires s.state != Closed && t !in s.calls && s.active < CapOf(cfg)
    ensures Leads(cfg, s, AfterCall(cfg, s, true, true))
  {
    hide Leads, CapOf;
    ProbeAdds(cfg, s, t);
    var z := s.(state := HalfOpen, failures := 0);
    var n := z.(successes := s.successes + 1);
    if s.successes + 1 < cfg.successThreshold {
      SameCall(n, t, Adding(true), Adding(true));
      ThenStep(cfg, s, Goes(z, t, Adding(true)), Advance(t), n);
    } else {
      var m := Goes(n, t, Clearing);
      SameCall(n, t, Adding(true), Clearing);
      ThenStep(cfg, s, Goes(z, t, Adding(true)), Advance(t), m);
      Closes(cfg, m, t);
      var c := System(Closed, 0, 0, 0, s.calls);
      SameCall(c, t, Clearing, Clearing);
      LeadsOn(cfg, s, m, c);
    }
  }

  /** The steps of a call that runs alone, put together, are one move of the breaker. */
  lemma CallAlone(cfg: HalfOpenProbes.Config, s: System, t: nat, elapsed: bool, ok: bool)
    requires t !in s.calls
    ensures Leads(cfg, s, AfterCall(cfg, s, elapsed, ok))
  {
    hide Leads, CapOf;
    if s.state == Closed {
      if ok {
        SucceedsClosed(cfg, s, t);
      } else if s.failures + 1 < cfg.failureThreshold {
        OneMoreFailure(cfg, s, t);
      } else {
        LastFailure(cfg, s, t);
      }
    } else if s.state == Open && !elapsed {
      LeadsNowhere(cfg, s);
      ThenStep(cfg, s, s, Arrive(t, false), s);
    } else if s.active >= CapOf(cfg) {
      ProbeRefused(cfg, s, t);
    } else if ok {
      ProbeSucceeds(cfg, s, t);
    } else {
      ProbeFails(cfg, s, t);
    }
  }

  // ---------------------------------------------------------------------
  // Traces
  // ---------------------------------------------------------------------

  /** The same settings, as the sequential breaker holds them. */
  function Settings(cfg: HalfOpenProbes.Config, openDuration: nat): CircuitBreaker.Config {
    CircuitBreaker.Config(cfg.failureThreshold, cfg.successThreshold, openDuration, cfg.halfOpenMax)
  }

  /** The breaker is idle, in the state the trace ends in, with the counts of the trace. */
  ghost predicate Matches(c: CircuitBreaker.Config, tr: seq<Rec>, s: System) {
    && s.calls == map[] && s.active == 0 && s.state == StateAfter(c, tr)
    && (s.state == Closed ==> s.failures == Trailing(tr, ClosedFailure) && s.successes == 0)
    && (s.state != Closed ==> s.successes == Trailing(tr, ProbeSuccess))
  }

  /** One more call moves the atomic breaker the way it moves the trace. */
  lemma MatchesNext(cfg: HalfOpenProbes.Config, d: nat, tr: seq<Rec>, s: System, now: int, done: int, ok: bool)
    requires Legal(Settings(cfg, d), tr) && Matches(Settings(cfg, d), tr, s)
    ensures
      var r := NextRec(Settings(cfg, d), tr, now, done, ok);
      Matches(Settings(cfg, d), tr + [r], AfterCall(cfg, s, r.Ran?, ok))
  {
    var c := Settings(cfg, d);
    CountsStayBelow(c, tr);
    Appended(c, tr, now, done, ok);
    hide Trailing, StateAfter, Legal, LastDone, ChainOf;
  }

  /**
   * Every legal trace of the sequential breaker is a run of atomic steps that ends where the
   * specification says, for all thresholds, probe limits and open durations.
   */
  lemma {:induction false} TracesAreRuns(cfg: HalfOpenProbes.Config, d: nat, tr: seq<Rec>) returns (s: System)
    requires Legal(Settings(cfg, d), tr)
    ensures Leads(cfg, INITIAL, s) && Matches(Settings(cfg, d), tr, s)
  {
    if tr == [] {
      LeadsNowhere(cfg, INITIAL);
      s := INITIAL;
    } else {
      var before, r := tr[..|tr| - 1], tr[|tr| - 1];
      var m := TracesAreRuns(cfg, d, before);
      assert before + [r] == tr;
      assert m.calls == map[];
      var ok := r.Ran? && r.ok;
      assert r == NextRec(Settings(cfg, d), before, r.at, if r.Ran? then r.done else r.at, ok);
      hide Leads, Matches, NextRec, AfterCall, Legal;
      MatchesNext(cfg, d, before, m, r.at, if r.Ran? then r.done else r.at, ok);
      CallAlone(cfg, m, 0, r.Ran?, ok);
      s := AfterCall(cfg, m, r.Ran?, ok);
      LeadsOn(cfg, INITIAL, m, s);
    }
  }

  // ---------------------------------------------------------------------
  // Recovery
  // ---------------------------------------------------------------------

  /** Enough probes that succeed close the breaker, from open or half-open, if there is room for one. */
  lemma {:induction false} SuccessesClose(cfg: HalfOpenProbes.Config, s: System, t: nat)
    requires s.state != Closed && t !in s.calls && s.active < CapOf(cfg)
    ensures Leads(cfg, s, System(Closed, 0, 0, 0, s.calls))
    decreases cfg.successThreshold - s.successes
  {
    hide Leads, CapOf;
    CallAlone(cfg, s, t, true, true);
    if s.successes + 1 < cfg.successThreshold {
      var m := AfterCall(cfg, s, true, true);
      SuccessesClose(cfg, m, t);
      LeadsOn(cfg, s, m, System(Closed, 0, 0, 0, s.calls));
    }
  }

  /** A breaker with no call in flight whose resets were all clean is not stuck: it can close. */
  lemma CleanRunRecovers(cfg: HalfOpenProbes.Config, actions: seq<Action>)
    requires Run(cfg, actions).Some? && CleanResets(cfg, actions) && Run(cfg, actions).value.calls == map[]
    ensures
      var s := Run(cfg, actions).value;
      s.state == Closed || Leads(cfg, s, System(Closed, 0, 0, 0, map[]))
  {
    var s := Run(cfg, actions).value;
    assert actions[..|actions|] == actions;
    CleanMeansExact(cfg, actions, |actions|);
    assert s.active == 0;
    if s.state != Closed {
      SuccessesClose(cfg, s, 0);
    }
  }
}
