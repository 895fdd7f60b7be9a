/**
  How agents of src/agents/engine.ts come to run, what a run costs, and what a failed one
  leaves behind.
*/
module AgentLife {
  import opened Wrappers
  import opened AgentEngine
  import opened AgentRuns

  // ---- the way to running ----------------------------------------------------------------

  /** From which status a transition to each one is accepted. */
  lemma EntersIff(limits: Limits, s: State, target: Status)
    ensures var t := Apply(limits, s, Transition(target));
            var source := s.row.status;
            t.row.status == if Accepted(source, target) then target else source
    ensures var t := Apply(limits, s, Transition(target));
            t.row.lastExecutionAt ==
            if s.row.status == Validating && target == Active then None else s.row.lastExecutionAt
    ensures var t := Apply(limits, s, Transition(target));
            t.executions == s.executions && t.alerts == s.alerts
            && t.row.(status := s.row.status, lastExecutionAt := s.row.lastExecutionAt) == s.row
  {
  }

  predicate Accepted(source: Status, target: Status) {
    match target
    case Deployed => false
    case Validating => source == Deployed
    case Active => source == Validating
    case Running => source == Active || source == Paused
    case Paused => source == Running
    case Terminated => source != Terminated && source != Archived
    case Archived => source == Terminated
  }

  /** How much of validating, active, running, in this order, the calls ask for. */
  function Progress(calls: seq<Call>): (n: nat)
    ensures n <= 3
  {
    if calls == [] then 0
    else
      var n := Progress(calls[..|calls| - 1]);
      var c := calls[|calls| - 1];
      if (n == 0 && c == Transition(Validating)) || (n == 1 && c == Transition(Active))
         || (n == 2 && c == Transition(Running))
      then n + 1 else n
  }

  /** How much of it each status needs. */
  function Needs(status: Status): nat {
    match status
    case Validating => 1
    case Active => 2
    case Running => 3
    case Paused => 3
    case _ => 0
  }

  predicate Behind(s: State, n: nat) {
    Needs(s.row.status) <= n && (s.executions != [] ==> n >= 2)
  }

  lemma BehindKept(limits: Limits, s: State, c: Call, n: nat, m: nat)
    requires Behind(s, n) && n <= m
    requires n == 0 && c == Transition(Validating) ==> m == 1
    requires n == 1 && c == Transition(Active) ==> m == 2
    requires n == 2 && c == Transition(Running) ==> m == 3
    ensures Behind(Apply(limits, s, c), m)
  {
    hide RunStrategy, CountSince, Tripped;
  }

  /** Every agent that is active or has ever run was validated and activated before, in this order,
      and every one that is running or paused was told to run after that. */
  lemma {:induction false} ValidatedFirst(limits: Limits, dca: Option<Dca>, maxDrawdown: int, start: int,
                                          calls: seq<Call>)
    ensures Behind(Run(limits, Created(dca, maxDrawdown, start), calls), Progress(calls))
  {
    hide Apply, Behind;
    if calls == [] {
      NewBehind(dca, maxDrawdown, start);
    } else {
      var n := |calls| - 1;
      ValidatedFirst(limits, dca, maxDrawdown, start, calls[..n]);
      BehindKept(limits, Run(limits, Created(dca, maxDrawdown, start), calls[..n]), calls[n],
                 Progress(calls[..n]), Progress(calls));
    }
  }

  lemma NewBehind(dca: Option<Dca>, maxDrawdown: int, start: int)
    ensures Behind(Created(dca, maxDrawdown, start), 0)
  {
  }

  // ---- what runs cost ---------------------------------------------------------------------

  lemma SumSnoc(steps: seq<nat>, gas: nat)
    ensures Sum(steps + [gas]) == Sum(steps) + gas && Sum([]) == 0
  {
    assert (steps + [gas])[..|steps|] == steps;
  }

  /** A run of an agent without a plan costs the gas of its steps, however it ends, and fails iff
      the strategy throws or its action is not permitted. */
  lemma StrategyRun(limits: Limits, s: State, now: int, st: Strategy, before: seq<nat>, last: nat)
    requires MayRun(limits, s, now) && st.known && s.row.dca == None && st.steps == before + [last]
    ensures var e := Apply(limits, s, Execute(now, st)).executions;
            e == s.executions + [Execution(st.throws || !st.permitted, Sum(before) + last, now)]
    ensures Apply(limits, s, Execute(now, st)).row.totalGasUsed == s.row.totalGasUsed + Sum(before) + last
  {
    hide CountSince, Tripped, Sum, Apply;
    SumSnoc(before, last);
    ApplyCases(limits, s, Execute(now, st));
  }

  // ---- failed runs -------------------------------------------------------------------------

  /** The two breakers: the failure rate comes first; the drawdown breaker trips iff a limit is set
      and the drawdown is beyond it in either direction. */
  lemma DrawdownTripsIff(s: State, now: int)
    ensures Tripped(s, now) in {None, Some(HighFailureRate), Some(CircuitBreak)}
    ensures Tripped(s, now) == Some(CircuitBreak) <==>
            Tripped(s, now) != Some(HighFailureRate) && s.row.currentDrawdown != 0 && s.row.maxDrawdown != 0
            && (s.row.currentDrawdown > s.row.maxDrawdown || -s.row.currentDrawdown > s.row.maxDrawdown)
  {
    hide Recent, FailedIn;
  }

  /** A failed run leaves the agent active. If a breaker trips on it, its alert is raised and the
      gas of the day stays as booked; if none does, nothing is raised, and the gas starts again
      exactly if the last reset is more than a day ago. */
  lemma FailedRun(limits: Limits, s: State, now: int, st: Strategy)
    requires MayRun(limits, s, now) && st.known && RunStrategy(s.row, now, st).1
    ensures var (t, verdict) := Executed(limits, s, now, st);
            var alert := Tripped(Recorded(s, now, st), now);
            var booked := s.row.currentDayGasUsed + RunStrategy(s.row, now, st).0;
            && t.row.status == Active && t.row.failureCount == s.row.failureCount + 1
            && t.row.successfulExecutions == s.row.successfulExecutions
            && (alert.Some? ==> verdict == Thrown && t.alerts == s.alerts + [alert.value]
                                && t.row.currentDayGasUsed == booked)
            && (alert == None ==> verdict == Done(false) && t.alerts == s.alerts
                                  && t.row.currentDayGasUsed == if now - s.row.gasResetAt > 86400000 then 0 else booked)
  {
    hide RunStrategy, CountSince, Tripped;
  }

  /** The inactivity alert is never raised: the check follows a run, which is then the last. */
  lemma {:induction false} NeverInactive(limits: Limits, s: State, calls: seq<Call>)
    requires Inactivity !in s.alerts
    ensures Inactivity !in Run(limits, s, calls).alerts
  {
    hide Apply;
    if calls != [] {
      NeverInactive(limits, s, calls[..|calls| - 1]);
      NoAlarm(limits, Run(limits, s, calls[..|calls| - 1]), calls[|calls| - 1]);
    }
  }

  lemma NoAlarm(limits: Limits, s: State, c: Call)
    requires Inactivity !in s.alerts
    ensures Inactivity !in Apply(limits, s, c).alerts
  {
    hide RunStrategy, CountSince, Tripped;
    if Runs(limits, s, c) {
      DrawdownTripsIff(Recorded(s, c.now, c.strategy), c.now);
    }
  }
}
