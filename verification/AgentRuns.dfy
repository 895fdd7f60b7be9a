/**
  What src/agents/engine.ts keeps over every sequence of calls about one agent, with
  fixed limits and a clock that does not run backwards.
*/
module AgentRuns {
  import opened Wrappers
  import opened AgentEngine

  datatype Call =
    | Execute(now: int, strategy: Strategy)
    | Transition(target: Status)
    | Delete
    | Drawdown(percent: int)       // set from outside

  function Apply(limits: Limits, s: State, c: Call): State {
    match c
    case Execute(now, st) => Executed(limits, s, now, st).0
    case Transition(target) => s.(row := Moved(s.row, target).0)
    case Delete => s.(row := s.row.(status := Archived))
    case Drawdown(percent) => s.(row := s.row.(currentDrawdown := percent))
  }

  function Run(limits: Limits, s: State, calls: seq<Call>): State {
    if calls == [] then s
    else Apply(limits, Run(limits, s, calls[..|calls| - 1]), calls[|calls| - 1])
  }

  // ---- what one call can do ------------------------------------------------------------

  function Gas(executions: seq<Execution>): nat {
    if executions == [] then 0 else Gas(executions[..|executions| - 1]) + executions[|executions| - 1].gas
  }

  predicate Runs(limits: Limits, s: State, c: Call) {
    c.Execute? && MayRun(limits, s, c.now) && c.strategy.known
  }

  /** A call either records no run and leaves the accounts alone, or it is an execution that
      nothing stopped, recorded and accounted for; then the day's gas may start again. */
  lemma ApplyCases(limits: Limits, s: State, c: Call)
    ensures var t := Apply(limits, s, c);
            if Runs(limits, s, c) then
              && t.executions == Recorded(s, c.now, c.strategy).executions
              && SameAccounts(Recorded(s, c.now, c.strategy).row, t.row)
              && (t.row.currentDayGasUsed == Recorded(s, c.now, c.strategy).row.currentDayGasUsed
                  || t.row.currentDayGasUsed == 0)
            else
              t.executions == s.executions && SameAccounts(s.row, t.row)
              && t.row.currentDayGasUsed == s.row.currentDayGasUsed
  {
    hide RunStrategy, Tripped, CountSince;
    if Runs(limits, s, c) {
      SettledKeeps(Recorded(s, c.now, c.strategy), RunStrategy(s.row, c.now, c.strategy).1, c.now);
    }
  }

  lemma SettledKeeps(t: State, failed: bool, now: int)
    ensures var u := Settled(t, failed, now).0;
            && u.executions == t.executions && SameAccounts(t.row, u.row)
            && (u.row.currentDayGasUsed == t.row.currentDayGasUsed || u.row.currentDayGasUsed == 0)
  {
    hide Tripped;
  }

  predicate SameAccounts(a: Row, b: Row) {
    && a.totalExecutions == b.totalExecutions && a.successfulExecutions == b.successfulExecutions
    && a.failureCount == b.failureCount && a.totalGasUsed == b.totalGasUsed && a.dca == b.dca
  }

  // ---- accounting --------------------------------------------------------------------------

  /** The counters are those of the recorded runs. */
  predicate Accounted(s: State) {
    && s.row.totalExecutions == |s.executions|
    && s.row.failureCount == FailedIn(s.executions)
    && s.row.successfulExecutions == |s.executions| - FailedIn(s.executions)
    && s.row.totalGasUsed == Gas(s.executions)
  }

  /** The day's gas is that of the runs from some run on, and was within the limit before the
      last of them. */
  ghost predicate DayGasFrom(limits: Limits, s: State, k: nat) {
    && k <= |s.executions|
    && s.row.currentDayGasUsed == Gas(s.executions[k..])
    && (k < |s.executions| ==>
          s.row.currentDayGasUsed - s.executions[|s.executions| - 1].gas < limits.maxGasPerDay)
  }

  function CountOn(midnight: Calendar, executions: seq<Execution>, day: int): nat {
    if executions == [] then 0
    else CountOn(midnight, executions[..|executions| - 1], day)
         + if midnight(executions[|executions| - 1].createdAt) == day then 1 else 0
  }

  function AtLeast0(x: int): nat {
    if x < 0 then 0 else x
  }

  ghost predicate DailyRuns(limits: Limits, s: State) {
    forall day :: CountOn(limits.midnight, s.executions, day) <= AtLeast0(limits.maxExecutionsPerDay)
  }

  ghost predicate NotAfter(s: State, now: int) {
    forall e :: e in s.executions ==> e.createdAt <= now
  }

  lemma GasSnoc(executions: seq<Execution>, e: Execution)
    ensures Gas(executions + [e]) == Gas(executions) + e.gas
    ensures FailedIn(executions + [e]) == FailedIn(executions) + if e.failed then 1 else 0
  {
    assert (executions + [e])[..|executions|] == executions;
  }

  lemma AccountedKept(limits: Limits, s: State, c: Call)
    requires Accounted(s)
    ensures Accounted(Apply(limits, s, c))
  {
    hide Apply, RunStrategy, MayRun, Gas, FailedIn;
    ApplyCases(limits, s, c);
    if c.Execute? {
      var (gas, failed, _) := RunStrategy(s.row, c.now, c.strategy);
      GasSnoc(s.executions, Execution(failed, gas, c.now));
    }
  }

  /** totalExecutions, successes, failures and gas are those of the recorded runs. */
  lemma {:induction false} AlwaysAccounted(limits: Limits, s: State, calls: seq<Call>)
    requires Accounted(s)
    ensures Accounted(Run(limits, s, calls))
  {
    hide Apply, Accounted;
    if calls != [] {
      AlwaysAccounted(limits, s, calls[..|calls| - 1]);
      AccountedKept(limits, Run(limits, s, calls[..|calls| - 1]), calls[|calls| - 1]);
    }
  }

  // ---- the daily gas -----------------------------------------------------------------------

  lemma DayGasKept(limits: Limits, s: State, c: Call, k: nat) returns (m: nat)
    requires DayGasFrom(limits, s, k)
    ensures DayGasFrom(limits, Apply(limits, s, c), m)
  {
    hide Apply, RunStrategy, CountSince, Gas;
    ApplyCases(limits, s, c);
    var t := Apply(limits, s, c);
    m := k;
    if Runs(limits, s, c) {
      var (gas, failed, _) := RunStrategy(s.row, c.now, c.strategy);
      var e := Execution(failed, gas, c.now);
      if t.row.currentDayGasUsed == s.row.currentDayGasUsed + gas {
        GasSnoc(s.executions[k..], e);
        assert t.executions[k..] == s.executions[k..] + [e];
      } else {
        m := |t.executions|;
        NoGas(t.executions[m..]);
      }
    }
  }

  lemma NoGas(executions: seq<Execution>)
    requires executions == []
    ensures Gas(executions) == 0
  {
  }

  /** The day's gas stays below the limit plus the gas of the last run. */
  lemma {:induction false} AlwaysDayGas(limits: Limits, s: State, calls: seq<Call>, k: nat) returns (m: nat)
    requires DayGasFrom(limits, s, k)
    ensures DayGasFrom(limits, Run(limits, s, calls), m)
  {
    hide Apply, DayGasFrom;
    m := k;
    if calls != [] {
      m := AlwaysDayGas(limits, s, calls[..|calls| - 1], k);
      m := DayGasKept(limits, Run(limits, s, calls[..|calls| - 1]), calls[|calls| - 1], m);
    }
  }

  /** An agent that has used up its gas never runs again: the daily reset comes only after a
      run, and no run passes the check. */
  lemma {:induction false} ExhaustedForGood(limits: Limits, s: State, calls: seq<Call>)
    requires !GasLeft(limits, s.row)
    ensures var t := Run(limits, s, calls);
            t.executions == s.executions && t.row.currentDayGasUsed == s.row.currentDayGasUsed
  {
    hide Apply;
    if calls != [] {
      ExhaustedForGood(limits, s, calls[..|calls| - 1]);
      ApplyCases(limits, Run(limits, s, calls[..|calls| - 1]), calls[|calls| - 1]);
    }
  }

  // ---- the daily runs ------------------------------------------------------------------------

  lemma {:induction false} TodayIsSinceMidnight(midnight: Calendar, executions: seq<Execution>, now: int)
    requires forall e :: e in executions ==> e.createdAt <= now
    ensures CountSince(executions, midnight(now)) == CountOn(midnight, executions, midnight(now))
  {
    if executions != [] {
      TodayIsSinceMidnight(midnight, executions[..|executions| - 1], now);
    }
  }

  lemma CountOnSnoc(midnight: Calendar, executions: seq<Execution>, e: Execution, day: int)
    ensures CountOn(midnight, executions + [e], day) ==
            CountOn(midnight, executions, day) + if midnight(e.createdAt) == day then 1 else 0
  {
    assert (executions + [e])[..|executions|] == executions;
  }

  lemma DailyRunsKept(limits: Limits, s: State, c: Call)
    requires DailyRuns(limits, s) && (c.Execute? ==> NotAfter(s, c.now))
    ensures DailyRuns(limits, Apply(limits, s, c))
  {
    hide Apply, RunStrategy, CountSince, CountOn;
    ApplyCases(limits, s, c);
    if Runs(limits, s, c) {
      var (gas, failed, _) := RunStrategy(s.row, c.now, c.strategy);
      TodayIsSinceMidnight(limits.midnight, s.executions, c.now);
      forall day
        ensures CountOn(limits.midnight, Apply(limits, s, c).executions, day) <= AtLeast0(limits.maxExecutionsPerDay)
      {
        CountOnSnoc(limits.midnight, s.executions, Execution(failed, gas, c.now), day);
      }
    }
  }

  /** The clock readings of the calls do not decrease, and start no earlier than start. */
  predicate Clocked(start: int, calls: seq<Call>) {
    calls == []
    || (Clocked(start, calls[..|calls| - 1])
        && (calls[|calls| - 1].Execute? ==> Latest(start, calls[..|calls| - 1]) <= calls[|calls| - 1].now))
  }

  function Latest(start: int, calls: seq<Call>): int {
    if calls == [] then start
    else if calls[|calls| - 1].Execute? then calls[|calls| - 1].now
    else Latest(start, calls[..|calls| - 1])
  }

  /** On no day more runs than the limit are recorded. */
  lemma {:induction false} AlwaysDailyRuns(limits: Limits, s: State, calls: seq<Call>, start: int)
    requires DailyRuns(limits, s) && NotAfter(s, start) && Clocked(start, calls)
    ensures DailyRuns(limits, Run(limits, s, calls)) && NotAfter(Run(limits, s, calls), Latest(start, calls))
  {
    hide Apply, DailyRuns;
    if calls != [] {
      var p, c := calls[..|calls| - 1], calls[|calls| - 1];
      AlwaysDailyRuns(limits, s, p, start);
      DailyRunsKept(limits, Run(limits, s, p), c);
      hide MayRun;
      ApplyCases(limits, Run(limits, s, p), c);
    }
  }

  // ---- lifecycle ----------------------------------------------------------------------------

  predicate Dead(s: State) {
    s.row.status == Terminated || s.row.status == Archived
  }

  /** A terminated or archived agent stays so and never runs again. */
  lemma {:induction false} DeadForGood(limits: Limits, s: State, calls: seq<Call>)
    requires Dead(s)
    ensures Dead(Run(limits, s, calls)) && Run(limits, s, calls).executions == s.executions
  {
    if calls != [] {
      DeadForGood(limits, s, calls[..|calls| - 1]);
    }
  }

  /** A failed run that trips a circuit breaker raises an alert and throws; it leaves the agent
      active, because an active agent cannot be paused. */
  lemma TripThrows(limits: Limits, s: State, now: int, st: Strategy)
    requires MayRun(limits, s, now) && st.known
    requires RunStrategy(s.row, now, st).1 && Tripped(Recorded(s, now, st), now).Some?
    ensures var (t, verdict) := Executed(limits, s, now, st);
            verdict == Thrown && t.row.status == Active && |t.alerts| == |s.alerts| + 1
            && t.executions == Recorded(s, now, st).executions
  {
    hide RunStrategy, Tripped, CountSince;
  }

  /** An execution of an agent that has used up its gas raises an alert; it pauses the agent
      exactly if the agent is running, not if it is active. */
  lemma ExhaustedPauses(limits: Limits, s: State, now: int, st: Strategy)
    requires !GasLeft(limits, s.row) && (s.row.status == Active || s.row.status == Running)
    ensures var (t, verdict) := Executed(limits, s, now, st);
            verdict == Thrown && |t.alerts| == |s.alerts| + 1
            && (t.row.status == Paused <==> s.row.status == Running)
  {
  }

  // ---- DCA ------------------------------------------------------------------------------------

  predicate WithinPlan(s: State) {
    s.row.dca.Some? ==> s.row.dca.value.buysExecuted <= s.row.dca.value.totalBuys
  }

  lemma PlanKept(limits: Limits, s: State, c: Call)
    requires WithinPlan(s)
    ensures WithinPlan(Apply(limits, s, c))
  {
    hide Apply, CountSince, Sum;
    ApplyCases(limits, s, c);
  }

  /** No more buys than planned. */
  lemma {:induction false} NeverOverbuys(limits: Limits, s: State, calls: seq<Call>)
    requires WithinPlan(s)
    ensures WithinPlan(Run(limits, s, calls))
  {
    hide Apply, WithinPlan;
    if calls != [] {
      NeverOverbuys(limits, s, calls[..|calls| - 1]);
      PlanKept(limits, Run(limits, s, calls[..|calls| - 1]), calls[|calls| - 1]);
    }
  }

  // ---- from creation -------------------------------------------------------------------------

  lemma NewAgent(limits: Limits, dca: Option<Dca>, maxDrawdown: int, now: int)
    ensures var s := Created(dca, maxDrawdown, now);
            Accounted(s) && DayGasFrom(limits, s, 0) && DailyRuns(limits, s) && NotAfter(s, now)
  {
  }

  /** All of this holds of an agent from its creation on. */
  lemma FromCreation(limits: Limits, dca: Option<Dca>, maxDrawdown: int, now: int, calls: seq<Call>)
    returns (k: nat)
    requires Clocked(now, calls)
    ensures var s := Run(limits, Created(dca, maxDrawdown, now), calls);
            Accounted(s) && DayGasFrom(limits, s, k) && DailyRuns(limits, s)
  {
    hide Run, Accounted, DayGasFrom, DailyRuns, Clocked;
    var s := Created(dca, maxDrawdown, now);
    NewAgent(limits, dca, maxDrawdown, now);
    AlwaysAccounted(limits, s, calls);
    k := AlwaysDayGas(limits, s, calls, 0);
    AlwaysDailyRuns(limits, s, calls, now);
  }

  lemma Extend(limits: Limits, start: State, calls: seq<Call>, s: State, c: Call)
    returns (longer: seq<Call>, t: State)
    requires Run(limits, start, calls) == s
    ensures longer == calls + [c] && t == Apply(limits, s, c) && Run(limits, start, longer) == t
  {
    hide Apply;
    longer, t := calls + [c], Apply(limits, s, c);
    assert longer[..|calls|] == calls;
  }

  /** An agent without a plan that has just become active, and has run n times since without
      using gas, the first of them failing. */
  predicate Fresh(s: State, now: int, n: nat) {
    && s.row.status == Active && s.row.dca == None && s.row.totalExecutions == n == |s.executions|
    && s.row.currentDayGasUsed == 0 && s.row.gasResetAt == now && s.row.currentDrawdown == 0
    && (forall i :: 0 <= i < n ==> s.executions[i] == Execution(i == 0, 0, now))
  }

  /** Any agent can be brought there from creation. */
  lemma Activate(limits: Limits, maxDrawdown: int, now: int) returns (calls: seq<Call>)
    ensures Fresh(Run(limits, Created(None, maxDrawdown, now), calls), now, 0)
  {
    var start := Created(None, maxDrawdown, now);
    var s := start;
    calls := [];
    calls, s := Extend(limits, start, calls, s, Transition(Validating));
    calls, s := Extend(limits, start, calls, s, Transition(Active));
  }

  const IDLE: Strategy := Strategy(true, [], false, true, true)
  const BROKEN: Strategy := Strategy(true, [], true, true, true)

  lemma {:induction false} CountAtMost(executions: seq<Execution>, time: int)
    ensures CountSince(executions, time) <= |executions|
  {
    if executions != [] {
      CountAtMost(executions[..|executions| - 1], time);
    }
  }

  /** Few failures among few runs do not trip. */
  lemma NotYet(s: State, now: int)
    requires s.row.totalExecutions < 5 && s.row.currentDrawdown == 0
    ensures Tripped(s, now) == None
  {
  }

  lemma FreshRuns(limits: Limits, s: State, now: int, n: nat)
    requires Fresh(s, now, n) && n < 4 && limits.maxGasPerDay > 0 && limits.maxExecutionsPerDay >= 5
    ensures Fresh(Apply(limits, s, Execute(now, if n == 0 then BROKEN else IDLE)), now, n + 1)
  {
    hide Tripped, CountSince;
    CountAtMost(s.executions, limits.midnight(now));
    NotYet(Recorded(s, now, if n == 0 then BROKEN else IDLE), now);
  }

  /** The failure-rate breaker can trip on any new agent: a failure, three good runs, and a
      failing fifth. */
  lemma TripReached(limits: Limits, maxDrawdown: int, now: int) returns (calls: seq<Call>)
    requires limits.maxGasPerDay > 0 && limits.maxExecutionsPerDay >= 5
    ensures var s := Run(limits, Created(None, maxDrawdown, now), calls);
            && MayRun(limits, s, now) && RunStrategy(s.row, now, BROKEN).1
            && Tripped(Recorded(s, now, BROKEN), now) == Some(HighFailureRate)
  {
    hide Run, Apply, Tripped, CountSince;
    var start := Created(None, maxDrawdown, now);
    calls := Activate(limits, maxDrawdown, now);
    var s := Run(limits, start, calls);
    FreshRuns(limits, s, now, 0);
    calls, s := Extend(limits, start, calls, s, Execute(now, BROKEN));
    FreshRuns(limits, s, now, 1);
    calls, s := Extend(limits, start, calls, s, Execute(now, IDLE));
    FreshRuns(limits, s, now, 2);
    calls, s := Extend(limits, start, calls, s, Execute(now, IDLE));
    FreshRuns(limits, s, now, 3);
    calls, s := Extend(limits, start, calls, s, Execute(now, IDLE));
    CountAtMost(s.executions, limits.midnight(now));
    FifthTrips(s, now);
  }

  lemma FifthTrips(s: State, now: int)
    requires Fresh(s, now, 4)
    ensures Tripped(Recorded(s, now, BROKEN), now) == Some(HighFailureRate)
  {
    var t := Recorded(s, now, BROKEN);
    var e := t.executions;
    assert |e| == 5 && e[4].failed;
    RecentAll(e, now - DAY, 20);
    assert Recent(e, now - DAY, 20)[0] == e[4];
    HasFailure(Recent(e, now - DAY, 20), 0);
  }

  lemma {:induction false} RecentAll(executions: seq<Execution>, time: int, n: nat)
    requires |executions| <= n && forall e :: e in executions ==> e.createdAt >= time
    ensures |Recent(executions, time, n)| == |executions|
    ensures executions != [] ==> Recent(executions, time, n)[0] == executions[|executions| - 1]
    decreases |executions|
  {
    if executions != [] {
      RecentAll(executions[..|executions| - 1], time, n - 1);
    }
  }

  lemma {:induction false} HasFailure(executions: seq<Execution>, i: nat)
    requires i < |executions| && executions[i].failed
    ensures FailedIn(executions) >= 1
  {
    if i < |executions| - 1 {
      HasFailure(executions[..|executions| - 1], i);
    }
  }

  /** A single run within the limits can use up the gas; after it the agent is active, and refused
      at every later time, whatever else happens. */
  lemma ExhaustionReached(limits: Limits, maxDrawdown: int, now: int) returns (calls: seq<Call>)
    requires limits.maxGasPerDay > 0 && limits.maxExecutionsPerDay > 0
    ensures var s := Run(limits, Created(None, maxDrawdown, now), calls);
            && !GasLeft(limits, s.row) && s.row.status == Active && |s.executions| == 1
            && forall more, later, st :: Executed(limits, Run(limits, s, more), later, st).1 == Thrown
  {
    hide Run, Tripped, CountSince;
    var start := Created(None, maxDrawdown, now);
    calls := Activate(limits, maxDrawdown, now);
    var s := Run(limits, start, calls);
    CountAtMost(s.executions, limits.midnight(now));
    var greedy := Strategy(true, [limits.maxGasPerDay], false, true, true);
    SumOne(limits.maxGasPerDay);
    calls, s := Extend(limits, start, calls, s, Execute(now, greedy));
    forall more, later, st
      ensures Executed(limits, Run(limits, s, more), later, st).1 == Thrown
    {
      ExhaustedForGood(limits, s, more);
    }
  }

  lemma SumOne(gas: nat)
    ensures Sum([gas]) == gas
  {
    assert [gas][..0] == [];
  }
}
