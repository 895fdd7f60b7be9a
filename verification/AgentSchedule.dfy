/**
  When agents of src/agents/engine.ts run and buy: what decides that a call records a run,
  and the schedule of a dollar-cost-averaging plan.
*/
module AgentSchedule {
  import opened Wrappers
  import opened AgentEngine
  import opened AgentRuns

  // ---- when a call records a run --------------------------------------------------------

  /** A call records a run iff the agent is active or running, its gas of the day is below the
      limit, fewer runs than the limit are recorded on that day, and its template exists. */
  lemma RecordsIff(limits: Limits, s: State, now: int, st: Strategy)
    requires NotAfter(s, now)
    ensures var e := Apply(limits, s, Execute(now, st)).executions;
            && (|e| == |s.executions| + 1 <==>
                (s.row.status == Active || s.row.status == Running)
                && s.row.currentDayGasUsed < limits.maxGasPerDay
                && CountOn(limits.midnight, s.executions, limits.midnight(now)) < limits.maxExecutionsPerDay
                && st.known)
            && (|e| != |s.executions| + 1 ==> e == s.executions)
  {
    hide RunStrategy, Apply, CountSince, CountOn;
    ApplyCases(limits, s, Execute(now, st));
    TodayIsSinceMidnight(limits.midnight, s.executions, now);
  }

  /** A run that succeeds leaves status and alerts, and the gas of the day as booked, or nothing of
      it exactly if the last reset is more than a day ago. */
  lemma SuccessResets(limits: Limits, s: State, now: int, st: Strategy)
    requires MayRun(limits, s, now) && st.known && !RunStrategy(s.row, now, st).1
    ensures var t := Apply(limits, s, Execute(now, st));
            var (gas, _, _) := RunStrategy(s.row, now, st);
            t.row.status == s.row.status && t.alerts == s.alerts &&
            if now - s.row.gasResetAt > 24 * 60 * 60 * 1000
            then t.row.currentDayGasUsed == 0 && t.row.gasResetAt == now
            else t.row.currentDayGasUsed == s.row.currentDayGasUsed + gas && t.row.gasResetAt == s.row.gasResetAt
  {
    hide RunStrategy, CountSince, Tripped;
  }

  // ---- the schedule of a plan ----------------------------------------------------------------

  /** The plan is not finished, and its interval has passed since the last execution. */
  predicate Due(row: Row, now: int) {
    row.dca.Some? && row.dca.value.buysExecuted < row.dca.value.totalBuys
    && now - (if row.lastExecutionAt.Some? then row.lastExecutionAt.value else 0)
       >= row.dca.value.frequencyMinutes * 60000
  }

  /** What a run of an agent with a plan does: it waits unless the plan is due, skips if the price
      is too far off, and otherwise buys once; only then does it need the permission. */
  lemma PlanRun(limits: Limits, s: State, now: int, st: Strategy)
    requires MayRun(limits, s, now) && st.known && s.row.dca.Some?
    ensures var t := Apply(limits, s, Execute(now, st));
            var e := t.executions[|t.executions| - 1];
            var plan := s.row.dca.value;
            && t.executions == s.executions + [e] && e.createdAt == now && t.row.lastExecutionAt == Some(now)
            && (!Due(s.row, now) ==> e.gas == 100 && !e.failed && t.row.dca == s.row.dca)
            && (Due(s.row, now) && !st.withinTolerance ==>
                  e.gas == 5100 && e.failed == !st.permitted && t.row.dca == s.row.dca)
            && (Due(s.row, now) && st.withinTolerance ==>
                  e.gas == 50000 && e.failed == !st.permitted
                  && t.row.dca == Some(plan.(buysExecuted := plan.buysExecuted + 1)))
  {
    hide CountSince, Tripped, Sum;
  }

  function BuysOf(s: State): int {
    if s.row.dca.Some? then s.row.dca.value.buysExecuted else 0
  }

  /** Only a due execution within the tolerance raises the counter, and by one. */
  lemma RaiseIsDue(limits: Limits, s: State, c: Call)
    ensures var t := Apply(limits, s, c);
            BuysOf(t) == BuysOf(s) || (BuysOf(t) == BuysOf(s) + 1 && c.Execute? && Due(s.row, c.now)
                                       && c.strategy.withinTolerance && t.row.lastExecutionAt == Some(c.now))
  {
    hide CountSince, Tripped, Sum;
    if Runs(limits, s, c) && s.row.dca.Some? {
      PlanRun(limits, s, c.now, c.strategy);
    }
  }

  /** What a call leaves of the schedule. */
  lemma ScheduleKept(limits: Limits, s: State, c: Call)
    ensures var t := Apply(limits, s, c);
            && (t.row.dca.Some? <==> s.row.dca.Some?)
            && (s.row.dca.Some? ==> t.row.dca.value.frequencyMinutes == s.row.dca.value.frequencyMinutes)
            && (c != Transition(Active) ==>
                  t.row.lastExecutionAt == s.row.lastExecutionAt
                  || (c.Execute? && t.row.lastExecutionAt == Some(c.now)))
  {
    hide CountSince, Tripped, Sum;
  }

  predicate RaisesAt(limits: Limits, s: State, calls: seq<Call>, i: nat)
    requires i < |calls|
  {
    BuysOf(Run(limits, s, calls[..i + 1])) > BuysOf(Run(limits, s, calls[..i]))
  }

  lemma RunStep(limits: Limits, s: State, calls: seq<Call>, i: nat)
    requires i < |calls|
    ensures Run(limits, s, calls[..i + 1]) == Apply(limits, Run(limits, s, calls[..i]), calls[i])
  {
    hide Apply;
    assert calls[..i + 1][..i] == calls[..i];
  }

  /** The clock does not run backwards between executions. */
  predicate Forward(calls: seq<Call>) {
    forall k, l :: 0 <= k < l < |calls| && calls[k].Execute? && calls[l].Execute? ==> calls[k].now <= calls[l].now
  }

  /** After a buy the last execution is that of the buy or a later one. */
  lemma {:induction false} LastSinceBuy(limits: Limits, s: State, calls: seq<Call>, i: nat, j: nat)
    requires i < j <= |calls| && RaisesAt(limits, s, calls, i)
    requires Forward(calls)
    requires forall k :: i < k < j ==> calls[k] != Transition(Active)
    ensures calls[i].Execute?
    ensures var last := Run(limits, s, calls[..j]).row.lastExecutionAt;
            last.Some? && last.value >= calls[i].now
    ensures var a, b := Run(limits, s, calls[..i]).row.dca, Run(limits, s, calls[..j]).row.dca;
            a.Some? && b.Some? && a.value.frequencyMinutes == b.value.frequencyMinutes
    decreases j - i
  {
    hide Apply, Run, Due;
    if j == i + 1 {
      RunStep(limits, s, calls, i);
      RaiseIsDue(limits, Run(limits, s, calls[..i]), calls[i]);
      ScheduleKept(limits, Run(limits, s, calls[..i]), calls[i]);
      HasPlan(Run(limits, s, calls[..i]), calls[i]);
    } else {
      LastSinceBuy(limits, s, calls, i, j - 1);
      RunStep(limits, s, calls, j - 1);
      ScheduleKept(limits, Run(limits, s, calls[..j - 1]), calls[j - 1]);
    }
  }

  lemma HasPlan(s: State, c: Call)
    ensures c.Execute? && Due(s.row, c.now) ==> s.row.dca.Some?
  {
  }

  /** Two buys of a run are at least the plan's interval apart, if the clock does not run backwards
      and the agent does not become active in between, which forgets its last execution. */
  lemma BuysApart(limits: Limits, s: State, calls: seq<Call>, i: nat, j: nat)
    requires i < j < |calls| && RaisesAt(limits, s, calls, i) && RaisesAt(limits, s, calls, j)
    requires Forward(calls)
    requires forall k :: i < k < j ==> calls[k] != Transition(Active)
    ensures calls[i].Execute? && calls[j].Execute?
    ensures var plan := Run(limits, s, calls[..i]).row.dca;
            plan.Some? && calls[j].now - calls[i].now >= plan.value.frequencyMinutes * 60000
  {
    hide Apply, Run;
    LastSinceBuy(limits, s, calls, i, j);
    RunStep(limits, s, calls, j);
    RaiseIsDue(limits, Run(limits, s, calls[..j]), calls[j]);
  }

  // ---- the failure rate ------------------------------------------------------------------------

  predicate Ordered(executions: seq<Execution>) {
    forall i, j :: 0 <= i < j < |executions| ==> executions[i].createdAt <= executions[j].createdAt
  }

  lemma RecentStep(p: seq<Execution>, last: Execution, time: int, n: nat)
    requires n > 0
    ensures Recent(p + [last], time, n) ==
            if last.createdAt >= time then [last] + Recent(p, time, n - 1) else Recent(p, time, n)
    ensures CountSince(p + [last], time) == CountSince(p, time) + if last.createdAt >= time then 1 else 0
  {
    assert (p + [last])[..|p|] == p;
  }

  lemma SuffixSnoc(p: seq<Execution>, last: Execution, m: nat)
    requires m <= |p|
    ensures FailedIn((p + [last])[|p| - m..]) == FailedIn(p[|p| - m..]) + if last.failed then 1 else 0
  {
    assert (p + [last])[|p| - m..] == p[|p| - m..] + [last];
    GasSnoc(p[|p| - m..], last);
  }

  lemma NoRecent(executions: seq<Execution>, time: int)
    ensures Recent(executions, time, 0) == [] && FailedIn([]) == 0 && CountSince([], time) == 0
    ensures forall n :: Recent([], time, n) == []
  {
  }

  /** The end of the history of m runs is what the breaker sees. */
  predicate Sees(executions: seq<Execution>, time: int, n: nat, m: nat) {
    && m <= n && m <= CountSince(executions, time) && m <= |executions|
    && (m == n || m == CountSince(executions, time))
    && |Recent(executions, time, n)| == m
    && FailedIn(Recent(executions, time, n)) == FailedIn(executions[|executions| - m..])
  }

  /** The newest runs since a time, at most n, are the end of the history. */
  lemma {:induction false} RecentIsSuffix(executions: seq<Execution>, time: int, n: nat) returns (m: nat)
    requires Ordered(executions)
    ensures Sees(executions, time, n, m)
    decreases |executions|
  {
    hide Ordered, Recent, CountSince, FailedIn;
    NoRecent(executions, time);
    if executions == [] || n == 0 {
      m := 0;
      assert executions[|executions|..] == [];
    } else {
      var k := |executions| - 1;
      var p, last := executions[..k], executions[k];
      assert executions == p + [last];
      PrefixOrdered(executions);
      RecentStep(p, last, time, n);
      if last.createdAt >= time {
        m := RecentIsSuffix(p, time, n - 1);
        FailedCons(last, Recent(p, time, n - 1));
        SuffixSnoc(p, last, m);
        m := m + 1;
      } else {
        OldHistory(executions, time);
        m := RecentIsSuffix(p, time, n);
        assert executions[|executions|..] == [] && p[|p|..] == [];
      }
    }
  }

  lemma PrefixOrdered(executions: seq<Execution>)
    requires executions != [] && Ordered(executions)
    ensures Ordered(executions[..|executions| - 1])
  {
  }

  lemma {:induction false} FailedCons(e: Execution, executions: seq<Execution>)
    ensures FailedIn([e] + executions) == (if e.failed then 1 else 0) + FailedIn(executions)
    decreases |executions|
  {
    if executions == [] {
      assert [e] + executions == [e];
      assert [e][..0] == [];
    } else {
      var n := |executions| - 1;
      assert ([e] + executions)[..n + 1] == [e] + executions[..n];
      FailedCons(e, executions[..n]);
    }
  }

  /** If the newest run is too old, all are. */
  lemma {:induction false} OldHistory(executions: seq<Execution>, time: int)
    requires Ordered(executions)
    requires executions != [] ==> executions[|executions| - 1].createdAt < time
    ensures CountSince(executions, time) == 0
  {
    if executions != [] {
      OldHistory(executions[..|executions| - 1], time);
    }
  }

  /** The breaker for the failure rate trips iff at least five runs are recorded in all, and of the
      newest runs of the last day, at most 20 but at least 5, more than a tenth failed. */
  lemma RateTripsIff(s: State, now: int) returns (m: nat)
    requires Ordered(s.executions)
    ensures m <= |s.executions|
    ensures m == 20 || m == CountSince(s.executions, now - 24 * 60 * 60 * 1000)
    ensures m <= 20 && m <= CountSince(s.executions, now - 24 * 60 * 60 * 1000)
    ensures Tripped(s, now) == Some(HighFailureRate) <==>
            s.row.totalExecutions >= 5 && m >= 5 && 10 * FailedIn(s.executions[|s.executions| - m..]) > m
  {
    hide Recent, FailedIn;
    m := RecentIsSuffix(s.executions, now - DAY, 20);
  }
}
