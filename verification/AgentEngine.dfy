/**
  The life of one agent in src/agents/engine.ts: status transitions, resource limits,
  accounting of runs, and the daily counters.  Times are milliseconds.
*/
module AgentEngine {
  import opened Wrappers

  datatype Status = Deployed | Validating | Active | Running | Paused | Terminated | Archived

  datatype Dca = Dca(totalBuys: int, buysExecuted: int, frequencyMinutes: int)

  /** The agent's row in the store; dca is the configuration of a dollar-cost-averaging agent. */
  datatype Row = Row(status: Status, dca: Option<Dca>, totalExecutions: nat, successfulExecutions: nat,
                     failureCount: nat, totalGasUsed: nat, currentDayGasUsed: nat, gasResetAt: int,
                     lastExecutionAt: Option<int>, currentDrawdown: int, maxDrawdown: int)

  datatype Execution = Execution(failed: bool, gas: nat, createdAt: int)

  datatype Alert = BudgetExceeded | HighFailureRate | CircuitBreak | Inactivity

  /** The last local midnight at or before a time, whatever the time zone. */
  type Calendar = midnight: int -> int | IsCalendar(midnight) ghost witness time => time

  ghost predicate IsCalendar(midnight: int -> int) {
    forall time, now :: time <= now ==> (midnight(now) <= time <==> midnight(time) == midnight(now))
  }

  datatype Limits = Limits(maxGasPerDay: int, maxExecutionsPerDay: int, midnight: Calendar)

  datatype State = State(row: Row, executions: seq<Execution>, alerts: seq<Alert>)

  /** What is outside the model in one run: whether the agent's template still exists, the gas
      of a strategy's steps, whether it throws, whether the price is close enough for a buy, and
      whether the action is permitted. */
  datatype Strategy = Strategy(known: bool, steps: seq<nat>, throws: bool, withinTolerance: bool, permitted: bool)

  datatype Verdict = Done(success: bool) | Thrown

  const DAY: int := 24 * 60 * 60 * 1000

  predicate MayMove(source: Status, target: Status) {
    match source
    case Deployed => target == Validating || target == Terminated
    case Validating => target == Active || target == Terminated
    case Active => target == Running || target == Terminated
    case Running => target == Paused || target == Terminated
    case Paused => target == Running || target == Terminated
    case Terminated => target == Archived
    case Archived => false
  }

  /** `transitionStatus`; the flag says that it did not throw. */
  function Moved(row: Row, target: Status): (Row, bool) {
    if !MayMove(row.status, target) then (row, false)
    else (row.(status := target,
               lastExecutionAt := if target == Active then None else row.lastExecutionAt), true)
  }

  function Sum(steps: seq<nat>): nat {
    if steps == [] then 0 else Sum(steps[..|steps| - 1]) + steps[|steps| - 1]
  }

  /** `executeDCA`: gas, whether an action needs permission, and the new configuration. */
  function RunDca(dca: Dca, lastExecutionAt: Option<int>, now: int, withinTolerance: bool): (nat, bool, Dca) {
    if dca.totalBuys - dca.buysExecuted <= 0 then (100, false, dca)
    else if now - (if lastExecutionAt.Some? then lastExecutionAt.value else 0) < dca.frequencyMinutes * 60 * 1000
    then (100, false, dca)
    else if !withinTolerance then (5100, true, dca)
    else (50000, true, dca.(buysExecuted := dca.buysExecuted + 1))
  }

  /** The strategy of a run: gas, failure, and the new configuration. */
  function RunStrategy(row: Row, now: int, st: Strategy): (nat, bool, Option<Dca>) {
    if row.dca.Some? then
      var (gas, needs, dca) := RunDca(row.dca.value, row.lastExecutionAt, now, st.withinTolerance);
      (gas, needs && !st.permitted, Some(dca))
    else (Sum(st.steps), st.throws || !st.permitted, row.dca)
  }

  function CountSince(executions: seq<Execution>, time: int): nat {
    if executions == [] then 0
    else CountSince(executions[..|executions| - 1], time)
         + if executions[|executions| - 1].createdAt >= time then 1 else 0
  }

  /** The newest n executions since a time, newest first. */
  function Recent(executions: seq<Execution>, time: int, n: nat): (r: seq<Execution>)
    ensures |r| <= n
    decreases |executions|
  {
    if executions == [] || n == 0 then []
    else
      var last := executions[|executions| - 1];
      var rest := executions[..|executions| - 1];
      if last.createdAt >= time then [last] + Recent(rest, time, n - 1) else Recent(rest, time, n)
  }

  function FailedIn(executions: seq<Execution>): (n: nat)
    ensures n <= |executions|
  {
    if executions == [] then 0
    else FailedIn(executions[..|executions| - 1]) + if executions[|executions| - 1].failed then 1 else 0
  }

  function Abs(x: int): nat {
    if x < 0 then -x else x
  }

  /** The circuit breaker that trips, if any, and its alert. */
  function Tripped(s: State, now: int): Option<Alert> {
    var recent := Recent(s.executions, now - DAY, 20);
    if s.row.totalExecutions >= 5 && |recent| >= 5 && FailedIn(recent) * 10 > |recent| then Some(HighFailureRate)
    else if s.row.currentDrawdown != 0 && s.row.maxDrawdown != 0 && Abs(s.row.currentDrawdown) > s.row.maxDrawdown
    then Some(CircuitBreak)
    else None
  }

  predicate Inactive(row: Row, now: int) {
    row.lastExecutionAt.Some? && now - row.lastExecutionAt.value > DAY
  }

  /** `checkCircuitBreakers`; the flag says that it did not throw. */
  function Checked(s: State, now: int): (State, bool) {
    var alert := Tripped(s, now);
    if alert.Some? then
      var (row, moved) := Moved(s.row, Paused);
      var t := s.(row := row, alerts := s.alerts + [alert.value]);
      if moved && alert == Some(CircuitBreak) && Inactive(row, now) then (t.(alerts := t.alerts + [Inactivity]), true)
      else (t, moved)
    else if Inactive(s.row, now) then (s.(alerts := s.alerts + [Inactivity]), true)
    else (s, true)
  }

  /** `resetDailyGasIfNeeded` */
  function ResetIfDue(row: Row, now: int): Row {
    if now - row.gasResetAt > DAY then row.(currentDayGasUsed := 0, gasResetAt := now) else row
  }

  predicate GasLeft(limits: Limits, row: Row) {
    row.currentDayGasUsed < limits.maxGasPerDay
  }

  /** Nothing stops a run at this time. */
  predicate MayRun(limits: Limits, s: State, now: int) {
    && (s.row.status == Active || s.row.status == Running)
    && GasLeft(limits, s.row)
    && CountSince(s.executions, limits.midnight(now)) < limits.maxExecutionsPerDay
  }

  /** The run itself, up to the update of the agent's row. */
  function Recorded(s: State, now: int, st: Strategy): State {
    var (gas, failed, dca) := RunStrategy(s.row, now, st);
    s.(executions := s.executions + [Execution(failed, gas, now)],
       row := s.row.(dca := dca,
                     totalExecutions := s.row.totalExecutions + 1,
                     successfulExecutions := s.row.successfulExecutions + if failed then 0 else 1,
                     failureCount := s.row.failureCount + if failed then 1 else 0,
                     totalGasUsed := s.row.totalGasUsed + gas,
                     currentDayGasUsed := s.row.currentDayGasUsed + gas,
                     lastExecutionAt := Some(now),
                     status := if failed then Active else s.row.status))
  }

  /** What follows the update of the row. */
  function Settled(t: State, failed: bool, now: int): (State, Verdict) {
    var (u, ok) := if failed then Checked(t, now) else (t, true);
    if ok then (u.(row := ResetIfDue(u.row, now)), Done(!failed)) else (u, Thrown)
  }

  /** `executeAgent` */
  function Executed(limits: Limits, s: State, now: int, st: Strategy): (State, Verdict) {
    if s.row.status != Active && s.row.status != Running then (s, Thrown)
    else if !GasLeft(limits, s.row) then
      (s.(row := Moved(s.row, Paused).0, alerts := s.alerts + [BudgetExceeded]), Thrown)
    else if !MayRun(limits, s, now) || !st.known then (s, Thrown)
    else Settled(Recorded(s, now, st), RunStrategy(s.row, now, st).1, now)
  }

  class Engine {
    const limits: Limits
    const owner: string
    var row: Row
    var executions: seq<Execution>
    var alerts: seq<Alert>

    ghost function Whole(): State
      reads this
    {
      State(row, executions, alerts)
    }

    /** `createAgent` */
    constructor (limits: Limits, owner: string, dca: Option<Dca>, maxDrawdown: int, now: int)
      ensures Whole() == Created(dca, maxDrawdown, now) && this.limits == limits && this.owner == owner
    {
      this.limits, this.owner := limits, owner;
      row := Row(Deployed, dca, 0, 0, 0, 0, 0, now, None, 0, maxDrawdown);
      executions, alerts := [], [];
    }

    method TransitionStatus(target: Status) returns (ok: bool)
      modifies this
      ensures (row, ok) == Moved(old(row), target)
      ensures executions == old(executions) && alerts == old(alerts)
    {
      if !MayMove(row.status, target) {
        return false;
      }
      row := row.(status := target);
      if target == Active {
        row := row.(lastExecutionAt := None);
      }
      ok := true;
    }

    /** `deleteAgent` of src/agents/marketplace.ts */
    method DeleteAgent(caller: string) returns (ok: bool)
      modifies this
      ensures ok == (caller == owner)
      ensures Whole() == if ok then old(Whole()).(row := old(row).(status := Archived)) else old(Whole())
    {
      if caller != owner {
        return false;
      }
      row := row.(status := Archived);
      ok := true;
    }

    method EnforceResourceLimits(now: int) returns (ok: bool)
      requires row.status == Active || row.status == Running
      modifies this
      ensures ok == MayRun(limits, old(Whole()), now)
      ensures Whole() == if GasLeft(limits, old(row)) then old(Whole())
                         else old(Whole()).(row := Moved(old(row), Paused).0, alerts := old(alerts) + [BudgetExceeded])
    {
      if row.currentDayGasUsed >= limits.maxGasPerDay {
        alerts := alerts + [BudgetExceeded];
        var _ := TransitionStatus(Paused);
        return false;
      }
      return CountSince(executions, limits.midnight(now)) < limits.maxExecutionsPerDay;
    }

    method CheckCircuitBreakers(now: int) returns (ok: bool)
      modifies this
      ensures (Whole(), ok) == Checked(old(Whole()), now)
    {
      ok := true;
      if row.totalExecutions >= 5 {
        var recent := Recent(executions, now - DAY, 20);
        if |recent| >= 5 && FailedIn(recent) * 10 > |recent| {
          alerts := alerts + [HighFailureRate];
          ok := TransitionStatus(Paused);
          return;
        }
      }
      if row.currentDrawdown != 0 && row.maxDrawdown != 0 && Abs(row.currentDrawdown) > row.maxDrawdown {
        alerts := alerts + [CircuitBreak];
        ok := TransitionStatus(Paused);
        if !ok {
          return;
        }
      }
      if row.lastExecutionAt.Some? && now - row.lastExecutionAt.value > DAY {
        alerts := alerts + [Inactivity];
      }
    }

    method ExecuteAgent(now: int, st: Strategy) returns (verdict: Verdict)
      modifies this
      ensures (Whole(), verdict) == Executed(limits, old(Whole()), now, st)
    {
      hide RunStrategy, Tripped, CountSince, Checked;
      if row.status != Active && row.status != Running {
        return Thrown;
      }
      var ok := EnforceResourceLimits(now);
      if !ok || !st.known {
        return Thrown;
      }
      var (gas, failed, dca) := RunStrategy(row, now, st);
      row := row.(dca := dca);
      executions := executions + [Execution(failed, gas, now)];
      row := row.(totalExecutions := row.totalExecutions + 1,
      successfulExecutions := row.successfulExecutions + if failed then 0 else 1,
      failureCount := row.failureCount + if failed then 1 else 0,
      totalGasUsed := row.totalGasUsed + gas,
      currentDayGasUsed := row.currentDayGasUsed + gas,
      lastExecutionAt := Some(now));
      if failed {
        row := row.(status := Active);
        ok := CheckCircuitBreakers(now);
        if !ok {
          return Thrown;
        }
      }
      row := ResetIfDue(row, now);
      verdict := Done(!failed);
    }
  }

  function Created(dca: Option<Dca>, maxDrawdown: int, now: int): State {
    State(Row(Deployed, dca, 0, 0, 0, 0, 0, now, None, 0, maxDrawdown), [], [])
  }
}
