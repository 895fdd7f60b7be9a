/**
  The generation pipeline of scripts/sdk/graceful-degradation.ts: retries, a circuit
  breaker per component, fail-fast critical handlers and fallbacks for optional ones.
*/
module Breaker {
  import opened Wrappers

  datatype File = File(path: string, content: string)

  /** What a call of `execute` or `fallback` does. */
  datatype Attempt = Returns(files: seq<File>) | Throws(message: string)

  /** A handler, with what the n-th call of `execute` will do, and the two clock readings of
      its turn: at the breaker check and at the recording of a failure. */
  datatype Handler = Handler(name: string, critical: bool, fallback: Option<Attempt>,
                             execute: nat -> Attempt, checkedAt: int, failedAt: int)

  datatype Failures = Failures(count: nat, lastFailure: int)

  type Circuits = map<string, Failures>

  datatype Config = Config(maxRetries: nat, threshold: int, timeout: int)

  datatype Turn = Success(files: seq<File>) | Failure(error: string, recoverable: bool)

  datatype ErrorRecord = ErrorRecord(component: string, error: string, recoverable: bool)

  datatype Outcome = Outcome(success: bool, partial: bool, files: seq<File>, failed: seq<string>,
                             fallbacks: seq<string>, errors: seq<ErrorRecord>)

  const OPEN_MESSAGE := "Circuit breaker is open for this component"
  const UNKNOWN_ERROR := "Unknown error"

  // ---- one handler ---------------------------------------------------------------------

  predicate TimedOut(cfg: Config, f: Failures, now: int) {
    now - f.lastFailure > cfg.timeout
  }

  /** The component may not run at this time. */
  predicate Open(cfg: Config, s: Circuits, name: string, now: int) {
    name in s && !TimedOut(cfg, s[name], now) && s[name].count >= cfg.threshold
  }

  function AfterCheck(cfg: Config, s: Circuits, name: string, now: int): Circuits {
    if name in s && TimedOut(cfg, s[name], now) then s - {name} else s
  }

  function AfterFailure(s: Circuits, name: string, now: int): Circuits {
    s[name := Failures(if name in s then s[name].count + 1 else 1, now)]
  }

  /** The index of the first of the calls i, ..., n - 1 that returns, or n. */
  function FirstReturn(execute: nat -> Attempt, i: nat, n: nat): (k: nat)
    requires i <= n
    ensures i <= k <= n && (k < n ==> execute(k).Returns?)
    ensures forall j :: i <= j < k ==> execute(j).Throws?
    decreases n - i
  {
    if i == n || execute(i).Returns? then i else FirstReturn(execute, i + 1, n)
  }

  function OrUnknown(message: string): string {
    if message == "" then UNKNOWN_ERROR else message
  }

  /** How a handler's turn ends, what it leaves in the breaker, and how often it calls `execute`. */
  function TurnOf(cfg: Config, s: Circuits, h: Handler): (Turn, Circuits, nat) {
    if Open(cfg, s, h.name, h.checkedAt) then (Failure(OPEN_MESSAGE, true), s, 0)
    else
      var checked, k := AfterCheck(cfg, s, h.name, h.checkedAt), FirstReturn(h.execute, 0, cfg.maxRetries);
      if k < cfg.maxRetries then (Success(h.execute(k).files), checked - {h.name}, k + 1)
      else
        var error := if k == 0 then UNKNOWN_ERROR else OrUnknown(h.execute(k - 1).message);
        (Failure(error, !h.critical), AfterFailure(checked, h.name, h.failedAt), k)
  }

  class GracefulDegradation {
    const cfg: Config
    var circuits: Circuits

    constructor (cfg: Config)
      ensures this.cfg == cfg && circuits == map[]
    {
      this.cfg := cfg;
      circuits := map[];
    }

    method IsCircuitBreakerOpen(name: string, now: int) returns (open: bool)
      modifies this
      ensures open == Open(cfg, old(circuits), name, now)
      ensures circuits == AfterCheck(cfg, old(circuits), name, now)
    {
      if name !in circuits {
        return false;
      }
      if now - circuits[name].lastFailure > cfg.timeout {
        circuits := circuits - {name};
        return false;
      }
      return circuits[name].count >= cfg.threshold;
    }

    method RecordFailure(name: string, now: int)
      modifies this
      ensures circuits == AfterFailure(old(circuits), name, now)
    {
      var state := if name in circuits then circuits[name] else Failures(0, 0);
      state := Failures(state.count + 1, now);
      circuits := circuits[name := state];
    }

    method ExecuteHandler(h: Handler) returns (turn: Turn, calls: nat)
      modifies this
      ensures (turn, circuits, calls) == TurnOf(cfg, old(circuits), h)
    {
      var open := IsCircuitBreakerOpen(h.name, h.checkedAt);
      if open {
        return Failure(OPEN_MESSAGE, true), 0;
      }
      var lastError := None;
      calls := 0;
      while calls < cfg.maxRetries
        invariant calls <= cfg.maxRetries
        invariant circuits == AfterCheck(cfg, old(circuits), h.name, h.checkedAt)
        invariant FirstReturn(h.execute, 0, cfg.maxRetries) == FirstReturn(h.execute, calls, cfg.maxRetries)
        invariant lastError == if calls == 0 then None else Some(h.execute(calls - 1))
        invariant calls > 0 ==> h.execute(calls - 1).Throws?
      {
        var attempt := h.execute(calls);
        calls := calls + 1;
        if attempt.Returns? {
          circuits := circuits - {h.name};
          return Success(attempt.files), calls;
        }
        lastError := Some(attempt);
      }
      RecordFailure(h.name, h.failedAt);
      turn := Failure(if lastError.None? then UNKNOWN_ERROR else OrUnknown(lastError.value.message), !h.critical);
    }

    /** `executeWithDegradation` */
    method ExecuteWithDegradation(handlers: seq<Handler>) returns (result: Outcome)
      modifies this
      ensures (result, circuits) == Degrade(cfg, old(circuits), handlers)
    {
      hide TurnOf, Select;
      result := NOTHING;
      var critical, optional := Select(handlers, true), Select(handlers, false);
      for i := 0 to |critical|
        invariant Critical(cfg, old(circuits), critical, NOTHING) == Critical(cfg, circuits, critical[i..], result)
      {
        var h := critical[i];
        assert critical[i..] == [h] + critical[i + 1..];
        var turn, _ := ExecuteHandler(h);
        if turn.Success? {
          result := result.(files := result.files + turn.files);
        } else {
          result := result.(success := false, failed := result.failed + [h.name],
          errors := result.errors + [ErrorRecord(h.name, turn.error, turn.recoverable)]);
          if !turn.recoverable {
            return;
          }
        }
      }
      assert Critical(cfg, old(circuits), critical, NOTHING) == (result, circuits, false);
      ghost var before, start := circuits, result;
      for i := 0 to |optional|
        invariant Optional(cfg, before, optional, start) == Optional(cfg, circuits, optional[i..], result)
      {
        var h := optional[i];
        assert optional[i..] == [h] + optional[i + 1..];
        var turn, _ := ExecuteHandler(h);
        if turn.Success? {
          result := result.(files := result.files + turn.files);
        } else {
          result := result.(partial := true, failed := result.failed + [h.name],
          errors := result.errors + [ErrorRecord(h.name, turn.error, true)]);
          if h.fallback.Some? {
            var fallback := h.fallback.value;
            if fallback.Returns? {
              result := result.(files := result.files + fallback.files, fallbacks := result.fallbacks + [h.name]);
            } else {
              result := result.(errors := result.errors + [ErrorRecord(h.name + "-fallback", fallback.message, true)]);
            }
          }
        }
      }
      if |result.fallbacks| > 0 {
        result := result.(partial := true);
      }
    }
  }

  // ---- all handlers ------------------------------------------------------------------------

  const NOTHING: Outcome := Outcome(true, false, [], [], [], [])

  function Select(handlers: seq<Handler>, critical: bool): seq<Handler> {
    if handlers == [] then []
    else (if handlers[0].critical == critical then [handlers[0]] else []) + Select(handlers[1..], critical)
  }

  function AfterCritical(h: Handler, turn: Turn, r: Outcome): Outcome {
    match turn
    case Success(files) => r.(files := r.files + files)
    case Failure(error, recoverable) =>
      r.(success := false, failed := r.failed + [h.name],
         errors := r.errors + [ErrorRecord(h.name, error, recoverable)])
  }

  predicate Fatal(turn: Turn) {
    turn.Failure? && !turn.recoverable
  }

  /** The critical handlers; the flag says that one failed beyond recovery and ended the run. */
  function Critical(cfg: Config, s: Circuits, hs: seq<Handler>, r: Outcome): (Outcome, Circuits, bool)
    decreases |hs|
  {
    if hs == [] then (r, s, false)
    else
      var (turn, t, _) := TurnOf(cfg, s, hs[0]);
      if Fatal(turn) then (AfterCritical(hs[0], turn, r), t, true)
      else Critical(cfg, t, hs[1..], AfterCritical(hs[0], turn, r))
  }

  /** An optional handler that failed. */
  function Degraded(h: Handler, error: string, r: Outcome): Outcome {
    var q := r.(partial := true, failed := r.failed + [h.name],
                errors := r.errors + [ErrorRecord(h.name, error, true)]);
    match h.fallback
    case None => q
    case Some(Returns(files)) => q.(files := q.files + files, fallbacks := q.fallbacks + [h.name])
    case Some(Throws(message)) => q.(errors := q.errors + [ErrorRecord(h.name + "-fallback", message, true)])
  }

  function Optional(cfg: Config, s: Circuits, hs: seq<Handler>, r: Outcome): (Outcome, Circuits)
    decreases |hs|
  {
    if hs == [] then (r, s)
    else
      var (turn, t, _) := TurnOf(cfg, s, hs[0]);
      Optional(cfg, t, hs[1..],
               if turn.Success? then r.(files := r.files + turn.files) else Degraded(hs[0], turn.error, r))
  }

  function Degrade(cfg: Config, s: Circuits, handlers: seq<Handler>): (Outcome, Circuits) {
    var (r, t, stopped) := Critical(cfg, s, Select(handlers, true), NOTHING);
    if stopped then (r, t)
    else
      var (q, u) := Optional(cfg, t, Select(handlers, false), r);
      (if q.fallbacks != [] then q.(partial := true) else q, u)
  }
}
