/**
  Executions of one agent of src/agents/engine.ts and changes of its status, interleaved
  at their awaits: every piece reads the store once or writes it once.
*/
module AgentInterleaved {
  import opened Wrappers
  import opened AgentEngine
  import opened AgentRuns

  /** What follows a transition: nothing, or the rest of the execution that asked for it. */
  datatype After = Stop | Proceed(inactive: bool)

  /** A call between two pieces; seen is the row it has read. */
  datatype Flight =
    | Asking(target: Status, after: After)     // before the read of a transition
    | Moving(target: Status, after: After)     // allowed, before its write
    | Counting(seen: Row)                      // before the count of the day's runs
    | Working(seen: Row)                       // all checks passed
    | Creating(gas: nat, failed: bool)         // before the record of the run
    | Booking(index: nat)                      // recorded, before the update of the counters
    | Checking                                 // before the circuit breakers read the row
    | Judging(seen: Row)                       // before they read the runs
    | Resetting                                // before the daily reset reads the row
    | Clearing(at: int)                        // due, before its write

  /** booked and dayGas are history: the runs whose counters are updated, and the gas of those
      since the last daily reset. */
  datatype World = World(agent: State, flights: map<nat, Flight>, booked: set<nat>, dayGas: seq<nat>) {
    function To(id: nat, f: Flight): World {
      this.(flights := flights[id := f])
    }

    function End(id: nat): World {
      this.(flights := flights - {id})
    }

    function WithRow(row: Row): World {
      this.(agent := agent.(row := row))
    }

    function Alerting(alerts: seq<Alert>): World {
      this.(agent := agent.(alerts := agent.alerts + alerts))
    }
  }

  datatype Action =
    | Start(id: nat, target: Status)                  // a transition asked for from outside
    | Begin(id: nat)                                  // an execution
    | Go(id: nat, now: int, strategy: Strategy)       // the next piece of a call in flight
    | Archive                                         // the deletion of the agent
    | SetDrawdown(percent: int)

  function BeginPiece(limits: Limits, w: World, id: nat): World {
    if w.agent.row.status != Active && w.agent.row.status != Running then w
    else if !GasLeft(limits, w.agent.row) then w.Alerting([BudgetExceeded]).To(id, Asking(Paused, Stop))
    else w.To(id, Counting(w.agent.row))
  }

  function MovePiece(w: World, id: nat, target: Status, after: After): World {
    var row := w.agent.row;
    var last := if target == Active then None else row.lastExecutionAt;
    var t := w.WithRow(row.(status := target, lastExecutionAt := last));
    if after.Stop? then t.End(id) else t.Alerting(if after.inactive then [Inactivity] else []).To(id, Resetting)
  }

  function WorkPiece(w: World, id: nat, seen: Row, now: int, st: Strategy): World {
    var (gas, failed, dca) := RunStrategy(seen, now, st);
    var t := if dca == seen.dca then w else w.WithRow(w.agent.row.(dca := dca));
    t.To(id, Creating(gas, failed))
  }

  function CreatePiece(w: World, id: nat, e: Execution): World {
    w.(agent := w.agent.(executions := w.agent.executions + [e])).To(id, Booking(|w.agent.executions|))
  }

  function BookRow(row: Row, e: Execution, now: int): Row {
    row.(totalExecutions := row.totalExecutions + 1,
         successfulExecutions := row.successfulExecutions + if e.failed then 0 else 1,
         failureCount := row.failureCount + if e.failed then 1 else 0,
         totalGasUsed := row.totalGasUsed + e.gas,
         currentDayGasUsed := row.currentDayGasUsed + e.gas,
         lastExecutionAt := Some(now),
         status := if e.failed then Active else row.status)
  }

  function BookPiece(w: World, id: nat, index: nat, now: int): World
    requires index < |w.agent.executions|
  {
    var e := w.agent.executions[index];
    w.WithRow(BookRow(w.agent.row, e, now)).(booked := w.booked + {index}, dayGas := w.dayGas + [e.gas])
     .To(id, if e.failed then Checking else Resetting)
  }

  function JudgePiece(w: World, id: nat, seen: Row, now: int): World {
    var alert := Tripped(State(seen, w.agent.executions, []), now);
    if alert.Some? then
      w.Alerting([alert.value]).To(id, Asking(Paused, Proceed(alert.value == CircuitBreak && Inactive(seen, now))))
    else w.Alerting(if Inactive(seen, now) then [Inactivity] else []).To(id, Resetting)
  }

  /** The next piece of the call id. */
  function GoPiece(limits: Limits, w: World, id: nat, now: int, st: Strategy): World
    requires id in w.flights
  {
    var row := w.agent.row;
    match w.flights[id]
    case Asking(target, after) => if MayMove(row.status, target) then w.To(id, Moving(target, after)) else w.End(id)
    case Moving(target, after) => MovePiece(w, id, target, after)
    case Counting(seen) =>
      if CountSince(w.agent.executions, limits.midnight(now)) < limits.maxExecutionsPerDay && st.known
      then w.To(id, Working(seen)) else w.End(id)
    case Working(seen) => WorkPiece(w, id, seen, now, st)
    case Creating(gas, failed) => CreatePiece(w, id, Execution(failed, gas, now))
    case Booking(index) => if index < |w.agent.executions| then BookPiece(w, id, index, now) else w
    case Checking => w.To(id, Judging(row))
    case Judging(seen) => JudgePiece(w, id, seen, now)
    case Resetting => if now - row.gasResetAt > DAY then w.To(id, Clearing(now)) else w.End(id)
    case Clearing(at) => w.WithRow(row.(currentDayGasUsed := 0, gasResetAt := at)).(dayGas := []).End(id)
  }

  /** One piece; one that is not possible changes nothing. */
  function Next(limits: Limits, w: World, a: Action): World {
    match a
    case Start(id, target) => if id in w.flights then w else w.To(id, Asking(target, Stop))
    case Begin(id) => if id in w.flights then w else BeginPiece(limits, w, id)
    case Go(id, now, st) => if id in w.flights then GoPiece(limits, w, id, now, st) else w
    case Archive => w.WithRow(w.agent.row.(status := Archived))
    case SetDrawdown(percent) => w.WithRow(w.agent.row.(currentDrawdown := percent))
  }

  function RunPieces(limits: Limits, w: World, actions: seq<Action>): World
    decreases |actions|
  {
    if actions == [] then w else RunPieces(limits, Next(limits, w, actions[0]), actions[1..])
  }

  /** The next n pieces of one call, at one time. */
  function Pieces(limits: Limits, w: World, id: nat, now: int, st: Strategy, n: nat): World
    decreases n
  {
    if n == 0 then w else Pieces(limits, Next(limits, w, Go(id, now, st)), id, now, st, n - 1)
  }

  // ---- with nothing in between -----------------------------------------------------------

  lemma {:induction false} PiecesEnd(limits: Limits, w: World, id: nat, now: int, st: Strategy, n: nat)
    requires id !in w.flights
    ensures Pieces(limits, w, id, now, st, n) == w
    decreases n
  {
    if n > 0 {
      PiecesEnd(limits, w, id, now, st, n - 1);
    }
  }

  lemma Piece(limits: Limits, w: World, id: nat, now: int, st: Strategy, n: nat)
    requires n > 0 && id in w.flights
    ensures Pieces(limits, w, id, now, st, n) == Pieces(limits, GoPiece(limits, w, id, now, st), id, now, st, n - 1)
  {
    hide GoPiece;
  }

  /** The daily reset as two pieces. */
  lemma ResetPieces(limits: Limits, w: World, id: nat, now: int, st: Strategy, n: nat)
    requires n >= 2 && id in w.flights && w.flights[id] == Resetting
    ensures var t := Pieces(limits, w, id, now, st, n);
            t.agent == w.agent.(row := ResetIfDue(w.agent.row, now)) && t.flights == w.flights - {id}
  {
    hide Pieces;
    Piece(limits, w, id, now, st, n);
    var t := GoPiece(limits, w, id, now, st);
    if id in t.flights {
      Piece(limits, t, id, now, st, n - 1);
      PiecesEnd(limits, GoPiece(limits, t, id, now, st), id, now, st, n - 2);
    } else {
      PiecesEnd(limits, t, id, now, st, n - 1);
    }
  }

  /** A pause that is refused, and one that is not. */
  lemma PausePieces(limits: Limits, w: World, id: nat, now: int, st: Strategy, n: nat)
    requires n >= 2 && id in w.flights && w.flights[id] == Asking(Paused, Stop)
    ensures var t := Pieces(limits, w, id, now, st, n);
            t.agent == w.agent.(row := Moved(w.agent.row, Paused).0) && t.flights == w.flights - {id}
  {
    hide Pieces;
    Piece(limits, w, id, now, st, n);
    var t := GoPiece(limits, w, id, now, st);
    if id in t.flights {
      Piece(limits, t, id, now, st, n - 1);
      PiecesEnd(limits, GoPiece(limits, t, id, now, st), id, now, st, n - 2);
    } else {
      PiecesEnd(limits, t, id, now, st, n - 1);
    }
  }

  /** What follows a failed run of an agent that it has made active. */
  lemma CheckPieces(limits: Limits, w: World, id: nat, now: int, st: Strategy)
    requires id in w.flights && w.flights[id] == Checking && w.agent.row.status == Active
    requires w.agent.row.lastExecutionAt == Some(now)
    ensures var t := Pieces(limits, w, id, now, st, 4);
            t.agent == Settled(w.agent, true, now).0 && t.flights == w.flights - {id}
  {
    hide Pieces, Tripped;
    Piece(limits, w, id, now, st, 4);
    var t := w.To(id, Judging(w.agent.row));
    Piece(limits, t, id, now, st, 3);
    var u := JudgePiece(t, id, w.agent.row, now);
    SameTrip(w.agent, now);
    if u.flights[id] == Resetting {
      ResetPieces(limits, u, id, now, st, 2);
      assert w.agent.alerts + [] == w.agent.alerts;
    } else {
      Piece(limits, u, id, now, st, 2);
      PiecesEnd(limits, u.End(id), id, now, st, 1);
    }
    assert u.flights - {id} == w.flights - {id};
  }

  lemma SameTrip(s: State, now: int)
    ensures Tripped(State(s.row, s.executions, []), now) == Tripped(s, now)
  {
  }

  /** From the strategy on. */
  lemma WorkPieces(limits: Limits, w: World, id: nat, now: int, st: Strategy)
    requires id in w.flights && w.flights[id] == Working(w.agent.row)
    ensures var t := Pieces(limits, w, id, now, st, 7);
            var failed := RunStrategy(w.agent.row, now, st).1;
            t.agent == Settled(Recorded(w.agent, now, st), failed, now).0 && t.flights == w.flights - {id}
  {
    hide Pieces, RunStrategy, Settled;
    var (gas, failed, dca) := RunStrategy(w.agent.row, now, st);
    var e := Execution(failed, gas, now);
    Piece(limits, w, id, now, st, 7);
    var t := WorkPiece(w, id, w.agent.row, now, st);
    Piece(limits, t, id, now, st, 6);
    var u := CreatePiece(t, id, e);
    Piece(limits, u, id, now, st, 5);
    var v := BookPiece(u, id, |t.agent.executions|, now);
    assert v.agent == Recorded(w.agent, now, st);
    assert v.flights - {id} == w.flights - {id};
    if failed {
      CheckPieces(limits, v, id, now, st);
    } else {
      ResetPieces(limits, v, id, now, st, 4);
      SettledWell(v.agent, now);
    }
  }

  lemma SettledWell(t: State, now: int)
    ensures Settled(t, false, now).0 == t.(row := ResetIfDue(t.row, now))
  {
  }

  /** With nothing in between, the pieces of an execution are the atomic execution. */
  lemma AtomicExecution(limits: Limits, w: World, id: nat, now: int, st: Strategy)
    requires id !in w.flights
    ensures var t := Pieces(limits, Next(limits, w, Begin(id)), id, now, st, 8);
            t.agent == Executed(limits, w.agent, now, st).0 && t.flights == w.flights
  {
    hide Pieces, RunStrategy, Settled, Recorded, CountSince;
    var b := Next(limits, w, Begin(id));
    assert b.flights - {id} == w.flights;
    if id !in b.flights {
      PiecesEnd(limits, b, id, now, st, 8);
    } else if b.flights[id].Asking? {
      PausePieces(limits, b, id, now, st, 8);
    } else {
      Piece(limits, b, id, now, st, 8);
      var t := GoPiece(limits, b, id, now, st);
      if id in t.flights {
        WorkPieces(limits, t, id, now, st);
        assert t.flights - {id} == w.flights;
      } else {
        PiecesEnd(limits, t, id, now, st, 7);
      }
    }
  }

  // ---- when the dead come back -------------------------------------------------------------

  predicate Live(status: Status) {
    status != Terminated && status != Archived
  }

  /** An execution that has passed its guards and has not yet updated the counters. */
  predicate Early(f: Flight) {
    f.Counting? || f.Working? || f.Creating? || f.Booking?
  }

  predicate LiveMove(f: Flight) {
    f.Moving? && Live(f.target)
  }

  /** The piece writes a live status: the update after a failed run, or that of a transition. */
  predicate Revives(w: World, a: Action) {
    && a.Go? && a.id in w.flights
    && var f := w.flights[a.id];
       LiveMove(f) || (f.Booking? && f.index < |w.agent.executions| && w.agent.executions[f.index].failed)
  }

  /** One piece brings a dead agent back exactly if it is one of these. */
  lemma RevivesIff(limits: Limits, w: World, a: Action)
    requires Dead(w.agent)
    ensures !Dead(Next(limits, w, a).agent) <==> Revives(w, a)
  {
    hide RunStrategy, Tripped, CountSince;
  }

  /** What of t could revive the agent was under way in w. */
  ghost predicate Descends(w: World, t: World) {
    && (forall id :: id in t.flights && Early(t.flights[id]) ==> id in w.flights && Early(w.flights[id]))
    && (forall id :: id in t.flights && LiveMove(t.flights[id]) ==> id in w.flights && LiveMove(w.flights[id]))
  }

  predicate About(a: Action, id: nat) {
    (a.Start? || a.Begin? || a.Go?) && a.id == id
  }

  /** A piece of one call leaves the others alone. */
  lemma OthersKept(limits: Limits, w: World, a: Action, id: nat)
    requires !About(a, id)
    ensures var t := Next(limits, w, a);
            (id in t.flights <==> id in w.flights) && (id in t.flights ==> t.flights[id] == w.flights[id])
  {
    hide RunStrategy, Tripped, CountSince, MayMove;
  }

  lemma DeadOwn(limits: Limits, w: World, a: Action, id: nat)
    requires Dead(w.agent) && About(a, id) && id in Next(limits, w, a).flights
    ensures var f := Next(limits, w, a).flights[id];
            && (Early(f) ==> id in w.flights && Early(w.flights[id]))
            && (LiveMove(f) ==> id in w.flights && LiveMove(w.flights[id]))
  {
    hide RunStrategy, Tripped, CountSince;
  }

  /** While the agent is dead nothing new of the kind gets under way. */
  lemma DeadDescends(limits: Limits, w: World, a: Action)
    requires Dead(w.agent)
    ensures Descends(w, Next(limits, w, a))
  {
    hide Next, Dead, Early, LiveMove, About;
    var t := Next(limits, w, a);
    forall id | id in t.flights
      ensures Early(t.flights[id]) ==> id in w.flights && Early(w.flights[id])
      ensures LiveMove(t.flights[id]) ==> id in w.flights && LiveMove(w.flights[id])
    {
      if About(a, id) {
        DeadOwn(limits, w, a, id);
      } else {
        OthersKept(limits, w, a, id);
      }
    }
  }

  lemma DescendsTrans(w: World, t: World, u: World)
    requires Descends(w, t) && Descends(t, u)
    ensures Descends(w, u)
  {
  }

  predicate StaysDead(limits: Limits, w: World, actions: seq<Action>)
    decreases |actions|
  {
    Dead(w.agent) && (actions != [] ==> StaysDead(limits, Next(limits, w, actions[0]), actions[1..]))
  }

  /** The piece revives the agent, and its call was far enough under way in start to do so: an
      execution past its guards, or a transition to a live status past its check. */
  predicate LateRevival(start: World, w: World, a: Action) {
    Revives(w, a) && a.id in start.flights && (Early(start.flights[a.id]) || LiveMove(start.flights[a.id]))
  }

  predicate SomeRevival(limits: Limits, start: World, w: World, actions: seq<Action>)
    decreases |actions|
  {
    actions != [] &&
    (LateRevival(start, w, actions[0]) || SomeRevival(limits, start, Next(limits, w, actions[0]), actions[1..]))
  }

  lemma DescendedRevival(start: World, w: World, a: Action)
    requires Descends(start, w)
    ensures Revives(w, a) <==> LateRevival(start, w, a)
  {
  }

  lemma {:induction false} StaysDeadFrom(limits: Limits, start: World, w: World, actions: seq<Action>)
    requires Dead(w.agent) && Descends(start, w)
    ensures StaysDead(limits, w, actions) <==> !SomeRevival(limits, start, w, actions)
    decreases |actions|
  {
    hide Next, Dead, Descends, Revives, LateRevival;
    if actions != [] {
      var t := Next(limits, w, actions[0]);
      RevivesIff(limits, w, actions[0]);
      DescendedRevival(start, w, actions[0]);
      if Dead(t.agent) {
        DeadDescends(limits, w, actions[0]);
        DescendsTrans(start, w, t);
        StaysDeadFrom(limits, start, t, actions[1..]);
      }
    }
  }

  /** A terminated or archived agent stays dead over a run iff in the run no execution that was
      past its guards at the start fails, and no transition to a live status that was past its
      check at the start writes. */
  lemma StaysDeadIff(limits: Limits, w: World, actions: seq<Action>)
    requires Dead(w.agent)
    ensures StaysDead(limits, w, actions) <==> !SomeRevival(limits, w, w, actions)
  {
    StaysDeadFrom(limits, w, w, actions);
  }

  /** From every status but the dead ones some transition to a live one is allowed, and termination. */
  lemma LiveHasMove(status: Status) returns (target: Status)
    requires Live(status)
    ensures Live(target) && MayMove(status, target) && MayMove(status, Terminated)
  {
    target := match status
      case Deployed => Validating
      case Validating => Active
      case Active => Running
      case Running => Paused
      case _ => Running;
  }

  lemma Unfold(limits: Limits, w: World, actions: seq<Action>, a: Action, rest: seq<Action>)
    requires actions == [a] + rest
    ensures RunPieces(limits, w, actions) == RunPieces(limits, Next(limits, w, a), rest)
  {
    hide Next;
    assert actions[1..] == rest;
  }

  lemma Nothing(limits: Limits, w: World)
    ensures RunPieces(limits, w, []) == w
  {
  }

  /** A transition from outside up to its write. */
  lemma Ask(limits: Limits, w: World, x: nat, target: Status, now: int, st: Strategy, rest: seq<Action>)
    requires x !in w.flights && MayMove(w.agent.row.status, target)
    ensures RunPieces(limits, w, [Start(x, target), Go(x, now, st)] + rest) ==
            RunPieces(limits, w.To(x, Moving(target, Stop)), rest)
  {
    hide RunPieces;
    var start, go := Start(x, target), Go(x, now, st);
    Unfold(limits, w, [start, go] + rest, start, [go] + rest);
    Unfold(limits, w.To(x, Asking(target, Stop)), [go] + rest, go, rest);
    assert w.flights[x := Asking(target, Stop)][x := Moving(target, Stop)] == w.flights[x := Moving(target, Stop)];
  }

  lemma Write(limits: Limits, w: World, x: nat, target: Status, now: int, st: Strategy)
    requires x in w.flights && w.flights[x] == Moving(target, Stop)
    ensures var t := Next(limits, w, Go(x, now, st));
            t.agent.row.status == target && t.flights == w.flights - {x}
  {
  }

  /** Every transition that overlaps a termination can undo it: one that has been checked before
      and writes after. */
  lemma TerminationUndone(limits: Limits, w: World, x: nat, y: nat, target: Status, now: int, st: Strategy)
    requires x !in w.flights && y !in w.flights && x != y
    requires Live(w.agent.row.status) && Live(target) && MayMove(w.agent.row.status, target)
    ensures var t := RunPieces(limits, w, [Start(x, target), Go(x, now, st)]
                                    + ([Start(y, Terminated), Go(y, now, st)] + [Go(y, now, st)]));
            && Dead(t.agent) && t.flights == w.flights[x := Moving(target, Stop)]
            && Next(limits, t, Go(x, now, st)).agent.row.status == target
  {
    hide RunPieces, Next;
    var go := Go(y, now, st);
    var s := w.To(x, Moving(target, Stop));
    var any := LiveHasMove(w.agent.row.status);
    Ask(limits, w, x, target, now, st, [Start(y, Terminated), go] + [go]);
    Ask(limits, s, y, Terminated, now, st, [go]);
    var u := s.To(y, Moving(Terminated, Stop));
    Unfold(limits, u, [go], go, []);
    var t := Next(limits, u, go);
    Nothing(limits, t);
    Write(limits, u, y, Terminated, now, st);
    assert t.flights == s.flights;
    Write(limits, t, x, target, now, st);
  }

  /** Likewise a deletion. */
  lemma DeletionUndone(limits: Limits, w: World, x: nat, target: Status, now: int, st: Strategy)
    requires x !in w.flights
    requires Live(w.agent.row.status) && Live(target) && MayMove(w.agent.row.status, target)
    ensures var t := RunPieces(limits, w, [Start(x, target), Go(x, now, st)] + [Archive]);
            Dead(t.agent) && Next(limits, t, Go(x, now, st)).agent.row.status == target
  {
    hide RunPieces;
    var s := w.To(x, Moving(target, Stop));
    Ask(limits, w, x, target, now, st, [Archive]);
    Unfold(limits, s, [Archive], Archive, []);
    Nothing(limits, Next(limits, s, Archive));
    Write(limits, Next(limits, s, Archive), x, target, now, st);
  }

  // ---- when used-up gas comes back -----------------------------------------------------------

  /** A call that may still come to the daily reset. */
  predicate MayReset(f: Flight) {
    Early(f) || f.Checking? || f.Judging? || f.Resetting? || f.Clearing?
    || ((f.Asking? || f.Moving?) && f.after.Proceed?)
  }

  predicate Clears(w: World, a: Action) {
    a.Go? && a.id in w.flights && w.flights[a.id].Clearing?
  }

  /** Gas comes back exactly with the write of a daily reset, if the limit allows any gas. */
  lemma RefillsIff(limits: Limits, w: World, a: Action)
    requires !GasLeft(limits, w.agent.row)
    ensures GasLeft(limits, Next(limits, w, a).agent.row) <==> Clears(w, a) && limits.maxGasPerDay > 0
  {
    hide RunStrategy, Tripped, CountSince, MayMove;
  }

  ghost predicate ResetsDescend(w: World, t: World) {
    forall id :: id in t.flights && MayReset(t.flights[id]) ==> id in w.flights && MayReset(w.flights[id])
  }

  lemma ExhaustedOwn(limits: Limits, w: World, a: Action, id: nat)
    requires !GasLeft(limits, w.agent.row) && About(a, id) && id in Next(limits, w, a).flights
    ensures MayReset(Next(limits, w, a).flights[id]) ==> id in w.flights && MayReset(w.flights[id])
  {
    hide RunStrategy, Tripped, CountSince, MayMove;
  }

  /** While the gas is used up no new execution passes its guards. */
  lemma ExhaustedDescends(limits: Limits, w: World, a: Action)
    requires !GasLeft(limits, w.agent.row)
    ensures ResetsDescend(w, Next(limits, w, a))
  {
    hide Next, GasLeft, MayReset, About;
    var t := Next(limits, w, a);
    forall id | id in t.flights
      ensures MayReset(t.flights[id]) ==> id in w.flights && MayReset(w.flights[id])
    {
      if About(a, id) {
        ExhaustedOwn(limits, w, a, id);
      } else {
        OthersKept(limits, w, a, id);
      }
    }
  }

  lemma ResetsDescendTrans(w: World, t: World, u: World)
    requires ResetsDescend(w, t) && ResetsDescend(t, u)
    ensures ResetsDescend(w, u)
  {
  }

  predicate StaysExhausted(limits: Limits, w: World, actions: seq<Action>)
    decreases |actions|
  {
    !GasLeft(limits, w.agent.row)
    && (actions != [] ==> StaysExhausted(limits, Next(limits, w, actions[0]), actions[1..]))
  }

  /** The piece writes a daily reset, for a call that was under way in start. */
  predicate LateReset(start: World, w: World, a: Action) {
    Clears(w, a) && a.id in start.flights && MayReset(start.flights[a.id])
  }

  predicate SomeReset(limits: Limits, start: World, w: World, actions: seq<Action>)
    decreases |actions|
  {
    actions != [] &&
    (LateReset(start, w, actions[0]) || SomeReset(limits, start, Next(limits, w, actions[0]), actions[1..]))
  }

  lemma DescendedReset(start: World, w: World, a: Action)
    requires ResetsDescend(start, w)
    ensures Clears(w, a) <==> LateReset(start, w, a)
  {
  }

  lemma {:induction false} StaysExhaustedFrom(limits: Limits, start: World, w: World, actions: seq<Action>)
    requires !GasLeft(limits, w.agent.row) && ResetsDescend(start, w)
    ensures StaysExhausted(limits, w, actions) <==>
            limits.maxGasPerDay <= 0 || !SomeReset(limits, start, w, actions)
    decreases |actions|
  {
    hide Next, GasLeft, ResetsDescend, Clears, LateReset;
    if actions != [] {
      var t := Next(limits, w, actions[0]);
      RefillsIff(limits, w, actions[0]);
      DescendedReset(start, w, actions[0]);
      if !GasLeft(limits, t.agent.row) {
        ExhaustedDescends(limits, w, actions[0]);
        ResetsDescendTrans(start, w, t);
        StaysExhaustedFrom(limits, start, t, actions[1..]);
      }
    }
  }

  /** An agent that has used up its gas stays so over a run iff the limit allows no gas at all, or
      no execution that was in flight at the start comes to write the daily reset. */
  lemma StaysExhaustedIff(limits: Limits, w: World, actions: seq<Action>)
    requires !GasLeft(limits, w.agent.row)
    ensures StaysExhausted(limits, w, actions) <==>
            limits.maxGasPerDay <= 0 || !SomeReset(limits, w, w, actions)
  {
    StaysExhaustedFrom(limits, w, w, actions);
  }

  /** Any execution past its checks can be the one: if it ends well more than a day after the last
      reset, the gas is back. */
  lemma ExhaustionUndone(limits: Limits, w: World, id: nat, now: int)
    requires !GasLeft(limits, w.agent.row) && limits.maxGasPerDay > 0
    requires id in w.flights && w.flights[id].Working? && now - w.agent.row.gasResetAt > DAY
    ensures GasLeft(limits, Pieces(limits, w, id, now, IDLE, 5).agent.row)
  {
    hide Pieces, RunStrategy;
    var (gas, failed, dca) := RunStrategy(w.flights[id].seen, now, IDLE);
    IdleSucceeds(w.flights[id].seen, now);
    Piece(limits, w, id, now, IDLE, 5);
    var t := WorkPiece(w, id, w.flights[id].seen, now, IDLE);
    Piece(limits, t, id, now, IDLE, 4);
    var u := CreatePiece(t, id, Execution(false, gas, now));
    Piece(limits, u, id, now, IDLE, 3);
    ResetPieces(limits, BookPiece(u, id, |t.agent.executions|, now), id, now, IDLE, 2);
  }

  lemma IdleSucceeds(seen: Row, now: int)
    ensures !RunStrategy(seen, now, IDLE).1
  {
  }
}
