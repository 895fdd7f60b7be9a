/**
  What the counters, limits and plans of src/agents/engine.ts are worth when executions of
  one agent overlap at their awaits.
*/
module AgentTotals {
  import opened Wrappers
  import opened AgentEngine
  import opened AgentRuns
  import opened AgentInterleaved

  // ---- what a piece does --------------------------------------------------------------

  predicate Counts(limits: Limits, w: World, a: Action) {
    a.Go? && a.id in w.flights && w.flights[a.id].Counting?
    && CountSince(w.agent.executions, limits.midnight(a.now)) < limits.maxExecutionsPerDay && a.strategy.known
  }

  predicate Creates(w: World, a: Action) {
    a.Go? && a.id in w.flights && w.flights[a.id].Creating?
  }

  predicate Books(w: World, a: Action) {
    a.Go? && a.id in w.flights && w.flights[a.id].Booking? && w.flights[a.id].index < |w.agent.executions|
  }

  predicate Starts(limits: Limits, w: World, a: Action) {
    a.Begin? && a.id !in w.flights && (w.agent.row.status == Active || w.agent.row.status == Running)
    && GasLeft(limits, w.agent.row)
  }

  function Created(w: World, a: Action): Execution
    requires Creates(w, a)
  {
    Execution(w.flights[a.id].failed, w.flights[a.id].gas, a.now)
  }

  /** Runs are recorded by one piece only. */
  lemma NextExecutions(limits: Limits, w: World, a: Action)
    ensures Next(limits, w, a).agent.executions ==
            w.agent.executions + if Creates(w, a) then [Created(w, a)] else []
  {
    hide RunStrategy, Tripped, CountSince, MayMove;
  }

  predicate SameBooks(a: Row, b: Row) {
    && a.totalExecutions == b.totalExecutions && a.successfulExecutions == b.successfulExecutions
    && a.failureCount == b.failureCount && a.totalGasUsed == b.totalGasUsed
  }

  /** Counters change by one piece only; the gas of the day by that and by the reset. */
  lemma NextBooks(limits: Limits, w: World, a: Action)
    ensures var t := Next(limits, w, a);
            if Books(w, a) then
              var i := w.flights[a.id].index;
              && t.agent.row == BookRow(w.agent.row, w.agent.executions[i], a.now)
              && t.booked == w.booked + {i} && t.dayGas == w.dayGas + [w.agent.executions[i].gas]
            else
              && SameBooks(t.agent.row, w.agent.row) && t.booked == w.booked
              && if Clears(w, a) then t.agent.row.currentDayGasUsed == 0 && t.dayGas == []
                 else t.agent.row.currentDayGasUsed == w.agent.row.currentDayGasUsed && t.dayGas == w.dayGas
  {
    hide RunStrategy, Tripped, CountSince, MayMove;
  }

  // ---- runs per day ---------------------------------------------------------------------

  predicate IsAdmitted(f: Flight) {
    f.Working? || f.Creating?
  }

  /** The executions that have passed all checks and are not yet recorded. */
  function Admitted(w: World): set<nat> {
    set id | id in w.flights && IsAdmitted(w.flights[id])
  }

  lemma AdmittedOwn(limits: Limits, w: World, a: Action, id: nat)
    requires About(a, id)
    ensures var t := Next(limits, w, a);
            (id in t.flights && IsAdmitted(t.flights[id])) <==>
            Counts(limits, w, a) || (id in w.flights && IsAdmitted(w.flights[id]) && !Creates(w, a))
  {
    hide RunStrategy, Tripped, CountSince, MayMove;
  }

  lemma NextAdmitted(limits: Limits, w: World, a: Action)
    ensures Admitted(Next(limits, w, a)) ==
            if Counts(limits, w, a) then Admitted(w) + {a.id}
            else if Creates(w, a) then Admitted(w) - {a.id}
            else Admitted(w)
    ensures Counts(limits, w, a) ==> a.id !in Admitted(w)
    ensures Creates(w, a) ==> a.id in Admitted(w)
  {
    hide Next;
    var t := Next(limits, w, a);
    forall id: nat
      ensures id in Admitted(t) <==>
              (Counts(limits, w, a) && id == a.id) || (id in Admitted(w) && !(Creates(w, a) && id == a.id))
    {
      if About(a, id) {
        AdmittedOwn(limits, w, a, id);
      } else {
        OthersKept(limits, w, a, id);
      }
    }
  }

  function Time(a: Action, before: int): int {
    if a.Go? then a.now else before
  }

  /** The clock does not run backwards. */
  predicate Timely(start: int, actions: seq<Action>)
    decreases |actions|
  {
    actions != [] ==> start <= Time(actions[0], start) && Timely(Time(actions[0], start), actions[1..])
  }

  function End(start: int, actions: seq<Action>): int
    decreases |actions|
  {
    if actions == [] then start else End(Time(actions[0], start), actions[1..])
  }

  /** At most m executions are admitted at any time of the run. */
  predicate AtMostAdmitted(limits: Limits, w: World, actions: seq<Action>, m: nat)
    decreases |actions|
  {
    |Admitted(w)| <= m && (actions != [] ==> AtMostAdmitted(limits, Next(limits, w, actions[0]), actions[1..], m))
  }

  /** The daily limit, exceeded by all but one of the executions admitted at a time. */
  function Bound(limits: Limits, m: nat): nat {
    if limits.maxExecutionsPerDay <= 0 then 0 else limits.maxExecutionsPerDay - 1 + m
  }

  /** The runs of a day, and from the present day on those that may still be recorded on it. */
  ghost predicate Room(limits: Limits, executions: seq<Execution>, admitted: set<nat>, m: nat, now: int) {
    && (forall e :: e in executions ==> e.createdAt <= now)
    && forall day ::
        CountOn(limits.midnight, executions, day) + (if day >= limits.midnight(now) then |admitted| else 0)
        <= Bound(limits, m)
  }

  lemma {:induction false} NoneLater(midnight: Calendar, executions: seq<Execution>, now: int, day: int)
    requires forall e :: e in executions ==> e.createdAt <= now
    requires day > midnight(now)
    ensures CountOn(midnight, executions, day) == 0
  {
    if executions != [] {
      NoneLater(midnight, executions[..|executions| - 1], now, day);
      MidnightMonotone(midnight, executions[|executions| - 1].createdAt, now);
    }
  }

  lemma MidnightMonotone(midnight: Calendar, time: int, now: int)
    requires time <= now
    ensures midnight(time) <= midnight(now)
  {
    assert midnight(time) <= time;
  }

  lemma LaterRoom(limits: Limits, executions: seq<Execution>, admitted: set<nat>, m: nat, before: int, now: int)
    requires Room(limits, executions, admitted, m, before) && before <= now
    ensures Room(limits, executions, admitted, m, now)
  {
    hide CountOn;
    MidnightMonotone(limits.midnight, before, now);
  }

  lemma AdmitRoom(limits: Limits, executions: seq<Execution>, admitted: set<nat>, m: nat, now: int, id: nat)
    requires Room(limits, executions, admitted, m, now) && id !in admitted && |admitted| < m
    requires CountSince(executions, limits.midnight(now)) < limits.maxExecutionsPerDay
    ensures Room(limits, executions, admitted + {id}, m, now)
  {
    hide CountOn, CountSince;
    assert |admitted + {id}| == |admitted| + 1;
    TodayIsSinceMidnight(limits.midnight, executions, now);
    forall day | day > limits.midnight(now)
      ensures CountOn(limits.midnight, executions, day) == 0
    {
      NoneLater(limits.midnight, executions, now, day);
    }
  }

  lemma RecordRoom(limits: Limits, executions: seq<Execution>, admitted: set<nat>, m: nat, now: int, id: nat,
                   e: Execution)
    requires Room(limits, executions, admitted, m, now) && id in admitted && e.createdAt == now
    ensures Room(limits, executions + [e], admitted - {id}, m, now)
  {
    hide CountOn;
    assert |admitted - {id}| == |admitted| - 1;
    forall day
      ensures CountOn(limits.midnight, executions + [e], day) ==
              CountOn(limits.midnight, executions, day) + if limits.midnight(now) == day then 1 else 0
    {
      CountOnSnoc(limits.midnight, executions, e, day);
    }
  }

  lemma NextRoom(limits: Limits, w: World, m: nat, before: int, a: Action)
    requires Room(limits, w.agent.executions, Admitted(w), m, before) && before <= Time(a, before)
    requires |Admitted(Next(limits, w, a))| <= m
    ensures Room(limits, Next(limits, w, a).agent.executions, Admitted(Next(limits, w, a)), m, Time(a, before))
  {
    hide Room, CountSince, Next, Admitted;
    var now, e, s := Time(a, before), w.agent.executions, Admitted(w);
    LaterRoom(limits, e, s, m, before, now);
    NextExecutions(limits, w, a);
    NextAdmitted(limits, w, a);
    if Counts(limits, w, a) {
      assert |s + {a.id}| == |s| + 1;
      AdmitRoom(limits, e, s, m, now, a.id);
      assert e + [] == e;
    } else if Creates(w, a) {
      RecordRoom(limits, e, s, m, now, a.id, Created(w, a));
    } else {
      assert e + [] == e;
    }
  }

  /** With at most m executions admitted at a time, at most m - 1 more runs than the limit are
      recorded on any day. */
  lemma {:induction false} DailyRunsAdmitted(limits: Limits, w: World, actions: seq<Action>, m: nat, start: int)
    requires Room(limits, w.agent.executions, Admitted(w), m, start)
    requires Timely(start, actions) && AtMostAdmitted(limits, w, actions, m)
    ensures var t := RunPieces(limits, w, actions);
            Room(limits, t.agent.executions, Admitted(t), m, End(start, actions))
    decreases |actions|
  {
    hide Room, Next, Admitted;
    if actions != [] {
      var t, now := Next(limits, w, actions[0]), Time(actions[0], start);
      assert |Admitted(t)| <= m;
      NextRoom(limits, w, m, start, actions[0]);
      DailyRunsAdmitted(limits, t, actions[1..], m, now);
    }
  }

  /** A new agent, with no execution in flight. */
  function NewWorld(dca: Option<Dca>, maxDrawdown: int, start: int): World {
    World(AgentEngine.Created(dca, maxDrawdown, start), map[], {}, [])
  }

  /** In particular from the creation of the agent on. */
  lemma DailyRunsFromCreation(limits: Limits, dca: Option<Dca>, maxDrawdown: int, start: int, actions: seq<Action>,
                              m: nat, day: int)
    requires Timely(start, actions) && AtMostAdmitted(limits, NewWorld(dca, maxDrawdown, start), actions, m)
    ensures var w := RunPieces(limits, NewWorld(dca, maxDrawdown, start), actions);
            CountOn(limits.midnight, w.agent.executions, day) <= Bound(limits, m)
  {
    hide RunPieces, Timely, AtMostAdmitted;
    DailyRunsAdmitted(limits, NewWorld(dca, maxDrawdown, start), actions, m, start);
  }

  // ---- the gas of the day --------------------------------------------------------------------

  /** The executions past their guards whose gas is not yet counted. */
  function Open(w: World): set<nat> {
    set id | id in w.flights && Early(w.flights[id])
  }

  lemma OpenOwn(limits: Limits, w: World, a: Action, id: nat)
    requires About(a, id)
    ensures var t := Next(limits, w, a);
            (id in t.flights && Early(t.flights[id])) ==>
            Starts(limits, w, a) || (id in w.flights && Early(w.flights[id]) && !Books(w, a))
  {
    hide RunStrategy, Tripped, CountSince, MayMove;
  }

  lemma NextOpen(limits: Limits, w: World, a: Action)
    ensures Open(Next(limits, w, a)) <=
            if Starts(limits, w, a) then Open(w) + {a.id}
            else if Books(w, a) then Open(w) - {a.id}
            else Open(w)
    ensures Books(w, a) ==> a.id in Open(w)
    ensures Starts(limits, w, a) ==> Open(Next(limits, w, a)) == Open(w) + {a.id}
  {
    hide Next;
    var t := Next(limits, w, a);
    forall id: nat
      ensures id in Open(t) ==>
              (Starts(limits, w, a) && id == a.id) || (id in Open(w) && !(Books(w, a) && id == a.id))
      ensures id in Open(w) && Starts(limits, w, a) ==> id in Open(t)
    {
      if About(a, id) {
        OpenOwn(limits, w, a, id);
      } else {
        OthersKept(limits, w, a, id);
      }
    }
    if Starts(limits, w, a) {
      StartsOpen(limits, w, a);
    }
  }

  lemma StartsOpen(limits: Limits, w: World, a: Action)
    requires Starts(limits, w, a)
    ensures a.id in Next(limits, w, a).flights && Early(Next(limits, w, a).flights[a.id])
  {
  }

  /** At most m executions are open at any time of the run. */
  predicate AtMostOpen(limits: Limits, w: World, actions: seq<Action>, m: nat)
    decreases |actions|
  {
    |Open(w)| <= m && (actions != [] ==> AtMostOpen(limits, Next(limits, w, actions[0]), actions[1..], m))
  }

  /** The gas of the day is that of its runs; the first p of them were within the limit, and the
      others are at most as many as the executions that could overlap. */
  predicate Within(limits: Limits, w: World, m: nat, p: nat) {
    && w.agent.row.currentDayGasUsed == Sum(w.dayGas)
    && p <= |w.dayGas| && (p > 0 ==> Sum(w.dayGas[..p]) < limits.maxGasPerDay)
    && |w.dayGas| - p + |Open(w)| <= m
  }

  lemma SumSnoc(gas: seq<nat>, g: nat)
    ensures Sum(gas + [g]) == Sum(gas) + g
  {
    assert (gas + [g])[..|gas|] == gas;
  }

  lemma NextWithin(limits: Limits, w: World, m: nat, p: nat, a: Action) returns (q: nat)
    requires Within(limits, w, m, p) && |Open(Next(limits, w, a))| <= m
    ensures Within(limits, Next(limits, w, a), m, q)
  {
    hide Next, Sum, Open;
    var t := Next(limits, w, a);
    NextBooks(limits, w, a);
    NextOpen(limits, w, a);
    q := p;
    if Books(w, a) {
      var g := w.agent.executions[w.flights[a.id].index].gas;
      SumSnoc(w.dayGas, g);
      Fewer(Open(t), Open(w) - {a.id});
      assert |Open(w) - {a.id}| == |Open(w)| - 1;
      assert t.dayGas[..p] == w.dayGas[..p];
    } else if Clears(w, a) {
      SumNothing();
      q := 0;
    } else if Starts(limits, w, a) {
      assert w.dayGas[..|w.dayGas|] == w.dayGas;
      q := |w.dayGas|;
    } else {
      Fewer(Open(t), Open(w));
    }
  }

  lemma SumNothing()
    ensures Sum([]) == 0
  {
  }

  lemma Fewer(a: set<nat>, b: set<nat>)
    requires a <= b
    ensures |a| <= |b|
  {
    assert b == a + (b - a);
  }

  lemma {:induction false} AlwaysWithin(limits: Limits, w: World, actions: seq<Action>, m: nat, p: nat)
    returns (q: nat)
    requires Within(limits, w, m, p) && AtMostOpen(limits, w, actions, m)
    ensures Within(limits, RunPieces(limits, w, actions), m, q)
    decreases |actions|
  {
    hide Next, Within, Open;
    q := p;
    if actions != [] {
      var t := Next(limits, w, actions[0]);
      assert |Open(t)| <= m;
      q := NextWithin(limits, w, m, p, actions[0]);
      q := AlwaysWithin(limits, t, actions[1..], m, q);
    }
  }

  lemma {:induction false} SumPrefix(gas: seq<nat>, p: nat)
    requires p <= |gas|
    ensures Sum(gas[..p]) <= Sum(gas)
  {
    if p < |gas| {
      assert gas[..|gas| - 1][..p] == gas[..p];
      SumPrefix(gas[..|gas| - 1], p);
    } else {
      assert gas[..p] == gas;
    }
  }

  /** With at most m executions open at a time, the gas of the day without its last m runs is
      below the limit. */
  lemma DayGasOpen(limits: Limits, dca: Option<Dca>, maxDrawdown: int, start: int, actions: seq<Action>, m: nat)
    requires AtMostOpen(limits, NewWorld(dca, maxDrawdown, start), actions, m)
    ensures var w := RunPieces(limits, NewWorld(dca, maxDrawdown, start), actions);
            && w.agent.row.currentDayGasUsed == Sum(w.dayGas)
            && (|w.dayGas| > m ==> Sum(w.dayGas[..|w.dayGas| - m]) < limits.maxGasPerDay)
  {
    hide RunPieces, Next, Sum;
    SumNothing();
    var q := AlwaysWithin(limits, NewWorld(dca, maxDrawdown, start), actions, m, 0);
    var gas := RunPieces(limits, NewWorld(dca, maxDrawdown, start), actions).dayGas;
    if |gas| > m {
      assert gas[..q][..|gas| - m] == gas[..|gas| - m];
      SumPrefix(gas[..q], |gas| - m);
    }
  }

  // ---- the excess is real -----------------------------------------------------------------------

  lemma {:induction false} FreshFrom(ids: set<nat>) returns (base: nat)
    ensures forall id :: id in ids ==> id < base
    decreases |ids|
  {
    base := 0;
    if ids != {} {
      var x :| x in ids;
      var rest := FreshFrom(ids - {x});
      base := if x < rest then rest else x + 1;
      assert forall id :: id in ids ==> id == x || id in ids - {x};
    }
  }

  lemma {:induction false} RunConcat(limits: Limits, w: World, a: seq<Action>, b: seq<Action>)
    ensures RunPieces(limits, w, a + b) == RunPieces(limits, RunPieces(limits, w, a), b)
    decreases |a|
  {
    hide Next;
    if a == [] {
      assert a + b == b;
    } else {
      assert (a + b)[1..] == a[1..] + b;
      RunConcat(limits, Next(limits, w, a[0]), a[1..], b);
    }
  }

  lemma TwoPieces(limits: Limits, w: World, a: Action, b: Action)
    ensures RunPieces(limits, w, [a, b]) == Next(limits, Next(limits, w, a), b)
  {
    hide Next, RunPieces;
    Unfold(limits, w, [a, b], a, [b]);
    Unfold(limits, Next(limits, w, a), [b], b, []);
    Nothing(limits, Next(limits, Next(limits, w, a), b));
  }

  /** All executions base, ..., base + n - 1 are admitted. */
  predicate Together(w: World, base: nat, n: nat) {
    forall id :: base <= id < base + n ==> id in w.flights && w.flights[id].Working?
  }

  /** n executions pass their checks at the same time if one does. */
  lemma {:induction false} BeginTogether(limits: Limits, w: World, now: int, base: nat, n: nat)
    returns (actions: seq<Action>)
    requires MayRun(limits, w.agent, now) && forall id :: id in w.flights ==> id < base
    ensures var t := RunPieces(limits, w, actions);
            && t.agent == w.agent && Together(t, base, n)
            && forall id :: id in t.flights ==> id < base + n
    decreases n
  {
    hide RunPieces, MayRun;
    if n == 0 {
      actions := [];
      Nothing(limits, w);
    } else {
      actions := BeginTogether(limits, w, now, base, n - 1);
      var t := RunPieces(limits, w, actions);
      var last := [Begin(base + n - 1), Go(base + n - 1, now, IDLE)];
      BeginOne(limits, t, base + n - 1, now);
      TwoPieces(limits, t, last[0], last[1]);
      RunConcat(limits, w, actions, last);
      actions := actions + last;
    }
  }

  lemma BeginOne(limits: Limits, w: World, id: nat, now: int)
    requires MayRun(limits, w.agent, now) && id !in w.flights
    ensures Next(limits, Next(limits, w, Begin(id)), Go(id, now, IDLE)) == w.To(id, Working(w.agent.row))
  {
    hide CountSince;
    assert w.flights[id := Counting(w.agent.row)][id := Working(w.agent.row)] == w.flights[id := Working(w.agent.row)];
  }

  /** All of them are recorded, on the same day. */
  lemma {:induction false} RecordTogether(limits: Limits, w: World, now: int, base: nat, n: nat)
    returns (actions: seq<Action>)
    requires Together(w, base, n)
    ensures var day := limits.midnight(now);
            CountOn(limits.midnight, RunPieces(limits, w, actions).agent.executions, day) ==
            CountOn(limits.midnight, w.agent.executions, day) + n
    decreases n
  {
    hide RunPieces, CountOn;
    if n == 0 {
      actions := [];
      Nothing(limits, w);
    } else {
      var id := base + n - 1;
      var first := [Go(id, now, IDLE), Go(id, now, IDLE)];
      var t := Next(limits, Next(limits, w, first[0]), first[1]);
      RecordOne(limits, w, id, now);
      TwoPieces(limits, w, first[0], first[1]);
      var rest := RecordTogether(limits, t, now, base, n - 1);
      RunConcat(limits, w, first, rest);
      actions := first + rest;
    }
  }

  lemma RecordOne(limits: Limits, w: World, id: nat, now: int)
    requires id in w.flights && w.flights[id].Working?
    ensures var t := Next(limits, Next(limits, w, Go(id, now, IDLE)), Go(id, now, IDLE));
            var day := limits.midnight(now);
            && CountOn(limits.midnight, t.agent.executions, day) ==
               CountOn(limits.midnight, w.agent.executions, day) + 1
            && forall x :: x in w.flights && x != id ==> x in t.flights && t.flights[x] == w.flights[x]
  {
    hide RunStrategy, CountOn;
    var (gas, failed, _) := RunStrategy(w.flights[id].seen, now, IDLE);
    CountOnSnoc(limits.midnight, w.agent.executions, Execution(failed, gas, now), limits.midnight(now));
  }

  /** Whenever an agent may run, whatever else is in flight, any number of overlapping executions
      can all be recorded on that day. */
  lemma LimitExceeded(limits: Limits, w: World, now: int, n: nat) returns (actions: seq<Action>)
    requires MayRun(limits, w.agent, now)
    ensures var day := limits.midnight(now);
            CountOn(limits.midnight, RunPieces(limits, w, actions).agent.executions, day) ==
            CountOn(limits.midnight, w.agent.executions, day) + n
  {
    hide RunPieces, CountOn, MayRun, Together;
    var base := FreshFrom(w.flights.Keys);
    var begins := BeginTogether(limits, w, now, base, n);
    var records := RecordTogether(limits, RunPieces(limits, w, begins), now, base, n);
    RunConcat(limits, w, begins, records);
    actions := begins + records;
  }

  /** An agent that may run can use up its gas while another execution is past its checks, as
      `ExhaustionUndone` supposes. */
  lemma ExhaustedInFlight(limits: Limits, w: World, x: nat, y: nat, now: int) returns (st: Strategy)
    requires x !in w.flights && y !in w.flights && x != y
    requires MayRun(limits, w.agent, now) && w.agent.row.dca == None && limits.maxGasPerDay > 0
    ensures var idle, greedy := Go(x, now, IDLE), Go(y, now, st);
            var t := RunPieces(limits, w, [Begin(x), idle]
                                          + ([Begin(y), Go(y, now, IDLE)] + ([greedy, greedy] + [greedy])));
            && !GasLeft(limits, t.agent.row) && x in t.flights && t.flights[x].Working?
            && t.agent.row.gasResetAt == w.agent.row.gasResetAt
  {
    hide RunPieces, MayRun, Next;
    st := Strategy(true, [limits.maxGasPerDay], false, true, true);
    SumOne(limits.maxGasPerDay);
    var row, idle, og, greedy := w.agent.row, Go(x, now, IDLE), Go(y, now, IDLE), Go(y, now, st);
    BeginOne(limits, w, x, now);
    TwoPieces(limits, w, Begin(x), idle);
    var s := w.To(x, Working(row));
    BeginOne(limits, s, y, now);
    TwoPieces(limits, s, Begin(y), og);
    var u := s.To(y, Working(row));
    GreedyPieces(limits, u, y, row, now, st);
    TwoPieces(limits, u, greedy, greedy);
    var v := Next(limits, Next(limits, u, greedy), greedy);
    Unfold(limits, v, [greedy], greedy, []);
    Nothing(limits, Next(limits, v, greedy));
    RunConcat(limits, u, [greedy, greedy], [greedy]);
    RunConcat(limits, s, [Begin(y), og], [greedy, greedy] + [greedy]);
    RunConcat(limits, w, [Begin(x), idle], [Begin(y), og] + ([greedy, greedy] + [greedy]));
  }

  lemma GreedyPieces(limits: Limits, w: World, id: nat, seen: Row, now: int, st: Strategy)
    requires id in w.flights && w.flights[id] == Working(seen) && seen.dca == None
    requires Sum(st.steps) == limits.maxGasPerDay && !st.throws && st.permitted
    ensures var go := Go(id, now, st);
            var t := Next(limits, Next(limits, Next(limits, w, go), go), go);
            && t.agent.row.currentDayGasUsed == w.agent.row.currentDayGasUsed + limits.maxGasPerDay
            && t.agent.row.gasResetAt == w.agent.row.gasResetAt
            && forall x :: x in w.flights && x != id ==> x in t.flights && t.flights[x] == w.flights[x]
  {
    hide Sum;
  }

  // ---- accounts -----------------------------------------------------------------------------

  /** The runs whose counters have been updated. */
  function Ledger(executions: seq<Execution>, booked: set<nat>): seq<Execution> {
    if executions == [] then []
    else
      var n := |executions| - 1;
      Ledger(executions[..n], booked) + if n in booked then [executions[n]] else []
  }

  lemma LedgerSnoc(executions: seq<Execution>, booked: set<nat>, e: Execution)
    requires |executions| !in booked
    ensures Ledger(executions + [e], booked) == Ledger(executions, booked)
  {
    assert (executions + [e])[..|executions|] == executions;
  }

  /** What booking one more run does to the totals. */
  lemma {:induction false} LedgerAdd(executions: seq<Execution>, booked: set<nat>, i: nat)
    requires i < |executions| && i !in booked
    ensures var a, b := Ledger(executions, booked), Ledger(executions, booked + {i});
            && |b| == |a| + 1 && Gas(b) == Gas(a) + executions[i].gas
            && FailedIn(b) == FailedIn(a) + if executions[i].failed then 1 else 0
  {
    hide Gas, FailedIn;
    var n := |executions| - 1;
    var p := executions[..n];
    if i == n {
      LedgerBeyond(p, booked, n);
      GasSnoc(Ledger(p, booked), executions[n]);
      assert Ledger(p, booked) + [] == Ledger(p, booked);
    } else {
      LedgerAdd(p, booked, i);
      if n in booked {
        GasSnoc(Ledger(p, booked), executions[n]);
        GasSnoc(Ledger(p, booked + {i}), executions[n]);
      } else {
        assert Ledger(p, booked) + [] == Ledger(p, booked);
        assert Ledger(p, booked + {i}) + [] == Ledger(p, booked + {i});
      }
    }
  }

  lemma {:induction false} LedgerBeyond(executions: seq<Execution>, booked: set<nat>, i: nat)
    requires i >= |executions|
    ensures Ledger(executions, booked + {i}) == Ledger(executions, booked)
  {
    if executions != [] {
      LedgerBeyond(executions[..|executions| - 1], booked, i);
    }
  }

  lemma {:induction false} LedgerAll(executions: seq<Execution>, booked: set<nat>)
    requires forall i :: 0 <= i < |executions| ==> i in booked
    ensures Ledger(executions, booked) == executions
  {
    if executions != [] {
      LedgerAll(executions[..|executions| - 1], booked);
    }
  }

  /** The counters are those of the booked runs. */
  predicate Balanced(row: Row, ledger: seq<Execution>) {
    && row.totalExecutions == |ledger| && row.failureCount == FailedIn(ledger)
    && row.successfulExecutions == |ledger| - FailedIn(ledger) && row.totalGasUsed == Gas(ledger)
  }

  /** Exactly the recorded runs that are not booked wait for it, each in one execution. */
  ghost predicate Waiting(w: World) {
    && (forall i :: i in w.booked ==> i < |w.agent.executions|)
    && (forall id :: id in w.flights && w.flights[id].Booking? ==>
          w.flights[id].index < |w.agent.executions| && w.flights[id].index !in w.booked)
    && (forall x, y :: x in w.flights && y in w.flights && w.flights[x].Booking? && w.flights[x] == w.flights[y] ==>
          x == y)
    && (forall i :: 0 <= i < |w.agent.executions| && i !in w.booked ==> Waits(w, i))
  }

  ghost predicate Waits(w: World, i: nat) {
    exists id :: id in w.flights && w.flights[id] == Booking(i)
  }

  ghost predicate AccountsInFlight(w: World) {
    Waiting(w) && Balanced(w.agent.row, Ledger(w.agent.executions, w.booked))
  }

  /** Booking comes from creating only. */
  lemma BookingOwn(limits: Limits, w: World, a: Action, id: nat)
    requires About(a, id)
    ensures var t := Next(limits, w, a);
            && (id in t.flights && t.flights[id].Booking? ==>
                  (Creates(w, a) && t.flights[id] == Booking(|w.agent.executions|))
                  || (id in w.flights && t.flights[id] == w.flights[id] && !Books(w, a)))
            && (Creates(w, a) ==> id in t.flights && t.flights[id] == Booking(|w.agent.executions|))
            && (id in w.flights && w.flights[id].Booking? && !Books(w, a) ==>
                  id in t.flights && t.flights[id] == w.flights[id])
  {
    hide RunStrategy, Tripped, CountSince, MayMove;
  }

  lemma FlightCases(limits: Limits, w: World, a: Action, id: nat)
    ensures var t := Next(limits, w, a);
            var own := a.Go? && a.id == id;
            && (id in t.flights && t.flights[id].Booking? ==>
                  (own && Creates(w, a) && t.flights[id] == Booking(|w.agent.executions|))
                  || (id in w.flights && t.flights[id] == w.flights[id] && !(own && Books(w, a))))
            && (own && Creates(w, a) ==> id in t.flights && t.flights[id] == Booking(|w.agent.executions|))
            && (id in w.flights && w.flights[id].Booking? && !(own && Books(w, a)) ==>
                  id in t.flights && t.flights[id] == w.flights[id])
  {
    hide Next;
    if About(a, id) {
      BookingOwn(limits, w, a, id);
    } else {
      OthersKept(limits, w, a, id);
    }
  }

  lemma NextWaiting(limits: Limits, w: World, a: Action)
    requires Waiting(w)
    ensures Waiting(Next(limits, w, a))
  {
    hide Next;
    var t := Next(limits, w, a);
    NextExecutions(limits, w, a);
    NextBooks(limits, w, a);
    forall id: nat { FlightCases(limits, w, a, id); }
    forall i | 0 <= i < |t.agent.executions| && i !in t.booked
      ensures Waits(t, i)
    {
      if i < |w.agent.executions| {
        assert Waits(w, i);
        var id :| id in w.flights && w.flights[id] == Booking(i);
        FlightCases(limits, w, a, id);
        assert t.flights[id] == Booking(i);
      } else {
        assert Creates(w, a) && i == |w.agent.executions|;
        FlightCases(limits, w, a, a.id);
        assert t.flights[a.id] == Booking(i);
      }
    }
  }

  lemma NextBalanced(limits: Limits, w: World, a: Action)
    requires AccountsInFlight(w)
    ensures AccountsInFlight(Next(limits, w, a))
  {
    hide Next, Gas, FailedIn, Ledger;
    NextWaiting(limits, w, a);
    NextExecutions(limits, w, a);
    NextBooks(limits, w, a);
    var e := w.agent.executions;
    if Creates(w, a) {
      LedgerSnoc(e, w.booked, Created(w, a));
    } else {
      assert e + [] == e;
      if Books(w, a) {
        LedgerAdd(e, w.booked, w.flights[a.id].index);
      }
    }
  }

  /** However executions overlap, the counters are those of the recorded runs without the ones
      that still wait to be booked; when none waits, those of all. */
  lemma {:induction false} AlwaysBalanced(limits: Limits, w: World, actions: seq<Action>)
    requires AccountsInFlight(w)
    ensures var t := RunPieces(limits, w, actions);
            && AccountsInFlight(t)
            && ((forall id :: id in t.flights ==> !t.flights[id].Booking?) ==> Accounted(t.agent))
    decreases |actions|
  {
    hide Next, AccountsInFlight;
    if actions != [] {
      NextBalanced(limits, w, actions[0]);
      AlwaysBalanced(limits, Next(limits, w, actions[0]), actions[1..]);
    } else {
      NoneWaits(w);
    }
  }

  lemma NoneWaits(w: World)
    requires AccountsInFlight(w)
    ensures (forall id :: id in w.flights ==> !w.flights[id].Booking?) ==> Accounted(w.agent)
  {
    hide Gas, FailedIn, Ledger;
    if forall id :: id in w.flights ==> !w.flights[id].Booking? {
      assert forall i :: 0 <= i < |w.agent.executions| && i !in w.booked ==> Waits(w, i);
      LedgerAll(w.agent.executions, w.booked);
    }
  }

  /** In particular from the creation of the agent on. */
  lemma BalancedFromCreation(limits: Limits, dca: Option<Dca>, maxDrawdown: int, start: int, actions: seq<Action>)
    ensures AccountsInFlight(RunPieces(limits, NewWorld(dca, maxDrawdown, start), actions))
  {
    hide RunPieces;
    AlwaysBalanced(limits, NewWorld(dca, maxDrawdown, start), actions);
  }

  // ---- plans ----------------------------------------------------------------------------------

  predicate SamePlan(a: Row, b: Row) {
    match (a.dca, b.dca)
    case (Some(p), Some(q)) => p.totalBuys == q.totalBuys && p.buysExecuted <= p.totalBuys
    case (None, None) => true
    case _ => false
  }

  predicate Knows(f: Flight, plan: Row) {
    (f.Counting? || f.Working?) ==> SamePlan(f.seen, plan)
  }

  ghost predicate Planned(w: World, plan: Row) {
    SamePlan(w.agent.row, plan) && forall id :: id in w.flights ==> Knows(w.flights[id], plan)
  }

  lemma PlannedOwn(limits: Limits, w: World, a: Action, plan: Row)
    requires SamePlan(w.agent.row, plan) && (a.Go? && a.id in w.flights ==> Knows(w.flights[a.id], plan))
    ensures SamePlan(Next(limits, w, a).agent.row, plan)
    ensures forall id :: About(a, id) && id in Next(limits, w, a).flights ==>
              || (id in w.flights && Next(limits, w, a).flights[id] == w.flights[id])
              || Knows(Next(limits, w, a).flights[id], plan)
  {
    hide Tripped, CountSince, MayMove, Sum;
  }

  lemma NextPlanned(limits: Limits, w: World, a: Action, plan: Row)
    requires Planned(w, plan)
    ensures Planned(Next(limits, w, a), plan)
  {
    hide Next, SamePlan, Knows;
    var t := Next(limits, w, a);
    PlannedOwn(limits, w, a, plan);
    forall id | id in t.flights
      ensures Knows(t.flights[id], plan)
    {
      if !About(a, id) {
        OthersKept(limits, w, a, id);
      }
    }
  }

  /** The buy counter stays within the plan however executions overlap. */
  lemma {:induction false} NeverOverbooks(limits: Limits, w: World, actions: seq<Action>, plan: Row)
    requires Planned(w, plan)
    ensures Planned(RunPieces(limits, w, actions), plan)
    decreases |actions|
  {
    hide Next, Planned;
    if actions != [] {
      NextPlanned(limits, w, actions[0], plan);
      NeverOverbooks(limits, Next(limits, w, actions[0]), actions[1..], plan);
    }
  }

  /** A buy is due. */
  predicate Buys(row: Row, now: int) {
    row.dca.Some? && row.dca.value.buysExecuted < row.dca.value.totalBuys
    && now - (if row.lastExecutionAt.Some? then row.lastExecutionAt.value else 0)
       >= row.dca.value.frequencyMinutes * 60 * 1000
  }

  lemma BuyPiece(limits: Limits, w: World, id: nat, seen: Row, now: int)
    requires id in w.flights && w.flights[id] == Working(seen) && Buys(seen, now)
    ensures var t := Next(limits, w, Go(id, now, IDLE));
            var dca := seen.dca.value;
            && t.agent == w.agent.(row := w.agent.row.(dca := Some(dca.(buysExecuted := dca.buysExecuted + 1))))
            && t.flights == w.flights[id := Creating(50000, false)]
  {
  }

  /** But it does not count all buys: of two overlapping executions that are both due both buy, and
      the counter goes up by one. */
  lemma BuyNotCounted(limits: Limits, w: World, x: nat, y: nat, now: int)
    requires x !in w.flights && y !in w.flights && x != y
    requires MayRun(limits, w.agent, now) && Buys(w.agent.row, now)
    ensures var go, og := Go(x, now, IDLE), Go(y, now, IDLE);
            var t := RunPieces(limits, w, [Begin(x), go] + ([Begin(y), og] + [go, og]));
            var dca := w.agent.row.dca.value;
            && t.agent.row.dca == Some(dca.(buysExecuted := dca.buysExecuted + 1))
            && x in t.flights && y in t.flights
            && t.flights[x] == t.flights[y] == Creating(50000, false)
  {
    hide RunPieces, MayRun, Next, Buys;
    var row, go, og := w.agent.row, Go(x, now, IDLE), Go(y, now, IDLE);
    var s := w.To(x, Working(row));
    BeginOne(limits, w, x, now);
    TwoPieces(limits, w, Begin(x), go);
    BeginOne(limits, s, y, now);
    TwoPieces(limits, s, Begin(y), og);
    var u := s.To(y, Working(row));
    BuyPiece(limits, u, x, row, now);
    BuyPiece(limits, Next(limits, u, go), y, row, now);
    TwoPieces(limits, u, go, og);
    RunConcat(limits, s, [Begin(y), og], [go, og]);
    RunConcat(limits, w, [Begin(x), go], [Begin(y), og] + [go, og]);
  }
}
