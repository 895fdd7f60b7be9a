/**
  What the breaker of scripts/sdk/graceful-degradation.ts guarantees over runs of any
  length, and what a finished pipeline reports.  A run is a sequence of turns, one per
  execution of a handler.
*/
module BreakerRuns {
  import opened Wrappers
  import opened Breaker

  function After(cfg: Config, s: Circuits, turns: seq<Handler>): Circuits {
    if turns == [] then s
    else TurnOf(cfg, After(cfg, s, turns[..|turns| - 1]), turns[|turns| - 1]).1
  }

  function Before(cfg: Config, turns: seq<Handler>, i: nat): Circuits
    requires i <= |turns|
  {
    After(cfg, map[], turns[..i])
  }

  // ---- one turn -----------------------------------------------------------------------

  /** A turn calls `execute` at most maxRetries times, not at all when the breaker is open, and
      stops at the first call that returns; it fails exactly when no call returns. */
  lemma TurnCalls(cfg: Config, s: Circuits, h: Handler)
    ensures var (turn, t, calls) := TurnOf(cfg, s, h);
            && calls <= cfg.maxRetries
            && (Open(cfg, s, h.name, h.checkedAt) ==> calls == 0 && t == s && turn == Failure(OPEN_MESSAGE, true))
            && (turn.Success? ==> calls > 0 && h.execute(calls - 1) == Returns(turn.files) && h.name !in t)
            && (!Open(cfg, s, h.name, h.checkedAt) && turn.Failure? ==>
                  calls == cfg.maxRetries && turn.recoverable == !h.critical && h.name in t
                  && (forall i :: 0 <= i < calls ==> h.execute(i).Throws?)
                  && (calls > 0 && h.execute(calls - 1).message != "" ==> turn.error == h.execute(calls - 1).message)
                  && (calls == 0 || h.execute(calls - 1).message == "" ==> turn.error == "Unknown error"))
            && (turn.Success? ==> forall i :: 0 <= i < calls - 1 ==> h.execute(i).Throws?)
  {
  }

  /** A turn leaves the other components alone. */
  lemma TurnFrame(cfg: Config, s: Circuits, h: Handler, name: string)
    requires name != h.name
    ensures var t := TurnOf(cfg, s, h).1;
            (name in t <==> name in s) && (name in s ==> t[name] == s[name])
  {
  }

  // ---- open breakers ----------------------------------------------------------------------

  /** Once open, a component is not called again by any turn whose check comes within the
      timeout of the last failure, however many there are. */
  lemma {:induction false} OpenStaysShut(cfg: Config, s: Circuits, turns: seq<Handler>, name: string)
    requires name in s && s[name].count >= cfg.threshold
    requires forall h :: h in turns && h.name == name ==> h.checkedAt - s[name].lastFailure <= cfg.timeout
    ensures name in After(cfg, s, turns) && After(cfg, s, turns)[name] == s[name]
    ensures forall i :: 0 <= i < |turns| && turns[i].name == name ==>
              TurnOf(cfg, After(cfg, s, turns[..i]), turns[i]).2 == 0
  {
    hide TurnOf;
    if turns != [] {
      var n := |turns| - 1;
      OpenStaysShut(cfg, s, turns[..n], name);
      assert forall i :: 0 <= i < n ==> turns[..n][..i] == turns[..i] && turns[..n][i] == turns[i];
      StaysShut(cfg, After(cfg, s, turns[..n]), turns[n], name);
    }
  }

  lemma StaysShut(cfg: Config, s: Circuits, h: Handler, name: string)
    requires name in s && s[name].count >= cfg.threshold
    requires h.name == name ==> h.checkedAt - s[name].lastFailure <= cfg.timeout
    ensures var t := TurnOf(cfg, s, h).1;
            name in t && t[name] == s[name]
    ensures h.name == name ==> TurnOf(cfg, s, h).2 == 0
  {
  }

  ghost predicate Bounded(cfg: Config, s: Circuits) {
    forall name :: name in s ==> s[name].count <= 1 || s[name].count <= cfg.threshold
  }

  lemma TurnBounded(cfg: Config, s: Circuits, h: Handler)
    requires Bounded(cfg, s)
    ensures Bounded(cfg, TurnOf(cfg, s, h).1)
  {
  }

  /** No failure is counted beyond the threshold. */
  lemma {:induction false} CountBounded(cfg: Config, s: Circuits, turns: seq<Handler>)
    requires Bounded(cfg, s)
    ensures Bounded(cfg, After(cfg, s, turns))
  {
    hide TurnOf;
    if turns != [] {
      var n := |turns| - 1;
      CountBounded(cfg, s, turns[..n]);
      TurnBounded(cfg, After(cfg, s, turns[..n]), turns[n]);
    }
  }

  // ---- what the count means ------------------------------------------------------------------

  /** The i-th turn succeeds. */
  predicate Succeeds(cfg: Config, turns: seq<Handler>, i: nat)
    requires i < |turns|
  {
    TurnOf(cfg, Before(cfg, turns, i), turns[i]).0.Success?
  }

  predicate Refused(cfg: Config, turns: seq<Handler>, i: nat)
    requires i < |turns|
  {
    Open(cfg, Before(cfg, turns, i), turns[i].name, turns[i].checkedAt)
  }

  /** The check of the i-th turn finds failures that are too old. */
  predicate TimesOut(cfg: Config, turns: seq<Handler>, i: nat)
    requires i < |turns|
  {
    var s, h := Before(cfg, turns, i), turns[i];
    h.name in s && TimedOut(cfg, s[h.name], h.checkedAt)
  }

  /** How many of the turns from k on execute the component and fail. */
  function FailedSince(cfg: Config, turns: seq<Handler>, k: nat): nat
    requires k <= |turns|
    decreases |turns| - k
  {
    if k == |turns| then 0
    else (if Succeeds(cfg, turns, k) || Refused(cfg, turns, k) then 0 else 1) + FailedSince(cfg, turns, k + 1)
  }

  /** A streak begins at k: after a success, or with a check that times out, or at the start;
      nothing of the kind happens later. */
  ghost predicate StreakFrom(cfg: Config, turns: seq<Handler>, k: nat) {
    && k <= |turns|
    && (k == 0 || Succeeds(cfg, turns, k - 1) || (k < |turns| && TimesOut(cfg, turns, k)))
    && (forall i :: k <= i < |turns| ==> !Succeeds(cfg, turns, i))
    && (forall i :: k < i < |turns| ==> !TimesOut(cfg, turns, i))
  }

  /** Earlier turns do not depend on later ones. */
  lemma Prefix(cfg: Config, turns: seq<Handler>, i: nat)
    requires i < |turns| - 1
    ensures var p := turns[..|turns| - 1];
            && (Succeeds(cfg, p, i) <==> Succeeds(cfg, turns, i))
            && (Refused(cfg, p, i) <==> Refused(cfg, turns, i))
            && (TimesOut(cfg, p, i) <==> TimesOut(cfg, turns, i))
  {
    assert turns[..|turns| - 1][..i] == turns[..i];
  }

  lemma {:induction false} FailedSinceSnoc(cfg: Config, turns: seq<Handler>, k: nat)
    requires k < |turns|
    ensures var n := |turns| - 1;
            FailedSince(cfg, turns, k) ==
            FailedSince(cfg, turns[..n], k) + if Succeeds(cfg, turns, n) || Refused(cfg, turns, n) then 0 else 1
    decreases |turns| - k
  {
    hide Succeeds, Refused;
    var n := |turns| - 1;
    if k < n {
      Prefix(cfg, turns, k);
      FailedSinceSnoc(cfg, turns, k + 1);
    } else {
      assert FailedSince(cfg, turns, |turns|) == 0;
    }
  }

  /** For every history of one component, the stored count is the number of failed executions
      since the last success or timed-out check. */
  lemma {:induction false} CountIsStreak(cfg: Config, turns: seq<Handler>, name: string) returns (k: nat)
    requires forall h :: h in turns ==> h.name == name
    ensures StreakFrom(cfg, turns, k)
    ensures var s := After(cfg, map[], turns);
            (name in s <==> FailedSince(cfg, turns, k) > 0)
            && (name in s ==> s[name].count == FailedSince(cfg, turns, k))
    decreases |turns|
  {
    hide Succeeds, Refused, TimesOut;
    if turns == [] {
      return 0;
    }
    var n := |turns| - 1;
    var p := turns[..n];
    k := CountIsStreak(cfg, p, name);
    LastTurn(cfg, turns);
    StreakSnoc(cfg, turns, k);
    hide StreakFrom;
    if Succeeds(cfg, turns, n) {
      k := n + 1;
    } else if TimesOut(cfg, turns, n) {
      k := n;
      FailedSinceSnoc(cfg, turns, n);
      assert FailedSince(cfg, p, n) == 0;
    } else {
      FailedSinceSnoc(cfg, turns, k);
    }
  }

  lemma StreakSnoc(cfg: Config, turns: seq<Handler>, k: nat)
    requires turns != [] && StreakFrom(cfg, turns[..|turns| - 1], k)
    ensures var n := |turns| - 1;
            && k <= n
            && (Succeeds(cfg, turns, n) ==> StreakFrom(cfg, turns, n + 1))
            && (!Succeeds(cfg, turns, n) && TimesOut(cfg, turns, n) ==> StreakFrom(cfg, turns, n))
            && (!Succeeds(cfg, turns, n) && !TimesOut(cfg, turns, n) ==> StreakFrom(cfg, turns, k))
  {
    hide Succeeds, TimesOut;
    var n := |turns| - 1;
    var p := turns[..n];
    forall i | 0 <= i < n
      ensures Succeeds(cfg, p, i) <==> Succeeds(cfg, turns, i)
      ensures TimesOut(cfg, p, i) <==> TimesOut(cfg, turns, i)
    {
      Prefix(cfg, turns, i);
    }
  }

  /** What the last turn does to the count. */
  lemma LastTurn(cfg: Config, turns: seq<Handler>)
    requires turns != []
    ensures var n := |turns| - 1;
            var name := turns[n].name;
            var s, t := After(cfg, map[], turns[..n]), After(cfg, map[], turns);
            && (Succeeds(cfg, turns, n) ==> name !in t)
            && (!Succeeds(cfg, turns, n) && TimesOut(cfg, turns, n) ==>
                  name in t && t[name].count == 1 && !Refused(cfg, turns, n))
            && (!Succeeds(cfg, turns, n) && !TimesOut(cfg, turns, n) && Refused(cfg, turns, n) ==>
                  name in s && name in t && t[name] == s[name])
            && (!Succeeds(cfg, turns, n) && !TimesOut(cfg, turns, n) && !Refused(cfg, turns, n) ==>
                  name in t && t[name].count == if name in s then s[name].count + 1 else 1)
  {
    assert turns[..|turns| - 1] == turns[..|turns| - 1];
  }

  /** Of the turns before n, the j-th is the last that executed the component; it failed. */
  ghost predicate LastFailed(cfg: Config, turns: seq<Handler>, n: nat, j: nat)
    requires n <= |turns|
  {
    && j < n && !Succeeds(cfg, turns, j) && !Refused(cfg, turns, j)
    && (forall i :: j < i < n ==> Refused(cfg, turns, i))
  }

  /** What is stored is the time of the last execution, which failed, or nothing. */
  ghost predicate StoresLast(cfg: Config, turns: seq<Handler>, name: string, n: nat)
    requires n <= |turns|
  {
    var s := Before(cfg, turns, n);
    && (name in s <==> exists j: nat :: LastFailed(cfg, turns, n, j))
    && (forall j: nat :: LastFailed(cfg, turns, n, j) ==> name in s && s[name].lastFailure == turns[j].failedAt)
  }

  lemma LastFailedStep(cfg: Config, turns: seq<Handler>, i: nat, j: nat)
    requires i < |turns|
    ensures LastFailed(cfg, turns, i + 1, j) <==>
            if Refused(cfg, turns, i) then LastFailed(cfg, turns, i, j)
            else j == i && !Succeeds(cfg, turns, i)
  {
    hide Refused, Succeeds;
  }

  lemma {:induction false} StoredIsLast(cfg: Config, turns: seq<Handler>, name: string, n: nat)
    requires n <= |turns| && forall h :: h in turns ==> h.name == name
    ensures StoresLast(cfg, turns, name, n)
  {
    hide Before, Succeeds, Refused, LastFailed, StoresLast;
    if n == 0 {
      NothingBefore(cfg, turns);
    } else {
      StoredIsLast(cfg, turns, name, n - 1);
      StoredStep(cfg, turns, name, n - 1);
    }
  }

  lemma StoredStep(cfg: Config, turns: seq<Handler>, name: string, i: nat)
    requires i < |turns| && turns[i].name == name && StoresLast(cfg, turns, name, i)
    ensures StoresLast(cfg, turns, name, i + 1)
  {
    hide Before, Succeeds, Refused;
    LastStored(cfg, turns, i);
    forall j: nat | LastFailed(cfg, turns, i + 1, j)
      ensures var t := Before(cfg, turns, i + 1); name in t && t[name].lastFailure == turns[j].failedAt
    {
      LastFailedStep(cfg, turns, i, j);
    }
    if name in Before(cfg, turns, i + 1) {
      var j: nat := i;
      if Refused(cfg, turns, i) {
        j :| LastFailed(cfg, turns, i, j);
      }
      LastFailedStep(cfg, turns, i, j);
    }
  }

  lemma NothingBefore(cfg: Config, turns: seq<Handler>)
    ensures forall name :: StoresLast(cfg, turns, name, 0)
  {
  }

  /** What the i-th turn stores for its component. */
  lemma LastStored(cfg: Config, turns: seq<Handler>, i: nat)
    requires i < |turns|
    ensures var s, t, name := Before(cfg, turns, i), Before(cfg, turns, i + 1), turns[i].name;
            && (Refused(cfg, turns, i) ==> name in s && name in t && t[name] == s[name] && !Succeeds(cfg, turns, i))
            && (Succeeds(cfg, turns, i) ==> name !in t)
            && (!Refused(cfg, turns, i) && !Succeeds(cfg, turns, i) ==>
                  name in t && t[name].lastFailure == turns[i].failedAt)
  {
    assert turns[..i + 1][..i] == turns[..i];
  }

  /** The last execution failed, and no longer than the timeout before the check of the n-th turn. */
  ghost predicate FailedLately(cfg: Config, turns: seq<Handler>, n: nat)
    requires n < |turns|
  {
    exists j: nat :: LastFailed(cfg, turns, n, j) && turns[n].checkedAt - turns[j].failedAt <= cfg.timeout
  }

  /** The last execution failed, but longer ago. */
  ghost predicate FailedLongAgo(cfg: Config, turns: seq<Handler>, n: nat)
    requires n < |turns|
  {
    exists j: nat :: LastFailed(cfg, turns, n, j) && turns[n].checkedAt - turns[j].failedAt > cfg.timeout
  }

  lemma StoredTime(cfg: Config, turns: seq<Handler>, n: nat)
    requires n < |turns| && StoresLast(cfg, turns, turns[n].name, n)
    ensures var s, h := Before(cfg, turns, n), turns[n];
            && (FailedLately(cfg, turns, n) <==> h.name in s && h.checkedAt - s[h.name].lastFailure <= cfg.timeout)
            && (FailedLongAgo(cfg, turns, n) <==> h.name in s && h.checkedAt - s[h.name].lastFailure > cfg.timeout)
  {
    hide Before, Refused, Succeeds;
    if turns[n].name in Before(cfg, turns, n) {
      var j: nat :| LastFailed(cfg, turns, n, j);
      assert Before(cfg, turns, n)[turns[n].name].lastFailure == turns[j].failedAt;
    }
  }

  lemma RefusedAt(cfg: Config, turns: seq<Handler>, n: nat)
    requires n < |turns|
    ensures var s, h := Before(cfg, turns, n), turns[n];
            && (Refused(cfg, turns, n) <==>
                h.name in s && h.checkedAt - s[h.name].lastFailure <= cfg.timeout && s[h.name].count >= cfg.threshold)
            && (TimesOut(cfg, turns, n) <==> h.name in s && h.checkedAt - s[h.name].lastFailure > cfg.timeout)
  {
    hide Before;
  }

  /** A turn is refused exactly if the last execution failed within the timeout and at least as many
      failed in a row as the threshold says; the count starts again exactly if it failed before. */
  lemma RefusedIff(cfg: Config, turns: seq<Handler>, n: nat) returns (k: nat)
    requires n < |turns| && forall h :: h in turns ==> h.name == turns[n].name
    ensures StreakFrom(cfg, turns[..n], k)
    ensures Refused(cfg, turns, n) <==>
            FailedLately(cfg, turns, n) && FailedSince(cfg, turns[..n], k) >= cfg.threshold
    ensures TimesOut(cfg, turns, n) <==> FailedLongAgo(cfg, turns, n)
  {
    hide After, Succeeds, Refused, TimesOut, StreakFrom, FailedSince, FailedLately, FailedLongAgo, StoresLast;
    k := CountIsStreak(cfg, turns[..n], turns[n].name);
    StoredIsLast(cfg, turns, turns[n].name, n);
    StoredTime(cfg, turns, n);
    RefusedAt(cfg, turns, n);
  }

  function Own(turns: seq<Handler>, name: string): seq<Handler> {
    if turns == [] then []
    else Own(turns[..|turns| - 1], name) + if turns[|turns| - 1].name == name then [turns[|turns| - 1]] else []
  }

  predicate SameAt(s: Circuits, t: Circuits, name: string) {
    (name in s <==> name in t) && (name in s ==> s[name] == t[name])
  }

  lemma TurnSameAt(cfg: Config, s: Circuits, t: Circuits, h: Handler)
    requires SameAt(s, t, h.name)
    ensures SameAt(TurnOf(cfg, s, h).1, TurnOf(cfg, t, h).1, h.name)
    ensures TurnOf(cfg, s, h).0 == TurnOf(cfg, t, h).0 && TurnOf(cfg, s, h).2 == TurnOf(cfg, t, h).2
  {
  }

  /** Components do not influence each other: what is stored for one depends on its own turns
      only, so that `CountIsStreak` speaks about all runs. */
  lemma {:induction false} OwnTurnsDecide(cfg: Config, turns: seq<Handler>, name: string)
    ensures SameAt(After(cfg, map[], turns), After(cfg, map[], Own(turns, name)), name)
    ensures forall h :: h in Own(turns, name) ==> h.name == name
  {
    hide TurnOf;
    if turns != [] {
      var n := |turns| - 1;
      var p, q := turns[..n], Own(turns[..n], name);
      OwnTurnsDecide(cfg, p, name);
      if turns[n].name == name {
        TurnSameAt(cfg, After(cfg, map[], p), After(cfg, map[], q), turns[n]);
        assert (q + [turns[n]])[..|q|] == q;
      } else {
        TurnFrame(cfg, After(cfg, map[], p), turns[n], name);
        assert q + [] == q;
      }
    }
  }

  /** Critical and optional handlers each take their turns in the order in which they are given. */
  lemma {:induction false} SelectInOrder(before: seq<Handler>, h: Handler, rest: seq<Handler>, critical: bool)
    ensures Select(before + [h] + rest, critical) ==
            Select(before, critical) + (if h.critical == critical then [h] else []) + Select(rest, critical)
  {
    hide Select;
    if before == [] {
      assert before + [h] + rest == [h] + rest;
      SelectCons(h, rest, critical);
      SelectNone(critical);
    } else {
      var b, tail := before[1..], before[1..] + [h] + rest;
      assert before == [before[0]] + b;
      assert before + [h] + rest == [before[0]] + tail;
      SelectCons(before[0], tail, critical);
      SelectCons(before[0], b, critical);
      SelectInOrder(b, h, rest, critical);
    }
  }

  lemma SelectCons(h: Handler, hs: seq<Handler>, critical: bool)
    ensures Select([h] + hs, critical) == (if h.critical == critical then [h] else []) + Select(hs, critical)
  {
  }

  lemma SelectNone(critical: bool)
    ensures Select([], critical) == []
  {
  }

  // ---- what a pipeline reports ----------------------------------------------------------------

  /** How the turns of a list of handlers end when all of them take place. */
  function Turns(cfg: Config, s: Circuits, hs: seq<Handler>): (turns: seq<Turn>)
    ensures |turns| == |hs|
    decreases |hs|
  {
    if hs == [] then []
    else
      var (turn, t, _) := TurnOf(cfg, s, hs[0]);
      [turn] + Turns(cfg, t, hs[1..])
  }

  /** The number of critical handlers that take a turn: all, or up to the first that fails
      beyond recovery. */
  function Reached(turns: seq<Turn>): (n: nat)
    ensures n <= |turns|
  {
    if turns == [] then 0
    else if Fatal(turns[0]) then 1
    else 1 + Reached(turns[1..])
  }

  function CriticalFiles(turns: seq<Turn>): seq<File> {
    if turns == [] then [] else (if turns[0].Success? then turns[0].files else []) + CriticalFiles(turns[1..])
  }

  /** The files of an optional handler: its own, or those of its fallback. */
  function Contribution(h: Handler, turn: Turn): seq<File> {
    if turn.Success? then turn.files
    else if h.fallback.Some? && h.fallback.value.Returns? then h.fallback.value.files
    else []
  }

  function OptionalFiles(hs: seq<Handler>, turns: seq<Turn>): seq<File>
    requires |hs| == |turns|
    decreases |hs|
  {
    if turns == [] then [] else Contribution(hs[0], turns[0]) + OptionalFiles(hs[1..], turns[1..])
  }

  function FailedNames(hs: seq<Handler>, turns: seq<Turn>): seq<string>
    requires |hs| == |turns|
    decreases |hs|
  {
    if turns == [] then []
    else (if turns[0].Failure? then [hs[0].name] else []) + FailedNames(hs[1..], turns[1..])
  }

  function Complaint(h: Handler, turn: Turn): seq<ErrorRecord> {
    if turn.Failure? then [ErrorRecord(h.name, turn.error, turn.recoverable)] else []
  }

  function CriticalErrors(hs: seq<Handler>, turns: seq<Turn>): seq<ErrorRecord>
    requires |hs| == |turns|
    decreases |hs|
  {
    if turns == [] then []
    else Complaint(hs[0], turns[0]) + CriticalErrors(hs[1..], turns[1..])
  }

  /** The errors of an optional handler: its own, and that of its fallback. */
  function Complaints(h: Handler, turn: Turn): seq<ErrorRecord> {
    if turn.Success? then []
    else [ErrorRecord(h.name, turn.error, true)]
         + if h.fallback.Some? && h.fallback.value.Throws?
           then [ErrorRecord(h.name + "-fallback", h.fallback.value.message, true)] else []
  }

  function OptionalErrors(hs: seq<Handler>, turns: seq<Turn>): seq<ErrorRecord>
    requires |hs| == |turns|
    decreases |hs|
  {
    if turns == [] then [] else Complaints(hs[0], turns[0]) + OptionalErrors(hs[1..], turns[1..])
  }

  function Rescue(h: Handler, turn: Turn): seq<string> {
    if turn.Failure? && h.fallback.Some? && h.fallback.value.Returns? then [h.name] else []
  }

  /** The handlers whose fallback stood in for them. */
  function Rescued(hs: seq<Handler>, turns: seq<Turn>): seq<string>
    requires |hs| == |turns|
    decreases |hs|
  {
    if turns == [] then [] else Rescue(hs[0], turns[0]) + Rescued(hs[1..], turns[1..])
  }

  predicate AnyFailure(turns: seq<Turn>) {
    exists i :: 0 <= i < |turns| && turns[i].Failure?
  }

  lemma AnyFailureCons(turns: seq<Turn>)
    requires turns != []
    ensures AnyFailure(turns) <==> turns[0].Failure? || AnyFailure(turns[1..])
  {
    assert forall i :: 0 < i < |turns| ==> turns[i] == turns[1..][i - 1];
    if AnyFailure(turns[1..]) {
      var i :| 0 <= i < |turns[1..]| && turns[1..][i].Failure?;
      assert turns[i + 1].Failure?;
    }
  }

  /** The verdict on the critical handlers. */
  lemma {:induction false} CriticalVerdict(cfg: Config, s: Circuits, hs: seq<Handler>, r: Outcome)
    ensures var (q, t, stopped) := Critical(cfg, s, hs, r);
            var turns := Turns(cfg, s, hs);
            && q.success == (r.success && !AnyFailure(turns))
            && (stopped <==> Stops(turns))
            && q.partial == r.partial && q.fallbacks == r.fallbacks
    decreases |hs|
  {
    hide TurnOf, AnyFailure;
    if hs == [] {
      CriticalNone(cfg, s, r);
    } else {
      var (turn, t, _) := TurnOf(cfg, s, hs[0]);
      CriticalVerdict(cfg, t, hs[1..], AfterCritical(hs[0], turn, r));
      AnyFailureCons(Turns(cfg, s, hs));
    }
  }

  lemma CriticalNone(cfg: Config, s: Circuits, r: Outcome)
    ensures Critical(cfg, s, [], r) == (r, s, false) && !AnyFailure([])
  {
  }

  /** Some critical handler fails beyond recovery, which ends the run. */
  predicate Stops(turns: seq<Turn>) {
    turns != [] && (Fatal(turns[0]) || Stops(turns[1..]))
  }

  /** The files and names reported for the critical handlers, in order. */
  lemma {:induction false} CriticalReport(cfg: Config, s: Circuits, hs: seq<Handler>, r: Outcome)
    ensures var q := Critical(cfg, s, hs, r).0;
            var turns := Turns(cfg, s, hs);
            var n := Reached(turns);
            && q.files == r.files + CriticalFiles(turns[..n])
            && q.failed == r.failed + FailedNames(hs[..n], turns[..n])
    decreases |hs|
  {
    hide TurnOf, CriticalFiles, FailedNames, CriticalErrors, Fatal, AfterCritical, Turns;
    NoReport();
    TurnsCons(cfg, s, hs);
    if hs != [] {
      var (turn, t, _) := TurnOf(cfg, s, hs[0]);
      var turns := Turns(cfg, s, hs);
      var m := if Fatal(turn) then 0 else Reached(turns[1..]);
      assert turns[..m + 1] == [turn] + turns[1..][..m] && hs[..m + 1] == [hs[0]] + hs[1..][..m];
      ReportCons(hs[0], turn, hs[1..][..m], turns[1..][..m]);
      AfterCriticalReport(hs[0], turn, r);
      if !Fatal(turn) {
        CriticalReport(cfg, t, hs[1..], AfterCritical(hs[0], turn, r));
      }
    }
  }

  /** The errors reported for them. */
  lemma {:induction false} CriticalComplaints(cfg: Config, s: Circuits, hs: seq<Handler>, r: Outcome)
    ensures var q := Critical(cfg, s, hs, r).0;
            var turns := Turns(cfg, s, hs);
            var n := Reached(turns);
            q.errors == r.errors + CriticalErrors(hs[..n], turns[..n])
    decreases |hs|
  {
    hide TurnOf, CriticalFiles, FailedNames, CriticalErrors, Fatal, AfterCritical, Turns, Complaint;
    NoReport();
    TurnsCons(cfg, s, hs);
    if hs != [] {
      var (turn, t, _) := TurnOf(cfg, s, hs[0]);
      var turns := Turns(cfg, s, hs);
      var m := if Fatal(turn) then 0 else Reached(turns[1..]);
      assert turns[..m + 1] == [turn] + turns[1..][..m] && hs[..m + 1] == [hs[0]] + hs[1..][..m];
      ComplaintCons(hs[0], turn, hs[1..][..m], turns[1..][..m]);
      AfterCriticalReport(hs[0], turn, r);
      if !Fatal(turn) {
        CriticalComplaints(cfg, t, hs[1..], AfterCritical(hs[0], turn, r));
      }
    }
  }

  lemma TurnsCons(cfg: Config, s: Circuits, hs: seq<Handler>)
    ensures hs == [] ==> Turns(cfg, s, hs) == []
    ensures hs != [] ==> var (turn, t, _) := TurnOf(cfg, s, hs[0]);
                         Turns(cfg, s, hs)[0] == turn && Turns(cfg, s, hs)[1..] == Turns(cfg, t, hs[1..])
  {
    hide TurnOf;
  }

  lemma AfterCriticalReport(h: Handler, turn: Turn, r: Outcome)
    ensures var q := AfterCritical(h, turn, r);
            && q.files == r.files + (if turn.Success? then turn.files else [])
            && q.failed == r.failed + (if turn.Failure? then [h.name] else [])
            && q.errors == r.errors + Complaint(h, turn)
  {
  }

  lemma NoReport()
    ensures CriticalFiles([]) == [] && FailedNames([], []) == [] && OptionalFiles([], []) == []
    ensures CriticalErrors([], []) == [] && OptionalErrors([], []) == [] && Rescued([], []) == []
  {
  }

  lemma ReportCons(h: Handler, turn: Turn, hs: seq<Handler>, turns: seq<Turn>)
    requires |hs| == |turns|
    ensures CriticalFiles([turn] + turns) == (if turn.Success? then turn.files else []) + CriticalFiles(turns)
    ensures FailedNames([h] + hs, [turn] + turns) ==
            (if turn.Failure? then [h.name] else []) + FailedNames(hs, turns)
    ensures OptionalFiles([h] + hs, [turn] + turns) == Contribution(h, turn) + OptionalFiles(hs, turns)
  {
    assert ([turn] + turns)[1..] == turns && ([h] + hs)[1..] == hs;
  }

  lemma ComplaintCons(h: Handler, turn: Turn, hs: seq<Handler>, turns: seq<Turn>)
    requires |hs| == |turns|
    ensures CriticalErrors([h] + hs, [turn] + turns) ==
            Complaint(h, turn) + CriticalErrors(hs, turns)
    ensures OptionalErrors([h] + hs, [turn] + turns) == Complaints(h, turn) + OptionalErrors(hs, turns)
    ensures Rescued([h] + hs, [turn] + turns) == Rescue(h, turn) + Rescued(hs, turns)
  {
    assert ([turn] + turns)[1..] == turns && ([h] + hs)[1..] == hs;
  }

  /** What the optional handlers add. */
  lemma {:induction false} OptionalReport(cfg: Config, s: Circuits, hs: seq<Handler>, r: Outcome)
    ensures var q := Optional(cfg, s, hs, r).0;
            var turns := Turns(cfg, s, hs);
            && q.success == r.success
            && q.partial == (r.partial || AnyFailure(turns))
            && q.files == r.files + OptionalFiles(hs, turns)
            && q.failed == r.failed + FailedNames(hs, turns)
            && (q.fallbacks != [] ==> r.fallbacks != [] || AnyFailure(turns))
    decreases |hs|
  {
    hide TurnOf, AnyFailure, Degraded, Contribution, Turns, OptionalFiles, FailedNames, OptionalErrors, Rescued;
    hide Complaints, Rescue;
    NoReport();
    CriticalNone(cfg, s, r);
    TurnsCons(cfg, s, hs);
    if hs != [] {
      var (turn, t, _) := TurnOf(cfg, s, hs[0]);
      var turns := Turns(cfg, s, hs);
      assert turns == [turn] + turns[1..] && hs == [hs[0]] + hs[1..];
      ReportCons(hs[0], turn, hs[1..], turns[1..]);
      DegradedReport(hs[0], turn, r);
      AnyFailureCons(turns);
      OptionalReport(cfg, t, hs[1..],
                     if turn.Success? then r.(files := r.files + turn.files) else Degraded(hs[0], turn.error, r));
    }
  }

  /** The errors and fallbacks they add. */
  lemma {:induction false} OptionalComplaints(cfg: Config, s: Circuits, hs: seq<Handler>, r: Outcome)
    ensures var q := Optional(cfg, s, hs, r).0;
            var turns := Turns(cfg, s, hs);
            && q.errors == r.errors + OptionalErrors(hs, turns)
            && q.fallbacks == r.fallbacks + Rescued(hs, turns)
    decreases |hs|
  {
    hide TurnOf, AnyFailure, Degraded, Contribution, Turns, OptionalFiles, FailedNames, OptionalErrors, Rescued;
    hide Complaints, Rescue;
    NoReport();
    TurnsCons(cfg, s, hs);
    if hs != [] {
      var (turn, t, _) := TurnOf(cfg, s, hs[0]);
      var turns := Turns(cfg, s, hs);
      assert turns == [turn] + turns[1..] && hs == [hs[0]] + hs[1..];
      ComplaintCons(hs[0], turn, hs[1..], turns[1..]);
      DegradedReport(hs[0], turn, r);
      OptionalComplaints(cfg, t, hs[1..],
                     if turn.Success? then r.(files := r.files + turn.files) else Degraded(hs[0], turn.error, r));
    }
  }

  lemma DegradedReport(h: Handler, turn: Turn, r: Outcome)
    ensures turn.Success? ==> Contribution(h, turn) == turn.files && Complaints(h, turn) == [] && Rescue(h, turn) == []
    ensures turn.Failure? ==>
              var q := Degraded(h, turn.error, r);
              && q.success == r.success && q.partial && q.files == r.files + Contribution(h, turn)
              && q.failed == r.failed + [h.name]
              && q.errors == r.errors + Complaints(h, turn) && q.fallbacks == r.fallbacks + Rescue(h, turn)
  {
  }

  /** The pipeline succeeds exactly if no critical handler fails; it is partial exactly if it
      got to the optional handlers and one of those failed; its files and failed names are
      those of the turns that took place, in order. */
  lemma Report(cfg: Config, s: Circuits, handlers: seq<Handler>)
    ensures var (q, _) := Degrade(cfg, s, handlers);
            var critical, optional := Select(handlers, true), Select(handlers, false);
            var turns := Turns(cfg, s, critical);
            var rest := Turns(cfg, Critical(cfg, s, critical, NOTHING).1, optional);
            var n := Reached(turns);
            && q.success == !AnyFailure(turns)
            && q.partial == (!Stops(turns) && AnyFailure(rest))
            && q.files == CriticalFiles(turns[..n]) + (if Stops(turns) then [] else OptionalFiles(optional, rest))
            && q.failed == FailedNames(critical[..n], turns[..n])
                           + (if Stops(turns) then [] else FailedNames(optional, rest))
            && q.errors == CriticalErrors(critical[..n], turns[..n])
                           + (if Stops(turns) then [] else OptionalErrors(optional, rest))
            && q.fallbacks == (if Stops(turns) then [] else Rescued(optional, rest))
  {
    hide Critical, Optional, AnyFailure, Select, CriticalFiles, OptionalFiles, FailedNames, Turns, Stops, Reached;
    hide CriticalErrors, OptionalErrors, Rescued;
    var critical, optional := Select(handlers, true), Select(handlers, false);
    var (r, t, stopped) := Critical(cfg, s, critical, NOTHING);
    CriticalVerdict(cfg, s, critical, NOTHING);
    CriticalReport(cfg, s, critical, NOTHING);
    CriticalComplaints(cfg, s, critical, NOTHING);
    OptionalReport(cfg, t, optional, r);
    OptionalComplaints(cfg, t, optional, r);
  }

  // ---- where a pipeline ends -------------------------------------------------------------------

  /** The handler may be called, and no call returns. */
  predicate Lost(cfg: Config, s: Circuits, h: Handler) {
    !Open(cfg, s, h.name, h.checkedAt) && forall i :: 0 <= i < cfg.maxRetries ==> h.execute(i).Throws?
  }

  lemma FatalIff(cfg: Config, s: Circuits, h: Handler)
    requires h.critical
    ensures Fatal(TurnOf(cfg, s, h).0) <==> Lost(cfg, s, h)
  {
    TurnCalls(cfg, s, h);
  }

  lemma {:induction false} AfterCons(cfg: Config, s: Circuits, hs: seq<Handler>)
    requires hs != []
    ensures After(cfg, s, hs) == After(cfg, TurnOf(cfg, s, hs[0]).1, hs[1..])
    decreases |hs|
  {
    hide TurnOf;
    var n := |hs| - 1;
    if n == 0 {
      assert hs[..0] == [] && hs[1..] == [];
    } else {
      AfterCons(cfg, s, hs[..n]);
      assert hs[..n][1..] == hs[1..][..n - 1];
    }
  }

  lemma {:induction false} TurnsAt(cfg: Config, s: Circuits, hs: seq<Handler>, k: nat)
    requires k < |hs|
    ensures Turns(cfg, s, hs)[k] == TurnOf(cfg, After(cfg, s, hs[..k]), hs[k]).0
    decreases k
  {
    hide TurnOf;
    if k == 0 {
      assert hs[..0] == [];
    } else {
      TurnsAt(cfg, TurnOf(cfg, s, hs[0]).1, hs[1..], k - 1);
      AfterCons(cfg, s, hs[..k]);
      assert hs[..k][1..] == hs[1..][..k - 1];
    }
  }

  lemma {:induction false} ReachedFirst(turns: seq<Turn>)
    ensures forall k :: 0 <= k < Reached(turns) - 1 ==> !Fatal(turns[k])
    ensures Stops(turns) <==> Reached(turns) > 0 && Fatal(turns[Reached(turns) - 1])
    ensures !Stops(turns) ==> Reached(turns) == |turns|
  {
    hide Fatal;
    if turns != [] && !Fatal(turns[0]) {
      ReachedFirst(turns[1..]);
    }
  }

  /** The critical handlers take turns up to the first that is called and never returns, which ends
      the pipeline; one whose breaker is open does not. */
  lemma EndsAtFirstLost(cfg: Config, s: Circuits, hs: seq<Handler>)
    requires forall h :: h in hs ==> h.critical
    ensures var turns := Turns(cfg, s, hs);
            var n := Reached(turns);
            && (forall k :: 0 <= k < n - 1 ==> !Lost(cfg, After(cfg, s, hs[..k]), hs[k]))
            && (Stops(turns) <==> n > 0 && Lost(cfg, After(cfg, s, hs[..n - 1]), hs[n - 1]))
            && (!Stops(turns) ==> n == |hs|)
  {
    hide TurnOf, Lost, Fatal, After, Turns;
    var turns := Turns(cfg, s, hs);
    ReachedFirst(turns);
    forall k | 0 <= k < |hs|
      ensures Fatal(turns[k]) <==> Lost(cfg, After(cfg, s, hs[..k]), hs[k])
    {
      TurnsAt(cfg, s, hs, k);
      FatalIff(cfg, After(cfg, s, hs[..k]), hs[k]);
    }
  }
}
