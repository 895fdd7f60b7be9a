/**
  The handlers of src/api/authMultisig.ts interleaved at their awaits.  Reads may even
  return any older state of the flow, as the two-level cache allows.
*/
module MultisigRuns {
  import opened Wrappers
  import opened Multisig

  /** A handler between two awaits. */
  datatype Call =
    | Contributing(flowId: string, address: string, signature: string)
    | Completing(flowId: string)
    | Storing(flow: Flow)
    | StoringCompleted(flow: Flow)
    | Issuing(flow: Flow)

  datatype State = State(
    store: map<string, Flow>,
    written: set<Flow>,              // everything ever stored
    initiated: map<string, Flow>,    // the first state of every flow
    calls: map<nat, Call>,
    issued: seq<Flow>                // one token per element
  )

  datatype Action =
    | Initiate(request: Request, flowId: string, nonce: string)
    | Contribute(id: nat, flowId: string, address: string, signature: string)
    | Complete(id: nat, flowId: string)
    | Read(id: nat, answer: Option<Flow>)
    | Write(id: nat)
    | Issue(id: nat)
    | Expire(flowId: string)

  function Stored(s: State, flowId: string): Option<Flow> {
    if flowId in s.store then Some(s.store[flowId]) else None
  }

  /** A read answers nothing or some state the flow once had. */
  predicate CanRead(s: State, a: Action) {
    && a.Read? && a.id in s.calls && (s.calls[a.id].Contributing? || s.calls[a.id].Completing?)
    && (a.answer.Some? ==> a.answer.value in s.written && a.answer.value.flowId == s.calls[a.id].flowId)
  }

  function AfterRead(verify: Verifier, s: State, id: nat, answer: Option<Flow>): State
    requires CanRead(s, Read(id, answer))
  {
    var c := s.calls[id];
    var next := if c.Contributing? then Contributed(verify, c.flowId, answer, c.address, c.signature)
                else Completed(c.flowId, answer);
    if next.Err? then s.(calls := s.calls - {id})
    else s.(calls := s.calls[id := if c.Contributing? then Storing(next.value) else StoringCompleted(next.value)])
  }

  /** One piece of a handler; one that is not possible changes nothing. */
  function Next(verify: Verifier, s: State, a: Action): State {
    match a
    case Initiate(request, flowId, nonce) =>
      var flow := Open(request, flowId, nonce);
      if flow.Err? || flowId in s.initiated then s
      else s.(store := s.store[flowId := flow.value], written := s.written + {flow.value},
              initiated := s.initiated[flowId := flow.value])
    case Contribute(id, flowId, address, signature) =>
      if id in s.calls then s else s.(calls := s.calls[id := Contributing(flowId, address, signature)])
    case Complete(id, flowId) =>
      if id in s.calls then s else s.(calls := s.calls[id := Completing(flowId)])
    case Read(id, answer) =>
      if !CanRead(s, a) then s else AfterRead(verify, s, id, answer)
    case Write(id) =>
      if id !in s.calls || !(s.calls[id].Storing? || s.calls[id].StoringCompleted?) then s
      else
        var flow := s.calls[id].flow;
        s.(store := s.store[flow.flowId := flow], written := s.written + {flow},
           calls := if s.calls[id].Storing? then s.calls - {id} else s.calls[id := Issuing(flow)])
    case Issue(id) =>
      if id !in s.calls || !s.calls[id].Issuing? then s
      else s.(calls := s.calls - {id}, issued := s.issued + [s.calls[id].flow])
    case Expire(flowId) =>
      s.(store := s.store - {flowId})
  }

  const START: State := State(map[], {}, map[], map[], [])

  function Run(verify: Verifier, s: State, actions: seq<Action>): State
    decreases |actions|
  {
    if actions == [] then s else Run(verify, Next(verify, s, actions[0]), actions[1..])
  }

  // ---- safety under every interleaving ---------------------------------------------------

  ghost predicate Known(verify: Verifier, s: State, f: Flow) {
    f.flowId in s.initiated && Grown(verify, s.initiated[f.flowId], f)
  }

  ghost predicate Earned(verify: Verifier, s: State, f: Flow) {
    f.flowId in s.initiated && Entitled(verify, s.initiated[f.flowId], f)
  }

  ghost predicate CallOk(verify: Verifier, s: State, c: Call) {
    && (c.Storing? ==> Known(verify, s, c.flow))
    && (c.StoringCompleted? || c.Issuing? ==> Known(verify, s, c.flow) && Earned(verify, s, c.flow))
  }

  ghost predicate Inv(verify: Verifier, s: State) {
    && (forall id :: id in s.initiated ==> NamesFlow(s.initiated[id]))
    && (forall f :: f in s.written ==> Known(verify, s, f))
    && (forall id :: id in s.calls ==> CallOk(verify, s, s.calls[id]))
    && (forall f :: f in s.issued ==> Earned(verify, s, f))
  }

  lemma AfterReadOk(verify: Verifier, s: State, id: nat, answer: Option<Flow>)
    requires Inv(verify, s) && CanRead(s, Read(id, answer))
    ensures var t := AfterRead(verify, s, id, answer);
            id in t.calls ==> CallOk(verify, t, t.calls[id])
  {
    hide WellSigned, SignedWeight, NamesFlow;
    var c := s.calls[id];
    if answer.Some? && id in AfterRead(verify, s, id, answer).calls {
      assert Known(verify, s, answer.value);
      var o := s.initiated[answer.value.flowId];
      if c.Contributing? {
        ContributedGrown(verify, o, c.flowId, answer, c.address, c.signature);
      } else {
        CompletedEntitled(verify, o, c.flowId, answer);
      }
    }
  }

  lemma NextInv(verify: Verifier, s: State, a: Action)
    requires Inv(verify, s)
    ensures Inv(verify, Next(verify, s, a))
  {
    hide Grown, Entitled, NamesFlow, Contributed, Completed, Open, AfterRead;
    var t := Next(verify, s, a);
    if a.Initiate? && t != s {
      OpenGrown(verify, a.request, a.flowId, a.nonce);
    }
    if CanRead(s, a) {
      AfterReadOk(verify, s, a.id, a.answer);
      AfterReadFrame(verify, s, a.id, a.answer);
    }
  }

  lemma AfterReadFrame(verify: Verifier, s: State, id: nat, answer: Option<Flow>)
    requires CanRead(s, Read(id, answer))
    ensures var t := AfterRead(verify, s, id, answer);
            && t == s.(calls := t.calls)
            && forall k :: k in t.calls && k != id ==> k in s.calls && t.calls[k] == s.calls[k]
  {
  }

  lemma {:induction false} RunInv(verify: Verifier, s: State, actions: seq<Action>)
    requires Inv(verify, s)
    ensures Inv(verify, Run(verify, s, actions))
    decreases |actions|
  {
    hide Next, Inv;
    if actions != [] {
      NextInv(verify, s, actions[0]);
      RunInv(verify, Next(verify, s, actions[0]), actions[1..]);
    }
  }

  /** However the handlers interleave and however stale their reads, every token is earned:
      the flow it was issued from has the terms it was opened with, and bears valid signatures
      over its own challenge, by distinct addresses, of at least the threshold in weight. */
  lemma TokensAreEarned(verify: Verifier, actions: seq<Action>, i: nat)
    requires i < |Run(verify, START, actions).issued|
    ensures var s := Run(verify, START, actions);
            var f := s.issued[i];
            f.flowId in s.initiated && Entitled(verify, s.initiated[f.flowId], f)
  {
    hide Run, Entitled;
    RunInv(verify, START, actions);
    var s := Run(verify, START, actions);
    assert s.issued[i] in s.issued;
    assert Earned(verify, s, s.issued[i]);
  }

  // ---- what interleaving costs, even when every read is up to date ---------------------------

  predicate UpToDate(s: State, a: Action) {
    a.Read? && a.id in s.calls && (s.calls[a.id].Contributing? || s.calls[a.id].Completing?) ==>
      a.answer == Stored(s, s.calls[a.id].flowId)
  }

  predicate AllUpToDate(verify: Verifier, s: State, actions: seq<Action>)
    decreases |actions|
  {
    actions != [] ==> UpToDate(s, actions[0]) && AllUpToDate(verify, Next(verify, s, actions[0]), actions[1..])
  }

  lemma {:induction false} RunConcat(verify: Verifier, s: State, a: seq<Action>, b: seq<Action>)
    ensures Run(verify, s, a + b) == Run(verify, Run(verify, s, a), b)
    ensures AllUpToDate(verify, s, a + b) <==>
            AllUpToDate(verify, s, a) && AllUpToDate(verify, Run(verify, s, a), b)
    decreases |a|
  {
    hide Next, UpToDate;
    if a == [] {
      assert a + b == b;
    } else {
      assert (a + b)[1..] == a[1..] + b;
      RunConcat(verify, Next(verify, s, a[0]), a[1..], b);
    }
  }

  lemma Single(verify: Verifier, s: State, a: Action)
    ensures Run(verify, s, [a]) == Next(verify, s, a)
    ensures AllUpToDate(verify, s, [a]) <==> UpToDate(s, a)
  {
    hide Next, UpToDate;
    assert [a][1..] == [];
  }

  lemma Nothing(verify: Verifier, s: State)
    ensures Run(verify, s, []) == s && AllUpToDate(verify, s, [])
  {
  }

  lemma StartComplete(verify: Verifier, s: State, x: nat, id: string)
    requires x !in s.calls
    ensures UpToDate(s, Complete(x, id))
    ensures Next(verify, s, Complete(x, id)) == s.(calls := s.calls[x := Completing(id)])
  {
  }

  lemma StartContribute(verify: Verifier, s: State, x: nat, id: string, address: string, signature: string)
    requires x !in s.calls
    ensures UpToDate(s, Contribute(x, id, address, signature))
    ensures Next(verify, s, Contribute(x, id, address, signature)) ==
            s.(calls := s.calls[x := Contributing(id, address, signature)])
  {
  }

  /** A read that leads to a write. */
  lemma ReadState(verify: Verifier, s: State, x: nat, f: Flow, g: Flow)
    requires x in s.calls && f in s.written
    requires || (s.calls[x] == Completing(f.flowId) && Completed(f.flowId, Some(f)) == Ok(g))
             || (s.calls[x].Contributing? && s.calls[x].flowId == f.flowId
                 && Contributed(verify, f.flowId, Some(f), s.calls[x].address, s.calls[x].signature) == Ok(g))
    ensures Holds(s, f) ==> UpToDate(s, Read(x, Some(f)))
    ensures Next(verify, s, Read(x, Some(f))) ==
            s.(calls := s.calls[x := if s.calls[x].Completing? then StoringCompleted(g) else Storing(g)])
  {
    hide Contributed, Completed;
  }

  lemma WriteBack(verify: Verifier, s: State, x: nat, g: Flow)
    requires x in s.calls && (s.calls[x] == Storing(g) || s.calls[x] == StoringCompleted(g))
    ensures UpToDate(s, Write(x))
    ensures Next(verify, s, Write(x)) ==
            s.(store := s.store[g.flowId := g], written := s.written + {g},
               calls := if s.calls[x].Storing? then s.calls - {x} else s.calls[x := Issuing(g)])
  {
  }

  lemma IssueOne(verify: Verifier, s: State, x: nat, g: Flow)
    requires x in s.calls && s.calls[x] == Issuing(g)
    ensures UpToDate(s, Issue(x))
    ensures Next(verify, s, Issue(x)) == s.(calls := s.calls - {x}, issued := s.issued + [g])
  {
  }

  ghost predicate Holds(s: State, f: Flow) {
    f.flowId in s.store && s.store[f.flowId] == f && f in s.written
  }

  /** Whenever a flow can be completed, two interleaved completions both succeed. */
  lemma CompletesTwice(verify: Verifier, s: State, f: Flow, x: nat, y: nat) returns (actions: seq<Action>)
    requires x !in s.calls && y !in s.calls && x != y && Holds(s, f) && Completed(f.flowId, Some(f)).Ok?
    ensures AllUpToDate(verify, s, actions)
    ensures var g := Completed(f.flowId, Some(f)).value;
            Run(verify, s, actions).issued == s.issued + [g, g]
  {
    hide Run, AllUpToDate, Completed, Next, UpToDate;
    var id, g, t := f.flowId, Completed(f.flowId, Some(f)).value, s;
    Nothing(verify, s);
    actions := [];
    StartComplete(verify, t, x, id);
    actions, t := Step(verify, s, actions, t, Complete(x, id));
    StartComplete(verify, t, y, id);
    actions, t := Step(verify, s, actions, t, Complete(y, id));
    ReadState(verify, t, x, f, g);
    actions, t := Step(verify, s, actions, t, Read(x, Some(f)));
    ReadState(verify, t, y, f, g);
    actions, t := Step(verify, s, actions, t, Read(y, Some(f)));
    WriteBack(verify, t, x, g);
    actions, t := Step(verify, s, actions, t, Write(x));
    WriteBack(verify, t, y, g);
    actions, t := Step(verify, s, actions, t, Write(y));
    IssueOne(verify, t, x, g);
    actions, t := Step(verify, s, actions, t, Issue(x));
    IssueOne(verify, t, y, g);
    actions, t := Step(verify, s, actions, t, Issue(y));
    assert t.issued == s.issued + [g, g];
  }

  /** Of two interleaved contributions, the one stored first is lost. */
  lemma ContributionLost(verify: Verifier, s: State, f: Flow, x: nat, y: nat,
                         a: string, sa: string, b: string, sb: string)
    returns (actions: seq<Action>)
    requires x !in s.calls && y !in s.calls && x != y && Holds(s, f)
    requires Contributed(verify, f.flowId, Some(f), a, sa).Ok? && Contributed(verify, f.flowId, Some(f), b, sb).Ok?
    ensures AllUpToDate(verify, s, actions)
    ensures var t := Run(verify, s, actions);
            && Contributed(verify, f.flowId, Some(f), a, sa).value in t.written
            && Stored(t, f.flowId) == Some(Contributed(verify, f.flowId, Some(f), b, sb).value)
            && t.calls == s.calls
  {
    hide Run, AllUpToDate, Contributed, Next, UpToDate;
    var id, t := f.flowId, s;
    var g, h := Contributed(verify, id, Some(f), a, sa).value, Contributed(verify, id, Some(f), b, sb).value;
    KeepsId(verify, f, a, sa);
    KeepsId(verify, f, b, sb);
    Nothing(verify, s);
    actions := [];
    StartContribute(verify, t, x, id, a, sa);
    actions, t := Step(verify, s, actions, t, Contribute(x, id, a, sa));
    StartContribute(verify, t, y, id, b, sb);
    actions, t := Step(verify, s, actions, t, Contribute(y, id, b, sb));
    ReadState(verify, t, x, f, g);
    actions, t := Step(verify, s, actions, t, Read(x, Some(f)));
    ReadState(verify, t, y, f, h);
    actions, t := Step(verify, s, actions, t, Read(y, Some(f)));
    WriteBack(verify, t, x, g);
    actions, t := Step(verify, s, actions, t, Write(x));
    WriteBack(verify, t, y, h);
    actions, t := Step(verify, s, actions, t, Write(y));
    assert t.calls == s.calls;
  }

  lemma KeepsId(verify: Verifier, f: Flow, address: string, signature: string)
    requires Contributed(verify, f.flowId, Some(f), address, signature).Ok?
    ensures Contributed(verify, f.flowId, Some(f), address, signature).value.flowId == f.flowId
  {
  }

  // ---- each way to a second token --------------------------------------------------------------

  lemma Step(verify: Verifier, s: State, before: seq<Action>, t: State, a: Action)
    returns (longer: seq<Action>, u: State)
    requires t == Run(verify, s, before)
    ensures longer == before + [a] && u == Run(verify, s, longer) && u == Next(verify, t, a)
    ensures AllUpToDate(verify, s, longer) <==> AllUpToDate(verify, s, before) && UpToDate(t, a)
  {
    hide Next, UpToDate, Run, AllUpToDate;
    longer, u := before + [a], Next(verify, t, a);
    RunConcat(verify, s, before, [a]);
    Single(verify, t, a);
  }

  function CompleteActions(x: nat, f: Flow): seq<Action> {
    [Complete(x, f.flowId), Read(x, Some(f)), Write(x), Issue(x)]
  }

  function Finished(s: State, g: Flow): State {
    s.(store := s.store[g.flowId := g], written := s.written + {g}, issued := s.issued + [g])
  }

  /** A completion that runs by itself. */
  lemma CompleteAlone(verify: Verifier, s: State, f: Flow, x: nat)
    requires x !in s.calls && f in s.written && Completed(f.flowId, Some(f)).Ok?
    ensures Run(verify, s, CompleteActions(x, f)) == Finished(s, Completed(f.flowId, Some(f)).value)
    ensures Holds(s, f) ==> AllUpToDate(verify, s, CompleteActions(x, f))
  {
    hide Run, AllUpToDate, Completed, Next, UpToDate;
    var id, g, t, actions := f.flowId, Completed(f.flowId, Some(f)).value, s, [];
    KeepsCompletedId(f);
    Nothing(verify, s);
    StartComplete(verify, t, x, id);
    actions, t := Step(verify, s, actions, t, Complete(x, id));
    ReadState(verify, t, x, f, g);
    actions, t := Step(verify, s, actions, t, Read(x, Some(f)));
    WriteBack(verify, t, x, g);
    actions, t := Step(verify, s, actions, t, Write(x));
    IssueOne(verify, t, x, g);
    actions, t := Step(verify, s, actions, t, Issue(x));
    assert t.calls == s.calls;
    assert actions == CompleteActions(x, f);
  }

  lemma KeepsCompletedId(f: Flow)
    requires Completed(f.flowId, Some(f)).Ok?
    ensures Completed(f.flowId, Some(f)).value == f.(completed := true)
  {
  }

  function ContributeActions(x: nat, f: Flow, a: string, sa: string): seq<Action> {
    [Contribute(x, f.flowId, a, sa), Read(x, Some(f))]
  }

  /** A contribution up to its write. */
  lemma ContributeFirst(verify: Verifier, s: State, f: Flow, x: nat, a: string, sa: string)
    requires x !in s.calls && f in s.written && Contributed(verify, f.flowId, Some(f), a, sa).Ok?
    ensures Run(verify, s, ContributeActions(x, f, a, sa)) ==
            s.(calls := s.calls[x := Storing(Contributed(verify, f.flowId, Some(f), a, sa).value)])
    ensures Holds(s, f) ==> AllUpToDate(verify, s, ContributeActions(x, f, a, sa))
  {
    hide Run, AllUpToDate, Contributed, Next, UpToDate;
    var id, g, t, actions := f.flowId, Contributed(verify, f.flowId, Some(f), a, sa).value, s, [];
    Nothing(verify, s);
    StartContribute(verify, t, x, id, a, sa);
    actions, t := Step(verify, s, actions, t, Contribute(x, id, a, sa));
    ReadState(verify, t, x, f, g);
    actions, t := Step(verify, s, actions, t, Read(x, Some(f)));
    assert actions == ContributeActions(x, f, a, sa);
  }

  lemma WriteAlone(verify: Verifier, s: State, x: nat, g: Flow)
    requires x in s.calls && s.calls[x] == Storing(g)
    ensures Run(verify, s, [Write(x)]) ==
            s.(store := s.store[g.flowId := g], written := s.written + {g}, calls := s.calls - {x})
    ensures AllUpToDate(verify, s, [Write(x)])
  {
    hide Run, AllUpToDate, Next;
    WriteBack(verify, s, x, g);
    Single(verify, s, Write(x));
  }

  /** A stored, completable flow to which one more contribution can be made that keeps it
      completable. */
  ghost predicate Extensible(verify: Verifier, s: State, f: Flow, a: string, sa: string) {
    && Holds(s, f) && Completed(f.flowId, Some(f)).Ok?
    && Contributed(verify, f.flowId, Some(f), a, sa).Ok?
    && Completed(f.flowId, Some(Contributed(verify, f.flowId, Some(f), a, sa).value)).Ok?
  }

  /** The tokens issued after s are two for the flow. */
  predicate TwoTokens(s: State, t: State, flowId: string) {
    && |t.issued| == |s.issued| + 2 && t.issued[..|s.issued|] == s.issued
    && t.issued[|s.issued|].flowId == flowId && t.issued[|s.issued| + 1].flowId == flowId
  }

  /** An old state of the flow is enough: without any overlap, a second completion that reads
      the state before the first gets a second token. */
  lemma StaleCompletion(verify: Verifier, s: State, f: Flow, x: nat)
    requires x !in s.calls && Holds(s, f) && Completed(f.flowId, Some(f)).Ok?
    ensures TwoTokens(s, Run(verify, s, CompleteActions(x, f) + CompleteActions(x, f)), f.flowId)
  {
    hide Run, AllUpToDate, Completed, Next;
    var g := Completed(f.flowId, Some(f)).value;
    KeepsCompletedId(f);
    CompleteAlone(verify, s, f, x);
    CompleteAlone(verify, Finished(s, g), f, x);
    RunConcat(verify, s, CompleteActions(x, f), CompleteActions(x, f));
  }

  /** It is enough even when the flow has left the store by then. */
  lemma ExpiredCompletion(verify: Verifier, s: State, f: Flow, x: nat)
    requires x !in s.calls && Holds(s, f) && Completed(f.flowId, Some(f)).Ok?
    ensures var before := CompleteActions(x, f) + [Expire(f.flowId)];
            && f.flowId !in Run(verify, s, before).store
            && TwoTokens(s, Run(verify, s, before + CompleteActions(x, f)), f.flowId)
  {
    hide Run, AllUpToDate, Completed, Next;
    var g := Completed(f.flowId, Some(f)).value;
    KeepsCompletedId(f);
    CompleteAlone(verify, s, f, x);
    var t := Finished(s, g);
    ExpireAlone(verify, t, f.flowId);
    RunConcat(verify, s, CompleteActions(x, f), [Expire(f.flowId)]);
    CompleteAlone(verify, t.(store := t.store - {f.flowId}), f, x);
    RunConcat(verify, s, CompleteActions(x, f) + [Expire(f.flowId)], CompleteActions(x, f));
  }

  lemma ExpireAlone(verify: Verifier, s: State, flowId: string)
    ensures Run(verify, s, [Expire(flowId)]) == s.(store := s.store - {flowId})
  {
    Single(verify, s, Expire(flowId));
  }

  /** So is an old state read by a contribution: it opens the flow again. */
  lemma StaleContribution(verify: Verifier, s: State, f: Flow, x: nat, a: string, sa: string)
    requires x !in s.calls && Extensible(verify, s, f, a, sa)
    ensures var g := Contributed(verify, f.flowId, Some(f), a, sa).value;
            var actions := CompleteActions(x, f)
                           + (ContributeActions(x, f, a, sa) + ([Write(x)] + CompleteActions(x, g)));
            TwoTokens(s, Run(verify, s, actions), f.flowId)
  {
    hide Run, AllUpToDate, Completed, Contributed, Next, UpToDate;
    var g := Contributed(verify, f.flowId, Some(f), a, sa).value;
    var h := Completed(f.flowId, Some(f)).value;
    KeepsId(verify, f, a, sa);
    KeepsCompletedId(f);
    KeepsCompletedId(g);
    CompleteAlone(verify, s, f, x);
    var s1 := Finished(s, h);
    Reopen(verify, s1, f, x, a, sa);
    RunConcat(verify, s, CompleteActions(x, f), ContributeActions(x, f, a, sa) + ([Write(x)] + CompleteActions(x, g)));
  }

  /** A contribution made to f, whatever is stored by now, and a completion after it. */
  lemma Reopen(verify: Verifier, s: State, f: Flow, x: nat, a: string, sa: string)
    requires x !in s.calls && f in s.written && Contributed(verify, f.flowId, Some(f), a, sa).Ok?
    requires Completed(f.flowId, Some(Contributed(verify, f.flowId, Some(f), a, sa).value)).Ok?
    ensures var g := Contributed(verify, f.flowId, Some(f), a, sa).value;
            Run(verify, s, ContributeActions(x, f, a, sa) + ([Write(x)] + CompleteActions(x, g))).issued
            == s.issued + [g.(completed := true)]
  {
    hide Run, AllUpToDate, Completed, Contributed, Next, UpToDate;
    var g := Contributed(verify, f.flowId, Some(f), a, sa).value;
    KeepsId(verify, f, a, sa);
    ContributeFirst(verify, s, f, x, a, sa);
    var s1 := s.(calls := s.calls[x := Storing(g)]);
    WriteThenComplete(verify, s1, g, x, x);
    RunConcat(verify, s, ContributeActions(x, f, a, sa), [Write(x)] + CompleteActions(x, g));
  }

  lemma WriteThenComplete(verify: Verifier, s: State, g: Flow, x: nat, y: nat)
    requires x in s.calls && s.calls[x] == Storing(g) && (y == x || y !in s.calls)
    requires Completed(g.flowId, Some(g)).Ok?
    ensures Run(verify, s, [Write(x)] + CompleteActions(y, g)).issued == s.issued + [g.(completed := true)]
    ensures AllUpToDate(verify, s, [Write(x)] + CompleteActions(y, g))
  {
    hide Run, AllUpToDate, Completed, Next, UpToDate;
    KeepsCompletedId(g);
    WriteAlone(verify, s, x, g);
    var t := s.(store := s.store[g.flowId := g], written := s.written + {g}, calls := s.calls - {x});
    CompleteAlone(verify, t, g, y);
    RunConcat(verify, s, [Write(x)], CompleteActions(y, g));
  }

  /** With every read up to date, a completion may run while a contribution is between its read
      and its write: the write opens the flow again. */
  lemma CompletionDuringContribution(verify: Verifier, s: State, f: Flow, x: nat, y: nat, a: string, sa: string)
    requires x !in s.calls && y !in s.calls && x != y && Extensible(verify, s, f, a, sa)
    ensures var g := Contributed(verify, f.flowId, Some(f), a, sa).value;
            var actions := ContributeActions(x, f, a, sa)
                           + (CompleteActions(y, f) + ([Write(x)] + CompleteActions(y, g)));
            AllUpToDate(verify, s, actions) && TwoTokens(s, Run(verify, s, actions), f.flowId)
  {
    hide Run, AllUpToDate, Completed, Contributed, Next, UpToDate;
    var g := Contributed(verify, f.flowId, Some(f), a, sa).value;
    var h := Completed(f.flowId, Some(f)).value;
    KeepsId(verify, f, a, sa);
    KeepsCompletedId(f);
    ContributeFirst(verify, s, f, x, a, sa);
    var s1 := s.(calls := s.calls[x := Storing(g)]);
    CompleteAlone(verify, s1, f, y);
    var s2 := Finished(s1, h);
    WriteThenComplete(verify, s2, g, x, y);
    RunConcat(verify, s1, CompleteActions(y, f), [Write(x)] + CompleteActions(y, g));
    RunConcat(verify, s, ContributeActions(x, f, a, sa), CompleteActions(y, f) + ([Write(x)] + CompleteActions(y, g)));
  }

  /** Likewise a contribution may read while a completion is between its read and its write. */
  lemma ContributionDuringCompletion(verify: Verifier, s: State, f: Flow, x: nat, y: nat, a: string, sa: string)
    requires x !in s.calls && y !in s.calls && x != y && Extensible(verify, s, f, a, sa)
    ensures var g := Contributed(verify, f.flowId, Some(f), a, sa).value;
            var actions := [Complete(y, f.flowId), Read(y, Some(f))]
                           + (ContributeActions(x, f, a, sa)
                              + ([Write(y), Issue(y)] + ([Write(x)] + CompleteActions(y, g))));
            AllUpToDate(verify, s, actions) && TwoTokens(s, Run(verify, s, actions), f.flowId)
  {
    hide Run, AllUpToDate, Completed, Contributed, Next, UpToDate;
    var g := Contributed(verify, f.flowId, Some(f), a, sa).value;
    var h := Completed(f.flowId, Some(f)).value;
    KeepsId(verify, f, a, sa);
    KeepsCompletedId(f);
    CompleteFirst(verify, s, f, y);
    var s1 := s.(calls := s.calls[y := StoringCompleted(h)]);
    ContributeFirst(verify, s1, f, x, a, sa);
    var s2 := s1.(calls := s1.calls[x := Storing(g)]);
    CompleteLast(verify, s2, h, y);
    var s3 := Finished(s2, h).(calls := s2.calls - {y});
    WriteThenComplete(verify, s3, g, x, y);
    RunConcat(verify, s2, [Write(y), Issue(y)], [Write(x)] + CompleteActions(y, g));
    RunConcat(verify, s1, ContributeActions(x, f, a, sa), [Write(y), Issue(y)] + ([Write(x)] + CompleteActions(y, g)));
    RunConcat(verify, s, [Complete(y, f.flowId), Read(y, Some(f))],
              ContributeActions(x, f, a, sa) + ([Write(y), Issue(y)] + ([Write(x)] + CompleteActions(y, g))));
  }

  lemma CompleteFirst(verify: Verifier, s: State, f: Flow, y: nat)
    requires y !in s.calls && Holds(s, f) && Completed(f.flowId, Some(f)).Ok?
    ensures Run(verify, s, [Complete(y, f.flowId), Read(y, Some(f))]) ==
            s.(calls := s.calls[y := StoringCompleted(Completed(f.flowId, Some(f)).value)])
    ensures AllUpToDate(verify, s, [Complete(y, f.flowId), Read(y, Some(f))])
  {
    hide Run, AllUpToDate, Completed, Next, UpToDate;
    var t, actions := s, [];
    Nothing(verify, s);
    StartComplete(verify, t, y, f.flowId);
    actions, t := Step(verify, s, actions, t, Complete(y, f.flowId));
    ReadState(verify, t, y, f, Completed(f.flowId, Some(f)).value);
    actions, t := Step(verify, s, actions, t, Read(y, Some(f)));
    assert actions == [Complete(y, f.flowId), Read(y, Some(f))];
  }

  lemma CompleteLast(verify: Verifier, s: State, h: Flow, y: nat)
    requires y in s.calls && s.calls[y] == StoringCompleted(h)
    ensures Run(verify, s, [Write(y), Issue(y)]) == Finished(s, h).(calls := s.calls - {y})
    ensures AllUpToDate(verify, s, [Write(y), Issue(y)])
  {
    hide Run, AllUpToDate, Next, UpToDate;
    var t, actions := s, [];
    Nothing(verify, s);
    WriteBack(verify, t, y, h);
    actions, t := Step(verify, s, actions, t, Write(y));
    IssueOne(verify, t, y, h);
    actions, t := Step(verify, s, actions, t, Issue(y));
    assert t.calls == s.calls - {y};
    assert actions == [Write(y), Issue(y)];
  }

  // ---- when a flow completes at most once ------------------------------------------------------

  /** The call holds a state of its flow that it has yet to store or to answer with. */
  predicate Holding(c: Call, flowId: string) {
    (c.Storing? || c.StoringCompleted? || c.Issuing?) && c.flow.flowId == flowId
  }

  /** A contribution to the flow is between its read and its write. */
  ghost predicate ContributionOpen(s: State, flowId: string) {
    exists id :: id in s.calls && s.calls[id].Storing? && s.calls[id].flow.flowId == flowId
  }

  /** A completion of the flow is. */
  ghost predicate CompletionOpen(s: State, flowId: string) {
    exists id :: id in s.calls && s.calls[id].StoringCompleted? && s.calls[id].flow.flowId == flowId
  }

  /** The read lets its handler go on to write. */
  predicate Passes(verify: Verifier, s: State, a: Action) {
    CanRead(s, a) && a.id in AfterRead(verify, s, a.id, a.answer).calls
  }

  /** A handler goes on only while the store holds the flow, not completed; it never overlaps a
      completion, and a completion overlaps no contribution.  Contributions may overlap each
      other, and may go on from older states of the flow. */
  ghost predicate Exclusive(verify: Verifier, s: State, a: Action) {
    Passes(verify, s, a) ==>
      var k := s.calls[a.id].flowId;
      && k in s.store && !s.store[k].completed
      && !CompletionOpen(s, k)
      && (s.calls[a.id].Completing? ==> !ContributionOpen(s, k))
  }

  ghost predicate AllExclusive(verify: Verifier, s: State, actions: seq<Action>)
    decreases |actions|
  {
    actions != [] ==>
      Exclusive(verify, s, actions[0]) && AllExclusive(verify, Next(verify, s, actions[0]), actions[1..])
  }

  ghost predicate Spent(s: State, flowId: string) {
    exists f :: f in s.issued && f.flowId == flowId
  }

  /** Only contributions share a flow, and nobody holds a flow that has got its token. */
  ghost predicate HoldersApart(s: State) {
    && (forall x, y, k :: x in s.calls && y in s.calls && Holding(s.calls[x], k) && Holding(s.calls[y], k) ==>
          x == y || (s.calls[x].Storing? && s.calls[y].Storing?))
    && (forall x, k :: x in s.calls && Holding(s.calls[x], k) ==> !Spent(s, k) && k in s.initiated)
  }

  ghost predicate SpentAreCompleted(s: State) {
    && (forall x :: x in s.calls && (s.calls[x].StoringCompleted? || s.calls[x].Issuing?) ==>
          s.calls[x].flow.completed)
    && (forall x :: x in s.calls && s.calls[x].Issuing? && s.calls[x].flow.flowId in s.store ==>
          s.store[s.calls[x].flow.flowId].completed)
    && (forall f :: f in s.issued && f.flowId in s.store ==> s.store[f.flowId].completed)
  }

  ghost predicate TokensApart(s: State) {
    && (forall f :: f in s.issued ==> f.flowId in s.initiated)
    && (forall f :: f in s.written ==> f.flowId in s.initiated)
    && DifferentFlows(s.issued)
  }

  ghost predicate DifferentFlows(issued: seq<Flow>) {
    forall i, j :: 0 <= i < j < |issued| ==> issued[i].flowId != issued[j].flowId
  }

  ghost predicate OnceInv(s: State) {
    HoldersApart(s) && SpentAreCompleted(s) && TokensApart(s)
  }

  lemma ReadOnce(verify: Verifier, s: State, a: Action)
    requires OnceInv(s) && CanRead(s, a) && Exclusive(verify, s, a)
    ensures OnceInv(AfterRead(verify, s, a.id, a.answer))
  {
    hide AfterRead, HoldersApart, SpentAreCompleted, Holding;
    AfterReadFrame(verify, s, a.id, a.answer);
    if Passes(verify, s, a) {
      ReadPassed(verify, s, a);
    }
    TakesFlow(s, AfterRead(verify, s, a.id, a.answer), a.id, s.calls[a.id].flowId);
  }

  /** A handler may take up a flow that is stored, not completed, and held by no completion; a
      completion moreover only one held by no contribution. */
  lemma TakesFlow(s: State, t: State, id: nat, k: string)
    requires OnceInv(s) && t == s.(calls := t.calls)
    requires forall x :: x in t.calls && x != id ==> x in s.calls && t.calls[x] == s.calls[x]
    requires id in t.calls ==>
               && k in s.store && k in s.initiated && !s.store[k].completed
               && (t.calls[id].Storing? || t.calls[id].StoringCompleted?) && t.calls[id].flow.flowId == k
               && (t.calls[id].StoringCompleted? ==> t.calls[id].flow.completed && !ContributionOpen(s, k))
               && !CompletionOpen(s, k)
    ensures OnceInv(t)
  {
  }

  /** What passing a read means. */
  lemma ReadPassed(verify: Verifier, s: State, a: Action)
    requires Passes(verify, s, a)
    ensures var t := AfterRead(verify, s, a.id, a.answer);
            var k := s.calls[a.id].flowId;
            && a.answer.Some? && a.answer.value in s.written && a.answer.value.flowId == k
            && (if s.calls[a.id].Completing? then t.calls[a.id].StoringCompleted? && t.calls[a.id].flow.completed
                else t.calls[a.id].Storing?)
            && t.calls[a.id].flow.flowId == k
  {
    hide SignedWeight;
  }

  lemma WriteOnce(verify: Verifier, s: State, id: nat)
    requires OnceInv(s)
    ensures OnceInv(Next(verify, s, Write(id)))
  {
    hide OnceInv;
    if id in s.calls && s.calls[id].Storing? {
      WriteContributionOnce(s, id, s.calls[id].flow);
    } else if id in s.calls && s.calls[id].StoringCompleted? {
      WriteCompletionOnce(s, id, s.calls[id].flow);
    }
  }

  lemma WriteContributionOnce(s: State, id: nat, g: Flow)
    requires OnceInv(s) && id in s.calls && s.calls[id] == Storing(g)
    ensures OnceInv(s.(store := s.store[g.flowId := g], written := s.written + {g}, calls := s.calls - {id}))
  {
    assert Holding(s.calls[id], g.flowId);
    assert forall f :: f in s.issued ==> Spent(s, f.flowId);
  }

  lemma WriteCompletionOnce(s: State, id: nat, g: Flow)
    requires OnceInv(s) && id in s.calls && s.calls[id] == StoringCompleted(g)
    ensures OnceInv(s.(store := s.store[g.flowId := g], written := s.written + {g},
                       calls := s.calls[id := Issuing(g)]))
  {
    assert Holding(s.calls[id], g.flowId);
    assert forall f :: f in s.issued ==> Spent(s, f.flowId);
  }

  lemma IssueOnce(verify: Verifier, s: State, id: nat)
    requires OnceInv(s)
    ensures OnceInv(Next(verify, s, Issue(id)))
  {
    var t := Next(verify, s, Issue(id));
    if t != s {
      assert Holding(s.calls[id], s.calls[id].flow.flowId);
      assert HoldersApart(t) by {
        hide SpentAreCompleted, TokensApart;
      }
      assert SpentAreCompleted(t) by {
        hide TokensApart, HoldersApart;
      }
      assert forall f :: f in s.issued ==> Spent(s, f.flowId);
      assert TokensApart(t) by {
        hide SpentAreCompleted;
      }
    }
  }

  lemma InitiateOnce(verify: Verifier, s: State, request: Request, flowId: string, nonce: string)
    requires OnceInv(s)
    ensures OnceInv(Next(verify, s, Initiate(request, flowId, nonce)))
  {
    hide Open;
    var t := Next(verify, s, Initiate(request, flowId, nonce));
    if t != s {
      OpenId(request, flowId, nonce);
      assert HoldersApart(t) by {
        hide SpentAreCompleted, TokensApart;
      }
      assert SpentAreCompleted(t) by {
        assert forall x :: x in s.calls && s.calls[x].Issuing? ==> Holding(s.calls[x], s.calls[x].flow.flowId);
      }
    }
  }

  lemma OpenId(request: Request, flowId: string, nonce: string)
    requires Open(request, flowId, nonce).Ok?
    ensures Open(request, flowId, nonce).value.flowId == flowId
  {
  }

  lemma StartOrExpireOnce(verify: Verifier, s: State, a: Action)
    requires OnceInv(s) && (a.Contribute? || a.Complete? || a.Expire?)
    ensures OnceInv(Next(verify, s, a))
  {
    if a.Expire? {
      ExpireOnce(s, a.flowId);
    } else if a.id !in s.calls {
      StartOnce(s, a.id, if a.Contribute? then Call.Contributing(a.flowId, a.address, a.signature)
                         else Call.Completing(a.flowId));
    }
  }

  lemma ExpireOnce(s: State, flowId: string)
    requires OnceInv(s)
    ensures OnceInv(s.(store := s.store - {flowId}))
  {
  }

  lemma StartOnce(s: State, id: nat, c: Call)
    requires OnceInv(s) && id !in s.calls && (c.Contributing? || c.Completing?)
    ensures OnceInv(s.(calls := s.calls[id := c]))
  {
    var t := s.(calls := s.calls[id := c]);
    assert forall k :: !Holding(t.calls[id], k);
    assert forall x :: x in t.calls && x != id ==> x in s.calls && t.calls[x] == s.calls[x];
  }

  lemma NextOnce(verify: Verifier, s: State, a: Action)
    requires OnceInv(s) && Exclusive(verify, s, a)
    ensures OnceInv(Next(verify, s, a))
  {
    hide Exclusive, AfterRead, CanRead, OnceInv;
    match a
    case Initiate(request, flowId, nonce) => InitiateOnce(verify, s, request, flowId, nonce);
    case Read(id, answer) =>
      if CanRead(s, a) {
        ReadOnce(verify, s, a);
      }
    case Write(id) => WriteOnce(verify, s, id);
    case Issue(id) => IssueOnce(verify, s, id);
    case _ => StartOrExpireOnce(verify, s, a);
  }

  /** If handlers go on only while the store holds their flow, not completed, and a completion
      overlaps neither another nor a contribution, no flow earns two tokens.  Each part is
      needed, as the lemmas above show for every completable flow, those about contributions
      for every one that can take one more. */
  lemma {:induction false} CompletesOnce(verify: Verifier, s: State, actions: seq<Action>)
    requires OnceInv(s) && AllExclusive(verify, s, actions)
    ensures DifferentFlows(Run(verify, s, actions).issued)
    decreases |actions|
  {
    hide Next, Exclusive;
    if actions != [] {
      NextOnce(verify, s, actions[0]);
      CompletesOnce(verify, Next(verify, s, actions[0]), actions[1..]);
    }
  }

  /** In particular from the start, when there is no flow yet. */
  lemma CompletesOnceFromStart(verify: Verifier, actions: seq<Action>)
    requires AllExclusive(verify, START, actions)
    ensures DifferentFlows(Run(verify, START, actions).issued)
  {
    hide AllExclusive, Run;
    CompletesOnce(verify, START, actions);
  }
}
