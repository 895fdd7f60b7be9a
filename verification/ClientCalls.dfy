/**
  What a diff of two surfaces promises to the clients of the older one.
*/
module ClientCalls {
  import opened Wrappers
  import opened Surface

  /** A value a client passes: one that an enum can list, or any other JSON value. */
  datatype Argument = Listed(value: EnumValue) | Other(json: string)

  /** Which values belong to a type; the diff knows types by name only. */
  type Typing = (string, Argument) -> bool

  /** A request as a generated client sends it. */
  datatype Call = Call(id: string, verb: string, path: string, arguments: map<string, Argument>, hasBody: bool)

  predicate Accepts(hasType: Typing, p: Param, a: Argument) {
    hasType(p.typ, a) && (p.values.Some? ==> a.Listed? && a.value in p.values.value)
  }

  /** Known parameters of the right type and value, every required parameter and
      any required body; a body that is not asked for is tolerated. */
  ghost predicate ValidFor(hasType: Typing, op: Operation, c: Call) {
    && c.verb == op.verb && c.path == op.path
    && (forall k :: k in c.arguments ==>
          k in op.params.entries && Accepts(hasType, op.params.entries[k], c.arguments[k]))
    && (forall k :: k in op.params.entries && op.params.entries[k].required ==> k in c.arguments)
    && (op.body == RequiredBody ==> c.hasBody)
  }

  ghost predicate ValidCall(hasType: Typing, s: ApiSurface, c: Call) {
    c.id in s.entries && ValidFor(hasType, s.entries[c.id], c)
  }

  ghost predicate NoBreaking(base: ApiSurface, next: ApiSurface) {
    forall c :: !IsBreaking(base, next, c)
  }

  // ---- no breaking change means compatible ---------------------------------------

  ghost predicate ParamCompatible(p: Param, q: Param) {
    && q.typ == p.typ
    && (q.required ==> p.required)
    && (q.values.Some? ==> p.values.Some? && forall v :: v in p.values.value ==> v in q.values.value)
  }

  ghost predicate OperationCompatible(before: Operation, after: Operation) {
    && after.verb == before.verb && after.path == before.path
    && (forall k :: k in before.params.entries ==>
        k in after.params.entries && ParamCompatible(before.params.entries[k], after.params.entries[k]))
    && (forall k :: k in after.params.entries && k !in before.params.entries ==> !after.params.entries[k].required)
    && (after.body == RequiredBody ==> before.body == RequiredBody)
  }

  ghost predicate Compatible(base: ApiSurface, next: ApiSurface) {
    forall id :: id in base.entries ==>
      id in next.entries && OperationCompatible(base.entries[id], next.entries[id])
  }

  lemma LostNothing(p: seq<EnumValue>, q: seq<EnumValue>)
    ensures Lost(p, q) == [] <==> forall v :: v in p ==> v in q
  {
    if Lost(p, q) != [] {
      assert Lost(p, q)[0] in Lost(p, q);
    }
  }

  lemma ParamCompatibleIff(id: string, key: string, p: Param, q: Param)
    ensures ParamCompatible(p, q) <==> forall c :: !ParamBreaks(id, key, p, Some(q), c)
  {
    if p.values.Some? && q.values.Some? {
      LostNothing(p.values.value, q.values.value);
    }
    if forall c :: !ParamBreaks(id, key, p, Some(q), c) {
      assert !ParamBreaks(id, key, p, Some(q), TypeChanged(id, key));
      assert !ParamBreaks(id, key, p, Some(q), BecameRequired(id, key));
      assert !ParamBreaks(id, key, p, Some(q), BecameEnum(id, key));
      if p.values.Some? && q.values.Some? {
        var lost := Lost(p.values.value, q.values.value);
        assert !ParamBreaks(id, key, p, Some(q), EnumLost(id, key, lost));
      }
    }
  }

  lemma OperationCompatibleIff(id: string, before: Operation, after: Operation)
    ensures OperationCompatible(before, after) <==> forall c :: !OperationBreaks(id, before, after, c)
  {
    if forall c :: !OperationBreaks(id, before, after, c) {
      assert !OperationBreaks(id, before, after, RouteChanged(id));
      assert !OperationBreaks(id, before, after, BodyBecameRequired(id));
      forall k | k in before.params.entries
        ensures k in after.params.entries && ParamCompatible(before.params.entries[k], after.params.entries[k])
      {
        OldParamKept(id, before, after, k);
      }
      forall k | k in after.params.entries && k !in before.params.entries
        ensures !after.params.entries[k].required
      {
        if after.params.entries[k].required {
          assert NewParamBreaks(id, before, after, k, NewRequiredParameter(id, k));
          assert OperationBreaks(id, before, after, NewRequiredParameter(id, k));
        }
      }
    }
    if OperationCompatible(before, after) {
      forall c
        ensures !OperationBreaks(id, before, after, c)
      {
        forall key
          ensures !OldParamBreaks(id, before, after, key, c)
        {
          if key in before.params.entries {
            ParamCompatibleIff(id, key, before.params.entries[key], after.params.entries[key]);
          }
        }
      }
    }
  }

  lemma RemovedParamBreaks(id: string, before: Operation, after: Operation, k: string)
    requires k in before.params.entries && k !in after.params.entries
    ensures OldParamBreaks(id, before, after, k, RemovedParameter(id, k))
  {
  }

  lemma OldParamKept(id: string, before: Operation, after: Operation, k: string)
    requires k in before.params.entries && forall c :: !OperationBreaks(id, before, after, c)
    ensures k in after.params.entries && ParamCompatible(before.params.entries[k], after.params.entries[k])
  {
    hide ParamCompatible;
    forall c
      ensures !OldParamBreaks(id, before, after, k, c)
    {
      assert !OperationBreaks(id, before, after, c);
    }
    if k !in after.params.entries {
      RemovedParamBreaks(id, before, after, k);
    } else {
      forall c
        ensures !ParamBreaks(id, k, before.params.entries[k], Some(after.params.entries[k]), c)
      {
        assert !OldParamBreaks(id, before, after, k, c);
      }
      ParamCompatibleIff(id, k, before.params.entries[k], after.params.entries[k]);
    }
  }

  lemma RemovedOperationBreaks(base: ApiSurface, next: ApiSurface, id: string)
    requires id in base.entries && id !in next.entries
    ensures BreaksAt(base, next, id, RemovedOperation(id))
  {
  }

  lemma CompatibleIff(base: ApiSurface, next: ApiSurface)
    ensures Compatible(base, next) <==> NoBreaking(base, next)
  {
    hide OperationBreaks, OperationCompatible;
    if NoBreaking(base, next) {
      forall id | id in base.entries
        ensures id in next.entries && OperationCompatible(base.entries[id], next.entries[id])
      {
        forall c
          ensures !BreaksAt(base, next, id, c)
        {
          assert !IsBreaking(base, next, c);
        }
        if id !in next.entries {
          RemovedOperationBreaks(base, next, id);
        } else {
          assert forall c :: OperationBreaks(id, base.entries[id], next.entries[id], c) ==> BreaksAt(base, next, id, c);
          OperationCompatibleIff(id, base.entries[id], next.entries[id]);
        }
      }
    }
    if Compatible(base, next) {
      forall c, id
        ensures !BreaksAt(base, next, id, c)
      {
        if id in base.entries {
          OperationCompatibleIff(id, base.entries[id], next.entries[id]);
        }
      }
    }
  }

  // ---- soundness: clients keep working -------------------------------------------

  /** Whatever the types mean, a compatible surface accepts every call its predecessor did. */
  lemma CompatibleKeepsCalls(hasType: Typing, base: ApiSurface, next: ApiSurface, c: Call)
    requires Compatible(base, next) && ValidCall(hasType, base, c)
    ensures ValidCall(hasType, next, c)
  {
    var before, after := base.entries[c.id], next.entries[c.id];
    assert OperationCompatible(before, after);
    forall k | k in c.arguments
      ensures k in after.params.entries && Accepts(hasType, after.params.entries[k], c.arguments[k])
    {
      assert ParamCompatible(before.params.entries[k], after.params.entries[k]);
    }
  }

  // ---- completeness: which reported changes break a call -----------------------------

  ghost predicate KeepsCalls(hasType: Typing, base: ApiSurface, next: ApiSurface) {
    forall c :: ValidCall(hasType, base, c) ==> ValidCall(hasType, next, c)
  }

  /** Some value can be passed for the parameter. */
  ghost predicate Usable(hasType: Typing, p: Param) {
    exists a :: Accepts(hasType, p, a)
  }

  /** The operation can be called: each required parameter has a value to pass. */
  ghost predicate Callable(hasType: Typing, op: Operation) {
    forall k :: k in op.params.entries && op.params.entries[k].required ==> Usable(hasType, op.params.entries[k])
  }

  /** q accepts whatever p accepts. */
  ghost predicate Widens(hasType: Typing, p: Param, q: Param) {
    forall a :: Accepts(hasType, p, a) ==> Accepts(hasType, q, a)
  }

  /** A reported change that can break no call: the operation could not be called anyway, or
      the parameter could not be passed, or the change of its type or values loses none. */
  ghost predicate Harmless(hasType: Typing, base: ApiSurface, next: ApiSurface, c: Breaking) {
    c.id in base.entries ==>
      var before := base.entries[c.id];
      || !Callable(hasType, before)
      || (c.RemovedParameter? && c.key in before.params.entries
          && !Usable(hasType, before.params.entries[c.key]))
      || ((c.TypeChanged? || c.EnumLost? || c.BecameEnum?)
          && c.id in next.entries && c.key in before.params.entries && c.key in next.entries[c.id].params.entries
          && Widens(hasType, before.params.entries[c.key], next.entries[c.id].params.entries[c.key]))
  }

  ghost function SomeArgument(hasType: Typing, p: Param): (a: Argument)
    requires Usable(hasType, p)
    ensures Accepts(hasType, p, a)
  {
    var a :| Accepts(hasType, p, a);
    a
  }

  /** The call that passes exactly the required parameters. */
  ghost function MinimalCall(hasType: Typing, id: string, op: Operation): Call
    requires Callable(hasType, op)
  {
    Call(id, op.verb, op.path,
         map k | k in op.params.entries && op.params.entries[k].required :: SomeArgument(hasType, op.params.entries[k]),
         op.body == RequiredBody)
  }

  /** The minimal call, passing argument a for parameter k as well. */
  ghost function CallWith(hasType: Typing, id: string, op: Operation, k: string, a: Argument): Call
    requires Callable(hasType, op)
  {
    var c := MinimalCall(hasType, id, op);
    c.(arguments := c.arguments[k := a])
  }

  lemma MinimalCallValid(hasType: Typing, s: ApiSurface, id: string)
    requires id in s.entries && Callable(hasType, s.entries[id])
    ensures ValidCall(hasType, s, MinimalCall(hasType, id, s.entries[id]))
  {
    hide Accepts;
  }

  lemma CallWithValid(hasType: Typing, s: ApiSurface, id: string, k: string, a: Argument)
    requires id in s.entries && Callable(hasType, s.entries[id])
    requires k in s.entries[id].params.entries && Accepts(hasType, s.entries[id].params.entries[k], a)
    ensures ValidCall(hasType, s, CallWith(hasType, id, s.entries[id], k, a))
  {
    hide Accepts;
    MinimalCallValid(hasType, s, id);
  }

  /** A valid call shows that its operation can be called. */
  lemma ValidIsCallable(hasType: Typing, op: Operation, c: Call)
    requires ValidFor(hasType, op, c)
    ensures Callable(hasType, op)
  {
    forall k | k in op.params.entries && op.params.entries[k].required
      ensures Usable(hasType, op.params.entries[k])
    {
      assert Accepts(hasType, op.params.entries[k], c.arguments[k]);
    }
  }

  // ---- every reported change that is not harmless breaks a call -----------------------

  /** A change reported for parameter k that loses one of its arguments breaks a call. */
  lemma LostArgument(hasType: Typing, base: ApiSurface, next: ApiSurface, id: string, k: string, a: Argument)
    requires id in base.entries && Callable(hasType, base.entries[id])
    requires k in base.entries[id].params.entries && Accepts(hasType, base.entries[id].params.entries[k], a)
    requires id in next.entries && k in next.entries[id].params.entries ==>
               !Accepts(hasType, next.entries[id].params.entries[k], a)
    ensures !KeepsCalls(hasType, base, next)
  {
    hide Accepts, Callable;
    var c := CallWith(hasType, id, base.entries[id], k, a);
    CallWithValid(hasType, base, id, k, a);
    assert k in c.arguments && c.arguments[k] == a;
    assert !ValidCall(hasType, next, c);
  }

  /** A change that no call of the operation survives. */
  lemma LostOperation(hasType: Typing, base: ApiSurface, next: ApiSurface, id: string)
    requires id in base.entries && Callable(hasType, base.entries[id])
    requires !ValidCall(hasType, next, MinimalCall(hasType, id, base.entries[id]))
    ensures !KeepsCalls(hasType, base, next)
  {
    MinimalCallValid(hasType, base, id);
  }

  /** q admits the type and the values of p. */
  ghost predicate ValuesKept(p: Param, q: Param) {
    q.typ == p.typ && (q.values.Some? ==> p.values.Some? && Lost(p.values.value, q.values.value) == [])
  }

  /** What a reported change is about. */
  ghost predicate Shaped(before: Operation, after: Option<Operation>, c: Breaking) {
    && (c.RemovedParameter? ==> c.key in before.params.entries)
    && (c.TypeChanged? || c.EnumLost? || c.BecameEnum? ==>
          && after.Some? && c.key in before.params.entries && c.key in after.value.params.entries
          && !ValuesKept(before.params.entries[c.key], after.value.params.entries[c.key]))
  }

  lemma OldChangeShape(id: string, before: Operation, after: Operation, key: string, c: Breaking)
    requires OldParamBreaks(id, before, after, key, c)
    ensures c.id == id && Shaped(before, Some(after), c)
  {
  }

  lemma ChangeShape(base: ApiSurface, next: ApiSurface, id: string, c: Breaking)
    requires BreaksAt(base, next, id, c)
    ensures c.id == id && id in base.entries && Shaped(base.entries[id], next.Get(id), c)
  {
    hide OldParamBreaks, Shaped;
    if id in next.entries {
      var before, after := base.entries[id], next.entries[id];
      if key :| OldParamBreaks(id, before, after, key, c) {
        OldChangeShape(id, before, after, key, c);
      } else {
        OtherShape(before, Some(after), c);
      }
    } else {
      OtherShape(base.entries[id], None, c);
    }
  }

  lemma OtherShape(before: Operation, after: Option<Operation>, c: Breaking)
    ensures c.RemovedOperation? || c.RouteChanged? || c.NewRequiredParameter? || c.BodyBecameRequired? ==>
              Shaped(before, after, c)
  {
  }

  lemma HarmfulBreaks(hasType: Typing, base: ApiSurface, next: ApiSurface, c: Breaking)
    requires BreaksAt(base, next, c.id, c) && !Harmless(hasType, base, next, c)
    ensures !KeepsCalls(hasType, base, next)
  {
    hide Accepts, Callable, KeepsCalls;
    var id := c.id;
    var before := base.entries[id];
    if c.RemovedParameter? {
      LostArgument(hasType, base, next, id, c.key, SomeArgument(hasType, before.params.entries[c.key]));
    } else if c.TypeChanged? || c.EnumLost? || c.BecameEnum? {
      var a :| Accepts(hasType, before.params.entries[c.key], a)
               && !Accepts(hasType, next.entries[id].params.entries[c.key], a);
      LostArgument(hasType, base, next, id, c.key, a);
    } else {
      LostOperation(hasType, base, next, id);
    }
  }

  // ---- harmless changes break none -----------------------------------------------------

  ghost predicate AllHarmless(hasType: Typing, base: ApiSurface, next: ApiSurface) {
    forall c :: IsBreaking(base, next, c) ==> Harmless(hasType, base, next, c)
  }

  lemma ReportedIsHarmless(hasType: Typing, base: ApiSurface, next: ApiSurface, id: string, c: Breaking)
    requires AllHarmless(hasType, base, next) && BreaksAt(base, next, id, c)
    ensures Harmless(hasType, base, next, c)
  {
    assert IsBreaking(base, next, c);
  }

  lemma OldChangeIsHarmless(hasType: Typing, base: ApiSurface, next: ApiSurface, id: string, k: string, c: Breaking)
    requires AllHarmless(hasType, base, next)
    requires id in base.entries && id in next.entries && k in base.entries[id].params.entries
    requires ParamBreaks(id, k, base.entries[id].params.entries[k], next.entries[id].params.Get(k), c)
    ensures Harmless(hasType, base, next, c)
  {
    hide ParamBreaks, Harmless, AllHarmless;
    assert OldParamBreaks(id, base.entries[id], next.entries[id], k, c);
    assert OperationBreaks(id, base.entries[id], next.entries[id], c);
    ReportedIsHarmless(hasType, base, next, id, c);
  }

  /** An argument in use stays acceptable. */
  lemma ArgumentKept(hasType: Typing, base: ApiSurface, next: ApiSurface, id: string, k: string, a: Argument)
    requires AllHarmless(hasType, base, next)
    requires id in base.entries && id in next.entries && Callable(hasType, base.entries[id])
    requires k in base.entries[id].params.entries && Accepts(hasType, base.entries[id].params.entries[k], a)
    ensures k in next.entries[id].params.entries && Accepts(hasType, next.entries[id].params.entries[k], a)
  {
    hide Callable, AllHarmless;
    var p := base.entries[id].params.entries[k];
    if k !in next.entries[id].params.entries {
      OldChangeIsHarmless(hasType, base, next, id, k, RemovedParameter(id, k));
    } else {
      var q := next.entries[id].params.entries[k];
      if q.typ != p.typ {
        OldChangeIsHarmless(hasType, base, next, id, k, TypeChanged(id, k));
      } else if q.values.Some? && p.values.None? {
        OldChangeIsHarmless(hasType, base, next, id, k, BecameEnum(id, k));
      } else if q.values.Some? && Lost(p.values.value, q.values.value) != [] {
        OldChangeIsHarmless(hasType, base, next, id, k, EnumLost(id, k, Lost(p.values.value, q.values.value)));
      } else if q.values.Some? {
        LostNothing(p.values.value, q.values.value);
      }
    }
  }

  /** Of a callable operation nothing becomes required. */
  lemma RequiredBefore(hasType: Typing, base: ApiSurface, next: ApiSurface, id: string, k: string)
    requires AllHarmless(hasType, base, next)
    requires id in base.entries && id in next.entries && Callable(hasType, base.entries[id])
    requires k in next.entries[id].params.entries && next.entries[id].params.entries[k].required
    ensures k in base.entries[id].params.entries && base.entries[id].params.entries[k].required
  {
    hide Callable, AllHarmless;
    var before, after := base.entries[id], next.entries[id];
    if k !in before.params.entries {
      assert NewParamBreaks(id, before, after, k, NewRequiredParameter(id, k));
      ReportedIsHarmless(hasType, base, next, id, NewRequiredParameter(id, k));
    } else if !before.params.entries[k].required {
      OldChangeIsHarmless(hasType, base, next, id, k, BecameRequired(id, k));
    }
  }

  lemma CallKept(hasType: Typing, base: ApiSurface, next: ApiSurface, c: Call)
    requires AllHarmless(hasType, base, next) && ValidCall(hasType, base, c)
    ensures ValidCall(hasType, next, c)
  {
    hide Accepts, AllHarmless, Callable;
    var id := c.id;
    var before := base.entries[id];
    ValidIsCallable(hasType, before, c);
    if id !in next.entries {
      RemovedOperationBreaks(base, next, id);
      ReportedIsHarmless(hasType, base, next, id, RemovedOperation(id));
    } else {
      var after := next.entries[id];
      RouteKept(hasType, base, next, id);
      forall k | k in c.arguments
        ensures k in after.params.entries && Accepts(hasType, after.params.entries[k], c.arguments[k])
      {
        ArgumentKept(hasType, base, next, id, k, c.arguments[k]);
      }
      forall k | k in after.params.entries && after.params.entries[k].required
        ensures k in c.arguments
      {
        RequiredBefore(hasType, base, next, id, k);
      }
    }
  }

  lemma RouteKept(hasType: Typing, base: ApiSurface, next: ApiSurface, id: string)
    requires AllHarmless(hasType, base, next)
    requires id in base.entries && id in next.entries && Callable(hasType, base.entries[id])
    ensures var before, after := base.entries[id], next.entries[id];
            && after.verb == before.verb && after.path == before.path
            && (after.body == RequiredBody ==> before.body == RequiredBody)
  {
    hide Callable, AllHarmless;
    var before, after := base.entries[id], next.entries[id];
    if after.verb != before.verb || after.path != before.path {
      ReportedIsHarmless(hasType, base, next, id, RouteChanged(id));
    } else if after.body == RequiredBody && before.body != RequiredBody {
      ReportedIsHarmless(hasType, base, next, id, BodyBecameRequired(id));
    }
  }

  /** What the diff says about calls, for all surfaces and all meanings of the types: every
      valid call stays valid iff each reported change is harmless. */
  lemma KeepsCallsIff(hasType: Typing, base: ApiSurface, next: ApiSurface)
    ensures KeepsCalls(hasType, base, next) <==> AllHarmless(hasType, base, next)
  {
    hide ValidCall, Harmless, BreaksAt;
    if AllHarmless(hasType, base, next) {
      forall c | ValidCall(hasType, base, c)
        ensures ValidCall(hasType, next, c)
      {
        CallKept(hasType, base, next, c);
      }
    } else {
      var c :| IsBreaking(base, next, c) && !Harmless(hasType, base, next, c);
      var id :| BreaksAt(base, next, id, c);
      ChangeShape(base, next, id, c);
      HarmfulBreaks(hasType, base, next, c);
    }
  }

  /** "No breaking change" and "every valid call stays valid" mean the same exactly if the
      diff, when it reports anything, reports something that is not harmless. */
  lemma BreakingExactly(hasType: Typing, base: ApiSurface, next: ApiSurface)
    ensures (NoBreaking(base, next) <==> KeepsCalls(hasType, base, next)) <==>
            (NoBreaking(base, next) || exists c :: IsBreaking(base, next, c) && !Harmless(hasType, base, next, c))
  {
    hide IsBreaking, Harmless, KeepsCalls;
    KeepsCallsIff(hasType, base, next);
  }

  /** Every operation can be called and every parameter passed, each retyped parameter has a
      value of the old type that is not of the new one, and each parameter that became or
      stayed an enum and lost values has an admissible one that it lost. */
  ghost predicate Telling(hasType: Typing, base: ApiSurface, next: ApiSurface) {
    forall id :: id in base.entries ==>
      && Callable(hasType, base.entries[id])
      && forall k :: k in base.entries[id].params.entries ==>
          var p := base.entries[id].params.entries[k];
          && Usable(hasType, p)
          && (id in next.entries && k in next.entries[id].params.entries ==>
                var q := next.entries[id].params.entries[k];
                !ValuesKept(p, q) ==> !Widens(hasType, p, q))
  }

  /** Between surfaces of which that holds, the diff is exact. */
  lemma TellingIsExact(hasType: Typing, base: ApiSurface, next: ApiSurface)
    requires Telling(hasType, base, next)
    ensures NoBreaking(base, next) <==> KeepsCalls(hasType, base, next)
  {
    hide KeepsCalls, Callable, Usable, Widens, BreaksAt, ValuesKept;
    KeepsCallsIff(hasType, base, next);
    forall c | IsBreaking(base, next, c)
      ensures !Harmless(hasType, base, next, c)
    {
      var id :| BreaksAt(base, next, id, c);
      ChangeShape(base, next, id, c);
    }
  }

  function Retyped(op: Operation, k: string, typ: string): Operation
    requires k in op.params.entries
  {
    op.(params := op.params.(entries := op.params.entries[k := op.params.entries[k].(typ := typ)]))
  }

  /** Without it a reported change need not break any call: going from one type to a larger one,
      from integers to numbers say, is reported and keeps every call. */
  lemma WideningReported(hasType: Typing, op: Operation, id: string, k: string, typ: string)
    requires k in op.params.entries && op.params.entries[k].typ != typ
    requires forall a :: hasType(op.params.entries[k].typ, a) ==> hasType(typ, a)
    ensures var wider := Retyped(op, k, typ);
            var base, next := Record([id], map[id := op]), Record([id], map[id := wider]);
            !NoBreaking(base, next) && KeepsCalls(hasType, base, next)
  {
    var wider := Retyped(op, k, typ);
    var base, next := Record([id], map[id := op]), Record([id], map[id := wider]);
    assert OldParamBreaks(id, op, wider, k, TypeChanged(id, k));
    assert OperationBreaks(id, op, wider, TypeChanged(id, k));
    assert BreaksAt(base, next, id, TypeChanged(id, k));
    assert IsBreaking(base, next, TypeChanged(id, k));
  }
}
