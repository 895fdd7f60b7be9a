/**
  API surfaces and `diffSurfaces` of scripts/sdk/surface.ts.
*/
module Surface {
  import opened Wrappers

  /** A JavaScript object used as a dictionary: `keys` is its enumeration order. */
  datatype Record<T> = Record(keys: seq<string>, entries: map<string, T>) {
    ghost predicate Valid() {
      forall k :: k in keys <==> k in entries
    }

    function Get(k: string): Option<T> {
      if k in entries then Some(entries[k]) else None
    }
  }

  datatype EnumValue = Text(text: string) | Number(number: int)

  datatype Param = Param(typ: string, required: bool, values: Option<seq<EnumValue>>)

  datatype Body = NoBody | OptionalBody | RequiredBody

  datatype Operation = Operation(
    verb: string, path: string, params: Record<Param>, body: Body, deprecated: bool)

  type ApiSurface = Record<Operation>

  ghost predicate ValidSurface(s: ApiSurface) {
    s.Valid() && forall id :: id in s.entries ==> s.entries[id].params.Valid()
  }

  datatype Breaking =
    | RemovedOperation(id: string)
    | RouteChanged(id: string)
    | RemovedParameter(id: string, key: string)
    | TypeChanged(id: string, key: string)
    | BecameRequired(id: string, key: string)
    | EnumLost(id: string, key: string, lost: seq<EnumValue>)
    | BecameEnum(id: string, key: string)
    | NewRequiredParameter(id: string, key: string)
    | BodyBecameRequired(id: string)

  datatype Additive =
    | NewOptionalParameter(id: string, key: string)
    | Deprecated(id: string)
    | AddedOperation(id: string)

  datatype SurfaceDiff = SurfaceDiff(breaking: seq<Breaking>, additive: seq<Additive>)

  // ---- which changes there are between two surfaces ----------------------------

  /** `p.enum.filter((v) => !q.enum.includes(v))` */
  function Lost(p: seq<EnumValue>, q: seq<EnumValue>): (lost: seq<EnumValue>)
    ensures forall v :: v in lost <==> v in p && v !in q
  {
    if p == [] then []
    else Lost(p[..|p| - 1], q) + if p[|p| - 1] in q then [] else [p[|p| - 1]]
  }

  /** c reports a breaking change of parameter p, which is q in the next surface. */
  ghost predicate ParamBreaks(id: string, key: string, p: Param, q: Option<Param>, c: Breaking) {
    match q
    case None => c == RemovedParameter(id, key)
    case Some(q) =>
      || (c == TypeChanged(id, key) && q.typ != p.typ)
      || (c == BecameRequired(id, key) && !p.required && q.required)
      || (p.values.Some? && q.values.Some? && Lost(p.values.value, q.values.value) != []
          && c == EnumLost(id, key, Lost(p.values.value, q.values.value)))
      || (c == BecameEnum(id, key) && p.values.None? && q.values.Some?)
  }

  ghost predicate OldParamBreaks(id: string, before: Operation, after: Operation, key: string, c: Breaking) {
    key in before.params.entries
    && ParamBreaks(id, key, before.params.entries[key], after.params.Get(key), c)
  }

  ghost predicate NewParamBreaks(id: string, before: Operation, after: Operation, key: string, c: Breaking) {
    && key in after.params.entries && key !in before.params.entries
    && after.params.entries[key].required && c == NewRequiredParameter(id, key)
  }

  ghost predicate OperationBreaks(id: string, before: Operation, after: Operation, c: Breaking) {
    || (c == RouteChanged(id) && (after.verb != before.verb || after.path != before.path))
    || (exists key :: OldParamBreaks(id, before, after, key, c))
    || (exists key :: NewParamBreaks(id, before, after, key, c))
    || (c == BodyBecameRequired(id) && before.body != RequiredBody && after.body == RequiredBody)
  }

  ghost predicate BreaksAt(base: ApiSurface, next: ApiSurface, id: string, c: Breaking) {
    && id in base.entries
    && if id in next.entries then OperationBreaks(id, base.entries[id], next.entries[id], c)
       else c == RemovedOperation(id)
  }

  ghost predicate IsBreaking(base: ApiSurface, next: ApiSurface, c: Breaking) {
    exists id :: BreaksAt(base, next, id, c)
  }

  ghost predicate NewParamAdds(id: string, before: Operation, after: Operation, key: string, c: Additive) {
    && key in after.params.entries && key !in before.params.entries
    && !after.params.entries[key].required && c == NewOptionalParameter(id, key)
  }

  ghost predicate OperationAdds(id: string, before: Operation, after: Operation, c: Additive) {
    || (exists key :: NewParamAdds(id, before, after, key, c))
    || (c == Deprecated(id) && !before.deprecated && after.deprecated)
  }

  ghost predicate AddsAt(base: ApiSurface, next: ApiSurface, id: string, c: Additive) {
    && id in next.entries
    && if id in base.entries then OperationAdds(id, base.entries[id], next.entries[id], c)
       else c == AddedOperation(id)
  }

  ghost predicate IsAdditive(base: ApiSurface, next: ApiSurface, c: Additive) {
    exists id :: AddsAt(base, next, id, c)
  }

  // ---- the diff, loop by loop --------------------------------------------------

  method LostValues(p: seq<EnumValue>, q: seq<EnumValue>) returns (lost: seq<EnumValue>)
    ensures lost == Lost(p, q)
  {
    lost := [];
    for i := 0 to |p|
      invariant lost == Lost(p[..i], q)
    {
      assert p[..i + 1][..i] == p[..i];
      if p[i] !in q {
        lost := lost + [p[i]];
      }
    }
    assert p[..|p|] == p;
  }

  method DiffParam(id: string, key: string, p: Param, after: Option<Param>) returns (breaking: seq<Breaking>)
    ensures forall c :: c in breaking <==> ParamBreaks(id, key, p, after, c)
  {
    breaking := [];
    if after.None? {
      return [RemovedParameter(id, key)];
    }
    var q := after.value;
    if q.typ != p.typ {
      breaking := breaking + [TypeChanged(id, key)];
    }
    if !p.required && q.required {
      breaking := breaking + [BecameRequired(id, key)];
    }
    if p.values.Some? && q.values.Some? {
      var removed := LostValues(p.values.value, q.values.value);
      if |removed| > 0 {
        breaking := breaking + [EnumLost(id, key, removed)];
      }
    } else if p.values.None? && q.values.Some? {
      breaking := breaking + [BecameEnum(id, key)];
    }
  }

  method DiffOldParams(id: string, before: Operation, after: Operation) returns (breaking: seq<Breaking>)
    requires before.params.Valid() && after.params.Valid()
    ensures forall c :: c in breaking <==> exists key :: OldParamBreaks(id, before, after, key, c)
  {
    hide ParamBreaks;
    breaking := [];
    var keys := before.params.keys;
    for i := 0 to |keys|
      invariant forall c :: c in breaking <==> exists j :: 0 <= j < i && OldParamBreaks(id, before, after, keys[j], c)
    {
      var more := DiffParam(id, keys[i], before.params.entries[keys[i]], after.params.Get(keys[i]));
      breaking := breaking + more;
    }
  }

  method DiffNewParams(id: string, before: Operation, after: Operation)
    returns (breaking: seq<Breaking>, additive: seq<Additive>)
    requires before.params.Valid() && after.params.Valid()
    ensures forall c :: c in breaking <==> exists key :: NewParamBreaks(id, before, after, key, c)
    ensures forall c :: c in additive <==> exists key :: NewParamAdds(id, before, after, key, c)
  {
    breaking, additive := [], [];
    var keys := after.params.keys;
    for i := 0 to |keys|
      invariant forall c :: c in breaking <==> exists j :: 0 <= j < i && NewParamBreaks(id, before, after, keys[j], c)
      invariant forall c :: c in additive <==> exists j :: 0 <= j < i && NewParamAdds(id, before, after, keys[j], c)
    {
      var key := keys[i];
      if before.params.Get(key).None? {
        if after.params.entries[key].required {
          breaking := breaking + [NewRequiredParameter(id, key)];
        } else {
          additive := additive + [NewOptionalParameter(id, key)];
        }
      }
    }
  }

  method DiffOperation(id: string, before: Operation, after: Operation) returns (diff: SurfaceDiff)
    requires before.params.Valid() && after.params.Valid()
    ensures forall c :: c in diff.breaking <==> OperationBreaks(id, before, after, c)
    ensures forall c :: c in diff.additive <==> OperationAdds(id, before, after, c)
  {
    hide OldParamBreaks, NewParamBreaks, NewParamAdds;
    var breaking, additive := [], [];
    if after.verb != before.verb || after.path != before.path {
      breaking := breaking + [RouteChanged(id)];
    }
    var changed := DiffOldParams(id, before, after);
    breaking := breaking + changed;
    var required, optional := DiffNewParams(id, before, after);
    breaking, additive := breaking + required, additive + optional;
    if before.body != RequiredBody && after.body == RequiredBody {
      breaking := breaking + [BodyBecameRequired(id)];
    }
    if !before.deprecated && after.deprecated {
      additive := additive + [Deprecated(id)];
    }
    diff := SurfaceDiff(breaking, additive);
  }

  method DiffSurfaces(base: ApiSurface, next: ApiSurface) returns (diff: SurfaceDiff)
    requires ValidSurface(base) && ValidSurface(next)
    ensures forall c :: c in diff.breaking <==> IsBreaking(base, next, c)
    ensures forall c :: c in diff.additive <==> IsAdditive(base, next, c)
  {
    hide OperationBreaks, OperationAdds;
    var breaking, additive := [], [];
    var ids := base.keys;
    for i := 0 to |ids|
      invariant forall c :: c in breaking <==> exists j :: 0 <= j < i && BreaksAt(base, next, ids[j], c)
      invariant forall c :: c in additive <==>
        exists j :: 0 <= j < i && ids[j] in next.entries && AddsAt(base, next, ids[j], c)
    {
      var id := ids[i];
      if id !in next.entries {
        breaking := breaking + [RemovedOperation(id)];
      } else {
        var d := DiffOperation(id, base.entries[id], next.entries[id]);
        breaking, additive := breaking + d.breaking, additive + d.additive;
      }
    }
    var more := AddedOperations(base, next);
    diff := SurfaceDiff(breaking, additive + more);
  }

  method AddedOperations(base: ApiSurface, next: ApiSurface) returns (additive: seq<Additive>)
    requires next.Valid()
    ensures forall c :: c in additive <==> exists id :: id !in base.entries && AddsAt(base, next, id, c)
  {
    additive := [];
    for i := 0 to |next.keys|
      invariant forall c :: c in additive <==>
        exists j :: 0 <= j < i && next.keys[j] !in base.entries && AddsAt(base, next, next.keys[j], c)
    {
      if next.keys[i] !in base.entries {
        additive := additive + [AddedOperation(next.keys[i])];
      }
    }
  }
}
