/**
  Properties of the in-memory cache of src/cache.ts over whole runs: it refines a
  plain TTL map, and it holds exactly the most recently touched keys.
*/
module LruRuns {
  import opened Wrappers
  import opened LruCache

  // ---- runs ------------------------------------------------------------------------

  function Run(max: nat, ops: seq<Op>): Store {
    if ops == [] then [] else Step(max, Run(max, ops[..|ops| - 1]), ops[|ops| - 1])
  }

  /** The key a call moves to the end of the order, if any. */
  function Touched(s: Store, op: Op): seq<string> {
    match op
    case Set(key, _) => [key]
    case Get(key, _) => if Lookup(s, key).Some? then [key] else []
    case _ => []
  }

  function Touches(max: nat, ops: seq<Op>): seq<string> {
    if ops == [] then []
    else Touches(max, ops[..|ops| - 1]) + Touched(Run(max, ops[..|ops| - 1]), ops[|ops| - 1])
  }

  lemma {:induction false} RunValid(max: nat, ops: seq<Op>)
    requires max >= 1
    ensures Distinct(Run(max, ops)) && |Run(max, ops)| <= max
  {
    hide Step;
    if ops != [] {
      RunValid(max, ops[..|ops| - 1]);
      StepValid(max, Run(max, ops[..|ops| - 1]), ops[|ops| - 1]);
    }
  }

  // ---- refinement of a TTL map -------------------------------------------------------

  /** What an unbounded cache would hold; entries simply stay until overwritten or deleted. */
  function Unbounded(ops: seq<Op>): map<string, Entry> {
    if ops == [] then map[]
    else
      var before := Unbounded(ops[..|ops| - 1]);
      match ops[|ops| - 1]
      case Set(key, entry) => before[key := entry]
      case Delete(key) => before - {key}
      case _ => before
  }

  ghost predicate Within(s: Store, m: map<string, Entry>) {
    forall b :: b in s ==> b.0 in m && m[b.0] == b.1
  }

  lemma StepSubset(max: nat, s: Store, op: Op)
    requires Distinct(s)
    ensures forall b :: b in Step(max, s, op) ==> b in s || (op.Set? && b == (op.key, op.entry))
    ensures op.Set? ==> forall b :: b in Step(max, s, op) && b.0 == op.key ==> b == (op.key, op.entry)
    ensures op.Delete? ==> forall b :: b in Step(max, s, op) ==> b.0 != op.key
  {
    match op
    case Set(key, entry) =>
      LookupIn(s, key);
      RemoveIn(s, key);
    case Get(key, at) =>
      LookupIn(s, key);
      RemoveIn(s, key);
    case Delete(key) =>
      RemoveIn(s, key);
    case Cleanup(at) =>
      UnexpiredIn(s, at);
  }

  lemma {:induction false} RunWithin(max: nat, ops: seq<Op>)
    requires max >= 1
    ensures Within(Run(max, ops), Unbounded(ops))
  {
    hide Step;
    if ops != [] {
      var n := |ops| - 1;
      RunValid(max, ops[..n]);
      RunWithin(max, ops[..n]);
      StepSubset(max, Run(max, ops[..n]), ops[n]);
    }
  }

  /** A get returns nothing, or exactly the unexpired value of the unbounded map. */
  lemma GetRefines(max: nat, ops: seq<Op>, key: string, at: int)
    requires max >= 1
    ensures var m, answer := Unbounded(ops), Answer(Run(max, ops), key, at);
            answer.Some? ==> key in m && m[key].payload == answer.value && !IsExpired(m[key], at)
  {
    hide Run, Unbounded;
    RunWithin(max, ops);
    LookupIn(Run(max, ops), key);
  }

  /** A binding disappears by overwriting or deleting its key, by expiry, or as the
      oldest of a full store. */
  lemma LossExplained(max: nat, s: Store, op: Op, b: (string, Entry))
    requires max >= 1 && Distinct(s) && |s| <= max && b in s && b !in Step(max, s, op)
    ensures op.Set? ==> b.0 == op.key || (b == s[0] && |s| == max && Lookup(s, op.key).None?)
    ensures op.Get? ==> b.0 == op.key && IsExpired(b.1, op.at)
    ensures op.Delete? ==> b.0 == op.key
    ensures op.Cleanup? ==> IsExpired(b.1, op.at)
  {
    hide Remove, Unexpired, Lookup, IsExpired;
    match op
    case Set(key, entry) =>
      LossBySet(max, s, key, entry, b);
    case Get(key, at) =>
      LookupIn(s, key);
      RemoveIn(s, key);
    case Delete(key) =>
      RemoveIn(s, key);
    case Cleanup(at) =>
      UnexpiredIn(s, at);
  }

  lemma LossBySet(max: nat, s: Store, key: string, entry: Entry, b: (string, Entry))
    requires max >= 1 && Distinct(s) && |s| <= max && b in s && b !in Step(max, s, Set(key, entry))
    ensures b.0 == key || (b == s[0] && |s| == max && Lookup(s, key).None?)
  {
    hide Lookup, Distinct, Remove;
    RemoveIn(s, key);
    assert s == [s[0]] + s[1..];
  }

  // ---- recency -----------------------------------------------------------------------

  function Keys(s: Store): seq<string> {
    if s == [] then [] else [s[0].0] + Keys(s[1..])
  }

  function Without(keys: seq<string>, key: string): seq<string> {
    if keys == [] then []
    else (if keys[0] == key then [] else [keys[0]]) + Without(keys[1..], key)
  }

  /** The touched keys, each once, in the order of their last touch. */
  function Recency(touches: seq<string>): seq<string> {
    if touches == [] then []
    else Without(Recency(touches[..|touches| - 1]), touches[|touches| - 1]) + [touches[|touches| - 1]]
  }

  function LastOf(keys: seq<string>, n: nat): seq<string> {
    if |keys| <= n then keys else keys[|keys| - n..]
  }

  ghost predicate NoRepeats(keys: seq<string>) {
    forall i, j :: 0 <= i < j < |keys| ==> keys[i] != keys[j]
  }

  lemma {:induction false} KeysConcat(a: Store, b: Store)
    ensures Keys(a + b) == Keys(a) + Keys(b)
  {
    if a == [] {
      assert a + b == b;
    } else {
      assert (a + b)[1..] == a[1..] + b;
      KeysConcat(a[1..], b);
    }
  }

  lemma {:induction false} KeysAt(s: Store)
    ensures |Keys(s)| == |s|
    ensures forall i :: 0 <= i < |s| ==> Keys(s)[i] == s[i].0
  {
    if s != [] {
      KeysAt(s[1..]);
    }
  }

  lemma {:induction false} WithoutConcat(a: seq<string>, b: seq<string>, key: string)
    ensures Without(a + b, key) == Without(a, key) + Without(b, key)
  {
    if a == [] {
      assert a + b == b;
    } else {
      assert (a + b)[1..] == a[1..] + b;
      WithoutConcat(a[1..], b, key);
    }
  }

  lemma {:induction false} WithoutIn(keys: seq<string>, key: string)
    ensures forall x :: x in Without(keys, key) <==> x in keys && x != key
  {
    if keys != [] {
      WithoutIn(keys[1..], key);
      assert keys == [keys[0]] + keys[1..];
    }
  }

  lemma {:induction false} WithoutAbsent(keys: seq<string>, key: string)
    requires key !in keys
    ensures Without(keys, key) == keys
  {
    if keys != [] {
      assert keys == [keys[0]] + keys[1..];
      WithoutAbsent(keys[1..], key);
    }
  }

  lemma {:induction false} WithoutLength(keys: seq<string>, key: string)
    requires NoRepeats(keys)
    ensures |Without(keys, key)| == if key in keys then |keys| - 1 else |keys|
    ensures NoRepeats(Without(keys, key))
  {
    if keys != [] {
      assert keys == [keys[0]] + keys[1..];
      assert keys[0] !in keys[1..];
      WithoutLength(keys[1..], key);
      WithoutIn(keys[1..], key);
    }
  }

  lemma {:induction false} RecencyNoRepeats(touches: seq<string>)
    ensures NoRepeats(Recency(touches)) && forall x :: x in Recency(touches) <==> x in touches
  {
    hide Without;
    if touches != [] {
      var n := |touches| - 1;
      hide NoRepeats;
      RecencyNoRepeats(touches[..n]);
      WithoutLength(Recency(touches[..n]), touches[n]);
      WithoutIn(Recency(touches[..n]), touches[n]);
      NoRepeatsPush(Without(Recency(touches[..n]), touches[n]), touches[n]);
      assert touches == touches[..n] + [touches[n]];
    }
  }

  lemma NoRepeatsPush(keys: seq<string>, key: string)
    requires NoRepeats(keys) && key !in keys
    ensures NoRepeats(keys + [key])
  {
  }

  /** Removing a binding removes its key from the order. */
  lemma {:induction false} KeysRemove(s: Store, key: string)
    requires Distinct(s)
    ensures Keys(Remove(s, key)) == Without(Keys(s), key)
  {
    if s != [] {
      if s[0].0 == key {
        KeysAt(s[1..]);
        WithoutAbsent(Keys(s[1..]), key);
      } else {
        KeysRemove(s[1..], key);
      }
    }
  }

  /** Runs in which nothing is deleted and nothing expires; cleanups that find nothing and
      deletions of absent keys are part of them. */
  predicate Calm(max: nat, ops: seq<Op>) {
    ops == []
    || (Calm(max, ops[..|ops| - 1]) && CalmStep(Run(max, ops[..|ops| - 1]), ops[|ops| - 1]))
  }

  predicate CalmStep(s: Store, op: Op) {
    match op
    case Set(_, _) => true
    case Get(key, at) => Lookup(s, key).Some? ==> !IsExpired(Lookup(s, key).value, at)
    case Delete(key) => Lookup(s, key).None?
    case Cleanup(at) => Unexpired(s, at) == s
  }

  /** A calm step that touches nothing changes nothing. */
  lemma UntouchedKept(max: nat, s: Store, op: Op)
    requires Distinct(s) && CalmStep(s, op) && Touched(s, op) == []
    ensures Step(max, s, op) == s
  {
    if op.Delete? {
      LookupIn(s, op.key);
      RemoveAbsent(s, op.key);
    }
  }

  lemma {:induction false} RemoveAbsent(s: Store, key: string)
    requires forall i :: 0 <= i < |s| ==> s[i].0 != key
    ensures Remove(s, key) == s
  {
    if s != [] {
      RemoveAbsent(s[1..], key);
    }
  }

  /** What a touch does to the order of a bounded store. */
  function TouchKeys(max: nat, keys: seq<string>, key: string): seq<string> {
    (if key in keys then Without(keys, key)
     else if keys != [] && |keys| >= max then keys[1..]
     else keys) + [key]
  }

  lemma TouchRecency(max: nat, r: seq<string>, key: string)
    requires max >= 1 && NoRepeats(r)
    ensures TouchKeys(max, LastOf(r, max), key) == LastOf(Without(r, key) + [key], max)
  {
    hide Without, NoRepeats, LastOf;
    var p, s := SplitLast(r, max);
    WithoutConcat(p, s, key);
    NoRepeatsParts(p, s);
    if key in s {
      WithoutAbsent(p, key);
      WithoutLength(s, key);
      LastOfConcat(p, Without(s, key) + [key], max);
      assert p + (Without(s, key) + [key]) == p + Without(s, key) + [key];
    } else {
      WithoutAbsent(s, key);
      if |s| < max {
        WithoutAbsent(p, key);
        LastOfConcat(p, s + [key], max);
        assert p + (s + [key]) == p + s + [key];
      } else {
        var w := Without(p, key);
        LastOfConcat(w + [s[0]], s[1..] + [key], max);
        assert (w + [s[0]]) + (s[1..] + [key]) == w + s + [key];
      }
    }
  }

  lemma SplitLast(r: seq<string>, n: nat) returns (p: seq<string>, s: seq<string>)
    ensures r == p + s && LastOf(r, n) == s && (p == [] || |s| == n) && |s| <= n
  {
    if |r| <= n {
      p, s := [], r;
    } else {
      p, s := r[..|r| - n], r[|r| - n..];
    }
  }

  lemma NoRepeatsParts(p: seq<string>, s: seq<string>)
    requires NoRepeats(p + s)
    ensures NoRepeats(s) && forall x :: x in s ==> x !in p
  {
    var r := p + s;
    assert forall i :: 0 <= i < |p| ==> r[i] == p[i];
    assert forall i :: 0 <= i < |s| ==> r[|p| + i] == s[i];
  }

  lemma LastOfConcat(a: seq<string>, b: seq<string>, n: nat)
    requires |b| == n || (a == [] && |b| <= n)
    ensures LastOf(a + b, n) == b
  {
  }

  lemma TouchOf(max: nat, s: Store, op: Op)
    requires max >= 1 && Distinct(s) && |s| <= max && CalmStep(s, op)
    requires op.Set? || (op.Get? && Lookup(s, op.key).Some?)
    ensures Keys(Step(max, s, op)) == TouchKeys(max, Keys(s), op.key)
  {
    hide Distinct, Lookup, Remove, Without, IsExpired, Keys;
    KeysRemove(s, op.key);
    KeyBound(s, op.key);
    if op.Set? {
      SetKeys(max, s, op.key, op.entry);
    } else {
      KeysPush(Remove(s, op.key), op.key, Lookup(s, op.key).value);
    }
  }

  lemma SetKeys(max: nat, s: Store, key: string, e: Entry)
    requires Distinct(s) && |s| <= max
    ensures Keys(Step(max, s, Set(key, e))) == TouchKeys(max, Keys(s), key)
  {
    hide Distinct, Lookup, Remove, Without, IsExpired;
    KeyBound(s, key);
    KeysRemove(s, key);
    KeysPush(Remove(s, key), key, e);
    KeysPush(s, key, e);
    if s != [] {
      KeysPush(s[1..], key, e);
    }
  }

  lemma KeyBound(s: Store, key: string)
    ensures Lookup(s, key).Some? <==> key in Keys(s)
    ensures |Keys(s)| == |s|
  {
    hide Lookup, Keys;
    KeysAt(s);
    LookupIn(s, key);
  }

  lemma KeysPush(s: Store, key: string, e: Entry)
    ensures Keys(s + [(key, e)]) == Keys(s) + [key]
  {
    KeysConcat(s, [(key, e)]);
  }

  /** In calm runs the store holds exactly the last `max` distinct touched keys, oldest first. */
  lemma {:induction false} StoreIsRecency(max: nat, ops: seq<Op>)
    requires max >= 1 && Calm(max, ops)
    ensures Keys(Run(max, ops)) == LastOf(Recency(Touches(max, ops)), max)
  {
    hide Step, TouchKeys, Without, CalmStep;
    if ops != [] {
      var n := |ops| - 1;
      var s, t, op := Run(max, ops[..n]), Touches(max, ops[..n]), ops[n];
      StoreIsRecency(max, ops[..n]);
      RunValid(max, ops[..n]);
      RecencyNoRepeats(t);
      if Touched(s, op) == [] {
        UntouchedKept(max, s, op);
        assert Touches(max, ops) == t + [] == t;
      } else {
        TouchOf(max, s, op);
        TouchRecency(max, Recency(t), op.key);
        assert Touches(max, ops) == t + [op.key];
        assert (t + [op.key])[..|t|] == t;
      }
    }
  }

  // ---- presence ------------------------------------------------------------------------

  lemma RecencyPush(t: seq<string>, x: string)
    ensures Recency(t + [x]) == Without(Recency(t), x) + [x]
  {
    assert (t + [x])[..|t|] == t;
  }

  lemma WithoutOther(key: string, x: string)
    requires x != key
    ensures Without([key], x) == [key]
  {
    WithoutAbsent([key], x);
  }

  /** The keys touched after the last touch of `key` are what follows it in the recency order. */
  lemma {:induction false} RecencySplits(p: seq<string>, key: string, q: seq<string>) returns (a: seq<string>)
    requires key !in q
    ensures Recency(p + [key] + q) == a + [key] + Recency(q)
    decreases |q|
  {
    hide Without;
    if q == [] {
      RecencyPush(p, key);
      a := Without(Recency(p), key);
      assert p + [key] + q == p + [key];
    } else {
      hide Recency;
      var x, q' := q[|q| - 1], q[..|q| - 1];
      assert q == q' + [x];
      var a' := RecencySplits(p, key, q');
      RecencyPush(p + [key] + q', x);
      RecencyPush(q', x);
      assert p + [key] + q == p + [key] + q' + [x];
      WithoutConcat(a' + [key], Recency(q'), x);
      WithoutConcat(a', [key], x);
      WithoutOther(key, x);
      a := Without(a', x);
    }
  }

  lemma {:induction false} RecencySize(q: seq<string>)
    ensures |Recency(q)| == |set x | x in q|
  {
    if q != [] {
      var n := |q| - 1;
      RecencySize(q[..n]);
      RecencyNoRepeats(q[..n]);
      WithoutLength(Recency(q[..n]), q[n]);
      assert q == q[..n] + [q[n]];
      assert (set x | x in q) == (set x | x in q[..n]) + {q[n]};
    }
  }

  lemma InLastOf(a: seq<string>, key: string, b: seq<string>, n: nat)
    requires NoRepeats(a + [key] + b)
    ensures key in LastOf(a + [key] + b, n) <==> |b| < n
  {
    var r := a + [key] + b;
    assert r[|a|] == key;
    if |r| > n {
      var l := LastOf(r, n);
      if |b| < n {
        assert l[n - 1 - |b|] == key;
      } else {
        forall i | 0 <= i < |l|
          ensures l[i] != key
        {
          assert l[i] == r[|r| - n + i] && |r| - n + i > |a|;
        }
      }
    }
  }

  /** A key is cached iff fewer than `max` distinct other keys were touched since it was. */
  lemma PresentIffRecent(max: nat, ops: seq<Op>, p: seq<string>, key: string, q: seq<string>)
    requires max >= 1 && Calm(max, ops)
    requires Touches(max, ops) == p + [key] + q && key !in q
    ensures Lookup(Run(max, ops), key).Some? <==> |set x | x in q| < max
  {
    hide Run, Calm, Recency, Touches, LastOf;
    StoreIsRecency(max, ops);
    var a := RecencySplits(p, key, q);
    RecencySize(q);
    RecencyNoRepeats(p + [key] + q);
    InLastOf(a, key, Recency(q), max);
    KeyBound(Run(max, ops), key);
  }

  /** A key never touched is not cached. */
  lemma AbsentIfUntouched(max: nat, ops: seq<Op>, key: string)
    requires max >= 1 && Calm(max, ops) && key !in Touches(max, ops)
    ensures Lookup(Run(max, ops), key).None?
  {
    hide Run, Calm, Recency, Touches;
    StoreIsRecency(max, ops);
    RecencyNoRepeats(Touches(max, ops));
    KeyBound(Run(max, ops), key);
  }

  // ---- order in all runs -----------------------------------------------------------------

  /** The position of the last touch of a key, counting from 1; 0 if there is none. */
  function LastTouch(touches: seq<string>, key: string): nat {
    if touches == [] then 0
    else if touches[|touches| - 1] == key then |touches|
    else LastTouch(touches[..|touches| - 1], key)
  }

  ghost predicate OrderedByTouch(s: Store, touches: seq<string>) {
    && (forall i :: 0 <= i < |s| ==> 0 < LastTouch(touches, s[i].0))
    && (forall i, j :: 0 <= i < j < |s| ==> LastTouch(touches, s[i].0) < LastTouch(touches, s[j].0))
  }

  lemma {:induction false} RemoveSubset(s: Store, key: string)
    ensures forall b :: b in Remove(s, key) ==> b in s
  {
    if s != [] {
      RemoveSubset(s[1..], key);
    }
  }

  lemma PrependOrdered(b: (string, Entry), s: Store, r: Store, touches: seq<string>)
    requires OrderedByTouch([b] + s, touches) && OrderedByTouch(r, touches)
    requires forall x :: x in r ==> x in s
    ensures OrderedByTouch([b] + r, touches)
  {
    hide LastTouch;
    var t := [b] + s;
    assert t[0] == b;
    forall i | 0 <= i < |r|
      ensures LastTouch(touches, b.0) < LastTouch(touches, r[i].0)
    {
      assert r[i] in s;
      var k :| 0 <= k < |s| && s[k] == r[i];
      assert t[k + 1] == r[i];
    }
  }

  lemma DropFirstOrdered(s: Store, touches: seq<string>)
    requires s != [] && OrderedByTouch(s, touches)
    ensures OrderedByTouch(s[1..], touches)
  {
    hide LastTouch;
  }

  lemma {:induction false} RemoveOrdered(s: Store, key: string, touches: seq<string>)
    requires OrderedByTouch(s, touches)
    ensures OrderedByTouch(Remove(s, key), touches)
  {
    hide OrderedByTouch;
    if s != [] {
      assert s == [s[0]] + s[1..];
      DropFirstOrdered(s, touches);
      RemoveOrdered(s[1..], key, touches);
      RemoveSubset(s[1..], key);
      PrependOrdered(s[0], s[1..], Remove(s[1..], key), touches);
    }
  }

  lemma {:induction false} UnexpiredSubset(s: Store, now: int)
    ensures forall b :: b in Unexpired(s, now) ==> b in s
  {
    if s != [] {
      UnexpiredSubset(s[..|s| - 1], now);
    }
  }

  /** Keeping an ordered store's last binding behind some of the earlier ones. */
  lemma AppendOrdered(s: Store, b: (string, Entry), r: Store, touches: seq<string>)
    requires OrderedByTouch(s + [b], touches) && OrderedByTouch(r, touches)
    requires forall x :: x in r ==> x in s
    ensures OrderedByTouch(r + [b], touches)
  {
    hide LastTouch;
    var t := s + [b];
    assert t[|s|] == b;
    forall i | 0 <= i < |r|
      ensures LastTouch(touches, r[i].0) < LastTouch(touches, b.0)
    {
      assert r[i] in s;
      var k :| 0 <= k < |s| && s[k] == r[i];
      assert t[k] == r[i];
    }
  }

  lemma {:induction false} UnexpiredOrdered(s: Store, now: int, touches: seq<string>)
    requires OrderedByTouch(s, touches)
    ensures OrderedByTouch(Unexpired(s, now), touches)
  {
    hide OrderedByTouch, IsExpired;
    if s != [] {
      var n := |s| - 1;
      assert s == s[..n] + [s[n]];
      DropLastOrdered(s[..n], s[n], touches);
      UnexpiredOrdered(s[..n], now, touches);
      UnexpiredSubset(s[..n], now);
      AppendOrdered(s[..n], s[n], Unexpired(s[..n], now), touches);
      assert Unexpired(s[..n], now) + [] == Unexpired(s[..n], now);
    }
  }

  lemma {:induction false} LastTouchBound(touches: seq<string>, key: string)
    ensures LastTouch(touches, key) <= |touches|
  {
    if touches != [] {
      LastTouchBound(touches[..|touches| - 1], key);
    }
  }

  lemma LastTouchSnoc(touches: seq<string>, x: string, key: string)
    ensures LastTouch(touches + [x], key) == if x == key then |touches| + 1 else LastTouch(touches, key)
  {
    assert (touches + [x])[..|touches|] == touches;
  }

  lemma PushOrdered(s: Store, key: string, e: Entry, touches: seq<string>)
    requires OrderedByTouch(s, touches) && forall i :: 0 <= i < |s| ==> s[i].0 != key
    ensures OrderedByTouch(s + [(key, e)], touches + [key])
  {
    hide LastTouch;
    forall i | 0 <= i < |s|
      ensures LastTouch(touches + [key], s[i].0) == LastTouch(touches, s[i].0) <= |touches|
    {
      LastTouchSnoc(touches, key, s[i].0);
      LastTouchBound(touches, s[i].0);
    }
    LastTouchSnoc(touches, key, key);
  }

  lemma DropLastOrdered(s: Store, b: (string, Entry), touches: seq<string>)
    requires OrderedByTouch(s + [b], touches)
    ensures OrderedByTouch(s, touches)
  {
    hide LastTouch;
    assert forall i :: 0 <= i < |s| ==> (s + [b])[i] == s[i];
  }

  lemma StepOrdered(max: nat, s: Store, op: Op, touches: seq<string>)
    requires max >= 1 && Distinct(s) && OrderedByTouch(s, touches)
    ensures OrderedByTouch(Step(max, s, op), touches + Touched(s, op))
  {
    hide OrderedByTouch, IsExpired, Unexpired, Distinct, LastTouch;
    assert touches + [] == touches;
    match op
    case Set(key, entry) =>
      RemoveOrdered(s, key, touches);
      NoKeyAfterRemove(s, key);
      LookupIn(s, key);
      if s != [] {
        RemoveFirst(s);
        RemoveOrdered(s, s[0].0, touches);
      }
      PushOrdered(if Lookup(s, key).Some? then Remove(s, key) else if s != [] && |s| >= max then s[1..] else s,
                  key, entry, touches);
    case Get(key, at) =>
      RemoveOrdered(s, key, touches);
      NoKeyAfterRemove(s, key);
      var e := Lookup(s, key);
      if e.Some? {
        PushOrdered(Remove(s, key), key, e.value, touches);
        if IsExpired(e.value, at) {
          DropLastOrdered(Remove(s, key), (key, e.value), touches + [key]);
        }
      }
    case Delete(key) =>
      RemoveOrdered(s, key, touches);
    case Cleanup(at) =>
      UnexpiredOrdered(s, at, touches);
  }

  /** After any run whatever the store is ordered by last touch. */
  lemma {:induction false} AlwaysOrdered(max: nat, ops: seq<Op>)
    requires max >= 1
    ensures OrderedByTouch(Run(max, ops), Touches(max, ops))
  {
    hide Step, Touched;
    if ops != [] {
      var n := |ops| - 1;
      AlwaysOrdered(max, ops[..n]);
      RunValid(max, ops[..n]);
      StepOrdered(max, Run(max, ops[..n]), ops[n], Touches(max, ops[..n]));
    }
  }

  /** A set of another key removes a binding only from a full store, and then the one whose
      last touch is the earliest of all. */
  lemma EvictsLeastRecent(max: nat, ops: seq<Op>, key: string, entry: Entry, b: (string, Entry))
    requires max >= 1 && b in Run(max, ops) && b.0 != key
    requires b !in Run(max, ops + [Set(key, entry)])
    ensures |Run(max, ops)| == max
    ensures var t := Touches(max, ops);
            forall c :: c in Run(max, ops) && c != b ==> LastTouch(t, b.0) < LastTouch(t, c.0)
  {
    hide Run, Touches, LastTouch, Step;
    RunPush(max, ops, Set(key, entry));
    RunValid(max, ops);
    LossExplained(max, Run(max, ops), Set(key, entry), b);
    AlwaysOrdered(max, ops);
    var s, t := Run(max, ops), Touches(max, ops);
    forall c | c in s && c != b
      ensures LastTouch(t, b.0) < LastTouch(t, c.0)
    {
      var i :| 0 <= i < |s| && s[i] == c;
    }
  }

  lemma RunPush(max: nat, ops: seq<Op>, op: Op)
    ensures Run(max, ops + [op]) == Step(max, Run(max, ops), op)
  {
    assert (ops + [op])[..|ops|] == ops;
  }

  // ---- how long an entry is answered ------------------------------------------------------

  /** Until it is set again, whatever is stored for a key is what was set last. */
  lemma {:induction false} EntryPersists(max: nat, p: seq<Op>, key: string, entry: Entry, q: seq<Op>)
    requires max >= 1 && forall i :: 0 <= i < |q| ==> !(q[i].Set? && q[i].key == key)
    ensures forall b :: b in Run(max, p + [Set(key, entry)] + q) && b.0 == key ==> b.1 == entry
    decreases |q|
  {
    hide Step;
    var h := p + [Set(key, entry)] + q;
    if q == [] {
      assert h == p + [Set(key, entry)];
      RunPush(max, p, Set(key, entry));
      RunValid(max, p);
      StepSubset(max, Run(max, p), Set(key, entry));
    } else {
      var n := |q| - 1;
      EntryPersists(max, p, key, entry, q[..n]);
      assert h == p + [Set(key, entry)] + q[..n] + [q[n]];
      RunPush(max, p + [Set(key, entry)] + q[..n], q[n]);
      RunValid(max, p + [Set(key, entry)] + q[..n]);
      StepSubset(max, Run(max, p + [Set(key, entry)] + q[..n]), q[n]);
    }
  }

  /** A value set at time n with a positive time to live of ttl seconds, still in the store and not
      set again, is answered at time m iff m is before n + 1000 * ttl; without one it always is. */
  lemma AnsweredUntil(max: nat, p: seq<Op>, key: string, payload: string, ttl: Option<int>, n: int, q: seq<Op>, m: int)
    requires max >= 1 && forall i :: 0 <= i < |q| ==> !(q[i].Set? && q[i].key == key)
    requires var s := Run(max, p + [Set(key, Entry(payload, BuildExpiry(ttl, n)))] + q);
             Lookup(s, key).Some?
    ensures var s := Run(max, p + [Set(key, Entry(payload, BuildExpiry(ttl, n)))] + q);
            && (ttl.Some? && ttl.value > 0 ==>
                  Answer(s, key, m) == if m < n + 1000 * ttl.value then Some(payload) else None)
            && (ttl.None? || ttl.value <= 0 ==> Answer(s, key, m) == Some(payload))
  {
    hide Run, Lookup;
    var entry := Entry(payload, BuildExpiry(ttl, n));
    EntryPersists(max, p, key, entry, q);
    LookupIn(Run(max, p + [Set(key, entry)] + q), key);
  }
}
