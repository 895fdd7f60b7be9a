/**
  The in-memory level of src/cache.ts: an LRU over the insertion order of a
  JavaScript `Map`, with expiry times.
*/
module LruCache {
  import opened Wrappers

  datatype Entry = Entry(payload: string, expiresAt: Option<int>)

  /** The `Map`: bindings in insertion order, oldest first. */
  type Store = seq<(string, Entry)>

  ghost predicate Distinct(s: Store) {
    forall i, j :: 0 <= i < j < |s| ==> s[i].0 != s[j].0
  }

  /** `map.get(key)` */
  function Lookup(s: Store, key: string): Option<Entry> {
    if s == [] then None else if s[0].0 == key then Some(s[0].1) else Lookup(s[1..], key)
  }

  /** `map.delete(key)` */
  function Remove(s: Store, key: string): Store {
    if s == [] then [] else if s[0].0 == key then s[1..] else [s[0]] + Remove(s[1..], key)
  }

  predicate IsExpired(e: Entry, now: int) {
    e.expiresAt.Some? && e.expiresAt.value <= now
  }

  function BuildExpiry(ttlSeconds: Option<int>, now: int): Option<int> {
    if ttlSeconds.None? || ttlSeconds.value <= 0 then None else Some(now + ttlSeconds.value * 1000)
  }

  function Unexpired(s: Store, now: int): Store {
    if s == [] then []
    else Unexpired(s[..|s| - 1], now) + if IsExpired(s[|s| - 1].1, now) then [] else [s[|s| - 1]]
  }

  /** One call as the store sees it. */
  datatype Op =
    | Set(key: string, entry: Entry)
    | Get(key: string, at: int)
    | Delete(key: string)
    | Cleanup(at: int)

  /** The store after a call. */
  function Step(max: nat, s: Store, op: Op): Store {
    match op
    case Set(key, entry) =>
      (if Lookup(s, key).Some? then Remove(s, key)
       else if s != [] && |s| >= max then s[1..]
       else s) + [(key, entry)]
    case Get(key, at) =>
      var entry := Lookup(s, key);
      if entry.None? then s
      else if IsExpired(entry.value, at) then Remove(s, key)
      else Remove(s, key) + [(key, entry.value)]
    case Delete(key) => Remove(s, key)
    case Cleanup(at) => Unexpired(s, at)
  }

  /** What a get returns. */
  function Answer(s: Store, key: string, at: int): Option<string> {
    var entry := Lookup(s, key);
    if entry.None? || IsExpired(entry.value, at) then None else Some(entry.value.payload)
  }

  lemma {:induction false} LookupIn(s: Store, key: string)
    ensures Lookup(s, key).Some? <==> exists i :: 0 <= i < |s| && s[i].0 == key
    ensures Lookup(s, key).Some? ==> (key, Lookup(s, key).value) in s
  {
    if s != [] {
      LookupIn(s[1..], key);
      assert s == [s[0]] + s[1..];
      assert forall i :: 0 < i < |s| ==> s[i] == s[1..][i - 1];
    }
  }

  lemma {:induction false} RemoveIn(s: Store, key: string)
    requires Distinct(s)
    ensures Distinct(Remove(s, key))
    ensures forall b :: b in Remove(s, key) <==> b in s && b.0 != key
    ensures |Remove(s, key)| == if Lookup(s, key).Some? then |s| - 1 else |s|
  {
    if s != [] {
      RemoveIn(s[1..], key);
      assert s == [s[0]] + s[1..];
      forall i | 0 <= i < |s[1..]|
        ensures s[1..][i].0 != s[0].0
      {
        assert s[1..][i] == s[i + 1];
      }
      if s[0].0 == key {
        LookupIn(s[1..], key);
      }
    }
  }

  class MemoryCache {
    const max: nat
    var store: Store
    var evictions: nat

    ghost predicate Valid()
      reads this
    {
      max >= 1 && Distinct(store) && |store| <= max
    }

    constructor (max: nat)
      requires max >= 1
      ensures Valid() && store == [] && evictions == 0 && this.max == max
    {
      this.max := max;
      store, evictions := [], 0;
    }

    method LruSet(key: string, entry: Entry)
      requires Valid()
      modifies this
      ensures Valid() && store == Step(max, old(store), Set(key, entry))
      ensures evictions == old(evictions) + if Lookup(old(store), key).None? && old(|store|) >= max then 1 else 0
    {
      StepValid(max, store, Set(key, entry));
      if Lookup(store, key).Some? {
        store := Remove(store, key);
      } else if |store| >= max {
        var oldestKey := store[0].0;
        RemoveFirst(store);
        store := Remove(store, oldestKey);
        evictions := evictions + 1;
      }
      store := store + [(key, entry)];
    }

    method LruGet(key: string) returns (entry: Option<Entry>)
      requires Valid()
      modifies this
      ensures Valid() && entry == Lookup(old(store), key)
      ensures store == if entry.None? then old(store) else Remove(old(store), key) + [(key, entry.value)]
      ensures evictions == old(evictions)
    {
      entry := Lookup(store, key);
      if entry.Some? {
        RemoveThenPush(store, key, entry.value);
        store := Remove(store, key);
        store := store + [(key, entry.value)];
      }
    }

    /** `performStaleCleanup` */
    method PerformStaleCleanup(now: int)
      requires Valid()
      modifies this
      ensures Valid() && store == Step(max, old(store), Cleanup(now))
      ensures evictions == old(evictions) + old(|store|) - |store|
    {
      StepValid(max, store, Cleanup(now));
      var removed := Sweep(now);
      if removed > 0 {
        evictions := evictions + removed;
      }
    }

    /** The loop of `performStaleCleanup`: counts the bindings it deletes. */
    method Sweep(now: int) returns (removed: nat)
      requires Distinct(store)
      modifies `store
      ensures store == Unexpired(old(store), now) && removed == old(|store|) - |store|
    {
      hide Unexpired, Remove, IsExpired, Swept;
      SweptEnds(store, now);
      var bindings := store;
      removed := 0;
      for i := 0 to |bindings|
        invariant store == Swept(bindings, i, now)
        invariant removed == |bindings| - |store|
      {
        CleanupStep(bindings, i, now);
        var (key, entry) := bindings[i];
        if IsExpired(entry, now) {
          store := Remove(store, key);
          removed := removed + 1;
        }
      }
    }

    /** `cacheGet` without Redis. */
    method CacheGet(key: string, now: int) returns (payload: Option<string>)
      requires Valid()
      modifies this
      ensures Valid() && store == Step(max, old(store), Get(key, now))
      ensures payload == Answer(old(store), key, now) && evictions == old(evictions)
    {
      StepValid(max, store, Get(key, now));
      ghost var before := store;
      var local := LruGet(key);
      if local.Some? {
        if IsExpired(local.value, now) {
          RemovePushed(before, key, local.value);
          store := Remove(store, key);
        } else {
          return Some(local.value.payload);
        }
      }
      return None;
    }

    /** `cacheSet` without Redis. */
    method CacheSet(key: string, payload: string, ttlSeconds: Option<int>, now: int)
      requires Valid()
      modifies this
      ensures Valid()
      ensures store == Step(max, old(store), Set(key, Entry(payload, BuildExpiry(ttlSeconds, now))))
      ensures evictions == old(evictions) + if Lookup(old(store), key).None? && old(|store|) >= max then 1 else 0
    {
      LruSet(key, Entry(payload, BuildExpiry(ttlSeconds, now)));
    }

    /** `cacheDelete` without Redis. */
    method CacheDelete(key: string)
      requires Valid()
      modifies this
      ensures Valid() && store == Step(max, old(store), Delete(key)) && evictions == old(evictions)
    {
      StepValid(max, store, Delete(key));
      store := Remove(store, key);
    }
  }

  lemma RemoveFirst(s: Store)
    requires s != []
    ensures Remove(s, s[0].0) == s[1..]
  {
  }

  lemma RemoveThenPush(s: Store, key: string, e: Entry)
    requires Distinct(s) && Lookup(s, key) == Some(e)
    ensures Distinct(Remove(s, key) + [(key, e)]) && |Remove(s, key) + [(key, e)]| == |s|
  {
    RemoveIn(s, key);
    NoKeyAfterRemove(s, key);
  }

  lemma NoKeyAfterRemove(s: Store, key: string)
    requires Distinct(s)
    ensures forall i :: 0 <= i < |Remove(s, key)| ==> Remove(s, key)[i].0 != key
  {
    RemoveIn(s, key);
    forall i | 0 <= i < |Remove(s, key)|
      ensures Remove(s, key)[i].0 != key
    {
      assert Remove(s, key)[i] in Remove(s, key);
    }
  }

  lemma RemovePushed(s: Store, key: string, e: Entry)
    requires Distinct(s)
    ensures Remove(Remove(s, key) + [(key, e)], key) == Remove(s, key)
  {
    NoKeyAfterRemove(s, key);
    RemoveLast(Remove(s, key), key, e, []);
    assert Remove(s, key) + [(key, e)] + [] == Remove(s, key) + [(key, e)];
  }

  /** Removing the only binding of a key from the middle. */
  lemma {:induction false} RemoveLast(a: Store, key: string, e: Entry, b: Store)
    requires forall i :: 0 <= i < |a| ==> a[i].0 != key
    ensures Remove(a + [(key, e)] + b, key) == a + b
    decreases |a|
  {
    var s := a + [(key, e)] + b;
    if a == [] {
      assert s[1..] == b;
    } else {
      assert s[1..] == a[1..] + [(key, e)] + b;
      RemoveLast(a[1..], key, e, b);
    }
  }

  lemma {:induction false} UnexpiredIn(s: Store, now: int)
    requires Distinct(s)
    ensures Distinct(Unexpired(s, now)) && |Unexpired(s, now)| <= |s|
    ensures forall b :: b in Unexpired(s, now) <==> b in s && !IsExpired(b.1, now)
  {
    if s != [] {
      var n := |s| - 1;
      UnexpiredIn(s[..n], now);
      assert s == s[..n] + [s[n]];
      forall i | 0 <= i < |Unexpired(s[..n], now)|
        ensures Unexpired(s[..n], now)[i].0 != s[n].0
      {
        assert Unexpired(s[..n], now)[i] in s[..n];
      }
    }
  }

  /** The store when the sweep over s has passed the first i bindings. */
  function Swept(s: Store, i: nat, now: int): Store
    requires i <= |s|
  {
    Unexpired(s[..i], now) + s[i..]
  }

  lemma SweptEnds(s: Store, now: int)
    ensures Swept(s, 0, now) == s && Swept(s, |s|, now) == Unexpired(s, now)
  {
    assert s[..|s|] == s;
  }

  lemma CleanupStep(s: Store, i: nat, now: int)
    requires Distinct(s) && i < |s|
    ensures var t, u := Swept(s, i, now), Swept(s, i + 1, now);
            && u == (if IsExpired(s[i].1, now) then Remove(t, s[i].0) else t)
            && |u| == |t| - if IsExpired(s[i].1, now) then 1 else 0
  {
    hide IsExpired, Remove, Distinct;
    var a, c := Unexpired(s[..i], now), s[i + 1..];
    assert s[..i + 1][..i] == s[..i];
    assert a + s[i..] == a + [s[i]] + c;
    KeptHasOtherKeys(s, i, now);
    RemoveLast(a, s[i].0, s[i].1, c);
  }

  lemma KeptHasOtherKeys(s: Store, i: nat, now: int)
    requires Distinct(s) && i < |s|
    ensures forall k :: 0 <= k < |Unexpired(s[..i], now)| ==> Unexpired(s[..i], now)[k].0 != s[i].0
  {
    var a := Unexpired(s[..i], now);
    UnexpiredIn(s[..i], now);
    forall k | 0 <= k < |a|
      ensures a[k].0 != s[i].0
    {
      assert a[k] in s[..i];
    }
  }

  /** Every call keeps the store bounded and its keys distinct. */
  lemma StepValid(max: nat, s: Store, op: Op)
    requires max >= 1 && Distinct(s) && |s| <= max
    ensures Distinct(Step(max, s, op)) && |Step(max, s, op)| <= max
  {
    match op
    case Set(key, entry) =>
      LookupIn(s, key);
      RemoveIn(s, key);
      NoKeyAfterRemove(s, key);
    case Get(key, at) =>
      RemoveIn(s, key);
      NoKeyAfterRemove(s, key);
    case Delete(key) =>
      RemoveIn(s, key);
    case Cleanup(at) =>
      UnexpiredIn(s, at);
  }
}
