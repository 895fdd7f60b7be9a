/**
  The two-level cache of src/cache.ts as a distributed protocol: several processes,
  each with an in-memory level, one Redis, and a pub/sub channel that carries the
  invalidated keys to every process in publication order.  One action is one atomic
  piece of `cacheGet`, `cacheSet`, `cacheDelete` or the subscription callback between
  two awaits, or the execution of one command at Redis.  Redis answers and messages
  may be delayed at will, but none is lost.  Times are milliseconds.
*/
module CacheCoherence {
  import opened Wrappers

  datatype Stored = Stored(payload: string, deadline: Option<int>)

  /** An entry of the in-memory level.  Only payload and expiresAt are the program's; the
      other fields record how the entry came about. */
  datatype Local =
    | Written(payload: string, expiresAt: Option<real>)
    | Filled(payload: string, expiresAt: Option<real>, filledAt: int, pttl: int, overlapped: bool, late: bool)

  /** A call that waits for Redis. */
  datatype Pending =
    | Setting(key: string, payload: string, ttl: Option<int>)
    | Deleting(key: string)
    | Publishing(key: string)
    | Looking(process: nat, key: string)
    | GotPayload(process: nat, key: string, payload: string, since: nat)
    | GotTtl(process: nat, key: string, payload: string, since: nat, pttl: int, ttlAt: int)

  datatype State = State(
    now: int,
    local: map<(nat, string), Local>,
    redis: map<string, Stored>,
    writes: map<string, nat>,      // how many writes of a key Redis has executed
    channel: seq<string>,          // all invalidations ever published
    seen: map<nat, nat>,           // how many of them each process has handled
    calls: map<nat, Pending>
  )

  datatype Action =
    | SetStart(id: nat, process: nat, key: string, payload: string, ttl: Option<int>)
    | SetExec(id: nat)
    | DeleteStart(id: nat, process: nat, key: string)
    | DeleteExec(id: nat)
    | Publish(id: nat)
    | Deliver(process: nat)
    | GetStart(id: nat, process: nat, key: string)
    | GetPayload(id: nat)
    | GetTtl(id: nat)
    | Fill(id: nat)
    | Drop(process: nat, key: string)      // an eviction or a cleanup
    | Tick(elapsed: nat)

  function WritesOf(s: State, key: string): nat {
    if key in s.writes then s.writes[key] else 0
  }

  predicate Expired(e: Local, now: int) {
    e.expiresAt.Some? && e.expiresAt.value <= now as real
  }

  /** What a `get` executed at Redis answers. */
  function RedisValue(s: State, key: string): Option<string> {
    if key in s.redis && (s.redis[key].deadline.Some? ==> s.now <= s.redis[key].deadline.value)
    then Some(s.redis[key].payload) else None
  }

  /** What a `pTTL` executed at Redis answers. */
  function RedisTtl(s: State, key: string): int {
    if RedisValue(s, key).None? then -2
    else if s.redis[key].deadline.None? then -1
    else s.redis[key].deadline.value - s.now
  }

  /** The lifetime of an entry filled from Redis. */
  function FillLifetime(pttl: int, memoryTtl: nat): real {
    if pttl > 0 then pttl as real * 0.8 else memoryTtl as real
  }

  function Deadline(ttl: Option<int>, now: int): Option<int> {
    if ttl.None? || ttl.value <= 0 then None else Some(now + ttl.value * 1000)
  }

  function WrittenEntry(payload: string, ttl: Option<int>, now: int): Local {
    var d := Deadline(ttl, now);
    Written(payload, if d.None? then None else Some(d.value as real))
  }

  /** The entry was filled so long after its TTL was read that it outlives the Redis value. */
  predicate Late(pttl: int, ttlAt: int, now: int, memoryTtl: nat) {
    pttl == -2 || (pttl >= 0 && now as real + FillLifetime(pttl, memoryTtl) > (ttlAt + pttl) as real)
  }

  function Bump(s: State, key: string): map<string, nat> {
    s.writes[key := WritesOf(s, key) + 1]
  }

  /** One action; an action that is not possible changes nothing. */
  function Next(memoryTtl: nat, s: State, a: Action): State {
    match a
    case SetStart(id, p, key, payload, ttl) =>
      if p !in s.seen || id in s.calls then s
      else s.(local := s.local[(p, key) := WrittenEntry(payload, ttl, s.now)],
              calls := s.calls[id := Setting(key, payload, ttl)])
    case SetExec(id) =>
      if id !in s.calls || !s.calls[id].Setting? then s
      else
        var c := s.calls[id];
        s.(redis := s.redis[c.key := Stored(c.payload, Deadline(c.ttl, s.now))],
           writes := Bump(s, c.key),
           calls := s.calls[id := Publishing(c.key)])
    case DeleteStart(id, p, key) =>
      if p !in s.seen || id in s.calls then s
      else s.(local := s.local - {(p, key)}, calls := s.calls[id := Deleting(key)])
    case DeleteExec(id) =>
      if id !in s.calls || !s.calls[id].Deleting? then s
      else
        var c := s.calls[id];
        s.(redis := s.redis - {c.key}, writes := Bump(s, c.key), calls := s.calls[id := Publishing(c.key)])
    case Publish(id) =>
      if id !in s.calls || !s.calls[id].Publishing? then s
      else s.(channel := s.channel + [s.calls[id].key], calls := s.calls - {id})
    case Deliver(p) =>
      if p !in s.seen || s.seen[p] >= |s.channel| then s
      else s.(local := s.local - {(p, s.channel[s.seen[p]])}, seen := s.seen[p := s.seen[p] + 1])
    case GetStart(id, p, key) =>
      if p !in s.seen || id in s.calls || LocalHit(s, p, key).Some? then s
      else s.(local := s.local - {(p, key)}, calls := s.calls[id := Looking(p, key)])
    case GetPayload(id) =>
      if id !in s.calls || !s.calls[id].Looking? then s
      else
        var c := s.calls[id];
        var value := RedisValue(s, c.key);
        if value.None? then s.(calls := s.calls - {id})
        else s.(calls := s.calls[id := GotPayload(c.process, c.key, value.value, WritesOf(s, c.key))])
    case GetTtl(id) =>
      if id !in s.calls || !s.calls[id].GotPayload? then s
      else
        var c := s.calls[id];
        s.(calls := s.calls[id := GotTtl(c.process, c.key, c.payload, c.since, RedisTtl(s, c.key), s.now)])
    case Fill(id) =>
      if id !in s.calls || !s.calls[id].GotTtl? then s
      else
        var c := s.calls[id];
        var expiresAt := Some(s.now as real + FillLifetime(c.pttl, memoryTtl));
        var entry := Filled(c.payload, expiresAt, s.now, c.pttl,
                            WritesOf(s, c.key) != c.since, Late(c.pttl, c.ttlAt, s.now, memoryTtl));
        s.(local := s.local[(c.process, c.key) := entry], calls := s.calls - {id})
    case Drop(p, key) => s.(local := s.local - {(p, key)})
    case Tick(elapsed) => s.(now := s.now + elapsed)
  }

  /** What `cacheGet` answers from memory. */
  function LocalHit(s: State, p: nat, key: string): Option<string> {
    if (p, key) in s.local && !Expired(s.local[(p, key)], s.now) then Some(s.local[(p, key)].payload) else None
  }

  function Initial(processes: set<nat>, redis: map<string, Stored>, now: int): State {
    State(now, map[], redis, map[], [], map p | p in processes :: 0, map[])
  }

  function Run(memoryTtl: nat, s: State, actions: seq<Action>): State {
    if actions == [] then s
    else Next(memoryTtl, Run(memoryTtl, s, actions[..|actions| - 1]), actions[|actions| - 1])
  }

  // ---- what keeps an entry harmless ---------------------------------------------------

  predicate IsWrite(c: Pending) {
    c.Setting? || c.Deleting? || c.Publishing?
  }

  ghost predicate WriteInProgress(s: State, key: string) {
    exists id :: id in s.calls && IsWrite(s.calls[id]) && s.calls[id].key == key
  }

  /** An invalidation of the key is on its way to the process. */
  ghost predicate InFlight(s: State, p: nat, key: string) {
    p in s.seen && s.seen[p] <= |s.channel| && key in s.channel[s.seen[p]..]
  }

  ghost predicate Covered(s: State, p: nat, key: string) {
    WriteInProgress(s, key) || InFlight(s, p, key)
  }

  /** The entry agrees with Redis and does not outlive the value there. */
  predicate Agrees(s: State, key: string, e: Local) {
    && key in s.redis
    && s.redis[key].payload == e.payload
    && (s.redis[key].deadline.Some? ==>
          e.expiresAt.Some? && e.expiresAt.value <= s.redis[key].deadline.value as real)
  }

  /** The entry was filled by a read that overlapped a write, or by one so slow that it may
      outlive the value it still shares with Redis; it dies within the lifetime it was given. */
  predicate Doomed(memoryTtl: nat, s: State, key: string, e: Local) {
    && e.Filled?
    && (e.overlapped || (e.late && key in s.redis && s.redis[key].payload == e.payload))
    && e.filledAt <= s.now
    && e.expiresAt == Some(e.filledAt as real + FillLifetime(e.pttl, memoryTtl))
  }

  ghost predicate EntryOk(memoryTtl: nat, s: State, p: nat, key: string) {
    (p, key) in s.local ==>
      var e := s.local[(p, key)];
      Covered(s, p, key) || Agrees(s, key, e) || Doomed(memoryTtl, s, key, e)
  }

  /** A read whose key Redis has not rewritten since still holds what Redis stores. */
  predicate ReadOk(s: State, c: Pending) {
    && (c.Looking? ==> c.process in s.seen)
    && (c.GotPayload? || c.GotTtl? ==>
          c.process in s.seen && c.since <= WritesOf(s, c.key)
          && (c.since == WritesOf(s, c.key) ==> c.key in s.redis && s.redis[c.key].payload == c.payload))
    && (c.GotTtl? && c.since == WritesOf(s, c.key) ==>
          var d := s.redis[c.key].deadline;
          && c.pttl >= -2
          && (c.pttl == -1 ==> d == None)
          && (c.pttl >= 0 ==> d == Some(c.ttlAt + c.pttl)))
  }

  ghost predicate Inv(memoryTtl: nat, s: State) {
    && (forall p, key :: EntryOk(memoryTtl, s, p, key))
    && (forall id :: id in s.calls ==> ReadOk(s, s.calls[id]))
    && (forall p :: p in s.seen ==> s.seen[p] <= |s.channel|)
    && (forall p, key :: (p, key) in s.local ==> p in s.seen)
  }

  // ---- every action keeps it --------------------------------------------------------------

  /** A write call stays one until it publishes its key. */
  lemma CallKept(memoryTtl: nat, s: State, a: Action, id: nat)
    requires id in s.calls && IsWrite(s.calls[id])
    ensures var t := Next(memoryTtl, s, a);
            || (id in t.calls && IsWrite(t.calls[id]) && t.calls[id].key == s.calls[id].key)
            || (t.channel == s.channel + [s.calls[id].key] && t.seen == s.seen)
  {
    hide LocalHit, WrittenEntry, Late, FillLifetime, Deadline, RedisValue, RedisTtl, WritesOf, Bump;
  }

  lemma WriteKept(memoryTtl: nat, s: State, a: Action, p: nat, key: string)
    requires WriteInProgress(s, key) && p in s.seen && s.seen[p] <= |s.channel|
    ensures Covered(Next(memoryTtl, s, a), p, key)
  {
    hide Next;
    var t := Next(memoryTtl, s, a);
    var id :| id in s.calls && IsWrite(s.calls[id]) && s.calls[id].key == key;
    CallKept(memoryTtl, s, a, id);
    if t.channel == s.channel + [key] && t.seen == s.seen {
      assert t.channel[t.seen[p]..] == s.channel[s.seen[p]..] + [key];
    }
  }

  lemma InFlightKept(memoryTtl: nat, s: State, a: Action, p: nat, key: string)
    requires InFlight(s, p, key)
    ensures InFlight(Next(memoryTtl, s, a), p, key) || (a == Deliver(p) && (p, key) !in Next(memoryTtl, s, a).local)
  {
    hide LocalHit, WrittenEntry, Late, FillLifetime, Deadline, RedisValue, RedisTtl;
    var t := Next(memoryTtl, s, a);
    if a.Deliver? && a.process == p {
      var rest := s.channel[s.seen[p]..];
      assert rest == [rest[0]] + s.channel[s.seen[p] + 1..];
    } else if a.Publish? && t.channel != s.channel {
      assert t.channel[t.seen[p]..] == s.channel[s.seen[p]..] + [s.calls[a.id].key];
    }
  }

  lemma CoveredKept(memoryTtl: nat, s: State, a: Action, p: nat, key: string)
    requires Covered(s, p, key) && p in s.seen && s.seen[p] <= |s.channel|
    ensures Covered(Next(memoryTtl, s, a), p, key) || (p, key) !in Next(memoryTtl, s, a).local
  {
    hide Next, WriteInProgress, InFlight;
    if WriteInProgress(s, key) {
      WriteKept(memoryTtl, s, a, p, key);
    } else {
      InFlightKept(memoryTtl, s, a, p, key);
    }
  }

  predicate SameValue(s: State, t: State, key: string) {
    && WritesOf(t, key) == WritesOf(s, key)
    && (key in t.redis <==> key in s.redis)
    && (key in s.redis ==> t.redis[key] == s.redis[key])
  }

  predicate Rewrites(s: State, a: Action, key: string) {
    && ((a.SetExec? && a.id in s.calls && s.calls[a.id].Setting?)
        || (a.DeleteExec? && a.id in s.calls && s.calls[a.id].Deleting?))
    && s.calls[a.id].key == key
  }

  lemma OthersSameValue(memoryTtl: nat, s: State, a: Action, key: string)
    requires !Rewrites(s, a, key)
    ensures SameValue(s, Next(memoryTtl, s, a), key)
  {
    hide LocalHit, WrittenEntry, Late, FillLifetime, Deadline, RedisValue, RedisTtl;
  }

  lemma RewriteInProgress(memoryTtl: nat, s: State, a: Action, key: string)
    requires Rewrites(s, a, key)
    ensures var t := Next(memoryTtl, s, a);
            WriteInProgress(t, key) && WritesOf(t, key) == WritesOf(s, key) + 1
  {
    hide LocalHit, WrittenEntry, Late, FillLifetime, Deadline, RedisValue, RedisTtl;
    var t := Next(memoryTtl, s, a);
    assert t.calls[a.id] == Publishing(key);
  }

  /** An action that rewrites a key in Redis leaves a publication to be done. */
  lemma RewriteCovers(memoryTtl: nat, s: State, a: Action, key: string)
    ensures var t := Next(memoryTtl, s, a);
            || SameValue(s, t, key)
            || (WriteInProgress(t, key) && WritesOf(t, key) == WritesOf(s, key) + 1)
  {
    hide Next, SameValue, WriteInProgress, WritesOf;
    if Rewrites(s, a, key) {
      RewriteInProgress(memoryTtl, s, a, key);
    } else {
      OthersSameValue(memoryTtl, s, a, key);
    }
  }

  /** An entry that was not there before is a fresh one. */
  lemma NewEntry(memoryTtl: nat, s: State, a: Action, p: nat, key: string)
    requires Inv(memoryTtl, s)
    requires (p, key) in Next(memoryTtl, s, a).local
    requires (p, key) in s.local ==> Next(memoryTtl, s, a).local[(p, key)] != s.local[(p, key)]
    ensures EntryOk(memoryTtl, Next(memoryTtl, s, a), p, key)
    ensures p in s.seen
  {
    var t := Next(memoryTtl, s, a);
    if a.SetStart? {
      assert t.calls[a.id].key == key;
    } else {
      assert ReadOk(s, s.calls[a.id]);
    }
  }

  lemma EntryKept(memoryTtl: nat, s: State, a: Action, p: nat, key: string)
    requires Inv(memoryTtl, s)
    ensures EntryOk(memoryTtl, Next(memoryTtl, s, a), p, key)
    ensures (p, key) in Next(memoryTtl, s, a).local ==> p in s.seen
  {
    var t := Next(memoryTtl, s, a);
    if (p, key) in t.local {
      if (p, key) in s.local && t.local[(p, key)] == s.local[(p, key)] {
        hide Next;
        assert EntryOk(memoryTtl, s, p, key);
        RewriteCovers(memoryTtl, s, a, key);
        SeenKept(memoryTtl, s, a);
        if Covered(s, p, key) {
          CoveredKept(memoryTtl, s, a, p, key);
        }
      } else {
        NewEntry(memoryTtl, s, a, p, key);
      }
    }
  }

  /** A read that goes on, or begins. */
  lemma ReadMoves(memoryTtl: nat, s: State, a: Action, id: nat)
    requires id in s.calls ==> ReadOk(s, s.calls[id])
    requires id in Next(memoryTtl, s, a).calls
    requires id in s.calls ==> Next(memoryTtl, s, a).calls[id] != s.calls[id]
    ensures ReadOk(Next(memoryTtl, s, a), Next(memoryTtl, s, a).calls[id])
  {
    hide LocalHit, WrittenEntry, Late, FillLifetime, Deadline;
  }

  lemma ReadKept(memoryTtl: nat, s: State, a: Action, id: nat)
    requires forall p :: p in s.seen ==> s.seen[p] <= |s.channel|
    requires id in s.calls ==> ReadOk(s, s.calls[id])
    requires id in Next(memoryTtl, s, a).calls
    ensures ReadOk(Next(memoryTtl, s, a), Next(memoryTtl, s, a).calls[id])
  {
    hide Next;
    var c := Next(memoryTtl, s, a).calls[id];
    if id in s.calls && s.calls[id] == c {
      SeenKept(memoryTtl, s, a);
      RewriteCovers(memoryTtl, s, a, c.key);
    } else {
      hide ReadOk;
      ReadMoves(memoryTtl, s, a, id);
    }
  }

  lemma SeenKept(memoryTtl: nat, s: State, a: Action)
    requires forall p :: p in s.seen ==> s.seen[p] <= |s.channel|
    ensures var t := Next(memoryTtl, s, a);
            && s.now <= t.now && (forall p :: p in t.seen <==> p in s.seen)
            && (forall p :: p in t.seen ==> t.seen[p] <= |t.channel|)
  {
    hide LocalHit, WrittenEntry, Late, FillLifetime, Deadline, RedisValue, RedisTtl, WritesOf, Bump;
  }

  lemma NextInv(memoryTtl: nat, s: State, a: Action)
    requires Inv(memoryTtl, s)
    ensures Inv(memoryTtl, Next(memoryTtl, s, a))
  {
    hide Next, EntryOk, ReadOk;
    var t := Next(memoryTtl, s, a);
    SeenKept(memoryTtl, s, a);
    forall p, key
      ensures EntryOk(memoryTtl, t, p, key) && ((p, key) in t.local ==> p in t.seen)
    {
      EntryKept(memoryTtl, s, a, p, key);
    }
    forall id | id in t.calls
      ensures ReadOk(t, t.calls[id])
    {
      ReadKept(memoryTtl, s, a, id);
    }
  }

  lemma {:induction false} RunInv(memoryTtl: nat, s: State, actions: seq<Action>)
    requires Inv(memoryTtl, s)
    ensures Inv(memoryTtl, Run(memoryTtl, s, actions))
  {
    hide Inv, Next;
    if actions != [] {
      var n := |actions| - 1;
      RunInv(memoryTtl, s, actions[..n]);
      NextInv(memoryTtl, Run(memoryTtl, s, actions[..n]), actions[n]);
    }
  }

  // ---- coherence -------------------------------------------------------------------------

  /** In every interleaving, whatever a process answers from memory is what Redis holds, or a
      write of the key is in progress, or its invalidation is on its way to the process, or the
      answer comes from a read that overlapped a write, or from a slow one whose value has since
      expired in Redis.  In the last two cases it dies within the lifetime given at the fill. */
  lemma Coherence(memoryTtl: nat, processes: set<nat>, redis: map<string, Stored>, start: int,
                  actions: seq<Action>, p: nat, key: string)
    ensures var s := Run(memoryTtl, Initial(processes, redis, start), actions);
            LocalHit(s, p, key).Some? ==>
              || LocalHit(s, p, key) == RedisValue(s, key)
              || WriteInProgress(s, key)
              || InFlight(s, p, key)
              || StaleButMortal(memoryTtl, s, key, s.local[(p, key)])
  {
    hide Run, Next, WriteInProgress, InFlight;
    var s := Run(memoryTtl, Initial(processes, redis, start), actions);
    RunInv(memoryTtl, Initial(processes, redis, start), actions);
    assert EntryOk(memoryTtl, s, p, key);
  }

  predicate StaleButMortal(memoryTtl: nat, s: State, key: string, e: Local) {
    && e.Filled? && (e.overlapped || (e.late && RedisValue(s, key).None?))
    && e.filledAt <= s.now
    && e.expiresAt == Some(e.filledAt as real + if e.pttl > 0 then e.pttl as real * 0.8 else memoryTtl as real)
  }

  ghost predicate Quiet(s: State) {
    s.calls == map[] && forall p :: p in s.seen ==> s.seen[p] == |s.channel|
  }

  /** The fill, if it is one, comes from a read during which Redis rewrote the key at no time, and
      which found it with a time to live and fills so soon that the entry does not outlive it, or
      without one. */
  predicate CleanFill(memoryTtl: nat, s: State, a: Action) {
    a.Fill? && a.id in s.calls && s.calls[a.id].GotTtl? ==>
      var c := s.calls[a.id];
      var life := if c.pttl > 0 then c.pttl as real * 0.8 else memoryTtl as real;
      && WritesOf(s, c.key) == c.since
      && c.pttl != -2
      && (c.pttl >= 0 ==> s.now as real + life <= (c.ttlAt + c.pttl) as real)
  }

  predicate AllClean(memoryTtl: nat, s: State, actions: seq<Action>) {
    actions == []
    || (AllClean(memoryTtl, s, actions[..|actions| - 1])
        && CleanFill(memoryTtl, Run(memoryTtl, s, actions[..|actions| - 1]), actions[|actions| - 1]))
  }

  ghost predicate CleanEntries(s: State) {
    forall k :: k in s.local && s.local[k].Filled? ==> !s.local[k].overlapped && !s.local[k].late
  }

  lemma NextClean(memoryTtl: nat, s: State, a: Action)
    requires CleanEntries(s) && CleanFill(memoryTtl, s, a)
    ensures CleanEntries(Next(memoryTtl, s, a))
  {
    hide WritesOf, RedisValue, RedisTtl, LocalHit;
  }

  lemma {:induction false} RunClean(memoryTtl: nat, s: State, actions: seq<Action>)
    requires CleanEntries(s) && AllClean(memoryTtl, s, actions)
    ensures CleanEntries(Run(memoryTtl, s, actions))
  {
    hide Next, CleanEntries, CleanFill;
    if actions != [] {
      var n := |actions| - 1;
      RunClean(memoryTtl, s, actions[..n]);
      NextClean(memoryTtl, Run(memoryTtl, s, actions[..n]), actions[n]);
    }
  }

  /** If all fills of a run are clean, then whenever no call is in progress and no message on its
      way, whatever any process answers from memory is what Redis holds. */
  lemma QuietAgrees(memoryTtl: nat, processes: set<nat>, redis: map<string, Stored>, start: int,
                    actions: seq<Action>, p: nat, key: string)
    requires AllClean(memoryTtl, Initial(processes, redis, start), actions)
    ensures var s := Run(memoryTtl, Initial(processes, redis, start), actions);
            Quiet(s) && LocalHit(s, p, key).Some? ==> LocalHit(s, p, key) == RedisValue(s, key)
  {
    hide Run, AllClean;
    Coherence(memoryTtl, processes, redis, start, actions, p, key);
    RunClean(memoryTtl, Initial(processes, redis, start), actions);
  }

  // ---- the exceptions are needed -----------------------------------------------------------

  lemma Extend(memoryTtl: nat, start: State, actions: seq<Action>, s: State, a: Action)
    returns (longer: seq<Action>, t: State)
    requires Run(memoryTtl, start, actions) == s
    ensures longer == actions + [a] && t == Next(memoryTtl, s, a) && Run(memoryTtl, start, longer) == t
  {
    longer, t := actions + [a], Next(memoryTtl, s, a);
    assert longer[..|actions|] == actions;
  }

  lemma RunNothing(memoryTtl: nat, s: State)
    ensures Run(memoryTtl, s, []) == s
  {
  }

  /** What a delete by process p leaves, once p has handled its invalidation. */
  function Deleted(s: State, p: nat, key: string): State
    requires p in s.seen
  {
    s.(local := s.local - {(p, key)}, redis := s.redis - {key}, writes := Bump(s, key),
       channel := s.channel + [key], seen := s.seen[p := s.seen[p] + 1])
  }

  lemma DeleteSteps(memoryTtl: nat, s: State, x: nat, p: nat, key: string)
    requires x !in s.calls && p in s.seen && s.seen[p] == |s.channel|
    ensures var t := Next(memoryTtl, Next(memoryTtl, s, DeleteStart(x, p, key)), DeleteExec(x));
            Next(memoryTtl, Next(memoryTtl, t, Publish(x)), Deliver(p)) == Deleted(s, p, key)
  {
    hide LocalHit, WritesOf;
    var t := Next(memoryTtl, Next(memoryTtl, s, DeleteStart(x, p, key)), DeleteExec(x));
    DeleteReaches(memoryTtl, s, x, p, key);
    var u := Next(memoryTtl, t, Publish(x));
    assert s.calls[x := Publishing(key)] - {x} == s.calls;
    assert u.channel[u.seen[p]] == key;
    assert s.local - {(p, key)} - {(p, key)} == s.local - {(p, key)};
  }

  lemma DeleteReaches(memoryTtl: nat, s: State, x: nat, p: nat, key: string)
    requires x !in s.calls && p in s.seen
    ensures Next(memoryTtl, Next(memoryTtl, s, DeleteStart(x, p, key)), DeleteExec(x)) ==
            s.(local := s.local - {(p, key)}, redis := s.redis - {key}, writes := Bump(s, key),
               calls := s.calls[x := Publishing(key)])
  {
    assert s.calls[x := Deleting(key)][x := Publishing(key)] == s.calls[x := Publishing(key)];
  }

  /** A read that ends after its key has gone caches what it saw before. */
  lemma FillAfterDelete(memoryTtl: nat, s: State, id: nat)
    requires id in s.calls && s.calls[id].GotPayload? && s.calls[id].key !in s.redis && memoryTtl > 0
    ensures var c := s.calls[id];
            var t := Next(memoryTtl, Next(memoryTtl, s, GetTtl(id)), Fill(id));
            LocalHit(t, c.process, c.key) == Some(c.payload) && t.calls == s.calls - {id} && t.redis == s.redis
            && t.seen == s.seen && t.channel == s.channel && t.now == s.now
  {
    hide Late, WritesOf;
  }

  /** The exception for overlapped reads is needed: from every state with a read past its first
      answer, a delete that runs to its end, its invalidation handled, leaves the process answering
      the deleted value. */
  lemma OverlapGoesStale(memoryTtl: nat, s: State, id: nat, x: nat)
    requires memoryTtl > 0 && id in s.calls && s.calls[id].GotPayload? && x !in s.calls
    requires var p := s.calls[id].process; p in s.seen && s.seen[p] == |s.channel|
    ensures var c := s.calls[id];
            var t := Run(memoryTtl, s, [DeleteStart(x, c.process, c.key), DeleteExec(x), Publish(x),
                                        Deliver(c.process), GetTtl(id), Fill(id)]);
            && LocalHit(t, c.process, c.key) == Some(c.payload) && RedisValue(t, c.key) == None
            && t.calls == s.calls - {id} && c.process in t.seen && t.seen[c.process] == |t.channel|
  {
    hide Run, LocalHit, Next;
    var c, t, actions := s.calls[id], s, [];
    RunNothing(memoryTtl, s);
    DeleteSteps(memoryTtl, s, x, c.process, c.key);
    actions, t := Extend(memoryTtl, s, actions, t, DeleteStart(x, c.process, c.key));
    actions, t := Extend(memoryTtl, s, actions, t, DeleteExec(x));
    actions, t := Extend(memoryTtl, s, actions, t, Publish(x));
    actions, t := Extend(memoryTtl, s, actions, t, Deliver(c.process));
    FillAfterDelete(memoryTtl, t, id);
    actions, t := Extend(memoryTtl, s, actions, t, GetTtl(id));
    actions, t := Extend(memoryTtl, s, actions, t, Fill(id));
    assert actions == [DeleteStart(x, c.process, c.key), DeleteExec(x), Publish(x),
                       Deliver(c.process), GetTtl(id), Fill(id)];
  }

  /** Such a read can be under way in every state in which Redis has the key and the process does
      not answer it from memory. */
  lemma ReadStarts(memoryTtl: nat, s: State, id: nat, p: nat, key: string)
    requires p in s.seen && id !in s.calls && LocalHit(s, p, key).None? && RedisValue(s, key).Some?
    ensures var t := Next(memoryTtl, Next(memoryTtl, s, GetStart(id, p, key)), GetPayload(id));
            && id in t.calls && t.calls[id] == GotPayload(p, key, RedisValue(s, key).value, WritesOf(s, key))
            && t.redis == s.redis && t.seen == s.seen && t.channel == s.channel && t.now == s.now
  {
  }

  lemma WaitForDeadline(memoryTtl: nat, s: State, id: nat, d: int)
    requires id in s.calls && s.calls[id].GotPayload? && s.now + 2 <= d
    requires var c := s.calls[id]; c.key in s.redis && s.redis[c.key] == Stored(c.payload, Some(d))
    ensures var c := s.calls[id];
            Next(memoryTtl, Next(memoryTtl, s, GetTtl(id)), Tick(d - s.now)) ==
            s.(now := d, calls := s.calls[id := GotTtl(c.process, c.key, c.payload, c.since, d - s.now, s.now)])
  {
  }

  lemma FillAtDeadline(memoryTtl: nat, t: State, id: nat, pttl: int)
    requires id in t.calls && t.calls[id].GotTtl? && t.calls[id].pttl == pttl >= 2
    ensures var c := t.calls[id];
            var u := Next(memoryTtl, Next(memoryTtl, t, Fill(id)), Tick(1));
            && LocalHit(u, c.process, c.key) == Some(c.payload) && u.now == t.now + 1 && u.redis == t.redis
            && u.calls == t.calls - {id} && u.writes == t.writes && u.seen == t.seen && u.channel == t.channel
  {
    hide Late, WritesOf, RedisValue, RedisTtl;
  }

  /** So is the one for slow reads: from every state with a read past its first answer of a value
      with at least two milliseconds to live, without any write, the process can come to answer
      the value after its expiry in Redis. */
  lemma SlowReadGoesStale(memoryTtl: nat, s: State, id: nat, d: int)
    requires id in s.calls && s.calls[id].GotPayload? && s.now + 2 <= d
    requires var c := s.calls[id]; c.key in s.redis && s.redis[c.key] == Stored(c.payload, Some(d))
    ensures var c := s.calls[id];
            var t := Run(memoryTtl, s, [GetTtl(id), Tick(d - s.now), Fill(id), Tick(1)]);
            && LocalHit(t, c.process, c.key) == Some(c.payload) && RedisValue(t, c.key) == None
            && t.calls == s.calls - {id} && t.writes == s.writes && t.seen == s.seen && t.channel == s.channel
  {
    hide Run, LocalHit, Next;
    var c, t, actions := s.calls[id], s, [];
    RunNothing(memoryTtl, s);
    WaitForDeadline(memoryTtl, s, id, d);
    actions, t := Extend(memoryTtl, s, actions, t, GetTtl(id));
    actions, t := Extend(memoryTtl, s, actions, t, Tick(d - s.now));
    assert t.calls - {id} == s.calls - {id};
    FillAtDeadline(memoryTtl, t, id, d - s.now);
    actions, t := Extend(memoryTtl, s, actions, t, Fill(id));
    actions, t := Extend(memoryTtl, s, actions, t, Tick(1));
    assert actions == [GetTtl(id), Tick(d - s.now), Fill(id), Tick(1)];
  }

  // ---- what the steps do ---------------------------------------------------------------------

  /** A process answers what it has set at once, until the time to live is over. */
  lemma SetAnswers(memoryTtl: nat, s: State, id: nat, p: nat, key: string, payload: string, ttl: Option<int>, m: nat)
    requires p in s.seen && id !in s.calls
    ensures var t := Next(memoryTtl, Next(memoryTtl, s, SetStart(id, p, key, payload, ttl)), Tick(m));
            LocalHit(t, p, key) ==
            if ttl.Some? && ttl.value > 0 && m >= 1000 * ttl.value then None else Some(payload)
  {
  }

  /** Redis answers it once the command is executed, until the time to live is over. */
  lemma SetStores(memoryTtl: nat, s: State, id: nat, m: nat)
    requires id in s.calls && s.calls[id].Setting?
    ensures var c := s.calls[id];
            var t := Next(memoryTtl, Next(memoryTtl, s, SetExec(id)), Tick(m));
            RedisValue(t, c.key) ==
            if c.ttl.Some? && c.ttl.value > 0 && m > 1000 * c.ttl.value then None else Some(c.payload)
  {
  }

  /** A process that deletes a key forgets it at once, Redis with the command. */
  lemma DeleteForgets(memoryTtl: nat, s: State, id: nat, p: nat, key: string)
    requires p in s.seen && id !in s.calls
    ensures var t := Next(memoryTtl, s, DeleteStart(id, p, key));
            LocalHit(t, p, key) == None && RedisValue(Next(memoryTtl, t, DeleteExec(id)), key) == None
  {
  }

  /** An invalidation makes a process forget its key, and nothing else. */
  lemma DeliverForgets(memoryTtl: nat, s: State, p: nat, q: nat, key: string)
    requires p in s.seen && s.seen[p] < |s.channel|
    ensures var t := Next(memoryTtl, s, Deliver(p));
            LocalHit(t, q, key) ==
            if q == p && key == s.channel[s.seen[p]] then None else LocalHit(s, q, key)
  {
  }

  /** What a read fills in is answered for 0.8 of the time to live that Redis reported, or for the
      memory default if it reported none. */
  lemma FillAnswers(memoryTtl: nat, s: State, id: nat, m: nat)
    requires id in s.calls && s.calls[id].GotTtl?
    ensures var c := s.calls[id];
            var t := Next(memoryTtl, Next(memoryTtl, s, Fill(id)), Tick(m));
            LocalHit(t, c.process, c.key) ==
            if (m as real) < (if c.pttl > 0 then c.pttl as real * 0.8 else memoryTtl as real)
            then Some(c.payload) else None
  {
    hide Late, WritesOf, RedisValue, RedisTtl;
  }

  /** A read that finds nothing in memory forgets what it held there, also if it had expired. */
  lemma MissForgets(memoryTtl: nat, s: State, id: nat, p: nat, key: string)
    requires p in s.seen && id !in s.calls && LocalHit(s, p, key) == None
    ensures var t := Next(memoryTtl, s, GetStart(id, p, key));
            && (p, key) !in t.local && id in t.calls && t.calls[id] == Looking(p, key)
            && (forall q: nat, other :: (q, other) != (p, key) ==> LocalHit(t, q, other) == LocalHit(s, q, other))
            && RedisValue(t, key) == RedisValue(s, key)
  {
  }

  /** A read from Redis that nothing interrupts is answered from memory afterwards, if Redis has
      the key, and leaves nothing behind if it has not. */
  lemma ReadFills(memoryTtl: nat, s: State, id: nat, p: nat, key: string)
    requires memoryTtl > 0 && id in s.calls && s.calls[id] == Looking(p, key) && (p, key) !in s.local
    ensures var t := Next(memoryTtl, s, GetPayload(id));
            RedisValue(s, key) == None ==> id !in t.calls && LocalHit(t, p, key) == None
    ensures var t := Next(memoryTtl, Next(memoryTtl, Next(memoryTtl, s, GetPayload(id)), GetTtl(id)), Fill(id));
            RedisValue(s, key).Some? ==>
              && id !in t.calls && LocalHit(t, p, key) == RedisValue(s, key)
              && t.local[(p, key)].Filled? && !t.local[(p, key)].overlapped
  {
    hide RedisTtl, Late;
  }

  /** What `pTTL` answers: the milliseconds left, -1 without a deadline, -2 without the key. */
  lemma TtlAnswer(s: State, key: string)
    ensures RedisTtl(s, key) == -2 <==> RedisValue(s, key).None?
    ensures RedisTtl(s, key) == -1 <==> RedisValue(s, key).Some? && s.redis[key].deadline.None?
    ensures RedisTtl(s, key) >= 0 ==> s.redis[key].deadline == Some(s.now + RedisTtl(s, key))
  {
  }
}
