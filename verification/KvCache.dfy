/** The read cache over KV, as interleaved steps of callers, fetches and other writers. */
module KvCache {
  import opened Results

  datatype Entry = Entry(value: Option<string>, expiresAt: int)

  /** A fetch: the KV read goes out, returns a value or rejects, its value is stored, and it leaves the list. */
  datatype Stage = Reading | Read(value: Option<string>) | Stored | Rejected

  /** `since` is the number of steps that were taken when the fetch started. */
  datatype Fetch = Fetch(key: string, ttl: int, stage: Stage, since: nat)

  datatype Cache = Cache(store: map<string, Entry>, inflight: map<string, nat>, running: map<nat, Fetch>,
                         kv: map<string, string>, steps: nat)

  datatype Event =
    | Get(key: string, ttl: int)
    | Answer(id: nat)
    | Reject(id: nat)
    | Arrive(id: nat)
    | Finish(id: nat)
    | Set(key: string, value: Option<string>, ttl: int)
    | Invalidate(which: Option<string>)
    | Write(key: string, value: Option<string>)

  function Content(kv: map<string, string>, key: string): Option<string> {
    if key in kv then Some(kv[key]) else None
  }

  /** An entry that a caller may be given at time `now`. */
  predicate Fresh(c: Cache, key: string, now: int) {
    key in c.store && c.store[key].expiresAt > now
  }

  function Staged(c: Cache, id: nat, stage: Stage): Cache
    requires id in c.running
  {
    c.(running := c.running[id := c.running[id].(stage := stage)])
  }

  /** `get`: an entry, or a fetch to wait for, started only if none runs for the key. */
  function Got(c: Cache, key: string, ttl: int, now: int): Cache {
    if Fresh(c, key, now) || key in c.inflight then c
    else c.(running := c.running[c.steps := Fetch(key, ttl, Reading, c.steps)], inflight := c.inflight[key := c.steps])
  }

  function Step(c: Cache, e: Event, now: int): Cache {
    match e
    case Get(key, ttl) => Got(c, key, ttl, now)
    case Answer(id) =>
      if id in c.running && c.running[id].stage.Reading? then Staged(c, id, Read(Content(c.kv, c.running[id].key)))
      else c
    case Reject(id) => if id in c.running && c.running[id].stage.Reading? then Staged(c, id, Rejected) else c
    case Arrive(id) =>
      if id in c.running && c.running[id].stage.Read? then
        var f := c.running[id];
        Staged(c, id, Stored).(store := c.store[f.key := Entry(f.stage.value, now + f.ttl)])
      else c
    case Finish(id) =>
      if id in c.running && (c.running[id].stage.Stored? || c.running[id].stage.Rejected?)
      then c.(running := c.running - {id}, inflight := c.inflight - {c.running[id].key})
      else c
    case Set(key, value, ttl) => c.(store := c.store[key := Entry(value, now + ttl)])
    case Invalidate(key) =>
      c.(store := if key.Some? && key.value != "" then c.store - {key.value} else map[])
    case Write(key, value) => c.(kv := if value.Some? then c.kv[key := value.value] else c.kv - {key})
  }

  function Next(c: Cache, e: Event, now: int): Cache {
    Step(c, e, now).(steps := c.steps + 1)
  }

  /** `inflight` lists exactly the running fetches, one for a key. */
  ghost predicate Coalesced(c: Cache) {
    && (forall id <- c.running ::
          id < c.steps && c.running[id].key in c.inflight && c.inflight[c.running[id].key] == id)
    && (forall key <- c.inflight :: c.inflight[key] in c.running && c.running[c.inflight[key]].key == key)
  }

  lemma StepCoalesces(c: Cache, e: Event, now: int)
    requires Coalesced(c)
    ensures Coalesced(Next(c, e, now))
  {
    match e
    case Get(key, ttl) => GetCoalesces(c, key, ttl, now);
    case Finish(id) => FinishCoalesces(c, id, now);
    case _ =>
  }

  lemma GetCoalesces(c: Cache, key: string, ttl: int, now: int)
    requires Coalesced(c)
    ensures Coalesced(Next(c, Get(key, ttl), now))
  {
  }

  lemma FinishCoalesces(c: Cache, id: nat, now: int)
    requires Coalesced(c)
    ensures Coalesced(Next(c, Finish(id), now))
  {
  }

  /** At any time at most one KV read is outstanding for a key. */
  lemma OneReadPerKey(c: Cache, id1: nat, id2: nat)
    requires Coalesced(c) && id1 in c.running && id2 in c.running && c.running[id1].key == c.running[id2].key
    ensures id1 == id2
  {
  }

  datatype Reply = Hit(value: Option<string>) | Wait(id: nat)

  class Module {
    var store: map<string, Entry>
    var inflight: map<string, nat>
    /** The promises that `inflight` holds, and what has become of them. */
    var running: map<nat, Fetch>
    var kv: map<string, string>
    var steps: nat

    ghost function State(): Cache
      reads this
    {
      Cache(store, inflight, running, kv, steps)
    }

    constructor (kv: map<string, string>)
      ensures State() == Cache(map[], map[], map[], kv, 0) && Coalesced(State())
    {
      store, inflight, running, this.kv, steps := map[], map[], map[], kv, 0;
    }

    method GetKvTextCached(key: string, ttl: int, now: int) returns (r: Reply)
      requires Coalesced(State())
      modifies this
      ensures State() == Next(old(State()), Get(key, ttl), now) && Coalesced(State())
      ensures r.Hit? <==> key in old(store) && now < old(store)[key].expiresAt
      ensures r.Hit? ==> r.value == old(store)[key].value
      ensures r.Wait? ==> r.id in running && running[r.id].key == key
      ensures r.Wait? && key in old(inflight) ==> r.id == old(inflight)[key] && running == old(running)
    {
      StepCoalesces(State(), Get(key, ttl), now);
      steps := steps + 1;
      if key in store && store[key].expiresAt > now {
        return Hit(store[key].value);
      }
      if key !in inflight {
        running := running[steps - 1 := Fetch(key, ttl, Reading, steps - 1)];
        inflight := inflight[key := steps - 1];
      }
      r := Wait(inflight[key]);
    }

    /** The `then` callback of a fetch. */
    method ThenStore(id: nat, now: int)
      requires Coalesced(State()) && id in running && running[id].stage.Read?
      modifies this
      ensures State() == Next(old(State()), Arrive(id), now) && Coalesced(State())
    {
      StepCoalesces(State(), Arrive(id), now);
      var f := running[id];
      store := store[f.key := Entry(f.stage.value, now + f.ttl)];
      running := running[id := f.(stage := Stored)];
      steps := steps + 1;
    }

    /** The `finally` callback of a fetch. */
    method FinallyForget(id: nat, now: int)
      requires Coalesced(State()) && id in running && (running[id].stage.Stored? || running[id].stage.Rejected?)
      modifies this
      ensures State() == Next(old(State()), Finish(id), now) && Coalesced(State())
    {
      StepCoalesces(State(), Finish(id), now);
      inflight := inflight - {running[id].key};
      running := running - {id};
      steps := steps + 1;
    }

    method SetKvTextCached(key: string, value: Option<string>, ttl: int, now: int)
      requires Coalesced(State())
      modifies this
      ensures State() == Next(old(State()), Set(key, value, ttl), now) && Coalesced(State())
    {
      StepCoalesces(State(), Set(key, value, ttl), now);
      store := store[key := Entry(value, now + ttl)];
      steps := steps + 1;
    }

    method InvalidateKvCache(key: Option<string>, now: int)
      requires Coalesced(State())
      modifies this
      ensures State() == Next(old(State()), Invalidate(key), now) && Coalesced(State())
    {
      StepCoalesces(State(), Invalidate(key), now);
      steps := steps + 1;
      if key.Some? && key.value != "" {
        store := store - {key.value};
        return;
      }
      store := map[];
    }
  }

  // Runs

  datatype Timed = Timed(event: Event, now: int)

  function After(c: Cache, events: seq<Timed>): Cache
    decreases |events|
  {
    if events == [] then c
    else Next(After(c, events[..|events| - 1]), events[|events| - 1].event, events[|events| - 1].now)
  }

  predicate Ordered(events: seq<Timed>, t: int) {
    forall j | 0 <= j < |events| :: t <= events[j].now && forall k | j < k < |events| :: events[j].now <= events[k].now
  }

  const EMPTY := Cache(map[], map[], map[], map[], 0)

  lemma {:induction false} RunsCoalesce(c: Cache, events: seq<Timed>)
    requires Coalesced(c)
    ensures Coalesced(After(c, events)) && After(c, events).steps == c.steps + |events|
    decreases |events|
  {
    if events != [] {
      var last := |events| - 1;
      RunsCoalesce(c, events[..last]);
      StepCoalesces(After(c, events[..last]), events[last].event, events[last].now);
    }
  }

  /** The content of KV under `key` after `k` steps of a run that starts empty. */
  function ContentAt(kv: map<string, string>, events: seq<Timed>, k: nat, key: string): Option<string>
    requires k <= |events|
  {
    Content(After(EMPTY.(kv := kv), events[..k]).kv, key)
  }

  /** Some content of KV between the start of the fetch and step `n`. */
  ghost predicate WasContent(kv: map<string, string>, events: seq<Timed>, f: Fetch, n: nat, value: Option<string>)
    requires n <= |events|
  {
    exists k: nat | f.since <= k <= n :: ContentAt(kv, events, k, f.key) == value
  }

  /** What one step does to a running fetch: nothing, start it, read KV for it, or mark it. */
  lemma StepOfFetch(c: Cache, e: Event, now: int, id: nat)
    requires id in Next(c, e, now).running
    ensures var f := Next(c, e, now).running[id];
            if id !in c.running || c.running[id].key != f.key then f.since == c.steps && f.stage.Reading?
            else f.since == c.running[id].since || (f.since == c.steps && f.stage.Reading?)
    ensures var f := Next(c, e, now).running[id];
            f.stage.Read? ==> id in c.running && c.running[id].key == f.key && c.running[id].since == f.since
                              && (f == c.running[id] || f.stage.value == Content(c.kv, f.key))
  {
  }

  lemma {:induction false} StartsBefore(c: Cache, events: seq<Timed>, id: nat)
    requires c.running == map[] && id in After(c, events).running
    ensures After(c, events).running[id].since < c.steps + |events|
    decreases |events|
  {
    if events != [] {
      var last := |events| - 1;
      var before := After(c, events[..last]);
      StepsCount(c, events[..last]);
      StepOfFetch(before, events[last].event, events[last].now, id);
      if id in before.running {
        StartsBefore(c, events[..last], id);
      }
    }
  }

  lemma {:induction false} StepsCount(c: Cache, events: seq<Timed>)
    ensures After(c, events).steps == c.steps + |events|
    decreases |events|
  {
    if events != [] {
      StepsCount(c, events[..|events| - 1]);
    }
  }

  lemma AfterMore(c: Cache, events: seq<Timed>, n: nat)
    requires n < |events|
    ensures After(c, events[..n + 1]) == Next(After(c, events[..n]), events[n].event, events[n].now)
  {
    assert events[..n + 1][..n] == events[..n];
  }

  /** Every value a fetch has read was the content of KV at a time since the fetch started. */
  lemma {:induction false} ReadsAreRecent(kv: map<string, string>, events: seq<Timed>, n: nat, id: nat)
    requires n <= |events|
    requires var c := After(EMPTY.(kv := kv), events[..n]); id in c.running && c.running[id].stage.Read?
    ensures var f := After(EMPTY.(kv := kv), events[..n]).running[id]; WasContent(kv, events, f, n, f.stage.value)
    decreases n, 0
  {
    var c0 := EMPTY.(kv := kv);
    if n > 0 {
      AfterMore(c0, events, n - 1);
      ReadIsRecent(kv, events, n - 1, id, After(c0, events[..n - 1]), After(c0, events[..n]).running[id]);
    }
  }

  lemma {:induction false} ReadIsRecent(kv: map<string, string>, events: seq<Timed>, n: nat, id: nat, before: Cache,
                                        f: Fetch)
    requires n < |events| && before == After(EMPTY.(kv := kv), events[..n])
    requires var after := Next(before, events[n].event, events[n].now); id in after.running && after.running[id] == f
    requires f.stage.Read?
    ensures WasContent(kv, events, f, n + 1, f.stage.value)
    decreases n, 1
  {
    StepOfFetch(before, events[n].event, events[n].now, id);
    if f == before.running[id] {
      ReadsAreRecent(kv, events, n, id);
      var k: nat :| f.since <= k <= n && ContentAt(kv, events, k, f.key) == f.stage.value;
      assert ContentAt(kv, events, k, f.key) == f.stage.value;
    } else {
      StartsBefore(EMPTY.(kv := kv), events[..n], id);
      assert ContentAt(kv, events, n, f.key) == Content(before.kv, f.key);
    }
  }

  /** Step `n` stored the entry: a value that was set, or one that a fetch read while KV held it. */
  ghost predicate StoredBy(kv: map<string, string>, events: seq<Timed>, n: nat, key: string, entry: Entry)
    requires n < |events|
  {
    var c := After(EMPTY.(kv := kv), events[..n]);
    match events[n].event
    case Set(k, value, ttl) => k == key && entry == Entry(value, events[n].now + ttl)
    case Arrive(id) =>
      && id in c.running && c.running[id].key == key && c.running[id].stage == Read(entry.value)
      && entry.expiresAt == events[n].now + c.running[id].ttl && WasContent(kv, events, c.running[id], n, entry.value)
    case _ => false
  }

  /** Every entry of the cache was set, or was the content of KV at a time during the fetch that stored it. */
  lemma {:induction false} EntriesAreReal(kv: map<string, string>, events: seq<Timed>, n: nat, key: string)
    requires n <= |events| && key in After(EMPTY.(kv := kv), events[..n]).store
    ensures exists j: nat | j < n :: StoredBy(kv, events, j, key, After(EMPTY.(kv := kv), events[..n]).store[key])
  {
    var c0 := EMPTY.(kv := kv);
    if n > 0 {
      var before, after := After(c0, events[..n - 1]), After(c0, events[..n]);
      AfterMore(c0, events, n - 1);
      if key in before.store && before.store[key] == after.store[key] {
        EntriesAreReal(kv, events, n - 1, key);
      } else {
        if events[n - 1].event.Arrive? {
          ReadsAreRecent(kv, events, n - 1, events[n - 1].event.id);
        }
        assert StoredBy(kv, events, n - 1, key, after.store[key]);
      }
    }
  }

  // Whether a value that was set stays

  /** The cache answers `value` for the key at time `now`. */
  predicate Serves(c: Cache, key: string, value: Option<string>, now: int) {
    Fresh(c, key, now) && c.store[key].value == value
  }

  /** No step sets or invalidates the key again. */
  predicate LeavesAlone(e: Event, key: string) {
    match e
    case Set(k, _, _) => k != key
    case Invalidate(which) => which.Some? && which.value != "" && which.value != key
    case _ => true
  }

  /** A fetch that can no longer store anything, or that stores the same value for at least as long. */
  predicate HarmlessFetch(f: Fetch, key: string, value: Option<string>, ttl: int) {
    f.key == key ==> f.stage.Stored? || f.stage.Rejected? || (f.stage == Read(value) && f.ttl >= ttl)
  }

  ghost predicate Harmless(c: Cache, key: string, value: Option<string>, ttl: int) {
    forall id <- c.running :: HarmlessFetch(c.running[id], key, value, ttl)
  }

  /** Steps and a final time within the life of a value set at `start`. */
  predicate During(events: seq<Timed>, key: string, start: int, ttl: int, now: int) {
    Ordered(events, start) && start <= now < start + ttl
    && forall e <- events :: e.now <= now && LeavesAlone(e.event, key)
  }

  ghost predicate Holds(c: Cache, key: string, value: Option<string>, ttl: int, start: int) {
    && key in c.store && c.store[key].value == value && c.store[key].expiresAt >= start + ttl
    && Harmless(c, key, value, ttl)
  }

  lemma StepHolds(c: Cache, e: Event, now: int, key: string, value: Option<string>, ttl: int, start: int)
    requires Holds(c, key, value, ttl, start) && LeavesAlone(e, key) && start <= now < start + ttl
    ensures Holds(Next(c, e, now), key, value, ttl, start)
  {
    var after := Next(c, e, now);
    forall id | id in after.running ensures HarmlessFetch(after.running[id], key, value, ttl) {
      if id in c.running {
        assert HarmlessFetch(c.running[id], key, value, ttl);
      }
    }
    if e.Arrive? && e.id in c.running {
      assert HarmlessFetch(c.running[e.id], key, value, ttl);
    }
  }

  lemma {:induction false} RunHolds(c: Cache, events: seq<Timed>, key: string, value: Option<string>, ttl: int,
                                    start: int, now: int)
    requires Holds(c, key, value, ttl, start) && During(events, key, start, ttl, now)
    ensures Holds(After(c, events), key, value, ttl, start)
    decreases |events|
  {
    if events != [] {
      var last := |events| - 1;
      assert events[last] in events;
      RunHolds(c, events[..last], key, value, ttl, start, now);
      StepHolds(After(c, events[..last]), events[last].event, events[last].now, key, value, ttl, start);
    }
  }

  predicate ServesAfter(c: Cache, events: seq<Timed>, key: string, value: Option<string>, now: int) {
    Serves(After(c, events), key, value, now)
  }

  lemma {:induction false} FetchOverwrites(c: Cache, id: nat, key: string, value: Option<string>, ttl: int, start: int)
    returns (events: seq<Timed>, now: int)
    requires id in c.running && !HarmlessFetch(c.running[id], key, value, ttl) && ttl > 0
    ensures During(events, key, start, ttl, now)
    ensures !ServesAfter(Next(c, Set(key, value, ttl), start), events, key, value, now)
  {
    var c1, f := Next(c, Set(key, value, ttl), start), c.running[id];
    var arrive := Timed(Arrive(id), start);
    if f.stage.Read? {
      events, now := [arrive], if f.ttl > 0 && f.stage.value == value then start + f.ttl else start;
      assert events[..0] == [];
      assert After(c1, []) == c1;
    } else {
      var other := if value.None? then Some("") else None;
      var write, answer := Timed(Write(key, other), start), Timed(Answer(id), start);
      events, now := [write, answer, arrive], start;
      assert events[..2] == [write, answer] && [write, answer][..1] == [write] && [write][..0] == [];
      var c2 := Next(c1, write.event, start);
      var c3 := Next(c2, answer.event, start);
      assert After(c1, []) == c1 && After(c1, [write]) == c2 && After(c1, [write, answer]) == c3;
      assert c3.running[id].stage == Read(other);
    }
  }

  /** A value that is set stays until it expires, in every continuation, exactly if no fetch of the key is under way
      that could still store something else or something shorter-lived. */
  lemma {:induction false} SetStaysIff(c: Cache, key: string, value: Option<string>, ttl: int, start: int)
    requires ttl > 0
    ensures (forall events, now | During(events, key, start, ttl, now) ::
               ServesAfter(Next(c, Set(key, value, ttl), start), events, key, value, now))
            <==> Harmless(c, key, value, ttl)
  {
    var c1 := Next(c, Set(key, value, ttl), start);
    if Harmless(c, key, value, ttl) {
      assert Holds(c1, key, value, ttl, start);
      forall events, now | During(events, key, start, ttl, now) ensures ServesAfter(c1, events, key, value, now) {
        RunHolds(c1, events, key, value, ttl, start, now);
      }
    } else {
      var id :| id in c.running && !HarmlessFetch(c.running[id], key, value, ttl);
      var events, now := FetchOverwrites(c, id, key, value, ttl, start);
      assert During(events, key, start, ttl, now) && !ServesAfter(c1, events, key, value, now);
    }
  }

  // The life of an entry

  /** What a caller gets at time `now` without waiting. */
  function Hit(c: Cache, key: string, now: int): Option<Option<string>> {
    if key in c.store && now < c.store[key].expiresAt then Some(c.store[key].value) else None
  }

  /** A value that is set, or arrives from a fetch, is given out until its time to live is over, and no other key
      changes. */
  lemma StoreLaw(c: Cache, key: string, value: Option<string>, ttl: int, id: nat, now: int, later: int, other: string)
    ensures Hit(Next(c, Set(key, value, ttl), now), key, later) == if later < now + ttl then Some(value) else None
    ensures other != key ==> Hit(Next(c, Set(key, value, ttl), now), other, later) == Hit(c, other, later)
    ensures id in c.running && c.running[id].stage.Read? ==>
              var f, after := c.running[id], Next(c, Arrive(id), now);
              && Hit(after, f.key, later) == (if later < now + f.ttl then Some(f.stage.value) else None)
              && (other != f.key ==> Hit(after, other, later) == Hit(c, other, later))
  {
  }

  /** Invalidating a key drops its entry and no other; without a key, or with the empty one, all entries are dropped.
      The fetches go on, and so does what other writers did. */
  lemma InvalidateLaw(c: Cache, which: Option<string>, now: int, other: string, later: int)
    ensures var after := Next(c, Invalidate(which), now);
            && after.running == c.running && after.inflight == c.inflight && after.kv == c.kv
            && Hit(after, other, later)
               == if which == None || which == Some("") || which == Some(other) then None else Hit(c, other, later)
  {
  }

  /** A caller who finds nothing waits for the fetch of the key, and starts one exactly if none runs; a fetch reads KV
      once and stores nothing if it is rejected. */
  lemma FetchLaw(c: Cache, key: string, ttl: int, now: int, id: nat)
    requires Coalesced(c)
    ensures var after := Next(c, Get(key, ttl), now);
            && after.store == c.store && after.kv == c.kv
            && (Hit(c, key, now).Some? || key in c.inflight ==> after.running == c.running)
            && (Hit(c, key, now).None? && key !in c.inflight ==>
                  && key in after.inflight
                  && after.running == c.running[after.inflight[key] := Fetch(key, ttl, Reading, c.steps)])
    ensures id in c.running && c.running[id].stage.Reading? ==>
              && Next(c, Answer(id), now).running[id].stage == Read(Content(c.kv, c.running[id].key))
              && Next(c, Reject(id), now).running[id].stage == Rejected && Next(c, Reject(id), now).store == c.store
  {
  }
}
