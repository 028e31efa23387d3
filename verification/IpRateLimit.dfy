/** The per-IP request counter: a memory copy in front of a throttled KV copy. */
module IpRateLimit {
  import opened Results
  import opened Numbers

  const REQUEST_LIMIT_MAX := 600
  const REQUEST_WINDOW_MS := 60000
  const REQUEST_BURST_BLOCK_MS := 300000
  const MAX_BLOCK_MS := 900000
  const KV_WRITE_MIN_INTERVAL_MS := 1000
  const MEMORY_MAX := 2000

  /** Limits of the authentication module. */
  datatype AuthLimits = AuthLimits(max: nat, window: nat)

  datatype Record = Record(failCount: int, blockUntil: int, lastAttempt: int, windowStart: Option<int>,
                           requestCount: Option<int>)

  function OrZero(v: Option<int>): int {
    if v.Some? then v.value else 0
  }

  function Merge(a: Record, b: Record): Record {
    var aWin, bWin := OrZero(a.windowStart), OrZero(b.windowStart);
    Record(
      Max(a.failCount, b.failCount), Max(a.blockUntil, b.blockUntil), Max(a.lastAttempt, b.lastAttempt),
      if aWin == bWin then (if aWin == 0 then None else Some(aWin))
      else if aWin > bWin then a.windowStart else b.windowStart,
      Some(if aWin == bWin then Max(OrZero(a.requestCount), OrZero(b.requestCount))
           else if aWin > bWin then OrZero(a.requestCount) else OrZero(b.requestCount)))
  }

  function MergeOptions(a: Option<Record>, b: Option<Record>): Option<Record> {
    if a.None? then b else if b.None? then a else Some(Merge(a.value, b.value))
  }

  function BlockDuration(failCount: int): int {
    if failCount >= 12 then MAX_BLOCK_MS else if failCount >= 8 then 600000 else 300000
  }

  function CapBlockUntil(blockUntil: int, now: int): int {
    if blockUntil <= now then blockUntil else Min(blockUntil, now + MAX_BLOCK_MS)
  }

  /** `Math.max(1, Math.ceil((record.blockUntil - now) / 1000))`. */
  function RetryAfter(r: Record, now: int): int {
    SecondsUntil(r.blockUntil, now)
  }

  predicate Expired(r: Record, now: int) {
    r.blockUntil > 0 && now >= r.blockUntil
  }

  predicate Blocked(r: Record, now: int) {
    now < r.blockUntil
  }

  predicate NeedsHeal(auth: AuthLimits, r: Record, now: int) {
    (r.blockUntil > 0 && r.blockUntil - now > MAX_BLOCK_MS) || r.failCount > auth.max * 4
  }

  /** The record without an expired, overlong or inflated block. */
  function Heal(auth: AuthLimits, r: Record, now: int): Option<Record> {
    if Expired(r, now) then None
    else if !NeedsHeal(auth, r, now) then Some(r)
    else
      Some(Record(
        Min(r.failCount, auth.max - 1),
        if r.blockUntil > 0 && r.blockUntil - now > MAX_BLOCK_MS then 0 else r.blockUntil,
        now, r.windowStart, r.requestCount))
  }

  // The steps for one address

  datatype Entry = Entry(record: Record, lastKvWriteAt: int, lastKvReadAt: int)

  /** What memory and KV hold for one address. */
  datatype Slot = Slot(memory: Option<Entry>, kv: Option<Record>)

  function LastWrite(memory: Option<Entry>): int {
    if memory.Some? then memory.value.lastKvWriteAt else 0
  }

  function LastRead(memory: Option<Entry>): int {
    if memory.Some? then memory.value.lastKvReadAt else 0
  }

  function CachedRecord(memory: Option<Entry>): Option<Record> {
    if memory.Some? then Some(memory.value.record) else None
  }

  function Persist(slot: Slot, record: Record, now: int, force: bool): Slot {
    if force || now - LastWrite(slot.memory) >= KV_WRITE_MIN_INTERVAL_MS
    then Slot(Some(Entry(record, now, LastRead(slot.memory))), Some(record))
    else Slot(Some(Entry(record, LastWrite(slot.memory), LastRead(slot.memory))), slot.kv)
  }

  predicate CacheFresh(memory: Option<Entry>, now: int) {
    memory.Some? && now - Max(LastRead(memory), LastWrite(memory)) < KV_WRITE_MIN_INTERVAL_MS
  }

  /** `getHealedIpRateLimitRecord`, with its own reading of the clock. */
  function ReadKv(auth: AuthLimits, slot: Slot, later: int): (Slot, Option<Record>) {
    if slot.kv.None? then (slot, None)
    else
      match Heal(auth, slot.kv.value, later)
      case None => (slot.(kv := None), None)
      case Some(healed) =>
        (if NeedsHeal(auth, slot.kv.value, later) then Persist(slot, healed, later, true) else slot, Some(healed))
  }

  function HealOption(auth: AuthLimits, r: Option<Record>, now: int): Option<Record> {
    if r.Some? then Heal(auth, r.value, now) else None
  }

  function Load(auth: AuthLimits, slot: Slot, now: int, later: int): (Slot, Option<Record>) {
    if CacheFresh(slot.memory, now) then
      var healed := Heal(auth, slot.memory.value.record, now);
      (if healed.Some? then slot else slot.(memory := None), healed)
    else Sync(auth, slot, now, later)
  }

  /** Read KV, merge it with memory, and remember the result. */
  function Sync(auth: AuthLimits, slot: Slot, now: int, later: int): (Slot, Option<Record>) {
    var (read, fromKv) := ReadKv(auth, slot, later);
    var healed := HealOption(auth, MergeOptions(CachedRecord(slot.memory), fromKv), now);
    (read.(memory := Loaded(read.memory, healed, now)), healed)
  }

  function Loaded(memory: Option<Entry>, healed: Option<Record>, now: int): Option<Entry> {
    if healed.Some? then Some(Entry(healed.value, LastWrite(memory), now)) else None
  }

  datatype Verdict = Allowed | Rejected(retryAfter: int)

  function FirstRecord(now: int): Record {
    Record(0, 0, now, Some(now), Some(0))
  }

  /** One more request, in the current window or a new one. */
  function CountRequest(r: Record, now: int): Record {
    var windowStart := if r.windowStart.Some? then r.windowStart.value else now;
    if now - windowStart > REQUEST_WINDOW_MS then r.(windowStart := Some(now), requestCount := Some(1))
    else r.(requestCount := Some(OrZero(r.requestCount) + 1))
  }

  /** What a request does to the record it found: the record to keep, if it changed, and the verdict. */
  function TrackRecord(found: Option<Record>, now: int, limit: int): (Option<Record>, Verdict) {
    if found.Some? && Blocked(found.value, now) then (None, Rejected(RetryAfter(found.value, now)))
    else
      var counted := CountRequest(if found.Some? then found.value else FirstRecord(now), now).(lastAttempt := now);
      if OrZero(counted.requestCount) > limit then
        var blocked := counted.(blockUntil := CapBlockUntil(now + REQUEST_BURST_BLOCK_MS, now));
        (Some(blocked), Rejected(RetryAfter(blocked, now)))
      else (Some(counted), Allowed)
  }

  /** A block is written to KV at once, a count at most once a second. */
  function Track(auth: AuthLimits, slot: Slot, now: int, later: int, limit: int): (Slot, Verdict) {
    var (loaded, found) := Load(auth, slot, now, later);
    var (kept, verdict) := TrackRecord(found, now, limit);
    (if kept.Some? then Persist(loaded, kept.value, now, verdict.Rejected?) else loaded, verdict)
  }

  function FailRecord(auth: AuthLimits, found: Option<Record>, now: int): Record {
    var failCount := (if found.Some? then found.value.failCount else 0) + 1;
    var before := if found.Some? then found.value.blockUntil else 0;
    Record(
      failCount,
      if failCount >= auth.max
      then CapBlockUntil(Max(Max(before, now + auth.window), now + BlockDuration(failCount)), now)
      else before,
      now,
      if found.Some? then found.value.windowStart else None,
      if found.Some? then found.value.requestCount else None)
  }

  function RecordAuthFailure(auth: AuthLimits, slot: Slot, now: int, later: int): Slot {
    var (loaded, found) := Load(auth, slot, now, later);
    Persist(loaded, FailRecord(auth, found, now), now, true)
  }

  /** The verdict on a record, and whether the record is dropped: a block that nothing accounts for. */
  function CheckRecord(auth: AuthLimits, found: Option<Record>, now: int, loginPath: bool): (bool, Verdict) {
    if found.None? || !Blocked(found.value, now) then (false, Allowed)
    else if loginPath then
      (false, if found.value.failCount < auth.max then Allowed else Rejected(RetryAfter(found.value, now)))
    else if found.value.failCount < auth.max && OrZero(found.value.requestCount) <= REQUEST_LIMIT_MAX then
      (true, Allowed)
    else (false, Rejected(RetryAfter(found.value, now)))
  }

  function CheckBlocked(auth: AuthLimits, slot: Slot, now: int, later: int, loginPath: bool): (Slot, Verdict) {
    var (loaded, found) := Load(auth, slot, now, later);
    var (drop, verdict) := CheckRecord(auth, found, now, loginPath);
    (if drop then Slot(None, None) else loaded, verdict)
  }

  // The module's maps

  function Lookup<V>(m: map<string, V>, ip: string): Option<V> {
    if ip in m then Some(m[ip]) else None
  }

  function Updated<V>(m: map<string, V>, ip: string, v: Option<V>): map<string, V> {
    if v.Some? then m[ip := v.value] else m - {ip}
  }

  lemma LookupUpdated<V>(m: map<string, V>, ip: string, v: Option<V>)
    ensures Lookup(Updated(m, ip, v), ip) == v
    ensures v == Lookup(m, ip) ==> Updated(m, ip, v) == m
  {
  }

  lemma UpdatedTwice<V>(m: map<string, V>, ip: string, v: Option<V>, w: Option<V>)
    ensures Updated(Updated(m, ip, v), ip, w) == Updated(m, ip, w)
  {
  }

  class Limiter {
    const auth: AuthLimits
    var memory: map<string, Entry>
    var kv: map<string, Record>

    constructor (auth: AuthLimits)
      ensures this.auth == auth && memory == map[] && kv == map[]
    {
      this.auth, memory, kv := auth, map[], map[];
    }

    function At(ip: string): Slot
      reads this
    {
      Slot(Lookup(memory, ip), Lookup(kv, ip))
    }

    /** Nothing is evicted when `ip` is remembered. */
    predicate HasRoom(ip: string)
      reads this
    {
      |memory.Keys + {ip}| <= MEMORY_MAX
    }

    /** Memory and KV as before, but `slot` for `ip`. */
    ghost predicate Only(memory0: map<string, Entry>, kv0: map<string, Record>, ip: string, slot: Slot)
      reads this
    {
      memory == Updated(memory0, ip, slot.memory) && kv == Updated(kv0, ip, slot.kv)
    }

    method Remember(ip: string, record: Record, now: int, read: bool, write: bool)
      requires HasRoom(ip)
      modifies this`memory
      ensures ip in memory && memory == old(memory)[ip := memory[ip]]
      ensures memory[ip].record == record
      ensures memory[ip].lastKvReadAt == if read then now else LastRead(old(Lookup(memory, ip)))
      ensures memory[ip].lastKvWriteAt == if write then now else LastWrite(old(Lookup(memory, ip)))
    {
      var prev := Lookup(memory, ip);
      var lastWrite, lastRead := if write then now else LastWrite(prev), if read then now else LastRead(prev);
      memory := memory[ip := Entry(record, lastWrite, lastRead)];
    }

    method PersistRecord(ip: string, record: Record, now: int, force: bool)
      requires HasRoom(ip)
      modifies this
      ensures Only(old(memory), old(kv), ip, Persist(old(At(ip)), record, now, force))
    {
      var lastKvWriteAt := LastWrite(Lookup(memory, ip));
      Remember(ip, record, now, false, false);
      if !force && now - lastKvWriteAt < KV_WRITE_MIN_INTERVAL_MS {
        return;
      }
      assert memory.Keys + {ip} == old(memory).Keys + {ip};
      kv := kv[ip := record];
      Remember(ip, record, now, false, true);
    }

    method ReadHealed(ip: string, later: int) returns (r: Option<Record>)
      requires HasRoom(ip)
      modifies this
      ensures Only(old(memory), old(kv), ip, ReadKv(auth, old(At(ip)), later).0)
      ensures r == ReadKv(auth, old(At(ip)), later).1
    {
      LookupUpdated(memory, ip, Lookup(memory, ip));
      LookupUpdated(kv, ip, Lookup(kv, ip));
      if ip !in kv {
        return None;
      }
      var record := kv[ip];
      r := Heal(auth, record, later);
      if r.None? {
        kv := kv - {ip};
      } else if NeedsHeal(auth, record, later) {
        PersistRecord(ip, r.value, later, true);
      }
    }

    method LoadRecord(ip: string, now: int, later: int) returns (r: Option<Record>)
      requires HasRoom(ip)
      modifies this
      ensures Only(old(memory), old(kv), ip, Load(auth, old(At(ip)), now, later).0)
      ensures r == Load(auth, old(At(ip)), now, later).1
    {
      LookupUpdated(memory, ip, Lookup(memory, ip));
      LookupUpdated(kv, ip, Lookup(kv, ip));
      var cached := Lookup(memory, ip);
      if CacheFresh(cached, now) {
        r := Heal(auth, cached.value.record, now);
        if r.None? {
          memory := memory - {ip};
        }
        return;
      }
      r := SyncRecord(ip, now, later);
    }

    method SyncRecord(ip: string, now: int, later: int) returns (r: Option<Record>)
      requires HasRoom(ip)
      modifies this
      ensures Only(old(memory), old(kv), ip, Sync(auth, old(At(ip)), now, later).0)
      ensures r == Sync(auth, old(At(ip)), now, later).1
    {
      ghost var slot := At(ip);
      var cached := CachedRecord(Lookup(memory, ip));
      var fromKv := ReadHealed(ip, later);
      ghost var read := ReadKv(auth, slot, later).0;
      RoomAfter(old(memory), old(kv), ip, read);
      r := HealOption(auth, MergeOptions(cached, fromKv), now);
      SyncParts(slot, now, later, read, fromKv, r);
      KeepLoaded(ip, r, now, old(memory), old(kv), read);
    }

    lemma SyncParts(slot: Slot, now: int, later: int, read: Slot, fromKv: Option<Record>, healed: Option<Record>)
      requires (read, fromKv) == ReadKv(auth, slot, later)
      requires healed == HealOption(auth, MergeOptions(CachedRecord(slot.memory), fromKv), now)
      ensures Sync(auth, slot, now, later) == (read.(memory := Loaded(read.memory, healed, now)), healed)
    {
    }

    /** `StoreLoaded`, after the step that left `read`. */
    method KeepLoaded(ip: string, r: Option<Record>, now: int, ghost memory0: map<string, Entry>,
                      ghost kv0: map<string, Record>, ghost read: Slot)
      requires HasRoom(ip) && Only(memory0, kv0, ip, read) && At(ip) == read
      modifies this`memory
      ensures Only(memory0, kv0, ip, read.(memory := Loaded(read.memory, r, now)))
    {
      ghost var memory1 := memory;
      StoreLoaded(ip, r, now);
      OnlyTwice(memory0, kv0, memory1, kv, ip, read, read.(memory := Loaded(read.memory, r, now)));
    }

    method StoreLoaded(ip: string, r: Option<Record>, now: int)
      requires HasRoom(ip)
      modifies this`memory
      ensures memory == Updated(old(memory), ip, Loaded(old(Lookup(memory, ip)), r, now))
    {
      if r.None? {
        memory := memory - {ip};
      } else {
        Remember(ip, r.value, now, true, false);
      }
    }

    lemma RoomAfter(memory0: map<string, Entry>, kv0: map<string, Record>, ip: string, slot: Slot)
      requires Only(memory0, kv0, ip, slot) && |memory0.Keys + {ip}| <= MEMORY_MAX
      ensures HasRoom(ip) && At(ip) == slot
    {
      LookupUpdated(memory0, ip, slot.memory);
      LookupUpdated(kv0, ip, slot.kv);
      assert memory.Keys + {ip} == memory0.Keys + {ip};
    }

    lemma OnlyTwice(memory0: map<string, Entry>, kv0: map<string, Record>, memory1: map<string, Entry>,
                    kv1: map<string, Record>, ip: string, slot: Slot, slot2: Slot)
      requires memory1 == Updated(memory0, ip, slot.memory) && kv1 == Updated(kv0, ip, slot.kv)
      requires Only(memory1, kv1, ip, slot2)
      ensures Only(memory0, kv0, ip, slot2)
    {
      UpdatedTwice(memory0, ip, slot.memory, slot2.memory);
      UpdatedTwice(kv0, ip, slot.kv, slot2.kv);
    }

    method TrackRequest(ip: string, now: int, later: int, limit: int) returns (v: Verdict)
      requires HasRoom(ip)
      modifies this
      ensures Only(old(memory), old(kv), ip, Track(auth, old(At(ip)), now, later, limit).0)
      ensures v == Track(auth, old(At(ip)), now, later, limit).1
    {
      var found := LoadRecord(ip, now, later);
      RoomAfter(old(memory), old(kv), ip, Load(auth, old(At(ip)), now, later).0);
      var kept;
      kept, v := CountOrReject(found, now, limit);
      if kept.Some? {
        ghost var loaded, memory1, kv1 := At(ip), memory, kv;
        PersistRecord(ip, kept.value, now, v.Rejected?);
        OnlyTwice(old(memory), old(kv), memory1, kv1, ip, loaded, Persist(loaded, kept.value, now, v.Rejected?));
      }
    }

    /** The counting part of `trackIpRequest`, which changes the record field by field. */
    method CountOrReject(found: Option<Record>, now: int, limit: int) returns (kept: Option<Record>, v: Verdict)
      ensures (kept, v) == TrackRecord(found, now, limit)
    {
      if found.Some? && Blocked(found.value, now) {
        return None, Rejected(RetryAfter(found.value, now));
      }
      var record := if found.Some? then found.value else FirstRecord(now);
      var windowStart := if record.windowStart.Some? then record.windowStart.value else now;
      if now - windowStart > REQUEST_WINDOW_MS {
        record := record.(windowStart := Some(now));
        record := record.(requestCount := Some(1));
      } else {
        record := record.(requestCount := Some(OrZero(record.requestCount) + 1));
      }
      if OrZero(record.requestCount) > limit {
        record := record.(blockUntil := CapBlockUntil(now + REQUEST_BURST_BLOCK_MS, now));
        record := record.(lastAttempt := now);
        return Some(record), Rejected(RetryAfter(record, now));
      }
      record := record.(lastAttempt := now);
      return Some(record), Allowed;
    }

    method AuthFailure(ip: string, now: int, later: int)
      requires HasRoom(ip)
      modifies this
      ensures Only(old(memory), old(kv), ip, RecordAuthFailure(auth, old(At(ip)), now, later))
    {
      var existing := LoadRecord(ip, now, later);
      RoomAfter(old(memory), old(kv), ip, Load(auth, old(At(ip)), now, later).0);
      var record := OneMoreFailure(existing, now);
      ghost var loaded, memory1, kv1 := At(ip), memory, kv;
      PersistRecord(ip, record, now, true);
      OnlyTwice(old(memory), old(kv), memory1, kv1, ip, loaded, Persist(loaded, record, now, true));
    }

    method OneMoreFailure(existing: Option<Record>, now: int) returns (record: Record)
      ensures record == FailRecord(auth, existing, now)
    {
      var failCount := (if existing.Some? then existing.value.failCount else 0) + 1;
      var blockUntil := if existing.Some? then existing.value.blockUntil else 0;
      if failCount >= auth.max {
        blockUntil := Max(blockUntil, now + auth.window);
        var escalated := now + BlockDuration(failCount);
        if escalated > blockUntil {
          blockUntil := escalated;
        }
        blockUntil := CapBlockUntil(blockUntil, now);
      }
      record := Record(failCount, blockUntil, now, if existing.Some? then existing.value.windowStart else None,
                       if existing.Some? then existing.value.requestCount else None);
    }

    method CheckIp(ip: string, now: int, later: int, loginPath: bool) returns (v: Verdict)
      requires HasRoom(ip)
      modifies this
      ensures Only(old(memory), old(kv), ip, CheckBlocked(auth, old(At(ip)), now, later, loginPath).0)
      ensures v == CheckBlocked(auth, old(At(ip)), now, later, loginPath).1
    {
      var record := LoadRecord(ip, now, later);
      RoomAfter(old(memory), old(kv), ip, Load(auth, old(At(ip)), now, later).0);
      if record.None? {
        return Allowed;
      }
      var blocked := Blocked(record.value, now);
      if loginPath {
        if record.value.failCount < auth.max || !blocked {
          return Allowed;
        }
        return Rejected(RetryAfter(record.value, now));
      }
      if blocked {
        var authBlocked := record.value.failCount >= auth.max;
        var floodBlocked := OrZero(record.value.requestCount) > REQUEST_LIMIT_MAX;
        if !authBlocked && !floodBlocked {
          kv := kv - {ip};
          memory := memory - {ip};
          return Allowed;
        }
        return Rejected(RetryAfter(record.value, now));
      }
      v := Allowed;
    }
  }
}
