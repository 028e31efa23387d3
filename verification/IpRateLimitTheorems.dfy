/** The cached, throttled counter against one plain record per address. */
module IpRateLimitTheorems {
  import opened Results
  import opened Numbers
  import opened IpRateLimit

  // One plain record, read and written at every step

  datatype Op = TrackOp(limit: int) | FailOp | CheckOp(loginPath: bool)

  /** One call; `later` is the clock when the KV value arrives. */
  datatype Event = Event(op: Op, now: int, later: int)

  function PlainStep(auth: AuthLimits, plain: Option<Record>, e: Event): (Option<Record>, Verdict) {
    var found := HealOption(auth, plain, e.now);
    match e.op
    case TrackOp(limit) =>
      var (kept, verdict) := TrackRecord(found, e.now, limit);
      (if kept.Some? then kept else found, verdict)
    case FailOp => (Some(FailRecord(auth, found, e.now)), Allowed)
    case CheckOp(loginPath) =>
      var (drop, verdict) := CheckRecord(auth, found, e.now, loginPath);
      (if drop then None else found, verdict)
  }

  function CachedStep(auth: AuthLimits, slot: Slot, e: Event): (Slot, Verdict) {
    match e.op
    case TrackOp(limit) => Track(auth, slot, e.now, e.later, limit)
    case FailOp => (RecordAuthFailure(auth, slot, e.now, e.later), Allowed)
    case CheckOp(loginPath) => CheckBlocked(auth, slot, e.now, e.later, loginPath)
  }

  // What verdicts depend on

  datatype View = View(failCount: int, blockUntil: int, windowStart: Option<int>, requestCount: int)

  function ViewOf(r: Record): View {
    View(r.failCount, r.blockUntil, r.windowStart, OrZero(r.requestCount))
  }

  predicate Similar(a: Option<Record>, b: Option<Record>) {
    a.Some? == b.Some? && (a.Some? ==> ViewOf(a.value) == ViewOf(b.value))
  }

  /** A record that steps up to time `t` can have left. */
  predicate Fits(auth: AuthLimits, r: Option<Record>, t: int) {
    r.Some? ==>
      && 0 <= r.value.blockUntil <= t + MAX_BLOCK_MS
      && (r.value.windowStart.Some? ==> 0 < r.value.windowStart.value <= t)
      && (r.value.failCount >= auth.max ==> r.value.blockUntil > 0)
  }

  predicate Live(r: Option<Record>, t: int) {
    r.Some? && !Expired(r.value, t)
  }

  /** The failures that count: more than four times the limit start over. */
  function Settled(auth: AuthLimits, r: Record): Record {
    if r.failCount > auth.max * 4 then r.(failCount := Min(r.failCount, auth.max - 1)) else r
  }

  /** The KV copy `k` lags behind `m` by requests at most: failures and blocks are written at once. */
  predicate Behind(k: Record, m: Record) {
    && k.failCount == m.failCount && k.blockUntil == m.blockUntil
    && (OrZero(k.windowStart) < OrZero(m.windowStart)
        || (OrZero(k.windowStart) == OrZero(m.windowStart) && OrZero(k.requestCount) <= OrZero(m.requestCount)))
  }

  predicate Agree(auth: AuthLimits, slot: Slot, plain: Option<Record>, t: int) {
    var m := CachedRecord(slot.memory);
    && t > 0 && Fits(auth, m, t) && Fits(auth, slot.kv, t) && Fits(auth, plain, t)
    && (Live(m, t) <==> Live(plain, t))
    && (Live(m, t) ==> ViewOf(Settled(auth, m.value)) == ViewOf(Settled(auth, plain.value)))
    && (Live(slot.kv, t) ==> Live(m, t) && Behind(slot.kv.value, m.value))
  }

  lemma AgreeLater(auth: AuthLimits, slot: Slot, plain: Option<Record>, t: int, later: int)
    requires Agree(auth, slot, plain, t) && t <= later
    ensures Agree(auth, slot, plain, later)
  {
  }

  /** Healing a record that fits drops it when its block is over, and lets inflated failures start over. */
  lemma HealFits(auth: AuthLimits, r: Option<Record>, now: int)
    requires Fits(auth, r, now)
    ensures HealOption(auth, r, now).Some? <==> Live(r, now)
    ensures Live(r, now) ==> ViewOf(HealOption(auth, r, now).value) == ViewOf(Settled(auth, r.value))
  {
  }

  // Loading

  /** After loading: the records found agree, and a KV copy that still counts lags behind what was found, unless a block
      stops every step that would write. */
  predicate FoundWell(auth: AuthLimits, slot: Slot, found: Option<Record>, plain: Option<Record>, now: int,
                      later: int) {
    && Similar(found, plain) && Agree(auth, slot, plain, later) && Fits(auth, found, now)
    && (found.Some? ==>
          && Live(found, now)
          && (Blocked(found.value, now) || (Live(slot.kv, later) ==> Behind(slot.kv.value, found.value))))
    && (found.None? ==> !Live(slot.kv, later))
  }

  lemma LoadFresh(auth: AuthLimits, slot: Slot, plain: Option<Record>, now: int, later: int)
    requires auth.max >= 1 && Agree(auth, slot, plain, now) && now <= later && CacheFresh(slot.memory, now)
    ensures FoundWell(auth, Load(auth, slot, now, later).0, Load(auth, slot, now, later).1,
                      HealOption(auth, plain, now), now, later)
  {
    HealFits(auth, CachedRecord(slot.memory), now);
    HealFits(auth, plain, now);
    HealedFits(auth, plain, now);
    HealedFits(auth, CachedRecord(slot.memory), now);
    var after, found := Load(auth, slot, now, later).0, Load(auth, slot, now, later).1;
    assert Agree(auth, after, HealOption(auth, plain, now), now);
    AgreeLater(auth, after, HealOption(auth, plain, now), now, later);
  }

  lemma HealedFits(auth: AuthLimits, r: Option<Record>, now: int)
    requires Fits(auth, r, now) && auth.max >= 1
    ensures Fits(auth, HealOption(auth, r, now), now)
    ensures Live(HealOption(auth, r, now), now) <==> HealOption(auth, r, now).Some?
  {
  }

  /** Reading KV: nothing if its block is over, and otherwise a record behind memory. */
  lemma ReadKvFits(auth: AuthLimits, slot: Slot, m: Record, now: int, later: int)
    requires auth.max >= 1 && now <= later && Fits(auth, slot.kv, now) && Fits(auth, Some(m), now)
    requires Live(slot.kv, now) ==> Behind(slot.kv.value, m)
    ensures var (read, fromKv) := ReadKv(auth, slot, later);
            && (fromKv.Some? <==> Live(slot.kv, later)) && Fits(auth, read.kv, later)
            && (fromKv.None? ==> read.kv.None?)
            && (fromKv.Some? ==> read.kv == fromKv && Behind(fromKv.value, Settled(auth, m)))
  {
  }

  lemma MergedHeals(auth: AuthLimits, m: Record, k: Option<Record>, now: int)
    requires auth.max >= 1 && Fits(auth, Some(m), now) && (k.Some? ==> Fits(auth, k, now + MAX_BLOCK_MS))
    requires k.Some? ==> Behind(k.value, Settled(auth, m)) && k.value.blockUntil <= now + MAX_BLOCK_MS
    ensures var healed := HealOption(auth, MergeOptions(Some(m), k), now);
            && (healed.Some? <==> Live(Some(m), now))
            && (healed.Some? ==> ViewOf(healed.value) == ViewOf(Settled(auth, m)))
  {
  }

  lemma LoadSynced(auth: AuthLimits, slot: Slot, plain: Option<Record>, now: int, later: int)
    requires auth.max >= 1 && Agree(auth, slot, plain, now) && now <= later
    ensures FoundWell(auth, Sync(auth, slot, now, later).0, Sync(auth, slot, now, later).1,
                      HealOption(auth, plain, now), now, later)
  {
    var m := CachedRecord(slot.memory);
    HealFits(auth, plain, now);
    HealedFits(auth, plain, now);
    if m.Some? && Live(m, now) {
      ReadKvFits(auth, slot, m.value, now, later);
      MergedHeals(auth, m.value, ReadKv(auth, slot, later).1, now);
    } else {
      SyncedAway(auth, slot, now, later);
    }
  }

  /** When no record counts any more, nothing is found and nothing is kept. */
  lemma SyncedAway(auth: AuthLimits, slot: Slot, now: int, later: int)
    requires auth.max >= 1 && now <= later && !Live(CachedRecord(slot.memory), now) && !Live(slot.kv, now)
    ensures Sync(auth, slot, now, later) == (Slot(None, None), None)
  {
  }

  lemma LoadWell(auth: AuthLimits, slot: Slot, plain: Option<Record>, now: int, later: int)
    requires auth.max >= 1 && Agree(auth, slot, plain, now) && now <= later
    ensures FoundWell(auth, Load(auth, slot, now, later).0, Load(auth, slot, now, later).1,
                      HealOption(auth, plain, now), now, later)
  {
    if CacheFresh(slot.memory, now) {
      LoadFresh(auth, slot, plain, now, later);
    } else {
      LoadSynced(auth, slot, plain, now, later);
    }
  }

  // Steps

  /** Similar records give the same verdict and similar records. */
  lemma SimilarTrack(a: Option<Record>, b: Option<Record>, now: int, limit: int)
    requires Similar(a, b)
    ensures TrackRecord(a, now, limit).1 == TrackRecord(b, now, limit).1
    ensures Similar(TrackRecord(a, now, limit).0, TrackRecord(b, now, limit).0)
  {
  }

  lemma TrackedFits(auth: AuthLimits, found: Option<Record>, now: int, limit: int)
    requires auth.max >= 1 && Fits(auth, found, now) && (found.Some? ==> Live(found, now)) && now > 0
    ensures Fits(auth, TrackRecord(found, now, limit).0, now)
    ensures Live(TrackRecord(found, now, limit).0, now) <==> TrackRecord(found, now, limit).0.Some?
  {
  }

  lemma TrackAgrees(auth: AuthLimits, slot: Slot, plain: Option<Record>, now: int, later: int, limit: int)
    requires auth.max >= 1 && Agree(auth, slot, plain, now) && now <= later
    ensures var (after, verdict) := Track(auth, slot, now, later, limit);
            var (plainAfter, plainVerdict) := PlainStep(auth, plain, Event(TrackOp(limit), now, later));
            verdict == plainVerdict && Agree(auth, after, plainAfter, later)
  {
    var (loaded, found) := Load(auth, slot, now, later);
    var plainFound := HealOption(auth, plain, now);
    LoadWell(auth, slot, plain, now, later);
    SimilarTrack(found, plainFound, now, limit);
    HealedFits(auth, plain, now);
    TrackedFits(auth, found, now, limit);
    TrackedFits(auth, plainFound, now, limit);
  }

  lemma FailAgrees(auth: AuthLimits, slot: Slot, plain: Option<Record>, now: int, later: int)
    requires auth.max >= 1 && Agree(auth, slot, plain, now) && now <= later
    ensures Agree(auth, RecordAuthFailure(auth, slot, now, later),
                  PlainStep(auth, plain, Event(FailOp, now, later)).0, later)
  {
    LoadWell(auth, slot, plain, now, later);
    HealedFits(auth, plain, now);
  }

  lemma CheckAgrees(auth: AuthLimits, slot: Slot, plain: Option<Record>, now: int, later: int, loginPath: bool)
    requires auth.max >= 1 && Agree(auth, slot, plain, now) && now <= later
    ensures var (after, verdict) := CheckBlocked(auth, slot, now, later, loginPath);
            var (plainAfter, plainVerdict) := PlainStep(auth, plain, Event(CheckOp(loginPath), now, later));
            verdict == plainVerdict && Agree(auth, after, plainAfter, later)
  {
    LoadWell(auth, slot, plain, now, later);
  }

  // Runs

  /** The clock does not run backwards. */
  predicate Ordered(events: seq<Event>, t: int) {
    events == [] || (t <= events[0].now <= events[0].later && Ordered(events[1..], events[0].later))
  }

  function CachedRun(auth: AuthLimits, slot: Slot, events: seq<Event>): seq<Verdict>
    decreases |events|
  {
    if events == [] then []
    else
      var (after, verdict) := CachedStep(auth, slot, events[0]);
      [verdict] + CachedRun(auth, after, events[1..])
  }

  function PlainRun(auth: AuthLimits, plain: Option<Record>, events: seq<Event>): seq<Verdict>
    decreases |events|
  {
    if events == [] then []
    else
      var (after, verdict) := PlainStep(auth, plain, events[0]);
      [verdict] + PlainRun(auth, after, events[1..])
  }

  lemma StepAgrees(auth: AuthLimits, slot: Slot, plain: Option<Record>, e: Event)
    requires auth.max >= 1 && Agree(auth, slot, plain, e.now) && e.now <= e.later
    ensures CachedStep(auth, slot, e).1 == PlainStep(auth, plain, e).1
    ensures Agree(auth, CachedStep(auth, slot, e).0, PlainStep(auth, plain, e).0, e.later)
  {
    match e.op
    case TrackOp(limit) => TrackAgrees(auth, slot, plain, e.now, e.later, limit);
    case FailOp => FailAgrees(auth, slot, plain, e.now, e.later);
    case CheckOp(loginPath) => CheckAgrees(auth, slot, plain, e.now, e.later, loginPath);
  }

  lemma {:induction false} RunAgrees(auth: AuthLimits, slot: Slot, plain: Option<Record>, events: seq<Event>, t: int)
    requires auth.max >= 1 && Agree(auth, slot, plain, t) && Ordered(events, t)
    ensures CachedRun(auth, slot, events) == PlainRun(auth, plain, events)
    decreases |events|
  {
    if events != [] {
      var e := events[0];
      AgreeLater(auth, slot, plain, t, e.now);
      StepAgrees(auth, slot, plain, e);
      RunAgrees(auth, CachedStep(auth, slot, e).0, PlainStep(auth, plain, e).0, events[1..], e.later);
    }
  }

  /** Every verdict of every run that starts empty is the one the plain record gives. */
  lemma {:induction false} CacheIsInvisible(auth: AuthLimits, events: seq<Event>, start: int)
    requires auth.max >= 1 && start > 0 && Ordered(events, start)
    ensures CachedRun(auth, Slot(None, None), events) == PlainRun(auth, None, events)
  {
    RunAgrees(auth, Slot(None, None), None, events, start);
  }

  // Merging

  /** Records with a missing window or count taken as zero. */
  function Zeroed(r: Record): Record {
    r.(windowStart := Some(OrZero(r.windowStart)), requestCount := Some(OrZero(r.requestCount)))
  }

  lemma MergeLaws(a: Record, b: Record, c: Record)
    ensures Merge(a, b) == Merge(b, a)
    ensures Zeroed(Merge(a, Merge(b, c))) == Zeroed(Merge(Merge(a, b), c))
    ensures Zeroed(Merge(a, a)) == Zeroed(a)
  {
  }

  lemma MergeZeroed(a: Record, b: Record)
    ensures Zeroed(Merge(Zeroed(a), Zeroed(b))) == Zeroed(Merge(a, b))
  {
  }

  /** The records of several isolates, merged one after the other. */
  function MergeAll(first: Record, others: seq<Record>): Record {
    if others == [] then Zeroed(first) else Zeroed(Merge(others[0], MergeAll(first, others[1..])))
  }

  lemma {:induction false} MergeAt(first: Record, others: seq<Record>, k: nat)
    requires k < |others|
    ensures MergeAll(first, others) == Zeroed(Merge(others[k], MergeAll(first, others[..k] + others[k + 1..])))
  {
    if k == 0 {
      assert others[..0] + others[1..] == others[1..];
    } else {
      var fewer := others[..k] + others[k + 1..];
      var rest := MergeAll(first, fewer[1..]);
      MergeAt(first, others[1..], k - 1);
      assert fewer[1..] == others[1..][..k - 1] + others[1..][k..] && fewer[0] == others[0];
      MergeSwap(others[0], others[k], rest);
    }
  }

  lemma MergeSwap(a: Record, b: Record, c: Record)
    ensures Zeroed(Merge(a, Zeroed(Merge(b, c)))) == Zeroed(Merge(b, Zeroed(Merge(a, c))))
  {
    MergeZeroed(a, Merge(b, c));
    MergeZeroed(a, Zeroed(Merge(b, c)));
    MergeZeroed(b, Merge(a, c));
    MergeZeroed(b, Zeroed(Merge(a, c)));
    MergeLaws(a, b, c);
    MergeLaws(b, a, c);
  }

  lemma TakeOne(records: seq<Record>, k: nat)
    requires k < |records|
    ensures multiset(records[..k] + records[k + 1..]) == multiset(records) - multiset{records[k]}
  {
    assert records == records[..k] + ([records[k]] + records[k + 1..]);
  }

  /** The order in which isolates' records arrive does not matter. */
  lemma {:induction false} MergeInAnyOrder(first: Record, others: seq<Record>, permuted: seq<Record>)
    requires multiset(others) == multiset(permuted)
    ensures MergeAll(first, others) == MergeAll(first, permuted)
    decreases |others|
  {
    if others == [] {
      assert |multiset(permuted)| == 0;
    } else {
      assert others[0] in multiset(permuted);
      var k :| 0 <= k < |permuted| && permuted[k] == others[0];
      var fewer := permuted[..k] + permuted[k + 1..];
      TakeOne(permuted, k);
      TakeOne(others, 0);
      assert others[..0] + others[1..] == others[1..];
      assert multiset(others[1..]) == multiset(fewer);
      MergeInAnyOrder(first, others[1..], fewer);
      MergeAt(first, permuted, k);
    }
  }

  // Bounds, whatever is stored

  predicate Bounded(r: Option<Record>, now: int) {
    r.Some? ==> r.value.blockUntil <= now + MAX_BLOCK_MS
  }

  lemma LoadIsBounded(auth: AuthLimits, slot: Slot, now: int, later: int)
    requires now > 0
    ensures Bounded(Load(auth, slot, now, later).1, now)
  {
  }

  predicate RetriesSoon(v: Verdict) {
    v.Rejected? ==> 1 <= v.retryAfter <= 900
  }

  /** A step that finds a fresh memory entry writes KV at a failure, at a block, at a count whose turn it is, and at a
      check that drops a block. */
  predicate LeavesKv(auth: AuthLimits, slot: Slot, e: Event) {
    var found := HealOption(auth, CachedRecord(slot.memory), e.now);
    var lastWrite := if found.Some? then LastWrite(slot.memory) else 0;
    match e.op
    case TrackOp(limit) =>
      var (kept, verdict) := TrackRecord(found, e.now, limit);
      kept.None? || (verdict.Allowed? && e.now - lastWrite < KV_WRITE_MIN_INTERVAL_MS)
    case FailOp => false
    case CheckOp(loginPath) => !CheckRecord(auth, found, e.now, loginPath).0
  }

  /** Whatever memory and KV hold, no caller is told to wait for more than fifteen minutes. A longer block stays in
      memory exactly over a check that finds it in a fresh entry, and in KV exactly over a step that finds a fresh entry
      and does not write. */
  lemma StepsAreBounded(auth: AuthLimits, slot: Slot, e: Event)
    requires 0 < e.now <= e.later
    ensures RetriesSoon(CachedStep(auth, slot, e).1)
    ensures Bounded(CachedRecord(CachedStep(auth, slot, e).0.memory), e.now)
            <==> !(e.op.CheckOp? && CacheFresh(slot.memory, e.now) && !Bounded(CachedRecord(slot.memory), e.now))
    ensures Bounded(CachedStep(auth, slot, e).0.kv, e.later)
            <==> !(CacheFresh(slot.memory, e.now) && LeavesKv(auth, slot, e) && !Bounded(slot.kv, e.later))
  {
    LoadIsBounded(auth, slot, e.now, e.later);
    if e.op.TrackOp? {
      TrackIsBounded(auth, slot, e.now, e.later, e.op.limit);
    }
    if !CacheFresh(slot.memory, e.now) {
      SyncIsBounded(auth, slot, e.now, e.later);
    }
  }

  lemma SyncIsBounded(auth: AuthLimits, slot: Slot, now: int, later: int)
    requires 0 < now <= later
    ensures Bounded(Sync(auth, slot, now, later).0.kv, later)
    ensures Bounded(CachedRecord(Sync(auth, slot, now, later).0.memory), now)
  {
  }

  lemma TrackIsBounded(auth: AuthLimits, slot: Slot, now: int, later: int, limit: int)
    requires now > 0
    ensures RetriesSoon(Track(auth, slot, now, later, limit).1)
    ensures Track(auth, slot, now, later, limit).0.memory.Some?
    ensures Bounded(CachedRecord(Track(auth, slot, now, later, limit).0.memory), now)
  {
    LoadIsBounded(auth, slot, now, later);
  }

  // What is merged and written

  /** A merged record has the most failures, the longest block and the latest attempt of both, and the later window with
      its count; of the same window it has the higher count. */
  lemma MergeTakesMost(a: Record, b: Record)
    ensures var m := Merge(a, b);
            && m.failCount >= a.failCount && m.failCount >= b.failCount && m.failCount in {a.failCount, b.failCount}
            && m.blockUntil >= a.blockUntil && m.blockUntil >= b.blockUntil
            && m.blockUntil in {a.blockUntil, b.blockUntil}
            && m.lastAttempt >= a.lastAttempt && m.lastAttempt >= b.lastAttempt
            && m.lastAttempt in {a.lastAttempt, b.lastAttempt}
    ensures var (m, aWin, bWin) := (Merge(a, b), OrZero(a.windowStart), OrZero(b.windowStart));
            && OrZero(m.windowStart) >= aWin && OrZero(m.windowStart) >= bWin
            && (aWin > bWin ==> m.windowStart == a.windowStart && m.requestCount == Some(OrZero(a.requestCount)))
            && (aWin < bWin ==> m.windowStart == b.windowStart && m.requestCount == Some(OrZero(b.requestCount)))
            && (aWin == bWin ==>
                  && OrZero(m.requestCount) >= OrZero(a.requestCount)
                  && OrZero(m.requestCount) >= OrZero(b.requestCount)
                  && OrZero(m.requestCount) in {OrZero(a.requestCount), OrZero(b.requestCount)})
  {
  }

  /** Memory always holds the record; KV gets it when forced, or a second or more after the last write, and then the
      time of the write is noted. */
  lemma PersistLaw(slot: Slot, r: Record, now: int, force: bool)
    ensures var before := if slot.memory.Some? then slot.memory.value.lastKvWriteAt else 0;
            var due := force || now - before >= 1000;
            var after := Persist(slot, r, now, force);
            && after.memory.Some? && after.memory.value.record == r
            && after.kv == (if due then Some(r) else slot.kv)
            && after.memory.value.lastKvWriteAt == (if due then now else before)
            && after.memory.value.lastKvReadAt == (if slot.memory.Some? then slot.memory.value.lastKvReadAt else 0)
  {
  }

  /** Memory answers for less than a second after the last read or write of KV. */
  lemma FreshLaw(e: Entry, now: int)
    ensures CacheFresh(Some(e), now) <==> now - e.lastKvReadAt < 1000 || now - e.lastKvWriteAt < 1000
    ensures !CacheFresh(None, now)
  {
  }

  /** A record is kept as it is unless its block is over, is longer than fifteen minutes, or its failures are more than
      four times the limit; then it is dropped, loses the block, or starts over below the limit. */
  lemma HealLaw(auth: AuthLimits, r: Record, now: int)
    ensures Heal(auth, r, now).None? <==> 0 < r.blockUntil <= now
    ensures Heal(auth, r, now).Some? ==>
              var h := Heal(auth, r, now).value;
              && h.windowStart == r.windowStart && h.requestCount == r.requestCount
              && h.blockUntil == (if r.blockUntil > 0 && r.blockUntil > now + 900000 then 0 else r.blockUntil)
              && (r.blockUntil <= now + 900000 && r.failCount <= auth.max * 4 ==> h == r)
              && (r.failCount > auth.max * 4 && auth.max >= 1 ==> h.failCount == auth.max - 1)
  {
  }

  /** Whatever a request, a failure or healing writes carries the time of it. */
  lemma AttemptLaw(auth: AuthLimits, found: Option<Record>, r: Record, now: int, limit: int)
    ensures var kept := TrackRecord(found, now, limit).0; kept.Some? ==> kept.value.lastAttempt == now
    ensures FailRecord(auth, found, now).lastAttempt == now
    ensures Heal(auth, r, now).Some? && Heal(auth, r, now) != Some(r) ==> Heal(auth, r, now).value.lastAttempt == now
  {
  }
}
