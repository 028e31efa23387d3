/** Archiving one table: pages are posted and marked concurrently, and marked rows are deleted at the end. */
module Archive {
  import opened Results
  import opened Values
  import opened Concurrency

  const BATCH_SIZE := 10000

  datatype Row = Row(createdAt: Option<int>, flushedAt: Option<int>)

  type Table = map<int, Row>

  /** `"created_at" <= ?`, which no row without a date satisfies. */
  predicate Due(row: Row, end: int) {
    row.createdAt.Some? && row.createdAt.value <= end
  }

  function DueIds(table: Table, end: int): set<int> {
    set id | id in table && Due(table[id], end)
  }

  lemma EmptyOrNot(ids: set<int>)
    ensures ids == {} || exists id :: id in ids
  {
    if forall id :: id !in ids {
      SameIds(ids, {});
    }
  }

  lemma SameIds(a: set<int>, b: set<int>)
    requires forall id :: id in a <==> id in b
    ensures a == b
  {
    forall id | id in a ensures id in b {}
    forall id | id in b ensures id in a {}
    assert a <= b && b <= a;
  }

  lemma {:induction false} HasLeast(ids: set<int>)
    requires ids != {}
    ensures exists least :: least in ids && forall id <- ids :: least <= id
  {
    EmptyOrNot(ids);
    var id :| id in ids;
    if ids == {id} {
      assert forall x <- ids :: id <= x;
    } else {
      var others := ids - {id};
      assert ids == others + {id} && others != {};
      HasLeast(others);
      var least :| least in others && forall x <- others :: least <= x;
      var smaller := if least < id then least else id;
      forall x | x in ids ensures smaller <= x {
        assert x == id || x in others;
      }
      assert smaller in ids;
    }
  }

  function Least(ids: set<int>): (least: int)
    requires ids != {}
    ensures least in ids && forall id <- ids :: least <= id
  {
    HasLeast(ids);
    var least :| least in ids && forall id <- ids :: least <= id;
    least
  }

  /** `ORDER BY "globalId" ASC`. */
  function Sorted(ids: set<int>): (s: seq<int>)
    ensures multiset(s) == multiset(ids) && |s| == |ids|
  {
    if ids == {} then []
    else
      var least := Least(ids);
      assert ids == {least} + (ids - {least});
      [least] + Sorted(ids - {least})
  }

  /** `LIMIT 10000 OFFSET offset` of the rows due, in order. */
  function Page(table: Table, end: int, offset: nat): (page: seq<int>) {
    var ids := Sorted(DueIds(table, end));
    if offset >= |ids| then []
    else if |ids| - offset <= BATCH_SIZE then ids[offset..]
    else ids[offset..offset + BATCH_SIZE]
  }

  function Mark(table: Table, ids: seq<int>, now: int): Table {
    map id | id in table :: if id in ids then table[id].(flushedAt := Some(now)) else table[id]
  }

  function DeleteFlushed(table: Table, end: int): Table {
    map id | id in table && !(Due(table[id], end) && table[id].flushedAt.Some?) :: table[id]
  }

  /** Where a batch stands; a batch that failed may have been taken by the endpoint all the same. */
  datatype Stage = Sending | Marking | Done | Failed(taken: bool)

  datatype Flight = Flight(ids: seq<int>, stage: Stage)

  predicate Settled(f: Flight) {
    f.stage.Done? || f.stage.Failed?
  }

  predicate Taken(f: Flight) {
    f.stage.Marking? || f.stage.Done? || (f.stage.Failed? && f.stage.taken)
  }

  /** All rows in flight. */
  ghost function InFlight(flights: seq<Flight>): multiset<int> {
    if flights == [] then multiset{} else multiset(flights[0].ids) + InFlight(flights[1..])
  }

  /** The rows in flight that the endpoint has taken. */
  ghost function TakenOf(flights: seq<Flight>): multiset<int> {
    if flights == [] then multiset{}
    else TakenBy(flights[0]) + TakenOf(flights[1..])
  }

  ghost function TakenBy(f: Flight): multiset<int> {
    if Taken(f) then multiset(f.ids) else multiset{}
  }

  lemma FlightsAt(flights: seq<Flight>, k: nat)
    requires k < |flights|
    ensures InFlight(flights) == multiset(flights[k].ids) + InFlight(flights[..k] + flights[k + 1..])
    ensures TakenOf(flights) == TakenBy(flights[k]) + TakenOf(flights[..k] + flights[k + 1..])
  {
    AllAround(flights, k);
    FlightsBetween(flights[..k], flights[k], flights[k + 1..]);
  }

  lemma AllAround(flights: seq<Flight>, k: nat)
    requires k < |flights|
    ensures flights == flights[..k] + ([flights[k]] + flights[k + 1..])
  {
  }

  lemma {:induction false} FlightsBetween(before: seq<Flight>, f: Flight, behind: seq<Flight>)
    ensures InFlight(before + ([f] + behind)) == multiset(f.ids) + InFlight(before + behind)
    ensures TakenOf(before + ([f] + behind)) == TakenBy(f) + TakenOf(before + behind)
  {
    if before == [] {
      FlightsMore(f, behind);
      assert before + ([f] + behind) == [f] + behind && before + behind == behind;
    } else {
      var g, rest := before[0], before[1..];
      FlightsBetween(rest, f, behind);
      RowsBehind(g, rest + ([f] + behind), multiset(f.ids), rest + behind);
      TakenBehind(g, rest + ([f] + behind), TakenBy(f), rest + behind);
      FirstOfBoth(before, [f] + behind);
      FirstOfBoth(before, behind);
    }
  }

  lemma FirstOfBoth(before: seq<Flight>, behind: seq<Flight>)
    requires before != []
    ensures before + behind == [before[0]] + (before[1..] + behind)
  {
  }

  lemma RowsBehind(f: Flight, tail: seq<Flight>, rows: multiset<int>, fewer: seq<Flight>)
    requires InFlight(tail) == rows + InFlight(fewer)
    ensures InFlight([f] + tail) == rows + InFlight([f] + fewer)
  {
    FlightsMore(f, tail);
    FlightsMore(f, fewer);
    Swap(multiset(f.ids), rows, InFlight(fewer), InFlight(tail), InFlight([f] + tail), InFlight([f] + fewer));
  }

  lemma TakenBehind(f: Flight, tail: seq<Flight>, rows: multiset<int>, fewer: seq<Flight>)
    requires TakenOf(tail) == rows + TakenOf(fewer)
    ensures TakenOf([f] + tail) == rows + TakenOf([f] + fewer)
  {
    FlightsMore(f, tail);
    FlightsMore(f, fewer);
    Swap(TakenBy(f), rows, TakenOf(fewer), TakenOf(tail), TakenOf([f] + tail), TakenOf([f] + fewer));
  }

  lemma FlightsMore(f: Flight, flights: seq<Flight>)
    ensures InFlight([f] + flights) == multiset(f.ids) + InFlight(flights)
    ensures TakenOf([f] + flights) == TakenBy(f) + TakenOf(flights)
  {
    assert ([f] + flights)[1..] == flights;
  }

  lemma Swap(a: multiset<int>, b: multiset<int>, c: multiset<int>, bc: multiset<int>, abc: multiset<int>,
             ac: multiset<int>)
    requires bc == b + c && abc == a + bc && ac == a + c
    ensures abc == b + ac
  {
  }

  lemma EmptyFirst(a: multiset<int>, b: multiset<int>)
    ensures a + b == multiset{} + b + a
  {
  }

  lemma SameRows(flights: seq<Flight>, k: nat, f: Flight)
    requires k < |flights| && f.ids == flights[k].ids
    ensures InFlight(flights[k := f]) == InFlight(flights)
  {
    FlightsAt(flights, k);
    FlightsAt(flights[k := f], k);
    assert flights[k := f][..k] + flights[k := f][k + 1..] == flights[..k] + flights[k + 1..];
  }

  lemma TakenUpdated(flights: seq<Flight>, k: nat, f: Flight)
    requires k < |flights| && f.ids == flights[k].ids
    ensures !Taken(flights[k]) ==> TakenOf(flights[k := f]) == TakenOf(flights) + TakenBy(f)
    ensures Taken(flights[k]) && Taken(f) ==> TakenOf(flights[k := f]) == TakenOf(flights)
  {
    FlightsAt(flights, k);
    FlightsAt(flights[k := f], k);
    EmptyFirst(TakenBy(f), TakenOf(flights[..k] + flights[k + 1..]));
    assert flights[k := f][..k] + flights[k := f][k + 1..] == flights[..k] + flights[k + 1..];
  }

  lemma {:induction false} FlightsAppended(flights: seq<Flight>, f: Flight)
    ensures InFlight(flights + [f]) == InFlight(flights) + multiset(f.ids)
    ensures TakenOf(flights + [f]) == TakenOf(flights) + TakenBy(f)
  {
    FlightsAt(flights + [f], |flights|);
    assert (flights + [f])[..|flights|] + (flights + [f])[|flights| + 1..] == flights;
  }

  lemma TakenAt(flights: seq<Flight>, k: nat, id: int)
    requires k < |flights| && Taken(flights[k]) && id in flights[k].ids
    ensures id in TakenOf(flights)
  {
    FlightsAt(flights, k);
  }

  /** Rows stay, keep their date, and are marked only if the endpoint took them; new rows are not due. */
  ghost predicate Kept(before: Table, after: Table, end: int, taken: multiset<int>) {
    && (forall id <- before :: id in after && after[id].createdAt == before[id].createdAt)
    && (forall id <- before ::
          after[id].flushedAt == before[id].flushedAt || (after[id].flushedAt.Some? && id in taken))
    && (forall id <- after :: id in before || !Due(after[id], end))
  }

  lemma KeptTwice(t0: Table, t1: Table, t2: Table, end: int, taken1: multiset<int>, taken2: multiset<int>)
    requires Kept(t0, t1, end, taken1) && Kept(t1, t2, end, taken2) && taken1 <= taken2
    ensures Kept(t0, t2, end, taken2)
  {
  }

  lemma KeptIsDue(before: Table, after: Table, end: int, taken: multiset<int>)
    requires Kept(before, after, end, taken)
    ensures DueIds(after, end) == DueIds(before, end)
  {
    forall id ensures id in DueIds(after, end) <==> id in DueIds(before, end) {
    }
  }

  /** The rows of a batch are in the table, and marked once it is done. */
  ghost predicate Stands(table: Table, f: Flight) {
    forall id <- f.ids :: id in table && (f.stage.Done? ==> table[id].flushedAt.Some?)
  }

  ghost predicate AllStand(table: Table, flights: seq<Flight>) {
    forall j | 0 <= j < |flights| :: Stands(table, flights[j])
  }

  lemma KeptStands(before: Table, after: Table, end: int, taken: multiset<int>, flights: seq<Flight>)
    requires Kept(before, after, end, taken) && AllStand(before, flights)
    ensures AllStand(after, flights)
  {
    forall j | 0 <= j < |flights| ensures Stands(after, flights[j]) {
      assert Stands(before, flights[j]);
    }
  }

  predicate Later(before: Stage, after: Stage) {
    after == before || before.Sending? || (before.Marking? && !after.Sending?)
  }

  /** The same batches, each as far as before or further. */
  ghost predicate FlyOn(before: seq<Flight>, after: seq<Flight>) {
    |after| == |before|
    && forall j | 0 <= j < |after| :: after[j].ids == before[j].ids && Later(before[j].stage, after[j].stage)
  }

  /** What any steps of the batches in flight do to the table, the endpoint and the batches. */
  ghost predicate Progress(t0: Table, accepted0: multiset<int>, flights0: seq<Flight>, t1: Table,
                           accepted1: multiset<int>, flights1: seq<Flight>, end: int) {
    && FlyOn(flights0, flights1) && InFlight(flights1) == InFlight(flights0)
    && AllStand(t1, flights1) && Kept(t0, t1, end, TakenOf(flights1))
    && TakenOf(flights0) <= TakenOf(flights1)
    && accepted1 == accepted0 + (TakenOf(flights1) - TakenOf(flights0))
  }

  lemma AddAndTake(a: multiset<int>, b: multiset<int>)
    ensures a + b - a == b && a <= a + b && a + multiset{} == a
  {
  }

  lemma NoProgress(t: Table, accepted: multiset<int>, flights: seq<Flight>, end: int)
    requires AllStand(t, flights)
    ensures Progress(t, accepted, flights, t, accepted, flights, end)
  {
  }

  lemma ProgressTwice(t0: Table, a0: multiset<int>, f0: seq<Flight>, t1: Table, a1: multiset<int>, f1: seq<Flight>,
                      t2: Table, a2: multiset<int>, f2: seq<Flight>, end: int)
    requires Progress(t0, a0, f0, t1, a1, f1, end) && Progress(t1, a1, f1, t2, a2, f2, end)
    ensures Progress(t0, a0, f0, t2, a2, f2, end)
  {
    KeptTwice(t0, t1, t2, end, TakenOf(f1), TakenOf(f2));
    FlyTwice(f0, f1, f2);
    TakeTwice(a0, TakenOf(f0), TakenOf(f1), TakenOf(f2));
  }

  lemma FlyTwice(f0: seq<Flight>, f1: seq<Flight>, f2: seq<Flight>)
    requires FlyOn(f0, f1) && FlyOn(f1, f2)
    ensures FlyOn(f0, f2)
  {
    forall j | 0 <= j < |f2| ensures f2[j].ids == f0[j].ids && Later(f0[j].stage, f2[j].stage) {
      assert f1[j].ids == f0[j].ids && Later(f0[j].stage, f1[j].stage);
    }
  }

  lemma TakeTwice(a: multiset<int>, t0: multiset<int>, t1: multiset<int>, t2: multiset<int>)
    requires t0 <= t1 <= t2
    ensures a + (t1 - t0) + (t2 - t1) == a + (t2 - t0)
  {
  }

  lemma StepFlies(flights: seq<Flight>, k: nat, g: Flight)
    requires k < |flights| && g.ids == flights[k].ids && Later(flights[k].stage, g.stage)
    ensures FlyOn(flights, flights[k := g])
  {
  }

  lemma StepStands(t0: Table, t1: Table, flights: seq<Flight>, k: nat, g: Flight, end: int, taken: multiset<int>)
    requires AllStand(t0, flights) && Kept(t0, t1, end, taken) && k < |flights| && g.ids == flights[k].ids
    requires g.stage.Done? ==> forall id <- g.ids :: id in t1 && t1[id].flushedAt.Some?
    ensures AllStand(t1, flights[k := g])
  {
    KeptStands(t0, t1, end, taken, flights);
    assert Stands(t1, flights[k]);
    assert Stands(t1, g);
  }

  /** What the endpoint holds after a step of batch `k`. */
  lemma StepTakes(accepted: multiset<int>, flights: seq<Flight>, k: nat, g: Flight)
    requires k < |flights| && g.ids == flights[k].ids && Later(flights[k].stage, g.stage)
    requires Taken(flights[k]) ==> Taken(g)
    ensures TakenOf(flights) <= TakenOf(flights[k := g])
    ensures TakenOf(flights[k := g]) - TakenOf(flights) == if Taken(flights[k]) then multiset{} else TakenBy(g)
  {
    TakenUpdated(flights, k, g);
    AddAndTake(TakenOf(flights), if Taken(flights[k]) then multiset{} else TakenBy(g));
  }

  /** A batch is posted: the endpoint takes it or not. */
  lemma SendStep(t: Table, accepted: multiset<int>, flights: seq<Flight>, k: nat, g: Flight, end: int)
    requires AllStand(t, flights) && k < |flights| && flights[k].stage.Sending?
    requires g.ids == flights[k].ids && (g.stage.Marking? || g.stage.Failed?)
    ensures Progress(t, accepted, flights, t, accepted + TakenBy(g), flights[k := g], end)
  {
    StepFlies(flights, k, g);
    SameRows(flights, k, g);
    StepTakes(accepted, flights, k, g);
    StepStands(t, t, flights, k, g, end, TakenOf(flights[k := g]));
  }

  /** A batch is marked, or marking it fails. */
  lemma MarkStep(t0: Table, t1: Table, accepted: multiset<int>, flights: seq<Flight>, k: nat, g: Flight, now: int,
                 end: int)
    requires AllStand(t0, flights) && k < |flights| && flights[k].stage.Marking? && g.ids == flights[k].ids
    requires t1 == t0 || t1 == Mark(t0, g.ids, now)
    requires g.stage == Failed(true) || (g.stage.Done? && t1 == Mark(t0, g.ids, now))
    ensures Progress(t0, accepted, flights, t1, accepted, flights[k := g], end)
  {
    StepFlies(flights, k, g);
    SameRows(flights, k, g);
    StepTakes(accepted, flights, k, g);
    MarkKeeps(t0, t1, flights[k := g], k, now, end);
    assert Stands(t0, flights[k]);
    StepStands(t0, t1, flights, k, g, end, TakenOf(flights[k := g]));
    AddAndTake(accepted, multiset{});
  }

  lemma MarkKeeps(t0: Table, t1: Table, flights: seq<Flight>, k: nat, now: int, end: int)
    requires k < |flights| && Taken(flights[k])
    requires t1 == t0 || t1 == Mark(t0, flights[k].ids, now)
    ensures Kept(t0, t1, end, TakenOf(flights))
  {
    forall id | id in flights[k].ids ensures id in TakenOf(flights) {
      TakenAt(flights, k, id);
    }
  }

  /** Where a run started: the table, what the endpoint held, and the rows due, in order. */
  datatype Start = Start(table: Table, accepted: multiset<int>, end: int, due: seq<int>)

  ghost predicate IsStart(s: Start) {
    s.due == Sorted(DueIds(s.table, s.end))
  }

  /** The books of a run: the first `offset` rows due are either in `done`, taken once and marked, or in flight. */
  ghost predicate Accounted(s: Start, table: Table, accepted: multiset<int>, flights: seq<Flight>, done: multiset<int>,
                            offset: nat) {
    && offset <= |s.due|
    && done + InFlight(flights) == multiset(s.due[..offset])
    && accepted == s.accepted + (done + TakenOf(flights))
    && Kept(s.table, table, s.end, done + TakenOf(flights))
    && AllStand(table, flights)
    && forall id <- done :: id in table && table[id].flushedAt.Some?
  }

  lemma AccountedStart(s: Start)
    ensures Accounted(s, s.table, s.accepted, [], multiset{}, 0)
  {
    assert s.accepted + multiset{} == s.accepted;
  }

  lemma AccountedProgress(s: Start, t1: Table, a1: multiset<int>, f1: seq<Flight>, done: multiset<int>, offset: nat,
                          t2: Table, a2: multiset<int>, f2: seq<Flight>)
    requires Accounted(s, t1, a1, f1, done, offset) && Progress(t1, a1, f1, t2, a2, f2, s.end)
    ensures Accounted(s, t2, a2, f2, done, offset)
  {
    KeptTwice(s.table, t1, t2, s.end, done + TakenOf(f1), done + TakenOf(f2));
    assert a2 == s.accepted + (done + TakenOf(f2)) by {
      GrowBy(s.accepted, done, TakenOf(f1), TakenOf(f2));
    }
  }

  lemma GrowBy(a: multiset<int>, b: multiset<int>, c: multiset<int>, d: multiset<int>)
    requires c <= d
    ensures a + (b + c) + (d - c) == a + (b + d)
  {
  }

  /** A page is the next stretch of the rows due, as long as none of them came or went. */
  lemma PageIsNext(s: Start, table: Table, taken: multiset<int>, offset: nat, page: seq<int>)
    requires IsStart(s) && Kept(s.table, table, s.end, taken) && offset <= |s.due| && page == Page(table, s.end, offset)
    ensures offset + |page| <= |s.due| && (|page| < BATCH_SIZE ==> offset + |page| == |s.due|)
    ensures multiset(s.due[..offset + |page|]) == multiset(s.due[..offset]) + multiset(page)
    ensures forall id <- page :: id in table
  {
    KeptIsDue(s.table, table, s.end, taken);
    assert page == s.due[offset..offset + |page|];
    assert s.due[..offset] + page == s.due[..offset + |page|];
    forall id | id in page ensures id in table {
      assert id in s.due;
      assert id in multiset(s.due);
    }
  }

  lemma AccountedPage(s: Start, table: Table, accepted: multiset<int>, flights: seq<Flight>, done: multiset<int>,
                      offset: nat, page: seq<int>, longer: seq<Flight>, next: nat)
    requires IsStart(s) && Accounted(s, table, accepted, flights, done, offset) && page == Page(table, s.end, offset)
    requires longer == flights + [Flight(page, Sending)] && next == offset + |page|
    ensures next <= |s.due| && (|page| < BATCH_SIZE ==> next == |s.due|)
    ensures Accounted(s, table, accepted, longer, done, next)
  {
    var f := Flight(page, Sending);
    PageIsNext(s, table, done + TakenOf(flights), offset, page);
    FlightsAppended(flights, f);
    RegroupRows(done, InFlight(flights), multiset(page));
    AddAndTake(TakenOf(flights), multiset{});
    StandsMore(table, flights, f);
  }

  lemma RegroupRows(a: multiset<int>, b: multiset<int>, c: multiset<int>)
    ensures a + b + c == a + (b + c)
  {
  }

  lemma StandsMore(table: Table, flights: seq<Flight>, f: Flight)
    requires AllStand(table, flights) && Stands(table, f)
    ensures AllStand(table, flights + [f])
  {
  }

  lemma AccountedSettled(s: Start, table: Table, accepted: multiset<int>, flights: seq<Flight>, done: multiset<int>,
                         offset: nat, k: nat)
    requires Accounted(s, table, accepted, flights, done, offset)
    requires k < |flights| && flights[k].stage.Done?
    ensures Accounted(s, table, accepted, flights[..k] + flights[k + 1..], done + multiset(flights[k].ids), offset)
  {
    var ids, others := multiset(flights[k].ids), flights[..k] + flights[k + 1..];
    FlightsAt(flights, k);
    RegroupRows(done, ids, InFlight(others));
    RegroupRows(done, ids, TakenOf(others));
    assert Stands(table, flights[k]);
    forall j | 0 <= j < |others| ensures Stands(table, others[j]) {
      assert others[j] == flights[if j < k then j else j + 1];
    }
  }

  /** Nothing is lost: a row that left was due and taken in this run; a row that stayed was marked only if taken; rows
      that were not due are untouched, and new rows are not due. */
  ghost predicate Safe(t0: Table, accepted0: multiset<int>, table: Table, accepted: multiset<int>, end: int) {
    && accepted0 <= accepted
    && (forall id <- t0 | id !in table :: Due(t0[id], end) && accepted[id] > accepted0[id])
    && (forall id <- t0 | id in table :: table[id] == t0[id]
          || (&& Due(t0[id], end) && table[id].createdAt == t0[id].createdAt && table[id].flushedAt.Some?
              && accepted[id] > accepted0[id]))
    && (forall id <- table :: id in t0 || !Due(table[id], end))
  }

  /** Every row due was taken exactly once, and none is left. */
  ghost predicate Archived(t0: Table, accepted0: multiset<int>, table: Table, accepted: multiset<int>, end: int) {
    accepted == accepted0 + multiset(DueIds(t0, end)) && DueIds(table, end) == {}
  }

  lemma AccountedIsSafe(s: Start, table: Table, accepted: multiset<int>, flights: seq<Flight>, done: multiset<int>,
                        offset: nat)
    requires IsStart(s) && Accounted(s, table, accepted, flights, done, offset)
    ensures Safe(s.table, s.accepted, table, accepted, s.end) && forall id <- s.table :: id in table
  {
    var taken := done + TakenOf(flights);
    TakenIsInFlight(flights);
    assert s.due[..offset] + s.due[offset..] == s.due;
    assert taken <= multiset(s.due[..offset]) <= multiset(s.due);
    forall id | id in taken ensures id in s.table && Due(s.table[id], s.end) {
      assert id in multiset(s.due);
      assert id in DueIds(s.table, s.end);
    }
  }

  lemma {:induction false} TakenIsInFlight(flights: seq<Flight>)
    ensures TakenOf(flights) <= InFlight(flights)
  {
    if flights != [] {
      TakenIsInFlight(flights[1..]);
    }
  }

  lemma AccountedIsArchived(s: Start, table: Table, accepted: multiset<int>, done: multiset<int>, offset: nat)
    requires IsStart(s) && Accounted(s, table, accepted, [], done, offset) && offset == |s.due|
    ensures Safe(s.table, s.accepted, DeleteFlushed(table, s.end), accepted, s.end)
    ensures Archived(s.table, s.accepted, DeleteFlushed(table, s.end), accepted, s.end)
    ensures |done| == |DueIds(s.table, s.end)|
  {
    AccountedIsSafe(s, table, accepted, [], done, offset);
    assert s.due[..offset] == s.due;
    assert done + multiset{} == done;
    KeptIsDue(s.table, table, s.end, done);
    forall id ensures id !in DueIds(DeleteFlushed(table, s.end), s.end) {
      if id in DueIds(table, s.end) {
        assert id in multiset(s.due);
      }
    }
    SameIds(DueIds(DeleteFlushed(table, s.end), s.end), {});
    forall id | id in s.table && id !in DeleteFlushed(table, s.end)
      ensures Due(s.table[id], s.end) && accepted[id] > s.accepted[id]
    {
      assert id in DueIds(s.table, s.end);
      assert id in multiset(s.due);
    }
  }

  /** An upper bound of the rounds that a loop with a positive limit still takes. */
  ghost function Work(s: Start, offset: nat, flights: seq<Flight>, hasMore: bool): int {
    2 * (|s.due| - offset) + |flights| + if hasMore then 1 else 0
  }

  /** How a run ends; `Stopped` stands for a run that is cut off in its loop. */
  datatype Outcome = Finished(total: nat) | Skipped | Threw | Stopped

  class Archiver {
    var table: Table
    /** How often the endpoint has taken each row. */
    var accepted: multiset<int>
    var flights: seq<Flight>

    constructor (table: Table)
      ensures this.table == table && accepted == multiset{} && flights == []
    {
      this.table, accepted, flights := table, multiset{}, [];
    }

    /** One step of a batch: posting it, or marking it; either may fail before or after taking effect. */
    method Advance(k: nat, end: int, now: int)
      requires k < |flights| && AllStand(table, flights)
      modifies this
      ensures Progress(old(table), old(accepted), old(flights), table, accepted, flights, end)
      ensures old(flights[k].stage.Marking?) ==> Settled(flights[k])
      ensures old(flights[k].stage.Sending?) ==> !flights[k].stage.Sending?
    {
      NoProgress(table, accepted, flights, end);
      if flights[k].stage.Sending? {
        Send(k, end);
      } else if flights[k].stage.Marking? {
        MarkRows(k, end, now);
      }
    }

    method Send(k: nat, end: int)
      requires k < |flights| && AllStand(table, flights) && flights[k].stage.Sending?
      modifies this
      ensures Progress(old(table), old(accepted), old(flights), table, accepted, flights, end)
      ensures !flights[k].stage.Sending? && table == old(table)
      ensures accepted == old(accepted) || accepted == old(accepted) + multiset(old(flights[k].ids))
    {
      var effect: bool, reported: bool := *, *;
      var g := Flight(flights[k].ids, if effect && reported then Marking else Failed(effect));
      var more := if effect then multiset(g.ids) else multiset{};
      assert more == TakenBy(g);
      SendStep(table, accepted, flights, k, g, end);
      accepted, flights := accepted + more, flights[k := g];
    }

    method MarkRows(k: nat, end: int, now: int)
      requires k < |flights| && AllStand(table, flights) && flights[k].stage.Marking?
      modifies this
      ensures Progress(old(table), old(accepted), old(flights), table, accepted, flights, end)
      ensures Settled(flights[k])
      ensures table == old(table) || table == Mark(old(table), old(flights[k].ids), now)
    {
      var effect: bool, reported: bool := *, *;
      var g := Flight(flights[k].ids, if effect && reported then Done else Failed(true));
      var after := if effect then Mark(table, g.ids, now) else table;
      MarkStep(table, after, accepted, flights, k, g, now, end);
      table, flights := after, flights[k := g];
    }

    /** Another worker adds a row that is not due. */
    method Insert(id: int, row: Row, end: int)
      requires id !in table && !Due(row, end) && AllStand(table, flights)
      modifies this`table
      ensures Progress(old(table), accepted, flights, table, accepted, flights, end)
    {
      assert Kept(table, table[id := row], end, TakenOf(flights));
      KeptStands(table, table[id := row], end, TakenOf(flights), flights);
      table := table[id := row];
      NoProgress(table, accepted, flights, end);
    }

    /** While the archiver waits, any batches take any steps and other workers add rows. */
    method Background(end: int)
      requires AllStand(table, flights)
      modifies this
      ensures Progress(old(table), old(accepted), old(flights), table, accepted, flights, end)
    {
      var steps: nat := *;
      NoProgress(table, accepted, flights, end);
      while steps > 0
        invariant Progress(old(table), old(accepted), old(flights), table, accepted, flights, end)
      {
        ghost var t, a, f := table, accepted, flights;
        var id: int, row: Row, k: int, now: int := *, *, *, *;
        if 0 <= k < |flights| {
          Advance(k, end, now);
          ProgressTwice(old(table), old(accepted), old(flights), t, a, f, table, accepted, flights, end);
        } else if id !in table && !Due(row, end) {
          Insert(id, row, end);
          ProgressTwice(old(table), old(accepted), old(flights), t, a, f, table, accepted, flights, end);
        }
        steps := steps - 1;
      }
    }

    /** `Promise.race`: some batch settles while all of them run. */
    method Race(end: int) returns (k: nat)
      requires AllStand(table, flights) && flights != []
      modifies this
      ensures Progress(old(table), old(accepted), old(flights), table, accepted, flights, end)
      ensures k < |flights| && Settled(flights[k])
    {
      Background(end);
      k :| 0 <= k < |flights|;
      var now1: int, now2: int := *, *;
      ghost var t, a, f := table, accepted, flights;
      Advance(k, end, now1);
      ProgressTwice(old(table), old(accepted), old(flights), t, a, f, table, accepted, flights, end);
      t, a, f := table, accepted, flights;
      Advance(k, end, now2);
      ProgressTwice(old(table), old(accepted), old(flights), t, a, f, table, accepted, flights, end);
    }

    /** At most `rounds` rounds of a run over the rows up to `end`. Any query, post, mark or deletion may fail; an error
        that says that the table is missing is passed over. With a positive limit two rounds for each row due and one
        more are always enough; without one nothing is started and no number of rounds is enough. */
    method Run(end: int, limit: Numeric, rounds: nat) returns (outcome: Outcome)
      requires flights == []
      modifies this
      ensures Safe(old(table), old(accepted), table, accepted, end) && AllStand(table, flights)
      ensures outcome.Finished? ==> flights == [] && Archived(old(table), old(accepted), table, accepted, end)
      ensures outcome.Finished? ==> outcome.total == |DueIds(old(table), end)|
      ensures !outcome.Finished? ==>
                (forall id <- old(table) :: id in table) || Archived(old(table), old(accepted), table, accepted, end)
      ensures rounds > 2 * |DueIds(old(table), end)| ==> (outcome.Stopped? <==> !Below(0, limit))
      ensures !Below(0, limit) ==> outcome.Stopped? && flights == [] && table == old(table) && accepted == old(accepted)
    {
      ghost var s := Start(table, accepted, end, Sorted(DueIds(table, end)));
      AccountedStart(s);
      var running, idle, total: nat, offset: nat;
      ghost var done;
      running, idle, total, offset, done := RunBatches(end, limit, rounds, s);
      if running && !idle {
        AccountedIsSafe(s, table, accepted, flights, done, offset);
        outcome := Stopped;
      } else {
        running := Delete(end, running, s, done, offset);
        var missing: bool := *;
        outcome := if running then Finished(total) else if missing then Skipped else Threw;
      }
    }

    /** The outer loop: `running` unless an error ended it, and `idle` if nothing was left to do. */
    method RunBatches(end: int, limit: Numeric, rounds: nat, ghost s: Start)
      returns (running: bool, idle: bool, total: nat, offset: nat, ghost done: multiset<int>)
      requires IsStart(s) && s == Start(table, accepted, end, s.due) && flights == []
      requires Accounted(s, table, accepted, flights, multiset{}, 0)
      modifies this
      ensures Accounted(s, table, accepted, flights, done, offset) && total == |done|
      ensures running && idle ==> flights == [] && offset == |s.due|
      ensures Below(0, limit) && rounds > 2 * |s.due| ==> !running || idle
      ensures !Below(0, limit) ==>
                running && !idle && flights == [] && table == old(table) && accepted == old(accepted)
    {
      done := multiset{};
      offset, total, running := 0, 0, true;
      var hasMore, round: nat := true, 0;
      while running && (hasMore || flights != []) && round < rounds
        invariant Accounted(s, table, accepted, flights, done, offset) && total == |done| && round <= rounds
        invariant !hasMore && running ==> offset == |s.due|
        invariant Below(0, limit) && running ==> Work(s, offset, flights, hasMore) + round <= 2 * |s.due| + 1
        invariant !Below(0, limit) ==>
                    running && hasMore && flights == [] && table == old(table) && accepted == old(accepted)
      {
        offset, hasMore, running := FillQueue(limit, offset, hasMore, end, s, done);
        if running && flights != [] {
          var processed;
          running, processed, done := AwaitBatch(end, s, done, offset);
          total := total + processed;
        }
        round := round + 1;
      }
      idle := !hasMore && flights == [];
    }

    /** The inner loop: query pages and start their batches until the limit is reached. */
    method FillQueue(limit: Numeric, start: nat, more: bool, end: int, ghost s: Start, ghost done: multiset<int>)
      returns (offset: nat, hasMore: bool, answered: bool)
      requires IsStart(s) && s.end == end && (!more ==> start == |s.due|)
      requires Accounted(s, table, accepted, flights, done, start)
      modifies this
      ensures Accounted(s, table, accepted, flights, done, offset)
      ensures !hasMore && answered ==> offset == |s.due|
      ensures answered ==> flights != [] || !hasMore || !Below(0, limit)
      ensures Work(s, offset, flights, hasMore) <= Work(s, start, old(flights), more)
      ensures !Below(0, limit) ==> offset == start && hasMore == more && answered && flights == old(flights)
      ensures !Below(0, limit) ==> table == old(table) && accepted == old(accepted)
    {
      offset, hasMore, answered := start, more, true;
      while answered && hasMore && Below(|flights|, limit)
        invariant Accounted(s, table, accepted, flights, done, offset)
        invariant !hasMore && answered ==> offset == |s.due|
        invariant Work(s, offset, flights, hasMore) <= Work(s, start, old(flights), more)
        invariant !Below(0, limit) ==> offset == start && hasMore == more && answered && flights == old(flights)
        invariant !Below(0, limit) ==> table == old(table) && accepted == old(accepted)
        decreases answered, Work(s, offset, flights, hasMore)
      {
        var next;
        answered, next := QueryPage(offset, end, s, done);
        if next - offset < BATCH_SIZE {
          hasMore := false;
        }
        offset := next;
      }
    }

    /** Query one page, while the batches in flight go on, and start a batch for it unless it is empty. */
    method QueryPage(offset: nat, end: int, ghost s: Start, ghost done: multiset<int>)
      returns (answered: bool, next: nat)
      requires IsStart(s) && s.end == end && Accounted(s, table, accepted, flights, done, offset)
      modifies this
      ensures Accounted(s, table, accepted, flights, done, next) && next >= offset
      ensures answered && next - offset < BATCH_SIZE ==> next == |s.due|
      ensures |flights| == |old(flights)| + if next > offset then 1 else 0
    {
      Await(offset, end, s, done);
      answered := *;
      if answered {
        next := Launch(offset, end, s, done);
      } else {
        next := offset;
      }
    }

    /** Read a page, and put a batch for it on the queue unless it is empty. */
    method Launch(offset: nat, end: int, ghost s: Start, ghost done: multiset<int>) returns (next: nat)
      requires IsStart(s) && s.end == end && Accounted(s, table, accepted, flights, done, offset)
      modifies this`flights
      ensures Accounted(s, table, accepted, flights, done, next) && next >= offset
      ensures next - offset < BATCH_SIZE ==> next == |s.due|
      ensures |flights| == |old(flights)| + if next > offset then 1 else 0
    {
      var page := Page(table, end, offset);
      var longer := flights + [Flight(page, Sending)];
      next := offset + |page|;
      AccountedPage(s, table, accepted, flights, done, offset, page, longer, next);
      if page == [] {
        next := offset;
      } else {
        flights := longer;
      }
    }

    /** `Background`, with the books of a run. */
    method Await(offset: nat, end: int, ghost s: Start, ghost done: multiset<int>)
      requires s.end == end && Accounted(s, table, accepted, flights, done, offset)
      modifies this
      ensures Accounted(s, table, accepted, flights, done, offset) && |flights| == |old(flights)|
    {
      ghost var t, a, f := table, accepted, flights;
      Background(end);
      AccountedProgress(s, t, a, f, done, offset, table, accepted, flights);
    }

    /** Wait for a batch to settle, take it off the queue and count its rows, unless it failed. */
    method AwaitBatch(end: int, ghost s: Start, ghost done: multiset<int>, ghost offset: nat)
      returns (fulfilled: bool, processed: nat, ghost settled: multiset<int>)
      requires s.end == end && Accounted(s, table, accepted, flights, done, offset) && flights != []
      modifies this
      ensures Accounted(s, table, accepted, flights, settled, offset) && |settled| == |done| + processed
      ensures fulfilled ==> |flights| < |old(flights)|
    {
      ghost var t, a, f := table, accepted, flights;
      var k := Race(end);
      AccountedProgress(s, t, a, f, done, offset, table, accepted, flights);
      fulfilled := flights[k].stage.Done?;
      if fulfilled {
        processed, settled := |flights[k].ids|, done + multiset(flights[k].ids);
        AccountedSettled(s, table, accepted, flights, done, offset, k);
        flights := flights[..k] + flights[k + 1..];
      } else {
        processed, settled := 0, done;
      }
    }

    /** `deleteFlushedRecordsFromD1`, unless an error ended the loop; it may fail before or after taking effect. */
    method Delete(end: int, running: bool, ghost s: Start, ghost done: multiset<int>, ghost offset: nat)
      returns (reported: bool)
      requires IsStart(s) && s.end == end && Accounted(s, table, accepted, flights, done, offset)
      requires running ==> flights == [] && offset == |s.due|
      modifies this`table
      ensures Safe(s.table, s.accepted, table, accepted, end) && AllStand(table, flights)
      ensures reported ==>
                running && Archived(s.table, s.accepted, table, accepted, end) && |done| == |DueIds(s.table, end)|
      ensures (forall id <- s.table :: id in table) || Archived(s.table, s.accepted, table, accepted, end)
    {
      AccountedIsSafe(s, table, accepted, flights, done, offset);
      var effect: bool := *;
      reported := *;
      if running && effect {
        AccountedIsArchived(s, table, accepted, done, offset);
        table := DeleteFlushed(table, end);
      } else {
        reported := false;
      }
    }

    /** Run after run, with any limits, each cut off after any number of rounds; what it left in flight takes any steps
        until it is gone, and then other workers add any rows. */
    method RunDaily(ends: seq<int>)
      requires flights == []
      modifies this
      ensures old(accepted) <= accepted && forall id <- old(table) :: id in table || id in accepted
    {
      for day := 0 to |ends|
        invariant old(accepted) <= accepted
        invariant forall id <- old(table) :: id in table || id in accepted
      {
        var added: Table, limit: Numeric, rounds: nat := *, *, *;
        table, flights := added + table, [];
        var _ := Run(ends[day], limit, rounds);
        Background(ends[day]);
      }
    }
  }
}
