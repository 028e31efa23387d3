/** Overlapping runs, deletions at any time and rows added at any time: when a row may leave the table. */
module ArchiveHistory {
  import opened Archive

  datatype World = World(table: Table, accepted: set<int>, flights: seq<Flight>)

  datatype Event =
    | AddRow(id: int, row: Row)
    | StartBatch(ids: seq<int>)
    | Post(k: nat, taken: bool, reported: bool)
    | MarkRows(k: nat, effect: bool, reported: bool, now: int)
    | Abandon(k: nat)
    | DeleteRows(end: int)

  /** One step of any of the runs, or of a worker that adds rows. */
  function Next(w: World, e: Event): World {
    match e
    case AddRow(id, row) => if id in w.table then w else w.(table := w.table[id := row])
    case StartBatch(ids) => w.(flights := w.flights + [Flight(ids, Sending)])
    case Post(k, taken, reported) =>
      if k >= |w.flights| || !w.flights[k].stage.Sending? then w
      else
        var f := w.flights[k];
        w.(accepted := if taken then w.accepted + (set id | id in f.ids) else w.accepted,
           flights := w.flights[k := Flight(f.ids, if taken && reported then Marking else Failed(taken))])
    case MarkRows(k, effect, reported, now) =>
      if k >= |w.flights| || !w.flights[k].stage.Marking? then w
      else
        var f := w.flights[k];
        w.(table := if effect then Mark(w.table, f.ids, now) else w.table,
           flights := w.flights[k := Flight(f.ids, if effect && reported then Done else Failed(true))])
    case Abandon(k) => if k >= |w.flights| then w else w.(flights := w.flights[..k] + w.flights[k + 1..])
    case DeleteRows(end) => w.(table := DeleteFlushed(w.table, end))
  }

  function After(w: World, events: seq<Event>): World
    decreases |events|
  {
    if events == [] then w else After(Next(w, events[0]), events[1..])
  }

  /** Neither in the table nor taken by the endpoint. */
  predicate Lost(w: World, id: int) {
    id !in w.table && id !in w.accepted
  }

  /** A batch is marked only after the endpoint has taken it. */
  predicate Honest(w: World) {
    forall k | 0 <= k < |w.flights| && w.flights[k].stage.Marking? :: forall id <- w.flights[k].ids :: id in w.accepted
  }

  lemma StepStaysHonest(w: World, e: Event)
    requires Honest(w)
    ensures Honest(Next(w, e))
  {
    var after := Next(w, e);
    forall k | 0 <= k < |after.flights| && after.flights[k].stage.Marking?
      ensures forall id <- after.flights[k].ids :: id in after.accepted
    {
      if e.Abandon? && e.k < |w.flights| {
        assert after.flights[k] == w.flights[if k < e.k then k else k + 1];
      }
    }
  }

  /** Every history keeps that, and a world with nothing in flight begins with it. */
  lemma {:induction false} RunsAreHonest(w: World, events: seq<Event>)
    requires Honest(w)
    ensures Honest(After(w, events))
    decreases |events|
  {
    if events != [] {
      StepStaysHonest(w, events[0]);
      RunsAreHonest(Next(w, events[0]), events[1..]);
    }
  }

  /** A row that the endpoint took, that no deletion selects, or that is not marked. */
  predicate Covered(w: World, id: int) {
    id in w.accepted || (id in w.table && (w.table[id].createdAt.None? || w.table[id].flushedAt.None?))
  }

  predicate Survives(w: World, events: seq<Event>, id: int) {
    !Lost(After(w, events), id)
  }

  lemma StepKeepsCover(w: World, e: Event, id: int)
    requires Honest(w) && Covered(w, id)
    ensures Covered(Next(w, e), id)
  {
    if e.MarkRows? && e.k < |w.flights| && w.flights[e.k].stage.Marking? && id in w.flights[e.k].ids {
      assert id in w.accepted;
    }
  }

  lemma {:induction false} CoveredStays(w: World, events: seq<Event>, id: int)
    requires Honest(w) && Covered(w, id)
    ensures Covered(After(w, events), id)
    decreases |events|
  {
    if events != [] {
      StepKeepsCover(w, events[0], id);
      StepStaysHonest(w, events[0]);
      CoveredStays(Next(w, events[0]), events[1..], id);
    }
  }

  /** However overlapping runs, deletions and other workers go on, a row is safe exactly if the endpoint has taken it,
      no deletion selects it, or it is not marked. */
  lemma {:induction false} RowIsSafeIff(w: World, id: int)
    requires Honest(w) && id in w.table
    ensures (forall events :: Survives(w, events, id)) <==> Covered(w, id)
  {
    if Covered(w, id) {
      forall events ensures Survives(w, events, id) {
        CoveredStays(w, events, id);
      }
    } else {
      var delete := DeleteRows(w.table[id].createdAt.value);
      assert After(Next(w, delete), []) == Next(w, delete) && [delete][1..] == [];
      assert Lost(After(w, [delete]), id);
      assert !Survives(w, [delete], id);
    }
  }

  /** From a table with nothing in flight, some history loses a row exactly if it was marked and dated to begin with. */
  lemma {:induction false} OnlyMarkedRowsAreLost(table: Table, id: int)
    requires id in table
    ensures (exists events :: !Survives(World(table, {}, []), events, id))
            <==> table[id].createdAt.Some? && table[id].flushedAt.Some?
  {
    RowIsSafeIff(World(table, {}, []), id);
  }

  /** A row that is added unmarked at any point of any history is safe for good. */
  lemma {:induction false} AddedRowIsSafe(table: Table, before: seq<Event>, id: int, row: Row, behind: seq<Event>)
    requires row.flushedAt.None?
    ensures var w := After(World(table, {}, []), before); id !in w.table ==> Survives(w, [AddRow(id, row)] + behind, id)
  {
    var w := After(World(table, {}, []), before);
    if id !in w.table {
      RunsAreHonest(World(table, {}, []), before);
      var added := Next(w, AddRow(id, row));
      StepStaysHonest(w, AddRow(id, row));
      CoveredStays(added, behind, id);
      assert ([AddRow(id, row)] + behind)[1..] == behind;
    }
  }
}
