/** The chunked batch upsert is the simple one: one record after the other, in order of their queue numbers. */
module UpsertTheorems {
  import opened Results
  import opened Upsert

  // Conflict keys

  predicate NulFree(s: string) {
    NUL !in s
  }

  /** The conflict values of a record are texts without NUL; one value alone may hold anything. */
  predicate Keyed(cfg: Config, r: Record) {
    forall f <- cfg.conflict :: At(r, f).Text? && (|cfg.conflict| == 1 || NulFree(At(r, f).s))
  }

  lemma {:induction false} JoinIsInjective(a: seq<string>, b: seq<string>)
    requires |a| == |b| && Join(a) == Join(b)
    requires |a| > 1 ==> forall j | 0 <= j < |a| :: NulFree(a[j]) && NulFree(b[j])
    ensures a == b
  {
    if |a| > 1 {
      SameHead(a[0], Join(a[1..]), b[0], Join(b[1..]));
      if |a| == 2 {
        assert a[1..] == [a[1]] && b[1..] == [b[1]];
      }
      JoinIsInjective(a[1..], b[1..]);
      assert a == [a[0]] + a[1..] && b == [b[0]] + b[1..];
    } else if |a| == 1 {
      assert a == [a[0]] && b == [b[0]];
    }
  }

  lemma SameHead(a: string, s: string, b: string, t: string)
    requires NulFree(a) && NulFree(b) && a + [NUL] + s == b + [NUL] + t
    ensures a == b && s == t
  {
    var x, y := a + [NUL] + s, b + [NUL] + t;
    assert x[|a|] == NUL && y[|b|] == NUL;
    assert forall j | 0 <= j < |a| :: x[j] == a[j] && a[j] in a && x[j] != NUL;
    assert forall j | 0 <= j < |b| :: y[j] == b[j] && b[j] in b && y[j] != NUL;
    assert |a| == |b|;
    assert a == x[..|a|] && b == y[..|b|] && s == x[|a| + 1..] && t == y[|b| + 1..];
  }

  /** Records share a map key exactly if they share their conflict values. */
  lemma {:induction false} KeysAgree(cfg: Config, r1: Record, r2: Record)
    requires Keyed(cfg, r1) && Keyed(cfg, r2)
    ensures MapKey(cfg.conflict, r1) == MapKey(cfg.conflict, r2) <==> KeyOf(cfg, r1) == KeyOf(cfg, r2)
  {
    var a, b := Strings(Cells(r1, cfg.conflict)), Strings(Cells(r2, cfg.conflict));
    if Join(a) == Join(b) {
      JoinIsInjective(a, b);
      forall j | 0 <= j < |cfg.conflict| ensures KeyOf(cfg, r1)[j] == KeyOf(cfg, r2)[j] {
        assert a[j] == b[j];
        assert At(r1, cfg.conflict[j]).Text? && At(r2, cfg.conflict[j]).Text?;
      }
    }
  }

  // The simple upsert, and the order it takes the records in

  predicate Numbered(cfg: Config, r: Record) {
    QueueId(cfg.number, r).Some?
  }

  function QueueOf(cfg: Config, r: Record): int {
    if Numbered(cfg, r) then QueueId(cfg.number, r).value else 0
  }

  /** Put `r` behind the last record that is not queued later. */
  function SortInto(cfg: Config, sorted: seq<Record>, r: Record): seq<Record> {
    if sorted == [] then [r]
    else if QueueOf(cfg, sorted[|sorted| - 1]) <= QueueOf(cfg, r) then sorted + [r]
    else SortInto(cfg, sorted[..|sorted| - 1], r) + [sorted[|sorted| - 1]]
  }

  function StableSort(cfg: Config, records: seq<Record>): seq<Record> {
    if records == [] then []
    else SortInto(cfg, StableSort(cfg, records[..|records| - 1]), records[|records| - 1])
  }

  predicate Ascending(cfg: Config, records: seq<Record>) {
    forall j, k | 0 <= j < k < |records| :: QueueOf(cfg, records[j]) <= QueueOf(cfg, records[k])
  }

  lemma AscendingMore(cfg: Config, sorted: seq<Record>, last: Record)
    requires Ascending(cfg, sorted) && forall r <- sorted :: QueueOf(cfg, r) <= QueueOf(cfg, last)
    ensures Ascending(cfg, sorted + [last])
  {
  }

  lemma {:induction false} IntoHolds(cfg: Config, sorted: seq<Record>, r: Record)
    ensures multiset(SortInto(cfg, sorted, r)) == multiset(sorted) + multiset{r}
    ensures forall x <- SortInto(cfg, sorted, r) :: x == r || x in sorted
  {
    if sorted != [] {
      IntoHolds(cfg, sorted[..|sorted| - 1], r);
      assert sorted == sorted[..|sorted| - 1] + [sorted[|sorted| - 1]];
    }
  }

  lemma {:induction false} SortedInto(cfg: Config, sorted: seq<Record>, r: Record)
    requires Ascending(cfg, sorted)
    ensures Ascending(cfg, SortInto(cfg, sorted, r))
  {
    if sorted != [] {
      var front, last := sorted[..|sorted| - 1], sorted[|sorted| - 1];
      if QueueOf(cfg, last) <= QueueOf(cfg, r) {
        AscendingMore(cfg, sorted, r);
      } else {
        SortedInto(cfg, front, r);
        IntoHolds(cfg, front, r);
        AscendingMore(cfg, SortInto(cfg, front, r), last);
      }
    }
  }

  /** The sort puts the same records in ascending order of their queue numbers. */
  lemma {:induction false} StableSortSorts(cfg: Config, records: seq<Record>)
    ensures Ascending(cfg, StableSort(cfg, records)) && multiset(StableSort(cfg, records)) == multiset(records)
  {
    if records != [] {
      StableSortSorts(cfg, records[..|records| - 1]);
      SortedInto(cfg, StableSort(cfg, records[..|records| - 1]), records[|records| - 1]);
      IntoHolds(cfg, StableSort(cfg, records[..|records| - 1]), records[|records| - 1]);
      assert records == records[..|records| - 1] + [records[|records| - 1]];
    }
  }

  /** One record after the other, each with the columns it has. */
  function UpsertEach(cfg: Config, table: Table, records: seq<Record>): Table {
    if records == [] then table
    else
      var last := records[|records| - 1];
      UpsertRow(cfg, UpsertEach(cfg, table, records[..|records| - 1]), last, AllKeys([last]))
  }

  // The record that decides a row

  function LastFor(cfg: Config, records: seq<Record>, key: seq<Cell>): Option<Record> {
    if records == [] then None
    else if KeyOf(cfg, records[|records| - 1]) == key then Some(records[|records| - 1])
    else LastFor(cfg, records[..|records| - 1], key)
  }

  /** The record with the highest queue number, and the last of those. */
  function Best(cfg: Config, records: seq<Record>, key: seq<Cell>): Option<Record> {
    if records == [] then None
    else
      var before, last := Best(cfg, records[..|records| - 1], key), records[|records| - 1];
      if KeyOf(cfg, last) != key then before
      else if before.None? || QueueOf(cfg, before.value) <= QueueOf(cfg, last) then Some(last)
      else before
  }

  predicate Orderly(cfg: Config, records: seq<Record>) {
    forall r <- records :: Keyed(cfg, r) && Numbered(cfg, r)
  }

  lemma {:induction false} LastIsLatest(cfg: Config, records: seq<Record>, key: seq<Cell>)
    requires Ascending(cfg, records)
    ensures forall r <- records :: KeyOf(cfg, r) == key ==>
              LastFor(cfg, records, key).Some? && QueueOf(cfg, r) <= QueueOf(cfg, LastFor(cfg, records, key).value)
    ensures LastFor(cfg, records, key).Some? ==> LastFor(cfg, records, key).value in records
  {
    if records != [] {
      var front, last := records[..|records| - 1], records[|records| - 1];
      LastIsLatest(cfg, front, key);
      assert records == front + [last];
    }
  }

  lemma {:induction false} LastOfSortInto(cfg: Config, sorted: seq<Record>, r: Record, key: seq<Cell>)
    requires Ascending(cfg, sorted)
    ensures var before := LastFor(cfg, sorted, key);
            LastFor(cfg, SortInto(cfg, sorted, r), key)
            == if KeyOf(cfg, r) == key && (before.None? || QueueOf(cfg, before.value) <= QueueOf(cfg, r)) then Some(r)
               else before
  {
    if sorted == [] {
      assert [r][..0] == [];
    } else if QueueOf(cfg, sorted[|sorted| - 1]) <= QueueOf(cfg, r) {
      LastIsLatest(cfg, sorted, key);
      assert (sorted + [r])[..|sorted|] == sorted;
      BeforeLast(cfg, sorted, key);
    } else {
      var front, last := sorted[..|sorted| - 1], sorted[|sorted| - 1];
      LastOfSortInto(cfg, front, r, key);
      assert (SortInto(cfg, front, r) + [last])[..|SortInto(cfg, front, r)|] == SortInto(cfg, front, r);
    }
  }

  lemma BeforeLast(cfg: Config, sorted: seq<Record>, key: seq<Cell>)
    requires Ascending(cfg, sorted) && sorted != []
    requires LastFor(cfg, sorted, key).Some? ==> LastFor(cfg, sorted, key).value in sorted
    ensures LastFor(cfg, sorted, key).Some? ==>
              QueueOf(cfg, LastFor(cfg, sorted, key).value) <= QueueOf(cfg, sorted[|sorted| - 1])
  {
  }

  lemma {:induction false} SortedLastIsBest(cfg: Config, records: seq<Record>, key: seq<Cell>)
    ensures LastFor(cfg, StableSort(cfg, records), key) == Best(cfg, records, key)
  {
    if records != [] {
      var front := records[..|records| - 1];
      SortedLastIsBest(cfg, front, key);
      StableSortSorts(cfg, front);
      LastOfSortInto(cfg, StableSort(cfg, front), records[|records| - 1], key);
    }
  }

  lemma {:induction false} WinnerIsBest(cfg: Config, records: seq<Record>, r: Record)
    requires Orderly(cfg, records) && Keyed(cfg, r)
    ensures Winner(cfg, records, MapKey(cfg.conflict, r)) == Best(cfg, records, KeyOf(cfg, r))
    ensures Best(cfg, records, KeyOf(cfg, r)).Some? ==> Best(cfg, records, KeyOf(cfg, r)).value in records
  {
    if records != [] {
      var front, last := records[..|records| - 1], records[|records| - 1];
      assert records == front + [last];
      WinnerIsBest(cfg, front, r);
      KeysAgree(cfg, last, r);
    }
  }
}
