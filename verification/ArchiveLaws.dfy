/** What the statements of the archive select and change. */
module ArchiveLaws {
  import opened Results
  import opened Archive

  /** Created at or before the cut-off; a row without a date is never selected. */
  predicate Selected(table: Table, end: int, id: int) {
    id in table && table[id].createdAt.Some? && table[id].createdAt.value <= end
  }

  /** How many of the ids are smaller. */
  function Rank(ids: set<int>, id: int): nat {
    |Below(ids, id)|
  }

  function Below(ids: set<int>, id: int): set<int> {
    set x | x in ids && x < id
  }

  lemma BelowLeast(ids: set<int>, least: int, id: int)
    requires least in ids && (forall x <- ids :: least <= x) && id in ids && id != least
    ensures Rank(ids, id) == Rank(ids - {least}, id) + 1
  {
    SameIds(Below(ids, id), Below(ids - {least}, id) + {least});
  }

  lemma NothingBelow(ids: set<int>, least: int)
    requires forall x <- ids :: least <= x
    ensures Rank(ids, least) == 0
  {
    SameIds(Below(ids, least), {});
  }

  /** `s` lists the ids in ascending order, each at the place that its rank gives. */
  ghost predicate Ranked(ids: set<int>, s: seq<int>) {
    && (forall k | 0 <= k < |s| :: s[k] in ids && Rank(ids, s[k]) == k)
    && (forall j, k | 0 <= j < k < |s| :: s[j] < s[k])
    && (forall id <- ids :: id in s)
  }

  lemma {:induction false} SortedLaw(ids: set<int>)
    ensures Ranked(ids, Sorted(ids))
  {
    if ids != {} {
      SortedLaw(ids - {Least(ids)});
      LeastFirst(ids, Least(ids), Sorted(ids - {Least(ids)}));
    }
  }

  lemma LeastFirst(ids: set<int>, least: int, rest: seq<int>)
    requires least in ids && (forall x <- ids :: least <= x) && Ranked(ids - {least}, rest)
    ensures Ranked(ids, [least] + rest)
  {
    var s := [least] + rest;
    NothingBelow(ids, least);
    forall k | 0 <= k < |s| ensures s[k] in ids && Rank(ids, s[k]) == k {
      if k > 0 {
        assert s[k] == rest[k - 1];
        BelowLeast(ids, least, s[k]);
      }
    }
    forall j, k | 0 <= j < k < |s| ensures s[j] < s[k] {
      assert s[k] == rest[k - 1] && rest[k - 1] in ids - {least};
      assert j > 0 ==> s[j] == rest[j - 1];
    }
    forall id | id in ids ensures id in s {
      if id != least {
        assert id in rest;
      }
    }
  }

  /** A page holds, in ascending order, the selected rows with at least `offset` and fewer than `offset + 10000`
      selected rows before them. */
  lemma {:induction false} PageLaw(table: Table, end: int, offset: nat, id: int)
    ensures var page, ids := Page(table, end, offset), set x | x in table && Selected(table, end, x);
            && (id in page <==> Selected(table, end, id) && offset <= Rank(ids, id) < offset + 10000)
            && forall j, k | 0 <= j < k < |page| :: page[j] < page[k]
  {
    var ids := DueIds(table, end);
    SameIds(ids, set x | x in table && Selected(table, end, x));
    SortedLaw(ids);
    PageIsStretch(table, end, offset);
    StretchLaw(ids, Sorted(ids), Page(table, end, offset), offset, id);
  }

  /** `page` is the stretch of `sorted` from `offset` on, of at most 10000. */
  ghost predicate Stretch(sorted: seq<int>, page: seq<int>, offset: nat) {
    && (forall k | 0 <= k < |page| :: offset + k < |sorted| && page[k] == sorted[offset + k])
    && |page| <= 10000 && (|page| < 10000 ==> offset + |page| >= |sorted|)
  }

  lemma PageIsStretch(table: Table, end: int, offset: nat)
    ensures Stretch(Sorted(DueIds(table, end)), Page(table, end, offset), offset)
  {
  }

  lemma StretchAt(sorted: seq<int>, page: seq<int>, offset: nat, k: nat)
    requires Stretch(sorted, page, offset) && k < |page|
    ensures offset + k < |sorted| && page[k] == sorted[offset + k]
  {
  }

  lemma RankAt(ids: set<int>, s: seq<int>, k: nat)
    requires Ranked(ids, s) && k < |s|
    ensures s[k] in ids && Rank(ids, s[k]) == k
  {
  }

  lemma InStretch(sorted: seq<int>, page: seq<int>, offset: nat, k: nat)
    requires Stretch(sorted, page, offset) && offset <= k < offset + 10000 && k < |sorted|
    ensures sorted[k] in page
  {
    assert page[k - offset] == sorted[offset + (k - offset)];
  }

  lemma StretchLaw(ids: set<int>, sorted: seq<int>, page: seq<int>, offset: nat, id: int)
    requires Stretch(sorted, page, offset)
    requires Ranked(ids, sorted)
    ensures id in page <==> id in ids && offset <= Rank(ids, id) < offset + 10000
    ensures forall j, k | 0 <= j < k < |page| :: page[j] < page[k]
  {
    if id in page {
      var k :| 0 <= k < |page| && page[k] == id;
      StretchAt(sorted, page, offset, k);
      RankAt(ids, sorted, offset + k);
    }
    if id in ids && offset <= Rank(ids, id) < offset + 10000 {
      var k :| 0 <= k < |sorted| && sorted[k] == id;
      RankAt(ids, sorted, k);
      InStretch(sorted, page, offset, k);
    }
    forall j, k | 0 <= j < k < |page| ensures page[j] < page[k] {
      StretchAt(sorted, page, offset, j);
      StretchAt(sorted, page, offset, k);
    }
  }

  /** Marking sets the time of the given rows and nothing else. */
  lemma MarkLaw(table: Table, ids: seq<int>, now: int, id: int)
    ensures id in Mark(table, ids, now) <==> id in table
    ensures id in table ==>
              var row := Mark(table, ids, now)[id];
              && row.createdAt == table[id].createdAt
              && row.flushedAt == if id in ids then Some(now) else table[id].flushedAt
  {
  }

  /** The deletion removes the rows created at or before the cut-off that are marked, and no others. */
  lemma DeleteLaw(table: Table, end: int, id: int)
    ensures id in DeleteFlushed(table, end)
            <==> id in table && !(Selected(table, end, id) && table[id].flushedAt.Some?)
    ensures id in DeleteFlushed(table, end) ==> DeleteFlushed(table, end)[id] == table[id]
  {
  }

  /** A finished run has each selected row taken once more, no other row, and leaves no selected row. */
  lemma ArchivedLaw(t0: Table, accepted0: multiset<int>, table: Table, accepted: multiset<int>, end: int, id: int)
    requires Archived(t0, accepted0, table, accepted, end)
    ensures accepted[id] == accepted0[id] + if Selected(t0, end, id) then 1 else 0
    ensures !Selected(table, end, id)
  {
    assert id in DueIds(t0, end) <==> Selected(t0, end, id);
    assert id in DueIds(table, end) <==> Selected(table, end, id);
  }
}
