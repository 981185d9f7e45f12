/** Memoir sets of parts, split into runs of group ids (internal/masterdata/parts.go). */
module Parts {
  import opened Common
  import opened Sorting

  // Each series of parts groups is split into runs of consecutive group ids.

  datatype GroupRow = GroupRow(id: int, series: int)

  // ---------------------------------------------------------------------------
  // Runs of a sorted list
  // ---------------------------------------------------------------------------

  /** Where the run of consecutive ids through position k begins. */
  function RunStart(ids: seq<int>, k: nat): (start: nat)
    requires k < |ids|
    ensures start <= k
  {
    if k > 0 && ids[k] == ids[k - 1] + 1 then RunStart(ids, k - 1) else k
  }

  /** The position just past the run through position k. */
  function RunEnd(ids: seq<int>, k: nat): (end: nat)
    requires k < |ids|
    ensures k < end <= |ids|
    decreases |ids| - k
  {
    if k + 1 < |ids| && ids[k + 1] == ids[k] + 1 then RunEnd(ids, k + 1) else k + 1
  }

  function RunOf(ids: seq<int>, k: nat): seq<int>
    requires k < |ids|
  {
    ids[RunStart(ids, k)..RunEnd(ids, k)]
  }

  lemma {:induction false} StartOfMember(ids: seq<int>, k: nat, j: nat)
    requires k < |ids| && RunStart(ids, k) <= j <= k
    ensures RunStart(ids, j) == RunStart(ids, k) && RunEnd(ids, j) == RunEnd(ids, k)
    ensures ids[j] == ids[k] + j - k
  {
    if j < k {
      StartOfMember(ids, k - 1, j);
    }
  }

  lemma {:induction false} EndOfMember(ids: seq<int>, k: nat, j: nat)
    requires k <= j < |ids| && j < RunEnd(ids, k)
    ensures RunStart(ids, j) == RunStart(ids, k) && RunEnd(ids, j) == RunEnd(ids, k)
    ensures ids[j] == ids[k] + j - k
    decreases |ids| - k
  {
    if k < j {
      EndOfMember(ids, k + 1, j);
    }
  }

  /** All members of a run have the same run. */
  lemma SharedRun(ids: seq<int>, k: nat, j: nat)
    requires k < |ids| && RunStart(ids, k) <= j < RunEnd(ids, k)
    ensures RunOf(ids, j) == RunOf(ids, k) && ids[j] == ids[k] + j - k
  {
    if j <= k {
      StartOfMember(ids, k, j);
    } else {
      EndOfMember(ids, k, j);
    }
  }

  /** Every integer from a to b, in either direction, is one of the ids. */
  ghost predicate Linked(ids: seq<int>, a: int, b: int) {
    forall m :: Min(a, b) <= m <= Max(a, b) ==> m in ids
  }

  /** Between two members of a run every integer is an id. */
  lemma MembersAreLinked(ids: seq<int>, k: nat, j: nat)
    requires k < |ids| && RunStart(ids, k) <= j < RunEnd(ids, k)
    ensures Linked(ids, ids[k], ids[j])
  {
    SharedRun(ids, k, j);
    forall m | Min(ids[k], ids[j]) <= m <= Max(ids[k], ids[j]) ensures m in ids {
      var p := k + m - ids[k];
      SharedRun(ids, k, p);
    }
  }

  /** On distinct ids, a run is maximal: exactly what is linked to any of its members. */
  lemma RunIsMaximal(ids: seq<int>, k: nat, b: int)
    requires Ascending(ids) && k < |ids|
    ensures b in RunOf(ids, k) <==> Linked(ids, ids[k], b)
  {
    if b in RunOf(ids, k) {
      var j :| RunStart(ids, k) <= j < RunEnd(ids, k) && ids[j] == b;
      MembersAreLinked(ids, k, j);
    } else if Linked(ids, ids[k], b) {
      if b >= ids[k] {
        LinkedUp(ids, k, b);
      } else {
        LinkedDown(ids, k, b);
      }
    }
  }

  lemma Adjacent(ids: seq<int>, k: nat, j: nat)
    requires Ascending(ids) && k < |ids| && j < |ids| && ids[j] == ids[k] + 1
    ensures j == k + 1
  {
    assert k + 1 < |ids| ==> ids[k] < ids[k + 1];
  }

  lemma {:induction false} LinkedUp(ids: seq<int>, k: nat, b: int)
    requires Ascending(ids) && k < |ids| && ids[k] <= b && Linked(ids, ids[k], b)
    ensures b in RunOf(ids, k)
    decreases b - ids[k]
  {
    if b == ids[k] {
      assert RunOf(ids, k)[k - RunStart(ids, k)] == b;
    } else {
      assert ids[k] + 1 in ids;
      var j :| 0 <= j < |ids| && ids[j] == ids[k] + 1;
      Adjacent(ids, k, j);
      LinkedUp(ids, k + 1, b);
      SharedRun(ids, k, k + 1);
    }
  }

  lemma {:induction false} LinkedDown(ids: seq<int>, k: nat, b: int)
    requires Ascending(ids) && k < |ids| && b <= ids[k] && Linked(ids, ids[k], b)
    ensures b in RunOf(ids, k)
    decreases ids[k] - b
  {
    if b == ids[k] {
      assert RunOf(ids, k)[k - RunStart(ids, k)] == b;
    } else {
      assert ids[k] - 1 in ids;
      var j :| 0 <= j < |ids| && ids[j] == ids[k] - 1;
      Adjacent(ids, j, k);
      LinkedDown(ids, k - 1, b);
      SharedRun(ids, k, k - 1);
    }
  }

  // ---------------------------------------------------------------------------
  // The split
  // ---------------------------------------------------------------------------

  /** The first n positions are mapped to their runs, a later position of the same id winning. */
  ghost predicate MappedTo(ids: seq<int>, n: nat, sets: map<int, seq<int>>)
    requires n <= |ids|
  {
    forall k :: 0 <= k < n && ids[k] !in ids[k + 1..n] ==> ids[k] in sets && sets[ids[k]] == RunOf(ids, k)
  }

  /** Every member of the run is sent to the run, and every other key is as before. */
  ghost predicate Assigned(run: seq<int>, before: map<int, seq<int>>, sets: map<int, seq<int>>) {
    (forall id :: id in run ==> id in sets && sets[id] == run) && Untouched(run, before, sets)
  }

  ghost predicate Untouched(ids: seq<int>, before: map<int, seq<int>>, sets: map<int, seq<int>>) {
    forall id :: id !in ids ==> (id in sets <==> id in before) && (id in sets ==> sets[id] == before[id])
  }

  method AssignRun(run: seq<int>, before: map<int, seq<int>>) returns (sets: map<int, seq<int>>)
    ensures Assigned(run, before, sets)
  {
    sets := before;
    for j := 0 to |run|
      invariant forall k :: 0 <= k < j ==> run[k] in sets && sets[run[k]] == run
      invariant Untouched(run, before, sets)
    {
      sets := sets[run[j] := run];
    }
  }

  /** The first n ids are split into their runs, and the keys outside the series keep their sets. */
  ghost predicate SplitTo(ids: seq<int>, n: nat, before: map<int, seq<int>>, sets: map<int, seq<int>>)
    requires n <= |ids|
  {
    MappedTo(ids, n, sets) && Untouched(ids, before, sets)
  }

  lemma RunMapped(ids: seq<int>, start: nat, i: nat, mid: map<int, seq<int>>, sets: map<int, seq<int>>)
    requires start < i <= |ids| && MappedTo(ids, start, mid) && Assigned(ids[start..i], mid, sets)
    requires RunStart(ids, i - 1) == start && RunEnd(ids, i - 1) == i
    ensures MappedTo(ids, i, sets)
  {
    forall k | 0 <= k < i && ids[k] !in ids[k + 1..i] ensures ids[k] in sets && sets[ids[k]] == RunOf(ids, k) {
      if k < start {
        assert ids[k + 1..i] == ids[k + 1..start] + ids[start..i];
      } else {
        assert ids[start..i][k - start] == ids[k];
        StartOfMember(ids, i - 1, k);
      }
    }
  }

  method CloseRun(ids: seq<int>, start: nat, i: nat, ghost before: map<int, seq<int>>, mid: map<int, seq<int>>)
    returns (sets: map<int, seq<int>>)
    requires start < i <= |ids| && SplitTo(ids, start, before, mid)
    requires RunStart(ids, i - 1) == start && RunEnd(ids, i - 1) == i
    ensures SplitTo(ids, i, before, sets)
  {
    sets := AssignRun(ids[start..i], mid);
    RunMapped(ids, start, i, mid, sets);
  }

  method SplitSeries(ids: seq<int>, before: map<int, seq<int>>) returns (sets: map<int, seq<int>>)
    ensures SplitTo(ids, |ids|, before, sets)
  {
    sets := before;
    var start, i := 0, 1;
    while i <= |ids|
      invariant 0 <= start < i <= |ids| + 1
      invariant if i <= |ids| then start == RunStart(ids, i - 1) else start == |ids|
      invariant SplitTo(ids, start, before, sets)
    {
      if i == |ids| || ids[i] != ids[i - 1] + 1 {
        sets := CloseRun(ids, start, i, before, sets);
        start := i;
      }
      i := i + 1;
    }
  }

  // ---------------------------------------------------------------------------
  // The whole table
  // ---------------------------------------------------------------------------

  ghost predicate UniqueIds(rows: seq<GroupRow>) {
    forall j, k :: 0 <= j < k < |rows| ==> rows[j].id != rows[k].id
  }

  ghost predicate InSeries(rows: seq<GroupRow>, series: int, id: int) {
    GroupRow(id, series) in rows
  }

  /** Every integer from a to b is a group id of the series. */
  ghost predicate LinkedIn(rows: seq<GroupRow>, series: int, a: int, b: int) {
    forall m :: Min(a, b) <= m <= Max(a, b) ==> InSeries(rows, series, m)
  }

  /** The memoir set of a row: in ascending order, exactly the ids linked to it within its series. */
  ghost predicate IsMemoirSet(rows: seq<GroupRow>, row: GroupRow, s: seq<int>) {
    Ascending(s) && forall b :: b in s <==> LinkedIn(rows, row.series, row.id, b)
  }

  function IdsOf(rows: seq<GroupRow>, series: int): seq<int> {
    if rows == [] then []
    else
      var last := rows[|rows| - 1];
      IdsOf(rows[..|rows| - 1], series) + if last.series == series then [last.id] else []
  }

  lemma {:induction false} IdsOfHolds(rows: seq<GroupRow>, series: int, id: int)
    requires UniqueIds(rows)
    ensures id in IdsOf(rows, series) <==> InSeries(rows, series, id)
    ensures multiset(IdsOf(rows, series))[id] <= 1
  {
    if rows != [] {
      var n := |rows| - 1;
      IdsOfHolds(rows[..n], series, id);
      assert rows == rows[..n] + [rows[n]];
      if rows[n] == GroupRow(id, series) {
        assert !InSeries(rows[..n], series, id);
      }
    }
  }

  ghost predicate Grouped(rows: seq<GroupRow>, bySeries: map<int, seq<int>>) {
    forall s :: Ids(bySeries, s) == IdsOf(rows, s)
  }

  function Ids(bySeries: map<int, seq<int>>, series: int): seq<int> {
    if series in bySeries then bySeries[series] else []
  }

  lemma GroupedStep(rows: seq<GroupRow>, i: nat, m: map<int, seq<int>>)
    requires i < |rows| && Grouped(rows[..i], m)
    ensures Grouped(rows[..i + 1], m[rows[i].series := Ids(m, rows[i].series) + [rows[i].id]])
  {
    assert rows[..i + 1][..i] == rows[..i];
    var ids := Ids(m, rows[i].series) + [rows[i].id];
    var after, next := m[rows[i].series := ids], rows[..i + 1];
    forall s ensures Ids(after, s) == IdsOf(next, s) {
      assert Ids(m, s) == IdsOf(rows[..i], s);
    }
  }

  method GroupBySeries(rows: seq<GroupRow>) returns (bySeries: map<int, seq<int>>)
    ensures Grouped(rows, bySeries)
    ensures forall k :: 0 <= k < |rows| ==> rows[k].series in bySeries
  {
    bySeries := map[];
    for i := 0 to |rows|
      invariant Grouped(rows[..i], bySeries)
      invariant forall k :: 0 <= k < i ==> rows[k].series in bySeries
    {
      GroupedStep(rows, i, bySeries);
      bySeries := bySeries[rows[i].series := Ids(bySeries, rows[i].series) + [rows[i].id]];
    }
    assert rows[..|rows|] == rows;
  }

  /** On distinct ids every id is mapped to its run. */
  lemma MappedToRun(ids: seq<int>, sets: map<int, seq<int>>, p: nat)
    requires Ascending(ids) && MappedTo(ids, |ids|, sets) && p < |ids|
    ensures ids[p] in sets && sets[ids[p]] == RunOf(ids, p)
  {
    assert forall q :: p < q < |ids| ==> ids[p] < ids[q];
    assert ids[p] !in ids[p + 1..|ids|];
  }

  lemma RunIsLinked(rows: seq<GroupRow>, series: int, ids: seq<int>, p: nat, b: int)
    requires Ascending(ids) && p < |ids|
    requires forall id :: id in ids <==> InSeries(rows, series, id)
    ensures Ascending(RunOf(ids, p)) && (b in RunOf(ids, p) <==> LinkedIn(rows, series, ids[p], b))
  {
    RunIsMaximal(ids, p, b);
    assert Linked(ids, ids[p], b) <==> LinkedIn(rows, series, ids[p], b);
  }

  lemma RunIsSet(rows: seq<GroupRow>, series: int, ids: seq<int>, sets: map<int, seq<int>>, p: nat)
    requires Ascending(ids) && p < |ids| && MappedTo(ids, |ids|, sets)
    requires forall id :: id in ids <==> InSeries(rows, series, id)
    ensures ids[p] in sets && IsMemoirSet(rows, GroupRow(ids[p], series), sets[ids[p]])
  {
    MappedToRun(ids, sets, p);
    forall b ensures b in sets[ids[p]] <==> LinkedIn(rows, series, ids[p], b) {
      RunIsLinked(rows, series, ids, p, b);
    }
  }

  ghost predicate IsGroupId(rows: seq<GroupRow>, id: int) {
    exists series :: InSeries(rows, series, id)
  }

  /** Every row whose series is done has its memoir set, and only group ids have one. */
  ghost predicate DoneFor(rows: seq<GroupRow>, done: set<int>, sets: map<int, seq<int>>) {
    (forall id :: id in sets ==> IsGroupId(rows, id)) &&
    forall k :: 0 <= k < |rows| && rows[k].series in done ==>
      rows[k].id in sets && IsMemoirSet(rows, rows[k], sets[rows[k].id])
  }

  lemma SortedSeries(rows: seq<GroupRow>, series: int, ids: seq<int>)
    requires UniqueIds(rows)
    requires SortedBy(ids, IntOrder) && multiset(ids) == multiset(IdsOf(rows, series))
    ensures Ascending(ids)
    ensures forall id :: id in ids <==> InSeries(rows, series, id)
  {
    forall id ensures id in ids <==> InSeries(rows, series, id) {
      IdsOfHolds(rows, series, id);
      assert id in ids <==> id in multiset(ids);
    }
    forall id ensures multiset(ids)[id] <= 1 {
      IdsOfHolds(rows, series, id);
    }
    SortedIsAscending(ids);
  }

  lemma SeriesDone(rows: seq<GroupRow>, done: set<int>, series: int, ids: seq<int>, before: map<int, seq<int>>,
                   sets: map<int, seq<int>>)
    requires UniqueIds(rows) && DoneFor(rows, done, before) && SplitTo(ids, |ids|, before, sets)
    requires Ascending(ids) && forall id :: id in ids <==> InSeries(rows, series, id)
    ensures DoneFor(rows, done + {series}, sets)
  {
    forall id | id in sets ensures IsGroupId(rows, id) {
      if id in ids {
        assert InSeries(rows, series, id);
      }
    }
    forall k | 0 <= k < |rows| && rows[k].series in done + {series}
      ensures rows[k].id in sets && IsMemoirSet(rows, rows[k], sets[rows[k].id])
    {
      if rows[k].series == series {
        assert InSeries(rows, series, rows[k].id);
        var p :| 0 <= p < |ids| && ids[p] == rows[k].id;
        RunIsSet(rows, series, ids, sets, p);
      } else {
        assert !InSeries(rows, series, rows[k].id);
      }
    }
  }

  /** Whatever order the series are visited in, each group id gets its memoir set. */
  method LoadMemoirSets(rows: seq<GroupRow>) returns (sets: map<int, seq<int>>)
    ensures UniqueIds(rows) ==>
      (forall id :: id in sets ==> IsGroupId(rows, id)) &&
      forall k :: 0 <= k < |rows| ==> rows[k].id in sets && IsMemoirSet(rows, rows[k], sets[rows[k].id])
  {
    var bySeries := GroupBySeries(rows);
    sets := map[];
    var todo := bySeries.Keys;
    while todo != {}
      invariant todo <= bySeries.Keys
      invariant UniqueIds(rows) ==> DoneFor(rows, bySeries.Keys - todo, sets)
      decreases todo
    {
      var series := Choose(todo);
      var ids := Sort(bySeries[series], IntOrder);
      ghost var before := sets;
      sets := SplitSeries(ids, sets);
      if UniqueIds(rows) {
        SortedSeries(rows, series, ids);
        SeriesDone(rows, bySeries.Keys - todo, series, ids, before, sets);
        assert bySeries.Keys - (todo - {series}) == bySeries.Keys - todo + {series};
      }
      todo := todo - {series};
    }
  }

  lemma FirstMember(s: seq<int>)
    ensures s != [] ==> s[0] in s
  {
  }

  lemma {:induction false} AscendingUnique(a: seq<int>, b: seq<int>)
    requires Ascending(a) && Ascending(b) && forall x :: x in a <==> x in b
    ensures a == b
  {
    if a == [] {
      FirstMember(b);
    } else {
      assert a[0] in b && b != [] && b[0] in a;
      forall x ensures x in a[1..] <==> x in b[1..] {
        assert x in a[1..] <==> x in a && x != a[0];
        assert x in b[1..] <==> x in b && x != b[0];
      }
      AscendingUnique(a[1..], b[1..]);
    }
  }

  /** The sets partition the table: the members of a set all have that same set. */
  lemma MembersShareTheirSet(rows: seq<GroupRow>, a: GroupRow, b: GroupRow, sa: seq<int>, sb: seq<int>)
    requires a.series == b.series && IsMemoirSet(rows, a, sa) && IsMemoirSet(rows, b, sb)
    ensures b.id in sa ==> sa == sb
  {
    if b.id in sa {
      forall x ensures x in sa <==> x in sb {
        if x in sa {
          Bridge(rows, a.series, b.id, a.id, x);
        }
        if x in sb {
          Bridge(rows, a.series, a.id, b.id, x);
        }
      }
      AscendingUnique(sa, sb);
    }
  }

  lemma Bridge(rows: seq<GroupRow>, series: int, a: int, b: int, c: int)
    requires LinkedIn(rows, series, a, b) || LinkedIn(rows, series, b, a)
    requires LinkedIn(rows, series, b, c)
    ensures LinkedIn(rows, series, a, c)
  {
  }
}
