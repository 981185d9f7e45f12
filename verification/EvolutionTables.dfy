/** Evolution groups from their table rows: grouped, sorted, and linked (internal/masterdata/weapon.go). */
module EvolutionTables {
  import opened Common
  import opened Sorting
  import opened Evolution

  datatype EvolutionRow = EvolutionRow(groupId: int, weaponId: int, order: int)

  predicate ByOrder(a: EvolutionRow, b: EvolutionRow) {
    a.order <= b.order
  }

  ghost predicate UniqueWeapons(rows: seq<EvolutionRow>) {
    forall i, j :: 0 <= i < j < |rows| ==> rows[i].weaponId != rows[j].weaponId
  }

  ghost predicate UniqueOrders(rows: seq<EvolutionRow>) {
    forall i, j :: 0 <= i < j < |rows| && rows[i].groupId == rows[j].groupId ==> rows[i].order != rows[j].order
  }

  // ---------------------------------------------------------------------------
  // Grouping
  // ---------------------------------------------------------------------------

  function RowsOf(rows: seq<EvolutionRow>, groupId: int): seq<EvolutionRow> {
    if rows == [] then []
    else
      var before, last := RowsOf(rows[..|rows| - 1], groupId), rows[|rows| - 1];
      if last.groupId == groupId then before + [last] else before
  }

  function GroupIn(grouped: map<int, seq<EvolutionRow>>, groupId: int): seq<EvolutionRow> {
    if groupId in grouped then grouped[groupId] else []
  }

  ghost predicate Grouped(grouped: map<int, seq<EvolutionRow>>, rows: seq<EvolutionRow>) {
    forall g :: GroupIn(grouped, g) == RowsOf(rows, g)
  }

  function Appended(grouped: map<int, seq<EvolutionRow>>, row: EvolutionRow): map<int, seq<EvolutionRow>> {
    grouped[row.groupId := GroupIn(grouped, row.groupId) + [row]]
  }

  lemma OneMoreGrouped(grouped: map<int, seq<EvolutionRow>>, rows: seq<EvolutionRow>, row: EvolutionRow)
    requires Grouped(grouped, rows)
    ensures Grouped(Appended(grouped, row), rows + [row])
  {
    assert (rows + [row])[..|rows|] == rows;
    forall g ensures GroupIn(Appended(grouped, row), g) == RowsOf(rows + [row], g) {
      assert GroupIn(grouped, g) == RowsOf(rows, g);
    }
  }

  lemma {:induction false} RowsOfHolds(rows: seq<EvolutionRow>, g: int)
    ensures forall row :: multiset(RowsOf(rows, g))[row] == if row.groupId == g then multiset(rows)[row] else 0
  {
    if rows != [] {
      var n := |rows| - 1;
      RowsOfHolds(rows[..n], g);
      assert rows == rows[..n] + [rows[n]];
    }
  }

  method GroupRows(rows: seq<EvolutionRow>) returns (grouped: map<int, seq<EvolutionRow>>)
    ensures Grouped(grouped, rows)
  {
    grouped := map[];
    for i := 0 to |rows|
      invariant Grouped(grouped, rows[..i])
    {
      OneMoreGrouped(grouped, rows[..i], rows[i]);
      assert rows[..i + 1] == rows[..i] + [rows[i]];
      grouped := Appended(grouped, rows[i]);
    }
    assert rows[..|rows|] == rows;
  }

  // ---------------------------------------------------------------------------
  // Sorting
  // ---------------------------------------------------------------------------

  /** One sorted list for each of the groups, in the order of `keys`. */
  ghost predicate Arranged(rows: seq<EvolutionRow>, keys: seq<int>, lists: seq<seq<EvolutionRow>>) {
    |lists| == |keys| && (forall i, j :: 0 <= i < j < |keys| ==> keys[i] != keys[j]) &&
    forall i :: 0 <= i < |keys| ==> SortedGroup(rows, keys[i], lists[i])
  }

  ghost predicate SortedGroup(rows: seq<EvolutionRow>, g: int, list: seq<EvolutionRow>) {
    multiset(list) == multiset(RowsOf(rows, g)) && SortedBy(list, ByOrder)
  }

  function Ids(list: seq<EvolutionRow>): seq<int> {
    seq(|list|, i requires 0 <= i < |list| => list[i].weaponId)
  }

  function AllIds(lists: seq<seq<EvolutionRow>>): seq<seq<int>> {
    seq(|lists|, i requires 0 <= i < |lists| => Ids(lists[i]))
  }

  method SortGroups(grouped: map<int, seq<EvolutionRow>>, ghost rows: seq<EvolutionRow>)
    returns (groups: seq<seq<int>>, ghost keys: seq<int>, ghost lists: seq<seq<EvolutionRow>>)
    requires Grouped(grouped, rows)
    ensures groups == AllIds(lists) && Arranged(rows, keys, lists) && forall g :: g in grouped ==> g in keys
  {
    groups, keys, lists := [], [], [];
    var todo := grouped.Keys;
    while todo != {}
      invariant todo <= grouped.Keys && (forall g :: g in keys <==> g in grouped && g !in todo)
      invariant groups == AllIds(lists) && Arranged(rows, keys, lists)
      decreases todo
    {
      var g := Choose(todo);
      assert grouped[g] == GroupIn(grouped, g);
      var list := Sort(grouped[g], ByOrder);
      assert SortedGroup(rows, g, list);
      assert AllIds(lists + [list]) == AllIds(lists) + [Ids(list)];
      groups, keys, lists := groups + [Ids(list)], keys + [g], lists + [list];
      todo := todo - {g};
    }
  }

  /** Where a row stands once the groups are sorted. */
  lemma PlaceOf(rows: seq<EvolutionRow>, g: int, list: seq<EvolutionRow>, row: EvolutionRow)
    requires SortedGroup(rows, g, list)
    ensures row in list <==> row in rows && row.groupId == g
  {
    RowsOfHolds(rows, g);
    assert row in list <==> multiset(list)[row] > 0;
    assert row in rows <==> multiset(rows)[row] > 0;
  }

  lemma TwiceCounted<T>(s: seq<T>, i: nat, j: nat)
    requires i < j < |s| && s[i] == s[j]
    ensures multiset(s)[s[i]] >= 2
  {
    assert s == s[..j] + s[j..] && s[i] in s[..j] && s[j] in s[j..];
    assert multiset(s) == multiset(s[..j]) + multiset(s[j..]);
  }

  lemma {:induction false} OnceCounted(rows: seq<EvolutionRow>, row: EvolutionRow)
    requires UniqueWeapons(rows)
    ensures multiset(rows)[row] <= 1
  {
    if rows != [] {
      var n := |rows| - 1;
      OnceCounted(rows[..n], row);
      assert rows == rows[..n] + [rows[n]];
      assert rows[n] !in rows[..n];
    }
  }

  lemma ListsNoRowTwice(rows: seq<EvolutionRow>, g: int, list: seq<EvolutionRow>)
    requires UniqueWeapons(rows) && SortedGroup(rows, g, list)
    ensures forall i, j :: 0 <= i < j < |list| ==> list[i].weaponId != list[j].weaponId
  {
    forall i, j | 0 <= i < j < |list| ensures list[i].weaponId != list[j].weaponId {
      if list[i].weaponId == list[j].weaponId {
        PlaceOf(rows, g, list, list[i]);
        PlaceOf(rows, g, list, list[j]);
        SameWeapon(rows, list[i], list[j]);
        TwiceCounted(list, i, j);
        RowsOfHolds(rows, g);
        OnceCounted(rows, list[i]);
        assert false;
      }
    }
  }

  lemma SameWeapon(rows: seq<EvolutionRow>, a: EvolutionRow, b: EvolutionRow)
    requires UniqueWeapons(rows) && a in rows && b in rows && a.weaponId == b.weaponId
    ensures a == b
  {
  }

  lemma ArrangedDistinct(rows: seq<EvolutionRow>, keys: seq<int>, lists: seq<seq<EvolutionRow>>)
    requires UniqueWeapons(rows) && Arranged(rows, keys, lists)
    ensures DistinctIds(AllIds(lists))
  {
    var groups := AllIds(lists);
    forall g: nat, i: nat, h: nat, j: nat, id | At(groups, g, i, id) && At(groups, h, j, id) ensures g == h && i == j {
      var a, b := lists[g][i], lists[h][j];
      assert SortedGroup(rows, keys[g], lists[g]) && SortedGroup(rows, keys[h], lists[h]);
      PlaceOf(rows, keys[g], lists[g], a);
      PlaceOf(rows, keys[h], lists[h], b);
      SameWeapon(rows, a, b);
      ListsNoRowTwice(rows, keys[g], lists[g]);
    }
  }

  // ---------------------------------------------------------------------------
  // Successors
  // ---------------------------------------------------------------------------

  /** b comes right after a: later in the same group, with no row of the group between them. */
  ghost predicate Follows(rows: seq<EvolutionRow>, a: EvolutionRow, b: EvolutionRow) {
    a in rows && b in rows && a.groupId == b.groupId && a.order < b.order &&
    forall c :: c in rows && c.groupId == a.groupId ==> c.order <= a.order || c.order >= b.order
  }

  /** The weapon the table makes the next evolution of another. */
  ghost predicate Succeeds(rows: seq<EvolutionRow>, id: int, succ: int) {
    exists a, b :: Follows(rows, a, b) && a.weaponId == id && b.weaponId == succ
  }

  lemma StrictlySorted(rows: seq<EvolutionRow>, g: int, list: seq<EvolutionRow>)
    requires UniqueWeapons(rows) && UniqueOrders(rows) && SortedGroup(rows, g, list)
    ensures forall i, j :: 0 <= i < j < |list| ==> list[i].order < list[j].order
  {
    ListsNoRowTwice(rows, g, list);
    forall i, j | 0 <= i < j < |list| ensures list[i].order < list[j].order {
      PlaceOf(rows, g, list, list[i]);
      PlaceOf(rows, g, list, list[j]);
      var x :| 0 <= x < |rows| && rows[x] == list[i];
      var y :| 0 <= y < |rows| && rows[y] == list[j];
    }
  }

  lemma NeighboursFollow(rows: seq<EvolutionRow>, g: int, list: seq<EvolutionRow>, i: nat)
    requires UniqueWeapons(rows) && UniqueOrders(rows) && SortedGroup(rows, g, list) && i + 1 < |list|
    ensures Follows(rows, list[i], list[i + 1])
  {
    StrictlySorted(rows, g, list);
    PlaceOf(rows, g, list, list[i]);
    PlaceOf(rows, g, list, list[i + 1]);
    forall c | c in rows && c.groupId == g ensures c.order <= list[i].order || c.order >= list[i + 1].order {
      PlaceOf(rows, g, list, c);
      var k :| 0 <= k < |list| && list[k] == c;
    }
  }

  lemma FollowersNeighbour(rows: seq<EvolutionRow>, g: int, list: seq<EvolutionRow>, a: EvolutionRow, b: EvolutionRow)
    requires UniqueWeapons(rows) && UniqueOrders(rows) && SortedGroup(rows, g, list)
    requires Follows(rows, a, b) && a.groupId == g
    ensures exists i :: 0 <= i < |list| - 1 && list[i] == a && list[i + 1] == b
  {
    StrictlySorted(rows, g, list);
    PlaceOf(rows, g, list, a);
    PlaceOf(rows, g, list, b);
    var i :| 0 <= i < |list| && list[i] == a;
    var j :| 0 <= j < |list| && list[j] == b;
    if j > i + 1 {
      PlaceOf(rows, g, list, list[i + 1]);
    }
  }

  /**
   * From rows that list no weapon twice, in whatever order the groups come: the
   * successor map has no cycle, and with no order repeated in a group it holds
   * exactly the next row of each group.
   */
  method LoadEvolutionRows(rows: seq<EvolutionRow>) returns (next: Next, order: map<int, int>)
    ensures UniqueWeapons(rows) ==> Acyclic(next) && Ordered(next, order)
    ensures UniqueWeapons(rows) && UniqueOrders(rows) ==>
      forall id, succ :: id in next && next[id] == succ <==> Succeeds(rows, id, succ)
  {
    var grouped := GroupRows(rows);
    var groups;
    ghost var keys, lists;
    groups, keys, lists := SortGroups(grouped, rows);
    next, order := LoadEvolution(groups);
    if UniqueWeapons(rows) {
      ArrangedDistinct(rows, keys, lists);
      if UniqueOrders(rows) {
        SuccessorsAreNext(rows, grouped, keys, lists, next);
      }
    }
  }

  lemma SuccessorsAreNext(rows: seq<EvolutionRow>, grouped: map<int, seq<EvolutionRow>>, keys: seq<int>,
                          lists: seq<seq<EvolutionRow>>, next: Next)
    requires UniqueWeapons(rows) && UniqueOrders(rows) && Grouped(grouped, rows) && Arranged(rows, keys, lists)
    requires (forall g :: g in grouped ==> g in keys) && Links(AllIds(lists), next)
    ensures forall id, succ :: id in next && next[id] == succ <==> Succeeds(rows, id, succ)
  {
    forall id, succ ensures id in next && next[id] == succ <==> Succeeds(rows, id, succ) {
      if id in next {
        SuccessorFollows(rows, keys, lists, next, id);
      }
      if Succeeds(rows, id, succ) {
        var a, b :| Follows(rows, a, b) && a.weaponId == id && b.weaponId == succ;
        FollowerIsSuccessor(rows, grouped, keys, lists, next, a, b);
      }
    }
  }

  lemma SuccessorFollows(rows: seq<EvolutionRow>, keys: seq<int>, lists: seq<seq<EvolutionRow>>, next: Next, id: int)
    requires UniqueWeapons(rows) && UniqueOrders(rows) && Arranged(rows, keys, lists)
    requires Links(AllIds(lists), next) && id in next
    ensures Succeeds(rows, id, next[id])
  {
    LinkedFrom(lists, next, id);
    var g, i :| LinkPair(lists, g, i, id, next[id]);
    NeighboursFollow(rows, keys[g], lists[g], i);
  }

  ghost predicate LinkPair(lists: seq<seq<EvolutionRow>>, g: int, i: int, id: int, succ: int) {
    0 <= g < |lists| && 0 <= i < |lists[g]| - 1 && lists[g][i].weaponId == id && lists[g][i + 1].weaponId == succ
  }

  lemma LinkedFrom(lists: seq<seq<EvolutionRow>>, next: Next, id: int)
    requires Links(AllIds(lists), next) && id in next
    ensures exists g, i :: LinkPair(lists, g, i, id, next[id])
  {
    assert Listed(AllIds(lists), id, next[id]);
    var g: nat, i: nat :| At(AllIds(lists), g, i, id) && At(AllIds(lists), g, i + 1, next[id]);
    assert LinkPair(lists, g, i, id, next[id]);
  }

  lemma LinkedTo(lists: seq<seq<EvolutionRow>>, next: Next, g: nat, i: nat)
    requires Links(AllIds(lists), next) && g < |lists| && i + 1 < |lists[g]|
    ensures lists[g][i].weaponId in next && next[lists[g][i].weaponId] == lists[g][i + 1].weaponId
  {
    assert At(AllIds(lists), g, i, lists[g][i].weaponId);
  }

  lemma FollowerIsSuccessor(rows: seq<EvolutionRow>, grouped: map<int, seq<EvolutionRow>>, keys: seq<int>,
                            lists: seq<seq<EvolutionRow>>, next: Next, a: EvolutionRow, b: EvolutionRow)
    requires UniqueWeapons(rows) && UniqueOrders(rows) && Grouped(grouped, rows) && Arranged(rows, keys, lists)
    requires (forall g :: g in grouped ==> g in keys) && Links(AllIds(lists), next) && Follows(rows, a, b)
    ensures a.weaponId in next && next[a.weaponId] == b.weaponId
  {
    var g := ListOf(rows, grouped, keys, lists, a);
    FollowersNeighbour(rows, keys[g], lists[g], a, b);
    var i :| 0 <= i < |lists[g]| - 1 && lists[g][i] == a && lists[g][i + 1] == b;
    LinkedTo(lists, next, g, i);
  }

  lemma ListOf(rows: seq<EvolutionRow>, grouped: map<int, seq<EvolutionRow>>, keys: seq<int>,
               lists: seq<seq<EvolutionRow>>, a: EvolutionRow)
    returns (g: nat)
    requires Grouped(grouped, rows) && Arranged(rows, keys, lists) && a in rows
    requires forall g :: g in grouped ==> g in keys
    ensures g < |lists| == |keys| && keys[g] == a.groupId && SortedGroup(rows, keys[g], lists[g])
  {
    RowInGroup(rows, a);
    assert GroupIn(grouped, a.groupId) == RowsOf(rows, a.groupId);
    g :| 0 <= g < |keys| && keys[g] == a.groupId;
  }

  lemma RowInGroup(rows: seq<EvolutionRow>, row: EvolutionRow)
    requires row in rows
    ensures RowsOf(rows, row.groupId) != []
  {
    RowsOfHolds(rows, row.groupId);
    assert multiset(rows)[row] > 0;
  }
}
