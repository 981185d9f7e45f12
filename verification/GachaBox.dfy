/** Box gacha (internal/gacha/draw.go and handler.go). */
module GachaBox {
  import opened Common
  import opened GachaRates
  import opened GachaDraw

  // Draws without replacement from a pool of limited items, with the counts of what left
  // the box kept in the banner state between draws and cleared by a reset.

  const BOX_POOL_MAX_ITEMS := 50
  const BOX_POOL_MIN_ITEMS := 5
  const BOX_ITEM_DEFAULT_MAX := 10
  const BOX_FALLBACK_ITEM_MAX := 20
  const BOX_FALLBACK_ITEM_ID := 100001

  datatype BoxItem = BoxItem(possessionType: int, possessionId: int, rarity: int, maxCount: int, drewCount: int)
  {
    function Drawn(): DrawnItem {
      DrawnItem(possessionType, possessionId, rarity, 0)
    }

    function Remaining(): nat {
      Max(0, maxCount - drewCount)
    }
  }

  function TotalRemaining(items: seq<BoxItem>): nat {
    if items == [] then 0 else TotalRemaining(items[..|items| - 1]) + items[|items| - 1].Remaining()
  }

  /** As many tickets as remain of each item, by index. */
  ghost predicate TicketsOf(available: seq<int>, items: seq<BoxItem>) {
    (forall i :: i in available ==> 0 <= i < |items|) &&
    forall k :: 0 <= k < |items| ==> multiset(available)[k] == items[k].Remaining()
  }

  method Tickets(items: seq<BoxItem>) returns (available: seq<int>)
    ensures TicketsOf(available, items) && |available| == TotalRemaining(items)
  {
    available := [];
    for i := 0 to |items|
      invariant TicketsOf(available, items[..i]) && |available| == TotalRemaining(items[..i])
    {
      assert items[..i + 1][..i] == items[..i];
      ghost var before := available;
      assert i !in before && i !in multiset(before);
      var remaining := items[i].maxCount - items[i].drewCount;
      var n := 0;
      while n < remaining
        invariant 0 <= n <= Max(0, remaining)
        invariant multiset(available) == multiset(before)[i := n] && |available| == |before| + n
      {
        available := available + [i];
        n := n + 1;
      }
      forall k | k in available ensures 0 <= k < i + 1 {
        assert k in multiset(available);
        if k != i {
          assert multiset(before)[k] > 0;
          assert k in before;
        }
      }
    }
    assert items[..|items|] == items;
  }

  function Bump(item: BoxItem, n: int): BoxItem {
    item.(drewCount := item.drewCount + n)
  }

  /** One draw: take a ticket at random and count it against its item. */
  method DrawTicket(items: array<BoxItem>, available: seq<int>) returns (idx: nat, item: DrawnItem, rest: seq<int>)
    requires TicketsOf(available, items[..]) && |available| > 0
    modifies items
    ensures idx < items.Length && item == old(items[idx]).Drawn() && old(items[idx]).Remaining() > 0
    ensures items[..] == old(items[..])[idx := Bump(old(items[idx]), 1)]
    ensures TicketsOf(rest, items[..]) && |rest| == |available| - 1
  {
    var pick := RandIntn(|available|);
    assert available[pick] in available && available[pick] in multiset(available);
    idx := available[pick];
    var boxItem := items[idx];
    item := DrawnItem(boxItem.possessionType, boxItem.possessionId, boxItem.rarity, 0);
    items[idx] := boxItem.(drewCount := boxItem.drewCount + 1);
    TicketUsed(available, pick);
    rest := available[..pick] + available[pick + 1..];
  }

  /** `now` is `start` after drawing the indices of `drawn`. */
  ghost predicate Drew(start: seq<BoxItem>, drawn: seq<int>, now: seq<BoxItem>) {
    |now| == |start| &&
    (forall j :: 0 <= j < |drawn| ==> 0 <= drawn[j] < |start|) &&
    forall k :: 0 <= k < |start| ==>
      now[k] == Bump(start[k], multiset(drawn)[k]) && multiset(drawn)[k] <= start[k].Remaining()
  }

  /** The items handed out are those of the indices drawn. */
  ghost predicate Matches(start: seq<BoxItem>, drawn: seq<int>, result: seq<DrawnItem>) {
    |result| == |drawn| &&
    forall j :: 0 <= j < |drawn| ==> 0 <= drawn[j] < |start| && result[j] == start[drawn[j]].Drawn()
  }

  lemma DrewOneMore(start: seq<BoxItem>, drawn: seq<int>, now: seq<BoxItem>, idx: nat)
    requires Drew(start, drawn, now) && idx < |start| && now[idx].Remaining() > 0
    ensures Drew(start, drawn + [idx], now[idx := Bump(now[idx], 1)])
  {
  }

  /**
   * Draw without replacement: every draw uses up one ticket, so no item is
   * drawn more often than it remains, the counts rise by exactly what was
   * drawn, and the box gives all it has if asked for more.
   */
  method DrawBox(items: array<BoxItem>, count: nat) returns (result: seq<DrawnItem>, ghost drawn: seq<int>)
    modifies items
    ensures |result| == Min(count, TotalRemaining(old(items[..])))
    ensures Drew(old(items[..]), drawn, items[..]) && Matches(old(items[..]), drawn, result)
  {
    ghost var start := items[..];
    var available := Tickets(items[..]);
    result, drawn := [], [];
    var i := 0;
    while i < count && |available| > 0
      invariant i <= count && Halfway(start, available, items[..], drawn, result, i)
    {
      ghost var before := items[..];
      var idx, item;
      ghost var earlier := available;
      idx, item, available := DrawTicket(items, available);
      DrawnOne(start, earlier, before, drawn, result, i, idx, item, available);
      result := result + [item];
      drawn := drawn + [idx];
      i := i + 1;
    }
  }

  /** After i draws. */
  ghost predicate Halfway(start: seq<BoxItem>, available: seq<int>, now: seq<BoxItem>, drawn: seq<int>,
                          result: seq<DrawnItem>, i: nat)
  {
    i == |result| && i + |available| == TotalRemaining(start) && TicketsOf(available, now) && Drew(start, drawn, now) &&
    Matches(start, drawn, result)
  }

  lemma DrawnOne(start: seq<BoxItem>, available: seq<int>, now: seq<BoxItem>, drawn: seq<int>, result: seq<DrawnItem>,
                 i: nat, idx: nat, item: DrawnItem, rest: seq<int>)
    requires Halfway(start, available, now, drawn, result, i) && idx < |now| && now[idx].Remaining() > 0
    requires item == now[idx].Drawn() && |rest| == |available| - 1
    requires TicketsOf(rest, now[idx := Bump(now[idx], 1)])
    ensures Halfway(start, rest, now[idx := Bump(now[idx], 1)], drawn + [idx], result + [item], i + 1)
  {
    DrewOneMore(start, drawn, now, idx);
    assert now[idx] == Bump(start[idx], multiset(drawn)[idx]);
  }

  lemma TicketUsed(available: seq<int>, pick: nat)
    requires pick < |available|
    ensures
      var rest := available[..pick] + available[pick + 1..];
      multiset(rest) == multiset(available) - multiset{available[pick]} &&
      forall x :: x in rest ==> x in available
  {
    assert available == available[..pick] + [available[pick]] + available[pick + 1..];
  }

  // ---------------------------------------------------------------------------
  // The box across draws and resets
  // ---------------------------------------------------------------------------

  function AsBoxItem(m: PoolItem): BoxItem {
    BoxItem(m.possessionType, m.possessionId, m.rarity, BOX_ITEM_DEFAULT_MAX, 0)
  }

  const FALLBACK_ITEM := BoxItem(POSSESSION_MATERIAL, BOX_FALLBACK_ITEM_ID, RARITY_NORMAL, BOX_FALLBACK_ITEM_MAX, 0)

  /** The first 50 materials, and a fallback item when there are fewer than five. */
  function BoxPool(materials: seq<PoolItem>): seq<BoxItem> {
    var n := Min(|materials|, BOX_POOL_MAX_ITEMS);
    seq(n, i requires 0 <= i < n => AsBoxItem(materials[i])) + if n < BOX_POOL_MIN_ITEMS then [FALLBACK_ITEM] else []
  }

  /**
   * The box of a banner: each of the first 50 materials ten times, and below five
   * materials twenty of material 100001 as well.
   */
  lemma BoxPoolIs(materials: seq<PoolItem>, k: nat)
    ensures |BoxPool(materials)| ==
      if |materials| < 5 then |materials| + 1 else if |materials| > 50 then 50 else |materials|
    ensures k < |materials| && k < 50 ==>
      BoxPool(materials)[k] ==
        BoxItem(materials[k].possessionType, materials[k].possessionId, materials[k].rarity, 10, 0)
    ensures k == |materials| < 5 ==> BoxPool(materials)[k] == BoxItem(5, 100001, 10, 20, 0)
  {
  }

  method BuildBoxPool(materials: seq<PoolItem>) returns (items: seq<BoxItem>)
    ensures items == BoxPool(materials)
  {
    items := [];
    for i := 0 to |materials|
      invariant i < BOX_POOL_MAX_ITEMS
      invariant items == seq(i, k requires 0 <= k < i => AsBoxItem(materials[k]))
    {
      items := items + [AsBoxItem(materials[i])];
      if |items| >= BOX_POOL_MAX_ITEMS {
        break;
      }
    }
    if |items| < BOX_POOL_MIN_ITEMS {
      items := items + [FALLBACK_ITEM];
    }
  }

  ghost predicate DistinctIds(pool: seq<BoxItem>) {
    forall i, j :: 0 <= i < j < |pool| ==> pool[i].possessionId != pool[j].possessionId
  }

  function Ids(items: seq<DrawnItem>): multiset<int> {
    if items == [] then multiset{} else Ids(items[..|items| - 1]) + multiset{items[|items| - 1].possessionId}
  }

  predicate InPool(pool: seq<BoxItem>, id: int) {
    exists i :: 0 <= i < |pool| && pool[i].possessionId == id
  }

  /** The pool with what already left it, by id. */
  function Restore(pool: seq<BoxItem>, counts: map<int, int>): seq<BoxItem> {
    seq(|pool|, i requires 0 <= i < |pool| => pool[i].(drewCount := Count(counts, pool[i].possessionId)))
  }

  function Capacity(pool: seq<BoxItem>): nat {
    if pool == [] then 0 else Capacity(pool[..|pool| - 1]) + Max(0, pool[|pool| - 1].maxCount)
  }

  /** The counts stored with the banner are what was drawn, all of it from the pool and within its limits. */
  ghost predicate Tallied(pool: seq<BoxItem>, counts: map<int, int>, drawn: multiset<int>) {
    (forall id :: Count(counts, id) == drawn[id]) &&
    FromPool(pool, drawn) &&
    forall i :: 0 <= i < |pool| ==> drawn[pool[i].possessionId] <= pool[i].maxCount
  }

  lemma {:induction false} DrawnIds(start: seq<BoxItem>, drawn: seq<int>, result: seq<DrawnItem>, k: nat)
    requires DistinctIds(start) && k < |start| && Matches(start, drawn, result)
    ensures Ids(result)[start[k].possessionId] == multiset(drawn)[k]
  {
    if drawn != [] {
      var n := |drawn| - 1;
      DrawnIds(start, drawn[..n], result[..n], k);
      IdOfIndex(start, drawn[n], k);
      assert result[n] == start[drawn[n]].Drawn();
      LastCounted(drawn);
    }
  }

  lemma LastCounted(s: seq<int>)
    requires s != []
    ensures
      var n := |s| - 1;
      multiset(s) == multiset(s[..n]) + multiset{s[n]}
  {
    var n := |s| - 1;
    assert s == s[..n] + [s[n]];
  }

  lemma IdOfIndex(start: seq<BoxItem>, i: int, k: nat)
    requires DistinctIds(start) && k < |start| && 0 <= i < |start|
    ensures start[i].possessionId == start[k].possessionId <==> i == k
  {
  }

  lemma {:induction false} DrawnFromPool(start: seq<BoxItem>, drawn: seq<int>, result: seq<DrawnItem>)
    requires Matches(start, drawn, result)
    ensures FromPool(start, Ids(result))
  {
    if drawn != [] {
      var n := |drawn| - 1;
      DrawnFromPool(start, drawn[..n], result[..n]);
      assert InPool(start, result[n].possessionId);
    }
  }

  ghost predicate FromPool(pool: seq<BoxItem>, drawn: multiset<int>) {
    forall id :: id in drawn ==> InPool(pool, id)
  }

  lemma FromPoolWithoutLast(pool: seq<BoxItem>, drawn: multiset<int>)
    requires pool != [] && FromPool(pool, drawn)
    ensures FromPool(pool[..|pool| - 1], drawn[pool[|pool| - 1].possessionId := 0])
  {
    var n := |pool| - 1;
    forall x | x in drawn[pool[n].possessionId := 0] ensures InPool(pool[..n], x) {
      assert InPool(pool, x);
      var i :| 0 <= i < |pool| && pool[i].possessionId == x;
      assert pool[..n][i].possessionId == x;
    }
  }

  /** The multiset of ids drawn, spread over a pool of distinct ids, adds up to its size. */
  lemma {:induction false} SpreadOverPool(pool: seq<BoxItem>, counts: map<int, int>, drawn: multiset<int>)
    requires DistinctIds(pool) && FromPool(pool, drawn)
    requires forall i :: 0 <= i < |pool| ==>
      Count(counts, pool[i].possessionId) == drawn[pool[i].possessionId] <= pool[i].maxCount
    ensures TotalRemaining(Restore(pool, counts)) == Capacity(pool) - |drawn|
  {
    if pool == [] {
      assert forall id :: id !in drawn;
      assert drawn == multiset{};
    } else {
      var n := |pool| - 1;
      FromPoolWithoutLast(pool, drawn);
      assert Restore(pool, counts)[..n] == Restore(pool[..n], counts);
      SpreadOverPool(pool[..n], counts, drawn[pool[n].possessionId := 0]);
    }
  }

  method RestoredItems(pool: seq<BoxItem>, counts: map<int, int>) returns (items: array<BoxItem>)
    ensures fresh(items) && items[..] == Restore(pool, counts)
  {
    items := new BoxItem[|pool|](i requires 0 <= i < |pool| => pool[i]);
    for i := 0 to items.Length
      invariant forall k :: 0 <= k < i ==> items[k] == Restore(pool, counts)[k]
      invariant forall k :: i <= k < items.Length ==> items[k] == pool[k]
    {
      items[i] := items[i].(drewCount := Count(counts, items[i].possessionId));
    }
  }

  method CountResult(counts: map<int, int>, result: seq<DrawnItem>) returns (after: map<int, int>)
    ensures forall id :: Count(after, id) == Count(counts, id) + Ids(result)[id]
  {
    after := counts;
    for i := 0 to |result|
      invariant forall id :: Count(after, id) == Count(counts, id) + Ids(result[..i])[id]
    {
      assert result[..i + 1][..i] == result[..i];
      var id := result[i].possessionId;
      after := after[id := Count(after, id) + 1];
    }
    assert result[..|result|] == result;
  }

  ghost predicate Limited(start: seq<BoxItem>, ids: multiset<int>) {
    FromPool(start, ids) && forall k :: 0 <= k < |start| ==> ids[start[k].possessionId] <= start[k].Remaining()
  }

  /** Drawing no index more often than it remains keeps every id within its limit. */
  lemma WithinLimits(start: seq<BoxItem>, indices: seq<int>, result: seq<DrawnItem>, now: seq<BoxItem>)
    requires DistinctIds(start) && Matches(start, indices, result) && Drew(start, indices, now)
    ensures Limited(start, Ids(result))
  {
    DrawnFromPool(start, indices, result);
    forall k | 0 <= k < |start| ensures Ids(result)[start[k].possessionId] <= start[k].Remaining() {
      DrawnIds(start, indices, result, k);
    }
  }

  lemma TalliedStep(pool: seq<BoxItem>, counts: map<int, int>, drawn: multiset<int>, ids: multiset<int>,
                    after: map<int, int>)
    requires Tallied(pool, counts, drawn) && Limited(Restore(pool, counts), ids)
    requires forall id :: Count(after, id) == Count(counts, id) + ids[id]
    ensures Tallied(pool, after, drawn + ids)
  {
    var start := Restore(pool, counts);
    forall k | 0 <= k < |pool| ensures (drawn + ids)[pool[k].possessionId] <= pool[k].maxCount {
      assert ids[start[k].possessionId] <= start[k].Remaining();
    }
    forall id | id in drawn + ids ensures InPool(pool, id) {
      if id in ids {
        assert InPool(Restore(pool, counts), id);
        var i :| 0 <= i < |pool| && Restore(pool, counts)[i].possessionId == id;
        assert pool[i].possessionId == id;
      }
    }
  }

  /** A result the draw can give: some indices drawn without replacement from the restored box. */
  ghost predicate BoxOutcome(pool: seq<BoxItem>, counts: map<int, int>, count: nat, result: seq<DrawnItem>) {
    exists indices, now :: DrawnTo(Restore(pool, counts), count, indices, now, result)
  }

  ghost predicate DrawnTo(start: seq<BoxItem>, count: nat, indices: seq<int>, now: seq<BoxItem>,
                          result: seq<DrawnItem>)
  {
    Drew(start, indices, now) && Matches(start, indices, result) && |indices| == Min(count, TotalRemaining(start))
  }

  /** Restore the box from the stored counts and draw from it. */
  method DrawRestored(pool: seq<BoxItem>, counts: map<int, int>, count: nat) returns (result: seq<DrawnItem>)
    ensures BoxOutcome(pool, counts, count, result)
    ensures |result| == Min(count, TotalRemaining(Restore(pool, counts)))
  {
    var items := RestoredItems(pool, counts);
    ghost var indices;
    result, indices := DrawBox(items, count);
    assert DrawnTo(Restore(pool, counts), count, indices, items[..], result);
  }

  /** As many as are asked for, or all that the pool has left. */
  ghost predicate GivesWhatIsLeft(pool: seq<BoxItem>, drawn: multiset<int>, count: nat, result: seq<DrawnItem>) {
    |result| == Min(count, Capacity(pool) - |drawn|)
  }

  /** handler.drawBox: restore the box, draw, and store the new counts. */
  method DrawFromBox(pool: seq<BoxItem>, counts: map<int, int>, count: nat, ghost drawn: multiset<int>)
    returns (result: seq<DrawnItem>, after: map<int, int>)
    ensures BoxOutcome(pool, counts, count, result)
    ensures DistinctIds(pool) && Tallied(pool, counts, drawn) ==>
      Tallied(pool, after, drawn + Ids(result)) && GivesWhatIsLeft(pool, drawn, count, result)
    ensures forall id :: Count(after, id) == Count(counts, id) + Ids(result)[id]
    ensures |result| == Min(count, TotalRemaining(Restore(pool, counts)))
  {
    result := DrawRestored(pool, counts, count);
    after := CountResult(counts, result);
    if DistinctIds(pool) && Tallied(pool, counts, drawn) {
      DrawKeepsTally(pool, counts, drawn, count, result, after);
    }
  }

  lemma DrawKeepsTally(pool: seq<BoxItem>, counts: map<int, int>, drawn: multiset<int>, count: nat,
                       result: seq<DrawnItem>, after: map<int, int>)
    requires DistinctIds(pool) && Tallied(pool, counts, drawn) && BoxOutcome(pool, counts, count, result)
    requires forall id :: Count(after, id) == Count(counts, id) + Ids(result)[id]
    ensures Tallied(pool, after, drawn + Ids(result))
    ensures TotalRemaining(Restore(pool, counts)) == Capacity(pool) - |drawn|
  {
    SpreadOverPool(pool, counts, drawn);
    OutcomeWithinLimits(pool, counts, count, result);
    TalliedStep(pool, counts, drawn, Ids(result), after);
  }

  lemma OutcomeWithinLimits(pool: seq<BoxItem>, counts: map<int, int>, count: nat, result: seq<DrawnItem>)
    requires DistinctIds(pool) && BoxOutcome(pool, counts, count, result)
    ensures Limited(Restore(pool, counts), Ids(result))
  {
    var start := Restore(pool, counts);
    var indices, now :| DrawnTo(start, count, indices, now, result);
    assert forall i :: 0 <= i < |pool| ==> start[i].possessionId == pool[i].possessionId;
    WithinLimits(start, indices, result, now);
  }

  /**
   * Everything drawn is an item of the pool whose count is below its maximum,
   * without a character; the draw is as long as asked for, or as all that is left.
   */
  lemma DrawnHasLeft(pool: seq<BoxItem>, counts: map<int, int>, count: nat, result: seq<DrawnItem>, j: nat)
    requires BoxOutcome(pool, counts, count, result) && j < |result|
    ensures |result| <= count && (|result| == count || |result| == TotalRemaining(Restore(pool, counts)))
    ensures exists k ::
      0 <= k < |pool| &&
      result[j] == DrawnItem(pool[k].possessionType, pool[k].possessionId, pool[k].rarity, 0) &&
      (if pool[k].possessionId in counts then counts[pool[k].possessionId] else 0) < pool[k].maxCount
  {
    var start := Restore(pool, counts);
    var indices, now :| DrawnTo(start, count, indices, now, result);
    var k := indices[j];
    assert k in multiset(indices);
    assert start[k].Remaining() > 0;
  }

  lemma {:induction false} IdsAtLeast(pool: seq<BoxItem>, indices: seq<int>, result: seq<DrawnItem>, i: nat, j: nat)
    requires i < j < |pool| && pool[i].possessionId == pool[j].possessionId && Matches(pool, indices, result)
    ensures Ids(result)[pool[i].possessionId] >= multiset(indices)[i] + multiset(indices)[j]
  {
    if indices != [] {
      var n := |indices| - 1;
      IdsAtLeast(pool, indices[..n], result[..n], i, j);
      assert result[n] == pool[indices[n]].Drawn();
      LastCounted(indices);
    }
  }

  /** How many of the indices are below n, index by index. */
  function Below(indices: seq<int>, n: nat): nat {
    if n == 0 then 0 else Below(indices, n - 1) + multiset(indices)[n - 1]
  }

  lemma {:induction false} BelowOneMore(indices: seq<int>, x: nat, n: nat)
    ensures Below(indices + [x], n) == Below(indices, n) + if x < n then 1 else 0
  {
    if n > 0 {
      BelowOneMore(indices, x, n - 1);
    }
  }

  lemma {:induction false} BelowAll(indices: seq<int>, n: nat)
    requires forall j :: 0 <= j < |indices| ==> 0 <= indices[j] < n
    ensures Below(indices, n) == |indices|
  {
    if indices == [] {
      BelowNone(n);
    } else {
      var m := |indices| - 1;
      BelowAll(indices[..m], n);
      BelowOneMore(indices[..m], indices[m], n);
      assert indices == indices[..m] + [indices[m]];
    }
  }

  lemma {:induction false} BelowNone(n: nat)
    ensures Below([], n) == 0
  {
    if n > 0 {
      BelowNone(n - 1);
    }
  }

  /** Draws within what remains add up to no more than all, and to all only when nothing remains. */
  lemma {:induction false} BelowRemaining(start: seq<BoxItem>, indices: seq<int>, n: nat, k: nat)
    requires n <= |start| && k < |start|
    requires forall i :: 0 <= i < |start| ==> multiset(indices)[i] <= start[i].Remaining()
    ensures Below(indices, n) <= TotalRemaining(start[..n])
    ensures Below(indices, n) == TotalRemaining(start[..n]) && k < n ==> multiset(indices)[k] == start[k].Remaining()
  {
    if n > 0 {
      BelowRemaining(start, indices, n - 1, k);
      assert start[..n][..n - 1] == start[..n - 1];
    }
  }

  /** A draw of everything takes every item as often as it remains. */
  lemma FullDraw(start: seq<BoxItem>, indices: seq<int>, now: seq<BoxItem>, k: nat)
    requires Drew(start, indices, now) && |indices| == TotalRemaining(start) && k < |start|
    ensures multiset(indices)[k] == start[k].Remaining()
  {
    BelowAll(indices, |start|);
    BelowRemaining(start, indices, |start|, k);
    assert start[..|start|] == start;
  }

  /** Some draw takes everything. */
  lemma {:induction false} AllIndices(start: seq<BoxItem>)
    ensures exists indices :: TicketsOf(indices, start) && |indices| == TotalRemaining(start)
  {
    if start == [] {
      assert TicketsOf([], start);
    } else {
      var n := |start| - 1;
      AllIndices(start[..n]);
      var before :| TicketsOf(before, start[..n]) && |before| == TotalRemaining(start[..n]);
      var indices := AddCopies(before, start, n, start[n].Remaining());
      assert TicketsOf(indices, start);
    }
  }

  /** The tickets of the first n items and some copies of index n. */
  ghost predicate WithCopies(before: seq<int>, start: seq<BoxItem>, n: nat, copies: nat, indices: seq<int>)
    requires n < |start|
  {
    |indices| == |before| + copies && (forall i :: i in indices ==> 0 <= i <= n) && multiset(indices)[n] == copies &&
    forall k :: 0 <= k < n ==> multiset(indices)[k] == start[k].Remaining()
  }

  lemma {:induction false} AddCopies(before: seq<int>, start: seq<BoxItem>, n: nat, copies: nat)
    returns (indices: seq<int>)
    requires n < |start| && TicketsOf(before, start[..n])
    ensures WithCopies(before, start, n, copies, indices)
  {
    if copies == 0 {
      indices := before;
      assert n in multiset(before) ==> n in before;
    } else {
      var fewer := AddCopies(before, start, n, copies - 1);
      indices := fewer + [n];
    }
  }

  lemma SomeOutcome(pool: seq<BoxItem>, counts: map<int, int>) returns (result: seq<DrawnItem>)
    ensures BoxOutcome(pool, counts, TotalRemaining(Restore(pool, counts)), result)
  {
    var start := Restore(pool, counts);
    AllIndices(start);
    var indices :| TicketsOf(indices, start) && |indices| == TotalRemaining(start);
    forall j | 0 <= j < |indices| ensures 0 <= indices[j] < |start| {
      assert indices[j] in indices;
    }
    result := seq(|indices|, j requires 0 <= j < |indices| => start[indices[j]].Drawn());
    var now := seq(|start|, k requires 0 <= k < |start| => Bump(start[k], multiset(indices)[k]));
    assert Drew(start, indices, now) && Matches(start, indices, result);
    assert DrawnTo(start, |indices|, indices, now, result);
  }

  ghost predicate InLimits(pool: seq<BoxItem>, drawn: multiset<int>) {
    forall k :: 0 <= k < |pool| ==> drawn[pool[k].possessionId] <= pool[k].maxCount
  }

  /** Nothing was drawn yet, and there is something of every item. */
  ghost predicate Fresh(pool: seq<BoxItem>) {
    forall k :: 0 <= k < |pool| ==> pool[k].drewCount == 0 && pool[k].maxCount > 0
  }

  lemma FreshIsRestored(pool: seq<BoxItem>)
    requires Fresh(pool)
    ensures Restore(pool, map[]) == pool
  {
  }

  /**
   * The counts are kept by id, so when two items of the pool share one, every
   * draw that empties a fresh box draws that id beyond its limit.
   */
  lemma SharedIdOverdraws(pool: seq<BoxItem>, count: nat, result: seq<DrawnItem>)
    requires Fresh(pool) && !DistinctIds(pool) && count >= TotalRemaining(pool)
    requires BoxOutcome(pool, map[], count, result)
    ensures !InLimits(pool, Ids(result))
  {
    FreshIsRestored(pool);
    var indices, now :| DrawnTo(pool, count, indices, now, result);
    var i, j :| 0 <= i < j < |pool| && pool[i].possessionId == pool[j].possessionId;
    SharedDrawn(pool, indices, now, result, i, j);
  }

  lemma SharedDrawn(pool: seq<BoxItem>, indices: seq<int>, now: seq<BoxItem>, result: seq<DrawnItem>, i: nat, j: nat)
    requires Fresh(pool) && i < j < |pool| && pool[i].possessionId == pool[j].possessionId
    requires Drew(pool, indices, now) && |indices| == TotalRemaining(pool) && Matches(pool, indices, result)
    ensures Ids(result)[pool[i].possessionId] > pool[i].maxCount
  {
    FullDraw(pool, indices, now, i);
    FullDraw(pool, indices, now, j);
    IdsAtLeast(pool, indices, result, i, j);
  }

  lemma DistinctInLimits(pool: seq<BoxItem>, count: nat, result: seq<DrawnItem>)
    requires Fresh(pool) && DistinctIds(pool) && BoxOutcome(pool, map[], count, result)
    ensures InLimits(pool, Ids(result))
  {
    FreshIsRestored(pool);
    OutcomeWithinLimits(pool, map[], count, result);
  }

  /** From a fresh box every draw stays within every limit exactly when the ids of the pool are distinct. */
  lemma InLimitsIffDistinct(pool: seq<BoxItem>)
    requires Fresh(pool)
    ensures DistinctIds(pool) <==>
      forall count: nat, result | BoxOutcome(pool, map[], count, result) :: InLimits(pool, Ids(result))
  {
    if DistinctIds(pool) {
      forall count: nat, result | BoxOutcome(pool, map[], count, result) ensures InLimits(pool, Ids(result)) {
        DistinctInLimits(pool, count, result);
      }
    } else {
      FreshIsRestored(pool);
      var result := SomeOutcome(pool, map[]);
      SharedIdOverdraws(pool, TotalRemaining(pool), result);
    }
  }

  /** No two of the materials used share an id, and with fewer than five none is the fallback item. */
  predicate MaterialsDiffer(materials: seq<PoolItem>) {
    (forall i, j :: 0 <= i < j < Min(|materials|, BOX_POOL_MAX_ITEMS) ==>
      materials[i].possessionId != materials[j].possessionId) &&
    (|materials| < BOX_POOL_MIN_ITEMS ==>
      forall i :: 0 <= i < |materials| ==> materials[i].possessionId != BOX_FALLBACK_ITEM_ID)
  }

  /** A banner's fresh box is drawn within its limits, whatever is drawn, exactly when its materials differ. */
  lemma InLimitsIffMaterialsDiffer(materials: seq<PoolItem>)
    ensures MaterialsDiffer(materials) <==>
      forall count: nat, result | BoxOutcome(BoxPool(materials), map[], count, result) ::
        InLimits(BoxPool(materials), Ids(result))
  {
    PoolIdsDistinct(materials);
    InLimitsIffDistinct(BoxPool(materials));
  }

  /** One material, which is the fallback item: some draw takes more of it than there is. */
  lemma FallbackItemOverdraws(rarity: int)
    ensures
      var pool := BoxPool([PoolItem(POSSESSION_MATERIAL, BOX_FALLBACK_ITEM_ID, rarity, 0)]);
      exists count: nat, result :: BoxOutcome(pool, map[], count, result) && !InLimits(pool, Ids(result))
  {
    var materials := [PoolItem(POSSESSION_MATERIAL, BOX_FALLBACK_ITEM_ID, rarity, 0)];
    InLimitsIffMaterialsDiffer(materials);
    assert materials[0].possessionId == BOX_FALLBACK_ITEM_ID;
  }

  lemma PoolIdsDistinct(materials: seq<PoolItem>)
    ensures DistinctIds(BoxPool(materials)) <==> MaterialsDiffer(materials)
  {
    var pool, n := BoxPool(materials), Min(|materials|, BOX_POOL_MAX_ITEMS);
    assert forall i :: 0 <= i < n ==> pool[i].possessionId == materials[i].possessionId;
    assert n < BOX_POOL_MIN_ITEMS ==> pool[n].possessionId == BOX_FALLBACK_ITEM_ID;
    if DistinctIds(pool) && |materials| < BOX_POOL_MIN_ITEMS {
      forall i | 0 <= i < |materials| ensures materials[i].possessionId != BOX_FALLBACK_ITEM_ID {
        assert pool[i].possessionId != pool[n].possessionId;
      }
    }
  }

  class BoxBanner {
    const materials: seq<PoolItem>
    var boxDrewCounts: map<int, int>
    var boxNumber: int
    /** What left the box since it was last reset. */
    ghost var drawn: multiset<int>

    /** With distinct ids in the pool, the stored counts are what was drawn, within the limits. */
    ghost predicate Valid()
      reads this
    {
      DistinctIds(BoxPool(materials)) ==> Tallied(BoxPool(materials), boxDrewCounts, drawn)
    }

    constructor (materials: seq<PoolItem>)
      ensures Valid() && drawn == multiset{} && this.materials == materials
    {
      this.materials, boxDrewCounts, boxNumber, drawn := materials, map[], 0, multiset{};
    }

    /**
     * Whatever was drawn and reset before, a draw gives what is asked for or
     * what is left, and the stored counts stay the multiset drawn since the
     * last reset.
     */
    method Draw(count: nat) returns (result: seq<DrawnItem>)
      requires Valid()
      modifies this
      ensures Valid() && boxNumber == old(boxNumber)
      ensures drawn == old(drawn) + Ids(result)
      ensures DistinctIds(BoxPool(materials)) ==> GivesWhatIsLeft(BoxPool(materials), old(drawn), count, result)
    {
      var pool := BuildBoxPool(materials);
      result, boxDrewCounts := DrawFromBox(pool, boxDrewCounts, count, drawn);
      drawn := drawn + Ids(result);
    }

    method Reset()
      requires Valid()
      modifies this
      ensures Valid() && drawn == multiset{} && boxNumber == old(boxNumber) + 1
    {
      boxDrewCounts := map[];
      drawn := multiset{};
      boxNumber := boxNumber + 1;
    }
  }
}
