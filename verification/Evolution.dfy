/**
 * Walking a weapon's evolution chain to its end (mass_upgrades.go) over the
 * next-weapon map built when the weapon catalog loads (weapon.go).
 */
module Evolution {
  import opened Common

  type Next = map<int, int>

  /** Where n steps lead, stopping early at an id with no successor. */
  function Walk(next: Next, id: int, n: nat): int
    decreases n
  {
    if n > 0 && id in next then Walk(next, next[id], n - 1) else id
  }

  ghost predicate Ends(next: Next, id: int) {
    exists n: nat :: Walk(next, id, n) !in next
  }

  /** The id the chain ends at. */
  ghost function Final(next: Next, id: int): (final: int)
    requires Ends(next, id)
    ensures final !in next
  {
    var n: nat :| Walk(next, id, n) !in next;
    Walk(next, id, n)
  }

  lemma {:induction false} EndIsUnique(next: Next, id: int, m: nat, n: nat)
    requires Walk(next, id, m) !in next && Walk(next, id, n) !in next
    ensures Walk(next, id, m) == Walk(next, id, n)
    decreases m
  {
    if id in next {
      EndIsUnique(next, next[id], m - 1, n - 1);
    }
  }

  lemma FinalStep(next: Next, id: int)
    requires Ends(next, id)
    ensures id !in next ==> Final(next, id) == id
    ensures id in next ==> Ends(next, next[id]) && Final(next, next[id]) == Final(next, id)
  {
    var n: nat :| Walk(next, id, n) !in next && Walk(next, id, n) == Final(next, id);
    if id in next {
      assert Walk(next, next[id], n - 1) !in next;
      var m: nat :| Walk(next, next[id], m) !in next && Walk(next, next[id], m) == Final(next, next[id]);
      EndIsUnique(next, next[id], n - 1, m);
    }
  }

  /** The chain's end is a fixed point: walking again from it stays there. */
  lemma FinalIsFixed(next: Next, id: int)
    requires Ends(next, id)
    ensures Ends(next, Final(next, id)) && Final(next, Final(next, id)) == Final(next, id)
  {
    assert Walk(next, Final(next, id), 0) !in next;
    FinalStep(next, Final(next, id));
  }

  /** The loop of the mass upgrade; it needs a chain that ends. */
  method WalkToEnd(next: Next, id: int) returns (final: int)
    requires Ends(next, id)
    ensures final == Final(next, id)
  {
    ghost var left: nat :| Walk(next, id, left) !in next;
    final := id;
    while final in next
      invariant Walk(next, final, left) !in next
      invariant Ends(next, final) && Final(next, final) == Final(next, id)
      decreases left
    {
      FinalStep(next, final);
      final := next[final];
      left := left - 1;
    }
    FinalStep(next, final);
  }

  // ---------------------------------------------------------------------------
  // Which maps have only chains that end
  // ---------------------------------------------------------------------------

  /** id comes back to itself after n > 0 steps through the map. */
  ghost predicate CycleAt(next: Next, id: int, n: nat) {
    n > 0 && Walk(next, id, n) == id && forall k: nat :: k < n ==> Walk(next, id, k) in next
  }

  ghost predicate Acyclic(next: Next) {
    forall id, n: nat :: !CycleAt(next, id, n)
  }

  lemma {:induction false} WalkAdds(next: Next, id: int, m: nat, n: nat)
    ensures Walk(next, Walk(next, id, m), n) == Walk(next, id, m + n)
    decreases m
  {
    if m > 0 && id in next {
      WalkAdds(next, next[id], m - 1, n);
    } else if id !in next {
      assert Walk(next, id, m) == id;
    }
  }

  lemma {:induction false} CycleNeverEnds(next: Next, id: int, n: nat, k: nat)
    requires CycleAt(next, id, n)
    ensures Walk(next, id, k) in next
    decreases k
  {
    if k >= n {
      CycleNeverEnds(next, id, n, k - n);
      WalkAdds(next, id, n, k - n);
    }
  }

  /** The ids of the first n steps from id. */
  ghost function Visited(next: Next, id: int, n: nat): set<int>
    decreases n
  {
    if n == 0 then {} else Visited(next, id, n - 1) + {Walk(next, id, n - 1)}
  }

  lemma {:induction false} VisitedAt(next: Next, id: int, n: nat, x: int)
    requires x in Visited(next, id, n)
    ensures exists k: nat :: k < n && Walk(next, id, k) == x
  {
    if x != Walk(next, id, n - 1) {
      VisitedAt(next, id, n - 1, x);
    }
  }

  lemma RevisitIsCycle(next: Next, id: int, k: nat, n: nat)
    requires k < n && Walk(next, id, k) == Walk(next, id, n)
    requires forall j: nat :: j < n ==> Walk(next, id, j) in next
    ensures !Acyclic(next)
  {
    var x, period := Walk(next, id, k), n - k;
    WalkAdds(next, id, k, period);
    forall j: nat | j < period ensures Walk(next, x, j) in next {
      WalkAdds(next, id, k, j);
    }
    assert CycleAt(next, x, period);
  }

  lemma {:induction false} DistinctSteps(next: Next, id: int, n: nat)
    requires Acyclic(next) && forall k: nat :: k < n ==> Walk(next, id, k) in next
    ensures |Visited(next, id, n)| == n && Visited(next, id, n) <= next.Keys
  {
    if n > 0 {
      DistinctSteps(next, id, n - 1);
      var x := Walk(next, id, n - 1);
      if x in Visited(next, id, n - 1) {
        VisitedAt(next, id, n - 1, x);
        var k: nat :| k < n - 1 && Walk(next, id, k) == x;
        RevisitIsCycle(next, id, k, n - 1);
      }
    }
  }

  /** Every chain walk ends exactly when the map has no cycle. */
  lemma AllEndIffAcyclic(next: Next)
    ensures (forall id :: Ends(next, id)) <==> Acyclic(next)
  {
    if Acyclic(next) {
      forall id ensures Ends(next, id) {
        var n: nat := |next.Keys| + 1;
        if !Ends(next, id) {
          DistinctSteps(next, id, n);
          SubsetSize(Visited(next, id, n), next.Keys);
        }
      }
    } else {
      var id, n: nat :| CycleAt(next, id, n);
      forall k: nat ensures Walk(next, id, k) in next {
        CycleNeverEnds(next, id, n, k);
      }
      assert !Ends(next, id);
    }
  }

  // ---------------------------------------------------------------------------
  // The map the catalog builds
  // ---------------------------------------------------------------------------

  /** The id is at place i of group g. */
  ghost predicate At(groups: seq<seq<int>>, g: nat, i: nat, id: int) {
    g < |groups| && i < |groups[g]| && groups[g][i] == id
  }

  /** Evolution groups, each listing its weapon ids in evolution order; no id is listed twice. */
  ghost predicate DistinctIds(groups: seq<seq<int>>) {
    forall g: nat, i: nat, h: nat, j: nat, id | At(groups, g, i, id) && At(groups, h, j, id) :: g == h && i == j
  }

  /** order counts the steps taken from the start of a group. */
  ghost predicate Ordered(next: Next, order: map<int, int>) {
    forall id :: id in next ==> id in order && next[id] in order && order[next[id]] == order[id] + 1
  }

  lemma {:induction false} OrderCountsSteps(next: Next, order: map<int, int>, id: int, n: nat)
    requires Ordered(next, order) && id in order && forall k: nat :: k < n ==> Walk(next, id, k) in next
    ensures Walk(next, id, n) in order && order[Walk(next, id, n)] == order[id] + n
    decreases n
  {
    if n > 0 {
      assert Walk(next, id, 0) in next;
      forall k: nat | k < n - 1 ensures Walk(next, next[id], k) in next {
        assert Walk(next, id, k + 1) in next;
      }
      OrderCountsSteps(next, order, next[id], n - 1);
    }
  }

  lemma OrderedIsAcyclic(next: Next, order: map<int, int>)
    requires Ordered(next, order)
    ensures Acyclic(next)
  {
    forall id, n: nat ensures !CycleAt(next, id, n) {
      if CycleAt(next, id, n) {
        assert Walk(next, id, 0) in next;
        OrderCountsSteps(next, order, id, n);
      }
    }
  }

  /**
   * Loading groups that list no weapon twice gives each weapon its place and its
   * successor, and the successor map is acyclic because places count up along it.
   */
  method LoadEvolution(groups: seq<seq<int>>) returns (next: Next, order: map<int, int>)
    ensures DistinctIds(groups) ==> Ordered(next, order) && Acyclic(next)
    ensures DistinctIds(groups) ==> forall g: nat, i: nat, id :: At(groups, g, i, id) ==> id in order && order[id] == i
    ensures DistinctIds(groups) ==> Links(groups, next)
  {
    next, order := map[], map[];
    for g := 0 to |groups|
      invariant DistinctIds(groups) ==> Placed(groups, order, g, 0) && Linked(groups, next, g, 0)
    {
      for i := 0 to |groups[g]|
        invariant DistinctIds(groups) ==> Placed(groups, order, g, i) && Linked(groups, next, g, i)
      {
        order := order[groups[g][i] := i];
        if i < |groups[g]| - 1 {
          next := next[groups[g][i] := groups[g][i + 1]];
        }
        assert At(groups, g, i, groups[g][i]);
      }
    }
    if DistinctIds(groups) {
      LinkedIsOrdered(groups, next, order);
      OrderedIsAcyclic(next, order);
    }
  }

  /** The successors are exactly those of the groups. */
  ghost predicate Links(groups: seq<seq<int>>, next: Next) {
    (forall g: nat, i: nat, id | At(groups, g, i, id) && i + 1 < |groups[g]| ::
      id in next && next[id] == groups[g][i + 1]) &&
    (forall id | id in next :: Listed(groups, id, next[id]))
  }

  /** Position (h, j) comes before position (g, i). */
  predicate Before(h: nat, j: nat, g: nat, i: nat) {
    h < g || (h == g && j < i)
  }

  ghost predicate Placed(groups: seq<seq<int>>, order: map<int, int>, g: nat, i: nat) {
    forall h: nat, j: nat, id | At(groups, h, j, id) && Before(h, j, g, i) :: id in order && order[id] == j
  }

  ghost predicate Linked(groups: seq<seq<int>>, next: Next, g: nat, i: nat) {
    (forall h: nat, j: nat, id | At(groups, h, j, id) && Before(h, j, g, i) && j + 1 < |groups[h]| ::
      id in next && next[id] == groups[h][j + 1]) &&
    (forall id | id in next :: Listed(groups, id, next[id]))
  }

  /** succ follows id in some group. */
  ghost predicate Listed(groups: seq<seq<int>>, id: int, succ: int) {
    exists h: nat, j: nat :: At(groups, h, j, id) && At(groups, h, j + 1, succ)
  }

  lemma LinkedIsOrdered(groups: seq<seq<int>>, next: Next, order: map<int, int>)
    requires DistinctIds(groups)
    requires Placed(groups, order, |groups|, 0) && Linked(groups, next, |groups|, 0)
    ensures Ordered(next, order)
  {
    forall id | id in next ensures id in order && next[id] in order && order[next[id]] == order[id] + 1 {
      assert Listed(groups, id, next[id]);
      var h: nat, j: nat :| At(groups, h, j, id) && At(groups, h, j + 1, next[id]);
      assert Before(h, j, |groups|, 0) && Before(h, j + 1, |groups|, 0);
    }
  }
}
