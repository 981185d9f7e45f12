/** When the visiting order matters. */
module MassUpgradeOrder {
  import opened Common
  import opened Evolution
  import opened MassUpgradeState

  // The story rows of cmd/lunar-base-grant/mass_upgrades.go are written by every weapon that
  // ends at their id. The order is shown to matter exactly for the states where some row
  // is Sensitive.

  ghost predicate ForwardsAny(cat: Catalog, s: State, k: string, t: int)
    requires cat.Valid()
  {
    exists j :: ForwardsTo(cat, s, k, t, j)
  }

  /** Index j counts in every order: it is forwarded, it is positive, or a forwarder unlocks it after forwarding. */
  ghost predicate Counts(cat: Catalog, s: State, done: set<string>, t: int, j: int)
    requires cat.Valid()
  {
    AnyForwards(cat, s, done, t, j) ||
    (exists k :: k in done && Unlocks(cat, s, k, t, j) && (j > 0 || ForwardsAny(cat, s, k, t)))
  }

  /** Index g is unlocked by a weapon that forwards nothing, so it is lost on a missing row unless it is positive. */
  ghost predicate Droppable(cat: Catalog, s: State, t: int, g: int)
    requires cat.Valid()
  {
    exists h :: h in s.weapons && Unlocks(cat, s, h, t, g) && !ForwardsAny(cat, s, h, t)
  }

  /**
   * The row of id t is missing, some weapon forwards to it, and an index that is
   * not positive, greater than all that count in every order, can be dropped.
   */
  ghost predicate Sensitive(cat: Catalog, s: State, t: int)
    requires cat.Valid()
  {
    t !in s.stories && (exists k :: k in s.weapons && ForwardsAny(cat, s, k, t)) &&
    exists g :: g <= 0 && Droppable(cat, s, t, g) && forall j :: Counts(cat, s, s.weapons.Keys, t, j) ==> j < g
  }

  ghost predicate OrderFree(cat: Catalog, s: State)
    requires cat.Valid()
  {
    forall t :: !Sensitive(cat, s, t)
  }

  // ---------------------------------------------------------------------------
  // One row along a run
  // ---------------------------------------------------------------------------

  lemma {:induction false} UnlockAllFacts(cat: Catalog, t: int, level: int, conditions: seq<ReleaseCondition>,
                                          row: Option<Story>, now: int)
    requires t in cat.weapons
    ensures
      var r := UnlockAll(cat, t, level, conditions, row, now);
      (forall i :: 0 <= i < |conditions| && cat.Meets(t, level, conditions[i]) ==>
       conditions[i].storyIndex <= Index(r)) &&
      (r == row ||
       exists i :: 0 <= i < |conditions| && cat.Meets(t, level, conditions[i]) &&
         conditions[i].storyIndex > Index(row) &&
         r == Some(Story(t, conditions[i].storyIndex, now)))
  {
    if conditions != [] {
      var n := |conditions| - 1;
      UnlockAllFacts(cat, t, level, conditions[..n], row, now);
      assert conditions == conditions[..n] + [conditions[n]];
    }
  }

  /** What one weapon can do to a row. */
  ghost predicate StepOk(cat: Catalog, s: State, k: string, t: int, row: Option<Story>, now: int, r: Option<Story>)
    requires cat.Valid()
  {
    (r == row || (r.Some? && r.value == Story(t, Index(r), now) &&
      (ForwardsTo(cat, s, k, t, Index(r)) || Unlocks(cat, s, k, t, Index(r))) &&
      (row.Some? ==> Index(r) > Index(row)) && (row.None? && !ForwardsAny(cat, s, k, t) ==> Index(r) > 0))) &&
    (row.Some? ==> r.Some? && Index(r) >= Index(row)) &&
    (forall j :: ForwardsTo(cat, s, k, t, j) ==> r.Some? && j <= Index(r)) &&
    (forall g :: Unlocks(cat, s, k, t, g) && (g > 0 || row.Some? || ForwardsAny(cat, s, k, t)) ==>
      r.Some? && g <= Index(r))
  }

  lemma StepFacts(cat: Catalog, s: State, k: string, t: int, row: Option<Story>, now: int)
    requires cat.Valid() && k in s.weapons
    ensures StepOk(cat, s, k, t, row, now, RowStep(cat, s, k, t, row, now))
  {
    var weapon := s.weapons[k];
    if cat.FinalId(weapon.weaponId) == t {
      var forwards := t != weapon.weaponId && weapon.weaponId in s.stories;
      assert forwards ==> ForwardsTo(cat, s, k, t, s.stories[weapon.weaponId].releasedMaxStoryIndex);
      assert ForwardsAny(cat, s, k, t) <==> forwards;
      var forwarded := if forwards then Forward(t, row, s.stories[weapon.weaponId].releasedMaxStoryIndex, now) else row;
      if t in cat.weapons {
        UnlockAllFacts(cat, t, LevelAndExp(cat, t, weapon).0, cat.ReleaseConditions(t), forwarded, now);
      }
    }
  }

  function Elements(order: seq<string>): set<string> {
    set k | k in order
  }

  /** What a run leaves of a row. */
  ghost predicate RunOk(cat: Catalog, s: State, row: Option<Story>, done: set<string>, t: int, now: int,
                        r: Option<Story>)
    requires cat.Valid()
  {
    (r == row || (r.Some? && r.value == Story(t, Index(r), now) &&
      (AnyForwards(cat, s, done, t, Index(r)) || AnyUnlocks(cat, s, done, t, Index(r))) &&
      (row.Some? ==> Index(r) > Index(row)))) &&
    (row.Some? ==> r.Some? && Index(r) >= Index(row)) &&
    (row.None? && r.Some? && (forall k :: k in done ==> !ForwardsAny(cat, s, k, t)) ==> Index(r) > 0) &&
    (forall j :: Counts(cat, s, done, t, j) ==> r.Some? && j <= Index(r)) &&
    (row.Some? ==> forall g :: AnyUnlocks(cat, s, done, t, g) ==> g <= Index(r))
  }

  lemma RunStep(cat: Catalog, s: State, row: Option<Story>, done: set<string>, k: string, t: int, now: int,
                mid: Option<Story>, r: Option<Story>)
    requires cat.Valid() && RunOk(cat, s, row, done, t, now, mid) && StepOk(cat, s, k, t, mid, now, r)
    ensures RunOk(cat, s, row, done + {k}, t, now, r)
  {
    forall j | Counts(cat, s, done + {k}, t, j) ensures r.Some? && j <= Index(r) {
      if !Counts(cat, s, done, t, j) {
        assert ForwardsTo(cat, s, k, t, j) || (Unlocks(cat, s, k, t, j) && (j > 0 || ForwardsAny(cat, s, k, t)));
      }
    }
    forall g | AnyUnlocks(cat, s, done + {k}, t, g) && row.Some? ensures g <= Index(r) {
      assert AnyUnlocks(cat, s, done, t, g) || Unlocks(cat, s, k, t, g);
    }
    if r != mid {
      assert k in done + {k};
    } else if r != row {
      if AnyForwards(cat, s, done, t, Index(r)) {
        var h :| h in done && ForwardsTo(cat, s, h, t, Index(r));
        assert h in done + {k};
      } else {
        var h :| h in done && Unlocks(cat, s, h, t, Index(r));
        assert h in done + {k};
      }
    }
  }

  lemma {:induction false} RunFacts(cat: Catalog, s: State, row: Option<Story>, order: seq<string>, t: int, now: int)
    requires cat.Valid() && AllOwned(s, order)
    ensures RunOk(cat, s, row, Elements(order), t, now, RowRun(cat, s, row, order, t, now))
  {
    if order != [] {
      var n := |order| - 1;
      var mid := RowRun(cat, s, row, order[..n], t, now);
      RunFacts(cat, s, row, order[..n], t, now);
      StepFacts(cat, s, order[n], t, mid, now);
      RunStep(cat, s, row, Elements(order[..n]), order[n], t, now, mid, RowStep(cat, s, order[n], t, mid, now));
      assert Elements(order) == Elements(order[..n]) + {order[n]};
    }
  }

  lemma RunOneMore(cat: Catalog, s: State, row: Option<Story>, order: seq<string>, k: string, t: int, now: int)
    requires cat.Valid() && k in s.weapons && AllOwned(s, order)
    ensures AllOwned(s, order + [k]) &&
      RowRun(cat, s, row, order + [k], t, now) == RowStep(cat, s, k, t, RowRun(cat, s, row, order, t, now), now)
  {
    assert (order + [k])[..|order|] == order;
  }

  /** A row that is not sensitive ends as the order-free description says. */
  lemma RowIsAfter(cat: Catalog, s: State, order: seq<string>, t: int, now: int)
    requires cat.Valid() && !Sensitive(cat, s, t) && Lists(order, s.weapons.Keys) && AllOwned(s, order)
    ensures StoryRow(t, Get(s.stories, t), Forwarded(cat, s, s.weapons.Keys, t), Unlocked(cat, s, s.weapons.Keys, t),
                     now, RowRun(cat, s, Get(s.stories, t), order, t, now))
  {
    ListsAll(s, order);
    RunFacts(cat, s, Get(s.stories, t), order, t, now);
    var done, r := s.weapons.Keys, RowRun(cat, s, Get(s.stories, t), order, t, now);
    var row, forwarded, unlocked := Get(s.stories, t), Forwarded(cat, s, done, t), Unlocked(cat, s, done, t);
    forall j | j in forwarded + unlocked && r.Some? ensures j <= Index(r) {
      assert j in forwarded ==> Counts(cat, s, done, t, j);
      if row.None? && !Counts(cat, s, done, t, j) {
        NotCounted(cat, s, t, j, r);
      }
    }
    if r.None? && Raises(row, forwarded, unlocked) {
      var j :| j in forwarded + unlocked && (j in forwarded || j > 0);
      assert Counts(cat, s, done, t, j);
    }
    if r != row {
      assert Index(r) in forwarded + unlocked;
      assert row.None? && Index(r) !in forwarded && Index(r) <= 0 ==>
        exists k :: k in done && ForwardsAny(cat, s, k, t);
      if k :| k in done && ForwardsAny(cat, s, k, t) {
        var j :| ForwardsTo(cat, s, k, t, j);
        assert j in forwarded;
      }
    }
  }

  /** An index that may be dropped is outweighed by one that counts, if the row is not sensitive. */
  lemma NotCounted(cat: Catalog, s: State, t: int, g: int, r: Option<Story>)
    requires cat.Valid() && t !in s.stories && !Sensitive(cat, s, t) && r.Some?
    requires AnyUnlocks(cat, s, s.weapons.Keys, t, g) && !Counts(cat, s, s.weapons.Keys, t, g)
    requires (forall k :: k in s.weapons ==> !ForwardsAny(cat, s, k, t)) ==> Index(r) > 0
    requires forall j :: Counts(cat, s, s.weapons.Keys, t, j) ==> j <= Index(r)
    ensures g <= Index(r)
  {
    var h :| h in s.weapons.Keys && Unlocks(cat, s, h, t, g);
    assert Droppable(cat, s, t, g) && g <= 0;
    if k :| k in s.weapons && ForwardsAny(cat, s, k, t) {
      var j :| Counts(cat, s, s.weapons.Keys, t, j) && j >= g;
    }
  }

  lemma ListsAll(s: State, order: seq<string>)
    requires Lists(order, s.weapons.Keys)
    ensures AllOwned(s, order) && Elements(order) == s.weapons.Keys
  {
  }

  /** In an order-free state every order of the weapons leaves the rows the description gives. */
  lemma AnyOrderIsAfter(cat: Catalog, s: State, order: seq<string>, now: int, stories: map<int, Story>)
    requires cat.Valid() && OrderFree(cat, s) && Lists(order, s.weapons.Keys) && AllOwned(s, order)
    requires StoriesRun(cat, s, order, now, stories)
    ensures StoriesAfter(cat, s, s.weapons.Keys, now, stories)
  {
    forall t ensures StoryRow(t, Get(s.stories, t), Forwarded(cat, s, s.weapons.Keys, t),
                              Unlocked(cat, s, s.weapons.Keys, t), now, Get(stories, t)) {
      RowIsAfter(cat, s, order, t, now);
    }
  }

  lemma {:induction false} RunSplits(cat: Catalog, s: State, row: Option<Story>, a: seq<string>, b: seq<string>, t: int,
                                     now: int)
    requires cat.Valid() && AllOwned(s, a) && AllOwned(s, b)
    ensures AllOwned(s, a + b) &&
      RowRun(cat, s, row, a + b, t, now) == RowRun(cat, s, RowRun(cat, s, row, a, t, now), b, t, now)
  {
    if b == [] {
      assert a + b == a;
    } else {
      var n := |b| - 1;
      RunSplits(cat, s, row, a, b[..n], t, now);
      assert (a + b)[..|a + b| - 1] == a + b[..n];
    }
  }

  // ---------------------------------------------------------------------------
  // Orders that differ
  // ---------------------------------------------------------------------------

  /** Two orders of all weapons that leave the row different. */
  ghost predicate Differ(cat: Catalog, s: State, t: int, a: seq<string>, b: seq<string>, now: int)
    requires cat.Valid()
  {
    Lists(a, s.weapons.Keys) && Lists(b, s.weapons.Keys) && AllOwned(s, a) && AllOwned(s, b) &&
    RowRun(cat, s, Get(s.stories, t), a, t, now) != RowRun(cat, s, Get(s.stories, t), b, t, now)
  }

  /** A sensitive row does differ: the forwarders first keep the index that the forwarders last drop. */
  lemma OrdersDiffer(cat: Catalog, s: State, t: int, now: int)
    requires cat.Valid() && Sensitive(cat, s, t)
    ensures exists a, b :: Differ(cat, s, t, a, b, now)
  {
    var forwarders := set k | k in s.weapons && ForwardsAny(cat, s, k, t);
    var f := Listing(forwarders);
    var n := Listing(s.weapons.Keys - forwarders);
    var g :| g <= 0 && Droppable(cat, s, t, g) && forall j :: Counts(cat, s, s.weapons.Keys, t, j) ==> j < g;
    var k :| k in s.weapons && ForwardsAny(cat, s, k, t);
    assert k in forwarders && Splits(cat, s, t, forwarders, f, n);
    SplitsDiffer(cat, s, t, now, forwarders, f, n, g);
  }

  lemma SplitsDiffer(cat: Catalog, s: State, t: int, now: int, forwarders: set<string>, f: seq<string>,
                     n: seq<string>, g: int)
    requires cat.Valid() && Splits(cat, s, t, forwarders, f, n) && Droppable(cat, s, t, g) && g <= 0
    requires forall j :: Counts(cat, s, s.weapons.Keys, t, j) ==> j < g
    ensures Differ(cat, s, t, f + n, n + f, now)
  {
    ForwardersFirst(cat, s, t, now, forwarders, f, n, g);
    ForwardersLast(cat, s, t, now, forwarders, f, n, g);
    BothList(s, forwarders, f, n);
  }

  lemma BothList(s: State, forwarders: set<string>, f: seq<string>, n: seq<string>)
    requires forwarders <= s.weapons.Keys && Lists(f, forwarders) && Lists(n, s.weapons.Keys - forwarders)
    ensures Lists(f + n, s.weapons.Keys) && Lists(n + f, s.weapons.Keys)
  {
    var rest := s.weapons.Keys - forwarders;
    assert forwarders + rest == s.weapons.Keys == rest + forwarders;
    ListsSum(f, forwarders, n, rest);
    ListsSum(n, rest, f, forwarders);
  }

  ghost predicate Splits(cat: Catalog, s: State, t: int, forwarders: set<string>, f: seq<string>, n: seq<string>)
    requires cat.Valid()
  {
    Lists(f, forwarders) && Lists(n, s.weapons.Keys - forwarders) && forwarders <= s.weapons.Keys &&
    (forall k :: k in s.weapons ==> (k in forwarders <==> ForwardsAny(cat, s, k, t))) && forwarders != {} &&
    t !in s.stories
  }

  lemma ForwardersFirst(cat: Catalog, s: State, t: int, now: int, forwarders: set<string>, f: seq<string>,
                        n: seq<string>, g: int)
    requires cat.Valid() && Splits(cat, s, t, forwarders, f, n) && Droppable(cat, s, t, g)
    ensures AllOwned(s, f + n) && Index(RowRun(cat, s, None, f + n, t, now)) >= g
  {
    assert Elements(f) == forwarders && Elements(n) == s.weapons.Keys - forwarders;
    RunSplits(cat, s, None, f, n, t, now);
    RunFacts(cat, s, None, f, t, now);
    var mid := RowRun(cat, s, None, f, t, now);
    RunFacts(cat, s, mid, n, t, now);
    var k :| k in forwarders;
    var j :| ForwardsTo(cat, s, k, t, j);
    assert Counts(cat, s, forwarders, t, j);
    var h :| h in s.weapons && Unlocks(cat, s, h, t, g) && !ForwardsAny(cat, s, h, t);
    assert AnyUnlocks(cat, s, s.weapons.Keys - forwarders, t, g);
  }

  lemma ForwardersLast(cat: Catalog, s: State, t: int, now: int, forwarders: set<string>, f: seq<string>,
                       n: seq<string>, g: int)
    requires cat.Valid() && Splits(cat, s, t, forwarders, f, n) && g <= 0
    requires forall j :: Counts(cat, s, s.weapons.Keys, t, j) ==> j < g
    ensures AllOwned(s, n + f) && Index(RowRun(cat, s, None, n + f, t, now)) < g
  {
    assert Elements(f) == forwarders && Elements(n) == s.weapons.Keys - forwarders;
    RunSplits(cat, s, None, n, f, t, now);
    RunFacts(cat, s, None, n, t, now);
    var mid := RowRun(cat, s, None, n, t, now);
    assert mid.Some? ==> Counts(cat, s, s.weapons.Keys, t, Index(mid));
    RunFacts(cat, s, mid, f, t, now);
    var r := RowRun(cat, s, mid, f, t, now);
    var k :| k in forwarders;
    var j :| ForwardsTo(cat, s, k, t, j);
    assert Counts(cat, s, forwarders, t, j);
    assert Counts(cat, s, s.weapons.Keys, t, Index(r));
  }

  /** Visiting order makes no difference to any row exactly in the order-free states. */
  lemma OrderMattersIffSensitive(cat: Catalog, s: State, now: int)
    requires cat.Valid()
    ensures OrderFree(cat, s) <==> forall t, a, b :: !Differ(cat, s, t, a, b, now)
  {
    if OrderFree(cat, s) {
      forall t, a, b | Lists(a, s.weapons.Keys) && Lists(b, s.weapons.Keys) && AllOwned(s, a) && AllOwned(s, b)
        ensures RowRun(cat, s, Get(s.stories, t), a, t, now) == RowRun(cat, s, Get(s.stories, t), b, t, now)
      {
        RowIsAfter(cat, s, a, t, now);
        RowIsAfter(cat, s, b, t, now);
      }
    } else {
      var t :| Sensitive(cat, s, t);
      OrdersDiffer(cat, s, t, now);
    }
  }

  /** An order of all weapons that drops the index g from the row. */
  ghost predicate Drops(cat: Catalog, s: State, t: int, order: seq<string>, g: int, now: int)
    requires cat.Valid()
  {
    Lists(order, s.weapons.Keys) && AllOwned(s, order) && Droppable(cat, s, t, g) &&
    Index(RowRun(cat, s, Get(s.stories, t), order, t, now)) < g <= 0
  }

  lemma SomethingDrops(cat: Catalog, s: State, t: int, now: int)
    requires cat.Valid() && Sensitive(cat, s, t)
    ensures exists order, g :: Drops(cat, s, t, order, g, now)
  {
    var forwarders := set k | k in s.weapons && ForwardsAny(cat, s, k, t);
    var f := Listing(forwarders);
    var n := Listing(s.weapons.Keys - forwarders);
    var g :| g <= 0 && Droppable(cat, s, t, g) && forall j :: Counts(cat, s, s.weapons.Keys, t, j) ==> j < g;
    var k :| k in s.weapons && ForwardsAny(cat, s, k, t);
    assert k in forwarders && Splits(cat, s, t, forwarders, f, n);
    SplitDrops(cat, s, t, now, forwarders, f, n, g);
  }

  lemma SplitDrops(cat: Catalog, s: State, t: int, now: int, forwarders: set<string>, f: seq<string>, n: seq<string>,
                   g: int)
    requires cat.Valid() && Splits(cat, s, t, forwarders, f, n) && Droppable(cat, s, t, g) && g <= 0
    requires forall j :: Counts(cat, s, s.weapons.Keys, t, j) ==> j < g
    ensures Drops(cat, s, t, n + f, g, now)
  {
    ForwardersLast(cat, s, t, now, forwarders, f, n, g);
    BothList(s, forwarders, f, n);
  }

  // ---------------------------------------------------------------------------
  // Which states are order-free
  // ---------------------------------------------------------------------------

  /**
   * With a level cap for every weapon, as an enhance table gives it, every state
   * is order-free, negative stored indices included: weapons that end at the same
   * id end at the same level, so they unlock the same stories.
   */
  lemma CappedIsOrderFree(cat: Catalog, s: State)
    requires cat.Valid() && forall id :: id in cat.weapons ==> cat.CapLevel(id) > 0
    ensures OrderFree(cat, s)
  {
    forall t ensures !Sensitive(cat, s, t) {
      if k :| k in s.weapons && ForwardsAny(cat, s, k, t) {
        forall g | Droppable(cat, s, t, g) ensures Counts(cat, s, s.weapons.Keys, t, g) {
          var h :| h in s.weapons && Unlocks(cat, s, h, t, g);
          SameUnlocks(cat, s, h, k, t, g);
        }
      }
    }
  }

  lemma SameUnlocks(cat: Catalog, s: State, h: string, k: string, t: int, g: int)
    requires cat.Valid() && Unlocks(cat, s, h, t, g) && k in s.weapons && cat.FinalId(s.weapons[k].weaponId) == t
    requires cat.CapLevel(t) > 0
    ensures Unlocks(cat, s, k, t, g)
  {
    assert LevelAndExp(cat, t, s.weapons[k]).0 == LevelAndExp(cat, t, s.weapons[h]).0;
  }

  /** Weapon 1 evolves to 2, which has no level cap and a story 0 for level 50. */
  const UNCAPPED := Catalog(map[2 := Master(0, 0, 0, 7)], map[1 := 2], map[], map[], map[], map[], map[], map[], map[],
                            map[], map[], map[7 := [ReleaseCondition(0, RELEASE_SPECIFIED_LEVEL, 50)]])

  /** A low weapon 1 with a negative story index, and a weapon 2 of level 60. */
  const TWO_WEAPONS :=
    State(map["a" := Weapon(1, 1, 0, 0, 0), "b" := Weapon(2, 60, 0, 0, 0)], map[1 := Story(1, -5, 0)],
          map[], map[], map[], map[])

  /** Without a cap the order can matter: here the index 0 of the one weapon is kept or dropped. */
  lemma SensitiveState()
    ensures UNCAPPED.Valid() && Sensitive(UNCAPPED, TWO_WEAPONS, 2)
  {
    var cat, s := UNCAPPED, TWO_WEAPONS;
    forall id ensures Ends(cat.evolutionNext, id) {
      assert Walk(cat.evolutionNext, id, 1) !in cat.evolutionNext;
    }
    FinalStep(cat.evolutionNext, 1);
    FinalStep(cat.evolutionNext, 2);
    assert ForwardsTo(cat, s, "a", 2, -5);
    assert cat.ReleaseConditions(2)[0] == ReleaseCondition(0, RELEASE_SPECIFIED_LEVEL, 50);
    assert Unlocks(cat, s, "b", 2, 0) && !ForwardsAny(cat, s, "b", 2);
    assert Droppable(cat, s, 2, 0);
    forall j | Counts(cat, s, s.weapons.Keys, 2, j) ensures j < 0 {
      assert forall k :: k in s.weapons && Unlocks(cat, s, k, 2, j) ==> k == "b" && j == 0;
    }
  }

  /** Two orders of its weapons leave the row of weapon 2 different. */
  lemma TwoOrdersDiffer(now: int)
    ensures UNCAPPED.Valid() && exists a, b :: Differ(UNCAPPED, TWO_WEAPONS, 2, a, b, now)
  {
    SensitiveState();
    OrdersDiffer(UNCAPPED, TWO_WEAPONS, 2, now);
  }
}
