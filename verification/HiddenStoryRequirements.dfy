/** What gathered requirements are for. */
module HiddenStoryRequirements {
  import opened Common
  import opened Conditions
  import opened HiddenStory

  // The requirements are those of internal/masterdata/hiddenstory.go; the question is
  // what the evaluator of internal/masterdata/conditions.go answers for a user who
  // cleared them.
  //
  // A clear condition is solid when it holds once its mission and quest-mission leaves
  // are cleared, whichever quests are cleared and whatever the user did otherwise. This
  // is a truth table over the quests that the condition table asks about. The main
  // result is that, while the cutoff loses nothing, clearing what the collector gathered
  // satisfies a clear condition exactly when it is solid.

  ghost predicate Clears(t: Tables, user: User, x: int) {
    (t.MissionAt(x).Some? ==> user.MissionCleared(t.MissionAt(x).value)) &&
    (t.QuestMissionAt(x).Some? ==> user.QuestMissionCleared(t.QuestMissionAt(x).value))
  }

  lemma GroupValues(t: Tables, r: Resolver, conditions: seq<ConditionRow>, values: seq<ValueRow>, id: int)
    requires Indexed(t, conditions, values) && Loaded(r, conditions, values) && UniqueIndices(values)
    requires id in t.condById
    ensures id in r.conditionsById && r.conditionsById[id] == t.condById[id]
    ensures forall i :: i in t.Group(t.condById[id]) ==>
      ValueAt(r.Values(t.condById[id]), i) == Some(t.Group(t.condById[id])[i])
    ensures forall v :: v in r.Values(t.condById[id]) ==>
      v.groupIndex in t.Group(t.condById[id]) && t.Group(t.condById[id])[v.groupIndex] == v.value
    ensures (exists i :: i in t.Group(t.condById[id])) ==> r.Values(t.condById[id]) != []
  {
    var c := t.condById[id];
    ByKeyHolds(values);
    forall i | i in t.Group(c) ensures ValueAt(r.Values(c), i) == Some(t.Group(c)[i]) {
      assert At(t.valuesByGroup, c.valueGroupId, i) == AtKey(ByKey(values), c.valueGroupId, i);
      LoadedValueAt(r, conditions, values, c, i, t.Group(c)[i]);
    }
    forall v | v in r.Values(c) ensures v.groupIndex in t.Group(c) && t.Group(c)[v.groupIndex] == v.value {
      LoadedValues(r, conditions, values, c, v);
      assert At(t.valuesByGroup, c.valueGroupId, v.groupIndex) == AtKey(ByKey(values), c.valueGroupId, v.groupIndex);
    }
    if i :| i in t.Group(c) {
      assert ValueAt(r.Values(c), i).Some?;
    }
  }

  /** A value group of the collector and of the evaluator: the same values by index. */
  ghost predicate SameValues(group: map<int, int>, values: seq<GroupValue>) {
    (forall i :: ValueAt(values, i) == if i in group then Some(group[i]) else None) &&
    (forall v :: v in values ==> v.groupIndex in group && group[v.groupIndex] == v.value) &&
    (values == [] ==> forall i :: i !in group)
  }

  /** The collector and the evaluator work on the same conditions. */
  ghost predicate Agree(t: Tables, r: Resolver) {
    r.conditionsById == t.condById &&
    forall id :: id in t.condById ==> SameValues(t.Group(t.condById[id]), r.Values(t.condById[id]))
  }

  lemma LoadedAgree(t: Tables, r: Resolver, conditions: seq<ConditionRow>, values: seq<ValueRow>)
    requires Indexed(t, conditions, values) && Loaded(r, conditions, values) && UniqueIndices(values)
    ensures Agree(t, r)
  {
    forall id | id in t.condById ensures SameValues(t.Group(t.condById[id]), r.Values(t.condById[id])) {
      var group, found := t.Group(t.condById[id]), r.Values(t.condById[id]);
      GroupValues(t, r, conditions, values, id);
      forall i ensures ValueAt(found, i) == if i in group then Some(group[i]) else None {
        ValueAtFirst(found, i);
      }
    }
  }

  /** The quest a quest condition of the given kind asks about. */
  function QuestAt(t: Tables, x: int, functionType: int): Option<int> {
    if x in t.condById && t.condById[x].functionType == functionType && 1 in t.Group(t.condById[x])
    then Some(ToInt32(t.Group(t.condById[x])[1])) else None
  }

  /**
   * The condition holds in n levels for a user who cleared all its mission and
   * quest-mission leaves and exactly the given quests, and did nothing else.
   */
  ghost predicate SolidUnder(t: Tables, id: int, n: nat, cleared: set<int>)
    decreases n
  {
    id == 0 ||
    (n > 0 && id in t.condById &&
     match t.condById[id].functionType
     case FUNCTION_RECURSION =>
       t.Children(id) != {} &&
       if t.condById[id].evaluateType == EVALUATE_OR
       then exists c :: c in t.Children(id) && SolidUnder(t, c, n - 1, cleared)
       else forall c :: c in t.Children(id) ==> SolidUnder(t, c, n - 1, cleared)
     case FUNCTION_QUEST_CLEAR =>
       QuestAt(t, id, FUNCTION_QUEST_CLEAR).Some? && QuestAt(t, id, FUNCTION_QUEST_CLEAR).value in cleared
     case FUNCTION_QUEST_NOT_CLEAR =>
       QuestAt(t, id, FUNCTION_QUEST_NOT_CLEAR).Some? && QuestAt(t, id, FUNCTION_QUEST_NOT_CLEAR).value !in cleared
     case FUNCTION_MISSION_CLEAR => t.MissionAt(id).Some?
     case FUNCTION_QUEST_MISSION_CLEAR => t.QuestMissionAt(id).Some?
     case _ => false)
  }

  /** Whichever quests are cleared, the mission and quest-mission leaves are enough. */
  ghost predicate Solid(t: Tables, id: int, n: nat) {
    forall cleared: set<int> :: SolidUnder(t, id, n, cleared)
  }

  /** The quests that some condition of the table asks to be cleared, or not to be. */
  ghost function QuestsAsked(t: Tables): set<int> {
    (set x | x in t.condById && QuestAt(t, x, FUNCTION_QUEST_CLEAR).Some? ::
       QuestAt(t, x, FUNCTION_QUEST_CLEAR).value) +
    (set x | x in t.condById && QuestAt(t, x, FUNCTION_QUEST_NOT_CLEAR).Some? ::
       QuestAt(t, x, FUNCTION_QUEST_NOT_CLEAR).value)
  }

  lemma {:induction false} OnlyAskedMatters(t: Tables, id: int, n: nat, a: set<int>, b: set<int>)
    requires a * QuestsAsked(t) == b * QuestsAsked(t) && SolidUnder(t, id, n, a)
    ensures SolidUnder(t, id, n, b)
    decreases n
  {
    if id != 0 {
      if Recurses(t, id) {
        forall c | c in t.Children(id) && SolidUnder(t, c, n - 1, a) ensures SolidUnder(t, c, n - 1, b) {
          OnlyAskedMatters(t, c, n - 1, a, b);
        }
      } else if t.condById[id].functionType == FUNCTION_QUEST_CLEAR {
        AskedAlike(t, QuestAt(t, id, FUNCTION_QUEST_CLEAR).value, a, b);
      } else if t.condById[id].functionType == FUNCTION_QUEST_NOT_CLEAR {
        AskedAlike(t, QuestAt(t, id, FUNCTION_QUEST_NOT_CLEAR).value, a, b);
      }
    }
  }

  lemma AskedAlike(t: Tables, q: int, a: set<int>, b: set<int>)
    requires a * QuestsAsked(t) == b * QuestsAsked(t) && q in QuestsAsked(t)
    ensures q in a <==> q in b
  {
    assert q in a * QuestsAsked(t) <==> q in b * QuestsAsked(t);
  }

  /** The table decides it: a truth table over the finitely many quests it asks about. */
  lemma SolidIsTruthTable(t: Tables, id: int, n: nat)
    ensures Solid(t, id, n) <==> forall cleared | cleared <= QuestsAsked(t) :: SolidUnder(t, id, n, cleared)
  {
    if forall cleared | cleared <= QuestsAsked(t) :: SolidUnder(t, id, n, cleared) {
      forall cleared: set<int> ensures SolidUnder(t, id, n, cleared) {
        var asked := cleared * QuestsAsked(t);
        assert asked * QuestsAsked(t) == cleared * QuestsAsked(t);
        OnlyAskedMatters(t, id, n, asked, cleared);
      }
    }
  }

  /** The user's cleared quests. */
  ghost predicate ClearsQuests(user: User, cleared: set<int>) {
    forall q :: user.QuestCleared(q) <==> q in cleared
  }

  /** Clearing all leaves below a condition that is solid under the user's quests satisfies it. */
  lemma {:induction false} ClearingDerives(t: Tables, r: Resolver, user: User, id: int, n: nat, cleared: set<int>)
    requires Agree(t, r) && ClearsQuests(user, cleared) && SolidUnder(t, id, n, cleared)
    requires forall x :: Reachable(t, id, x) ==> Clears(t, user, x)
    ensures id in Level(r, user, n)
    decreases n
  {
    LevelGrows(r, user, 0, n);
    if id != 0 {
      ReachSelf(t, id);
      var c := t.condById[id];
      assert SameValues(t.Group(c), r.Values(c));
      if c.functionType == FUNCTION_RECURSION {
        forall v | v in r.Values(c) && SolidUnder(t, Sub(v), n - 1, cleared) ensures Sub(v) in Level(r, user, n - 1) {
          ValueIsChild(t, id, v.groupIndex);
          forall x | Reachable(t, Sub(v), x) ensures Reachable(t, id, x) {
            ReachThroughChild(t, id, Sub(v), x);
          }
          ClearingDerives(t, r, user, Sub(v), n - 1, cleared);
        }
        ChildrenAreSubs(t, r, id);
        assert Combine(c, r.Values(c), Level(r, user, n - 1));
      } else {
        assert r.LeafHolds(c, user);
      }
    }
  }

  /** The evaluator's sub-conditions are the collector's. */
  lemma ChildrenAreSubs(t: Tables, r: Resolver, id: int)
    requires Agree(t, r) && Recurses(t, id)
    ensures forall v :: v in r.Values(t.condById[id]) ==> Sub(v) in t.Children(id)
    ensures forall c :: c in t.Children(id) ==> exists v :: v in r.Values(t.condById[id]) && Sub(v) == c
    ensures t.Children(id) != {} <==> r.Values(t.condById[id]) != []
  {
    var group, values := t.Group(t.condById[id]), r.Values(t.condById[id]);
    assert SameValues(group, values);
    forall c | c in t.Children(id) ensures exists v :: v in values && Sub(v) == c {
      var i :| i in group && ToInt32(group[i]) == c;
      ValueAtFirst(values, i);
      assert GroupValue(i, group[i]) in values;
    }
    if values != [] {
      assert values[0] in values && Sub(values[0]) in t.Children(id);
    }
  }

  /** The user who cleared exactly these quests, did what was gathered and nothing else. */
  ghost function Minimal(missions: set<int>, questMissions: set<QuestMissionKey>, cleared: set<int>): User {
    User(map q | q in cleared :: QUEST_STATE_CLEARED, map m | m in missions :: MISSION_STATUS_CLEAR,
         map k | k in questMissions :: true, map[], {}, map[])
  }

  /** What the minimal user satisfies is solid under the quests cleared. */
  lemma {:induction false} MinimalNeedsSolid(t: Tables, r: Resolver, missions: set<int>,
                                             questMissions: set<QuestMissionKey>, cleared: set<int>, id: int, n: nat)
    requires Agree(t, r) && id in Level(r, Minimal(missions, questMissions, cleared), n)
    ensures SolidUnder(t, id, n, cleared)
    decreases n
  {
    var user := Minimal(missions, questMissions, cleared);
    if id != 0 {
      var c := t.condById[id];
      assert SameValues(t.Group(c), r.Values(c));
      if c.functionType == FUNCTION_RECURSION {
        ChildrenAreSubs(t, r, id);
        forall k | k in t.Children(id) && k in Level(r, user, n - 1) ensures SolidUnder(t, k, n - 1, cleared) {
          MinimalNeedsSolid(t, r, missions, questMissions, cleared, k, n - 1);
        }
      }
    }
  }

  /** Every user who cleared the given requirements satisfies the condition. */
  ghost predicate Suffices(r: Resolver, missions: set<int>, questMissions: set<QuestMissionKey>, root: int) {
    forall user: User | (forall m :: m in missions ==> user.MissionCleared(m)) &&
      (forall k :: k in questMissions ==> user.QuestMissionCleared(k)) :: root in Level(r, user, MAX_LEVELS)
  }

  /**
   * Clearing what the collector gathered satisfies a hidden-story clear condition
   * in the evaluator exactly when the condition is solid. Cycles, shared conditions
   * and quests asked for both ways are allowed.
   */
  lemma RequirementsSuffice(t: Tables, r: Resolver, gimmicks: seq<Gimmick>, missions: set<int>,
                            questMissions: set<QuestMissionKey>, g: Gimmick)
    requires Agree(t, r) && AllShallow(t, gimmicks, MAX_RESOLVE_DEPTH + 1)
    requires Gathers(t, gimmicks, missions, questMissions) && g in gimmicks && g.IsHiddenStory()
    ensures Suffices(r, missions, questMissions, g.clearConditionId) <==> Solid(t, g.clearConditionId, MAX_LEVELS)
  {
    if Solid(t, g.clearConditionId, MAX_LEVELS) {
      SolidSuffices(t, r, gimmicks, missions, questMissions, g);
    }
    if Suffices(r, missions, questMissions, g.clearConditionId) {
      SufficientIsSolid(t, r, missions, questMissions, g.clearConditionId);
    }
  }

  lemma SolidSuffices(t: Tables, r: Resolver, gimmicks: seq<Gimmick>, missions: set<int>,
                      questMissions: set<QuestMissionKey>, g: Gimmick)
    requires Agree(t, r) && AllShallow(t, gimmicks, MAX_RESOLVE_DEPTH + 1)
    requires Gathers(t, gimmicks, missions, questMissions) && g in gimmicks && g.IsHiddenStory()
    requires Solid(t, g.clearConditionId, MAX_LEVELS)
    ensures Suffices(r, missions, questMissions, g.clearConditionId)
  {
    var root := g.clearConditionId;
    GathersAll(t, gimmicks, missions, questMissions);
    assert forall x :: Reachable(t, root, x) ==> Needed(t, gimmicks, x);
    forall user: User | (forall m :: m in missions ==> user.MissionCleared(m)) &&
      (forall k :: k in questMissions ==> user.QuestMissionCleared(k)) ensures root in Level(r, user, MAX_LEVELS)
    {
      ClearingDerives(t, r, user, root, MAX_LEVELS, set q | q in user.quests && user.QuestCleared(q));
    }
  }

  /** Whatever was gathered, if it suffices then the table alone shows that the leaves do. */
  lemma SufficientIsSolid(t: Tables, r: Resolver, missions: set<int>, questMissions: set<QuestMissionKey>, root: int)
    requires Agree(t, r) && Suffices(r, missions, questMissions, root)
    ensures Solid(t, root, MAX_LEVELS)
  {
    forall cleared: set<int> ensures SolidUnder(t, root, MAX_LEVELS, cleared) {
      assert root in Level(r, Minimal(missions, questMissions, cleared), MAX_LEVELS);
      MinimalNeedsSolid(t, r, missions, questMissions, cleared, root, MAX_LEVELS);
    }
  }

  /** A condition the collector can turn into requirements. */
  ghost predicate Collectable(t: Tables, x: int) {
    x in t.condById &&
    match t.condById[x].functionType
    case FUNCTION_RECURSION => t.Children(x) != {}
    case FUNCTION_MISSION_CLEAR => t.MissionAt(x).Some?
    case FUNCTION_QUEST_MISSION_CLEAR => t.QuestMissionAt(x).Some?
    case _ => false
  }

  /** Nested at most b deep and collectable throughout, a condition is solid. */
  lemma CollectableIsSolid(t: Tables, id: int, b: nat)
    requires Within(t, id, b) && forall x :: Reachable(t, id, x) ==> Collectable(t, x)
    ensures Solid(t, id, b + 1)
  {
    var n := b + 1;
    forall cleared: set<int> ensures SolidUnder(t, id, n, cleared) {
      CollectableUnder(t, id, b, cleared);
    }
  }

  lemma {:induction false} CollectableUnder(t: Tables, id: int, b: nat, cleared: set<int>)
    requires Within(t, id, b) && forall x :: Reachable(t, id, x) ==> Collectable(t, x)
    ensures SolidUnder(t, id, b + 1, cleared)
    decreases b
  {
    if id != 0 {
      ReachSelf(t, id);
      forall c | c in t.Children(id) ensures SolidUnder(t, c, b, cleared) {
        if c != 0 {
          forall x | Reachable(t, c, x) ensures Reachable(t, id, x) {
            ReachThroughChild(t, id, c, x);
          }
          CollectableUnder(t, c, b - 1, cleared);
        }
      }
    }
  }

  lemma {:induction false} SolidGrows(t: Tables, id: int, m: nat, n: nat, cleared: set<int>)
    requires SolidUnder(t, id, m, cleared) && m <= n
    ensures SolidUnder(t, id, n, cleared)
    decreases m
  {
    if id != 0 && Recurses(t, id) {
      forall c | c in t.Children(id) && SolidUnder(t, c, m - 1, cleared) ensures SolidUnder(t, c, n - 1, cleared) {
        SolidGrows(t, c, m - 1, n - 1, cleared);
      }
    }
  }

  /**
   * In particular, clear conditions nested no deeper than the walk goes, with
   * nothing below them but recursions and well-formed mission leaves, AND and OR
   * alike, are all satisfied by clearing what was gathered.
   */
  lemma NestedConditionsSuffice(t: Tables, r: Resolver, gimmicks: seq<Gimmick>, missions: set<int>,
                                questMissions: set<QuestMissionKey>, g: Gimmick)
    requires Agree(t, r) && Gathers(t, gimmicks, missions, questMissions) && g in gimmicks && g.IsHiddenStory()
    requires forall h :: h in gimmicks && h.IsHiddenStory() ==> Within(t, h.clearConditionId, MAX_RESOLVE_DEPTH)
    requires forall x :: Needed(t, gimmicks, x) ==> Collectable(t, x)
    ensures Suffices(r, missions, questMissions, g.clearConditionId)
  {
    forall h, path | h in gimmicks && h.IsHiddenStory() && Simple(t, path) && path != [] &&
      path[0] == h.clearConditionId
      ensures |path| <= MAX_RESOLVE_DEPTH + 1
    {
      ShallowByDepth(t, path, MAX_RESOLVE_DEPTH);
    }
    assert AllShallow(t, gimmicks, MAX_RESOLVE_DEPTH + 1);
    assert forall x :: Reachable(t, g.clearConditionId, x) ==> Needed(t, gimmicks, x);
    CollectableIsSolid(t, g.clearConditionId, MAX_RESOLVE_DEPTH);
    forall cleared: set<int> ensures SolidUnder(t, g.clearConditionId, MAX_LEVELS, cleared) {
      SolidGrows(t, g.clearConditionId, MAX_RESOLVE_DEPTH + 1, MAX_LEVELS, cleared);
    }
    RequirementsSuffice(t, r, gimmicks, missions, questMissions, g);
  }

  /**
   * Quests alone can make a condition solid: a disjunction of a quest being
   * cleared and the same quest not being cleared holds for every user, with
   * nothing gathered at all.
   */
  lemma BothWaysHoldAnyway(t: Tables, r: Resolver, user: User, id: int, x: int, y: int)
    requires Agree(t, r) && id != 0 && Recurses(t, id) && t.condById[id].evaluateType == EVALUATE_OR
    requires x in t.Children(id) && y in t.Children(id)
    requires QuestAt(t, x, FUNCTION_QUEST_CLEAR).Some?
    requires QuestAt(t, y, FUNCTION_QUEST_NOT_CLEAR) == QuestAt(t, x, FUNCTION_QUEST_CLEAR)
    ensures Solid(t, id, 2) && id in Level(r, user, 2)
  {
    forall cleared: set<int> ensures SolidUnder(t, id, 2, cleared) {
      var z := if QuestAt(t, x, FUNCTION_QUEST_CLEAR).value in cleared then x else y;
      assert SolidUnder(t, z, 1, cleared);
    }
    var cleared := set q | q in user.quests && user.QuestCleared(q);
    var z := if QuestAt(t, x, FUNCTION_QUEST_CLEAR).value in cleared then x else y;
    assert SameValues(t.Group(t.condById[z]), r.Values(t.condById[z]));
    assert z in Level(r, user, 1);
    ChildrenAreSubs(t, r, id);
    assert Combine(t.condById[id], r.Values(t.condById[id]), Level(r, user, 1));
  }

  lemma ChainAgrees(n: nat)
    requires n < 0x8000_0000
    ensures Agree(MissionChain(n), MissionChainResolver(n))
  {
    var t, r := MissionChain(n), MissionChainResolver(n);
    forall id | id in t.condById ensures SameValues(t.Group(t.condById[id]), r.Values(t.condById[id])) {
      var value := if id == n then 1 else id + 1;
      assert t.Group(t.condById[id]) == map[1 := value] && r.Values(t.condById[id]) == [GroupValue(1, value)];
      assert [GroupValue(1, value)][1..] == [];
    }
  }

  lemma {:induction false} ChainSolid(n: nat, id: int, k: nat, cleared: set<int>)
    requires 1 <= id <= n < 0x8000_0000
    ensures SolidUnder(MissionChain(n), id, k, cleared) <==> k >= n - id + 1
    decreases k
  {
    if k > 0 {
      MissionChainNode(n, id);
      if id < n {
        ChainSolid(n, id + 1, k - 1, cleared);
      }
    }
  }

  /** Whatever was gathered suffices for exactly the solid clear conditions of the gimmicks. */
  ghost predicate AlwaysSuffices(t: Tables, r: Resolver, gimmicks: seq<Gimmick>) {
    forall missions, questMissions, g |
      Gathers(t, gimmicks, missions, questMissions) && g in gimmicks && g.IsHiddenStory() ::
      Suffices(r, missions, questMissions, g.clearConditionId) <==> Solid(t, g.clearConditionId, MAX_LEVELS)
  }

  /** Whatever was gathered suffices for the solid clear conditions and no others, just up to 17 conditions. */
  lemma SufficientExactForSize(size: nat)
    ensures size <= MAX_RESOLVE_DEPTH + 1 <==>
      forall t: Tables, r: Resolver, gimmicks: seq<Gimmick> :: |t.condById.Keys - {0}| <= size && Agree(t, r) ==>
        AlwaysSuffices(t, r, gimmicks)
  {
    if size <= MAX_RESOLVE_DEPTH + 1 {
      forall t: Tables, r: Resolver, gimmicks: seq<Gimmick>, missions, questMissions, g
        | |t.condById.Keys - {0}| <= size && Agree(t, r) && Gathers(t, gimmicks, missions, questMissions) &&
          g in gimmicks && g.IsHiddenStory()
        ensures Suffices(r, missions, questMissions, g.clearConditionId) <==>
          Solid(t, g.clearConditionId, MAX_LEVELS)
      {
        forall h | h in gimmicks && h.IsHiddenStory() ensures Shallow(t, h.clearConditionId, MAX_RESOLVE_DEPTH + 1) {
          ShallowBySize(t, h.clearConditionId, MAX_RESOLVE_DEPTH + 1);
        }
        RequirementsSuffice(t, r, gimmicks, missions, questMissions, g);
      }
    } else {
      LongChainInsufficient(MAX_RESOLVE_DEPTH + 2);
    }
  }

  lemma LongChainInsufficient(n: nat)
    requires MAX_RESOLVE_DEPTH + 1 < n <= MAX_LEVELS
    ensures |MissionChain(n).condById.Keys - {0}| == n && Agree(MissionChain(n), MissionChainResolver(n))
    ensures !AlwaysSuffices(MissionChain(n), MissionChainResolver(n), [Gimmick(GIMMICK_TYPE_REPORT, 1)])
  {
    ChainSize(n);
    ChainAgrees(n);
    forall cleared: set<int> ensures SolidUnder(MissionChain(n), 1, MAX_LEVELS, cleared) {
      ChainSolid(n, 1, MAX_LEVELS, cleared);
    }
    LeafLost(n);
    var missions, questMissions :|
      Gathers(MissionChain(n), [Gimmick(GIMMICK_TYPE_REPORT, 1)], missions, questMissions) && 1 !in missions;
    GatheredInsufficient(n, missions, questMissions);
    OneFailure(MissionChain(n), MissionChainResolver(n), [Gimmick(GIMMICK_TYPE_REPORT, 1)], missions, questMissions, 0);
  }

  lemma OneFailure(t: Tables, r: Resolver, gimmicks: seq<Gimmick>, missions: set<int>,
                   questMissions: set<QuestMissionKey>, i: nat)
    requires Gathers(t, gimmicks, missions, questMissions) && i < |gimmicks| && gimmicks[i].IsHiddenStory()
    requires Solid(t, gimmicks[i].clearConditionId, MAX_LEVELS)
    requires !Suffices(r, missions, questMissions, gimmicks[i].clearConditionId)
    ensures !AlwaysSuffices(t, r, gimmicks)
  {
    assert gimmicks[i] in gimmicks;
  }

  lemma GatheredInsufficient(n: nat, missions: set<int>, questMissions: set<QuestMissionKey>)
    requires 1 <= n <= MAX_LEVELS && 1 !in missions
    ensures !Suffices(MissionChainResolver(n), missions, questMissions, 1)
  {
    var user := User(map[], map m | m in missions :: MISSION_STATUS_CLEAR, map k | k in questMissions :: true,
                     map[], {}, map[]);
    MissionChainLevel(n, user, 1, MAX_LEVELS);
    assert (forall m :: m in missions ==> user.MissionCleared(m)) &&
      (forall k :: k in questMissions ==> user.QuestMissionCleared(k));
  }
}
