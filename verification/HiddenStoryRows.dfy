/** What the collector gathers, by rows. */
module HiddenStoryRows {
  import opened Common
  import opened Conditions
  import opened ConditionRows
  import opened HiddenStory

  // The collector's promise once more, on the rows of the master tables alone: the roots
  // are the clear conditions of the gimmicks of type 9 and 10, condition rows of type 1
  // list their sub-conditions, and rows of type 8 and 9 ask for a mission or for a quest
  // mission.

  ghost predicate IndexedFrom(t: Tables, conditions: seq<ConditionRow>, values: seq<ValueRow>) {
    Indexed(t, conditions, values) && UniqueConditions(conditions) && UniqueIndices(values)
  }

  /** The row of the condition, of type 1, lists the sub-condition. */
  ghost predicate ListedBelow(conditions: seq<ConditionRow>, values: seq<ValueRow>, id: int, sub: int) {
    exists c, row :: ConditionRow(id, c) in conditions && c.functionType == 1 &&
      ListsSub(values, c.valueGroupId, row, sub)
  }

  /** n rows of type 1 lead from the condition down to x. */
  ghost predicate Leads(conditions: seq<ConditionRow>, values: seq<ValueRow>, id: int, x: int, n: nat)
    decreases n
  {
    id != 0 &&
    if n == 0 then x == id
    else exists sub :: ListedBelow(conditions, values, id, sub) && Leads(conditions, values, sub, x, n - 1)
  }

  ghost predicate AsksMission(conditions: seq<ConditionRow>, values: seq<ValueRow>, x: int, mission: int) {
    exists c, value :: ConditionRow(x, c) in conditions && c.functionType == 8 &&
      Gives(values, c.valueGroupId, 1, value, mission)
  }

  ghost predicate AsksQuestMission(conditions: seq<ConditionRow>, values: seq<ValueRow>, x: int, key: QuestMissionKey) {
    exists c, a, b :: ConditionRow(x, c) in conditions && c.functionType == 9 &&
      Gives(values, c.valueGroupId, 1, a, key.questId) && Gives(values, c.valueGroupId, 2, b, key.questMissionId)
  }

  /** A row's group holds the values listed for it. */
  lemma GroupGiven(t: Tables, conditions: seq<ConditionRow>, values: seq<ValueRow>, c: Condition)
    requires IndexedFrom(t, conditions, values)
    ensures forall i, value, id :: Gives(values, c.valueGroupId, i, value, id) <==>
      i in t.Group(c) && t.Group(c)[i] == value && ToInt32(value) == id
  {
    ByKeyHolds(values);
    forall i, value, id ensures Gives(values, c.valueGroupId, i, value, id) <==>
        i in t.Group(c) && t.Group(c)[i] == value && ToInt32(value) == id {
      ToInt32Is(value, id);
      assert At(t.valuesByGroup, c.valueGroupId, i) == AtKey(ByKey(values), c.valueGroupId, i);
      if i in t.Group(c) { assert (c.valueGroupId, i) in ByKey(values); }
    }
  }

  lemma RowIs(t: Tables, conditions: seq<ConditionRow>, values: seq<ValueRow>, id: int, c: Condition)
    requires IndexedFrom(t, conditions, values)
    ensures ConditionRow(id, c) in conditions <==> id in t.condById && t.condById[id] == c
  {
    ByIdHolds(conditions);
    if id in t.condById { assert ConditionRow(id, t.condById[id]) in conditions; }
  }

  lemma ChildIsListed(t: Tables, conditions: seq<ConditionRow>, values: seq<ValueRow>, id: int, sub: int)
    requires IndexedFrom(t, conditions, values)
    ensures sub in t.Children(id) <==> ListedBelow(conditions, values, id, sub)
  {
    if sub in t.Children(id) {
      var c := t.condById[id];
      var i :| i in t.Group(c) && ToInt32(t.Group(c)[i]) == sub;
      RowIs(t, conditions, values, id, c);
      GroupGiven(t, conditions, values, c);
      assert Gives(values, c.valueGroupId, i, t.Group(c)[i], sub);
      assert ListsSub(values, c.valueGroupId, ValueRow(c.valueGroupId, i, t.Group(c)[i]), sub);
    }
    if ListedBelow(conditions, values, id, sub) {
      var c, row :| ConditionRow(id, c) in conditions && c.functionType == 1 &&
        ListsSub(values, c.valueGroupId, row, sub);
      RowIs(t, conditions, values, id, c);
      GroupGiven(t, conditions, values, c);
      assert Gives(values, c.valueGroupId, row.groupIndex, row.value, sub);
    }
  }

  lemma {:induction false} PathIsLed(t: Tables, conditions: seq<ConditionRow>, values: seq<ValueRow>, id: int, x: int,
                                     n: nat)
    requires IndexedFrom(t, conditions, values)
    ensures PathTo(t, id, x, n) <==> Leads(conditions, values, id, x, n)
    decreases n
  {
    if n > 0 {
      forall sub ensures sub in t.Children(id) && PathTo(t, sub, x, n - 1) <==>
          ListedBelow(conditions, values, id, sub) && Leads(conditions, values, sub, x, n - 1) {
        ChildIsListed(t, conditions, values, id, sub);
        PathIsLed(t, conditions, values, sub, x, n - 1);
      }
    }
  }

  lemma MissionIsAsked(t: Tables, conditions: seq<ConditionRow>, values: seq<ValueRow>, x: int, mission: int)
    requires IndexedFrom(t, conditions, values)
    ensures t.MissionAt(x) == Some(mission) <==> AsksMission(conditions, values, x, mission)
  {
    forall c | ConditionRow(x, c) in conditions ensures x in t.condById && t.condById[x] == c {
      RowIs(t, conditions, values, x, c);
    }
    if x in t.condById {
      RowIs(t, conditions, values, x, t.condById[x]);
      GroupGiven(t, conditions, values, t.condById[x]);
    }
    if t.MissionAt(x) == Some(mission) {
      assert Gives(values, t.condById[x].valueGroupId, 1, t.Group(t.condById[x])[1], mission);
    }
  }

  lemma QuestMissionIsAsked(t: Tables, conditions: seq<ConditionRow>, values: seq<ValueRow>, x: int,
                            key: QuestMissionKey)
    requires IndexedFrom(t, conditions, values)
    ensures t.QuestMissionAt(x) == Some(key) <==> AsksQuestMission(conditions, values, x, key)
  {
    forall c | ConditionRow(x, c) in conditions ensures x in t.condById && t.condById[x] == c {
      RowIs(t, conditions, values, x, c);
    }
    if x in t.condById {
      RowIs(t, conditions, values, x, t.condById[x]);
      GroupGiven(t, conditions, values, t.condById[x]);
    }
    if t.QuestMissionAt(x) == Some(key) {
      var c := t.condById[x];
      assert Gives(values, c.valueGroupId, 1, t.Group(c)[1], key.questId);
      assert Gives(values, c.valueGroupId, 2, t.Group(c)[2], key.questMissionId);
    }
  }

  /** x is a condition n rows below the clear condition of a gimmick of type 9 or 10. */
  ghost predicate Under(conditions: seq<ConditionRow>, values: seq<ValueRow>, gimmicks: seq<Gimmick>, x: int, n: nat) {
    exists g :: g in gimmicks && g.gimmickType in {9, 10} && Leads(conditions, values, g.clearConditionId, x, n)
  }

  /** Every requirement gathered is asked for at most 16 rows below the clear condition of such a gimmick. */
  lemma GatheredIsAsked(t: Tables, conditions: seq<ConditionRow>, values: seq<ValueRow>, gimmicks: seq<Gimmick>,
                        missions: set<int>, questMissions: set<QuestMissionKey>)
    requires IndexedFrom(t, conditions, values) && Gathers(t, gimmicks, missions, questMissions)
    ensures forall m :: m in missions ==>
      exists x, n: nat :: n <= 16 && Under(conditions, values, gimmicks, x, n) && AsksMission(conditions, values, x, m)
    ensures forall k :: k in questMissions ==>
      exists x, n: nat :: n <= 16 && Under(conditions, values, gimmicks, x, n) &&
        AsksQuestMission(conditions, values, x, k)
    ensures (forall g :: g in gimmicks ==> g.gimmickType !in {9, 10}) ==> missions == {} && questMissions == {}
  {
    GathersOnlyNear(t, gimmicks, missions, questMissions);
    forall m | m in missions
      ensures exists x, n: nat ::
        n <= 16 && Under(conditions, values, gimmicks, x, n) && AsksMission(conditions, values, x, m)
    {
      var x :| NeededNear(t, gimmicks, x) && t.MissionAt(x) == Some(m);
      var n := NearIsUnder(t, conditions, values, gimmicks, x);
      MissionIsAsked(t, conditions, values, x, m);
    }
    forall k | k in questMissions
      ensures exists x, n: nat ::
        n <= 16 && Under(conditions, values, gimmicks, x, n) && AsksQuestMission(conditions, values, x, k)
    {
      var x :| NeededNear(t, gimmicks, x) && t.QuestMissionAt(x) == Some(k);
      var n := NearIsUnder(t, conditions, values, gimmicks, x);
      QuestMissionIsAsked(t, conditions, values, x, k);
    }
  }

  lemma NearIsUnder(t: Tables, conditions: seq<ConditionRow>, values: seq<ValueRow>, gimmicks: seq<Gimmick>, x: int)
    returns (n: nat)
    requires IndexedFrom(t, conditions, values) && NeededNear(t, gimmicks, x)
    ensures n <= 16 && Under(conditions, values, gimmicks, x, n)
  {
    var g :| g in gimmicks && g.IsHiddenStory() && Near(t, g.clearConditionId, x, MAX_RESOLVE_DEPTH);
    n :| n <= MAX_RESOLVE_DEPTH && PathTo(t, g.clearConditionId, x, n);
    PathIsLed(t, conditions, values, g.clearConditionId, x, n);
  }

  /** Everything asked for below such a clear condition is gathered, while simple paths have at most 17 conditions. */
  lemma AskedIsGathered(t: Tables, conditions: seq<ConditionRow>, values: seq<ValueRow>, gimmicks: seq<Gimmick>,
                        missions: set<int>, questMissions: set<QuestMissionKey>, x: int, n: nat)
    requires IndexedFrom(t, conditions, values) && Gathers(t, gimmicks, missions, questMissions)
    requires forall g :: g in gimmicks && g.gimmickType in {9, 10} ==> Shallow(t, g.clearConditionId, 17)
    requires Under(conditions, values, gimmicks, x, n)
    ensures forall m :: AsksMission(conditions, values, x, m) ==> m in missions
    ensures forall k :: AsksQuestMission(conditions, values, x, k) ==> k in questMissions
  {
    GathersAll(t, gimmicks, missions, questMissions);
    var g :| g in gimmicks && g.gimmickType in {9, 10} && Leads(conditions, values, g.clearConditionId, x, n);
    PathIsLed(t, conditions, values, g.clearConditionId, x, n);
    assert g.IsHiddenStory() && Reachable(t, g.clearConditionId, x);
    assert Needed(t, gimmicks, x);
    forall m | AsksMission(conditions, values, x, m) ensures m in missions {
      MissionIsAsked(t, conditions, values, x, m);
    }
    forall k | AsksQuestMission(conditions, values, x, k) ensures k in questMissions {
      QuestMissionIsAsked(t, conditions, values, x, k);
    }
  }

  lemma {:induction false} FewConditions(conditions: seq<ConditionRow>)
    ensures |ById(conditions).Keys| <= |conditions|
  {
    if conditions != [] {
      var n := |conditions| - 1;
      FewConditions(conditions[..n]);
      assert ById(conditions).Keys == ById(conditions[..n]).Keys + {conditions[n].conditionId};
    }
  }

  /** On tables of at most 17 condition rows the collector gathers exactly what is asked for below its roots. */
  lemma GatheredIffAsked(t: Tables, conditions: seq<ConditionRow>, values: seq<ValueRow>, gimmicks: seq<Gimmick>,
                         missions: set<int>, questMissions: set<QuestMissionKey>)
    requires IndexedFrom(t, conditions, values) && Gathers(t, gimmicks, missions, questMissions)
    requires |conditions| <= 17
    ensures forall m :: m in missions <==>
      exists x, n: nat :: Under(conditions, values, gimmicks, x, n) && AsksMission(conditions, values, x, m)
    ensures forall k :: k in questMissions <==>
      exists x, n: nat :: Under(conditions, values, gimmicks, x, n) && AsksQuestMission(conditions, values, x, k)
  {
    GatheredIsAsked(t, conditions, values, gimmicks, missions, questMissions);
    FewConditions(conditions);
    SubsetSize(t.condById.Keys - {0}, t.condById.Keys);
    forall g | g in gimmicks ensures Shallow(t, g.clearConditionId, 17) {
      ShallowBySize(t, g.clearConditionId, 17);
    }
    forall x, n: nat | Under(conditions, values, gimmicks, x, n)
      ensures forall m :: AsksMission(conditions, values, x, m) ==> m in missions
      ensures forall k :: AsksQuestMission(conditions, values, x, k) ==> k in questMissions
    {
      AskedIsGathered(t, conditions, values, gimmicks, missions, questMissions, x, n);
    }
  }

  /** The walk from one gimmick, over a table where its condition is a leaf. */
  lemma OneRoot(t: Tables, gimmicks: seq<Gimmick>, seen: set<int>)
    requires |gimmicks| == 1 && gimmicks[0].clearConditionId == 1 && !Recurses(t, 1) && Sees(t, gimmicks, seen)
    ensures seen == if gimmicks[0].gimmickType in {9, 10} then {1} else {}
  {
    assert gimmicks[..0] == [];
    assert forall before :: Sees(t, gimmicks[..0], before) <==> before == {};
  }

  /** One gimmick whose condition asks for mission 1 gathers it when it is of type 9 or 10, and nothing otherwise. */
  lemma OneGimmick(gimmickType: int, missions: set<int>, questMissions: set<QuestMissionKey>)
    requires Gathers(MissionChain(1), [Gimmick(gimmickType, 1)], missions, questMissions)
    ensures missions == (if gimmickType in {9, 10} then {1} else {}) && questMissions == {}
  {
    var t, gimmicks := MissionChain(1), [Gimmick(gimmickType, 1)];
    var seen :| Sees(t, gimmicks, seen) && missions == MissionsOf(t, seen) && questMissions == QuestMissionsOf(t, seen);
    MissionChainNode(1, 1);
    OneRoot(t, gimmicks, seen);
    assert t.MissionAt(1) == Some(1) && t.QuestMissionAt(1).None?;
  }
}
