/** What each kind of row asks of a user. */
module ConditionRows {
  import opened Common
  import opened Conditions

  // The laws here speak of the rows of the master tables and the fields of the user, with
  // the numbers those hold: function type 8 asks for a mission, whose status is 2 from its
  // clearing on, and so on. None goes through the evaluator's own leaf test, and together
  // they say for every row what Satisfied answers, whose levels are Level(r, user, 33).

  /** The tables a resolver was loaded from, with no two rows under one key. */
  ghost predicate LoadedFrom(r: Resolver, conditions: seq<ConditionRow>, values: seq<ValueRow>) {
    Loaded(r, conditions, values) && UniqueConditions(conditions) && UniqueIndices(values)
  }

  /** The group lists a value under the index, of which the evaluator keeps the low 32 bits, id. */
  ghost predicate Gives(values: seq<ValueRow>, groupId: int, index: int, value: int, id: int) {
    ValueRow(groupId, index, value) in values && LowBits(value, id)
  }

  ghost predicate LowBits(value: int, id: int) {
    (id - value) % 0x1_0000_0000 == 0 && -0x8000_0000 <= id < 0x8000_0000
  }

  /** A condition that is not a recursion is decided by its leaf test. */
  lemma LeafDecides(r: Resolver, conditions: seq<ConditionRow>, values: seq<ValueRow>, user: User, id: int,
                    c: Condition)
    requires LoadedFrom(r, conditions, values) && id != 0 && ConditionRow(id, c) in conditions
    requires c.functionType != 1
    ensures id in Level(r, user, 33) <==> r.LeafHolds(c, user)
  {
    ByIdHolds(conditions);
    assert ConditionRow(id, r.conditionsById[id]) in conditions;
  }

  /** What the evaluator reads at an index is what the table lists there. */
  lemma GivenAt(r: Resolver, conditions: seq<ConditionRow>, values: seq<ValueRow>, c: Condition, index: int)
    requires LoadedFrom(r, conditions, values)
    ensures forall value, id :: Gives(values, c.valueGroupId, index, value, id) <==>
      ValueAt(r.Values(c), index) == Some(value) && ToInt32(value) == id
  {
    forall value, id ensures Gives(values, c.valueGroupId, index, value, id) <==>
        ValueAt(r.Values(c), index) == Some(value) && ToInt32(value) == id {
      LoadedValueAt(r, conditions, values, c, index, value);
      ToInt32Is(value, id);
    }
  }

  /** A value read at an index is one the table gives. */
  lemma ReadIsGiven(r: Resolver, conditions: seq<ConditionRow>, values: seq<ValueRow>, c: Condition, index: int)
    requires LoadedFrom(r, conditions, values) && ValueAt(r.Values(c), index).Some?
    ensures var value := ValueAt(r.Values(c), index).value; Gives(values, c.valueGroupId, index, value, ToInt32(value))
  {
    GivenAt(r, conditions, values, c, index);
  }

  /** A cleared quest: its state is 2. */
  lemma QuestClear(r: Resolver, conditions: seq<ConditionRow>, values: seq<ValueRow>, user: User, id: int, c: Condition)
    requires LoadedFrom(r, conditions, values) && id != 0 && ConditionRow(id, c) in conditions
    requires c.functionType == 4
    ensures id in Level(r, user, 33) <==>
      exists value, quest :: Gives(values, c.valueGroupId, 1, value, quest) &&
        quest in user.quests && user.quests[quest] == 2
  {
    LeafDecides(r, conditions, values, user, id, c);
    GivenAt(r, conditions, values, c, 1);
    if r.LeafHolds(c, user) { ReadIsGiven(r, conditions, values, c, 1); }
  }

  /** A quest not cleared: it is missing or its state is another. */
  lemma QuestNotClear(r: Resolver, conditions: seq<ConditionRow>, values: seq<ValueRow>, user: User, id: int,
                      c: Condition)
    requires LoadedFrom(r, conditions, values) && id != 0 && ConditionRow(id, c) in conditions
    requires c.functionType == 12
    ensures id in Level(r, user, 33) <==>
      exists value, quest :: Gives(values, c.valueGroupId, 1, value, quest) &&
        (quest !in user.quests || user.quests[quest] != 2)
  {
    LeafDecides(r, conditions, values, user, id, c);
    GivenAt(r, conditions, values, c, 1);
    if r.LeafHolds(c, user) { ReadIsGiven(r, conditions, values, c, 1); }
  }

  /** A cleared mission: its status is at least 2, be it cleared or already rewarded. */
  lemma MissionClear(r: Resolver, conditions: seq<ConditionRow>, values: seq<ValueRow>, user: User, id: int,
                     c: Condition)
    requires LoadedFrom(r, conditions, values) && id != 0 && ConditionRow(id, c) in conditions
    requires c.functionType == 8
    ensures id in Level(r, user, 33) <==>
      exists value, mission :: Gives(values, c.valueGroupId, 1, value, mission) &&
        mission in user.missions && user.missions[mission] >= 2
  {
    LeafDecides(r, conditions, values, user, id, c);
    GivenAt(r, conditions, values, c, 1);
    if r.LeafHolds(c, user) { ReadIsGiven(r, conditions, values, c, 1); }
  }

  /** A cleared mission of a quest: the two listed under the indices 1 and 2. */
  lemma QuestMissionClear(r: Resolver, conditions: seq<ConditionRow>, values: seq<ValueRow>, user: User, id: int,
                          c: Condition)
    requires LoadedFrom(r, conditions, values) && id != 0 && ConditionRow(id, c) in conditions
    requires c.functionType == 9
    ensures id in Level(r, user, 33) <==>
      exists a, b, quest, mission ::
        Gives(values, c.valueGroupId, 1, a, quest) && Gives(values, c.valueGroupId, 2, b, mission) &&
        QuestMissionKey(quest, mission) in user.questMissions && user.questMissions[QuestMissionKey(quest, mission)]
  {
    LeafDecides(r, conditions, values, user, id, c);
    GivenAt(r, conditions, values, c, 1);
    GivenAt(r, conditions, values, c, 2);
    if r.LeafHolds(c, user) {
      ReadIsGiven(r, conditions, values, c, 1);
      ReadIsGiven(r, conditions, values, c, 2);
    }
  }

  /** An owned weapon: some instance has the weapon id listed. */
  lemma WeaponAcquired(r: Resolver, conditions: seq<ConditionRow>, values: seq<ValueRow>, user: User, id: int,
                       c: Condition)
    requires LoadedFrom(r, conditions, values) && id != 0 && ConditionRow(id, c) in conditions
    requires c.functionType == 6
    ensures id in Level(r, user, 33) <==>
      exists value, uuid :: uuid in user.weapons && Gives(values, c.valueGroupId, 1, value, user.weapons[uuid])
  {
    LeafDecides(r, conditions, values, user, id, c);
    GivenAt(r, conditions, values, c, 1);
    if r.LeafHolds(c, user) {
      ReadIsGiven(r, conditions, values, c, 1);
      var weapon := ToInt32(ValueAt(r.Values(c), 1).value);
      var uuid :| uuid in user.weapons && user.weapons[uuid] == weapon;
      assert Gives(values, c.valueGroupId, 1, ValueAt(r.Values(c), 1).value, user.weapons[uuid]);
    }
  }

  /** A completed tutorial. */
  lemma TutorialDone(r: Resolver, conditions: seq<ConditionRow>, values: seq<ValueRow>, user: User, id: int,
                     c: Condition)
    requires LoadedFrom(r, conditions, values) && id != 0 && ConditionRow(id, c) in conditions
    requires c.functionType == 7
    ensures id in Level(r, user, 33) <==>
      exists value, tutorial :: Gives(values, c.valueGroupId, 1, value, tutorial) && tutorial in user.tutorials
  {
    LeafDecides(r, conditions, values, user, id, c);
    GivenAt(r, conditions, values, c, 1);
    if r.LeafHolds(c, user) { ReadIsGiven(r, conditions, values, c, 1); }
  }

  /** A scene choice: the effect of the choice listed under the indices 1 to 3 is the one taken in its grouping. */
  lemma SceneChosen(r: Resolver, conditions: seq<ConditionRow>, values: seq<ValueRow>, choices: seq<ChoiceRow>,
                    effects: seq<EffectRow>, user: User, id: int, c: Condition)
    requires LoadedFrom(r, conditions, values) && id != 0 && ConditionRow(id, c) in conditions
    requires ScenesLoaded(r, choices, effects) && UniqueChoices(choices) && UniqueEffects(effects)
    requires c.functionType == 11
    ensures id in Level(r, user, 33) <==>
      exists choice, effect :: Taken(choice, effect, choices, effects, user) && Names(c, values, choice.key)
  {
    LeafDecides(r, conditions, values, user, id, c);
    LoadedSceneChoice(r, conditions, values, choices, effects, user, c);
  }

  /** Every other kind of condition fails, and so does one the table lacks; 0 always holds. */
  lemma OthersFail(r: Resolver, conditions: seq<ConditionRow>, values: seq<ValueRow>, user: User, id: int, c: Condition)
    requires LoadedFrom(r, conditions, values) && id != 0
    ensures 0 in Level(r, user, 33)
    ensures (forall row :: row in conditions ==> row.conditionId != id) ==> id !in Level(r, user, 33)
    ensures ConditionRow(id, c) in conditions && c.functionType !in {1, 4, 6, 7, 8, 9, 11, 12} ==>
      id !in Level(r, user, 33)
  {
    ByIdHolds(conditions);
    if id in r.conditionsById { assert ConditionRow(id, r.conditionsById[id]) in conditions; }
    assert Level(r, user, 33) == Apply(r, user, Level(r, user, 32));
  }

  /** The row lists the sub-condition, in its group. */
  ghost predicate ListsSub(values: seq<ValueRow>, groupId: int, row: ValueRow, sub: int) {
    row in values && row.groupId == groupId && LowBits(row.value, sub)
  }

  lemma SubIsValue(r: Resolver, conditions: seq<ConditionRow>, values: seq<ValueRow>, c: Condition, row: ValueRow,
                   sub: int)
    requires LoadedFrom(r, conditions, values) && ListsSub(values, c.valueGroupId, row, sub)
    ensures GroupValue(row.groupIndex, row.value) in r.Values(c) && Sub(GroupValue(row.groupIndex, row.value)) == sub
  {
    ToInt32Is(row.value, sub);
    LoadedValues(r, conditions, values, c, GroupValue(row.groupIndex, row.value));
  }

  lemma ValueIsSub(r: Resolver, conditions: seq<ConditionRow>, values: seq<ValueRow>, c: Condition, v: GroupValue)
    requires LoadedFrom(r, conditions, values) && v in r.Values(c)
    ensures ListsSub(values, c.valueGroupId, ValueRow(c.valueGroupId, v.groupIndex, v.value), Sub(v))
  {
    LoadedValues(r, conditions, values, c, v);
    ToInt32Is(v.value, Sub(v));
  }

  /** A recursion of type OR, 2: some sub-condition listed holds one level down. */
  lemma SomeSub(r: Resolver, conditions: seq<ConditionRow>, values: seq<ValueRow>, user: User, id: int, c: Condition,
                n: nat)
    requires LoadedFrom(r, conditions, values) && id != 0 && ConditionRow(id, c) in conditions
    requires c.functionType == 1 && c.evaluateType == 2
    ensures id in Level(r, user, n + 1) <==>
      exists row, sub :: ListsSub(values, c.valueGroupId, row, sub) && sub in Level(r, user, n)
  {
    ByIdHolds(conditions);
    assert ConditionRow(id, r.conditionsById[id]) in conditions;
    assert id in Level(r, user, n + 1) <==> Combine(c, r.Values(c), Level(r, user, n));
    forall row, sub | ListsSub(values, c.valueGroupId, row, sub)
      ensures GroupValue(row.groupIndex, row.value) in r.Values(c) && Sub(GroupValue(row.groupIndex, row.value)) == sub
    {
      SubIsValue(r, conditions, values, c, row, sub);
    }
    forall v | v in r.Values(c)
      ensures ListsSub(values, c.valueGroupId, ValueRow(c.valueGroupId, v.groupIndex, v.value), Sub(v))
    {
      ValueIsSub(r, conditions, values, c, v);
    }
  }

  /** A recursion of any other type: some sub-condition is listed, and all that are hold one level down. */
  lemma EverySub(r: Resolver, conditions: seq<ConditionRow>, values: seq<ValueRow>, user: User, id: int, c: Condition,
                 n: nat)
    requires LoadedFrom(r, conditions, values) && id != 0 && ConditionRow(id, c) in conditions
    requires c.functionType == 1 && c.evaluateType != 2
    ensures id in Level(r, user, n + 1) <==>
      (exists row :: row in values && row.groupId == c.valueGroupId) &&
      forall row, sub :: ListsSub(values, c.valueGroupId, row, sub) ==> sub in Level(r, user, n)
  {
    ByIdHolds(conditions);
    assert ConditionRow(id, r.conditionsById[id]) in conditions;
    assert id in Level(r, user, n + 1) <==> Combine(c, r.Values(c), Level(r, user, n));
    forall row, sub | ListsSub(values, c.valueGroupId, row, sub)
      ensures GroupValue(row.groupIndex, row.value) in r.Values(c) && Sub(GroupValue(row.groupIndex, row.value)) == sub
    {
      SubIsValue(r, conditions, values, c, row, sub);
    }
    forall v | v in r.Values(c)
      ensures ListsSub(values, c.valueGroupId, ValueRow(c.valueGroupId, v.groupIndex, v.value), Sub(v))
    {
      ValueIsSub(r, conditions, values, c, v);
    }
    forall row | row in values && row.groupId == c.valueGroupId ensures r.Values(c) != [] {
      LoadedValues(r, conditions, values, c, GroupValue(row.groupIndex, row.value));
    }
    if r.Values(c) != [] { assert r.Values(c)[0] in r.Values(c); }
  }

  lemma GateIs(conditions: seq<ConditionRow>, values: seq<ValueRow>, id: int, c: Condition)
    requires UniqueConditions(conditions) && ConditionRow(id, c) in conditions
    ensures id in RequiredQuests(conditions, values) <==> IsQuestGate(c) && (c.valueGroupId, 1) in ByKey(values)
    ensures id in RequiredQuests(conditions, values) ==>
      RequiredQuests(conditions, values)[id] == ToInt32(ByKey(values)[(c.valueGroupId, 1)])
  {
    RequiredQuestsHold(conditions, values, id);
    forall row | row in conditions && row.conditionId == id ensures row == ConditionRow(id, c) {
    }
  }

  lemma KeyGives(values: seq<ValueRow>, groupId: int, index: int, id: int)
    requires UniqueIndices(values)
    ensures (groupId, index) in ByKey(values) && ToInt32(ByKey(values)[(groupId, index)]) == id <==>
      exists value :: Gives(values, groupId, index, value, id)
  {
    ByKeyHolds(values);
    var key := (groupId, index);
    if key in ByKey(values) {
      assert ValueRow(groupId, index, ByKey(values)[key]) in values;
      ToInt32Is(ByKey(values)[key], id);
      assert ToInt32(ByKey(values)[key]) == id ==> Gives(values, groupId, index, ByKey(values)[key], id);
    }
    forall value | Gives(values, groupId, index, value, id)
      ensures key in ByKey(values) && ByKey(values)[key] == value && ToInt32(value) == id
    {
      ToInt32Is(value, id);
    }
  }

  /** The quest required of a condition is the one listed for it, on a row of both types 4 alone. */
  lemma RequiredQuestIs(r: Resolver, conditions: seq<ConditionRow>, values: seq<ValueRow>, id: int, c: Condition,
                        quest: int)
    requires LoadedFrom(r, conditions, values) && ConditionRow(id, c) in conditions
    ensures r.RequiredQuestId(id) == Some(quest) <==>
      c.functionType == 4 && c.evaluateType == 4 &&
      exists value :: Gives(values, c.valueGroupId, 1, value, quest)
  {
    GateIs(conditions, values, id, c);
    KeyGives(values, c.valueGroupId, 1, quest);
  }

  /** A claimed mission, of status 9, counts as cleared like one of status 2; one in progress, of status 1, does not. */
  lemma ClaimedMissionCounts(r: Resolver, user: User, status: int)
    requires Loaded(r, [ConditionRow(1, Condition(8, 1, 1))], [ValueRow(1, 1, 1)])
    requires user.missions == map[1 := status]
    ensures status in {2, 9} ==> 1 in Level(r, user, 33)
    ensures status in {0, 1} ==> 1 !in Level(r, user, 33)
  {
    var conditions, values := [ConditionRow(1, Condition(8, 1, 1))], [ValueRow(1, 1, 1)];
    MissionClear(r, conditions, values, user, 1, Condition(8, 1, 1));
    assert values[0] in values && conditions[0] in conditions;
    assert Gives(values, 1, 1, 1, 1);
  }

  /** Condition 1 asks for mission 1, condition 2 for what condition 1 asks. */
  const PAIR_CONDITIONS := [ConditionRow(1, Condition(8, 1, 1)), ConditionRow(2, Condition(1, 1, 2))]
  const PAIR_VALUES := [ValueRow(1, 1, 1), ValueRow(2, 1, 1)]

  lemma PairIsUnique(r: Resolver)
    requires Loaded(r, PAIR_CONDITIONS, PAIR_VALUES)
    ensures LoadedFrom(r, PAIR_CONDITIONS, PAIR_VALUES)
    ensures PAIR_CONDITIONS[0] in PAIR_CONDITIONS && PAIR_CONDITIONS[1] in PAIR_CONDITIONS
  {
  }

  /** A condition that passes a mission on is satisfied with it. */
  lemma PassedOn(r: Resolver, user: User)
    requires Loaded(r, PAIR_CONDITIONS, PAIR_VALUES) && user.missions == map[1 := 9]
    ensures 2 in Level(r, user, 33)
  {
    PairIsUnique(r);
    MissionClear(r, PAIR_CONDITIONS, PAIR_VALUES, user, 1, Condition(8, 1, 1));
    assert PAIR_VALUES[0] == ValueRow(1, 1, 1) && PAIR_VALUES[1] == ValueRow(2, 1, 1);
    assert Gives(PAIR_VALUES, 1, 1, 1, 1);
    LeafDecides(r, PAIR_CONDITIONS, PAIR_VALUES, user, 1, Condition(8, 1, 1));
    assert 1 in Level(r, user, 32);
    assert PAIR_VALUES[1] in PAIR_VALUES;
    EverySub(r, PAIR_CONDITIONS, PAIR_VALUES, user, 2, Condition(1, 1, 2), 32);
  }
}
