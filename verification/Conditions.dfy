/** The evaluator of conditions.go. */
module Conditions {
  import opened Common
  import opened Sorting

  // A condition table maps ids to leaf tests and to AND/OR recursions over other ids;
  // nothing stops the table from being cyclic. The evaluator walks it with a set of ids
  // being visited, marked and unmarked in place, and a depth cutoff. The main result, on
  // Satisfied, is that neither device changes the answer beyond one thing: a condition
  // is satisfied exactly when it is derivable in at most MAX_LEVELS applications of the
  // AND/OR equations.

  const FUNCTION_RECURSION := 1
  const FUNCTION_QUEST_CLEAR := 4
  const FUNCTION_WEAPON_ACQUISITION := 6
  const FUNCTION_TUTORIAL := 7
  const FUNCTION_MISSION_CLEAR := 8
  const FUNCTION_QUEST_MISSION_CLEAR := 9
  const FUNCTION_QUEST_SCENE_CHOICE := 11
  const FUNCTION_QUEST_NOT_CLEAR := 12

  const EVALUATE_OR := 2
  const EVALUATE_ID_CONTAIN := 4

  const QUEST_STATE_CLEARED := 2
  const MISSION_STATUS_CLEAR := 2

  const DEFAULT_GROUP_INDEX := 1
  const MAX_DEPTH := 32
  /** Depths 0..MAX_DEPTH are evaluated, so that many levels of conditions. */
  const MAX_LEVELS: nat := MAX_DEPTH + 1

  datatype Condition = Condition(functionType: int, evaluateType: int, valueGroupId: int)

  datatype GroupValue = GroupValue(groupIndex: int, value: int)

  datatype SceneChoiceKey = SceneChoiceKey(questSceneId: int, questFlowType: int, choiceNumber: int)

  datatype ChoiceRow = ChoiceRow(key: SceneChoiceKey, effectId: int)

  datatype EffectRow = EffectRow(effectId: int, groupingId: int)

  datatype QuestMissionKey = QuestMissionKey(questId: int, questMissionId: int)

  /** The part of the user state that conditions read. */
  datatype User = User(
    quests: map<int, int>,
    missions: map<int, int>,
    questMissions: map<QuestMissionKey, bool>,
    weapons: map<string, int>,
    tutorials: set<int>,
    questSceneChoices: map<int, int>)
  {
    predicate QuestCleared(questId: int) {
      Count(quests, questId) == QUEST_STATE_CLEARED
    }

    predicate MissionCleared(missionId: int) {
      Count(missions, missionId) >= MISSION_STATUS_CLEAR
    }

    predicate QuestMissionCleared(key: QuestMissionKey) {
      key in questMissions && questMissions[key]
    }
  }

  datatype Resolver = Resolver(
    requiredQuestByCondId: map<int, int>,
    conditionsById: map<int, Condition>,
    valuesByGroupId: map<int, seq<GroupValue>>,
    sceneChoiceEffectByKey: map<SceneChoiceKey, int>,
    sceneChoiceGroupingByEffect: map<int, int>)
  {
    function Values(c: Condition): seq<GroupValue> {
      if c.valueGroupId in valuesByGroupId then valuesByGroupId[c.valueGroupId] else []
    }

    /** What a condition that is not a recursion tests on the user. */
    predicate LeafHolds(c: Condition, user: User) {
      var at := (index: int) => ValueAt(Values(c), index);
      match c.functionType
      case FUNCTION_QUEST_CLEAR => at(1).Some? && user.QuestCleared(ToInt32(at(1).value))
      case FUNCTION_QUEST_NOT_CLEAR => at(1).Some? && !user.QuestCleared(ToInt32(at(1).value))
      case FUNCTION_MISSION_CLEAR => at(1).Some? && user.MissionCleared(ToInt32(at(1).value))
      case FUNCTION_QUEST_MISSION_CLEAR =>
        at(1).Some? && at(2).Some? &&
        user.QuestMissionCleared(QuestMissionKey(ToInt32(at(1).value), ToInt32(at(2).value)))
      case FUNCTION_WEAPON_ACQUISITION => at(1).Some? && ToInt32(at(1).value) in user.weapons.Values
      case FUNCTION_TUTORIAL => at(1).Some? && ToInt32(at(1).value) in user.tutorials
      case FUNCTION_QUEST_SCENE_CHOICE =>
        at(1).Some? && at(2).Some? && at(3).Some? &&
        var key := SceneChoiceKey(ToInt32(at(1).value), ToInt32(at(2).value), ToInt32(at(3).value));
        key in sceneChoiceEffectByKey &&
        var effect := sceneChoiceEffectByKey[key];
        effect in sceneChoiceGroupingByEffect &&
        var grouping := sceneChoiceGroupingByEffect[effect];
        grouping in user.questSceneChoices && user.questSceneChoices[grouping] == effect
      case _ => false
    }

    function RequiredQuestId(conditionId: int): Option<int> {
      if conditionId in requiredQuestByCondId then Some(requiredQuestByCondId[conditionId]) else None
    }
  }

  /** The first value of the group with the given index. */
  function ValueAt(values: seq<GroupValue>, index: int): Option<int> {
    if values == [] then None
    else if values[0].groupIndex == index then Some(values[0].value)
    else ValueAt(values[1..], index)
  }

  // ---------------------------------------------------------------------------
  // The AND/OR equations and their least solution
  // ---------------------------------------------------------------------------

  function Sub(v: GroupValue): int {
    ToInt32(v.value)
  }

  /** One application of the equations: id holds if the ids of `known` do. */
  ghost predicate Step(r: Resolver, user: User, known: iset<int>, id: int) {
    id == 0 ||
    (id in r.conditionsById &&
     var c := r.conditionsById[id];
     if c.functionType == FUNCTION_RECURSION then Combine(c, r.Values(c), known)
     else r.LeafHolds(c, user))
  }

  /** A recursion: some sub-condition for OR, all of them for every other type. */
  ghost predicate Combine(c: Condition, values: seq<GroupValue>, known: iset<int>) {
    values != [] &&
    if c.evaluateType == EVALUATE_OR then exists v :: v in values && Sub(v) in known
    else forall v :: v in values ==> Sub(v) in known
  }

  ghost function Apply(r: Resolver, user: User, known: iset<int>): iset<int> {
    iset id | Step(r, user, known, id)
  }

  /** The ids derivable in at most n applications. */
  ghost function Level(r: Resolver, user: User, n: nat): iset<int> {
    if n == 0 then iset{0} else Apply(r, user, Level(r, user, n - 1))
  }

  ghost predicate Closed(r: Resolver, user: User, s: iset<int>) {
    forall id :: Step(r, user, s, id) ==> id in s
  }

  /** Membership in the least set closed under the equations. */
  ghost predicate Derivable(r: Resolver, user: User, id: int) {
    forall s: iset<int> :: Closed(r, user, s) ==> id in s
  }

  lemma StepMonotone(r: Resolver, user: User, a: iset<int>, b: iset<int>, id: int)
    requires a <= b && Step(r, user, a, id)
    ensures Step(r, user, b, id)
  {
  }

  lemma {:induction false} LevelGrows(r: Resolver, user: User, m: nat, n: nat)
    requires m <= n
    ensures Level(r, user, m) <= Level(r, user, n)
    decreases n
  {
    if m == 0 {
    } else {
      LevelGrows(r, user, m - 1, n - 1);
      forall id | id in Level(r, user, m) ensures id in Level(r, user, n) {
        StepMonotone(r, user, Level(r, user, m - 1), Level(r, user, n - 1), id);
      }
    }
  }

  /** The first level an id appears in. */
  lemma {:induction false} FirstLevel(r: Resolver, user: User, id: int, n: nat) returns (m: nat)
    requires id in Level(r, user, n)
    ensures m <= n && id in Level(r, user, m)
    ensures m > 0 ==> id !in Level(r, user, m - 1)
    ensures m == 0 <==> id == 0
  {
    if n > 0 && id in Level(r, user, n - 1) {
      m := FirstLevel(r, user, id, n - 1);
    } else {
      m := n;
      LevelGrows(r, user, 0, n);
      if n > 0 { LevelGrows(r, user, 0, n - 1); }
    }
  }

  // ---------------------------------------------------------------------------
  // The evaluator
  // ---------------------------------------------------------------------------

  /** The map of conditions being visited, shared and updated by every call. */
  class VisitSet {
    var ids: set<int>

    constructor ()
      ensures ids == {}
    {
      ids := {};
    }
  }

  /** Levels the evaluator still has at the given depth. */
  function LevelsLeft(depth: nat): nat {
    if depth > MAX_DEPTH then 0 else MAX_LEVELS - depth
  }

  /** id is derived by level n, and no id being visited is. */
  ghost predicate Reached(r: Resolver, user: User, id: int, visiting: set<int>, n: nat) {
    id in Level(r, user, n) && forall v :: v in visiting && v != 0 ==> v !in Level(r, user, n)
  }

  /** No derivation within `bound` levels that avoids the ids being visited. */
  ghost predicate Unreached(r: Resolver, user: User, id: int, visiting: set<int>, bound: nat) {
    forall n: nat :: n <= bound ==> !Reached(r, user, id, visiting, n)
  }

  /** Enough sub-conditions of c are unreached to make the recursion fail. */
  ghost predicate Blocked(r: Resolver, user: User, c: Condition, visiting: set<int>, bound: nat) {
    var values := r.Values(c);
    values == [] ||
    if c.evaluateType == EVALUATE_OR
    then forall v :: v in values ==> Unreached(r, user, Sub(v), visiting, bound)
    else exists v :: v in values && Unreached(r, user, Sub(v), visiting, bound)
  }

  /** Below the first level of id everything avoids id and whatever id avoids. */
  lemma AvoidsBelow(r: Resolver, user: User, id: int, visiting: set<int>, k: nat, n: nat, w: int)
    requires Reached(r, user, id, visiting, n) && Level(r, user, k) <= Level(r, user, n)
    requires id !in Level(r, user, k) && w in Level(r, user, k)
    ensures Reached(r, user, w, visiting + {id}, k)
  {
  }

  /** The ids reached within n levels. */
  ghost function ReachedIds(r: Resolver, user: User, visiting: set<int>, n: nat): iset<int> {
    iset w | Reached(r, user, w, visiting, n)
  }

  lemma BelowIsReached(r: Resolver, user: User, id: int, visiting: set<int>, k: nat, n: nat)
    requires Reached(r, user, id, visiting, n) && k <= n && id !in Level(r, user, k)
    ensures Level(r, user, k) <= ReachedIds(r, user, visiting + {id}, k)
  {
    LevelGrows(r, user, k, n);
    forall w | w in Level(r, user, k) ensures Reached(r, user, w, visiting + {id}, k) {
      AvoidsBelow(r, user, id, visiting, k, n, w);
    }
  }

  /** A reached recursion reaches the sub-conditions it needs one level down. */
  lemma ReachedNeedsSubs(r: Resolver, user: User, id: int, visiting: set<int>, n: nat) returns (k: nat)
    requires id != 0 && id in r.conditionsById
    requires r.conditionsById[id].functionType == FUNCTION_RECURSION
    requires Reached(r, user, id, visiting, n)
    ensures k < n
    ensures Combine(r.conditionsById[id], r.Values(r.conditionsById[id]), ReachedIds(r, user, visiting + {id}, k))
  {
    var m := FirstLevel(r, user, id, n);
    k := m - 1;
    StepInLevel(r, user, id, k);
    BelowIsReached(r, user, id, visiting, k, n);
    CombineMonotone(r.conditionsById[id], r.Values(r.conditionsById[id]), Level(r, user, k),
                    ReachedIds(r, user, visiting + {id}, k));
  }

  lemma StepInLevel(r: Resolver, user: User, id: int, k: nat)
    requires id != 0 && id in Level(r, user, k + 1)
    ensures Step(r, user, Level(r, user, k), id)
  {
  }

  lemma CombineMonotone(c: Condition, values: seq<GroupValue>, a: iset<int>, b: iset<int>)
    requires a <= b && Combine(c, values, a)
    ensures Combine(c, values, b)
  {
  }

  /** A recursion blocked one level down, with id itself being visited, is unreached. */
  lemma BlockedIsUnreached(r: Resolver, user: User, id: int, visiting: set<int>, left: nat)
    requires id != 0 && id in r.conditionsById
    requires r.conditionsById[id].functionType == FUNCTION_RECURSION
    requires Blocked(r, user, r.conditionsById[id], visiting + {id}, left)
    ensures Unreached(r, user, id, visiting, left + 1)
  {
    forall n: nat | n <= left + 1 ensures !Reached(r, user, id, visiting, n) {
      if Reached(r, user, id, visiting, n) {
        var k := ReachedNeedsSubs(r, user, id, visiting, n);
        assert false;
      }
    }
  }

  /**
   * The recursive evaluation. It restores the visiting set, finds only
   * derivable conditions, and misses none that is derivable in the levels left
   * without passing through an id being visited.
   */
  method Evaluate(r: Resolver, conditionId: int, user: User, visiting: VisitSet, depth: nat) returns (ok: bool)
    modifies visiting
    ensures visiting.ids == old(visiting.ids)
    ensures ok ==> conditionId in Level(r, user, LevelsLeft(depth))
    ensures !ok ==> Unreached(r, user, conditionId, old(visiting.ids), LevelsLeft(depth))
    decreases LevelsLeft(depth)
  {
    if conditionId == 0 {
      LevelGrows(r, user, 0, LevelsLeft(depth));
      return true;
    }
    if depth > MAX_DEPTH {
      return false;
    }
    if conditionId in visiting.ids {
      return false;
    }
    if conditionId !in r.conditionsById {
      assert forall n: nat :: conditionId !in Level(r, user, n);
      return false;
    }
    var condition := r.conditionsById[conditionId];
    ghost var before := visiting.ids;
    ghost var left: nat := LevelsLeft(depth) - 1;
    visiting.ids := visiting.ids + {conditionId};
    var values := r.Values(condition);
    if condition.functionType != FUNCTION_RECURSION {
      ok := r.LeafHolds(condition, user);
      assert forall n: nat :: conditionId in Level(r, user, n) ==> n > 0 && r.LeafHolds(condition, user);
    } else if values == [] {
      ok := false;
      BlockedIsUnreached(r, user, conditionId, before, left);
    } else if condition.evaluateType == EVALUATE_OR {
      ok := false;
      var i := 0;
      while i < |values| && !ok
        invariant 0 <= i <= |values|
        invariant visiting.ids == before + {conditionId}
        invariant ok ==> exists v :: v in values && Sub(v) in Level(r, user, left)
        invariant !ok ==> forall v :: v in values[..i] ==> Unreached(r, user, Sub(v), before + {conditionId}, left)
        decreases |values| - i
      {
        var value := values[i];
        ok := Evaluate(r, Sub(value), user, visiting, depth + 1);
        i := i + 1;
      }
      if !ok {
        assert values[..i] == values;
        BlockedIsUnreached(r, user, conditionId, before, left);
      }
    } else {
      ok := true;
      var i := 0;
      while i < |values| && ok
        invariant 0 <= i <= |values|
        invariant visiting.ids == before + {conditionId}
        invariant ok ==> forall v :: v in values[..i] ==> Sub(v) in Level(r, user, left)
        invariant !ok ==> exists v :: v in values && Unreached(r, user, Sub(v), before + {conditionId}, left)
        decreases |values| - i
      {
        var value := values[i];
        ok := Evaluate(r, Sub(value), user, visiting, depth + 1);
        i := i + 1;
      }
      if ok {
        assert values[..i] == values;
      } else {
        BlockedIsUnreached(r, user, conditionId, before, left);
      }
    }
    visiting.ids := visiting.ids - {conditionId};
  }

  /** Satisfied holds exactly for what is derivable in 33 levels. */
  method Satisfied(r: Resolver, conditionId: int, user: User) returns (ok: bool)
    ensures ok <==> conditionId in Level(r, user, 33)
  {
    var visiting := new VisitSet();
    ok := Evaluate(r, conditionId, user, visiting, 0);
    if !ok {
      assert !Reached(r, user, conditionId, {}, MAX_LEVELS);
    }
  }

  // ---------------------------------------------------------------------------
  // What the cutoff costs: levels against the least solution
  // ---------------------------------------------------------------------------

  lemma {:induction false} LevelIsDerivable(r: Resolver, user: User, id: int, n: nat)
    requires id in Level(r, user, n)
    ensures Derivable(r, user, id)
  {
    forall s: iset<int> | Closed(r, user, s) ensures id in s {
      LevelInClosed(r, user, s, n);
    }
  }

  lemma {:induction false} LevelInClosed(r: Resolver, user: User, s: iset<int>, n: nat)
    requires Closed(r, user, s)
    ensures Level(r, user, n) <= s
  {
    if n == 0 {
      assert Step(r, user, s, 0);
    } else {
      LevelInClosed(r, user, s, n - 1);
      forall id | id in Level(r, user, n) ensures id in s {
        StepMonotone(r, user, Level(r, user, n - 1), s, id);
      }
    }
  }

  ghost predicate HasLevel(r: Resolver, user: User, id: int) {
    exists n: nat :: id in Level(r, user, n)
  }

  ghost function Limit(r: Resolver, user: User): iset<int> {
    iset id | HasLevel(r, user, id)
  }

  lemma {:induction false} CommonLevel(r: Resolver, user: User, values: seq<GroupValue>) returns (n: nat)
    requires forall v :: v in values ==> Sub(v) in Limit(r, user)
    ensures forall v :: v in values ==> Sub(v) in Level(r, user, n)
  {
    if values == [] {
      n := 0;
    } else {
      var a := CommonLevel(r, user, values[1..]);
      assert Sub(values[0]) in Limit(r, user);
      var b: nat :| Sub(values[0]) in Level(r, user, b);
      n := Max(a, b);
      LevelGrows(r, user, a, n);
      LevelGrows(r, user, b, n);
    }
  }

  lemma LimitIsClosed(r: Resolver, user: User)
    ensures Closed(r, user, Limit(r, user))
  {
    forall id | Step(r, user, Limit(r, user), id) ensures id in Limit(r, user) {
      var n: nat := 0;
      if id != 0 && r.conditionsById[id].functionType == FUNCTION_RECURSION {
        var c := r.conditionsById[id];
        if c.evaluateType == EVALUATE_OR {
          var v :| v in r.Values(c) && Sub(v) in Limit(r, user);
          n :| Sub(v) in Level(r, user, n);
        } else {
          n := CommonLevel(r, user, r.Values(c));
        }
      }
      assert id in Level(r, user, n + 1);
    }
  }

  /** A condition is derivable exactly when some number of levels reaches it. */
  lemma DerivableIffSomeLevel(r: Resolver, user: User, id: int)
    ensures Derivable(r, user, id) <==> HasLevel(r, user, id)
  {
    LimitIsClosed(r, user);
    if n: nat :| id in Level(r, user, n) {
      LevelIsDerivable(r, user, id, n);
    }
  }

  /** The conditions of the table that level n derives. */
  ghost function Found(r: Resolver, user: User, n: nat): set<int> {
    set id | id in r.conditionsById && id != 0 && id in Level(r, user, n)
  }

  lemma {:induction false} StableOrGrowing(r: Resolver, user: User, n: nat)
    ensures |Found(r, user, n)| >= n || exists m: nat :: m < n && Level(r, user, m) == Level(r, user, m + 1)
  {
    if n > 0 {
      StableOrGrowing(r, user, n - 1);
      LevelGrows(r, user, n - 1, n);
      var a, b := Found(r, user, n - 1), Found(r, user, n);
      assert a <= b;
      if a == b {
        LevelIsFound(r, user, n - 1);
        LevelIsFound(r, user, n);
        assert Level(r, user, n - 1) == Level(r, user, (n - 1) + 1);
      } else {
        SubsetSize(a, b);
      }
    }
  }

  lemma LevelIsFound(r: Resolver, user: User, n: nat)
    ensures Level(r, user, n) == iset id | id == 0 || id in Found(r, user, n)
  {
    LevelGrows(r, user, 0, n);
  }

  lemma {:induction false} StableStays(r: Resolver, user: User, m: nat, n: nat)
    requires m <= n && Level(r, user, m) == Level(r, user, m + 1)
    ensures Level(r, user, n) == Level(r, user, m)
    decreases n
  {
    if n > m {
      StableStays(r, user, m, n - 1);
      assert Level(r, user, n) == Apply(r, user, Level(r, user, m)) == Level(r, user, m + 1);
    }
  }

  /** A table of at most n conditions derives everything it can in n levels. */
  lemma LevelsBoundedByTable(r: Resolver, user: User, id: int, n: nat)
    requires |r.conditionsById.Keys - {0}| <= n
    ensures id in Level(r, user, n) <==> Derivable(r, user, id)
  {
    DerivableIffSomeLevel(r, user, id);
    StableOrGrowing(r, user, n + 1);
    var conditions := r.conditionsById.Keys - {0};
    SubsetSize(Found(r, user, n + 1), conditions);
    var m: nat :| m < n + 1 && Level(r, user, m) == Level(r, user, m + 1);
    StableStays(r, user, m, n);
    if k: nat :| id in Level(r, user, k) {
      LevelGrows(r, user, k, Max(k, n));
      StableStays(r, user, m, Max(k, n));
    }
  }

  function UpTo(n: nat): (ids: set<int>)
    ensures |ids| == n
    ensures forall id :: id in ids <==> 1 <= id <= n
  {
    if n == 0 then {} else UpTo(n - 1) + {n}
  }

  /** AND-chain 1 -> 2 -> ... -> n of one-element groups; n tests that quest 1 is cleared. */
  function Chain(n: nat): Resolver {
    Resolver(
      map[],
      map id | id in UpTo(n) :: Condition(if id == n then FUNCTION_QUEST_CLEAR else FUNCTION_RECURSION, 1, id),
      map g | g in UpTo(n) :: [GroupValue(1, if g == n then 1 else g + 1)],
      map[], map[])
  }

  const CHAIN_USER := User(map[1 := QUEST_STATE_CLEARED], map[], map[], map[], {}, map[])

  lemma {:induction false} ChainLevel(n: nat, id: int, k: nat)
    requires n < 0x8000_0000 && 1 <= id <= n
    ensures id in Level(Chain(n), CHAIN_USER, k) <==> k >= n - id + 1
    decreases k
  {
    if k > 0 {
      var r := Chain(n);
      var c := r.conditionsById[id];
      var v := r.Values(c)[0];
      if id == n {
        assert r.LeafHolds(c, CHAIN_USER);
      } else {
        assert r.Values(c) == [v] && Sub(v) == id + 1;
        ChainLevel(n, id + 1, k - 1);
      }
    }
  }

  /**
   * The cutoff is harmless exactly for tables of at most 33 conditions:
   * below that size every table is decided by its least solution, and for every
   * larger size some table has a derivable condition the evaluator rejects.
   */
  lemma CutoffExactForSize(size: nat)
    ensures size <= 33 <==>
      forall r: Resolver, user: User, id: int :: |r.conditionsById.Keys - {0}| <= size ==>
        (id in Level(r, user, 33) <==> Derivable(r, user, id))
  {
    if size <= 33 {
      forall r: Resolver, user: User, id: int | |r.conditionsById.Keys - {0}| <= size
        ensures id in Level(r, user, 33) <==> Derivable(r, user, id)
      {
        LevelsBoundedByTable(r, user, id, 33);
      }
    } else {
      var n: nat := 34;
      var r := Chain(n);
      assert r.conditionsById.Keys - {0} == UpTo(n);
      ChainLevel(n, 1, 33);
      ChainLevel(n, 1, n);
      LevelIsDerivable(r, CHAIN_USER, 1, n);
      assert !(1 in Level(r, CHAIN_USER, 33) <==> Derivable(r, CHAIN_USER, 1));
    }
  }

  // ---------------------------------------------------------------------------
  // Acyclic tables: plain formula evaluation
  // ---------------------------------------------------------------------------

  ghost predicate IsSub(r: Resolver, id: int, v: GroupValue) {
    id in r.conditionsById && id != 0 &&
    r.conditionsById[id].functionType == FUNCTION_RECURSION &&
    v in r.Values(r.conditionsById[id])
  }

  /** Every recursion of the table is above its sub-conditions. */
  ghost predicate Ranked(r: Resolver, rank: map<int, nat>) {
    forall id, v | IsSub(r, id, v) && Sub(v) in r.conditionsById && Sub(v) != 0 ::
      RankOf(rank, Sub(v)) < RankOf(rank, id)
  }

  ghost function RankOf(rank: map<int, nat>, id: int): nat {
    if id in rank then rank[id] else 0
  }

  /** Evaluation of the AND/OR formula below id, with no visiting set and no cutoff. */
  ghost predicate Formula(r: Resolver, user: User, rank: map<int, nat>, id: int)
    requires Ranked(r, rank)
    decreases RankOf(rank, id)
  {
    id == 0 ||
    (id in r.conditionsById &&
     var c := r.conditionsById[id];
     var values := r.Values(c);
     if c.functionType != FUNCTION_RECURSION
     then r.LeafHolds(c, user)
     else
       values != [] &&
       if c.evaluateType == EVALUATE_OR
       then exists v :: v in values && SubFormula(r, user, rank, id, v)
       else forall v :: v in values ==> SubFormula(r, user, rank, id, v))
  }

  ghost predicate SubFormula(r: Resolver, user: User, rank: map<int, nat>, id: int, v: GroupValue)
    requires Ranked(r, rank)
    requires IsSub(r, id, v)
    decreases RankOf(rank, id), 0
  {
    Sub(v) == 0 || (Sub(v) in r.conditionsById && Formula(r, user, rank, Sub(v)))
  }

  /**
   * On an acyclic table a condition of rank below MAX_LEVELS is satisfied
   * exactly when its formula is true, whatever is shared between branches.
   */
  lemma {:induction false} FormulaIsLevel(r: Resolver, user: User, rank: map<int, nat>, id: int, n: nat)
    requires Ranked(r, rank) && RankOf(rank, id) < n
    ensures id in Level(r, user, n) <==> Formula(r, user, rank, id)
    decreases n
  {
    if id != 0 && id in r.conditionsById && r.conditionsById[id].functionType == FUNCTION_RECURSION {
      var c := r.conditionsById[id];
      LevelGrows(r, user, 0, n - 1);
      forall v | v in r.Values(c)
        ensures Sub(v) in Level(r, user, n - 1) <==> SubFormula(r, user, rank, id, v)
      {
        if Sub(v) != 0 && Sub(v) in r.conditionsById {
          FormulaIsLevel(r, user, rank, Sub(v), n - 1);
        } else {
          LevelIsFound(r, user, n - 1);
        }
      }
    }
  }

  // ---------------------------------------------------------------------------
  // Loading the tables
  // ---------------------------------------------------------------------------

  datatype ConditionRow = ConditionRow(conditionId: int, condition: Condition)

  datatype ValueRow = ValueRow(groupId: int, groupIndex: int, value: int)

  ghost predicate UniqueConditions(rows: seq<ConditionRow>) {
    forall a, b :: a in rows && b in rows && a.conditionId == b.conditionId ==> a == b
  }

  /** No group has two values with the same index. */
  ghost predicate UniqueIndices(rows: seq<ValueRow>) {
    forall a, b :: a in rows && b in rows && a.groupId == b.groupId && a.groupIndex == b.groupIndex ==> a == b
  }

  /** Index of conditions by id; a later row replaces an earlier one. */
  function ById(rows: seq<ConditionRow>): map<int, Condition> {
    if rows == [] then map[]
    else
      var last := rows[|rows| - 1];
      ById(rows[..|rows| - 1])[last.conditionId := last.condition]
  }

  lemma {:induction false} ByIdHolds(rows: seq<ConditionRow>)
    ensures forall id :: id in ById(rows) ==> ConditionRow(id, ById(rows)[id]) in rows
    ensures forall row :: row in rows ==> row.conditionId in ById(rows)
  {
    if rows != [] {
      ByIdHolds(rows[..|rows| - 1]);
    }
  }

  /** The values of one group, in table order. */
  function GroupOf(rows: seq<ValueRow>, groupId: int): seq<GroupValue> {
    if rows == [] then []
    else
      var last := rows[|rows| - 1];
      var before := GroupOf(rows[..|rows| - 1], groupId);
      if last.groupId == groupId then before + [GroupValue(last.groupIndex, last.value)] else before
  }

  lemma {:induction false} GroupOfHolds(rows: seq<ValueRow>, groupId: int, v: GroupValue)
    ensures v in GroupOf(rows, groupId) <==> ValueRow(groupId, v.groupIndex, v.value) in rows
  {
    if rows != [] {
      GroupOfHolds(rows[..|rows| - 1], groupId, v);
    }
  }

  ghost predicate IndexOrdered(values: seq<GroupValue>) {
    forall i, j :: 0 <= i < j < |values| ==> values[i].groupIndex <= values[j].groupIndex
  }

  /** What loading promises about the resolver: every table indexed, every group sorted by index. */
  ghost predicate Loaded(r: Resolver, conditions: seq<ConditionRow>, values: seq<ValueRow>) {
    && r.conditionsById == ById(conditions)
    && (forall g :: g in r.valuesByGroupId ==>
          IndexOrdered(r.valuesByGroupId[g]) && multiset(r.valuesByGroupId[g]) == multiset(GroupOf(values, g)))
    && (forall i :: 0 <= i < |values| ==> values[i].groupId in r.valuesByGroupId)
    && r.requiredQuestByCondId == RequiredQuests(conditions, values)
  }

  predicate IsQuestGate(c: Condition) {
    c.functionType == FUNCTION_QUEST_CLEAR && c.evaluateType == EVALUATE_ID_CONTAIN
  }

  /** Values by (group, index); a later row replaces an earlier one. */
  function ByKey(rows: seq<ValueRow>): map<(int, int), int> {
    if rows == [] then map[]
    else
      var last := rows[|rows| - 1];
      ByKey(rows[..|rows| - 1])[(last.groupId, last.groupIndex) := last.value]
  }

  lemma {:induction false} ByKeyHolds(rows: seq<ValueRow>)
    ensures forall k :: k in ByKey(rows) ==> ValueRow(k.0, k.1, ByKey(rows)[k]) in rows
    ensures forall row :: row in rows ==> (row.groupId, row.groupIndex) in ByKey(rows)
  {
    if rows != [] {
      ByKeyHolds(rows[..|rows| - 1]);
    }
  }

  /** The quest each quest-gate condition asks for, resolved once at load time. */
  function RequiredQuests(conditions: seq<ConditionRow>, values: seq<ValueRow>): map<int, int> {
    if conditions == [] then map[]
    else
      var last := conditions[|conditions| - 1];
      var before := RequiredQuests(conditions[..|conditions| - 1], values);
      var key := (last.condition.valueGroupId, DEFAULT_GROUP_INDEX);
      if IsQuestGate(last.condition) && key in ByKey(values)
      then before[last.conditionId := ToInt32(ByKey(values)[key])]
      else before
  }

  /** The effect of each scene choice; a later row replaces an earlier one. */
  function EffectByKey(choices: seq<ChoiceRow>): map<SceneChoiceKey, int> {
    if choices == [] then map[]
    else
      var last := choices[|choices| - 1];
      EffectByKey(choices[..|choices| - 1])[last.key := last.effectId]
  }

  function GroupingByEffect(effects: seq<EffectRow>): map<int, int> {
    if effects == [] then map[]
    else
      var last := effects[|effects| - 1];
      GroupingByEffect(effects[..|effects| - 1])[last.effectId := last.groupingId]
  }

  ghost predicate ScenesLoaded(r: Resolver, choices: seq<ChoiceRow>, effects: seq<EffectRow>) {
    r.sceneChoiceEffectByKey == EffectByKey(choices) && r.sceneChoiceGroupingByEffect == GroupingByEffect(effects)
  }

  method LoadScenes(choices: seq<ChoiceRow>, effects: seq<EffectRow>)
    returns (effectByKey: map<SceneChoiceKey, int>, groupingByEffect: map<int, int>)
    ensures effectByKey == EffectByKey(choices) && groupingByEffect == GroupingByEffect(effects)
  {
    effectByKey := map[];
    for i := 0 to |choices|
      invariant effectByKey == EffectByKey(choices[..i])
    {
      assert choices[..i + 1][..i] == choices[..i];
      effectByKey := effectByKey[choices[i].key := choices[i].effectId];
    }
    assert choices[..|choices|] == choices;
    groupingByEffect := map[];
    for i := 0 to |effects|
      invariant groupingByEffect == GroupingByEffect(effects[..i])
    {
      assert effects[..i + 1][..i] == effects[..i];
      groupingByEffect := groupingByEffect[effects[i].effectId := effects[i].groupingId];
    }
    assert effects[..|effects|] == effects;
  }

  method Load(conditions: seq<ConditionRow>, values: seq<ValueRow>, choices: seq<ChoiceRow>, effects: seq<EffectRow>)
    returns (r: Resolver)
    ensures Loaded(r, conditions, values) && ScenesLoaded(r, choices, effects)
  {
    var condById: map<int, Condition> := map[];
    for i := 0 to |conditions|
      invariant condById == ById(conditions[..i])
    {
      assert conditions[..i + 1][..i] == conditions[..i];
      condById := condById[conditions[i].conditionId := conditions[i].condition];
    }
    var vgByKey: map<(int, int), int> := map[];
    for i := 0 to |values|
      invariant vgByKey == ByKey(values[..i])
    {
      assert values[..i + 1][..i] == values[..i];
      vgByKey := vgByKey[(values[i].groupId, values[i].groupIndex) := values[i].value];
    }
    assert values[..|values|] == values;
    var resolved: map<int, int> := map[];
    for i := 0 to |conditions|
      invariant resolved == RequiredQuests(conditions[..i], values)
    {
      assert conditions[..i + 1][..i] == conditions[..i];
      var c := conditions[i].condition;
      if IsQuestGate(c) {
        if (c.valueGroupId, DEFAULT_GROUP_INDEX) in vgByKey {
          resolved := resolved[conditions[i].conditionId := ToInt32(vgByKey[(c.valueGroupId, DEFAULT_GROUP_INDEX)])];
        }
      }
    }
    assert conditions[..|conditions|] == conditions;
    var valuesByGroupId := SortedGroups(values);
    var effectByKey, groupingByEffect := LoadScenes(choices, effects);
    r := Resolver(resolved, condById, valuesByGroupId, effectByKey, groupingByEffect);
  }

  method SortedGroups(values: seq<ValueRow>) returns (groups: map<int, seq<GroupValue>>)
    ensures forall g :: g in groups ==>
      IndexOrdered(groups[g]) && multiset(groups[g]) == multiset(GroupOf(values, g))
    ensures forall i :: 0 <= i < |values| ==> values[i].groupId in groups
  {
    groups := AppendGroups(values);
    ghost var appended := groups;
    assert values[..|values|] == values;
    assert forall g :: g in appended ==> appended[g] == GroupIn(appended, g);
    var todo: set<int> := groups.Keys;
    while todo != {}
      invariant todo <= groups.Keys == appended.Keys
      invariant forall g :: g in todo ==> groups[g] == appended[g]
      invariant forall g :: g in groups && g !in todo ==>
        IndexOrdered(groups[g]) && multiset(groups[g]) == multiset(appended[g])
    {
      var g := Choose(todo);
      var sorted := SortByIndex(groups[g]);
      groups := groups[g := sorted];
      todo := todo - {g};
    }
  }

  function GroupIn(groups: map<int, seq<GroupValue>>, groupId: int): seq<GroupValue> {
    if groupId in groups then groups[groupId] else []
  }

  /** The first n rows have been appended to their groups. */
  ghost predicate Grouped(groups: map<int, seq<GroupValue>>, values: seq<ValueRow>, n: nat)
    requires n <= |values|
  {
    (forall g :: GroupIn(groups, g) == GroupOf(values[..n], g)) &&
    forall k :: 0 <= k < n ==> values[k].groupId in groups
  }

  /** The groups with one more row appended to its group. */
  function Appended(groups: map<int, seq<GroupValue>>, row: ValueRow): map<int, seq<GroupValue>> {
    groups[row.groupId := GroupIn(groups, row.groupId) + [GroupValue(row.groupIndex, row.value)]]
  }

  lemma GroupedStep(groups: map<int, seq<GroupValue>>, values: seq<ValueRow>, n: nat)
    requires n < |values| && Grouped(groups, values, n)
    ensures Grouped(Appended(groups, values[n]), values, n + 1)
  {
    assert values[..n + 1][..n] == values[..n];
    var after, next := Appended(groups, values[n]), values[..n + 1];
    forall g ensures GroupIn(after, g) == GroupOf(next, g) {
      assert GroupIn(groups, g) == GroupOf(values[..n], g);
    }
  }

  method AppendGroups(values: seq<ValueRow>) returns (groups: map<int, seq<GroupValue>>)
    ensures Grouped(groups, values, |values|)
  {
    groups := map[];
    for i := 0 to |values|
      invariant Grouped(groups, values, i)
    {
      GroupedStep(groups, values, i);
      groups := Appended(groups, values[i]);
    }
  }

  method SortByIndex(values: seq<GroupValue>) returns (sorted: seq<GroupValue>)
    ensures multiset(sorted) == multiset(values) && IndexOrdered(sorted)
  {
    sorted := Sort(values, (a: GroupValue, b: GroupValue) => a.groupIndex <= b.groupIndex);
  }

  /** In a loaded resolver a group holds exactly the values of its rows. */
  lemma LoadedValues(r: Resolver, conditions: seq<ConditionRow>, values: seq<ValueRow>, c: Condition, v: GroupValue)
    requires Loaded(r, conditions, values)
    ensures v in r.Values(c) <==> ValueRow(c.valueGroupId, v.groupIndex, v.value) in values
  {
    GroupOfHolds(values, c.valueGroupId, v);
    if c.valueGroupId in r.valuesByGroupId {
      assert v in r.Values(c) <==> v in multiset(GroupOf(values, c.valueGroupId));
    }
  }

  lemma {:induction false} ValueAtFirst(values: seq<GroupValue>, index: int)
    ensures ValueAt(values, index).None? <==> forall v :: v in values ==> v.groupIndex != index
    ensures ValueAt(values, index).Some? ==> GroupValue(index, ValueAt(values, index).value) in values
  {
    if values != [] {
      ValueAtFirst(values[1..], index);
    }
  }

  /** With unique indices, valueAt finds the one value the table gives the index. */
  lemma LoadedValueAt(r: Resolver, conditions: seq<ConditionRow>, values: seq<ValueRow>, c: Condition, index: int,
                      value: int)
    requires Loaded(r, conditions, values) && UniqueIndices(values)
    ensures ValueAt(r.Values(c), index) == Some(value) <==> ValueRow(c.valueGroupId, index, value) in values
  {
    ValueAtFirst(r.Values(c), index);
    LoadedValues(r, conditions, values, c, GroupValue(index, value));
    var at := ValueAt(r.Values(c), index);
    if at.Some? {
      LoadedValues(r, conditions, values, c, GroupValue(index, at.value));
    }
  }

  ghost predicate UniqueChoices(choices: seq<ChoiceRow>) {
    forall a, b :: a in choices && b in choices && a.key == b.key ==> a == b
  }

  ghost predicate UniqueEffects(effects: seq<EffectRow>) {
    forall a, b :: a in effects && b in effects && a.effectId == b.effectId ==> a == b
  }

  lemma {:induction false} EffectByKeyHolds(choices: seq<ChoiceRow>, key: SceneChoiceKey)
    ensures key in EffectByKey(choices) ==> ChoiceRow(key, EffectByKey(choices)[key]) in choices
    ensures forall row :: row in choices && row.key == key ==> key in EffectByKey(choices)
  {
    if choices != [] {
      EffectByKeyHolds(choices[..|choices| - 1], key);
    }
  }

  lemma {:induction false} GroupingByEffectHolds(effects: seq<EffectRow>, effectId: int)
    ensures effectId in GroupingByEffect(effects) ==>
      EffectRow(effectId, GroupingByEffect(effects)[effectId]) in effects
    ensures forall row :: row in effects && row.effectId == effectId ==> effectId in GroupingByEffect(effects)
  {
    if effects != [] {
      GroupingByEffectHolds(effects[..|effects| - 1], effectId);
    }
  }

  /** The condition's group names the choice: its scene, flow and number under the indices 1 to 3. */
  ghost predicate Names(c: Condition, values: seq<ValueRow>, key: SceneChoiceKey) {
    NamesPart(c, values, 1, key.questSceneId) && NamesPart(c, values, 2, key.questFlowType) &&
    NamesPart(c, values, 3, key.choiceNumber)
  }

  ghost predicate NamesPart(c: Condition, values: seq<ValueRow>, index: int, part: int) {
    exists value :: ValueRow(c.valueGroupId, index, value) in values && part == ToInt32(value)
  }

  /** A choice row of the tables whose effect is the one the user took in its grouping. */
  ghost predicate Taken(choice: ChoiceRow, effect: EffectRow, choices: seq<ChoiceRow>, effects: seq<EffectRow>,
                        user: User)
  {
    choice in choices && effect in effects && choice.effectId == effect.effectId &&
    effect.groupingId in user.questSceneChoices && user.questSceneChoices[effect.groupingId] == effect.effectId
  }

  lemma NamedPart(r: Resolver, conditions: seq<ConditionRow>, values: seq<ValueRow>, c: Condition, index: int,
                  part: int)
    requires Loaded(r, conditions, values) && UniqueIndices(values)
    ensures NamesPart(c, values, index, part) <==>
      ValueAt(r.Values(c), index).Some? && part == ToInt32(ValueAt(r.Values(c), index).value)
  {
    if value :| ValueRow(c.valueGroupId, index, value) in values && part == ToInt32(value) {
      LoadedValueAt(r, conditions, values, c, index, value);
    }
    if ValueAt(r.Values(c), index).Some? {
      LoadedValueAt(r, conditions, values, c, index, ValueAt(r.Values(c), index).value);
    }
  }

  /** On loaded tables a scene-choice condition holds exactly when the choice it names is the one the user took. */
  lemma LoadedSceneChoice(r: Resolver, conditions: seq<ConditionRow>, values: seq<ValueRow>, choices: seq<ChoiceRow>,
                          effects: seq<EffectRow>, user: User, c: Condition)
    requires Loaded(r, conditions, values) && ScenesLoaded(r, choices, effects)
    requires UniqueIndices(values) && UniqueChoices(choices) && UniqueEffects(effects)
    requires c.functionType == FUNCTION_QUEST_SCENE_CHOICE
    ensures r.LeafHolds(c, user) <==>
      exists choice, effect :: Taken(choice, effect, choices, effects, user) && Names(c, values, choice.key)
  {
    forall index, part ensures NamesPart(c, values, index, part) <==>
        ValueAt(r.Values(c), index).Some? && part == ToInt32(ValueAt(r.Values(c), index).value) {
      NamedPart(r, conditions, values, c, index, part);
    }
    if choice, effect :| Taken(choice, effect, choices, effects, user) && Names(c, values, choice.key) {
      EffectByKeyHolds(choices, choice.key);
      GroupingByEffectHolds(effects, effect.effectId);
    }
    if r.LeafHolds(c, user) {
      var key := SceneChoiceKey(ToInt32(ValueAt(r.Values(c), 1).value), ToInt32(ValueAt(r.Values(c), 2).value),
                                ToInt32(ValueAt(r.Values(c), 3).value));
      var effectId := r.sceneChoiceEffectByKey[key];
      EffectByKeyHolds(choices, key);
      GroupingByEffectHolds(effects, effectId);
      assert Taken(ChoiceRow(key, effectId), EffectRow(effectId, r.sceneChoiceGroupingByEffect[effectId]),
                   choices, effects, user);
      assert Names(c, values, key);
    }
  }

  /** A quest-gate row of the id whose group has a first value. */
  ghost predicate Gate(row: ConditionRow, values: seq<ValueRow>, id: int) {
    row.conditionId == id && IsQuestGate(row.condition) &&
    (row.condition.valueGroupId, DEFAULT_GROUP_INDEX) in ByKey(values)
  }

  lemma {:induction false} RequiredQuestsHold(conditions: seq<ConditionRow>, values: seq<ValueRow>, id: int)
    ensures id in RequiredQuests(conditions, values) ==>
      exists row :: row in conditions && Gate(row, values, id) &&
        RequiredQuests(conditions, values)[id] ==
          ToInt32(ByKey(values)[(row.condition.valueGroupId, DEFAULT_GROUP_INDEX)])
    ensures forall row :: row in conditions && Gate(row, values, id) ==> id in RequiredQuests(conditions, values)
  {
    if conditions != [] {
      var n := |conditions| - 1;
      RequiredQuestsHold(conditions[..n], values, id);
      assert conditions == conditions[..n] + [conditions[n]];
    }
  }

  /**
   * The quest resolved at load time decides the condition: a quest-gate
   * condition with a required quest is satisfied exactly when that quest is
   * cleared, and one without is never satisfied.
   */
  lemma RequiredQuestDecides(r: Resolver, conditions: seq<ConditionRow>, values: seq<ValueRow>, user: User, id: int)
    requires Loaded(r, conditions, values) && UniqueConditions(conditions) && UniqueIndices(values)
    requires id != 0
    ensures r.RequiredQuestId(id).Some? ==>
      (id in Level(r, user, MAX_LEVELS) <==> user.QuestCleared(r.RequiredQuestId(id).value))
    ensures r.RequiredQuestId(id).None? && id in r.conditionsById && IsQuestGate(r.conditionsById[id]) ==>
      id !in Level(r, user, MAX_LEVELS)
  {
    ByIdHolds(conditions);
    ByKeyHolds(values);
    RequiredQuestsHold(conditions, values, id);
    assert r.RequiredQuestId(id).Some? ==> id in r.conditionsById;
    if id in r.conditionsById && IsQuestGate(r.conditionsById[id]) {
      var c := r.conditionsById[id];
      var key := (c.valueGroupId, DEFAULT_GROUP_INDEX);
      assert ConditionRow(id, c) in conditions;
      assert id in Level(r, user, MAX_LEVELS) <==> r.LeafHolds(c, user);
      if key in ByKey(values) {
        LoadedValueAt(r, conditions, values, c, DEFAULT_GROUP_INDEX, ByKey(values)[key]);
      } else if ValueAt(r.Values(c), DEFAULT_GROUP_INDEX).Some? {
        LoadedValueAt(r, conditions, values, c, DEFAULT_GROUP_INDEX, ValueAt(r.Values(c), DEFAULT_GROUP_INDEX).value);
      }
    }
  }
}
