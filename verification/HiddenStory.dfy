/** The collector of hiddenstory.go. */
module HiddenStory {
  import opened Common
  import opened Conditions

  // Before any user plays, the collector walks the clear conditions of all hidden-story
  // gimmicks and gathers the missions and quest missions at their leaves. One `seen` set
  // is shared by all roots, sub-conditions come in random map order, and the walk stops
  // below depth 16. A condition cut off below one root can therefore be lost to another
  // that is close to it.
  //
  // The walk is described by a relation, Gathers, that holds of every outcome of every
  // visiting order. The main results are about that relation: every requirement is
  // gathered, on cyclic tables too, exactly up to a bound on the size of the table or on
  // its simple paths. What gathering is good for is in HiddenStoryRequirements.

  const MAX_RESOLVE_DEPTH: nat := 16

  const GIMMICK_TYPE_REPORT := 9
  const GIMMICK_TYPE_CAGE_MEMORY := 10

  datatype Gimmick = Gimmick(gimmickType: int, clearConditionId: int)
  {
    predicate IsHiddenStory() {
      gimmickType == GIMMICK_TYPE_REPORT || gimmickType == GIMMICK_TYPE_CAGE_MEMORY
    }
  }

  datatype Tables = Tables(condById: map<int, Condition>, valuesByGroup: map<int, map<int, int>>)
  {
    function Group(c: Condition): map<int, int> {
      if c.valueGroupId in valuesByGroup then valuesByGroup[c.valueGroupId] else map[]
    }

    /** The sub-conditions of a recursion; no other condition has any. */
    function Children(id: int): set<int> {
      if id in condById && condById[id].functionType == FUNCTION_RECURSION
      then set i | i in Group(condById[id]) :: ToInt32(Group(condById[id])[i])
      else {}
    }

    function MissionAt(id: int): Option<int> {
      if id in condById && condById[id].functionType == FUNCTION_MISSION_CLEAR && 1 in Group(condById[id])
      then Some(ToInt32(Group(condById[id])[1]))
      else None
    }

    function QuestMissionAt(id: int): Option<QuestMissionKey> {
      if id in condById && condById[id].functionType == FUNCTION_QUEST_MISSION_CLEAR &&
        1 in Group(condById[id]) && 2 in Group(condById[id])
      then Some(QuestMissionKey(ToInt32(Group(condById[id])[1]), ToInt32(Group(condById[id])[2])))
      else None
    }
  }

  // ---------------------------------------------------------------------------
  // The condition graph
  // ---------------------------------------------------------------------------

  /** A path of n steps from id to x; id 0 stands for "no condition" and is no node. */
  ghost predicate PathTo(t: Tables, id: int, x: int, n: nat)
    decreases n
  {
    id != 0 &&
    if n == 0 then x == id
    else exists c :: c in t.Children(id) && PathTo(t, c, x, n - 1)
  }

  ghost predicate Reachable(t: Tables, id: int, x: int) {
    exists n: nat :: PathTo(t, id, x, n)
  }

  /** x is at most `bound` steps below id. */
  ghost predicate Near(t: Tables, id: int, x: int, bound: int) {
    exists n: nat :: n <= bound && PathTo(t, id, x, n)
  }

  /** Every path from id has at most `budget` steps; in particular no cycle is reachable. */
  ghost predicate Within(t: Tables, id: int, budget: nat)
    decreases budget
  {
    id == 0 ||
    forall c :: c in t.Children(id) && c != 0 ==> budget > 0 && Within(t, c, budget - 1)
  }

  lemma ReachSelf(t: Tables, id: int)
    requires id != 0
    ensures Reachable(t, id, id)
  {
    assert PathTo(t, id, id, 0);
  }

  lemma ReachThroughChild(t: Tables, id: int, c: int, x: int)
    requires id != 0 && c in t.Children(id) && Reachable(t, c, x)
    ensures Reachable(t, id, x)
  {
    var n: nat :| PathTo(t, c, x, n);
    assert PathTo(t, id, x, n + 1);
  }

  lemma ValueIsChild(t: Tables, id: int, i: int)
    requires Recurses(t, id) && i in t.Group(t.condById[id])
    ensures ToInt32(t.Group(t.condById[id])[i]) in t.Children(id)
  {
  }

  // ---------------------------------------------------------------------------
  // The walk, for every visiting order
  // ---------------------------------------------------------------------------

  predicate Stops(id: int, depth: nat, before: set<int>) {
    id == 0 || depth > MAX_RESOLVE_DEPTH || id in before
  }

  predicate Recurses(t: Tables, id: int) {
    id in t.condById && t.condById[id].functionType == FUNCTION_RECURSION
  }

  /** resolve(id, depth) can take the set of conditions seen from `before` to `after`. */
  ghost predicate Resolves(t: Tables, id: int, depth: nat, before: set<int>, after: set<int>)
    decreases if depth > MAX_RESOLVE_DEPTH then 0 else MAX_RESOLVE_DEPTH + 1 - depth, 1, 0
  {
    if Stops(id, depth, before) then after == before
    else if !Recurses(t, id) then after == before + {id}
    else
      var group := t.Group(t.condById[id]);
      exists order :: Lists(order, group.Keys) && ResolvesGroup(t, group, order, depth, before + {id}, after)
  }

  /** Resolving the sub-conditions of a group one by one, in the given order, below a condition at `depth`. */
  ghost predicate ResolvesGroup(t: Tables, group: map<int, int>, order: seq<int>, depth: nat, before: set<int>,
                                after: set<int>)
    requires depth <= MAX_RESOLVE_DEPTH && forall j :: 0 <= j < |order| ==> order[j] in group
    decreases MAX_RESOLVE_DEPTH + 1 - depth, 0, |order|
  {
    if order == [] then after == before
    else
      var n := |order| - 1;
      exists mid :: ResolvesGroup(t, group, order[..n], depth, before, mid) &&
        Resolves(t, ToInt32(group[order[n]]), depth + 1, mid, after)
  }

  /** The conditions seen once the roots of the gimmicks were resolved in turn. */
  ghost predicate Sees(t: Tables, gimmicks: seq<Gimmick>, seen: set<int>) {
    if gimmicks == [] then seen == {}
    else
      var n := |gimmicks| - 1;
      exists before :: Sees(t, gimmicks[..n], before) &&
        if gimmicks[n].IsHiddenStory() then Resolves(t, gimmicks[n].clearConditionId, 0, before, seen)
        else seen == before
  }

  ghost function MissionsOf(t: Tables, nodes: set<int>): set<int> {
    set x | x in nodes && t.MissionAt(x).Some? :: t.MissionAt(x).value
  }

  ghost function QuestMissionsOf(t: Tables, nodes: set<int>): set<QuestMissionKey> {
    set x | x in nodes && t.QuestMissionAt(x).Some? :: t.QuestMissionAt(x).value
  }

  /** A possible outcome of the collector. */
  ghost predicate Gathers(t: Tables, gimmicks: seq<Gimmick>, missions: set<int>, questMissions: set<QuestMissionKey>) {
    exists seen :: Sees(t, gimmicks, seen) && missions == MissionsOf(t, seen) &&
      questMissions == QuestMissionsOf(t, seen)
  }

  /** The sets the resolve closure captures and fills while recursing. */
  class Collector {
    var seen: set<int>
    var missions: set<int>
    var questMissions: set<QuestMissionKey>

    constructor ()
      ensures seen == {} && missions == {} && questMissions == {}
    {
      seen, missions, questMissions := {}, {}, {};
    }

    /** The requirements recorded are those of the given conditions. */
    ghost predicate Recorded(t: Tables, nodes: set<int>)
      reads this
    {
      missions == MissionsOf(t, nodes) && questMissions == QuestMissionsOf(t, nodes)
    }

    method Resolve(t: Tables, conditionId: int, depth: nat)
      requires Recorded(t, seen)
      modifies this
      ensures Recorded(t, seen) && Resolves(t, conditionId, depth, old(seen), seen)
      decreases if depth > MAX_RESOLVE_DEPTH then 0 else MAX_RESOLVE_DEPTH + 1 - depth, 1
    {
      if conditionId == 0 || depth > MAX_RESOLVE_DEPTH || conditionId in seen {
        return;
      }
      ghost var before := seen;
      seen := seen + {conditionId};
      RecordOne(t, before, conditionId);
      if conditionId !in t.condById {
        return;
      }
      if t.condById[conditionId].functionType == FUNCTION_RECURSION {
        ResolveGroup(t, conditionId, depth);
      } else {
        RecordLeaf(t, conditionId);
      }
    }

    method ResolveGroup(t: Tables, conditionId: int, depth: nat)
      requires depth <= MAX_RESOLVE_DEPTH && Recurses(t, conditionId) && Recorded(t, seen)
      modifies this
      ensures Recorded(t, seen)
      ensures var group := t.Group(t.condById[conditionId]);
        exists order :: Lists(order, group.Keys) && ResolvesGroup(t, group, order, depth, old(seen), seen)
      decreases MAX_RESOLVE_DEPTH + 1 - depth, 0
    {
      var group := t.Group(t.condById[conditionId]);
      ghost var before := seen;
      ghost var order: seq<int> := [];
      var todo := group.Keys;
      while todo != {}
        invariant todo <= group.Keys && Recorded(t, seen)
        invariant PartOf(t, group, order, todo, depth, before, seen)
        decreases todo
      {
        var i := Choose(todo);
        ghost var mid := seen;
        Resolve(t, ToInt32(group[i]), depth + 1);
        OneMore(t, group, order, todo, i, depth, before, mid, seen);
        order := order + [i];
        todo := todo - {i};
      }
      AllDone(t, group, order, todo, depth, before, seen);
    }

    /** A leaf has no sub-conditions; its mission or quest mission is added. */
    method RecordLeaf(t: Tables, conditionId: int)
      requires conditionId in seen && conditionId in t.condById
      requires t.condById[conditionId].functionType != FUNCTION_RECURSION
      requires Recorded(t, seen - {conditionId})
      modifies this`missions, this`questMissions
      ensures Recorded(t, seen)
    {
      var c := t.condById[conditionId];
      var group := t.Group(c);
      RecordOne(t, seen - {conditionId}, conditionId);
      assert seen == seen - {conditionId} + {conditionId};
      if c.functionType == FUNCTION_MISSION_CLEAR {
        if 1 in group {
          missions := missions + {ToInt32(group[1])};
        }
      } else if c.functionType == FUNCTION_QUEST_MISSION_CLEAR {
        if 1 in group && 2 in group {
          questMissions := questMissions + {QuestMissionKey(ToInt32(group[1]), ToInt32(group[2]))};
        }
      }
    }
  }

  lemma RecordOne(t: Tables, nodes: set<int>, x: int)
    ensures MissionsOf(t, nodes + {x}) == MissionsOf(t, nodes) +
      if t.MissionAt(x).Some? then {t.MissionAt(x).value} else {}
    ensures QuestMissionsOf(t, nodes + {x}) == QuestMissionsOf(t, nodes) +
      if t.QuestMissionAt(x).Some? then {t.QuestMissionAt(x).value} else {}
  {
  }

  /** The sub-conditions except those of `todo` were resolved, in this order. */
  ghost predicate PartOf(t: Tables, group: map<int, int>, order: seq<int>, todo: set<int>, depth: nat,
                         before: set<int>, after: set<int>)
  {
    depth <= MAX_RESOLVE_DEPTH && Lists(order, group.Keys - todo) &&
    ResolvesGroup(t, group, order, depth, before, after)
  }

  lemma OneMore(t: Tables, group: map<int, int>, order: seq<int>, todo: set<int>, i: int, depth: nat, before: set<int>,
                mid: set<int>, after: set<int>)
    requires i in todo && todo <= group.Keys && PartOf(t, group, order, todo, depth, before, mid)
    requires Resolves(t, ToInt32(group[i]), depth + 1, mid, after)
    ensures PartOf(t, group, order + [i], todo - {i}, depth, before, after)
  {
    assert group.Keys - (todo - {i}) == group.Keys - todo + {i};
    assert (order + [i])[..|order|] == order;
  }

  lemma AllDone(t: Tables, group: map<int, int>, order: seq<int>, todo: set<int>, depth: nat, before: set<int>,
                after: set<int>)
    requires todo == {} && PartOf(t, group, order, todo, depth, before, after)
    ensures Lists(order, group.Keys) && ResolvesGroup(t, group, order, depth, before, after)
  {
    assert group.Keys - todo == group.Keys;
  }

  method CollectRequirements(t: Tables, gimmicks: seq<Gimmick>)
    returns (missions: set<int>, questMissions: set<QuestMissionKey>)
    ensures Gathers(t, gimmicks, missions, questMissions)
    ensures OnlyNear(t, gimmicks, missions, questMissions)
    ensures AllShallow(t, gimmicks, MAX_RESOLVE_DEPTH + 1) ==> AllGathered(t, gimmicks, missions, questMissions)
  {
    var collector := new Collector();
    for i := 0 to |gimmicks|
      invariant collector.Recorded(t, collector.seen) && Sees(t, gimmicks[..i], collector.seen)
    {
      assert gimmicks[..i + 1][..i] == gimmicks[..i];
      if gimmicks[i].IsHiddenStory() {
        collector.Resolve(t, gimmicks[i].clearConditionId, 0);
      }
    }
    assert gimmicks[..|gimmicks|] == gimmicks;
    missions, questMissions := collector.missions, collector.questMissions;
    assert Gathers(t, gimmicks, missions, questMissions);
    GathersOnlyNear(t, gimmicks, missions, questMissions);
    if AllShallow(t, gimmicks, MAX_RESOLVE_DEPTH + 1) {
      GathersAll(t, gimmicks, missions, questMissions);
    }
  }

  // ---------------------------------------------------------------------------
  // Every table has an outcome
  // ---------------------------------------------------------------------------

  lemma {:induction false} SomeResolve(t: Tables, id: int, depth: nat, before: set<int>)
    ensures exists after :: Resolves(t, id, depth, before, after)
    decreases if depth > MAX_RESOLVE_DEPTH then 0 else MAX_RESOLVE_DEPTH + 1 - depth, 1, 0
  {
    if Stops(id, depth, before) {
      assert Resolves(t, id, depth, before, before);
    } else if !Recurses(t, id) {
      assert Resolves(t, id, depth, before, before + {id});
    } else {
      var group := t.Group(t.condById[id]);
      var order := Listing(group.Keys);
      SomeGroup(t, group, order, depth, before + {id});
      var after :| ResolvesGroup(t, group, order, depth, before + {id}, after);
      assert Resolves(t, id, depth, before, after);
    }
  }

  lemma {:induction false} SomeGroup(t: Tables, group: map<int, int>, order: seq<int>, depth: nat, before: set<int>)
    requires depth <= MAX_RESOLVE_DEPTH && forall j :: 0 <= j < |order| ==> order[j] in group
    ensures exists after :: ResolvesGroup(t, group, order, depth, before, after)
    decreases MAX_RESOLVE_DEPTH + 1 - depth, 0, |order|
  {
    if order == [] {
      assert ResolvesGroup(t, group, order, depth, before, before);
    } else {
      var n := |order| - 1;
      SomeGroup(t, group, order[..n], depth, before);
      var mid :| ResolvesGroup(t, group, order[..n], depth, before, mid);
      SomeResolve(t, ToInt32(group[order[n]]), depth + 1, mid);
      var after :| Resolves(t, ToInt32(group[order[n]]), depth + 1, mid, after);
      assert ResolvesGroup(t, group, order, depth, before, after);
    }
  }

  lemma {:induction false} SomeSeen(t: Tables, gimmicks: seq<Gimmick>)
    ensures exists seen :: Sees(t, gimmicks, seen)
  {
    if gimmicks == [] {
      assert Sees(t, gimmicks, {});
    } else {
      var n := |gimmicks| - 1;
      SomeSeen(t, gimmicks[..n]);
      var before :| Sees(t, gimmicks[..n], before);
      if gimmicks[n].IsHiddenStory() {
        SomeResolve(t, gimmicks[n].clearConditionId, 0, before);
        var seen :| Resolves(t, gimmicks[n].clearConditionId, 0, before, seen);
        assert Sees(t, gimmicks, seen);
      } else {
        assert Sees(t, gimmicks, before);
      }
    }
  }

  // ---------------------------------------------------------------------------
  // Only near conditions are seen
  // ---------------------------------------------------------------------------

  /** A walk from id that took `before` to `after` only added conditions at most `bound` steps away. */
  ghost predicate Grown(t: Tables, id: int, bound: int, before: set<int>, after: set<int>) {
    before <= after && forall x :: x in after - before ==> Near(t, id, x, bound)
  }

  lemma GrownThroughChild(t: Tables, id: int, child: int, bound: int, a: set<int>, b: set<int>, c: set<int>)
    requires id != 0 && child in t.Children(id)
    requires Grown(t, id, bound, a, b) && Grown(t, child, bound - 1, b, c)
    ensures Grown(t, id, bound, a, c)
  {
    forall x | x in c - b ensures Near(t, id, x, bound) {
      var n: nat :| n <= bound - 1 && PathTo(t, child, x, n);
      assert PathTo(t, id, x, n + 1);
    }
  }

  lemma {:induction false} ResolvesNear(t: Tables, id: int, depth: nat, before: set<int>, after: set<int>)
    requires Resolves(t, id, depth, before, after)
    ensures Grown(t, id, MAX_RESOLVE_DEPTH - depth, before, after)
    decreases if depth > MAX_RESOLVE_DEPTH then 0 else MAX_RESOLVE_DEPTH + 1 - depth, 1, 0
  {
    if !Stops(id, depth, before) {
      assert PathTo(t, id, id, 0);
      if Recurses(t, id) {
        var group := t.Group(t.condById[id]);
        var order :| Lists(order, group.Keys) && ResolvesGroup(t, group, order, depth, before + {id}, after);
        GroupNear(t, id, order, depth, before + {id}, after);
      }
    }
  }

  lemma {:induction false} GroupNear(t: Tables, id: int, order: seq<int>, depth: nat, before: set<int>, after: set<int>)
    requires id != 0 && Recurses(t, id) && depth <= MAX_RESOLVE_DEPTH
    requires forall j :: 0 <= j < |order| ==> order[j] in t.Group(t.condById[id])
    requires ResolvesGroup(t, t.Group(t.condById[id]), order, depth, before, after)
    ensures Grown(t, id, MAX_RESOLVE_DEPTH - depth, before, after)
    decreases MAX_RESOLVE_DEPTH + 1 - depth, 0, |order|
  {
    if order != [] {
      var n := |order| - 1;
      var group := t.Group(t.condById[id]);
      var child := ToInt32(group[order[n]]);
      var mid :| ResolvesGroup(t, group, order[..n], depth, before, mid) && Resolves(t, child, depth + 1, mid, after);
      GroupNear(t, id, order[..n], depth, before, mid);
      ValueIsChild(t, id, order[n]);
      ResolvesNear(t, child, depth + 1, mid, after);
      GrownThroughChild(t, id, child, MAX_RESOLVE_DEPTH - depth, before, mid, after);
    }
  }

  /** x lies below the clear condition of some hidden-story gimmick. */
  ghost predicate Needed(t: Tables, gimmicks: seq<Gimmick>, x: int) {
    exists g :: g in gimmicks && g.IsHiddenStory() && Reachable(t, g.clearConditionId, x)
  }

  /** As Needed, at most as deep as the walk goes. */
  ghost predicate NeededNear(t: Tables, gimmicks: seq<Gimmick>, x: int) {
    exists g :: g in gimmicks && g.IsHiddenStory() && Near(t, g.clearConditionId, x, MAX_RESOLVE_DEPTH)
  }

  lemma {:induction false} SeesNear(t: Tables, gimmicks: seq<Gimmick>, seen: set<int>, x: int)
    requires Sees(t, gimmicks, seen) && x in seen
    ensures NeededNear(t, gimmicks, x)
  {
    var n := |gimmicks| - 1;
    var g := gimmicks[n];
    var before :| Sees(t, gimmicks[..n], before) &&
      if g.IsHiddenStory() then Resolves(t, g.clearConditionId, 0, before, seen) else seen == before;
    if x in before {
      SeesNear(t, gimmicks[..n], before, x);
    } else {
      ResolvesNear(t, g.clearConditionId, 0, before, seen);
      assert g in gimmicks;
    }
  }

  // ---------------------------------------------------------------------------
  // Everything is seen when simple paths are short enough
  // ---------------------------------------------------------------------------

  /** A path through the table that repeats no condition. */
  ghost predicate Simple(t: Tables, path: seq<int>) {
    (forall i :: 0 <= i < |path| ==> path[i] != 0 && path[i] in t.condById) &&
    (forall i :: 0 < i < |path| ==> path[i] in t.Children(path[i - 1])) &&
    forall i, j :: 0 <= i < j < |path| ==> path[i] != path[j]
  }

  /** No simple path from the root has more than `bound` conditions; the table may have cycles. */
  ghost predicate Shallow(t: Tables, root: int, bound: nat) {
    forall path :: Simple(t, path) && path != [] && path[0] == root ==> |path| <= bound
  }

  ghost predicate AllShallow(t: Tables, gimmicks: seq<Gimmick>, bound: nat) {
    forall g :: g in gimmicks && g.IsHiddenStory() ==> Shallow(t, g.clearConditionId, bound)
  }

  /** The sub-conditions of x that the table has are all seen. */
  ghost predicate Followed(t: Tables, x: int, seen: set<int>) {
    t.Children(x) * t.condById.Keys <= seen + {0}
  }

  /** Everything added was followed to its sub-conditions. */
  ghost predicate Explored(t: Tables, before: set<int>, after: set<int>) {
    before <= after && forall x :: x in after - before ==> Followed(t, x, after)
  }

  lemma ExploredTrans(t: Tables, a: set<int>, b: set<int>, c: set<int>)
    requires Explored(t, a, b) && Explored(t, b, c)
    ensures Explored(t, a, c)
  {
    forall x | x in c - a ensures Followed(t, x, c) {
      if x in b {
        assert Followed(t, x, b);
      }
    }
  }

  /** The conditions on the stack: a simple path from the root down to the parent of id. */
  ghost predicate Stack(t: Tables, path: seq<int>, root: int, id: int, before: set<int>) {
    Simple(t, path) && (forall i :: 0 <= i < |path| ==> path[i] in before) &&
    if path == [] then id == root else path[0] == root && id in t.Children(path[|path| - 1])
  }

  lemma StackGrows(t: Tables, path: seq<int>, root: int, id: int, before: set<int>)
    requires Stack(t, path, root, id, before) && id != 0 && id in t.condById && id !in before
    ensures Simple(t, path + [id]) && (path + [id])[0] == root
    ensures forall i :: 0 <= i < |path + [id]| ==> (path + [id])[i] in before + {id}
  {
  }

  /** A condition left out at the cutoff is no condition of the table, or was seen. */
  lemma NothingLost(t: Tables, path: seq<int>, root: int, id: int, before: set<int>)
    requires Stack(t, path, root, id, before) && Shallow(t, root, |path|)
    ensures id in t.condById ==> id in before + {0}
  {
    if id in t.condById && id !in before + {0} {
      StackGrows(t, path, root, id, before);
    }
  }

  lemma {:induction false} ResolvesFully(t: Tables, id: int, depth: nat, before: set<int>, after: set<int>,
                                         path: seq<int>, root: int)
    requires Resolves(t, id, depth, before, after)
    requires Stack(t, path, root, id, before) && |path| == depth <= MAX_RESOLVE_DEPTH + 1
    requires Shallow(t, root, MAX_RESOLVE_DEPTH + 1)
    ensures Explored(t, before, after) && (id in t.condById ==> id in after + {0})
    decreases if depth > MAX_RESOLVE_DEPTH then 0 else MAX_RESOLVE_DEPTH + 1 - depth, 1, 0
  {
    if depth > MAX_RESOLVE_DEPTH {
      NothingLost(t, path, root, id, before);
    } else if !Stops(id, depth, before) && Recurses(t, id) {
      var group := t.Group(t.condById[id]);
      var order :| Lists(order, group.Keys) && ResolvesGroup(t, group, order, depth, before + {id}, after);
      StackGrows(t, path, root, id, before);
      GroupFully(t, order, depth, before + {id}, after, path + [id], root);
      assert Followed(t, id, after);
    }
  }

  lemma {:induction false} GroupFully(t: Tables, order: seq<int>, depth: nat, before: set<int>, after: set<int>,
                                      path: seq<int>, root: int)
    requires depth <= MAX_RESOLVE_DEPTH && |path| == depth + 1 && Recurses(t, path[depth])
    requires Simple(t, path) && path[0] == root && forall i :: 0 <= i < |path| ==> path[i] in before
    requires forall j :: 0 <= j < |order| ==> order[j] in t.Group(t.condById[path[depth]])
    requires ResolvesGroup(t, t.Group(t.condById[path[depth]]), order, depth, before, after)
    requires Shallow(t, root, MAX_RESOLVE_DEPTH + 1)
    ensures Explored(t, before, after)
    ensures forall j :: 0 <= j < |order| ==>
      var child := ToInt32(t.Group(t.condById[path[depth]])[order[j]]);
      child in t.condById ==> child in after + {0}
    decreases MAX_RESOLVE_DEPTH + 1 - depth, 0, |order|
  {
    if order != [] {
      var n := |order| - 1;
      var group := t.Group(t.condById[path[depth]]);
      var child := ToInt32(group[order[n]]);
      var mid :| ResolvesGroup(t, group, order[..n], depth, before, mid) && Resolves(t, child, depth + 1, mid, after);
      GroupFully(t, order[..n], depth, before, mid, path, root);
      ValueIsChild(t, path[depth], order[n]);
      ResolvesFully(t, child, depth + 1, mid, after, path, root);
      ExploredTrans(t, before, mid, after);
      forall j | 0 <= j < |order| && ToInt32(group[order[j]]) in t.condById
        ensures ToInt32(group[order[j]]) in after + {0}
      {
        assert j < n ==> order[..n][j] == order[j];
      }
    }
  }

  ghost predicate RootsIn(t: Tables, gimmicks: seq<Gimmick>, seen: set<int>) {
    forall g :: g in gimmicks && g.IsHiddenStory() && g.clearConditionId in t.condById ==>
      g.clearConditionId in seen + {0}
  }

  lemma {:induction false} SeesFully(t: Tables, gimmicks: seq<Gimmick>, seen: set<int>)
    requires Sees(t, gimmicks, seen) && AllShallow(t, gimmicks, MAX_RESOLVE_DEPTH + 1)
    ensures Explored(t, {}, seen) && RootsIn(t, gimmicks, seen)
  {
    if gimmicks != [] {
      var n := |gimmicks| - 1;
      var g := gimmicks[n];
      assert gimmicks == gimmicks[..n] + [g];
      var before :| Sees(t, gimmicks[..n], before) &&
        if g.IsHiddenStory() then Resolves(t, g.clearConditionId, 0, before, seen) else seen == before;
      SeesFully(t, gimmicks[..n], before);
      if g.IsHiddenStory() {
        ResolvesFully(t, g.clearConditionId, 0, before, seen, [], g.clearConditionId);
        ExploredTrans(t, {}, before, seen);
      }
    }
  }

  lemma {:induction false} FollowedHoldsPaths(t: Tables, seen: set<int>, id: int, x: int, n: nat)
    requires Explored(t, {}, seen) && id in seen && x in t.condById && PathTo(t, id, x, n)
    ensures x in seen
    decreases n
  {
    if n > 0 {
      var c :| c in t.Children(id) && PathTo(t, c, x, n - 1);
      assert id in seen - {} && Followed(t, id, seen);
      assert n > 1 ==> t.Children(c) != {};
      assert c in t.Children(id) * t.condById.Keys;
      FollowedHoldsPaths(t, seen, c, x, n - 1);
    }
  }

  lemma NeededIsSeen(t: Tables, gimmicks: seq<Gimmick>, seen: set<int>, x: int)
    requires RootsIn(t, gimmicks, seen) && Explored(t, {}, seen)
    requires Needed(t, gimmicks, x) && x in t.condById
    ensures x in seen
  {
    var g :| g in gimmicks && g.IsHiddenStory() && Reachable(t, g.clearConditionId, x);
    var n: nat :| PathTo(t, g.clearConditionId, x, n);
    FollowedHoldsPaths(t, seen, g.clearConditionId, x, n);
  }

  /** Every requirement below a hidden-story clear condition is among those gathered. */
  ghost predicate AllGathered(t: Tables, gimmicks: seq<Gimmick>, missions: set<int>,
                              questMissions: set<QuestMissionKey>)
  {
    forall x :: Needed(t, gimmicks, x) ==>
      (t.MissionAt(x).Some? ==> t.MissionAt(x).value in missions) &&
      (t.QuestMissionAt(x).Some? ==> t.QuestMissionAt(x).value in questMissions)
  }

  /** Every requirement gathered lies near some root. */
  ghost predicate OnlyNear(t: Tables, gimmicks: seq<Gimmick>, missions: set<int>, questMissions: set<QuestMissionKey>) {
    (forall m :: m in missions ==> exists x :: NeededNear(t, gimmicks, x) && t.MissionAt(x) == Some(m)) &&
    forall k :: k in questMissions ==> exists x :: NeededNear(t, gimmicks, x) && t.QuestMissionAt(x) == Some(k)
  }

  lemma GathersOnlyNear(t: Tables, gimmicks: seq<Gimmick>, missions: set<int>, questMissions: set<QuestMissionKey>)
    requires Gathers(t, gimmicks, missions, questMissions)
    ensures OnlyNear(t, gimmicks, missions, questMissions)
  {
    var seen :| Sees(t, gimmicks, seen) && missions == MissionsOf(t, seen) && questMissions == QuestMissionsOf(t, seen);
    forall x | x in seen ensures NeededNear(t, gimmicks, x) {
      SeesNear(t, gimmicks, seen, x);
    }
  }

  /** Whatever the visiting order, nothing is lost while simple paths have at most 17 conditions. */
  lemma GathersAll(t: Tables, gimmicks: seq<Gimmick>, missions: set<int>, questMissions: set<QuestMissionKey>)
    requires Gathers(t, gimmicks, missions, questMissions) && AllShallow(t, gimmicks, MAX_RESOLVE_DEPTH + 1)
    ensures AllGathered(t, gimmicks, missions, questMissions)
  {
    var seen :| Sees(t, gimmicks, seen) && missions == MissionsOf(t, seen) && questMissions == QuestMissionsOf(t, seen);
    SeesFully(t, gimmicks, seen);
    forall x | Needed(t, gimmicks, x) && x in t.condById ensures x in seen {
      NeededIsSeen(t, gimmicks, seen, x);
    }
  }

  lemma {:induction false} PathSize(path: seq<int>)
    requires forall i, j :: 0 <= i < j < |path| ==> path[i] != path[j]
    ensures |set x | x in path| == |path|
  {
    if path != [] {
      var n := |path| - 1;
      PathSize(path[..n]);
      assert (set x | x in path) == (set x | x in path[..n]) + {path[n]};
    }
  }

  /** A table of at most n conditions has no longer simple path. */
  lemma ShallowBySize(t: Tables, root: int, n: nat)
    requires |t.condById.Keys - {0}| <= n
    ensures Shallow(t, root, n)
  {
    forall path | Simple(t, path) && path != [] && path[0] == root ensures |path| <= n {
      PathSize(path);
      SubsetSize((set x | x in path), t.condById.Keys - {0});
    }
  }

  /** Conditions nested at most b deep have no simple path of more than b + 1. */
  lemma {:induction false} ShallowByDepth(t: Tables, path: seq<int>, b: nat)
    requires Simple(t, path) && path != [] && Within(t, path[0], b)
    ensures |path| <= b + 1
    decreases |path|
  {
    if |path| > 1 {
      assert path[1] in t.Children(path[0]);
      ShallowByDepth(t, path[1..], b - 1);
    }
  }

  // ---------------------------------------------------------------------------
  // The bound is exact
  // ---------------------------------------------------------------------------

  /** AND-chain 1 -> ... -> n whose last condition asks for mission 1, as the collector indexes it. */
  function MissionChain(n: nat): Tables {
    Tables(
      map id | id in UpTo(n) :: Condition(if id == n then FUNCTION_MISSION_CLEAR else FUNCTION_RECURSION, 1, id),
      map g | g in UpTo(n) :: map[1 := if g == n then 1 else g + 1])
  }

  /** The same table as the resolver indexes it. */
  function MissionChainResolver(n: nat): Resolver {
    Resolver(map[], MissionChain(n).condById,
             map g | g in UpTo(n) :: [GroupValue(1, if g == n then 1 else g + 1)], map[], map[])
  }

  lemma MissionChainNode(n: nat, id: int)
    requires 1 <= id <= n < 0x8000_0000
    ensures MissionChain(n).Children(id) == if id == n then {} else {id + 1}
    ensures MissionChain(n).MissionAt(id) == if id == n then Some(1) else None
  {
    var t := MissionChain(n);
    var group := t.Group(t.condById[id]);
    assert group == map[1 := if id == n then 1 else id + 1];
    if id < n {
      assert ToInt32(group[1]) in t.Children(id);
    }
  }

  lemma {:induction false} MissionChainPath(n: nat, id: int, x: int, k: nat)
    requires 1 <= id <= n < 0x8000_0000
    ensures PathTo(MissionChain(n), id, x, k) <==> x == id + k <= n
    decreases k
  {
    MissionChainNode(n, id);
    if k > 0 && id < n {
      MissionChainPath(n, id + 1, x, k - 1);
    }
  }

  lemma MissionChainStep(n: nat, user: User, id: int, k: nat)
    requires 1 <= id <= n < 0x8000_0000 && k > 0
    ensures id in Level(MissionChainResolver(n), user, k) <==>
      if id == n then user.MissionCleared(1) else id + 1 in Level(MissionChainResolver(n), user, k - 1)
  {
    var r := MissionChainResolver(n);
    var c := r.conditionsById[id];
    var v := r.Values(c)[0];
    if id == n {
      assert r.LeafHolds(c, user) <==> user.MissionCleared(1);
    } else {
      assert r.Values(c) == [v] && Sub(v) == id + 1;
    }
  }

  lemma {:induction false} MissionChainLevel(n: nat, user: User, id: int, k: nat)
    requires 1 <= id <= n < 0x8000_0000
    ensures id in Level(MissionChainResolver(n), user, k) <==> k >= n - id + 1 && user.MissionCleared(1)
    decreases k
  {
    if k > 0 {
      MissionChainStep(n, user, id, k);
      if id < n {
        MissionChainLevel(n, user, id + 1, k - 1);
      }
    }
  }

  /** The conditions from a to b. */
  function Span(a: int, b: int): (s: set<int>)
    ensures forall x :: x in s <==> a <= x <= b
    decreases b - a + 1
  {
    if a > b then {} else {a} + Span(a + 1, b)
  }

  /** Condition id recurses into id + 1 alone, up to n, which is a leaf. */
  ghost predicate IsChain(t: Tables, n: nat) {
    forall id :: 1 <= id <= n ==>
      if id == n then !Recurses(t, id) else Recurses(t, id) && t.Group(t.condById[id]) == map[1 := id + 1]
  }

  lemma ChainIsChain(n: nat)
    ensures IsChain(MissionChain(n), n)
  {
    var t := MissionChain(n);
    forall id | 1 <= id < n ensures Recurses(t, id) && t.Group(t.condById[id]) == map[1 := id + 1] {
    }
  }

  lemma OnlyKey(order: seq<int>)
    requires Lists(order, {1})
    ensures order == [1]
  {
    assert (set x | x in order) == {1};
    PathSize(order);
  }

  lemma ChainStep(t: Tables, n: nat, id: int, depth: nat, before: set<int>, after: set<int>)
    requires 1 <= id < n < 0x8000_0000 && depth <= MAX_RESOLVE_DEPTH && id !in before
    requires IsChain(t, n) && Resolves(t, id, depth, before, after)
    ensures Resolves(t, id + 1, depth + 1, before + {id}, after)
  {
    var group := t.Group(t.condById[id]);
    assert group == map[1 := id + 1];
    var order :| Lists(order, group.Keys) && ResolvesGroup(t, group, order, depth, before + {id}, after);
    OnlyKey(order);
    OneStep(t, group, order, depth, before + {id}, after);
  }

  lemma OneStep(t: Tables, group: map<int, int>, order: seq<int>, depth: nat, before: set<int>, after: set<int>)
    requires depth <= MAX_RESOLVE_DEPTH && order == [1] && 1 in group
    requires ResolvesGroup(t, group, order, depth, before, after)
    ensures Resolves(t, ToInt32(group[1]), depth + 1, before, after)
  {
    var mid :| ResolvesGroup(t, group, order[..|order| - 1], depth, before, mid) &&
      Resolves(t, ToInt32(group[order[|order| - 1]]), depth + 1, mid, after);
  }

  /** Down a chain the walk takes everything from id to the cutoff. */
  lemma {:induction false} ChainWalk(t: Tables, n: nat, id: int, depth: nat, before: set<int>, after: set<int>)
    requires 1 <= id <= n < 0x8000_0000 && depth <= MAX_RESOLVE_DEPTH + 1 && forall x :: x in before ==> x < id
    requires IsChain(t, n) && Resolves(t, id, depth, before, after)
    ensures after == before + Span(id, Min(n, id + MAX_RESOLVE_DEPTH - depth))
    decreases MAX_RESOLVE_DEPTH + 1 - depth
  {
    var last := Min(n, id + MAX_RESOLVE_DEPTH - depth);
    if depth <= MAX_RESOLVE_DEPTH && id < n {
      ChainStep(t, n, id, depth, before, after);
      ChainWalk(t, n, id + 1, depth + 1, before + {id}, after);
      assert before + Span(id, last) == before + {id} + Span(id + 1, last);
    }
  }

  lemma ChainMission(n: nat, seen: set<int>)
    requires 1 <= n < 0x8000_0000 && seen <= Span(1, n)
    ensures 1 in MissionsOf(MissionChain(n), seen) <==> n in seen
  {
    forall x | x in seen ensures MissionChain(n).MissionAt(x) == if x == n then Some(1) else None {
      MissionChainNode(n, x);
    }
  }

  /**
   * Below an AND-chain of n conditions the leaf's mission is gathered exactly
   * when n <= MAX_RESOLVE_DEPTH + 1, while up to MAX_LEVELS conditions the
   * evaluator insists on that mission.
   */
  lemma DeepLeafIsMissed(n: nat, missions: set<int>, questMissions: set<QuestMissionKey>, user: User)
    requires 1 <= n <= MAX_LEVELS
    requires Gathers(MissionChain(n), [Gimmick(GIMMICK_TYPE_REPORT, 1)], missions, questMissions)
    ensures 1 in missions <==> n <= MAX_RESOLVE_DEPTH + 1
    ensures 1 in Level(MissionChainResolver(n), user, MAX_LEVELS) <==> user.MissionCleared(1)
  {
    var t, gimmicks := MissionChain(n), [Gimmick(GIMMICK_TYPE_REPORT, 1)];
    MissionChainLevel(n, user, 1, MAX_LEVELS);
    var seen :| Sees(t, gimmicks, seen) && missions == MissionsOf(t, seen) && questMissions == QuestMissionsOf(t, seen);
    ChainIsChain(n);
    ChainSeen(t, n, seen);
    ChainMission(n, seen);
  }

  lemma ChainSeen(t: Tables, n: nat, seen: set<int>)
    requires 1 <= n < 0x8000_0000 && IsChain(t, n) && Sees(t, [Gimmick(GIMMICK_TYPE_REPORT, 1)], seen)
    ensures seen == Span(1, Min(n, MAX_RESOLVE_DEPTH + 1))
  {
    var gimmicks := [Gimmick(GIMMICK_TYPE_REPORT, 1)];
    var before :| Sees(t, gimmicks[..0], before) && Resolves(t, 1, 0, before, seen);
    ChainWalk(t, n, 1, 0, before, seen);
  }

  lemma LeafDistance(n: nat, k: nat)
    requires 1 <= k <= n < 0x8000_0000
    ensures Near(MissionChain(n), k, n, MAX_RESOLVE_DEPTH) <==> n - k <= MAX_RESOLVE_DEPTH
  {
    MissionChainPath(n, k, n, n - k);
    if d: nat :| d <= MAX_RESOLVE_DEPTH && PathTo(MissionChain(n), k, n, d) {
      MissionChainPath(n, k, n, d);
    }
  }

  /**
   * One shallow root is not enough: with a second gimmick at condition k of the
   * chain the leaf is still lost while the walk from condition 1 reaches k first,
   * however near k is to the leaf.
   */
  lemma NearLeafIsLost(n: nat, k: nat, missions: set<int>, questMissions: set<QuestMissionKey>)
    requires 1 <= k <= n < 0x8000_0000
    requires Gathers(MissionChain(n), [Gimmick(GIMMICK_TYPE_REPORT, 1), Gimmick(GIMMICK_TYPE_REPORT, k)],
                     missions, questMissions)
    ensures 1 in missions <==> n <= MAX_RESOLVE_DEPTH + 1 || (k > MAX_RESOLVE_DEPTH + 1 && n - k <= MAX_RESOLVE_DEPTH)
    ensures Near(MissionChain(n), k, n, MAX_RESOLVE_DEPTH) <==> n - k <= MAX_RESOLVE_DEPTH
  {
    var t, gimmicks := MissionChain(n), [Gimmick(GIMMICK_TYPE_REPORT, 1), Gimmick(GIMMICK_TYPE_REPORT, k)];
    var seen :| Sees(t, gimmicks, seen) && missions == MissionsOf(t, seen) && questMissions == QuestMissionsOf(t, seen);
    LeafDistance(n, k);
    ChainIsChain(n);
    ChainSeenTwice(t, n, k, seen);
    ChainMission(n, seen);
  }

  lemma ChainSeenTwice(t: Tables, n: nat, k: nat, seen: set<int>)
    requires 1 <= k <= n < 0x8000_0000 && IsChain(t, n)
    requires Sees(t, [Gimmick(GIMMICK_TYPE_REPORT, 1), Gimmick(GIMMICK_TYPE_REPORT, k)], seen)
    ensures seen <= Span(1, n)
    ensures n in seen <==> n <= MAX_RESOLVE_DEPTH + 1 || (k > MAX_RESOLVE_DEPTH + 1 && n - k <= MAX_RESOLVE_DEPTH)
  {
    var gimmicks := [Gimmick(GIMMICK_TYPE_REPORT, 1), Gimmick(GIMMICK_TYPE_REPORT, k)];
    var before :| Sees(t, gimmicks[..1], before) && Resolves(t, k, 0, before, seen);
    assert gimmicks[..1] == [Gimmick(GIMMICK_TYPE_REPORT, 1)];
    ChainSeen(t, n, before);
    if k <= MAX_RESOLVE_DEPTH + 1 {
      assert k in before;
    } else {
      ChainWalk(t, n, k, 0, before, seen);
    }
  }

  /** Whatever the visiting order, the collector gathers every requirement. */
  ghost predicate Complete(t: Tables, gimmicks: seq<Gimmick>) {
    forall missions, questMissions :: Gathers(t, gimmicks, missions, questMissions) ==>
      AllGathered(t, gimmicks, missions, questMissions)
  }

  lemma ChainNeedsLeaf(n: nat)
    requires 1 <= n < 0x8000_0000
    ensures Needed(MissionChain(n), [Gimmick(GIMMICK_TYPE_REPORT, 1)], n) && MissionChain(n).MissionAt(n) == Some(1)
  {
    var g := Gimmick(GIMMICK_TYPE_REPORT, 1);
    MissionChainPath(n, 1, n, n - 1);
    MissionChainNode(n, n);
    assert g in [g] && Reachable(MissionChain(n), g.clearConditionId, n);
  }

  /** A longer chain has an outcome without the mission of its leaf. */
  lemma LeafLost(n: nat)
    requires MAX_RESOLVE_DEPTH + 1 < n <= MAX_LEVELS
    ensures exists missions, questMissions ::
      Gathers(MissionChain(n), [Gimmick(GIMMICK_TYPE_REPORT, 1)], missions, questMissions) && 1 !in missions
  {
    var t, gimmicks := MissionChain(n), [Gimmick(GIMMICK_TYPE_REPORT, 1)];
    SomeSeen(t, gimmicks);
    var seen :| Sees(t, gimmicks, seen);
    ChainIsChain(n);
    ChainSeen(t, n, seen);
    ChainMission(n, seen);
    assert Gathers(t, gimmicks, MissionsOf(t, seen), QuestMissionsOf(t, seen));
  }

  lemma ChainSize(n: nat)
    ensures |MissionChain(n).condById.Keys - {0}| == n
  {
    assert MissionChain(n).condById.Keys - {0} == UpTo(n);
  }

  lemma LongChainIsIncomplete(n: nat)
    requires MAX_RESOLVE_DEPTH + 1 < n <= MAX_LEVELS
    ensures |MissionChain(n).condById.Keys - {0}| == n && !Complete(MissionChain(n), [Gimmick(GIMMICK_TYPE_REPORT, 1)])
  {
    ChainSize(n);
    ChainNeedsLeaf(n);
    LeafLost(n);
    var missions, questMissions :|
      Gathers(MissionChain(n), [Gimmick(GIMMICK_TYPE_REPORT, 1)], missions, questMissions) && 1 !in missions;
    assert !AllGathered(MissionChain(n), [Gimmick(GIMMICK_TYPE_REPORT, 1)], missions, questMissions);
  }

  /**
   * The walk's cutoff loses nothing exactly for tables of at most 17 conditions:
   * up to that size every requirement of every table, cyclic or not, is gathered
   * in every visiting order, and every larger size has a table that loses one.
   */
  lemma CompleteExactForSize(size: nat)
    ensures size <= MAX_RESOLVE_DEPTH + 1 <==>
      forall t: Tables, gimmicks: seq<Gimmick> :: |t.condById.Keys - {0}| <= size ==> Complete(t, gimmicks)
  {
    if size <= MAX_RESOLVE_DEPTH + 1 {
      forall t: Tables, gimmicks: seq<Gimmick>, missions, questMissions
        | |t.condById.Keys - {0}| <= size && Gathers(t, gimmicks, missions, questMissions)
        ensures AllGathered(t, gimmicks, missions, questMissions)
      {
        forall g | g in gimmicks && g.IsHiddenStory() ensures Shallow(t, g.clearConditionId, MAX_RESOLVE_DEPTH + 1) {
          ShallowBySize(t, g.clearConditionId, MAX_RESOLVE_DEPTH + 1);
        }
        GathersAll(t, gimmicks, missions, questMissions);
      }
    } else {
      LongChainIsIncomplete(MAX_RESOLVE_DEPTH + 2);
    }
  }

  /** The same bound, on the simple paths below the clear conditions instead of the size of the table. */
  lemma CompleteExactForPaths(bound: nat)
    ensures bound <= MAX_RESOLVE_DEPTH + 1 <==>
      forall t: Tables, gimmicks: seq<Gimmick> :: AllShallow(t, gimmicks, bound) ==> Complete(t, gimmicks)
  {
    if bound <= MAX_RESOLVE_DEPTH + 1 {
      forall t: Tables, gimmicks: seq<Gimmick>, missions, questMissions
        | AllShallow(t, gimmicks, bound) && Gathers(t, gimmicks, missions, questMissions)
        ensures AllGathered(t, gimmicks, missions, questMissions)
      {
        GathersAll(t, gimmicks, missions, questMissions);
      }
    } else {
      LongChainIsIncomplete(MAX_RESOLVE_DEPTH + 2);
      ShallowBySize(MissionChain(MAX_RESOLVE_DEPTH + 2), 1, bound);
    }
  }

  // ---------------------------------------------------------------------------
  // Loading the tables
  // ---------------------------------------------------------------------------

  /** The collector's indexes of the same tables the resolver was loaded from. */
  ghost predicate Indexed(t: Tables, conditions: seq<ConditionRow>, values: seq<ValueRow>) {
    t.condById == ById(conditions) && forall g, i :: At(t.valuesByGroup, g, i) == AtKey(ByKey(values), g, i)
  }

  function At(valuesByGroup: map<int, map<int, int>>, g: int, i: int): Option<int> {
    if g in valuesByGroup && i in valuesByGroup[g] then Some(valuesByGroup[g][i]) else None
  }

  function AtKey(byKey: map<(int, int), int>, g: int, i: int): Option<int> {
    if (g, i) in byKey then Some(byKey[(g, i)]) else None
  }

  method LoadTables(conditions: seq<ConditionRow>, values: seq<ValueRow>) returns (t: Tables)
    ensures Indexed(t, conditions, values)
  {
    var condById: map<int, Condition> := map[];
    for i := 0 to |conditions|
      invariant condById == ById(conditions[..i])
    {
      assert conditions[..i + 1][..i] == conditions[..i];
      condById := condById[conditions[i].conditionId := conditions[i].condition];
    }
    assert conditions[..|conditions|] == conditions;
    var valuesByGroup: map<int, map<int, int>> := map[];
    for k := 0 to |values|
      invariant forall g, i :: At(valuesByGroup, g, i) == AtKey(ByKey(values[..k]), g, i)
    {
      assert values[..k + 1][..k] == values[..k];
      var row := values[k];
      var group := if row.groupId in valuesByGroup then valuesByGroup[row.groupId] else map[];
      ghost var before := valuesByGroup;
      valuesByGroup := valuesByGroup[row.groupId := group[row.groupIndex := row.value]];
      forall g, i ensures At(valuesByGroup, g, i) == AtKey(ByKey(values[..k + 1]), g, i) {
        assert At(before, g, i) == AtKey(ByKey(values[..k]), g, i);
      }
    }
    assert values[..|values|] == values;
    t := Tables(condById, valuesByGroup);
  }
}
