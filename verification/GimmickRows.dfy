/** Which gimmick schedules a user gets rows for. */
module GimmickRows {
  import opened Common
  import opened Sorting
  import Conditions
  import opened GimmickSchedules

  // The schedules of internal/masterdata/gimmick.go and the rows of internal/service/gimmick.go
  // once more, on the rows of the tables: gimmick types by number, 9 and 10 being the hidden
  // stories, a cleared quest by its state 2, and the cap of 1000 rows.

  /** The type of a sequence; 0 when it has none. */
  function TypeOf(types: map<int, int>, sequenceId: int): int {
    if sequenceId in types then types[sequenceId] else 0
  }

  /** Trim priority by type number, the lower the sooner. */
  const PRIORITIES: map<int, int> :=
    map[9 := 0, 10 := 1, 1 := 2, 3 := 3, 6 := 3, 4 := 4, 5 := 5, 7 := 6, 11 := 6, 2 := 7, 8 := 7]

  function Priority(gimmickType: int): int {
    if gimmickType in PRIORITIES then PRIORITIES[gimmickType] else 8
  }

  lemma RankIsPriority(gimmickType: int)
    ensures TypeRank(gimmickType) == Priority(gimmickType)
  {
  }

  /** A row is not beaten by another: one still running beats an expired one, then the earlier start and lower id. */
  ghost predicate Unbeaten(a: Row, b: Row, now: int) {
    (a.endDatetime > now && b.endDatetime <= now) ||
    ((a.endDatetime > now <==> b.endDatetime > now) &&
     (a.startDatetime < b.startDatetime || (a.startDatetime == b.startDatetime && a.scheduleId <= b.scheduleId)))
  }

  /** A row that none of its sequence beats. */
  ghost predicate Best(rows: seq<Row>, r: Row, now: int) {
    r in rows && forall other :: other in rows && other.firstSequenceId == r.firstSequenceId ==> Unbeaten(r, other, now)
  }

  /** Each sequence that occurs keeps the entry of a row that none of its sequence beats, with that row's fields. */
  lemma PickedIsBest(rows: seq<Row>, now: int, resolver: Conditions.Resolver, types: map<int, int>,
                     best: map<int, Entry>, s: int)
    requires Picked(rows, now, resolver, types, best)
    ensures s in best <==> exists r :: r in rows && r.firstSequenceId == s
    ensures s in best ==>
      exists r :: Best(rows, r, now) && r.firstSequenceId == s && best[s] == ToEntry(r, resolver, types)
  {
    forall r | r in rows ensures r.firstSequenceId in best &&
        NoWorse(best[r.firstSequenceId], ToEntry(r, resolver, types), now) {
      var i :| 0 <= i < |rows| && rows[i] == r;
    }
    if s in best {
      assert OfRow(rows, s, resolver, types, best[s]);
      var i :| 0 <= i < |rows| && rows[i].firstSequenceId == s && best[s] == ToEntry(rows[i], resolver, types);
      assert rows[i] in rows && Best(rows, rows[i], now);
    }
  }

  /** The fields a loaded entry has. */
  lemma EntryIs(r: Row, resolver: Conditions.Resolver, types: map<int, int>)
    ensures
      var e := ToEntry(r, resolver, types);
      e.scheduleId == r.scheduleId && e.firstSequenceId == r.firstSequenceId && e.startDatetime == r.startDatetime &&
      e.endDatetime == r.endDatetime && (e.isHidden <==> TypeOf(types, r.firstSequenceId) in {9, 10}) &&
      e.rank == Priority(TypeOf(types, r.firstSequenceId)) &&
      e.requiredQuestId ==
        if r.releaseConditionId != 0 && r.releaseConditionId in resolver.requiredQuestByCondId
        then resolver.requiredQuestByCondId[r.releaseConditionId] else 0
  {
    RankIsPriority(TypeOf(types, r.firstSequenceId));
  }

  /** The list is by priority of the sequences' types, and by schedule id within one priority. */
  lemma ListedByPriority(rows: seq<Row>, now: int, resolver: Conditions.Resolver, types: map<int, int>,
                         best: map<int, Entry>, entries: seq<Entry>, i: nat, j: nat)
    requires Picked(rows, now, resolver, types, best) && Prioritised(best, entries) && i < j < |entries|
    ensures
      var p, q := Priority(TypeOf(types, entries[i].firstSequenceId)),
                  Priority(TypeOf(types, entries[j].firstSequenceId));
      p < q || (p == q && entries[i].scheduleId <= entries[j].scheduleId)
  {
    var a, b := entries[i], entries[j];
    assert a in entries && b in entries && Before(a, b);
    PickedIsBest(rows, now, resolver, types, best, a.firstSequenceId);
    PickedIsBest(rows, now, resolver, types, best, b.firstSequenceId);
    var r :| Best(rows, r, now) && r.firstSequenceId == a.firstSequenceId && a == ToEntry(r, resolver, types);
    var t :| Best(rows, t, now) && t.firstSequenceId == b.firstSequenceId && b == ToEntry(t, resolver, types);
    EntryIs(r, resolver, types);
    EntryIs(t, resolver, types);
  }

  /** Started, and a hidden story, or without a required quest, or with that quest cleared. */
  ghost predicate Open(r: Row, resolver: Conditions.Resolver, types: map<int, int>, user: Conditions.User, now: int) {
    r.startDatetime <= now &&
    (TypeOf(types, r.firstSequenceId) in {9, 10} || r.releaseConditionId == 0 ||
     r.releaseConditionId !in resolver.requiredQuestByCondId ||
     resolver.requiredQuestByCondId[r.releaseConditionId] == 0 ||
     (resolver.requiredQuestByCondId[r.releaseConditionId] in user.quests &&
      user.quests[resolver.requiredQuestByCondId[r.releaseConditionId]] == 2))
  }

  lemma ActiveIsOpen(r: Row, resolver: Conditions.Resolver, types: map<int, int>, user: Conditions.User, now: int)
    ensures Active(ToEntry(r, resolver, types), user, now) <==> Open(r, resolver, types, user, now)
  {
    EntryIs(r, resolver, types);
  }

  /** A key is active only as that of a best row that is open, and with unique ids each such key is. */
  lemma ActiveByRows(rows: seq<Row>, loaded: int, resolver: Conditions.Resolver, types: map<int, int>,
                     best: map<int, Entry>, entries: seq<Entry>, user: Conditions.User, now: int, key: SequenceKey)
    requires UniqueIds(rows) && Picked(rows, loaded, resolver, types, best) && Prioritised(best, entries)
    ensures key in ActiveKeys(entries, user, now) <==>
      exists r :: Best(rows, r, loaded) && Open(r, resolver, types, user, now) &&
        key == SequenceKey(r.scheduleId, r.firstSequenceId)
  {
    ActiveKeysHold(entries, user, now);
    if key in ActiveKeys(entries, user, now) {
      var i :| 0 <= i < |entries| && Active(entries[i], user, now) && Keys(entries)[i] == key;
      var e := entries[i];
      assert e in entries;
      PickedIsBest(rows, loaded, resolver, types, best, e.firstSequenceId);
      var r :| Best(rows, r, loaded) && r.firstSequenceId == e.firstSequenceId && e == ToEntry(r, resolver, types);
      ActiveIsOpen(r, resolver, types, user, now);
      EntryIs(r, resolver, types);
    }
    forall r | Best(rows, r, loaded) && Open(r, resolver, types, user, now) &&
        key == SequenceKey(r.scheduleId, r.firstSequenceId)
      ensures key in ActiveKeys(entries, user, now)
    {
      PickedIsBest(rows, loaded, resolver, types, best, r.firstSequenceId);
      var e := best[r.firstSequenceId];
      var t :| Best(rows, t, loaded) && t.firstSequenceId == r.firstSequenceId && e == ToEntry(t, resolver, types);
      assert Unbeaten(r, t, loaded) && Unbeaten(t, r, loaded);
      assert t == r;
      ActiveIsOpen(r, resolver, types, user, now);
      EntryIs(r, resolver, types);
      assert e in entries;
      var i :| 0 <= i < |entries| && entries[i] == e;
      assert Keys(entries)[i] == key;
    }
  }

  /**
   * A call keeps a row exactly when it is active or cleared, as it was; every
   * other row it leaves is a new one for an active key, not cleared. No active
   * key lacks a row unless there are 1000, and none is added beyond that.
   */
  lemma RowsAfterInit(mine: Sequences, active: seq<SequenceKey>, k: SequenceKey)
    ensures
      var after := Initialised(mine, active);
      (k in mine && (k in active || mine[k].isCleared) ==> k in after && after[k] == mine[k]) &&
      (k in after && !(k in mine && (k in active || mine[k].isCleared)) ==>
       k in active && after[k] == SequenceState(false, 0)) &&
      (k in active && k !in after ==> |after| >= 1000) &&
      |after| <= Max(|mine|, 1000)
  {
    FilledHolds(Kept(mine, active), active);
    SubsetSize(Kept(mine, active).Keys, mine.Keys);
  }
}
