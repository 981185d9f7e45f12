/** Gimmick schedules and user rows (internal/masterdata/gimmick.go). */
module GimmickSchedules {
  import opened Common
  import opened Sorting
  import Conditions

  // One schedule is chosen per gimmick sequence when the catalog loads, the chosen ones
  // are put in priority order, and the active ones are listed for a user at a time. A
  // user's table of rows is filled from that list up to a cap
  // (internal/service/gimmick.go).

  const GIMMICK_TYPE_CAGE_TREASURE_HUNT := 1
  const GIMMICK_TYPE_CAGE_INTERVAL_DROP_ITEM := 2
  const GIMMICK_TYPE_BROKEN_OBELISK := 3
  const GIMMICK_TYPE_IRON_GRILL := 4
  const GIMMICK_TYPE_RADIO_MESSAGE := 5
  const GIMMICK_TYPE_FIRST_BROKEN_OBELISK := 6
  const GIMMICK_TYPE_MAP_ONLY_CAGE_TREASURE_HUNT := 7
  const GIMMICK_TYPE_MAP_ONLY_CAGE_INTERVAL_DROP := 8
  const GIMMICK_TYPE_REPORT := 9
  const GIMMICK_TYPE_CAGE_MEMORY := 10
  const GIMMICK_TYPE_MAP_ONLY_HIDE_OBELISK := 11

  /** Priority when the list is trimmed: hidden stories first, birds last. */
  function TypeRank(gimmickType: int): int {
    match gimmickType
    case GIMMICK_TYPE_REPORT => 0
    case GIMMICK_TYPE_CAGE_MEMORY => 1
    case GIMMICK_TYPE_CAGE_TREASURE_HUNT => 2
    case GIMMICK_TYPE_BROKEN_OBELISK => 3
    case GIMMICK_TYPE_FIRST_BROKEN_OBELISK => 3
    case GIMMICK_TYPE_IRON_GRILL => 4
    case GIMMICK_TYPE_RADIO_MESSAGE => 5
    case GIMMICK_TYPE_MAP_ONLY_CAGE_TREASURE_HUNT => 6
    case GIMMICK_TYPE_MAP_ONLY_HIDE_OBELISK => 6
    case GIMMICK_TYPE_CAGE_INTERVAL_DROP_ITEM => 7
    case GIMMICK_TYPE_MAP_ONLY_CAGE_INTERVAL_DROP => 7
    case _ => 8
  }

  datatype Row = Row(scheduleId: int, startDatetime: int, endDatetime: int, firstSequenceId: int,
                     releaseConditionId: int)

  datatype Entry = Entry(scheduleId: int, startDatetime: int, endDatetime: int, firstSequenceId: int,
                         requiredQuestId: int, isHidden: bool, rank: int)

  datatype SequenceKey = SequenceKey(scheduleId: int, sequenceId: int)

  /** The loaded form of a row; type 0 stands for a sequence without a type. */
  function ToEntry(r: Row, resolver: Conditions.Resolver, sequenceTypes: map<int, int>): Entry {
    var gimmickType := Count(sequenceTypes, r.firstSequenceId);
    var required := resolver.RequiredQuestId(r.releaseConditionId);
    Entry(r.scheduleId, r.startDatetime, r.endDatetime, r.firstSequenceId,
          if r.releaseConditionId != 0 && required.Some? then required.value else 0,
          gimmickType == GIMMICK_TYPE_REPORT || gimmickType == GIMMICK_TYPE_CAGE_MEMORY,
          TypeRank(gimmickType))
  }

  // ---------------------------------------------------------------------------
  // One schedule per sequence
  // ---------------------------------------------------------------------------

  /** Lexicographic order by (expired, start, schedule id): the pick rule. */
  predicate NoWorse(a: Entry, b: Entry, now: int) {
    var aExpired, bExpired := a.endDatetime <= now, b.endDatetime <= now;
    if aExpired != bExpired then bExpired
    else a.startDatetime < b.startDatetime || (a.startDatetime == b.startDatetime && a.scheduleId <= b.scheduleId)
  }

  ghost predicate UniqueIds(rows: seq<Row>) {
    forall a, b :: a in rows && b in rows && a.scheduleId == b.scheduleId ==> a == b
  }

  /** For each sequence that occurs, an entry of one of its rows that no other row beats. */
  ghost predicate Picked(rows: seq<Row>, now: int, resolver: Conditions.Resolver, sequenceTypes: map<int, int>,
                         best: map<int, Entry>)
  {
    (forall i :: 0 <= i < |rows| ==>
      rows[i].firstSequenceId in best &&
      NoWorse(best[rows[i].firstSequenceId], ToEntry(rows[i], resolver, sequenceTypes), now)) &&
    forall s :: s in best ==> OfRow(rows, s, resolver, sequenceTypes, best[s])
  }

  ghost predicate OfRow(rows: seq<Row>, s: int, resolver: Conditions.Resolver, sequenceTypes: map<int, int>,
                        entry: Entry)
  {
    exists i :: 0 <= i < |rows| && rows[i].firstSequenceId == s && entry == ToEntry(rows[i], resolver, sequenceTypes)
  }

  method PickSchedules(rows: seq<Row>, now: int, resolver: Conditions.Resolver, sequenceTypes: map<int, int>)
    returns (best: map<int, Entry>)
    ensures Picked(rows, now, resolver, sequenceTypes, best)
  {
    best := map[];
    for i := 0 to |rows|
      invariant Picked(rows[..i], now, resolver, sequenceTypes, best)
    {
      var entry := ToEntry(rows[i], resolver, sequenceTypes);
      var keep := false;
      if entry.firstSequenceId in best {
        var existing := best[entry.firstSequenceId];
        var existingFuture := existing.endDatetime > now;
        var entryFuture := entry.endDatetime > now;
        if existingFuture != entryFuture {
          keep := existingFuture;
        } else {
          keep := existing.startDatetime < entry.startDatetime ||
            (existing.startDatetime == entry.startDatetime && existing.scheduleId <= entry.scheduleId);
        }
      }
      PickStep(rows[..i], rows[i], now, resolver, sequenceTypes, best);
      assert rows[..i + 1] == rows[..i] + [rows[i]];
      if !keep {
        best := best[entry.firstSequenceId := entry];
      }
    }
    assert rows[..|rows|] == rows;
  }

  /** One row more: the kept entry stays unless the new one is strictly better. */
  lemma PickStep(rows: seq<Row>, r: Row, now: int, resolver: Conditions.Resolver, sequenceTypes: map<int, int>,
                 best: map<int, Entry>)
    requires Picked(rows, now, resolver, sequenceTypes, best)
    ensures
      var entry := ToEntry(r, resolver, sequenceTypes);
      var s := r.firstSequenceId;
      Picked(rows + [r], now, resolver, sequenceTypes,
             if s in best && NoWorse(best[s], entry, now) then best else best[s := entry])
  {
    var entry := ToEntry(r, resolver, sequenceTypes);
    var s := r.firstSequenceId;
    var after := if s in best && NoWorse(best[s], entry, now) then best else best[s := entry];
    forall t | t in after ensures OfRow(rows + [r], t, resolver, sequenceTypes, after[t]) {
      if t in best && after[t] == best[t] {
        assert OfRow(rows, t, resolver, sequenceTypes, best[t]);
        var i :| 0 <= i < |rows| && rows[i].firstSequenceId == t &&
          best[t] == ToEntry(rows[i], resolver, sequenceTypes);
        assert (rows + [r])[i] == rows[i];
      } else {
        assert (rows + [r])[|rows|] == r;
      }
    }
  }

  /** The choice does not depend on the order of the rows. */
  lemma PickIsOrderFree(a: seq<Row>, b: seq<Row>, now: int, resolver: Conditions.Resolver, sequenceTypes: map<int, int>,
                        bestA: map<int, Entry>, bestB: map<int, Entry>)
    requires multiset(a) == multiset(b) && UniqueIds(a)
    requires Picked(a, now, resolver, sequenceTypes, bestA) && Picked(b, now, resolver, sequenceTypes, bestB)
    ensures bestA == bestB
  {
    forall r ensures r in a <==> r in b {
      assert r in multiset(a) <==> r in multiset(b);
    }
    PickedBeatsAll(a, b, now, resolver, sequenceTypes, bestA, bestB);
    PickedBeatsAll(b, a, now, resolver, sequenceTypes, bestB, bestA);
    forall s | s in bestA ensures bestA[s] == bestB[s] {
      assert OfRow(a, s, resolver, sequenceTypes, bestA[s]) && OfRow(b, s, resolver, sequenceTypes, bestB[s]);
      assert NoWorse(bestA[s], bestB[s], now) && NoWorse(bestB[s], bestA[s], now);
      var i :| 0 <= i < |a| && a[i].firstSequenceId == s && bestA[s] == ToEntry(a[i], resolver, sequenceTypes);
      var j :| 0 <= j < |b| && b[j].firstSequenceId == s && bestB[s] == ToEntry(b[j], resolver, sequenceTypes);
      EquallyGood(bestA[s], bestB[s], now);
      assert a[i] in a && b[j] in b;
      assert a[i] == b[j];
    }
  }

  lemma EquallyGood(a: Entry, b: Entry, now: int)
    requires NoWorse(a, b, now) && NoWorse(b, a, now)
    ensures a.scheduleId == b.scheduleId
  {
  }

  lemma PickedBeatsAll(a: seq<Row>, b: seq<Row>, now: int, resolver: Conditions.Resolver, sequenceTypes: map<int, int>,
                       bestA: map<int, Entry>, bestB: map<int, Entry>)
    requires forall r :: r in b ==> r in a
    requires Picked(a, now, resolver, sequenceTypes, bestA) && Picked(b, now, resolver, sequenceTypes, bestB)
    ensures bestB.Keys <= bestA.Keys
    ensures forall s :: s in bestB ==> NoWorse(bestA[s], bestB[s], now)
  {
    forall s | s in bestB ensures s in bestA && NoWorse(bestA[s], bestB[s], now) {
      assert OfRow(b, s, resolver, sequenceTypes, bestB[s]);
      var j :| 0 <= j < |b| && b[j].firstSequenceId == s && bestB[s] == ToEntry(b[j], resolver, sequenceTypes);
      assert b[j] in a;
      var i :| 0 <= i < |a| && a[i] == b[j];
    }
  }

  // ---------------------------------------------------------------------------
  // Priority order
  // ---------------------------------------------------------------------------

  predicate Before(a: Entry, b: Entry) {
    a.rank < b.rank || (a.rank == b.rank && a.scheduleId <= b.scheduleId)
  }

  /** The chosen entries, each once, in (rank, schedule id) order. */
  ghost predicate Prioritised(best: map<int, Entry>, entries: seq<Entry>) {
    SortedBy(entries, Before) &&
    (forall e :: e in entries <==> e.firstSequenceId in best && best[e.firstSequenceId] == e) &&
    forall i, j :: 0 <= i < j < |entries| ==> entries[i].firstSequenceId != entries[j].firstSequenceId
  }

  method Prioritise(best: map<int, Entry>) returns (entries: seq<Entry>)
    requires forall s :: s in best ==> best[s].firstSequenceId == s
    ensures Prioritised(best, entries)
  {
    var listed: seq<Entry> := [];
    var todo := best.Keys;
    while todo != {}
      invariant todo <= best.Keys
      invariant forall s :: s in best ==> (multiset(listed)[best[s]] == if s in todo then 0 else 1)
      invariant forall e :: e in listed ==> e.firstSequenceId in best && e == best[e.firstSequenceId]
    {
      var s := Choose(todo);
      listed := listed + [best[s]];
      todo := todo - {s};
    }
    entries := Sort(listed, Before);
    EachOnce(best, listed, entries);
  }

  lemma EachOnce(best: map<int, Entry>, listed: seq<Entry>, entries: seq<Entry>)
    requires multiset(entries) == multiset(listed)
    requires forall s :: s in best ==> best[s].firstSequenceId == s && multiset(listed)[best[s]] == 1
    requires forall e :: e in listed ==> e.firstSequenceId in best && e == best[e.firstSequenceId]
    ensures forall e :: e in entries <==> e.firstSequenceId in best && best[e.firstSequenceId] == e
    ensures forall i, j :: 0 <= i < j < |entries| ==> entries[i].firstSequenceId != entries[j].firstSequenceId
  {
    forall e ensures e in entries <==> e.firstSequenceId in best && best[e.firstSequenceId] == e {
      assert e in entries <==> e in multiset(entries);
      assert e in listed <==> e in multiset(listed);
    }
    forall i, j | 0 <= i < j < |entries| ensures entries[i].firstSequenceId != entries[j].firstSequenceId {
      assert entries[i] in multiset(listed) && entries[j] in multiset(listed);
      RepeatIsCounted(entries, i, j);
    }
  }

  lemma RepeatIsCounted(entries: seq<Entry>, i: nat, j: nat)
    requires i < j < |entries|
    ensures entries[i] == entries[j] ==> multiset(entries)[entries[i]] >= 2
  {
    assert entries == entries[..i] + [entries[i]] + entries[i + 1..j] + [entries[j]] + entries[j + 1..];
  }

  /** No other entry comes before a hidden story. */
  lemma HiddenComeFirst(rows: seq<Row>, now: int, resolver: Conditions.Resolver, sequenceTypes: map<int, int>,
                        best: map<int, Entry>, entries: seq<Entry>, i: nat, j: nat)
    requires Picked(rows, now, resolver, sequenceTypes, best) && Prioritised(best, entries)
    requires i < j < |entries| && entries[j].isHidden
    ensures entries[i].isHidden
  {
    var a, b := entries[i], entries[j];
    assert a in entries && b in entries && Before(a, b);
    assert OfRow(rows, a.firstSequenceId, resolver, sequenceTypes, a);
    assert OfRow(rows, b.firstSequenceId, resolver, sequenceTypes, b);
  }

  // ---------------------------------------------------------------------------
  // Active schedules
  // ---------------------------------------------------------------------------

  predicate Active(e: Entry, user: Conditions.User, now: int) {
    now >= e.startDatetime && (e.isHidden || e.requiredQuestId == 0 || user.QuestCleared(e.requiredQuestId))
  }

  function ActiveKeys(schedules: seq<Entry>, user: Conditions.User, now: int): seq<SequenceKey> {
    if schedules == [] then []
    else
      var last := schedules[|schedules| - 1];
      ActiveKeys(schedules[..|schedules| - 1], user, now) +
      if Active(last, user, now) then [SequenceKey(last.scheduleId, last.firstSequenceId)] else []
  }

  method ActiveScheduleKeys(schedules: seq<Entry>, user: Conditions.User, now: int) returns (keys: seq<SequenceKey>)
    ensures keys == ActiveKeys(schedules, user, now)
  {
    keys := [];
    for i := 0 to |schedules|
      invariant keys == ActiveKeys(schedules[..i], user, now)
    {
      assert schedules[..i + 1][..i] == schedules[..i];
      var s := schedules[i];
      if now < s.startDatetime {
        continue;
      }
      if !s.isHidden && s.requiredQuestId != 0 {
        if !(s.requiredQuestId in user.quests && user.quests[s.requiredQuestId] == Conditions.QUEST_STATE_CLEARED) {
          continue;
        }
      }
      keys := keys + [SequenceKey(s.scheduleId, s.firstSequenceId)];
    }
    assert schedules[..|schedules|] == schedules;
  }

  /** a can be obtained from b by leaving elements out. */
  ghost predicate Subsequence(a: seq<SequenceKey>, b: seq<SequenceKey>) {
    a == [] ||
    (b != [] &&
     if a[|a| - 1] == b[|b| - 1] then Subsequence(a[..|a| - 1], b[..|b| - 1]) else Subsequence(a, b[..|b| - 1]))
  }

  lemma GrowRight(a: seq<SequenceKey>, b: seq<SequenceKey>, key: SequenceKey)
    requires Subsequence(a, b) && key !in a
    ensures Subsequence(a, b + [key]) && Subsequence(a + [key], b + [key])
  {
    assert (a + [key])[..|a|] == a && (b + [key])[..|b|] == b;
    assert a != [] ==> a[|a| - 1] in a;
  }

  function Keys(schedules: seq<Entry>): seq<SequenceKey> {
    seq(|schedules|, i requires 0 <= i < |schedules| =>
      SequenceKey(schedules[i].scheduleId, schedules[i].firstSequenceId))
  }

  ghost predicate DistinctKeys(keys: seq<SequenceKey>) {
    forall i, j :: 0 <= i < j < |keys| ==> keys[i] != keys[j]
  }

  lemma {:induction false} ActiveKeysHold(schedules: seq<Entry>, user: Conditions.User, now: int)
    ensures forall k :: k in ActiveKeys(schedules, user, now) <==>
      exists i :: 0 <= i < |schedules| && Active(schedules[i], user, now) && Keys(schedules)[i] == k
  {
    if schedules != [] {
      var n := |schedules| - 1;
      ActiveKeysHold(schedules[..n], user, now);
      assert forall i :: 0 <= i < n ==> Keys(schedules)[i] == Keys(schedules[..n])[i];
    }
  }

  lemma LastKeyIsNew(schedules: seq<Entry>, user: Conditions.User, now: int)
    requires schedules != [] && DistinctKeys(Keys(schedules))
    ensures
      var n := |schedules| - 1;
      Keys(schedules)[n] !in ActiveKeys(schedules[..n], user, now) && DistinctKeys(Keys(schedules[..n])) &&
      Keys(schedules) == Keys(schedules[..n]) + [Keys(schedules)[n]]
  {
    var n := |schedules| - 1;
    ActiveKeysHold(schedules[..n], user, now);
    assert forall i :: 0 <= i < n ==> Keys(schedules)[i] == Keys(schedules[..n])[i];
  }

  /** The active keys keep the priority order... */
  lemma {:induction false} ActiveKeysOrdered(schedules: seq<Entry>, user: Conditions.User, now: int)
    requires DistinctKeys(Keys(schedules))
    ensures Subsequence(ActiveKeys(schedules, user, now), Keys(schedules))
  {
    if schedules != [] {
      var n := |schedules| - 1;
      LastKeyIsNew(schedules, user, now);
      ActiveKeysOrdered(schedules[..n], user, now);
      var before := ActiveKeys(schedules[..n], user, now);
      GrowRight(before, Keys(schedules[..n]), Keys(schedules)[n]);
      assert ActiveKeys(schedules, user, now) ==
        if Active(schedules[n], user, now) then before + [Keys(schedules)[n]] else before;
    }
  }

  /** ...and repeat nothing. */
  lemma {:induction false} ActiveKeysDistinct(schedules: seq<Entry>, user: Conditions.User, now: int)
    requires DistinctKeys(Keys(schedules))
    ensures DistinctKeys(ActiveKeys(schedules, user, now))
  {
    if schedules != [] {
      LastKeyIsNew(schedules, user, now);
      ActiveKeysDistinct(schedules[..|schedules| - 1], user, now);
    }
  }

  /** As time advances and quests are cleared, the list only grows, in the same order. */
  lemma {:induction false} ActiveKeysGrow(schedules: seq<Entry>, user: Conditions.User, now: int,
                                          laterUser: Conditions.User, later: int)
    requires DistinctKeys(Keys(schedules)) && now <= later
    requires forall quest :: user.QuestCleared(quest) ==> laterUser.QuestCleared(quest)
    ensures Subsequence(ActiveKeys(schedules, user, now), ActiveKeys(schedules, laterUser, later))
  {
    if schedules != [] {
      var n := |schedules| - 1;
      LastKeyIsNew(schedules, user, now);
      ActiveKeysGrow(schedules[..n], user, now, laterUser, later);
      var a, b := ActiveKeys(schedules[..n], user, now), ActiveKeys(schedules[..n], laterUser, later);
      var key := Keys(schedules)[n];
      GrowRight(a, b, key);
      assert ActiveKeys(schedules, user, now) == if Active(schedules[n], user, now) then a + [key] else a;
      assert ActiveKeys(schedules, laterUser, later) == if Active(schedules[n], laterUser, later) then b + [key] else b;
      assert Active(schedules[n], user, now) ==> Active(schedules[n], laterUser, later);
    }
  }

  /**
   * The quest gate resolved at load time agrees with the condition evaluator: a
   * started, visible schedule whose release condition is a quest gate is active
   * exactly when the evaluator would find that condition satisfied.
   */
  lemma ActiveIffReleased(r: Row, resolver: Conditions.Resolver, conditions: seq<Conditions.ConditionRow>,
                          values: seq<Conditions.ValueRow>, sequenceTypes: map<int, int>, user: Conditions.User,
                          now: int)
    requires Conditions.Loaded(resolver, conditions, values)
    requires Conditions.UniqueConditions(conditions) && Conditions.UniqueIndices(values)
    requires r.releaseConditionId != 0 && resolver.RequiredQuestId(r.releaseConditionId).Some?
    requires resolver.RequiredQuestId(r.releaseConditionId).value != 0
    requires !ToEntry(r, resolver, sequenceTypes).isHidden && now >= r.startDatetime
    ensures Active(ToEntry(r, resolver, sequenceTypes), user, now) <==>
      r.releaseConditionId in Conditions.Level(resolver, user, Conditions.MAX_LEVELS)
  {
    Conditions.RequiredQuestDecides(resolver, conditions, values, user, r.releaseConditionId);
  }

  // ---------------------------------------------------------------------------
  // A user's rows
  // ---------------------------------------------------------------------------

  /** The client's tables hold a little more. */
  const MAX_USER_ROWS := 1000

  datatype SequenceState = SequenceState(isCleared: bool, clearDatetime: int)

  type Sequences = map<SequenceKey, SequenceState>

  const NEW_SEQUENCE := SequenceState(false, 0)

  /** Without the rows that are neither active nor cleared. */
  function Kept(rows: Sequences, active: seq<SequenceKey>): Sequences {
    map k | k in rows && (k in active || rows[k].isCleared) :: rows[k]
  }

  /** A new row for each missing key in turn, until the cap. */
  function Filled(rows: Sequences, keys: seq<SequenceKey>): Sequences
    decreases keys
  {
    if keys == [] || |rows| >= MAX_USER_ROWS then rows
    else Filled(if keys[0] in rows then rows else rows[keys[0] := NEW_SEQUENCE], keys[1..])
  }

  function Initialised(rows: Sequences, active: seq<SequenceKey>): Sequences {
    Filled(Kept(rows, active), active)
  }

  class UserGimmicks {
    var sequences: Sequences

    /** The active schedules get their rows, in priority order and up to the cap. */
    method InitSequenceSchedule(schedules: seq<Entry>, user: Conditions.User, now: int)
      modifies this
      ensures sequences == Initialised(old(sequences), ActiveKeys(schedules, user, now))
    {
      var eligible := ActiveScheduleKeys(schedules, user, now);
      sequences := Prune(sequences, eligible);
      ghost var want := Filled(sequences, eligible);
      for i := 0 to |eligible|
        invariant Filled(sequences, eligible[i..]) == want
      {
        if |sequences| >= MAX_USER_ROWS {
          break;
        }
        assert eligible[i..][1..] == eligible[i + 1..];
        if eligible[i] !in sequences {
          sequences := sequences[eligible[i] := NEW_SEQUENCE];
        }
      }
    }
  }

  method Prune(rows: Sequences, eligible: seq<SequenceKey>) returns (kept: Sequences)
    ensures kept == Kept(rows, eligible)
  {
    kept := rows;
    var todo := rows.Keys;
    while todo != {}
      invariant todo <= rows.Keys && todo <= kept.Keys <= rows.Keys
      invariant forall k :: k in kept ==> kept[k] == rows[k]
      invariant forall k :: k in rows && k !in todo ==> (k in kept <==> k in eligible || rows[k].isCleared)
      decreases todo
    {
      var key := Choose(todo);
      todo := todo - {key};
      if key !in eligible && !rows[key].isCleared {
        kept := kept - {key};
      }
    }
  }

  /** Filling adds new rows for keys of the list and changes none, within the cap. */
  lemma {:induction false} FilledHolds(rows: Sequences, keys: seq<SequenceKey>)
    ensures forall k :: k in rows ==> k in Filled(rows, keys) && Filled(rows, keys)[k] == rows[k]
    ensures forall k :: k in Filled(rows, keys) && k !in rows ==> k in keys && Filled(rows, keys)[k] == NEW_SEQUENCE
    ensures |rows| <= |Filled(rows, keys)| <= Max(|rows|, MAX_USER_ROWS)
    ensures |Filled(rows, keys)| >= MAX_USER_ROWS || forall k :: k in keys ==> k in Filled(rows, keys)
    decreases keys
  {
    if keys != [] && |rows| < MAX_USER_ROWS {
      var more := if keys[0] in rows then rows else rows[keys[0] := NEW_SEQUENCE];
      assert more.Keys == rows.Keys + {keys[0]};
      FilledHolds(more, keys[1..]);
    }
  }

  /** A row is added only if every key before it has one. */
  lemma {:induction false} FillsInOrder(rows: Sequences, keys: seq<SequenceKey>, i: nat, j: nat)
    requires DistinctKeys(keys) && i < |keys| && j < |keys|
    requires keys[i] !in rows && keys[i] in Filled(rows, keys) && keys[j] !in Filled(rows, keys)
    ensures i < j
    decreases keys
  {
    var more := if keys[0] in rows then rows else rows[keys[0] := NEW_SEQUENCE];
    FilledHolds(more, keys[1..]);
    if i > 0 && j > 0 {
      FillsInOrder(more, keys[1..], i - 1, j - 1);
    }
  }

  lemma FullStaysAsItIs(rows: Sequences, keys: seq<SequenceKey>)
    requires |rows| >= MAX_USER_ROWS || forall k :: k in keys ==> k in rows
    ensures Filled(rows, keys) == rows
    decreases keys
  {
    if keys != [] && |rows| < MAX_USER_ROWS {
      FullStaysAsItIs(rows, keys[1..]);
    }
  }

  /** A second call with the same active keys changes nothing. */
  lemma InitialisingTwice(rows: Sequences, active: seq<SequenceKey>)
    ensures Initialised(Initialised(rows, active), active) == Initialised(rows, active)
  {
    var once := Initialised(rows, active);
    FilledHolds(Kept(rows, active), active);
    assert Kept(once, active) == once;
    FullStaysAsItIs(once, active);
  }

  /**
   * As time advances and quests are cleared, no row is dropped or changed by a
   * later call, and a cleared row is kept whatever happens.
   */
  lemma NothingIsDropped(rows: Sequences, schedules: seq<Entry>, user: Conditions.User, now: int,
                         laterUser: Conditions.User, later: int, k: SequenceKey)
    requires now <= later && forall quest :: user.QuestCleared(quest) ==> laterUser.QuestCleared(quest)
    ensures
      var once := Initialised(rows, ActiveKeys(schedules, user, now));
      var again := Initialised(once, ActiveKeys(schedules, laterUser, later));
      (k in once ==> k in again && again[k] == once[k]) &&
      (k in rows && rows[k].isCleared ==> k in again && again[k] == rows[k])
  {
    var a, b := ActiveKeys(schedules, user, now), ActiveKeys(schedules, laterUser, later);
    ActiveKeysHold(schedules, user, now);
    ActiveKeysHold(schedules, laterUser, later);
    FilledHolds(Kept(rows, a), a);
    FilledHolds(Kept(Initialised(rows, a), b), b);
  }

  ghost predicate InOrder(schedules: seq<Entry>, a: SequenceKey, b: SequenceKey) {
    exists p, q :: 0 <= p < q < |schedules| && Keys(schedules)[p] == a && Keys(schedules)[q] == b
  }

  /** The active keys stand in the order of the list. */
  lemma {:induction false} ActivePlaces(schedules: seq<Entry>, user: Conditions.User, now: int, i: nat, j: nat)
    requires i < j < |ActiveKeys(schedules, user, now)|
    ensures InOrder(schedules, ActiveKeys(schedules, user, now)[i], ActiveKeys(schedules, user, now)[j])
  {
    var n := |schedules| - 1;
    var before := ActiveKeys(schedules[..n], user, now);
    if j < |before| {
      ActivePlaces(schedules[..n], user, now, i, j);
      var p, q :| 0 <= p < q < n && Keys(schedules[..n])[p] == before[i] && Keys(schedules[..n])[q] == before[j];
      assert Keys(schedules)[p] == before[i] && Keys(schedules)[q] == before[j];
    } else {
      ActiveKeysHold(schedules[..n], user, now);
      assert before[i] in before;
      var p :| 0 <= p < n && Active(schedules[..n][p], user, now) && Keys(schedules[..n])[p] == before[i];
      assert Keys(schedules)[p] == before[i] && Keys(schedules)[n] == ActiveKeys(schedules, user, now)[j];
    }
  }

  /** An active schedule that gets a row stands before one that is left without. */
  lemma AddedStandsBefore(schedules: seq<Entry>, user: Conditions.User, now: int, mine: Sequences, p: nat, q: nat)
    requires DistinctKeys(Keys(schedules)) && p < |schedules| && q < |schedules|
    requires
      var active := ActiveKeys(schedules, user, now);
      Keys(schedules)[p] in Initialised(mine, active) && Keys(schedules)[p] !in Kept(mine, active) &&
      Active(schedules[q], user, now) && Keys(schedules)[q] !in Initialised(mine, active)
    ensures p < q && |Initialised(mine, ActiveKeys(schedules, user, now))| >= MAX_USER_ROWS
  {
    var active := ActiveKeys(schedules, user, now);
    ActiveKeysHold(schedules, user, now);
    assert Keys(schedules)[q] in active;
    FilledHolds(Kept(mine, active), active);
    ActiveKeysDistinct(schedules, user, now);
    var i :| 0 <= i < |active| && active[i] == Keys(schedules)[p];
    var j :| 0 <= j < |active| && active[j] == Keys(schedules)[q];
    FillsInOrder(Kept(mine, active), active, i, j);
    ActivePlaces(schedules, user, now, i, j);
  }

  /**
   * Rows run out for the hidden stories last: while an active hidden schedule is
   * left without a row, the table is full and every row added is a hidden one's.
   */
  lemma HiddenFillFirst(rows: seq<Row>, loaded: int, resolver: Conditions.Resolver, sequenceTypes: map<int, int>,
                        best: map<int, Entry>, entries: seq<Entry>, user: Conditions.User, now: int,
                        mine: Sequences, p: nat, q: nat)
    requires Picked(rows, loaded, resolver, sequenceTypes, best) && Prioritised(best, entries)
    requires p < |entries| && q < |entries| && entries[q].isHidden && Active(entries[q], user, now)
    requires
      var active := ActiveKeys(entries, user, now);
      Keys(entries)[p] in Initialised(mine, active) && Keys(entries)[p] !in Kept(mine, active) &&
      Keys(entries)[q] !in Initialised(mine, active)
    ensures entries[p].isHidden && |Initialised(mine, ActiveKeys(entries, user, now))| >= MAX_USER_ROWS
  {
    AddedStandsBefore(entries, user, now, mine, p, q);
    HiddenComeFirst(rows, loaded, resolver, sequenceTypes, best, entries, p, q);
  }
}
