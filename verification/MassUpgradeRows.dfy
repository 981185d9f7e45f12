/** What a mass upgrade stores, by table. */
module MassUpgradeRows {
  import opened Common
  import opened Evolution
  import opened Exp
  import opened MassUpgradeState
  import opened MassUpgradeOrder

  // The rows that any run of cmd/lunar-base-grant/mass_upgrades.go leaves, in any order of
  // the weapons, written from the catalog's tables: f(4) is a level function at four limit
  // breaks, and the release conditions are told apart by their numbers 1 to 5.

  // ---------------------------------------------------------------------------
  // The chain and the weapon's own row
  // ---------------------------------------------------------------------------

  /** The ids a weapon goes through, each the next of the one before, to one that has no next. */
  ghost predicate Evolves(next: map<int, int>, chain: seq<int>, old_: int, id: int) {
    chain != [] && chain[0] == old_ && chain[|chain| - 1] == id && id !in next &&
    forall i :: 0 <= i < |chain| - 1 ==> chain[i] in next && next[chain[i]] == chain[i + 1]
  }

  /** Weapon k evolves to id, which has a master row. */
  ghost predicate Becomes(cat: Catalog, s: State, k: string, id: int) {
    k in s.weapons && id in cat.weapons &&
    exists chain :: Evolves(cat.evolutionNext, chain, s.weapons[k].weaponId, id)
  }

  lemma {:induction false} ChainEnds(next: map<int, int>, chain: seq<int>, old_: int, id: int)
    requires Evolves(next, chain, old_, id) && Ends(next, old_)
    ensures Final(next, old_) == id
    decreases |chain|
  {
    FinalStep(next, old_);
    if |chain| > 1 {
      ChainEnds(next, chain[1..], chain[1], id);
    }
  }

  lemma {:induction false} WalkIsChain(next: map<int, int>, old_: int, n: nat)
    requires Walk(next, old_, n) !in next
    ensures exists chain :: Evolves(next, chain, old_, Walk(next, old_, n))
    decreases n
  {
    if n > 0 && old_ in next {
      WalkIsChain(next, next[old_], n - 1);
      var rest :| Evolves(next, rest, next[old_], Walk(next, next[old_], n - 1));
      assert Evolves(next, [old_] + rest, old_, Walk(next, old_, n));
    } else {
      assert Evolves(next, [old_], old_, Walk(next, old_, n));
    }
  }

  lemma FinalChain(next: map<int, int>, old_: int)
    requires Ends(next, old_)
    ensures exists chain :: Evolves(next, chain, old_, Final(next, old_))
  {
    var n: nat :| Walk(next, old_, n) !in next;
    WalkIsChain(next, old_, n);
    var chain :| Evolves(next, chain, old_, Walk(next, old_, n));
    ChainEnds(next, chain, old_, Walk(next, old_, n));
  }

  /** A weapon is upgraded exactly when its chain ends at an id with a master row. */
  lemma BecomesFinal(cat: Catalog, s: State, k: string, id: int)
    requires cat.Valid()
    ensures Becomes(cat, s, k, id) <==>
      k in s.weapons && Mastered(cat, s.weapons[k]) && id == cat.FinalId(s.weapons[k].weaponId)
  {
    if k in s.weapons {
      var old_ := s.weapons[k].weaponId;
      assert Ends(cat.evolutionNext, old_);
      FinalChain(cat.evolutionNext, old_);
      forall other | Evolves(cat.evolutionNext, other, old_, id) ensures id == cat.FinalId(old_) {
        ChainEnds(cat.evolutionNext, other, old_, id);
      }
    }
  }

  /**
   * The weapon's row after any run. Its level is the smaller of its cap and the
   * greatest level its experience table has, and its experience the threshold
   * of the two; the cap is f(4), plus the awakening's increase when the id is
   * listed for awakening.
   */
  lemma StoredLevel(cat: Catalog, s: State, now: int, r: State, k: string, id: int, cap: int, leveling: int)
    requires cat.Valid() && Outcome(cat, s, now, r) && Becomes(cat, s, k, id)
    requires var enhanceId := cat.weapons[id].enhanceId;
      cap == (if enhanceId in cat.maxLevelByEnhanceId then cat.maxLevelByEnhanceId[enhanceId](4) else 0) +
             (if id in cat.awakenLevelLimitUp then cat.awakenLevelLimitUp[id] else 0)
    requires leveling == if id in cat.levelingEnhanceIdByWeaponId then cat.levelingEnhanceIdByWeaponId[id] else 0
    ensures r.weapons.Keys == s.weapons.Keys
    ensures r.weapons[k].weaponId == id && r.weapons[k].limitBreakCount == 4 && r.weapons[k].latestVersion == now
    ensures cap > 0 && leveling in cat.expByEnhanceId && NonDecreasing(cat.expByEnhanceId[leveling]) ==>
      var thresholds := cat.expByEnhanceId[leveling];
      var greatest := |thresholds| - 1;
      r.weapons[k].level == (if greatest < 1 then 1 else if cap < greatest then cap else greatest) &&
      r.weapons[k].exp == thresholds[if cap < greatest then cap else greatest]
    ensures cap > 0 && leveling !in cat.expByEnhanceId ==>
      r.weapons[k].level == cap && r.weapons[k].exp == s.weapons[k].exp
    ensures cap <= 0 ==> r.weapons[k].level == s.weapons[k].level && r.weapons[k].exp == s.weapons[k].exp
  {
    BecomesFinal(cat, s, k, id);
    assert r.weapons[k] == Upgraded(cat, s.weapons[k], now);
    if cap > 0 && leveling in cat.expByEnhanceId && NonDecreasing(cat.expByEnhanceId[leveling]) {
      MassLevelIs(cat.expByEnhanceId[leveling], cap);
    }
  }

  lemma MassLevelIs(thresholds: seq<int>, cap: int)
    requires thresholds != [] && cap > 0 && NonDecreasing(thresholds)
    ensures
      var greatest := |thresholds| - 1;
      MassLevel(thresholds, cap) ==
        (if greatest < 1 then 1 else if cap < greatest then cap else greatest,
         thresholds[if cap < greatest then cap else greatest])
  {
    var greatest := |thresholds| - 1;
    var reached := if cap < greatest then cap else greatest;
    var level := LevelFor(thresholds[reached], thresholds);
    GreatestReached(thresholds[reached], thresholds, level);
    assert thresholds[reached] <= thresholds[greatest];
  }

  /** A weapon whose chain ends at an id without a master row is left alone. */
  lemma UnlistedIsLeft(cat: Catalog, s: State, now: int, r: State, k: string, chain: seq<int>, id: int)
    requires cat.Valid() && Outcome(cat, s, now, r) && k in s.weapons && id !in cat.weapons
    requires Evolves(cat.evolutionNext, chain, s.weapons[k].weaponId, id)
    ensures k in r.weapons && r.weapons[k] == s.weapons[k]
    ensures Get(r.awakens, k) == Get(s.awakens, k) && Get(r.skills, k) == Get(s.skills, k) &&
      Get(r.abilities, k) == Get(s.abilities, k)
  {
    ChainEnds(cat.evolutionNext, chain, s.weapons[k].weaponId, id);
    assert !Changed(cat, s, s.weapons.Keys, k);
  }

  /** With f(4) == 90 a weapon listed for an awakening of 10 levels ends at level 100, one not listed at 90. */
  lemma RefinedReachesHundred(cat: Catalog, s: State, now: int, r: State, k: string, id: int, leveling: int)
    requires cat.Valid() && Outcome(cat, s, now, r) && Becomes(cat, s, k, id)
    requires var enhanceId := cat.weapons[id].enhanceId;
      enhanceId in cat.maxLevelByEnhanceId && cat.maxLevelByEnhanceId[enhanceId](4) == 90
    requires id in cat.levelingEnhanceIdByWeaponId && cat.levelingEnhanceIdByWeaponId[id] == leveling
    requires leveling in cat.expByEnhanceId && |cat.expByEnhanceId[leveling]| >= 101
    requires NonDecreasing(cat.expByEnhanceId[leveling])
    requires id in cat.awakenLevelLimitUp ==> cat.awakenLevelLimitUp[id] == 10
    ensures k in r.weapons
    ensures id in cat.awakenLevelLimitUp ==>
      r.weapons[k].level == 100 && r.weapons[k].exp == cat.expByEnhanceId[leveling][100]
    ensures id !in cat.awakenLevelLimitUp ==>
      r.weapons[k].level == 90 && r.weapons[k].exp == cat.expByEnhanceId[leveling][90]
  {
    StoredLevel(cat, s, now, r, k, id, if id in cat.awakenLevelLimitUp then 100 else 90, leveling);
  }

  // ---------------------------------------------------------------------------
  // The rows beside it
  // ---------------------------------------------------------------------------

  /** One row for each slot, at the level. */
  ghost predicate FullSlots(rows: seq<SlotLevel>, uuid: string, slots: seq<int>, level: int) {
    (forall row :: row in rows <==> row.weaponUuid == uuid && row.level == level && row.slotNumber in slots) &&
    forall i, j :: 0 <= i < j < |rows| ==> rows[i].slotNumber != rows[j].slotNumber
  }

  lemma OwnRowsAre(cat: Catalog, s: State, now: int, r: State, k: string, id: int)
    requires cat.Valid() && Outcome(cat, s, now, r) && Becomes(cat, s, k, id)
    ensures Get(r.skills, k) == if cat.SkillRows(k, id).Some? then cat.SkillRows(k, id) else Get(s.skills, k)
    ensures Get(r.abilities, k) ==
      if cat.AbilityRows(k, id).Some? then cat.AbilityRows(k, id) else Get(s.abilities, k)
  {
    BecomesFinal(cat, s, k, id);
  }

  lemma FullRows(uuid: string, enhanceId: int, groupId: int, slotsByGroup: map<int, seq<int>>,
                 maxLevelByEnhanceId: map<int, int -> int>, level: int)
    requires level == if enhanceId in maxLevelByEnhanceId then maxLevelByEnhanceId[enhanceId](4) else 15
    ensures var rows := SlotRows(uuid, enhanceId, groupId, slotsByGroup, maxLevelByEnhanceId);
      if groupId in slotsByGroup && slotsByGroup[groupId] != []
      then rows.Some? && FullSlots(rows.value, uuid, slotsByGroup[groupId], level) else rows.None?
  {
    if groupId in slotsByGroup { RowsCoverSlots(uuid, slotsByGroup[groupId], level); }
  }

  /** Skills of the weapon: every slot of its group once, at f(4) or, without a level function, at 15. */
  lemma StoredSkills(cat: Catalog, s: State, now: int, r: State, k: string, id: int, level: int)
    requires cat.Valid() && Outcome(cat, s, now, r) && Becomes(cat, s, k, id)
    requires var enhanceId := cat.weapons[id].enhanceId;
      level == if enhanceId in cat.skillMaxLevelByEnhanceId then cat.skillMaxLevelByEnhanceId[enhanceId](4) else 15
    ensures var group := cat.weapons[id].skillGroupId;
      if group in cat.skillSlots && cat.skillSlots[group] != []
      then k in r.skills && FullSlots(r.skills[k], k, cat.skillSlots[group], level)
      else Get(r.skills, k) == Get(s.skills, k)
  {
    var m := cat.weapons[id];
    OwnRowsAre(cat, s, now, r, k, id);
    FullRows(k, m.enhanceId, m.skillGroupId, cat.skillSlots, cat.skillMaxLevelByEnhanceId, level);
  }

  lemma StoredAbilities(cat: Catalog, s: State, now: int, r: State, k: string, id: int, level: int)
    requires cat.Valid() && Outcome(cat, s, now, r) && Becomes(cat, s, k, id)
    requires var enhanceId := cat.weapons[id].enhanceId;
      level == if enhanceId in cat.abilityMaxLevelByEnhanceId then cat.abilityMaxLevelByEnhanceId[enhanceId](4) else 15
    ensures var group := cat.weapons[id].abilityGroupId;
      if group in cat.abilitySlots && cat.abilitySlots[group] != []
      then k in r.abilities && FullSlots(r.abilities[k], k, cat.abilitySlots[group], level)
      else Get(r.abilities, k) == Get(s.abilities, k)
  {
    var m := cat.weapons[id];
    OwnRowsAre(cat, s, now, r, k, id);
    FullRows(k, m.enhanceId, m.abilityGroupId, cat.abilitySlots, cat.abilityMaxLevelByEnhanceId, level);
  }

  /** A weapon listed for awakening is awakened now, or stays awakened since it was; no other row appears. */
  lemma StoredAwakening(cat: Catalog, s: State, now: int, r: State, k: string, id: int)
    requires cat.Valid() && Outcome(cat, s, now, r) && Becomes(cat, s, k, id)
    ensures k in s.awakens ==> k in r.awakens && r.awakens[k] == s.awakens[k]
    ensures k !in s.awakens ==>
      (k in r.awakens <==> id in cat.awakenLevelLimitUp) && (k in r.awakens ==> r.awakens[k] == now)
  {
    BecomesFinal(cat, s, k, id);
    assert Get(r.awakens, k) ==
      if id in cat.awakenLevelLimitUp && k !in s.awakens then Some(now) else Get(s.awakens, k);
  }

  /** The note of an id some weapon became: the highest level of those weapons and of the note before. */
  lemma StoredNote(cat: Catalog, s: State, now: int, r: State, k: string, id: int)
    requires cat.Valid() && Outcome(cat, s, now, r) && Becomes(cat, s, k, id)
    ensures k in r.weapons && id in r.notes && r.notes[id].latestVersion == now
    ensures r.notes[id].maxLevel >= r.weapons[k].level && r.notes[id].maxLimitBreakCount >= 4
    ensures id in s.notes ==>
      r.notes[id].maxLevel >= s.notes[id].maxLevel &&
      r.notes[id].maxLimitBreakCount == Max(4, s.notes[id].maxLimitBreakCount)
    ensures r.notes[id].maxLevel == (if id in s.notes then s.notes[id].maxLevel else 0) ||
      exists h :: Becomes(cat, s, h, id) && h in r.weapons && r.weapons[h].level == r.notes[id].maxLevel
    ensures id in s.notes && s.notes[id].weaponId != 0 ==>
      r.notes[id].weaponId == s.notes[id].weaponId &&
      r.notes[id].firstAcquisitionDatetime == s.notes[id].firstAcquisitionDatetime
    ensures id !in s.notes || s.notes[id].weaponId == 0 ==>
      r.notes[id].weaponId == id && r.notes[id].firstAcquisitionDatetime == now
    ensures id !in s.notes ==> r.notes[id].maxLimitBreakCount == 4
  {
    var all := s.weapons.Keys;
    BecomesFinal(cat, s, k, id);
    assert Reports(cat, s, all, k, id, r.weapons[k].level);
    assert r.weapons[k].level in Reported(cat, s, all, id);
    assert NoteRow(id, Get(s.notes, id), Reported(cat, s, all, id), now, Get(r.notes, id));
    var level := r.notes[id].maxLevel;
    if level in Reported(cat, s, all, id) {
      var h :| Reports(cat, s, all, h, id, level);
      BecomesFinal(cat, s, h, id);
    }
  }

  // ---------------------------------------------------------------------------
  // Stories
  // ---------------------------------------------------------------------------

  /** What a release condition asks of a weapon of the id and level, by its type. */
  ghost predicate Released(cat: Catalog, id: int, level: int, cond: ReleaseCondition)
    requires id in cat.weapons
  {
    var enhanceId := cat.weapons[id].enhanceId;
    (cond.conditionType == 1) ||
    (cond.conditionType == 2 && cond.conditionValue <= level) ||
    (cond.conditionType in {3, 4} && (cond.conditionType == 4 ==> EvolvedTimes(cat, id, 1)) &&
     enhanceId in cat.maxLevelByEnhanceId && cat.maxLevelByEnhanceId[enhanceId](0) <= level) ||
    (cond.conditionType == 5 && EvolvedTimes(cat, id, cond.conditionValue))
  }

  ghost predicate EvolvedTimes(cat: Catalog, id: int, times: int) {
    id in cat.evolutionOrder && times <= cat.evolutionOrder[id]
  }

  /** A condition of the group of the id's master row; group 0 is none. */
  ghost predicate InGroup(cat: Catalog, id: int, cond: ReleaseCondition)
    requires id in cat.weapons
  {
    var group := cat.weapons[id].storyGroupId;
    group != 0 && group in cat.releaseConditions && cond in cat.releaseConditions[group]
  }

  lemma MeetsIsReleased(cat: Catalog, id: int, level: int, cond: ReleaseCondition)
    requires id in cat.weapons
    ensures cat.Meets(id, level, cond) <==> Released(cat, id, level, cond)
    ensures cond in cat.ReleaseConditions(id) <==> InGroup(cat, id, cond)
  {
  }

  lemma UnlocksIsReleased(cat: Catalog, s: State, now: int, r: State, k: string, id: int, j: int)
    requires cat.Valid() && Outcome(cat, s, now, r) && Becomes(cat, s, k, id)
    ensures Unlocks(cat, s, k, id, j) <==>
      exists cond :: InGroup(cat, id, cond) && cond.storyIndex == j && Released(cat, id, r.weapons[k].level, cond)
  {
    BecomesFinal(cat, s, k, id);
    var level, conditions := r.weapons[k].level, cat.ReleaseConditions(id);
    assert level == LevelAndExp(cat, id, s.weapons[k]).0;
    forall cond ensures cat.Meets(id, level, cond) <==> Released(cat, id, level, cond) {
      MeetsIsReleased(cat, id, level, cond);
    }
    forall cond ensures cond in conditions <==> InGroup(cat, id, cond) {
      MeetsIsReleased(cat, id, level, cond);
    }
  }

  /** Every story the stored level or the evolution releases is unlocked after any run, when its index is positive. */
  lemma ReleasedIsUnlocked(cat: Catalog, s: State, now: int, r: State, k: string, id: int, cond: ReleaseCondition)
    requires cat.Valid() && Outcome(cat, s, now, r) && Becomes(cat, s, k, id) && k in r.weapons
    requires InGroup(cat, id, cond) && Released(cat, id, r.weapons[k].level, cond) && cond.storyIndex > 0
    ensures id in r.stories && cond.storyIndex <= r.stories[id].releasedMaxStoryIndex
  {
    UnlocksIsReleased(cat, s, now, r, k, id, cond.storyIndex);
    RowRunIs(cat, s, now, r, id);
    assert Counts(cat, s, s.weapons.Keys, id, cond.storyIndex);
  }

  /** The row of an id is what some order of all weapons makes of it. */
  lemma RowRunIs(cat: Catalog, s: State, now: int, r: State, id: int)
    requires cat.Valid() && Outcome(cat, s, now, r)
    ensures RunOk(cat, s, Get(s.stories, id), s.weapons.Keys, id, now, Get(r.stories, id))
  {
    var order :| Lists(order, s.weapons.Keys) && AllOwned(s, order) && StoriesRun(cat, s, order, now, r.stories);
    ListsAll(s, order);
    RunFacts(cat, s, Get(s.stories, id), order, id, now);
  }

  /** A weapon with another id before the run hands its story on to the one it became. */
  ghost predicate HandsOn(cat: Catalog, s: State, k: string, id: int, j: int) {
    k in s.weapons && s.weapons[k].weaponId != id && s.weapons[k].weaponId in s.stories &&
    s.stories[s.weapons[k].weaponId].releasedMaxStoryIndex == j &&
    exists chain :: Evolves(cat.evolutionNext, chain, s.weapons[k].weaponId, id)
  }

  lemma ForwardsIsHandingOn(cat: Catalog, s: State, k: string, id: int, j: int)
    requires cat.Valid()
    ensures ForwardsTo(cat, s, k, id, j) <==> HandsOn(cat, s, k, id, j)
  {
    if k in s.weapons {
      var old_ := s.weapons[k].weaponId;
      assert Ends(cat.evolutionNext, old_);
      FinalChain(cat.evolutionNext, old_);
      forall other | Evolves(cat.evolutionNext, other, old_, id) ensures id == cat.FinalId(old_) {
        ChainEnds(cat.evolutionNext, other, old_, id);
      }
    }
  }

  /** The story of an earlier id is handed on to the id the weapon became, and no row ever falls. */
  lemma StoriesAreKept(cat: Catalog, s: State, now: int, r: State, k: string, id: int, j: int)
    requires cat.Valid() && Outcome(cat, s, now, r)
    ensures HandsOn(cat, s, k, id, j) ==> id in r.stories && j <= r.stories[id].releasedMaxStoryIndex
    ensures id in s.stories ==>
      id in r.stories && s.stories[id].releasedMaxStoryIndex <= r.stories[id].releasedMaxStoryIndex
  {
    ForwardsIsHandingOn(cat, s, k, id, j);
    RowRunIs(cat, s, now, r, id);
    if HandsOn(cat, s, k, id, j) { assert Counts(cat, s, s.weapons.Keys, id, j); }
  }

  ghost predicate Earned(cat: Catalog, s: State, r: State, k: string, id: int, j: int) {
    Becomes(cat, s, k, id) && k in r.weapons &&
    exists cond :: InGroup(cat, id, cond) && cond.storyIndex == j && Released(cat, id, r.weapons[k].level, cond)
  }

  /** A row that changed carries an index handed on to it, or released by a weapon that became its id. */
  lemma ChangedStoryIsEarned(cat: Catalog, s: State, now: int, r: State, id: int)
    requires cat.Valid() && Outcome(cat, s, now, r) && Get(r.stories, id) != Get(s.stories, id)
    ensures id in r.stories && r.stories[id] == Story(id, r.stories[id].releasedMaxStoryIndex, now)
    ensures exists k ::
      HandsOn(cat, s, k, id, r.stories[id].releasedMaxStoryIndex) ||
      Earned(cat, s, r, k, id, r.stories[id].releasedMaxStoryIndex)
  {
    RowRunIs(cat, s, now, r, id);
    var all, j := s.weapons.Keys, r.stories[id].releasedMaxStoryIndex;
    if AnyForwards(cat, s, all, id, j) {
      var k :| k in all && ForwardsTo(cat, s, k, id, j);
      ForwardsIsHandingOn(cat, s, k, id, j);
    } else {
      var k :| k in all && Unlocks(cat, s, k, id, j);
      BecomesFinal(cat, s, k, id);
      UnlocksIsReleased(cat, s, now, r, k, id, j);
      assert Earned(cat, s, r, k, id, j);
    }
  }
}
