/** The loop of mass_upgrades.go. */
module MassUpgrade {
  import opened Common
  import opened Evolution
  import opened Exp
  import opened MassUpgradeState
  import opened MassUpgradeOrder

  // One loop over the user's weapons, in random map order, evolves each weapon to the end of
  // its chain, maxes it, and writes story and note rows that weapons with the same final id
  // share (cmd/lunar-base-grant/mass_upgrades.go, with internal/store/helpers.go).

  class User {
    var weapons: map<string, Weapon>
    var stories: map<int, Story>
    var notes: map<int, Note>
    var awakens: map<string, int>
    var skills: map<string, seq<SlotLevel>>
    var abilities: map<string, seq<SlotLevel>>

    ghost function Snapshot(): State
      reads this
    {
      State(weapons, stories, notes, awakens, skills, abilities)
    }
  }

  predicate Owns(weapons: map<string, Weapon>, weaponId: int) {
    exists k :: k in weapons && weapons[k].weaponId == weaponId
  }

  /** store.GrantWeaponStoryUnlock: only for an owned weapon id, and only upwards. */
  method GrantWeaponStoryUnlock(u: User, weaponId: int, storyIndex: int, now: int) returns (granted: bool)
    modifies u`stories
    ensures granted <==> Owns(u.weapons, weaponId) && storyIndex > Index(Get(old(u.stories), weaponId))
    ensures u.stories ==
      if granted then old(u.stories)[weaponId := Story(weaponId, storyIndex, now)] else old(u.stories)
  {
    if !Owns(u.weapons, weaponId) {
      return false;
    }
    if storyIndex <= Index(Get(u.stories, weaponId)) {
      return false;
    }
    u.stories := u.stories[weaponId := Story(weaponId, storyIndex, now)];
    return true;
  }

  /** Only the row of id t may have changed, and it is now `row`. */
  ghost predicate RowUpdated(before: map<int, Story>, after: map<int, Story>, t: int, row: Option<Story>) {
    Get(after, t) == row && forall x :: x != t ==> Get(after, x) == Get(before, x)
  }

  method UnlockStories(u: User, cat: Catalog, weaponId: int, level: int, now: int)
    requires weaponId in cat.weapons && Owns(u.weapons, weaponId)
    modifies u`stories
    ensures RowUpdated(old(u.stories), u.stories, weaponId,
      UnlockAll(cat, weaponId, level, cat.ReleaseConditions(weaponId), Get(old(u.stories), weaponId), now))
  {
    var conditions := cat.ReleaseConditions(weaponId);
    for i := 0 to |conditions|
      invariant RowUpdated(old(u.stories), u.stories, weaponId,
        UnlockAll(cat, weaponId, level, conditions[..i], Get(old(u.stories), weaponId), now))
    {
      assert conditions[..i + 1][..i] == conditions[..i];
      UnlockIfMet(u, cat, weaponId, level, conditions[i], now);
    }
    assert conditions[..|conditions|] == conditions;
  }

  method UnlockIfMet(u: User, cat: Catalog, weaponId: int, level: int, cond: ReleaseCondition, now: int)
    requires weaponId in cat.weapons && Owns(u.weapons, weaponId)
    modifies u`stories
    ensures var row := Get(old(u.stories), weaponId);
      RowUpdated(old(u.stories), u.stories, weaponId,
                 if cat.Meets(weaponId, level, cond) then Unlock(weaponId, row, cond.storyIndex, now) else row)
  {
    if cat.Meets(weaponId, level, cond) {
      var granted := GrantWeaponStoryUnlock(u, weaponId, cond.storyIndex, now);
    }
  }

  /** Hand the story of the id the weapon leaves on to the id it becomes. */
  method ForwardStory(u: User, oldId: int, finalId: int, now: int)
    modifies u`stories
    ensures var row := Get(old(u.stories), finalId);
      RowUpdated(old(u.stories), u.stories, finalId,
                 if finalId != oldId && oldId in old(u.stories)
                 then Forward(finalId, row, old(u.stories)[oldId].releasedMaxStoryIndex, now) else row)
  {
    if finalId != oldId {
      if oldId in u.stories {
        var index := u.stories[oldId].releasedMaxStoryIndex;
        if finalId !in u.stories || u.stories[finalId].releasedMaxStoryIndex < index {
          u.stories := u.stories[finalId := Story(finalId, index, now)];
        }
      }
    }
  }

  method UpdateNote(u: User, cat: Catalog, k: string, weaponId: int, level: int, now: int,
                    ghost s: State, ghost done: set<string>)
    requires cat.Valid() && k in s.weapons && Mastered(cat, s.weapons[k])
    requires weaponId == cat.FinalId(s.weapons[k].weaponId) && level == LevelAndExp(cat, weaponId, s.weapons[k]).0
    requires NotesAfter(cat, s, done, now, u.notes)
    modifies u`notes
    ensures NotesAfter(cat, s, done + {k}, now, u.notes)
  {
    ghost var before := u.notes;
    var note := if weaponId in u.notes then u.notes[weaponId] else NO_NOTE;
    if note.weaponId == 0 {
      note := note.(weaponId := weaponId, firstAcquisitionDatetime := now);
    }
    if note.maxLevel < level {
      note := note.(maxLevel := level);
    }
    if note.maxLimitBreakCount < LIMIT_BREAK_MAX {
      note := note.(maxLimitBreakCount := LIMIT_BREAK_MAX);
    }
    note := note.(latestVersion := now);
    u.notes := u.notes[weaponId := note];
    forall t ensures NoteRow(t, Get(s.notes, t), Reported(cat, s, done + {k}, t), now, Get(u.notes, t)) {
      ReportedAdd(cat, s, done, k, t);
      if t == weaponId {
        NoteReport(t, Get(s.notes, t), Reported(cat, s, done, t), now, Get(before, t), level, note);
      }
    }
  }

  method RebuildRows(uuid: string, slots: seq<int>, level: int) returns (rows: seq<SlotLevel>)
    ensures rows == RowsAt(uuid, slots, level)
  {
    rows := [];
    var seenSlot: set<int> := {};
    for i := 0 to |slots|
      invariant rows == RowsAt(uuid, slots[..i], level)
      invariant forall x :: x in seenSlot <==> x in slots[..i]
    {
      assert slots[..i + 1][..i] == slots[..i];
      if slots[i] !in seenSlot {
        seenSlot := seenSlot + {slots[i]};
        rows := rows + [SlotLevel(uuid, slots[i], level)];
      }
    }
    assert slots[..|slots|] == slots;
  }

  method RebuildSlots(u: User, cat: Catalog, k: string, master: Master)
    modifies u`skills, u`abilities
    ensures var rows := SlotRows(k, master.enhanceId, master.skillGroupId, cat.skillSlots,
                                 cat.skillMaxLevelByEnhanceId);
      u.skills == if rows.Some? then old(u.skills)[k := rows.value] else old(u.skills)
    ensures var rows := SlotRows(k, master.enhanceId, master.abilityGroupId, cat.abilitySlots,
                                 cat.abilityMaxLevelByEnhanceId);
      u.abilities == if rows.Some? then old(u.abilities)[k := rows.value] else old(u.abilities)
  {
    if master.skillGroupId in cat.skillSlots && cat.skillSlots[master.skillGroupId] != [] {
      var level := SKILL_MAX_LEVEL;
      if master.enhanceId in cat.skillMaxLevelByEnhanceId {
        level := cat.skillMaxLevelByEnhanceId[master.enhanceId](LIMIT_BREAK_MAX);
      }
      var rows := RebuildRows(k, cat.skillSlots[master.skillGroupId], level);
      u.skills := u.skills[k := rows];
    }
    if master.abilityGroupId in cat.abilitySlots && cat.abilitySlots[master.abilityGroupId] != [] {
      var level := SKILL_MAX_LEVEL;
      if master.enhanceId in cat.abilityMaxLevelByEnhanceId {
        level := cat.abilityMaxLevelByEnhanceId[master.enhanceId](LIMIT_BREAK_MAX);
      }
      var rows := RebuildRows(k, cat.abilitySlots[master.abilityGroupId], level);
      u.abilities := u.abilities[k := rows];
    }
  }

  method RebuildOwnRows(u: User, cat: Catalog, k: string, finalId: int, now: int)
    requires finalId in cat.weapons
    modifies u`awakens, u`skills, u`abilities
    ensures (u.awakens, u.skills, u.abilities) ==
      OwnRows(cat, k, finalId, now, old(u.awakens), old(u.skills), old(u.abilities))
  {
    if finalId in cat.awakenLevelLimitUp && k !in u.awakens {
      u.awakens := u.awakens[k := now];
    }
    RebuildSlots(u, cat, k, cat.weapons[finalId]);
  }

  method MaxWeapon(cat: Catalog, finalId: int, weapon: Weapon, now: int) returns (upgraded: Weapon)
    requires cat.Valid() && finalId == cat.FinalId(weapon.weaponId) && finalId in cat.weapons
    ensures upgraded == Upgraded(cat, weapon, now)
  {
    var level, exp := weapon.level, weapon.exp;
    var cap := cat.CapLevel(finalId);
    var leveling := Count(cat.levelingEnhanceIdByWeaponId, finalId);
    if leveling in cat.expByEnhanceId && cap > 0 {
      var thresholds := cat.expByEnhanceId[leveling];
      exp := if cap < |thresholds| then thresholds[cap] else thresholds[|thresholds| - 1];
      level, exp := LevelAndCap(exp, thresholds);
      if level > cap {
        level := cap;
      }
    } else if cap > 0 {
      level := cap;
    }
    upgraded := Weapon(finalId, level, exp, LIMIT_BREAK_MAX, now);
  }

  /** With a cap and non-decreasing thresholds, the level stored is the one the server computes. */
  lemma UpgradedAsServer(cat: Catalog, weapon: Weapon, now: int)
    requires cat.Valid() && Mastered(cat, weapon)
    requires var id := cat.FinalId(weapon.weaponId);
      cat.CapLevel(id) > 0 && Count(cat.levelingEnhanceIdByWeaponId, id) in cat.expByEnhanceId &&
      NonDecreasing(cat.expByEnhanceId[Count(cat.levelingEnhanceIdByWeaponId, id)])
    ensures
      var id := cat.FinalId(weapon.weaponId);
      var thresholds := cat.expByEnhanceId[Count(cat.levelingEnhanceIdByWeaponId, id)];
      var w := Upgraded(cat, weapon, now);
      (w.level, w.exp) == Applied(thresholds[|thresholds| - 1], thresholds, cat.CapLevel(id)) &&
      w.level <= cat.CapLevel(id)
  {
    var id := cat.FinalId(weapon.weaponId);
    var thresholds := cat.expByEnhanceId[Count(cat.levelingEnhanceIdByWeaponId, id)];
    MassLevelIsServerLevel(thresholds, cat.CapLevel(id));
  }

  /** The steps between forwarding and unlocking, for a weapon with a master row. */
  method MaxOut(u: User, cat: Catalog, k: string, finalId: int, now: int, ghost s: State, ghost done: set<string>)
    returns (level: int)
    requires cat.Valid() && k in s.weapons && Mastered(cat, s.weapons[k]) && k !in done
    requires finalId == cat.FinalId(s.weapons[k].weaponId) && OthersAfter(cat, s, done, now, u.Snapshot())
    modifies u
    ensures OthersAfter(cat, s, done + {k}, now, u.Snapshot()) && u.stories == old(u.stories)
    ensures level == LevelAndExp(cat, finalId, s.weapons[k]).0 && Owns(u.weapons, finalId)
  {
    ghost var before := u.Snapshot();
    var upgraded := MaxWeapon(cat, finalId, u.weapons[k], now);
    level := upgraded.level;
    RebuildOwnRows(u, cat, k, finalId, now);
    UpdateNote(u, cat, k, finalId, level, now, s, done);
    u.weapons := u.weapons[k := upgraded];
    MasteredDone(cat, s, done, k, now, before, u.Snapshot());
    assert u.weapons[k].weaponId == finalId;
  }

  /** One more weapon, at the end of any visiting order so far. */
  method UpgradeWeapon(u: User, cat: Catalog, k: string, now: int, ghost s: State, ghost done: set<string>,
                       ghost order: seq<string>)
    returns (applied: bool)
    requires cat.Valid() && k in s.weapons && k !in done && VisitedIn(cat, s, order, done, now, u.Snapshot())
    modifies u
    ensures VisitedIn(cat, s, order + [k], done + {k}, now, u.Snapshot())
    ensures applied <==> Mastered(cat, s.weapons[k])
  {
    ghost var before := u.Snapshot();
    var weapon := u.weapons[k];
    var oldId := weapon.weaponId;
    var finalId := WalkToEnd(cat.evolutionNext, oldId);
    ghost var first := u.stories;
    ForwardStory(u, oldId, finalId, now);
    ghost var forwarded := u.stories;
    OthersIgnoreStories(cat, s, done, now, before, u.Snapshot());
    if finalId !in cat.weapons {
      UnmasteredDone(cat, s, done, k, now, u.Snapshot());
      OneMoreRow(cat, s, order, k, now, first, forwarded, u.stories);
      NowVisited(cat, s, order, done, k, now, u.Snapshot());
      return false;
    }
    var level := MaxOut(u, cat, k, finalId, now, s, done);
    ghost var maxed := u.Snapshot();
    UnlockStories(u, cat, finalId, level, now);
    OthersIgnoreStories(cat, s, done + {k}, now, maxed, u.Snapshot());
    OneMoreRow(cat, s, order, k, now, first, forwarded, u.stories);
    NowVisited(cat, s, order, done, k, now, u.Snapshot());
    return true;
  }

  lemma OthersIgnoreStories(cat: Catalog, s: State, done: set<string>, now: int, a: State, b: State)
    requires cat.Valid() && OthersAfter(cat, s, done, now, a) && b == a.(stories := b.stories)
    ensures OthersAfter(cat, s, done, now, b)
  {
  }

  /** Forwarding and then unlocking is one more step of every row. */
  lemma OneMoreRow(cat: Catalog, s: State, order: seq<string>, k: string, now: int, first: map<int, Story>,
                   forwarded: map<int, Story>, last: map<int, Story>)
    requires cat.Valid() && k in s.weapons && AllOwned(s, order) && StoriesRun(cat, s, order, now, first)
    requires
      var old_, id := s.weapons[k].weaponId, cat.FinalId(s.weapons[k].weaponId);
      RowUpdated(first, forwarded, id,
                 if id != old_ && old_ in first then Forward(id, Get(first, id), first[old_].releasedMaxStoryIndex, now)
                 else Get(first, id)) &&
      RowUpdated(forwarded, last, id,
                 if id in cat.weapons
                 then UnlockAll(cat, id, LevelAndExp(cat, id, s.weapons[k]).0, cat.ReleaseConditions(id),
                                Get(forwarded, id), now)
                 else Get(forwarded, id))
    ensures AllOwned(s, order + [k]) && StoriesRun(cat, s, order + [k], now, last)
  {
    var old_ := s.weapons[k].weaponId;
    FinalStep(cat.evolutionNext, old_);
    if old_ in cat.evolutionNext {
      SourceRowUnchanged(cat, s, Get(s.stories, old_), order, old_, now);
      assert Get(first, old_) == Get(s.stories, old_);
    }
    forall t ensures Get(last, t) == RowRun(cat, s, Get(s.stories, t), order + [k], t, now) {
      assert Get(first, t) == RowRun(cat, s, Get(s.stories, t), order, t, now);
      assert Get(last, t) == RowStep(cat, s, k, t, Get(first, t), now);
      RunOneMore(cat, s, Get(s.stories, t), order, k, t, now);
    }
  }

  /** Story rows of ids that evolve further are never written, so reading one gives its first value. */
  lemma {:induction false} SourceRowUnchanged(cat: Catalog, s: State, row: Option<Story>, order: seq<string>, id: int,
                                              now: int)
    requires cat.Valid() && AllOwned(s, order) && id in cat.evolutionNext
    ensures RowRun(cat, s, row, order, id, now) == row
  {
    if order != [] {
      SourceRowUnchanged(cat, s, row, order[..|order| - 1], id, now);
    }
  }

  // ---------------------------------------------------------------------------
  // All weapons
  // ---------------------------------------------------------------------------

  /** The weapons with a master row at the end of their chain. */
  ghost function MasteredWeapons(cat: Catalog, s: State): set<string>
    requires cat.Valid()
  {
    set k | k in s.weapons && Mastered(cat, s.weapons[k])
  }

  ghost function CountMastered(cat: Catalog, s: State, done: set<string>): nat
    requires cat.Valid()
  {
    |MasteredWeapons(cat, s) * done|
  }

  lemma CountOneMore(cat: Catalog, s: State, done: set<string>, k: string)
    requires cat.Valid() && k in s.weapons && k !in done
    ensures CountMastered(cat, s, done + {k}) ==
      CountMastered(cat, s, done) + if Mastered(cat, s.weapons[k]) then 1 else 0
  {
    var all := MasteredWeapons(cat, s);
    if k in all {
      assert all * (done + {k}) == all * done + {k};
    } else {
      assert all * (done + {k}) == all * done;
    }
  }

  lemma CountAll(cat: Catalog, s: State)
    requires cat.Valid()
    ensures CountMastered(cat, s, {}) == 0
    ensures CountMastered(cat, s, s.weapons.Keys) == |MasteredWeapons(cat, s)|
  {
    assert MasteredWeapons(cat, s) * s.weapons.Keys == MasteredWeapons(cat, s);
    assert MasteredWeapons(cat, s) * {} == {};
  }

  /** The whole upgrade; the weapons come in any order. */
  method UpgradeAllWeapons(u: User, cat: Catalog, now: int) returns (applied: nat)
    requires cat.Valid()
    modifies u
    ensures Outcome(cat, old(u.Snapshot()), now, u.Snapshot())
    ensures OrderFree(cat, old(u.Snapshot())) ==> After(cat, old(u.Snapshot()), old(u.weapons).Keys, now, u.Snapshot())
    ensures applied == |MasteredWeapons(cat, old(u.Snapshot()))|
  {
    ghost var s := u.Snapshot();
    ghost var all := u.weapons.Keys;
    ghost var order: seq<string> := [];
    NothingDone(cat, s, now);
    Remaining(all, all);
    CountAll(cat, s);
    applied := 0;
    var todo := u.weapons.Keys;
    while todo != {}
      invariant todo <= all && VisitedIn(cat, s, order, all - todo, now, u.Snapshot())
      invariant applied == CountMastered(cat, s, all - todo)
      decreases todo
    {
      var k := Choose(todo);
      var one := UpgradeWeapon(u, cat, k, now, s, all - todo, order);
      CountOneMore(cat, s, all - todo, k);
      if one {
        applied := applied + 1;
      }
      MoveOne(all, todo, k);
      order := order + [k];
      todo := todo - {k};
    }
    Remaining(all, todo);
    AllVisited(cat, s, order, now, u.Snapshot());
  }

  lemma AllVisited(cat: Catalog, s: State, order: seq<string>, now: int, r: State)
    requires cat.Valid() && VisitedIn(cat, s, order, s.weapons.Keys, now, r)
    ensures Outcome(cat, s, now, r)
    ensures OrderFree(cat, s) ==> After(cat, s, s.weapons.Keys, now, r)
  {
    if OrderFree(cat, s) {
      AnyOrderIsAfter(cat, s, order, now, r.stories);
    }
  }

  lemma Remaining(all: set<string>, todo: set<string>)
    ensures todo == {} ==> all - todo == all
    ensures todo == all ==> all - todo == {}
  {
  }

  lemma MoveOne(all: set<string>, todo: set<string>, k: string)
    requires k in todo && todo <= all
    ensures all - (todo - {k}) == (all - todo) + {k}
  {
  }
}
