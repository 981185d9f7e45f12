/** The rows of a mass upgrade, and what one loop over the weapons leaves in them (cmd/lunar-base-grant). */
module MassUpgradeState {
  import opened Common
  import opened Evolution
  import opened Exp

  // The rows of cmd/lunar-base-grant/mass_upgrades.go, and what one loop over the weapons
  // leaves in them. Everything but the story rows depends only on which weapons were
  // visited; a story row is a function of the visiting order. The relation After describes
  // the whole state without any order.

  const LIMIT_BREAK_MAX := 4
  const SKILL_MAX_LEVEL := 15

  datatype Weapon = Weapon(weaponId: int, level: int, exp: int, limitBreakCount: int, latestVersion: int)

  datatype Story = Story(weaponId: int, releasedMaxStoryIndex: int, latestVersion: int)

  datatype Note = Note(weaponId: int, maxLevel: int, maxLimitBreakCount: int,
                       firstAcquisitionDatetime: int, latestVersion: int)

  datatype SlotLevel = SlotLevel(weaponUuid: string, slotNumber: int, level: int)

  datatype Master = Master(enhanceId: int, skillGroupId: int, abilityGroupId: int, storyGroupId: int)

  datatype ReleaseCondition = ReleaseCondition(storyIndex: int, conditionType: int, conditionValue: int)

  const RELEASE_ACQUISITION := 1
  const RELEASE_SPECIFIED_LEVEL := 2
  const RELEASE_INITIAL_MAX_LEVEL := 3
  const RELEASE_ONCE_EVOLVED_MAX_LEVEL := 4
  const RELEASE_EVOLUTION_COUNT := 5

  function Get<K, V>(m: map<K, V>, k: K): Option<V> {
    if k in m then Some(m[k]) else None
  }

  /** The parts of the weapon catalog the upgrade reads; a level function takes the limit-break count. */
  datatype Catalog = Catalog(
    weapons: map<int, Master>,
    evolutionNext: Next,
    evolutionOrder: map<int, int>,
    awakenLevelLimitUp: map<int, int>,
    maxLevelByEnhanceId: map<int, int -> int>,
    levelingEnhanceIdByWeaponId: map<int, int>,
    expByEnhanceId: map<int, seq<int>>,
    skillSlots: map<int, seq<int>>,
    skillMaxLevelByEnhanceId: map<int, int -> int>,
    abilitySlots: map<int, seq<int>>,
    abilityMaxLevelByEnhanceId: map<int, int -> int>,
    releaseConditions: map<int, seq<ReleaseCondition>>)
  {
    /** Evolution chains end, and no experience table is empty. */
    ghost predicate Valid() {
      (forall id :: Ends(evolutionNext, id)) && forall e :: e in expByEnhanceId ==> expByEnhanceId[e] != []
    }

    ghost function FinalId(id: int): int
      requires Valid()
    {
      Final(evolutionNext, id)
    }

    function CapLevel(id: int): int
      requires id in weapons
    {
      (if weapons[id].enhanceId in maxLevelByEnhanceId then maxLevelByEnhanceId[weapons[id].enhanceId](LIMIT_BREAK_MAX)
       else 0) +
      (if id in awakenLevelLimitUp then awakenLevelLimitUp[id] else 0)
    }

    function ReleaseConditions(id: int): seq<ReleaseCondition>
      requires id in weapons
    {
      var group := weapons[id].storyGroupId;
      if group != 0 && group in releaseConditions then releaseConditions[group] else []
    }

    /** Does a weapon of this id and level meet the condition? */
    predicate Meets(id: int, level: int, cond: ReleaseCondition)
      requires id in weapons
    {
      var enhanceId := weapons[id].enhanceId;
      var initialMax := enhanceId in maxLevelByEnhanceId && level >= maxLevelByEnhanceId[enhanceId](0);
      match cond.conditionType
      case RELEASE_ACQUISITION => true
      case RELEASE_SPECIFIED_LEVEL => level >= cond.conditionValue
      case RELEASE_INITIAL_MAX_LEVEL => initialMax
      case RELEASE_ONCE_EVOLVED_MAX_LEVEL => id in evolutionOrder && evolutionOrder[id] >= 1 && initialMax
      case RELEASE_EVOLUTION_COUNT => id in evolutionOrder && evolutionOrder[id] >= cond.conditionValue
      case _ => false
    }

    function SkillRows(uuid: string, id: int): Option<seq<SlotLevel>>
      requires id in weapons
    {
      SlotRows(uuid, weapons[id].enhanceId, weapons[id].skillGroupId, skillSlots, skillMaxLevelByEnhanceId)
    }

    function AbilityRows(uuid: string, id: int): Option<seq<SlotLevel>>
      requires id in weapons
    {
      SlotRows(uuid, weapons[id].enhanceId, weapons[id].abilityGroupId, abilitySlots, abilityMaxLevelByEnhanceId)
    }
  }

  // ---------------------------------------------------------------------------
  // One weapon
  // ---------------------------------------------------------------------------

  /** The rebuilt rows of a weapon, or None when its group has no slots. */
  function SlotRows(uuid: string, enhanceId: int, groupId: int,
                    slotsByGroup: map<int, seq<int>>, maxLevelByEnhanceId: map<int, int -> int>): Option<seq<SlotLevel>>
  {
    if groupId !in slotsByGroup || slotsByGroup[groupId] == [] then None
    else
      var level :=
        if enhanceId in maxLevelByEnhanceId then maxLevelByEnhanceId[enhanceId](LIMIT_BREAK_MAX) else SKILL_MAX_LEVEL;
      Some(RowsAt(uuid, slotsByGroup[groupId], level))
  }

  /** One row per distinct slot, in order of first occurrence. */
  function RowsAt(uuid: string, slots: seq<int>, level: int): seq<SlotLevel> {
    if slots == [] then []
    else
      var n := |slots| - 1;
      RowsAt(uuid, slots[..n], level) + if slots[n] in slots[..n] then [] else [SlotLevel(uuid, slots[n], level)]
  }

  /** Every slot of the group gets exactly one row, at the given level. */
  lemma {:induction false} RowsCoverSlots(uuid: string, slots: seq<int>, level: int)
    ensures var rows := RowsAt(uuid, slots, level);
      (forall r :: r in rows <==> r.weaponUuid == uuid && r.level == level && r.slotNumber in slots) &&
      forall i, j :: 0 <= i < j < |rows| ==> rows[i].slotNumber != rows[j].slotNumber
  {
    if slots != [] {
      var n := |slots| - 1;
      RowsCoverSlots(uuid, slots[..n], level);
      assert slots == slots[..n] + [slots[n]];
      var before, rows := RowsAt(uuid, slots[..n], level), RowsAt(uuid, slots, level);
      forall r: SlotLevel | r.weaponUuid == uuid && r.level == level && r.slotNumber in slots ensures r in rows {
        if r.slotNumber in slots[..n] { assert r in before; }
      }
      forall i, j | 0 <= i < j < |rows| ensures rows[i].slotNumber != rows[j].slotNumber {
        assert before[i] in before;
      }
    }
  }

  /** The level and experience a weapon of final id `id` ends with. */
  function LevelAndExp(cat: Catalog, id: int, weapon: Weapon): (int, int)
    requires id in cat.weapons
    requires forall e :: e in cat.expByEnhanceId ==> cat.expByEnhanceId[e] != []
  {
    var cap := cat.CapLevel(id);
    var leveling := Count(cat.levelingEnhanceIdByWeaponId, id);
    if cap <= 0 then (weapon.level, weapon.exp)
    else if leveling in cat.expByEnhanceId then MassLevel(cat.expByEnhanceId[leveling], cap)
    else (cap, weapon.exp)
  }

  ghost predicate Mastered(cat: Catalog, weapon: Weapon)
    requires cat.Valid()
  {
    cat.FinalId(weapon.weaponId) in cat.weapons
  }

  ghost function Upgraded(cat: Catalog, weapon: Weapon, now: int): Weapon
    requires cat.Valid() && Mastered(cat, weapon)
  {
    var id := cat.FinalId(weapon.weaponId);
    var (level, exp) := LevelAndExp(cat, id, weapon);
    Weapon(id, level, exp, LIMIT_BREAK_MAX, now)
  }

  /** The rows keyed by the weapon itself: awakening once if eligible, slots when its groups have any. */
  function OwnRows(cat: Catalog, k: string, id: int, now: int, awakens: map<string, int>,
                   skills: map<string, seq<SlotLevel>>, abilities: map<string, seq<SlotLevel>>)
    : (map<string, int>, map<string, seq<SlotLevel>>, map<string, seq<SlotLevel>>)
    requires id in cat.weapons
  {
    (if id in cat.awakenLevelLimitUp && k !in awakens then awakens[k := now] else awakens,
     var rows := cat.SkillRows(k, id); if rows.Some? then skills[k := rows.value] else skills,
     var rows := cat.AbilityRows(k, id); if rows.Some? then abilities[k := rows.value] else abilities)
  }

  // ---------------------------------------------------------------------------
  // The whole state, with no mention of order
  // ---------------------------------------------------------------------------

  datatype State = State(
    weapons: map<string, Weapon>,
    stories: map<int, Story>,
    notes: map<int, Note>,
    awakens: map<string, int>,
    skills: map<string, seq<SlotLevel>>,
    abilities: map<string, seq<SlotLevel>>)

  /** k is among the weapons done and has a master row at the end of its chain. */
  ghost predicate Changed(cat: Catalog, s: State, done: set<string>, k: string)
    requires cat.Valid()
  {
    k in done && k in s.weapons && Mastered(cat, s.weapons[k])
  }

  ghost predicate WeaponsAfter(cat: Catalog, s: State, done: set<string>, now: int, weapons: map<string, Weapon>)
    requires cat.Valid()
  {
    weapons.Keys == s.weapons.Keys &&
    forall k :: k in weapons ==>
      weapons[k] == if Changed(cat, s, done, k) then Upgraded(cat, s.weapons[k], now) else s.weapons[k]
  }

  ghost predicate AwakensAfter(cat: Catalog, s: State, done: set<string>, now: int, awakens: map<string, int>)
    requires cat.Valid()
  {
    forall k :: Get(awakens, k) ==
      if Changed(cat, s, done, k) && cat.FinalId(s.weapons[k].weaponId) in cat.awakenLevelLimitUp && k !in s.awakens
      then Some(now) else Get(s.awakens, k)
  }

  ghost predicate SkillsAfter(cat: Catalog, s: State, done: set<string>, skills: map<string, seq<SlotLevel>>)
    requires cat.Valid()
  {
    forall k :: Get(skills, k) ==
      if Changed(cat, s, done, k) && cat.SkillRows(k, cat.FinalId(s.weapons[k].weaponId)).Some?
      then cat.SkillRows(k, cat.FinalId(s.weapons[k].weaponId)) else Get(s.skills, k)
  }

  ghost predicate AbilitiesAfter(cat: Catalog, s: State, done: set<string>, abilities: map<string, seq<SlotLevel>>)
    requires cat.Valid()
  {
    forall k :: Get(abilities, k) ==
      if Changed(cat, s, done, k) && cat.AbilityRows(k, cat.FinalId(s.weapons[k].weaponId)).Some?
      then cat.AbilityRows(k, cat.FinalId(s.weapons[k].weaponId)) else Get(s.abilities, k)
  }

  /** Weapon k hands story index j of its old id on to the id t its chain ends at. */
  ghost predicate ForwardsTo(cat: Catalog, s: State, k: string, t: int, j: int)
    requires cat.Valid()
  {
    k in s.weapons &&
    var old_ := s.weapons[k].weaponId;
    cat.FinalId(old_) == t && t != old_ && old_ in s.stories && s.stories[old_].releasedMaxStoryIndex == j
  }

  ghost function Forwarded(cat: Catalog, s: State, done: set<string>, t: int): iset<int>
    requires cat.Valid()
  {
    iset j | AnyForwards(cat, s, done, t, j)
  }

  ghost predicate AnyForwards(cat: Catalog, s: State, done: set<string>, t: int, j: int)
    requires cat.Valid()
  {
    exists k :: k in done && ForwardsTo(cat, s, k, t, j)
  }

  /** The story indices among the first n conditions that weapon k meets once upgraded. */
  ghost predicate UnlocksAmong(cat: Catalog, s: State, k: string, t: int, n: nat, j: int)
    requires cat.Valid()
  {
    k in s.weapons && cat.FinalId(s.weapons[k].weaponId) == t && t in cat.weapons &&
    exists i :: 0 <= i < n && i < |cat.ReleaseConditions(t)| && cat.ReleaseConditions(t)[i].storyIndex == j &&
      cat.Meets(t, LevelAndExp(cat, t, s.weapons[k]).0, cat.ReleaseConditions(t)[i])
  }

  ghost predicate Unlocks(cat: Catalog, s: State, k: string, t: int, j: int)
    requires cat.Valid()
  {
    k in s.weapons && cat.FinalId(s.weapons[k].weaponId) == t && t in cat.weapons &&
    UnlocksAmong(cat, s, k, t, |cat.ReleaseConditions(t)|, j)
  }

  ghost function Unlocked(cat: Catalog, s: State, done: set<string>, t: int): iset<int>
    requires cat.Valid()
  {
    iset j | AnyUnlocks(cat, s, done, t, j)
  }

  ghost predicate AnyUnlocks(cat: Catalog, s: State, done: set<string>, t: int, j: int)
    requires cat.Valid()
  {
    exists k :: k in done && Unlocks(cat, s, k, t, j)
  }

  function Index(story: Option<Story>): int {
    if story.Some? then story.value.releasedMaxStoryIndex else 0
  }

  ghost predicate Raises(before: Option<Story>, forwarded: iset<int>, unlocked: iset<int>) {
    (before.None? && exists j :: j in forwarded) || exists j :: j in forwarded + unlocked && j > Index(before)
  }

  /**
   * A story row after story indices were forwarded to it and unlocked for it:
   * raised to their maximum if that is an increase, or if forwarding creates
   * the row; otherwise left alone.
   */
  ghost predicate StoryRow(t: int, before: Option<Story>, forwarded: iset<int>, unlocked: iset<int>, now: int,
                           after: Option<Story>)
  {
    if Raises(before, forwarded, unlocked) then
      after.Some? && after.value == Story(t, after.value.releasedMaxStoryIndex, now) &&
      after.value.releasedMaxStoryIndex in forwarded + unlocked &&
      forall j :: j in forwarded + unlocked ==> j <= after.value.releasedMaxStoryIndex
    else after == before
  }

  ghost predicate StoriesAfter(cat: Catalog, s: State, done: set<string>, now: int, stories: map<int, Story>)
    requires cat.Valid()
  {
    forall t ::
      StoryRow(t, Get(s.stories, t), Forwarded(cat, s, done, t), Unlocked(cat, s, done, t), now, Get(stories, t))
  }

  /** The levels the weapons done report to the note of id t. */
  ghost function Reported(cat: Catalog, s: State, done: set<string>, t: int): iset<int>
    requires cat.Valid()
  {
    iset l | AnyReports(cat, s, done, t, l)
  }

  ghost predicate AnyReports(cat: Catalog, s: State, done: set<string>, t: int, level: int)
    requires cat.Valid()
  {
    exists k :: Reports(cat, s, done, k, t, level)
  }

  ghost predicate Reports(cat: Catalog, s: State, done: set<string>, k: string, t: int, level: int)
    requires cat.Valid()
  {
    Changed(cat, s, done, k) && cat.FinalId(s.weapons[k].weaponId) == t && LevelAndExp(cat, t, s.weapons[k]).0 == level
  }

  const NO_NOTE := Note(0, 0, 0, 0, 0)

  /** A note row keeps the highest level reported, from 0 for a new note. */
  ghost predicate NoteRow(t: int, before: Option<Note>, levels: iset<int>, now: int, after: Option<Note>) {
    if exists l :: l in levels then
      var b := if before.Some? then before.value else NO_NOTE;
      var fresh_ := b.weaponId == 0;
      after.Some? &&
      after.value.weaponId == (if fresh_ then t else b.weaponId) &&
      after.value.firstAcquisitionDatetime == (if fresh_ then now else b.firstAcquisitionDatetime) &&
      after.value.maxLimitBreakCount == Max(b.maxLimitBreakCount, LIMIT_BREAK_MAX) &&
      after.value.latestVersion == now &&
      (after.value.maxLevel == b.maxLevel || after.value.maxLevel in levels) &&
      b.maxLevel <= after.value.maxLevel &&
      forall l :: l in levels ==> l <= after.value.maxLevel
    else after == before
  }

  ghost predicate NotesAfter(cat: Catalog, s: State, done: set<string>, now: int, notes: map<int, Note>)
    requires cat.Valid()
  {
    forall t :: NoteRow(t, Get(s.notes, t), Reported(cat, s, done, t), now, Get(notes, t))
  }

  /** Everything but the story rows once the weapons of `done` were upgraded. */
  ghost predicate OthersAfter(cat: Catalog, s: State, done: set<string>, now: int, r: State)
    requires cat.Valid()
  {
    WeaponsAfter(cat, s, done, now, r.weapons) &&
    AwakensAfter(cat, s, done, now, r.awakens) &&
    SkillsAfter(cat, s, done, r.skills) &&
    AbilitiesAfter(cat, s, done, r.abilities) &&
    NotesAfter(cat, s, done, now, r.notes)
  }

  /** The state once the weapons of `done` were upgraded. */
  ghost predicate After(cat: Catalog, s: State, done: set<string>, now: int, r: State)
    requires cat.Valid()
  {
    OthersAfter(cat, s, done, now, r) && StoriesAfter(cat, s, done, now, r.stories)
  }

  // ---------------------------------------------------------------------------
  // Story rows, order by order
  // ---------------------------------------------------------------------------

  /** Forwarding creates a missing row and otherwise only raises. */
  function Forward(t: int, row: Option<Story>, j: int, now: int): Option<Story> {
    if row.None? || row.value.releasedMaxStoryIndex < j then Some(Story(t, j, now)) else row
  }

  /** Unlocking compares with index 0 when the row is missing. */
  function Unlock(t: int, row: Option<Story>, j: int, now: int): Option<Story> {
    if j > Index(row) then Some(Story(t, j, now)) else row
  }

  /** The two kinds of story writes commute on every row exactly when the unlocked index is positive or no greater. */
  lemma CommuteExactly(t: int, j: int, g: int, now: int)
    ensures g > 0 || g <= j <==>
      forall row: Option<Story> ::
        Unlock(t, Forward(t, row, j, now), g, now) == Forward(t, Unlock(t, row, g, now), j, now)
  {
    if j < g <= 0 {
      var row: Option<Story> := None;
      assert Unlock(t, Forward(t, row, j, now), g, now) != Forward(t, Unlock(t, row, g, now), j, now);
    }
  }

  /** The release conditions met, one after the other. */
  function UnlockAll(cat: Catalog, t: int, level: int, conditions: seq<ReleaseCondition>, row: Option<Story>, now: int)
    : Option<Story>
    requires t in cat.weapons
  {
    if conditions == [] then row
    else
      var last := conditions[|conditions| - 1];
      var before := UnlockAll(cat, t, level, conditions[..|conditions| - 1], row, now);
      if cat.Meets(t, level, last) then Unlock(t, before, last.storyIndex, now) else before
  }

  /** What weapon k does to the row of id t: forward its old story, then unlock what it meets. */
  ghost function RowStep(cat: Catalog, s: State, k: string, t: int, row: Option<Story>, now: int): Option<Story>
    requires cat.Valid() && k in s.weapons
  {
    var weapon := s.weapons[k];
    if cat.FinalId(weapon.weaponId) != t then row
    else
      var forwarded := if t != weapon.weaponId && weapon.weaponId in s.stories
        then Forward(t, row, s.stories[weapon.weaponId].releasedMaxStoryIndex, now) else row;
      if t in cat.weapons
      then UnlockAll(cat, t, LevelAndExp(cat, t, weapon).0, cat.ReleaseConditions(t), forwarded, now) else forwarded
  }

  ghost predicate AllOwned(s: State, order: seq<string>) {
    forall i :: 0 <= i < |order| ==> order[i] in s.weapons
  }

  /** The row of id t after the weapons were visited in this order. */
  ghost function RowRun(cat: Catalog, s: State, row: Option<Story>, order: seq<string>, t: int, now: int): Option<Story>
    requires cat.Valid() && AllOwned(s, order)
  {
    if order == [] then row
    else RowStep(cat, s, order[|order| - 1], t, RowRun(cat, s, row, order[..|order| - 1], t, now), now)
  }

  ghost predicate StoriesRun(cat: Catalog, s: State, order: seq<string>, now: int, stories: map<int, Story>)
    requires cat.Valid() && AllOwned(s, order)
  {
    forall t :: Get(stories, t) == RowRun(cat, s, Get(s.stories, t), order, t, now)
  }

  /** The weapons of `done` were visited in this order. */
  ghost predicate VisitedIn(cat: Catalog, s: State, order: seq<string>, done: set<string>, now: int, r: State)
    requires cat.Valid()
  {
    Lists(order, done) && AllOwned(s, order) && OthersAfter(cat, s, done, now, r) &&
    StoriesRun(cat, s, order, now, r.stories)
  }

  /** A possible result of the whole upgrade: some order of the weapons leaves it. */
  ghost predicate Outcome(cat: Catalog, s: State, now: int, r: State)
    requires cat.Valid()
  {
    OthersAfter(cat, s, s.weapons.Keys, now, r) &&
    exists order :: Lists(order, s.weapons.Keys) && AllOwned(s, order) && StoriesRun(cat, s, order, now, r.stories)
  }

  // ---------------------------------------------------------------------------
  // One more weapon
  // ---------------------------------------------------------------------------

  lemma NoteReport(t: int, before: Option<Note>, levels: iset<int>, now: int, row: Option<Note>, level: int,
                   raised: Note)
    requires NoteRow(t, before, levels, now, row)
    requires
      var b := if row.Some? then row.value else NO_NOTE;
      raised == Note(if b.weaponId == 0 then t else b.weaponId, Max(b.maxLevel, level),
                     Max(b.maxLimitBreakCount, LIMIT_BREAK_MAX),
                     if b.weaponId == 0 then now else b.firstAcquisitionDatetime, now)
    ensures NoteRow(t, before, levels + iset{level}, now, Some(raised))
  {
    assert level in levels + iset{level};
  }

  lemma ReportedAdd(cat: Catalog, s: State, done: set<string>, k: string, t: int)
    requires cat.Valid() && k in s.weapons
    ensures
      Reported(cat, s, done + {k}, t) ==
        if Mastered(cat, s.weapons[k]) && cat.FinalId(s.weapons[k].weaponId) == t
        then Reported(cat, s, done, t) + iset{LevelAndExp(cat, t, s.weapons[k]).0}
        else Reported(cat, s, done, t)
  {
    forall l ensures l in Reported(cat, s, done + {k}, t) <==>
        l in Reported(cat, s, done, t) || Reports(cat, s, {k}, k, t, l) {
      if Reports(cat, s, {k}, k, t, l) { assert Reports(cat, s, done + {k}, k, t, l); }
      if l in Reported(cat, s, done, t) {
        var h :| Reports(cat, s, done, h, t, l);
        assert Reports(cat, s, done + {k}, h, t, l);
      }
      if l in Reported(cat, s, done + {k}, t) {
        var h :| Reports(cat, s, done + {k}, h, t, l);
        assert if h == k then Reports(cat, s, {k}, k, t, l) else Reports(cat, s, done, h, t, l);
      }
    }
  }

  lemma MasteredDone(cat: Catalog, s: State, done: set<string>, k: string, now: int, before: State, r: State)
    requires cat.Valid() && k in s.weapons && Mastered(cat, s.weapons[k]) && k !in done
    requires WeaponsAfter(cat, s, done, now, before.weapons) && AwakensAfter(cat, s, done, now, before.awakens)
    requires SkillsAfter(cat, s, done, before.skills) && AbilitiesAfter(cat, s, done, before.abilities)
    requires NotesAfter(cat, s, done + {k}, now, r.notes)
    requires r.weapons == before.weapons[k := Upgraded(cat, s.weapons[k], now)]
    requires (r.awakens, r.skills, r.abilities) ==
      OwnRows(cat, k, cat.FinalId(s.weapons[k].weaponId), now, before.awakens, before.skills, before.abilities)
    ensures OthersAfter(cat, s, done + {k}, now, r)
  {
    WeaponsDone(cat, s, done, k, now, before.weapons);
    AwakensDone(cat, s, done, k, now, before.awakens);
    SkillsDone(cat, s, done, k, before.skills);
    AbilitiesDone(cat, s, done, k, before.abilities);
  }

  lemma WeaponsDone(cat: Catalog, s: State, done: set<string>, k: string, now: int, before: map<string, Weapon>)
    requires cat.Valid() && k in s.weapons && Mastered(cat, s.weapons[k])
    requires WeaponsAfter(cat, s, done, now, before)
    ensures WeaponsAfter(cat, s, done + {k}, now, before[k := Upgraded(cat, s.weapons[k], now)])
  {
  }

  lemma AwakensDone(cat: Catalog, s: State, done: set<string>, k: string, now: int, before: map<string, int>)
    requires cat.Valid() && k in s.weapons && Mastered(cat, s.weapons[k]) && k !in done
    requires AwakensAfter(cat, s, done, now, before)
    ensures AwakensAfter(cat, s, done + {k}, now,
      if cat.FinalId(s.weapons[k].weaponId) in cat.awakenLevelLimitUp && k !in before then before[k := now] else before)
  {
    assert Get(before, k) == Get(s.awakens, k);
  }

  lemma SkillsDone(cat: Catalog, s: State, done: set<string>, k: string, before: map<string, seq<SlotLevel>>)
    requires cat.Valid() && k in s.weapons && Mastered(cat, s.weapons[k]) && k !in done
    requires SkillsAfter(cat, s, done, before)
    ensures
      var rows := cat.SkillRows(k, cat.FinalId(s.weapons[k].weaponId));
      SkillsAfter(cat, s, done + {k}, if rows.Some? then before[k := rows.value] else before)
  {
    assert Get(before, k) == Get(s.skills, k);
  }

  lemma AbilitiesDone(cat: Catalog, s: State, done: set<string>, k: string, before: map<string, seq<SlotLevel>>)
    requires cat.Valid() && k in s.weapons && Mastered(cat, s.weapons[k]) && k !in done
    requires AbilitiesAfter(cat, s, done, before)
    ensures
      var rows := cat.AbilityRows(k, cat.FinalId(s.weapons[k].weaponId));
      AbilitiesAfter(cat, s, done + {k}, if rows.Some? then before[k := rows.value] else before)
  {
    assert Get(before, k) == Get(s.abilities, k);
  }

  /** A weapon with no master row changes nothing but the story it forwards. */
  lemma UnmasteredDone(cat: Catalog, s: State, done: set<string>, k: string, now: int, r: State)
    requires cat.Valid() && k in s.weapons && !Mastered(cat, s.weapons[k]) && OthersAfter(cat, s, done, now, r)
    ensures OthersAfter(cat, s, done + {k}, now, r)
  {
    assert forall h :: Changed(cat, s, done + {k}, h) <==> Changed(cat, s, done, h);
    forall t ensures NoteRow(t, Get(s.notes, t), Reported(cat, s, done + {k}, t), now, Get(r.notes, t)) {
      ReportedAdd(cat, s, done, k, t);
    }
  }

  lemma NowVisited(cat: Catalog, s: State, order: seq<string>, done: set<string>, k: string, now: int, r: State)
    requires cat.Valid() && Lists(order, done) && k !in done && AllOwned(s, order + [k])
    requires OthersAfter(cat, s, done + {k}, now, r) && StoriesRun(cat, s, order + [k], now, r.stories)
    ensures VisitedIn(cat, s, order + [k], done + {k}, now, r)
  {
  }

  lemma NothingDone(cat: Catalog, s: State, now: int)
    requires cat.Valid()
    ensures OthersAfter(cat, s, {}, now, s)
  {
    forall t ensures NoteRow(t, Get(s.notes, t), Reported(cat, s, {}, t), now, Get(s.notes, t)) {
      assert Reported(cat, s, {}, t) == iset{};
    }
  }
}
