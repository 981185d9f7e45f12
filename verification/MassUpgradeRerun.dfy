/** Confluence and a second run. */
module MassUpgradeRerun {
  import opened Common
  import opened Evolution
  import opened MassUpgradeState
  import opened MassUpgradeOrder

  // What two runs of cmd/lunar-base-grant/mass_upgrades.go have in common: the same result
  // whatever the order in order-free states, and a second run that moves timestamps only.

  // ---------------------------------------------------------------------------
  // Confluence
  // ---------------------------------------------------------------------------

  lemma SameLookups<K, V>(a: map<K, V>, b: map<K, V>)
    requires forall k :: Get(a, k) == Get(b, k)
    ensures a == b
  {
    forall k ensures k in a <==> k in b {
      assert Get(a, k) == Get(b, k);
    }
    forall k | k in a ensures a[k] == b[k] {
      assert Get(a, k) == Get(b, k);
    }
  }

  lemma StoriesDetermined(cat: Catalog, s: State, done: set<string>, now: int, a: map<int, Story>, b: map<int, Story>)
    requires cat.Valid() && StoriesAfter(cat, s, done, now, a) && StoriesAfter(cat, s, done, now, b)
    ensures a == b
  {
    forall t ensures Get(a, t) == Get(b, t) {
      var row, forwarded, unlocked := Get(s.stories, t), Forwarded(cat, s, done, t), Unlocked(cat, s, done, t);
      assert StoryRow(t, row, forwarded, unlocked, now, Get(a, t)) &&
        StoryRow(t, row, forwarded, unlocked, now, Get(b, t));
    }
    SameLookups(a, b);
  }

  lemma OthersDetermined(cat: Catalog, s: State, done: set<string>, now: int, a: State, b: State)
    requires cat.Valid() && OthersAfter(cat, s, done, now, a) && OthersAfter(cat, s, done, now, b)
    ensures a.(stories := b.stories) == b
  {
    assert a.weapons == b.weapons;
    SameLookups(a.awakens, b.awakens);
    SameLookups(a.skills, b.skills);
    SameLookups(a.abilities, b.abilities);
    forall t ensures Get(a.notes, t) == Get(b.notes, t) {
      assert NoteRow(t, Get(s.notes, t), Reported(cat, s, done, t), now, Get(a.notes, t));
      assert NoteRow(t, Get(s.notes, t), Reported(cat, s, done, t), now, Get(b.notes, t));
    }
    SameLookups(a.notes, b.notes);
  }

  /** The description determines the state. */
  lemma Determined(cat: Catalog, s: State, done: set<string>, now: int, a: State, b: State)
    requires cat.Valid() && After(cat, s, done, now, a) && After(cat, s, done, now, b)
    ensures a == b
  {
    OthersDetermined(cat, s, done, now, a, b);
    StoriesDetermined(cat, s, done, now, a.stories, b.stories);
  }

  /**
   * The upgrade is confluent: in an order-free state every order of the weapons
   * leaves the same result, and only story rows can ever differ.
   */
  lemma Confluent(cat: Catalog, s: State, now: int, a: State, b: State)
    requires cat.Valid() && Outcome(cat, s, now, a) && Outcome(cat, s, now, b)
    ensures a.(stories := b.stories) == b
    ensures OrderFree(cat, s) ==> a == b
  {
    OthersDetermined(cat, s, s.weapons.Keys, now, a, b);
    if OrderFree(cat, s) {
      OutcomeIsAfter(cat, s, now, a);
      OutcomeIsAfter(cat, s, now, b);
      Determined(cat, s, s.weapons.Keys, now, a, b);
    }
  }

  lemma OutcomeIsAfter(cat: Catalog, s: State, now: int, r: State)
    requires cat.Valid() && OrderFree(cat, s) && Outcome(cat, s, now, r)
    ensures After(cat, s, s.weapons.Keys, now, r)
  {
    var order :| Lists(order, s.weapons.Keys) && AllOwned(s, order) && StoriesRun(cat, s, order, now, r.stories);
    AnyOrderIsAfter(cat, s, order, now, r.stories);
  }

  // ---------------------------------------------------------------------------
  // The second run
  // ---------------------------------------------------------------------------

  /** A note of weapon id 0 counts as new each time it is reported, so its first acquisition moves too. */
  predicate NoteRestamped(a: Note, b: Note, now: int) {
    b == a || b == a.(latestVersion := now) ||
    (a.weaponId == 0 && b == a.(latestVersion := now, firstAcquisitionDatetime := now))
  }

  /** b is a, except that the upgraded weapons and the notes they report to carry the time `now`. */
  ghost predicate OnlyRestamped(cat: Catalog, a: State, b: State, now: int)
    requires cat.Valid()
  {
    && b.awakens == a.awakens && b.skills == a.skills && b.abilities == a.abilities && b.stories == a.stories
    && b.weapons.Keys == a.weapons.Keys
    && (forall k :: k in a.weapons ==>
          b.weapons[k] == if Mastered(cat, a.weapons[k]) then a.weapons[k].(latestVersion := now) else a.weapons[k])
    && b.notes.Keys == a.notes.Keys
    && (forall t :: t in a.notes ==> NoteRestamped(a.notes[t], b.notes[t], now))
  }

  /** What a first run leaves of weapon k is what a second run would make of it. */
  lemma UpgradedTwice(cat: Catalog, weapon: Weapon, now: int, later: int)
    requires cat.Valid() && Mastered(cat, weapon)
    ensures
      var w := Upgraded(cat, weapon, now);
      Mastered(cat, w) && cat.FinalId(w.weaponId) == w.weaponId && Upgraded(cat, w, later) == w.(latestVersion := later)
  {
    FinalIsFixed(cat.evolutionNext, weapon.weaponId);
  }

  lemma SameFinals(cat: Catalog, s: State, now: int, r: State, k: string)
    requires cat.Valid() && WeaponsAfter(cat, s, s.weapons.Keys, now, r.weapons) && k in s.weapons
    ensures cat.FinalId(r.weapons[k].weaponId) == cat.FinalId(s.weapons[k].weaponId)
    ensures Mastered(cat, s.weapons[k]) <==> Mastered(cat, r.weapons[k])
    ensures Mastered(cat, s.weapons[k]) ==>
      var id := cat.FinalId(s.weapons[k].weaponId);
      LevelAndExp(cat, id, r.weapons[k]).0 == LevelAndExp(cat, id, s.weapons[k]).0
  {
    if Mastered(cat, s.weapons[k]) {
      UpgradedTwice(cat, s.weapons[k], now, now);
    }
  }

  lemma SourceRowKept(cat: Catalog, s: State, done: set<string>, now: int, stories: map<int, Story>, id: int)
    requires cat.Valid() && StoriesAfter(cat, s, done, now, stories)
    ensures id in cat.evolutionNext ==> Get(stories, id) == Get(s.stories, id)
  {
    if id in cat.evolutionNext {
      assert Forwarded(cat, s, done, id) == iset{} && Unlocked(cat, s, done, id) == iset{};
      assert StoryRow(id, Get(s.stories, id), iset{}, iset{}, now, Get(stories, id));
    }
  }

  /** The second run forwards and unlocks nothing that the first did not. */
  lemma ForwardsNothingNew(cat: Catalog, s: State, now: int, r: State, k: string, t: int, j: int)
    requires cat.Valid() && k in s.weapons && ForwardsTo(cat, r, k, t, j)
    requires WeaponsAfter(cat, s, s.weapons.Keys, now, r.weapons)
    requires StoriesAfter(cat, s, s.weapons.Keys, now, r.stories)
    ensures ForwardsTo(cat, s, k, t, j)
  {
    SameFinals(cat, s, now, r, k);
    if Mastered(cat, s.weapons[k]) {
      UpgradedTwice(cat, s.weapons[k], now, now);
    }
    FinalStep(cat.evolutionNext, s.weapons[k].weaponId);
    SourceRowKept(cat, s, s.weapons.Keys, now, r.stories, s.weapons[k].weaponId);
  }

  lemma UnlocksNothingNew(cat: Catalog, s: State, now: int, r: State, k: string, t: int, j: int)
    requires cat.Valid() && k in s.weapons && Unlocks(cat, r, k, t, j)
    requires WeaponsAfter(cat, s, s.weapons.Keys, now, r.weapons)
    ensures Unlocks(cat, s, k, t, j)
  {
    SameFinals(cat, s, now, r, k);
  }

  lemma RowSettled(cat: Catalog, s: State, now: int, r: State, later: int, q: State, t: int)
    requires cat.Valid()
    requires WeaponsAfter(cat, s, s.weapons.Keys, now, r.weapons)
    requires StoriesAfter(cat, s, s.weapons.Keys, now, r.stories)
    requires StoriesAfter(cat, r, s.weapons.Keys, later, q.stories)
    ensures Get(q.stories, t) == Get(r.stories, t)
  {
    var all := s.weapons.Keys;
    forall j | j in Forwarded(cat, r, all, t) ensures j in Forwarded(cat, s, all, t) {
      var k :| k in all && ForwardsTo(cat, r, k, t, j);
      ForwardsNothingNew(cat, s, now, r, k, t, j);
    }
    forall j | j in Unlocked(cat, r, all, t) ensures j in Unlocked(cat, s, all, t) {
      var k :| k in all && Unlocks(cat, r, k, t, j);
      UnlocksNothingNew(cat, s, now, r, k, t, j);
    }
    StoryRowSettled(t, Get(s.stories, t), Forwarded(cat, s, all, t), Unlocked(cat, s, all, t), now, Get(r.stories, t),
                    Forwarded(cat, r, all, t), Unlocked(cat, r, all, t), later, Get(q.stories, t));
  }

  lemma StoryRowSettled(t: int, before: Option<Story>, forwarded: iset<int>, unlocked: iset<int>, now: int,
                        row: Option<Story>, forwardedAgain: iset<int>, unlockedAgain: iset<int>, later: int,
                        after: Option<Story>)
    requires StoryRow(t, before, forwarded, unlocked, now, row)
    requires forwardedAgain <= forwarded && unlockedAgain <= unlocked
    requires StoryRow(t, row, forwardedAgain, unlockedAgain, later, after)
    ensures after == row
  {
    assert forall j :: j in forwardedAgain + unlockedAgain ==> j in forwarded + unlocked;
    assert !Raises(row, forwardedAgain, unlockedAgain);
  }

  lemma StoriesSettled(cat: Catalog, s: State, now: int, r: State, later: int, q: State)
    requires cat.Valid()
    requires After(cat, s, s.weapons.Keys, now, r) && After(cat, r, r.weapons.Keys, later, q)
    ensures q.stories == r.stories
  {
    forall t ensures Get(q.stories, t) == Get(r.stories, t) {
      RowSettled(cat, s, now, r, later, q, t);
    }
    SameLookups(q.stories, r.stories);
  }

  lemma ReportsSettled(cat: Catalog, s: State, now: int, r: State, k: string, t: int, l: int)
    requires cat.Valid() && WeaponsAfter(cat, s, s.weapons.Keys, now, r.weapons)
    ensures Reports(cat, r, s.weapons.Keys, k, t, l) <==> Reports(cat, s, s.weapons.Keys, k, t, l)
  {
    if k in s.weapons {
      SameFinals(cat, s, now, r, k);
    }
  }

  lemma NotesSettled(cat: Catalog, s: State, now: int, r: State, later: int, q: State, t: int)
    requires cat.Valid() && WeaponsAfter(cat, s, s.weapons.Keys, now, r.weapons)
    requires NotesAfter(cat, s, s.weapons.Keys, now, r.notes) && NotesAfter(cat, r, s.weapons.Keys, later, q.notes)
    ensures t in q.notes <==> t in r.notes
    ensures t in r.notes ==> NoteRestamped(r.notes[t], q.notes[t], later)
  {
    var all := s.weapons.Keys;
    forall k, l ensures Reports(cat, r, all, k, t, l) <==> Reports(cat, s, all, k, t, l) {
      ReportsSettled(cat, s, now, r, k, t, l);
    }
    assert Reported(cat, r, all, t) == Reported(cat, s, all, t);
    NoteRowSettled(t, Get(s.notes, t), Reported(cat, s, all, t), now, Get(r.notes, t), later, Get(q.notes, t));
  }

  lemma NoteRowSettled(t: int, before: Option<Note>, levels: iset<int>, now: int, row: Option<Note>, later: int,
                       after: Option<Note>)
    requires NoteRow(t, before, levels, now, row) && NoteRow(t, row, levels, later, after)
    ensures after.Some? <==> row.Some?
    ensures row.Some? ==> NoteRestamped(row.value, after.value, later)
  {
  }

  lemma RowsSettled(cat: Catalog, s: State, now: int, r: State, later: int, q: State)
    requires cat.Valid()
    requires After(cat, s, s.weapons.Keys, now, r) && After(cat, r, r.weapons.Keys, later, q)
    ensures q.awakens == r.awakens && q.skills == r.skills && q.abilities == r.abilities
  {
    forall k ensures Get(q.awakens, k) == Get(r.awakens, k) && Get(q.skills, k) == Get(r.skills, k) &&
        Get(q.abilities, k) == Get(r.abilities, k) {
      OwnRowsSettled(cat, s, now, r, later, q, k);
    }
    SameLookups(q.awakens, r.awakens);
    SameLookups(q.skills, r.skills);
    SameLookups(q.abilities, r.abilities);
  }

  lemma OwnRowsSettled(cat: Catalog, s: State, now: int, r: State, later: int, q: State, k: string)
    requires cat.Valid()
    requires After(cat, s, s.weapons.Keys, now, r) && After(cat, r, r.weapons.Keys, later, q)
    ensures Get(q.awakens, k) == Get(r.awakens, k)
    ensures Get(q.skills, k) == Get(r.skills, k)
    ensures Get(q.abilities, k) == Get(r.abilities, k)
  {
    if k in s.weapons {
      SameFinals(cat, s, now, r, k);
    }
  }

  /** After a run, whatever its order, the next one is order-free: whoever still forwards unlocks nothing. */
  lemma NextRunIsOrderFree(cat: Catalog, s: State, now: int, r: State)
    requires cat.Valid() && WeaponsAfter(cat, s, s.weapons.Keys, now, r.weapons)
    ensures OrderFree(cat, r)
  {
    forall t ensures !Sensitive(cat, r, t) {
      if k :| k in r.weapons && ForwardsAny(cat, r, k, t) {
        SameFinals(cat, s, now, r, k);
        if Mastered(cat, s.weapons[k]) {
          UpgradedTwice(cat, s.weapons[k], now, now);
        }
        assert t !in cat.weapons;
      }
    }
  }

  /** Running the upgrade again at a later time, in any orders, changes nothing but the timestamps. */
  lemma Idempotent(cat: Catalog, s: State, now: int, r: State, later: int, q: State)
    requires cat.Valid() && OrderFree(cat, s) && Outcome(cat, s, now, r) && Outcome(cat, r, later, q)
    ensures OnlyRestamped(cat, r, q, later)
  {
    OutcomeIsAfter(cat, s, now, r);
    NextRunIsOrderFree(cat, s, now, r);
    OutcomeIsAfter(cat, r, later, q);
    forall k | k in r.weapons
      ensures q.weapons[k] ==
        if Mastered(cat, r.weapons[k]) then r.weapons[k].(latestVersion := later) else r.weapons[k]
    {
      SameFinals(cat, s, now, r, k);
      if Mastered(cat, s.weapons[k]) { UpgradedTwice(cat, s.weapons[k], now, later); }
    }
    RowsSettled(cat, s, now, r, later, q);
    StoriesSettled(cat, s, now, r, later, q);
    forall t ensures t in q.notes <==> t in r.notes {
      NotesSettled(cat, s, now, r, later, q, t);
    }
    forall t | t in r.notes ensures NoteRestamped(r.notes[t], q.notes[t], later) {
      NotesSettled(cat, s, now, r, later, q, t);
    }
  }

  // ---------------------------------------------------------------------------
  // Every order has a result
  // ---------------------------------------------------------------------------

  function WithRow(stories: map<int, Story>, t: int, row: Option<Story>): map<int, Story> {
    if row.Some? then stories[t := row.value] else stories - {t}
  }

  function RaisedNote(note: Option<Note>, t: int, level: int, now: int): Note {
    var b := if note.Some? then note.value else NO_NOTE;
    Note(if b.weaponId == 0 then t else b.weaponId, Max(b.maxLevel, level), Max(b.maxLimitBreakCount, LIMIT_BREAK_MAX),
         if b.weaponId == 0 then now else b.firstAcquisitionDatetime, now)
  }

  /** What weapon k makes of a state reached so far. */
  ghost function Stepped(cat: Catalog, s: State, k: string, now: int, b: State): State
    requires cat.Valid() && k in s.weapons
  {
    var t := cat.FinalId(s.weapons[k].weaponId);
    var stories := WithRow(b.stories, t, RowStep(cat, s, k, t, Get(b.stories, t), now));
    if !Mastered(cat, s.weapons[k]) then b.(stories := stories)
    else
      var rows := OwnRows(cat, k, t, now, b.awakens, b.skills, b.abilities);
      State(b.weapons[k := Upgraded(cat, s.weapons[k], now)], stories,
            b.notes[t := RaisedNote(Get(b.notes, t), t, LevelAndExp(cat, t, s.weapons[k]).0, now)],
            rows.0, rows.1, rows.2)
  }

  lemma SteppedStories(cat: Catalog, s: State, order: seq<string>, k: string, now: int, b: State)
    requires cat.Valid() && k in s.weapons && AllOwned(s, order) && StoriesRun(cat, s, order, now, b.stories)
    ensures AllOwned(s, order + [k]) && StoriesRun(cat, s, order + [k], now, Stepped(cat, s, k, now, b).stories)
  {
    var after := Stepped(cat, s, k, now, b).stories;
    forall t ensures Get(after, t) == RowStep(cat, s, k, t, Get(b.stories, t), now) {
      SteppedRow(cat, s, k, now, b, t);
    }
    StoriesOneMore(cat, s, order, k, now, b.stories, after);
  }

  lemma StoriesOneMore(cat: Catalog, s: State, order: seq<string>, k: string, now: int, first: map<int, Story>,
                       after: map<int, Story>)
    requires cat.Valid() && k in s.weapons && AllOwned(s, order) && StoriesRun(cat, s, order, now, first)
    requires forall t :: Get(after, t) == RowStep(cat, s, k, t, Get(first, t), now)
    ensures AllOwned(s, order + [k]) && StoriesRun(cat, s, order + [k], now, after)
  {
    forall t ensures Get(after, t) == RowRun(cat, s, Get(s.stories, t), order + [k], t, now) {
      RunOneMore(cat, s, Get(s.stories, t), order, k, t, now);
    }
  }

  lemma SteppedRow(cat: Catalog, s: State, k: string, now: int, b: State, t: int)
    requires cat.Valid() && k in s.weapons
    ensures Get(Stepped(cat, s, k, now, b).stories, t) == RowStep(cat, s, k, t, Get(b.stories, t), now)
  {
  }

  lemma SteppedNotes(cat: Catalog, s: State, done: set<string>, k: string, now: int, b: State)
    requires cat.Valid() && k in s.weapons && Mastered(cat, s.weapons[k]) && NotesAfter(cat, s, done, now, b.notes)
    ensures NotesAfter(cat, s, done + {k}, now, Stepped(cat, s, k, now, b).notes)
  {
    var id, after := cat.FinalId(s.weapons[k].weaponId), Stepped(cat, s, k, now, b).notes;
    forall t ensures NoteRow(t, Get(s.notes, t), Reported(cat, s, done + {k}, t), now, Get(after, t)) {
      ReportedAdd(cat, s, done, k, t);
      if t == id {
        NoteReport(t, Get(s.notes, t), Reported(cat, s, done, t), now, Get(b.notes, t),
                   LevelAndExp(cat, t, s.weapons[k]).0, after[t]);
      }
    }
  }

  lemma SteppedOthers(cat: Catalog, s: State, done: set<string>, k: string, now: int, b: State)
    requires cat.Valid() && k in s.weapons && k !in done && OthersAfter(cat, s, done, now, b)
    ensures OthersAfter(cat, s, done + {k}, now, Stepped(cat, s, k, now, b))
  {
    if Mastered(cat, s.weapons[k]) {
      SteppedNotes(cat, s, done, k, now, b);
      MasteredDone(cat, s, done, k, now, b, Stepped(cat, s, k, now, b));
    } else {
      UnmasteredDone(cat, s, done, k, now, Stepped(cat, s, k, now, b));
    }
  }

  lemma ListsFront(order: seq<string>, done: set<string>)
    requires Lists(order, done) && order != []
    ensures
      var n := |order| - 1;
      Lists(order[..n], done - {order[n]}) && order[n] in done && done - {order[n]} + {order[n]} == done
  {
    var n := |order| - 1;
    forall x | x in done - {order[n]} ensures x in order[..n] {
      var j :| 0 <= j < |order| && order[j] == x;
      assert order[..n][j] == x;
    }
  }

  /** A run can visit the weapons in any order. */
  lemma {:induction false} SomeRun(cat: Catalog, s: State, order: seq<string>, done: set<string>, now: int)
    requires cat.Valid() && Lists(order, done) && AllOwned(s, order)
    ensures exists r :: VisitedIn(cat, s, order, done, now, r)
  {
    if order == [] {
      NothingDone(cat, s, now);
      assert done == {};
      assert VisitedIn(cat, s, order, done, now, s);
    } else {
      var n := |order| - 1;
      var k, front, less := order[n], order[..n], done - {order[n]};
      ListsFront(order, done);
      SomeRun(cat, s, front, less, now);
      var b :| VisitedIn(cat, s, front, less, now, b);
      assert front + [k] == order;
      OneMoreVisited(cat, s, front, less, k, now, b);
    }
  }

  lemma OneMoreVisited(cat: Catalog, s: State, order: seq<string>, done: set<string>, k: string, now: int, b: State)
    requires cat.Valid() && k in s.weapons && k !in done && VisitedIn(cat, s, order, done, now, b)
    ensures VisitedIn(cat, s, order + [k], done + {k}, now, Stepped(cat, s, k, now, b))
  {
    SteppedStories(cat, s, order, k, now, b);
    SteppedOthers(cat, s, done, k, now, b);
    NowVisited(cat, s, order, done, k, now, Stepped(cat, s, k, now, b));
  }

  /** The whole upgrade has a result on every state. */
  lemma SomeOutcome(cat: Catalog, s: State, now: int)
    requires cat.Valid()
    ensures exists r :: Outcome(cat, s, now, r)
  {
    var order := Listing(s.weapons.Keys);
    SomeRun(cat, s, order, s.weapons.Keys, now);
    var r :| VisitedIn(cat, s, order, s.weapons.Keys, now, r);
    assert Outcome(cat, s, now, r);
  }

  // ---------------------------------------------------------------------------
  // Sensitive states
  // ---------------------------------------------------------------------------

  lemma UnlockedAfterAll(cat: Catalog, s: State, now: int, r: State, later: int, q: State, t: int, g: int)
    requires cat.Valid() && WeaponsAfter(cat, s, s.weapons.Keys, now, r.weapons) && Outcome(cat, r, later, q)
    requires Droppable(cat, s, t, g) && Index(Get(r.stories, t)) < g <= 0
    ensures Get(q.stories, t) != Get(r.stories, t)
  {
    NextRunIsOrderFree(cat, s, now, r);
    OutcomeIsAfter(cat, r, later, q);
    StaysUnlocked(cat, s, now, r, t, g);
    RaisedRow(t, Get(r.stories, t), Forwarded(cat, r, r.weapons.Keys, t), Unlocked(cat, r, r.weapons.Keys, t), later,
              Get(q.stories, t), g);
  }

  lemma StaysUnlocked(cat: Catalog, s: State, now: int, r: State, t: int, g: int)
    requires cat.Valid() && WeaponsAfter(cat, s, s.weapons.Keys, now, r.weapons) && Droppable(cat, s, t, g)
    ensures g in Unlocked(cat, r, r.weapons.Keys, t)
  {
    var h :| h in s.weapons && Unlocks(cat, s, h, t, g);
    SameFinals(cat, s, now, r, h);
    assert h in r.weapons.Keys && Unlocks(cat, r, h, t, g);
  }

  lemma RaisedRow(t: int, before: Option<Story>, forwarded: iset<int>, unlocked: iset<int>, now: int,
                  after: Option<Story>, g: int)
    requires StoryRow(t, before, forwarded, unlocked, now, after) && g in unlocked && Index(before) < g
    ensures after != before
  {
    assert g in forwarded + unlocked;
  }

  /** Runs in this order have results, and every second run after one changes more than the timestamps. */
  ghost predicate Unsettled(cat: Catalog, s: State, order: seq<string>, now: int, later: int)
    requires cat.Valid()
  {
    Lists(order, s.weapons.Keys) && AllOwned(s, order) && RunsTwice(cat, s, order, now, later) &&
    forall r, q | VisitedIn(cat, s, order, s.weapons.Keys, now, r) && Outcome(cat, r, later, q) ::
      !OnlyRestamped(cat, r, q, later)
  }

  ghost predicate RunsTwice(cat: Catalog, s: State, order: seq<string>, now: int, later: int)
    requires cat.Valid()
  {
    exists r, q :: VisitedIn(cat, s, order, s.weapons.Keys, now, r) && Outcome(cat, r, later, q)
  }

  lemma AnyOrderRunsTwice(cat: Catalog, s: State, order: seq<string>, now: int, later: int)
    requires cat.Valid() && Lists(order, s.weapons.Keys) && AllOwned(s, order)
    ensures RunsTwice(cat, s, order, now, later)
  {
    SomeRun(cat, s, order, s.weapons.Keys, now);
    var r :| VisitedIn(cat, s, order, s.weapons.Keys, now, r);
    SomeOutcome(cat, r, later);
  }

  lemma DroppedIsUnsettled(cat: Catalog, s: State, t: int, order: seq<string>, g: int, now: int, later: int)
    requires cat.Valid() && Drops(cat, s, t, order, g, now)
    ensures Unsettled(cat, s, order, now, later)
  {
    AnyOrderRunsTwice(cat, s, order, now, later);
    forall r, q | VisitedIn(cat, s, order, s.weapons.Keys, now, r) && Outcome(cat, r, later, q)
      ensures !OnlyRestamped(cat, r, q, later)
    {
      UnlockedAfterAll(cat, s, now, r, later, q, t, g);
    }
  }

  /** From a sensitive state some order leaves rows that every second run changes. */
  lemma SecondRunRaises(cat: Catalog, s: State, now: int, later: int)
    requires cat.Valid() && !OrderFree(cat, s)
    ensures exists order :: Unsettled(cat, s, order, now, later)
  {
    var t :| Sensitive(cat, s, t);
    SomethingDrops(cat, s, t, now);
    var order, g :| Drops(cat, s, t, order, g, now);
    DroppedIsUnsettled(cat, s, t, order, g, now, later);
  }

  /** Second runs move timestamps only, whatever the two orders, exactly from the order-free states. */
  lemma IdempotentIffOrderFree(cat: Catalog, s: State, now: int, later: int)
    requires cat.Valid()
    ensures OrderFree(cat, s) <==>
      forall r, q | Outcome(cat, s, now, r) && Outcome(cat, r, later, q) :: OnlyRestamped(cat, r, q, later)
  {
    if OrderFree(cat, s) {
      forall r, q | Outcome(cat, s, now, r) && Outcome(cat, r, later, q) ensures OnlyRestamped(cat, r, q, later) {
        Idempotent(cat, s, now, r, later, q);
      }
    } else {
      SecondRunRaises(cat, s, now, later);
      var order :| Unsettled(cat, s, order, now, later);
      var r, q :| VisitedIn(cat, s, order, s.weapons.Keys, now, r) && Outcome(cat, r, later, q);
      assert Outcome(cat, s, now, r);
    }
  }

  /** The upgrade has a single result, whatever the order, exactly from the order-free states. */
  lemma ConfluentIffOrderFree(cat: Catalog, s: State, now: int)
    requires cat.Valid()
    ensures OrderFree(cat, s) <==> forall a, b | Outcome(cat, s, now, a) && Outcome(cat, s, now, b) :: a == b
  {
    if OrderFree(cat, s) {
      forall a, b | Outcome(cat, s, now, a) && Outcome(cat, s, now, b) ensures a == b {
        Confluent(cat, s, now, a, b);
      }
    } else {
      var t :| Sensitive(cat, s, t);
      OrdersDiffer(cat, s, t, now);
      var x, y :| Differ(cat, s, t, x, y, now);
      ResultsDiffer(cat, s, t, x, y, now);
    }
  }

  lemma ResultsDiffer(cat: Catalog, s: State, t: int, x: seq<string>, y: seq<string>, now: int)
    requires cat.Valid() && Differ(cat, s, t, x, y, now)
    ensures exists a, b :: Outcome(cat, s, now, a) && Outcome(cat, s, now, b) && a != b
  {
    SomeRun(cat, s, x, s.weapons.Keys, now);
    SomeRun(cat, s, y, s.weapons.Keys, now);
    var a :| VisitedIn(cat, s, x, s.weapons.Keys, now, a);
    var b :| VisitedIn(cat, s, y, s.weapons.Keys, now, b);
    assert Get(a.stories, t) == RowRun(cat, s, Get(s.stories, t), x, t, now);
    assert Get(b.stories, t) == RowRun(cat, s, Get(s.stories, t), y, t, now);
    assert Outcome(cat, s, now, a) && Outcome(cat, s, now, b);
  }
}
