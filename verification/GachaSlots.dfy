/** What the slots of a premium draw give. */
module GachaSlots {
  import opened Common
  import opened GachaRates
  import opened GachaDraw

  // The slots of internal/gacha/draw.go once more, on the pool's own maps and with the
  // numbers the game uses: type 1 is a costume and 2 a weapon, rarity 20 is rare, 30 SR
  // and 40 SSR. A slot before the last fixedCount gives what a plain roll gives, after
  // duplicate replacement, and whatever a plain roll gives below SSR occurs there in some
  // draw.

  function At(pool: map<int, seq<PoolItem>>, rarity: int): seq<PoolItem> {
    if rarity in pool then pool[rarity] else []
  }

  /** A costume of the rarity, or an SSR one when there is none; failing both, weapon 0 of the rarity. */
  ghost predicate CostumePick(bp: BannerPool, rarity: int, item: DrawnItem) {
    (exists p :: p in At(bp.costumesByRarity, rarity) && AsCostume(p, item)) ||
    (At(bp.costumesByRarity, rarity) == [] && exists p :: p in At(bp.costumesByRarity, 40) && AsCostume(p, item)) ||
    (At(bp.costumesByRarity, rarity) == [] && At(bp.costumesByRarity, 40) == [] && item == DrawnItem(2, 0, rarity, 0))
  }

  /** A weapon of the rarity, or a rare one when there is none; failing both, weapon 0 of the rarity. */
  ghost predicate WeaponPick(bp: BannerPool, rarity: int, item: DrawnItem) {
    (exists p :: p in At(bp.weaponsByRarity, rarity) && AsWeapon(p, item)) ||
    (At(bp.weaponsByRarity, rarity) == [] && exists p :: p in At(bp.weaponsByRarity, 20) && AsWeapon(p, item)) ||
    (At(bp.weaponsByRarity, rarity) == [] && At(bp.weaponsByRarity, 20) == [] && item == DrawnItem(2, 0, rarity, 0))
  }

  /** The pool item with its character. */
  ghost predicate AsCostume(p: PoolItem, item: DrawnItem) {
    item.possessionType == p.possessionType && item.possessionId == p.possessionId && item.rarity == p.rarity &&
    item.characterId == p.characterId
  }

  /** The pool item without a character. */
  ghost predicate AsWeapon(p: PoolItem, item: DrawnItem) {
    item.possessionType == p.possessionType && item.possessionId == p.possessionId && item.rarity == p.rarity &&
    item.characterId == 0
  }

  /** A featured item of the tier's type and rarity, or a pick for them. */
  ghost predicate TierGives(bp: BannerPool, tier: RateTier, item: DrawnItem) {
    (exists f :: f in bp.featured && f.possessionType == tier.possessionType && f.rarity == tier.rarity &&
       AsCostume(f, item)) ||
    if tier.possessionType == 1 then CostumePick(bp, tier.rarity, item) else WeaponPick(bp, tier.rarity, item)
  }

  /** What a roll on the rates gives. */
  ghost predicate PlainRoll(bp: BannerPool, rates: seq<RateTier>, item: DrawnItem) {
    exists tier :: tier in rates && tier.weight > 0 && TierGives(bp, tier, item)
  }

  lemma CanPickIs(bp: BannerPool, possessionType: int, rarity: int, item: DrawnItem)
    ensures CanPick(bp, possessionType, rarity, item) <==>
      if possessionType == 1 then CostumePick(bp, rarity, item) else WeaponPick(bp, rarity, item)
  {
    var items := BucketOrFallback(bp, possessionType, rarity);
    assert items != [] ==> items[0] in items;
    if possessionType == 1 {
      assert forall p :: item == Draw(possessionType, p) <==> AsCostume(p, item);
    } else {
      assert forall p :: item == Draw(possessionType, p) <==> AsWeapon(p, item);
    }
  }

  lemma CanRollIs(bp: BannerPool, rates: seq<RateTier>, item: DrawnItem)
    ensures CanRoll(bp, rates, item) <==> PlainRoll(bp, rates, item)
  {
    forall tier ensures TierGives(bp, tier, item) <==>
        CanFeature(bp, tier, item) || CanPick(bp, tier.possessionType, tier.rarity, item) {
      CanPickIs(bp, tier.possessionType, tier.rarity, item);
    }
  }

  /** The ids of the SSR items of a type among those drawn. */
  function SsrIds(drawn: seq<DrawnItem>, possessionType: int): set<int> {
    set item | item in drawn && item.rarity >= 40 && item.possessionType == possessionType :: item.possessionId
  }

  /**
   * What a raw item becomes, `taken` being the ids of its type no longer new: an
   * SSR one that is taken gives way to one of its bucket that is not.
   */
  ghost predicate Swapped(bucket: seq<PoolItem>, taken: set<int>, raw: DrawnItem, item: DrawnItem, costume: bool) {
    if raw.rarity >= 40 && raw.possessionId in taken && exists p :: p in bucket && p.possessionId !in taken then
      exists p :: p in bucket && p.possessionId !in taken && if costume then AsCostume(p, item) else AsWeapon(p, item)
    else item == raw
  }

  ghost predicate GivenFor(bp: BannerPool, costumes: set<int>, weapons: set<int>, raw: DrawnItem, item: DrawnItem) {
    if raw.possessionType == 1 then Swapped(At(bp.costumesByRarity, raw.rarity), costumes, raw, item, true)
    else if raw.possessionType == 2 then Swapped(At(bp.weaponsByRarity, raw.rarity), weapons, raw, item, false)
    else item == raw
  }

  lemma DedupedIsGiven(bp: BannerPool, marks: Marks, raw: DrawnItem, item: DrawnItem, after: Marks)
    requires Deduped(bp, marks, raw, item, after)
    ensures GivenFor(bp, marks.costumes, marks.weapons, raw, item)
  {
    var p := raw.possessionType;
    var bucket, candidates := bp.Bucket(p, raw.rarity), Unmarked(bp.Bucket(p, raw.rarity), marks.Of(p));
    UnmarkedHolds(bucket, marks.Of(p));
    assert candidates != [] ==> candidates[0] in candidates;
    if IsHighDrop(raw) && raw.possessionId in marks.Of(p) && candidates != [] {
      var c :| c in candidates && item == Draw(p, c) && after == marks.Mark(p, c.possessionId);
      assert c in bucket && c.possessionId !in marks.Of(p);
      assert if p == 1 then AsCostume(c, item) else AsWeapon(c, item);
    }
  }

  lemma {:induction false} HighIdsAre(drawn: seq<DrawnItem>, p: int)
    requires IsType(p)
    ensures HighIds(drawn, p) == SsrIds(drawn, p)
  {
    if drawn != [] {
      var n := |drawn| - 1;
      HighIdsAre(drawn[..n], p);
      assert drawn == drawn[..n] + [drawn[n]];
    }
  }

  /** A slot before the last fixedCount gives what a plain roll gives, when the player is not checked for duplicates. */
  lemma PlainSlot(bp: BannerPool, rates: seq<RateTier>, count: nat, minRarity: int, fixedCount: int,
                  result: seq<DrawnItem>, i: nat)
    requires Outcome(bp, rates, count, minRarity, fixedCount, None, result) && i < count
    requires fixedCount <= 0 || i < count - fixedCount
    ensures |result| == count && PlainRoll(bp, rates, result[i])
  {
    var owned: Option<Marks> := None;
    var marks :| Draws(bp, rates, count, minRarity, fixedCount, owned.Some?, marks, result);
    assert Slot(bp, rates, false, minRarity, owned.Some?, marks[i], result[i], marks[i + 1]);
    CanRollIs(bp, rates, result[i]);
  }

  /**
   * For a player who is, it gives what a plain roll becomes: an SSR costume or
   * weapon that is owned, or was drawn in an earlier slot, gives way to one of
   * its bucket that is neither.
   */
  lemma PlainSlotGiven(bp: BannerPool, rates: seq<RateTier>, count: nat, minRarity: int, fixedCount: int,
                       owned: Marks, result: seq<DrawnItem>, i: nat)
    requires bp.WellFormed() && Outcome(bp, rates, count, minRarity, fixedCount, Some(owned), result) && i < count
    requires fixedCount <= 0 || i < count - fixedCount
    ensures |result| == count
    ensures exists raw ::
      PlainRoll(bp, rates, raw) &&
      GivenFor(bp, owned.costumes + SsrIds(result[..i], 1), owned.weapons + SsrIds(result[..i], 2), raw, result[i])
  {
    var marks :| Draws(bp, rates, count, minRarity, fixedCount, true, marks, result) && marks[0] == owned;
    MarksAreTaken(bp, rates, count, minRarity, fixedCount, marks, result, i, 1);
    MarksAreTaken(bp, rates, count, minRarity, fixedCount, marks, result, i, 2);
    HighIdsAre(result[..i], 1);
    HighIdsAre(result[..i], 2);
    assert Slot(bp, rates, false, minRarity, true, marks[i], result[i], marks[i + 1]);
    var raw :| CanDraw(bp, rates, false, minRarity, raw) && Deduped(bp, marks[i], raw, result[i], marks[i + 1]);
    CanRollIs(bp, rates, raw);
    DedupedIsGiven(bp, marks[i], raw, result[i], marks[i + 1]);
  }

  // ---------------------------------------------------------------------------
  // Whatever can be rolled is drawn
  // ---------------------------------------------------------------------------

  lemma SomePick(bp: BannerPool, possessionType: int, rarity: int) returns (item: DrawnItem)
    ensures CanPick(bp, possessionType, rarity, item)
  {
    var items := BucketOrFallback(bp, possessionType, rarity);
    item := if items == [] then Phantom(rarity) else Draw(possessionType, items[0]);
    assert items != [] ==> items[0] in items;
  }

  lemma SomeRoll(bp: BannerPool, rates: seq<RateTier>) returns (item: DrawnItem)
    requires Total(rates) > 0
    ensures CanRoll(bp, rates, item)
  {
    ScanTotal(Weights(rates), 0);
    var tier := rates[Scan(Weights(rates), 0)];
    item := SomePick(bp, tier.possessionType, tier.rarity);
    assert tier in rates && tier.weight > 0;
  }

  /** Every slot has a raw item. */
  lemma SomeRaw(bp: BannerPool, rates: seq<RateTier>, guaranteed: bool, minRarity: int) returns (raw: DrawnItem)
    requires Rollable(rates, guaranteed, minRarity)
    ensures CanDraw(bp, rates, guaranteed, minRarity, raw)
  {
    raw := SomeRoll(bp, rates);
    if guaranteed && raw.rarity < minRarity {
      var tiers := AtLeast(rates, minRarity);
      if Total(tiers) == 0 {
        raw := SomePick(bp, POSSESSION_WEAPON, minRarity);
      } else {
        raw := SomeRoll(bp, tiers);
      }
    }
  }

  /** Every raw item is kept or replaced. */
  lemma SomeGiven(bp: BannerPool, dedupe: bool, marks: Marks, raw: DrawnItem) returns (item: DrawnItem, after: Marks)
    ensures if dedupe then Deduped(bp, marks, raw, item, after) else item == raw && after == marks
    ensures raw.rarity < 40 || !dedupe ==> item == raw
  {
    item, after := raw, marks;
    var p := raw.possessionType;
    if dedupe && IsHighDrop(raw) {
      var candidates := Unmarked(bp.Bucket(p, raw.rarity), marks.Of(p));
      if raw.possessionId !in marks.Of(p) {
        after := marks.Mark(p, raw.possessionId);
      } else if candidates != [] {
        assert candidates[0] in candidates;
        item, after := Draw(p, candidates[0]), marks.Mark(p, candidates[0].possessionId);
      }
    }
  }

  /** The first n slots of some draw, in which slot `place` starts from the given raw item. */
  lemma {:induction false} SomeSlots(bp: BannerPool, rates: seq<RateTier>, count: nat, minRarity: int, fixedCount: int,
                                     dedupe: bool, start: Marks, n: nat, place: nat, raw: DrawnItem)
    returns (marks: seq<Marks>, result: seq<DrawnItem>)
    requires Rollable(rates, fixedCount > 0, minRarity) && n <= count
    requires CanDraw(bp, rates, IsGuaranteed(place, count, fixedCount), minRarity, raw)
    ensures |result| == n && DrawnSoFar(bp, rates, count, minRarity, fixedCount, dedupe, marks, result)
    ensures marks[0] == start
    ensures place < n && (raw.rarity < 40 || !dedupe) ==> result[place] == raw
  {
    if n == 0 {
      marks, result := [start], [];
    } else {
      marks, result := SomeSlots(bp, rates, count, minRarity, fixedCount, dedupe, start, n - 1, place, raw);
      var guaranteed := IsGuaranteed(n - 1, count, fixedCount);
      var own := SomeRaw(bp, rates, guaranteed, minRarity);
      var next := if n - 1 == place then raw else own;
      var item, after := SomeGiven(bp, dedupe, marks[n - 1], next);
      OneMoreSlot(bp, rates, count, minRarity, fixedCount, dedupe, marks, result, item, after);
      marks, result := marks + [after], result + [item];
    }
  }

  /**
   * Whatever a plain roll gives below SSR, or at all to a player not checked for
   * duplicates, is given by any slot before the last fixedCount in some draw.
   */
  lemma PlainItemOccurs(bp: BannerPool, rates: seq<RateTier>, count: nat, minRarity: int, fixedCount: int,
                        owned: Option<Marks>, item: DrawnItem, i: nat)
    requires Rollable(rates, fixedCount > 0, minRarity)
    requires i < count && (fixedCount <= 0 || i < count - fixedCount)
    requires PlainRoll(bp, rates, item) && (item.rarity < 40 || owned.None?)
    ensures exists result ::
      Outcome(bp, rates, count, minRarity, fixedCount, owned, result) && |result| == count && result[i] == item
  {
    CanRollIs(bp, rates, item);
    var start := if owned.Some? then owned.value else Marks({}, {});
    var marks, result :=
      SomeSlots(bp, rates, count, minRarity, fixedCount, owned.Some?, start, count, i, item);
    assert Draws(bp, rates, count, minRarity, fixedCount, owned.Some?, marks, result);
    assert Outcome(bp, rates, count, minRarity, fixedCount, owned, result) && result[i] == item;
  }

  /** A ten-draw with one SR guarantee gives any weapon of the rare bucket in its first slot, in some draw. */
  lemma RareWeaponFirst(bp: BannerPool, multiplier: Multiplier, owned: Option<Marks>, weapon: PoolItem)
    requires KeepsWeights(multiplier) && weapon in At(bp.weaponsByRarity, 20) && weapon.rarity == 20
    ensures exists result ::
      Outcome(bp, Adjusted(PREMIUM_RATES, multiplier), 10, 30, 1, owned, result) &&
      |result| == 10 && result[0] == DrawnItem(weapon.possessionType, weapon.possessionId, 20, 0)
  {
    var rates := Adjusted(PREMIUM_RATES, multiplier);
    var item := DrawnItem(weapon.possessionType, weapon.possessionId, 20, 0);
    PremiumRollable(multiplier, 30);
    PremiumWeights(multiplier);
    var tier :| tier in rates && tier.weight > 0 && tier.rarity == 20 && tier.possessionType == 2;
    assert AsWeapon(weapon, item);
    assert WeaponPick(bp, 20, item);
    assert TierGives(bp, tier, item);
    PlainItemOccurs(bp, rates, 10, 30, 1, owned, item, 0);
  }
}
