/** Unpaired costumes (build.go). */
module GachaUnpaired {
  import opened Common
  import opened GachaRates
  import opened GachaDraw
  import opened GachaFeatured
  import opened GachaPool

  // Loading prunes the costumes that have no paired weapon and only then builds banner
  // pools. What a draw can still give is decided on whole draws: any size, any guarantee,
  // any player, any random outcome.

  predicate Unpaired(item: DrawnItem, pairs: map<int, int>) {
    item.possessionType == POSSESSION_COSTUME && item.possessionId !in pairs
  }

  /** Some draw from the pool gives some player a costume without a paired weapon. */
  ghost predicate DrawsUnpaired(bp: BannerPool, multiplier: Multiplier, pairs: map<int, int>) {
    exists count: nat, minRarity: int, fixedCount: int, owned: Option<Marks>, result: seq<DrawnItem>, i: nat ::
      Outcome(bp, Adjusted(PREMIUM_RATES, multiplier), count, minRarity, fixedCount, owned, result) &&
      i < |result| && Unpaired(result[i], pairs)
  }

  /** The costume buckets that a tier of the premium table names. */
  predicate Drawable(rarity: int) {
    rarity == RARITY_SRARE || rarity == RARITY_SSRARE
  }

  ghost predicate HasUnpaired(m: map<int, seq<PoolItem>>, pairs: map<int, int>) {
    exists r, x :: x in Bucket(m, r) && Drawable(r) && x.possessionId !in pairs
  }

  ghost predicate SomeUnpaired(items: seq<PoolItem>, pairs: map<int, int>) {
    exists x :: x in items && Drawable(x.rarity) && x.possessionId !in pairs
  }

  // ---------------------------------------------------------------------------
  // A drawn costume lies in a drawable bucket
  // ---------------------------------------------------------------------------

  ghost predicate PremiumTiers(tiers: seq<RateTier>) {
    forall t :: t in tiers ==>
      (t.possessionType == POSSESSION_COSTUME && Drawable(t.rarity)) || t.possessionType == POSSESSION_WEAPON
  }

  lemma AdjustedArePremium(multiplier: Multiplier)
    ensures PremiumTiers(Adjusted(PREMIUM_RATES, multiplier))
  {
    var rates := Adjusted(PREMIUM_RATES, multiplier);
    forall t | t in rates
      ensures (t.possessionType == POSSESSION_COSTUME && Drawable(t.rarity)) || t.possessionType == POSSESSION_WEAPON
    {
      var i :| 0 <= i < |rates| && rates[i] == t;
      assert i == 0 || i == 1 || i == 2 || i == 3 || i == 4;
    }
  }

  /** A costume is in a drawable bucket; anything else is of no interest. */
  ghost predicate InDrawable(bp: BannerPool, item: DrawnItem) {
    item.possessionType == POSSESSION_COSTUME ==>
      Drawable(item.rarity) &&
      exists x :: x in bp.Bucket(POSSESSION_COSTUME, item.rarity) && x.possessionId == item.possessionId
  }

  lemma PickedInDrawable(bp: BannerPool, possessionType: int, rarity: int, item: DrawnItem)
    requires bp.WellFormed() && CanPick(bp, possessionType, rarity, item)
    requires (possessionType == POSSESSION_COSTUME && Drawable(rarity)) || possessionType == POSSESSION_WEAPON
    ensures InDrawable(bp, item)
  {
    var items := BucketOrFallback(bp, possessionType, rarity);
    if items != [] {
      var x :| x in items && item == Draw(possessionType, x);
      assert x in bp.Bucket(possessionType, rarity) || x in bp.Bucket(possessionType, FallbackRarity(possessionType));
    }
  }

  lemma RolledInDrawable(bp: BannerPool, tiers: seq<RateTier>, item: DrawnItem)
    requires bp.WellFormed() && FeaturesItsOwn(bp) && PremiumTiers(tiers) && CanRoll(bp, tiers, item)
    ensures InDrawable(bp, item)
  {
    var t :| t in tiers && t.weight > 0 && (CanFeature(bp, t, item) || CanPick(bp, t.possessionType, t.rarity, item));
    if CanFeature(bp, t, item) {
      var f :| f in bp.featured && f.possessionType == t.possessionType && f.rarity == t.rarity &&
        item == DrawnItem(f.possessionType, f.possessionId, f.rarity, f.characterId);
      assert f in bp.Bucket(f.possessionType, f.rarity);
    } else {
      PickedInDrawable(bp, t.possessionType, t.rarity, item);
    }
  }

  /** The slot of a draw: rolled, re-rolled at the minimum, and replaced when a duplicate. */
  lemma SlotInDrawable(bp: BannerPool, rates: seq<RateTier>, guaranteed: bool, minRarity: int, dedupe: bool,
                       marks: Marks, item: DrawnItem, after: Marks)
    requires bp.WellFormed() && FeaturesItsOwn(bp) && PremiumTiers(rates)
    requires Slot(bp, rates, guaranteed, minRarity, dedupe, marks, item, after)
    ensures InDrawable(bp, item)
  {
    var raw :| CanDraw(bp, rates, guaranteed, minRarity, raw) &&
      if dedupe then Deduped(bp, marks, raw, item, after) else item == raw && after == marks;
    if CanRoll(bp, rates, raw) {
      RolledInDrawable(bp, rates, raw);
    } else {
      var tiers := AtLeast(rates, minRarity);
      AtLeastHolds(rates, minRarity);
      if Total(tiers) == 0 {
        PickedInDrawable(bp, POSSESSION_WEAPON, minRarity, raw);
      } else {
        RolledInDrawable(bp, tiers, raw);
      }
    }
    if dedupe {
      ReplacedInDrawable(bp, marks, raw, item, after);
    }
  }

  lemma ReplacedInDrawable(bp: BannerPool, marks: Marks, raw: DrawnItem, item: DrawnItem, after: Marks)
    requires bp.WellFormed() && InDrawable(bp, raw) && Deduped(bp, marks, raw, item, after)
    ensures InDrawable(bp, item)
  {
    if item != raw {
      var p := raw.possessionType;
      UnmarkedHolds(bp.Bucket(p, raw.rarity), marks.Of(p));
      var c :| c in bp.Bucket(p, raw.rarity) && item == Draw(p, c);
    }
  }

  // ---------------------------------------------------------------------------
  // The pool decides
  // ---------------------------------------------------------------------------

  lemma DrawnIsHeld(bp: BannerPool, multiplier: Multiplier, pairs: map<int, int>)
    requires bp.WellFormed() && FeaturesItsOwn(bp) && DrawsUnpaired(bp, multiplier, pairs)
    ensures HasUnpaired(bp.costumesByRarity, pairs)
  {
    var rates := Adjusted(PREMIUM_RATES, multiplier);
    var count: nat, minRarity: int, fixedCount: int, owned: Option<Marks>, result: seq<DrawnItem>, i: nat :|
      Outcome(bp, rates, count, minRarity, fixedCount, owned, result) && i < |result| && Unpaired(result[i], pairs);
    var marks :| Draws(bp, rates, count, minRarity, fixedCount, owned.Some?, marks, result);
    AdjustedArePremium(multiplier);
    SlotInDrawable(bp, rates, IsGuaranteed(i, count, fixedCount), minRarity, owned.Some?, marks[i], result[i],
                   marks[i + 1]);
    var x :| x in bp.Bucket(POSSESSION_COSTUME, result[i].rarity) && x.possessionId == result[i].possessionId;
    assert x in Bucket(bp.costumesByRarity, result[i].rarity);
  }

  lemma HeldIsDrawn(bp: BannerPool, multiplier: Multiplier, pairs: map<int, int>)
    requires bp.WellFormed() && Raises(multiplier) && HasUnpaired(bp.costumesByRarity, pairs)
    ensures DrawsUnpaired(bp, multiplier, pairs)
  {
    var rates := Adjusted(PREMIUM_RATES, multiplier);
    var r, x :| x in Bucket(bp.costumesByRarity, r) && Drawable(r) && x.possessionId !in pairs;
    var tier := if r == RARITY_SSRARE then 0 else 2;
    AdjustedTier(PREMIUM_RATES, multiplier, tier);
    var item := Draw(POSSESSION_COSTUME, x);
    assert x in bp.Bucket(POSSESSION_COSTUME, r);
    assert rates[tier] in rates && CanPick(bp, rates[tier].possessionType, rates[tier].rarity, item);
    OneSlot(bp, rates, false, 0, item);
    assert Unpaired([item][0], pairs);
  }

  /** A draw can give an unpaired costume exactly when an SR or SSR bucket holds one. */
  lemma DrawsWhatItHas(bp: BannerPool, multiplier: Multiplier, pairs: map<int, int>)
    requires bp.WellFormed() && FeaturesItsOwn(bp) && Raises(multiplier)
    ensures DrawsUnpaired(bp, multiplier, pairs) <==> HasUnpaired(bp.costumesByRarity, pairs)
  {
    if DrawsUnpaired(bp, multiplier, pairs) {
      DrawnIsHeld(bp, multiplier, pairs);
    }
    if HasUnpaired(bp.costumesByRarity, pairs) {
      HeldIsDrawn(bp, multiplier, pairs);
    }
  }

  // ---------------------------------------------------------------------------
  // From the tables to the pool
  // ---------------------------------------------------------------------------

  lemma {:induction false} OfRarityHolds(items: seq<PoolItem>, rarity: int, x: PoolItem)
    ensures x in OfRarity(items, rarity) <==> x in items && x.rarity == rarity
  {
    if items != [] {
      var n := |items| - 1;
      OfRarityHolds(items[..n], rarity, x);
      assert items == items[..n] + [items[n]];
    }
  }

  lemma AddedHolds(m: map<int, seq<PoolItem>>, items: seq<PoolItem>, r: int, x: PoolItem)
    ensures x in Bucket(AddedAll(m, items), r) <==> x in Bucket(m, r) || (x in items && x.rarity == r)
  {
    BucketedByRarity(m, items, r);
    OfRarityHolds(items, r, x);
  }

  lemma AddingUnpaired(m: map<int, seq<PoolItem>>, items: seq<PoolItem>, pairs: map<int, int>)
    ensures HasUnpaired(AddedAll(m, items), pairs) <==> HasUnpaired(m, pairs) || SomeUnpaired(items, pairs)
  {
    var added := AddedAll(m, items);
    if r, x :| x in Bucket(added, r) && Drawable(r) && x.possessionId !in pairs {
      AddedHolds(m, items, r, x);
    }
    if r, x :| x in Bucket(m, r) && Drawable(r) && x.possessionId !in pairs {
      AddedHolds(m, items, r, x);
      assert x in Bucket(added, r);
    }
    if x :| x in items && Drawable(x.rarity) && x.possessionId !in pairs {
      AddedHolds(m, items, x.rarity, x);
      assert x in Bucket(added, x.rarity);
    }
  }

  lemma {:induction false} ResolvedHolds(ids: seq<int>, byId: map<int, PoolItem>, excluded: set<int>, x: PoolItem)
    ensures x in Resolved(ids, byId, excluded) <==>
      exists i :: 0 <= i < |ids| && ids[i] in byId && ids[i] !in excluded && byId[ids[i]] == x
  {
    if ids != [] {
      var n := |ids| - 1;
      ResolvedHolds(ids[..n], byId, excluded, x);
      assert ids == ids[..n] + [ids[n]];
    }
  }

  /** The launch term lists an SR or SSR costume of the catalog that has no pairing. */
  ghost predicate UnpairedLaunch(launch: seq<int>, costumes: map<int, PoolItem>, pairings: map<int, int>) {
    exists i :: 0 <= i < |launch| && LacksPair(launch[i], costumes, pairings)
  }

  predicate LacksPair(id: int, costumes: map<int, PoolItem>, pairings: map<int, int>) {
    id in costumes && Drawable(costumes[id].rarity) && id !in pairings
  }

  ghost predicate UnpairedFeatured(fs: FeaturedSet, pairings: map<int, int>) {
    exists i :: 0 <= i < |fs.costumes| && Drawable(fs.costumes[i].rarity) && fs.costumes[i].possessionId !in pairings
  }

  /** The pool of a banner as loading leaves it. */
  function LoadedBanner(t: Tables, rows: seq<CostumeRow>, arms: seq<WeaponRow>, launch: seq<int>, launchArms: seq<int>,
                        restricted: set<int>, fs: FeaturedSet, pairings: map<int, int>): BannerPool {
    var costumes, weapons := ById(CostumeItems(t, rows)), ById(WeaponItems(t, arms, true));
    BannerFor(AddedAll(map[], Resolved(launch, costumes, {})),
              AddedAll(map[], Resolved(launchArms, weapons, restricted)), fs, PairingsOf(costumes, pairings), weapons)
  }

  /**
   * Although banners are built after pruning, some draw from a banner gives an
   * unpaired costume exactly when the launch term or its featured set has one of
   * rarity SR or SSR: pruning reaches neither.
   */
  lemma UnpairedIffLaunchOrFeatured(t: Tables, rows: seq<CostumeRow>, arms: seq<WeaponRow>, launch: seq<int>,
                                    launchArms: seq<int>, restricted: set<int>, fs: FeaturedSet,
                                    pairings: map<int, int>, multiplier: Multiplier)
    requires FromCatalog(fs, ById(CostumeItems(t, rows)), ById(WeaponItems(t, arms, true))) && Raises(multiplier)
    ensures
      var costumes := ById(CostumeItems(t, rows));
      DrawsUnpaired(LoadedBanner(t, rows, arms, launch, launchArms, restricted, fs, pairings), multiplier,
                    PairingsOf(costumes, pairings)) <==>
      UnpairedLaunch(launch, costumes, pairings) || UnpairedFeatured(fs, pairings)
  {
    var costumes := ById(CostumeItems(t, rows));
    var pairs, standard := PairingsOf(costumes, pairings), Resolved(launch, costumes, {});
    LoadedBannersAreWellFormed(t, rows, arms, launch, launchArms, restricted, fs, pairs);
    DrawsWhatItHas(LoadedBanner(t, rows, arms, launch, launchArms, restricted, fs, pairings), multiplier, pairs);
    AddingUnpaired(AddedAll(map[], standard), fs.costumes, pairs);
    AddingUnpaired(map[], standard, pairs);
    forall id | id in costumes ensures costumes[id].possessionId == id {
      ByIdHolds(CostumeItems(t, rows), id);
    }
    LaunchUnpaired(launch, costumes, pairings);
    FeaturedUnpaired(fs, costumes, pairings);
  }

  lemma LaunchUnpaired(launch: seq<int>, costumes: map<int, PoolItem>, pairings: map<int, int>)
    requires forall id :: id in costumes ==> costumes[id].possessionId == id
    ensures SomeUnpaired(Resolved(launch, costumes, {}), PairingsOf(costumes, pairings)) <==>
      UnpairedLaunch(launch, costumes, pairings)
  {
    var standard, pairs := Resolved(launch, costumes, {}), PairingsOf(costumes, pairings);
    if x :| x in standard && Drawable(x.rarity) && x.possessionId !in pairs {
      ResolvedHolds(launch, costumes, {}, x);
    }
    if i :| 0 <= i < |launch| && LacksPair(launch[i], costumes, pairings) {
      ResolvedHolds(launch, costumes, {}, costumes[launch[i]]);
      assert costumes[launch[i]] in standard;
    }
  }

  lemma FeaturedUnpaired(fs: FeaturedSet, costumes: map<int, PoolItem>, pairings: map<int, int>)
    requires AllCatalogued(fs.costumes, costumes)
    ensures SomeUnpaired(fs.costumes, PairingsOf(costumes, pairings)) <==> UnpairedFeatured(fs, pairings)
  {
    if i :| 0 <= i < |fs.costumes| && Drawable(fs.costumes[i].rarity) && fs.costumes[i].possessionId !in pairings {
      assert fs.costumes[i] in fs.costumes;
    }
  }

  // ---------------------------------------------------------------------------
  // Featured sets as they are built, after pruning
  // ---------------------------------------------------------------------------

  lemma {:induction false} FirstOfEachHolds(items: seq<PoolItem>)
    ensures forall x :: x in FirstOfEach(items) ==> x in items && x.rarity >= RARITY_SRARE
    ensures forall x :: x in items && x.rarity >= RARITY_SRARE ==> x.possessionId in IdsOf(FirstOfEach(items))
  {
    if items != [] {
      var front, last := items[..|items| - 1], items[|items| - 1];
      FirstOfEachHolds(front);
      OneMoreId(FirstOfEach(front), last);
      assert items == front + [last];
    }
  }

  /** The terms hold items of the catalog, as loading leaves them. */
  ghost predicate TermsCatalogued(terms: seq<Term>, costumes: map<int, PoolItem>, weapons: map<int, PoolItem>) {
    forall i :: 0 <= i < |terms| ==>
      AllCatalogued(terms[i].costumes, costumes) && AllCatalogued(terms[i].weapons, weapons)
  }

  /** Bucketing ids into a term gives catalog items. */
  lemma {:induction false} ResolvedCatalogued(ids: seq<int>, byId: map<int, PoolItem>, excluded: set<int>)
    requires forall id :: id in byId ==> byId[id].possessionId == id
    ensures AllCatalogued(Resolved(ids, byId, excluded), byId)
  {
    if ids != [] {
      ResolvedCatalogued(ids[..|ids| - 1], byId, excluded);
    }
  }

  ghost predicate Known(items: seq<PoolItem>, byId: map<int, PoolItem>) {
    forall x :: x in items ==> x.possessionId in byId && byId[x.possessionId] == x
  }

  lemma {:induction false} TermItemsKnown(terms: seq<Term>, costumes: map<int, PoolItem>, weapons: map<int, PoolItem>)
    requires TermsCatalogued(terms, costumes, weapons)
    ensures Known(TermCostumes(terms), costumes) && Known(TermWeapons(terms), weapons)
  {
    if terms != [] {
      var n := |terms| - 1;
      TermItemsKnown(terms[..n], costumes, weapons);
      assert AllCatalogued(terms[n].costumes, costumes) && AllCatalogued(terms[n].weapons, weapons);
    }
  }

  /** What pruning leaves in the index of costumes. */
  function PrunedIndex(costumes: map<int, PoolItem>, pairings: map<int, int>): map<int, PoolItem> {
    map id | id in costumes && id in PairingsOf(costumes, pairings) :: costumes[id]
  }

  lemma ShopItemsKnown(shop: seq<ShopEntry>, costumes: map<int, PoolItem>, weapons: map<int, PoolItem>,
                       pairings: map<int, int>)
    requires KeyedById(costumes) && KeyedById(weapons)
    ensures
      var pruned := PrunedIndex(costumes, pairings);
      Known(ShopCostumes(shop, pruned), costumes) && Known(ShopWeapons(shop, pruned, weapons), weapons) &&
      forall x :: x in ShopCostumes(shop, pruned) ==> x.possessionId in pairings
  {
    var pruned := PrunedIndex(costumes, pairings);
    SoldCostumesKnown(shop, pruned);
    SoldWeaponsKnown(shop, Linked(shop, pruned), weapons);
  }

  lemma ChosenFromCatalog(src: Sources, e: Entry, costumes: map<int, PoolItem>, pairings: map<int, int>)
    requires KeyedById(costumes) && KeyedById(src.weaponById) && src.costumeById == PrunedIndex(costumes, pairings)
    requires TermsCatalogued(src.Terms(e), costumes, src.weaponById)
    ensures Known(Chosen(src, e).costumes, costumes) && Known(Chosen(src, e).weapons, src.weaponById)
  {
    TermItemsKnown(src.Terms(e), costumes, src.weaponById);
    FirstOfEachHolds(TermCostumes(src.Terms(e)));
    FirstOfEachHolds(TermWeapons(src.Terms(e)));
    ShopItemsKnown(src.Shop(e), costumes, src.weaponById, pairings);
  }

  /** The shop features paired costumes only; the terms feature what they list. */
  lemma ChosenUnpaired(src: Sources, e: Entry, costumes: map<int, PoolItem>, pairings: map<int, int>)
    requires KeyedById(costumes) && KeyedById(src.weaponById) && src.costumeById == PrunedIndex(costumes, pairings)
    requires TermsCatalogued(src.Terms(e), costumes, src.weaponById)
    ensures SomeUnpaired(Chosen(src, e).costumes, pairings) <==> SomeUnpaired(TermCostumes(src.Terms(e)), pairings)
  {
    var listed := TermCostumes(src.Terms(e));
    var first := FirstOfEach(listed);
    TermItemsKnown(src.Terms(e), costumes, src.weaponById);
    FirstOfEachHolds(listed);
    ShopItemsKnown(src.Shop(e), costumes, src.weaponById, pairings);
    if x :| x in listed && Drawable(x.rarity) && x.possessionId !in pairings {
      var i :| 0 <= i < |first| && first[i].possessionId == x.possessionId;
      assert first[i] in first && first[i] == x;
    }
  }

  /** The featured set a banner is built with: none for a chapter. */
  ghost predicate Features(src: Sources, e: Entry, fs: FeaturedSet) {
    if e.isChapter then fs == FeaturedSet([], []) else IsFeatured(src, e, fs)
  }

  /** With no gacha id repeated, that is what the built sets hold. */
  lemma BuiltFeatures(src: Sources, entries: seq<Entry>, featured: map<int, FeaturedSet>, i: nat)
    requires Built(src, entries, |entries|, featured) && i < |entries|
    requires forall j, k :: 0 <= j < k < |entries| ==> entries[j].gachaId != entries[k].gachaId
    ensures
      var id := entries[i].gachaId;
      Features(src, entries[i], if id in featured then featured[id] else FeaturedSet([], []))
  {
    var id := entries[i].gachaId;
    if id in featured {
      assert Explained(src, entries, |entries|, id, featured[id]);
      var k :| LastOf(src, entries, |entries|, id, k) && IsFeatured(src, entries[k], featured[id]);
      assert k == i;
    } else {
      assert Skipped(src, entries[i]);
    }
  }

  lemma SameItems(a: seq<PoolItem>, b: seq<PoolItem>)
    requires multiset(a) == multiset(b)
    ensures forall x :: x in a <==> x in b
  {
    forall x ensures x in a <==> x in b {
      assert x in a <==> x in multiset(a);
    }
  }

  lemma FeaturedFromCatalog(src: Sources, e: Entry, fs: FeaturedSet, costumes: map<int, PoolItem>,
                            pairings: map<int, int>)
    requires KeyedById(costumes) && KeyedById(src.weaponById) && src.costumeById == PrunedIndex(costumes, pairings)
    requires TermsCatalogued(src.Terms(e), costumes, src.weaponById) && Features(src, e, fs)
    ensures FromCatalog(fs, costumes, src.weaponById)
    ensures UnpairedFeatured(fs, pairings) <==> !e.isChapter && SomeUnpaired(TermCostumes(src.Terms(e)), pairings)
  {
    if !e.isChapter {
      ChosenFromCatalog(src, e, costumes, pairings);
      ChosenUnpaired(src, e, costumes, pairings);
      SortedChosen(fs, Chosen(src, e), costumes, src.weaponById, pairings);
    }
  }

  lemma SortedChosen(fs: FeaturedSet, chosen: FeaturedSet, costumes: map<int, PoolItem>, weapons: map<int, PoolItem>,
                     pairings: map<int, int>)
    requires multiset(fs.costumes) == multiset(chosen.costumes) && multiset(fs.weapons) == multiset(chosen.weapons)
    requires Known(chosen.costumes, costumes) && Known(chosen.weapons, weapons)
    ensures FromCatalog(fs, costumes, weapons)
    ensures UnpairedFeatured(fs, pairings) <==> SomeUnpaired(chosen.costumes, pairings)
  {
    SameItems(fs.costumes, chosen.costumes);
    SameItems(fs.weapons, chosen.weapons);
    if x :| x in chosen.costumes && Drawable(x.rarity) && x.possessionId !in pairings {
      var i :| 0 <= i < |fs.costumes| && fs.costumes[i] == x;
    }
  }

  /**
   * The whole of loading, in the order of the server: although featured sets and
   * banners are built after pruning, some draw from a banner gives an unpaired
   * costume exactly when the launch term, or for a banner that is no chapter a
   * term that starts with it, lists one of rarity SR or SSR.
   */
  lemma UnpairedIffInTerms(t: Tables, rows: seq<CostumeRow>, arms: seq<WeaponRow>, launch: seq<int>,
                           launchArms: seq<int>, restricted: set<int>, src: Sources, e: Entry, fs: FeaturedSet,
                           pairings: map<int, int>, multiplier: Multiplier)
    requires src.weaponById == ById(WeaponItems(t, arms, true)) && Raises(multiplier)
    requires src.costumeById == PrunedIndex(ById(CostumeItems(t, rows)), pairings)
    requires TermsCatalogued(src.Terms(e), ById(CostumeItems(t, rows)), src.weaponById) && Features(src, e, fs)
    ensures
      var costumes := ById(CostumeItems(t, rows));
      DrawsUnpaired(LoadedBanner(t, rows, arms, launch, launchArms, restricted, fs, pairings), multiplier,
                    PairingsOf(costumes, pairings)) <==>
      UnpairedLaunch(launch, costumes, pairings) ||
      (!e.isChapter && SomeUnpaired(TermCostumes(src.Terms(e)), pairings))
  {
    var costumes := ById(CostumeItems(t, rows));
    forall id | id in costumes ensures costumes[id].possessionId == id {
      ByIdHolds(CostumeItems(t, rows), id);
    }
    forall id | id in src.weaponById ensures src.weaponById[id].possessionId == id {
      ByIdHolds(WeaponItems(t, arms, true), id);
    }
    FeaturedFromCatalog(src, e, fs, costumes, pairings);
    UnpairedIffLaunchOrFeatured(t, rows, arms, launch, launchArms, restricted, fs, pairings, multiplier);
  }

  /** The pool a draw without a banner pool falls back to, once pruned, draws paired costumes only. */
  lemma PrunedCatalogIsPaired(m: map<int, seq<PoolItem>>, weapons: map<int, seq<PoolItem>>, multiplier: Multiplier,
                              pairs: map<int, int>)
    requires Bucketed(m, POSSESSION_COSTUME) && Bucketed(weapons, POSSESSION_WEAPON)
    ensures !DrawsUnpaired(BannerPool(PrunedBut(m, {}, pairs), weapons, []), multiplier, pairs)
  {
    var pruned := PrunedBut(m, {}, pairs);
    forall r | r in m ensures forall x :: x in pruned[r] ==> x in m[r] && x.possessionId in pairs {
      PruningKeepsBuckets(m[r], pairs, r);
    }
    if DrawsUnpaired(BannerPool(pruned, weapons, []), multiplier, pairs) {
      DrawnIsHeld(BannerPool(pruned, weapons, []), multiplier, pairs);
    }
  }

  /**
   * With nothing featured, one launch costume without a pairing is drawn exactly
   * when it is SR or SSR. Loading accepts rarities above SSR, but no tier reaches
   * them.
   */
  lemma UnpairedLaunchCostume(rarity: int, multiplier: Multiplier)
    requires rarity >= RARITY_SRARE && Raises(multiplier)
    ensures
      var t, rows := Tables({1}, {}, {}, {}, {}), [CostumeRow(1, rarity, 7)];
      DrawsUnpaired(LoadedBanner(t, rows, [], [1], [], {}, FeaturedSet([], []), map[]), multiplier, map[]) <==>
      Drawable(rarity)
  {
    var t, rows := Tables({1}, {}, {}, {}, {}), [CostumeRow(1, rarity, 7)];
    var costumes := ById(CostumeItems(t, rows));
    UnpairedIffLaunchOrFeatured(t, rows, [], [1], [], {}, FeaturedSet([], []), map[], multiplier);
    assert rows[..0] == [];
    assert CostumeItems(t, rows) == [CostumeItem(rows[0])];
    ByIdHolds(CostumeItems(t, rows), 1);
    assert CostumeItems(t, rows)[0].possessionId == 1;
    assert PairingsOf(costumes, map[]) == map[];
    assert [1][0] in costumes && costumes[1].rarity == rarity;
  }
}
