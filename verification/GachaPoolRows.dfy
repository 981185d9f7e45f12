/** Which items the loaded pools and banners hold. */
module GachaPoolRows {
  import opened Common
  import opened GachaRates
  import opened GachaDraw
  import opened GachaFeatured
  import opened GachaPool

  // The pools of internal/masterdata/gacha_pool.go, on the rows of the tables: which rows
  // of the costume and weapon tables the catalog loads, and what a banner's buckets hold
  // beside the standard pool.

  // ---------------------------------------------------------------------------
  // Rows
  // ---------------------------------------------------------------------------

  /** The table has a row for the item that the catalog lists, of rarity SR or better, and no quest grants it. */
  ghost predicate CostumeRowOf(t: Tables, rows: seq<CostumeRow>, x: PoolItem) {
    x.possessionType == 1 && CostumeRow(x.possessionId, x.rarity, x.characterId) in rows &&
    x.possessionId in t.catalogCostumes && x.rarity >= 30 && x.possessionId !in t.grantedCostumes
  }

  /** The table has a row for the item that the catalog lists, that nothing evolves into and no quest grants. */
  ghost predicate WeaponRowOf(t: Tables, rows: seq<WeaponRow>, x: PoolItem, restricted: bool) {
    x.possessionType == 2 && x.characterId == 0 && WeaponRow(x.possessionId, x.rarity, restricted) in rows &&
    x.possessionId in t.catalogWeapons && x.possessionId !in t.evolvedWeapons && x.possessionId !in t.grantedWeapons
  }

  lemma {:induction false} CostumesLoaded(t: Tables, rows: seq<CostumeRow>, x: PoolItem)
    ensures x in CostumeItems(t, rows) <==> CostumeRowOf(t, rows, x)
  {
    if rows != [] {
      var n := |rows| - 1;
      CostumesLoaded(t, rows[..n], x);
      assert rows == rows[..n] + [rows[n]];
    }
  }

  lemma {:induction false} WeaponsLoaded(t: Tables, rows: seq<WeaponRow>, x: PoolItem)
    ensures x in WeaponItems(t, rows, false) <==> WeaponRowOf(t, rows, x, false)
    ensures x in WeaponItems(t, rows, true) <==> WeaponRowOf(t, rows, x, false) || WeaponRowOf(t, rows, x, true)
  {
    if rows != [] {
      var n := |rows| - 1;
      WeaponsLoaded(t, rows[..n], x);
      assert rows == rows[..n] + [rows[n]];
    }
  }

  lemma {:induction false} OfRarityHolds(items: seq<PoolItem>, rarity: int, x: PoolItem)
    ensures x in OfRarity(items, rarity) <==> x in items && x.rarity == rarity
  {
    if items != [] {
      var n := |items| - 1;
      OfRarityHolds(items[..n], rarity, x);
      assert items == items[..n] + [items[n]];
    }
  }

  /** In a bucket of the pool. */
  ghost predicate InBucket(pool: map<int, seq<PoolItem>>, rarity: int, x: PoolItem) {
    rarity in pool && x in pool[rarity]
  }

  lemma AddedHolds(m: map<int, seq<PoolItem>>, items: seq<PoolItem>, rarity: int, x: PoolItem)
    ensures InBucket(AddedAll(m, items), rarity, x) <==> InBucket(m, rarity, x) || (x in items && x.rarity == rarity)
  {
    BucketedByRarity(m, items, rarity);
    OfRarityHolds(items, rarity, x);
    assert x in Bucket(AddedAll(m, items), rarity) <==> x in Bucket(m, rarity) || x in OfRarity(items, rarity);
  }

  /** After loading, each bucket holds its rarity's admitted rows, of the weapons those that can be discarded. */
  lemma LoadedBuckets(t: Tables, costumes: seq<CostumeRow>, weapons: seq<WeaponRow>, rarity: int, x: PoolItem)
    ensures InBucket(AddedAll(map[], CostumeItems(t, costumes)), rarity, x) <==>
      CostumeRowOf(t, costumes, x) && x.rarity == rarity
    ensures InBucket(AddedAll(map[], WeaponItems(t, weapons, false)), rarity, x) <==>
      WeaponRowOf(t, weapons, x, false) && x.rarity == rarity
  {
    AddedHolds(map[], CostumeItems(t, costumes), rarity, x);
    AddedHolds(map[], WeaponItems(t, weapons, false), rarity, x);
    CostumesLoaded(t, costumes, x);
    WeaponsLoaded(t, weapons, x);
  }

  ghost predicate UniqueCostumes(rows: seq<CostumeRow>) {
    forall a, b :: a in rows && b in rows && a.id == b.id ==> a == b
  }

  ghost predicate UniqueWeapons(rows: seq<WeaponRow>) {
    forall a, b :: a in rows && b in rows && a.id == b.id ==> a == b
  }

  /** The indexes by id: the admitted costumes, and the admitted weapons whether or not they can be discarded. */
  lemma LoadedIndexes(t: Tables, costumes: seq<CostumeRow>, weapons: seq<WeaponRow>, x: PoolItem)
    requires UniqueCostumes(costumes) && UniqueWeapons(weapons)
    ensures
      var byId := ById(CostumeItems(t, costumes));
      x.possessionId in byId && byId[x.possessionId] == x <==> CostumeRowOf(t, costumes, x)
    ensures
      var byId := ById(WeaponItems(t, weapons, true));
      x.possessionId in byId && byId[x.possessionId] == x <==>
        WeaponRowOf(t, weapons, x, false) || WeaponRowOf(t, weapons, x, true)
  {
    var items, arms := CostumeItems(t, costumes), WeaponItems(t, weapons, true);
    ByIdHolds(items, x.possessionId);
    ByIdHolds(arms, x.possessionId);
    CostumesLoaded(t, costumes, x);
    WeaponsLoaded(t, weapons, x);
    if x.possessionId in ById(items) {
      CostumesLoaded(t, costumes, ById(items)[x.possessionId]);
    }
    if x.possessionId in ById(arms) {
      WeaponsLoaded(t, weapons, ById(arms)[x.possessionId]);
    }
  }

  // ---------------------------------------------------------------------------
  // The standard pool and the banners
  // ---------------------------------------------------------------------------

  lemma {:induction false} ResolvedHolds(ids: seq<int>, byId: map<int, PoolItem>, excluded: set<int>, x: PoolItem)
    requires forall id :: id in byId ==> byId[id].possessionId == id
    ensures x in Resolved(ids, byId, excluded) <==>
      x.possessionId in ids && x.possessionId !in excluded && x.possessionId in byId && byId[x.possessionId] == x
  {
    if ids != [] {
      var n := |ids| - 1;
      ResolvedHolds(ids[..n], byId, excluded, x);
      assert ids == ids[..n] + [ids[n]];
    }
  }

  /** The standard pool: the launch items that are catalogued, of the weapons those that can be discarded. */
  lemma StandardBuckets(t: Tables, costumes: seq<CostumeRow>, weapons: seq<WeaponRow>, launchCostumes: seq<int>,
                        launchWeapons: seq<int>, rarity: int, x: PoolItem)
    requires UniqueCostumes(costumes) && UniqueWeapons(weapons)
    ensures
      var byId := ById(CostumeItems(t, costumes));
      InBucket(AddedAll(map[], Resolved(launchCostumes, byId, {})), rarity, x) <==>
        x.possessionId in launchCostumes && CostumeRowOf(t, costumes, x) && x.rarity == rarity
    ensures
      var byId := ById(WeaponItems(t, weapons, true));
      InBucket(AddedAll(map[], Resolved(launchWeapons, byId, Restricted(weapons))), rarity, x) <==>
        x.possessionId in launchWeapons && WeaponRowOf(t, weapons, x, false) && x.rarity == rarity
  {
    var units, arms := ById(CostumeItems(t, costumes)), ById(WeaponItems(t, weapons, true));
    forall id | id in units ensures units[id].possessionId == id { ByIdHolds(CostumeItems(t, costumes), id); }
    forall id | id in arms ensures arms[id].possessionId == id { ByIdHolds(WeaponItems(t, weapons, true), id); }
    LoadedIndexes(t, costumes, weapons, x);
    AddedHolds(map[], Resolved(launchCostumes, units, {}), rarity, x);
    AddedHolds(map[], Resolved(launchWeapons, arms, Restricted(weapons)), rarity, x);
    ResolvedHolds(launchCostumes, units, {}, x);
    ResolvedHolds(launchWeapons, arms, Restricted(weapons), x);
    assert WeaponRowOf(t, weapons, x, false) ==> x.possessionId !in Restricted(weapons);
    assert WeaponRowOf(t, weapons, x, true) ==> x.possessionId in Restricted(weapons);
  }

  /** The weapon is the one some featured costume is paired with. */
  ghost predicate PairOf(costumes: seq<PoolItem>, pairs: map<int, int>, byId: map<int, PoolItem>, w: PoolItem) {
    exists c :: c in costumes && c.possessionId in pairs && pairs[c.possessionId] in byId &&
      byId[pairs[c.possessionId]] == w
  }

  lemma {:induction false} PairedHold(costumes: seq<PoolItem>, pairs: map<int, int>, byId: map<int, PoolItem>,
                                      x: PoolItem)
    ensures x in PairedWeapons(costumes, pairs, byId) <==> PairOf(costumes, pairs, byId, x)
    ensures x in WithPairs(costumes, pairs, byId) <==> x in costumes || PairOf(costumes, pairs, byId, x)
  {
    if costumes != [] {
      var n := |costumes| - 1;
      PairedHold(costumes[..n], pairs, byId, x);
      assert costumes == costumes[..n] + [costumes[n]];
      assert PairOf(costumes, pairs, byId, x) <==>
        PairOf(costumes[..n], pairs, byId, x) || x in PairedWeapon(costumes[n], pairs, byId);
    }
  }

  /**
   * A banner's pool: the standard pool with the banner's featured costumes, its
   * featured weapons and the weapons paired with the costumes, each in the
   * bucket of its rarity; exactly those are featured.
   */
  lemma BannerHolds(costumes: map<int, seq<PoolItem>>, weapons: map<int, seq<PoolItem>>, fs: FeaturedSet,
                    pairs: map<int, int>, byId: map<int, PoolItem>, rarity: int, x: PoolItem)
    ensures
      var bp := BannerFor(costumes, weapons, fs, pairs, byId);
      (InBucket(bp.costumesByRarity, rarity, x) <==>
       InBucket(costumes, rarity, x) || (x in fs.costumes && x.rarity == rarity)) &&
      (InBucket(bp.weaponsByRarity, rarity, x) <==>
       InBucket(weapons, rarity, x) ||
       ((x in fs.weapons || PairOf(fs.costumes, pairs, byId, x)) && x.rarity == rarity)) &&
      (x in bp.featured <==> x in fs.costumes || x in fs.weapons || PairOf(fs.costumes, pairs, byId, x))
  {
    PairedHold(fs.costumes, pairs, byId, x);
    AddedHolds(costumes, fs.costumes, rarity, x);
    AddedHolds(weapons, PairedWeapons(fs.costumes, pairs, byId) + fs.weapons, rarity, x);
  }
}
