/** What an overridden banner holds, item by item. */
module GachaOverrideRows {
  import opened Common
  import opened GachaRates
  import opened GachaDraw
  import opened GachaFeatured
  import opened GachaPool
  import opened GachaPoolRows
  import opened GachaOverride

  // The pool that an override of internal/masterdata/gacha_pool.go leaves, item by item:
  // the costumes of the characters asked for, and the weapons that one of them wields.

  /** A catalogued costume of one of the characters, not on the exclusion list. */
  ghost predicate Joins(src: Source, req: Request, x: PoolItem) {
    x.possessionId in src.costumeById && src.costumeById[x.possessionId] == x &&
    x.characterId in req.characters && x.possessionId !in req.exCostumes
  }

  /** Some costume that joins is skilled with the weapon type; a costume the table lacks is skilled with type 0. */
  ghost predicate Wields(src: Source, req: Request, weaponType: int) {
    exists c :: Joins(src, req, c) &&
      weaponType == if c.possessionId in src.skillfulTypes then src.skillfulTypes[c.possessionId] else 0
  }

  /** A catalogued weapon of a type that is wielded, not on the exclusion list, that can be discarded. */
  ghost predicate JoinsAsRegular(src: Source, req: Request, x: PoolItem) {
    x.possessionId in src.weaponById && src.weaponById[x.possessionId] == x &&
    x.possessionId !in req.exWeapons && x.possessionId !in src.restricted &&
    Wields(src, req, if x.possessionId in src.weaponTypes then src.weaponTypes[x.possessionId] else 0)
  }

  /** A registered weapon of a type that is wielded, that nothing evolves into. */
  ghost predicate JoinsAsExtra(src: Source, req: Request, x: PoolItem) {
    x.possessionId in req.extras && x.possessionId !in src.evolved && x.possessionId in src.masters &&
    Wields(src, req, src.masters[x.possessionId].weaponType) &&
    x == PoolItem(2, x.possessionId, src.masters[x.possessionId].rarity, 0)
  }

  lemma CostumesJoin(src: Source, req: Request, x: PoolItem)
    requires src.Keyed()
    ensures x in Costumes(src, req) <==> Joins(src, req, x)
  {
  }

  lemma AllowedIsWielded(src: Source, req: Request, weaponType: int)
    requires src.Keyed()
    ensures weaponType in AllowedTypes(src, Costumes(src, req)) <==> Wields(src, req, weaponType)
  {
    forall c ensures c in Costumes(src, req) <==> Joins(src, req, c) {
      CostumesJoin(src, req, c);
    }
  }

  lemma WeaponsJoin(src: Source, req: Request, x: PoolItem)
    requires src.Keyed()
    ensures x in Weapons(src, req, AllowedTypes(src, Costumes(src, req))) <==>
      JoinsAsRegular(src, req, x) ||
      (JoinsAsExtra(src, req, x) &&
       forall y :: JoinsAsRegular(src, req, y) ==> y.possessionId != x.possessionId)
  {
    var allowed := AllowedTypes(src, Costumes(src, req));
    var regular := RegularWeapons(src, req, allowed);
    forall weaponType ensures weaponType in allowed <==> Wields(src, req, weaponType) {
      AllowedIsWielded(src, req, weaponType);
    }
    assert forall y :: y in regular <==> JoinsAsRegular(src, req, y);
    assert forall id :: id in IdsIn(regular) <==> exists y :: JoinsAsRegular(src, req, y) && y.possessionId == id;
    assert x in Extras(src, allowed, IdsIn(regular), req.extras) <==>
      JoinsAsExtra(src, req, x) && x.possessionId !in IdsIn(regular);
  }

  lemma FlatHolds(flat: seq<PoolItem>, items: set<PoolItem>, x: PoolItem)
    requires Flattens(flat, items)
    ensures x in flat <==> x in items
  {
    assert x in flat <==> x in multiset(flat);
  }

  lemma HeldIn(m: map<int, seq<PoolItem>>, items: set<PoolItem>, rarity: int, x: PoolItem)
    requires Holds(m, items)
    ensures InBucket(m, rarity, x) <==> x in items && x.rarity == rarity
  {
    FlatHolds(Bucket(m, rarity), OfRarityIn(items, rarity), x);
  }

  /**
   * Each bucket of an overridden pool holds, of its rarity, the costumes that join
   * and the regular weapons that do, with the registered ones whose id is not
   * there yet; all of them are featured. An excluded costume never joins.
   */
  lemma OverriddenPool(src: Source, req: Request, bp: BannerPool, fs: FeaturedSet, rarity: int, x: PoolItem)
    requires src.Keyed() && OverrideFor(src, req, bp, fs)
    ensures InBucket(bp.costumesByRarity, rarity, x) <==> Joins(src, req, x) && x.rarity == rarity
    ensures InBucket(bp.weaponsByRarity, rarity, x) <==>
      x.rarity == rarity &&
      (JoinsAsRegular(src, req, x) ||
       (JoinsAsExtra(src, req, x) && forall y :: JoinsAsRegular(src, req, y) ==> y.possessionId != x.possessionId))
    ensures x in bp.featured <==>
      InBucket(bp.costumesByRarity, x.rarity, x) || InBucket(bp.weaponsByRarity, x.rarity, x)
    ensures x.possessionId in req.exCostumes ==> !InBucket(bp.costumesByRarity, rarity, x)
  {
    var costumes := Costumes(src, req);
    var weapons := Weapons(src, req, AllowedTypes(src, costumes));
    CostumesJoin(src, req, x);
    WeaponsJoin(src, req, x);
    HeldIn(bp.costumesByRarity, costumes, rarity, x);
    HeldIn(bp.weaponsByRarity, weapons, rarity, x);
    HeldIn(bp.costumesByRarity, costumes, x.rarity, x);
    HeldIn(bp.weaponsByRarity, weapons, x.rarity, x);
    FlatHolds(fs.costumes, costumes, x);
    FlatHolds(fs.weapons, weapons, x);
  }

  /** The featured costumes, and after them the featured weapons, are listed by rarity and then by id. */
  lemma OverriddenOrder(src: Source, req: Request, bp: BannerPool, fs: FeaturedSet, i: nat, j: nat)
    requires src.Keyed() && OverrideFor(src, req, bp, fs)
    ensures bp.featured == fs.costumes + fs.weapons
    ensures i < j < |fs.costumes| ==>
      fs.costumes[i].rarity < fs.costumes[j].rarity ||
      (fs.costumes[i].rarity == fs.costumes[j].rarity && fs.costumes[i].possessionId < fs.costumes[j].possessionId)
    ensures i < j < |fs.weapons| ==>
      fs.weapons[i].rarity < fs.weapons[j].rarity ||
      (fs.weapons[i].rarity == fs.weapons[j].rarity && fs.weapons[i].possessionId < fs.weapons[j].possessionId)
  {
    OverrideIsSound(src, req, bp, fs);
    assert i < j < |fs.costumes| ==> Before(fs.costumes[i], fs.costumes[j]);
    assert i < j < |fs.weapons| ==> Before(fs.weapons[i], fs.weapons[j]);
  }
}
