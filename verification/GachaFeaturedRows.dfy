/** What a banner features, from the terms and the shops that it is matched with. */
module GachaFeaturedRows {
  import opened Common
  import opened Sorting
  import opened GachaRates
  import opened GachaDraw
  import opened GachaFeatured

  // The featured sets of internal/masterdata/gacha_pool.go, item by item: term 1 is the
  // standard pool, rarity 30 is SR, and a banner whose terms have nothing to feature is
  // given the contents of its medal's shop.

  // ---------------------------------------------------------------------------
  // Terms
  // ---------------------------------------------------------------------------

  /** A term that starts with the banner, other than term 1, lists the item, of rarity SR or better. */
  ghost predicate TermCostume(src: Sources, e: Entry, x: PoolItem) {
    x.rarity >= 30 && e.startDatetime in src.termsAt &&
    exists t :: t in src.termsAt[e.startDatetime] && t.id != 1 && x in t.costumes
  }

  ghost predicate TermWeapon(src: Sources, e: Entry, x: PoolItem) {
    x.rarity >= 30 && e.startDatetime in src.termsAt &&
    exists t :: t in src.termsAt[e.startDatetime] && t.id != 1 && x in t.weapons
  }

  ghost predicate TermsHaveItems(src: Sources, e: Entry) {
    exists x :: TermCostume(src, e, x) || TermWeapon(src, e, x)
  }

  lemma {:induction false} TermsHold(terms: seq<Term>, x: PoolItem)
    ensures x in TermCostumes(terms) <==> exists t :: t in terms && t.id != 1 && x in t.costumes
    ensures x in TermWeapons(terms) <==> exists t :: t in terms && t.id != 1 && x in t.weapons
  {
    if terms != [] {
      var n := |terms| - 1;
      TermsHold(terms[..n], x);
      assert terms == terms[..n] + [terms[n]];
    }
  }

  ghost predicate HasId(items: seq<PoolItem>, id: int) {
    exists y :: y in items && y.possessionId == id
  }

  lemma IdsAreHeld(items: seq<PoolItem>, id: int)
    ensures id in IdsOf(items) <==> HasId(items, id)
  {
    if y :| y in items && y.possessionId == id {
      var i :| 0 <= i < |items| && items[i] == y;
      assert items[i].possessionId in IdsOf(items);
    }
  }

  lemma {:induction false} FirstsHold(items: seq<PoolItem>, x: PoolItem)
    ensures x in FirstOfEach(items) ==> x in items && x.rarity >= 30
    ensures x in items && x.rarity >= 30 ==> HasId(FirstOfEach(items), x.possessionId)
  {
    if items != [] {
      var n := |items| - 1;
      var before := FirstOfEach(items[..n]);
      FirstsHold(items[..n], x);
      IdsAreHeld(before, items[n].possessionId);
      assert items == items[..n] + [items[n]];
      if HasId(before, x.possessionId) {
        var y :| y in before && y.possessionId == x.possessionId;
        assert y in FirstOfEach(items);
      }
      if x == items[n] && x.rarity >= 30 && !HasId(before, x.possessionId) {
        assert x in FirstOfEach(items);
      }
    }
  }

  // ---------------------------------------------------------------------------
  // The shop
  // ---------------------------------------------------------------------------

  /** Row k sells a catalogued costume, of rarity SR or better, under an id other than 0. */
  ghost predicate SellsCostume(src: Sources, shop: seq<ShopEntry>, k: int, x: PoolItem) {
    0 <= k < |shop| && shop[k].costumeId == x.possessionId != 0 && x.rarity >= 30 &&
    x.possessionId in src.costumeById && src.costumeById[x.possessionId] == x
  }

  /** The weapon comes with a costume, in the first row that sells that one. */
  ghost predicate ComesWithCostume(src: Sources, shop: seq<ShopEntry>, weaponId: int) {
    exists k, c :: SellsCostume(src, shop, k, c) && shop[k].weaponId == weaponId &&
      forall j :: 0 <= j < k ==> shop[j].costumeId != shop[k].costumeId
  }

  ghost predicate SellsWeapon(src: Sources, shop: seq<ShopEntry>, k: int, x: PoolItem) {
    0 <= k < |shop| && shop[k].weaponId == x.possessionId != 0 && x.rarity >= 30 &&
    x.possessionId in src.weaponById && src.weaponById[x.possessionId] == x
  }

  lemma {:induction false} SoldIds(shop: seq<ShopEntry>, byId: map<int, PoolItem>, id: int)
    ensures id in SoldCostumes(shop, byId) <==>
      id != 0 && id in byId && byId[id].rarity >= 30 && exists k :: 0 <= k < |shop| && shop[k].costumeId == id
  {
    if shop != [] {
      var n := |shop| - 1;
      SoldIds(shop[..n], byId, id);
      assert forall k :: 0 <= k < n ==> shop[..n][k] == shop[k];
      if k :| 0 <= k < n && shop[k].costumeId == id { assert shop[..n][k].costumeId == id; }
    }
  }

  /** Row k is the first to sell its costume, and the weapon is in it. */
  ghost predicate LinksAt(shop: seq<ShopEntry>, byId: map<int, PoolItem>, k: int, weaponId: int) {
    0 <= k < |shop| && shop[k].weaponId == weaponId && shop[k].costumeId != 0 && shop[k].costumeId in byId &&
    byId[shop[k].costumeId].rarity >= 30 && forall j :: 0 <= j < k ==> shop[j].costumeId != shop[k].costumeId
  }

  lemma {:induction false} LinkedIds(shop: seq<ShopEntry>, byId: map<int, PoolItem>, weaponId: int)
    ensures weaponId in Linked(shop, byId) <==> exists k :: LinksAt(shop, byId, k, weaponId)
  {
    if shop != [] {
      var n := |shop| - 1;
      LinkedIds(shop[..n], byId, weaponId);
      SoldIds(shop[..n], byId, shop[n].costumeId);
      assert forall k :: 0 <= k < n ==> shop[..n][k] == shop[k];
      assert forall k :: 0 <= k < n ==> (LinksAt(shop, byId, k, weaponId) <==> LinksAt(shop[..n], byId, k, weaponId));
      assert LinksAt(shop, byId, n, weaponId) <==>
        Sells(shop[n].costumeId, byId) && shop[n].costumeId !in SoldCostumes(shop[..n], byId) &&
        shop[n].weaponId == weaponId;
    }
  }

  lemma {:induction false} SoldWeaponIds(shop: seq<ShopEntry>, linked: set<int>, byId: map<int, PoolItem>, id: int)
    ensures id in SoldWeapons(shop, linked, byId) <==>
      id != 0 && id in byId && byId[id].rarity >= 30 && id !in linked &&
      exists k :: 0 <= k < |shop| && shop[k].weaponId == id
  {
    if shop != [] {
      var n := |shop| - 1;
      SoldWeaponIds(shop[..n], linked, byId, id);
      assert forall k :: 0 <= k < n ==> shop[..n][k] == shop[k];
      if k :| 0 <= k < n && shop[k].weaponId == id { assert shop[..n][k].weaponId == id; }
    }
  }

  /** The shop of the banner's medal; medal 0 is none. */
  function ShopOf(src: Sources, e: Entry): seq<ShopEntry> {
    if e.medalItemId == 0 || e.medalItemId !in src.shops then [] else src.shops[e.medalItemId]
  }

  ghost predicate ShopCostume(src: Sources, e: Entry, x: PoolItem) {
    exists k :: SellsCostume(src, ShopOf(src, e), k, x)
  }

  /** A weapon sold on its own. */
  ghost predicate ShopWeapon(src: Sources, e: Entry, x: PoolItem) {
    !ComesWithCostume(src, ShopOf(src, e), x.possessionId) && exists k :: SellsWeapon(src, ShopOf(src, e), k, x)
  }

  lemma ShopCostumesAre(src: Sources, e: Entry, x: PoolItem)
    requires KeyedById(src.costumeById)
    ensures x in ShopCostumes(ShopOf(src, e), src.costumeById) <==> ShopCostume(src, e, x)
  {
    var shop := ShopOf(src, e);
    var ids := SoldCostumes(shop, src.costumeById);
    SoldCostumesKnown(shop, src.costumeById);
    SoldIds(shop, src.costumeById, x.possessionId);
    if x in ItemsOf(ids, src.costumeById) {
      var i :| 0 <= i < |ids| && src.costumeById[ids[i]] == x;
      assert ids[i] in ids;
      var k :| 0 <= k < |shop| && shop[k].costumeId == x.possessionId;
      assert SellsCostume(src, shop, k, x);
    }
    if ShopCostume(src, e, x) {
      var i :| 0 <= i < |ids| && ids[i] == x.possessionId;
      assert ItemsOf(ids, src.costumeById)[i] == x;
    }
  }

  lemma LinkedComeWithCostume(src: Sources, shop: seq<ShopEntry>, weaponId: int)
    requires KeyedById(src.costumeById)
    ensures weaponId in Linked(shop, src.costumeById) <==> ComesWithCostume(src, shop, weaponId)
  {
    LinkedIds(shop, src.costumeById, weaponId);
    if k :| LinksAt(shop, src.costumeById, k, weaponId) {
      assert SellsCostume(src, shop, k, src.costumeById[shop[k].costumeId]);
    }
    if ComesWithCostume(src, shop, weaponId) {
      var k, c :| SellsCostume(src, shop, k, c) && shop[k].weaponId == weaponId &&
        forall j :: 0 <= j < k ==> shop[j].costumeId != shop[k].costumeId;
      assert LinksAt(shop, src.costumeById, k, weaponId);
    }
  }

  lemma ShopWeaponsAre(src: Sources, e: Entry, x: PoolItem)
    requires KeyedById(src.costumeById) && KeyedById(src.weaponById)
    ensures x in ShopWeapons(ShopOf(src, e), src.costumeById, src.weaponById) <==> ShopWeapon(src, e, x)
  {
    var shop := ShopOf(src, e);
    var linked := Linked(shop, src.costumeById);
    var ids := SoldWeapons(shop, linked, src.weaponById);
    SoldWeaponsKnown(shop, linked, src.weaponById);
    SoldWeaponIds(shop, linked, src.weaponById, x.possessionId);
    LinkedComeWithCostume(src, shop, x.possessionId);
    if x in ItemsOf(ids, src.weaponById) {
      var i :| 0 <= i < |ids| && src.weaponById[ids[i]] == x;
      assert ids[i] in ids;
      var k :| 0 <= k < |shop| && shop[k].weaponId == x.possessionId;
      assert SellsWeapon(src, shop, k, x);
    }
    if ShopWeapon(src, e, x) {
      var i :| 0 <= i < |ids| && ids[i] == x.possessionId;
      assert ItemsOf(ids, src.weaponById)[i] == x;
    }
  }

  // ---------------------------------------------------------------------------
  // The featured set
  // ---------------------------------------------------------------------------

  lemma TermChosen(src: Sources, e: Entry, x: PoolItem)
    ensures
      var costumes, weapons := FirstOfEach(TermCostumes(src.Terms(e))), FirstOfEach(TermWeapons(src.Terms(e)));
      (x in costumes ==> TermCostume(src, e, x)) && (x in weapons ==> TermWeapon(src, e, x)) &&
      (TermCostume(src, e, x) ==> HasId(costumes, x.possessionId)) &&
      (TermWeapon(src, e, x) ==> HasId(weapons, x.possessionId))
  {
    TermsHold(src.Terms(e), x);
    FirstsHold(TermCostumes(src.Terms(e)), x);
    FirstsHold(TermWeapons(src.Terms(e)), x);
  }

  lemma TermsDecide(src: Sources, e: Entry)
    ensures TermsHaveItems(src, e) <==>
      FirstOfEach(TermCostumes(src.Terms(e))) != [] || FirstOfEach(TermWeapons(src.Terms(e))) != []
  {
    var costumes, weapons := FirstOfEach(TermCostumes(src.Terms(e))), FirstOfEach(TermWeapons(src.Terms(e)));
    if x :| TermCostume(src, e, x) || TermWeapon(src, e, x) { TermChosen(src, e, x); }
    if costumes != [] { TermChosen(src, e, costumes[0]); }
    if weapons != [] { TermChosen(src, e, weapons[0]); }
  }

  /** While the banner's terms have items, those are featured, under every id once and nothing else. */
  lemma TermsAreFeatured(src: Sources, e: Entry, fs: FeaturedSet, x: PoolItem)
    requires IsFeatured(src, e, fs) && TermsHaveItems(src, e)
    ensures (x in fs.costumes ==> TermCostume(src, e, x)) && (x in fs.weapons ==> TermWeapon(src, e, x))
    ensures TermCostume(src, e, x) ==> HasId(fs.costumes, x.possessionId)
    ensures TermWeapon(src, e, x) ==> HasId(fs.weapons, x.possessionId)
  {
    TermsDecide(src, e);
    TermChosen(src, e, x);
    SameItems(fs.costumes, Chosen(src, e).costumes, x.possessionId);
    SameItems(fs.weapons, Chosen(src, e).weapons, x.possessionId);
  }

  /** Otherwise its shop's costumes are, and the weapons the shop sells on their own. */
  lemma ShopIsFeatured(src: Sources, e: Entry, fs: FeaturedSet, x: PoolItem)
    requires IsFeatured(src, e, fs) && !TermsHaveItems(src, e)
    requires KeyedById(src.costumeById) && KeyedById(src.weaponById)
    ensures x in fs.costumes <==> ShopCostume(src, e, x)
    ensures x in fs.weapons <==> ShopWeapon(src, e, x)
  {
    TermsDecide(src, e);
    ShopCostumesAre(src, e, x);
    ShopWeaponsAre(src, e, x);
    SameItems(fs.costumes, Chosen(src, e).costumes, x.possessionId);
    SameItems(fs.weapons, Chosen(src, e).weapons, x.possessionId);
  }

  lemma SameItems(a: seq<PoolItem>, b: seq<PoolItem>, id: int)
    requires multiset(a) == multiset(b)
    ensures forall x :: x in a <==> x in b
    ensures HasId(a, id) <==> HasId(b, id)
  {
    forall x ensures x in a <==> x in b {
      assert x in a <==> x in multiset(b);
    }
  }

  /** The featured items are listed by id. */
  lemma FeaturedByIds(src: Sources, e: Entry, fs: FeaturedSet, i: nat, j: nat)
    requires KeyedById(src.costumeById) && KeyedById(src.weaponById) && IsFeatured(src, e, fs)
    ensures i < j < |fs.costumes| ==> fs.costumes[i].possessionId <= fs.costumes[j].possessionId
    ensures i < j < |fs.weapons| ==> fs.weapons[i].possessionId <= fs.weapons[j].possessionId
  {
    assert i < j < |fs.costumes| ==> IdOrder(fs.costumes[i], fs.costumes[j]);
    assert i < j < |fs.weapons| ==> IdOrder(fs.weapons[i], fs.weapons[j]);
  }

  /** No chapter, and something in its terms or, failing that, its shop. */
  ghost predicate HasFeatures(src: Sources, e: Entry) {
    !e.isChapter && (TermsHaveItems(src, e) || exists x :: ShopCostume(src, e, x) || ShopWeapon(src, e, x))
  }

  lemma SkippedIs(src: Sources, e: Entry)
    requires KeyedById(src.costumeById) && KeyedById(src.weaponById)
    ensures Skipped(src, e) <==> !HasFeatures(src, e)
  {
    TermsDecide(src, e);
    var fs := Chosen(src, e);
    if !TermsHaveItems(src, e) {
      if fs.costumes != [] { ShopCostumesAre(src, e, fs.costumes[0]); }
      if fs.weapons != [] { ShopWeaponsAre(src, e, fs.weapons[0]); }
      if x :| ShopCostume(src, e, x) || ShopWeapon(src, e, x) {
        ShopCostumesAre(src, e, x);
        ShopWeaponsAre(src, e, x);
      }
    }
  }

  /** The last entry of the id that has something to feature. */
  ghost predicate LastFeaturing(src: Sources, entries: seq<Entry>, id: int, i: int) {
    0 <= i < |entries| && entries[i].gachaId == id && HasFeatures(src, entries[i]) &&
    forall k :: i < k < |entries| && entries[k].gachaId == id ==> !HasFeatures(src, entries[k])
  }

  /** A banner has a featured set exactly when some entry of its id has something to feature: that of the last one. */
  lemma FeaturedOfLast(src: Sources, entries: seq<Entry>, featured: map<int, FeaturedSet>, id: int)
    requires KeyedById(src.costumeById) && KeyedById(src.weaponById) && Built(src, entries, |entries|, featured)
    ensures id in featured <==>
      exists i :: 0 <= i < |entries| && entries[i].gachaId == id && HasFeatures(src, entries[i])
    ensures id in featured ==>
      exists i :: LastFeaturing(src, entries, id, i) && IsFeatured(src, entries[i], featured[id])
  {
    forall i | 0 <= i < |entries| ensures Skipped(src, entries[i]) <==> !HasFeatures(src, entries[i]) {
      SkippedIs(src, entries[i]);
    }
    if id in featured {
      assert Explained(src, entries, |entries|, id, featured[id]);
      var i :| LastOf(src, entries, |entries|, id, i) && IsFeatured(src, entries[i], featured[id]);
      assert LastFeaturing(src, entries, id, i);
    }
  }
}
