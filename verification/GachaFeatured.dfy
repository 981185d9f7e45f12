/** The featured sets of banners (internal/masterdata/gacha_pool.go). */
module GachaFeatured {
  import opened Common
  import opened Sorting
  import opened GachaRates
  import opened GachaDraw

  // What a banner features: the items of the catalog terms that start with it, or, when
  // no term does, the contents of the exchange shop of its medal.

  datatype FeaturedSet = FeaturedSet(costumes: seq<PoolItem>, weapons: seq<PoolItem>)

  datatype Term = Term(id: int, costumes: seq<PoolItem>, weapons: seq<PoolItem>)

  /** A pair sold together; id 0 is none. */
  datatype ShopEntry = ShopEntry(costumeId: int, weaponId: int)

  datatype Entry = Entry(gachaId: int, isChapter: bool, startDatetime: int, medalItemId: int)

  const STANDARD_TERM := 1

  predicate IdOrder(a: PoolItem, b: PoolItem) {
    a.possessionId <= b.possessionId
  }

  function IdsOf(items: seq<PoolItem>): set<int> {
    set i | 0 <= i < |items| :: items[i].possessionId
  }

  /** Each id once, at its first item, and nothing below SR. */
  function FirstOfEach(items: seq<PoolItem>): seq<PoolItem> {
    if items == [] then []
    else
      var before, last := FirstOfEach(items[..|items| - 1]), items[|items| - 1];
      if last.rarity < RARITY_SRARE || last.possessionId in IdsOf(before) then before else before + [last]
  }

  // ---------------------------------------------------------------------------
  // Terms
  // ---------------------------------------------------------------------------

  function TermCostumes(terms: seq<Term>): seq<PoolItem> {
    if terms == [] then []
    else
      var before, last := TermCostumes(terms[..|terms| - 1]), terms[|terms| - 1];
      if last.id == STANDARD_TERM then before else before + last.costumes
  }

  function TermWeapons(terms: seq<Term>): seq<PoolItem> {
    if terms == [] then []
    else
      var before, last := TermWeapons(terms[..|terms| - 1]), terms[|terms| - 1];
      if last.id == STANDARD_TERM then before else before + last.weapons
  }

  /** One list of one term: what is new in it joins the featured items. */
  method AddNew(items0: seq<PoolItem>, seen0: set<int>, more: seq<PoolItem>, ghost past: seq<PoolItem>)
    returns (items: seq<PoolItem>, seen: set<int>)
    requires items0 == FirstOfEach(past) && seen0 == IdsOf(items0)
    ensures items == FirstOfEach(past + more) && seen == IdsOf(items)
  {
    items, seen := items0, seen0;
    assert past + more[..0] == past;
    for i := 0 to |more|
      invariant items == FirstOfEach(past + more[..i]) && seen == IdsOf(items)
    {
      var item := more[i];
      OneMoreItem(past + more[..i], item);
      assert past + more[..i + 1] == past + more[..i] + [item];
      if item.rarity < RARITY_SRARE || item.possessionId in seen {
        continue;
      }
      OneMoreId(items, item);
      items := items + [item];
      seen := seen + {item.possessionId};
    }
    assert more[..|more|] == more;
  }

  lemma OneMoreItem(items: seq<PoolItem>, x: PoolItem)
    ensures FirstOfEach(items + [x]) ==
      if x.rarity < RARITY_SRARE || x.possessionId in IdsOf(FirstOfEach(items)) then FirstOfEach(items)
      else FirstOfEach(items) + [x]
  {
    assert (items + [x])[..|items|] == items;
  }

  lemma OneMoreId(items: seq<PoolItem>, x: PoolItem)
    ensures IdsOf(items + [x]) == IdsOf(items) + {x.possessionId}
  {
    forall id | id in IdsOf(items) + {x.possessionId} ensures id in IdsOf(items + [x]) {
      if id in IdsOf(items) {
        var i :| 0 <= i < |items| && items[i].possessionId == id;
        assert (items + [x])[i].possessionId == id;
      } else {
        assert (items + [x])[|items|].possessionId == id;
      }
    }
  }

  method UnionTermFeatured(coTerms: seq<Term>) returns (costumes: seq<PoolItem>, weapons: seq<PoolItem>)
    ensures costumes == FirstOfEach(TermCostumes(coTerms)) && weapons == FirstOfEach(TermWeapons(coTerms))
  {
    costumes, weapons := [], [];
    var seenCostume, seenWeapon: set<int> := {}, {};
    for i := 0 to |coTerms|
      invariant costumes == FirstOfEach(TermCostumes(coTerms[..i])) && seenCostume == IdsOf(costumes)
      invariant weapons == FirstOfEach(TermWeapons(coTerms[..i])) && seenWeapon == IdsOf(weapons)
    {
      assert coTerms[..i + 1][..i] == coTerms[..i];
      var t := coTerms[i];
      if t.id == STANDARD_TERM {
        continue;
      }
      costumes, seenCostume := AddNew(costumes, seenCostume, t.costumes, TermCostumes(coTerms[..i]));
      weapons, seenWeapon := AddNew(weapons, seenWeapon, t.weapons, TermWeapons(coTerms[..i]));
    }
    assert coTerms[..|coTerms|] == coTerms;
  }

  // ---------------------------------------------------------------------------
  // The exchange shop
  // ---------------------------------------------------------------------------

  predicate Sells(id: int, byId: map<int, PoolItem>) {
    id != 0 && id in byId && byId[id].rarity >= RARITY_SRARE
  }

  /** The ids sold, each once, in order. */
  function SoldCostumes(shop: seq<ShopEntry>, byId: map<int, PoolItem>): seq<int> {
    if shop == [] then []
    else
      var before, id := SoldCostumes(shop[..|shop| - 1], byId), shop[|shop| - 1].costumeId;
      if Sells(id, byId) && id !in before then before + [id] else before
  }

  /** The weapons that come with a featured costume. */
  function Linked(shop: seq<ShopEntry>, byId: map<int, PoolItem>): set<int> {
    if shop == [] then {}
    else
      var n := |shop| - 1;
      if Sells(shop[n].costumeId, byId) && shop[n].costumeId !in SoldCostumes(shop[..n], byId)
      then Linked(shop[..n], byId) + {shop[n].weaponId} else Linked(shop[..n], byId)
  }

  function SoldWeapons(shop: seq<ShopEntry>, linked: set<int>, byId: map<int, PoolItem>): seq<int> {
    if shop == [] then []
    else
      var before, id := SoldWeapons(shop[..|shop| - 1], linked, byId), shop[|shop| - 1].weaponId;
      if Sells(id, byId) && id !in linked && id !in before then before + [id] else before
  }

  function ItemsOf(ids: seq<int>, byId: map<int, PoolItem>): seq<PoolItem>
    requires forall i :: 0 <= i < |ids| ==> ids[i] in byId
  {
    seq(|ids|, i requires 0 <= i < |ids| => byId[ids[i]])
  }

  lemma {:induction false} SoldCostumesKnown(shop: seq<ShopEntry>, byId: map<int, PoolItem>)
    ensures forall i :: 0 <= i < |SoldCostumes(shop, byId)| ==> Sells(SoldCostumes(shop, byId)[i], byId)
  {
    if shop != [] {
      SoldCostumesKnown(shop[..|shop| - 1], byId);
    }
  }

  lemma {:induction false} SoldWeaponsKnown(shop: seq<ShopEntry>, linked: set<int>, byId: map<int, PoolItem>)
    ensures forall i :: 0 <= i < |SoldWeapons(shop, linked, byId)| ==> Sells(SoldWeapons(shop, linked, byId)[i], byId)
  {
    if shop != [] {
      SoldWeaponsKnown(shop[..|shop| - 1], linked, byId);
    }
  }

  function ShopCostumes(shop: seq<ShopEntry>, costumes: map<int, PoolItem>): seq<PoolItem> {
    SoldCostumesKnown(shop, costumes);
    ItemsOf(SoldCostumes(shop, costumes), costumes)
  }

  function ShopWeapons(shop: seq<ShopEntry>, costumes: map<int, PoolItem>, weapons: map<int, PoolItem>): seq<PoolItem> {
    SoldWeaponsKnown(shop, Linked(shop, costumes), weapons);
    ItemsOf(SoldWeapons(shop, Linked(shop, costumes), weapons), weapons)
  }

  method FeaturedFromShop(shop: seq<ShopEntry>, costumeById: map<int, PoolItem>, weaponById: map<int, PoolItem>)
    returns (costumes: seq<PoolItem>, weapons: seq<PoolItem>)
    ensures costumes == ShopCostumes(shop, costumeById) && weapons == ShopWeapons(shop, costumeById, weaponById)
  {
    var linked;
    costumes, linked := CostumesFromShop(shop, costumeById);
    weapons := [];
    var seenWeapon: set<int> := {};
    ghost var ids: seq<int> := [];
    for i := 0 to |shop|
      invariant ids == SoldWeapons(shop[..i], linked, weaponById) && (forall id :: id in seenWeapon <==> id in ids)
      invariant (forall j :: 0 <= j < |ids| ==> ids[j] in weaponById) && weapons == ItemsOf(ids, weaponById)
    {
      assert shop[..i + 1][..i] == shop[..i];
      var id := shop[i].weaponId;
      if id == 0 || id in linked || id in seenWeapon {
        continue;
      }
      if id in weaponById && weaponById[id].rarity >= RARITY_SRARE {
        OneMoreOf(ids, id, weaponById);
        weapons := weapons + [weaponById[id]];
        seenWeapon := seenWeapon + {id};
        ids := ids + [id];
      }
    }
    assert shop[..|shop|] == shop;
  }

  lemma OneMoreOf(ids: seq<int>, id: int, byId: map<int, PoolItem>)
    requires (forall j :: 0 <= j < |ids| ==> ids[j] in byId) && id in byId
    ensures (forall j :: 0 <= j < |ids + [id]| ==> (ids + [id])[j] in byId)
    ensures ItemsOf(ids + [id], byId) == ItemsOf(ids, byId) + [byId[id]]
  {
  }

  method CostumesFromShop(shop: seq<ShopEntry>, costumeById: map<int, PoolItem>)
    returns (costumes: seq<PoolItem>, linked: set<int>)
    ensures costumes == ShopCostumes(shop, costumeById) && linked == Linked(shop, costumeById)
  {
    costumes, linked := [], {};
    var seenCostume: set<int> := {};
    ghost var ids: seq<int> := [];
    for i := 0 to |shop|
      invariant ids == SoldCostumes(shop[..i], costumeById) && (forall id :: id in seenCostume <==> id in ids)
      invariant (forall j :: 0 <= j < |ids| ==> ids[j] in costumeById) && costumes == ItemsOf(ids, costumeById)
      invariant linked == Linked(shop[..i], costumeById)
    {
      assert shop[..i + 1][..i] == shop[..i];
      var id := shop[i].costumeId;
      if id == 0 || id in seenCostume {
        continue;
      }
      if id in costumeById && costumeById[id].rarity >= RARITY_SRARE {
        OneMoreOf(ids, id, costumeById);
        costumes := costumes + [costumeById[id]];
        seenCostume := seenCostume + {id};
        linked := linked + {shop[i].weaponId};
        ids := ids + [id];
      }
    }
    assert shop[..|shop|] == shop;
  }

  // ---------------------------------------------------------------------------
  // The featured set of a banner
  // ---------------------------------------------------------------------------

  /** What the banners are matched against: terms by start time, shops by medal, and the catalog by id. */
  datatype Sources = Sources(termsAt: map<int, seq<Term>>, shops: map<int, seq<ShopEntry>>,
                             costumeById: map<int, PoolItem>, weaponById: map<int, PoolItem>)
  {
    function Terms(e: Entry): seq<Term> {
      if e.startDatetime in termsAt then termsAt[e.startDatetime] else []
    }

    function Shop(e: Entry): seq<ShopEntry> {
      if e.medalItemId != 0 && e.medalItemId in shops then shops[e.medalItemId] else []
    }
  }

  /** The items of the terms, or of the shop if the terms have none. */
  function Chosen(src: Sources, e: Entry): FeaturedSet {
    var costumes, weapons := FirstOfEach(TermCostumes(src.Terms(e))), FirstOfEach(TermWeapons(src.Terms(e)));
    if costumes == [] && weapons == []
    then
      FeaturedSet(ShopCostumes(src.Shop(e), src.costumeById),
                  ShopWeapons(src.Shop(e), src.costumeById, src.weaponById))
    else FeaturedSet(costumes, weapons)
  }

  /** The chosen items, in id order. */
  ghost predicate IsFeatured(src: Sources, e: Entry, fs: FeaturedSet) {
    multiset(fs.costumes) == multiset(Chosen(src, e).costumes) && SortedBy(fs.costumes, IdOrder) &&
    multiset(fs.weapons) == multiset(Chosen(src, e).weapons) && SortedBy(fs.weapons, IdOrder)
  }

  ghost predicate KeyedById(byId: map<int, PoolItem>) {
    forall id :: id in byId ==> byId[id].possessionId == id
  }

  ghost predicate DifferentIds(items: seq<PoolItem>) {
    forall i, j :: 0 <= i < j < |items| ==> items[i].possessionId != items[j].possessionId
  }

  lemma {:induction false} FirstOfEachDiffer(items: seq<PoolItem>)
    ensures DifferentIds(FirstOfEach(items))
  {
    if items != [] {
      var before := FirstOfEach(items[..|items| - 1]);
      FirstOfEachDiffer(items[..|items| - 1]);
      assert forall i :: 0 <= i < |before| ==> before[i].possessionId in IdsOf(before);
    }
  }

  lemma {:induction false} SoldIdsDiffer(shop: seq<ShopEntry>, linked: set<int>, byId: map<int, PoolItem>)
    ensures forall i, j :: 0 <= i < j < |SoldCostumes(shop, byId)| ==>
      SoldCostumes(shop, byId)[i] != SoldCostumes(shop, byId)[j]
    ensures forall i, j :: 0 <= i < j < |SoldWeapons(shop, linked, byId)| ==>
      SoldWeapons(shop, linked, byId)[i] != SoldWeapons(shop, linked, byId)[j]
  {
    if shop != [] {
      SoldIdsDiffer(shop[..|shop| - 1], linked, byId);
    }
  }

  /** Nothing is featured twice. */
  lemma ChosenDiffer(src: Sources, e: Entry)
    requires KeyedById(src.costumeById) && KeyedById(src.weaponById)
    ensures DifferentIds(Chosen(src, e).costumes) && DifferentIds(Chosen(src, e).weapons)
  {
    FirstOfEachDiffer(TermCostumes(src.Terms(e)));
    FirstOfEachDiffer(TermWeapons(src.Terms(e)));
    var shop := src.Shop(e);
    SoldCostumesKnown(shop, src.costumeById);
    SoldWeaponsKnown(shop, Linked(shop, src.costumeById), src.weaponById);
    SoldIdsDiffer(shop, Linked(shop, src.costumeById), src.costumeById);
    SoldIdsDiffer(shop, Linked(shop, src.costumeById), src.weaponById);
  }

  lemma OneSorting(items: seq<PoolItem>, a: seq<PoolItem>, b: seq<PoolItem>)
    requires DifferentIds(items) && multiset(a) == multiset(items) == multiset(b)
    requires SortedBy(a, IdOrder) && SortedBy(b, IdOrder)
    ensures a == b
  {
    forall x, y | x in a && y in a && IdOrder(x, y) && IdOrder(y, x) ensures x == y {
      assert x in multiset(items) && y in multiset(items);
      var i :| 0 <= i < |items| && items[i] == x;
      var j :| 0 <= j < |items| && items[j] == y;
    }
    SortedUnique(a, b, IdOrder);
  }

  /** The sort leaves one possible set, although it is not stable. */
  lemma FeaturedIsUnique(src: Sources, e: Entry, a: FeaturedSet, b: FeaturedSet)
    requires KeyedById(src.costumeById) && KeyedById(src.weaponById) && IsFeatured(src, e, a) && IsFeatured(src, e, b)
    ensures a == b
  {
    ChosenDiffer(src, e);
    OneSorting(Chosen(src, e).costumes, a.costumes, b.costumes);
    OneSorting(Chosen(src, e).weapons, a.weapons, b.weapons);
  }

  /** Chapters and banners without anything to feature get no featured set. */
  predicate Skipped(src: Sources, e: Entry) {
    e.isChapter || Chosen(src, e) == FeaturedSet([], [])
  }

  /** What the first n entries leave: for each id the set of its last entry that has something to feature. */
  ghost predicate Built(src: Sources, entries: seq<Entry>, n: nat, featured: map<int, FeaturedSet>)
    requires n <= |entries|
  {
    (forall i :: 0 <= i < n && !Skipped(src, entries[i]) ==> entries[i].gachaId in featured) &&
    forall id :: id in featured ==> Explained(src, entries, n, id, featured[id])
  }

  ghost predicate Explained(src: Sources, entries: seq<Entry>, n: nat, id: int, fs: FeaturedSet)
    requires n <= |entries|
  {
    exists i :: LastOf(src, entries, n, id, i) && IsFeatured(src, entries[i], fs)
  }

  ghost predicate LastOf(src: Sources, entries: seq<Entry>, n: nat, id: int, i: int)
    requires n <= |entries|
  {
    0 <= i < n && entries[i].gachaId == id && !Skipped(src, entries[i]) &&
    forall k :: i < k < n && entries[k].gachaId == id ==> Skipped(src, entries[k])
  }

  method ChooseFeatured(src: Sources, e: Entry) returns (costumes: seq<PoolItem>, weapons: seq<PoolItem>)
    ensures FeaturedSet(costumes, weapons) == Chosen(src, e)
  {
    costumes, weapons := UnionTermFeatured(src.Terms(e));
    if |costumes| == 0 && |weapons| == 0 && e.medalItemId != 0 {
      if e.medalItemId in src.shops {
        costumes, weapons := FeaturedFromShop(src.shops[e.medalItemId], src.costumeById, src.weaponById);
      }
    }
  }

  method BuildFeaturedFromTerms(src: Sources, entries: seq<Entry>) returns (featured: map<int, FeaturedSet>)
    ensures Built(src, entries, |entries|, featured)
  {
    featured := map[];
    for i := 0 to |entries|
      invariant Built(src, entries, i, featured)
    {
      var e := entries[i];
      if e.isChapter {
        OneMoreSkipped(src, entries, i, featured);
        continue;
      }
      var costumes, weapons := ChooseFeatured(src, e);
      if |costumes| == 0 && |weapons| == 0 {
        OneMoreSkipped(src, entries, i, featured);
        continue;
      }
      costumes := Sort(costumes, IdOrder);
      weapons := Sort(weapons, IdOrder);
      OneMoreBuilt(src, entries, i, featured, FeaturedSet(costumes, weapons));
      featured := featured[e.gachaId := FeaturedSet(costumes, weapons)];
    }
  }

  lemma StillExplained(src: Sources, entries: seq<Entry>, n: nat, id: int, fs: FeaturedSet)
    requires n < |entries| && Explained(src, entries, n, id, fs)
    requires entries[n].gachaId != id || Skipped(src, entries[n])
    ensures Explained(src, entries, n + 1, id, fs)
  {
    var i :| LastOf(src, entries, n, id, i) && IsFeatured(src, entries[i], fs);
    StillLast(src, entries, n, id, i);
  }

  lemma StillLast(src: Sources, entries: seq<Entry>, n: nat, id: int, i: int)
    requires n < |entries| && LastOf(src, entries, n, id, i)
    requires entries[n].gachaId != id || Skipped(src, entries[n])
    ensures LastOf(src, entries, n + 1, id, i)
  {
  }

  lemma NewlyExplained(src: Sources, entries: seq<Entry>, n: nat, fs: FeaturedSet)
    requires n < |entries| && !Skipped(src, entries[n]) && IsFeatured(src, entries[n], fs)
    ensures Explained(src, entries, n + 1, entries[n].gachaId, fs)
  {
    assert LastOf(src, entries, n + 1, entries[n].gachaId, n);
  }

  lemma OneMoreSkipped(src: Sources, entries: seq<Entry>, n: nat, featured: map<int, FeaturedSet>)
    requires n < |entries| && Built(src, entries, n, featured) && Skipped(src, entries[n])
    ensures Built(src, entries, n + 1, featured)
  {
    forall id | id in featured ensures Explained(src, entries, n + 1, id, featured[id]) {
      StillExplained(src, entries, n, id, featured[id]);
    }
  }

  lemma OneMoreBuilt(src: Sources, entries: seq<Entry>, n: nat, featured: map<int, FeaturedSet>, fs: FeaturedSet)
    requires n < |entries| && Built(src, entries, n, featured)
    requires !Skipped(src, entries[n]) && IsFeatured(src, entries[n], fs)
    ensures Built(src, entries, n + 1, featured[entries[n].gachaId := fs])
  {
    var after := featured[entries[n].gachaId := fs];
    forall id | id in after ensures Explained(src, entries, n + 1, id, after[id]) {
      if id == entries[n].gachaId {
        NewlyExplained(src, entries, n, fs);
      } else {
        StillExplained(src, entries, n, id, featured[id]);
      }
    }
  }
}
