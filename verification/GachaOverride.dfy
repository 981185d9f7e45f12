/** Overridden banners (masterdata/gacha_pool.go). */
module GachaOverride {
  import opened Common
  import opened Sorting
  import opened GachaRates
  import opened GachaDraw
  import opened GachaFeatured
  import opened GachaPool

  // A banner's whole pool is replaced by the costumes of a group of characters and the
  // weapons they can wield. The catalog is read from Go maps, in any order.

  datatype WeaponMaster = WeaponMaster(id: int, weaponType: int, rarity: int)

  /** What an override reads: items by id, weapon types, and the unfiltered weapon table. */
  datatype Source = Source(
    costumeById: map<int, PoolItem>, weaponById: map<int, PoolItem>,
    skillfulTypes: map<int, int>, weaponTypes: map<int, int>,
    masters: map<int, WeaponMaster>, evolved: set<int>, restricted: set<int>)
  {
    /** Loading keys every item by its own id. */
    ghost predicate Keyed() {
      (forall id :: id in costumeById ==>
        costumeById[id].possessionId == id && costumeById[id].possessionType == POSSESSION_COSTUME) &&
      (forall id :: id in weaponById ==>
        weaponById[id].possessionId == id && weaponById[id].possessionType == POSSESSION_WEAPON) &&
      (forall id :: id in masters ==> masters[id].id == id)
    }
  }

  datatype Request = Request(characters: set<int>, exCostumes: set<int>, exWeapons: set<int>, extras: seq<int>)

  // ---------------------------------------------------------------------------
  // What belongs in the pool
  // ---------------------------------------------------------------------------

  predicate TakesCostume(req: Request, item: PoolItem) {
    item.characterId in req.characters && item.possessionId !in req.exCostumes
  }

  /** The items taken of those with the given ids. */
  function Taken(byId: map<int, PoolItem>, ids: set<int>, takes: PoolItem -> bool): set<PoolItem> {
    set id | id in ids && id in byId && takes(byId[id]) :: byId[id]
  }

  function Costumes(src: Source, req: Request): set<PoolItem> {
    Taken(src.costumeById, src.costumeById.Keys, x => TakesCostume(req, x))
  }

  /** The weapon types the costumes are skilled with; an unlisted costume counts as type 0. */
  function AllowedTypes(src: Source, costumes: set<PoolItem>): set<int> {
    set c | c in costumes :: Count(src.skillfulTypes, c.possessionId)
  }

  predicate TakesWeapon(src: Source, req: Request, allowed: set<int>, item: PoolItem) {
    item.possessionId !in req.exWeapons && item.possessionId !in src.restricted &&
    Count(src.weaponTypes, item.possessionId) in allowed
  }

  function RegularWeapons(src: Source, req: Request, allowed: set<int>): set<PoolItem> {
    Taken(src.weaponById, src.weaponById.Keys, x => TakesWeapon(src, req, allowed, x))
  }

  predicate TakesExtra(src: Source, allowed: set<int>, id: int) {
    id !in src.evolved && id in src.masters && src.masters[id].weaponType in allowed
  }

  function ExtraItem(src: Source, id: int): PoolItem
    requires id in src.masters
  {
    PoolItem(POSSESSION_WEAPON, src.masters[id].id, src.masters[id].rarity, 0)
  }

  function IdsIn(items: set<PoolItem>): set<int> {
    set x | x in items :: x.possessionId
  }

  /** The regular weapons, and of the registered extras those not there yet. */
  function Weapons(src: Source, req: Request, allowed: set<int>): set<PoolItem> {
    var regular := RegularWeapons(src, req, allowed);
    regular + Extras(src, allowed, IdsIn(regular), req.extras)
  }

  function Extras(src: Source, allowed: set<int>, present: set<int>, extras: seq<int>): set<PoolItem> {
    set id | id in extras && id !in present && TakesExtra(src, allowed, id) :: ExtraItem(src, id)
  }

  ghost predicate DistinctIds(items: set<PoolItem>) {
    forall x, y :: x in items && y in items && x.possessionId == y.possessionId ==> x == y
  }

  lemma PoolsHaveDistinctIds(src: Source, req: Request, allowed: set<int>)
    requires src.Keyed()
    ensures DistinctIds(Costumes(src, req)) && DistinctIds(Weapons(src, req, allowed))
  {
    var regular := RegularWeapons(src, req, allowed);
    forall x, y | x in Weapons(src, req, allowed) && y in Weapons(src, req, allowed) && x.possessionId == y.possessionId
      ensures x == y
    {
      assert x in regular ==> x.possessionId in IdsIn(regular);
      assert y in regular ==> y.possessionId in IdsIn(regular);
    }
  }

  lemma ExcludedIds(src: Source, req: Request, allowed: set<int>, id: int)
    requires src.Keyed() && id in req.exWeapons
    ensures id in IdsIn(Weapons(src, req, allowed)) <==> id in req.extras && TakesExtra(src, allowed, id)
  {
    assert id !in IdsIn(RegularWeapons(src, req, allowed));
    if id in req.extras && TakesExtra(src, allowed, id) {
      assert ExtraItem(src, id) in Weapons(src, req, allowed);
    }
  }

  // ---------------------------------------------------------------------------
  // Flattening
  // ---------------------------------------------------------------------------

  /** By rarity, then by id. */
  predicate Before(a: PoolItem, b: PoolItem) {
    a.rarity < b.rarity || (a.rarity == b.rarity && a.possessionId <= b.possessionId)
  }

  /** The items of a set, each once, by rarity and then by id. */
  ghost predicate Flattens(flat: seq<PoolItem>, items: set<PoolItem>) {
    SortedBy(flat, Before) && multiset(flat) == multiset(items)
  }

  lemma FlatteningIsUnique(a: seq<PoolItem>, b: seq<PoolItem>, items: set<PoolItem>)
    requires DistinctIds(items) && Flattens(a, items) && Flattens(b, items)
    ensures a == b
  {
    forall x, y | x in a && y in a && Before(x, y) && Before(y, x) ensures x == y {
      assert x in multiset(a) && y in multiset(a);
    }
    SortedUnique(a, b, Before);
  }

  function OfRarityIn(items: set<PoolItem>, rarity: int): set<PoolItem> {
    set x | x in items && x.rarity == rarity
  }

  /** A rarity map that holds a set: a bucket for each rarity that occurs, in id order. */
  ghost predicate Holds(m: map<int, seq<PoolItem>>, items: set<PoolItem>) {
    (forall r :: r in m ==> m[r] != []) &&
    forall r :: Flattens(Bucket(m, r), OfRarityIn(items, r))
  }

  /** One override's outcome for the costumes and weapons it is given. */
  ghost predicate Overrides(costumes: set<PoolItem>, weapons: set<PoolItem>, bp: BannerPool, fs: FeaturedSet) {
    Holds(bp.costumesByRarity, costumes) && Holds(bp.weaponsByRarity, weapons) &&
    Flattens(fs.costumes, costumes) && Flattens(fs.weapons, weapons) &&
    bp.featured == fs.costumes + fs.weapons
  }

  lemma HoldsOne(m: map<int, seq<PoolItem>>, n: map<int, seq<PoolItem>>, items: set<PoolItem>)
    requires DistinctIds(items) && Holds(m, items) && Holds(n, items)
    ensures m == n
  {
    forall r ensures Bucket(m, r) == Bucket(n, r) {
      FlatteningIsUnique(Bucket(m, r), Bucket(n, r), OfRarityIn(items, r));
    }
    forall r ensures r in m.Keys <==> r in n.Keys {
      assert r in m <==> Bucket(m, r) != [];
      assert r in n <==> Bucket(n, r) != [];
    }
    assert m.Keys == n.Keys;
    forall r | r in m ensures m[r] == n[r] {
      assert Bucket(m, r) == Bucket(n, r);
    }
  }

  /** Whatever order the maps are visited in, the outcome is the same. */
  lemma OverrideIsOrderFree(costumes: set<PoolItem>, weapons: set<PoolItem>, bp: BannerPool, fs: FeaturedSet,
                            bp': BannerPool, fs': FeaturedSet)
    requires DistinctIds(costumes) && DistinctIds(weapons)
    requires Overrides(costumes, weapons, bp, fs) && Overrides(costumes, weapons, bp', fs')
    ensures bp == bp' && fs == fs'
  {
    HoldsOne(bp.costumesByRarity, bp'.costumesByRarity, costumes);
    HoldsOne(bp.weaponsByRarity, bp'.weaponsByRarity, weapons);
    FlatteningIsUnique(fs.costumes, fs'.costumes, costumes);
    FlatteningIsUnique(fs.weapons, fs'.weapons, weapons);
  }

  // ---------------------------------------------------------------------------
  // Registering extra weapons
  // ---------------------------------------------------------------------------

  type Extra = map<int, seq<int>>

  function ExtrasOf(extra: Extra, gachaId: int): seq<int> {
    if gachaId in extra then extra[gachaId] else []
  }

  function RegisteredOne(extra: Extra, gachaId: int, weaponIds: seq<int>): Extra {
    extra[gachaId := ExtrasOf(extra, gachaId) + weaponIds]
  }

  /** The weapons appended to every banner named, as often as it is named. */
  function Registered(extra: Extra, gachaIds: seq<int>, weaponIds: seq<int>): Extra {
    if gachaIds == [] then extra
    else RegisteredOne(Registered(extra, gachaIds[..|gachaIds| - 1], weaponIds), gachaIds[|gachaIds| - 1], weaponIds)
  }

  lemma {:induction false} RegisteredHolds(extra: Extra, gachaIds: seq<int>, weaponIds: seq<int>, gachaId: int, w: int)
    ensures w in ExtrasOf(Registered(extra, gachaIds, weaponIds), gachaId) <==>
      w in ExtrasOf(extra, gachaId) || (gachaId in gachaIds && w in weaponIds)
  {
    if gachaIds != [] {
      var n := |gachaIds| - 1;
      RegisteredHolds(extra, gachaIds[..n], weaponIds, gachaId, w);
      assert gachaIds == gachaIds[..n] + [gachaIds[n]];
    }
  }

  datatype Call = Call(gachaIds: seq<int>, weaponIds: seq<int>)

  /** What a run of registrations leaves. */
  function AfterCalls(calls: seq<Call>): Extra {
    if calls == [] then map[]
    else
      var last := calls[|calls| - 1];
      Registered(AfterCalls(calls[..|calls| - 1]), last.gachaIds, last.weaponIds)
  }

  ghost predicate Asked(calls: seq<Call>, gachaId: int, w: int) {
    exists i :: 0 <= i < |calls| && gachaId in calls[i].gachaIds && w in calls[i].weaponIds
  }

  lemma AskedOneMore(calls: seq<Call>, gachaId: int, w: int)
    requires calls != []
    ensures
      var n := |calls| - 1;
      Asked(calls, gachaId, w) <==>
        Asked(calls[..n], gachaId, w) || (gachaId in calls[n].gachaIds && w in calls[n].weaponIds)
  {
    var n := |calls| - 1;
    if i :| 0 <= i < n && gachaId in calls[i].gachaIds && w in calls[i].weaponIds {
      assert calls[..n][i] == calls[i];
    }
  }

  lemma {:induction false} AfterCallsHolds(calls: seq<Call>, gachaId: int, w: int)
    ensures w in ExtrasOf(AfterCalls(calls), gachaId) <==> Asked(calls, gachaId, w)
  {
    if calls != [] {
      var n := |calls| - 1;
      AfterCallsHolds(calls[..n], gachaId, w);
      RegisteredHolds(AfterCalls(calls[..n]), calls[n].gachaIds, calls[n].weaponIds, gachaId, w);
      AskedOneMore(calls, gachaId, w);
    }
  }

  lemma SameRequest(src: Source, req: Request, extras: seq<int>, allowed: set<int>)
    ensures Costumes(src, req.(extras := extras)) == Costumes(src, req)
    ensures RegularWeapons(src, req.(extras := extras), allowed) == RegularWeapons(src, req, allowed)
  {
  }

  lemma SameExtras(src: Source, req: Request, a: seq<int>, b: seq<int>, allowed: set<int>)
    requires forall w :: w in a <==> w in b
    ensures Weapons(src, req.(extras := a), allowed) == Weapons(src, req.(extras := b), allowed)
  {
    SameRequest(src, req, a, allowed);
    SameRequest(src, req, b, allowed);
  }

  /** What overriding a banner gives it for one request. */
  ghost predicate OverrideFor(src: Source, req: Request, bp: BannerPool, fs: FeaturedSet) {
    var costumes := Costumes(src, req);
    Overrides(costumes, Weapons(src, req, AllowedTypes(src, costumes)), bp, fs)
  }

  /**
   * Two runs of registrations that ask for the same weapons on a banner, in
   * whatever order and however often, give it the same pool.
   */
  lemma RegistrationIsASet(src: Source, req: Request, calls: seq<Call>, calls': seq<Call>, gachaId: int,
                           bp: BannerPool, fs: FeaturedSet, bp': BannerPool, fs': FeaturedSet)
    requires src.Keyed() && forall w :: Asked(calls, gachaId, w) <==> Asked(calls', gachaId, w)
    requires OverrideFor(src, req.(extras := ExtrasOf(AfterCalls(calls), gachaId)), bp, fs)
    requires OverrideFor(src, req.(extras := ExtrasOf(AfterCalls(calls'), gachaId)), bp', fs')
    ensures bp == bp' && fs == fs'
  {
    var costumes := Costumes(src, req);
    var allowed := AllowedTypes(src, costumes);
    var a, b := ExtrasOf(AfterCalls(calls), gachaId), ExtrasOf(AfterCalls(calls'), gachaId);
    forall w ensures w in a <==> w in b {
      AfterCallsHolds(calls, gachaId, w);
      AfterCallsHolds(calls', gachaId, w);
    }
    SameRequest(src, req, a, allowed);
    SameRequest(src, req, b, allowed);
    SameExtras(src, req, a, b, allowed);
    PoolsHaveDistinctIds(src, req.(extras := a), allowed);
    OverrideIsOrderFree(costumes, Weapons(src, req.(extras := a), allowed), bp, fs, bp', fs');
  }

  // ---------------------------------------------------------------------------
  // Collecting
  // ---------------------------------------------------------------------------

  /** A rarity map that has the items of a set in its buckets, each once, in some order. */
  ghost predicate Collected(m: map<int, seq<PoolItem>>, items: set<PoolItem>) {
    (forall r :: r in m ==> m[r] != []) &&
    forall r :: multiset(Bucket(m, r)) == multiset(OfRarityIn(items, r))
  }

  lemma BucketOne(m: map<int, seq<PoolItem>>, items: set<PoolItem>, x: PoolItem, r: int)
    requires x !in items && multiset(Bucket(m, r)) == multiset(OfRarityIn(items, r))
    ensures multiset(Bucket(Added(m, x), r)) == multiset(OfRarityIn(items + {x}, r))
  {
    if r == x.rarity {
      assert OfRarityIn(items + {x}, r) == OfRarityIn(items, r) + {x};
    } else {
      assert OfRarityIn(items + {x}, r) == OfRarityIn(items, r);
    }
  }

  lemma CollectedOne(m: map<int, seq<PoolItem>>, items: set<PoolItem>, x: PoolItem)
    requires Collected(m, items) && x !in items
    ensures Collected(Added(m, x), items + {x})
  {
    var n, more := Added(m, x), items + {x};
    forall r ensures multiset(Bucket(n, r)) == multiset(OfRarityIn(more, r)) {
      BucketOne(m, items, x, r);
    }
  }

  lemma TakenOneMore(byId: map<int, PoolItem>, ids: set<int>, id: int, takes: PoolItem -> bool)
    requires id in byId && id !in ids && forall k :: k in byId ==> byId[k].possessionId == k
    ensures byId[id] !in Taken(byId, ids, takes)
    ensures Taken(byId, ids + {id}, takes) == Taken(byId, ids, takes) + if takes(byId[id]) then {byId[id]} else {}
  {
  }

  lemma AllowedOneMore(src: Source, costumes: set<PoolItem>, x: PoolItem)
    ensures AllowedTypes(src, costumes + {x}) ==
      AllowedTypes(src, costumes) + {Count(src.skillfulTypes, x.possessionId)}
  {
  }

  method CollectCostumes(src: Source, req: Request) returns (byRarity: map<int, seq<PoolItem>>, allowed: set<int>)
    requires src.Keyed()
    ensures Collected(byRarity, Costumes(src, req)) && allowed == AllowedTypes(src, Costumes(src, req))
  {
    ghost var takes := (x: PoolItem) => TakesCostume(req, x);
    ghost var taken: set<PoolItem> := {};
    byRarity, allowed := map[], {};
    var todo := src.costumeById.Keys;
    while todo != {}
      invariant todo <= src.costumeById.Keys
      invariant taken == Taken(src.costumeById, src.costumeById.Keys - todo, takes)
      invariant Collected(byRarity, taken) && allowed == AllowedTypes(src, taken)
      decreases todo
    {
      var id := Choose(todo);
      var item := src.costumeById[id];
      TakenOneMore(src.costumeById, src.costumeById.Keys - todo, id, takes);
      assert src.costumeById.Keys - (todo - {id}) == src.costumeById.Keys - todo + {id};
      todo := todo - {id};
      if TakesCostume(req, item) {
        CollectedOne(byRarity, taken, item);
        AllowedOneMore(src, taken, item);
        taken := taken + {item};
        byRarity := Added(byRarity, item);
        allowed := allowed + {Count(src.skillfulTypes, item.possessionId)};
      }
    }
    assert src.costumeById.Keys - {} == src.costumeById.Keys;
  }

  method CollectRegular(src: Source, req: Request, allowed: set<int>) returns (byRarity: map<int, seq<PoolItem>>)
    requires src.Keyed()
    ensures Collected(byRarity, RegularWeapons(src, req, allowed))
  {
    ghost var takes := (x: PoolItem) => TakesWeapon(src, req, allowed, x);
    ghost var taken: set<PoolItem> := {};
    byRarity := map[];
    var todo := src.weaponById.Keys;
    while todo != {}
      invariant todo <= src.weaponById.Keys
      invariant taken == Taken(src.weaponById, src.weaponById.Keys - todo, takes) && Collected(byRarity, taken)
      decreases todo
    {
      var id := Choose(todo);
      var item := src.weaponById[id];
      TakenOneMore(src.weaponById, src.weaponById.Keys - todo, id, takes);
      assert src.weaponById.Keys - (todo - {id}) == src.weaponById.Keys - todo + {id};
      todo := todo - {id};
      if TakesWeapon(src, req, allowed, item) {
        CollectedOne(byRarity, taken, item);
        taken := taken + {item};
        byRarity := Added(byRarity, item);
      }
    }
    assert src.weaponById.Keys - {} == src.weaponById.Keys;
  }

  /** The ids already in the buckets. */
  function IdsInBuckets(m: map<int, seq<PoolItem>>): set<int> {
    set r, x | r in m && x in m[r] :: x.possessionId
  }

  lemma BucketsHaveTheIds(m: map<int, seq<PoolItem>>, items: set<PoolItem>)
    requires Collected(m, items)
    ensures IdsInBuckets(m) == IdsIn(items)
  {
    forall x ensures x in items <==> x in Bucket(m, x.rarity) {
      assert x in items <==> x in multiset(OfRarityIn(items, x.rarity));
      assert x in Bucket(m, x.rarity) <==> x in multiset(Bucket(m, x.rarity));
    }
    forall r, x | r in m && x in m[r] ensures x in items {
      assert x in multiset(Bucket(m, r));
      assert x in multiset(OfRarityIn(items, r));
    }
  }

  lemma ExtrasOneMore(src: Source, allowed: set<int>, present: set<int>, extras: seq<int>, i: nat)
    requires i < |extras| && forall id :: id in src.masters ==> src.masters[id].id == id
    ensures
      var id, before := extras[i], Extras(src, allowed, present, extras[..i]);
      Extras(src, allowed, present, extras[..i + 1]) ==
        if id in present + IdsIn(before) || !TakesExtra(src, allowed, id) then before else before + {ExtraItem(src, id)}
  {
    assert extras[..i + 1] == extras[..i] + [extras[i]];
  }

  lemma NewExtra(held: set<PoolItem>, more: set<PoolItem>, x: PoolItem)
    requires x.possessionId !in IdsIn(held) + IdsIn(more)
    ensures x !in held + more && (held + more) + {x} == held + (more + {x})
    ensures IdsIn(more + {x}) == IdsIn(more) + {x.possessionId}
  {
  }

  /** The first n extras have been gone through: these are in the buckets, with the ids there. */
  ghost predicate ExtrasAdded(src: Source, allowed: set<int>, held: set<PoolItem>, extras: seq<int>, n: nat,
                              byRarity: map<int, seq<PoolItem>>, present: set<int>)
    requires n <= |extras|
  {
    var more := Extras(src, allowed, IdsIn(held), extras[..n]);
    Collected(byRarity, held + more) && present == IdsIn(held) + IdsIn(more)
  }

  lemma NoExtras(src: Source, allowed: set<int>, held: set<PoolItem>, extras: seq<int>,
                 regular: map<int, seq<PoolItem>>)
    requires Collected(regular, held)
    ensures ExtrasAdded(src, allowed, held, extras, 0, regular, IdsInBuckets(regular))
  {
    BucketsHaveTheIds(regular, held);
    assert held + Extras(src, allowed, IdsIn(held), extras[..0]) == held;
  }

  lemma AllExtras(src: Source, req: Request, allowed: set<int>, byRarity: map<int, seq<PoolItem>>, present: set<int>)
    requires ExtrasAdded(src, allowed, RegularWeapons(src, req, allowed), req.extras, |req.extras|, byRarity, present)
    ensures Collected(byRarity, Weapons(src, req, allowed))
  {
    assert req.extras[..|req.extras|] == req.extras;
  }

  lemma ExtraStep(src: Source, allowed: set<int>, held: set<PoolItem>, extras: seq<int>, n: nat,
                  byRarity: map<int, seq<PoolItem>>, present: set<int>)
    requires src.Keyed() && n < |extras| && ExtrasAdded(src, allowed, held, extras, n, byRarity, present)
    ensures
      var id := extras[n];
      if id in present || !TakesExtra(src, allowed, id)
      then ExtrasAdded(src, allowed, held, extras, n + 1, byRarity, present)
      else ExtrasAdded(src, allowed, held, extras, n + 1, Added(byRarity, ExtraItem(src, id)), present + {id})
  {
    var id, more := extras[n], Extras(src, allowed, IdsIn(held), extras[..n]);
    ExtrasOneMore(src, allowed, IdsIn(held), extras, n);
    if id !in present && TakesExtra(src, allowed, id) {
      NewExtra(held, more, ExtraItem(src, id));
      CollectedOne(byRarity, held + more, ExtraItem(src, id));
    }
  }

  method CollectExtras(src: Source, req: Request, allowed: set<int>, regular: map<int, seq<PoolItem>>)
    returns (byRarity: map<int, seq<PoolItem>>)
    requires src.Keyed() && Collected(regular, RegularWeapons(src, req, allowed))
    ensures Collected(byRarity, Weapons(src, req, allowed))
  {
    ghost var held := RegularWeapons(src, req, allowed);
    byRarity := regular;
    var alreadyInPool := IdsInBuckets(regular);
    NoExtras(src, allowed, held, req.extras, regular);
    for i := 0 to |req.extras|
      invariant ExtrasAdded(src, allowed, held, req.extras, i, byRarity, alreadyInPool)
    {
      var id := req.extras[i];
      ExtraStep(src, allowed, held, req.extras, i, byRarity, alreadyInPool);
      if id in alreadyInPool || id in src.evolved {
        continue;
      }
      if id !in src.masters {
        continue;
      }
      if src.masters[id].weaponType !in allowed {
        continue;
      }
      byRarity := Added(byRarity, ExtraItem(src, id));
      alreadyInPool := alreadyInPool + {id};
    }
    AllExtras(src, req, allowed, byRarity, alreadyInPool);
  }

  // ---------------------------------------------------------------------------
  // Sorting and flattening
  // ---------------------------------------------------------------------------

  method SortRarityMap(m: map<int, seq<PoolItem>>) returns (n: map<int, seq<PoolItem>>, count: nat)
    ensures n.Keys == m.Keys
    ensures forall r :: r in m ==> multiset(n[r]) == multiset(m[r]) && SortedBy(n[r], IdOrder)
    ensures count == 0 <==> forall r :: r in m ==> m[r] == []
  {
    n, count := map[], 0;
    var todo := m.Keys;
    while todo != {}
      invariant todo <= m.Keys && n.Keys == m.Keys - todo
      invariant forall r :: r in n ==> multiset(n[r]) == multiset(m[r]) && SortedBy(n[r], IdOrder)
      invariant count == 0 <==> forall r :: r in n ==> m[r] == []
      decreases todo
    {
      var r := Choose(todo);
      var bucket := Sort(m[r], IdOrder);
      n := n[r := bucket];
      assert |bucket| == |multiset(bucket)| == |multiset(m[r])| == |m[r]|;
      count := count + |bucket|;
      todo := todo - {r};
    }
  }

  /** Within one rarity, id order is the flattening's order. */
  lemma SortedHolds(m: map<int, seq<PoolItem>>, n: map<int, seq<PoolItem>>, items: set<PoolItem>)
    requires Collected(m, items) && n.Keys == m.Keys
    requires forall r :: r in m ==> multiset(n[r]) == multiset(m[r]) && SortedBy(n[r], IdOrder)
    ensures Holds(n, items)
  {
    forall r | r in n ensures n[r] != [] {
      assert m[r][0] in multiset(n[r]);
    }
    forall r ensures Flattens(Bucket(n, r), OfRarityIn(items, r)) {
      var bucket := Bucket(n, r);
      assert multiset(bucket) == multiset(Bucket(m, r)) == multiset(OfRarityIn(items, r));
      forall i, j | 0 <= i < j < |bucket| ensures Before(bucket[i], bucket[j]) {
        assert bucket[i] in multiset(bucket) && bucket[j] in multiset(bucket);
      }
    }
  }

  lemma EmptyIffNothing(m: map<int, seq<PoolItem>>, items: set<PoolItem>)
    requires Collected(m, items)
    ensures (forall r :: r in m ==> m[r] == []) <==> items == {}
  {
    forall x | x in items ensures x.rarity in m && m[x.rarity] != [] {
      assert x in multiset(OfRarityIn(items, x.rarity));
      assert x in multiset(Bucket(m, x.rarity));
    }
    forall r | r in m ensures items != {} {
      assert m[r][0] in multiset(Bucket(m, r));
      assert m[r][0] in OfRarityIn(items, r);
    }
  }

  method KeysOf(m: map<int, seq<PoolItem>>) returns (keys: seq<int>)
    ensures forall r :: r in keys <==> r in m
    ensures Ascending(keys)
  {
    keys := [];
    var todo := m.Keys;
    while todo != {}
      invariant todo <= m.Keys
      invariant forall r :: r in keys <==> r in m && r !in todo
      invariant forall r :: multiset(keys)[r] <= 1
      decreases todo
    {
      var r := Choose(todo);
      keys := keys + [r];
      todo := todo - {r};
    }
    ghost var unsorted := keys;
    keys := Sort(keys, IntOrder);
    forall r ensures r in keys <==> r in m {
      assert r in keys <==> r in multiset(unsorted);
    }
    SortedIsAscending(keys);
  }

  /** The part of a set whose rarity is one of the keys. */
  function Part(items: set<PoolItem>, keys: seq<int>): set<PoolItem> {
    set x | x in items && x.rarity in keys
  }

  lemma FlattenedOne(out: seq<PoolItem>, bucket: seq<PoolItem>, items: set<PoolItem>, keys: seq<int>, r: int)
    requires Flattens(out, Part(items, keys)) && Flattens(bucket, OfRarityIn(items, r))
    requires forall k :: k in keys ==> k < r
    ensures Flattens(out + bucket, Part(items, keys + [r]))
  {
    assert Part(items, keys + [r]) == Part(items, keys) + OfRarityIn(items, r);
    assert Part(items, keys) !! OfRarityIn(items, r);
    var s := out + bucket;
    forall i, j | 0 <= i < j < |s| ensures Before(s[i], s[j]) {
      if i < |out| <= j {
        assert out[i] in multiset(out) && bucket[j - |out|] in multiset(bucket);
      } else if i >= |out| {
        assert s[i] == bucket[i - |out|] && s[j] == bucket[j - |out|];
      }
    }
  }

  method FlattenRarityMap(m: map<int, seq<PoolItem>>, ghost items: set<PoolItem>) returns (out: seq<PoolItem>)
    requires Holds(m, items)
    ensures Flattens(out, items)
  {
    var keys := KeysOf(m);
    out := [];
    for i := 0 to |keys|
      invariant Flattens(out, Part(items, keys[..i]))
    {
      assert keys[..i + 1] == keys[..i] + [keys[i]];
      assert Bucket(m, keys[i]) == m[keys[i]];
      FlattenedOne(out, m[keys[i]], items, keys[..i], keys[i]);
      out := out + m[keys[i]];
    }
    assert keys[..|keys|] == keys;
    forall x | x in items ensures x.rarity in keys {
      assert x in multiset(Bucket(m, x.rarity));
    }
    assert Part(items, keys) == items;
  }

  // ---------------------------------------------------------------------------
  // The override
  // ---------------------------------------------------------------------------

  method Flatten(costumes: map<int, seq<PoolItem>>, weapons: map<int, seq<PoolItem>>,
                 ghost units: set<PoolItem>, ghost arms: set<PoolItem>)
    returns (bp: BannerPool, fs: FeaturedSet)
    requires Holds(costumes, units) && Holds(weapons, arms)
    ensures Overrides(units, arms, bp, fs)
  {
    var flatCostumes := FlattenRarityMap(costumes, units);
    var flatWeapons := FlattenRarityMap(weapons, arms);
    bp := BannerPool(costumes, weapons, flatCostumes + flatWeapons);
    fs := FeaturedSet(flatCostumes, flatWeapons);
  }

  class Banners {
    const src: Source
    var extraWeapons: Extra
    var bannerPools: map<int, BannerPool>
    var featuredByGacha: map<int, FeaturedSet>
    var overridden: set<int>

    constructor (src: Source, bannerPools: map<int, BannerPool>, featuredByGacha: map<int, FeaturedSet>)
      ensures this.src == src && extraWeapons == AfterCalls([]) && overridden == {}
      ensures this.bannerPools == bannerPools && this.featuredByGacha == featuredByGacha
    {
      this.src, this.bannerPools, this.featuredByGacha := src, bannerPools, featuredByGacha;
      extraWeapons, overridden := map[], {};
    }

    /** Registers the weapons with every banner named, for the overrides still to come. */
    method AddExtraGachaWeapons(gachaIds: seq<int>, weaponIds: seq<int>)
      modifies this`extraWeapons
      ensures extraWeapons == Registered(old(extraWeapons), gachaIds, weaponIds)
    {
      ghost var before := extraWeapons;
      for i := 0 to |gachaIds|
        invariant extraWeapons == Registered(before, gachaIds[..i], weaponIds)
      {
        assert gachaIds[..i + 1][..i] == gachaIds[..i];
        extraWeapons := RegisteredOne(extraWeapons, gachaIds[i], weaponIds);
      }
      assert gachaIds[..|gachaIds|] == gachaIds;
    }

    function RequestFor(gachaId: int, characters: seq<int>, exCostumes: seq<int>, exWeapons: seq<int>): Request
      reads this`extraWeapons
    {
      Request(set c | c in characters, set c | c in exCostumes, (set w | w in exWeapons),
              ExtrasOf(extraWeapons, gachaId))
    }

    /** Replaces one banner's pool, or nothing at all when either side would be empty. */
    method OverrideBannerForCharacters(gachaId: int, characters: seq<int>, exCostumes: seq<int>, exWeapons: seq<int>)
      requires src.Keyed()
      modifies this`bannerPools, this`featuredByGacha, this`overridden
      ensures
        var extras := if gachaId in extraWeapons then extraWeapons[gachaId] else [];
        var req := Request(set c | c in characters, set c | c in exCostumes, (set w | w in exWeapons), extras);
        var costumes := Costumes(src, req);
        var weapons := Weapons(src, req, AllowedTypes(src, costumes));
        if costumes == {} || weapons == {} then
          bannerPools == old(bannerPools) && featuredByGacha == old(featuredByGacha) && overridden == old(overridden)
        else
          gachaId in bannerPools && gachaId in featuredByGacha &&
          Overrides(costumes, weapons, bannerPools[gachaId], featuredByGacha[gachaId]) &&
          bannerPools == old(bannerPools)[gachaId := bannerPools[gachaId]] &&
          featuredByGacha == old(featuredByGacha)[gachaId := featuredByGacha[gachaId]] &&
          overridden == old(overridden) + {gachaId}
    {
      var req := RequestFor(gachaId, characters, exCostumes, exWeapons);
      var byRarity, allowed := CollectCostumes(src, req);
      var regular := CollectRegular(src, req, allowed);
      var armsByRarity := CollectExtras(src, req, allowed, regular);
      ghost var units, arms := Costumes(src, req), Weapons(src, req, allowed);
      var costumes, costumeCount := SortRarityMap(byRarity);
      var weapons, weaponCount := SortRarityMap(armsByRarity);
      EmptyIffNothing(byRarity, units);
      EmptyIffNothing(armsByRarity, arms);
      if costumeCount == 0 || weaponCount == 0 {
        return;
      }
      SortedHolds(byRarity, costumes, units);
      SortedHolds(armsByRarity, weapons, arms);
      var bp, fs := Flatten(costumes, weapons, units, arms);
      bannerPools := bannerPools[gachaId := bp];
      featuredByGacha := featuredByGacha[gachaId := fs];
      overridden := overridden + {gachaId};
    }
  }

  /** The weapon type the override went by. */
  function TypeOf(src: Source, req: Request, allowed: set<int>, w: PoolItem): int {
    if w in RegularWeapons(src, req, allowed) then Count(src.weaponTypes, w.possessionId)
    else if w.possessionId in src.masters then src.masters[w.possessionId].weaponType else 0
  }

  ghost predicate SomeoneWields(src: Source, costumes: seq<PoolItem>, weaponType: int) {
    exists c :: c in costumes && Count(src.skillfulTypes, c.possessionId) == weaponType
  }

  /** Every weapon of the pool has a costume in it that can wield it. */
  lemma EveryWeaponIsWielded(src: Source, req: Request, bp: BannerPool, fs: FeaturedSet, w: PoolItem)
    requires src.Keyed() && w in fs.weapons
    requires OverrideFor(src, req, bp, fs)
    ensures SomeoneWields(src, fs.costumes, TypeOf(src, req, AllowedTypes(src, Costumes(src, req)), w))
  {
    var costumes := Costumes(src, req);
    var allowed := AllowedTypes(src, costumes);
    assert w in multiset(fs.weapons);
    TypesAreAllowed(src, req, allowed, w);
    var c :| c in costumes && Count(src.skillfulTypes, c.possessionId) == TypeOf(src, req, allowed, w);
    assert c in multiset(fs.costumes);
  }

  /** Some bucket of the pool holds the weapon. */
  ghost predicate HoldsWeapon(bp: BannerPool, id: int) {
    exists r, w :: w in Bucket(bp.weaponsByRarity, r) && w.possessionId == id
  }

  lemma HoldsItsWeapons(bp: BannerPool, weapons: set<PoolItem>, id: int)
    requires Holds(bp.weaponsByRarity, weapons)
    ensures HoldsWeapon(bp, id) <==> id in IdsIn(weapons)
  {
    var m := bp.weaponsByRarity;
    if r, w :| w in Bucket(m, r) && w.possessionId == id {
      assert w in multiset(Bucket(m, r)) && w in OfRarityIn(weapons, r);
    }
    if w :| w in weapons && w.possessionId == id {
      assert w in multiset(OfRarityIn(weapons, w.rarity)) && w in multiset(Bucket(m, w.rarity));
    }
  }

  /**
   * The exclusion list holds only for the regular weapons: the pool an override
   * leaves holds an excluded weapon exactly when it is a registered extra, not
   * evolved, that some costume of the pool can wield.
   */
  lemma ExcludedIffNotExtra(src: Source, req: Request, bp: BannerPool, fs: FeaturedSet, id: int)
    requires src.Keyed() && OverrideFor(src, req, bp, fs) && id in req.exWeapons
    ensures HoldsWeapon(bp, id) <==>
      id in req.extras && id !in src.evolved && id in src.masters &&
      SomeoneWields(src, fs.costumes, src.masters[id].weaponType)
  {
    var costumes := Costumes(src, req);
    var allowed := AllowedTypes(src, costumes);
    HoldsItsWeapons(bp, Weapons(src, req, allowed), id);
    ExcludedIds(src, req, allowed, id);
    forall c ensures c in fs.costumes <==> c in costumes {
      assert c in fs.costumes <==> c in multiset(fs.costumes);
    }
    assert forall weaponType :: SomeoneWields(src, fs.costumes, weaponType) <==> weaponType in allowed;
  }

  /** One costume of character 7, and weapon 9 that it can wield. */
  const SMALL_SOURCE := Source(map[1 := PoolItem(POSSESSION_COSTUME, 1, RARITY_SSRARE, 7)],
                               map[9 := PoolItem(POSSESSION_WEAPON, 9, RARITY_SSRARE, 0)],
                               map[1 := 3], map[9 := 3], map[9 := WeaponMaster(9, 3, RARITY_SSRARE)], {}, {})

  /** Weapon 9 is on the exclusion list and registered as an extra; the pool holds it. */
  lemma ExcludedWeaponInPool()
    ensures
      var c, w := PoolItem(POSSESSION_COSTUME, 1, RARITY_SSRARE, 7), PoolItem(POSSESSION_WEAPON, 9, RARITY_SSRARE, 0);
      var bp := BannerPool(map[RARITY_SSRARE := [c]], map[RARITY_SSRARE := [w]], [c, w]);
      OverrideFor(SMALL_SOURCE, Request({7}, {}, {9}, [9]), bp, FeaturedSet([c], [w])) && HoldsWeapon(bp, 9)
  {
    var c, w := PoolItem(POSSESSION_COSTUME, 1, RARITY_SSRARE, 7), PoolItem(POSSESSION_WEAPON, 9, RARITY_SSRARE, 0);
    var req := Request({7}, {}, {9}, [9]);
    assert 1 in SMALL_SOURCE.costumeById && SMALL_SOURCE.costumeById[1] == c && TakesCostume(req, c);
    assert Costumes(SMALL_SOURCE, req) == {c};
    var allowed := AllowedTypes(SMALL_SOURCE, {c});
    assert Count(SMALL_SOURCE.skillfulTypes, c.possessionId) == 3 && allowed == {3};
    assert RegularWeapons(SMALL_SOURCE, req, allowed) == {};
    assert ExtraItem(SMALL_SOURCE, 9) == w && Weapons(SMALL_SOURCE, req, allowed) == {w};
    SingleHeld(c);
    SingleHeld(w);
    assert [c] + [w] == [c, w];
    assert w in Bucket(map[RARITY_SSRARE := [w]], RARITY_SSRARE);
  }

  lemma SingleHeld(x: PoolItem)
    ensures Holds(map[x.rarity := [x]], {x}) && Flattens([x], {x})
  {
    forall r ensures Flattens(Bucket(map[x.rarity := [x]], r), OfRarityIn({x}, r)) {
      assert OfRarityIn({x}, r) == if r == x.rarity then {x} else {};
    }
  }

  lemma TypesAreAllowed(src: Source, req: Request, allowed: set<int>, w: PoolItem)
    requires src.Keyed() && w in Weapons(src, req, allowed)
    ensures TypeOf(src, req, allowed, w) in allowed
  {
  }

  /** Buckets that hold a set of one type hold only their own rarity and type. */
  lemma HoldsIsBucketed(m: map<int, seq<PoolItem>>, items: set<PoolItem>, possessionType: int)
    requires Holds(m, items) && forall x :: x in items ==> x.possessionType == possessionType
    ensures Bucketed(m, possessionType)
  {
    forall r, x | r in m && x in m[r] ensures x.rarity == r && x.possessionType == possessionType {
      assert x in multiset(Bucket(m, r));
    }
  }

  /** An overridden pool is well formed and features each item once. */
  lemma OverrideIsSound(src: Source, req: Request, bp: BannerPool, fs: FeaturedSet)
    requires src.Keyed()
    requires OverrideFor(src, req, bp, fs)
    ensures bp.WellFormed()
    ensures forall i, j :: 0 <= i < j < |fs.costumes| ==> fs.costumes[i].possessionId != fs.costumes[j].possessionId
    ensures forall i, j :: 0 <= i < j < |fs.weapons| ==> fs.weapons[i].possessionId != fs.weapons[j].possessionId
  {
    var costumes := Costumes(src, req);
    var weapons := Weapons(src, req, AllowedTypes(src, costumes));
    PoolsHaveDistinctIds(src, req, AllowedTypes(src, costumes));
    EachOnce(fs.costumes, costumes);
    EachOnce(fs.weapons, weapons);
    HoldsIsBucketed(bp.costumesByRarity, costumes, POSSESSION_COSTUME);
    HoldsIsBucketed(bp.weaponsByRarity, weapons, POSSESSION_WEAPON);
  }

  lemma EachOnce(flat: seq<PoolItem>, items: set<PoolItem>)
    requires DistinctIds(items) && Flattens(flat, items)
    ensures forall i, j :: 0 <= i < j < |flat| ==> flat[i].possessionId != flat[j].possessionId
  {
    forall i, j | 0 <= i < j < |flat| ensures flat[i].possessionId != flat[j].possessionId {
      assert flat == flat[..j] + flat[j..] && flat[i] in flat[..j] && flat[j] in flat[j..];
      assert multiset(flat) == multiset(flat[..j]) + multiset(flat[j..]);
      assert flat[i] in multiset(items) && flat[j] in multiset(items);
      assert flat[i] == flat[j] ==> multiset(flat)[flat[i]] >= 2;
    }
  }
}
