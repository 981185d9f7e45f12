/** The gacha catalog and its banners (internal/masterdata/gacha_pool.go). */
module GachaPool {
  import opened Common
  import opened GachaRates
  import opened GachaDraw
  import opened GachaFeatured

  // Loading items into rarity buckets, pruning in place, and building banner pools that
  // share no storage with the standard pool. Buckets are Go slices, whose append writes
  // into the backing array while there is room.

  // ---------------------------------------------------------------------------
  // Slices
  // ---------------------------------------------------------------------------

  /** A slice: a backing array, of which the first elements are in use. */
  datatype Slice = Slice(data: array<PoolItem>, length: nat)

  ghost predicate SliceOk(s: Slice) {
    s.length <= s.data.Length
  }

  ghost function Items(s: Slice): seq<PoolItem>
    requires SliceOk(s)
    reads s.data
  {
    s.data[..s.length]
  }

  /** Go's append of one element: in place while the backing array has room, else to a new array. */
  method Append(s: Slice, x: PoolItem) returns (t: Slice)
    requires SliceOk(s)
    modifies s.data
    ensures SliceOk(t) && Items(t) == old(Items(s)) + [x] && Items(s) == old(Items(s))
    ensures t.data == s.data || fresh(t.data)
  {
    if s.length < s.data.Length {
      s.data[s.length] := x;
      return Slice(s.data, s.length + 1);
    }
    var grown := new PoolItem[2 * s.length + 1](i requires i >= 0 reads s.data =>
      if i < s.data.Length then s.data[i] else x);
    t := Slice(grown, s.length + 1);
  }

  /** A copy with a backing array of its own. */
  method Clone(s: Slice) returns (t: Slice)
    requires SliceOk(s)
    ensures SliceOk(t) && fresh(t.data) && Items(t) == Items(s)
  {
    var data := new PoolItem[s.length](i requires 0 <= i < s.length reads s.data => s.data[i]);
    t := Slice(data, s.length);
  }

  /** Keep the items that have a paired weapon, in order, by moving them down in the same array. */
  function Paired(items: seq<PoolItem>, pairs: map<int, int>): (kept: seq<PoolItem>)
    ensures |kept| <= |items|
  {
    if items == [] then []
    else
      var last := items[|items| - 1];
      Paired(items[..|items| - 1], pairs) + if last.possessionId in pairs then [last] else []
  }

  lemma {:induction false} PairedHolds(items: seq<PoolItem>, pairs: map<int, int>, x: PoolItem)
    ensures multiset(Paired(items, pairs))[x] == if x.possessionId in pairs then multiset(items)[x] else 0
  {
    if items != [] {
      var n := |items| - 1;
      assert items == items[..n] + [items[n]];
      PairedHolds(items[..n], pairs, x);
    }
  }

  method PruneSlice(s: Slice, pairs: map<int, int>) returns (t: Slice)
    requires SliceOk(s)
    modifies s.data
    ensures SliceOk(t) && t.data == s.data
    ensures Items(t) == Paired(old(Items(s)), pairs)
  {
    ghost var was := Items(s);
    var n := 0;
    for i := 0 to s.length
      invariant n <= i
      invariant s.data[..n] == Paired(was[..i], pairs)
      invariant forall k :: i <= k < s.length ==> s.data[k] == was[k]
    {
      var item := s.data[i];
      assert was[..i + 1][..i] == was[..i];
      if item.possessionId in pairs {
        s.data[n] := item;
        n := n + 1;
      }
    }
    assert was[..s.length] == was;
    t := Slice(s.data, n);
  }

  // ---------------------------------------------------------------------------
  // Rarity maps
  // ---------------------------------------------------------------------------

  ghost function Backing(m: map<int, Slice>): set<array<PoolItem>> {
    set r | r in m :: m[r].data
  }

  /** Slices in range, each with a backing array of its own. */
  ghost predicate Separate(m: map<int, Slice>) {
    (forall r :: r in m ==> SliceOk(m[r])) &&
    forall r, q :: r in m && q in m && r != q ==> m[r].data != m[q].data
  }

  ghost function View(m: map<int, Slice>): map<int, seq<PoolItem>>
    requires Separate(m)
    reads Backing(m)
  {
    map r | r in m :: Items(m[r])
  }

  lemma ViewIs(m: map<int, Slice>, v: map<int, seq<PoolItem>>)
    requires Separate(m) && m.Keys == v.Keys
    requires forall r :: r in m ==> Items(m[r]) == v[r]
    ensures View(m) == v
  {
    var w := View(m);
    assert w.Keys == v.Keys;
    assert forall r :: r in w ==> w[r] == v[r];
    assert w == v;
  }

  function Bucket(m: map<int, seq<PoolItem>>, rarity: int): seq<PoolItem> {
    if rarity in m then m[rarity] else []
  }

  function Added(m: map<int, seq<PoolItem>>, x: PoolItem): map<int, seq<PoolItem>> {
    m[x.rarity := Bucket(m, x.rarity) + [x]]
  }

  function AddedAll(m: map<int, seq<PoolItem>>, items: seq<PoolItem>): map<int, seq<PoolItem>> {
    if items == [] then m else Added(AddedAll(m, items[..|items| - 1]), items[|items| - 1])
  }

  lemma AddedOne(m: map<int, seq<PoolItem>>, items: seq<PoolItem>, x: PoolItem)
    ensures AddedAll(m, items + [x]) == Added(AddedAll(m, items), x)
  {
    assert (items + [x])[..|items|] == items;
  }

  lemma {:induction false} AddedBoth(m: map<int, seq<PoolItem>>, a: seq<PoolItem>, b: seq<PoolItem>)
    ensures AddedAll(m, a + b) == AddedAll(AddedAll(m, a), b)
  {
    if b == [] {
      assert a + b == a;
    } else {
      var n := |b| - 1;
      AddedBoth(m, a, b[..n]);
      assert a + b == (a + b[..n]) + [b[n]];
      AddedOne(m, a + b[..n], b[n]);
    }
  }

  function OfRarity(items: seq<PoolItem>, rarity: int): seq<PoolItem> {
    if items == [] then []
    else
      var last := items[|items| - 1];
      OfRarity(items[..|items| - 1], rarity) + if last.rarity == rarity then [last] else []
  }

  /** Bucketing sorts items by rarity and nothing else: each bucket has its own, in order. */
  lemma {:induction false} BucketedByRarity(m: map<int, seq<PoolItem>>, items: seq<PoolItem>, rarity: int)
    ensures Bucket(AddedAll(m, items), rarity) == Bucket(m, rarity) + OfRarity(items, rarity)
  {
    if items == [] {
      assert Bucket(m, rarity) + [] == Bucket(m, rarity);
    } else {
      BucketedByRarity(m, items[..|items| - 1], rarity);
    }
  }

  method AddTo(m: map<int, Slice>, x: PoolItem) returns (n: map<int, Slice>)
    requires Separate(m)
    modifies Backing(m)
    ensures Separate(n) && View(n) == Added(old(View(m)), x)
    ensures forall a :: a in Backing(n) ==> a in Backing(m) || fresh(a)
  {
    ghost var want := Added(View(m), x);
    var s: Slice;
    if x.rarity in m {
      s := Append(m[x.rarity], x);
    } else {
      var data := new PoolItem[1](_ => x);
      s := Slice(data, 1);
    }
    n := m[x.rarity := s];
    ViewIs(n, want);
  }

  method CloneRarityMap(src: map<int, Slice>) returns (dst: map<int, Slice>)
    requires Separate(src)
    ensures Separate(dst) && View(dst) == old(View(src)) && fresh(Backing(dst))
  {
    dst := map[];
    var todo := src.Keys;
    while todo != {}
      invariant todo <= src.Keys && dst.Keys == src.Keys - todo
      invariant Separate(dst) && forall r :: r in dst ==> fresh(dst[r].data)
      invariant forall r :: r in dst ==> Items(dst[r]) == Items(src[r])
      decreases todo
    {
      var r := Choose(todo);
      var s := Clone(src[r]);
      dst := dst[r := s];
      todo := todo - {r};
    }
    ViewIs(dst, old(View(src)));
  }

  // ---------------------------------------------------------------------------
  // Loading
  // ---------------------------------------------------------------------------

  datatype CostumeRow = CostumeRow(id: int, rarity: int, characterId: int)

  datatype WeaponRow = WeaponRow(id: int, rarity: int, restricted: bool)

  /** The item sets the other tables contribute. */
  datatype Tables = Tables(
    catalogCostumes: set<int>, catalogWeapons: set<int>,
    grantedCostumes: set<int>, grantedWeapons: set<int>, evolvedWeapons: set<int>)

  predicate CostumeDraws(t: Tables, row: CostumeRow) {
    row.id in t.catalogCostumes && row.rarity >= RARITY_SRARE && row.id !in t.grantedCostumes
  }

  predicate WeaponDraws(t: Tables, row: WeaponRow) {
    row.id in t.catalogWeapons && row.id !in t.evolvedWeapons && row.id !in t.grantedWeapons
  }

  function CostumeItem(row: CostumeRow): PoolItem {
    PoolItem(POSSESSION_COSTUME, row.id, row.rarity, row.characterId)
  }

  function WeaponItem(row: WeaponRow): PoolItem {
    PoolItem(POSSESSION_WEAPON, row.id, row.rarity, 0)
  }

  function CostumeItems(t: Tables, rows: seq<CostumeRow>): seq<PoolItem> {
    if rows == [] then []
    else
      var last, before := rows[|rows| - 1], CostumeItems(t, rows[..|rows| - 1]);
      if CostumeDraws(t, last) then before + [CostumeItem(last)] else before
  }

  /** The weapons that can be drawn; those that cannot be discarded only when asked for. */
  function WeaponItems(t: Tables, rows: seq<WeaponRow>, restricted: bool): seq<PoolItem> {
    if rows == [] then []
    else
      var last, before := rows[|rows| - 1], WeaponItems(t, rows[..|rows| - 1], restricted);
      if WeaponDraws(t, last) && (restricted || !last.restricted) then before + [WeaponItem(last)] else before
  }

  function ById(items: seq<PoolItem>): map<int, PoolItem> {
    if items == [] then map[]
    else
      var last := items[|items| - 1];
      ById(items[..|items| - 1])[last.possessionId := last]
  }

  lemma ByIdOne(items: seq<PoolItem>, x: PoolItem)
    ensures ById(items + [x]) == ById(items)[x.possessionId := x]
  {
    assert (items + [x])[..|items|] == items;
  }

  method LoadCostumes(t: Tables, rows: seq<CostumeRow>) returns (byRarity: map<int, Slice>, byId: map<int, PoolItem>)
    ensures Separate(byRarity) && View(byRarity) == AddedAll(map[], CostumeItems(t, rows))
    ensures byId == ById(CostumeItems(t, rows))
    ensures fresh(Backing(byRarity))
  {
    byRarity, byId := map[], map[];
    ViewIs(byRarity, map[]);
    ghost var items: seq<PoolItem> := [];
    for i := 0 to |rows|
      invariant items == CostumeItems(t, rows[..i])
      invariant Separate(byRarity) && View(byRarity) == AddedAll(map[], items)
      invariant byId == ById(items)
      invariant fresh(Backing(byRarity))
    {
      assert rows[..i + 1][..i] == rows[..i];
      if CostumeDraws(t, rows[i]) {
        var item := CostumeItem(rows[i]);
        AddedOne(map[], items, item);
        ByIdOne(items, item);
        byRarity := AddTo(byRarity, item);
        byId := byId[item.possessionId := item];
        items := items + [item];
      }
    }
    assert rows[..|rows|] == rows;
  }

  method LoadWeapons(t: Tables, rows: seq<WeaponRow>) returns (byRarity: map<int, Slice>, byId: map<int, PoolItem>)
    ensures Separate(byRarity) && View(byRarity) == AddedAll(map[], WeaponItems(t, rows, false))
    ensures byId == ById(WeaponItems(t, rows, true))
    ensures fresh(Backing(byRarity))
  {
    byRarity, byId := map[], map[];
    ViewIs(byRarity, map[]);
    ghost var items: seq<PoolItem> := [];
    ghost var all: seq<PoolItem> := [];
    for i := 0 to |rows|
      invariant items == WeaponItems(t, rows[..i], false) && all == WeaponItems(t, rows[..i], true)
      invariant Separate(byRarity) && View(byRarity) == AddedAll(map[], items)
      invariant byId == ById(all)
      invariant fresh(Backing(byRarity))
    {
      assert rows[..i + 1][..i] == rows[..i];
      if WeaponDraws(t, rows[i]) {
        var item := WeaponItem(rows[i]);
        ByIdOne(all, item);
        byId := byId[item.possessionId := item];
        all := all + [item];
        if !rows[i].restricted {
          AddedOne(map[], items, item);
          byRarity := AddTo(byRarity, item);
          items := items + [item];
        }
      }
    }
    assert rows[..|rows|] == rows;
  }

  /** The items of the listed ids that are in the catalog and not excluded. */
  function Resolved(ids: seq<int>, byId: map<int, PoolItem>, excluded: set<int>): seq<PoolItem> {
    if ids == [] then []
    else
      var last := ids[|ids| - 1];
      Resolved(ids[..|ids| - 1], byId, excluded) + if last in byId && last !in excluded then [byId[last]] else []
  }

  /** The weapons that cannot be discarded. */
  function Restricted(rows: seq<WeaponRow>): set<int> {
    set row | row in rows && row.restricted :: row.id
  }

  /** The standard pool: the items of the launch term, bucketed. */
  method LoadStandard(ids: seq<int>, byId: map<int, PoolItem>, excluded: set<int>) returns (byRarity: map<int, Slice>)
    ensures Separate(byRarity) && View(byRarity) == AddedAll(map[], Resolved(ids, byId, excluded))
    ensures fresh(Backing(byRarity))
  {
    var items: seq<PoolItem> := [];
    for i := 0 to |ids|
      invariant items == Resolved(ids[..i], byId, excluded)
    {
      assert ids[..i + 1][..i] == ids[..i];
      if ids[i] in byId && ids[i] !in excluded {
        items := items + [byId[ids[i]]];
      }
    }
    assert ids[..|ids|] == ids;
    byRarity := BucketAll(items);
  }

  method BucketAll(items: seq<PoolItem>) returns (byRarity: map<int, Slice>)
    ensures Separate(byRarity) && View(byRarity) == AddedAll(map[], items)
    ensures fresh(Backing(byRarity))
  {
    byRarity := map[];
    ViewIs(byRarity, map[]);
    for i := 0 to |items|
      invariant Separate(byRarity) && View(byRarity) == AddedAll(map[], items[..i])
      invariant fresh(Backing(byRarity))
    {
      assert items[..i + 1][..i] == items[..i];
      byRarity := AddTo(byRarity, items[i]);
    }
    assert items[..|items|] == items;
  }

  /** The loaded slices, no array shared among them. */
  datatype Loaded = Loaded(costumes: map<int, Slice>, weapons: map<int, Slice>, standardCostumes: map<int, Slice>,
                           standardWeapons: map<int, Slice>)

  ghost predicate LoadedOk(l: Loaded) {
    Separate(l.costumes) && Separate(l.weapons) && Separate(l.standardCostumes) && Separate(l.standardWeapons) &&
    Backing(l.costumes) !! Backing(l.weapons) !! Backing(l.standardCostumes) !! Backing(l.standardWeapons)
  }

  method LoadPools(t: Tables, costumes: seq<CostumeRow>, weapons: seq<WeaponRow>, launchCostumes: seq<int>,
                   launchWeapons: seq<int>)
    returns (l: Loaded, costumeById: map<int, PoolItem>, weaponById: map<int, PoolItem>)
    ensures LoadedOk(l)
    ensures View(l.costumes) == AddedAll(map[], CostumeItems(t, costumes))
    ensures View(l.weapons) == AddedAll(map[], WeaponItems(t, weapons, false))
    ensures costumeById == ById(CostumeItems(t, costumes)) && weaponById == ById(WeaponItems(t, weapons, true))
    ensures View(l.standardCostumes) == AddedAll(map[], Resolved(launchCostumes, costumeById, {}))
    ensures View(l.standardWeapons) == AddedAll(map[], Resolved(launchWeapons, weaponById, Restricted(weapons)))
  {
    var byRarity, armsByRarity, standard, standardArms;
    byRarity, costumeById, armsByRarity, weaponById := LoadItems(t, costumes, weapons);
    ghost var items, arms := View(byRarity), View(armsByRarity);
    standard, standardArms :=
      LoadStandards(launchCostumes, costumeById, launchWeapons, weaponById, Restricted(weapons));
    ViewIs(byRarity, items);
    ViewIs(armsByRarity, arms);
    l := Loaded(byRarity, armsByRarity, standard, standardArms);
  }

  method LoadItems(t: Tables, costumes: seq<CostumeRow>, weapons: seq<WeaponRow>)
    returns (byRarity: map<int, Slice>, byId: map<int, PoolItem>, armsByRarity: map<int, Slice>,
             armsById: map<int, PoolItem>)
    ensures Separate(byRarity) && View(byRarity) == AddedAll(map[], CostumeItems(t, costumes))
    ensures Separate(armsByRarity) && View(armsByRarity) == AddedAll(map[], WeaponItems(t, weapons, false))
    ensures byId == ById(CostumeItems(t, costumes)) && armsById == ById(WeaponItems(t, weapons, true))
    ensures fresh(Backing(byRarity)) && fresh(Backing(armsByRarity)) && Backing(byRarity) !! Backing(armsByRarity)
  {
    byRarity, byId := LoadCostumes(t, costumes);
    ghost var items := View(byRarity);
    armsByRarity, armsById := LoadWeapons(t, weapons);
    ViewIs(byRarity, items);
  }

  method LoadStandards(launchCostumes: seq<int>, costumes: map<int, PoolItem>, launchWeapons: seq<int>,
                       weapons: map<int, PoolItem>, restricted: set<int>)
    returns (standard: map<int, Slice>, standardArms: map<int, Slice>)
    ensures Separate(standard) && View(standard) == AddedAll(map[], Resolved(launchCostumes, costumes, {}))
    ensures Separate(standardArms) &&
      View(standardArms) == AddedAll(map[], Resolved(launchWeapons, weapons, restricted))
    ensures fresh(Backing(standard)) && fresh(Backing(standardArms)) && Backing(standard) !! Backing(standardArms)
  {
    standard := LoadStandard(launchCostumes, costumes, {});
    ghost var items := View(standard);
    standardArms := LoadStandard(launchWeapons, weapons, restricted);
    ViewIs(standard, items);
  }

  // ---------------------------------------------------------------------------
  // Banner pools
  // ---------------------------------------------------------------------------

  datatype Banner = Banner(costumes: map<int, Slice>, weapons: map<int, Slice>, featured: seq<PoolItem>)

  ghost predicate BannerOk(b: Banner) {
    Separate(b.costumes) && Separate(b.weapons) && Backing(b.costumes) !! Backing(b.weapons)
  }

  ghost function Arrays(b: Banner): set<array<PoolItem>> {
    Backing(b.costumes) + Backing(b.weapons)
  }

  ghost function BannerView(b: Banner): BannerPool
    requires BannerOk(b)
    reads Backing(b.costumes), Backing(b.weapons)
  {
    BannerPool(View(b.costumes), View(b.weapons), b.featured)
  }

  function PairedWeapon(c: PoolItem, pairs: map<int, int>, weapons: map<int, PoolItem>): seq<PoolItem> {
    if c.possessionId in pairs && pairs[c.possessionId] in weapons then [weapons[pairs[c.possessionId]]] else []
  }

  function PairedWeapons(costumes: seq<PoolItem>, pairs: map<int, int>, weapons: map<int, PoolItem>): seq<PoolItem> {
    if costumes == [] then []
    else
      PairedWeapons(costumes[..|costumes| - 1], pairs, weapons) +
      PairedWeapon(costumes[|costumes| - 1], pairs, weapons)
  }

  /** Each featured costume, followed by the weapon it is paired with. */
  function WithPairs(costumes: seq<PoolItem>, pairs: map<int, int>, weapons: map<int, PoolItem>): seq<PoolItem> {
    if costumes == [] then []
    else
      WithPairs(costumes[..|costumes| - 1], pairs, weapons) + [costumes[|costumes| - 1]] +
      PairedWeapon(costumes[|costumes| - 1], pairs, weapons)
  }

  /** The pool of a banner: the standard pool with its featured items appended. */
  function BannerFor(costumes: map<int, seq<PoolItem>>, weapons: map<int, seq<PoolItem>>, fs: FeaturedSet,
                     pairs: map<int, int>, byId: map<int, PoolItem>): BannerPool {
    BannerPool(AddedAll(costumes, fs.costumes),
               AddedAll(weapons, PairedWeapons(fs.costumes, pairs, byId) + fs.weapons),
               WithPairs(fs.costumes, pairs, byId) + fs.weapons)
  }

  /** Every array of the new slices is one of the old, or fresh. */
  twostate predicate NoNewSharing(m: map<int, Slice>, new n: map<int, Slice>) {
    forall r :: r in n ==> n[r].data in Backing(m) || fresh(n[r].data)
  }

  /** A featured costume goes into its bucket, and the weapon paired with it into that weapon's. */
  method FeatureCostume(b: Banner, c: PoolItem, pairs: map<int, int>, byId: map<int, PoolItem>) returns (n: Banner)
    requires BannerOk(b)
    modifies Backing(b.costumes), Backing(b.weapons)
    ensures BannerOk(n) && NoNewSharing(b.costumes, n.costumes) && NoNewSharing(b.weapons, n.weapons)
    ensures View(n.costumes) == Added(old(View(b.costumes)), c)
    ensures View(n.weapons) == AddedAll(old(View(b.weapons)), PairedWeapon(c, pairs, byId))
    ensures n.featured == b.featured + [c] + PairedWeapon(c, pairs, byId)
  {
    var costumes := AddTo(b.costumes, c);
    n := Banner(costumes, b.weapons, b.featured + [c]);
    if c.possessionId in pairs && pairs[c.possessionId] in byId {
      var w := byId[pairs[c.possessionId]];
      AddedOne(View(b.weapons), [], w);
      assert Backing(costumes) !! Backing(b.weapons);
      var weapons := AddTo(b.weapons, w);
      assert [] + [w] == [w];
      n := Banner(costumes, weapons, b.featured + [c] + [w]);
    }
  }

  method FeatureWeapon(b: Banner, w: PoolItem) returns (n: Banner)
    requires BannerOk(b)
    modifies Backing(b.weapons)
    ensures BannerOk(n) && n.costumes == b.costumes && NoNewSharing(b.weapons, n.weapons)
    ensures View(n.costumes) == old(View(b.costumes))
    ensures View(n.weapons) == Added(old(View(b.weapons)), w)
    ensures n.featured == b.featured + [w]
  {
    var weapons := AddTo(b.weapons, w);
    n := Banner(b.costumes, weapons, b.featured + [w]);
  }

  lemma OneMoreFeatured(costumes: map<int, seq<PoolItem>>, weapons: map<int, seq<PoolItem>>, items: seq<PoolItem>,
                        pairs: map<int, int>, byId: map<int, PoolItem>, i: nat)
    requires i < |items|
    ensures AddedAll(costumes, items[..i + 1]) == Added(AddedAll(costumes, items[..i]), items[i])
    ensures AddedAll(weapons, PairedWeapons(items[..i + 1], pairs, byId)) ==
      AddedAll(AddedAll(weapons, PairedWeapons(items[..i], pairs, byId)), PairedWeapon(items[i], pairs, byId))
    ensures WithPairs(items[..i + 1], pairs, byId) ==
      WithPairs(items[..i], pairs, byId) + [items[i]] + PairedWeapon(items[i], pairs, byId)
  {
    assert items[..i + 1][..i] == items[..i];
    AddedBoth(weapons, PairedWeapons(items[..i], pairs, byId), PairedWeapon(items[i], pairs, byId));
  }

  method FeatureCostumes(b: Banner, items: seq<PoolItem>, pairs: map<int, int>, byId: map<int, PoolItem>)
    returns (n: Banner)
    requires BannerOk(b) && b.featured == []
    modifies Backing(b.costumes), Backing(b.weapons)
    ensures BannerOk(n) && NoNewSharing(b.costumes, n.costumes) && NoNewSharing(b.weapons, n.weapons)
    ensures View(n.costumes) == AddedAll(old(View(b.costumes)), items)
    ensures View(n.weapons) == AddedAll(old(View(b.weapons)), PairedWeapons(items, pairs, byId))
    ensures n.featured == WithPairs(items, pairs, byId)
  {
    ghost var costumes, weapons := View(b.costumes), View(b.weapons);
    n := b;
    for i := 0 to |items|
      invariant BannerOk(n) && NoNewSharing(b.costumes, n.costumes) && NoNewSharing(b.weapons, n.weapons)
      invariant View(n.costumes) == AddedAll(costumes, items[..i])
      invariant View(n.weapons) == AddedAll(weapons, PairedWeapons(items[..i], pairs, byId))
      invariant n.featured == WithPairs(items[..i], pairs, byId)
    {
      OneMoreFeatured(costumes, weapons, items, pairs, byId, i);
      n := FeatureCostume(n, items[i], pairs, byId);
    }
    assert items[..|items|] == items;
  }

  method FeatureWeapons(b: Banner, items: seq<PoolItem>) returns (n: Banner)
    requires BannerOk(b)
    modifies Backing(b.weapons)
    ensures BannerOk(n) && n.costumes == b.costumes && NoNewSharing(b.weapons, n.weapons)
    ensures View(n.costumes) == old(View(b.costumes))
    ensures View(n.weapons) == AddedAll(old(View(b.weapons)), items)
    ensures n.featured == b.featured + items
  {
    ghost var weapons := View(b.weapons);
    n := b;
    for i := 0 to |items|
      invariant BannerOk(n) && n.costumes == b.costumes && NoNewSharing(b.weapons, n.weapons)
      invariant View(n.costumes) == old(View(b.costumes))
      invariant View(n.weapons) == AddedAll(weapons, items[..i])
      invariant n.featured == b.featured + items[..i]
    {
      assert items[..i + 1][..i] == items[..i];
      n := FeatureWeapon(n, items[i]);
    }
    assert items[..|items|] == items;
  }

  /** The standard pool alone, as a banner with arrays of its own. */
  method CloneStandard(costumes: map<int, Slice>, weapons: map<int, Slice>) returns (b: Banner)
    requires Separate(costumes) && Separate(weapons)
    ensures BannerOk(b) && fresh(Backing(b.costumes)) && fresh(Backing(b.weapons)) && b.featured == []
    ensures View(b.costumes) == old(View(costumes)) && View(b.weapons) == old(View(weapons))
  {
    ghost var was, armed := View(costumes), View(weapons);
    var bannerCostumes := CloneRarityMap(costumes);
    assert View(bannerCostumes) == was;
    ViewIs(weapons, armed);
    var bannerWeapons := CloneRarityMap(weapons);
    ViewIs(bannerCostumes, was);
    b := Banner(bannerCostumes, bannerWeapons, []);
  }

  /** Nothing that exists is written: the standard pool keeps its items, and the banner has its own arrays. */
  method BuildBanner(costumes: map<int, Slice>, weapons: map<int, Slice>, fs: FeaturedSet, pairs: map<int, int>,
                     byId: map<int, PoolItem>) returns (b: Banner)
    requires Separate(costumes) && Separate(weapons)
    ensures BannerOk(b) && fresh(Backing(b.costumes)) && fresh(Backing(b.weapons))
    ensures BannerView(b) == BannerFor(old(View(costumes)), old(View(weapons)), fs, pairs, byId)
  {
    ghost var was, armed := View(costumes), View(weapons);
    b := CloneStandard(costumes, weapons);
    assert View(b.costumes) == was && View(b.weapons) == armed;
    b := FeatureCostumes(b, fs.costumes, pairs, byId);
    b := FeatureWeapons(b, fs.weapons);
    AddedBoth(armed, PairedWeapons(fs.costumes, pairs, byId), fs.weapons);
  }

  // ---------------------------------------------------------------------------
  // Every bucket holds only items of its type and rarity
  // ---------------------------------------------------------------------------

  ghost predicate OfKind(items: seq<PoolItem>, possessionType: int) {
    forall i :: 0 <= i < |items| ==> items[i].possessionType == possessionType
  }

  ghost predicate Bucketed(m: map<int, seq<PoolItem>>, possessionType: int) {
    forall r, x :: r in m && x in m[r] ==> x.rarity == r && x.possessionType == possessionType
  }

  lemma {:induction false} AddingKeepsBuckets(m: map<int, seq<PoolItem>>, items: seq<PoolItem>, possessionType: int)
    requires Bucketed(m, possessionType) && OfKind(items, possessionType)
    ensures Bucketed(AddedAll(m, items), possessionType)
    ensures forall x :: x in items ==> x in Bucket(AddedAll(m, items), x.rarity)
  {
    if items != [] {
      var n := |items| - 1;
      AddingKeepsBuckets(m, items[..n], possessionType);
      assert items == items[..n] + [items[n]];
    }
  }

  lemma {:induction false} PruningKeepsBuckets(items: seq<PoolItem>, pairs: map<int, int>, rarity: int)
    requires forall x :: x in items ==> x.rarity == rarity
    ensures forall x :: x in Paired(items, pairs) ==> x in items && x.rarity == rarity && x.possessionId in pairs
  {
    forall x | x in Paired(items, pairs) ensures x in items && x.possessionId in pairs {
      PairedHolds(items, pairs, x);
      assert x in multiset(Paired(items, pairs)) && x in multiset(items);
    }
  }

  /** The items the featured list adds, beside the costumes themselves. */
  lemma {:induction false} FeaturedAreAdded(costumes: seq<PoolItem>, pairs: map<int, int>, byId: map<int, PoolItem>)
    requires forall id :: id in byId ==> byId[id].possessionType == POSSESSION_WEAPON
    ensures OfKind(PairedWeapons(costumes, pairs, byId), POSSESSION_WEAPON)
    ensures forall x :: x in WithPairs(costumes, pairs, byId) ==>
      x in costumes || x in PairedWeapons(costumes, pairs, byId)
  {
    if costumes != [] {
      var n := |costumes| - 1;
      FeaturedAreAdded(costumes[..n], pairs, byId);
      assert costumes == costumes[..n] + [costumes[n]];
    }
  }

  /** Everything the pool features lies in its bucket. */
  ghost predicate FeaturesItsOwn(bp: BannerPool) {
    forall x :: x in bp.featured ==> x in bp.Bucket(x.possessionType, x.rarity)
  }

  /** A banner pool is well formed, and everything it features lies in its bucket. */
  lemma BannersAreWellFormed(costumes: map<int, seq<PoolItem>>, weapons: map<int, seq<PoolItem>>, fs: FeaturedSet,
                             pairs: map<int, int>, byId: map<int, PoolItem>)
    requires Bucketed(costumes, POSSESSION_COSTUME) && Bucketed(weapons, POSSESSION_WEAPON)
    requires OfKind(fs.costumes, POSSESSION_COSTUME) && OfKind(fs.weapons, POSSESSION_WEAPON)
    requires forall id :: id in byId ==> byId[id].possessionType == POSSESSION_WEAPON
    ensures var bp := BannerFor(costumes, weapons, fs, pairs, byId);
      bp.WellFormed() && FeaturesItsOwn(bp)
  {
    var paired := PairedWeapons(fs.costumes, pairs, byId);
    FeaturedAreAdded(fs.costumes, pairs, byId);
    AddingKeepsBuckets(costumes, fs.costumes, POSSESSION_COSTUME);
    AddingKeepsBuckets(weapons, paired + fs.weapons, POSSESSION_WEAPON);
    var bp := BannerFor(costumes, weapons, fs, pairs, byId);
    forall x | x in bp.featured ensures x in bp.Bucket(x.possessionType, x.rarity) {
      if x in fs.costumes {
        assert exists i :: 0 <= i < |fs.costumes| && fs.costumes[i] == x;
      } else {
        assert x in paired + fs.weapons;
        assert OfKind(paired + fs.weapons, POSSESSION_WEAPON);
      }
    }
  }

  lemma {:induction false} LoadedKinds(t: Tables, costumes: seq<CostumeRow>, weapons: seq<WeaponRow>, restricted: bool)
    ensures OfKind(CostumeItems(t, costumes), POSSESSION_COSTUME)
    ensures OfKind(WeaponItems(t, weapons, restricted), POSSESSION_WEAPON)
    decreases |costumes| + |weapons|
  {
    if costumes != [] {
      LoadedKinds(t, costumes[..|costumes| - 1], [], restricted);
    }
    if weapons != [] {
      LoadedKinds(t, [], weapons[..|weapons| - 1], restricted);
    }
  }

  /** The catalog by id: keyed by the items' own ids, and holding nothing but the items. */
  lemma {:induction false} ByIdHolds(items: seq<PoolItem>, id: int)
    ensures id in ById(items) <==> exists i :: 0 <= i < |items| && items[i].possessionId == id
    ensures id in ById(items) ==> ById(items)[id] in items && ById(items)[id].possessionId == id
  {
    if items != [] {
      var n := |items| - 1;
      ByIdHolds(items[..n], id);
      assert items == items[..n] + [items[n]];
      if id in ById(items) && items[n].possessionId != id {
        var i :| 0 <= i < |items[..n]| && items[..n][i].possessionId == id;
        assert items[i].possessionId == id;
      }
    }
  }

  lemma {:induction false} ResolvedKind(ids: seq<int>, byId: map<int, PoolItem>, excluded: set<int>,
                                        possessionType: int)
    requires forall id :: id in byId ==> byId[id].possessionType == possessionType
    ensures OfKind(Resolved(ids, byId, excluded), possessionType)
  {
    if ids != [] {
      ResolvedKind(ids[..|ids| - 1], byId, excluded, possessionType);
    }
  }

  /** A featured set chosen from the catalog, as terms and exchange shops are. */
  ghost predicate FromCatalog(fs: FeaturedSet, costumes: map<int, PoolItem>, weapons: map<int, PoolItem>) {
    AllCatalogued(fs.costumes, costumes) && AllCatalogued(fs.weapons, weapons)
  }

  ghost predicate AllCatalogued(items: seq<PoolItem>, byId: map<int, PoolItem>) {
    forall i :: 0 <= i < |items| ==> items[i].possessionId in byId && byId[items[i].possessionId] == items[i]
  }

  /** From any tables whatever: load, then build; every banner pool is well formed. */
  lemma LoadedBannersAreWellFormed(t: Tables, costumeRows: seq<CostumeRow>, weaponRows: seq<WeaponRow>,
                                   launchCostumes: seq<int>, launchWeapons: seq<int>, restricted: set<int>,
                                   fs: FeaturedSet, pairs: map<int, int>)
    requires FromCatalog(fs, ById(CostumeItems(t, costumeRows)), ById(WeaponItems(t, weaponRows, true)))
    ensures
      var costumes, weapons := ById(CostumeItems(t, costumeRows)), ById(WeaponItems(t, weaponRows, true));
      var bp := BannerFor(AddedAll(map[], Resolved(launchCostumes, costumes, {})),
                          AddedAll(map[], Resolved(launchWeapons, weapons, restricted)), fs, pairs, weapons);
      bp.WellFormed() && FeaturesItsOwn(bp)
  {
    var items, arms := CostumeItems(t, costumeRows), WeaponItems(t, weaponRows, true);
    var costumes, weapons := ById(items), ById(arms);
    LoadedKinds(t, costumeRows, weaponRows, true);
    forall id | id in costumes ensures costumes[id].possessionType == POSSESSION_COSTUME {
      ByIdHolds(items, id);
    }
    forall id | id in weapons ensures weapons[id].possessionType == POSSESSION_WEAPON {
      ByIdHolds(arms, id);
    }
    ResolvedKind(launchCostumes, costumes, {}, POSSESSION_COSTUME);
    ResolvedKind(launchWeapons, weapons, restricted, POSSESSION_WEAPON);
    AddingKeepsBuckets(map[], Resolved(launchCostumes, costumes, {}), POSSESSION_COSTUME);
    AddingKeepsBuckets(map[], Resolved(launchWeapons, weapons, restricted), POSSESSION_WEAPON);
    BannersAreWellFormed(AddedAll(map[], Resolved(launchCostumes, costumes, {})),
                         AddedAll(map[], Resolved(launchWeapons, weapons, restricted)), fs, pairs, weapons);
  }

  // ---------------------------------------------------------------------------
  // The catalog object
  // ---------------------------------------------------------------------------

  ghost function AllArrays(pools: map<int, Banner>): set<array<PoolItem>> {
    set id, a | id in pools && a in Arrays(pools[id]) :: a
  }

  /** Banners whose arrays are all different. */
  ghost predicate PoolsOk(pools: map<int, Banner>) {
    (forall id :: id in pools ==> BannerOk(pools[id])) &&
    forall p, q :: p in pools && q in pools && p != q ==> Arrays(pools[p]) !! Arrays(pools[q])
  }

  /** Two buckets of any banners share their array only if they are the same bucket. */
  lemma NothingShared(pools: map<int, Banner>, p: int, q: int, r: int, s: int)
    requires PoolsOk(pools) && p in pools && q in pools
    ensures r in pools[p].costumes && s in pools[q].costumes && (p != q || r != s) ==>
      pools[p].costumes[r].data != pools[q].costumes[s].data
    ensures r in pools[p].weapons && s in pools[q].weapons && (p != q || r != s) ==>
      pools[p].weapons[r].data != pools[q].weapons[s].data
    ensures r in pools[p].costumes && s in pools[q].weapons ==>
      pools[p].costumes[r].data != pools[q].weapons[s].data
  {
    assert r in pools[p].costumes ==> pools[p].costumes[r].data in Backing(pools[p].costumes);
    assert r in pools[p].weapons ==> pools[p].weapons[r].data in Backing(pools[p].weapons);
    assert s in pools[q].costumes ==> pools[q].costumes[s].data in Backing(pools[q].costumes);
    assert s in pools[q].weapons ==> pools[q].weapons[s].data in Backing(pools[q].weapons);
    assert p != q ==> Arrays(pools[p]) !! Arrays(pools[q]);
  }

  lemma AddPool(pools: map<int, Banner>, id: int, b: Banner)
    requires PoolsOk(pools) && BannerOk(b) && Arrays(b) !! AllArrays(pools)
    ensures PoolsOk(pools[id := b])
    ensures AllArrays(pools[id := b]) <= AllArrays(pools) + Arrays(b)
  {
    forall p | p in pools ensures Arrays(pools[p]) <= AllArrays(pools) {
    }
  }

  /** A rarity map whose arrays were not written has its items still. */
  twostate lemma Untouched(m: map<int, Slice>)
    requires Separate(m) && forall r :: r in m ==> unchanged(m[r].data)
    ensures View(m) == old(View(m))
  {
    assert forall r :: r in m ==> Items(m[r]) == old(Items(m[r]));
    ViewIs(m, old(View(m)));
  }

  /** The pairings kept for the catalog's costumes. */
  function PairingsOf(costumes: map<int, PoolItem>, pairings: map<int, int>): map<int, int> {
    map id | id in costumes && id in pairings :: pairings[id]
  }

  class Catalog {
    var costumesByRarity: map<int, Slice>
    var weaponsByRarity: map<int, Slice>
    var standardCostumes: map<int, Slice>
    var standardWeapons: map<int, Slice>
    var costumeById: map<int, PoolItem>
    var weaponById: map<int, PoolItem>
    const costumeWeapon: map<int, int>
    var featuredByGacha: map<int, FeaturedSet>
    var bannerPools: map<int, Banner>

    ghost predicate Valid()
      reads this`costumesByRarity, this`weaponsByRarity, this`standardCostumes, this`standardWeapons
    {
      LoadedOk(Loaded(costumesByRarity, weaponsByRarity, standardCostumes, standardWeapons))
    }

    /** Loading: the items by id and by rarity, and the launch term's items as the standard pool. */
    constructor (t: Tables, costumes: seq<CostumeRow>, weapons: seq<WeaponRow>, launchCostumes: seq<int>,
                 launchWeapons: seq<int>, pairings: map<int, int>)
      ensures Valid() && featuredByGacha == map[] && bannerPools == map[]
      ensures View(costumesByRarity) == AddedAll(map[], CostumeItems(t, costumes))
      ensures View(weaponsByRarity) == AddedAll(map[], WeaponItems(t, weapons, false))
      ensures costumeById == ById(CostumeItems(t, costumes)) && weaponById == ById(WeaponItems(t, weapons, true))
      ensures View(standardCostumes) == AddedAll(map[], Resolved(launchCostumes, costumeById, {}))
      ensures View(standardWeapons) == AddedAll(map[], Resolved(launchWeapons, weaponById, Restricted(weapons)))
      ensures costumeWeapon == PairingsOf(costumeById, pairings)
    {
      var l, byId, armsById := LoadPools(t, costumes, weapons, launchCostumes, launchWeapons);
      costumesByRarity, weaponsByRarity := l.costumes, l.weapons;
      standardCostumes, standardWeapons := l.standardCostumes, l.standardWeapons;
      costumeById, weaponById := byId, armsById;
      costumeWeapon := PairingsOf(byId, pairings);
      featuredByGacha, bannerPools := map[], map[];
    }

    /** What the catalog, pruned or not, makes of the terms and shops. */
    method BuildFeatured(termsAt: map<int, seq<Term>>, shops: map<int, seq<ShopEntry>>, entries: seq<Entry>)
      modifies this`featuredByGacha
      ensures Built(Sources(termsAt, shops, costumeById, weaponById), entries, |entries|, featuredByGacha)
    {
      featuredByGacha := BuildFeaturedFromTerms(Sources(termsAt, shops, costumeById, weaponById), entries);
    }

    /**
     * Drops the costumes without a paired weapon, each bucket in place. It reaches
     * the catalog only: what banner pools are built from stays as it was.
     */
    method PruneUnpairedCostumes()
      requires Valid()
      modifies this`costumesByRarity, this`costumeById, Backing(costumesByRarity)
      ensures Valid()
      ensures View(costumesByRarity) == PrunedBut(old(View(costumesByRarity)), {}, costumeWeapon)
      ensures costumeById == map id | id in old(costumeById) && id in costumeWeapon :: old(costumeById)[id]
      ensures View(weaponsByRarity) == old(View(weaponsByRarity))
      ensures View(standardCostumes) == old(View(standardCostumes))
      ensures View(standardWeapons) == old(View(standardWeapons))
    {
      costumeById := map id | id in costumeById && id in costumeWeapon :: costumeById[id];
      costumesByRarity := PruneAll(costumesByRarity, costumeWeapon);
      Untouched(weaponsByRarity);
      Untouched(standardCostumes);
      Untouched(standardWeapons);
    }

    /**
     * One pool for each banner: the standard pool with what the banner features.
     * No array is shared with the catalog, nor between two banners.
     */
    method BuildBannerPools(gachaIds: seq<int>)
      requires Valid()
      modifies this`bannerPools
      ensures forall id :: id in bannerPools <==> id in gachaIds
      ensures PoolsOk(bannerPools) && fresh(AllArrays(bannerPools))
      ensures forall id :: id in bannerPools ==>
        BannerView(bannerPools[id]) ==
          BannerFor(old(View(standardCostumes)), old(View(standardWeapons)),
                    if id in featuredByGacha then featuredByGacha[id] else FeaturedSet([], []), costumeWeapon,
                    weaponById)
    {
      bannerPools := BuildBanners(gachaIds, standardCostumes, standardWeapons, featuredByGacha, costumeWeapon,
                                  weaponById);
    }
  }

  function FeaturedIn(featured: map<int, FeaturedSet>, gachaId: int): FeaturedSet {
    if gachaId in featured then featured[gachaId] else FeaturedSet([], [])
  }

  method BuildBanners(gachaIds: seq<int>, costumes: map<int, Slice>, weapons: map<int, Slice>,
                      featured: map<int, FeaturedSet>, pairs: map<int, int>, byId: map<int, PoolItem>)
    returns (pools: map<int, Banner>)
    requires Separate(costumes) && Separate(weapons)
    ensures forall id :: id in pools <==> id in gachaIds
    ensures PoolsOk(pools) && fresh(AllArrays(pools))
    ensures forall id :: id in pools ==>
      BannerView(pools[id]) == BannerFor(old(View(costumes)), old(View(weapons)), FeaturedIn(featured, id), pairs, byId)
  {
    pools := map[];
    ghost var was, armed := View(costumes), View(weapons);
    for i := 0 to |gachaIds|
      invariant forall id :: id in pools <==> id in gachaIds[..i]
      invariant PoolsOk(pools) && fresh(AllArrays(pools))
      invariant forall id :: id in pools ==>
        BannerView(pools[id]) == BannerFor(was, armed, FeaturedIn(featured, id), pairs, byId)
    {
      var id := gachaIds[i];
      Untouched(costumes);
      Untouched(weapons);
      var b := BuildBanner(costumes, weapons, FeaturedIn(featured, id), pairs, byId);
      assert gachaIds[..i + 1] == gachaIds[..i] + [id];
      AddPool(pools, id, b);
      pools := pools[id := b];
    }
    assert gachaIds[..|gachaIds|] == gachaIds;
  }

  method PruneBucket(m: map<int, Slice>, r: int, pairs: map<int, int>) returns (n: map<int, Slice>)
    requires Separate(m) && r in m
    modifies m[r].data
    ensures Separate(n) && n.Keys == m.Keys && Backing(n) == Backing(m)
    ensures View(n) == old(View(m)[r := Paired(View(m)[r], pairs)])
  {
    ghost var want := View(m)[r := Paired(View(m)[r], pairs)];
    var s := PruneSlice(m[r], pairs);
    n := m[r := s];
    ViewIs(n, want);
    assert forall q :: q in m ==> n[q].data == m[q].data;
  }

  /** The buckets with those not in `todo` pruned. */
  function PrunedBut(m: map<int, seq<PoolItem>>, todo: set<int>, pairs: map<int, int>): map<int, seq<PoolItem>> {
    map r | r in m :: if r in todo then m[r] else Paired(m[r], pairs)
  }

  lemma PrunedOneMore(m: map<int, seq<PoolItem>>, todo: set<int>, r: int, pairs: map<int, int>)
    requires r in m && r in todo
    ensures PrunedBut(m, todo, pairs)[r := Paired(m[r], pairs)] == PrunedBut(m, todo - {r}, pairs)
  {
    var a, b := PrunedBut(m, todo, pairs)[r := Paired(m[r], pairs)], PrunedBut(m, todo - {r}, pairs);
    assert a.Keys == m.Keys == b.Keys;
    assert forall q :: q in m ==> a[q] == b[q];
  }

  method PruneAll(m: map<int, Slice>, pairs: map<int, int>) returns (n: map<int, Slice>)
    requires Separate(m)
    modifies Backing(m)
    ensures Separate(n) && Backing(n) == Backing(m)
    ensures View(n) == PrunedBut(old(View(m)), {}, pairs)
  {
    ghost var was := View(m);
    n := m;
    var todo := m.Keys;
    assert was == PrunedBut(was, todo, pairs);
    while todo != {}
      invariant todo <= m.Keys && n.Keys == m.Keys && Separate(n) && Backing(n) == Backing(m)
      invariant View(n) == PrunedBut(was, todo, pairs)
      decreases todo
    {
      var r := Choose(todo);
      n := PruneBucket(n, r, pairs);
      PrunedOneMore(was, todo, r, pairs);
      todo := todo - {r};
    }
  }
}
