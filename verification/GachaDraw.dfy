/** Premium draws (gacha/draw.go). */
module GachaDraw {
  import opened Common
  import opened GachaRates

  // Weighted rolls with a featured rate-up, guarantee slots, and replacement of high-
  // rarity duplicates.
  //
  // Every random number is an arbitrary value of its range. The relations below say
  // which items a roll can give; DrawPremium is proved to give nothing else, and the
  // lemmas then hold for every random outcome.

  const FEATURED_RATE_UP_PERCENT := 35
  const FEATURED_RATE_UP_DENOM := 100

  datatype PoolItem = PoolItem(possessionType: int, possessionId: int, rarity: int, characterId: int)

  datatype DrawnItem = DrawnItem(possessionType: int, possessionId: int, rarity: int, characterId: int)

  datatype BannerPool = BannerPool(
    costumesByRarity: map<int, seq<PoolItem>>,
    weaponsByRarity: map<int, seq<PoolItem>>,
    featured: seq<PoolItem>)
  {
    /** The bucket a tier or a replacement draws from; weapons stand for every type but costumes. */
    function Bucket(possessionType: int, rarity: int): seq<PoolItem> {
      var pool := if possessionType == POSSESSION_COSTUME then costumesByRarity else weaponsByRarity;
      if rarity in pool then pool[rarity] else []
    }

    /** Buckets hold only items of their own type and rarity. */
    ghost predicate WellFormed() {
      forall p, r, item ::
        (p == POSSESSION_COSTUME || p == POSSESSION_WEAPON) && item in Bucket(p, r) ==>
        item.possessionType == p && item.rarity == r
    }
  }

  /** Only costumes keep their character. */
  function Draw(possessionType: int, item: PoolItem): DrawnItem {
    DrawnItem(item.possessionType, item.possessionId, item.rarity,
              if possessionType == POSSESSION_COSTUME then item.characterId else 0)
  }

  function Phantom(rarity: int): DrawnItem {
    DrawnItem(POSSESSION_WEAPON, 0, rarity, 0)
  }

  // ---------------------------------------------------------------------------
  // What the rolls can give
  // ---------------------------------------------------------------------------

  /** Where an empty bucket sends the draw: SSR costumes, or rare weapons. */
  function FallbackRarity(possessionType: int): int {
    if possessionType == POSSESSION_COSTUME then RARITY_SSRARE else RARITY_RARE
  }

  function BucketOrFallback(bp: BannerPool, possessionType: int, rarity: int): seq<PoolItem> {
    if bp.Bucket(possessionType, rarity) != [] then bp.Bucket(possessionType, rarity)
    else bp.Bucket(possessionType, FallbackRarity(possessionType))
  }

  ghost predicate CanPick(bp: BannerPool, possessionType: int, rarity: int, item: DrawnItem) {
    var items := BucketOrFallback(bp, possessionType, rarity);
    if items == [] then item == Phantom(rarity)
    else exists p :: p in items && item == Draw(possessionType, p)
  }

  ghost predicate CanFeature(bp: BannerPool, tier: RateTier, item: DrawnItem) {
    exists f :: f in bp.featured && f.possessionType == tier.possessionType && f.rarity == tier.rarity &&
      item == DrawnItem(f.possessionType, f.possessionId, f.rarity, f.characterId)
  }

  ghost predicate CanRoll(bp: BannerPool, rates: seq<RateTier>, item: DrawnItem) {
    exists tier :: tier in rates && tier.weight > 0 &&
      (CanFeature(bp, tier, item) || CanPick(bp, tier.possessionType, tier.rarity, item))
  }

  function AtLeast(rates: seq<RateTier>, minRarity: int): seq<RateTier> {
    if rates == [] then []
    else
      var last := rates[|rates| - 1];
      AtLeast(rates[..|rates| - 1], minRarity) + if last.rarity >= minRarity then [last] else []
  }

  ghost predicate CanRollAtMin(bp: BannerPool, rates: seq<RateTier>, minRarity: int, item: DrawnItem) {
    if Total(AtLeast(rates, minRarity)) == 0 then CanPick(bp, POSSESSION_WEAPON, minRarity, item)
    else CanRoll(bp, AtLeast(rates, minRarity), item)
  }

  /** One slot before duplicate replacement. */
  ghost predicate CanDraw(bp: BannerPool, rates: seq<RateTier>, guaranteed: bool, minRarity: int, item: DrawnItem) {
    if guaranteed then
      (CanRoll(bp, rates, item) && item.rarity >= minRarity) ||
      ((exists low :: CanRoll(bp, rates, low) && low.rarity < minRarity) && CanRollAtMin(bp, rates, minRarity, item))
    else CanRoll(bp, rates, item)
  }

  // ---------------------------------------------------------------------------
  // The rolls
  // ---------------------------------------------------------------------------

  method PickFromPool(bp: BannerPool, possessionType: int, rarity: int) returns (item: DrawnItem)
    ensures CanPick(bp, possessionType, rarity, item)
  {
    if possessionType == POSSESSION_COSTUME {
      var items := bp.Bucket(POSSESSION_COSTUME, rarity);
      if |items| == 0 {
        items := bp.Bucket(POSSESSION_COSTUME, RARITY_SSRARE);
      }
      if |items| == 0 {
        return DrawnItem(POSSESSION_WEAPON, 0, rarity, 0);
      }
      var i := RandIntn(|items|);
      var pick := items[i];
      assert items == BucketOrFallback(bp, possessionType, rarity) && pick in items;
      return DrawnItem(pick.possessionType, pick.possessionId, pick.rarity, pick.characterId);
    }
    var items := bp.Bucket(POSSESSION_WEAPON, rarity);
    if |items| == 0 {
      items := bp.Bucket(POSSESSION_WEAPON, RARITY_RARE);
    }
    if |items| == 0 {
      return DrawnItem(POSSESSION_WEAPON, 0, rarity, 0);
    }
    var i := RandIntn(|items|);
    var pick := items[i];
    assert items == BucketOrFallback(bp, possessionType, rarity) && pick in items;
    return DrawnItem(pick.possessionType, pick.possessionId, pick.rarity, 0);
  }

  /** The chance is drawn below 100, and a matching featured item is given for the 35 lowest. */
  method TryFeaturedRateUp(bp: BannerPool, tier: RateTier) returns (item: Option<DrawnItem>, ghost chance: nat)
    ensures item.Some? ==> CanFeature(bp, tier, item.value)
    ensures chance < 100
    ensures item.Some? <==>
      chance < 35 &&
      exists f :: f in bp.featured && f.possessionType == tier.possessionType && f.rarity == tier.rarity
  {
    chance := 0;
    var matches: seq<PoolItem> := [];
    for i := 0 to |bp.featured|
      invariant forall f :: f in matches <==>
        f in bp.featured[..i] && f.possessionType == tier.possessionType && f.rarity == tier.rarity
    {
      assert bp.featured[..i + 1] == bp.featured[..i] + [bp.featured[i]];
      var f := bp.featured[i];
      if f.possessionType == tier.possessionType && f.rarity == tier.rarity {
        matches := matches + [f];
      }
    }
    assert bp.featured[..|bp.featured|] == bp.featured;
    if |matches| == 0 {
      return None, chance;
    }
    var roll := RandIntn(FEATURED_RATE_UP_DENOM);
    chance := roll;
    assert matches[0] in matches;
    if roll >= FEATURED_RATE_UP_PERCENT {
      return None, chance;
    }
    var i := RandIntn(|matches|);
    var f := matches[i];
    assert f in matches;
    return Some(DrawnItem(f.possessionType, f.possessionId, f.rarity, f.characterId)), chance;
  }

  method RollOne(bp: BannerPool, rates: seq<RateTier>, totalWeight: int) returns (item: DrawnItem)
    requires totalWeight == Total(rates) > 0
    ensures CanRoll(bp, rates, item)
  {
    var roll := RandIntn(totalWeight);
    var tier := SelectTier(rates, roll);
    var featured, _ := TryFeaturedRateUp(bp, tier);
    if featured.Some? {
      return featured.value;
    }
    item := PickFromPool(bp, tier.possessionType, tier.rarity);
  }

  lemma {:induction false} AtLeastHolds(rates: seq<RateTier>, minRarity: int)
    ensures forall t :: t in AtLeast(rates, minRarity) <==> t in rates && t.rarity >= minRarity
  {
    if rates != [] {
      var n := |rates| - 1;
      AtLeastHolds(rates[..n], minRarity);
      assert rates == rates[..n] + [rates[n]];
    }
  }

  lemma NonNegativeTiers(rates: seq<RateTier>)
    ensures NonNegative(Weights(rates)) <==> forall t :: t in rates ==> t.weight >= 0
  {
    forall t | t in rates && NonNegative(Weights(rates)) ensures t.weight >= 0 {
      var i :| 0 <= i < |rates| && rates[i] == t;
      assert Weights(rates)[i] == t.weight;
    }
  }

  lemma AppendTotal(rates: seq<RateTier>, tier: RateTier)
    ensures Total(rates + [tier]) == Total(rates) + tier.weight
  {
    assert Weights(rates + [tier]) == Weights(rates) + [tier.weight];
    SumSplit(Weights(rates), [tier.weight]);
  }

  method RollAtMinRarity(bp: BannerPool, rates: seq<RateTier>, minRarity: int) returns (item: DrawnItem)
    requires Total(AtLeast(rates, minRarity)) >= 0
    ensures CanRollAtMin(bp, rates, minRarity, item)
  {
    var filtered: seq<RateTier> := [];
    var filteredTotal := 0;
    for i := 0 to |rates|
      invariant filtered == AtLeast(rates[..i], minRarity) && filteredTotal == Total(filtered)
    {
      assert rates[..i + 1][..i] == rates[..i];
      if rates[i].rarity >= minRarity {
        AppendTotal(filtered, rates[i]);
        filtered := filtered + [rates[i]];
        filteredTotal := filteredTotal + rates[i].weight;
      }
    }
    assert rates[..|rates|] == rates;
    if filteredTotal == 0 {
      item := PickFromPool(bp, POSSESSION_WEAPON, minRarity);
    } else {
      item := RollOne(bp, filtered, filteredTotal);
    }
  }

  // ---------------------------------------------------------------------------
  // Duplicate replacement
  // ---------------------------------------------------------------------------

  /** The ids known to be owned: the player's, plus those handed out earlier in the batch. */
  datatype Marks = Marks(costumes: set<int>, weapons: set<int>)
  {
    function Of(possessionType: int): set<int> {
      if possessionType == POSSESSION_COSTUME then costumes else weapons
    }

    function Mark(possessionType: int, id: int): Marks {
      if possessionType == POSSESSION_COSTUME then Marks(costumes + {id}, weapons) else Marks(costumes, weapons + {id})
    }
  }

  class OwnedSets {
    var costumes: set<int>
    var weapons: set<int>

    constructor (costumes: set<int>, weapons: set<int>)
      ensures this.costumes == costumes && this.weapons == weapons
    {
      this.costumes, this.weapons := costumes, weapons;
    }

    function Snapshot(): Marks
      reads this
    {
      Marks(costumes, weapons)
    }
  }

  predicate IsHighDrop(item: DrawnItem) {
    item.rarity >= RARITY_SSRARE &&
    (item.possessionType == POSSESSION_COSTUME || item.possessionType == POSSESSION_WEAPON)
  }

  function Unmarked(items: seq<PoolItem>, marked: set<int>): seq<PoolItem> {
    if items == [] then []
    else
      var last := items[|items| - 1];
      Unmarked(items[..|items| - 1], marked) + if last.possessionId !in marked then [last] else []
  }

  lemma {:induction false} UnmarkedHolds(items: seq<PoolItem>, marked: set<int>)
    ensures forall p :: p in Unmarked(items, marked) <==> p in items && p.possessionId !in marked
  {
    if items != [] {
      var n := |items| - 1;
      UnmarkedHolds(items[..n], marked);
      assert items == items[..n] + [items[n]];
    }
  }

  /** Replacing `raw`: the item kept or substituted, and the marks afterwards. */
  ghost predicate Deduped(bp: BannerPool, marks: Marks, raw: DrawnItem, item: DrawnItem, after: Marks) {
    var p := raw.possessionType;
    if !IsHighDrop(raw) then item == raw && after == marks
    else if raw.possessionId !in marks.Of(p) then item == raw && after == marks.Mark(p, raw.possessionId)
    else
      var candidates := Unmarked(bp.Bucket(p, raw.rarity), marks.Of(p));
      if candidates == [] then item == raw && after == marks
      else exists c :: c in candidates && item == Draw(p, c) && after == marks.Mark(p, c.possessionId)
  }

  method UnmarkedCandidates(items: seq<PoolItem>, marked: set<int>) returns (candidates: seq<PoolItem>)
    ensures candidates == Unmarked(items, marked)
  {
    candidates := [];
    for i := 0 to |items|
      invariant candidates == Unmarked(items[..i], marked)
    {
      assert items[..i + 1][..i] == items[..i];
      if items[i].possessionId !in marked {
        candidates := candidates + [items[i]];
      }
    }
    assert items[..|items|] == items;
  }

  method DedupeHighRarity(bp: BannerPool, batch: OwnedSets, raw: DrawnItem) returns (item: DrawnItem)
    modifies batch
    ensures Deduped(bp, old(batch.Snapshot()), raw, item, batch.Snapshot())
  {
    if raw.rarity < RARITY_SSRARE {
      return raw;
    }
    if raw.possessionType == POSSESSION_COSTUME {
      if raw.possessionId !in batch.costumes {
        batch.costumes := batch.costumes + {raw.possessionId};
        return raw;
      }
      var candidates := UnmarkedCandidates(bp.Bucket(POSSESSION_COSTUME, raw.rarity), batch.costumes);
      if |candidates| == 0 {
        return raw;
      }
      var i := RandIntn(|candidates|);
      var pick := candidates[i];
      batch.costumes := batch.costumes + {pick.possessionId};
      return DrawnItem(pick.possessionType, pick.possessionId, pick.rarity, pick.characterId);
    } else if raw.possessionType == POSSESSION_WEAPON {
      if raw.possessionId !in batch.weapons {
        batch.weapons := batch.weapons + {raw.possessionId};
        return raw;
      }
      var candidates := UnmarkedCandidates(bp.Bucket(POSSESSION_WEAPON, raw.rarity), batch.weapons);
      if |candidates| == 0 {
        return raw;
      }
      var i := RandIntn(|candidates|);
      var pick := candidates[i];
      batch.weapons := batch.weapons + {pick.possessionId};
      return DrawnItem(pick.possessionType, pick.possessionId, pick.rarity, 0);
    }
    return raw;
  }

  // ---------------------------------------------------------------------------
  // A whole draw
  // ---------------------------------------------------------------------------

  predicate IsGuaranteed(i: int, count: int, fixedCount: int) {
    fixedCount > 0 && i >= count - fixedCount
  }

  ghost predicate Slot(bp: BannerPool, rates: seq<RateTier>, guaranteed: bool, minRarity: int, dedupe: bool,
                       marks: Marks, item: DrawnItem, after: Marks)
  {
    exists raw :: CanDraw(bp, rates, guaranteed, minRarity, raw) &&
      if dedupe then Deduped(bp, marks, raw, item, after) else item == raw && after == marks
  }

  /** The first slots of a draw of `count`; marks[i] are the ids owned when slot i is drawn. */
  ghost predicate DrawnSoFar(bp: BannerPool, rates: seq<RateTier>, count: nat, minRarity: int, fixedCount: int,
                             dedupe: bool, marks: seq<Marks>, result: seq<DrawnItem>)
  {
    |marks| == |result| + 1 &&
    forall i :: 0 <= i < |result| ==>
      Slot(bp, rates, IsGuaranteed(i, count, fixedCount), minRarity, dedupe, marks[i], result[i], marks[i + 1])
  }

  lemma OneMoreSlot(bp: BannerPool, rates: seq<RateTier>, count: nat, minRarity: int, fixedCount: int, dedupe: bool,
                    marks: seq<Marks>, result: seq<DrawnItem>, item: DrawnItem, after: Marks)
    requires DrawnSoFar(bp, rates, count, minRarity, fixedCount, dedupe, marks, result)
    requires Slot(bp, rates, IsGuaranteed(|result|, count, fixedCount), minRarity, dedupe, marks[|result|], item, after)
    ensures DrawnSoFar(bp, rates, count, minRarity, fixedCount, dedupe, marks + [after], result + [item])
  {
  }

  /** `result` comes from `count` slots. */
  ghost predicate Draws(bp: BannerPool, rates: seq<RateTier>, count: nat, minRarity: int, fixedCount: int, dedupe: bool,
                        marks: seq<Marks>, result: seq<DrawnItem>)
  {
    |result| == count && DrawnSoFar(bp, rates, count, minRarity, fixedCount, dedupe, marks, result)
  }

  /** A result the draw can give a player who owns `owned`; None is a player not checked for duplicates. */
  ghost predicate Outcome(bp: BannerPool, rates: seq<RateTier>, count: nat, minRarity: int, fixedCount: int,
                          owned: Option<Marks>, result: seq<DrawnItem>)
  {
    exists marks :: Draws(bp, rates, count, minRarity, fixedCount, owned.Some?, marks, result) &&
      (owned.Some? ==> marks[0] == owned.value)
  }

  method TotalWeight(rates: seq<RateTier>) returns (total: int)
    ensures total == Total(rates)
  {
    total := 0;
    for i := 0 to |rates|
      invariant total == Total(rates[..i])
    {
      assert rates[..i + 1] == rates[..i] + [rates[i]];
      AppendTotal(rates[..i], rates[i]);
      total := total + rates[i].weight;
    }
    assert rates[..|rates|] == rates;
  }

  /** What rand.Intn demands of the rates: it panics unless its bound is positive. */
  ghost predicate Rollable(rates: seq<RateTier>, guarantees: bool, minRarity: int) {
    Total(rates) > 0 && (guarantees ==> Total(AtLeast(rates, minRarity)) >= 0)
  }

  /** One slot of a draw, from the first roll to the replacement of a duplicate. */
  method DrawSlot(bp: BannerPool, rates: seq<RateTier>, totalWeight: int, guaranteed: bool, minRarity: int,
                  dedupe: bool, batch: OwnedSets)
    returns (item: DrawnItem, ghost roll: DrawnItem)
    requires Rollable(rates, guaranteed, minRarity) && totalWeight == Total(rates)
    modifies batch
    ensures Slot(bp, rates, guaranteed, minRarity, dedupe, old(batch.Snapshot()), item, batch.Snapshot())
    ensures CanRoll(bp, rates, roll)
    ensures (!guaranteed || roll.rarity >= minRarity) && (!dedupe || roll.rarity < RARITY_SSRARE) ==> item == roll
  {
    item := RollOne(bp, rates, totalWeight);
    roll := item;
    if guaranteed && item.rarity < minRarity {
      item := RollAtMinRarity(bp, rates, minRarity);
    }
    assert CanDraw(bp, rates, guaranteed, minRarity, item);
    if dedupe {
      item := DedupeHighRarity(bp, batch, item);
    }
  }

  /** The first rolls of the slots so far, and which slots gave theirs. */
  ghost predicate FirstRolls(bp: BannerPool, rates: seq<RateTier>, count: nat, minRarity: int, fixedCount: int,
                             dedupe: bool, rolls: seq<DrawnItem>, result: seq<DrawnItem>)
  {
    |rolls| == |result| && (forall i :: 0 <= i < |rolls| ==> CanRoll(bp, rates, rolls[i])) &&
    forall i | 0 <= i < |rolls| && (!dedupe || rolls[i].rarity < RARITY_SSRARE) ::
      (fixedCount <= 0 || i < count - fixedCount || rolls[i].rarity >= minRarity) ==> result[i] == rolls[i]
  }

  lemma OneMoreRoll(bp: BannerPool, rates: seq<RateTier>, count: nat, minRarity: int, fixedCount: int, dedupe: bool,
                    rolls: seq<DrawnItem>, result: seq<DrawnItem>, roll: DrawnItem, item: DrawnItem)
    requires FirstRolls(bp, rates, count, minRarity, fixedCount, dedupe, rolls, result) && CanRoll(bp, rates, roll)
    requires !dedupe || roll.rarity < RARITY_SSRARE ==>
      (fixedCount <= 0 || |rolls| < count - fixedCount || roll.rarity >= minRarity ==> item == roll)
    ensures FirstRolls(bp, rates, count, minRarity, fixedCount, dedupe, rolls + [roll], result + [item])
  {
  }

  /**
   * The player's sets are copied into the batch, so they are left as they were.
   * The first roll of a slot is what it gives, unless the slot is one of the last
   * fixedCount and the roll misses their minimum, or the roll is an SSR item that
   * is checked for duplicates.
   */
  method DrawPremium(bp: BannerPool, count: nat, fixedRarityMin: int, fixedCount: int, premiumRates: array<RateTier>,
                     rateMultiplier: Multiplier, owned: OwnedSets?)
    returns (result: seq<DrawnItem>, ghost rolls: seq<DrawnItem>)
    requires premiumRates[..] == PREMIUM_RATES
    requires count == 0 || Rollable(Adjusted(PREMIUM_RATES, rateMultiplier), fixedCount > 0, fixedRarityMin)
    ensures Outcome(bp, Adjusted(PREMIUM_RATES, rateMultiplier), count, fixedRarityMin, fixedCount,
                    if owned == null then None else Some(Marks(owned.costumes, owned.weapons)), result)
    ensures |rolls| == |result| == count
    ensures forall i :: 0 <= i < count ==> CanRoll(bp, Adjusted(PREMIUM_RATES, rateMultiplier), rolls[i])
    ensures forall i | 0 <= i < count && (owned == null || rolls[i].rarity < RARITY_SSRARE) ::
      (fixedCount <= 0 || i < count - fixedCount || rolls[i].rarity >= fixedRarityMin) ==> result[i] == rolls[i]
  {
    result, rolls := [], [];
    var table := AdjustRates(premiumRates, rateMultiplier);
    var rates := table[..];
    var totalWeight := TotalWeight(rates);
    var batch := new OwnedSets({}, {});
    if owned != null {
      batch := new OwnedSets(owned.costumes, owned.weapons);
    }
    ghost var marks := [batch.Snapshot()];
    for i := 0 to count
      invariant fresh(batch)
      invariant |result| == i
      invariant DrawnSoFar(bp, rates, count, fixedRarityMin, fixedCount, owned != null, marks, result)
      invariant marks[i] == batch.Snapshot()
      invariant owned != null ==> marks[0] == owned.Snapshot()
      invariant FirstRolls(bp, rates, count, fixedRarityMin, fixedCount, owned != null, rolls, result)
    {
      var isGuaranteeSlot := fixedCount > 0 && i >= count - fixedCount;
      var item, roll := DrawSlot(bp, rates, totalWeight, isGuaranteeSlot, fixedRarityMin, owned != null, batch);
      OneMoreSlot(bp, rates, count, fixedRarityMin, fixedCount, owned != null, marks, result, item, batch.Snapshot());
      OneMoreRoll(bp, rates, count, fixedRarityMin, fixedCount, owned != null, rolls, result, roll, item);
      result, rolls := result + [item], rolls + [roll];
      marks := marks + [batch.Snapshot()];
    }
    assert Draws(bp, rates, count, fixedRarityMin, fixedCount, owned != null, marks, result);
  }

  /** The premium table stays usable under every multiplier that keeps the weights. */
  lemma PremiumWeights(multiplier: Multiplier)
    requires KeepsWeights(multiplier)
    ensures
      var rates := Adjusted(PREMIUM_RATES, multiplier);
      NonNegative(Weights(rates)) && Total(rates) > 0 &&
      exists t :: t in rates && t.weight > 0 && t.rarity == RARITY_RARE && t.possessionType == POSSESSION_WEAPON
  {
    var rates := Adjusted(PREMIUM_RATES, multiplier);
    forall i | 0 <= i < |rates| ensures rates[i].weight >= 0 && (i >= 2 ==> rates[i].weight > 0) {
    }
    assert rates[4].rarity == RARITY_RARE && rates[4].possessionType == POSSESSION_WEAPON && rates[4] in rates;
    var weights := Weights(rates);
    assert weights == weights[..4] + [weights[4]];
    SumSplit(weights[..4], [weights[4]]);
    SumNonNegative(weights[..4]);
  }

  /** No multiplier that keeps the weights makes a draw panic. */
  lemma PremiumRollable(multiplier: Multiplier, minRarity: int)
    requires KeepsWeights(multiplier)
    ensures Rollable(Adjusted(PREMIUM_RATES, multiplier), true, minRarity)
  {
    var rates := Adjusted(PREMIUM_RATES, multiplier);
    PremiumWeights(multiplier);
    AtLeastHolds(rates, minRarity);
    NonNegativeTiers(rates);
    NonNegativeTiers(AtLeast(rates, minRarity));
    SumNonNegative(Weights(AtLeast(rates, minRarity)));
  }

  // ---------------------------------------------------------------------------
  // No duplicates
  // ---------------------------------------------------------------------------

  /** The ids of the high drops of one type among the items. */
  function HighIds(items: seq<DrawnItem>, possessionType: int): set<int> {
    if items == [] then {}
    else
      var last := items[|items| - 1];
      HighIds(items[..|items| - 1], possessionType) +
      if IsHighDrop(last) && last.possessionType == possessionType then {last.possessionId} else {}
  }

  ghost predicate IsType(possessionType: int) {
    possessionType == POSSESSION_COSTUME || possessionType == POSSESSION_WEAPON
  }

  /** A high drop is new, or everything in its bucket is owned by then. */
  lemma DedupedNewOrExhausted(bp: BannerPool, marks: Marks, raw: DrawnItem, item: DrawnItem, after: Marks)
    requires bp.WellFormed() && Deduped(bp, marks, raw, item, after)
    ensures item.rarity == raw.rarity && item.possessionType == raw.possessionType
    ensures forall p | IsType(p) ::
      after.Of(p) == marks.Of(p) + if IsHighDrop(item) && item.possessionType == p then {item.possessionId} else {}
    ensures IsHighDrop(item) ==>
      item.possessionId !in marks.Of(item.possessionType) ||
      forall c :: c in bp.Bucket(item.possessionType, item.rarity) ==> c.possessionId in marks.Of(item.possessionType)
  {
    if IsHighDrop(raw) {
      UnmarkedHolds(bp.Bucket(raw.possessionType, raw.rarity), marks.Of(raw.possessionType));
    }
  }

  /** The marks are always the player's ids plus the high drops handed out so far. */
  lemma {:induction false} MarksAreTaken(bp: BannerPool, rates: seq<RateTier>, count: nat, minRarity: int,
                                         fixedCount: int, marks: seq<Marks>, result: seq<DrawnItem>,
                                         i: nat, p: int)
    requires bp.WellFormed() && IsType(p) && i <= count
    requires Draws(bp, rates, count, minRarity, fixedCount, true, marks, result)
    ensures marks[i].Of(p) == marks[0].Of(p) + HighIds(result[..i], p)
  {
    if i > 0 {
      MarksAreTaken(bp, rates, count, minRarity, fixedCount, marks, result, i - 1, p);
      assert Slot(bp, rates, IsGuaranteed(i - 1, count, fixedCount), minRarity, true, marks[i - 1], result[i - 1],
                  marks[i - 1 + 1]);
      var raw :| CanDraw(bp, rates, IsGuaranteed(i - 1, count, fixedCount), minRarity, raw) &&
        Deduped(bp, marks[i - 1], raw, result[i - 1], marks[i]);
      DedupedNewOrExhausted(bp, marks[i - 1], raw, result[i - 1], marks[i]);
      assert result[..i][..i - 1] == result[..i - 1];
    }
  }

  /**
   * A repeat only happens once a bucket is exhausted: each SSR-or-better costume
   * or weapon is new to the player and to the batch, or every id of its bucket
   * already is not.
   */
  lemma NewOrExhausted(bp: BannerPool, rates: seq<RateTier>, count: nat, minRarity: int, fixedCount: int,
                       owned: Marks, result: seq<DrawnItem>, i: nat)
    requires bp.WellFormed()
    requires Outcome(bp, rates, count, minRarity, fixedCount, Some(owned), result)
    requires i < |result| && IsHighDrop(result[i])
    ensures
      var p := result[i].possessionType;
      var taken := owned.Of(p) + HighIds(result[..i], p);
      result[i].possessionId !in taken ||
      forall c :: c in bp.Bucket(p, result[i].rarity) ==> c.possessionId in taken
  {
    var marks :| Draws(bp, rates, count, minRarity, fixedCount, true, marks, result) && marks[0] == owned;
    MarksAreTaken(bp, rates, count, minRarity, fixedCount, marks, result, i, result[i].possessionType);
    assert Slot(bp, rates, IsGuaranteed(i, count, fixedCount), minRarity, true, marks[i], result[i], marks[i + 1]);
    var raw :| CanDraw(bp, rates, IsGuaranteed(i, count, fixedCount), minRarity, raw) &&
      Deduped(bp, marks[i], raw, result[i], marks[i + 1]);
    DedupedNewOrExhausted(bp, marks[i], raw, result[i], marks[i + 1]);
  }

  lemma {:induction false} HighIdsHold(items: seq<DrawnItem>, p: int)
    ensures |HighIds(items, p)| <= |items|
    ensures forall i :: 0 <= i < |items| && IsHighDrop(items[i]) && items[i].possessionType == p ==>
      items[i].possessionId in HighIds(items, p)
  {
    if items != [] {
      HighIdsHold(items[..|items| - 1], p);
    }
  }

  predicate IsFrom(item: DrawnItem, possessionType: int, rarity: int) {
    item.possessionType == possessionType && item.rarity == rarity
  }

  function UnownedIds(items: seq<PoolItem>, owned: set<int>): set<int> {
    set c | c in items && c.possessionId !in owned :: c.possessionId
  }

  /**
   * While the bucket has at least as many unowned ids as the draw has slots,
   * everything drawn from it is unowned and pairwise distinct.
   */
  lemma NoDuplicates(bp: BannerPool, rates: seq<RateTier>, count: nat, minRarity: int, fixedCount: int,
                     owned: Marks, result: seq<DrawnItem>, p: int, rarity: int)
    requires bp.WellFormed() && IsType(p) && rarity >= RARITY_SSRARE
    requires Outcome(bp, rates, count, minRarity, fixedCount, Some(owned), result)
    requires |UnownedIds(bp.Bucket(p, rarity), owned.Of(p))| >= count
    ensures forall i | 0 <= i < |result| && IsFrom(result[i], p, rarity) :: result[i].possessionId !in owned.Of(p)
    ensures forall i, j | 0 <= i < j < |result| && IsFrom(result[i], p, rarity) && IsFrom(result[j], p, rarity) ::
      result[i].possessionId != result[j].possessionId
  {
    assert |result| == count;
    forall i | 0 <= i < count && IsFrom(result[i], p, rarity)
      ensures result[i].possessionId !in owned.Of(p) + HighIds(result[..i], p)
    {
      HighIdsHold(result[..i], p);
      NewOrExhausted(bp, rates, count, minRarity, fixedCount, owned, result, i);
      StillUnowned(bp.Bucket(p, rarity), owned.Of(p), HighIds(result[..i], p));
    }
    forall i, j | 0 <= i < j < count && IsFrom(result[i], p, rarity) && IsFrom(result[j], p, rarity)
      ensures result[i].possessionId != result[j].possessionId
    {
      HighIdsHold(result[..j], p);
      assert result[..j][i] == result[i];
    }
  }

  /** Taking fewer ids than are unowned leaves one. */
  lemma StillUnowned(items: seq<PoolItem>, owned: set<int>, taken: set<int>)
    requires |taken| < |UnownedIds(items, owned)|
    ensures exists c :: c in items && c.possessionId !in owned + taken
  {
    LargerSetHasMore(UnownedIds(items, owned), taken);
    var id :| id in UnownedIds(items, owned) && id !in taken;
    var c :| c in items && c.possessionId !in owned && c.possessionId == id;
  }

  lemma LargerSetHasMore<T>(a: set<T>, b: set<T>)
    requires |b| < |a|
    ensures exists x :: x in a && x !in b
  {
    assert a == (a - b) + (a * b);
    assert b == (b - a) + (a * b);
    var x :| x in a - b;
  }

  // ---------------------------------------------------------------------------
  // Guarantee slots
  // ---------------------------------------------------------------------------

  /** An empty bucket does not send the draw below the minimum. */
  predicate PickSafe(bp: BannerPool, possessionType: int, rarity: int, minRarity: int) {
    bp.Bucket(possessionType, rarity) != [] ||
    bp.Bucket(possessionType, FallbackRarity(possessionType)) == [] ||
    FallbackRarity(possessionType) >= minRarity
  }

  lemma PickedRarity(bp: BannerPool, possessionType: int, rarity: int, minRarity: int)
    requires bp.WellFormed() && rarity >= minRarity
    ensures PickSafe(bp, possessionType, rarity, minRarity) <==>
      forall item | CanPick(bp, possessionType, rarity, item) :: item.rarity >= minRarity
  {
    var p := if possessionType == POSSESSION_COSTUME then POSSESSION_COSTUME else POSSESSION_WEAPON;
    var items := BucketOrFallback(bp, possessionType, rarity);
    assert items == BucketOrFallback(bp, p, rarity);
    if !PickSafe(bp, possessionType, rarity, minRarity) {
      assert CanPick(bp, possessionType, rarity, Draw(possessionType, items[0]));
      assert items[0] in bp.Bucket(p, FallbackRarity(p));
    }
  }

  /** Every bucket a re-roll at the minimum can reach is safe. */
  ghost predicate FallbackSafe(bp: BannerPool, rates: seq<RateTier>, minRarity: int) {
    var tiers := AtLeast(rates, minRarity);
    if Total(tiers) == 0 then PickSafe(bp, POSSESSION_WEAPON, minRarity, minRarity)
    else forall t :: t in tiers && t.weight > 0 ==> PickSafe(bp, t.possessionType, t.rarity, minRarity)
  }

  lemma RerolledRarity(bp: BannerPool, rates: seq<RateTier>, minRarity: int)
    requires bp.WellFormed()
    ensures FallbackSafe(bp, rates, minRarity) <==>
      forall item | CanRollAtMin(bp, rates, minRarity, item) :: item.rarity >= minRarity
  {
    var tiers := AtLeast(rates, minRarity);
    AtLeastHolds(rates, minRarity);
    if Total(tiers) == 0 {
      PickedRarity(bp, POSSESSION_WEAPON, minRarity, minRarity);
    } else {
      forall t | t in tiers
        ensures PickSafe(bp, t.possessionType, t.rarity, minRarity) <==>
          forall item | CanPick(bp, t.possessionType, t.rarity, item) :: item.rarity >= minRarity
      {
        PickedRarity(bp, t.possessionType, t.rarity, minRarity);
      }
      if !FallbackSafe(bp, rates, minRarity) {
        var t :| t in tiers && t.weight > 0 && !PickSafe(bp, t.possessionType, t.rarity, minRarity);
        var item :| CanPick(bp, t.possessionType, t.rarity, item) && item.rarity < minRarity;
        assert CanRoll(bp, tiers, item);
      }
    }
  }

  lemma PremiumRarity(i: nat)
    requires i < |PREMIUM_RATES|
    ensures PREMIUM_RATES[i].rarity >= RARITY_RARE
  {
    assert i == 0 || i == 1 || i == 2 || i == 3 || i == 4;
  }

  lemma PremiumRollRarity(bp: BannerPool, multiplier: Multiplier, item: DrawnItem)
    requires bp.WellFormed() && CanRoll(bp, Adjusted(PREMIUM_RATES, multiplier), item)
    ensures item.rarity >= RARITY_RARE
  {
    var rates := Adjusted(PREMIUM_RATES, multiplier);
    var t :| t in rates && t.weight > 0 && (CanFeature(bp, t, item) || CanPick(bp, t.possessionType, t.rarity, item));
    var i :| 0 <= i < |rates| && rates[i] == t;
    assert t.rarity == PREMIUM_RATES[i].rarity;
    PremiumRarity(i);
    if CanPick(bp, t.possessionType, t.rarity, item) {
      PickedRarity(bp, t.possessionType, t.rarity, RARITY_RARE);
    }
  }

  lemma PremiumLowRoll(bp: BannerPool, multiplier: Multiplier)
    requires bp.WellFormed() && KeepsWeights(multiplier)
    ensures exists item :: CanRoll(bp, Adjusted(PREMIUM_RATES, multiplier), item) && item.rarity == RARITY_RARE
  {
    PremiumWeights(multiplier);
    var rates := Adjusted(PREMIUM_RATES, multiplier);
    var t :| t in rates && t.weight > 0 && t.rarity == RARITY_RARE && t.possessionType == POSSESSION_WEAPON;
    var items := bp.Bucket(POSSESSION_WEAPON, RARITY_RARE);
    var item := if items == [] then Phantom(RARITY_RARE) else Draw(POSSESSION_WEAPON, items[0]);
    assert items != [] ==> items[0] in items;
    assert CanPick(bp, t.possessionType, t.rarity, item);
    assert CanRoll(bp, rates, item) && item.rarity == RARITY_RARE;
  }

  /**
   * A guarantee slot keeps its minimum for every random outcome exactly when
   * the minimum is no more than the lowest tier, or no reachable empty bucket
   * falls back below it.
   */
  lemma GuaranteeCondition(bp: BannerPool, multiplier: Multiplier, minRarity: int)
    requires bp.WellFormed() && KeepsWeights(multiplier)
    ensures minRarity <= RARITY_RARE || FallbackSafe(bp, Adjusted(PREMIUM_RATES, multiplier), minRarity) <==>
      forall item | CanDraw(bp, Adjusted(PREMIUM_RATES, multiplier), true, minRarity, item) :: item.rarity >= minRarity
  {
    var rates := Adjusted(PREMIUM_RATES, multiplier);
    RerolledRarity(bp, rates, minRarity);
    forall item | CanRoll(bp, rates, item) ensures item.rarity >= RARITY_RARE {
      PremiumRollRarity(bp, multiplier, item);
    }
    if minRarity > RARITY_RARE {
      PremiumLowRoll(bp, multiplier);
      assert forall item | CanRollAtMin(bp, rates, minRarity, item) :: CanDraw(bp, rates, true, minRarity, item);
    }
  }

  /** A draw of one slot, for a player who owns nothing, gives whatever the slot can. */
  lemma OneSlot(bp: BannerPool, rates: seq<RateTier>, guaranteed: bool, minRarity: int, item: DrawnItem)
    requires CanDraw(bp, rates, guaranteed, minRarity, item)
    ensures Outcome(bp, rates, 1, minRarity, if guaranteed then 1 else 0, Some(Marks({}, {})), [item])
  {
    var none := Marks({}, {});
    var after := if IsHighDrop(item) then none.Mark(item.possessionType, item.possessionId) else none;
    assert Deduped(bp, none, item, item, after);
    assert Slot(bp, rates, guaranteed, minRarity, true, none, item, after);
    var owned, fixedCount, marks := Some(none), if guaranteed then 1 else 0, [none, after];
    assert Draws(bp, rates, 1, minRarity, fixedCount, owned.Some?, marks, [item]) && marks[0] == owned.value;
  }

  /** The last fixedCount items meet the minimum, duplicate replacement included. */
  lemma GuaranteeKept(bp: BannerPool, multiplier: Multiplier, count: nat, minRarity: int, fixedCount: int,
                      owned: Option<Marks>, result: seq<DrawnItem>, i: nat)
    requires bp.WellFormed() && KeepsWeights(multiplier)
    requires Outcome(bp, Adjusted(PREMIUM_RATES, multiplier), count, minRarity, fixedCount, owned, result)
    requires minRarity <= RARITY_RARE || FallbackSafe(bp, Adjusted(PREMIUM_RATES, multiplier), minRarity)
    requires i < |result| && i >= count - fixedCount
    ensures result[i].rarity >= minRarity
  {
    var rates := Adjusted(PREMIUM_RATES, multiplier);
    var marks :| Draws(bp, rates, count, minRarity, fixedCount, owned.Some?, marks, result);
    GuaranteeCondition(bp, multiplier, minRarity);
    assert Slot(bp, rates, true, minRarity, owned.Some?, marks[i], result[i], marks[i + 1]);
    var raw :| CanDraw(bp, rates, true, minRarity, raw) &&
      if owned.Some? then Deduped(bp, marks[i], raw, result[i], marks[i + 1])
      else result[i] == raw && marks[i + 1] == marks[i];
    if owned.Some? {
      DedupedNewOrExhausted(bp, marks[i], raw, result[i], marks[i + 1]);
    }
  }

  ghost predicate Guarantees(bp: BannerPool, rates: seq<RateTier>, minRarity: int) {
    forall count: nat, fixedCount: int, owned: Option<Marks>, result: seq<DrawnItem>, i: nat |
      Outcome(bp, rates, count, minRarity, fixedCount, owned, result) && count - fixedCount <= i < |result| ::
      result[i].rarity >= minRarity
  }

  /** Over whole draws, of any size and for any player, the guarantee holds under the same exact condition. */
  lemma GuaranteeExact(bp: BannerPool, multiplier: Multiplier, minRarity: int)
    requires bp.WellFormed() && KeepsWeights(multiplier)
    ensures Guarantees(bp, Adjusted(PREMIUM_RATES, multiplier), minRarity) <==>
      minRarity <= RARITY_RARE || FallbackSafe(bp, Adjusted(PREMIUM_RATES, multiplier), minRarity)
  {
    var rates := Adjusted(PREMIUM_RATES, multiplier);
    GuaranteeCondition(bp, multiplier, minRarity);
    if minRarity <= RARITY_RARE || FallbackSafe(bp, rates, minRarity) {
      forall count: nat, fixedCount: int, owned: Option<Marks>, result: seq<DrawnItem>, i: nat |
        Outcome(bp, rates, count, minRarity, fixedCount, owned, result) && count - fixedCount <= i < |result|
        ensures result[i].rarity >= minRarity
      {
        GuaranteeKept(bp, multiplier, count, minRarity, fixedCount, owned, result, i);
      }
    } else {
      var item :| CanDraw(bp, rates, true, minRarity, item) && item.rarity < minRarity;
      OneSlot(bp, rates, true, minRarity, item);
      assert [item][0].rarity < minRarity;
    }
  }

  /** A pool of one rare weapon: a guaranteed SR slot gives that weapon. */
  lemma GuaranteeBroken(multiplier: Multiplier, id: int)
    requires Raises(multiplier)
    ensures
      var bp := BannerPool(map[], map[RARITY_RARE := [PoolItem(POSSESSION_WEAPON, id, RARITY_RARE, 0)]], []);
      Outcome(bp, Adjusted(PREMIUM_RATES, multiplier), 1, RARITY_SRARE, 1, Some(Marks({}, {})),
              [DrawnItem(POSSESSION_WEAPON, id, RARITY_RARE, 0)])
  {
    var weapon := PoolItem(POSSESSION_WEAPON, id, RARITY_RARE, 0);
    var item := DrawnItem(POSSESSION_WEAPON, id, RARITY_RARE, 0);
    var bp := BannerPool(map[], map[RARITY_RARE := [weapon]], []);
    var rates := Adjusted(PREMIUM_RATES, multiplier);
    var tiers := AtLeast(rates, RARITY_SRARE);
    assert weapon in bp.Bucket(POSSESSION_WEAPON, RARITY_RARE) && item == Draw(POSSESSION_WEAPON, weapon);
    AdjustedTier(PREMIUM_RATES, multiplier, 4);
    assert rates[4] in rates && CanPick(bp, rates[4].possessionType, rates[4].rarity, item);
    PremiumHighTiers(multiplier, RARITY_SRARE);
    NonNegativeTiers(tiers);
    var t :| t in tiers && WeaponTier(t, RARITY_SRARE);
    PositiveTotal(tiers, t);
    assert CanPick(bp, t.possessionType, t.rarity, item);
    assert CanRoll(bp, tiers, item);
    OneSlot(bp, rates, true, RARITY_SRARE, item);
  }

  /** The tiers of the premium table a minimum of SR or SSR leaves: the weapon tiers at or above it, and costumes. */
  ghost predicate HighTiers(tiers: seq<RateTier>, minRarity: int) {
    (exists t :: t in tiers && WeaponTier(t, RARITY_SSRARE)) &&
    (minRarity <= RARITY_SRARE ==> exists t :: t in tiers && WeaponTier(t, RARITY_SRARE)) &&
    forall t :: t in tiers ==> HighTier(t, minRarity)
  }

  ghost predicate HighTier(t: RateTier, minRarity: int) {
    (t.possessionType == POSSESSION_COSTUME && t.weight > 0) || WeaponTier(t, RARITY_SSRARE) ||
    (minRarity <= RARITY_SRARE && WeaponTier(t, RARITY_SRARE))
  }

  ghost predicate WeaponTier(t: RateTier, rarity: int) {
    t.possessionType == POSSESSION_WEAPON && t.rarity == rarity && t.weight > 0
  }

  lemma RaisedTier(multiplier: Multiplier, minRarity: int, i: nat)
    requires Raises(multiplier) && RARITY_RARE < minRarity <= RARITY_SSRARE && i < |PREMIUM_RATES|
    ensures
      var t := Adjusted(PREMIUM_RATES, multiplier)[i];
      (i == 1 ==> WeaponTier(t, RARITY_SSRARE)) && (i == 3 ==> WeaponTier(t, RARITY_SRARE)) &&
      (t.rarity >= minRarity ==> HighTier(t, minRarity))
  {
    assert i == 0 || i == 1 || i == 2 || i == 3 || i == 4;
    AdjustedTier(PREMIUM_RATES, multiplier, i);
  }

  lemma PremiumHighTiers(multiplier: Multiplier, minRarity: int)
    requires Raises(multiplier) && RARITY_RARE < minRarity <= RARITY_SSRARE
    ensures HighTiers(AtLeast(Adjusted(PREMIUM_RATES, multiplier), minRarity), minRarity)
  {
    var rates := Adjusted(PREMIUM_RATES, multiplier);
    var tiers := AtLeast(rates, minRarity);
    AtLeastHolds(rates, minRarity);
    RaisedTier(multiplier, minRarity, 1);
    RaisedTier(multiplier, minRarity, 3);
    assert rates[1] in tiers && (minRarity <= RARITY_SRARE ==> rates[3] in tiers);
    forall t | t in tiers ensures HighTier(t, minRarity) {
      var i :| 0 <= i < |rates| && rates[i] == t;
      RaisedTier(multiplier, minRarity, i);
    }
  }

  /**
   * For a minimum of SR or SSR the condition is about weapon buckets alone: each
   * tier's bucket at or above the minimum must be filled unless the rare bucket,
   * where an empty one falls back to, is empty as well.
   */
  lemma FallbackSafeForWeapons(bp: BannerPool, multiplier: Multiplier, minRarity: int)
    requires Raises(multiplier) && RARITY_RARE < minRarity <= RARITY_SSRARE
    ensures FallbackSafe(bp, Adjusted(PREMIUM_RATES, multiplier), minRarity) <==>
      bp.Bucket(POSSESSION_WEAPON, RARITY_RARE) == [] ||
      (bp.Bucket(POSSESSION_WEAPON, RARITY_SSRARE) != [] &&
       (minRarity <= RARITY_SRARE ==> bp.Bucket(POSSESSION_WEAPON, RARITY_SRARE) != []))
  {
    var rates := Adjusted(PREMIUM_RATES, multiplier);
    var tiers := AtLeast(rates, minRarity);
    PremiumHighTiers(multiplier, minRarity);
    NonNegativeTiers(tiers);
    var t :| t in tiers && WeaponTier(t, RARITY_SSRARE);
    PositiveTotal(tiers, t);
  }

  lemma PositiveTotal(tiers: seq<RateTier>, t: RateTier)
    requires t in tiers && t.weight > 0 && NonNegative(Weights(tiers))
    ensures Total(tiers) > 0
  {
    var i :| 0 <= i < |tiers| && tiers[i] == t;
    var w := Weights(tiers);
    assert w == w[..i] + [w[i]] + w[i + 1..];
    SumSplit(w[..i] + [w[i]], w[i + 1..]);
    SumSplit(w[..i], [w[i]]);
    SumNonNegative(w[..i]);
    SumNonNegative(w[i + 1..]);
  }
}
