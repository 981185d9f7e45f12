/** Rate tables (internal/gacha/draw.go). */
module GachaRates {
  import opened Common

  // The rate tables and their adjustment, and the dup-exchange grade roll of
  // internal/gacha/handler.go.

  const POSSESSION_COSTUME := 1
  const POSSESSION_WEAPON := 2
  const POSSESSION_MATERIAL := 5

  const RARITY_NORMAL := 10
  const RARITY_RARE := 20
  const RARITY_SRARE := 30
  const RARITY_SSRARE := 40

  datatype RateTier = RateTier(weight: int, possessionType: int, rarity: int)

  const PREMIUM_RATES: seq<RateTier> := [
    RateTier(200, POSSESSION_COSTUME, RARITY_SSRARE),
    RateTier(300, POSSESSION_WEAPON, RARITY_SSRARE),
    RateTier(500, POSSESSION_COSTUME, RARITY_SRARE),
    RateTier(1000, POSSESSION_WEAPON, RARITY_SRARE),
    RateTier(8000, POSSESSION_WEAPON, RARITY_RARE)]

  // ---------------------------------------------------------------------------
  // Weighted selection
  // ---------------------------------------------------------------------------

  function Sum(weights: seq<int>): int {
    if weights == [] then 0 else weights[0] + Sum(weights[1..])
  }

  /** The index a roll selects: each weight in turn is taken off the roll until it turns negative. */
  function Scan(weights: seq<int>, roll: int): (i: nat)
    ensures i <= |weights|
  {
    if weights == [] then 0
    else if roll < weights[0] then 0
    else 1 + Scan(weights[1..], roll - weights[0])
  }

  ghost predicate NonNegative(weights: seq<int>) {
    forall i :: 0 <= i < |weights| ==> weights[i] >= 0
  }

  lemma {:induction false} SumSplit(a: seq<int>, b: seq<int>)
    ensures Sum(a + b) == Sum(a) + Sum(b)
  {
    if a == [] {
      assert a + b == b;
    } else {
      assert (a + b)[1..] == a[1..] + b;
      SumSplit(a[1..], b);
    }
  }

  lemma {:induction false} SumNonNegative(weights: seq<int>)
    requires NonNegative(weights)
    ensures Sum(weights) >= 0
  {
    if weights != [] {
      SumNonNegative(weights[1..]);
    }
  }

  /** A roll selects i exactly when it falls in the i-th weight's share of the line. */
  lemma {:induction false} ScanIsShare(weights: seq<int>, roll: int, i: nat)
    requires NonNegative(weights) && roll >= 0 && i < |weights|
    ensures Scan(weights, roll) == i <==> Sum(weights[..i]) <= roll < Sum(weights[..i + 1])
  {
    assert weights[..i + 1] == [weights[0]] + weights[1..][..i];
    SumNonNegative(weights[1..][..i]);
    if i > 0 {
      assert weights[..i] == [weights[0]] + weights[1..][..i - 1];
      SumNonNegative(weights[1..][..i - 1]);
      if roll >= weights[0] {
        ScanIsShare(weights[1..], roll - weights[0], i - 1);
      }
    }
  }

  /** Every roll below the total selects something: no scan falls through. */
  lemma {:induction false} ScanTotal(weights: seq<int>, roll: int)
    requires 0 <= roll < Sum(weights)
    ensures Scan(weights, roll) < |weights| && weights[Scan(weights, roll)] > 0
  {
    if roll >= weights[0] {
      ScanTotal(weights[1..], roll - weights[0]);
    }
  }

  function Range(a: int, b: int): (s: set<int>)
    requires a <= b
    ensures |s| == b - a
    ensures forall x :: x in s <==> a <= x < b
    decreases b - a
  {
    if a == b then {} else Range(a, b - 1) + {b - 1}
  }

  ghost function RollsFor(weights: seq<int>, i: nat): set<int>
    requires NonNegative(weights)
  {
    SumNonNegative(weights);
    set r | r in Range(0, Sum(weights)) && Scan(weights, r) == i
  }

  /** Weighted selection is exact: of the rolls 0..total-1, weights[i] of them select i. */
  lemma SelectionIsExact(weights: seq<int>, i: nat)
    requires NonNegative(weights) && i < |weights|
    ensures |RollsFor(weights, i)| == weights[i]
  {
    var a, b := Sum(weights[..i]), Sum(weights[..i + 1]);
    assert weights[..i + 1] == weights[..i] + [weights[i]] && weights == weights[..i + 1] + weights[i + 1..];
    SumSplit(weights[..i], [weights[i]]);
    SumSplit(weights[..i + 1], weights[i + 1..]);
    SumNonNegative(weights[..i]);
    SumNonNegative(weights[i + 1..]);
    forall r ensures r in RollsFor(weights, i) <==> r in Range(a, b) {
      if r >= 0 { ScanIsShare(weights, r, i); }
    }
    assert RollsFor(weights, i) == Range(a, b);
  }

  function Weights(rates: seq<RateTier>): seq<int> {
    seq(|rates|, i requires 0 <= i < |rates| => rates[i].weight)
  }

  function Total(rates: seq<RateTier>): int {
    Sum(Weights(rates))
  }

  lemma ScanStep(weights: seq<int>, i: nat, rest: int)
    requires i < |weights|
    ensures Sum(weights[..i + 1]) == Sum(weights[..i]) + weights[i]
    ensures Scan(weights[i..], rest) == if rest < weights[i] then 0 else 1 + Scan(weights[i + 1..], rest - weights[i])
  {
    assert weights[..i + 1] == weights[..i] + [weights[i]];
    assert weights[i..][1..] == weights[i + 1..];
    SumSplit(weights[..i], [weights[i]]);
  }

  /** The cumulative scan of rollOne. */
  method SelectTier(rates: seq<RateTier>, roll: int) returns (tier: RateTier)
    requires 0 <= roll < Total(rates)
    ensures tier == (ScanTotal(Weights(rates), roll); rates[Scan(Weights(rates), roll)])
    ensures tier in rates && tier.weight > 0
  {
    ghost var weights := Weights(rates);
    ScanTotal(weights, roll);
    assert weights[..|rates|] == weights;
    var cumulative := 0;
    for i := 0 to |rates|
      invariant cumulative == Sum(weights[..i]) <= roll
      invariant Scan(weights, roll) == i + Scan(weights[i..], roll - cumulative)
    {
      ScanStep(weights, i, roll - cumulative);
      cumulative := cumulative + rates[i].weight;
      if roll < cumulative {
        return rates[i];
      }
    }
    // no roll below the total gets here
    assert false;
  }

  const DUP_GRADE_MIN := 1
  const DUP_GRADE_WEIGHTS: seq<int> := [5, 10, 20, 30, 35]

  /** The subtractive scan of rollDupGrade. */
  method SelectGrade(weights: seq<int>, roll: int) returns (grade: int)
    requires NonNegative(weights) && 0 <= roll < Sum(weights)
    ensures grade == DUP_GRADE_MIN + Scan(weights, roll) && DUP_GRADE_MIN <= grade < DUP_GRADE_MIN + |weights|
  {
    var left := roll;
    ScanTotal(weights, roll);
    for i := 0 to |weights|
      invariant left >= 0
      invariant i + Scan(weights[i..], left) == Scan(weights, roll)
    {
      assert weights[i..][1..] == weights[i + 1..];
      left := left - weights[i];
      if left < 0 {
        return DUP_GRADE_MIN + i;
      }
    }
    // the fall-through return
    assert false;
  }

  lemma GradeShares(roll: nat)
    requires roll < 100
    ensures Scan(DUP_GRADE_WEIGHTS, roll) ==
      if roll < 5 then 0 else if roll < 15 then 1 else if roll < 35 then 2 else if roll < 65 then 3 else 4
  {
    var w := DUP_GRADE_WEIGHTS;
    assert w[1..] == [10, 20, 30, 35] && w[2..] == [20, 30, 35] && w[3..] == [30, 35] && w[4..] == [35];
    assert w[0..] == w;
    ScanStep(w, 0, roll);
    ScanStep(w, 1, roll - 5);
    ScanStep(w, 2, roll - 15);
    ScanStep(w, 3, roll - 35);
    ScanStep(w, 4, roll - 65);
  }

  /** Of the hundred rolls 5 give grade 1, 10 grade 2, 20 grade 3, 30 grade 4 and 35 grade 5. */
  method RollDupGrade() returns (grade: int, ghost roll: nat)
    ensures roll < 100
    ensures grade ==
      if roll < 5 then 1 else if roll < 15 then 2 else if roll < 35 then 3 else if roll < 65 then 4 else 5
  {
    var total := 0;
    for i := 0 to |DUP_GRADE_WEIGHTS|
      invariant total == Sum(DUP_GRADE_WEIGHTS[..i])
    {
      assert DUP_GRADE_WEIGHTS[..i + 1] == DUP_GRADE_WEIGHTS[..i] + [DUP_GRADE_WEIGHTS[i]];
      SumSplit(DUP_GRADE_WEIGHTS[..i], [DUP_GRADE_WEIGHTS[i]]);
      total := total + DUP_GRADE_WEIGHTS[i];
    }
    assert DUP_GRADE_WEIGHTS[..|DUP_GRADE_WEIGHTS|] == DUP_GRADE_WEIGHTS;
    assert Sum(DUP_GRADE_WEIGHTS) == 100;
    var drawn := RandIntn(total);
    roll := drawn;
    grade := SelectGrade(DUP_GRADE_WEIGHTS, drawn);
    GradeShares(drawn);
  }

  // ---------------------------------------------------------------------------
  // Step-up rate adjustment
  // ---------------------------------------------------------------------------

  predicate IsHigh(tier: RateTier) {
    tier.rarity >= RARITY_SSRARE
  }

  /**
   * What a rate multiplier other than 0 and 1 adds to a weight. The product is a
   * floating-point one cut to an integer; any function of the weight will do, so
   * that every rounding is covered.
   */
  datatype Multiplier = Neutral | Scaling(extra: int -> int)

  /** A multiplier of at least 1, however the product is rounded. */
  ghost predicate Raises(multiplier: Multiplier) {
    multiplier.Scaling? ==> forall w :: w >= 0 ==> multiplier.extra(w) >= 0
  }

  /** A multiplier that is not negative: no weight loses more than there is. */
  ghost predicate KeepsWeights(multiplier: Multiplier) {
    multiplier.Scaling? ==> forall w :: w >= 0 ==> w + multiplier.extra(w) >= 0
  }

  /** Go's int(x) for a float x: truncation toward zero. */
  function Truncate(x: real): int {
    if x >= 0.0 then x.Floor else -((-x).Floor)
  }

  /** The multiplier x with nothing rounded before the cut. */
  function Exactly(x: real): Multiplier {
    if x == 1.0 || x == 0.0 then Neutral else Scaling(w => ExactExtra(w, x))
  }

  function ExactExtra(weight: int, x: real): int {
    Truncate(weight as real * (x - 1.0))
  }

  /** Below 1 the multiplier takes weight away, but never more than there is. */
  lemma ExactShare(w: int, x: real)
    requires w >= 0 && x >= 0.0
    ensures w + ExactExtra(w, x) >= 0 && (x >= 1.0 ==> ExactExtra(w, x) >= 0)
  {
    var v := w as real;
    assert v * (x - 1.0) == v * x - v;
    assert v * x >= 0.0;
    assert x >= 1.0 ==> v * (x - 1.0) >= 0.0;
  }

  /** The extra is cut toward zero: no larger in size than the product, and off by less than 1. */
  lemma ExtraIsCut(w: int, x: real)
    ensures
      var product, extra := w as real * (x - 1.0), ExactExtra(w, x);
      if product >= 0.0 then extra as real <= product < extra as real + 1.0
      else extra as real - 1.0 < product <= extra as real
  {
    var product := w as real * (x - 1.0);
    assert product.Floor as real <= product < product.Floor as real + 1.0;
    assert (-product).Floor as real <= -product < (-product).Floor as real + 1.0;
  }

  lemma ExactMultiplier(x: real)
    requires x >= 0.0
    ensures KeepsWeights(Exactly(x)) && (x >= 1.0 ==> Raises(Exactly(x)))
  {
    var m := Exactly(x);
    if m.Scaling? {
      forall w | w >= 0 ensures w + m.extra(w) >= 0 && (x >= 1.0 ==> m.extra(w) >= 0) {
        ExactShare(w, x);
      }
    }
  }

  function Extra(tier: RateTier, multiplier: Multiplier): int {
    if IsHigh(tier) && multiplier.Scaling? then multiplier.extra(tier.weight) else 0
  }

  function ExtraSum(rates: seq<RateTier>, multiplier: Multiplier): int {
    if rates == [] then 0
    else ExtraSum(rates[..|rates| - 1], multiplier) + Extra(rates[|rates| - 1], multiplier)
  }

  function LowSum(rates: seq<RateTier>): int {
    if rates == [] then 0
    else
      var last := rates[|rates| - 1];
      LowSum(rates[..|rates| - 1]) + if IsHigh(last) then 0 else last.weight
  }

  function LowCount(rates: seq<RateTier>): nat {
    if rates == [] then 0
    else LowCount(rates[..|rates| - 1]) + if IsHigh(rates[|rates| - 1]) then 0 else 1
  }

  lemma OneMoreTier(tiers: seq<RateTier>, i: nat, multiplier: Multiplier)
    requires i < |tiers|
    ensures ExtraSum(tiers[..i + 1], multiplier) == ExtraSum(tiers[..i], multiplier) + Extra(tiers[i], multiplier)
    ensures LowSum(tiers[..i + 1]) == LowSum(tiers[..i]) + if IsHigh(tiers[i]) then 0 else tiers[i].weight
  {
    assert tiers[..i + 1][..i] == tiers[..i];
  }

  function Raised(tier: RateTier, multiplier: Multiplier): RateTier {
    tier.(weight := tier.weight + Extra(tier, multiplier))
  }

  function Lowered(tier: RateTier, extra: int, low: int): RateTier
    requires low != 0
  {
    if IsHigh(tier) then tier else tier.(weight := Max(1, tier.weight - GoDiv(extra * tier.weight, low)))
  }

  /** What one tier becomes, given the total extra and the total weight below SSR. */
  function AdjustTier(tier: RateTier, multiplier: Multiplier, extra: int, low: int): RateTier {
    if IsHigh(tier) then Raised(tier, multiplier)
    else if low > 0 && extra > 0 then Lowered(tier, extra, low)
    else tier
  }

  function Adjusted(base: seq<RateTier>, multiplier: Multiplier): (adjusted: seq<RateTier>)
    ensures |adjusted| == |base|
  {
    if multiplier.Neutral? then base
    else
      seq(|base|, i requires 0 <= i < |base| =>
        AdjustTier(base[i], multiplier, ExtraSum(base, multiplier), LowSum(base)))
  }

  /**
   * The base table is read, never written: the result is the base array itself
   * or a copy of it adjusted in place.
   */
  method AdjustRates(base: array<RateTier>, multiplier: Multiplier) returns (adjusted: array<RateTier>)
    ensures adjusted[..] == Adjusted(base[..], multiplier)
    ensures adjusted == base || fresh(adjusted)
  {
    if multiplier.Neutral? {
      return base;
    }
    adjusted := new RateTier[base.Length](i requires 0 <= i < base.Length reads base => base[i]);
    ghost var tiers := base[..];
    assert adjusted[..] == tiers;
    var extra, low := Boost(adjusted, multiplier);
    if low > 0 && extra > 0 {
      Lower(adjusted, extra, low);
    }
  }

  /** First pass: raise the high tiers, summing what they gained and what the others weigh. */
  method Boost(adjusted: array<RateTier>, multiplier: Multiplier) returns (extra: int, low: int)
    requires multiplier.Scaling?
    modifies adjusted
    ensures extra == ExtraSum(old(adjusted[..]), multiplier) && low == LowSum(old(adjusted[..]))
    ensures forall k :: 0 <= k < adjusted.Length ==> adjusted[k] == Raised(old(adjusted[k]), multiplier)
  {
    ghost var tiers := adjusted[..];
    extra, low := 0, 0;
    for i := 0 to adjusted.Length
      invariant extra == ExtraSum(tiers[..i], multiplier) && low == LowSum(tiers[..i])
      invariant forall k :: 0 <= k < i ==> adjusted[k] == Raised(tiers[k], multiplier)
      invariant forall k :: i <= k < |tiers| ==> adjusted[k] == tiers[k]
    {
      OneMoreTier(tiers, i, multiplier);
      var r := adjusted[i];
      if r.rarity >= RARITY_SSRARE {
        var more := multiplier.extra(r.weight);
        adjusted[i] := r.(weight := r.weight + more);
        extra := extra + more;
      } else {
        low := low + r.weight;
      }
    }
    assert tiers[..|tiers|] == tiers;
  }

  /** Second pass: take the extra from the other tiers in proportion, but leave each at least 1. */
  method Lower(adjusted: array<RateTier>, extra: int, low: int)
    requires low > 0 && extra > 0
    modifies adjusted
    ensures forall k :: 0 <= k < adjusted.Length ==> adjusted[k] == Lowered(old(adjusted[k]), extra, low)
  {
    for i := 0 to adjusted.Length
      invariant forall k :: 0 <= k < i ==> adjusted[k] == Lowered(old(adjusted[k]), extra, low)
      invariant forall k :: i <= k < adjusted.Length ==> adjusted[k] == old(adjusted[k])
    {
      var r := adjusted[i];
      if r.rarity < RARITY_SSRARE {
        var weight := r.weight - GoDiv(extra * r.weight, low);
        adjusted[i] := r.(weight := if weight < 1 then 1 else weight);
      }
    }
  }

  /** Change of the total weight over the first n tiers. */
  ghost function Change(base: seq<RateTier>, multiplier: Multiplier, extra: int, low: int, n: nat): int
    requires n <= |base|
  {
    if n == 0 then 0
    else Change(base, multiplier, extra, low, n - 1) +
         AdjustTier(base[n - 1], multiplier, extra, low).weight - base[n - 1].weight
  }

  lemma {:induction false} ChangeIsTotal(base: seq<RateTier>, multiplier: Multiplier, n: nat)
    requires multiplier.Scaling? && n <= |base|
    ensures Sum(Weights(Adjusted(base, multiplier))[..n]) ==
      Sum(Weights(base)[..n]) + Change(base, multiplier, ExtraSum(base, multiplier), LowSum(base), n)
  {
    if n > 0 {
      var a, b := Weights(Adjusted(base, multiplier)), Weights(base);
      ChangeIsTotal(base, multiplier, n - 1);
      assert a[..n] == a[..n - 1] + [a[n - 1]] && b[..n] == b[..n - 1] + [b[n - 1]];
      SumSplit(a[..n - 1], [a[n - 1]]);
      SumSplit(b[..n - 1], [b[n - 1]]);
    }
  }

  /** The share of the extra taken from one tier: low * q lies in (extra * w - low, extra * w]. */
  lemma ShareBounds(extra: int, weight: int, low: int)
    requires extra > 0 && weight > 0 && low > 0
    ensures
      var q := GoDiv(extra * weight, low);
      0 <= q && low * q <= extra * weight <= low * q + low - 1 && (extra < low ==> q < weight)
  {
    var product := extra * weight;
    assert product > 0;
    var q := product / low;
    assert product == low * q + product % low;
    if extra < low {
      assert low * weight - extra * weight == (low - extra) * weight > 0;
      assert (weight - q) * low > 0;
    }
  }

  lemma StepBounds(low: int, before: int, step: int, extra: int, lowSum: int, weight: int, count: int)
    requires -(extra * weight) <= low * step
    requires low * before >= -extra * lowSum
    ensures low * (before + step) >= -extra * (lowSum + weight)
    ensures low * step <= -(extra * weight) + low - 1 && low * before <= -extra * lowSum + count * (low - 1) ==>
      low * (before + step) <= -extra * (lowSum + weight) + (count + 1) * (low - 1)
  {
    assert low * (before + step) == low * before + low * step;
    assert -extra * (lowSum + weight) == -extra * lowSum - extra * weight;
    assert (count + 1) * (low - 1) == count * (low - 1) + low - 1;
  }

  /** What lowering one tier does to the total, in units of 1/low. */
  lemma TierBounds(extra: int, weight: int, low: int)
    requires extra > 0 && weight > 0 && low > 0
    ensures
      var step := Max(1, weight - GoDiv(extra * weight, low)) - weight;
      -(extra * weight) <= low * step && (extra < low ==> low * step <= -(extra * weight) + low - 1)
  {
    ShareBounds(extra, weight, low);
    var q := GoDiv(extra * weight, low);
    var step := Max(1, weight - q) - weight;
    assert step >= -q;
    assert low * step >= low * -q by { assert low * (step + q) >= 0; }
    assert low * -q == -(low * q);
  }

  lemma {:induction false} ChangeBounds(base: seq<RateTier>, multiplier: Multiplier, extra: int, low: int, n: nat)
    requires Raises(multiplier) && extra > 0 && low > 0 && n <= |base|
    requires forall i :: 0 <= i < |base| ==> base[i].weight > 0
    ensures
      var change := Change(base, multiplier, extra, low, n) - ExtraSum(base[..n], multiplier);
      var lowSum := LowSum(base[..n]);
      low * change >= -extra * lowSum &&
      (extra < low ==> low * change <= -extra * lowSum + LowCount(base[..n]) * (low - 1))
  {
    if n > 0 {
      ChangeBounds(base, multiplier, extra, low, n - 1);
      assert base[..n][..n - 1] == base[..n - 1];
      var tier := base[n - 1];
      var before := Change(base, multiplier, extra, low, n - 1) - ExtraSum(base[..n - 1], multiplier);
      if !IsHigh(tier) {
        TierBounds(extra, tier.weight, low);
        StepBounds(low, before, Max(1, tier.weight - GoDiv(extra * tier.weight, low)) - tier.weight,
                   extra, LowSum(base[..n - 1]), tier.weight, LowCount(base[..n - 1]));
      }
    }
  }

  lemma {:induction false} ExtraNonNegative(base: seq<RateTier>, multiplier: Multiplier)
    requires Raises(multiplier) && forall i :: 0 <= i < |base| ==> base[i].weight > 0
    ensures ExtraSum(base, multiplier) >= 0
    ensures LowSum(base) >= LowCount(base) && (LowSum(base) > 0 ==> LowCount(base) > 0)
  {
    if base != [] {
      ExtraNonNegative(base[..|base| - 1], multiplier);
    }
  }

  /**
   * With a multiplier of at least 1 the total weight never falls, and while the
   * extra stays below the weight it is taken from, rounding alone makes it rise,
   * by less than the number of tiers below SSR.
   */
  lemma AdjustedTotal(base: seq<RateTier>, multiplier: Multiplier)
    requires Raises(multiplier) && forall i :: 0 <= i < |base| ==> base[i].weight > 0
    ensures Total(Adjusted(base, multiplier)) >= Total(base)
    ensures 0 < ExtraSum(base, multiplier) < LowSum(base) ==>
      Total(Adjusted(base, multiplier)) <= Total(base) + LowCount(base) - 1
  {
    if multiplier.Scaling? {
      TotalChange(base, multiplier);
      if ExtraSum(base, multiplier) > 0 && LowSum(base) > 0 {
        ChangeWithExtra(base, multiplier);
      } else {
        ChangeWithoutExtra(base, multiplier, ExtraSum(base, multiplier), LowSum(base), |base|);
      }
    }
  }

  lemma TotalChange(base: seq<RateTier>, multiplier: Multiplier)
    requires multiplier.Scaling?
    ensures Total(Adjusted(base, multiplier)) ==
      Total(base) + Change(base, multiplier, ExtraSum(base, multiplier), LowSum(base), |base|)
  {
    ChangeIsTotal(base, multiplier, |base|);
    assert Weights(base)[..|base|] == Weights(base);
    assert Weights(Adjusted(base, multiplier))[..|base|] == Weights(Adjusted(base, multiplier));
  }

  /** Every tier keeps a weight of at least 1; below SSR no clamp is needed while the extra is small. */
  lemma AdjustedTier(base: seq<RateTier>, multiplier: Multiplier, i: nat)
    requires Raises(multiplier) && i < |base| && base[i].weight > 0
    ensures Adjusted(base, multiplier)[i].weight >= 1
    ensures IsHigh(base[i]) ==> Adjusted(base, multiplier)[i].weight >= base[i].weight
    ensures !IsHigh(base[i]) && multiplier.Scaling? && 0 < ExtraSum(base, multiplier) < LowSum(base) ==>
      1 <= Adjusted(base, multiplier)[i].weight ==
        base[i].weight - GoDiv(ExtraSum(base, multiplier) * base[i].weight, LowSum(base))
  {
    if 0 < ExtraSum(base, multiplier) < LowSum(base) {
      ShareBounds(ExtraSum(base, multiplier), base[i].weight, LowSum(base));
    }
  }

  lemma ChangeWithExtra(base: seq<RateTier>, multiplier: Multiplier)
    requires Raises(multiplier) && forall i :: 0 <= i < |base| ==> base[i].weight > 0
    requires ExtraSum(base, multiplier) > 0 && LowSum(base) > 0
    ensures
      var change := Change(base, multiplier, ExtraSum(base, multiplier), LowSum(base), |base|);
      0 <= change && (ExtraSum(base, multiplier) < LowSum(base) ==> change <= LowCount(base) - 1)
  {
    var extra, low, count := ExtraSum(base, multiplier), LowSum(base), LowCount(base);
    var change := Change(base, multiplier, extra, low, |base|);
    assert base[..|base|] == base;
    ChangeBounds(base, multiplier, extra, low, |base|);
    ExtraNonNegative(base, multiplier);
    ChangeFactor(low, change, extra, count);
  }

  lemma ChangeFactor(low: int, change: int, extra: int, count: int)
    requires low > 0 && count > 0 && low * (change - extra) >= -extra * low
    ensures change >= 0
    ensures low * (change - extra) <= -extra * low + count * (low - 1) ==> change <= count - 1
  {
    assert low * (change - extra) == low * change - extra * low;
    assert low * change >= 0;
    if low * change <= count * (low - 1) {
      assert count * (low - 1) == low * count - count;
      assert low * (count - change) >= count > 0;
    }
  }

  lemma {:induction false} ChangeWithoutExtra(base: seq<RateTier>, multiplier: Multiplier, extra: int, low: int, n: nat)
    requires Raises(multiplier) && n <= |base| && !(extra > 0 && low > 0)
    requires forall i :: 0 <= i < |base| ==> base[i].weight > 0
    ensures Change(base, multiplier, extra, low, n) >= 0
  {
    if n > 0 {
      ChangeWithoutExtra(base, multiplier, extra, low, n - 1);
    }
  }

  // ---------------------------------------------------------------------------
  // What a multiplier makes of each weight
  // ---------------------------------------------------------------------------

  /** The sum of a weight over the tiers that are, or are not, of rarity SSR or better. */
  function WeightSum(rates: seq<RateTier>, high: bool, weight: int -> int): int {
    if rates == [] then 0
    else (if (rates[0].rarity >= 40) == high then weight(rates[0].weight) else 0) + WeightSum(rates[1..], high, weight)
  }

  lemma {:induction false} SumsSplit(a: seq<RateTier>, b: seq<RateTier>, high: bool, weight: int -> int)
    ensures WeightSum(a + b, high, weight) == WeightSum(a, high, weight) + WeightSum(b, high, weight)
  {
    if a == [] {
      assert a + b == b;
    } else {
      assert (a + b)[1..] == a[1..] + b;
      SumsSplit(a[1..], b, high, weight);
    }
  }

  lemma {:induction false} SumsAre(rates: seq<RateTier>, extra: int -> int)
    ensures ExtraSum(rates, Scaling(extra)) == WeightSum(rates, true, extra)
    ensures LowSum(rates) == WeightSum(rates, false, w => w)
  {
    if rates != [] {
      var n := |rates| - 1;
      SumsAre(rates[..n], extra);
      assert rates == rates[..n] + [rates[n]] && rates[n..][1..] == [];
      SumsSplit(rates[..n], [rates[n]], true, extra);
      SumsSplit(rates[..n], [rates[n]], false, w => w);
    }
  }

  /**
   * A multiplier other than 0 and 1 raises a weight of rarity SSR or better by its
   * own extra. Any other weight loses its share of all the extras, in proportion
   * to what such weights add up to and cut to an integer, but keeps at least 1.
   */
  lemma AdjustedWeight(base: seq<RateTier>, extra: int -> int, i: nat)
    requires i < |base|
    ensures
      var tier, adjusted := base[i], Adjusted(base, Scaling(extra))[i];
      var gained, low := WeightSum(base, true, extra), WeightSum(base, false, w => w);
      adjusted.rarity == tier.rarity && adjusted.possessionType == tier.possessionType &&
      (tier.rarity >= 40 ==> adjusted.weight == tier.weight + extra(tier.weight)) &&
      (tier.rarity < 40 && (gained <= 0 || low <= 0) ==> adjusted.weight == tier.weight) &&
      (tier.rarity < 40 && gained > 0 && low > 0 && tier.weight >= 0 ==>
       adjusted.weight == Max(1, tier.weight - gained * tier.weight / low))
  {
    SumsAre(base, extra);
    ShareTaken(base[i], extra, ExtraSum(base, Scaling(extra)), LowSum(base));
  }

  lemma ShareTaken(tier: RateTier, extra: int -> int, gained: int, low: int)
    ensures
      var adjusted := AdjustTier(tier, Scaling(extra), gained, low);
      adjusted.rarity == tier.rarity && adjusted.possessionType == tier.possessionType &&
      (tier.rarity >= 40 ==> adjusted.weight == tier.weight + extra(tier.weight)) &&
      (tier.rarity < 40 && (gained <= 0 || low <= 0) ==> adjusted.weight == tier.weight) &&
      (tier.rarity < 40 && gained > 0 && low > 0 && tier.weight >= 0 ==>
       adjusted.weight == Max(1, tier.weight - gained * tier.weight / low))
  {
    if gained > 0 && low > 0 && tier.weight >= 0 {
      assert gained * tier.weight >= 0;
    }
  }

  lemma DoubledExtra(w: int)
    ensures ExactExtra(w, 2.0) == w
  {
    assert w as real * (2.0 - 1.0) == w as real;
  }

  /** Twice the premium rates: the SSR weights 200 and 300 gain 500, taken from weights of 9500. */
  lemma DoubledSums()
    ensures ExtraSum(PREMIUM_RATES, Exactly(2.0)) == 500 && LowSum(PREMIUM_RATES) == 9500
  {
    DoubledExtra(200);
    DoubledExtra(300);
    var base := PREMIUM_RATES;
    var m := Exactly(2.0);
    assert base[..5] == base && base[..1][..0] == [];
    OneMoreTier(base, 0, m);
    OneMoreTier(base, 1, m);
    OneMoreTier(base, 2, m);
    OneMoreTier(base, 3, m);
    OneMoreTier(base, 4, m);
  }

  /** They become 400 and 600, and the others make room; multipliers 1 and 0 change nothing. */
  lemma DoubledPremium()
    ensures Weights(PREMIUM_RATES) == [200, 300, 500, 1000, 8000] && Total(PREMIUM_RATES) == 10000
    ensures Weights(Adjusted(PREMIUM_RATES, Exactly(2.0))) == [400, 600, 474, 948, 7579]
    ensures Adjusted(PREMIUM_RATES, Exactly(1.0)) == PREMIUM_RATES == Adjusted(PREMIUM_RATES, Exactly(0.0))
  {
    var base := PREMIUM_RATES;
    assert Weights(base) == [200, 300, 500, 1000, 8000] && Sum([200, 300, 500, 1000, 8000]) == 10000;
    DoubledSums();
    forall i | 0 <= i < 5
      ensures Adjusted(base, Exactly(2.0))[i] == AdjustTier(base[i], Exactly(2.0), 500, 9500)
    {
    }
    DoubledExtra(200);
    DoubledExtra(300);
  }
}
