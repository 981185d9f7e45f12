/** Threshold rewards (internal/masterdata). */
module Rewards {
  import opened Common

  // Big-hunt scores (internal/masterdata/bighunt.go) and labyrinth mission counts
  // (internal/masterdata/labyrinth.go), with the record of what was already claimed
  // (internal/service/labyrinth.go).

  datatype RewardItem = RewardItem(possessionType: int, possessionId: int, count: int)

  /** A threshold with the rewards it pays, as the catalog resolves them. */
  datatype Tier = Tier(threshold: int, rewards: seq<RewardItem>)

  ghost predicate Sorted(tiers: seq<Tier>) {
    forall i, j :: 0 <= i < j < |tiers| ==> tiers[i].threshold <= tiers[j].threshold
  }

  /** The rewards of the tiers above `from` and up to `to`, in tier order. */
  function Collected(tiers: seq<Tier>, from: int, to: int): seq<RewardItem> {
    if tiers == [] then []
    else
      var last, before := tiers[|tiers| - 1], Collected(tiers[..|tiers| - 1], from, to);
      if from < last.threshold <= to then before + last.rewards else before
  }

  method CollectTiers(tiers: seq<Tier>, from: int, to: int) returns (items: seq<RewardItem>)
    ensures items == Collected(tiers, from, to)
  {
    items := [];
    for i := 0 to |tiers|
      invariant items == Collected(tiers[..i], from, to)
    {
      assert tiers[..i + 1][..i] == tiers[..i];
      if tiers[i].threshold > from && tiers[i].threshold <= to {
        items := items + tiers[i].rewards;
      }
    }
    assert tiers[..|tiers|] == tiers;
  }

  /** A tier pays its rewards exactly when its threshold is passed on the way from one score to the other. */
  lemma TierPays(t: Tier, from: int, to: int)
    ensures Collected([t], from, to) == if t.threshold <= from || to < t.threshold then [] else t.rewards
    ensures Highest([t], from, to) == if t.threshold <= from || to < t.threshold then 0 else Max(0, t.threshold)
  {
    assert [t][..0] == [] && Collected([t][..0], from, to) == [] && Highest([t][..0], from, to) == 0;
    assert [] + t.rewards == t.rewards;
  }

  /** Tiers pay one after the other, whatever tables they stand in. */
  lemma {:induction false} TiersPayInOrder(a: seq<Tier>, b: seq<Tier>, from: int, to: int)
    ensures Collected(a + b, from, to) == Collected(a, from, to) + Collected(b, from, to)
  {
    if b == [] {
      assert a + b == a;
      assert Collected(a, from, to) + [] == Collected(a, from, to);
    } else {
      var n := |b| - 1;
      TiersPayInOrder(a, b[..n], from, to);
      assert (a + b)[..|a + b| - 1] == a + b[..n];
      var x, y, rewards := Collected(a, from, to), Collected(b[..n], from, to), b[n].rewards;
      assert (x + y) + rewards == x + (y + rewards);
    }
  }

  // ---------------------------------------------------------------------------
  // Telescoping
  // ---------------------------------------------------------------------------

  lemma {:induction false} NothingCollected(tiers: seq<Tier>, from: int, to: int)
    requires forall t :: t in tiers ==> !(from < t.threshold <= to)
    ensures Collected(tiers, from, to) == []
  {
    if tiers != [] {
      NothingCollected(tiers[..|tiers| - 1], from, to);
      assert tiers[|tiers| - 1] in tiers;
    }
  }

  /** Collecting in two steps is collecting once: the same rewards, in the same order. */
  lemma {:induction false} CollectedSplits(tiers: seq<Tier>, from: int, mid: int, to: int)
    requires Sorted(tiers) && from <= mid <= to
    ensures Collected(tiers, from, to) == Collected(tiers, from, mid) + Collected(tiers, mid, to)
  {
    if tiers != [] {
      var n := |tiers| - 1;
      CollectedSplits(tiers[..n], from, mid, to);
      var a, b, rewards := Collected(tiers[..n], from, mid), Collected(tiers[..n], mid, to), tiers[n].rewards;
      if from < tiers[n].threshold <= mid {
        NothingCollected(tiers[..n], mid, to);
        assert (a + rewards) + [] == a + rewards == (a + []) + rewards;
      } else {
        assert (a + b) + rewards == a + (b + rewards);
      }
    }
  }

  /** The rewards of a run of maxima, each collected from the one before. */
  function CollectedAlong(tiers: seq<Tier>, maxima: seq<int>): seq<RewardItem> {
    if |maxima| < 2 then []
    else
      var n := |maxima| - 1;
      CollectedAlong(tiers, maxima[..n]) + Collected(tiers, maxima[n - 1], maxima[n])
  }

  /** Over any run of non-decreasing maxima no tier is paid twice and none is lost. */
  lemma {:induction false} RunTelescopes(tiers: seq<Tier>, maxima: seq<int>)
    requires Sorted(tiers) && NonDecreasing(maxima) && maxima != []
    ensures CollectedAlong(tiers, maxima) == Collected(tiers, maxima[0], maxima[|maxima| - 1])
  {
    var n := |maxima| - 1;
    if n == 0 {
      NothingCollected(tiers, maxima[0], maxima[0]);
    } else {
      RunTelescopes(tiers, maxima[..n]);
      CollectedSplits(tiers, maxima[0], maxima[n - 1], maxima[n]);
    }
  }

  // ---------------------------------------------------------------------------
  // Highest reward reached
  // ---------------------------------------------------------------------------

  /** How many thresholds are reached before the first that is not. */
  function ReachedPrefix(tiers: seq<Tier>, score: int): (n: nat)
    ensures n <= |tiers|
  {
    if tiers == [] || score < tiers[0].threshold then 0 else 1 + ReachedPrefix(tiers[1..], score)
  }

  /** On sorted thresholds the prefix is exactly what the score reaches. */
  lemma {:induction false} PrefixIsReached(tiers: seq<Tier>, score: int, k: nat)
    requires Sorted(tiers) && k < |tiers|
    ensures k < ReachedPrefix(tiers, score) <==> score >= tiers[k].threshold
  {
    if score >= tiers[0].threshold && k > 0 {
      PrefixIsReached(tiers[1..], score, k - 1);
    }
  }

  /** The rank reward: that of the last tier reached, and of no other. */
  method CollectHighestReward(tiers: seq<Tier>, score: int) returns (items: seq<RewardItem>)
    ensures var n := ReachedPrefix(tiers, score); items == if n == 0 then [] else tiers[n - 1].rewards
  {
    items := [];
    for i := 0 to |tiers|
      invariant i + ReachedPrefix(tiers[i..], score) == ReachedPrefix(tiers, score)
      invariant items == if i == 0 then [] else tiers[i - 1].rewards
    {
      assert tiers[i..][1..] == tiers[i + 1..];
      if score >= tiers[i].threshold {
        items := tiers[i].rewards;
      } else {
        break;
      }
    }
  }

  // ---------------------------------------------------------------------------
  // Labyrinth: what was claimed, over any run of requests
  // ---------------------------------------------------------------------------

  /** The highest threshold collected, 0 when none is. */
  function Highest(tiers: seq<Tier>, from: int, to: int): int {
    if tiers == [] then 0
    else
      var last := tiers[|tiers| - 1];
      var before := Highest(tiers[..|tiers| - 1], from, to);
      if from < last.threshold <= to then Max(before, last.threshold) else before
  }

  method CollectAccumulationRewards(tiers: seq<Tier>, oldCount: int, targetCount: int)
    returns (items: seq<RewardItem>, highest: int)
    ensures items == Collected(tiers, oldCount, targetCount) && highest == Highest(tiers, oldCount, targetCount)
  {
    items, highest := [], 0;
    for i := 0 to |tiers|
      invariant items == Collected(tiers[..i], oldCount, targetCount)
      invariant highest == Highest(tiers[..i], oldCount, targetCount)
    {
      assert tiers[..i + 1][..i] == tiers[..i];
      if tiers[i].threshold > oldCount && tiers[i].threshold <= targetCount {
        items := items + tiers[i].rewards;
        if tiers[i].threshold > highest {
          highest := tiers[i].threshold;
        }
      }
    }
    assert tiers[..|tiers|] == tiers;
  }

  /** Above the highest threshold collected there is nothing left up to the target. */
  lemma {:induction false} NothingAboveHighest(tiers: seq<Tier>, from: int, to: int)
    requires from >= 0
    ensures var h := Highest(tiers, from, to);
      (h == 0 || (from < h <= to && exists t :: t in tiers && t.threshold == h)) &&
      forall t :: t in tiers && from < t.threshold <= to ==> t.threshold <= h
  {
    if tiers != [] {
      var n := |tiers| - 1;
      NothingAboveHighest(tiers[..n], from, to);
      assert tiers == tiers[..n] + [tiers[n]] && tiers[n] in tiers;
    }
  }

  /** What one request pays, and the count it leaves recorded. */
  function Received(tiers: seq<Tier>, claimed: int, target: int): (seq<RewardItem>, int) {
    var highest := Highest(tiers, claimed, target);
    if highest <= claimed then ([], claimed) else (Collected(tiers, claimed, target), highest)
  }

  /** The claim record of one labyrinth stage. */
  class StageRecord {
    const tiers: seq<Tier>
    var claimed: int

    constructor (tiers: seq<Tier>, claimed: int)
      ensures this.tiers == tiers && this.claimed == claimed
    {
      this.tiers, this.claimed := tiers, claimed;
    }

    method Receive(target: int) returns (items: seq<RewardItem>)
      modifies this
      ensures (items, claimed) == Received(tiers, old(claimed), target)
    {
      var highest;
      items, highest := CollectAccumulationRewards(tiers, claimed, target);
      if highest <= claimed {
        return [];
      }
      claimed := highest;
    }
  }

  /** The rewards of a run of requests, and the count recorded at its end. */
  function ReceivedAlong(tiers: seq<Tier>, claimed: int, targets: seq<int>): (seq<RewardItem>, int) {
    if targets == [] then ([], claimed)
    else
      var n := |targets| - 1;
      var before := ReceivedAlong(tiers, claimed, targets[..n]);
      var now := Received(tiers, before.1, targets[n]);
      (before.0 + now.0, now.1)
  }

  function MaxOf(first: int, s: seq<int>): int {
    if s == [] then first else Max(MaxOf(first, s[..|s| - 1]), s[|s| - 1])
  }

  /**
   * Whatever targets the client sends, in whatever order and however often,
   * everything paid is one collection up to the largest of them.
   */
  lemma {:induction false} RequestsPayOnce(tiers: seq<Tier>, claimed: int, targets: seq<int>)
    requires Sorted(tiers) && claimed >= 0
    ensures
      var run := ReceivedAlong(tiers, claimed, targets);
      run.0 == Collected(tiers, claimed, MaxOf(claimed, targets)) &&
      claimed <= run.1 <= MaxOf(claimed, targets) &&
      Collected(tiers, run.1, MaxOf(claimed, targets)) == [] &&
      forall t :: t in tiers && run.1 < t.threshold ==> t.threshold > MaxOf(claimed, targets)
  {
    if targets == [] {
      NothingCollected(tiers, claimed, claimed);
    } else {
      var n := |targets| - 1;
      var target := targets[n];
      RequestsPayOnce(tiers, claimed, targets[..n]);
      var before := ReceivedAlong(tiers, claimed, targets[..n]).1;
      var seen := MaxOf(claimed, targets[..n]);
      NothingAboveHighest(tiers, before, target);
      var highest := Highest(tiers, before, target);
      if highest <= before {
        NothingCollected(tiers, seen, Max(seen, target));
        NothingCollected(tiers, before, Max(seen, target));
        CollectedSplits(tiers, claimed, seen, Max(seen, target));
      } else {
        assert highest > seen && target > seen;
        CollectedSplits(tiers, claimed, seen, target);
        CollectedSplits(tiers, before, seen, target);
        NothingCollected(tiers, highest, target);
      }
    }
  }
}
