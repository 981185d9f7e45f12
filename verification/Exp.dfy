/** Levels from cumulative experience (internal/gameutil/exp.go). */
module Exp {
  import opened Common

  /** The level the scan from `level` ends at: it stops at the first threshold not reached. */
  function ScanLevel(exp: int, thresholds: seq<int>, level: nat): nat
    decreases |thresholds| - level
  {
    if level + 1 < |thresholds| && exp >= thresholds[level + 1] then ScanLevel(exp, thresholds, level + 1) else level
  }

  /** Threshold 0 is never tested: level 1 is the floor, and is kept when threshold 1 is not reached. */
  function LevelFor(exp: int, thresholds: seq<int>): nat {
    Max(1, ScanLevel(exp, thresholds, 0))
  }

  function CapExp(exp: int, thresholds: seq<int>): int {
    if thresholds != [] && exp > thresholds[|thresholds| - 1] then thresholds[|thresholds| - 1] else exp
  }

  method LevelAndCap(exp: int, thresholds: seq<int>) returns (level: int, capped: int)
    ensures level == LevelFor(exp, thresholds) && capped == CapExp(exp, thresholds)
  {
    level, capped := 1, exp;
    var lvl := 1;
    while lvl < |thresholds|
      invariant 1 <= lvl && (lvl <= |thresholds| || lvl == 1)
      invariant level == Max(1, lvl - 1)
      invariant ScanLevel(exp, thresholds, lvl - 1) == ScanLevel(exp, thresholds, 0)
    {
      if exp >= thresholds[lvl] {
        level := lvl;
      } else {
        break;
      }
      lvl := lvl + 1;
    }
    if |thresholds| > 0 && exp > thresholds[|thresholds| - 1] {
      capped := thresholds[|thresholds| - 1];
    }
  }

  /** Level and experience under a per-instance cap; a cap of 0 or less is no cap. */
  function Applied(exp: int, thresholds: seq<int>, maxLevel: int): (int, int) {
    var level := LevelFor(exp, thresholds);
    if 0 < maxLevel < level && maxLevel < |thresholds|
    then (maxLevel, thresholds[maxLevel])
    else (level, CapExp(exp, thresholds))
  }

  method ApplyExpWithMaxLevel(exp: int, thresholds: seq<int>, maxLevel: int) returns (level: int, capped: int)
    ensures (level, capped) == Applied(exp, thresholds, maxLevel)
  {
    level, capped := LevelAndCap(exp, thresholds);
    if maxLevel > 0 && level > maxLevel && maxLevel < |thresholds| {
      level := maxLevel;
      capped := thresholds[maxLevel];
    }
  }

  lemma {:induction false} ScanStops(exp: int, thresholds: seq<int>, level: nat)
    ensures var l := ScanLevel(exp, thresholds, level);
      level <= l && (l == level || l < |thresholds|) &&
      (forall k :: level < k <= l ==> exp >= thresholds[k]) &&
      (l + 1 < |thresholds| ==> exp < thresholds[l + 1])
    decreases |thresholds| - level
  {
    if level + 1 < |thresholds| && exp >= thresholds[level + 1] {
      ScanStops(exp, thresholds, level + 1);
    }
  }

  /** The level is the greatest one whose threshold is reached, else 1. */
  lemma GreatestReached(exp: int, thresholds: seq<int>, level: nat)
    requires NonDecreasing(thresholds)
    ensures level == LevelFor(exp, thresholds) <==>
      level >= 1 && (level == 1 || (level < |thresholds| && exp >= thresholds[level])) &&
      forall k :: level < k < |thresholds| ==> exp < thresholds[k]
  {
    ScanStops(exp, thresholds, 0);
    var l := ScanLevel(exp, thresholds, 0);
    forall k | l < k < |thresholds| ensures exp < thresholds[k] {
      assert thresholds[l + 1] <= thresholds[k];
    }
    if 1 <= level < l { assert exp >= thresholds[l]; }
  }

  lemma LevelMonotone(a: int, b: int, thresholds: seq<int>)
    requires NonDecreasing(thresholds) && a <= b
    ensures LevelFor(a, thresholds) <= LevelFor(b, thresholds)
    ensures CapExp(a, thresholds) <= CapExp(b, thresholds)
  {
    GreatestReached(a, thresholds, LevelFor(a, thresholds));
    GreatestReached(b, thresholds, LevelFor(b, thresholds));
  }

  /** Storing the capped experience and computing again gives the same level. */
  lemma CappedExpKeepsLevel(exp: int, thresholds: seq<int>)
    requires NonDecreasing(thresholds)
    ensures LevelFor(CapExp(exp, thresholds), thresholds) == LevelFor(exp, thresholds)
    ensures CapExp(CapExp(exp, thresholds), thresholds) == CapExp(exp, thresholds)
  {
    GreatestReached(exp, thresholds, LevelFor(exp, thresholds));
    GreatestReached(CapExp(exp, thresholds), thresholds, LevelFor(exp, thresholds));
  }

  /** A positive cap is never exceeded, and applying it to its own result changes nothing. */
  lemma AppliedIsCappedAndIdempotent(exp: int, thresholds: seq<int>, maxLevel: int)
    requires NonDecreasing(thresholds)
    ensures maxLevel > 0 ==> Applied(exp, thresholds, maxLevel).0 <= maxLevel
    ensures Applied(Applied(exp, thresholds, maxLevel).1, thresholds, maxLevel) == Applied(exp, thresholds, maxLevel)
  {
    var (level, capped) := Applied(exp, thresholds, maxLevel);
    CappedExpKeepsLevel(exp, thresholds);
    ScanStops(exp, thresholds, 0);
    GreatestReached(capped, thresholds, LevelFor(capped, thresholds));
    if 0 < maxLevel < LevelFor(exp, thresholds) && maxLevel < |thresholds| {
      assert capped == thresholds[maxLevel] <= thresholds[|thresholds| - 1];
    }
  }

  /** Level and experience the mass upgrade stores for a weapon or costume capped at `cap`. */
  function MassLevel(thresholds: seq<int>, cap: int): (int, int)
    requires thresholds != [] && cap > 0
  {
    var exp := if cap < |thresholds| then thresholds[cap] else thresholds[|thresholds| - 1];
    (Min(LevelFor(exp, thresholds), cap), CapExp(exp, thresholds))
  }

  /** The mass upgrade stores what the server computes from the maximal experience under the same cap. */
  lemma MassLevelIsServerLevel(thresholds: seq<int>, cap: int)
    requires thresholds != [] && cap > 0 && NonDecreasing(thresholds)
    ensures MassLevel(thresholds, cap) == Applied(thresholds[|thresholds| - 1], thresholds, cap)
  {
    var last := thresholds[|thresholds| - 1];
    GreatestReached(last, thresholds, LevelFor(last, thresholds));
    if |thresholds| > 1 {
      GreatestReached(last, thresholds, |thresholds| - 1);
    }
    if cap < |thresholds| {
      var level := LevelFor(thresholds[cap], thresholds);
      GreatestReached(thresholds[cap], thresholds, level);
      assert level >= cap;
    }
  }
}
