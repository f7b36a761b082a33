/** Clamping a level lands on the nearest supported standard level, whatever order the model
    lists its levels in, and never turns a larger budget into a lower level. */
module ThinkingLevels {
  import opened Text
  import opened ThinkingModel

  // ----- the standard levels -----

  lemma LowerIs(s: string)
    requires forall i :: 0 <= i < |s| ==> 'a' <= s[i] <= 'z'
    ensures ToLower(s) == s
  {
  }

  lemma StandardLevelsAreLower()
    ensures forall i :: 0 <= i < |StandardLevels| ==> ToLower(StandardLevels[i]) == StandardLevels[i]
    ensures ToLower(LevelNone) == LevelNone && ToLower(LevelAuto) == LevelAuto
  {
    forall i | 0 <= i < |StandardLevels| ensures ToLower(StandardLevels[i]) == StandardLevels[i] {
      LowerIs(StandardLevels[i]);
    }
    LowerIs(LevelNone);
    LowerIs(LevelAuto);
  }

  lemma {:induction false} LevelIndexFromHit(level: string, i: nat, k: nat)
    requires i <= k < |StandardLevels| && ToLower(level) == StandardLevels[k]
    ensures LevelIndexFrom(level, i) == k
    decreases k - i
  {
    StandardLevelsAreLower();
    if i < k {
      assert StandardLevels[i] != StandardLevels[k];
      LevelIndexFromHit(level, i + 1, k);
    }
  }

  /** A string has position k exactly when it folds to the k-th standard level. */
  lemma LevelIndexIs(level: string, k: nat)
    requires k < |StandardLevels|
    ensures LevelIndex(level) == k <==> ToLower(level) == StandardLevels[k]
  {
    StandardLevelsAreLower();
    if ToLower(level) == StandardLevels[k] { LevelIndexFromHit(level, 0, k); }
  }

  lemma NotStandard(level: string)
    ensures (forall k :: 0 <= k < |StandardLevels| ==> ToLower(level) != StandardLevels[k]) ==> LevelIndex(level) == -1
  {
    if LevelIndex(level) >= 0 { LevelIndexIs(level, LevelIndex(level)); }
  }

  lemma SamePosition(a: string, b: string)
    requires EqualFold(a, b)
    ensures LevelIndex(a) == LevelIndex(b)
  {
    if LevelIndex(a) >= 0 {
      LevelIndexIs(a, LevelIndex(a));
      LevelIndexIs(b, LevelIndex(a));
    } else if LevelIndex(b) >= 0 {
      LevelIndexIs(b, LevelIndex(b));
      LevelIndexIs(a, LevelIndex(b));
    }
  }

  lemma PositionOfStandard(k: nat)
    requires k < |StandardLevels|
    ensures LevelIndex(StandardLevels[k]) == k
  {
    StandardLevelsAreLower();
    LevelIndexIs(StandardLevels[k], k);
  }

  // ----- the nearest position -----

  /** The standard positions a model supports. */
  function Positions(levels: seq<string>): set<int> {
    set i | 0 <= i < |levels| && LevelIndex(Trim(levels[i])) >= 0 :: LevelIndex(Trim(levels[i]))
  }

  /** r is as close to pos as any supported position, and lower than any other that close. */
  ghost predicate IsNearest(pos: int, r: int, positions: set<int>) {
    r in positions && forall j :: j in positions && j != r ==> Better(pos, r, j)
  }

  lemma PositionsNext(levels: seq<string>, n: nat)
    requires n < |levels|
    ensures var i := LevelIndex(Trim(levels[n]));
      Positions(levels[..n + 1]) == Positions(levels[..n]) + if i >= 0 then {i} else {}
  {
    var all, i := Positions(levels[..n + 1]), LevelIndex(Trim(levels[n]));
    forall p | p in Positions(levels[..n]) + (if i >= 0 then {i} else {}) ensures p in all {
      if i >= 0 && p == i {
        assert levels[..n + 1][n] == levels[n];
      } else {
        var h :| 0 <= h < n && LevelIndex(Trim(levels[..n][h])) == p;
        assert levels[..n + 1][h] == levels[..n][h];
      }
    }
  }

  lemma NearestNext(pos: int, best: int, i: nat, positions: set<int>)
    requires if positions == {} then best == -1 else IsNearest(pos, best, positions) && best >= 0
    ensures IsNearest(pos, if Better(pos, i, best) then i else best, positions + {i})
  {
  }

  lemma {:induction false} NearestIs(pos: int, levels: seq<string>, n: nat)
    requires n <= |levels|
    ensures var r, positions := Nearest(pos, levels, n), Positions(levels[..n]);
      if positions == {} then r == -1 else IsNearest(pos, r, positions) && r >= 0
  {
    if n > 0 {
      var i := LevelIndex(Trim(levels[n - 1]));
      NearestIs(pos, levels, n - 1);
      PositionsNext(levels, n - 1);
      if i >= 0 { NearestNext(pos, Nearest(pos, levels, n - 1), i, Positions(levels[..n - 1])); }
    }
  }

  lemma NearestUnique(pos: int, a: int, b: int, positions: set<int>)
    requires IsNearest(pos, a, positions) && IsNearest(pos, b, positions) && forall j :: j in positions ==> 0 <= j
    ensures a == b
  {
  }

  /** The nearest position moves up with the position it is nearest to. */
  lemma NearestMonotone(p: int, q: int, a: int, b: int, positions: set<int>)
    requires p <= q && IsNearest(p, a, positions) && IsNearest(q, b, positions) && forall j :: j in positions ==> 0 <= j
    ensures a <= b
  {
  }

  // ----- clamping a level -----

  /** Where a standard level is clamped to: a listed level, as near as any other the model
      lists, and the lower one of two that are as near. */
  lemma ClampIsNearest(level: string, levels: seq<string>)
    requires LevelIndex(level) >= 0 && Positions(levels) != {}
    ensures Lists(levels, ClampedLevel(level, levels))
    ensures IsNearest(LevelIndex(level), LevelIndex(ClampedLevel(level, levels)), Positions(levels))
  {
    var pos, n := LevelIndex(level), |levels|;
    assert levels[..n] == levels;
    NearestIs(pos, levels, n);
    if Lists(levels, level) {
      var i :| 0 <= i < n && EqualFold(level, Trim(levels[i]));
      SamePosition(level, Trim(levels[i]));
    } else {
      var r := Nearest(pos, levels, n);
      var i :| 0 <= i < n && LevelIndex(Trim(levels[i])) == r;
      PositionOfStandard(r);
      StandardLevelsAreLower();
      LevelIndexIs(Trim(levels[i]), r);
      assert EqualFold(StandardLevels[r], Trim(levels[i]));
    }
  }

  /** A level is left alone when it is listed, or when there is nothing to clamp to. */
  lemma ClampLeavesAlone(level: string, levels: seq<string>)
    requires Lists(levels, level) || LevelIndex(level) == -1 || Positions(levels) == {}
    ensures ClampedLevel(level, levels) == level
  {
    assert levels[..|levels|] == levels;
    NearestIs(LevelIndex(level), levels, |levels|);
  }

  /** The order of the supported list, its spelling and its repetitions do not matter. */
  lemma ClampIgnoresOrder(level: string, a: seq<string>, b: seq<string>)
    requires Positions(a) == Positions(b) && LevelIndex(level) >= 0
    ensures LevelIndex(ClampedLevel(level, a)) == LevelIndex(ClampedLevel(level, b))
  {
    if Positions(a) == {} {
      ClampLeavesAlone(level, a);
      ClampLeavesAlone(level, b);
    } else {
      ClampIsNearest(level, a);
      ClampIsNearest(level, b);
      NearestUnique(LevelIndex(level), LevelIndex(ClampedLevel(level, a)), LevelIndex(ClampedLevel(level, b)),
                    Positions(a));
    }
  }

  lemma ClampMonotone(low: string, high: string, levels: seq<string>)
    requires 0 <= LevelIndex(low) <= LevelIndex(high)
    ensures LevelIndex(ClampedLevel(low, levels)) <= LevelIndex(ClampedLevel(high, levels))
  {
    if Positions(levels) == {} {
      ClampLeavesAlone(low, levels);
      ClampLeavesAlone(high, levels);
    } else {
      ClampIsNearest(low, levels);
      ClampIsNearest(high, levels);
      NearestMonotone(LevelIndex(low), LevelIndex(high), LevelIndex(ClampedLevel(low, levels)),
                      LevelIndex(ClampedLevel(high, levels)), Positions(levels));
    }
  }

  /** A larger budget never ends on a lower level. */
  lemma BudgetsClampMonotonically(small: int, large: int, levels: seq<string>)
    requires 0 < small <= large
    ensures var l, h := BudgetToLevel(small), BudgetToLevel(large);
      && l.Some? && h.Some?
      && LevelIndex(ClampedLevel(l.value, levels)) <= LevelIndex(ClampedLevel(h.value, levels))
  {
    PositionOfStandard(BudgetIndex(small));
    PositionOfStandard(BudgetIndex(large));
    ClampMonotone(BudgetToLevel(small).value, BudgetToLevel(large).value, levels);
  }

  /** Budget to level and back gives a budget that stands for the same level; a level's own
      budget gives that level, except that the highest level has no budgets of its own. */
  lemma LevelRoundTrip(k: nat)
    requires k < |StandardLevels|
    ensures LevelToBudget(StandardLevels[k]) == Some(StandardBudgets[k])
    ensures BudgetToLevel(StandardBudgets[k]) == Some(StandardLevels[k]) <==> k < |StandardLevels| - 1
  {
    StandardLevelsAreLower();
    PositionOfStandard(k);
  }

  /** A level's budget is at least any budget that maps to the level, short of the top. */
  lemma BudgetRoundTrip(budget: int)
    requires 0 < budget <= 32768
    ensures var level := BudgetToLevel(budget);
      level.Some? && LevelToBudget(level.value).Some? && budget <= LevelToBudget(level.value).value
      && BudgetToLevel(LevelToBudget(level.value).value) == level
  {
    LevelRoundTrip(BudgetIndex(budget));
  }
}
