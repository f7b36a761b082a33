/** Validation as the code runs it, step by step on local variables. */
module Thinking {
  import opened Text
  import opened ThinkingModel

  method IsLevelSupported(level: string, supported: seq<string>) returns (found: bool)
    ensures found == Lists(supported, level)
  {
    for i := 0 to |supported|
      invariant forall h :: 0 <= h < i ==> !EqualFold(level, Trim(supported[h]))
    {
      if EqualFold(level, Trim(supported[i])) {
        return true;
      }
    }
    found := false;
  }

  method IndexOfLevel(level: string) returns (r: int)
    ensures r == LevelIndex(level)
  {
    for i := 0 to |StandardLevels|
      invariant LevelIndex(level) == LevelIndexFrom(level, i)
    {
      if EqualFold(level, StandardLevels[i]) {
        return i;
      }
    }
    r := -1;
  }

  /** The nearest supported level; on a tie the lower one. */
  method ClampLevel(level: string, supported: seq<string>) returns (r: string)
    ensures r == ClampedLevel(level, supported)
  {
    var listed := IsLevelSupported(level, supported);
    if |supported| == 0 || listed {
      return level;
    }
    var pos := IndexOfLevel(level);
    if pos == -1 {
      return level;
    }
    var bestIdx, bestDist := -1, |StandardLevels| + 1;
    for i := 0 to |supported|
      invariant bestIdx == Nearest(pos, supported, i)
      invariant bestDist == if bestIdx == -1 then |StandardLevels| + 1 else Abs(pos - bestIdx)
    {
      var idx := IndexOfLevel(Trim(supported[i]));
      if idx != -1 {
        var dist := Abs(pos - idx);
        if dist < bestDist || (dist == bestDist && idx < bestIdx) {
          bestIdx, bestDist := idx, dist;
        }
      }
    }
    if bestIdx >= 0 {
      return StandardLevels[bestIdx];
    }
    r := level;
  }

  method ConvertAutoToMidRange(config: Config, support: Support) returns (r: Config)
    ensures r == MidRange(config, support)
  {
    r := config;
    if |support.levels| > 0 && support.min == 0 && support.max == 0 {
      return r.(mode := ModeLevel, level := LevelMedium, budget := 0);
    }
    var mid := Half(support.min + support.max);
    if mid <= 0 && support.zeroAllowed {
      r := r.(mode := ModeNone, budget := 0);
    } else if mid <= 0 {
      r := r.(mode := ModeBudget, budget := support.min);
    } else {
      r := r.(mode := ModeBudget, budget := mid);
    }
  }

  method ValidateConfig(original: Config, support: Option<Support>, fromFormat: string, toFormat: string,
                        fromSuffix: bool)
    returns (r: Outcome)
    ensures r == Validate(original, support, fromFormat, toFormat, fromSuffix)
  {
    if support.None? {
      return if original.mode != ModeNone then Failure(ThinkingNotSupported) else Success(original);
    }
    var s := support.value;
    var from, to := ToLower(Trim(fromFormat)), ToLower(Trim(toFormat));
    var capability := CapabilityOf(s);
    var allowClampUnsupported := (capability == LevelOnly || capability == Hybrid) && !SameFamily(from, to);
    var strictBudget := !fromSuffix && from != "" && SameFamily(from, to);
    r := ValidateByRules(original, s, Rules(to == "claude", allowClampUnsupported, strictBudget));
  }

  /** ValidateConfig once the formats are looked at. */
  method ValidateByRules(original: Config, s: Support, rules: Rules) returns (r: Outcome)
    ensures r == Validated(original, s, rules)
  {
    var converted, budgetDerivedFromLevel := ConvertForCapability(original, s);
    if converted.Failure? {
      return converted;
    }
    var config := FoldSpecialValues(converted.config);
    var checked := CheckLevel(config, s, rules.clampLevels);
    if checked.Failure? {
      return checked;
    }
    config := checked.config;
    if rules.strictBudget && config.mode == ModeBudget && !budgetDerivedFromLevel {
      if s.min != 0 || s.max != 0 {
        if config.budget < s.min || config.budget > s.max || (config.budget == 0 && !s.zeroAllowed) {
          return Failure(BudgetOutOfRange);
        }
      }
    }
    if config.mode == ModeAuto && !s.dynamicAllowed {
      config := ConvertAutoToMidRange(config, s);
    }
    config := ClampConfig(config, s, rules.claude);
    r := Success(config);
  }

  method ConvertForCapability(original: Config, s: Support) returns (r: Outcome, budgetDerivedFromLevel: bool)
    ensures r == Converted(original, s) && budgetDerivedFromLevel == LevelBecomesBudget(original, s)
  {
    var config := original;
    budgetDerivedFromLevel := false;
    match CapabilityOf(s) {
    case BudgetOnly =>
      if config.mode == ModeLevel && config.level != LevelAuto {
        var budget := LevelToBudget(config.level);
        budgetDerivedFromLevel := true;
        if budget.None? {
          r := Failure(UnknownLevel);
          return;
        }
        config := Config(ModeBudget, budget.value, "");
      }
    case LevelOnly =>
      if config.mode == ModeBudget {
        var level := BudgetToLevel(config.budget);
        if level.None? {
          r := Failure(UnknownLevel);
          return;
        }
        var clamped := ClampLevel(level.value, s.levels);
        config := Config(ModeLevel, 0, clamped);
      }
    case _ =>
    }
    r := Success(config);
  }

  method FoldSpecialValues(original: Config) returns (config: Config)
    ensures config == Folded(original)
  {
    config := original;
    if config.mode == ModeLevel && config.level == LevelNone {
      config := Config(ModeNone, 0, "");
    }
    if config.mode == ModeLevel && config.level == LevelAuto {
      config := Config(ModeAuto, -1, "");
    }
    if config.mode == ModeBudget && config.budget == 0 {
      config := config.(mode := ModeNone, level := "");
    }
  }

  method ClampConfig(original: Config, s: Support, claude: bool) returns (config: Config)
    ensures config == Finished(original, s, claude)
  {
    config := original;
    if config.mode == ModeNone && claude {
      config := config.(budget := 0, level := "");
    } else {
      if config.mode != ModeLevel {
        config := config.(budget := ClampedBudget(config.budget, s));
      }
      if config.mode == ModeNone && config.budget > 0 && |s.levels| > 0 {
        config := config.(level := s.levels[0]);
      }
    }
  }

  /** The level check of ValidateConfig. */
  method CheckLevel(original: Config, s: Support, clamp: bool) returns (r: Outcome)
    ensures r == LevelChecked(original, s, clamp)
  {
    var config := original;
    if |s.levels| > 0 && config.mode == ModeLevel {
      var listed := IsLevelSupported(config.level, s.levels);
      if !listed {
        if clamp {
          var level := ClampLevel(config.level, s.levels);
          config := config.(level := level);
        }
        listed := IsLevelSupported(config.level, s.levels);
        if !listed {
          return Failure(LevelNotSupported);
        }
      }
    }
    r := Success(config);
  }
}
