/** What validation promises about a configuration it lets through, when it refuses one, and
    when validating a second time changes nothing. */
module ThinkingProofs {
  import opened Text
  import opened ThinkingModel
  import opened ThinkingLevels

  /** Support as the model tables describe it: a budget range, levels or both, and a positive
      minimum unless thinking can be switched off. */
  predicate WellFormed(s: Support) {
    && 0 <= s.min <= s.max && (s.max > 0 || s.levels != [])
    && (s.max > 0 ==> s.zeroAllowed || s.min > 0)
  }

  /** A configuration as its type documents it. */
  predicate Documented(c: Config) {
    match c.mode
    case ModeBudget => c.budget > 0
    case ModeLevel => c.level == LevelNone || c.level == LevelAuto || c.level in StandardLevels
    case ModeNone => c.budget == 0
    case ModeAuto => c.budget == -1
  }

  /** What the model accepts. */
  predicate InRange(r: Config, s: Support) {
    match r.mode
    case ModeBudget => s.min <= r.budget <= s.max
    case ModeLevel => Lists(s.levels, r.level)
    case ModeNone => r.budget == 0 || r.budget == s.min
    case ModeAuto => s.dynamicAllowed && r.budget == -1
  }

  // ----- leaving the range -----

  /** "auto" spelled otherwise on a budget-only model: it is taken for a level and becomes budget -1. */
  predicate MisspelledAuto(c: Config, s: Support) {
    c.mode == ModeLevel && s.levels == [] && c.level != LevelAuto && ToLower(c.level) == LevelAuto
  }

  /** Auto on a level-only model that knows neither dynamic thinking nor "medium". */
  predicate AutoWithoutMedium(c: Config, s: Support) {
    && s.max == 0 && !s.dynamicAllowed && !Lists(s.levels, LevelMedium)
    && (c.mode == ModeAuto || (c.mode == ModeLevel && c.level == LevelAuto) || (c.mode == ModeBudget && c.budget == -1))
  }

  /** A disabled configuration whose budget survives clamping. */
  predicate DisabledWithBudget(c: Config, s: Support, rules: Rules) {
    && c.mode == ModeNone && !rules.claude && c.budget != 0
    && (s.max == 0 || c.budget == -1 || (c.budget > s.min && s.min < s.max))
  }

  predicate Escapes(c: Config, s: Support, rules: Rules) {
    || (c.mode == ModeBudget && c.budget == -1 && s.max > 0)
    || MisspelledAuto(c, s)
    || AutoWithoutMedium(c, s)
    || (c.mode == ModeAuto && s.dynamicAllowed && c.budget != -1)
    || DisabledWithBudget(c, s, rules)
  }

  lemma BudgetOfLevel(level: string)
    ensures LevelToBudget(level) == Some(-1) <==> ToLower(level) == LevelAuto
    ensures LevelToBudget(level) == Some(0) <==> ToLower(level) == LevelNone
    ensures LevelToBudget(level).Some? ==> LevelToBudget(level).value >= -1
    ensures ToLower(LevelNone) == LevelNone && ToLower(LevelAuto) == LevelAuto
  {
    StandardLevelsAreLower();
  }

  lemma MediumIsOrdinary()
    ensures LevelMedium != LevelNone && LevelMedium != LevelAuto
  {
  }

  /** Clamping never makes a special value of a level. */
  lemma ClampedIsOrdinary(level: string, levels: seq<string>)
    requires level != LevelNone && level != LevelAuto
    ensures ClampedLevel(level, levels) != LevelNone && ClampedLevel(level, levels) != LevelAuto
  {
  }

  lemma SpecialLevelsStay(levels: seq<string>)
    ensures ClampedLevel(LevelNone, levels) == LevelNone && ClampedLevel(LevelAuto, levels) == LevelAuto
  {
    StandardLevelsAreLower();
    NotStandard(LevelNone);
    NotStandard(LevelAuto);
  }

  /** The outcome for a level-only model, where every budget becomes a level. */
  lemma LevelOnlyBudget(c: Config, s: Support, rules: Rules)
    requires WellFormed(s) && s.max == 0 && c.mode == ModeBudget
    ensures Converted(c, s) ==
      if c.budget < -1 then Failure(UnknownLevel)
      else Success(Config(ModeLevel, 0, ClampedLevel(BudgetToLevel(c.budget).value, s.levels)))
    ensures c.budget == -1 ==> Validated(c, s, rules) == Validated(Config(ModeAuto, -1, ""), s, rules)
    ensures c.budget == 0 ==> Validated(c, s, rules) == Validated(Config(ModeNone, 0, ""), s, rules)
    ensures c.budget > 0 ==> var l := ClampedLevel(BudgetToLevel(c.budget).value, s.levels);
      l != LevelNone && l != LevelAuto && Validated(c, s, rules) == Validated(Config(ModeLevel, 0, l), s, rules)
  {
    SpecialLevelsStay(s.levels);
    if c.budget > 0 { ClampedIsOrdinary(BudgetToLevel(c.budget).value, s.levels); }
  }

  lemma RangeOfMode(c: Config, s: Support, rules: Rules, r: Config)
    requires WellFormed(s) && Validated(c, s, rules) == Success(r) && c.mode != ModeLevel
    requires c.mode == ModeBudget ==> s.max > 0
    ensures InRange(r, s) <==> !Escapes(c, s, rules)
  {
  }

  lemma RangeOfLevel(c: Config, s: Support, rules: Rules, r: Config)
    requires WellFormed(s) && Validated(c, s, rules) == Success(r) && c.mode == ModeLevel
    ensures InRange(r, s) <==> !Escapes(c, s, rules)
  {
    BudgetOfLevel(c.level);
  }

  /** Exactly these inputs leave the range the model accepts. */
  lemma InRangeIff(c: Config, s: Support, rules: Rules, r: Config)
    requires WellFormed(s) && Validated(c, s, rules) == Success(r)
    ensures InRange(r, s) <==> !Escapes(c, s, rules)
  {
    if c.mode == ModeLevel {
      RangeOfLevel(c, s, rules, r);
    } else if c.mode == ModeBudget && s.max == 0 {
      LevelOnlyBudget(c, s, rules);
      if c.budget == -1 {
        RangeOfMode(Config(ModeAuto, -1, ""), s, rules, r);
      } else if c.budget == 0 {
        RangeOfMode(Config(ModeNone, 0, ""), s, rules, r);
      } else {
        RangeOfLevel(Config(ModeLevel, 0, ClampedLevel(BudgetToLevel(c.budget).value, s.levels)), s, rules, r);
      }
    } else {
      RangeOfMode(c, s, rules, r);
    }
  }

  /** A documented configuration that is let through is one the model accepts, except for auto
      on a level-only model that knows neither dynamic thinking nor "medium". */
  lemma DocumentedInRange(c: Config, s: Support, rules: Rules, r: Config)
    requires WellFormed(s) && Documented(c) && Validated(c, s, rules) == Success(r)
    ensures InRange(r, s) <==> !AutoWithoutMedium(c, s)
  {
    InRangeIff(c, s, rules, r);
    if c.mode == ModeLevel {
      StandardLevelsAreLower();
      if c.level in StandardLevels {
        var i :| 0 <= i < |StandardLevels| && StandardLevels[i] == c.level;
        assert StandardLevels[i] != LevelAuto;
      }
    }
  }

  // ----- where a budget lands -----

  /** A budget is clamped to the nearest one in the range, unless it means off or auto. */
  lemma ClampedBudgetIsNearest(value: int, s: Support, b: int)
    requires WellFormed(s) && s.max > 0 && value != -1 && !(value == 0 && s.zeroAllowed) && s.min <= b <= s.max
    ensures s.min <= ClampedBudget(value, s) <= s.max && Abs(value - ClampedBudget(value, s)) <= Abs(value - b)
  {
  }

  /** A larger positive budget never ends smaller. */
  lemma BudgetsValidateMonotonically(small: int, large: int, s: Support, rules: Rules, r: Config, q: Config)
    requires WellFormed(s) && s.max > 0 && 0 < small <= large
    requires Validated(Config(ModeBudget, small, ""), s, rules) == Success(r)
    requires Validated(Config(ModeBudget, large, ""), s, rules) == Success(q)
    ensures r.mode == q.mode == ModeBudget && r.budget <= q.budget
  {
  }

  /** Without dynamic thinking auto becomes the middle of the range, rounded down, or off when
      that is nothing. */
  lemma AutoIsMiddle(s: Support, rules: Rules)
    requires WellFormed(s) && s.max > 0 && !s.dynamicAllowed
    ensures var r := Validated(Config(ModeAuto, -1, ""), s, rules);
      && r.Success?
      && (if s.min + s.max < 2 then r.config.mode == ModeNone && r.config.budget == 0
          else r.config.mode == ModeBudget && s.min + s.max - 1 <= 2 * r.config.budget <= s.min + s.max)
  {
  }

  // ----- inputs that leave the range -----

  const BudgetModel := Support(1024, 8192, false, false, [])
  const LevelModel := Support(0, 0, false, false, ["low", "high"])
  const AnyRules := Rules(false, false, false)

  /** "AUTO" on a budget-only model comes out as a budget of -1. */
  lemma CapitalAutoEscapes()
    ensures Validated(Config(ModeLevel, 0, "AUTO"), BudgetModel, AnyRules) == Success(Config(ModeBudget, -1, ""))
    ensures !InRange(Config(ModeBudget, -1, ""), BudgetModel)
  {
    assert ToLower("AUTO") == LevelAuto;
  }

  /** Auto on a model listing low and high comes out as medium, which validation itself refuses. */
  lemma AutoBecomesUnlistedMedium()
    ensures Validated(Config(ModeAuto, -1, ""), LevelModel, AnyRules) == Success(Config(ModeLevel, 0, LevelMedium))
    ensures !InRange(Config(ModeLevel, 0, LevelMedium), LevelModel)
    ensures Validated(Config(ModeLevel, 0, LevelMedium), LevelModel, AnyRules) == Failure(LevelNotSupported)
  {
    TrimIsTrimmed("low");
    TrimIsTrimmed("high");
    assert ToLower("low")[0] == 'l' && ToLower("high")[0] == 'h' && ToLower(LevelMedium)[0] == 'm';
  }

  /** A budget of -5 on a model that starts at zero settles only the second time. */
  lemma NegativeBudgetSettlesTwice()
    ensures var s, c := Support(0, 8192, true, false, []), Config(ModeBudget, -5, "");
      && Validated(c, s, AnyRules) == Success(Config(ModeBudget, 0, ""))
      && Validated(Config(ModeBudget, 0, ""), s, AnyRules) == Success(Config(ModeNone, 0, ""))
  {
  }

  // ----- fixpoints -----

  /** The configurations validation leaves as they are. */
  predicate Settled(r: Config, s: Support, rules: Rules) {
    match r.mode
    case ModeBudget =>
      s.max > 0 && r.budget != 0 && ((r.budget == -1 && !rules.strictBudget) || s.min <= r.budget <= s.max)
    case ModeLevel => r.level != LevelNone && r.level != LevelAuto && Lists(s.levels, r.level)
    case ModeNone =>
      if rules.claude then r.budget == 0 && r.level == ""
      else ClampedBudget(r.budget, s) == r.budget && (r.budget > 0 && s.levels != [] ==> r.level == s.levels[0])
    case ModeAuto => s.dynamicAllowed && ClampedBudget(r.budget, s) == r.budget
  }

  lemma LevelFixpoint(r: Config, s: Support, rules: Rules)
    requires WellFormed(s) && r.mode == ModeLevel
    ensures Validated(r, s, rules) == Success(r) <==> Settled(r, s, rules)
  {
  }

  lemma BudgetFixpoint(r: Config, s: Support, rules: Rules)
    requires WellFormed(s) && r.mode == ModeBudget
    ensures Validated(r, s, rules) == Success(r) <==> Settled(r, s, rules)
  {
  }

  lemma FixpointIff(r: Config, s: Support, rules: Rules)
    requires WellFormed(s)
    ensures Validated(r, s, rules) == Success(r) <==> Settled(r, s, rules)
  {
    match r.mode
    case ModeLevel => LevelFixpoint(r, s, rules);
    case ModeBudget => BudgetFixpoint(r, s, rules);
    case _ =>
  }

  /** Results a second validation would change or refuse: a budget below -1 clamped to zero, a
      budget of -1 that only its origin as a level let through, and the unlisted "medium". */
  predicate Drifts(c: Config, s: Support, rules: Rules) {
    || (c.mode == ModeBudget && c.budget < -1 && s.min == 0 && s.max > 0)
    || (rules.strictBudget && MisspelledAuto(c, s))
    || AutoWithoutMedium(c, s)
  }

  lemma SettledMode(c: Config, s: Support, rules: Rules, r: Config)
    requires WellFormed(s) && Validated(c, s, rules) == Success(r) && c.mode != ModeLevel
    requires c.mode == ModeBudget ==> s.max > 0
    ensures Settled(r, s, rules) <==> !Drifts(c, s, rules)
  {
    MediumIsOrdinary();
  }

  lemma SettledLevel(c: Config, s: Support, rules: Rules, r: Config)
    requires WellFormed(s) && Validated(c, s, rules) == Success(r) && c.mode == ModeLevel
    ensures Settled(r, s, rules) <==> !Drifts(c, s, rules)
  {
    MediumIsOrdinary();
    BudgetOfLevel(c.level);
    if c.level != LevelNone && c.level != LevelAuto { ClampedIsOrdinary(c.level, s.levels); }
  }

  /** Validating the result again gives the same result, with exactly these exceptions. */
  lemma RevalidationIff(c: Config, s: Support, rules: Rules, r: Config)
    requires WellFormed(s) && Validated(c, s, rules) == Success(r)
    ensures Validated(r, s, rules) == Success(r) <==> !Drifts(c, s, rules)
  {
    FixpointIff(r, s, rules);
    if c.mode == ModeLevel {
      SettledLevel(c, s, rules, r);
    } else if c.mode == ModeBudget && s.max == 0 {
      LevelOnlyBudget(c, s, rules);
      if c.budget == -1 {
        SettledMode(Config(ModeAuto, -1, ""), s, rules, r);
      } else if c.budget == 0 {
        SettledMode(Config(ModeNone, 0, ""), s, rules, r);
      } else {
        SettledLevel(Config(ModeLevel, 0, ClampedLevel(BudgetToLevel(c.budget).value, s.levels)), s, rules, r);
      }
    } else {
      SettledMode(c, s, rules, r);
    }
  }

  // ----- refusals -----

  /** A level that is neither special, nor listed, nor to be clamped to a listed one. */
  predicate LevelUnusable(level: string, s: Support, clamp: bool) {
    && s.levels != [] && level != LevelNone && level != LevelAuto && !Lists(s.levels, level)
    && !(clamp && LevelIndex(level) >= 0 && Positions(s.levels) != {})
  }

  predicate UnknownLevelIn(c: Config, s: Support) {
    || (c.mode == ModeLevel && s.levels == [] && LevelToBudget(c.level).None?)
    || (c.mode == ModeBudget && s.max == 0 && c.budget < -1)
  }

  predicate LevelRefused(c: Config, s: Support, rules: Rules) {
    || (c.mode == ModeLevel && LevelUnusable(c.level, s, rules.clampLevels))
    || (c.mode == ModeBudget && s.max == 0 && c.budget > 0 && Positions(s.levels) == {})
  }

  predicate BudgetRefused(c: Config, s: Support, rules: Rules) {
    rules.strictBudget && c.mode == ModeBudget && s.max > 0 && c.budget != 0 && (c.budget < s.min || c.budget > s.max)
  }

  lemma UnusableIff(level: string, s: Support, rules: Rules)
    requires WellFormed(s) && s.levels != [] && level != LevelNone && level != LevelAuto
    ensures LevelUnusable(level, s, rules.clampLevels) <==>
      LevelChecked(Config(ModeLevel, 0, level), s, rules.clampLevels) == Failure(LevelNotSupported)
  {
    if !Lists(s.levels, level) {
      if LevelIndex(level) >= 0 && Positions(s.levels) != {} {
        ClampIsNearest(level, s.levels);
      } else {
        ClampLeavesAlone(level, s.levels);
      }
    }
  }

  lemma CheckIgnoresBudget(c: Config, s: Support, clamp: bool)
    requires c.mode == ModeLevel
    ensures LevelChecked(c, s, clamp).Failure? <==> LevelChecked(Config(ModeLevel, 0, c.level), s, clamp).Failure?
  {
  }

  lemma RefusedLevel(c: Config, s: Support, rules: Rules)
    requires WellFormed(s) && c.mode == ModeLevel
    ensures UnknownLevelIn(c, s) ==> Validated(c, s, rules) == Failure(UnknownLevel)
    ensures LevelRefused(c, s, rules) ==> Validated(c, s, rules) == Failure(LevelNotSupported)
    ensures Validated(c, s, rules).Failure? ==> UnknownLevelIn(c, s) || LevelRefused(c, s, rules)
  {
    BudgetOfLevel(c.level);
    if s.levels != [] && c.level != LevelNone && c.level != LevelAuto {
      UnusableIff(c.level, s, rules);
      CheckIgnoresBudget(c, s, rules.clampLevels);
    }
  }

  lemma ListedHasPosition(level: string, levels: seq<string>)
    ensures Lists(levels, level) && LevelIndex(level) >= 0 ==> LevelIndex(level) in Positions(levels)
  {
    if Lists(levels, level) {
      var i :| 0 <= i < |levels| && EqualFold(level, Trim(levels[i]));
      SamePosition(level, Trim(levels[i]));
    }
  }

  lemma RefusedBudget(c: Config, s: Support, rules: Rules)
    requires WellFormed(s) && c.mode == ModeBudget && s.max == 0 && c.budget > 0
    ensures Validated(c, s, rules) == Failure(LevelNotSupported) <==> Positions(s.levels) == {}
    ensures Validated(c, s, rules).Failure? ==> Positions(s.levels) == {}
  {
    var level := BudgetToLevel(c.budget).value;
    LevelOnlyBudget(c, s, rules);
    PositionOfStandard(BudgetIndex(c.budget));
    if Positions(s.levels) == {} {
      ClampLeavesAlone(level, s.levels);
      UnusableIff(level, s, rules);
      ListedHasPosition(level, s.levels);
    } else {
      ClampIsNearest(level, s.levels);
    }
  }

  /** A budget's range is checked only when the rules are strict, whatever the support. */
  lemma RangeOnlyWhenStrict(c: Config, s: Support, rules: Rules)
    ensures Validated(c, s, rules) == Failure(BudgetOutOfRange) ==>
      rules.strictBudget && c.mode == ModeBudget && (c.budget < s.min || c.budget > s.max)
  {
    var converted := Converted(c, s);
    if converted.Success? {
      assert LevelChecked(Folded(converted.config), s, rules.clampLevels) != Failure(BudgetOutOfRange);
    }
  }

  /** Exactly these configurations are refused, with these errors. */
  lemma RefusedIff(c: Config, s: Support, rules: Rules)
    requires WellFormed(s)
    ensures Validated(c, s, rules) == Failure(UnknownLevel) <==> UnknownLevelIn(c, s)
    ensures Validated(c, s, rules) == Failure(LevelNotSupported) <==> LevelRefused(c, s, rules)
    ensures Validated(c, s, rules) == Failure(BudgetOutOfRange) <==> BudgetRefused(c, s, rules)
    ensures Validated(c, s, rules) != Failure(ThinkingNotSupported)
  {
    if c.mode == ModeLevel {
      RefusedLevel(c, s, rules);
    } else if c.mode == ModeBudget && s.max == 0 {
      LevelOnlyBudget(c, s, rules);
      if c.budget > 0 { RefusedBudget(c, s, rules); }
    }
  }
}
