/** Validation said of the formats of a request and of level names, as callers write them. */
module ThinkingFormats {
  import opened Text
  import opened ThinkingModel
  import opened ThinkingLevels
  import opened ThinkingProofs

  // ----- names -----

  function Name(format: string): string {
    ToLower(Trim(format))
  }

  /** Formats of one provider, or of the Gemini or the OpenAI family. */
  predicate OneFamily(from: string, to: string) {
    || Name(from) == Name(to)
    || {Name(from), Name(to)} <= {"gemini", "gemini-cli", "antigravity"}
    || {Name(from), Name(to)} <= {"openai", "openai-response", "codex"}
  }

  /** A level name of the standard order, in any case. */
  predicate Standard(level: string) {
    ToLower(level) in {"minimal", "low", "medium", "high", "xhigh", "max"}
  }

  predicate Listed(levels: seq<string>, level: string) {
    exists i :: 0 <= i < |levels| && Name(levels[i]) == ToLower(level)
  }

  predicate ListsStandard(levels: seq<string>) {
    exists i :: 0 <= i < |levels| && Standard(Trim(levels[i]))
  }

  lemma FamilyIs(from: string, to: string)
    ensures SameFamily(Name(from), Name(to)) <==> OneFamily(from, to)
  {
  }

  /** The standard levels by name, lowest first. */
  lemma LevelNames(level: string)
    ensures LevelIndex(level) ==
      if ToLower(level) == "minimal" then 0
      else if ToLower(level) == "low" then 1
      else if ToLower(level) == "medium" then 2
      else if ToLower(level) == "high" then 3
      else if ToLower(level) == "xhigh" then 4
      else if ToLower(level) == "max" then 5
      else -1
  {
    LevelIndexIs(level, 0);
    LevelIndexIs(level, 1);
    LevelIndexIs(level, 2);
    LevelIndexIs(level, 3);
    LevelIndexIs(level, 4);
    LevelIndexIs(level, 5);
    NotStandard(level);
  }

  lemma StandardIff(level: string)
    ensures LevelIndex(level) >= 0 <==> Standard(level)
  {
    LevelNames(level);
  }

  lemma ListsStandardIff(levels: seq<string>)
    ensures Positions(levels) != {} <==> ListsStandard(levels)
  {
    forall i | 0 <= i < |levels| ensures LevelIndex(Trim(levels[i])) >= 0 <==> Standard(Trim(levels[i])) {
      StandardIff(Trim(levels[i]));
    }
    if i :| 0 <= i < |levels| && Standard(Trim(levels[i])) {
      assert LevelIndex(Trim(levels[i])) in Positions(levels);
    }
    if Positions(levels) != {} {
      var k :| k in Positions(levels);
    }
  }

  /** What each level name is worth in tokens, and which budgets a name stands for. */
  lemma LevelBudgets(level: string, budget: int)
    ensures LevelToBudget(level) ==
      if ToLower(level) == "none" then Some(0)
      else if ToLower(level) == "auto" then Some(-1)
      else if ToLower(level) == "minimal" then Some(512)
      else if ToLower(level) == "low" then Some(1024)
      else if ToLower(level) == "medium" then Some(8192)
      else if ToLower(level) == "high" then Some(24576)
      else if ToLower(level) == "xhigh" then Some(32768)
      else if ToLower(level) == "max" then Some(128000)
      else None
    ensures BudgetToLevel(budget) ==
      if budget < -1 then None
      else if budget == -1 then Some("auto")
      else if budget == 0 then Some("none")
      else if budget <= 512 then Some("minimal")
      else if budget <= 1024 then Some("low")
      else if budget <= 8192 then Some("medium")
      else if budget <= 24576 then Some("high")
      else Some("xhigh")
  {
    LevelNames(ToLower(level));
    LowerTwice(level);
  }

  lemma LowerTwice(s: string)
    ensures ToLower(ToLower(s)) == ToLower(s)
  {
  }

  // ----- what the formats decide -----

  lemma ListedIff(levels: seq<string>, level: string)
    ensures Lists(levels, level) <==> Listed(levels, level)
  {
  }

  /** An ordinary level on a model with levels, whatever the case, the blanks and the rest of the
      request: a listed one is taken as it is; another one is refused within a family, or when it
      or all the model's levels are no standard ones; otherwise it becomes a listed standard level. */
  lemma LevelOutcome(c: Config, s: Support, from: string, to: string, fromSuffix: bool)
    requires c.mode == ModeLevel && c.level != "none" && c.level != "auto" && s.levels != []
    ensures var r := Validate(c, Some(s), from, to, fromSuffix);
      if Listed(s.levels, c.level) then r == Success(c)
      else if OneFamily(from, to) || !Standard(c.level) || !ListsStandard(s.levels) then r == Failure(LevelNotSupported)
      else r.Success? && r.config == c.(level := r.config.level) && Listed(s.levels, r.config.level)
           && r.config.level in {"minimal", "low", "medium", "high", "xhigh", "max"}
  {
    FamilyIs(from, to);
    StandardIff(c.level);
    ListsStandardIff(s.levels);
    ListedIff(s.levels, c.level);
    var clamped := ClampedLevel(c.level, s.levels);
    ListedIff(s.levels, clamped);
    if !Lists(s.levels, c.level) {
      if Standard(c.level) && ListsStandard(s.levels) {
        ClampIsNearest(c.level, s.levels);
      } else {
        ClampLeavesAlone(c.level, s.levels);
      }
    }
  }

  /** A budget, other than nothing, on a model with a range: it is refused for its range exactly
      when it is out of it, comes from the body in a known format and stays in the family;
      otherwise it is taken, cut to the range unless it is -1. */
  lemma BudgetOutcome(c: Config, s: Support, from: string, to: string, fromSuffix: bool)
    requires c.mode == ModeBudget && c.budget != 0 && 0 <= s.min <= s.max && s.max > 0
    ensures var r := Validate(c, Some(s), from, to, fromSuffix);
      if !fromSuffix && Name(from) != "" && OneFamily(from, to) && !(s.min <= c.budget <= s.max) then
        r == Failure(BudgetOutOfRange)
      else
        r == Success(c.(budget :=
          if c.budget == -1 then -1
          else if c.budget < s.min then s.min
          else if c.budget > s.max then s.max
          else c.budget))
  {
    FamilyIs(from, to);
  }

  /** Thinking switched off, as a mode, a level or a budget. */
  predicate Off(c: Config) {
    || c == Config(ModeNone, 0, "")
    || (c.mode == ModeLevel && c.level == "none")
    || (c.mode == ModeBudget && c.budget == 0)
  }

  /** Towards Claude it is simply off. Elsewhere, on a model that cannot be switched off, it keeps
      the least budget, with the first of the model's levels if it has any. */
  lemma OffOutcome(c: Config, s: Support, from: string, to: string, fromSuffix: bool)
    requires Off(c) && WellFormed(s)
    ensures Validate(c, Some(s), from, to, fromSuffix) == Success(
      if Name(to) == "claude" || s.zeroAllowed || s.min == 0 then Config(ModeNone, 0, "")
      else Config(ModeNone, s.min, if s.levels == [] then "" else s.levels[0]))
  {
    BudgetOfLevel("none");
    SpecialLevelsStay(s.levels);
  }

  /** A model without thinking takes no configuration but a disabled one, as it is. */
  lemma UnsupportedOutcome(c: Config, from: string, to: string, fromSuffix: bool)
    ensures Validate(c, None, from, to, fromSuffix) ==
      if c.mode == ModeNone then Success(c) else Failure(ThinkingNotSupported)
  {
  }

  /** A standard level on a model with budgets only becomes its budget, cut to the range, and is
      never refused; any other name is, except for "none" and "auto". */
  lemma LevelOnBudgetsOutcome(c: Config, s: Support, from: string, to: string, fromSuffix: bool)
    requires c.mode == ModeLevel && s.levels == [] && 0 <= s.min <= s.max && s.max > 0
    requires ToLower(c.level) != "none" && ToLower(c.level) != "auto"
    ensures var r := Validate(c, Some(s), from, to, fromSuffix);
      if !Standard(c.level) then r == Failure(UnknownLevel)
      else
        var b := LevelToBudget(c.level).value;
        r == Success(Config(ModeBudget, if b < s.min then s.min else if b > s.max then s.max else b, ""))
  {
    LevelBudgets(c.level, 0);
    assert ToLower("auto") == "auto";
  }

  /** Auto stays auto on a model that thinks dynamically. Otherwise it becomes "medium" on a model
      with levels only, and the middle of the range on any other, or off when that is nothing. */
  lemma AutoOutcome(s: Support, from: string, to: string, fromSuffix: bool)
    requires WellFormed(s)
    ensures var r, middle := Validate(Config(ModeAuto, -1, ""), Some(s), from, to, fromSuffix), (s.min + s.max) / 2;
      if s.dynamicAllowed then r == Success(Config(ModeAuto, -1, ""))
      else if s.max == 0 then r == Success(Config(ModeLevel, 0, "medium"))
      else if middle > 0 then r == Success(Config(ModeBudget, middle, ""))
      else r == Success(Config(ModeNone, 0, ""))
  {
  }
}
