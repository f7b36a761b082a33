/** Thinking configurations, what models support, and validation as a function. */
module ThinkingModel {
  import opened Text

  datatype Mode = ModeBudget | ModeLevel | ModeNone | ModeAuto

  datatype Config = Config(mode: Mode, budget: int, level: string)

  datatype Support = Support(min: int, max: int, zeroAllowed: bool, dynamicAllowed: bool, levels: seq<string>)

  datatype ErrorCode = UnknownLevel | ThinkingNotSupported | LevelNotSupported | BudgetOutOfRange

  datatype Outcome = Success(config: Config) | Failure(code: ErrorCode)

  const LevelNone := "none"
  const LevelAuto := "auto"
  const LevelMedium := "medium"

  /** The standard levels, from lowest to highest. */
  const StandardLevels := ["minimal", "low", "medium", "high", "xhigh", "max"]

  // ----- levels and budgets -----

  function LevelIndexFrom(level: string, i: nat): (r: int)
    requires i <= |StandardLevels|
    ensures r == -1 || (i <= r < |StandardLevels| && EqualFold(level, StandardLevels[r]))
    decreases |level|, |StandardLevels| - i
  {
    if i == |StandardLevels| then -1
    else if EqualFold(level, StandardLevels[i]) then i
    else LevelIndexFrom(level, i + 1)
  }

  /** The position of a level in the standard order, -1 for any other string. */
  function LevelIndex(level: string): int {
    LevelIndexFrom(level, 0)
  }

  predicate Lists(levels: seq<string>, level: string) {
    exists i :: 0 <= i < |levels| && EqualFold(level, Trim(levels[i]))
  }

  const StandardBudgets := [512, 1024, 8192, 24576, 32768, 128000]

  function LevelToBudget(level: string): Option<int> {
    var l := ToLower(level);
    if l == LevelNone then Some(0)
    else if l == LevelAuto then Some(-1)
    else if LevelIndex(l) >= 0 then Some(StandardBudgets[LevelIndex(l)])
    else None
  }

  function BudgetToLevel(budget: int): Option<string> {
    if budget < -1 then None
    else if budget == -1 then Some(LevelAuto)
    else if budget == 0 then Some(LevelNone)
    else Some(StandardLevels[BudgetIndex(budget)])
  }

  /** The level position of a positive budget; no budget reaches the last one. */
  function BudgetIndex(budget: int): (r: nat)
    ensures r < |StandardLevels|
  {
    if budget <= 512 then 0
    else if budget <= 1024 then 1
    else if budget <= 8192 then 2
    else if budget <= 24576 then 3
    else 4
  }

  // ----- capabilities and families -----

  datatype Capability = NoCapability | BudgetOnly | LevelOnly | Hybrid

  function CapabilityOf(s: Support): Capability {
    var hasBudget, hasLevels := s.min > 0 || s.max > 0, s.levels != [];
    if hasBudget && hasLevels then Hybrid
    else if hasBudget then BudgetOnly
    else if hasLevels then LevelOnly
    else NoCapability
  }

  predicate GeminiFamily(provider: string) {
    provider in {"gemini", "gemini-cli", "antigravity"}
  }

  predicate OpenAIFamily(provider: string) {
    provider in {"openai", "openai-response", "codex"}
  }

  predicate SameFamily(from: string, to: string) {
    from == to || (GeminiFamily(from) && GeminiFamily(to)) || (OpenAIFamily(from) && OpenAIFamily(to))
  }

  /** What the formats of a request say: where it goes, whether an unlisted level is clamped
      instead of refused, and whether a budget out of range is refused instead of clamped. */
  datatype Rules = Rules(claude: bool, clampLevels: bool, strictBudget: bool)

  function RulesFor(s: Support, fromFormat: string, toFormat: string, fromSuffix: bool): Rules {
    var from, to := ToLower(Trim(fromFormat)), ToLower(Trim(toFormat));
    var hasLevels := CapabilityOf(s) == LevelOnly || CapabilityOf(s) == Hybrid;
    Rules(to == "claude", hasLevels && !SameFamily(from, to), !fromSuffix && from != "" && SameFamily(from, to))
  }

  // ----- clamping -----

  function Abs(x: int): nat {
    if x < 0 then -x else x
  }

  /** Whether position i beats position j as the place to clamp pos to. */
  predicate Better(pos: int, i: int, j: int) {
    j == -1 || Abs(pos - i) < Abs(pos - j) || (Abs(pos - i) == Abs(pos - j) && i < j)
  }

  /** The best standard position among the first n supported levels, -1 if there is none. */
  function Nearest(pos: int, levels: seq<string>, n: nat): (r: int)
    requires n <= |levels|
    ensures -1 <= r < |StandardLevels|
  {
    if n == 0 then -1
    else
      var i, best := LevelIndex(Trim(levels[n - 1])), Nearest(pos, levels, n - 1);
      if i != -1 && Better(pos, i, best) then i else best
  }

  function ClampedLevel(level: string, levels: seq<string>): string {
    if levels == [] || Lists(levels, level) || LevelIndex(level) == -1 then level
    else if Nearest(LevelIndex(level), levels, |levels|) == -1 then level
    else StandardLevels[Nearest(LevelIndex(level), levels, |levels|)]
  }

  function ClampedBudget(value: int, s: Support): int {
    if value == -1 then value
    else if value == 0 && !s.zeroAllowed then s.min
    else if s.min == 0 && s.max == 0 then value
    else if value < s.min then (if value == 0 then 0 else s.min)
    else if value > s.max then s.max
    else value
  }

  // ----- validation, stage by stage -----

  /** Whether a level is turned into a budget. */
  predicate LevelBecomesBudget(c: Config, s: Support) {
    CapabilityOf(s) == BudgetOnly && c.mode == ModeLevel && c.level != LevelAuto
  }

  /** Level to budget on a budget-only model, budget to level on a level-only model. */
  function Converted(c: Config, s: Support): Outcome {
    if LevelBecomesBudget(c, s) then
      match LevelToBudget(c.level)
      case None => Failure(UnknownLevel)
      case Some(budget) => Success(Config(ModeBudget, budget, ""))
    else if CapabilityOf(s) == LevelOnly && c.mode == ModeBudget then
      match BudgetToLevel(c.budget)
      case None => Failure(UnknownLevel)
      case Some(level) => Success(Config(ModeLevel, 0, ClampedLevel(level, s.levels)))
    else Success(c)
  }

  /** The level names and the budget that stand for a mode. */
  function Folded(c: Config): Config {
    if c.mode == ModeLevel && c.level == LevelNone then Config(ModeNone, 0, "")
    else if c.mode == ModeLevel && c.level == LevelAuto then Config(ModeAuto, -1, "")
    else if c.mode == ModeBudget && c.budget == 0 then Config(ModeNone, 0, "")
    else c
  }

  function LevelChecked(c: Config, s: Support, clamp: bool): Outcome {
    if s.levels == [] || c.mode != ModeLevel || Lists(s.levels, c.level) then Success(c)
    else
      var level := if clamp then ClampedLevel(c.level, s.levels) else c.level;
      if Lists(s.levels, level) then Success(c.(level := level)) else Failure(LevelNotSupported)
  }

  predicate OutOfRange(c: Config, s: Support) {
    c.mode == ModeBudget && (s.min != 0 || s.max != 0)
    && (c.budget < s.min || c.budget > s.max || (c.budget == 0 && !s.zeroAllowed))
  }

  /** Go's truncated division by two. */
  function Half(x: int): int {
    if x < 0 then -(-x / 2) else x / 2
  }

  /** Auto mode for a model without dynamic thinking. */
  function MidRange(c: Config, s: Support): Config {
    var mid := Half(s.min + s.max);
    if s.levels != [] && s.min == 0 && s.max == 0 then Config(ModeLevel, 0, LevelMedium)
    else if mid <= 0 && s.zeroAllowed then c.(mode := ModeNone, budget := 0)
    else if mid <= 0 then c.(mode := ModeBudget, budget := s.min)
    else c.(mode := ModeBudget, budget := mid)
  }

  function AutoResolved(c: Config, s: Support): Config {
    if c.mode == ModeAuto && !s.dynamicAllowed then MidRange(c, s) else c
  }

  function Finished(c: Config, s: Support, claude: bool): Config {
    if c.mode == ModeNone && claude then c.(budget := 0, level := "")
    else if c.mode == ModeLevel then c
    else
      var b := ClampedBudget(c.budget, s);
      if c.mode == ModeNone && b > 0 && s.levels != [] then c.(budget := b, level := s.levels[0]) else c.(budget := b)
  }

  /** Validation against a model that supports thinking. */
  function Validated(c: Config, s: Support, rules: Rules): Outcome {
    var converted := Converted(c, s);
    if converted.Failure? then converted
    else
      var checked := LevelChecked(Folded(converted.config), s, rules.clampLevels);
      if checked.Failure? then checked
      else if rules.strictBudget && !LevelBecomesBudget(c, s) && OutOfRange(checked.config, s) then
        Failure(BudgetOutOfRange)
      else Success(Finished(AutoResolved(checked.config, s), s, rules.claude))
  }

  function Validate(c: Config, support: Option<Support>, fromFormat: string, toFormat: string,
                    fromSuffix: bool): Outcome {
    match support
    case None => if c.mode == ModeNone then Success(c) else Failure(ThinkingNotSupported)
    case Some(s) => Validated(c, s, RulesFor(s, fromFormat, toFormat, fromSuffix))
  }
}
