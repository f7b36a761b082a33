/** Thinking suffixes on model names, and what is applied to a request. */
module ThinkingSuffix {
  import opened Text
  import opened ThinkingModel
  import opened ThinkingLevels
  import opened ThinkingProofs
  import opened ThinkingFormats

  // ----- splitting off the suffix -----

  datatype SuffixResult = SuffixResult(modelName: string, hasSuffix: bool, rawSuffix: string)

  function LastIndexOf(s: string, c: char): (r: int)
    ensures -1 <= r < |s|
    ensures r >= 0 ==> s[r] == c
    ensures forall i :: r < i < |s| ==> s[i] != c
  {
    if s == "" then -1
    else if s[|s| - 1] == c then |s| - 1
    else LastIndexOf(s[..|s| - 1], c)
  }

  function ParseSuffix(model: string): SuffixResult {
    var lastOpen := LastIndexOf(model, '(');
    if lastOpen == -1 || model[|model| - 1] != ')' then SuffixResult(model, false, "")
    else SuffixResult(model[..lastOpen], true, model[lastOpen + 1..|model| - 1])
  }

  function WithSuffix(name: string, value: string): string {
    name + "(" + value + ")"
  }

  /** Parsing undoes printing, for any name and any value without an opening parenthesis. */
  lemma ParsePrinted(name: string, value: string)
    requires '(' !in value
    ensures ParseSuffix(WithSuffix(name, value)) == SuffixResult(name, true, value)
  {
    var model := WithSuffix(name, value);
    assert model[|name|] == '(' && model[|model| - 1] == ')';
    forall i | |name| < i < |model| ensures model[i] != '(' {
      if i < |model| - 1 { assert model[i] == value[i - |name| - 1]; }
    }
    assert LastIndexOf(model, '(') == |name|;
    assert model[..|name|] == name && model[|name| + 1..|model| - 1] == value;
  }

  /** Printing undoes parsing; a name without a suffix is its own model name. */
  lemma PrintParsed(model: string)
    ensures var r := ParseSuffix(model);
      if r.hasSuffix then model == WithSuffix(r.modelName, r.rawSuffix) && '(' !in r.rawSuffix
      else r.modelName == model && forall name, value :: '(' !in value ==> model != WithSuffix(name, value)
  {
    var r := ParseSuffix(model);
    if r.hasSuffix {
      var i := LastIndexOf(model, '(');
      assert model == model[..i] + [model[i]] + model[i + 1..|model| - 1] + [model[|model| - 1]];
    } else {
      forall name, value | '(' !in value ensures model != WithSuffix(name, value) {
        ParsePrinted(name, value);
      }
    }
  }

  // ----- numbers -----

  predicate Digits(s: string) {
    s != "" && forall i :: 0 <= i < |s| ==> '0' <= s[i] <= '9'
  }

  function DigitsValue(s: string): nat
    requires forall i :: 0 <= i < |s| ==> '0' <= s[i] <= '9'
  {
    if s == "" then 0 else 10 * DigitsValue(s[..|s| - 1]) + (s[|s| - 1] as int - '0' as int)
  }

  const MaxInt := 0x7fff_ffff_ffff_ffff

  /** strconv.Atoi on a 64-bit platform. */
  function Atoi(s: string): Option<int> {
    var body := if s != "" && (s[0] == '+' || s[0] == '-') then s[1..] else s;
    if !Digits(body) then None
    else
      var v: int := if s[0] == '-' then -1 * DigitsValue(body) else DigitsValue(body);
      if -MaxInt - 1 <= v <= MaxInt then Some(v) else None
  }

  function NumericSuffix(raw: string): Option<int> {
    match Atoi(raw)
    case Some(v) => if v < 0 then None else Some(v)
    case None => None
  }

  function SpecialSuffix(raw: string): Option<Mode> {
    var l := ToLower(raw);
    if l == LevelNone then Some(ModeNone)
    else if l == LevelAuto || l == "-1" then Some(ModeAuto)
    else None
  }

  function LevelSuffix(raw: string): Option<string> {
    if LevelIndex(raw) >= 0 then Some(StandardLevels[LevelIndex(raw)]) else None
  }

  const NoConfig := Config(ModeBudget, 0, "")

  function SuffixConfig(raw: string): Config {
    if SpecialSuffix(raw) == Some(ModeNone) then Config(ModeNone, 0, "")
    else if SpecialSuffix(raw) == Some(ModeAuto) then Config(ModeAuto, -1, "")
    else if LevelSuffix(raw).Some? then Config(ModeLevel, 0, LevelSuffix(raw).value)
    else
      match NumericSuffix(raw)
      case Some(v) => if v == 0 then Config(ModeNone, 0, "") else Config(ModeBudget, v, "")
      case None => NoConfig
  }

  predicate HasThinkingConfig(c: Config) {
    c.mode != ModeBudget || c.budget != 0 || c.level != ""
  }

  /** A suffix counts exactly when it is special, a level name or a number; what it then means
      is a documented configuration. */
  lemma RecognisedSuffix(raw: string)
    ensures HasThinkingConfig(SuffixConfig(raw)) <==>
      SpecialSuffix(raw).Some? || LevelSuffix(raw).Some? || NumericSuffix(raw).Some?
    ensures HasThinkingConfig(SuffixConfig(raw)) ==> Documented(SuffixConfig(raw))
  {
  }

  // ----- printing configurations as suffixes -----

  function Decimal(n: nat): (s: string)
    ensures Digits(s)
  {
    if n < 10 then ['0' + n as char] else Decimal(n / 10) + ['0' + (n % 10) as char]
  }

  lemma {:induction false} DecimalValue(n: nat)
    ensures DigitsValue(Decimal(n)) == n
  {
    if n >= 10 {
      DecimalValue(n / 10);
      var s := Decimal(n);
      assert s[..|s| - 1] == Decimal(n / 10);
    } else {
      assert Decimal(n)[..0] == "";
    }
  }

  /** Leading zeros do not change a number. */
  lemma {:induction false} LeadingZero(s: string)
    requires Digits(s)
    ensures DigitsValue(['0'] + s) == DigitsValue(s)
  {
    var t := ['0'] + s;
    assert t[..|t| - 1] == ['0'] + s[..|s| - 1];
    if |s| > 1 {
      LeadingZero(s[..|s| - 1]);
    } else {
      assert t[..1][..0] == "" && s[..0] == "";
    }
  }

  lemma DigitsAreNumeric(s: string)
    requires Digits(s)
    ensures SpecialSuffix(s).None? && LevelSuffix(s).None?
    ensures NumericSuffix(s) == if DigitsValue(s) <= MaxInt then Some(DigitsValue(s)) else None
  {
    assert ToLower(s)[0] == s[0];
    NotStandard(s);
  }

  lemma NumberIsNoName(raw: string)
    requires NumericSuffix(raw).Some?
    ensures SpecialSuffix(raw).None? && LevelSuffix(raw).None?
  {
    assert ToLower(raw)[0] == raw[0];
    NotStandard(raw);
    MinusOne(raw);
  }

  /** -1 stands for auto and for no number. */
  lemma MinusOne(raw: string)
    ensures ToLower(raw) == "-1" ==> raw == "-1"
    ensures NumericSuffix("-1").None? && SuffixConfig("-1") == Config(ModeAuto, -1, "")
  {
    if ToLower(raw) == "-1" {
      assert ToLower(raw)[0] == LowerChar(raw[0]) && ToLower(raw)[1] == LowerChar(raw[1]);
    }
    assert "-1"[1..] == "1" && "1"[..0] == "";
    assert DigitsValue("1") == 1;
    assert ToLower("-1") == "-1";
  }

  /** The value printed between the parentheses. */
  function Printed(c: Config): string {
    match c.mode
    case ModeNone => LevelNone
    case ModeAuto => LevelAuto
    case ModeLevel => c.level
    case ModeBudget => if c.budget > 0 then Decimal(c.budget) else ""
  }

  /** A configuration as a suffix gives it: documented, its unused field empty, its level not special. */
  predicate Plain(c: Config) {
    && Documented(c) && c.budget <= MaxInt
    && (c.mode == ModeLevel ==> c.budget == 0 && c.level in StandardLevels)
    && (c.mode != ModeLevel ==> c.level == "")
  }

  lemma StandardIsNotSpecial(k: nat)
    requires k < |StandardLevels|
    ensures SpecialSuffix(StandardLevels[k]).None? && LevelSuffix(StandardLevels[k]) == Some(StandardLevels[k])
    ensures '(' !in StandardLevels[k]
  {
    StandardLevelsAreLower();
    PositionOfStandard(k);
  }

  lemma SuffixOfPrinted(c: Config)
    requires Plain(c)
    ensures SuffixConfig(Printed(c)) == c && '(' !in Printed(c)
  {
    StandardLevelsAreLower();
    match c.mode
    case ModeBudget =>
      DecimalValue(c.budget);
      DigitsAreNumeric(Decimal(c.budget));
    case ModeLevel =>
      var k :| 0 <= k < |StandardLevels| && StandardLevels[k] == c.level;
      StandardIsNotSpecial(k);
    case _ =>
  }

  /** Naming a model with any plain configuration as its suffix and parsing the name gives the
      model and the configuration back. */
  lemma NameRoundTrip(name: string, c: Config)
    requires Plain(c)
    ensures var r := ParseSuffix(WithSuffix(name, Printed(c)));
      r.hasSuffix && r.modelName == name && SuffixConfig(r.rawSuffix) == c
  {
    SuffixOfPrinted(c);
    ParsePrinted(name, Printed(c));
  }

  // ----- suffixes and validation -----

  /** A suffix is never refused for its budget's range. */
  lemma SuffixNeverOutOfRange(raw: string, support: Option<Support>, from: string, to: string)
    ensures Validate(SuffixConfig(raw), support, from, to, true) != Failure(BudgetOutOfRange)
  {
    if support.Some? { RangeOnlyWhenStrict(SuffixConfig(raw), support.value, RulesFor(support.value, from, to, true)); }
  }

  /** A budget-only model accepts every recognised suffix, and what comes out is in its range. */
  lemma BudgetOnlyAcceptsSuffix(raw: string, s: Support, from: string, to: string)
    requires WellFormed(s) && s.levels == [] && HasThinkingConfig(SuffixConfig(raw))
    ensures var r := Validate(SuffixConfig(raw), Some(s), from, to, true);
      r.Success? && InRange(r.config, s)
  {
    var c, rules := SuffixConfig(raw), RulesFor(s, from, to, true);
    RecognisedSuffix(raw);
    RefusedIff(c, s, rules);
    if c.mode == ModeLevel {
      StandardLevelsAreLower();
      PositionOfStandard(LevelIndex(raw));
    }
    DocumentedInRange(c, s, rules, Validated(c, s, rules).config);
  }

  /** A level-only model that lists a standard level accepts every numeric suffix, as a level
      it lists or as thinking switched off. */
  lemma LevelOnlyAcceptsNumber(raw: string, s: Support, from: string, to: string)
    requires WellFormed(s) && s.max == 0 && Positions(s.levels) != {} && NumericSuffix(raw).Some?
    ensures var r := Validate(SuffixConfig(raw), Some(s), from, to, true);
      r.Success? && InRange(r.config, s)
  {
    var c, rules := SuffixConfig(raw), RulesFor(s, from, to, true);
    NumberIsNoName(raw);
    RecognisedSuffix(raw);
    RefusedIff(c, s, rules);
    DocumentedInRange(c, s, rules, Validated(c, s, rules).config);
  }

  // ----- user-defined models -----

  predicate BudgetCapable(provider: string) {
    provider in {"gemini", "gemini-cli", "antigravity", "claude"}
  }

  function NormalizedUserDefined(c: Config, toFormat: string): Config {
    if c.mode != ModeLevel || !BudgetCapable(toFormat) then c
    else
      match LevelToBudget(c.level)
      case None => c
      case Some(b) => Config(ModeBudget, b, "")
  }

  /** The early returns and assignments of the source. */
  method NormalizeUserDefinedConfig(original: Config, toFormat: string) returns (config: Config)
    ensures config == NormalizedUserDefined(original, toFormat)
  {
    config := original;
    if config.mode != ModeLevel {
      return;
    }
    if !BudgetCapable(toFormat) {
      return;
    }
    var budget := LevelToBudget(config.level);
    if budget.None? {
      return;
    }
    config := config.(mode := ModeBudget);
    config := config.(budget := budget.value);
    config := config.(level := "");
  }

  /** No level with a known budget reaches a budget-capable provider, and normalising twice is
      normalising once. */
  lemma NormalizedHasNoKnownLevel(c: Config, toFormat: string)
    ensures var r := NormalizedUserDefined(c, toFormat);
      && NormalizedUserDefined(r, toFormat) == r
      && (BudgetCapable(toFormat) && r.mode == ModeLevel ==> LevelToBudget(r.level).None? && r == c)
  {
  }

  // ----- what ApplyThinking decides -----

  /** What the registry says about a model. */
  datatype Info = Info(userDefined: bool, thinking: Option<Support>)

  datatype Decision = Passthrough | Strip | Reject(code: ErrorCode) | Apply(config: Config)

  /** The configuration of a request: the suffix wins over the body. */
  function RequestConfig(suffix: SuffixResult, body: Config): Config {
    if suffix.hasSuffix then SuffixConfig(suffix.rawSuffix) else body
  }

  /** The branches of ApplyThinking. `known` says whether the provider has an applier, `lookup`
      is the registry, `body` what was extracted from the request body. */
  function Decide(known: bool, lookup: string -> Option<Info>, model: string, body: Config, fromFormat: string,
                  toFormat: string): Decision {
    var to := ToLower(Trim(toFormat));
    var from := if ToLower(Trim(fromFormat)) == "" then to else ToLower(Trim(fromFormat));
    var suffix := ParseSuffix(model);
    var info, c := lookup(suffix.modelName), RequestConfig(suffix, body);
    if !known then Passthrough
    else if info.None? || info.value.userDefined then
      if HasThinkingConfig(c) then Apply(NormalizedUserDefined(c, to)) else Passthrough
    else if info.value.thinking.None? then
      if HasThinkingConfig(body) then Strip else Passthrough
    else if !HasThinkingConfig(c) then Passthrough
    else
      match Validate(c, info.value.thinking, from, to, suffix.hasSuffix)
      case Success(r) => Apply(r)
      case Failure(code) => Reject(code)
  }

  /** With a suffix on the model name the body's configuration has no say, unless the model
      does not support thinking at all. An unrecognised suffix hides it too. */
  lemma SuffixWins(known: bool, lookup: string -> Option<Info>, model: string, a: Config, b: Config, from: string,
                   to: string)
    requires ParseSuffix(model).hasSuffix
    requires var info := lookup(ParseSuffix(model).modelName);
      info.None? || info.value.userDefined || info.value.thinking.Some?
    ensures Decide(known, lookup, model, a, from, to) == Decide(known, lookup, model, b, from, to)
    ensures !HasThinkingConfig(SuffixConfig(ParseSuffix(model).rawSuffix)) ==>
      Decide(known, lookup, model, a, from, to) == Passthrough
  {
  }

  /** What is applied to a model from the registry is in its range, for every suffix and every
      documented body configuration, except for auto where neither dynamic thinking nor
      "medium" is known. */
  lemma AppliedInRange(known: bool, lookup: string -> Option<Info>, model: string, body: Config, from: string,
                       to: string)
    requires Decide(known, lookup, model, body, from, to).Apply?
    requires var info := lookup(ParseSuffix(model).modelName);
      info.Some? && !info.value.userDefined && info.value.thinking.Some? && WellFormed(info.value.thinking.value)
    requires ParseSuffix(model).hasSuffix || Documented(body)
    ensures var s := lookup(ParseSuffix(model).modelName).value.thinking.value;
      InRange(Decide(known, lookup, model, body, from, to).config, s) <==>
        !AutoWithoutMedium(RequestConfig(ParseSuffix(model), body), s)
  {
    var suffix := ParseSuffix(model);
    var s, c := lookup(suffix.modelName).value.thinking.value, RequestConfig(suffix, body);
    if suffix.hasSuffix { RecognisedSuffix(suffix.rawSuffix); }
    var to', from' := ToLower(Trim(to)), ToLower(Trim(from));
    DocumentedInRange(c, s, RulesFor(s, if from' == "" then to' else from', to', suffix.hasSuffix),
                      Decide(known, lookup, model, body, from, to).config);
  }

  /** A model that is on record without thinking support: a configuration in the body is stripped,
      whatever the suffix says; without one the request passes. */
  lemma WithoutThinking(lookup: string -> Option<Info>, model: string, body: Config, from: string, to: string)
    requires lookup(ParseSuffix(model).modelName) == Some(Info(false, None))
    ensures Decide(true, lookup, model, body, from, to) ==
      if body == Config(ModeBudget, 0, "") then Passthrough else Strip
  {
  }

  /** A model that is unknown or defined by the user is given the configuration unvalidated: a
      level with a budget of its own becomes that budget for the formats that take budgets, and
      anything else goes as it is. Nothing is refused or stripped. */
  lemma WithoutValidation(lookup: string -> Option<Info>, model: string, body: Config, from: string, to: string)
    requires var info := lookup(ParseSuffix(model).modelName); info.None? || info.value.userDefined
    ensures var c, r := RequestConfig(ParseSuffix(model), body), Decide(true, lookup, model, body, from, to);
      if c == Config(ModeBudget, 0, "") then r == Passthrough
      else if c.mode == ModeLevel && LevelToBudget(c.level).Some?
              && Name(to) in {"gemini", "gemini-cli", "antigravity", "claude"} then
        r == Apply(Config(ModeBudget, LevelToBudget(c.level).value, ""))
      else r == Apply(c)
  {
  }

  /** Without an applier for the format nothing is touched. */
  lemma WithoutApplier(lookup: string -> Option<Info>, model: string, body: Config, from: string, to: string)
    ensures Decide(false, lookup, model, body, from, to) == Passthrough
  {
  }

  /** A request that does not say its format has the format of the provider. */
  lemma BlankFormat(known: bool, lookup: string -> Option<Info>, model: string, body: Config, from: string, to: string)
    requires Trim(from) == ""
    ensures Decide(known, lookup, model, body, from, to) == Decide(known, lookup, model, body, to, to)
  {
    assert ToLower("") == "";
  }

  /** What a suffix means, by its text. */
  lemma SuffixMeaning(raw: string)
    ensures ToLower(raw) == "none" ==> SuffixConfig(raw) == Config(ModeNone, 0, "")
    ensures ToLower(raw) == "auto" || raw == "-1" ==> SuffixConfig(raw) == Config(ModeAuto, -1, "")
    ensures Standard(raw) ==> SuffixConfig(raw) == Config(ModeLevel, 0, ToLower(raw))
    ensures Digits(raw) && 0 < DigitsValue(raw) <= 0x7fff_ffff_ffff_ffff ==>
      SuffixConfig(raw) == Config(ModeBudget, DigitsValue(raw), "")
    ensures Digits(raw) && DigitsValue(raw) == 0 ==> SuffixConfig(raw) == Config(ModeNone, 0, "")
  {
    LevelNames(raw);
    StandardLevelsAreLower();
    MinusOne(raw);
    if Digits(raw) { DigitsAreNumeric(raw); }
  }
}
