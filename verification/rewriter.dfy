/** The calculator's natural-language rewriter (`_NL_PATTERNS` and
    `_preprocess_natural_language`): a fixed idiom first, then an ordered rule
    table where the first rule that matches the lower-cased text is applied once. */
module Rewriter {
  import opened Wrappers
  import opened Text
  import opened Lookup
  import opened Patterns

  /** One entry of the rule table: the pattern searched for and the
      replacement template handed to `re.sub`. */
  datatype Rule = Rule(pattern: Pattern, replacement: string)

  /** `re.sub(rule.pattern, rule.replacement, text)`; regex substitution is not
      modelled, so the rewriter takes it as a parameter. */
  type Substitute = (Rule, string) -> string

  const Idiom: string := "the square root of 144"
  const IdiomRewrite: string := "math.sqrt(144)"

  const SquareRoot: Pattern := [[Lit("square"), Spaces, Lit("root"), Spaces, Lit("of"), Spaces, Digit]]
  const CubeRoot: Pattern := [[Lit("cube"), Spaces, Lit("root"), Spaces, Lit("of"), Spaces, Digit]]
  const Power: Pattern := [
    [Digit, Spaces, Lit("to the"), Spaces, Digit],
    [Digit, Spaces, Lit("to the power of"), Spaces, Digit],
    [Digit, Spaces, Lit("raised to"), Spaces, Digit],
    [Digit, Spaces, Lit("raised to the power of"), Spaces, Digit]]
  const Percentage: Pattern := [[Digit, OptSpaces, Lit("%"), Spaces, Lit("of"), Spaces, Digit]]
  const Sine: Pattern := [[Lit("sine"), Spaces, Lit("of"), Spaces, Digit]]
  const Cosine: Pattern := [[Lit("cosine"), Spaces, Lit("of"), Spaces, Digit]]
  const Tangent: Pattern := [[Lit("tangent"), Spaces, Lit("of"), Spaces, Digit]]
  const Log10: Pattern := [
    [Lit("log"), Spaces, Lit("of"), Spaces, Digit],
    [Lit("logarithm"), Spaces, Lit("of"), Spaces, Digit]]
  const NaturalLog: Pattern := [
    [Lit("natural"), Spaces, Lit("log"), Spaces, Lit("of"), Spaces, Digit],
    [Lit("natural"), Spaces, Lit("logarithm"), Spaces, Lit("of"), Spaces, Digit]]
  const Factorial: Pattern := [[Lit("factorial"), Spaces, Lit("of"), Spaces, Digit]]
  const AbsoluteValue: Pattern := [[Lit("absolute"), Spaces, Lit("value"), Spaces, Lit("of"), Spaces, NotComma]]

  /** The rule table, in declared order. */
  const NlRules: seq<Rule> := [
    Rule(SquareRoot, "math.sqrt(\\1)"),
    Rule(CubeRoot, "math.pow(\\1, 1/3)"),
    Rule(Power, "\\1 ** \\2"),
    Rule(Percentage, "(\\1 / 100) * \\2"),
    Rule(Sine, "math.sin(math.radians(\\1))"),
    Rule(Cosine, "math.cos(math.radians(\\1))"),
    Rule(Tangent, "math.tan(math.radians(\\1))"),
    Rule(Log10, "math.log10(\\1)"),
    Rule(NaturalLog, "math.log(\\1)"),
    Rule(Factorial, "math.factorial(\\1)"),
    Rule(AbsoluteValue, "abs(\\1)")]

  /** The patterns of the table, in the same order. */
  const RulePatterns: seq<Pattern> :=
    [SquareRoot, CubeRoot, Power, Percentage, Sine, Cosine, Tangent, Log10, NaturalLog, Factorial, AbsoluteValue]

  const SineRule: nat := 4
  const CosineRule: nat := 5
  const Log10Rule: nat := 7
  const NaturalLogRule: nat := 8

  predicate Matches(rule: Rule, text: string) {
    Search(rule.pattern, text)
  }

  /** The test the scan applies to each rule. */
  function RuleTest(text: string): Rule -> bool {
    (rule: Rule) => Matches(rule, text)
  }

  /** Rule `i` is the first rule of the table that matches `text`. */
  predicate IsFirstMatch(rules: seq<Rule>, text: string, i: nat) {
    IsFirst(rules, RuleTest(text), i)
  }

  predicate NoRuleMatches(rules: seq<Rule>, text: string) {
    NonePass(rules, RuleTest(text))
  }

  /** The index of the rule the scan stops at, if any. */
  function FirstMatch(rules: seq<Rule>, text: string): (r: Option<nat>)
    ensures r.Some? ==> IsFirstMatch(rules, text, r.value)
    ensures r.None? ==> NoRuleMatches(rules, text)
  {
    var test := RuleTest(text);
    var r := FirstIndex(rules, test);
    assert r.Some? ==> IsFirst(rules, test, r.value);
    r
  }

  /** `_preprocess_natural_language`: the idiom wins outright; otherwise the
      first matching rule rewrites the lower-cased text and nothing else is
      tried; if no rule matches, the input comes back with its original casing. */
  function Preprocess(rules: seq<Rule>, substitute: Substitute, expression: string): (r: string)
    ensures Lower(expression) == Idiom ==> r == IdiomRewrite
    ensures Lower(expression) != Idiom ==>
      forall i: nat :: IsFirstMatch(rules, Lower(expression), i) ==> r == substitute(rules[i], Lower(expression))
    ensures Lower(expression) != Idiom && NoRuleMatches(rules, Lower(expression)) ==> r == expression
  {
    var lower := Lower(expression);
    if lower == Idiom then IdiomRewrite
    else match FirstMatch(rules, lower)
      case Some(i) => substitute(rules[i], lower)
      case None => expression
  }

  /** Wherever the cosine pattern matches, the sine pattern matches too
      ("cosine" ends with "sine" and the search is unanchored). */
  lemma CosineCaughtBySine(text: string)
    ensures Matches(NlRules[CosineRule], text) ==> Matches(NlRules[SineRule], text)
  {
    if Search(Cosine, text) {
      var k: nat, i: nat :| k < |Cosine| && i <= |text| && MatchAt(Cosine[k], text, i);
      var rest: Alternative := [Spaces, Lit("of"), Spaces, Digit];
      assert "cosine" == "co" + "sine";
      assert Cosine[0] == [Lit("co" + "sine")] + rest;
      LiteralTailMatches("co", "sine", rest, text, i);
      assert Sine[0] == [Lit("sine")] + rest;
    }
  }

  /** Wherever either natural-log alternative matches, the matching base-10
      log alternative matches further along. */
  lemma NaturalLogCaughtByLog10(text: string)
    ensures Matches(NlRules[NaturalLogRule], text) ==> Matches(NlRules[Log10Rule], text)
  {
    var pre: Alternative := [Lit("natural"), Spaces];
    assert NaturalLog[0] == pre + Log10[0];
    assert NaturalLog[1] == pre + Log10[1];
    SearchSuffix(NaturalLog, Log10, text);
  }

  /** The cosine rule never fires: rule order makes it unreachable. */
  lemma CosineRuleNeverFires(text: string)
    ensures !IsFirstMatch(NlRules, text, CosineRule)
  {
    CosineCaughtBySine(text);
    ShadowedRuleNeverFires(text, SineRule, CosineRule);
  }

  /** The natural-log rule never fires: rule order makes it unreachable. */
  lemma NaturalLogRuleNeverFires(text: string)
    ensures !IsFirstMatch(NlRules, text, NaturalLogRule)
  {
    NaturalLogCaughtByLog10(text);
    ShadowedRuleNeverFires(text, Log10Rule, NaturalLogRule);
  }

  /** A rule whose matches are all matches of an earlier rule is never the
      first match: the table-order argument of the generic scan. */
  lemma ShadowedRuleNeverFires(text: string, early: nat, late: nat)
    requires early < late < |NlRules|
    requires Matches(NlRules[late], text) ==> Matches(NlRules[early], text)
    ensures !IsFirstMatch(NlRules, text, late)
  {
    var test := RuleTest(text);
    assert test(NlRules[late]) == Matches(NlRules[late], text);
    assert test(NlRules[early]) == Matches(NlRules[early], text);
    ShadowedNeverFirst(NlRules, test, early, late);
    assert IsFirstMatch(NlRules, text, late) ==> IsFirst(NlRules, test, late);
  }

  /** Input other than the idiom that mentions a cosine is rewritten by the
      sine rule or an earlier one, never by the cosine rule. */
  lemma CosinePhraseUsesEarlierRule(substitute: Substitute, expression: string)
    requires Lower(expression) != Idiom
    requires Matches(NlRules[CosineRule], Lower(expression))
    ensures exists i :: 0 <= i <= SineRule && Preprocess(NlRules, substitute, expression) == substitute(NlRules[i], Lower(expression))
  {
    var lower := Lower(expression);
    CosineCaughtBySine(lower);
    var m := FirstMatch(NlRules, lower);
    assert m.Some?;
    assert m.value <= SineRule;
  }

  /** Text with no letter and no percent sign: plain arithmetic. */
  predicate PlainArithmetic(s: string) {
    forall i :: 0 <= i < |s| ==> !IsLetter(s[i]) && s[i] != '%'
  }

  /** Every alternative of `p` has a literal starting with a letter or a
      percent sign. */
  predicate NeedsLetterOrPercent(p: Pattern) {
    forall k :: 0 <= k < |p| ==>
      match LeadingLiteralChar(p[k])
      case Some(c) => IsLetter(c) || c == '%'
      case None => false
  }

  /** Every pattern of the table needs a letter or a percent sign. */
  lemma RulesNeedLetterOrPercent()
    ensures forall p :: p in RulePatterns ==> NeedsLetterOrPercent(p)
  {
    ArithmeticPatternsNeedLetterOrPercent();
    WordPatternsNeedLetterOrPercent();
  }

  lemma ArithmeticPatternsNeedLetterOrPercent()
    ensures NeedsLetterOrPercent(SquareRoot)
      && NeedsLetterOrPercent(CubeRoot)
      && NeedsLetterOrPercent(Power)
      && NeedsLetterOrPercent(Percentage)
  {
    assert NeedsLetterOrPercent(SquareRoot);
    assert NeedsLetterOrPercent(CubeRoot);
    assert NeedsLetterOrPercent(Power);
    assert NeedsLetterOrPercent(Percentage);
  }

  lemma WordPatternsNeedLetterOrPercent()
    ensures NeedsLetterOrPercent(Sine)
      && NeedsLetterOrPercent(Cosine)
      && NeedsLetterOrPercent(Tangent)
      && NeedsLetterOrPercent(Log10)
      && NeedsLetterOrPercent(NaturalLog)
      && NeedsLetterOrPercent(Factorial)
      && NeedsLetterOrPercent(AbsoluteValue)
  {
    assert NeedsLetterOrPercent(Sine);
    assert NeedsLetterOrPercent(Cosine);
    assert NeedsLetterOrPercent(Tangent);
    assert NeedsLetterOrPercent(Log10);
    assert NeedsLetterOrPercent(NaturalLog);
    assert NeedsLetterOrPercent(Factorial);
    assert NeedsLetterOrPercent(AbsoluteValue);
  }

  /** Plain arithmetic matches no rule and is not the idiom, so the rewriter
      hands it on unchanged. */
  lemma PlainArithmeticPassesThrough(substitute: Substitute, expression: string)
    requires PlainArithmetic(expression)
    ensures Preprocess(NlRules, substitute, expression) == expression
  {
    assert Lower(expression) == expression;
    assert expression != Idiom by {
      if |expression| > 0 {
        assert !IsLetter(expression[0]);
      }
    }
    RulesNeedLetterOrPercent();
    forall j | 0 <= j < |NlRules|
      ensures !Matches(NlRules[j], expression)
    {
      forall k: nat, i: nat | k < |NlRules[j].pattern| && i <= |expression|
        ensures !MatchAt(NlRules[j].pattern[k], expression, i)
      {
        var alt := NlRules[j].pattern[k];
        assert NlRules[j].pattern in RulePatterns;
        if MatchAt(alt, expression, i) {
          MatchNeedsLeadingLiteral(alt, expression, i);
        }
      }
    }
  }
}
