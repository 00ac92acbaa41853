# ANUS tool core in Dafny

This project models the parts of the ANUS agent system (Autonomous Networked
Utility System) that hold real logic: the calculator tool, the dummy action
tool, and the demo orchestrator behind the web interface.

- **Calculator tool.** `CalculatorTool.execute` does the following, in order:
  - strips the input;
  - rewrites a few natural-language phrasings into Python (`_NL_PATTERNS` and `_preprocess_natural_language`);
  - evaluates the result with a strict evaluator over the syntax tree, whose operator allow-list is `_OPERATORS` and whose walker is `_eval_expr`;
  - falls back to `eval` when that evaluator raises `SyntaxError` or `ValueError`;
  - rounds float results to six places and strips trailing zeros;
  - wraps every other exception as `"Calculation error: ..."`.
- **Dummy action tool.** It echoes the `message` keyword argument. When the message is missing or falsy, it echoes `query` instead.
- **Demo orchestrator.** `MockOrchestrator.execute_task` computes a made-up complexity score from the task length and a random draw. It then picks `single` or `multi` mode from that score and returns a canned answer chosen by keyword.

Modules, one per file:

| module | file | what it holds |
|---|---|---|
| `Wrappers` | wrappers.dfy | `Option` and `Result` |
| `Text` | text.dfy | Python string operations: `strip`, `lower`, `rstrip(c)`, `in` |
| `Lookup` | lookup.dfy | the first entry of a sequence that passes a test; the rule scan in the calculator and the canned-answer scan in the orchestrator both work this way |
| `Patterns` | patterns.dfy | the regular-expression fragment the rewrite rules use, under `re.search` semantics |
| `Rewriter` | rewriter.dfy | the rule table and the rewriter |
| `Exceptions` | exceptions.dfy | Python exceptions as values |
| `Evaluator` | evaluator.dfy | the strict syntax-tree evaluator |
| `ResultFormat` | result_format.dfy | `round(x, 6)`, `f"{x:f}"`, the two `rstrip` calls, and a reader for the text they produce |
| `Calculator` | calculator.dfy | the control flow of `execute` |
| `DummyAction` | dummy_action.dfy | the dummy action tool |
| `MockOrchestrator` | mock_orchestrator.dfy | the demo orchestrator |

Python machinery that the calculator calls but this model does not define is passed in as a parameter (the `Interpreter` record):
- `ast.parse`, as a function from text to a syntax tree or an exception;
- `re.sub`;
- float `**`;
- the fallback `eval`.

The orchestrator's random draw and its clock are parameters too. Floats are modelled as exact reals.

### What the proofs show about the code as written

- **Two rules can never fire.** The rewrite rules are searched unanchored, and only the first matching rule is applied. "cosine" contains "sine", and every natural-log phrase contains a base-10 log phrase. So the cosine rule and the natural-log rule can never be the rule applied: the sine and base-10 log rules, which come earlier in the table, always catch those inputs first. The relevant lemmas are `Rewriter.CosineRuleNeverFires` and `Rewriter.NaturalLogRuleNeverFires`.
- **The strict evaluator's division error never reaches the caller.** That error is a `ValueError`, so the fallback `eval` always re-evaluates the text. The caller sees whatever `eval` does with it. See `Calculator.DivisionMessageNeverFromEvaluator` and `Calculator.DivisionByZeroFallsBack`.
- **The walker's "Unsupported ..." errors never reach the caller.** An unsupported operator, unary operator, constant or node is also a `ValueError`, so the text goes to `eval` as well. The caller sees whatever `eval` does with it, which may itself be an error: `2 @ 3` reports `eval`'s `TypeError`, and `1 // 0` its `ZeroDivisionError`. A "Unsupported ..." text appears in a response only if the parser or `eval` produced it (`Calculator.FailureOrigin`). An unsupported operator is also not always what the walker reports: operands are walked left to right, so in `1j + (2 // 3)` the complex literal's `TypeError` comes first and escapes.
- **The strict evaluator can still fail on its own.** In the Python versions where `ast.Num` exists (3.8 to 3.13), a complex literal passes the `ast.Num` test. `float()` then raises a `TypeError`, which the fallback does not catch (`Calculator.ComplexLiteralIsReported`). In the same versions a `bool` constant fails the `ast.Num` test. It is then evaluated through the `ast.Constant` branch as 1.0 or 0.0. In this model, where float `**` is total and floats are exact, the complex literal is the one way the strict evaluator produces an error response itself. In Python, `0 ** -1` (`ZeroDivisionError`), an overflowing `**`, `float()` of a huge integer literal (`OverflowError`) and a tree nested deeper than the recursion limit (`RecursionError`) also escape the fallback and become error responses.

### Other behaviour of the code worth knowing

- **Every walker `ValueError` goes to `eval`.** That covers an unsupported operator, an unsupported node and division by zero, not only input the strict grammar cannot parse.
- **Complexity score.** The score depends only on the task length and a random draw in [1, 3]. It is capped at 9.5, and `auto` picks `single` strictly below 3.0.
- **Default mode.** A missing mode argument means `auto`.
- **Score format.** The score is reported as the string `"x.y/10"`.

## Model

| member | source | states |
|---|---|---|
| Text.Lower | anus/tools/calculator.py:165 | `lower()` keeps the length, maps every character through the ASCII lower-case map and leaves no upper-case letter |
| Text.LowerIdempotent | anus/tools/calculator.py:165 | lower-casing twice is lower-casing once |
| Text.Strip | anus/tools/calculator.py:86 | `strip()` returns a contiguous slice of its input; everything cut off on either side is whitespace, and the result neither starts nor ends with whitespace |
| Text.StripFixedPoint | anus/tools/calculator.py:86 | stripping leaves a string unchanged exactly when it is empty or neither end is whitespace |
| Text.StripIdempotent | anus/tools/calculator.py:86 | stripping a stripped string changes nothing |
| Text.RStripChar | anus/tools/calculator.py:138 | `rstrip(c)` returns a prefix; every character it removes is `c`; and what is left does not end in `c` |
| Lookup.FirstIndex | anus/tools/calculator.py:174-178 | the `for ... if ...: return` scan returns the first index whose entry passes the test, or reports that none passes |
| Lookup.FirstIsUnique | anus/tools/calculator.py:174-178 | at most one index is the first to pass |
| Lookup.ShadowedNeverFirst | anus/tools/calculator.py:174-178 | an entry whose test implies an earlier entry's test is never the one the scan stops at |
| Patterns.SuffixMatches | anus/tools/calculator.py:175 | under unanchored search, a match of `p + q` implies a match of `q` alone at the same or a later position |
| Patterns.LiteralTailMatches | anus/tools/calculator.py:175 | a literal `a + b` matching at `i` means `b` matches right after `a` with the same continuation |
| Patterns.SearchSuffix | anus/tools/calculator.py:175 | if every alternative of one pattern ends with the matching alternative of another, a search hit for the first is a hit for the second |
| Patterns.MatchNeedsLeadingLiteral | anus/tools/calculator.py:175 | a pattern containing a literal can only match a text containing that literal's first character |
| Rewriter.NlRules | anus/tools/calculator.py:48-71 | the eleven rules of `_NL_PATTERNS` in declared order, each a pattern and its replacement template; patterns are reduced without changing which texts they are found in: the optional leading `(?:the\s+)?` is dropped, `\d+(?:\.\d+)?` (and `\d+`) becomes a single `Digit`, since a leading one can start at its last digit and a trailing one can stop after its first; `[^,]+` becomes a single `NotComma`; and each alternation or optional group, such as `log(?:arithm)?`, is expanded into one alternative per branch. What the table implies is stated by `Rewriter.RulesNeedLetterOrPercent`, `CosineRuleNeverFires` and `NaturalLogRuleNeverFires` |
| Rewriter.FirstMatch | anus/tools/calculator.py:174-178 | the rule the scan stops at is the first rule whose pattern is found in the lower-cased text; when there is none, no rule matches |
| Rewriter.Preprocess | anus/tools/calculator.py:154-181 | the exact idiom (any casing) becomes `math.sqrt(144)`; otherwise the first matching rule rewrites the lower-cased text once and no later rule is tried; if no rule matches, the input comes back with its original casing |
| Rewriter.CosineCaughtBySine | anus/tools/calculator.py:58-60 | wherever the cosine pattern is found, the sine pattern is found too |
| Rewriter.NaturalLogCaughtByLog10 | anus/tools/calculator.py:64-66 | wherever a natural-log pattern is found, a base-10 log pattern is found too |
| Rewriter.ShadowedRuleNeverFires | anus/tools/calculator.py:174-178 | a rule whose every match is also a match of an earlier rule is never the rule applied; this is `Lookup.ShadowedNeverFirst` applied to the rule scan |
| Rewriter.CosineRuleNeverFires | anus/tools/calculator.py:58-60 | for no text is the cosine rule the first rule that matches |
| Rewriter.NaturalLogRuleNeverFires | anus/tools/calculator.py:64-66 | for no text is the natural-log rule the first rule that matches |
| Rewriter.CosinePhraseUsesEarlierRule | anus/tools/calculator.py:172-178 | input other than the idiom that mentions a cosine is rewritten by the sine rule or an earlier rule, whatever `re.sub` does |
| Rewriter.RulesNeedLetterOrPercent | anus/tools/calculator.py:48-71 | every alternative of every rule contains a literal that starts with a letter or `%` |
| Rewriter.PlainArithmeticPassesThrough | anus/tools/calculator.py:172-181 | text with no letter and no `%` matches no rule and is not the idiom, so it is handed on unchanged |
| Evaluator.InBinaryTable | anus/tools/calculator.py:38-45 | the binary keys of `_OPERATORS` are exactly `Add`, `Sub`, `Mult`, `Div` and `Pow`; `Evaluator.UnsupportedOperatorIgnoresOperands` states that every other operator is rejected |
| Evaluator.InUnaryTable | anus/tools/calculator.py:38-45 | the one unary key of `_OPERATORS` is `USub`; `Evaluator.UnaryOperation` states that every other unary operator is rejected |
| Evaluator.ApplyBinary | anus/tools/calculator.py:38-45 | the functions `_OPERATORS` maps the binary keys to: add, subtract, multiply, true division and the supplied float power; `Evaluator.BinaryOperation` states the result of each |
| Evaluator.Eval | anus/tools/calculator.py:183-236 | success only on allow-listed trees (numeric constants, `+ - * / **`, unary minus); on such a tree the only failure is the division-by-zero `ValueError`; every failure is a `ValueError` with one of the walker's messages, except the `TypeError` from a complex literal |
| Evaluator.DivisionFreeSucceeds | anus/tools/calculator.py:196-236 | an allow-listed tree without division always evaluates |
| Evaluator.ConstantOperation | anus/tools/calculator.py:196-236 | int, float and bool constants evaluate to their value (a bool as 1.0 or 0.0); a complex constant gives the `float()` `TypeError`; any other constant is rejected with "Unsupported constant type: " and its type name; any other node kind with "Unsupported expression type: " and its class name |
| Evaluator.UnsupportedOperatorIgnoresOperands | anus/tools/calculator.py:201-203 | a binary operator outside `_OPERATORS` is rejected with a `ValueError` naming it, before either operand is evaluated |
| Evaluator.BinaryOperation | anus/tools/calculator.py:205-219 | once both operands evaluate, each table operator applies its function, except that a zero right operand of `/` is rejected with the tool's own message |
| Evaluator.LeftFailureWins | anus/tools/calculator.py:205-206 | the left operand is evaluated first: its failure decides the outcome whatever the right operand is |
| Evaluator.UnaryOperation | anus/tools/calculator.py:222-227 | unary minus negates and propagates its operand's failure; every other unary operator is rejected, naming it |
| Evaluator.DoubleNegation | anus/tools/calculator.py:222-227 | negating twice gives back the operand's outcome |
| Evaluator.IntegerRingAgrees | anus/tools/calculator.py:196-227 | on trees of integer constants under `+ - *` and negation, the float walker computes exactly the value integer arithmetic gives |
| Evaluator.PrecedenceExampleIsFourteen | anus/tools/calculator.py:201-219 | the tree of `2 + 3 * 4` evaluates to 14 |
| Evaluator.DivisionByZeroExample | anus/tools/calculator.py:211-213 | the tree of `10 / 0` is rejected with the division-by-zero `ValueError` |
| ResultFormat.NatToString | anus/tools/calculator.py:140 | `str(n)` is a non-empty digit string that denotes `n` and has no leading zero |
| ResultFormat.FixedDigits | anus/tools/calculator.py:138 | the zero-padded fractional field of `f"{x:f}"` has exactly `k` digits and denotes the fraction |
| ResultFormat.RoundHalfEven | anus/tools/calculator.py:136 | `round` picks an integer within one half of its argument, with ties going to the even one |
| ResultFormat.RoundHalfEvenUnique | anus/tools/calculator.py:136 | that integer is unique |
| ResultFormat.RoundToMillionths | anus/tools/calculator.py:136 | `round(x, 6)` as a sign and a count of millionths; `ResultFormat.RoundingIsNearest` states it is within half a millionth of `x` |
| ResultFormat.FixedPoint | anus/tools/calculator.py:138 | `f"{v:f}"`: the sign, the integer part, a dot and six zero-padded fractional digits; `ResultFormat.FormatShape` states what the strips leave of it |
| ResultFormat.Format | anus/tools/calculator.py:138 | `.rstrip('0').rstrip('.')` of that text; `ResultFormat.FormatRoundTrip` and `FormattedShape` state its meaning and shape |
| ResultFormat.FormatFloat | anus/tools/calculator.py:134-138 | the whole float branch: rounding, then formatting; `ResultFormat.IntegralFloatRendersAsInteger` and `Calculator.StrictSuccessIsFinal` state what it produces |
| ResultFormat.FormatRoundTrip | anus/tools/calculator.py:134-138 | reading the formatted text back as a decimal gives exactly the rounded value and sign |
| ResultFormat.ReformatIsIdentity | anus/tools/calculator.py:134-138 | formatting the value read back from formatted text reproduces the text |
| ResultFormat.FormattedShape | anus/tools/calculator.py:134-138 | the text is an optional minus and a numeral without leading zeros, followed, only when the value has a fractional part, by a dot and at most six digits that do not end in `0`; so it never ends in a dot |
| ResultFormat.RoundingIsNearest | anus/tools/calculator.py:136 | the rounded value is within half a millionth of the float |
| ResultFormat.IntegralFloatRendersAsInteger | anus/tools/calculator.py:134-140 | an integer-valued float renders exactly as `str` renders the integer (`14.0` shows as `14`) |
| ResultFormat.RenderingIsIdempotent | anus/tools/calculator.py:134-138 | the value a rendering denotes renders to the same text, apart from the `-0` case |
| Exceptions.TriggersFallback | anus/tools/calculator.py:118 | `except (SyntaxError, ValueError)` catches exactly those two classes (subclasses recorded as their base); `Calculator.FallbackDecides` and `Calculator.OtherErrorsSurface` state the two outcomes |
| Calculator.Evaluate | anus/tools/calculator.py:114-121 | the inner `try`: a strict value is final, a `SyntaxError` or `ValueError` hands the text to `eval`, anything else propagates; stated by `Calculator.StrictSuccessIsFinal`, `FallbackDecides` and `OtherErrorsSurface` |
| Calculator.Render | anus/tools/calculator.py:134-140 | a float goes through the six-place formatter, anything else through `str`; `Calculator.StrictSuccessIsFinal` states that a rendered strict value reads back as the value rounded to six places |
| Calculator.Execute | anus/tools/calculator.py:84-152 | a success echoes the stripped input; every error starts with `Calculation error: `; the status is `success` exactly when evaluation produced a value |
| Calculator.StrictSuccessIsFinal | anus/tools/calculator.py:114-117 | when the strict walker returns a value, `eval` is never consulted, and the reported text reads back as that value rounded to six places |
| Calculator.FallbackDecides | anus/tools/calculator.py:118-121 | after a `SyntaxError` or `ValueError` from the strict stage, the response is exactly what `eval` makes of the same text |
| Calculator.OtherErrorsSurface | anus/tools/calculator.py:149-152 | any other exception from the strict stage is reported with its own message, whatever `eval` would do |
| Calculator.ComplexLiteralIsReported | anus/tools/calculator.py:197-198 | a complex literal yields the `float()` `TypeError` message as the error response |
| Calculator.FailureOrigin | anus/tools/calculator.py:114-152 | in this model (total float `**`, exact floats), an error message comes from the parser, from `eval`, or from the complex-literal `TypeError`, and from nowhere else |
| Calculator.DivisionMessageNeverFromEvaluator | anus/tools/calculator.py:211-213 | the walker's own division-by-zero message is never the one shown: if it appears, the parser or `eval` produced it |
| Calculator.ArithmeticExample | anus/tools/calculator.py:84-147 | `2 + 3 * 4` reports success with result `14` |
| Calculator.DivisionByZeroFallsBack | anus/tools/calculator.py:114-121 | `10 / 0` is handed to `eval`, and the caller sees `eval`'s `division by zero` message |
| Calculator.PassesUnchanged | anus/tools/calculator.py:86-90 | stripped plain arithmetic reaches the evaluators exactly as typed |
| DummyAction.Get | anus/tools/dummy_action.py:44 | `dict.get` returns the stored value when the key is present and the default otherwise |
| DummyAction.Execute | anus/tools/dummy_action.py:44-54 | it always succeeds with the fixed result text; a truthy message is echoed; otherwise a present query replaces it; otherwise the falsy message or `""` stays; the echo is truthy exactly when the message or the replacing query is |
| DummyAction.EchoComesFromCaller | anus/tools/dummy_action.py:44-47 | the echo is always a caller's argument or `""`, so the `"No message provided"` default is never used |
| DummyAction.OnlyMessageAndQueryMatter | anus/tools/dummy_action.py:44-54 | calls that agree on `message` and `query` get the same response |
| DummyAction.QueryDisplacesOnlyFalsyMessages | anus/tools/dummy_action.py:45-47 | with both arguments given, a query replaces the message exactly when the message is falsy |
| MockOrchestrator.Complexity | web_interface/app.py:36 | the score lies in [1, 9.5]; it is the length term plus the draw, or the 9.5 cap |
| MockOrchestrator.UsedMode | web_interface/app.py:39-41 | an explicit mode is kept as given; `auto` becomes `single` exactly when the score is below 3, and `multi` otherwise |
| MockOrchestrator.LongTasksRunMulti | web_interface/app.py:36-41 | a task of 20 or more characters runs in `multi` under `auto`, whatever the draw |
| MockOrchestrator.ShortTasksCanRunSingle | web_interface/app.py:36-41 | every shorter task runs in `single` under the lowest draw, so the 20-character bound is exact |
| MockOrchestrator.ModeMonotoneInLength | web_interface/app.py:36-41 | for a fixed draw, a longer task never has a lower score or turns `multi` into `single` |
| MockOrchestrator.Tenths | web_interface/app.py:70 | the one-decimal rounding of the score is an integer number of tenths, between 10 and 95, within half a tenth of the score |
| MockOrchestrator.ComplexityLabel | web_interface/app.py:70 | the label is digits, a dot, one digit and `/10`, and its digits read back as the score rounded to tenths |
| MockOrchestrator.Responses | web_interface/app.py:44-50 | the canned table has the five keys in declared order |
| MockOrchestrator.Answer | web_interface/app.py:53-65 | the first canned entry whose key the lower-cased task contains wins; failing that, the calculation notice comes before the search notice; failing both, a generic reply quotes the task as typed |
| MockOrchestrator.ShortTasksGetNoCanned | web_interface/app.py:44-57 | every key is at least 11 characters long, so a shorter task never gets a canned answer |
| MockOrchestrator.JokeComesFirst | web_interface/app.py:45-57 | a task that mentions the joke key gets the joke, whatever else it mentions |
| MockOrchestrator.CalculationBeforeSearch | web_interface/app.py:59-63 | any task that matches no canned key and asks both to calculate and to search gets the calculation notice |
| MockOrchestrator.OnlyTimeAnswerReadsClock | web_interface/app.py:48-57 | two clocks can give different answers only when the time entry is the first matching key |
| MockOrchestrator.ExecuteTask | web_interface/app.py:28-71 | an explicit mode is echoed; under `auto` the mode is `single` or `multi`, and `multi` for tasks of 20 or more characters; a short task without calculation or search words gets the generic reply |

## Left out

- Logging, the easter-egg log lines, the one-second sleep and the Flask routes: apart from the recursion limit below, they produce no part of any returned value.
- Evaluator.Eval: does not model Python's recursion limit. A tree nested deeper than the limit (about 1000 levels, e.g. `"1"` followed by 1000 copies of `"+1"`) makes the eager `ast.dump` in the log call and the recursive `_eval_expr` raise `RecursionError`. The `except (SyntaxError, ValueError)` does not catch it, so the caller gets "Calculation error: maximum recursion depth exceeded ...". The model evaluates such a tree, so `Evaluator.DivisionFreeSucceeds` and `Evaluator.IntegerRingAgrees` hold only for trees within the limit.
- Regular-expression matching beyond what the rule table uses is not modelled. Matching is modelled only as "is the pattern found anywhere". The text `re.sub` produces is a parameter.
- `ast.parse`, float `**` and the fallback `eval` are parameters. So is every value `eval` can return other than a float or an int, together with its `str`. Their own errors and results are whatever the caller supplies.
- Evaluator.ApplyBinary: models `operator.pow` on floats as a total real function. It therefore does not model the `ZeroDivisionError` of `0.0 ** -1`, the `OverflowError`, or the complex result of a negative base with a fractional exponent.
- Floats are exact reals. The model does not cover IEEE rounding of `+ - * /`, infinities, NaN, the `OverflowError` of `float()` on a huge integer literal, or the `-0.0` that negating zero produces.
- ResultFormat.RoundToMillionths: rounds the exact value, not the binary float. Python's `round` can differ on values such as 2.675 that have no exact binary form.
- ResultFormat.RenderingIsIdempotent: excludes a negative value that rounds to zero, which renders as `-0`. The exact value read back from that text has no sign.
- Text.Lower: lower-cases ASCII letters only. Python's `lower()` also maps non-ASCII letters.
- `\d` in the rule patterns is modelled as an ASCII digit. Python also accepts other Unicode decimal digits.
- `str(int)` is modelled without the digit-count limit that newer Python versions enforce.
- MockOrchestrator.Complexity: computes `len(task) * 0.1` exactly rather than as a float product.
- MockOrchestrator.Complexity: takes the draw from [1, 3] as a parameter, because `random.uniform` is not modelled.
- MockOrchestrator.Responses: takes the server clock's `%H:%M:%S` text as a parameter.
- The `TypeError` raised when the calculator is called without an `expression` argument happens before `execute` runs, so it is not modelled.
- Error message texts from Python itself vary between versions. Only the calculator's own texts and the `float()` message are fixed here.
- The fixed `float()` text (`ComplexToFloatMessage`) is the wording of Python 3.10 to 3.13. Python 3.8 and 3.9 raise "can't convert complex to float" instead.
- The behaviour of `ast.Num` for complex and bool literals is that of Python 3.8 to 3.13. Python 3.14 removed `ast.Num`, and there `_eval_expr` fails on every input.
