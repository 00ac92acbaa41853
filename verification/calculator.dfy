/** The calculator tool's `execute`: strip the input, rewrite natural
    language, try the strict evaluator, fall back to `eval` on a `SyntaxError`
    or `ValueError`, and format the result; any other exception becomes an
    error response. The Python machinery the tool calls but this model does
    not define (`ast.parse`, `re.sub`, float `**`, `eval`) is a parameter. */
module Calculator {
  import opened Wrappers
  import opened Text
  import opened Exceptions
  import opened Rewriter
  import opened Evaluator
  import opened ResultFormat

  /** The object an evaluation produces, as far as formatting can tell:
      a float, an int, or anything else together with its `str`. */
  datatype PyObject =
    | FloatObject(x: real)
    | IntObject(i: int)
    | OtherObject(text: string)

  /** The interpreter services `execute` relies on. */
  datatype Interpreter = Interpreter(
    parse: string -> Result<Expr, Exception>,      // `ast.parse(s, mode='eval').body`
    substitute: Substitute,                          // `re.sub`
    pow: PowFn,                                      // float `**`
    eval: string -> Result<PyObject, Exception>)     // `eval` in the math environment

  /** The dictionary `execute` returns. */
  datatype Response =
    | Success(expression: string, result: string)
    | Failure(error: string)
  {
    function Status(): string {
      if Success? then "success" else "error"
    }
  }

  const ErrorPrefix: string := "Calculation error: "

  /** The text the rewriter hands to the evaluators. */
  function Processed(expression: string, py: Interpreter): string {
    Preprocess(NlRules, py.substitute, Strip(expression))
  }

  /** The `ast.parse` then `_eval_expr` attempt. */
  function StrictStage(processed: string, py: Interpreter): Result<real, Exception> {
    match py.parse(processed)
    case Err(e) => Err(e)
    case Ok(tree) => Eval(tree, py.pow)
  }

  /** The inner `try`: a `SyntaxError` or `ValueError` from the strict stage
      hands the text to `eval`; any other exception propagates. */
  function Evaluate(processed: string, py: Interpreter): Result<PyObject, Exception> {
    match StrictStage(processed, py)
    case Ok(x) => Ok(FloatObject(x))
    case Err(e) => if TriggersFallback(e) then py.eval(processed) else Err(e)
  }

  /** `str` of a result, with floats rounded to six places and trailing zeros dropped. */
  function Render(v: PyObject): string {
    match v
    case FloatObject(x) => FormatFloat(x)
    case IntObject(i) => IntToString(i)
    case OtherObject(text) => text
  }

  /** `CalculatorTool.execute`. A success echoes the stripped input; every
      error carries the fixed prefix. */
  function Execute(expression: string, py: Interpreter): (r: Response)
    ensures r.Success? ==> r.expression == Strip(expression)
    ensures r.Failure? ==> ErrorPrefix <= r.error
    ensures r.Status() == "success" <==> Evaluate(Processed(expression, py), py).Ok?
  {
    var clean := Strip(expression);
    match Evaluate(Processed(expression, py), py)
    case Ok(v) => Success(clean, Render(v))
    case Err(e) => Failure(ErrorPrefix + e.message)
  }

  /** When the strict evaluator succeeds its value is final: `eval` is never
      consulted, and the text reported is the value rounded to six places. */
  lemma StrictSuccessIsFinal(expression: string, py: Interpreter, other: string -> Result<PyObject, Exception>)
    requires StrictStage(Processed(expression, py), py).Ok?
    ensures var x := StrictStage(Processed(expression, py), py).value;
      Execute(expression, py) == Success(Strip(expression), FormatFloat(x))
      && Parse(Execute(expression, py).result) == Some(RoundToMillionths(x))
    ensures Execute(expression, py.(eval := other)) == Execute(expression, py)
  {
    FormatRoundTrip(RoundToMillionths(StrictStage(Processed(expression, py), py).value));
  }

  /** A `SyntaxError` or `ValueError` from the strict stage (the parser's, an
      unsupported node, or the evaluator's own division by zero) is discarded:
      the response is exactly what `eval` makes of the same text. */
  lemma FallbackDecides(expression: string, py: Interpreter)
    requires StrictStage(Processed(expression, py), py).Err?
    requires TriggersFallback(StrictStage(Processed(expression, py), py).error)
    ensures var fallback := py.eval(Processed(expression, py));
      Execute(expression, py) ==
        if fallback.Ok? then Success(Strip(expression), Render(fallback.value))
        else Failure(ErrorPrefix + fallback.error.message)
  {
  }

  /** Any other exception from the strict stage is reported as is, whatever
      `eval` would have done. */
  lemma OtherErrorsSurface(expression: string, py: Interpreter, other: string -> Result<PyObject, Exception>)
    requires StrictStage(Processed(expression, py), py).Err?
    requires !TriggersFallback(StrictStage(Processed(expression, py), py).error)
    ensures Execute(expression, py) == Failure(ErrorPrefix + StrictStage(Processed(expression, py), py).error.message)
    ensures Execute(expression, py.(eval := other)) == Execute(expression, py)
  {
  }

  /** A complex literal on its own is the one input the strict evaluator
      itself turns into an error response: `float()` raises a `TypeError`,
      which the fallback does not catch. */
  lemma ComplexLiteralIsReported(expression: string, py: Interpreter, re: real, im: real)
    requires py.parse(Processed(expression, py)) == Ok(Constant(ComplexLit(re, im)))
    ensures Execute(expression, py) == Failure(ErrorPrefix + ComplexToFloatMessage)
  {
    ComplexLiteralStage(Processed(expression, py), py, re, im);
    ErrorResponse(expression, py);
  }

  /** Where the message of an error response comes from: the parser, the
      fallback `eval`, or the complex-literal `TypeError`, and nothing else. */
  lemma FailureOrigin(expression: string, py: Interpreter)
    requires Execute(expression, py).Failure?
    ensures var p := Processed(expression, py);
      var m := Execute(expression, py).error[|ErrorPrefix|..];
      (py.parse(p).Err? && m == py.parse(p).error.message)
      || (py.eval(p).Err? && m == py.eval(p).error.message)
      || m == ComplexToFloatMessage
  {
    var p := Processed(expression, py);
    var r := Evaluate(p, py);
    assert Execute(expression, py) == Failure(ErrorPrefix + r.error.message);
    assert (ErrorPrefix + r.error.message)[|ErrorPrefix|..] == r.error.message;
  }

  /** The evaluator's own division-by-zero message never reaches the caller:
      if a response shows it, the parser or `eval` produced that text. */
  lemma DivisionMessageNeverFromEvaluator(expression: string, py: Interpreter)
    requires Execute(expression, py) == Failure(ErrorPrefix + DivisionByZeroMessage)
    ensures var p := Processed(expression, py);
      (py.parse(p).Err? && py.parse(p).error.message == DivisionByZeroMessage)
      || (py.eval(p).Err? && py.eval(p).error.message == DivisionByZeroMessage)
  {
    FailureOrigin(expression, py);
    assert (ErrorPrefix + DivisionByZeroMessage)[|ErrorPrefix|..] == DivisionByZeroMessage;
    assert DivisionByZeroMessage != ComplexToFloatMessage by {
      assert |DivisionByZeroMessage| != |ComplexToFloatMessage|;
    }
  }

  /** `"2 + 3 * 4"` reports `"14"`: plain arithmetic passes the rewriter
      unchanged and the strict evaluator respects precedence. */
  lemma ArithmeticExample(py: Interpreter)
    requires py.parse("2 + 3 * 4") == Ok(PrecedenceExample)
    ensures Execute("2 + 3 * 4", py) == Success("2 + 3 * 4", "14")
  {
    PassesUnchanged("2 + 3 * 4", py);
    PrecedenceExampleIsFourteen(py.pow);
    FourteenRendering();
    Outcome("2 + 3 * 4", py);
  }

  /** `"10 / 0"`: the strict evaluator's division-by-zero error sends the
      text to `eval`, whose own exception is what the caller sees. */
  lemma DivisionByZeroFallsBack(py: Interpreter)
    requires py.parse("10 / 0") == Ok(BinOp(Constant(IntLit(10)), Div, Constant(IntLit(0))))
    requires py.eval("10 / 0") == Err(Exception(OtherKind("ZeroDivisionError"), "division by zero"))
    ensures Execute("10 / 0", py) == Failure(ErrorPrefix + "division by zero")
  {
    PassesUnchanged("10 / 0", py);
    DivisionStage(py);
    ErrorResponse("10 / 0", py);
  }

  /** Helpers for the examples. */
  lemma Outcome(expression: string, py: Interpreter)
    ensures match Evaluate(Processed(expression, py), py)
      case Ok(v) => Execute(expression, py) == Success(Strip(expression), Render(v))
      case Err(e) => Execute(expression, py) == Failure(ErrorPrefix + e.message)
  {
  }

  lemma FourteenRendering()
    ensures Render(FloatObject(14.0)) == "14"
  {
    IntegralFloatRendersAsInteger(14);
    FourteenText();
  }

  lemma FourteenText()
    ensures IntToString(14) == "14"
  {
    assert NatToString(1) == "1";
  }

  lemma DivisionStage(py: Interpreter)
    requires py.parse("10 / 0") == Ok(BinOp(Constant(IntLit(10)), Div, Constant(IntLit(0))))
    ensures Evaluate("10 / 0", py) == py.eval("10 / 0")
  {
    DivisionByZeroExample(py.pow);
    assert StrictStage("10 / 0", py) == Err(Exception(ValueError, DivisionByZeroMessage));
  }

  lemma ComplexLiteralStage(p: string, py: Interpreter, re: real, im: real)
    requires py.parse(p) == Ok(Constant(ComplexLit(re, im)))
    ensures Evaluate(p, py) == Err(Exception(TypeError, ComplexToFloatMessage))
  {
  }

  /** An evaluation error becomes the prefixed error response. */
  lemma ErrorResponse(expression: string, py: Interpreter)
    requires Evaluate(Processed(expression, py), py).Err?
    ensures Execute(expression, py) == Failure(ErrorPrefix + Evaluate(Processed(expression, py), py).error.message)
  {
  }

  /** Stripped plain arithmetic reaches the evaluators as typed. */
  lemma PassesUnchanged(s: string, py: Interpreter)
    requires |s| > 0 && !IsSpace(s[0]) && !IsSpace(s[|s| - 1]) && PlainArithmetic(s)
    ensures Strip(s) == s && Processed(s, py) == s
  {
    StripFixedPoint(s);
    PlainArithmeticPassesThrough(py.substitute, s);
  }
}
