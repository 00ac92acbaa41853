/** The calculator's strict evaluator (`_OPERATORS` and `_eval_expr`): a walk
    over a closed set of syntax-tree node kinds with an operator allow-list.
    Python floats are modelled as exact reals. */
module Evaluator {
  import opened Wrappers
  import opened Exceptions

  /** Binary operator node classes of Python's `ast` module. */
  datatype BinaryOperator =
    Add | Sub | Mult | Div | Pow | Mod | FloorDiv | MatMult | LShift | RShift | BitOr | BitXor | BitAnd

  /** Unary operator node classes of Python's `ast` module. */
  datatype UnaryOperator = UAdd | USub | Not | Invert

  /** The value carried by an `ast.Constant` node. */
  datatype Literal =
    | IntLit(i: int)
    | FloatLit(x: real)
    | ComplexLit(re: real, im: real)
    | BoolLit(b: bool)
    | StrLit(s: string)
    | BytesLit
    | NoneLit
    | EllipsisLit

  /** An expression tree as `ast.parse(..., mode='eval').body` returns it;
      every node kind the evaluator does not handle (names, calls,
      comparisons, ...) is `OtherNode`, carrying its class name. */
  datatype Expr =
    | Constant(value: Literal)
    | BinOp(left: Expr, op: BinaryOperator, right: Expr)
    | UnaryOp(uop: UnaryOperator, operand: Expr)
    | OtherNode(typeName: string)

  /** Float exponentiation `operator.pow` on two floats; not modelled, so supplied by the caller. */
  type PowFn = (real, real) -> real

  const DivisionByZeroMessage: string := "ANUS cannot divide by zero - it's too tight!"
  /** The `TypeError` text of `float()` on a complex number, as Python 3.10 to 3.13 word it. */
  const ComplexToFloatMessage: string := "float() argument must be a string or a real number, not 'complex'"

  function BinaryOperatorName(op: BinaryOperator): string {
    match op
    case Add => "Add"
    case Sub => "Sub"
    case Mult => "Mult"
    case Div => "Div"
    case Pow => "Pow"
    case Mod => "Mod"
    case FloorDiv => "FloorDiv"
    case MatMult => "MatMult"
    case LShift => "LShift"
    case RShift => "RShift"
    case BitOr => "BitOr"
    case BitXor => "BitXor"
    case BitAnd => "BitAnd"
  }

  function UnaryOperatorName(op: UnaryOperator): string {
    match op
    case UAdd => "UAdd"
    case USub => "USub"
    case Not => "Not"
    case Invert => "Invert"
  }

  /** `type(value).__name__` for a constant. */
  function LiteralTypeName(lit: Literal): string {
    match lit
    case IntLit(_) => "int"
    case FloatLit(_) => "float"
    case ComplexLit(_, _) => "complex"
    case BoolLit(_) => "bool"
    case StrLit(_) => "str"
    case BytesLit => "bytes"
    case NoneLit => "NoneType"
    case EllipsisLit => "ellipsis"
  }

  /** The binary keys of `_OPERATORS`. */
  predicate InBinaryTable(op: BinaryOperator) {
    op == Add || op == Sub || op == Mult || op == Div || op == Pow
  }

  /** The unary keys of `_OPERATORS`. */
  predicate InUnaryTable(op: UnaryOperator) {
    op == USub
  }

  /** The function `_OPERATORS` maps a binary operator to. */
  function ApplyBinary(op: BinaryOperator, a: real, b: real, pow: PowFn): real
    requires InBinaryTable(op) && (op == Div ==> b != 0.0)
  {
    match op
    case Add => a + b
    case Sub => a - b
    case Mult => a * b
    case Div => a / b
    case Pow => pow(a, b)
  }

  /** The trees the allow-list admits: numeric (int, float or bool) constants,
      the five table binary operators and negation. */
  predicate AllowListed(e: Expr) {
    match e
    case Constant(lit) => lit.IntLit? || lit.FloatLit? || lit.BoolLit?
    case BinOp(l, op, r) => InBinaryTable(op) && AllowListed(l) && AllowListed(r)
    case UnaryOp(op, x) => InUnaryTable(op) && AllowListed(x)
    case OtherNode(_) => false
  }

  predicate HasComplexLiteral(e: Expr) {
    match e
    case Constant(lit) => lit.ComplexLit?
    case BinOp(l, op, r) => InBinaryTable(op) && (HasComplexLiteral(l) || HasComplexLiteral(r))
    case UnaryOp(op, x) => InUnaryTable(op) && HasComplexLiteral(x)
    case OtherNode(_) => false
  }

  predicate HasDivision(e: Expr) {
    match e
    case Constant(_) => false
    case BinOp(l, op, r) => op == Div || HasDivision(l) || HasDivision(r)
    case UnaryOp(_, x) => HasDivision(x)
    case OtherNode(_) => false
  }

  /** The message of every `ValueError` the evaluator raises. */
  predicate IsEvaluatorMessage(m: string) {
    m == DivisionByZeroMessage || "Unsupported " <= m
  }

  /** `_eval_expr`. Only allow-listed trees evaluate; on an allow-listed tree
      the only possible failure is the explicit division-by-zero error; every
      failure is a `ValueError` with one of the evaluator's own messages,
      except the `TypeError` `float()` raises on a complex literal. */
  function Eval(e: Expr, pow: PowFn): (r: Result<real, Exception>)
    ensures r.Ok? ==> AllowListed(e)
    ensures AllowListed(e) ==> r.Ok? || r == Err(Exception(ValueError, DivisionByZeroMessage))
    ensures r.Err? ==>
      (r.error.kind == ValueError && IsEvaluatorMessage(r.error.message))
      || (r.error == Exception(TypeError, ComplexToFloatMessage) && HasComplexLiteral(e))
  {
    match e
    case Constant(lit) =>
      // `ast.Num` admits int, float and complex but not bool; bool then
      // passes the `ast.Constant` test because bool is a subclass of int.
      if lit.IntLit? then Ok(lit.i as real)
      else if lit.FloatLit? then Ok(lit.x)
      else if lit.ComplexLit? then Err(Exception(TypeError, ComplexToFloatMessage))
      else if lit.BoolLit? then Ok(if lit.b then 1.0 else 0.0)
      else Err(Exception(ValueError, "Unsupported constant type: " + LiteralTypeName(lit)))
    case BinOp(l, op, r) =>
      if !InBinaryTable(op) then Err(Exception(ValueError, "Unsupported operator: " + BinaryOperatorName(op)))
      else
        var left :- Eval(l, pow);
        var right :- Eval(r, pow);
        if op == Div && right == 0.0 then Err(Exception(ValueError, DivisionByZeroMessage))
        else Ok(ApplyBinary(op, left, right, pow))
    case UnaryOp(op, x) =>
      if !InUnaryTable(op) then Err(Exception(ValueError, "Unsupported unary operator: " + UnaryOperatorName(op)))
      else
        var v :- Eval(x, pow);
        Ok(-v)
    case OtherNode(name) =>
      Err(Exception(ValueError, "Unsupported expression type: " + name))
  }

  /** An allow-listed tree without division always evaluates. */
  lemma {:induction false} DivisionFreeSucceeds(e: Expr, pow: PowFn)
    requires AllowListed(e) && !HasDivision(e)
    ensures Eval(e, pow).Ok?
  {
    match e
    case Constant(_) =>
    case BinOp(l, op, r) =>
      DivisionFreeSucceeds(l, pow);
      DivisionFreeSucceeds(r, pow);
    case UnaryOp(_, x) =>
      DivisionFreeSucceeds(x, pow);
  }

  /** Leaves: int, float and bool constants evaluate to their value as a float
      (a bool as 1.0 or 0.0); a complex constant makes `float()` raise its
      `TypeError`; any other constant, and any node kind outside the walker's
      four, is rejected with a `ValueError` naming its type. */
  lemma ConstantOperation(lit: Literal, name: string, pow: PowFn)
    ensures lit.IntLit? ==> Eval(Constant(lit), pow) == Ok(lit.i as real)
    ensures lit.FloatLit? ==> Eval(Constant(lit), pow) == Ok(lit.x)
    ensures lit.BoolLit? ==> Eval(Constant(lit), pow) == Ok(if lit.b then 1.0 else 0.0)
    ensures lit.ComplexLit? ==> Eval(Constant(lit), pow) == Err(Exception(TypeError, ComplexToFloatMessage))
    ensures lit.StrLit? ==> Eval(Constant(lit), pow) == Err(Exception(ValueError, "Unsupported constant type: str"))
    ensures lit.BytesLit? || lit.NoneLit? || lit.EllipsisLit? ==>
      Eval(Constant(lit), pow) == Err(Exception(ValueError, "Unsupported constant type: " + LiteralTypeName(lit)))
    ensures Eval(OtherNode(name), pow) == Err(Exception(ValueError, "Unsupported expression type: " + name))
  {
    assert "Unsupported constant type: " + "str" == "Unsupported constant type: str";
  }

  /** A binary operator outside the table is rejected, naming the operator,
      whatever the operands are: neither operand is evaluated. */
  lemma UnsupportedOperatorIgnoresOperands(op: BinaryOperator, l1: Expr, r1: Expr, l2: Expr, r2: Expr, pow: PowFn)
    requires !InBinaryTable(op)
    ensures Eval(BinOp(l1, op, r1), pow) == Eval(BinOp(l2, op, r2), pow)
    ensures Eval(BinOp(l1, op, r1), pow) == Err(Exception(ValueError, "Unsupported operator: " + BinaryOperatorName(op)))
  {
  }

  /** Once both operands evaluate, a table operator applies its table function,
      except that a zero divisor is rejected instead of divided by. */
  lemma BinaryOperation(op: BinaryOperator, l: Expr, r: Expr, a: real, b: real, pow: PowFn)
    requires InBinaryTable(op)
    requires Eval(l, pow) == Ok(a) && Eval(r, pow) == Ok(b)
    ensures op == Div && b == 0.0 ==> Eval(BinOp(l, op, r), pow) == Err(Exception(ValueError, DivisionByZeroMessage))
    ensures op == Div && b != 0.0 ==> Eval(BinOp(l, op, r), pow) == Ok(a / b)
    ensures op == Add ==> Eval(BinOp(l, op, r), pow) == Ok(a + b)
    ensures op == Sub ==> Eval(BinOp(l, op, r), pow) == Ok(a - b)
    ensures op == Mult ==> Eval(BinOp(l, op, r), pow) == Ok(a * b)
    ensures op == Pow ==> Eval(BinOp(l, op, r), pow) == Ok(pow(a, b))
  {
    if op == Mult {
      assert ApplyBinary(op, a, b, pow) == a * b;
    }
  }

  /** Operands are evaluated left first: a failing left operand decides the
      outcome whatever the right operand is. */
  lemma LeftFailureWins(op: BinaryOperator, l: Expr, r1: Expr, r2: Expr, pow: PowFn)
    requires InBinaryTable(op) && Eval(l, pow).Err?
    ensures Eval(BinOp(l, op, r1), pow) == Eval(l, pow)
    ensures Eval(BinOp(l, op, r2), pow) == Eval(l, pow)
  {
  }

  /** Negation is the only unary operator, and it negates. */
  lemma UnaryOperation(op: UnaryOperator, x: Expr, pow: PowFn)
    ensures op == USub && Eval(x, pow).Ok? ==> Eval(UnaryOp(op, x), pow) == Ok(-Eval(x, pow).value)
    ensures op == USub && Eval(x, pow).Err? ==> Eval(UnaryOp(op, x), pow) == Eval(x, pow)
    ensures op != USub ==> Eval(UnaryOp(op, x), pow) == Err(Exception(ValueError, "Unsupported unary operator: " + UnaryOperatorName(op)))
  {
  }

  /** Negating twice gives back the operand's outcome. */
  lemma DoubleNegation(x: Expr, pow: PowFn)
    ensures Eval(UnaryOp(USub, UnaryOp(USub, x)), pow) == Eval(x, pow)
  {
  }

  /** Trees of integer (or bool) constants under `+`, `-`, `*` and negation. */
  predicate IntegerRing(e: Expr) {
    match e
    case Constant(lit) => lit.IntLit? || lit.BoolLit?
    case BinOp(l, op, r) => (op == Add || op == Sub || op == Mult) && IntegerRing(l) && IntegerRing(r)
    case UnaryOp(op, x) => op == USub && IntegerRing(x)
    case OtherNode(_) => false
  }

  /** Integer arithmetic on such trees, as an independent reference. */
  function IntegerValue(e: Expr): int
    requires IntegerRing(e)
  {
    match e
    case Constant(lit) => if lit.IntLit? then lit.i else if lit.b then 1 else 0
    case BinOp(l, op, r) =>
      if op == Add then IntegerValue(l) + IntegerValue(r)
      else if op == Sub then IntegerValue(l) - IntegerValue(r)
      else IntegerValue(l) * IntegerValue(r)
    case UnaryOp(_, x) => -IntegerValue(x)
  }

  /** Such trees evaluate, to exactly their integer value: the float
      evaluator agrees with integer arithmetic on them. */
  lemma {:induction false} IntegerRingAgrees(e: Expr, pow: PowFn)
    requires IntegerRing(e)
    ensures Eval(e, pow) == Ok(IntegerValue(e) as real)
  {
    match e
    case Constant(_) =>
    case BinOp(l, op, r) =>
      IntegerRingAgrees(l, pow);
      IntegerRingAgrees(r, pow);
      RingStep(l, op, r, pow);
    case UnaryOp(_, x) =>
      IntegerRingAgrees(x, pow);
  }

  /** One inductive step of `IntegerRingAgrees`. */
  lemma RingStep(l: Expr, op: BinaryOperator, r: Expr, pow: PowFn)
    requires IntegerRing(BinOp(l, op, r))
    requires Eval(l, pow) == Ok(IntegerValue(l) as real) && Eval(r, pow) == Ok(IntegerValue(r) as real)
    ensures Eval(BinOp(l, op, r), pow) == Ok(IntegerValue(BinOp(l, op, r)) as real)
  {
    var a := IntegerValue(l);
    var b := IntegerValue(r);
    if op == Add {
      SumStep(l, r, a, b, pow);
    } else if op == Sub {
      DifferenceStep(l, r, a, b, pow);
    } else {
      ProductStep(l, r, a, b, pow);
    }
  }

  lemma SumStep(l: Expr, r: Expr, a: int, b: int, pow: PowFn)
    requires Eval(l, pow) == Ok(a as real) && Eval(r, pow) == Ok(b as real)
    ensures Eval(BinOp(l, Add, r), pow) == Ok((a + b) as real)
  {
    assert ApplyBinary(Add, a as real, b as real, pow) == (a + b) as real;
  }

  lemma DifferenceStep(l: Expr, r: Expr, a: int, b: int, pow: PowFn)
    requires Eval(l, pow) == Ok(a as real) && Eval(r, pow) == Ok(b as real)
    ensures Eval(BinOp(l, Sub, r), pow) == Ok((a - b) as real)
  {
    assert ApplyBinary(Sub, a as real, b as real, pow) == (a - b) as real;
  }

  lemma ProductStep(l: Expr, r: Expr, a: int, b: int, pow: PowFn)
    requires Eval(l, pow) == Ok(a as real) && Eval(r, pow) == Ok(b as real)
    ensures Eval(BinOp(l, Mult, r), pow) == Ok((a * b) as real)
  {
    MultiplyCast(a, b);
    assert ApplyBinary(Mult, a as real, b as real, pow) == (a * b) as real;
  }

  lemma MultiplyCast(a: int, b: int)
    ensures (a as real) * (b as real) == (a * b) as real
  {
  }

  /** `2 + 3 * 4` as `ast.parse` nests it: multiplication binds tighter. */
  const PrecedenceExample: Expr :=
    BinOp(Constant(IntLit(2)), Add, BinOp(Constant(IntLit(3)), Mult, Constant(IntLit(4))))

  lemma PrecedenceExampleIsFourteen(pow: PowFn)
    ensures Eval(PrecedenceExample, pow) == Ok(14.0)
  {
  }

  /** `10 / 0` is rejected by the strict evaluator with its own message. */
  lemma DivisionByZeroExample(pow: PowFn)
    ensures Eval(BinOp(Constant(IntLit(10)), Div, Constant(IntLit(0))), pow) == Err(Exception(ValueError, DivisionByZeroMessage))
  {
  }
}
