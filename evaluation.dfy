/**
 * The value-level rules of the interpreter (parsing/Interpreter.java): truth,
 * equality, printing a value, the operand checks and the results of the unary
 * and binary operators. Evaluation of the operands themselves is in module
 * Interpreter.
 */
module Evaluation {
  import opened Options
  import opened Tokens
  import opened Text
  import opened Runtime

  /** `isTruthy`: only nil and false are false. */
  function IsTruthy(v: Value): (r: bool)
    ensures r <==> v != Nil && v != Bool(false)
  {
    match v
    case Nil => false
    case Bool(b) => b
    case _ => true
  }

  /** Java's `a.equals(b)` for a non-null `a`: same kind and same content, objects by identity. */
  predicate JavaEquals(a: Value, b: Value)
    requires !a.Nil?
  {
    match a
    case Bool(x) => b.Bool? && b.b == x
    case Num(x) => b.Num? && b.n == x
    case Str(x) => b.Str? && b.s == x
    case Fn(x) => b.Fn? && b.fn == x
    case Klass(x) => b.Klass? && b.klass == x
    case Instance(x) => b.Instance? && b.instance == x
    case Native(x) => b.Native? && b.native == x
  }

  /**
   * `isEqual`: two nils are equal, nil equals nothing else, otherwise Java
   * equality; together that is exactly equality of Lox values.
   */
  function IsEqual(a: Value, b: Value): (r: bool)
    ensures r <==> a == b
  {
    if a.Nil? && b.Nil? then true
    else if a.Nil? then false
    else JavaEquals(a, b)
  }

  predicate EndsWithPointZero(text: string) {
    |text| >= 2 && text[|text| - 2..] == ".0"
  }

  /** Drops one trailing ".0" from a number's text, as `stringify` does. */
  function StripPointZero(text: string): (r: string)
    ensures EndsWithPointZero(text) ==> r + ".0" == text
    ensures !EndsWithPointZero(text) ==> r == text
  {
    if EndsWithPointZero(text) then text[..|text| - 2] else text
  }

  /**
   * `stringify`: "nil" for nil, a number's text (`numText` stands for
   * Double.toString) without a trailing ".0", otherwise Java's `toString`
   * of the value.
   */
  function Stringify(v: Value, numText: real -> string): (r: string)
    ensures v.Str? ==> r == v.s
    ensures v.Num? ==> r == StripPointZero(numText(v.n))
    ensures v.Num? ==> r == numText(v.n) || r + ".0" == numText(v.n)
    ensures v.Nil? ==> r == "nil"
    ensures v == Bool(true) ==> r == "true"
    ensures v == Bool(false) ==> r == "false"
    ensures v.Fn? ==> r == v.fn.ToString() && r[4..|r| - 1] == v.fn.declaration.name.lexeme
    ensures v.Klass? ==> r == v.klass.name
    ensures v.Instance? ==> r == v.instance.klass.name + " instance"
    ensures v.Native? ==> r == "<native fn>"
  {
    match v
    case Nil => "nil"
    case Bool(b) => if b then "true" else "false"
    case Num(n) => StripPointZero(numText(n))
    case Str(s) => s
    case Fn(f) => f.ToString()
    case Klass(c) => c.ToString()
    case Instance(i) => i.ToString()
    case Native(_) => "<native fn>"
  }

  /** `stringify` of a whole number whose Java text is "<digits>.0" prints just the digits. */
  lemma StringifyWholeNumber(n: real, numText: real -> string, digits: string)
    requires AllDigits(digits) && numText(n) == digits + ".0"
    ensures Stringify(Num(n), numText) == digits
  {
    assert (digits + ".0")[|digits + ".0"| - 2..] == ".0";
    assert (digits + ".0")[..|digits|] == digits;
  }

  /** `checkNumberOperand`: fails exactly when the operand is not a number. */
  function CheckNumberOperand(operator: Token, operand: Value): (r: Option<RuntimeError>)
    ensures r.None? <==> operand.Num?
    ensures r.Some? ==> r.value == RuntimeError(operator, "Operand must be a number.")
  {
    if operand.Num? then None else Some(RuntimeError(operator, "Operand must be a number."))
  }

  /** `checkNumberOperands`: fails exactly when either operand is not a number. */
  function CheckNumberOperands(operator: Token, left: Value, right: Value): (r: Option<RuntimeError>)
    ensures r.None? <==> left.Num? && right.Num?
    ensures r.Some? ==> r.value == RuntimeError(operator, "Operands must be numbers")
  {
    if left.Num? && right.Num? then None else Some(RuntimeError(operator, "Operands must be numbers"))
  }

  /** The operators that demand two number operands. */
  predicate NumericOperator(t: TokenType) {
    t in {MINUS, SLASH, STAR, GREATER, GREATER_EQUAL, LESS, LESS_EQUAL}
  }

  /**
   * The value of `left op right` once both operands are evaluated
   * (`visitBinaryExpr`'s switch); an operator outside the switch yields nil.
   */
  function BinaryOp(operator: Token, left: Value, right: Value, numText: real -> string): (r: Outcome)
    ensures r.Normal? || r.Error?
    ensures r.Error? ==> r.error.token == operator
    ensures r.Normal? ==> r.value.Nil? || r.value.Bool? || r.value.Num? || r.value.Str?
  {
    if NumericOperator(operator.tokenType) && CheckNumberOperands(operator, left, right).Some? then
      Error(CheckNumberOperands(operator, left, right).value)
    else
      match operator.tokenType
      case MINUS => Normal(Num(left.n - right.n))
      case SLASH =>
        if right.n == 0.0 then Error(RuntimeError(operator, "Cannot divide by zero."))
        else Normal(Num(left.n / right.n))
      case STAR => Normal(Num(left.n * right.n))
      case PLUS =>
        if left.Num? && right.Num? then Normal(Num(left.n + right.n))
        else if left.Num? && right.Str? then Normal(Str(Stringify(left, numText) + right.s))
        else if left.Str? then Normal(Str(left.s + Stringify(right, numText)))
        else Error(RuntimeError(operator, "Operands must be convertible."))
      case GREATER => Normal(Bool(left.n > right.n))
      case GREATER_EQUAL => Normal(Bool(left.n >= right.n))
      case LESS => Normal(Bool(left.n < right.n))
      case LESS_EQUAL => Normal(Bool(left.n <= right.n))
      case BANG_EQUAL => Normal(Bool(!IsEqual(left, right)))
      case EQUAL_EQUAL => Normal(Bool(IsEqual(left, right)))
      case _ => Normal(Nil)
  }

  /** When each binary operator fails, and with which message. */
  lemma BinaryOpErrors(operator: Token, left: Value, right: Value, numText: real -> string)
    ensures var r := BinaryOp(operator, left, right, numText);
      r.Error? <==>
        (NumericOperator(operator.tokenType) && !(left.Num? && right.Num?)) ||
        (operator.tokenType == SLASH && left.Num? && right.Num? && right.n == 0.0) ||
        (operator.tokenType == PLUS && !left.Str? && !(left.Num? && (right.Num? || right.Str?)))
    ensures var r := BinaryOp(operator, left, right, numText);
      r.Error? ==> r.error.message in {"Operands must be numbers", "Cannot divide by zero.", "Operands must be convertible."}
  {
  }

  /**
   * Every operator `isBinaryOp` admits is given a value by the switch except
   * `=`, which falls through to nil: for numbers that can be divided, the
   * result is never nil unless the operator is EQUAL.
   */
  lemma BinaryOperatorsHandled(operator: Token, x: real, y: real, numText: real -> string)
    requires operator.IsBinaryOp() && y != 0.0
    ensures var r := BinaryOp(operator, Num(x), Num(y), numText);
      r.Normal? && (r.value == Nil <==> operator.tokenType == EQUAL)
  {
  }

  /** `+` concatenates as soon as a string is involved, stringifying the other side in place. */
  lemma PlusConcatenation(operator: Token, left: Value, right: Value, numText: real -> string)
    requires operator.tokenType == PLUS
    requires left.Str? || (left.Num? && right.Str?)
    ensures BinaryOp(operator, left, right, numText) ==
      Normal(Str(Stringify(left, numText) + Stringify(right, numText)))
  {
  }

  /** `!=` is the negation of `==`, and neither can fail. */
  lemma EqualityOperatorsComplement(eq: Token, ne: Token, left: Value, right: Value, numText: real -> string)
    requires eq.tokenType == EQUAL_EQUAL && ne.tokenType == BANG_EQUAL
    ensures BinaryOp(eq, left, right, numText) == Normal(Bool(left == right))
    ensures BinaryOp(ne, left, right, numText) == Normal(Bool(left != right))
  {
  }

  /** The comparisons on numbers: `<=` is `<` or `==`, `>` is the negation of `<=`. */
  lemma ComparisonsAgree(lt: Token, le: Token, gt: Token, eq: Token, x: real, y: real, numText: real -> string)
    requires lt.tokenType == LESS && le.tokenType == LESS_EQUAL
    requires gt.tokenType == GREATER && eq.tokenType == EQUAL_EQUAL
    ensures BinaryOp(le, Num(x), Num(y), numText).value.b <==>
      BinaryOp(lt, Num(x), Num(y), numText).value.b || BinaryOp(eq, Num(x), Num(y), numText).value.b
    ensures BinaryOp(gt, Num(x), Num(y), numText).value.b <==> !BinaryOp(le, Num(x), Num(y), numText).value.b
  {
  }

  /**
   * `/` checks its operands before the divisor: two numbers with a zero
   * divisor fail with "Cannot divide by zero.", anything but two numbers
   * fails with the operand error whatever the divisor, and otherwise the
   * quotient is the value.
   */
  lemma DivisionChecksOperandsFirst(slash: Token, left: Value, right: Value, numText: real -> string)
    requires slash.tokenType == SLASH
    ensures var r := BinaryOp(slash, left, right, numText);
      if !(left.Num? && right.Num?) then r == Error(RuntimeError(slash, "Operands must be numbers"))
      else if right.n == 0.0 then r == Error(RuntimeError(slash, "Cannot divide by zero."))
      else r == Normal(Num(left.n / right.n))
  {
  }

  /**
   * The value of `op right` once the operand is evaluated (`visitUnaryExpr`):
   * `-` negates a number, `!` negates truth, anything else yields nil.
   */
  function UnaryOp(operator: Token, right: Value): (r: Outcome)
    ensures r.Normal? || r.Error?
    ensures r.Error? <==> operator.tokenType == MINUS && !right.Num?
    ensures r.Error? ==> r.error == RuntimeError(operator, "Operand must be a number.")
    ensures operator.tokenType == BANG ==> r == Normal(Bool(!IsTruthy(right)))
  {
    match operator.tokenType
    case MINUS =>
      if CheckNumberOperand(operator, right).Some? then Error(CheckNumberOperand(operator, right).value)
      else Normal(Num(-right.n))
    case BANG => Normal(Bool(!IsTruthy(right)))
    case _ => Normal(Nil)
  }

  /** Applying a unary operator twice: `- -x` is `x`, `!!v` is the truth of `v`. */
  lemma UnaryTwice(operator: Token, v: Value)
    requires operator.IsUnaryOp()
    requires operator.tokenType == MINUS ==> v.Num?
    ensures UnaryOp(operator, UnaryOp(operator, v).value) ==
      Normal(if operator.tokenType == MINUS then v else Bool(IsTruthy(v)))
  {
  }

  /** The message of a call whose argument count differs from the callee's arity. */
  function ArityMessage(arity: nat, count: nat): (m: string)
    ensures |m| > 0 && m[|m| - 1] == '.'
  {
    "Expected " + (NatToString(arity) + (" arguments but got " + (NatToString(count) + ".")))
  }

  /** The arity message names both numbers recoverably: distinct mismatches give distinct messages. */
  lemma ArityMessageInjective(a1: nat, c1: nat, a2: nat, c2: nat)
    requires ArityMessage(a1, c1) == ArityMessage(a2, c2)
    ensures a1 == a2 && c1 == c2
  {
    var middle := " arguments but got ";
    var tail1 := middle + (NatToString(c1) + ".");
    var tail2 := middle + (NatToString(c2) + ".");
    PrefixCancel("Expected ", NatToString(a1) + tail1, NatToString(a2) + tail2);
    DigitsPrefixUnique(NatToString(a1), tail1, NatToString(a2), tail2);
    NatToStringInjective(a1, a2);
    PrefixCancel(middle, NatToString(c1) + ".", NatToString(c2) + ".");
    DigitsPrefixUnique(NatToString(c1), ".", NatToString(c2), ".");
    NatToStringInjective(c1, c2);
  }

  /** The error of calling something that is not a function or a class. */
  function NotCallable(paren: Token): (e: RuntimeError)
    ensures e.token == paren
  {
    RuntimeError(paren, "Can only call functions and classes.")
  }

  /** `arity()` of a callable value: the parameter count of a function, 0 for a class and for `clock`. */
  function ArityOf(callee: Value): (n: nat)
    requires callee.IsCallable()
    ensures callee.Fn? ==> n == |callee.fn.declaration.params|
    ensures !callee.Fn? ==> n == 0
  {
    match callee
    case Fn(f) => f.Arity()
    case Klass(c) => c.Arity()
    case Native(_) => 0
  }
}
