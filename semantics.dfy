/**
 * The evaluation rules of the tree walker (parsing/Interpreter.java and the
 * `call` methods of types/LoxFunction.java and types/LoxClass.java), stated
 * over the calls one evaluation makes: for each kind of node, which
 * sub-evaluations and sub-executions happen, in which order, and how the
 * node's outcome follows from theirs. The interpreter (module Interpreter)
 * logs every call as it returns and proves that each node it evaluates
 * obeys its rule over the calls logged beneath it; the lemmas here are what
 * the rules promise.
 */
module Semantics {
  import opened Options
  import opened Tokens
  import opened Ast
  import opened Environment
  import opened Runtime
  import opened Evaluation

  /** A call of the interpreter that has returned, with how it ended and the calls it made itself, in order. */
  datatype Event =
    | Eval(expr: Expr, outcome: Outcome, inner: seq<Event>)                     // `evaluate(expr)`
    | Exec(stmt: Stmt, env: Frame<Value>, outcome: Outcome, inner: seq<Event>)  // `execute(stmt)`, `env` being the current frame
    | RanBlock(statements: seq<Stmt>, frame: Frame<Value>, initial: map<string, Entry<Value>>, outcome: Outcome, inner: seq<Event>)
      // `executeBlock(statements, frame)`, the frame's named store holding `initial` on entry
    | Invoke(callee: Value, arguments: seq<Value>, outcome: Outcome, inner: seq<Event>)  // `call(interpreter, arguments)`

  /** Call `i` of `ch` is an evaluation of `x`. */
  ghost predicate EvaluatedAt(ch: seq<Event>, i: nat, x: Expr) {
    i < |ch| && ch[i].Eval? && ch[i].expr == x
  }

  /** How an outcome ends the enclosing statements at once: a return, an error or a halt. */
  predicate Abrupt(o: Outcome) {
    o.ReturnSignal? || o.Error? || o.Halt?
  }

  /** The outcome of a statement that evaluates an expression and drops its value. */
  function Dropped(r: Outcome): Outcome {
    if r.Normal? then Normal(Nil) else r
  }

  /** Whether a logical operator yields its left value without evaluating the right. */
  predicate ShortCircuits(operator: Token, left: Value) {
    if operator.tokenType == OR then IsTruthy(left) else !IsTruthy(left)
  }

  // Expressions.

  /** `visitAssignExpr`: the value first; storing it can fail with "Undefined variable". */
  ghost predicate AssignRule(name: Token, value: Expr, ch: seq<Event>, o: Outcome) {
    |ch| == 1 && EvaluatedAt(ch, 0, value) &&
    if ch[0].outcome.Normal? then o == ch[0].outcome || o == Error(UndefinedVariable(name))
    else o == ch[0].outcome
  }

  /** `visitBinaryExpr`: left, then right, then the operator on the two values. */
  ghost predicate BinaryRule(left: Expr, operator: Token, right: Expr, ch: seq<Event>, o: Outcome, numText: real -> string) {
    EvaluatedAt(ch, 0, left) &&
    if !ch[0].outcome.Normal? then |ch| == 1 && o == ch[0].outcome
    else
      |ch| == 2 && EvaluatedAt(ch, 1, right) &&
      if !ch[1].outcome.Normal? then o == ch[1].outcome
      else o == BinaryOp(operator, ch[0].outcome.value, ch[1].outcome.value, numText)
  }

  /** `visitLogicalExpr`: the left value if it decides the result, otherwise the right operand's outcome. */
  ghost predicate LogicalRule(left: Expr, operator: Token, right: Expr, ch: seq<Event>, o: Outcome) {
    EvaluatedAt(ch, 0, left) &&
    if !ch[0].outcome.Normal? || ShortCircuits(operator, ch[0].outcome.value) then |ch| == 1 && o == ch[0].outcome
    else |ch| == 2 && EvaluatedAt(ch, 1, right) && ch[1].outcome == o
  }

  /** `visitUnaryExpr`: the operand, then the operator on its value. */
  ghost predicate UnaryRule(operator: Token, right: Expr, ch: seq<Event>, o: Outcome) {
    |ch| == 1 && EvaluatedAt(ch, 0, right) &&
    o == if ch[0].outcome.Normal? then UnaryOp(operator, ch[0].outcome.value) else ch[0].outcome
  }

  /** `visitCommaGroupExpr`: left, then right; the value is nil. */
  ghost predicate CommaRule(left: Expr, right: Expr, ch: seq<Event>, o: Outcome) {
    EvaluatedAt(ch, 0, left) &&
    if !ch[0].outcome.Normal? then |ch| == 1 && o == ch[0].outcome
    else |ch| == 2 && EvaluatedAt(ch, 1, right) && o == Dropped(ch[1].outcome)
  }

  /** `visitTernaryExpr`: the condition, then only the branch its truth selects. */
  ghost predicate TernaryRule(cond: Expr, trueVal: Expr, falseVal: Expr, ch: seq<Event>, o: Outcome) {
    EvaluatedAt(ch, 0, cond) &&
    if !ch[0].outcome.Normal? then |ch| == 1 && o == ch[0].outcome
    else |ch| == 2 && EvaluatedAt(ch, 1, if IsTruthy(ch[0].outcome.value) then trueVal else falseVal) && ch[1].outcome == o
  }

  /**
   * The argument evaluations of a call, left to right: each one of the
   * argument in its position, all but the last with a value.
   */
  ghost predicate ArgumentsEvaluated(arguments: seq<Expr>, evals: seq<Event>) {
    |evals| <= |arguments| &&
    (forall i | 0 <= i < |evals| :: evals[i].Eval? && evals[i].expr == arguments[i]) &&
    (forall i | 0 <= i < |evals| - 1 :: evals[i].outcome.Normal?)
  }

  /** The argument values of evaluations that all yielded one. */
  ghost function Values(evals: seq<Event>): seq<Value> {
    seq(|evals|, i requires 0 <= i < |evals| => if evals[i].outcome.Normal? then evals[i].outcome.value else Nil)
  }

  /**
   * `visitCallExpr`: the callee; a non-callable fails before any argument is
   * evaluated; then the rest of the call on the callee's value.
   */
  ghost predicate CallRule(callee: Expr, paren: Token, arguments: seq<Expr>, ch: seq<Event>, o: Outcome) {
    EvaluatedAt(ch, 0, callee) &&
    var c := ch[0].outcome;
    if !c.Normal? then |ch| == 1 && o == c
    else if !c.value.IsCallable() then |ch| == 1 && o == Error(NotCallable(paren))
    else ArgumentsRule(c.value, paren, arguments, ch[1..], o)
  }

  /**
   * A call once its callee yielded the callable `cv`: the arguments left to
   * right, the first failing one ending the call; then the arity check; then
   * one invocation of `cv` with the values.
   */
  ghost predicate ArgumentsRule(cv: Value, paren: Token, arguments: seq<Expr>, ch: seq<Event>, o: Outcome) {
    var n := if |ch| <= |arguments| then |ch| else |arguments|;
    var evals := ch[..n];
    cv.IsCallable() && ArgumentsEvaluated(arguments, evals) &&
    if n > 0 && !evals[n - 1].outcome.Normal? then |ch| == n && o == evals[n - 1].outcome
    else
      n == |arguments| &&
      if n != ArityOf(cv) then |ch| == n && o == Error(RuntimeError(paren, ArityMessage(ArityOf(cv), n)))
      else
        |ch| == n + 1 && ch[n].Invoke? && ch[n].callee == cv &&
        ch[n].arguments == Values(evals) && ch[n].outcome == o
  }

  /** How the calls beneath an expression node determine its outcome, by node kind. */
  ghost predicate ExprRule(e: Expr, ch: seq<Event>, o: Outcome, numText: real -> string) {
    match e
    case Assign(name, value, _) => AssignRule(name, value, ch, o)
    case Binary(l, op, r) => BinaryRule(l, op, r, ch, o, numText)
    case Call(callee, paren, args) => CallRule(callee, paren, args, ch, o)
    case Get(_, _) => ch == [] && o == Halt(Unsupported("Get"))
    case Grouping(x) => |ch| == 1 && EvaluatedAt(ch, 0, x) && ch[0].outcome == o
    case Literal(lit) => ch == [] && o == Normal(FromLiteral(lit))
    case Logical(l, op, r) => LogicalRule(l, op, r, ch, o)
    case Set(_, _, _) => ch == [] && o == Halt(Unsupported("Set"))
    case Unary(op, r) => UnaryRule(op, r, ch, o)
    case CommaGroup(l, r) => CommaRule(l, r, ch, o)
    case Ternary(c, t, f) => TernaryRule(c, t, f, ch, o)
    case Variable(name, _) => ch == [] && (o.Normal? || o == Error(UndefinedVariable(name)))
    case AnonFunction(_) => ch == [] && o == Halt(Unsupported("AnonFunction"))
  }

  /** The runtime value of a literal token's value. */
  function FromLiteral(lit: LiteralValue): (v: Value)
    ensures !v.Fn? && !v.Klass? && !v.Instance? && !v.Native?
  {
    match lit
    case NullLit => Nil
    case BoolLit(b) => Bool(b)
    case NumberLit(n) => Num(n)
    case StringLit(s) => Str(s)
  }

  // Calls and blocks.

  /**
   * `call` on a callable given the right number of arguments: a function runs
   * its body as a block in a frame whose parent is its closure and whose
   * named store starts as the parameter bindings, and `CallResult` turns how
   * the body ended into the result (a call with no fuel left halts instead);
   * a class makes an instance of itself; `clock` yields a number.
   */
  ghost predicate InvokeRule(callee: Value, arguments: seq<Value>, ch: seq<Event>, o: Outcome) {
    match callee
    case Fn(f) =>
      (ch == [] && o == Halt(OutOfFuel)) ||
      (|ch| == 1 && ch[0].RanBlock? && ch[0].statements == f.declaration.body &&
       ch[0].frame.enclosing == f.closure &&
       |f.declaration.params| == |arguments| && ch[0].initial == Bindings(f.declaration.params, arguments) &&
       o == CallResult(ch[0].outcome))
    case Klass(c) => ch == [] && o.Normal? && o.value.Instance? && o.value.instance.klass == c
    case Native(_) => ch == [] && o.Normal? && o.value.Num?
    case _ => false
  }

  /**
   * `executeBlock`'s loop: statement i runs in `env` only after statements
   * 0..i-1 all completed normally, and only the last one run may have ended
   * otherwise; when fewer than all ran, the last one run did.
   */
  ghost predicate RunsInOrder(statements: seq<Stmt>, env: Frame<Value>, ch: seq<Event>) {
    |ch| <= |statements| &&
    (forall i | 0 <= i < |ch| :: ch[i].Exec? && ch[i].stmt == statements[i] && ch[i].env == env) &&
    (forall i | 0 <= i < |ch| - 1 :: ch[i].outcome == Normal(Nil)) &&
    (|ch| < |statements| ==> |ch| > 0 && ch[|ch| - 1].outcome != Normal(Nil))
  }

  /** How a run of statements ends: as its last statement run ended, normally when none ran. */
  ghost function BlockOutcome(ch: seq<Event>): Outcome {
    if ch == [] then Normal(Nil) else ch[|ch| - 1].outcome
  }

  ghost predicate BlockRule(statements: seq<Stmt>, env: Frame<Value>, ch: seq<Event>, o: Outcome) {
    RunsInOrder(statements, env, ch) && o == BlockOutcome(ch)
  }

  // Loops.

  /** The body completed in a way that lets the loop go on: normally or by `continue`. */
  predicate GoesOn(o: Outcome) {
    o == Normal(Nil) || o == ContinueSignal
  }

  /**
   * A `while` or `for` loop from the top of an iteration: the condition, if
   * there is one (a failure ends the loop with it, a false value ends it
   * normally), then the rest of the iteration. Running out of iterations at
   * the top halts the loop.
   */
  ghost predicate LoopRule(cond: Option<Expr>, body: Stmt, post: Option<Expr>, ch: seq<Event>, o: Outcome)
    decreases |ch|, 1
  {
    (ch == [] && o == Halt(OutOfFuel)) ||
    (ch != [] &&
     match cond
     case Some(c) =>
       EvaluatedAt(ch, 0, c) &&
       var r := ch[0].outcome;
       if !r.Normal? then |ch| == 1 && o == r
       else if !IsTruthy(r.value) then |ch| == 1 && o == Normal(Nil)
       else BodyRule(cond, body, post, ch[1..], o)
     case None => BodyRule(cond, body, post, ch, o))
  }

  /**
   * A loop from the run of its body: `break` ends it normally, anything but
   * completion and `continue` ends it with that outcome; otherwise the
   * increment, if there is one, runs (a failure there ends the loop) and the
   * next iteration starts.
   */
  ghost predicate BodyRule(cond: Option<Expr>, body: Stmt, post: Option<Expr>, ch: seq<Event>, o: Outcome)
    decreases |ch|, 0
  {
    |ch| > 0 && ch[0].Exec? && ch[0].stmt == body &&
    var b := ch[0].outcome;
    if b == BreakSignal then |ch| == 1 && o == Normal(Nil)
    else if !GoesOn(b) then |ch| == 1 && o == b
    else match post
      case None => LoopRule(cond, body, post, ch[1..], o)
      case Some(p) =>
        EvaluatedAt(ch, 1, p) &&
        if !ch[1].outcome.Normal? then |ch| == 2 && o == ch[1].outcome
        else LoopRule(cond, body, post, ch[2..], o)
  }

  /** Whole iterations that each let the loop go on: what a running loop has done so far. */
  ghost predicate Rounds(cond: Option<Expr>, body: Stmt, post: Option<Expr>, ch: seq<Event>)
    decreases |ch|, 1
  {
    ch == [] ||
    match cond
    case Some(c) =>
      EvaluatedAt(ch, 0, c) && ch[0].outcome.Normal? && IsTruthy(ch[0].outcome.value) &&
      BodyRounds(cond, body, post, ch[1..])
    case None => BodyRounds(cond, body, post, ch)
  }

  ghost predicate BodyRounds(cond: Option<Expr>, body: Stmt, post: Option<Expr>, ch: seq<Event>)
    decreases |ch|, 0
  {
    |ch| > 0 && ch[0].Exec? && ch[0].stmt == body && GoesOn(ch[0].outcome) &&
    match post
    case None => Rounds(cond, body, post, ch[1..])
    case Some(p) => EvaluatedAt(ch, 1, p) && ch[1].outcome.Normal? && Rounds(cond, body, post, ch[2..])
  }

  /** `visitForStmt`: the initializer, if any, once (anything but completion ends the loop with it), then the loop. */
  ghost predicate ForRule(init: Option<Stmt>, cond: Option<Expr>, post: Option<Expr>, body: Stmt, ch: seq<Event>, o: Outcome) {
    match init
    case None => LoopRule(cond, body, post, ch, o)
    case Some(i) =>
      |ch| > 0 && ch[0].Exec? && ch[0].stmt == i &&
      if ch[0].outcome != Normal(Nil) then |ch| == 1 && o == ch[0].outcome
      else LoopRule(cond, body, post, ch[1..], o)
  }

  // Statements.

  /** `visitIfStmt`: the condition, then the branch it selects, if any. */
  ghost predicate IfRule(cond: Expr, thenBranch: Stmt, elseBranch: Option<Stmt>, ch: seq<Event>, o: Outcome) {
    EvaluatedAt(ch, 0, cond) &&
    var r := ch[0].outcome;
    if !r.Normal? then |ch| == 1 && o == r
    else if IsTruthy(r.value) then |ch| == 2 && ch[1].Exec? && ch[1].stmt == thenBranch && o == ch[1].outcome
    else if elseBranch.Some? then |ch| == 2 && ch[1].Exec? && ch[1].stmt == elseBranch.value && o == ch[1].outcome
    else |ch| == 1 && o == Normal(Nil)
  }

  /**
   * A statement that evaluates its optional expression once: a failure ends
   * it with that outcome; otherwise a `return` raises the Return signal with
   * the value (nil without an expression) and any other such statement
   * completes normally.
   */
  ghost predicate OneValueRule(x: Option<Expr>, ch: seq<Event>, o: Outcome, isReturn: bool) {
    match x
    case None => ch == [] && o == (if isReturn then ReturnSignal(Nil) else Normal(Nil))
    case Some(e) =>
      |ch| == 1 && EvaluatedAt(ch, 0, e) &&
      o == if !ch[0].outcome.Normal? then ch[0].outcome
           else if isReturn then ReturnSignal(ch[0].outcome.value) else Normal(Nil)
  }

  /** How the calls beneath a statement determine its outcome, by statement kind. */
  ghost predicate StmtRule(s: Stmt, ch: seq<Event>, o: Outcome) {
    match s
    case Block(ss) =>
      |ch| == 1 && ch[0].RanBlock? && ch[0].statements == ss && ch[0].initial == map[] && ch[0].outcome == o
    case Expression(e) => OneValueRule(Some(e), ch, o, false)
    case Function(_) => ch == [] && o == Normal(Nil)
    case If(c, t, f) => IfRule(c, t, f, ch, o)
    case Print(e) => OneValueRule(Some(e), ch, o, false)
    case Return(_, v) => OneValueRule(v, ch, o, true)
    case Var(_, init, _) => OneValueRule(init, ch, o, false)
    case While(c, b) => LoopRule(Some(c), b, None, ch, o)
    case For(init, c, p, b) => ForRule(init, c, p, b, ch, o)
    case Break(_) => ch == [] && o == BreakSignal
    case Continue(_) => ch == [] && o == ContinueSignal
    case Class(_, _) => ch == [] && o == Halt(Unsupported("Class"))
  }

  // Whole runs.

  /** The call `c` obeyed the rule of its kind, and so did every call beneath it. */
  ghost predicate Obeys(c: Event, numText: real -> string)
    decreases c, 2
  {
    match c
    case Eval(e, o, inner) => EvalObeys(e, o, inner, numText)
    case Exec(s, _, o, inner) => ExecObeys(s, o, inner, numText)
    case RanBlock(statements, frame, _, o, inner) => BlockObeys(statements, frame, o, inner, numText)
    case Invoke(callee, arguments, o, inner) => InvokeObeys(callee, arguments, o, inner, numText)
  }

  /** An evaluation of `e` that made the calls `inner` and ended with `o` obeyed the rules, all the way down. */
  ghost predicate EvalObeys(e: Expr, o: Outcome, inner: seq<Event>, numText: real -> string)
    decreases inner, 1
  {
    ExprRule(e, inner, o, numText) && AllObey(inner, numText)
  }

  /** Likewise for an execution of `s`. */
  ghost predicate ExecObeys(s: Stmt, o: Outcome, inner: seq<Event>, numText: real -> string)
    decreases inner, 1
  {
    StmtRule(s, inner, o) && AllObey(inner, numText)
  }

  /** Likewise for a block run in `frame`. */
  ghost predicate BlockObeys(statements: seq<Stmt>, frame: Frame<Value>, o: Outcome, inner: seq<Event>, numText: real -> string)
    decreases inner, 1
  {
    BlockRule(statements, frame, inner, o) && AllObey(inner, numText)
  }

  /** Likewise for a call of `callee`. */
  ghost predicate InvokeObeys(callee: Value, arguments: seq<Value>, o: Outcome, inner: seq<Event>, numText: real -> string)
    decreases inner, 1
  {
    InvokeRule(callee, arguments, inner, o) && AllObey(inner, numText)
  }

  /** Every call of `calls` obeyed its rule, all the way down. */
  ghost predicate AllObey(calls: seq<Event>, numText: real -> string)
    decreases calls, 0
  {
    forall k {:trigger Obeys(calls[k], numText)} | 0 <= k < |calls| :: Obeys(calls[k], numText)
  }

  // What the rules promise.

  /**
   * Exceptions propagate out of expressions: a sub-evaluation that fails or
   * halts is the last call the expression makes, and its outcome is the
   * expression's.
   */
  lemma ExprFailureEnds(e: Expr, ch: seq<Event>, o: Outcome, numText: real -> string, i: nat)
    requires ExprRule(e, ch, o, numText)
    requires i < |ch| && ch[i].Eval? && (ch[i].outcome.Error? || ch[i].outcome.Halt?)
    ensures i == |ch| - 1 && o == ch[i].outcome
  {
    match e
    case Call(callee, paren, args) =>
      if i > 0 {
        var n := if |ch| - 1 <= |args| then |ch| - 1 else |args|;
        assert ch[1..][..n][i - 1] == ch[i];
      }
    case _ =>
  }

  /**
   * `or` has the truth of the disjunction of its operands' truths and `and`
   * that of the conjunction, where an operand that was never evaluated counts
   * as false.
   */
  lemma LogicalTruth(left: Expr, operator: Token, right: Expr, ch: seq<Event>, o: Outcome)
    requires LogicalRule(left, operator, right, ch, o) && o.Normal?
    ensures ch[0].outcome.Normal?
    ensures var l := IsTruthy(ch[0].outcome.value);
      var r := |ch| == 2 && ch[1].outcome.Normal? && IsTruthy(ch[1].outcome.value);
      IsTruthy(o.value) <==> if operator.tokenType == OR then l || r else l && r
  {
    if !ch[0].outcome.Normal? || ShortCircuits(operator, ch[0].outcome.value) {
      assert |ch| == 1;
    } else {
      assert ch[1].outcome == o;
    }
  }

  /**
   * A call runs its callee's `call` only after the callee, then every
   * argument in order, yielded a value; the values passed are those of the
   * arguments in their positions, as many as the callee's arity.
   */
  lemma InvokedWithArgumentValues(callee: Expr, paren: Token, arguments: seq<Expr>, ch: seq<Event>, o: Outcome)
    requires CallRule(callee, paren, arguments, ch, o)
    requires ch[|ch| - 1].Invoke?
    ensures ch[0].outcome.Normal? && ch[|ch| - 1].callee == ch[0].outcome.value
    ensures ch[|ch| - 1].callee.IsCallable() && |arguments| == ArityOf(ch[|ch| - 1].callee)
    ensures |ch| == |arguments| + 2 && |ch[|ch| - 1].arguments| == |arguments|
    ensures forall i | 0 <= i < |arguments| ::
      EvaluatedAt(ch, i + 1, arguments[i]) && ch[i + 1].outcome == Normal(ch[|ch| - 1].arguments[i])
    ensures o == ch[|ch| - 1].outcome
  {
    var n := if |ch| - 1 <= |arguments| then |ch| - 1 else |arguments|;
    var evals := ch[1..][..n];
    assert !(n > 0 && !evals[n - 1].outcome.Normal?);
    forall i | 0 <= i < |arguments|
      ensures EvaluatedAt(ch, i + 1, arguments[i]) && ch[i + 1].outcome == Normal(ch[|ch| - 1].arguments[i])
    {
      assert evals[i] == ch[i + 1];
      if i < n - 1 {
        assert evals[i].outcome.Normal?;
      }
    }
  }

  /**
   * A block completes normally exactly when every statement ran and
   * completed; otherwise it ends as the one statement that did not complete,
   * and no statement after it ran.
   */
  lemma BlockCompletion(statements: seq<Stmt>, env: Frame<Value>, ch: seq<Event>, o: Outcome)
    requires BlockRule(statements, env, ch, o)
    ensures o == Normal(Nil) <==> |ch| == |statements| && forall i | 0 <= i < |ch| :: ch[i].outcome == Normal(Nil)
    ensures o != Normal(Nil) ==>
      |ch| > 0 && ch[|ch| - 1].outcome == o && forall i | 0 <= i < |ch| - 1 :: ch[i].outcome == Normal(Nil)
  {
    if o == Normal(Nil) && ch != [] {
      assert ch[|ch| - 1].outcome == Normal(Nil);
    }
  }

  /** A run of the body that breaks is the last call of the loop, which ends normally. */
  lemma {:induction false} LoopBreakEnds(cond: Option<Expr>, body: Stmt, post: Option<Expr>, ch: seq<Event>, o: Outcome, i: nat)
    requires LoopRule(cond, body, post, ch, o)
    requires i < |ch| && ch[i].Exec? && ch[i].outcome == BreakSignal
    ensures i == |ch| - 1 && o == Normal(Nil)
    decreases |ch|, 1
  {
    if cond.Some? {
      BodyBreakEnds(cond, body, post, ch[1..], o, i - 1);
    } else {
      BodyBreakEnds(cond, body, post, ch, o, i);
    }
  }

  lemma {:induction false} BodyBreakEnds(cond: Option<Expr>, body: Stmt, post: Option<Expr>, ch: seq<Event>, o: Outcome, i: nat)
    requires BodyRule(cond, body, post, ch, o)
    requires i < |ch| && ch[i].Exec? && ch[i].outcome == BreakSignal
    ensures i == |ch| - 1 && o == Normal(Nil)
    decreases |ch|, 0
  {
    if GoesOn(ch[0].outcome) {
      if post.None? {
        LoopBreakEnds(cond, body, post, ch[1..], o, i - 1);
      } else if ch[1].outcome.Normal? {
        LoopBreakEnds(cond, body, post, ch[2..], o, i - 2);
      }
    }
  }

  /** After a run of the body that completes or continues, the increment is evaluated next. */
  lemma {:induction false} LoopIncrementFollows(cond: Option<Expr>, body: Stmt, post: Option<Expr>, ch: seq<Event>, o: Outcome, i: nat)
    requires LoopRule(cond, body, post, ch, o) && post.Some?
    requires i < |ch| && ch[i].Exec? && GoesOn(ch[i].outcome)
    ensures EvaluatedAt(ch, i + 1, post.value)
    decreases |ch|, 1
  {
    if cond.Some? {
      BodyIncrementFollows(cond, body, post, ch[1..], o, i - 1);
    } else {
      BodyIncrementFollows(cond, body, post, ch, o, i);
    }
  }

  lemma {:induction false} BodyIncrementFollows(cond: Option<Expr>, body: Stmt, post: Option<Expr>, ch: seq<Event>, o: Outcome, i: nat)
    requires BodyRule(cond, body, post, ch, o) && post.Some?
    requires i < |ch| && ch[i].Exec? && GoesOn(ch[i].outcome)
    ensures EvaluatedAt(ch, i + 1, post.value)
    decreases |ch|, 0
  {
    if i > 1 && ch[1].outcome.Normal? {
      LoopIncrementFollows(cond, body, post, ch[2..], o, i - 2);
    }
  }

  /** With a condition, every run of the body comes right after an evaluation of it to a truthy value. */
  lemma {:induction false} LoopBodyAfterTrue(cond: Option<Expr>, body: Stmt, post: Option<Expr>, ch: seq<Event>, o: Outcome, i: nat)
    requires LoopRule(cond, body, post, ch, o) && cond.Some?
    requires i < |ch| && ch[i].Exec?
    ensures i > 0 && EvaluatedAt(ch, i - 1, cond.value)
    ensures ch[i - 1].outcome.Normal? && IsTruthy(ch[i - 1].outcome.value)
    decreases |ch|, 1
  {
    if i > 1 {
      BodyAfterTrue(cond, body, post, ch[1..], o, i - 1);
    }
  }

  lemma {:induction false} BodyAfterTrue(cond: Option<Expr>, body: Stmt, post: Option<Expr>, ch: seq<Event>, o: Outcome, i: nat)
    requires BodyRule(cond, body, post, ch, o) && cond.Some?
    requires 0 < i < |ch| && ch[i].Exec?
    ensures EvaluatedAt(ch, i - 1, cond.value)
    ensures ch[i - 1].outcome.Normal? && IsTruthy(ch[i - 1].outcome.value)
    decreases |ch|, 0
  {
    if post.None? {
      LoopBodyAfterTrue(cond, body, post, ch[1..], o, i - 1);
    } else {
      LoopBodyAfterTrue(cond, body, post, ch[2..], o, i - 2);
    }
  }

  /** The last call of a loop that ended normally: a `break`, or a condition found false. */
  ghost predicate EndedNormally(cond: Option<Expr>, body: Stmt, last: Event) {
    (last.Exec? && last.stmt == body && last.outcome == BreakSignal) ||
    (cond.Some? && last.Eval? && last.expr == cond.value && last.outcome.Normal? && !IsTruthy(last.outcome.value))
  }

  /** A loop ends normally only by a `break` or by a false condition, and that is its last call. */
  lemma {:induction false} LoopEndsNormally(cond: Option<Expr>, body: Stmt, post: Option<Expr>, ch: seq<Event>)
    requires LoopRule(cond, body, post, ch, Normal(Nil))
    ensures ch != [] && EndedNormally(cond, body, ch[|ch| - 1])
    decreases |ch|, 1
  {
    if cond.Some? {
      if ch[0].outcome.Normal? && IsTruthy(ch[0].outcome.value) {
        BodyEndsNormally(cond, body, post, ch[1..]);
        assert ch[1..][|ch[1..]| - 1] == ch[|ch| - 1];
      }
    } else {
      BodyEndsNormally(cond, body, post, ch);
    }
  }

  lemma {:induction false} BodyEndsNormally(cond: Option<Expr>, body: Stmt, post: Option<Expr>, ch: seq<Event>)
    requires BodyRule(cond, body, post, ch, Normal(Nil))
    ensures EndedNormally(cond, body, ch[|ch| - 1])
    decreases |ch|, 0
  {
    if GoesOn(ch[0].outcome) {
      if post.None? {
        LoopEndsNormally(cond, body, post, ch[1..]);
        assert ch[1..][|ch[1..]| - 1] == ch[|ch| - 1];
      } else {
        LoopEndsNormally(cond, body, post, ch[2..]);
        assert ch[2..][|ch[2..]| - 1] == ch[|ch| - 1];
      }
    }
  }

  /** A return, error or halt from any call of a loop is its last call and the loop's outcome. */
  lemma {:induction false} LoopAbruptEnds(cond: Option<Expr>, body: Stmt, post: Option<Expr>, ch: seq<Event>, o: Outcome, i: nat)
    requires LoopRule(cond, body, post, ch, o)
    requires i < |ch| && Abrupt(ch[i].outcome)
    ensures i == |ch| - 1 && o == ch[i].outcome
    decreases |ch|, 1
  {
    if cond.Some? {
      if i > 0 {
        BodyAbruptEnds(cond, body, post, ch[1..], o, i - 1);
      }
    } else {
      BodyAbruptEnds(cond, body, post, ch, o, i);
    }
  }

  lemma {:induction false} BodyAbruptEnds(cond: Option<Expr>, body: Stmt, post: Option<Expr>, ch: seq<Event>, o: Outcome, i: nat)
    requires BodyRule(cond, body, post, ch, o)
    requires i < |ch| && Abrupt(ch[i].outcome)
    ensures i == |ch| - 1 && o == ch[i].outcome
    decreases |ch|, 0
  {
    if i > 0 && GoesOn(ch[0].outcome) {
      if post.None? {
        LoopAbruptEnds(cond, body, post, ch[1..], o, i - 1);
      } else if i > 1 {
        LoopAbruptEnds(cond, body, post, ch[2..], o, i - 2);
      }
    }
  }

  /**
   * Exceptions propagate out of statements: a return, error or halt from
   * any call a statement makes is its last call and the statement's outcome.
   */
  lemma StmtAbruptEnds(s: Stmt, ch: seq<Event>, o: Outcome, i: nat)
    requires StmtRule(s, ch, o)
    requires i < |ch| && Abrupt(ch[i].outcome)
    ensures i == |ch| - 1 && o == ch[i].outcome
  {
    match s
    case While(c, b) => LoopAbruptEnds(Some(c), b, None, ch, o, i);
    case For(init, c, p, b) =>
      if init.Some? && i > 0 {
        LoopAbruptEnds(c, b, p, ch[1..], o, i - 1);
      } else if init.None? {
        LoopAbruptEnds(c, b, p, ch, o, i);
      }
    case _ =>
  }

  // Composing iterations, for the interpreter's loops.

  lemma {:induction false} RoundsThenLoop(cond: Option<Expr>, body: Stmt, post: Option<Expr>, done: seq<Event>, rest: seq<Event>, o: Outcome)
    requires Rounds(cond, body, post, done) && LoopRule(cond, body, post, rest, o)
    ensures LoopRule(cond, body, post, done + rest, o)
    decreases |done|, 1
  {
    if done == [] {
      assert done + rest == rest;
    } else if cond.Some? {
      BodyRoundsThenBody(cond, body, post, done[1..], rest, o);
      assert (done + rest)[1..] == done[1..] + rest;
    } else {
      BodyRoundsThenBody(cond, body, post, done, rest, o);
    }
  }

  lemma {:induction false} BodyRoundsThenBody(cond: Option<Expr>, body: Stmt, post: Option<Expr>, done: seq<Event>, rest: seq<Event>, o: Outcome)
    requires BodyRounds(cond, body, post, done) && LoopRule(cond, body, post, rest, o)
    ensures BodyRule(cond, body, post, done + rest, o)
    decreases |done|, 0
  {
    if post.None? {
      RoundsThenLoop(cond, body, post, done[1..], rest, o);
      assert (done + rest)[1..] == done[1..] + rest;
    } else {
      RoundsThenLoop(cond, body, post, done[2..], rest, o);
      assert (done + rest)[2..] == done[2..] + rest;
    }
  }

  lemma {:induction false} RoundsAppend(cond: Option<Expr>, body: Stmt, post: Option<Expr>, done: seq<Event>, more: seq<Event>)
    requires Rounds(cond, body, post, done) && Rounds(cond, body, post, more)
    ensures Rounds(cond, body, post, done + more)
    decreases |done|, 1
  {
    if done == [] {
      assert done + more == more;
    } else if cond.Some? {
      BodyRoundsAppend(cond, body, post, done[1..], more);
      assert (done + more)[1..] == done[1..] + more;
    } else {
      BodyRoundsAppend(cond, body, post, done, more);
    }
  }

  lemma {:induction false} BodyRoundsAppend(cond: Option<Expr>, body: Stmt, post: Option<Expr>, done: seq<Event>, more: seq<Event>)
    requires BodyRounds(cond, body, post, done) && Rounds(cond, body, post, more)
    ensures BodyRounds(cond, body, post, done + more)
    decreases |done|, 0
  {
    if post.None? {
      RoundsAppend(cond, body, post, done[1..], more);
      assert (done + more)[1..] == done[1..] + more;
    } else {
      RoundsAppend(cond, body, post, done[2..], more);
      assert (done + more)[2..] == done[2..] + more;
    }
  }
}
