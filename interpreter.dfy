/**
 * The tree-walking interpreter (parsing/Interpreter.java) and the calls it
 * makes into function, class and native values (types/LoxFunction.java,
 * types/LoxClass.java). The current frame is a field that blocks and calls
 * swap and restore; frames are heap objects shared by closures.
 *
 * Java exceptions become an Outcome: RuntimeError is `Error`, the break and
 * continue exception is `BreakSignal`/`ContinueSignal`, Return is
 * `ReturnSignal`. Standard output, the runtime-error report and the clock are
 * the fields `output`, `reported` and `clock`/`clockReads`. Evaluation is
 * bounded by `fuel` (call depth and loop iterations); running out is
 * `Halt(OutOfFuel)`.
 *
 * Every evaluation, execution, block and call logs itself as it returns in
 * the ghost `calls` of its caller, with the calls it made itself; each is
 * proved to obey its rule from module Semantics over those calls.
 */
module Interpreter {
  import opened Options
  import opened Tokens
  import opened Ast
  import opened Environment
  import opened Runtime
  import opened Evaluation
  import opened Semantics

  class Interpreter {
    const globals: Frame<Value>
    var environment: Frame<Value>
    /** Every frame reachable from the interpreter's state. */
    ghost var frames: set<Frame<Value>>
    /** Double.toString. */
    const numText: real -> string
    /** Successive readings of the wall clock, in seconds. */
    const clock: nat -> real
    var clockReads: nat
    /** Lines written to standard output. */
    var output: seq<string>
    /** Errors passed to Lox.runtimeError. */
    var reported: seq<RuntimeError>
    /** The calls that the call now running has made and that have returned, in order. */
    ghost var calls: seq<Event>
    /** The `calls` of each caller waiting for its callee to return, outermost first. */
    ghost var suspended: seq<seq<Event>>

    /** A function value's closure is one of the known frames. */
    ghost predicate Closed(v: Value)
      reads this`frames
    {
      v.Fn? ==> v.fn.closure in frames
    }

    ghost predicate Valid()
      reads this`frames, this`environment, frames
    {
      globals in frames && environment in frames &&
      (forall f | f in frames :: f.Linked() && f.Footprint() <= frames && f.indexedValues == []) &&
      (forall f, name | f in frames && name in f.namedValues :: Closed(f.namedValues[name].value))
    }

    /** How an expression can end: with a value, or with an error or a halt, never with a signal. */
    ghost predicate ExprResult(o: Outcome)
      reads this`frames
    {
      (o.Normal? && Closed(o.value)) || o.Error? || o.Halt?
    }

    /** How a statement can end: normally with nil, or with any signal. */
    ghost predicate StmtResult(o: Outcome)
      reads this`frames
    {
      o == Normal(Nil) || o.IsLoopControl() || (o.ReturnSignal? && Closed(o.value)) || o.Error? || o.Halt?
    }

    /** The calls made by the call logged last. */
    ghost function Inner(): seq<Event>
      reads this`calls
      requires |calls| > 0
    {
      calls[|calls| - 1].inner
    }

    /**
     * What every evaluation keeps: frames only added, the current frame
     * restored, output only appended, nothing reported, and the log of calls
     * only extended.
     */
    twostate predicate Kept()
      reads this
    {
      old(frames) <= frames && fresh(frames - old(frames)) &&
      environment == old(environment) && old(output) <= output && reported == old(reported) &&
      suspended == old(suspended) && old(calls) <= calls && AllObey(calls, numText)
    }

    /** `new Interpreter()`: globals hold `clock`, and the current frame is the globals. */
    constructor (numText: real -> string, clock: nat -> real)
      ensures Valid()
      ensures environment == globals && globals.enclosing == null
      ensures globals.namedValues == map["clock" := Entry(Native(Clock), true)]
      ensures output == [] && reported == [] && clockReads == 0
      ensures this.numText == numText && this.clock == clock
      ensures calls == [] && suspended == []
    {
      var g := new Frame<Value>.Root();
      g.Define("clock", Native(Clock), true);
      globals := g;
      environment := g;
      frames := {g};
      this.numText := numText;
      this.clock := clock;
      clockReads := 0;
      output := [];
      reported := [];
      calls := [];
      suspended := [];
    }

    /** A call begins: its caller's calls wait while the new call's own are logged. */
    ghost method Enter()
      modifies this`calls, this`suspended
      ensures suspended == old(suspended) + [old(calls)] && calls == []
    {
      suspended := suspended + [calls];
      calls := [];
    }

    /** The call now running returns as `c`, which is logged after its caller's earlier calls. */
    ghost method Leave(c: Event)
      requires |suspended| > 0 && AllObey(suspended[|suspended| - 1], numText) && Obeys(c, numText)
      modifies this`calls, this`suspended
      ensures calls == old(suspended[|suspended| - 1]) + [c] && AllObey(calls, numText)
      ensures suspended == old(suspended[..|suspended| - 1])
    {
      calls := suspended[|suspended| - 1] + [c];
      suspended := suspended[..|suspended| - 1];
      assert calls[..|calls| - 1] == old(suspended[|suspended| - 1]);
    }

    /** `new Environment(parent)`: a fresh empty frame, made known. */
    method NewFrame(parent: Frame<Value>) returns (env: Frame<Value>)
      requires Valid() && parent in frames
      modifies this`frames
      ensures Valid()
      ensures fresh(env) && env.enclosing == parent && env.namedValues == map[]
      ensures frames == old(frames) + {env}
    {
      env := new Frame(parent);
      frames := frames + {env};
      assert env.Footprint() == {env} + parent.Footprint() by {
        env.EnclosingFootprint();
      }
    }

    /** `evaluate(expr)`: the node accepts the interpreter; logged as it returns. */
    method Evaluate(e: Expr, fuel: nat) returns (o: Outcome)
      requires Valid() && AllObey(calls, numText)
      modifies this, frames
      decreases fuel, SizeE(e), 3
      ensures Valid() && Kept() && ExprResult(o) && |calls| == |old(calls)| + 1
      ensures calls == old(calls) + [Eval(e, o, Inner())]
    {
      Enter();
      o := AcceptExpr(e, fuel);
      Leave(Eval(e, o, calls));
    }

    /** `expr.accept(this)`: the visitor of the node's kind. */
    method AcceptExpr(e: Expr, fuel: nat) returns (o: Outcome)
      requires Valid() && AllObey(calls, numText)
      modifies this, frames
      decreases fuel, SizeE(e), 2
      ensures Valid() && Kept() && ExprResult(o)
      ensures ExprRule(e, calls[|old(calls)|..], o, numText)
    {
      match e {
        case Assign(_, _, _) => o := VisitAssign(e, fuel);
        case Binary(_, _, _) => o := VisitBinary(e, fuel);
        case Call(_, _, _) => o := VisitCall(e, fuel);
        case Get(_, _) => o := Halt(Unsupported("Get"));
        case Grouping(x) => o := Evaluate(x, fuel);
        case Literal(lit) => o := Normal(FromLiteral(lit));
        case Logical(_, _, _) => o := VisitLogical(e, fuel);
        case Set(_, _, _) => o := Halt(Unsupported("Set"));
        case Unary(_, _) => o := VisitUnary(e, fuel);
        case CommaGroup(_, _) => o := VisitCommaGroup(e, fuel);
        case Ternary(_, _, _) => o := VisitTernary(e, fuel);
        case Variable(name, _) => o := VisitVariable(name);
        case AnonFunction(_) => o := Halt(Unsupported("AnonFunction"));
      }
    }

    /**
     * `visitAssignExpr`: the value, stored by `assign` into the innermost
     * frame of the chain naming the variable; "Undefined variable" when no
     * frame does.
     */
    method VisitAssign(e: Expr, fuel: nat) returns (o: Outcome)
      requires e.Assign? && Valid() && AllObey(calls, numText)
      modifies this, frames
      decreases fuel, SizeE(e), 1
      ensures Valid() && Kept() && ExprResult(o)
      ensures AssignRule(e.name, e.value, calls[|old(calls)|..], o)
      ensures o.Normal? ==>
        var k := environment.NamedIndex(e.name.lexeme);
        k.Some? && environment.Chain()[k.value].namedValues[e.name.lexeme] == Entry(o.value, true)
      ensures calls[|old(calls)|..][0].outcome.Normal? && o.Error? ==> environment.NamedIndex(e.name.lexeme).None?
    {
      var v := Evaluate(e.value, fuel);
      if !v.Normal? {
        return v;
      }
      ghost var chain := environment.Chain();
      var failure;
      ghost var k;
      failure, k := environment.Assign(e.name, v.value);
      forall f, name | f in frames && name in f.namedValues
        ensures Closed(f.namedValues[name].value)
      {
        if f in environment.Footprint() {
          var j :| 0 <= j < |chain| && chain[j] == f;
        }
      }
      if failure.Some? {
        return Error(failure.value);
      }
      o := Normal(v.value);
    }

    /** `visitBinaryExpr`: left, then right, then the operator's rule on the two values. */
    method VisitBinary(e: Expr, fuel: nat) returns (o: Outcome)
      requires e.Binary? && Valid() && AllObey(calls, numText)
      modifies this, frames
      decreases fuel, SizeE(e), 1
      ensures Valid() && Kept() && ExprResult(o)
      ensures BinaryRule(e.left, e.operator, e.right, calls[|old(calls)|..], o, numText)
    {
      var left := Evaluate(e.left, fuel);
      if !left.Normal? {
        return left;
      }
      var right := Evaluate(e.right, fuel);
      if !right.Normal? {
        return right;
      }
      o := BinaryOp(e.operator, left.value, right.value, numText);
    }

    /** `visitUnaryExpr`: the operand, then the operator's rule. */
    method VisitUnary(e: Expr, fuel: nat) returns (o: Outcome)
      requires e.Unary? && Valid() && AllObey(calls, numText)
      modifies this, frames
      decreases fuel, SizeE(e), 1
      ensures Valid() && Kept() && ExprResult(o)
      ensures UnaryRule(e.operator, e.right, calls[|old(calls)|..], o)
    {
      var right := Evaluate(e.right, fuel);
      if !right.Normal? {
        return right;
      }
      o := UnaryOp(e.operator, right.value);
    }

    /**
     * `visitLogicalExpr`: `or` yields a truthy left operand and `and` a falsy
     * one without evaluating the right operand; otherwise the right operand's
     * outcome is the result.
     */
    method VisitLogical(e: Expr, fuel: nat) returns (o: Outcome)
      requires e.Logical? && Valid() && AllObey(calls, numText)
      modifies this, frames
      decreases fuel, SizeE(e), 1
      ensures Valid() && Kept() && ExprResult(o)
      ensures LogicalRule(e.left, e.operator, e.right, calls[|old(calls)|..], o)
    {
      var left := Evaluate(e.left, fuel);
      if !left.Normal? {
        return left;
      }
      if e.operator.tokenType == OR {
        if IsTruthy(left.value) {
          return left;
        }
      } else {
        if !IsTruthy(left.value) {
          return left;
        }
      }
      o := Evaluate(e.right, fuel);
    }

    /** `visitCommaGroupExpr`: both operands in order; the value is nil. */
    method VisitCommaGroup(e: Expr, fuel: nat) returns (o: Outcome)
      requires e.CommaGroup? && Valid() && AllObey(calls, numText)
      modifies this, frames
      decreases fuel, SizeE(e), 1
      ensures Valid() && Kept() && ExprResult(o)
      ensures CommaRule(e.left, e.right, calls[|old(calls)|..], o)
    {
      var left := Evaluate(e.left, fuel);
      if !left.Normal? {
        return left;
      }
      var right := Evaluate(e.right, fuel);
      if !right.Normal? {
        return right;
      }
      o := Normal(Nil);
    }

    /** `visitTernaryExpr`: the condition, then only the branch it selects. */
    method VisitTernary(e: Expr, fuel: nat) returns (o: Outcome)
      requires e.Ternary? && Valid() && AllObey(calls, numText)
      modifies this, frames
      decreases fuel, SizeE(e), 1
      ensures Valid() && Kept() && ExprResult(o)
      ensures TernaryRule(e.cond, e.trueVal, e.falseVal, calls[|old(calls)|..], o)
    {
      var c := Evaluate(e.cond, fuel);
      if !c.Normal? {
        return c;
      }
      if IsTruthy(c.value) {
        o := Evaluate(e.trueVal, fuel);
      } else {
        o := Evaluate(e.falseVal, fuel);
      }
    }

    /** `visitVariableExpr`: the value the current frame binds to the name, or "Undefined variable". */
    method VisitVariable(name: Token) returns (o: Outcome)
      requires Valid()
      ensures ExprResult(o)
      ensures name.lexeme in environment.namedValues ==> o == Normal(environment.namedValues[name.lexeme].value)
      ensures name.lexeme !in environment.namedValues ==> o == Error(UndefinedVariable(name))
    {
      var r := environment.Get(name.lexeme);
      if r.None? {
        return Error(UndefinedVariable(name));
      }
      o := Normal(r.value);
    }

    /**
     * `visitCallExpr`: the callee; "Can only call functions and classes." if it
     * is not callable (before any argument is evaluated); then the arguments
     * left to right; then the arity check; then the call.
     */
    method VisitCall(e: Expr, fuel: nat) returns (o: Outcome)
      requires e.Call? && Valid() && AllObey(calls, numText)
      modifies this, frames
      decreases fuel, SizeE(e), 1
      ensures Valid() && Kept() && ExprResult(o)
      ensures CallRule(e.callee, e.paren, e.arguments, calls[|old(calls)|..], o)
    {
      var c := Evaluate(e.callee, fuel);
      if !c.Normal? {
        return c;
      }
      if !c.value.IsCallable() {
        return Error(NotCallable(e.paren));
      }
      ghost var mid := |calls|;
      o := CallWith(c.value, e.paren, e.arguments, fuel, SizeE(e));
      assert calls[|old(calls)|..][1..] == calls[mid..];
    }

    /**
     * The rest of `visitCallExpr` once the callee yielded the callable `cv`:
     * the arguments left to right; then the arity check; then the call.
     */
    method CallWith(cv: Value, paren: Token, arguments: seq<Expr>, fuel: nat, ghost bound: nat) returns (o: Outcome)
      requires Valid() && AllObey(calls, numText) && cv.IsCallable() && Closed(cv) && SizeEs(arguments) + 1 < bound
      modifies this, frames
      decreases fuel, bound, 0
      ensures Valid() && Kept() && ExprResult(o)
      ensures ArgumentsRule(cv, paren, arguments, calls[|old(calls)|..], o)
    {
      var args, failure := EvaluateArguments(arguments, fuel, SizeEs(arguments) + 1);
      if failure.Some? {
        CallStopsAtArgument(cv, paren, arguments, calls[|old(calls)|..]);
        return failure.value;
      }
      if |args| != ArityOf(cv) {
        o := Error(RuntimeError(paren, ArityMessage(ArityOf(cv), |args|)));
        CallArityMismatch(cv, paren, arguments, calls[|old(calls)|..], args);
        return;
      }
      ghost var evals := calls[|old(calls)|..];
      o := CallValue(cv, args, fuel);
      assert calls[|old(calls)|..] == evals + [calls[|calls| - 1]];
      CallInvokes(cv, paren, arguments, evals, args, calls[|calls| - 1]);
    }

    /**
     * The arguments of a call, left to right, up to the first that does not
     * yield a value; `failure` is that one's outcome.
     */
    method EvaluateArguments(arguments: seq<Expr>, fuel: nat, ghost bound: nat) returns (values: seq<Value>, failure: Option<Outcome>)
      requires Valid() && AllObey(calls, numText) && SizeEs(arguments) < bound
      modifies this, frames
      decreases fuel, bound, 0
      ensures Valid() && Kept()
      ensures forall k | 0 <= k < |values| :: Closed(values[k])
      ensures ArgumentsEvaluated(arguments, calls[|old(calls)|..])
      ensures failure.None? ==> |calls[|old(calls)|..]| == |arguments| && Yielded(calls[|old(calls)|..], values)
      ensures failure.Some? ==>
        var ch := calls[|old(calls)|..];
        |ch| > 0 && failure.value == ch[|ch| - 1].outcome && !failure.value.Normal? && ExprResult(failure.value)
    {
      values := [];
      for i := 0 to |arguments|
        invariant Valid() && Kept()
        invariant forall k | 0 <= k < |values| :: Closed(values[k])
        invariant |calls| == |old(calls)| + i
        invariant ArgumentsEvaluated(arguments, calls[|old(calls)|..]) && Yielded(calls[|old(calls)|..], values)
      {
        SizeEsElement(arguments, i);
        var a := Evaluate(arguments[i], fuel);
        if !a.Normal? {
          return values, Some(a);
        }
        values := values + [a.value];
      }
      failure := None;
    }

    /**
     * `call` on a callable given the right number of arguments, by the kind
     * of callable; logged as it returns. A class makes a fresh instance of
     * itself; `clock` reads the clock.
     */
    method CallValue(callee: Value, arguments: seq<Value>, fuel: nat) returns (o: Outcome)
      requires Valid() && AllObey(calls, numText) && callee.IsCallable() && Closed(callee)
      requires |arguments| == ArityOf(callee)
      requires forall k | 0 <= k < |arguments| :: Closed(arguments[k])
      modifies this, frames
      decreases fuel, 0, 1
      ensures Valid() && Kept() && ExprResult(o) && |calls| == |old(calls)| + 1
      ensures calls == old(calls) + [Invoke(callee, arguments, o, Inner())]
      ensures callee.Fn? ==> (fuel == 0 <==> Inner() == [])
      ensures callee.Fn? && fuel > 0 ==> Inner()[0].RanBlock? && fresh(Inner()[0].frame)
      ensures callee.Klass? ==> o.Normal? && o.value.Instance? && o.value.instance.klass == callee.klass && fresh(o.value.instance)
      ensures callee.Native? ==> o == Normal(Num(clock(old(clockReads)))) && clockReads == old(clockReads) + 1
    {
      Enter();
      match callee {
        case Fn(f) =>
          o := CallFunction(f, arguments, fuel);
        case Klass(c) =>
          var instance := c.Call(arguments);
          o := Normal(Instance(instance));
        case Native(_) =>
          o := Normal(Num(clock(clockReads)));
          clockReads := clockReads + 1;
      }
      Leave(Invoke(callee, arguments, o, calls));
    }

    /**
     * `LoxFunction.call`: the body runs as a block in a fresh frame whose
     * parent is the closure and which holds the parameters bound to the
     * arguments; how the body ended becomes the result. With no fuel left
     * the call halts instead.
     */
    method CallFunction(f: LoxFunction, arguments: seq<Value>, fuel: nat) returns (o: Outcome)
      requires Valid() && AllObey(calls, numText) && f.closure in frames && |arguments| == |f.declaration.params|
      requires forall k | 0 <= k < |arguments| :: Closed(arguments[k])
      modifies this, frames
      decreases fuel, 0, 0
      ensures Valid() && Kept() && ExprResult(o)
      ensures InvokeRule(Fn(f), arguments, calls[|old(calls)|..], o)
      ensures fuel == 0 <==> calls[|old(calls)|..] == []
      ensures fuel > 0 ==> fresh(calls[|old(calls)|..][0].frame)
    {
      if fuel == 0 {
        return Halt(OutOfFuel);
      }
      var env := f.Bind(arguments);
      frames := frames + {env};
      assert env.Footprint() == {env} + f.closure.Footprint() by {
        env.EnclosingFootprint();
      }
      forall name | name in env.namedValues ensures Closed(env.namedValues[name].value) {
        BindingsDrawFromArguments(f.declaration.params, arguments, name);
      }
      var ended := ExecuteBlock(f.declaration.body, env, fuel - 1);
      o := CallResult(ended);
    }

    /** `execute(stmt)`: the statement accepts the interpreter; logged with the current frame as it returns. */
    method Execute(s: Stmt, fuel: nat) returns (o: Outcome)
      requires Valid() && AllObey(calls, numText)
      modifies this, frames
      decreases fuel, SizeS(s), 6
      ensures Valid() && Kept() && StmtResult(o) && |calls| == |old(calls)| + 1
      ensures calls == old(calls) + [Exec(s, environment, o, Inner())]
    {
      Enter();
      o := AcceptStmt(s, fuel);
      Leave(Exec(s, environment, o, calls));
    }

    /** `stmt.accept(this)`: the visitor of the statement's kind. */
    method AcceptStmt(s: Stmt, fuel: nat) returns (o: Outcome)
      requires Valid() && AllObey(calls, numText)
      modifies this, frames
      decreases fuel, SizeS(s), 5
      ensures Valid() && Kept() && StmtResult(o)
      ensures StmtRule(s, calls[|old(calls)|..], o)
    {
      match s {
        case Block(_) => o := VisitBlock(s, fuel);
        case Expression(x) =>
          var r := Evaluate(x, fuel);
          o := Dropped(r);
        case Function(_) => o := VisitFunction(s);
        case If(_, _, _) => o := VisitIf(s, fuel);
        case Print(_) => o := VisitPrint(s, fuel);
        case Return(_, _) => o := VisitReturn(s, fuel);
        case Var(_, _, _) => o := VisitVar(s, fuel);
        case While(_, _) => o := VisitWhile(s, fuel);
        case For(_, _, _, _) => o := VisitFor(s, fuel);
        case Break(_) => o := BreakSignal;
        case Continue(_) => o := ContinueSignal;
        case Class(_, _) => o := Halt(Unsupported("Class"));
      }
    }

    /**
     * `executeBlock(statements, env)`: the statements run in order with `env`
     * as the current frame, stopping at the first that does not complete
     * normally; the previous current frame is restored however the block
     * ends. Logged, with the frame's named store on entry, as it returns.
     */
    method ExecuteBlock(statements: seq<Stmt>, env: Frame<Value>, fuel: nat) returns (o: Outcome)
      requires Valid() && AllObey(calls, numText) && env in frames
      modifies this, frames
      decreases fuel, SizeSs(statements), 8
      ensures Valid() && Kept() && StmtResult(o) && |calls| == |old(calls)| + 1
      ensures calls == old(calls) + [RanBlock(statements, env, old(env.namedValues), o, Inner())]
    {
      ghost var initial := env.namedValues;
      Enter();
      var previous := environment;
      environment := env;
      o := RunStatements(statements, fuel);
      environment := previous;
      Leave(RanBlock(statements, env, initial, o, calls));
    }

    /**
     * The loop of `executeBlock` and of `interpret`: the statements in order
     * in the current frame, up to the first that does not complete normally.
     */
    method RunStatements(statements: seq<Stmt>, fuel: nat) returns (o: Outcome)
      requires Valid() && AllObey(calls, numText)
      modifies this, frames
      decreases fuel, SizeSs(statements), 7
      ensures Valid() && Kept() && StmtResult(o)
      ensures BlockRule(statements, environment, calls[|old(calls)|..], o)
    {
      o := Normal(Nil);
      var i := 0;
      while i < |statements|
        invariant 0 <= i <= |statements|
        invariant Valid() && Kept()
        invariant o == Normal(Nil) && |calls| == |old(calls)| + i
        invariant forall k | 0 <= k < i :: Ran(calls[|old(calls)|..][k], statements[k], environment)
      {
        SizeSsElement(statements, i);
        o := Execute(statements[i], fuel);
        if o != Normal(Nil) {
          break;
        }
        i := i + 1;
      }
    }

    /** `visitBlockStmt`: the statements, as a block, in a new frame whose parent is the current one. */
    method VisitBlock(s: Stmt, fuel: nat) returns (o: Outcome)
      requires s.Block? && Valid() && AllObey(calls, numText)
      modifies this, frames
      decreases fuel, SizeS(s), 4
      ensures Valid() && Kept() && StmtResult(o)
      ensures var ch := calls[|old(calls)|..];
        |ch| == 1 && ch[0].RanBlock? && ch[0].statements == s.statements && ch[0].outcome == o &&
        ch[0].initial == map[] && ch[0].frame.enclosing == environment && fresh(ch[0].frame)
    {
      var env := NewFrame(environment);
      o := ExecuteBlock(s.statements, env, fuel);
    }

    /**
     * `visitFunctionStmt`: binds the name, initialized, in the current frame
     * to a new function value closing over the current frame.
     */
    method VisitFunction(s: Stmt) returns (o: Outcome)
      requires s.Function? && Valid() && AllObey(calls, numText)
      modifies environment, this`frames
      ensures Valid() && Kept() && o == Normal(Nil)
      ensures s.decl.name.lexeme in environment.namedValues
      ensures var entry := environment.namedValues[s.decl.name.lexeme];
        entry.initialized && entry.value.Fn? &&
        entry.value.fn.declaration == s.decl && entry.value.fn.closure == environment
      ensures environment.namedValues - {s.decl.name.lexeme} == old(environment.namedValues) - {s.decl.name.lexeme}
    {
      var f := new LoxFunction(s.decl, environment);
      environment.Define(s.decl.name.lexeme, Fn(f), true);
      o := Normal(Nil);
    }

    /** `visitIfStmt`: the condition, then the then-branch, or the else-branch when there is one. */
    method VisitIf(s: Stmt, fuel: nat) returns (o: Outcome)
      requires s.If? && Valid() && AllObey(calls, numText)
      modifies this, frames
      decreases fuel, SizeS(s), 4
      ensures Valid() && Kept() && StmtResult(o)
      ensures IfRule(s.condition, s.thenBranch, s.elseBranch, calls[|old(calls)|..], o)
    {
      var c := Evaluate(s.condition, fuel);
      if !c.Normal? {
        return c;
      }
      if IsTruthy(c.value) {
        o := Execute(s.thenBranch, fuel);
      } else if s.elseBranch.Some? {
        o := Execute(s.elseBranch.value, fuel);
      } else {
        o := Normal(Nil);
      }
    }

    /** `visitPrintStmt`: the value's `stringify` text becomes the last line of output. */
    method VisitPrint(s: Stmt, fuel: nat) returns (o: Outcome)
      requires s.Print? && Valid() && AllObey(calls, numText)
      modifies this, frames
      decreases fuel, SizeS(s), 4
      ensures Valid() && Kept() && StmtResult(o)
      ensures OneValueRule(Some(s.expression), calls[|old(calls)|..], o, false)
      ensures var v := calls[|old(calls)|..][0].outcome;
        v.Normal? ==> |output| > 0 && output[|output| - 1] == Stringify(v.value, numText)
    {
      var v := Evaluate(s.expression, fuel);
      if !v.Normal? {
        return v;
      }
      output := output + [Stringify(v.value, numText)];
      o := Normal(Nil);
    }

    /** A `return` statement: the Return signal carrying the value, nil when there is none. */
    method VisitReturn(s: Stmt, fuel: nat) returns (o: Outcome)
      requires s.Return? && Valid() && AllObey(calls, numText)
      modifies this, frames
      decreases fuel, SizeS(s), 4
      ensures Valid() && Kept() && StmtResult(o)
      ensures OneValueRule(s.value, calls[|old(calls)|..], o, true)
    {
      match s.value {
        case None =>
          o := ReturnSignal(Nil);
        case Some(x) =>
          assert SizeOptE(s.value) == SizeE(x);
          var v := Evaluate(x, fuel);
          if !v.Normal? {
            return v;
          }
          o := ReturnSignal(v.value);
      }
    }

    /**
     * `visitVarStmt`: the initializer's value, or nil without one, is bound in
     * the current frame with the statement's `initialized` flag.
     */
    method VisitVar(s: Stmt, fuel: nat) returns (o: Outcome)
      requires s.Var? && Valid() && AllObey(calls, numText)
      modifies this, frames
      decreases fuel, SizeS(s), 4
      ensures Valid() && Kept() && StmtResult(o)
      ensures OneValueRule(s.initializer, calls[|old(calls)|..], o, false)
      ensures o == Normal(Nil) ==>
        var v := if s.initializer.None? then Nil else calls[|old(calls)|..][0].outcome.value;
        s.name.lexeme in environment.namedValues &&
        environment.namedValues[s.name.lexeme] == Entry(v, s.initialized)
    {
      var v := Nil;
      match s.initializer {
        case None =>
        case Some(x) =>
          assert SizeOptE(s.initializer) == SizeE(x);
          var r := Evaluate(x, fuel);
          if !r.Normal? {
            return r;
          }
          v := r.value;
      }
      environment.Define(s.name.lexeme, v, s.initialized);
      o := Normal(Nil);
    }

    /**
     * `visitWhileStmt`: while the condition is truthy the body runs; `break`
     * ends the loop, `continue` goes on to the next test, anything else
     * propagates.
     */
    method VisitWhile(s: Stmt, fuel: nat) returns (o: Outcome)
      requires s.While? && Valid() && AllObey(calls, numText)
      modifies this, frames
      decreases fuel, SizeS(s), 4
      ensures Valid() && Kept() && StmtResult(o)
      ensures LoopRule(Some(s.condition), s.body, None, calls[|old(calls)|..], o)
    {
      assert SizeOptE(Some(s.condition)) == SizeE(s.condition);
      o := Loop(Some(s.condition), s.body, None, fuel, SizeS(s));
    }

    /**
     * `visitForStmt`: the initializer once, in the current frame; then, while
     * the condition (if any) is truthy, the body and then the increment (if
     * any). `break` ends the loop without the increment; `continue` still runs
     * it; a missing condition loops until something ends the loop.
     */
    method VisitFor(s: Stmt, fuel: nat) returns (o: Outcome)
      requires s.For? && Valid() && AllObey(calls, numText)
      modifies this, frames
      decreases fuel, SizeS(s), 4
      ensures Valid() && Kept() && StmtResult(o)
      ensures ForRule(s.init, s.cond, s.post, s.body, calls[|old(calls)|..], o)
    {
      if s.init.Some? {
        var r := Execute(s.init.value, fuel);
        if r != Normal(Nil) {
          return r;
        }
      }
      ghost var head := calls[|old(calls)|..];
      ghost var mid := |calls|;
      o := Loop(s.cond, s.body, s.post, fuel, SizeS(s));
      assert calls[|old(calls)|..] == head + calls[mid..];
      ForLoopDone(s, calls[|old(calls)|..], head, o);
    }

    /**
     * The loop shared by `while` and `for`: iterations until one ends the
     * loop. Each iteration spends one unit of `fuel`; running out halts.
     */
    method Loop(cond: Option<Expr>, body: Stmt, post: Option<Expr>, fuel: nat, ghost bound: nat) returns (o: Outcome)
      requires Valid() && AllObey(calls, numText) && SizeOptE(cond) < bound && SizeS(body) < bound && SizeOptE(post) < bound
      modifies this, frames
      decreases fuel, bound, 3
      ensures Valid() && Kept() && StmtResult(o)
      ensures LoopRule(cond, body, post, calls[|old(calls)|..], o)
    {
      var budget := fuel;
      while true
        invariant Valid() && Kept()
        invariant Rounds(cond, body, post, calls[|old(calls)|..])
        decreases budget
      {
        ghost var done := calls[|old(calls)|..];
        if budget == 0 {
          o := Halt(OutOfFuel);
          RoundsThenLoop(cond, body, post, done, [], o);
          assert done + [] == done;
          return;
        }
        budget := budget - 1;
        ghost var mid := |calls|;
        var stop := Iteration(cond, body, post, fuel, bound);
        assert calls[|old(calls)|..] == done + calls[mid..];
        if stop.Some? {
          RoundsThenLoop(cond, body, post, done, calls[mid..], stop.value);
          return stop.value;
        }
        RoundsAppend(cond, body, post, done, calls[mid..]);
      }
    }

    /**
     * One iteration of a loop: the condition, if any (a false one ends the
     * loop normally), then the body and the increment. `stop` is how the loop
     * ends, or None when it goes on.
     */
    method Iteration(cond: Option<Expr>, body: Stmt, post: Option<Expr>, fuel: nat, ghost bound: nat)
      returns (stop: Option<Outcome>)
      requires Valid() && AllObey(calls, numText) && SizeOptE(cond) < bound && SizeS(body) < bound && SizeOptE(post) < bound
      modifies this, frames
      decreases fuel, bound, 2
      ensures Valid() && Kept()
      ensures stop.None? ==> Rounds(cond, body, post, calls[|old(calls)|..])
      ensures stop.Some? ==> StmtResult(stop.value) && LoopRule(cond, body, post, calls[|old(calls)|..], stop.value)
    {
      if cond.Some? {
        var c := Evaluate(cond.value, fuel);
        if !c.Normal? || !IsTruthy(c.value) {
          stop := Some(if c.Normal? then Normal(Nil) else c);
          ConditionEnds(cond, body, post, calls[|old(calls)|..], stop.value);
          return;
        }
      }
      ghost var ran := calls[|old(calls)|..];
      stop := IterationBody(cond, body, post, fuel, bound);
      assert calls[|old(calls)|..][..|ran|] == ran;
      if stop.Some? {
        IterationEnds(cond, body, post, ran, calls[|old(calls)|..], stop.value);
      } else {
        IterationGoesOn(cond, body, post, ran, calls[|old(calls)|..]);
      }
    }

    /**
     * The rest of an iteration: the body (`break` ends the loop normally,
     * `continue` and completion go on, anything else ends the loop with it),
     * then the increment, if any.
     */
    method IterationBody(cond: Option<Expr>, body: Stmt, post: Option<Expr>, fuel: nat, ghost bound: nat)
      returns (stop: Option<Outcome>)
      requires Valid() && AllObey(calls, numText) && SizeS(body) < bound && SizeOptE(post) < bound
      modifies this, frames
      decreases fuel, bound, 1
      ensures Valid() && Kept()
      ensures stop.None? ==> BodyRounds(cond, body, post, calls[|old(calls)|..])
      ensures stop.Some? ==> StmtResult(stop.value) && BodyRule(cond, body, post, calls[|old(calls)|..], stop.value)
    {
      var b := Execute(body, fuel);
      if b == BreakSignal {
        return Some(Normal(Nil));
      }
      if !GoesOn(b) {
        return Some(b);
      }
      if post.Some? {
        var p := Evaluate(post.value, fuel);
        if !p.Normal? {
          return Some(p);
        }
      }
      return None;
    }

    /**
     * `interpret(statements)`: the statements in order in the current frame,
     * stopping at the first that does not complete; a runtime error is
     * reported and ends the run. Other signals escape to the caller.
     */
    method Interpret(statements: seq<Stmt>, fuel: nat) returns (escaped: Option<Outcome>)
      requires Valid() && AllObey(calls, numText)
      modifies this, frames
      ensures Valid() && old(frames) <= frames && environment == old(environment) && old(output) <= output
      ensures suspended == old(suspended) && old(calls) <= calls && AllObey(calls, numText)
      ensures RunsInOrder(statements, environment, calls[|old(calls)|..])
      ensures var last := BlockOutcome(calls[|old(calls)|..]);
        (last.Error? ==> escaped.None? && reported == old(reported) + [last.error]) &&
        (last == Normal(Nil) ==> escaped.None? && reported == old(reported)) &&
        (!last.Error? && last != Normal(Nil) ==> escaped == Some(last) && reported == old(reported))
    {
      var o := RunStatements(statements, fuel);
      if o.Error? {
        reported := reported + [o.error];
        return None;
      }
      if o != Normal(Nil) {
        return Some(o);
      }
      return None;
    }
  }

  /** `c` is an execution of `s` in `env` that completed normally. */
  ghost predicate Ran(c: Event, s: Stmt, env: Frame<Value>) {
    c.Exec? && c.stmt == s && c.env == env && c.outcome == Normal(Nil)
  }

  /** The calls before the body of one iteration: the condition found truthy, or nothing without one. */
  ghost predicate Tested(cond: Option<Expr>, ran: seq<Event>) {
    match cond
    case None => ran == []
    case Some(c) => |ran| == 1 && EvaluatedAt(ran, 0, c) && ran[0].outcome.Normal? && IsTruthy(ran[0].outcome.value)
  }

  lemma ConditionEnds(cond: Option<Expr>, body: Stmt, post: Option<Expr>, ch: seq<Event>, o: Outcome)
    requires cond.Some? && |ch| == 1 && EvaluatedAt(ch, 0, cond.value)
    requires o == if ch[0].outcome.Normal? then Normal(Nil) else ch[0].outcome
    requires !ch[0].outcome.Normal? || !IsTruthy(ch[0].outcome.value)
    ensures LoopRule(cond, body, post, ch, o)
  {
  }

  lemma IterationEnds(cond: Option<Expr>, body: Stmt, post: Option<Expr>, ran: seq<Event>, ch: seq<Event>, o: Outcome)
    requires Tested(cond, ran) && |ch| > |ran| && ch[..|ran|] == ran
    requires BodyRule(cond, body, post, ch[|ran|..], o)
    ensures LoopRule(cond, body, post, ch, o)
  {
    if cond.Some? {
      assert ch[0] == ran[0];
    } else {
      assert ch[|ran|..] == ch;
    }
  }

  lemma IterationGoesOn(cond: Option<Expr>, body: Stmt, post: Option<Expr>, ran: seq<Event>, ch: seq<Event>)
    requires Tested(cond, ran) && |ch| > |ran| && ch[..|ran|] == ran
    requires BodyRounds(cond, body, post, ch[|ran|..])
    ensures Rounds(cond, body, post, ch)
  {
    if cond.Some? {
      assert ch[0] == ran[0];
    } else {
      assert ch[|ran|..] == ch;
    }
  }

  /** The calls of a `for` statement: those of its initializer, then those of its loop. */
  lemma ForLoopDone(s: Stmt, ch: seq<Event>, head: seq<Event>, o: Outcome)
    requires s.For? && |head| <= |ch| && ch[..|head|] == head
    requires s.init.None? ==> head == []
    requires s.init.Some? ==>
      |head| == 1 && head[0].Exec? && head[0].stmt == s.init.value && head[0].outcome == Normal(Nil)
    requires LoopRule(s.cond, s.body, s.post, ch[|head|..], o)
    ensures ForRule(s.init, s.cond, s.post, s.body, ch, o)
  {
    if s.init.None? {
      assert ch[|head|..] == ch;
    } else {
      assert ch[0] == head[0];
    }
  }

  /** Each evaluation of `evals` yielded the matching value of `values`. */
  ghost predicate Yielded(evals: seq<Event>, values: seq<Value>) {
    |evals| == |values| && forall k | 0 <= k < |evals| :: evals[k].outcome == Normal(values[k])
  }

  lemma CallStopsAtArgument(cv: Value, paren: Token, arguments: seq<Expr>, ch: seq<Event>)
    requires cv.IsCallable() && |ch| > 0 && ArgumentsEvaluated(arguments, ch) && !ch[|ch| - 1].outcome.Normal?
    ensures ArgumentsRule(cv, paren, arguments, ch, ch[|ch| - 1].outcome)
  {
    assert ch[..|ch|] == ch;
  }

  lemma CallArityMismatch(cv: Value, paren: Token, arguments: seq<Expr>, ch: seq<Event>, values: seq<Value>)
    requires ArgumentsEvaluated(arguments, ch) && |ch| == |arguments| && Yielded(ch, values)
    requires cv.IsCallable() && |values| != ArityOf(cv)
    ensures ArgumentsRule(cv, paren, arguments, ch, Error(RuntimeError(paren, ArityMessage(ArityOf(cv), |values|))))
  {
    assert ch[..|ch|] == ch;
  }

  lemma CallInvokes(cv: Value, paren: Token, arguments: seq<Expr>, ch: seq<Event>, values: seq<Value>, last: Event)
    requires ArgumentsEvaluated(arguments, ch) && |ch| == |arguments| && Yielded(ch, values)
    requires cv.IsCallable() && |values| == ArityOf(cv)
    requires last.Invoke? && last.callee == cv && last.arguments == values
    ensures ArgumentsRule(cv, paren, arguments, ch + [last], last.outcome)
  {
    var all := ch + [last];
    assert all[..|ch|] == ch;
    assert Values(ch) == values;
  }
}
