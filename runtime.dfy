/**
 * Runtime values (types/LoxFunction.java, types/LoxClass.java,
 * types/LoxInstance.java and the values the interpreter passes around), and
 * the signals that unwind statement execution.
 */
module Runtime {
  import opened Options
  import opened Tokens
  import Ast
  import opened Environment

  /** The one native callable, the global `clock`. */
  datatype NativeFn = Clock

  /**
   * A Lox value (a Java `Object`): `null`, a Boolean, a Double (an abstract
   * real here), a String, or one of the callable and instance objects. Object
   * values compare by identity, as Java's `equals` does for them.
   */
  datatype Value =
    | Nil
    | Bool(b: bool)
    | Num(n: real)
    | Str(s: string)
    | Fn(fn: LoxFunction)
    | Klass(klass: LoxClass)
    | Instance(instance: LoxInstance)
    | Native(native: NativeFn)
  {
    /** `instanceof LoxCallable`. */
    predicate IsCallable() {
      Fn? || Klass? || Native?
    }
  }

  /** Why a modelled execution stops without a Lox-level result. */
  datatype HaltReason =
    | OutOfFuel                  // the model's bound on loop iterations and call depth ran out
    | Unsupported(node: string)  // a node kind the interpreter has no visitor for

  /**
   * How evaluating an expression or executing a statement ends: with a value,
   * or with one of the unwinding signals that Java throws (ControlFlowException
   * for break and continue, Return, RuntimeError).
   */
  datatype Outcome =
    | Normal(value: Value)
    | BreakSignal
    | ContinueSignal
    | ReturnSignal(value: Value)
    | Error(error: RuntimeError)
    | Halt(reason: HaltReason)
  {
    /** The loop-control signals Java throws as ControlFlowChange. */
    predicate IsLoopControl() {
      BreakSignal? || ContinueSignal?
    }
  }

  /** The name-to-entry map that binding `params` to `arguments` in order produces. */
  function Bindings(params: seq<Token>, arguments: seq<Value>): (r: map<string, Entry<Value>>)
    requires |params| <= |arguments|
    ensures forall name | name in r :: r[name].initialized
  {
    if params == [] then map[]
    else Bindings(params[..|params| - 1], arguments)[params[|params| - 1].lexeme := Entry(arguments[|params| - 1], true)]
  }

  /** Parameter `i` is the last one spelled `params[i].lexeme`. */
  predicate LastOfName(params: seq<Token>, i: nat)
    requires i < |params|
  {
    forall j | i < j < |params| :: params[j].lexeme != params[i].lexeme
  }

  /** Binding parameters by name binds exactly the parameter names. */
  lemma {:induction false} BindingsKeys(params: seq<Token>, arguments: seq<Value>)
    requires |params| <= |arguments|
    ensures Bindings(params, arguments).Keys == set p | p in params :: p.lexeme
  {
    if params != [] {
      var n := |params| - 1;
      var init := params[..n];
      BindingsKeys(init, arguments);
      assert params == init + [params[n]];
      assert (set p | p in params :: p.lexeme) == (set p | p in init :: p.lexeme) + {params[n].lexeme};
    }
  }

  /**
   * Binding parameters by name binds, as initialized, each parameter to the
   * argument in the position of the last parameter with that name (so to
   * `arguments[i]` when names are distinct).
   */
  lemma {:induction false} BindingsValues(params: seq<Token>, arguments: seq<Value>, i: nat)
    requires |params| <= |arguments|
    requires i < |params| && LastOfName(params, i)
    ensures params[i].lexeme in Bindings(params, arguments)
    ensures Bindings(params, arguments)[params[i].lexeme] == Entry(arguments[i], true)
  {
    var n := |params| - 1;
    if i < n {
      var init := params[..n];
      assert LastOfName(init, i) by {
        forall j | i < j < |init| ensures init[j].lexeme != init[i].lexeme {
          assert init[j] == params[j];
        }
      }
      BindingsValues(init, arguments, i);
    }
  }

  /** Every value bound is one of the arguments. */
  lemma {:induction false} BindingsDrawFromArguments(params: seq<Token>, arguments: seq<Value>, name: string)
    requires |params| <= |arguments| && name in Bindings(params, arguments)
    ensures exists i | 0 <= i < |params| :: Bindings(params, arguments)[name] == Entry(arguments[i], true)
  {
    var n := |params| - 1;
    if params[n].lexeme != name {
      BindingsDrawFromArguments(params[..n], arguments, name);
    }
  }

  /** A user function value: its declaration and the frame it closes over. */
  class LoxFunction {
    const declaration: Ast.FunDecl
    const closure: Frame<Value>

    constructor (declaration: Ast.FunDecl, closure: Frame<Value>)
      ensures this.declaration == declaration && this.closure == closure
    {
      this.declaration := declaration;
      this.closure := closure;
    }

    /** `arity()`: the number of declared parameters. */
    function Arity(): (n: nat)
      ensures n == |declaration.params|
    {
      |declaration.params|
    }

    /** `toString()`: the declared name between "<fn " and ">". */
    function ToString(): (s: string)
      ensures |s| == |declaration.name.lexeme| + 5
      ensures s[..4] == "<fn " && s[4..|s| - 1] == declaration.name.lexeme && s[|s| - 1] == '>'
    {
      "<fn " + declaration.name.lexeme + ">"
    }

    /**
     * The frame `call` opens: its parent is the closure (not the caller's
     * frame), and parameter `i` is defined, as initialized, to `arguments[i]`
     * through the named store, in order; the slot list stays empty.
     */
    method Bind(arguments: seq<Value>) returns (env: Frame<Value>)
      requires closure.Linked()
      requires |arguments| >= Arity()
      ensures fresh(env) && env.enclosing == closure && env.Linked()
      ensures env.outer == [closure] + closure.outer
      ensures env.namedValues == Bindings(declaration.params, arguments)
      ensures env.indexedValues == []
    {
      env := new Frame(closure);
      var params := declaration.params;
      for i := 0 to |params|
        invariant env.namedValues == Bindings(params[..i], arguments)
        invariant env.indexedValues == []
      {
        env.Define(params[i].lexeme, arguments[i], true);
        assert params[..i + 1][..i] == params[..i];
      }
      assert params[..|params|] == params;
    }
  }

  /**
   * How `call` turns the way its body ended into the call's result: a Return
   * yields its value, break and continue (ControlFlowChange) are swallowed and
   * yield nil, normal completion yields nil, and anything else is re-raised
   * unchanged. No loop-control or return signal escapes a call.
   */
  function CallResult(body: Outcome): (r: Outcome)
    ensures !r.IsLoopControl() && !r.ReturnSignal?
    ensures body.ReturnSignal? ==> r == Normal(body.value)
    ensures body.IsLoopControl() || body.Normal? ==> r == Normal(Nil)
    ensures body.Error? || body.Halt? ==> r == body
  {
    match body
    case ReturnSignal(v) => Normal(v)
    case BreakSignal => Normal(Nil)
    case ContinueSignal => Normal(Nil)
    case Normal(_) => Normal(Nil)
    case Error(_) => body
    case Halt(_) => body
  }

  /** A class value: only a name; calling it is the way to make instances. */
  class LoxClass {
    const name: string

    constructor (name: string)
      ensures this.name == name
    {
      this.name := name;
    }

    /** `toString()`: the class name. */
    function ToString(): (s: string)
      ensures s == name
    {
      name
    }

    /** `arity()`: always 0. */
    function Arity(): (n: nat)
      ensures n == 0
    {
      0
    }

    /** `call(interpreter, arguments)`: ignores the arguments and returns a fresh instance of this class. */
    method Call(arguments: seq<Value>) returns (instance: LoxInstance)
      ensures fresh(instance) && instance.klass == this
    {
      instance := new LoxInstance(this);
    }
  }

  class LoxInstance {
    const klass: LoxClass

    constructor (klass: LoxClass)
      ensures this.klass == klass
    {
      this.klass := klass;
    }

    /** `toString()`: the class name followed by " instance". */
    function ToString(): (s: string)
      ensures s == klass.ToString() + " instance"
    {
      klass.name + " instance"
    }
  }
}
