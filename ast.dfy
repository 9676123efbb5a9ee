/**
 * The shape of the syntax tree the resolver, the interpreter and the printer
 * walk (the node classes of Expr and Stmt, with their visitor dispatch replaced
 * by matching). A Java `null` child is `None`. Variable and assignment nodes
 * carry `id`, the identity under which the resolver records their (depth, slot).
 */
module Ast {
  import opened Options
  import opened Tokens

  datatype Expr =
    | Assign(name: Token, value: Expr, id: nat)
    | Binary(left: Expr, operator: Token, right: Expr)
    | Call(callee: Expr, paren: Token, arguments: seq<Expr>)
    | Get(obj: Expr, name: Token)
    | Grouping(expression: Expr)
    | Literal(literal: LiteralValue)
    | Logical(left: Expr, operator: Token, right: Expr)
    | Set(obj: Expr, name: Token, value: Expr)
    | Unary(operator: Token, right: Expr)
    | CommaGroup(left: Expr, right: Expr)
    | Ternary(cond: Expr, trueVal: Expr, falseVal: Expr)
    | Variable(name: Token, id: nat)
    | AnonFunction(func: FunDecl)

  datatype Stmt =
    | Block(statements: seq<Stmt>)
    | Expression(expression: Expr)
    | Function(decl: FunDecl)
    | If(condition: Expr, thenBranch: Stmt, elseBranch: Option<Stmt>)
    | Print(expression: Expr)
    | Return(keyword: Token, value: Option<Expr>)
    | Var(name: Token, initializer: Option<Expr>, initialized: bool)
    | While(condition: Expr, body: Stmt)
    | For(init: Option<Stmt>, cond: Option<Expr>, post: Option<Expr>, body: Stmt)
    | Break(name: Token)
    | Continue(name: Token)
    | Class(name: Token, methods: seq<FunDecl>)

  /** A function declaration (Stmt.Function's fields): name, parameters, body. */
  datatype FunDecl = FunDecl(name: Token, params: seq<Token>, body: seq<Stmt>)

  // Node counts, the measures by which every walk over the tree terminates.

  function SizeE(e: Expr): nat {
    match e
    case Assign(_, v, _) => 1 + SizeE(v)
    case Binary(l, _, r) => 1 + SizeE(l) + SizeE(r)
    case Call(c, _, args) => 1 + SizeE(c) + SizeEs(args)
    case Get(o, _) => 1 + SizeE(o)
    case Grouping(x) => 1 + SizeE(x)
    case Literal(_) => 1
    case Logical(l, _, r) => 1 + SizeE(l) + SizeE(r)
    case Set(o, _, v) => 1 + SizeE(o) + SizeE(v)
    case Unary(_, r) => 1 + SizeE(r)
    case CommaGroup(l, r) => 1 + SizeE(l) + SizeE(r)
    case Ternary(c, t, f) => 1 + SizeE(c) + SizeE(t) + SizeE(f)
    case Variable(_, _) => 1
    case AnonFunction(d) => 1 + SizeD(d)
  }

  function SizeEs(es: seq<Expr>): nat {
    if es == [] then 0 else SizeE(es[0]) + SizeEs(es[1..])
  }

  /**
   * Termination bookkeeping, not a property of the program: a listed expression counts
   * no more nodes than the list it sits in, so the `decreases` of a walk that
   * visits the list element by element goes down.
   */
  lemma {:induction false} SizeEsElement(es: seq<Expr>, i: nat)
    requires i < |es|
    ensures SizeE(es[i]) <= SizeEs(es)
  {
    if i > 0 {
      SizeEsElement(es[1..], i - 1);
    }
  }

  function SizeOptE(e: Option<Expr>): nat {
    match e
    case None => 0
    case Some(x) => SizeE(x)
  }

  function SizeS(s: Stmt): nat {
    match s
    case Block(ss) => 1 + SizeSs(ss)
    case Expression(e) => 1 + SizeE(e)
    case Function(d) => 1 + SizeD(d)
    case If(c, t, f) => 1 + SizeE(c) + SizeS(t) + (match f case None => 0 case Some(x) => SizeS(x))
    case Print(e) => 1 + SizeE(e)
    case Return(_, v) => 1 + SizeOptE(v)
    case Var(_, i, _) => 1 + SizeOptE(i)
    case While(c, b) => 1 + SizeE(c) + SizeS(b)
    case For(i, c, p, b) =>
      1 + (match i case None => 0 case Some(x) => SizeS(x)) + SizeOptE(c) + SizeOptE(p) + SizeS(b)
    case Break(_) => 1
    case Continue(_) => 1
    case Class(_, ms) => 1 + SizeDs(ms)
  }

  function SizeSs(ss: seq<Stmt>): nat {
    if ss == [] then 0 else SizeS(ss[0]) + SizeSs(ss[1..])
  }

  /**
   * Termination bookkeeping, not a property of the program: a listed statement counts
   * no more nodes than the list it sits in, so the `decreases` of a walk that
   * visits the list element by element goes down.
   */
  lemma {:induction false} SizeSsElement(ss: seq<Stmt>, i: nat)
    requires i < |ss|
    ensures SizeS(ss[i]) <= SizeSs(ss)
  {
    if i > 0 {
      SizeSsElement(ss[1..], i - 1);
    }
  }

  function SizeD(d: FunDecl): nat {
    1 + SizeSs(d.body)
  }

  function SizeDs(ds: seq<FunDecl>): nat {
    if ds == [] then 0 else SizeD(ds[0]) + SizeDs(ds[1..])
  }

  /**
   * Termination bookkeeping, not a property of the program: a method declaration counts
   * no more nodes than the list it sits in, so the `decreases` of a walk that
   * visits the list element by element goes down.
   */
  lemma {:induction false} SizeDsElement(ds: seq<FunDecl>, i: nat)
    requires i < |ds|
    ensures SizeD(ds[i]) <= SizeDs(ds)
  {
    if i > 0 {
      SizeDsElement(ds[1..], i - 1);
    }
  }
}
