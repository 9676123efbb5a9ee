/**
 * The parenthesised printer of expressions (parsing/AstPrinter.java). A node
 * the printer has no text for yields Java `null` (`None` here); when such a
 * child is appended to a parent's text it shows as "null".
 */
module AstPrinter {
  import opened Options
  import opened Tokens
  import opened Ast

  /** What `StringBuilder.append` adds for a child's printed form. */
  function Text(s: Option<string>): string {
    match s
    case None => "null"
    case Some(t) => t
  }

  /** Each part preceded by one space. */
  function Spaced(parts: seq<string>): string {
    if parts == [] then "" else " " + parts[0] + Spaced(parts[1..])
  }

  /** `parenthesize(name, e1..en)` once the children are printed: "(" name " " p1 ... " " pn ")". */
  function Parens(name: string, parts: seq<string>): string {
    "(" + name + Spaced(parts) + ")"
  }

  /** `visitLiteralExpr`: "nil" for a null value, otherwise the value's `toString`. */
  function LiteralString(lit: LiteralValue, numText: real -> string): string {
    if lit.NullLit? then "nil" else LiteralText(lit, numText)
  }

  /**
   * `print(expr)`: the `visit*` methods. `numText` stands for `Double.toString`.
   * There is no text exactly for assignments, property access, variables and
   * anonymous functions; every other node but a literal prints as one
   * parenthesised group.
   */
  function Print(e: Expr, numText: real -> string): (r: Option<string>)
    ensures r.None? <==> e.Assign? || e.Get? || e.Set? || e.Variable? || e.AnonFunction?
    ensures r.Some? && !e.Literal? ==> |r.value| >= 2 && r.value[0] == '(' && r.value[|r.value| - 1] == ')'
  {
    match e
    case Assign(_, _, _) => None
    case Binary(l, op, r) => Some(Parens(op.lexeme, [Text(Print(l, numText)), Text(Print(r, numText))]))
    case Call(c, _, _) => Some(Parens("call", [Text(Print(c, numText))]))
    case Get(_, _) => None
    case Grouping(x) => Some(Parens("group", [Text(Print(x, numText))]))
    case Literal(lit) => Some(LiteralString(lit, numText))
    case Logical(l, _, r) => Some(Parens("logical", [Text(Print(l, numText)), Text(Print(r, numText))]))
    case Set(_, _, _) => None
    case Unary(op, r) => Some(Parens(op.lexeme, [Text(Print(r, numText))]))
    case CommaGroup(l, r) => Some(Parens("comma", [Text(Print(l, numText)), Text(Print(r, numText))]))
    case Ternary(c, t, f) =>
      Some(Parens("ternary", [Text(Print(c, numText)), Text(Print(t, numText)), Text(Print(f, numText))]))
    case Variable(_, _) => None
    case AnonFunction(_) => None
  }

  function PrintedAll(exprs: seq<Expr>, numText: real -> string): (parts: seq<string>)
    ensures |parts| == |exprs|
    ensures forall i | 0 <= i < |exprs| :: parts[i] == Text(Print(exprs[i], numText))
  {
    seq(|exprs|, i requires 0 <= i < |exprs| => Text(Print(exprs[i], numText)))
  }

  lemma {:induction false} SpacedSnoc(parts: seq<string>, p: string)
    ensures Spaced(parts + [p]) == Spaced(parts) + " " + p
  {
    if parts != [] {
      assert (parts + [p])[1..] == parts[1..] + [p];
      SpacedSnoc(parts[1..], p);
    }
  }

  /**
   * `parenthesize(name, exprs)`: the builder starts with "(" and the name,
   * appends a space and each child's printed form in order, and closes with ")".
   */
  method Parenthesize(name: string, exprs: seq<Expr>, numText: real -> string) returns (s: string)
    ensures s == Parens(name, PrintedAll(exprs, numText))
  {
    ghost var parts := PrintedAll(exprs, numText);
    var builder := "(" + name;
    var i := 0;
    while i < |exprs|
      invariant 0 <= i <= |exprs|
      invariant builder == "(" + name + Spaced(parts[..i])
    {
      builder := builder + " ";
      builder := builder + Text(Print(exprs[i], numText));
      SpacedSnoc(parts[..i], parts[i]);
      assert parts[..i + 1] == parts[..i] + [parts[i]];
      i := i + 1;
    }
    assert parts[..|exprs|] == parts;
    s := builder + ")";
  }

  // Nesting of parentheses in printed text.

  function Delta(c: char): int {
    if c == '(' then 1 else if c == ')' then -1 else 0
  }

  /**
   * Scans `s` from depth `d`: the depth reached at its end, or `None` once a
   * ")" closes more than was opened.
   */
  function Nesting(s: string, d: nat): Option<nat>
    decreases |s|
  {
    if s == [] then Some(d)
    else if d + Delta(s[0]) < 0 then None
    else Nesting(s[1..], d + Delta(s[0]))
  }

  /** Every ")" closes an earlier "(" and every "(" is closed. */
  predicate Balanced(s: string) {
    Nesting(s, 0) == Some(0)
  }

  predicate ParenFree(s: string) {
    forall i | 0 <= i < |s| :: s[i] != '(' && s[i] != ')'
  }

  lemma {:induction false} NestingAppend(a: string, b: string, d: nat)
    ensures Nesting(a + b, d) == match Nesting(a, d) case None => None case Some(d') => Nesting(b, d')
    decreases |a|
  {
    if a == [] {
      assert a + b == b;
    } else {
      assert (a + b)[0] == a[0] && (a + b)[1..] == a[1..] + b;
      if d + Delta(a[0]) >= 0 {
        NestingAppend(a[1..], b, d + Delta(a[0]));
      }
    }
  }

  lemma {:induction false} NestingParenFree(s: string, d: nat)
    requires ParenFree(s)
    ensures Nesting(s, d) == Some(d)
    decreases |s|
  {
    if s != [] {
      assert ParenFree(s[1..]);
      NestingParenFree(s[1..], d);
    }
  }

  lemma {:induction false} ShiftAll(s: string, d: nat, k: nat)
    requires forall i | 0 <= i <= |s| :: Nesting(s[..i], d).Some?
    ensures Nesting(s, d).Some? && Nesting(s, d + k) == Some(Nesting(s, d).value + k)
    decreases |s|
  {
    assert s[..|s|] == s;
    if s != [] {
      assert s[..1] == [s[0]];
      assert Nesting(s[..1], d).Some?;
      assert d + Delta(s[0]) >= 0;
      var d' := d + Delta(s[0]);
      forall i | 0 <= i <= |s[1..]| ensures Nesting(s[1..][..i], d').Some? {
        assert s[..i + 1][1..] == s[1..][..i];
        assert Nesting(s[..i + 1], d).Some?;
      }
      ShiftAll(s[1..], d', k);
    }
  }

  /** Balanced text never goes below its starting depth. */
  lemma {:induction false} BalancedPrefixes(s: string, d: nat)
    requires Nesting(s, d).Some?
    ensures forall i | 0 <= i <= |s| :: Nesting(s[..i], d).Some?
  {
    forall i | 0 <= i <= |s| ensures Nesting(s[..i], d).Some? {
      assert s == s[..i] + s[i..];
      NestingAppend(s[..i], s[i..], d);
    }
  }

  lemma BalancedAtDepth(s: string, k: nat)
    requires Balanced(s)
    ensures Nesting(s, k) == Some(k)
  {
    BalancedPrefixes(s, 0);
    ShiftAll(s, 0, k);
  }

  lemma {:induction false} SpacedBalanced(parts: seq<string>, k: nat)
    requires forall i | 0 <= i < |parts| :: Balanced(parts[i])
    ensures Nesting(Spaced(parts), k) == Some(k)
  {
    if parts != [] {
      NestingAppend(" ", parts[0] + Spaced(parts[1..]), k);
      assert " " + parts[0] + Spaced(parts[1..]) == " " + (parts[0] + Spaced(parts[1..]));
      NestingAppend(parts[0], Spaced(parts[1..]), k);
      BalancedAtDepth(parts[0], k);
      SpacedBalanced(parts[1..], k);
    }
  }

  lemma ParensBalanced(name: string, parts: seq<string>)
    requires ParenFree(name)
    requires forall i | 0 <= i < |parts| :: Balanced(parts[i])
    ensures Balanced(Parens(name, parts))
  {
    var inner := name + Spaced(parts);
    assert Parens(name, parts) == "(" + (inner + ")");
    NestingAppend("(", inner + ")", 0);
    NestingAppend(inner, ")", 1);
    NestingAppend(name, Spaced(parts), 1);
    NestingParenFree(name, 1);
    SpacedBalanced(parts, 1);
  }

  /** No operator lexeme and no literal's text in `e` contains a parenthesis. */
  predicate PlainLeaves(e: Expr, numText: real -> string) {
    match e
    case Assign(_, _, _) => true
    case Binary(l, op, r) => ParenFree(op.lexeme) && PlainLeaves(l, numText) && PlainLeaves(r, numText)
    case Call(c, _, _) => PlainLeaves(c, numText)
    case Get(_, _) => true
    case Grouping(x) => PlainLeaves(x, numText)
    case Literal(lit) => ParenFree(LiteralString(lit, numText))
    case Logical(l, _, r) => PlainLeaves(l, numText) && PlainLeaves(r, numText)
    case Set(_, _, _) => true
    case Unary(op, r) => ParenFree(op.lexeme) && PlainLeaves(r, numText)
    case CommaGroup(l, r) => PlainLeaves(l, numText) && PlainLeaves(r, numText)
    case Ternary(c, t, f) => PlainLeaves(c, numText) && PlainLeaves(t, numText) && PlainLeaves(f, numText)
    case Variable(_, _) => true
    case AnonFunction(_) => true
  }

  lemma TwoChildren(name: string, l: Option<string>, r: Option<string>)
    requires ParenFree(name) && Balanced(Text(l)) && Balanced(Text(r))
    ensures Balanced(Parens(name, [Text(l), Text(r)]))
  {
    ParensBalanced(name, [Text(l), Text(r)]);
  }

  lemma OneChild(name: string, x: Option<string>)
    requires ParenFree(name) && Balanced(Text(x))
    ensures Balanced(Parens(name, [Text(x)]))
  {
    ParensBalanced(name, [Text(x)]);
  }

  lemma NullBalanced()
    ensures Balanced(Text(None))
  {
    NestingParenFree("null", 0);
  }

  /**
   * Printed trees are well parenthesised: every node that prints opens one
   * parenthesis and closes it after its children, provided no lexeme or literal
   * brings a parenthesis of its own.
   */
  lemma {:induction false} PrintBalanced(e: Expr, numText: real -> string)
    requires PlainLeaves(e, numText)
    ensures Balanced(Text(Print(e, numText)))
  {
    match e
    case Binary(l, op, r) =>
      PrintBalanced(l, numText);
      PrintBalanced(r, numText);
      TwoChildren(op.lexeme, Print(l, numText), Print(r, numText));
    case Call(c, _, _) =>
      PrintBalanced(c, numText);
      OneChild("call", Print(c, numText));
    case Grouping(x) =>
      PrintBalanced(x, numText);
      OneChild("group", Print(x, numText));
    case Literal(lit) =>
      NestingParenFree(LiteralString(lit, numText), 0);
    case Logical(l, _, r) =>
      PrintBalanced(l, numText);
      PrintBalanced(r, numText);
      TwoChildren("logical", Print(l, numText), Print(r, numText));
    case Unary(op, r) =>
      PrintBalanced(r, numText);
      OneChild(op.lexeme, Print(r, numText));
    case CommaGroup(l, r) =>
      PrintBalanced(l, numText);
      PrintBalanced(r, numText);
      TwoChildren("comma", Print(l, numText), Print(r, numText));
    case Ternary(c, t, f) =>
      PrintBalanced(c, numText);
      PrintBalanced(t, numText);
      PrintBalanced(f, numText);
      ParensBalanced("ternary", [Text(Print(c, numText)), Text(Print(t, numText)), Text(Print(f, numText))]);
    case _ =>
      NullBalanced();
  }

  /** A call prints its callee only: two calls that differ in their arguments print alike. */
  lemma CallDropsArguments(c: Expr, paren: Token, args1: seq<Expr>, args2: seq<Expr>, numText: real -> string)
    ensures Print(Call(c, paren, args1), numText) == Print(Call(c, paren, args2), numText)
  {
  }

  /** A logical node prints without its operator: `and` and `or` print alike. */
  lemma LogicalDropsOperator(l: Expr, op1: Token, op2: Token, r: Expr, numText: real -> string)
    ensures Print(Logical(l, op1, r), numText) == Print(Logical(l, op2, r), numText)
  {
  }
}
