/**
 * The static resolver (parsing/Resolver.java). It walks the tree with a stack
 * of scopes; a scope is an ordered list of entries, each naming a declaring
 * token and carrying `defined` and `used` flags. Declarations append to the
 * innermost scope, references record on their node how many scopes out and
 * at which position the innermost entry of that name sits, and closing a
 * scope reports its unused entries.
 *
 * Lox.error and System.err are modelled as the sequences `errors` and
 * `warnings` that the resolver appends to.
 */
module Resolver {
  import opened Options
  import opened Tokens
  import opened Text
  import opened Ast

  datatype FunctionType = NONE | FUNCTION | METHOD

  datatype ResolverEntry = ResolverEntry(token: Token, defined: bool, used: bool)

  /** An entry of a scope: the name it is looked up under and its flags. */
  datatype StackEntry = StackEntry(name: string, entry: ResolverEntry)

  type Scope = seq<StackEntry>

  /** Where a name was found: index into the stack (0 outermost) and position in that scope. */
  datatype Position = Position(scope: nat, idx: nat)

  /** What `resolveLocal` writes onto a node: scopes out from the innermost, and position. */
  datatype Coord = Coord(depth: nat, idx: nat)

  /** A report through Lox.error: the offending token and the message. */
  datatype CompileError = CompileError(token: Token, message: string)

  /** The entry `declare` appends for `name`. */
  function Fresh(name: Token): StackEntry {
    StackEntry(name.lexeme, ResolverEntry(name, false, false))
  }

  function Top(scopes: seq<Scope>): Scope
    requires scopes != []
  {
    scopes[|scopes| - 1]
  }

  /** Position of the first entry of `scope` looked up under `name` (as `resolveLocal` compares). */
  function FirstNamed(scope: Scope, name: string): (r: Option<nat>)
    ensures r.Some? ==> r.value < |scope| && scope[r.value].name == name
    ensures r.Some? ==> forall k | 0 <= k < r.value :: scope[k].name != name
    ensures r.None? ==> forall k | 0 <= k < |scope| :: scope[k].name != name
  {
    if scope == [] then None
    else if scope[0].name == name then Some(0)
    else match FirstNamed(scope[1..], name)
      case None => None
      case Some(k) => Some(k + 1)
  }

  /** Position of the first entry of `scope` whose token is spelled `name` (as `getByName` compares). */
  function FirstByLexeme(scope: Scope, name: string): (r: Option<nat>)
    ensures r.Some? ==> r.value < |scope| && scope[r.value].entry.token.lexeme == name
    ensures r.Some? ==> forall k | 0 <= k < r.value :: scope[k].entry.token.lexeme != name
    ensures r.None? ==> forall k | 0 <= k < |scope| :: scope[k].entry.token.lexeme != name
  {
    if scope == [] then None
    else if scope[0].entry.token.lexeme == name then Some(0)
    else match FirstByLexeme(scope[1..], name)
      case None => None
      case Some(k) => Some(k + 1)
  }

  /**
   * The entry a reference to `name` resolves to: the innermost scope holding
   * the name, and in it the first entry holding it.
   */
  function FindLocal(scopes: seq<Scope>, name: string): (r: Option<Position>)
    ensures r.Some? ==> r.value.scope < |scopes| && r.value.idx < |scopes[r.value.scope]|
    ensures r.Some? ==> scopes[r.value.scope][r.value.idx].name == name
    ensures r.Some? ==> forall k | 0 <= k < r.value.idx :: scopes[r.value.scope][k].name != name
    ensures r.Some? ==> forall j, k | r.value.scope < j < |scopes| && 0 <= k < |scopes[j]| :: scopes[j][k].name != name
    ensures r.None? ==> forall j, k | 0 <= j < |scopes| && 0 <= k < |scopes[j]| :: scopes[j][k].name != name
  {
    if scopes == [] then None
    else match FirstNamed(Top(scopes), name)
      case Some(k) => Some(Position(|scopes| - 1, k))
      case None => FindLocal(scopes[..|scopes| - 1], name)
  }

  /** The scope stack with the entry at `p` marked used. */
  function MarkUsed(scopes: seq<Scope>, p: Position): seq<Scope>
    requires p.scope < |scopes| && p.idx < |scopes[p.scope]|
  {
    var se := scopes[p.scope][p.idx];
    scopes[p.scope := scopes[p.scope][p.idx := se.(entry := se.entry.(used := true))]]
  }

  /**
   * The line `checkUnusedLocals` writes for an unused entry: "[line ", the
   * line number, the variable's name in quotes, and a newline at the end.
   */
  function UnusedMessage(se: StackEntry): (m: string)
    ensures var t := IntToString(se.entry.token.line); var x := se.entry.token.lexeme;
      |m| == 6 + |t| + 18 + |x| + 13 &&
      m[..6] == "[line " && m[6..6 + |t|] == t &&
      m[|m| - 13 - |x|..|m| - 13] == x && m[|m| - 14 - |x|] == '\'' &&
      m[|m| - 13..] == "' is unused.\n"
  {
    "[line " + IntToString(se.entry.token.line) + "] local variable '" + se.entry.token.lexeme + "' is unused.\n"
  }

  /** An entry is reported when it was never used and its token is not the ignored one. */
  predicate Reportable(se: StackEntry, ignore: Option<Token>) {
    Some(se.entry.token) != ignore && !se.entry.used
  }

  /** The lines `checkUnusedLocals` writes for `scope`, in scope order. */
  function UnusedReports(scope: Scope, ignore: Option<Token>): seq<string> {
    if scope == [] then []
    else
      var last := scope[|scope| - 1];
      UnusedReports(scope[..|scope| - 1], ignore) + (if Reportable(last, ignore) then [UnusedMessage(last)] else [])
  }

  /** Reporting one more entry at the end of a scope appends its line, if any. */
  lemma UnusedReportsSnoc(init: Scope, se: StackEntry, ignore: Option<Token>)
    ensures UnusedReports(init + [se], ignore) ==
      UnusedReports(init, ignore) + (if Reportable(se, ignore) then [UnusedMessage(se)] else [])
  {
    assert (init + [se])[..|init|] == init;
  }

  /** One more turn of `checkUnusedLocals`'s loop writes the line of entry `i`, if it is reportable. */
  lemma ReportStep(scope: Scope, i: nat, ignore: Option<Token>, start: seq<string>, before: seq<string>, after: seq<string>)
    requires i < |scope| && before == start + UnusedReports(scope[..i], ignore)
    requires Reportable(scope[i], ignore) ==> after == before + [UnusedMessage(scope[i])]
    requires !Reportable(scope[i], ignore) ==> after == before
    ensures after == start + UnusedReports(scope[..i + 1], ignore)
  {
    assert scope[..i + 1] == scope[..i] + [scope[i]];
    UnusedReportsSnoc(scope[..i], scope[i], ignore);
    if !Reportable(scope[i], ignore) {
      assert UnusedReports(scope[..i], ignore) + [] == UnusedReports(scope[..i], ignore);
    }
  }

  /** Every reportable entry's line is written. */
  lemma {:induction false} UnusedReportsComplete(scope: Scope, ignore: Option<Token>)
    ensures forall k | 0 <= k < |scope| && Reportable(scope[k], ignore) :: UnusedMessage(scope[k]) in UnusedReports(scope, ignore)
  {
    if scope != [] {
      var n := |scope| - 1;
      var init := scope[..n];
      assert scope == init + [scope[n]];
      UnusedReportsComplete(init, ignore);
      UnusedReportsSnoc(init, scope[n], ignore);
      forall k | 0 <= k < |scope| && Reportable(scope[k], ignore)
        ensures UnusedMessage(scope[k]) in UnusedReports(scope, ignore)
      {
        if k < n {
          assert scope[k] == init[k];
        }
      }
    }
  }

  /** Every line written is that of a reportable entry. */
  lemma {:induction false} UnusedReportsSound(scope: Scope, ignore: Option<Token>)
    ensures forall m | m in UnusedReports(scope, ignore) :: exists k | 0 <= k < |scope| :: Reportable(scope[k], ignore) && m == UnusedMessage(scope[k])
  {
    if scope != [] {
      var n := |scope| - 1;
      var init := scope[..n];
      assert scope == init + [scope[n]];
      UnusedReportsSound(init, ignore);
      UnusedReportsSnoc(init, scope[n], ignore);
      forall m | m in UnusedReports(scope, ignore)
        ensures exists k | 0 <= k < |scope| :: Reportable(scope[k], ignore) && m == UnusedMessage(scope[k])
      {
        if m in UnusedReports(init, ignore) {
          var k :| 0 <= k < |init| && Reportable(init[k], ignore) && m == UnusedMessage(init[k]);
          assert scope[k] == init[k];
        } else {
          assert Reportable(scope[n], ignore) && m == UnusedMessage(scope[n]);
        }
      }
    }
  }

  /** A used entry is never reported, whatever the ignore token. */
  lemma {:induction false} UsedNeverReported(scope: Scope, ignore: Option<Token>)
    requires forall k | 0 <= k < |scope| :: scope[k].entry.used
    ensures UnusedReports(scope, ignore) == []
  {
    if scope != [] {
      UsedNeverReported(scope[..|scope| - 1], ignore);
    }
  }

  // What resolving a node may do to the scope stack: keep its height and
  // every entry's name and token, append declarations to the innermost scope
  // only, and never clear a flag.

  function Key(se: StackEntry): (string, Token) {
    (se.name, se.entry.token)
  }

  function Keys(scope: Scope): (r: seq<(string, Token)>)
    ensures |r| == |scope|
  {
    seq(|scope|, k requires 0 <= k < |scope| => Key(scope[k]))
  }

  function TokenKeys(tokens: seq<Token>): (r: seq<(string, Token)>)
    ensures |r| == |tokens|
  {
    seq(|tokens|, k requires 0 <= k < |tokens| => (tokens[k].lexeme, tokens[k]))
  }

  predicate FlagsGrow(a: StackEntry, b: StackEntry) {
    (a.entry.defined ==> b.entry.defined) && (a.entry.used ==> b.entry.used)
  }

  ghost predicate Grown(before: seq<Scope>, after: seq<Scope>, added: seq<Token>) {
    |after| == |before| &&
    (forall i | 0 <= i < |before| - 1 :: Keys(after[i]) == Keys(before[i])) &&
    (|before| > 0 ==> Keys(after[|before| - 1]) == Keys(before[|before| - 1]) + TokenKeys(added)) &&
    (forall i, k | 0 <= i < |before| && 0 <= k < |before[i]| && k < |after[i]| :: FlagsGrow(before[i][k], after[i][k]))
  }

  lemma GrownReflexive(s: seq<Scope>)
    ensures Grown(s, s, [])
  {
    if |s| > 0 {
      assert Keys(s[|s| - 1]) + TokenKeys([]) == Keys(s[|s| - 1]);
    }
  }

  lemma GrownTransitive(a: seq<Scope>, b: seq<Scope>, c: seq<Scope>, x: seq<Token>, y: seq<Token>)
    requires Grown(a, b, x) && Grown(b, c, y)
    ensures Grown(a, c, x + y)
  {
    if |a| > 0 {
      assert TokenKeys(x + y) == TokenKeys(x) + TokenKeys(y);
    }
    forall i | 0 <= i < |a| ensures |a[i]| <= |b[i]| {
      assert |Keys(a[i])| <= |Keys(b[i])|;
    }
  }

  /** Closing the scope opened on top of `a` leaves `a`'s scopes grown by nothing. */
  lemma GrownPop(a: seq<Scope>, t: Scope, b: seq<Scope>, x: seq<Token>)
    requires Grown(a + [t], b, x)
    ensures Grown(a, b[..|a|], [])
  {
    var p := a + [t];
    forall i | 0 <= i < |a| ensures Keys(b[i]) == Keys(a[i]) {
      assert p[i] == a[i];
    }
    if |a| > 0 {
      assert Keys(a[|a| - 1]) + TokenKeys([]) == Keys(a[|a| - 1]);
    }
    forall i, k | 0 <= i < |a| && 0 <= k < |a[i]| && k < |b[..|a|][i]|
      ensures FlagsGrow(a[i][k], b[..|a|][i][k])
    {
      assert p[i] == a[i];
    }
  }

  /** A scope opened empty holds, when closed, exactly the declarations made in it. */
  lemma PoppedKeys(pushed: seq<Scope>, full: seq<Scope>, added: seq<Token>)
    requires pushed != [] && Top(pushed) == [] && Grown(pushed, full, added)
    ensures full != [] && Keys(Top(full)) == TokenKeys(added)
  {
    assert Keys(Top(pushed)) == [];
    assert Keys(Top(full)) == [] + TokenKeys(added);
  }

  /** A scope opened empty on top of `a` and closed: it held the declarations made in it, and `a` is grown by nothing. */
  lemma ScopeClosed(a: seq<Scope>, full: seq<Scope>, added: seq<Token>)
    requires Grown(a + [[]], full, added)
    ensures full != [] && Keys(Top(full)) == TokenKeys(added)
    ensures Grown(a, full[..|full| - 1], [])
  {
    PoppedKeys(a + [[]], full, added);
    GrownPop(a, [], full, added);
  }

  /** Appending a fresh entry to the innermost scope grows it by that declaration. */
  lemma GrownAppend(s: seq<Scope>, name: Token)
    requires s != []
    ensures Grown(s, s[|s| - 1 := Top(s) + [Fresh(name)]], [name])
  {
    var t := s[|s| - 1 := Top(s) + [Fresh(name)]];
    assert Keys(t[|s| - 1]) == Keys(Top(s)) + TokenKeys([name]);
  }

  /** Replacing one entry by one with the same name and token and no fewer flags. */
  lemma GrownUpdate(s: seq<Scope>, i: nat, k: nat, se: StackEntry)
    requires i < |s| && k < |s[i]|
    requires Key(se) == Key(s[i][k]) && FlagsGrow(s[i][k], se)
    ensures Grown(s, s[i := s[i][k := se]], [])
  {
    var t := s[i := s[i][k := se]];
    assert Keys(t[i]) == Keys(s[i]);
    if |s| > 0 {
      assert Keys(s[|s| - 1]) + TokenKeys([]) == Keys(s[|s| - 1]);
    }
  }

  /** A scope keyed by `params` then `rest` holds parameter k's token at slot k. */
  lemma ParamsAtSlots(scope: Scope, params: seq<Token>, rest: seq<Token>)
    requires Keys(scope) == TokenKeys(params + rest)
    ensures forall k | 0 <= k < |params| :: k < |scope| && scope[k].entry.token == params[k]
  {
    forall k | 0 <= k < |params| ensures k < |scope| && scope[k].entry.token == params[k] {
      assert Keys(scope)[k] == TokenKeys(params + rest)[k];
    }
  }

  /** A scope whose first entries carry the tokens of `x`'s finds a name spelled like one of `x`'s where `x` does. */
  lemma FirstByLexemeExtended(x: Scope, y: Scope, name: string)
    requires |x| <= |y| && forall k | 0 <= k < |x| :: y[k].entry.token == x[k].entry.token
    requires FirstByLexeme(x, name).Some?
    ensures FirstByLexeme(y, name) == FirstByLexeme(x, name)
  {
  }

  /**
   * The innermost scope's entry for `name`, as `define` finds it, is marked
   * defined.
   */
  ghost predicate DefinedIn(scopes: seq<Scope>, name: Token) {
    scopes != [] &&
    match FirstByLexeme(Top(scopes), name.lexeme)
    case None => false
    case Some(k) => Top(scopes)[k].entry.defined
  }

  /** Later resolving in the same scope finds a declared name at the same position. */
  lemma FoundKept(a: seq<Scope>, b: seq<Scope>, added: seq<Token>, name: Token)
    requires Grown(a, b, added) && a != [] && FirstByLexeme(Top(a), name.lexeme).Some?
    ensures FirstByLexeme(Top(b), name.lexeme) == FirstByLexeme(Top(a), name.lexeme)
  {
    var n := |a| - 1;
    forall k | 0 <= k < |a[n]| ensures k < |b[n]| && b[n][k].entry.token == a[n][k].entry.token {
      assert Keys(b[n])[k] == (Keys(a[n]) + TokenKeys(added))[k];
    }
    FirstByLexemeExtended(a[n], b[n], name.lexeme);
  }

  /** Later resolving in the same scope never undoes a definition. */
  lemma DefinedKept(a: seq<Scope>, b: seq<Scope>, added: seq<Token>, name: Token)
    requires Grown(a, b, added) && DefinedIn(a, name)
    ensures DefinedIn(b, name)
  {
    FoundKept(a, b, added, name);
    var n := |a| - 1;
    var k := FirstByLexeme(a[n], name.lexeme).value;
    assert FlagsGrow(a[n][k], b[n][k]);
  }

  /** The names a statement declares in the scope it is resolved in (Block and For open their own). */
  function Declared(s: Stmt): seq<Token> {
    match s
    case Var(name, _, _) => [name]
    case Function(d) => [d.name]
    case Class(name, _) => [name]
    case If(_, t, e) => Declared(t) + (match e case None => [] case Some(x) => Declared(x))
    case While(_, b) => Declared(b)
    case _ => []
  }

  function DeclaredAll(ss: seq<Stmt>): seq<Token> {
    if ss == [] then [] else DeclaredAll(ss[..|ss| - 1]) + Declared(ss[|ss| - 1])
  }

  // References, checked against the names open when each is resolved. A
  // lookup sees only the names of the entries, so a stack of keys is all a
  // reference's resolution depends on; the flags live in the real scopes.

  type KeyScope = seq<(string, Token)>

  ghost function KeyStack(scopes: seq<Scope>): (r: seq<KeyScope>)
    ensures |r| == |scopes| && forall i | 0 <= i < |scopes| :: r[i] == Keys(scopes[i])
  {
    seq(|scopes|, i requires 0 <= i < |scopes| => Keys(scopes[i]))
  }

  /** `FirstNamed` on the keys of a scope. */
  function FirstKey(ks: KeyScope, name: string): Option<nat> {
    if ks == [] then None
    else if ks[0].0 == name then Some(0)
    else match FirstKey(ks[1..], name)
      case None => None
      case Some(k) => Some(k + 1)
  }

  /** `FindLocal` on a stack of keys. */
  function Lookup(kss: seq<KeyScope>, name: string): Option<Position> {
    if kss == [] then None
    else match FirstKey(kss[|kss| - 1], name)
      case Some(k) => Some(Position(|kss| - 1, k))
      case None => Lookup(kss[..|kss| - 1], name)
  }

  lemma {:induction false} FirstKeyAgrees(scope: Scope, name: string)
    ensures FirstKey(Keys(scope), name) == FirstNamed(scope, name)
  {
    if scope != [] {
      assert Keys(scope)[1..] == Keys(scope[1..]);
      FirstKeyAgrees(scope[1..], name);
    }
  }

  /** Looking a name up in the keys of a stack finds what `resolveLocal`'s scan finds. */
  lemma {:induction false} LookupAgrees(scopes: seq<Scope>, name: string)
    ensures Lookup(KeyStack(scopes), name) == FindLocal(scopes, name)
  {
    if scopes != [] {
      var n := |scopes| - 1;
      FirstKeyAgrees(scopes[n], name);
      assert KeyStack(scopes)[..n] == KeyStack(scopes[..n]);
      LookupAgrees(scopes[..n], name);
    }
  }

  /** The keys once each of `tokens` is declared in the innermost scope; nothing without one. */
  function AddKeys(kss: seq<KeyScope>, tokens: seq<Token>): seq<KeyScope> {
    if kss == [] then kss else kss[|kss| - 1 := kss[|kss| - 1] + TokenKeys(tokens)]
  }

  /** Resolving that grows the stack by `added` leaves exactly the keys `AddKeys` gives. */
  lemma GrownKeyStack(a: seq<Scope>, b: seq<Scope>, added: seq<Token>)
    requires Grown(a, b, added)
    ensures KeyStack(b) == AddKeys(KeyStack(a), added)
  {
    if a != [] {
      assert KeyStack(b) == KeyStack(a)[|a| - 1 := Keys(Top(a)) + TokenKeys(added)];
    }
  }

  lemma AddNoKeys(kss: seq<KeyScope>)
    ensures AddKeys(kss, []) == kss
  {
    if kss != [] {
      assert kss[|kss| - 1] + TokenKeys([]) == kss[|kss| - 1];
    }
  }

  lemma KeyStackPush(scopes: seq<Scope>)
    ensures KeyStack(scopes + [[]]) == KeyStack(scopes) + [[]]
  {
    var pushed := scopes + [[]];
    assert KeyStack(pushed)[|scopes|] == Keys([]) == [];
    assert forall i | 0 <= i < |scopes| :: KeyStack(pushed)[i] == Keys(pushed[i]) == KeyStack(scopes)[i];
  }

  /**
   * From `a` to the later stack `b`: no scope opened, and every entry of a
   * scope still open keeps its place and its used flag.
   */
  ghost predicate UsesKept(a: seq<Scope>, b: seq<Scope>) {
    |b| <= |a| &&
    forall i, k | 0 <= i < |b| && 0 <= k < |a[i]| :: k < |b[i]| && (a[i][k].entry.used ==> b[i][k].entry.used)
  }

  lemma GrownUsesKept(a: seq<Scope>, b: seq<Scope>, added: seq<Token>)
    requires Grown(a, b, added)
    ensures UsesKept(a, b)
  {
    forall i, k | 0 <= i < |b| && 0 <= k < |a[i]| ensures k < |b[i]| && (a[i][k].entry.used ==> b[i][k].entry.used) {
      if i < |a| - 1 {
        assert |Keys(a[i])| == |Keys(b[i])|;
      } else {
        assert |Keys(b[i])| == |Keys(a[i]) + TokenKeys(added)|;
      }
      assert FlagsGrow(a[i][k], b[i][k]);
    }
  }

  /**
   * The reference `id` to `name`, looked up in `kss`: when some scope holds
   * the name, the node's coordinate is recorded and, while that scope is
   * still open in `now`, the entry found is there and marked used.
   */
  ghost predicate NotedAt(kss: seq<KeyScope>, now: seq<Scope>, resolved: map<nat, Coord>, name: Token, id: nat) {
    match Lookup(kss, name.lexeme)
    case None => true
    case Some(p) =>
      id in resolved && (p.scope < |now| ==> p.idx < |now[p.scope]| && now[p.scope][p.idx].entry.used)
  }

  /**
   * Every variable and assignment node of `e`, including those in the
   * bodies of function literals, is `NotedAt` the keys open when it is
   * resolved, `kss` being those open when `e` is.
   */
  ghost predicate ExprResolved(e: Expr, kss: seq<KeyScope>, now: seq<Scope>, r: map<nat, Coord>)
    decreases SizeE(e), 0
  {
    match e
    case Assign(name, value, id) => ExprResolved(value, kss, now, r) && NotedAt(kss, now, r, name, id)
    case Binary(left, _, right) => ExprResolved(left, kss, now, r) && ExprResolved(right, kss, now, r)
    case Call(callee, _, args) =>
      ExprResolved(callee, kss, now, r) &&
      forall i | 0 <= i < |args| :: SizeEsElement(args, i); ExprResolved(args[i], kss, now, r)
    case Get(obj, _) => ExprResolved(obj, kss, now, r)
    case Grouping(x) => ExprResolved(x, kss, now, r)
    case Literal(_) => true
    case Logical(left, _, right) => ExprResolved(left, kss, now, r) && ExprResolved(right, kss, now, r)
    case Set(obj, _, value) => ExprResolved(value, kss, now, r) && ExprResolved(obj, kss, now, r)
    case Unary(_, right) => ExprResolved(right, kss, now, r)
    case CommaGroup(left, right) => ExprResolved(left, kss, now, r) && ExprResolved(right, kss, now, r)
    case Ternary(c, t, f) => ExprResolved(c, kss, now, r) && ExprResolved(t, kss, now, r) && ExprResolved(f, kss, now, r)
    case Variable(name, id) => NotedAt(kss, now, r, name, id)
    case AnonFunction(d) => FunResolved(d, kss, now, r)
  }

  /** `resolveFunction`: the body in a new scope holding the parameters. */
  ghost predicate FunResolved(d: FunDecl, kss: seq<KeyScope>, now: seq<Scope>, r: map<nat, Coord>)
    decreases SizeD(d), 0
  {
    StmtsResolved(d.body, AddKeys(kss + [[]], d.params), now, r)
  }

  /** `resolveBlock`: each statement with the keys of the declarations before it. */
  ghost predicate StmtsResolved(ss: seq<Stmt>, kss: seq<KeyScope>, now: seq<Scope>, r: map<nat, Coord>)
    decreases SizeSs(ss), 1
  {
    forall i | 0 <= i < |ss| :: SizeSsElement(ss, i); StmtResolved(ss[i], AddKeys(kss, DeclaredAll(ss[..i])), now, r)
  }

  /** The names declared by an optional statement. */
  function DeclaredOpt(s: Option<Stmt>): seq<Token> {
    match s
    case None => []
    case Some(x) => Declared(x)
  }

  /** Every reference of a statement, by the visitor of its kind. */
  ghost predicate StmtResolved(s: Stmt, kss: seq<KeyScope>, now: seq<Scope>, r: map<nat, Coord>)
    decreases SizeS(s), 0
  {
    match s
    case Block(ss) => StmtsResolved(ss, kss + [[]], now, r)
    case Expression(e) => ExprResolved(e, kss, now, r)
    case Function(d) => FunResolved(d, AddKeys(kss, [d.name]), now, r)
    case If(c, t, f) =>
      ExprResolved(c, kss, now, r) && StmtResolved(t, kss, now, r) &&
      (match f case None => true case Some(x) => StmtResolved(x, AddKeys(kss, Declared(t)), now, r))
    case Print(e) => ExprResolved(e, kss, now, r)
    case Return(_, v) =>
      (match v case None => true case Some(x) => assert SizeE(x) == SizeOptE(v); ExprResolved(x, kss, now, r))
    case Var(name, init, _) =>
      (match init case None => true case Some(x) => assert SizeE(x) == SizeOptE(init); ExprResolved(x, AddKeys(kss, [name]), now, r))
    case While(c, b) => ExprResolved(c, kss, now, r) && StmtResolved(b, kss, now, r)
    case For(init, c, p, b) =>
      var inner := AddKeys(kss + [[]], DeclaredOpt(init));
      (match init case None => true case Some(x) => StmtResolved(x, kss + [[]], now, r)) &&
      (match c case None => true case Some(x) => assert SizeE(x) == SizeOptE(c); ExprResolved(x, inner, now, r)) &&
      (match p case None => true case Some(x) => assert SizeE(x) == SizeOptE(p); ExprResolved(x, inner, now, r)) &&
      StmtResolved(b, inner, now, r)
    case Break(_) => true
    case Continue(_) => true
    case Class(name, methods) =>
      forall i | 0 <= i < |methods| :: SizeDsElement(methods, i); FunResolved(methods[i], AddKeys(kss, [name]) + [[]], now, r)
  }

  lemma NotedAtKept(kss: seq<KeyScope>, a: seq<Scope>, ra: map<nat, Coord>, b: seq<Scope>, rb: map<nat, Coord>, name: Token, id: nat)
    requires UsesKept(a, b) && ra.Keys <= rb.Keys && NotedAt(kss, a, ra, name, id)
    ensures NotedAt(kss, b, rb, name, id)
  {
  }

  /** What resolving recorded about an expression survives all later resolving. */
  lemma {:induction false} ExprResolvedKept(e: Expr, kss: seq<KeyScope>, a: seq<Scope>, ra: map<nat, Coord>, b: seq<Scope>, rb: map<nat, Coord>)
    requires UsesKept(a, b) && ra.Keys <= rb.Keys && ExprResolved(e, kss, a, ra)
    ensures ExprResolved(e, kss, b, rb)
    decreases SizeE(e), 0
  {
    match e
    case Assign(name, value, id) =>
      ExprResolvedKept(value, kss, a, ra, b, rb);
      NotedAtKept(kss, a, ra, b, rb, name, id);
    case Binary(left, _, right) =>
      ExprResolvedKept(left, kss, a, ra, b, rb);
      ExprResolvedKept(right, kss, a, ra, b, rb);
    case Call(callee, _, args) =>
      ExprResolvedKept(callee, kss, a, ra, b, rb);
      forall i | 0 <= i < |args| ensures ExprResolved(args[i], kss, b, rb) {
        SizeEsElement(args, i);
        ExprResolvedKept(args[i], kss, a, ra, b, rb);
      }
    case Get(obj, _) =>
      ExprResolvedKept(obj, kss, a, ra, b, rb);
    case Grouping(x) =>
      ExprResolvedKept(x, kss, a, ra, b, rb);
    case Literal(_) =>
    case Logical(left, _, right) =>
      ExprResolvedKept(left, kss, a, ra, b, rb);
      ExprResolvedKept(right, kss, a, ra, b, rb);
    case Set(obj, _, value) =>
      ExprResolvedKept(obj, kss, a, ra, b, rb);
      ExprResolvedKept(value, kss, a, ra, b, rb);
    case Unary(_, right) =>
      ExprResolvedKept(right, kss, a, ra, b, rb);
    case CommaGroup(left, right) =>
      ExprResolvedKept(left, kss, a, ra, b, rb);
      ExprResolvedKept(right, kss, a, ra, b, rb);
    case Ternary(c, t, f) =>
      ExprResolvedKept(c, kss, a, ra, b, rb);
      ExprResolvedKept(t, kss, a, ra, b, rb);
      ExprResolvedKept(f, kss, a, ra, b, rb);
    case Variable(name, id) =>
      NotedAtKept(kss, a, ra, b, rb, name, id);
    case AnonFunction(d) =>
      FunResolvedKept(d, kss, a, ra, b, rb);
  }

  lemma {:induction false} FunResolvedKept(d: FunDecl, kss: seq<KeyScope>, a: seq<Scope>, ra: map<nat, Coord>, b: seq<Scope>, rb: map<nat, Coord>)
    requires UsesKept(a, b) && ra.Keys <= rb.Keys && FunResolved(d, kss, a, ra)
    ensures FunResolved(d, kss, b, rb)
    decreases SizeD(d), 0
  {
    StmtsResolvedKept(d.body, AddKeys(kss + [[]], d.params), a, ra, b, rb);
  }

  lemma {:induction false} StmtsResolvedKept(ss: seq<Stmt>, kss: seq<KeyScope>, a: seq<Scope>, ra: map<nat, Coord>, b: seq<Scope>, rb: map<nat, Coord>)
    requires UsesKept(a, b) && ra.Keys <= rb.Keys && StmtsResolved(ss, kss, a, ra)
    ensures StmtsResolved(ss, kss, b, rb)
    decreases SizeSs(ss), 1
  {
    forall i | 0 <= i < |ss| ensures StmtResolved(ss[i], AddKeys(kss, DeclaredAll(ss[..i])), b, rb) {
      SizeSsElement(ss, i);
      StmtResolvedKept(ss[i], AddKeys(kss, DeclaredAll(ss[..i])), a, ra, b, rb);
    }
  }

  lemma {:induction false} StmtResolvedKept(s: Stmt, kss: seq<KeyScope>, a: seq<Scope>, ra: map<nat, Coord>, b: seq<Scope>, rb: map<nat, Coord>)
    requires UsesKept(a, b) && ra.Keys <= rb.Keys && StmtResolved(s, kss, a, ra)
    ensures StmtResolved(s, kss, b, rb)
    decreases SizeS(s), 0
  {
    match s
    case Block(ss) =>
      StmtsResolvedKept(ss, kss + [[]], a, ra, b, rb);
    case Expression(e) =>
      ExprResolvedKept(e, kss, a, ra, b, rb);
    case Function(d) =>
      FunResolvedKept(d, AddKeys(kss, [d.name]), a, ra, b, rb);
    case If(c, t, f) =>
      ExprResolvedKept(c, kss, a, ra, b, rb);
      StmtResolvedKept(t, kss, a, ra, b, rb);
      if f.Some? {
        StmtResolvedKept(f.value, AddKeys(kss, Declared(t)), a, ra, b, rb);
      }
    case Print(e) =>
      ExprResolvedKept(e, kss, a, ra, b, rb);
    case Return(_, v) =>
      if v.Some? {
        assert SizeE(v.value) == SizeOptE(v);
        ExprResolvedKept(v.value, kss, a, ra, b, rb);
      }
    case Var(name, init, _) =>
      if init.Some? {
        assert SizeE(init.value) == SizeOptE(init);
        ExprResolvedKept(init.value, AddKeys(kss, [name]), a, ra, b, rb);
      }
    case While(c, body) =>
      ExprResolvedKept(c, kss, a, ra, b, rb);
      StmtResolvedKept(body, kss, a, ra, b, rb);
    case For(init, c, p, body) =>
      var inner := AddKeys(kss + [[]], DeclaredOpt(init));
      if init.Some? {
        StmtResolvedKept(init.value, kss + [[]], a, ra, b, rb);
      }
      if c.Some? {
        assert SizeE(c.value) == SizeOptE(c);
        ExprResolvedKept(c.value, inner, a, ra, b, rb);
      }
      if p.Some? {
        assert SizeE(p.value) == SizeOptE(p);
        ExprResolvedKept(p.value, inner, a, ra, b, rb);
      }
      StmtResolvedKept(body, inner, a, ra, b, rb);
    case Break(_) =>
    case Continue(_) =>
    case Class(name, methods) =>
      forall i | 0 <= i < |methods| ensures FunResolved(methods[i], AddKeys(kss, [name]) + [[]], b, rb) {
        SizeDsElement(methods, i);
        FunResolvedKept(methods[i], AddKeys(kss, [name]) + [[]], a, ra, b, rb);
      }
  }

  /** One more statement resolved after the earlier ones of a block. */
  lemma StmtsResolvedSnoc(ss: seq<Stmt>, i: nat, kss: seq<KeyScope>, now: seq<Scope>, r: map<nat, Coord>)
    requires i < |ss| && StmtsResolved(ss[..i], kss, now, r)
    requires StmtResolved(ss[i], AddKeys(kss, DeclaredAll(ss[..i])), now, r)
    ensures StmtsResolved(ss[..i + 1], kss, now, r)
  {
    var t := ss[..i + 1];
    forall j | 0 <= j < |t| ensures StmtResolved(t[j], AddKeys(kss, DeclaredAll(t[..j])), now, r) {
      assert t[..j] == ss[..i][..j] || j == i;
      if j < i {
        assert t[j] == ss[..i][j] && t[..j] == ss[..i][..j];
      } else {
        assert t[..j] == ss[..i];
      }
    }
  }

  /** Every name of `tokens` is defined in the innermost scope. */
  ghost predicate AllDefined(scopes: seq<Scope>, tokens: seq<Token>) {
    forall t | t in tokens :: DefinedIn(scopes, t)
  }

  lemma AllDefinedKept(a: seq<Scope>, b: seq<Scope>, added: seq<Token>, tokens: seq<Token>)
    requires Grown(a, b, added) && AllDefined(a, tokens)
    ensures AllDefined(b, tokens)
  {
    forall t | t in tokens ensures DefinedIn(b, t) {
      DefinedKept(a, b, added, t);
    }
  }

  /** Resolving that declares nothing leaves the keys as they were. */
  lemma KeysKept(a: seq<Scope>, b: seq<Scope>)
    requires Grown(a, b, [])
    ensures KeyStack(b) == KeyStack(a)
  {
    GrownKeyStack(a, b, []);
    AddNoKeys(KeyStack(a));
  }

  lemma UsesKeptPop(a: seq<Scope>)
    requires a != []
    ensures UsesKept(a, a[..|a| - 1])
  {
  }

  // What is resolved stays resolved while later resolving grows the stack.

  lemma ExprLater(e: Expr, kss: seq<KeyScope>, a: seq<Scope>, ra: map<nat, Coord>, b: seq<Scope>, rb: map<nat, Coord>, added: seq<Token>)
    requires Grown(a, b, added) && ra.Keys <= rb.Keys && ExprResolved(e, kss, a, ra)
    ensures ExprResolved(e, kss, b, rb)
  {
    GrownUsesKept(a, b, added);
    ExprResolvedKept(e, kss, a, ra, b, rb);
  }

  lemma OptLater(x: Option<Expr>, kss: seq<KeyScope>, a: seq<Scope>, ra: map<nat, Coord>, b: seq<Scope>, rb: map<nat, Coord>, added: seq<Token>)
    requires Grown(a, b, added) && ra.Keys <= rb.Keys && (x.Some? ==> ExprResolved(x.value, kss, a, ra))
    ensures x.Some? ==> ExprResolved(x.value, kss, b, rb)
  {
    if x.Some? {
      ExprLater(x.value, kss, a, ra, b, rb, added);
    }
  }

  lemma StmtLater(s: Stmt, kss: seq<KeyScope>, a: seq<Scope>, ra: map<nat, Coord>, b: seq<Scope>, rb: map<nat, Coord>, added: seq<Token>)
    requires Grown(a, b, added) && ra.Keys <= rb.Keys && StmtResolved(s, kss, a, ra)
    ensures StmtResolved(s, kss, b, rb)
  {
    GrownUsesKept(a, b, added);
    StmtResolvedKept(s, kss, a, ra, b, rb);
  }

  lemma StmtsLater(ss: seq<Stmt>, kss: seq<KeyScope>, a: seq<Scope>, ra: map<nat, Coord>, b: seq<Scope>, rb: map<nat, Coord>, added: seq<Token>)
    requires Grown(a, b, added) && ra.Keys <= rb.Keys && StmtsResolved(ss, kss, a, ra)
    ensures StmtsResolved(ss, kss, b, rb)
  {
    GrownUsesKept(a, b, added);
    StmtsResolvedKept(ss, kss, a, ra, b, rb);
  }

  lemma FunsLater(ds: seq<FunDecl>, n: nat, kss: seq<KeyScope>, a: seq<Scope>, ra: map<nat, Coord>, b: seq<Scope>, rb: map<nat, Coord>, added: seq<Token>)
    requires n <= |ds| && Grown(a, b, added) && ra.Keys <= rb.Keys
    requires forall j | 0 <= j < n :: FunResolved(ds[j], kss, a, ra)
    ensures forall j | 0 <= j < n :: FunResolved(ds[j], kss, b, rb)
  {
    GrownUsesKept(a, b, added);
    forall j | 0 <= j < n ensures FunResolved(ds[j], kss, b, rb) {
      FunResolvedKept(ds[j], kss, a, ra, b, rb);
    }
  }

  /** Closing the innermost scope keeps what was resolved. */
  lemma StmtsPopped(ss: seq<Stmt>, kss: seq<KeyScope>, a: seq<Scope>, r: map<nat, Coord>)
    requires a != [] && StmtsResolved(ss, kss, a, r)
    ensures StmtsResolved(ss, kss, a[..|a| - 1], r)
  {
    UsesKeptPop(a);
    StmtsResolvedKept(ss, kss, a, r, a[..|a| - 1], r);
  }

  lemma FunsSnoc(ds: seq<FunDecl>, n: nat, kss: seq<KeyScope>, now: seq<Scope>, r: map<nat, Coord>)
    requires n < |ds| && FunResolved(ds[n], kss, now, r)
    requires forall j | 0 <= j < n :: FunResolved(ds[j], kss, now, r)
    ensures forall j | 0 <= j < n + 1 :: FunResolved(ds[j], kss, now, r)
  {
  }

  lemma FunsPopped(ds: seq<FunDecl>, kss: seq<KeyScope>, a: seq<Scope>, r: map<nat, Coord>)
    requires a != [] && forall j | 0 <= j < |ds| :: FunResolved(ds[j], kss, a, r)
    ensures forall j | 0 <= j < |ds| :: FunResolved(ds[j], kss, a[..|a| - 1], r)
  {
    UsesKeptPop(a);
    forall j | 0 <= j < |ds| ensures FunResolved(ds[j], kss, a[..|a| - 1], r) {
      FunResolvedKept(ds[j], kss, a, r, a[..|a| - 1], r);
    }
  }

  /**
   * The parts of a `for` resolved inside its own scope, whose keys are
   * `inner` on entry: the initializer first, the rest once it has declared.
   */
  ghost predicate ForResolvedInside(s: Stmt, inner: seq<KeyScope>, now: seq<Scope>, r: map<nat, Coord>)
    requires s.For?
  {
    (s.init.Some? ==> StmtResolved(s.init.value, inner, now, r)) &&
    (s.cond.Some? ==> ExprResolved(s.cond.value, AddKeys(inner, DeclaredOpt(s.init)), now, r)) &&
    (s.post.Some? ==> ExprResolved(s.post.value, AddKeys(inner, DeclaredOpt(s.init)), now, r)) &&
    StmtResolved(s.body, AddKeys(inner, DeclaredOpt(s.init)), now, r)
  }

  /** A `for` resolved inside its own scope, opened on top of `a`, then that scope closed. */
  lemma ForPopped(s: Stmt, a: seq<Scope>, full: seq<Scope>, r: map<nat, Coord>)
    requires s.For? && full != [] && ForResolvedInside(s, KeyStack(a + [[]]), full, r)
    ensures StmtResolved(s, KeyStack(a), full[..|full| - 1], r)
  {
    KeyStackPush(a);
    var kss := KeyStack(a);
    assert StmtResolved(s, kss, full, r);
    UsesKeptPop(full);
    StmtResolvedKept(s, kss, full, r, full[..|full| - 1], r);
  }

  class Resolver {
    var scopes: seq<Scope>
    var lastPoppedScope: Option<Scope>
    var currentFunction: FunctionType
    /** Reports through Lox.error, in order. */
    var errors: seq<CompileError>
    /** Lines written to standard error, in order. */
    var warnings: seq<string>
    /** The (depth, idx) written onto each resolved node, by node identity. */
    var resolved: map<nat, Coord>

    constructor ()
      ensures scopes == [] && lastPoppedScope == None && currentFunction == NONE
      ensures errors == [] && warnings == [] && resolved == map[]
    {
      scopes := [];
      lastPoppedScope := None;
      currentFunction := NONE;
      errors := [];
      warnings := [];
      resolved := map[];
    }

    /** `beginScope`: pushes an empty scope. */
    method BeginScope()
      modifies this`scopes
      ensures scopes == old(scopes) + [[]]
    {
      scopes := scopes + [[]];
    }

    /**
     * `endScope(ignore)`: pops the innermost scope into `lastPoppedScope` and
     * reports its unused entries except the one declared by `ignore`.
     */
    method EndScope(ignore: Option<Token>)
      requires scopes != []
      modifies this`scopes, this`lastPoppedScope, this`warnings
      ensures scopes == old(scopes[..|scopes| - 1])
      ensures lastPoppedScope == Some(old(Top(scopes)))
      ensures warnings == old(warnings) + UnusedReports(old(Top(scopes)), ignore)
      ensures |UnusedReports(lastPoppedScope.value, ignore)| <= |warnings|
      ensures warnings[|warnings| - |UnusedReports(lastPoppedScope.value, ignore)|..] == UnusedReports(lastPoppedScope.value, ignore)
    {
      lastPoppedScope := Some(Top(scopes));
      scopes := scopes[..|scopes| - 1];
      CheckUnusedLocals(ignore);
    }

    /** `checkUnusedLocals(ignore)`: one line per reportable entry of the last popped scope. */
    method CheckUnusedLocals(ignore: Option<Token>)
      modifies this`warnings
      ensures warnings == old(warnings) + match lastPoppedScope
                                          case None => []
                                          case Some(scope) => UnusedReports(scope, ignore)
    {
      if lastPoppedScope.Some? {
        ReportUnused(lastPoppedScope.value, ignore);
      }
    }

    /** The loop of `checkUnusedLocals` over one scope. */
    method ReportUnused(scope: Scope, ignore: Option<Token>)
      modifies this`warnings
      ensures warnings == old(warnings) + UnusedReports(scope, ignore)
    {
      for i := 0 to |scope|
        invariant warnings == old(warnings) + UnusedReports(scope[..i], ignore)
      {
        ghost var before := warnings;
        if Reportable(scope[i], ignore) {
          warnings := warnings + [UnusedMessage(scope[i])];
        }
        ReportStep(scope, i, ignore, old(warnings), before, warnings);
      }
      assert scope[..|scope|] == scope;
    }

    /** `getByName(name)`: the first entry of the innermost scope whose token is spelled `name`. */
    method GetByName(name: string) returns (r: Option<nat>)
      requires scopes != []
      ensures r == FirstByLexeme(Top(scopes), name)
    {
      var top := Top(scopes);
      for i := 0 to |top|
        invariant forall k | 0 <= k < i :: top[k].entry.token.lexeme != name
      {
        if top[i].entry.token.lexeme == name {
          return Some(i);
        }
      }
      return None;
    }

    /**
     * `declare(name)`: with no scope open, nothing; otherwise the name is
     * appended, undefined and unused, to the innermost scope, after reporting
     * "Already a variable with this name in this scope." when that scope
     * already holds the name.
     */
    method Declare(name: Token)
      modifies this`scopes, this`errors
      ensures old(scopes) == [] ==> scopes == [] && errors == old(errors)
      ensures old(scopes) != [] ==> scopes == old(scopes[|scopes| - 1 := Top(scopes) + [Fresh(name)]])
      ensures old(scopes) != [] ==>
                errors == old(errors) +
                  if old(FirstByLexeme(Top(scopes), name.lexeme)).Some?
                  then [CompileError(name, "Already a variable with this name in this scope.")] else []
      ensures Grown(old(scopes), scopes, [name])
      ensures old(scopes) != [] ==> FirstByLexeme(Top(scopes), name.lexeme).Some?
    {
      if scopes == [] {
        return;
      }
      var existing := GetByName(name.lexeme);
      if existing.Some? {
        errors := errors + [CompileError(name, "Already a variable with this name in this scope.")];
      }
      GrownAppend(scopes, name);
      scopes := scopes[|scopes| - 1 := Top(scopes) + [Fresh(name)]];
      assert Top(scopes)[|Top(scopes)| - 1] == Fresh(name);
    }

    /** `define(name)`: marks defined the first entry of the innermost scope spelled `name`, if any. */
    method Define(name: Token)
      modifies this`scopes
      ensures old(scopes) == [] ==> scopes == []
      ensures old(scopes) != [] ==>
                scopes == match old(FirstByLexeme(Top(scopes), name.lexeme))
                          case None => old(scopes)
                          case Some(k) => old(scopes[|scopes| - 1 := Top(scopes)[k := Top(scopes)[k].(entry := Top(scopes)[k].entry.(defined := true))]])
      ensures Grown(old(scopes), scopes, [])
      ensures old(scopes) != [] && old(FirstByLexeme(Top(scopes), name.lexeme)).Some? ==> DefinedIn(scopes, name)
    {
      GrownReflexive(scopes);
      if scopes == [] {
        return;
      }
      var k := GetByName(name.lexeme);
      if k.Some? {
        var top := Top(scopes);
        var se := top[k.value];
        GrownUpdate(scopes, |scopes| - 1, k.value, se.(entry := se.entry.(defined := true)));
        scopes := scopes[|scopes| - 1 := top[k.value := se.(entry := se.entry.(defined := true))]];
        FirstByLexemeExtended(top, Top(scopes), name.lexeme);
      }
    }

    /** The inner loop of `resolveLocal`: the first position of `scope` looked up under `name`. */
    method ScanScope(scope: Scope, name: string) returns (r: Option<nat>)
      ensures r == FirstNamed(scope, name)
    {
      for idx := 0 to |scope|
        invariant forall k | 0 <= k < idx :: scope[k].name != name
      {
        if scope[idx].name == name {
          return Some(idx);
        }
      }
      return None;
    }

    /**
     * The nested scan of `resolveLocal`: scopes from the innermost out, each
     * from its first entry, stopping at the first entry looked up under `name`.
     */
    method Locate(name: string) returns (p: Option<Position>)
      ensures p == FindLocal(scopes, name)
    {
      var i := |scopes| - 1;
      while i >= 0
        invariant -1 <= i < |scopes|
        invariant FindLocal(scopes, name) == FindLocal(scopes[..i + 1], name)
        decreases i
      {
        var idx := ScanScope(scopes[i], name);
        assert Top(scopes[..i + 1]) == scopes[i];
        if idx.Some? {
          return Some(Position(i, idx.value));
        }
        assert scopes[..i + 1][..i] == scopes[..i];
        i := i - 1;
      }
      return None;
    }

    /**
     * `resolveLocal(expr, name)`, recording on any node: the entry found is
     * marked used and the node gets (scopes out from the innermost, position);
     * when no scope holds the name, nothing changes.
     */
    method ResolveLocal(id: nat, name: Token)
      modifies this`scopes, this`resolved
      ensures match old(FindLocal(scopes, name.lexeme))
        case None => scopes == old(scopes) && resolved == old(resolved)
        case Some(p) =>
          scopes == MarkUsed(old(scopes), p) &&
          resolved == old(resolved)[id := Coord(|scopes| - 1 - p.scope, p.idx)]
      ensures Grown(old(scopes), scopes, [])
      ensures NotedAt(KeyStack(old(scopes)), scopes, resolved, name, id)
    {
      GrownReflexive(scopes);
      LookupAgrees(scopes, name.lexeme);
      var p := Locate(name.lexeme);
      if p.Some? {
        var pos := p.value;
        var se := scopes[pos.scope][pos.idx];
        GrownUpdate(scopes, pos.scope, pos.idx, se.(entry := se.entry.(used := true)));
        resolved := resolved[id := Coord(|scopes| - 1 - pos.scope, pos.idx)];
        scopes := MarkUsed(scopes, pos);
      }
    }

    /**
     * `resolveLocal` as written: the entry is marked used, then the node is
     * cast to a variable node; for an assignment node that cast throws
     * (`true`) and nothing is recorded.
     */
    method ResolveLocalAsWritten(expr: Expr, name: Token) returns (castFails: bool)
      requires expr.Variable? || expr.Assign?
      modifies this`scopes, this`resolved
      ensures castFails <==> expr.Assign? && old(FindLocal(scopes, name.lexeme)).Some?
      ensures match old(FindLocal(scopes, name.lexeme))
        case None => scopes == old(scopes) && resolved == old(resolved)
        case Some(p) =>
          scopes == MarkUsed(old(scopes), p) &&
          resolved == if castFails then old(resolved) else old(resolved)[expr.id := Coord(|scopes| - 1 - p.scope, p.idx)]
    {
      castFails := false;
      var p := Locate(name.lexeme);
      if p.Some? {
        var pos := p.value;
        var depth := |scopes| - 1 - pos.scope;
        scopes := MarkUsed(scopes, pos);
        if expr.Assign? {
          castFails := true;
          return;
        }
        resolved := resolved[expr.id := Coord(depth, pos.idx)];
      }
    }

    /** A read of `name` while the innermost scope's entry for it is not yet defined. */
    ghost predicate ReadsOwnInitializer(name: Token)
      reads this
    {
      scopes != [] &&
      match FirstByLexeme(Top(scopes), name.lexeme)
      case None => false
      case Some(k) => !Top(scopes)[k].entry.defined
    }

    /**
     * `visitVariableExpr`: reports "Can't read local variable in its own
     * initializer." when the innermost scope's entry for the name is declared
     * but not yet defined, then resolves the reference.
     */
    method VisitVariable(name: Token, id: nat)
      modifies this`scopes, this`resolved, this`errors
      ensures errors == old(errors) +
        if old(ReadsOwnInitializer(name)) then [CompileError(name, "Can't read local variable in its own initializer.")] else []
      ensures match old(FindLocal(scopes, name.lexeme))
        case None => scopes == old(scopes) && resolved == old(resolved)
        case Some(p) =>
          scopes == MarkUsed(old(scopes), p) &&
          resolved == old(resolved)[id := Coord(|scopes| - 1 - p.scope, p.idx)]
      ensures Grown(old(scopes), scopes, [])
      ensures NotedAt(KeyStack(old(scopes)), scopes, resolved, name, id)
    {
      CheckOwnInitializer(name);
      ResolveLocal(id, name);
    }

    /** The check `visitVariableExpr` makes before resolving. */
    method CheckOwnInitializer(name: Token)
      modifies this`errors
      ensures errors == old(errors) +
        if ReadsOwnInitializer(name) then [CompileError(name, "Can't read local variable in its own initializer.")] else []
    {
      if scopes != [] {
        var k := GetByName(name.lexeme);
        if k.Some? && !Top(scopes)[k.value].entry.defined {
          errors := errors + [CompileError(name, "Can't read local variable in its own initializer.")];
        }
      }
    }

    /**
     * Resolving an expression: no declarations, flags only set, current
     * function kept; every reference in it outside nested function bodies
     * whose name an open scope holds is recorded and its entry marked used.
     */
    method ResolveExpr(e: Expr)
      modifies this
      decreases SizeE(e), 3
      ensures Grown(old(scopes), scopes, [])
      ensures currentFunction == old(currentFunction)
      ensures old(errors) <= errors && old(warnings) <= warnings
      ensures old(resolved).Keys <= resolved.Keys
      ensures ExprResolved(e, KeyStack(old(scopes)), scopes, resolved)
    {
      match e
      case Assign(_, _, _) =>
        ResolveAssign(e);
      case Binary(l, _, r) =>
        ResolveBoth(l, r, SizeE(e));
      case Call(_, _, _) =>
        ResolveCall(e);
      case Get(obj, _) =>
        ResolveExpr(obj);
      case Grouping(x) =>
        ResolveExpr(x);
      case Literal(_) =>
        GrownReflexive(scopes);
      case Logical(l, _, r) =>
        ResolveBoth(l, r, SizeE(e));
      case Set(obj, _, value) =>
        ResolveBoth(value, obj, SizeE(e));
      case Unary(_, r) =>
        ResolveExpr(r);
      case CommaGroup(l, r) =>
        ResolveBoth(l, r, SizeE(e));
      case Ternary(_, _, _) =>
        ResolveTernary(e);
      case Variable(name, id) =>
        VisitVariable(name, id);
      case AnonFunction(d) =>
        ResolveFunction(d, FUNCTION);
    }

    /** `visitAssignExpr`: the value, then the assigned name. */
    method ResolveAssign(e: Expr)
      requires e.Assign?
      modifies this
      decreases SizeE(e), 1
      ensures Grown(old(scopes), scopes, [])
      ensures currentFunction == old(currentFunction)
      ensures old(errors) <= errors && old(warnings) <= warnings
      ensures old(resolved).Keys <= resolved.Keys
      ensures ExprResolved(e, KeyStack(old(scopes)), scopes, resolved)
    {
      ResolveExpr(e.value);
      ghost var mid, midResolved := scopes, resolved;
      KeysKept(old(scopes), mid);
      ResolveLocal(e.id, e.name);
      GrownTransitive(old(scopes), mid, scopes, [], []);
      ExprLater(e.value, KeyStack(old(scopes)), mid, midResolved, scopes, resolved, []);
    }

    /** `visitTernaryExpr`: condition, then branch, else branch. */
    method ResolveTernary(e: Expr)
      requires e.Ternary?
      modifies this
      decreases SizeE(e), 2
      ensures Grown(old(scopes), scopes, [])
      ensures currentFunction == old(currentFunction)
      ensures old(errors) <= errors && old(warnings) <= warnings
      ensures old(resolved).Keys <= resolved.Keys
      ensures ExprResolved(e, KeyStack(old(scopes)), scopes, resolved)
    {
      ResolveBoth(e.cond, e.trueVal, SizeE(e));
      ghost var mid, midResolved := scopes, resolved;
      KeysKept(old(scopes), mid);
      ResolveExpr(e.falseVal);
      GrownTransitive(old(scopes), mid, scopes, [], []);
      ExprLater(e.cond, KeyStack(old(scopes)), mid, midResolved, scopes, resolved, []);
      ExprLater(e.trueVal, KeyStack(old(scopes)), mid, midResolved, scopes, resolved, []);
    }

    /** Two subexpressions resolved in order, as the binary-shaped visitors do. */
    method ResolveBoth(first: Expr, second: Expr, ghost bound: nat)
      requires SizeE(first) < bound && SizeE(second) < bound
      modifies this
      decreases bound, 1
      ensures Grown(old(scopes), scopes, [])
      ensures currentFunction == old(currentFunction)
      ensures old(errors) <= errors && old(warnings) <= warnings
      ensures old(resolved).Keys <= resolved.Keys
      ensures ExprResolved(first, KeyStack(old(scopes)), scopes, resolved)
      ensures ExprResolved(second, KeyStack(old(scopes)), scopes, resolved)
    {
      ResolveExpr(first);
      ghost var mid, midResolved := scopes, resolved;
      KeysKept(old(scopes), mid);
      ResolveExpr(second);
      GrownTransitive(old(scopes), mid, scopes, [], []);
      ExprLater(first, KeyStack(old(scopes)), mid, midResolved, scopes, resolved, []);
    }

    /** `visitCallExpr`: the callee, then each argument in order. */
    method ResolveCall(e: Expr)
      requires e.Call?
      modifies this
      decreases SizeE(e), 1
      ensures Grown(old(scopes), scopes, [])
      ensures currentFunction == old(currentFunction)
      ensures old(errors) <= errors && old(warnings) <= warnings
      ensures old(resolved).Keys <= resolved.Keys
      ensures ExprResolved(e, KeyStack(old(scopes)), scopes, resolved)
    {
      ghost var keys := KeyStack(scopes);
      ResolveExpr(e.callee);
      var arguments := e.arguments;
      for i := 0 to |arguments|
        invariant Grown(old(scopes), scopes, [])
        invariant currentFunction == old(currentFunction)
        invariant old(errors) <= errors && old(warnings) <= warnings
        invariant old(resolved).Keys <= resolved.Keys
        invariant ExprResolved(e.callee, keys, scopes, resolved)
        invariant forall j | 0 <= j < i :: ExprResolved(arguments[j], keys, scopes, resolved)
      {
        SizeEsElement(arguments, i);
        ghost var mid, midResolved := scopes, resolved;
        KeysKept(old(scopes), mid);
        ResolveExpr(arguments[i]);
        GrownTransitive(old(scopes), mid, scopes, [], []);
        ExprLater(e.callee, keys, mid, midResolved, scopes, resolved, []);
        forall j | 0 <= j < i ensures ExprResolved(arguments[j], keys, scopes, resolved) {
          ExprLater(arguments[j], keys, mid, midResolved, scopes, resolved, []);
        }
      }
    }

    /**
     * `resolveFunction(function, type)`: one new scope holding the parameters
     * in order (parameter k at position k, each declared then defined) and then
     * the body's declarations; the scope is closed ignoring the function's own
     * name, and `currentFunction` is restored.
     */
    method ResolveFunction(d: FunDecl, kind: FunctionType)
      modifies this
      decreases SizeD(d), 3
      ensures Grown(old(scopes), scopes, [])
      ensures currentFunction == old(currentFunction)
      ensures old(errors) <= errors && old(warnings) <= warnings
      ensures old(resolved).Keys <= resolved.Keys
      ensures lastPoppedScope.Some? && Keys(lastPoppedScope.value) == TokenKeys(d.params + DeclaredAll(d.body))
      ensures forall k | 0 <= k < |d.params| :: lastPoppedScope.value[k].entry.token == d.params[k]
      ensures forall k | 0 <= k < |d.params| :: DefinedIn([lastPoppedScope.value], d.params[k])
      ensures |UnusedReports(lastPoppedScope.value, Some(d.name))| <= |warnings|
      ensures warnings[|warnings| - |UnusedReports(lastPoppedScope.value, Some(d.name))|..] ==
        UnusedReports(lastPoppedScope.value, Some(d.name))
      ensures FunResolved(d, KeyStack(old(scopes)), scopes, resolved)
    {
      var enclosingFunction := currentFunction;
      currentFunction := kind;
      BeginScope();
      ghost var pushed := scopes;
      KeyStackPush(old(scopes));
      ResolveParamsAndBody(d);
      ghost var full := scopes;
      PoppedKeys(pushed, full, d.params + DeclaredAll(d.body));
      EndScope(Some(d.name));
      StmtsPopped(d.body, AddKeys(KeyStack(pushed), d.params), full, resolved);
      GrownPop(old(scopes), [], full, d.params + DeclaredAll(d.body));
      currentFunction := enclosingFunction;
      ParamsAtSlots(lastPoppedScope.value, d.params, DeclaredAll(d.body));
    }

    /** The inside of `resolveFunction`'s scope: the parameters declared and defined, then the body. */
    method ResolveParamsAndBody(d: FunDecl)
      requires scopes != []
      modifies this
      decreases SizeD(d), 2
      ensures Grown(old(scopes), scopes, d.params + DeclaredAll(d.body))
      ensures currentFunction == old(currentFunction)
      ensures old(errors) <= errors && old(warnings) <= warnings
      ensures old(resolved).Keys <= resolved.Keys
      ensures forall k | 0 <= k < |d.params| :: DefinedIn(scopes, d.params[k])
      ensures StmtsResolved(d.body, AddKeys(KeyStack(old(scopes)), d.params), scopes, resolved)
    {
      DeclareParams(d.params);
      ghost var afterParams := scopes;
      GrownKeyStack(old(scopes), afterParams, d.params);
      ResolveBlock(d.body);
      GrownTransitive(old(scopes), afterParams, scopes, d.params, DeclaredAll(d.body));
      forall k | 0 <= k < |d.params| ensures DefinedIn(scopes, d.params[k]) {
        DefinedKept(afterParams, scopes, DeclaredAll(d.body), d.params[k]);
      }
    }

    /** `declare(name)` then `define(name)`. */
    method DeclareAndDefine(name: Token)
      modifies this`scopes, this`errors
      ensures Grown(old(scopes), scopes, [name])
      ensures old(errors) <= errors
      ensures old(scopes) != [] ==> DefinedIn(scopes, name)
    {
      Declare(name);
      ghost var mid := scopes;
      Define(name);
      GrownTransitive(old(scopes), mid, scopes, [name], []);
      assert [name] + [] == [name];
    }

    /** The parameter loop of `resolveFunction`: each parameter declared, then defined. */
    method DeclareParams(params: seq<Token>)
      requires scopes != []
      modifies this`scopes, this`errors
      ensures Grown(old(scopes), scopes, params)
      ensures old(errors) <= errors
      ensures forall k | 0 <= k < |params| :: DefinedIn(scopes, params[k])
    {
      GrownReflexive(scopes);
      for i := 0 to |params|
        invariant |scopes| == |old(scopes)|
        invariant Grown(old(scopes), scopes, params[..i])
        invariant old(errors) <= errors
        invariant forall k | 0 <= k < i :: DefinedIn(scopes, params[k])
      {
        ghost var before := scopes;
        DeclareAndDefine(params[i]);
        forall k | 0 <= k < i ensures DefinedIn(scopes, params[k]) {
          DefinedKept(before, scopes, [params[i]], params[k]);
        }
        GrownTransitive(old(scopes), before, scopes, params[..i], [params[i]]);
        assert params[..i] + [params[i]] == params[..i + 1];
      }
      assert params[..|params|] == params;
    }

    /**
     * `resolveClass(klass)`: a new scope in which every method is resolved as
     * a METHOD; no name is declared in it, so it is closed empty.
     */
    method ResolveClass(name: Token, methods: seq<FunDecl>)
      modifies this
      decreases SizeDs(methods), 4
      ensures Grown(old(scopes), scopes, [])
      ensures currentFunction == old(currentFunction)
      ensures old(errors) <= errors && old(warnings) <= warnings
      ensures old(resolved).Keys <= resolved.Keys
      ensures lastPoppedScope == Some([])
      ensures forall i | 0 <= i < |methods| :: FunResolved(methods[i], KeyStack(old(scopes)) + [[]], scopes, resolved)
    {
      BeginScope();
      ghost var pushed := scopes;
      KeyStackPush(old(scopes));
      ghost var keys := KeyStack(pushed);
      GrownReflexive(scopes);
      for i := 0 to |methods|
        invariant Grown(pushed, scopes, [])
        invariant currentFunction == old(currentFunction)
        invariant old(errors) <= errors && old(warnings) <= warnings
        invariant old(resolved).Keys <= resolved.Keys
        invariant forall j | 0 <= j < i :: FunResolved(methods[j], keys, scopes, resolved)
      {
        SizeDsElement(methods, i);
        ghost var mid, midResolved := scopes, resolved;
        KeysKept(pushed, mid);
        ResolveFunction(methods[i], METHOD);
        GrownTransitive(pushed, mid, scopes, [], []);
        FunsLater(methods, i, keys, mid, midResolved, scopes, resolved, []);
        FunsSnoc(methods, i, keys, scopes, resolved);
      }
      ghost var full := scopes;
      EndScope(Some(name));
      FunsPopped(methods, keys, full, resolved);
      GrownPop(old(scopes), [], full, []);
      assert |Keys(lastPoppedScope.value)| == |Keys(Top(pushed)) + TokenKeys([])|;
    }

    /** `resolveBlock(statements)`: each statement in order, in the current scope. */
    method ResolveBlock(ss: seq<Stmt>)
      modifies this
      decreases SizeSs(ss), 4
      ensures Grown(old(scopes), scopes, DeclaredAll(ss))
      ensures currentFunction == old(currentFunction)
      ensures old(errors) <= errors && old(warnings) <= warnings
      ensures old(resolved).Keys <= resolved.Keys
      ensures StmtsResolved(ss, KeyStack(old(scopes)), scopes, resolved)
      ensures old(scopes) != [] ==> AllDefined(scopes, DeclaredAll(ss))
    {
      ghost var keys := KeyStack(scopes);
      GrownReflexive(scopes);
      for i := 0 to |ss|
        invariant Grown(old(scopes), scopes, DeclaredAll(ss[..i]))
        invariant currentFunction == old(currentFunction)
        invariant old(errors) <= errors && old(warnings) <= warnings
        invariant old(resolved).Keys <= resolved.Keys
        invariant StmtsResolved(ss[..i], keys, scopes, resolved)
        invariant old(scopes) != [] ==> AllDefined(scopes, DeclaredAll(ss[..i]))
      {
        SizeSsElement(ss, i);
        ghost var mid, midResolved := scopes, resolved;
        GrownKeyStack(old(scopes), mid, DeclaredAll(ss[..i]));
        ResolveStmt(ss[i]);
        GrownTransitive(old(scopes), mid, scopes, DeclaredAll(ss[..i]), Declared(ss[i]));
        StmtsLater(ss[..i], keys, mid, midResolved, scopes, resolved, Declared(ss[i]));
        StmtsResolvedSnoc(ss, i, keys, scopes, resolved);
        if old(scopes) != [] {
          AllDefinedKept(mid, scopes, Declared(ss[i]), DeclaredAll(ss[..i]));
        }
        assert ss[..i + 1][..i] == ss[..i];
      }
      assert ss[..|ss|] == ss;
    }

    /**
     * Resolving a statement: the stack keeps its height, the innermost scope
     * gains exactly the statement's own declarations (an `if` or `while` body
     * declares into it, a block or `for` opens and closes its own scope),
     * outer scopes keep their entries, and flags are only ever set.
     */
    method ResolveStmt(s: Stmt)
      modifies this
      decreases SizeS(s), 3
      ensures Grown(old(scopes), scopes, Declared(s))
      ensures currentFunction == old(currentFunction)
      ensures old(errors) <= errors && old(warnings) <= warnings
      ensures old(resolved).Keys <= resolved.Keys
      ensures StmtResolved(s, KeyStack(old(scopes)), scopes, resolved)
      ensures old(scopes) != [] ==> AllDefined(scopes, Declared(s))
    {
      match s
      case Block(_) => VisitBlock(s);
      case Expression(e) => ResolveExpr(e);
      case Function(_) => VisitFunction(s);
      case If(_, _, _) => VisitIf(s);
      case Print(e) => ResolveExpr(e);
      case Return(_, _) => VisitReturn(s);
      case Var(_, _, _) => VisitVar(s);
      case While(_, _) => VisitWhile(s);
      case For(_, _, _, _) => VisitFor(s);
      case Break(_) => GrownReflexive(scopes);
      case Continue(_) => GrownReflexive(scopes);
      case Class(_, _) => VisitClass(s);
    }

    /** `visitBlockStmt`: the statements inside one new scope, closed afterwards. */
    method VisitBlock(s: Stmt)
      requires s.Block?
      modifies this
      decreases SizeS(s), 1
      ensures Grown(old(scopes), scopes, [])
      ensures currentFunction == old(currentFunction)
      ensures old(errors) <= errors && old(warnings) <= warnings
      ensures old(resolved).Keys <= resolved.Keys
      ensures lastPoppedScope.Some? && Keys(lastPoppedScope.value) == TokenKeys(DeclaredAll(s.statements))
      ensures |UnusedReports(lastPoppedScope.value, None)| <= |warnings|
      ensures warnings[|warnings| - |UnusedReports(lastPoppedScope.value, None)|..] == UnusedReports(lastPoppedScope.value, None)
      ensures StmtResolved(s, KeyStack(old(scopes)), scopes, resolved)
    {
      BeginScope();
      ghost var pushed := scopes;
      KeyStackPush(old(scopes));
      ResolveBlock(s.statements);
      ghost var full := scopes;
      PoppedKeys(pushed, full, DeclaredAll(s.statements));
      EndScope(None);
      StmtsPopped(s.statements, KeyStack(pushed), full, resolved);
      GrownPop(old(scopes), [], full, DeclaredAll(s.statements));
    }

    /** `visitFunctionStmt`: the name is declared and defined before the body is resolved. */
    method VisitFunction(s: Stmt)
      requires s.Function?
      modifies this
      decreases SizeS(s), 1
      ensures Grown(old(scopes), scopes, [s.decl.name])
      ensures currentFunction == old(currentFunction)
      ensures old(errors) <= errors && old(warnings) <= warnings
      ensures old(resolved).Keys <= resolved.Keys
      ensures old(scopes) != [] ==> DefinedIn(scopes, s.decl.name)
      ensures StmtResolved(s, KeyStack(old(scopes)), scopes, resolved)
    {
      DeclareAndDefine(s.decl.name);
      ghost var mid := scopes;
      GrownKeyStack(old(scopes), mid, [s.decl.name]);
      ResolveFunction(s.decl, FUNCTION);
      if old(scopes) != [] {
        DefinedKept(mid, scopes, [], s.decl.name);
      }
      GrownTransitive(old(scopes), mid, scopes, [s.decl.name], []);
      assert [s.decl.name] + [] == [s.decl.name];
    }

    /** `visitIfStmt`: condition, then branch and else branch, in the current scope. */
    method VisitIf(s: Stmt)
      requires s.If?
      modifies this
      decreases SizeS(s), 1
      ensures Grown(old(scopes), scopes, Declared(s))
      ensures currentFunction == old(currentFunction)
      ensures old(errors) <= errors && old(warnings) <= warnings
      ensures old(resolved).Keys <= resolved.Keys
      ensures StmtResolved(s, KeyStack(old(scopes)), scopes, resolved)
      ensures old(scopes) != [] ==> AllDefined(scopes, Declared(s))
    {
      ghost var keys := KeyStack(scopes);
      ResolveExpr(s.condition);
      ghost var s1, r1 := scopes, resolved;
      KeysKept(old(scopes), s1);
      ResolveBranches(s);
      ExprLater(s.condition, keys, s1, r1, scopes, resolved, Declared(s));
      GrownTransitive(old(scopes), s1, scopes, [], Declared(s));
      assert [] + Declared(s) == Declared(s);
    }

    /** The branches of an `if`: the then branch, then the else branch, each in the current scope. */
    method ResolveBranches(s: Stmt)
      requires s.If?
      modifies this
      decreases SizeS(s), 0
      ensures Grown(old(scopes), scopes, Declared(s))
      ensures currentFunction == old(currentFunction)
      ensures old(errors) <= errors && old(warnings) <= warnings
      ensures old(resolved).Keys <= resolved.Keys
      ensures StmtResolved(s.thenBranch, KeyStack(old(scopes)), scopes, resolved)
      ensures s.elseBranch.Some? ==>
        StmtResolved(s.elseBranch.value, AddKeys(KeyStack(old(scopes)), Declared(s.thenBranch)), scopes, resolved)
      ensures old(scopes) != [] ==> AllDefined(scopes, Declared(s))
    {
      ghost var keys := KeyStack(scopes);
      ResolveStmt(s.thenBranch);
      match s.elseBranch {
        case Some(e) =>
          ghost var s2, r2 := scopes, resolved;
          GrownKeyStack(old(scopes), s2, Declared(s.thenBranch));
          ResolveStmt(e);
          GrownTransitive(old(scopes), s2, scopes, Declared(s.thenBranch), Declared(e));
          StmtLater(s.thenBranch, keys, s2, r2, scopes, resolved, Declared(e));
          if old(scopes) != [] {
            AllDefinedKept(s2, scopes, Declared(e), Declared(s.thenBranch));
          }
        case None =>
          assert Declared(s.thenBranch) + [] == Declared(s.thenBranch);
      }
    }

    /** `visitReturnStmt`: the value, when there is one. */
    method VisitReturn(s: Stmt)
      requires s.Return?
      modifies this
      decreases SizeS(s), 1
      ensures Grown(old(scopes), scopes, [])
      ensures currentFunction == old(currentFunction)
      ensures old(errors) <= errors && old(warnings) <= warnings
      ensures old(resolved).Keys <= resolved.Keys
      ensures StmtResolved(s, KeyStack(old(scopes)), scopes, resolved)
    {
      ResolveOptional(s.value, SizeS(s));
    }

    /** An expression that may be absent (a Java `null`), resolved when present. */
    method ResolveOptional(x: Option<Expr>, ghost bound: nat)
      requires SizeOptE(x) < bound
      modifies this
      decreases bound, 0
      ensures Grown(old(scopes), scopes, [])
      ensures currentFunction == old(currentFunction)
      ensures old(errors) <= errors && old(warnings) <= warnings
      ensures old(resolved).Keys <= resolved.Keys
      ensures x.Some? ==> ExprResolved(x.value, KeyStack(old(scopes)), scopes, resolved)
    {
      match x {
        case Some(e) => ResolveExpr(e);
        case None => GrownReflexive(scopes);
      }
    }

    /**
     * `visitVarStmt`: declare, then resolve the initializer (during which the
     * name reads as not yet defined), then define.
     */
    method VisitVar(s: Stmt)
      requires s.Var?
      modifies this
      decreases SizeS(s), 1
      ensures Grown(old(scopes), scopes, [s.name])
      ensures currentFunction == old(currentFunction)
      ensures old(errors) <= errors && old(warnings) <= warnings
      ensures old(resolved).Keys <= resolved.Keys
      ensures StmtResolved(s, KeyStack(old(scopes)), scopes, resolved)
      ensures old(scopes) != [] ==> DefinedIn(scopes, s.name)
    {
      DeclareAndInitialize(s);
      ghost var s2, r2 := scopes, resolved;
      Define(s.name);
      if s.initializer.Some? {
        ExprLater(s.initializer.value, AddKeys(KeyStack(old(scopes)), [s.name]), s2, r2, scopes, resolved, []);
      }
      GrownTransitive(old(scopes), s2, scopes, [s.name], []);
      assert [s.name] + [] == [s.name];
    }

    /** The first two steps of `visitVarStmt`: the name is declared, then the initializer resolved. */
    method DeclareAndInitialize(s: Stmt)
      requires s.Var?
      modifies this
      decreases SizeS(s), 0
      ensures Grown(old(scopes), scopes, [s.name])
      ensures currentFunction == old(currentFunction)
      ensures old(errors) <= errors && old(warnings) <= warnings
      ensures old(resolved).Keys <= resolved.Keys
      ensures s.initializer.Some? ==> ExprResolved(s.initializer.value, AddKeys(KeyStack(old(scopes)), [s.name]), scopes, resolved)
      ensures old(scopes) != [] ==> FirstByLexeme(Top(scopes), s.name.lexeme).Some?
    {
      Declare(s.name);
      ghost var s1 := scopes;
      GrownKeyStack(old(scopes), s1, [s.name]);
      match s.initializer {
        case Some(e) =>
          assert SizeE(e) == SizeOptE(s.initializer) < SizeS(s);
          ResolveExpr(e);
        case None => GrownReflexive(scopes);
      }
      if old(scopes) != [] {
        FoundKept(s1, scopes, [], s.name);
      }
      GrownTransitive(old(scopes), s1, scopes, [s.name], []);
      assert [s.name] + [] == [s.name];
    }

    /** `visitWhileStmt`: condition and body, in the current scope. */
    method VisitWhile(s: Stmt)
      requires s.While?
      modifies this
      decreases SizeS(s), 1
      ensures Grown(old(scopes), scopes, Declared(s.body))
      ensures currentFunction == old(currentFunction)
      ensures old(errors) <= errors && old(warnings) <= warnings
      ensures old(resolved).Keys <= resolved.Keys
      ensures StmtResolved(s, KeyStack(old(scopes)), scopes, resolved)
      ensures old(scopes) != [] ==> AllDefined(scopes, Declared(s))
    {
      ghost var keys := KeyStack(scopes);
      ResolveExpr(s.condition);
      ghost var s1, r1 := scopes, resolved;
      KeysKept(old(scopes), s1);
      ResolveStmt(s.body);
      ExprLater(s.condition, keys, s1, r1, scopes, resolved, Declared(s.body));
      GrownTransitive(old(scopes), s1, scopes, [], Declared(s.body));
      assert [] + Declared(s.body) == Declared(s.body);
    }

    /** `visitClassStmt`: the name is declared and defined, then the class body resolved. */
    method VisitClass(s: Stmt)
      requires s.Class?
      modifies this
      decreases SizeS(s), 1
      ensures Grown(old(scopes), scopes, [s.name])
      ensures currentFunction == old(currentFunction)
      ensures old(errors) <= errors && old(warnings) <= warnings
      ensures old(resolved).Keys <= resolved.Keys
      ensures old(scopes) != [] ==> DefinedIn(scopes, s.name)
      ensures StmtResolved(s, KeyStack(old(scopes)), scopes, resolved)
    {
      DeclareAndDefine(s.name);
      ghost var mid := scopes;
      GrownKeyStack(old(scopes), mid, [s.name]);
      ResolveClass(s.name, s.methods);
      if old(scopes) != [] {
        DefinedKept(mid, scopes, [], s.name);
      }
      GrownTransitive(old(scopes), mid, scopes, [s.name], []);
      assert [s.name] + [] == [s.name];
    }

    /** The initializer of a `for`, when present, in the current scope. */
    method ResolveForInit(s: Stmt)
      requires s.For?
      modifies this
      decreases SizeS(s), 0
      ensures Grown(old(scopes), scopes, DeclaredOpt(s.init))
      ensures currentFunction == old(currentFunction)
      ensures old(errors) <= errors && old(warnings) <= warnings
      ensures old(resolved).Keys <= resolved.Keys
      ensures s.init.Some? ==> StmtResolved(s.init.value, KeyStack(old(scopes)), scopes, resolved)
    {
      match s.init {
        case Some(x) =>
          ResolveStmt(x);
        case None =>
          GrownReflexive(scopes);
      }
    }

    /** The condition, increment and body of a `for`, each when present, in the current scope. */
    method ResolveForClauses(s: Stmt)
      requires s.For?
      modifies this
      decreases SizeS(s), 0
      ensures Grown(old(scopes), scopes, Declared(s.body))
      ensures currentFunction == old(currentFunction)
      ensures old(errors) <= errors && old(warnings) <= warnings
      ensures old(resolved).Keys <= resolved.Keys
      ensures s.cond.Some? ==> ExprResolved(s.cond.value, KeyStack(old(scopes)), scopes, resolved)
      ensures s.post.Some? ==> ExprResolved(s.post.value, KeyStack(old(scopes)), scopes, resolved)
      ensures StmtResolved(s.body, KeyStack(old(scopes)), scopes, resolved)
    {
      assert SizeS(s) > SizeOptE(s.cond) + SizeOptE(s.post) + SizeS(s.body);
      assert SizeS(s.body) >= 1;
      ghost var keys := KeyStack(scopes);
      ResolveOptionals(s.cond, s.post, SizeS(s) - 1);
      ghost var s1, r1 := scopes, resolved;
      KeysKept(old(scopes), s1);
      ResolveStmt(s.body);
      OptLater(s.cond, keys, s1, r1, scopes, resolved, Declared(s.body));
      OptLater(s.post, keys, s1, r1, scopes, resolved, Declared(s.body));
      GrownTransitive(old(scopes), s1, scopes, [], Declared(s.body));
      assert [] + Declared(s.body) == Declared(s.body);
    }

    /** Two expressions that may be absent, resolved in order, as a `for` header's condition and increment are. */
    method ResolveOptionals(x: Option<Expr>, y: Option<Expr>, ghost bound: nat)
      requires SizeOptE(x) < bound && SizeOptE(y) < bound
      modifies this
      decreases bound, 1
      ensures Grown(old(scopes), scopes, [])
      ensures currentFunction == old(currentFunction)
      ensures old(errors) <= errors && old(warnings) <= warnings
      ensures old(resolved).Keys <= resolved.Keys
      ensures x.Some? ==> ExprResolved(x.value, KeyStack(old(scopes)), scopes, resolved)
      ensures y.Some? ==> ExprResolved(y.value, KeyStack(old(scopes)), scopes, resolved)
    {
      ResolveOptional(x, bound);
      ghost var mid, midResolved := scopes, resolved;
      KeysKept(old(scopes), mid);
      ResolveOptional(y, bound);
      GrownTransitive(old(scopes), mid, scopes, [], []);
      OptLater(x, KeyStack(old(scopes)), mid, midResolved, scopes, resolved, []);
    }

    /**
     * `visitForStmt` with absent clauses skipped: one new scope holding the
     * initializer's declarations, in which condition, increment and body are
     * resolved, then closed.
     */
    method VisitFor(s: Stmt)
      requires s.For?
      modifies this
      decreases SizeS(s), 2
      ensures Grown(old(scopes), scopes, [])
      ensures currentFunction == old(currentFunction)
      ensures old(errors) <= errors && old(warnings) <= warnings
      ensures old(resolved).Keys <= resolved.Keys
      ensures lastPoppedScope.Some? && Keys(lastPoppedScope.value) == TokenKeys(DeclaredOpt(s.init) + Declared(s.body))
      ensures |UnusedReports(lastPoppedScope.value, None)| <= |warnings|
      ensures warnings[|warnings| - |UnusedReports(lastPoppedScope.value, None)|..] == UnusedReports(lastPoppedScope.value, None)
      ensures StmtResolved(s, KeyStack(old(scopes)), scopes, resolved)
    {
      BeginScope();
      ResolveForScope(s);
      ghost var full := scopes;
      EndScope(None);
      ScopeClosed(old(scopes), full, DeclaredOpt(s.init) + Declared(s.body));
      ForPopped(s, old(scopes), full, resolved);
    }

    /** Inside the scope of a `for`: the initializer, then the other clauses once it has declared. */
    method ResolveForScope(s: Stmt)
      requires s.For? && scopes != []
      modifies this
      decreases SizeS(s), 1
      ensures Grown(old(scopes), scopes, DeclaredOpt(s.init) + Declared(s.body))
      ensures currentFunction == old(currentFunction)
      ensures old(errors) <= errors && old(warnings) <= warnings
      ensures old(resolved).Keys <= resolved.Keys
      ensures ForResolvedInside(s, KeyStack(old(scopes)), scopes, resolved)
    {
      ResolveForInit(s);
      ghost var s1, r1 := scopes, resolved;
      GrownKeyStack(old(scopes), s1, DeclaredOpt(s.init));
      ResolveForClauses(s);
      if s.init.Some? {
        StmtLater(s.init.value, KeyStack(old(scopes)), s1, r1, scopes, resolved, Declared(s.body));
      }
      GrownTransitive(old(scopes), s1, scopes, DeclaredOpt(s.init), Declared(s.body));
    }

    /**
     * `visitForStmt` as written: after opening the scope it resolves the
     * initializer, condition and increment without checking for their
     * absence, so a missing clause throws a NullPointerException (`true`) and
     * leaves the new scope on the stack.
     */
    method VisitForAsWritten(s: Stmt) returns (npe: bool)
      requires s.For?
      modifies this
      ensures npe <==> s.init.None? || s.cond.None? || s.post.None?
      ensures npe ==> |scopes| == |old(scopes)| + 1
      ensures !npe ==> Grown(old(scopes), scopes, [])
    {
      if s.init.None? || s.cond.None? || s.post.None? {
        BeginScope();
        ghost var pushed := scopes;
        if s.init.Some? {
          ResolveStmt(s.init.value);
        }
        if s.init.Some? && s.cond.Some? {
          ResolveExpr(s.cond.value);
        }
        return true;
      }
      VisitFor(s);
      return false;
    }

    /**
     * `resolve(statements)`: the whole program inside one outermost scope, so
     * top-level declarations get positions too; that scope is then closed
     * and its unused entries reported.
     */
    method Resolve(program: seq<Stmt>)
      modifies this
      ensures Grown(old(scopes), scopes, [])
      ensures currentFunction == old(currentFunction)
      ensures old(errors) <= errors && old(warnings) <= warnings
      ensures old(resolved).Keys <= resolved.Keys
      ensures lastPoppedScope.Some? && Keys(lastPoppedScope.value) == TokenKeys(DeclaredAll(program))
      ensures |UnusedReports(lastPoppedScope.value, None)| <= |warnings|
      ensures warnings[|warnings| - |UnusedReports(lastPoppedScope.value, None)|..] == UnusedReports(lastPoppedScope.value, None)
      ensures StmtsResolved(program, KeyStack(old(scopes)) + [[]], scopes, resolved)
    {
      BeginScope();
      ghost var pushed := scopes;
      KeyStackPush(old(scopes));
      ResolveBlock(program);
      ghost var full := scopes;
      PoppedKeys(pushed, full, DeclaredAll(program));
      EndScope(None);
      StmtsPopped(program, KeyStack(pushed), full, resolved);
      GrownPop(old(scopes), [], full, DeclaredAll(program));
    }
  }
}
