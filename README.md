# JLox runtime core in Dafny

A model of the runtime core of JLox, a Java implementation of the Lox scripting language. The model covers:

- **Environments.** The chained frame class `parsing/Environment.java` has a named store and a slot store per frame, `define`, `assign`, `get`, `tryGet`, `getAt`, `assignAt` and `ancestor`. The flat environment `Environment.java` has `get` and `define` only.
- **Resolver.** `parsing/Resolver.java` keeps a stack of scopes. For each variable reference it records how many scopes out the name was found, and its slot in that scope. It reports a redeclaration in one scope, a read of a local inside its own initializer, and locals that are never used.
- **Interpreter.** `parsing/Interpreter.java` is a tree walker. It has a current frame that blocks and calls swap and restore. It implements truthiness, equality, `stringify`, the operand checks, the unary and binary operators, calls with an arity check, and `while`/`for` with `break`/`continue`.
- **Callable values.** User functions (`types/LoxFunction.java`): arity, and a call that binds each parameter in a fresh frame whose parent is the closure. Classes and instances (`types/LoxClass.java`, `types/LoxInstance.java`).
- **Tokens and printing.** The token record with its operator classes (`parsing/Token.java`), and the parenthesised expression printer (`parsing/AstPrinter.java`).

Modules, one per file:

| module | file | what it holds |
|---|---|---|
| `Options` | options.dfy | `Option` |
| `Text` | text.dfy | decimal rendering of integers, which Java's string concatenation performs |
| `Tokens` | tokens.dfy | token kinds, `Token`, `RuntimeError` |
| `Ast` | ast.dfy | expression and statement trees, size measures |
| `Environment` | environment.dfy | `Frame`: the chained environment, as a class over the heap |
| `FlatEnvironment` | flat_environment.dfy | the flat environment class |
| `AstPrinter` | ast_printer.dfy | the printer and its well-parenthesisation |
| `Runtime` | runtime.dfy | runtime values, outcomes, `LoxFunction`, `LoxClass`, `LoxInstance` |
| `Evaluation` | evaluation.dfy | the value-level rules of the interpreter |
| `Resolver` | resolver.dfy | the `Resolver` class |
| `Semantics` | semantics.dfy | the evaluation rule of each node kind, over the calls an evaluation makes, and what the rules promise |
| `Interpreter` | interpreter.dfy | the `Interpreter` class, which logs its calls and obeys the rules |

Java exceptions become values of `Runtime.Outcome`:

| Java | `Outcome` |
|---|---|
| `RuntimeError` | `Error` |
| break/continue exceptions | `BreakSignal` / `ContinueSignal` |
| `Return` | `ReturnSignal` |

Other modelling choices:

- Java `null` is `Nil`.
- Standard output, standard error and `Lox.error` become sequences that the classes append to.
- The wall clock that `clock()` reads is a parameter. It is a function from the number of earlier readings to seconds.
- `Double.toString` is a parameter `numText`.
- Interpretation takes a `fuel` bound on call depth and loop iterations. Running out is `Halt(OutOfFuel)`.
- The `Token` datatype carries an `id` that stands for the token object's identity. The resolver compares tokens by reference once, in its unused-local check.

How the model departs from the source where the two disagree:

- **Environment class and lookups.**
  - `parsing/Interpreter.java` imports the flat `com.puritylake.lox.Environment`. It then calls that class's `define` with three arguments, `assign`, and `new Environment(enclosing)`, which only `parsing/Environment.java` has.
  - The model runs the interpreter on `Frame` (the chained class).
  - A variable read looks in the current frame's named store only, as `parsing/Environment.java`'s `get` does.
  - A name missing there yields "Undefined variable '…'.", the error the flat `get` raises, instead of a Java `NullPointerException`.
- **Missing interpreter visitors.** `parsing/Interpreter.java` has no visitor for `return`, `class`, property get/set or anonymous functions.
  - A `return` statement is modelled as the `Return` signal that `LoxFunction.call` catches.
  - The other node kinds halt with `Unsupported`.
- **Function closures.** `visitFunctionStmt` builds the function with a one-argument constructor that `LoxFunction` does not have. The model uses the current frame as the closure.
- **Loop-control exceptions.** `LoxFunction.call` catches `ControlFlowChange`, while the loops catch `ControlFlowException`. Both names are taken to be the one break/continue signal.

## Model

| member | source | states |
|---|---|---|
| Text.NatToString | src/main/java/com/puritylake/lox/parsing/Interpreter.java:194-195 | the decimal text of an arity or argument count is non-empty, all digits, and has no leading zero |
| Text.NatToStringRoundTrip | src/main/java/com/puritylake/lox/parsing/Interpreter.java:194-195 | reading the decimal text back gives the number |
| Text.NatToStringInjective | src/main/java/com/puritylake/lox/parsing/Interpreter.java:194-195 | different numbers get different texts |
| Text.IntToString | src/main/java/com/puritylake/lox/parsing/Resolver.java:75 | `%d` of a line number: a minus sign for negatives, then the digits of the magnitude |
| Text.DigitsPrefixUnique | src/main/java/com/puritylake/lox/parsing/Interpreter.java:194-195 | a run of digits followed by a non-digit can be split off a string in only one way |
| Tokens.TypeName | src/main/java/com/puritylake/lox/parsing/Token.java:3-5 | the enum name of each token kind is non-empty and has no space |
| Tokens.Token.ToString | src/main/java/com/puritylake/lox/parsing/Token.java:4-7 | the text is the type name, one space, the lexeme, two spaces, then the literal, each at its exact position |
| Tokens.ToStringNamesType | src/main/java/com/puritylake/lox/parsing/Token.java:4-7 | the token kind can be read back from `toString` as its first word |
| Tokens.Token.IsUnaryOp | src/main/java/com/puritylake/lox/parsing/Token.java:9-24 | MINUS is the only kind that both `isUnaryOp` and `isBinaryOp` admit, and BANG the only kind `isUnaryOp` admits that `isBinaryOp` does not |
| Environment.Clamp | src/main/java/com/puritylake/lox/parsing/Environment.java:55-65 | the ancestor walk takes min(distance, depth) steps, and none for a non-positive distance |
| Environment.Frame.Root | src/main/java/com/puritylake/lox/parsing/Environment.java:22-24 | a new outermost frame has no enclosing frame and empty stores |
| Environment.Frame.constructor | src/main/java/com/puritylake/lox/parsing/Environment.java:26-28 | a new frame encloses the given one and has empty stores |
| Environment.Frame.NamedIndex | src/main/java/com/puritylake/lox/parsing/Environment.java:75-90 | the innermost frame of the chain whose named store holds the name; none when no frame does |
| Environment.Frame.Get | src/main/java/com/puritylake/lox/parsing/Environment.java:30-32 | a value exactly when this frame's named store holds the name, and then that entry's value |
| Environment.Frame.TryGet | src/main/java/com/puritylake/lox/parsing/Environment.java:34-43 | the value in the innermost frame of the chain naming it; none when no frame names it |
| Environment.Frame.Ancestor | src/main/java/com/puritylake/lox/parsing/Environment.java:55-65 | the frame `Clamp(distance, depth)` steps out; its chain is the matching suffix of this chain |
| Environment.Frame.GetAt | src/main/java/com/puritylake/lox/parsing/Environment.java:45-47 | the value in slot `idx` of the ancestor; out of range gives none, standing for Java's exception |
| Environment.Frame.AssignAt | src/main/java/com/puritylake/lox/parsing/Environment.java:49-53 | slot `idx` of the ancestor becomes the value, initialized, and nothing else changes; out of range fails and changes nothing |
| Environment.Frame.Define | src/main/java/com/puritylake/lox/parsing/Environment.java:67-69 | the named entry of this frame is created or overwritten, and the slots are unchanged |
| Environment.Frame.DefineIdx | src/main/java/com/puritylake/lox/parsing/Environment.java:71-73 | one slot is appended at index = the previous count; earlier slots are unchanged |
| Environment.Frame.Assign | src/main/java/com/puritylake/lox/parsing/Environment.java:75-90 | succeeds exactly when some frame of the chain names the variable. Only the innermost such frame's entry changes, to the value, initialized; all other frames and all slots are unchanged. Otherwise it fails with "Undefined variable 'x'." |
| FlatEnvironment.Environment.constructor | src/main/java/com/puritylake/lox/Environment.java:10 | a new flat environment is empty |
| FlatEnvironment.Environment.Get | src/main/java/com/puritylake/lox/Environment.java:12-19 | found exactly when the lexeme is bound, and then with its value; otherwise "Undefined variable 'x'." at that token |
| FlatEnvironment.Environment.Define | src/main/java/com/puritylake/lox/Environment.java:21-23 | afterwards every token with that lexeme is found with the new value; every other lookup is unchanged |
| AstPrinter.Parenthesize | src/main/java/com/puritylake/lox/parsing/AstPrinter.java:74-85 | the builder loop yields "(", the name, then one space and the printed form of each child in order, then ")" |
| AstPrinter.PrintBalanced | src/main/java/com/puritylake/lox/parsing/AstPrinter.java:4-72 | printed text is well parenthesised whenever no lexeme or literal contains a parenthesis |
| AstPrinter.ParensBalanced | src/main/java/com/puritylake/lox/parsing/AstPrinter.java:74-85 | wrapping balanced children with a parenthesis-free name gives balanced text |
| AstPrinter.Print | src/main/java/com/puritylake/lox/parsing/AstPrinter.java:4-72 | there is no text (Java null) exactly for assignment, get, set, variable and anonymous-function nodes; every other node except a literal prints as one group that opens with "(" and closes with ")" |
| AstPrinter.CallDropsArguments | src/main/java/com/puritylake/lox/parsing/AstPrinter.java:19-21 | a call prints its callee only, so calls differing only in their arguments print alike |
| AstPrinter.LogicalDropsOperator | src/main/java/com/puritylake/lox/parsing/AstPrinter.java:40-42 | a logical node prints without its operator, so `and` and `or` print alike |
| Runtime.Bindings | src/main/java/com/puritylake/lox/types/LoxFunction.java:27-30 | every parameter binding of the call frame is initialized |
| Runtime.BindingsKeys | src/main/java/com/puritylake/lox/types/LoxFunction.java:27-30 | the call frame names exactly the parameters |
| Runtime.BindingsValues | src/main/java/com/puritylake/lox/types/LoxFunction.java:27-30 | the last parameter of each name is bound, initialized, to the argument at its own position |
| Runtime.BindingsDrawFromArguments | src/main/java/com/puritylake/lox/types/LoxFunction.java:27-30 | every bound value is one of the arguments |
| Runtime.LoxFunction.constructor | src/main/java/com/puritylake/lox/types/LoxFunction.java:15-18 | the function keeps its declaration and closure |
| Runtime.LoxFunction.Arity | src/main/java/com/puritylake/lox/types/LoxFunction.java:20-23 | arity is the number of parameters |
| Runtime.LoxFunction.Bind | src/main/java/com/puritylake/lox/types/LoxFunction.java:27-30 | a fresh frame whose parent is the closure, holding exactly the positional bindings, with no slots |
| Runtime.LoxFunction.ToString | src/main/java/com/puritylake/lox/types/LoxFunction.java:44-47 | a function prints as "<fn ", then exactly its declared name, then ">" |
| Runtime.CallResult | src/main/java/com/puritylake/lox/types/LoxFunction.java:32-42 | a return yields its value; break, continue or completion yield nil; errors pass through; no loop-control or return signal escapes a call |
| Runtime.LoxClass.constructor | src/main/java/com/puritylake/lox/types/LoxClass.java:10-12 | the class keeps its name |
| Runtime.LoxClass.ToString | src/main/java/com/puritylake/lox/types/LoxClass.java:14-17 | a class prints as its name |
| Runtime.LoxClass.Arity | src/main/java/com/puritylake/lox/types/LoxClass.java:19-22 | a class takes no arguments |
| Runtime.LoxClass.Call | src/main/java/com/puritylake/lox/types/LoxClass.java:24-27 | calling a class makes a fresh instance of that class |
| Runtime.LoxInstance.constructor | src/main/java/com/puritylake/lox/types/LoxInstance.java:6-8 | the instance keeps its class |
| Runtime.LoxInstance.ToString | src/main/java/com/puritylake/lox/types/LoxInstance.java:10-13 | an instance prints as its class's name followed by " instance" |
| Evaluation.IsTruthy | src/main/java/com/puritylake/lox/parsing/Interpreter.java:71-75 | a value is truthy exactly when it is neither nil nor false |
| Evaluation.IsEqual | src/main/java/com/puritylake/lox/parsing/Interpreter.java:77-82 | `isEqual` holds exactly when the two values are equal, nil equal only to nil |
| Evaluation.StripPointZero | src/main/java/com/puritylake/lox/parsing/Interpreter.java:56-62 | a trailing ".0" is removed and nothing else; text without one is unchanged |
| Evaluation.Stringify | src/main/java/com/puritylake/lox/parsing/Interpreter.java:53-65 | a string prints as itself; a number prints as its Java text with a trailing ".0" removed, and otherwise unchanged; nil prints "nil", true "true", false "false"; a function prints as "<fn " + its declared name + ">", a class as its name, an instance as its class name followed by " instance", and a native function as "<native fn>" |
| Evaluation.StringifyWholeNumber | src/main/java/com/puritylake/lox/parsing/Interpreter.java:53-65 | a whole number whose Java text is digits followed by ".0" prints as those digits |
| Evaluation.CheckNumberOperand | src/main/java/com/puritylake/lox/parsing/Interpreter.java:84-87 | no error exactly when the operand is a number; otherwise "Operand must be a number." at the operator |
| Evaluation.CheckNumberOperands | src/main/java/com/puritylake/lox/parsing/Interpreter.java:89-92 | no error exactly when both operands are numbers; otherwise "Operands must be numbers" at the operator |
| Evaluation.BinaryOp | src/main/java/com/puritylake/lox/parsing/Interpreter.java:119-175 | a binary operator yields a value or an error, and an error is always reported at the operator |
| Evaluation.BinaryOpErrors | src/main/java/com/puritylake/lox/parsing/Interpreter.java:119-175 | there is an error exactly when an arithmetic or comparison operator has a non-number operand, when dividing by zero, or when `+` has neither a string left operand nor a number with a number or string on the right; the message is one of the three the switch raises |
| Evaluation.BinaryOperatorsHandled | src/main/java/com/puritylake/lox/parsing/Interpreter.java:119-175 | on numbers every binary-operator token yields a value, and the value is nil exactly for `=`, which the switch does not handle |
| Evaluation.PlusConcatenation | src/main/java/com/puritylake/lox/parsing/Interpreter.java:137-147 | `+` with a string on the left, or a number with a string on the right, concatenates the stringified operands |
| Evaluation.EqualityOperatorsComplement | src/main/java/com/puritylake/lox/parsing/Interpreter.java:167-172 | `==` and `!=` yield complementary booleans, following value equality |
| Evaluation.ComparisonsAgree | src/main/java/com/puritylake/lox/parsing/Interpreter.java:151-166 | `<=` is `<` or `==`, and `>` is the negation of `<=` |
| Evaluation.DivisionChecksOperandsFirst | src/main/java/com/puritylake/lox/parsing/Interpreter.java:124-136 | `/` on anything but two numbers fails with the operand error, whatever the divisor; two numbers with a zero divisor fail with "Cannot divide by zero."; otherwise the value is the quotient |
| Evaluation.UnaryOp | src/main/java/com/puritylake/lox/parsing/Interpreter.java:227-237 | an error exactly for `-` on a non-number, with "Operand must be a number."; `!` negates truthiness |
| Evaluation.UnaryTwice | src/main/java/com/puritylake/lox/parsing/Interpreter.java:227-237 | applying `-` twice gives the number back; applying `!` twice gives the truthiness as a boolean |
| Evaluation.ArityMessage | src/main/java/com/puritylake/lox/parsing/Interpreter.java:193-196 | the arity message is non-empty and ends with a period |
| Evaluation.ArityMessageInjective | src/main/java/com/puritylake/lox/parsing/Interpreter.java:193-196 | the arity message determines both the arity and the argument count |
| Evaluation.NotCallable | src/main/java/com/puritylake/lox/parsing/Interpreter.java:182-185 | the error is reported at the call's closing parenthesis |
| Evaluation.ArityOf | src/main/java/com/puritylake/lox/parsing/Interpreter.java:17-21 | a function's arity is its parameter count; a class and `clock` take none |
| Resolver.FirstNamed | src/main/java/com/puritylake/lox/parsing/Resolver.java:112-120 | the first entry of a scope stored under the name, or none when no entry is |
| Resolver.FirstByLexeme | src/main/java/com/puritylake/lox/parsing/Resolver.java:89-97 | the first entry of a scope whose token has the lexeme, or none |
| Resolver.FindLocal | src/main/java/com/puritylake/lox/parsing/Resolver.java:109-122 | the first entry with the name in the innermost scope holding one; none when no scope holds it |
| Resolver.UnusedMessage | src/main/java/com/puritylake/lox/parsing/Resolver.java:75 | the line is "[line ", the `%d` text of the line number, "] local variable '", the name, then "' is unused." and a newline, each part at its exact position |
| Resolver.UnusedReportsComplete | src/main/java/com/puritylake/lox/parsing/Resolver.java:70-79 | a warning is written for every entry that is unused and not the ignored token |
| Resolver.UnusedReportsSound | src/main/java/com/puritylake/lox/parsing/Resolver.java:70-79 | every warning written comes from an entry that is unused and not the ignored token |
| Resolver.UsedNeverReported | src/main/java/com/puritylake/lox/parsing/Resolver.java:70-79 | a scope whose entries were all used yields no warning |
| Resolver.Resolver.constructor | src/main/java/com/puritylake/lox/parsing/Resolver.java:34-37 | no scope open, no last popped scope, function kind NONE, nothing reported |
| Resolver.Resolver.BeginScope | src/main/java/com/puritylake/lox/parsing/Resolver.java:39-41 | pushes one empty scope |
| Resolver.Resolver.EndScope | src/main/java/com/puritylake/lox/parsing/Resolver.java:65-68 | pops the innermost scope into `lastPoppedScope` and appends the unused-local warnings for it |
| Resolver.Resolver.CheckUnusedLocals | src/main/java/com/puritylake/lox/parsing/Resolver.java:70-79 | appends exactly the unused-local lines of the last popped scope, in scope order |
| Resolver.Resolver.GetByName | src/main/java/com/puritylake/lox/parsing/Resolver.java:89-97 | the first entry of the innermost scope whose token has the name |
| Resolver.Resolver.Declare | src/main/java/com/puritylake/lox/parsing/Resolver.java:99-107 | with no scope, nothing. Otherwise the name is appended, undefined and unused, to the innermost scope, and a redeclaration error is recorded exactly when that scope already held the lexeme |
| Resolver.Resolver.Define | src/main/java/com/puritylake/lox/parsing/Resolver.java:81-87 | marks defined the first innermost entry with the lexeme, and changes nothing else |
| Resolver.Resolver.Locate | src/main/java/com/puritylake/lox/parsing/Resolver.java:110-121 | the nested scan finds exactly `FindLocal` |
| Resolver.Resolver.ScanScope | src/main/java/com/puritylake/lox/parsing/Resolver.java:112-118 | the inner scan returns exactly the first position holding the name (`FirstNamed`) |
| Resolver.Resolver.ResolveLocal | src/main/java/com/puritylake/lox/parsing/Resolver.java:109-122 | the entry found is marked used and the node gets (scopes out from the innermost, slot); when nothing is found, nothing changes |
| Resolver.Resolver.ResolveLocalAsWritten | src/main/java/com/puritylake/lox/parsing/Resolver.java:109-122 | as written: the cast fails exactly for an assignment to a local, after marking it used and before recording its coordinates |
| Resolver.LookupAgrees | src/main/java/com/puritylake/lox/parsing/Resolver.java:109-122 | looking a name up in the stack of scope keys (names and declaring tokens, without flags) finds what `resolveLocal`'s scan of the real scopes finds |
| Resolver.GrownKeyStack | src/main/java/com/puritylake/lox/parsing/Resolver.java:99-107 | resolving that only declares `added` in the innermost scope leaves the same keys with `added` appended to the innermost scope |
| Resolver.ExprResolvedKept | src/main/java/com/puritylake/lox/parsing/Resolver.java:109-122 | what resolving recorded for an expression stays true as resolution goes on: a later stack that keeps every entry and used flag of the scopes still open, and a map with more coordinates, still have every reference recorded and its entry marked used |
| Resolver.StmtResolvedKept | src/main/java/com/puritylake/lox/parsing/Resolver.java:109-122 | the same persistence for every reference of a statement |
| Resolver.Resolver.VisitVariable | src/main/java/com/puritylake/lox/parsing/Resolver.java:223-236 | "Can't read local variable in its own initializer." exactly when the innermost scope's entry is declared but not defined; then the reference is resolved as by `ResolveLocal`, so when an open scope holds the name the node's coordinate is recorded and the entry marked used |
| Resolver.Resolver.CheckOwnInitializer | src/main/java/com/puritylake/lox/parsing/Resolver.java:224-236 | exactly one such error when the innermost scope's first entry with the name is declared but not yet defined, and none otherwise |
| Resolver.Resolver.ResolveExpr | src/main/java/com/puritylake/lox/parsing/Resolver.java:146-242 | every variable and assignment node of the expression, including those inside anonymous-function bodies, whose name a scope open at that point holds gets its coordinate recorded and the entry found marked used (`ExprResolved` over the keys open on entry). It declares nothing, only sets flags and adds coordinates, keeps the function kind, and only appends to errors and warnings |
| Resolver.Resolver.ResolveAssign | src/main/java/com/puritylake/lox/parsing/Resolver.java:146-151 | the assigned value is resolved and the assignment's own name is recorded, both against the keys open on entry |
| Resolver.Resolver.ResolveCall | src/main/java/com/puritylake/lox/parsing/Resolver.java:160-169 | the callee and every argument are resolved against the keys open on entry |
| Resolver.Resolver.ResolveTernary | src/main/java/com/puritylake/lox/parsing/Resolver.java:215-221 | the condition and both branches are resolved against the keys open on entry |
| Resolver.Resolver.ResolveFunction | src/main/java/com/puritylake/lox/parsing/Resolver.java:124-136 | the function's scope holds its parameters at slots 0.. in order, each defined, then its body's declarations; its unused locals other than the function's name token are the last warnings written; the body is resolved with the parameters in a new innermost scope (`FunResolved`); the enclosing scopes and function kind are restored |
| Resolver.Resolver.DeclareParams | src/main/java/com/puritylake/lox/parsing/Resolver.java:129-132 | the parameters are appended to the innermost scope in order, each defined, and errors are only appended |
| Resolver.Resolver.ResolveClass | src/main/java/com/puritylake/lox/parsing/Resolver.java:138-144 | every method is resolved inside one extra scope that stays empty, so the scope popped is empty |
| Resolver.Resolver.ResolveBlock | src/main/java/com/puritylake/lox/parsing/Resolver.java:51-55 | each statement is resolved against the keys open on entry plus the declarations of the statements before it (`StmtsResolved`); the statements add exactly their declarations, in order and defined, to the innermost scope |
| Resolver.Resolver.ResolveStmt | src/main/java/com/puritylake/lox/parsing/Resolver.java:57-59 | every reference of the statement is resolved by its kind's rule (`StmtResolved`); it adds exactly its own declarations (var, fun, class, and those of if-branches and while bodies), defined, to the innermost scope |
| Resolver.Resolver.VisitBlock | src/main/java/com/puritylake/lox/parsing/Resolver.java:244-250 | the statements are resolved in a new scope, which is popped holding exactly their declarations, with its unused locals the last warnings written; the enclosing scopes only gain flags |
| Resolver.Resolver.VisitFunction | src/main/java/com/puritylake/lox/parsing/Resolver.java:268-275 | the name is declared and defined in the enclosing scope before the body is resolved, so references in the body see it |
| Resolver.Resolver.VisitIf | src/main/java/com/puritylake/lox/parsing/Resolver.java:277-285 | the condition and the then-branch against the keys open on entry, the else-branch, if present, with the then-branch's declarations added; the declarations of both branches land, defined, in the current scope |
| Resolver.Resolver.VisitReturn | src/main/java/com/puritylake/lox/parsing/Resolver.java:293-299 | the value, if present, is resolved against the keys open on entry, and nothing is declared |
| Resolver.Resolver.VisitVar | src/main/java/com/puritylake/lox/parsing/Resolver.java:301-309 | the name is declared before the initializer is resolved, so the initializer's references see the new entry; afterwards the name is defined |
| Resolver.Resolver.VisitWhile | src/main/java/com/puritylake/lox/parsing/Resolver.java:311-316 | the condition and the body are resolved against the keys open on entry; the body's declarations land, defined, in the current scope |
| Resolver.Resolver.VisitClass | src/main/java/com/puritylake/lox/parsing/Resolver.java:252-260 | the class name is declared and defined in the current scope, and the methods are resolved with it visible, in an extra empty scope |
| Resolver.Resolver.VisitFor | src/main/java/com/puritylake/lox/parsing/Resolver.java:318-327 | corrected: in a new scope, the initializer if present, then the condition, increment and body with the initializer's declarations visible; the scope is popped holding exactly the declarations of the initializer and the body, and its unused locals are the last warnings written |
| Resolver.Resolver.VisitForAsWritten | src/main/java/com/puritylake/lox/parsing/Resolver.java:318-327 | as written: a missing clause is resolved as null, which throws exactly when a clause is absent, leaving the scope pushed |
| Resolver.Resolver.Resolve | src/main/java/com/puritylake/lox/parsing/Resolver.java:43-49 | the program is resolved as a block in a new outermost scope; that scope is popped holding exactly the program's declarations, and its unused locals are the last warnings written |
| Semantics.FromLiteral | src/main/java/com/puritylake/lox/parsing/Interpreter.java:205-208 | a literal evaluates to a value that is never a function, class, instance or native |
| Semantics.ExprFailureEnds | src/main/java/com/puritylake/lox/parsing/Interpreter.java:114-258 | an error or halt from any sub-evaluation of an expression is the last call the expression makes and is its outcome |
| Semantics.LogicalTruth | src/main/java/com/puritylake/lox/parsing/Interpreter.java:210-221 | a logical expression that yields a value yields one whose truth is the disjunction (`or`) or conjunction (`and`) of its operands' truths, an operand that was not evaluated counting as false |
| Semantics.InvokedWithArgumentValues | src/main/java/com/puritylake/lox/parsing/Interpreter.java:178-198 | a call invokes its callee only after the callee and then every argument, in order, yielded values; it passes exactly those values, as many as the callee's arity, and its outcome is the invocation's |
| Semantics.BlockCompletion | src/main/java/com/puritylake/lox/parsing/Interpreter.java:94-105 | a block completes exactly when every statement ran and completed; otherwise it ends as the one statement that did not complete, the last one run |
| Semantics.LoopBreakEnds | src/main/java/com/puritylake/lox/parsing/Interpreter.java:307-345 | a body run that breaks is the loop's last call, and the loop ends normally |
| Semantics.LoopIncrementFollows | src/main/java/com/puritylake/lox/parsing/Interpreter.java:321-345 | after every body run that completes or continues, the increment is evaluated next |
| Semantics.LoopBodyAfterTrue | src/main/java/com/puritylake/lox/parsing/Interpreter.java:307-345 | with a condition, every body run comes right after an evaluation of the condition to a truthy value |
| Semantics.LoopEndsNormally | src/main/java/com/puritylake/lox/parsing/Interpreter.java:307-345 | a loop ends normally only by a `break` or by a false condition, and that is its last call |
| Semantics.LoopAbruptEnds | src/main/java/com/puritylake/lox/parsing/Interpreter.java:307-345 | a return, error or halt from any call of a loop is its last call and the loop's outcome |
| Semantics.StmtAbruptEnds | src/main/java/com/puritylake/lox/parsing/Interpreter.java:260-345 | for every kind of statement, a return, error or halt from any call it makes is its last call and its outcome |
| Interpreter.Interpreter.constructor | src/main/java/com/puritylake/lox/parsing/Interpreter.java:13-33 | the globals are the current frame and hold only `clock`, initialized; nothing is output or reported |
| Interpreter.Interpreter.Evaluate | src/main/java/com/puritylake/lox/parsing/Interpreter.java:67-69 | an expression yields a value, an error or a halt, never a loop or return signal; it restores the current frame, only appends output and reports nothing; it is logged as one call whose own calls obey the rule of its node kind |
| Interpreter.Interpreter.AcceptExpr | src/main/java/com/puritylake/lox/parsing/Interpreter.java:67-69 | the calls made under an expression obey the rule of its node kind (`ExprRule`): a grouping has its inner expression's outcome, a literal its value, and property access, property assignment and anonymous functions halt |
| Interpreter.Interpreter.VisitAssign | src/main/java/com/puritylake/lox/parsing/Interpreter.java:107-112 | the value is evaluated first and a failure there is the outcome; otherwise the value is stored, initialized, in the innermost frame of the chain naming the variable and is the outcome; an error after a value means no frame of the chain names the variable |
| Interpreter.Interpreter.VisitBinary | src/main/java/com/puritylake/lox/parsing/Interpreter.java:114-176 | left first, and a failure there is the outcome before right is evaluated; then right, and a failure there is the outcome; otherwise the outcome is `BinaryOp` of the two values |
| Interpreter.Interpreter.VisitUnary | src/main/java/com/puritylake/lox/parsing/Interpreter.java:223-238 | exactly one evaluation, of the operand; a failure is the outcome, otherwise `UnaryOp` of its value |
| Interpreter.Interpreter.VisitLogical | src/main/java/com/puritylake/lox/parsing/Interpreter.java:210-221 | left first; `or` with a truthy left and `and` with a falsy left yield the left value and evaluate nothing more; otherwise exactly one more evaluation, of the right operand, whose outcome is the result |
| Interpreter.Interpreter.VisitCommaGroup | src/main/java/com/puritylake/lox/parsing/Interpreter.java:240-245 | left, then right only when left yielded a value; a failure of either is the outcome, and otherwise the value is nil |
| Interpreter.Interpreter.VisitTernary | src/main/java/com/puritylake/lox/parsing/Interpreter.java:247-253 | the condition, then exactly one more evaluation, of the branch its truth selects, whose outcome is the result; a failing condition evaluates no branch |
| Interpreter.Interpreter.VisitVariable | src/main/java/com/puritylake/lox/parsing/Interpreter.java:255-258 | the value of the current frame's entry for the name; "Undefined variable" when it has none |
| Interpreter.Interpreter.VisitCall | src/main/java/com/puritylake/lox/parsing/Interpreter.java:178-198 | the callee first, and a failure ends the call; a non-callable fails with "Can only call functions and classes." before any argument is evaluated; then the arguments left to right, the first failing one ending the call; then the arity check, whose message names the arity and the count; then exactly one invocation with the argument values, whose outcome is the call's |
| Interpreter.Interpreter.CallWith | src/main/java/com/puritylake/lox/parsing/Interpreter.java:186-197 | once the callee is a callable: the arguments left to right with the first failure ending the call, then the arity check, then one invocation with the values |
| Interpreter.Interpreter.EvaluateArguments | src/main/java/com/puritylake/lox/parsing/Interpreter.java:186-189 | the evaluations made are of the arguments in order, each but the last yielding a value; without a failure there is one per argument and the values are theirs; with one, it is the last evaluation's outcome |
| Interpreter.Interpreter.CallValue | src/main/java/com/puritylake/lox/types/LoxFunction.java:25-42 | logged as one invocation: a function with fuel runs its body as a block in a fresh frame whose parent is its closure and whose named store starts as the parameter bindings, and the result is `CallResult` of how the body ended; a class yields a fresh instance of itself; `clock` yields the next clock reading |
| Interpreter.Interpreter.CallFunction | src/main/java/com/puritylake/lox/types/LoxFunction.java:25-42 | the body runs once, as a block in a fresh frame whose parent is the closure and whose named store starts as the parameter bindings, and the result is `CallResult` of how it ended; no fuel runs nothing and halts |
| Interpreter.Interpreter.Execute | src/main/java/com/puritylake/lox/parsing/Interpreter.java:49-51 | a statement completes with nil or raises a signal, restores the current frame, and is logged as one call whose own calls obey the rule of its kind |
| Interpreter.Interpreter.AcceptStmt | src/main/java/com/puritylake/lox/parsing/Interpreter.java:49-51 | the calls made under a statement obey the rule of its kind (`StmtRule`): `break` and `continue` raise their signals, a function declaration completes, a class declaration halts |
| Interpreter.Interpreter.ExecuteBlock | src/main/java/com/puritylake/lox/parsing/Interpreter.java:94-105 | logged as one block run in the given frame, from the store that frame had on entry: the statements run in order in that frame, each only after all earlier ones completed, and the block ends as the last one run; the previous frame is restored however the block ends |
| Interpreter.Interpreter.RunStatements | src/main/java/com/puritylake/lox/parsing/Interpreter.java:97-101 | the statements run in order in the current frame, each only after all earlier ones completed, and the run ends as the last one run |
| Interpreter.Interpreter.VisitBlock | src/main/java/com/puritylake/lox/parsing/Interpreter.java:260-264 | exactly one block run of the statements, in a fresh frame whose parent is the current frame and whose store starts empty; its outcome is the statement's |
| Interpreter.Interpreter.VisitFunction | src/main/java/com/puritylake/lox/parsing/Interpreter.java:272-277 | the name is bound, initialized, to a function of this declaration closing over the current frame; other names are unchanged |
| Interpreter.Interpreter.VisitIf | src/main/java/com/puritylake/lox/parsing/Interpreter.java:279-287 | the condition first, and a failure is the outcome; a truthy value runs the then-branch only, a falsy one the else-branch only, or nothing when there is none; the branch's outcome is the statement's |
| Interpreter.Interpreter.VisitPrint | src/main/java/com/puritylake/lox/parsing/Interpreter.java:289-294 | exactly one evaluation, and a failure is the outcome; otherwise the last output line is `stringify` of the value and the statement completes |
| Interpreter.Interpreter.VisitReturn | src/main/java/com/puritylake/lox/types/LoxFunction.java:32-41 | the value, if present, is evaluated once and a failure is the outcome; otherwise the Return signal carries the value, nil when there is none |
| Interpreter.Interpreter.VisitVar | src/main/java/com/puritylake/lox/parsing/Interpreter.java:296-305 | the initializer, if present, is evaluated once and a failure is the outcome; otherwise the current frame binds the name to its value (nil without one) with the statement's `initialized` flag |
| Interpreter.Interpreter.VisitWhile | src/main/java/com/puritylake/lox/parsing/Interpreter.java:307-319 | each iteration evaluates the condition: a failure ends the loop with it, a falsy value ends it normally, and a truthy one runs the body; `break` ends the loop normally, a return, error or halt ends it with that outcome, and completion or `continue` starts the next iteration |
| Interpreter.Interpreter.VisitFor | src/main/java/com/puritylake/lox/parsing/Interpreter.java:321-345 | the initializer, if present, runs once first, and anything but completion ends the statement with it; then the loop as for `while`, with no condition meaning true; after a body run that completes or continues, the increment, if present, is evaluated, and its failure ends the loop |
| Interpreter.Interpreter.Loop | src/main/java/com/puritylake/lox/parsing/Interpreter.java:331-342 | the calls of a running loop, from the top of an iteration, obey the loop rule for its outcome |
| Interpreter.Interpreter.Iteration | src/main/java/com/puritylake/lox/parsing/Interpreter.java:331-342 | one iteration either lets the loop go on, and its calls are whole rounds (true test, body completing or continuing, increment with a value), or ends the loop, and its calls obey the loop rule for that outcome |
| Interpreter.Interpreter.IterationBody | src/main/java/com/puritylake/lox/parsing/Interpreter.java:335-341 | the same for an iteration from the run of its body |
| Interpreter.Interpreter.Interpret | src/main/java/com/puritylake/lox/parsing/Interpreter.java:39-47 | the statements run in order in the current frame, each only after all earlier ones completed; when the last one run fails with a runtime error, that error is reported once and nothing escapes; completion reports nothing; any other signal escapes unreported |

## Findings

| source | as written | input that shows it | evidently intended | confidence | as-written member | corrected member |
|---|---|---|---|---|---|---|
| src/main/java/com/puritylake/lox/parsing/Resolver.java:318-327 | `visitForStmt` resolves `init`, `cond` and `post` without checking for null | `for (;;) { break; }` gives a `NullPointerException` in the resolver, though the interpreter (Interpreter.java:323-341) handles absent clauses | resolve only the clauses that are present | high (not executed) | Resolver.Resolver.VisitForAsWritten | Resolver.Resolver.VisitFor |
| src/main/java/com/puritylake/lox/parsing/Resolver.java:109-122 | `resolveLocal` casts its node to `Expr.Variable`, but `visitAssignExpr` (Resolver.java:147-151) passes an `Expr.Assign` | `{ var a; a = 1; }` marks `a` used, then the cast throws `ClassCastException` | record the coordinates on either kind of node | high (not executed) | Resolver.Resolver.ResolveLocalAsWritten | Resolver.Resolver.ResolveLocal |

## Left out

- Scanner, parser, `Lox.java` (the driver, `Lox.error`, `Lox.runtimeError`), `RuntimeError.java`, `Return.java`, `Expr.java`, `TokenType.java` and the loop-control exception classes are not part of this model. They appear only as the shapes the core uses: `Tokens.RuntimeError`, `Runtime.Outcome`, `Ast.Expr`, `Tokens.TokenType`.
- `GenerateAST.java`, the generated visitor plumbing of `Stmt.java`, and the `LoxCallable` interfaces: the model dispatches on datatype constructors and on `Runtime.Value` instead.
- Floating point: numbers are reals, so NaN, infinities, rounding and `-0.0` are not modelled, and `Double.equals` is value equality. `Double.toString` is the parameter `numText`.
- The wall clock, `System.out`, `System.err` and `Lox.error`: `clock` is a parameter, and the output streams and error reports are appended sequences.
- Java exceptions outside the language's own signals (null dereferences, index errors, the `ClassCastException` of the findings) are not raised inside the main model. The two that the resolver's code reaches are exhibited by the as-written members.
- Interpreter.Interpreter.Evaluate: property access, property assignment and anonymous functions have no interpreter visitor, and class declarations have none either; these halt with `Unsupported`.
- Interpreter.Interpreter.CallValue: calls are bounded by `fuel`; a call with no fuel left halts with `OutOfFuel` where Java would go on or overflow its stack.
- Interpreter.Interpreter.VisitWhile: iterations are bounded by `fuel`; a loop that would run on halts with `OutOfFuel`.
- Interpreter.Interpreter.VisitFor: iterations are bounded by `fuel` as for `while`.
- Interpreter.Interpreter.VisitVariable: reads the current frame only and never uses the resolver's recorded coordinates or `getAt`. The source makes no connection between the two, so no agreement between resolver slots and interpreter lookups is claimed.
- Resolver.Resolver.ResolveExpr: the `currentFunction` kind is tracked and restored but never read by the source, so nothing is stated about it beyond its restoration.
- Resolver.Resolver.ResolveClass: `LoxClass` keeps no methods, so nothing connects the resolved methods to the runtime.
- Resolver.Resolver.ResolveStmt: the walkers state which references are recorded, which entries are marked used and what is declared, and that errors and warnings are only appended. Which redeclaration and own-initializer errors a nested statement reports is stated only by `Declare` and `CheckOwnInitializer` for the node they handle.
- Resolver.Resolver.ResolveExpr: the walkers state that a coordinate is recorded for each reference, not its value; the value is stated by `ResolveLocal` when the node is resolved. Node ids are not assumed distinct, so a later node with the same id may overwrite the coordinate.
- Interpreter.Interpreter.AcceptExpr: the rule for a variable states only that it yields a value or "Undefined variable"; which value is stated by `VisitVariable` against the frame at that moment, which the log does not record.

