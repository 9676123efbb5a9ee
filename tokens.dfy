/**
 * Tokens of the language (parsing/Token.java): the token record, its textual
 * form and the classification of operator tokens. The token kinds follow the
 * Lox token set together with the ternary and loop-control tokens the syntax
 * tree uses.
 */
module Tokens {

  /** Token kinds, spelled as the source's TokenType enum spells them. */
  datatype TokenType =
    | LEFT_PAREN | RIGHT_PAREN | LEFT_BRACE | RIGHT_BRACE | COMMA | DOT | MINUS | PLUS
    | SEMICOLON | SLASH | STAR | QUESTION | COLON
    | BANG | BANG_EQUAL | EQUAL | EQUAL_EQUAL | GREATER | GREATER_EQUAL | LESS | LESS_EQUAL
    | IDENTIFIER | STRING | NUMBER
    | AND | CLASS | ELSE | FALSE | FUN | FOR | IF | NIL | OR | PRINT | RETURN | SUPER
    | THIS | TRUE | VAR | WHILE | BREAK | CONTINUE
    | EOF

  /** The name Java's enum `toString` gives each token type. */
  function TypeName(t: TokenType): (r: string)
    ensures |r| > 0 && NoSpace(r)
  {
    if IsPunctuationKind(t) then PunctuationName(t)
    else if IsOperatorKind(t) then OperatorName(t)
    else WordName(t)
  }

  /** The kinds of single-character punctuation tokens. */
  predicate IsPunctuationKind(t: TokenType) {
    match t
    case LEFT_PAREN | RIGHT_PAREN | LEFT_BRACE | RIGHT_BRACE | COMMA | DOT | MINUS | PLUS | SEMICOLON | SLASH | STAR | QUESTION | COLON => true
    case _ => false
  }

  /** The kinds of one- or two-character operator tokens other than the punctuation. */
  predicate IsOperatorKind(t: TokenType) {
    match t
    case BANG | BANG_EQUAL | EQUAL | EQUAL_EQUAL | GREATER | GREATER_EQUAL | LESS | LESS_EQUAL => true
    case _ => false
  }

  function PunctuationName(t: TokenType): (r: string)
    requires IsPunctuationKind(t)
    ensures |r| > 0 && NoSpace(r)
  {
    match t
    case LEFT_PAREN => "LEFT_PAREN"
    case RIGHT_PAREN => "RIGHT_PAREN"
    case LEFT_BRACE => "LEFT_BRACE"
    case RIGHT_BRACE => "RIGHT_BRACE"
    case COMMA => "COMMA"
    case DOT => "DOT"
    case MINUS => "MINUS"
    case PLUS => "PLUS"
    case SEMICOLON => "SEMICOLON"
    case SLASH => "SLASH"
    case STAR => "STAR"
    case QUESTION => "QUESTION"
    case COLON => "COLON"
    case _ => assert false; ""
  }

  function OperatorName(t: TokenType): (r: string)
    requires IsOperatorKind(t)
    ensures |r| > 0 && NoSpace(r)
  {
    match t
    case BANG => "BANG"
    case BANG_EQUAL => "BANG_EQUAL"
    case EQUAL => "EQUAL"
    case EQUAL_EQUAL => "EQUAL_EQUAL"
    case GREATER => "GREATER"
    case GREATER_EQUAL => "GREATER_EQUAL"
    case LESS => "LESS"
    case LESS_EQUAL => "LESS_EQUAL"
    case _ => assert false; ""
  }

  function WordName(t: TokenType): (r: string)
    requires !IsPunctuationKind(t) && !IsOperatorKind(t)
    ensures |r| > 0 && NoSpace(r)
  {
    match t
    case IDENTIFIER => "IDENTIFIER"
    case STRING => "STRING"
    case NUMBER => "NUMBER"
    case AND => "AND"
    case CLASS => "CLASS"
    case ELSE => "ELSE"
    case FALSE => "FALSE"
    case FUN => "FUN"
    case FOR => "FOR"
    case IF => "IF"
    case NIL => "NIL"
    case OR => "OR"
    case PRINT => "PRINT"
    case RETURN => "RETURN"
    case SUPER => "SUPER"
    case THIS => "THIS"
    case TRUE => "TRUE"
    case VAR => "VAR"
    case WHILE => "WHILE"
    case BREAK => "BREAK"
    case CONTINUE => "CONTINUE"
    case EOF => "EOF"
    case _ => assert false; ""
  }

  predicate NoSpace(s: string) {
    forall i | 0 <= i < |s| :: s[i] != ' '
  }


  /**
   * The literal a token or a literal node carries (a Java `Object`): `null`, a
   * `Boolean`, a `Double` (here an abstract real number) or a `String`.
   */
  datatype LiteralValue = NullLit | BoolLit(b: bool) | NumberLit(n: real) | StringLit(s: string)

  /**
   * `String.valueOf` of a literal. `numText` stands for `Double.toString`,
   * whose floating-point formatting is not modelled.
   */
  function LiteralText(lit: LiteralValue, numText: real -> string): string {
    match lit
    case NullLit => "null"
    case BoolLit(b) => if b then "true" else "false"
    case NumberLit(n) => numText(n)
    case StringLit(s) => s
  }

  /**
   * A token. `id` stands for the token object's identity: the source compares
   * tokens by reference in one place (the resolver's unused-local check), so two
   * occurrences of the same lexeme on the same line stay distinct here.
   */
  datatype Token = Token(tokenType: TokenType, lexeme: string, literal: LiteralValue, line: int, id: nat) {

    /** `toString`: the type, one space, the lexeme, two spaces, the literal. */
    function ToString(numText: real -> string): (r: string)
      ensures |r| == |TypeName(tokenType)| + 1 + |lexeme| + 2 + |LiteralText(literal, numText)|
      ensures r[..|TypeName(tokenType)|] == TypeName(tokenType)
      ensures r[|TypeName(tokenType)|] == ' '
      ensures r[|TypeName(tokenType)| + 1..|TypeName(tokenType)| + 1 + |lexeme|] == lexeme
      ensures r[|TypeName(tokenType)| + 1 + |lexeme|..|TypeName(tokenType)| + 3 + |lexeme|] == "  "
      ensures r[|TypeName(tokenType)| + 3 + |lexeme|..] == LiteralText(literal, numText)
    {
      TypeName(tokenType) + " " + lexeme + "  " + LiteralText(literal, numText)
    }

    /** The binary-operator token kinds. */
    predicate IsBinaryOp() {
      match tokenType
      case PLUS | MINUS | SLASH | STAR | BANG_EQUAL | EQUAL | EQUAL_EQUAL
         | GREATER | GREATER_EQUAL | LESS | LESS_EQUAL => true
      case _ => false
    }

    /** The unary-operator token kinds: MINUS is the only one that is binary as well. */
    predicate IsUnaryOp()
      ensures IsUnaryOp() && IsBinaryOp() <==> tokenType == MINUS
      ensures IsUnaryOp() && !IsBinaryOp() <==> tokenType == BANG
    {
      match tokenType
      case MINUS | BANG => true
      case _ => false
    }
  }

  /** The text before the first space of a string (all of it when it has none). */
  function FirstWord(s: string): (w: string)
    ensures |w| <= |s| && w == s[..|w|] && NoSpace(w)
    ensures |w| < |s| ==> s[|w|] == ' '
  {
    if s == [] || s[0] == ' ' then [] else [s[0]] + FirstWord(s[1..])
  }

  lemma FirstWordOf(w: string, rest: string)
    requires NoSpace(w)
    ensures FirstWord(w + " " + rest) == w
  {
    if w != [] {
      assert (w + " " + rest)[1..] == w[1..] + " " + rest;
      FirstWordOf(w[1..], rest);
    }
  }

  /** The type name can be read back from `toString`: it is the first word. */
  lemma {:induction false} ToStringNamesType(t: Token, numText: real -> string)
    ensures FirstWord(t.ToString(numText)) == TypeName(t.tokenType)
  {
    var rest := t.lexeme + "  " + LiteralText(t.literal, numText);
    assert t.ToString(numText) == TypeName(t.tokenType) + " " + rest;
    FirstWordOf(TypeName(t.tokenType), rest);
  }

  /** The error a Java `RuntimeError(token, message)` carries. */
  datatype RuntimeError = RuntimeError(token: Token, message: string)
}
