/** The values shared by the lexer and the parser of cssquery/parser.py:
    token kinds, tokens, selector operations and the errors the parser raises. */
module Syntax {
  import opened Wrappers

  /** The token names produced by the rules of `SELECTOR_SYNTAX`. */
  datatype Kind = WS | COMMA | STAR | DOT | SHARP | PLUS | GT | TILDE | COLON | IDENT | EVAL | FNARGS

  /** The token name as the error message prints it. */
  function KindName(k: Kind): string
  {
    match k
    case WS => "WS"
    case COMMA => "COMMA"
    case STAR => "STAR"
    case DOT => "DOT"
    case SHARP => "SHARP"
    case PLUS => "PLUS"
    case GT => "GT"
    case TILDE => "TILDE"
    case COLON => "COLON"
    case IDENT => "IDENT"
    case EVAL => "EVAL"
    case FNARGS => "FNARGS"
  }

  /** `Token(line, column, name, value=None)`. */
  datatype Token = Token(line: int, column: int, name: Kind, value: Option<string>)

  /** The kinds whose rule passes the matched text on as the token's value. */
  predicate CarriesValue(k: Kind)
  {
    k == IDENT || k == EVAL || k == FNARGS
  }

  /** A token as the lexer builds it: IDENT, EVAL and FNARGS carry a value, the others none. */
  predicate WellFormed(t: Token)
  {
    t.value.Some? <==> CarriesValue(t.name)
  }

  predicate AllWellFormed(ts: seq<Token>)
  {
    forall i :: 0 <= i < |ts| ==> WellFormed(ts[i])
  }

  /** The members of the `OP` enum, with the payload each tuple carries. */
  datatype Op =
    | ANY
    | TAG(tag: string)
    | CLASS(cls: string)
    | ID(id: string)
    | EVAL_OP(expr: string)
    | PSEUDO(pseudo: string)
    | FN(fn: string, args: string)
    | CHILD
    | CHILD_DIRECT
    | SIBLING
    | SIBLING_DIRECT

  predicate IsCombinator(op: Op)
  {
    op.CHILD? || op.CHILD_DIRECT? || op.SIBLING? || op.SIBLING_DIRECT?
  }

  /** A selector group; the empty sequence stands for the `()` that `parse_selector`
      returns for a group of fewer than two entries. */
  type Group = seq<Op>

  /** What `parse` can raise. `Unexpected` and `LexFailed` are the two kinds of
      `CssQueryError`: the first carries the token it reports (name and value, both
      `None` at the end of input) and its `line`/`column` attributes; the second replaces
      a lexer failure and carries no position. `AttributeError` is what `itr.peek().name`
      raises when `peek()` is `None`. */
  datatype Error =
    | Unexpected(name: Option<Kind>, value: Option<string>, line: Option<int>, column: Option<int>)
    | LexFailed
    | AttributeError

  /** The message of the `CssQueryError` that `unexpected()` raises: `unexpected token
      NAME (value)`, or `unexpected EOF` when no token is left. The message of a lexer
      failure comes from the lexer engine and is not modelled. */
  function Message(e: Error): string
    requires e.Unexpected?
  {
    var tknFmt := if e.name.Some? then "token " + KindName(e.name.value) else "EOF";
    var valFmt := if e.value.Some? then " (" + e.value.value + ")" else "";
    "unexpected " + tknFmt + valFmt
  }
}
