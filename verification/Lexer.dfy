/** The token rules of `SELECTOR_SYNTAX` (cssquery/parser.py), written as a scanner.
    Every rule is tried at the current position; the first character decides which rule
    can match, because the rules start with pairwise different characters.
    The two bracket rules count depth for their own bracket kind only. */
module Lexer {
  import opened Wrappers
  import opened Syntax

  predicate IsWs(c: char)
  {
    c == ' ' || c == '\t' || c == '\r' || c == '\n'
  }

  /** `[a-zA-Z_\-]` */
  predicate IsIdentStart(c: char)
  {
    ('a' <= c <= 'z') || ('A' <= c <= 'Z') || c == '_' || c == '-'
  }

  /** `[a-zA-Z0-9_\-]` */
  predicate IsIdentChar(c: char)
  {
    IsIdentStart(c) || ('0' <= c <= '9')
  }

  /** Text matched by `[a-zA-Z_\-][a-zA-Z0-9_\-]*`. */
  predicate IsIdent(t: string)
  {
    |t| > 0 && IsIdentStart(t[0]) && forall k :: 0 <= k < |t| ==> IsIdentChar(t[k])
  }

  /** The single-character rules, in the order they are listed. */
  function PunctKind(c: char): Option<Kind>
  {
    if c == ',' then Some(COMMA)
    else if c == '*' then Some(STAR)
    else if c == '.' then Some(DOT)
    else if c == '#' then Some(SHARP)
    else if c == '+' then Some(PLUS)
    else if c == '>' then Some(GT)
    else if c == '~' then Some(TILDE)
    else if c == ':' then Some(COLON)
    else None
  }

  /** Starting at depth `d`, the text never closes more brackets than are open
      and leaves all of them closed. */
  predicate BalancedFrom(v: string, d: nat, open: char, close: char)
    decreases |v|
  {
    if v == [] then d == 0
    else if v[0] == close then d > 0 && BalancedFrom(v[1..], d - 1, open, close)
    else if v[0] == open then BalancedFrom(v[1..], d + 1, open, close)
    else BalancedFrom(v[1..], d, open, close)
  }

  predicate Balanced(v: string, open: char, close: char)
  {
    BalancedFrom(v, 0, open, close)
  }

  /** End of the whitespace run that starts at `i`. */
  function WsEnd(s: string, i: nat): (e: nat)
    requires i <= |s|
    ensures i <= e <= |s|
    ensures forall k :: i <= k < e ==> IsWs(s[k])
    ensures e == |s| || !IsWs(s[e])
    decreases |s| - i
  {
    if i < |s| && IsWs(s[i]) then WsEnd(s, i + 1) else i
  }

  /** End of the identifier characters that start at `i`. */
  function IdentEnd(s: string, i: nat): (e: nat)
    requires i <= |s|
    ensures i <= e <= |s|
    ensures forall k :: i <= k < e ==> IsIdentChar(s[k])
    ensures e == |s| || !IsIdentChar(s[e])
    decreases |s| - i
  {
    if i < |s| && IsIdentChar(s[i]) then IdentEnd(s, i + 1) else i
  }

  /** Index of the `close` that brings the depth from `depth` down to zero,
      scanning from `j`; `None` when the input ends first. */
  function MatchClose(s: string, j: nat, open: char, close: char, depth: nat): Option<nat>
    requires j <= |s| && depth >= 1
    decreases |s| - j
  {
    if j == |s| then None
    else if s[j] == close then
      (if depth == 1 then Some(j) else MatchClose(s, j + 1, open, close, depth - 1))
    else if s[j] == open then MatchClose(s, j + 1, open, close, depth + 1)
    else MatchClose(s, j + 1, open, close, depth)
  }

  lemma {:induction false} MatchCloseSound(s: string, j: nat, open: char, close: char, depth: nat)
    requires j <= |s| && depth >= 1 && open != close
    requires MatchClose(s, j, open, close, depth).Some?
    ensures var e := MatchClose(s, j, open, close, depth).value;
      j <= e < |s| && s[e] == close && BalancedFrom(s[j..e], depth - 1, open, close)
    decreases |s| - j
  {
    var e := MatchClose(s, j, open, close, depth).value;
    if s[j] == close && depth == 1 {
      assert s[j..e] == [];
    } else {
      var d' := if s[j] == close then depth - 1 else if s[j] == open then depth + 1 else depth;
      MatchCloseSound(s, j + 1, open, close, d');
      assert s[j..e][1..] == s[j + 1..e];
    }
  }

  lemma {:induction false} MatchCloseComplete(s: string, j: nat, v: string, open: char, close: char, depth: nat)
    requires depth >= 1 && open != close
    requires j + |v| < |s| && s[j..j + |v|] == v && s[j + |v|] == close
    requires BalancedFrom(v, depth - 1, open, close)
    ensures MatchClose(s, j, open, close, depth) == Some(j + |v|)
    decreases |v|
  {
    if v != [] {
      assert s[j] == v[0];
      assert s[j + 1..j + 1 + |v[1..]|] == v[1..];
      var d' := if v[0] == close then depth - 1 else if v[0] == open then depth + 1 else depth;
      MatchCloseComplete(s, j + 1, v[1..], open, close, d');
    }
  }

  /** One match of a token rule: the token name, the value the rule passes on,
      and the position just after the matched text. */
  datatype Lexeme = Lexeme(name: Kind, value: Option<string>, end: nat)

  /** How the matched text `s[i..lx.end]` relates to the lexeme. */
  predicate Spells(s: string, i: nat, lx: Lexeme)
    requires i < lx.end <= |s|
  {
    match lx.name
    case WS => lx.value.None? && (forall k :: i <= k < lx.end ==> IsWs(s[k])) && (lx.end == |s| || !IsWs(s[lx.end]))
    case IDENT => lx.value == Some(s[i..lx.end]) && IsIdent(s[i..lx.end]) && (lx.end == |s| || !IsIdentChar(s[lx.end]))
    case EVAL => lx.value.Some? && s[i..lx.end] == "[" + lx.value.value + "]" && Balanced(lx.value.value, '[', ']')
    case FNARGS => lx.value.Some? && s[i..lx.end] == "(" + lx.value.value + ")" && Balanced(lx.value.value, '(', ')')
    case _ => lx.value.None? && lx.end == i + 1 && PunctKind(s[i]) == Some(lx.name)
  }

  /** A bracketed body: `[...]` or `(...)` with its inner text as value. */
  function ScanBracket(s: string, i: nat, open: char, close: char, kind: Kind): (r: Option<Lexeme>)
    requires i < |s| && s[i] == open && open != close
    ensures r.Some? ==> (r.value.name == kind && i < r.value.end <= |s|
      && r.value.value.Some? && s[i..r.value.end] == [open] + r.value.value.value + [close]
      && Balanced(r.value.value.value, open, close))
    ensures r.None? ==> forall e :: i < e < |s| && s[e] == close ==> !Balanced(s[i + 1..e], open, close)
  {
    match MatchClose(s, i + 1, open, close, 1)
    case Some(e) =>
      MatchCloseSound(s, i + 1, open, close, 1);
      assert s[i..e + 1] == [open] + s[i + 1..e] + [close];
      Some(Lexeme(kind, Some(s[i + 1..e]), e + 1))
    case None =>
      assert forall e :: i < e < |s| && s[e] == close ==> !Balanced(s[i + 1..e], open, close) by {
        forall e | i < e < |s| && s[e] == close && Balanced(s[i + 1..e], open, close)
          ensures false
        {
          MatchCloseComplete(s, i + 1, s[i + 1..e], open, close, 1);
        }
      }
      None
  }

  /** A bracketed body spells its lexeme, and the text between its brackets is balanced. */
  lemma BracketSpells(s: string, i: nat, open: char, close: char, kind: Kind)
    requires i < |s| && s[i] == open
    requires (open == '[' && close == ']' && kind == EVAL) || (open == '(' && close == ')' && kind == FNARGS)
    ensures var r := ScanBracket(s, i, open, close, kind);
      r.Some? ==> && Spells(s, i, r.value)
                  && var e := r.value.end - 1;
                     i < e < |s| && s[e] == close && Balanced(s[i + 1..e], open, close)
  {
    var r := ScanBracket(s, i, open, close, kind);
    if r.Some? {
      assert s[i..r.value.end] == [open] + r.value.value.value + [close];
      var e := r.value.end - 1;
      assert s[i + 1..e] == r.value.value.value && s[e] == close;
    }
  }

  /** The rule that matches at position `i`, if any. */
  function ScanOne(s: string, i: nat): (r: Option<Lexeme>)
    requires i < |s|
    ensures r.Some? ==> i < r.value.end <= |s| && Spells(s, i, r.value)
    ensures r.Some? ==> (r.value.name == WS <==> IsWs(s[i])) && (r.value.name == IDENT <==> IsIdentStart(s[i]))
    ensures r.None? <==> (!IsWs(s[i]) && PunctKind(s[i]).None? && !IsIdentStart(s[i])
      && (s[i] == '[' ==> forall e :: i < e < |s| && s[e] == ']' ==> !Balanced(s[i + 1..e], '[', ']'))
      && (s[i] == '(' ==> forall e :: i < e < |s| && s[e] == ')' ==> !Balanced(s[i + 1..e], '(', ')')))
  {
    var c := s[i];
    if IsWs(c) then Some(Lexeme(WS, None, WsEnd(s, i)))
    else if PunctKind(c).Some? then Some(Lexeme(PunctKind(c).value, None, i + 1))
    else if IsIdentStart(c) then
      var e := IdentEnd(s, i + 1);
      Some(Lexeme(IDENT, Some(s[i..e]), e))
    else if c == '[' then
      var r := ScanBracket(s, i, '[', ']', EVAL);
      BracketSpells(s, i, '[', ']', EVAL);
      r
    else if c == '(' then
      var r := ScanBracket(s, i, '(', ')', FNARGS);
      BracketSpells(s, i, '(', ')', FNARGS);
      r
    else None
  }

  /** Where the lexer stood when it found no rule to match. */
  datatype LexFailure = LexFailure(line: int, column: int)

  /** Line and column after consuming `text`: a newline starts the next line at column 1. */
  function Advance(line: int, column: int, text: string): (int, int)
    decreases |text|
  {
    if text == [] then (line, column)
    else if text[0] == '\n' then Advance(line + 1, 1, text[1..])
    else Advance(line, column + 1, text[1..])
  }

  /** What the lexer guarantees of every token it emits. */
  predicate LexemeOk(t: Token)
  {
    && WellFormed(t)
    && (t.name == IDENT ==> IsIdent(t.value.value))
    && (t.name == EVAL ==> Balanced(t.value.value, '[', ']'))
    && (t.name == FNARGS ==> Balanced(t.value.value, '(', ')'))
  }

  /** Neither two whitespace tokens nor two identifiers follow each other:
      both rules match as much as they can. */
  predicate Maximal(ts: seq<Token>)
  {
    forall k :: 0 <= k < |ts| - 1 ==>
      !(ts[k].name == WS && ts[k + 1].name == WS) && !(ts[k].name == IDENT && ts[k + 1].name == IDENT)
  }

  function LexFrom(s: string, i: nat, line: int, column: int): (r: Result<seq<Token>, LexFailure>)
    requires i <= |s|
    ensures r.Success? ==> (forall k :: 0 <= k < |r.value| ==> LexemeOk(r.value[k])) && Maximal(r.value)
    ensures r.Success? ==> (r.value == [] <==> i == |s|)
    ensures r.Success? && r.value != [] ==>
      r.value[0].line == line && r.value[0].column == column
      && (r.value[0].name == WS <==> IsWs(s[i])) && (r.value[0].name == IDENT <==> IsIdentStart(s[i]))
    decreases |s| - i
  {
    if i == |s| then Success([])
    else match ScanOne(s, i)
      case None => Failure(LexFailure(line, column))
      case Some(lx) =>
        var (line', column') := Advance(line, column, s[i..lx.end]);
        var rest :- LexFrom(s, lx.end, line', column');
        Success([Token(line, column, lx.name, lx.value)] + rest)
  }

  /** `SELECTOR_SYNTAX.lex(source)`: lines and columns are 1-based. */
  function Lex(s: string): Result<seq<Token>, LexFailure>
  {
    LexFrom(s, 0, 1, 1)
  }

  /** A lone identifier lexes to one IDENT token carrying its text. */
  lemma LexIdent(t: string)
    requires IsIdent(t)
    ensures Lex(t) == Success([Token(1, 1, IDENT, Some(t))])
  {
    assert IdentEnd(t, 1) == |t|;
    assert t[0..|t|] == t;
    assert ScanOne(t, 0) == Some(Lexeme(IDENT, Some(t), |t|));
    var (l, c) := Advance(1, 1, t);
    assert LexFrom(t, |t|, l, c) == Success([]);
    var tok := Token(1, 1, IDENT, Some(t));
    assert LexFrom(t, 0, 1, 1) == Success([tok] + []);
    assert [tok] + [] == [tok];
  }

  /** `[v]` with balanced `v` lexes to one EVAL token whose value is `v`. */
  lemma LexEvalRoundTrip(v: string)
    requires Balanced(v, '[', ']')
    ensures Lex("[" + v + "]") == Success([Token(1, 1, EVAL, Some(v))])
  {
    var s := "[" + v + "]";
    assert s[1..1 + |v|] == v;
    MatchCloseComplete(s, 1, v, '[', ']', 1);
    assert s[1..|s| - 1] == v;
    assert ScanOne(s, 0) == Some(Lexeme(EVAL, Some(v), |s|));
    var (l, c) := Advance(1, 1, s);
    assert LexFrom(s, |s|, l, c) == Success([]);
    var tok := Token(1, 1, EVAL, Some(v));
    assert LexFrom(s, 0, 1, 1) == Success([tok] + []);
    assert [tok] + [] == [tok];
  }

  /** `(v)` with balanced `v` lexes to one FNARGS token whose value is `v`. */
  lemma LexArgsRoundTrip(v: string)
    requires Balanced(v, '(', ')')
    ensures Lex("(" + v + ")") == Success([Token(1, 1, FNARGS, Some(v))])
  {
    var s := "(" + v + ")";
    assert s[1..1 + |v|] == v;
    MatchCloseComplete(s, 1, v, '(', ')', 1);
    assert s[1..|s| - 1] == v;
    assert ScanOne(s, 0) == Some(Lexeme(FNARGS, Some(v), |s|));
    var (l, c) := Advance(1, 1, s);
    assert LexFrom(s, |s|, l, c) == Success([]);
    var tok := Token(1, 1, FNARGS, Some(v));
    assert LexFrom(s, 0, 1, 1) == Success([tok] + []);
    assert [tok] + [] == [tok];
  }
}
