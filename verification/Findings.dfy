/** Two places where cssquery/parser.py, as written, does not do what its tests expect, each
    shown on a concrete input next to the intended behaviour. */
module Findings {
  import opened Wrappers
  import opened Syntax
  import opened Grammar
  import opened GrammarLaws
  import Lexer

  /** A selector made of one tag, read in either way. */
  lemma SingleTag(tok: Token, reading: Reading)
    requires tok.name == IDENT && tok.value.Some?
    ensures ParseTokens([tok], reading)
         == Success([if reading == AsWritten then [CHILD, TAG(tok.value.value)] else [TAG(tok.value.value)]])
  {
    var ts := [tok];
    var op := TAG(tok.value.value);
    assert SkipWs(ts, 0) == 0;
    assert UnitsFrom(ts, 1, reading) == Success([]);
    assert UnitsFrom(ts, 0, reading) == Success([Step(op)] + []);
    assert [Step(op)] + [] == [Step(op)];
    assert Emit(false, []) == [];
    assert GroupOps(ts, 0, reading).value == if reading == AsWritten then [CHILD, op] else [op];
    assert FirstComma(ts, 0) == 1;
  }

  /** As written, `parse('a')` keeps the `(CHILD,)` sentinel in front of the tag. */
  lemma SentinelSurvives(t: string)
    requires Lexer.IsIdent(t)
    ensures ParseSource(t, AsWritten) == Success([[CHILD, TAG(t)]])
  {
    Lexer.LexIdent(t);
    SingleTag(Token(1, 1, IDENT, Some(t)), AsWritten);
  }

  /** As intended, `parse('a') == [[(TAG, 'a')]]`. */
  lemma IntendedTag(t: string)
    requires Lexer.IsIdent(t)
    ensures ParseSource(t, Intended) == Success([[TAG(t)]])
  {
    Lexer.LexIdent(t);
    SingleTag(Token(1, 1, IDENT, Some(t)), Intended);
  }

  /** The tokens of `a:p`, optionally followed by whitespace. */
  predicate TagPseudo(ts: seq<Token>, a: string, p: string, padded: bool)
  {
    && |ts| == (if padded then 4 else 3)
    && ts[0].name == IDENT && ts[0].value == Some(a)
    && ts[1].name == COLON && ts[1].value == None
    && ts[2].name == IDENT && ts[2].value == Some(p)
    && (padded ==> ts[3].name == WS && ts[3].value == None)
  }

  /** As written, `a:p` with nothing after the pseudo-class raises `AttributeError`: `peek()`
      returns None at the end of input and the code reads its `name`. */
  lemma PseudoAtEndFails(ts: seq<Token>, a: string, p: string)
    requires TagPseudo(ts, a, p, false)
    ensures AllWellFormed(ts)
    ensures ParseTokens(ts, AsWritten) == Failure(AttributeError)
  {
    assert SkipWs(ts, 0) == 0;
    assert UnitAt(ts, 1, AsWritten) == Failure(AttributeError);
    assert UnitsFrom(ts, 1, AsWritten) == Failure(AttributeError);
    assert UnitsFrom(ts, 0, AsWritten) == Failure(AttributeError);
  }

  /** With trailing whitespace, as the tests always write it, `a:p ` parses (sentinel aside). */
  lemma PaddedPseudoParses(ts: seq<Token>, a: string, p: string)
    requires TagPseudo(ts, a, p, true)
    ensures AllWellFormed(ts)
    ensures ParseTokens(ts, AsWritten) == Success([[CHILD, TAG(a), PSEUDO(p)]])
  {
    TagPseudoUnits(ts, a, p, true, AsWritten);
    var u := [Step(TAG(a)), Step(PSEUDO(p)), Space];
    assert u == [Step(TAG(a)), Step(PSEUDO(p))] + [Space];
    EmitCons(true, Step(TAG(a)), [Step(PSEUDO(p)), Space]);
    EmitCons(false, Step(PSEUDO(p)), [Space]);
    EmitCons(false, Space, []);
    assert Emit(true, u) == [CHILD, TAG(a), PSEUDO(p)];
    assert GroupOps(ts, 0, AsWritten) == Success([CHILD, TAG(a), PSEUDO(p)]);
    assert FirstComma(ts, 0) == |ts|;
    ParseFromLast(ts, 0, AsWritten);
  }

  /** As intended, `a:p` gives `[[(TAG, a), (PSEUDO, p)]]` whether or not whitespace follows. */
  lemma IntendedPseudoAtEnd(ts: seq<Token>, a: string, p: string, padded: bool)
    requires TagPseudo(ts, a, p, padded)
    ensures AllWellFormed(ts)
    ensures ParseTokens(ts, Intended) == Success([[TAG(a), PSEUDO(p)]])
  {
    TagPseudoUnits(ts, a, p, padded, Intended);
    var tail: seq<Unit> := if padded then [Space] else [];
    var u := [Step(TAG(a)), Step(PSEUDO(p))] + tail;
    EmitCons(false, Step(TAG(a)), [Step(PSEUDO(p))] + tail);
    EmitCons(false, Step(PSEUDO(p)), tail);
    if padded {
      EmitCons(false, Space, []);
    }
    assert Emit(false, u) == [TAG(a), PSEUDO(p)];
    assert FirstComma(ts, 0) == |ts|;
  }

  /** The units of `a:p` (and `a:p ` when padded), where they parse. */
  lemma TagPseudoUnits(ts: seq<Token>, a: string, p: string, padded: bool, reading: Reading)
    requires TagPseudo(ts, a, p, padded) && (padded || reading == Intended)
    ensures AllWellFormed(ts) && SkipWs(ts, 0) == 0
    ensures UnitsFrom(ts, 0, reading) == Success([Step(TAG(a)), Step(PSEUDO(p))] + (if padded then [Space] else []))
  {
    var tail: seq<Unit> := if padded then [Space] else [];
    if padded {
      assert SkipWs(ts, 3) == 4;
      UnitsFromStep(ts, 3, reading);
      assert UnitsFrom(ts, 3, reading) == Success([Space] + []);
      assert [Space] + [] == tail;
    }
    assert UnitsFrom(ts, 3, reading) == Success(tail);
    UnitsFromStep(ts, 1, reading);
    assert UnitAt(ts, 1, reading) == Success(Read(Step(PSEUDO(p)), 3));
    UnitsFromStep(ts, 0, reading);
    assert UnitAt(ts, 0, reading) == Success(Read(Step(TAG(a)), 1));
    assert [Step(TAG(a))] + ([Step(PSEUDO(p))] + tail) == [Step(TAG(a)), Step(PSEUDO(p))] + tail;
  }
}
