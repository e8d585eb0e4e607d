/** The hand-written loop parser of cssquery/parser.py: `parse_selector` and `parse`,
    driving a `TokenIterator`. Each is proved to compute what `Grammar` states. */
module Parser {
  import opened Wrappers
  import opened Syntax
  import opened TokenCursor
  import opened Grammar
  import Lexer

  /** The entries of `selectors` that stay once a pending CHILD is popped. */
  ghost function Settled(selectors: seq<Op>, pushedChild: bool): seq<Op>
    requires pushedChild ==> |selectors| > 0
  {
    if pushedChild then selectors[..|selectors| - 1] else selectors
  }

  /** How one pass of the `parse_selector` loop changes `selectors` and `pushedChild`
      for the unit it reads; `more` says whether tokens remain after the unit. */
  ghost predicate Updated(sel: seq<Op>, pushed: bool, unit: Unit, sel': seq<Op>, pushed': bool, more: bool)
    requires pushed ==> |sel| > 0
  {
    match unit
    case Space => !pushed && (if more then sel' == sel + [CHILD] && pushed' else sel' == sel && !pushed')
    case Comb(op) => sel' == Settled(sel, pushed) + [op] && !pushed'
    case Step(op) => sel' == sel + [op] && !pushed'
  }

  /** One pass of the loop reads one more unit: the units read so far grow by the unit
      at `j`, and the group still ends at the same COMMA. */
  lemma AdvanceUnits(ts: seq<Token>, j: nat, done: seq<Unit>, u0: Result<seq<Unit>, Error>)
    requires AllWellFormed(ts) && j < |ts| && ts[j].name != COMMA
    requires UnitAt(ts, j, AsWritten).Success?
    requires u0 == Glue(done, UnitsFrom(ts, j, AsWritten))
    ensures var rd := UnitAt(ts, j, AsWritten).value;
      && u0 == Glue(done + [rd.unit], UnitsFrom(ts, rd.next, AsWritten))
      && FirstComma(ts, j) == FirstComma(ts, rd.next)
  {
    var rd := UnitAt(ts, j, AsWritten).value;
    UnitsFromStep(ts, j, AsWritten);
    GlueGlue(done, rd.unit, UnitsFrom(ts, rd.next, AsWritten));
    FirstCommaAt(ts, j, FirstComma(ts, rd.next));
  }

  /** One pass of the loop keeps `selectors` in step with the units read: once a pushed
      CHILD is set aside, it holds what those units emit. */
  lemma AdvanceOps(done: seq<Unit>, unit: Unit, sel: seq<Op>, pushed: bool, sel': seq<Op>, pushed': bool, more: bool)
    requires pushed ==> |sel| > 0 && sel[|sel| - 1] == CHILD
    requires Settled(sel, pushed) == Emit(true, done) && pushed == PendingAfter(true, done)
    requires Updated(sel, pushed, unit, sel', pushed', more)
    ensures pushed' ==> |sel'| > 0 && sel'[|sel'| - 1] == CHILD
    ensures Settled(sel', pushed') == Emit(true, done + [unit])
    ensures more ==> pushed' == PendingAfter(true, done + [unit])
  {
    EmitAppend(true, done, [unit]);
    EmitUnit(pushed, unit);
    if unit.Step? && pushed {
      assert sel == sel[..|sel| - 1] + [CHILD];
    }
  }

  /** The state of the `parse_selector` loop at `j`, having read the units `done` of the
      group whose units are `u0`: `selectors` holds what `done` emits, plus a pushed CHILD
      exactly while whitespace is pending. */
  ghost predicate Tracking(ts: seq<Token>, j: nat, done: seq<Unit>, u0: Result<seq<Unit>, Error>, selectors: seq<Op>, pushedChild: bool)
    requires AllWellFormed(ts) && j <= |ts|
  {
    && (pushedChild ==> |selectors| > 0 && selectors[|selectors| - 1] == CHILD)
    && u0 == Glue(done, UnitsFrom(ts, j, AsWritten))
    && Settled(selectors, pushedChild) == Emit(true, done)
    && (j < |ts| ==> pushedChild == PendingAfter(true, done))
  }

  /** One pass of the loop, reading the unit `rd` at `j`, keeps the loop state in step. */
  lemma Advance(ts: seq<Token>, j: nat, done: seq<Unit>, u0: Result<seq<Unit>, Error>, sel: seq<Op>, pushed: bool, sel': seq<Op>, pushed': bool, rd: Read)
    requires AllWellFormed(ts) && j < |ts| && ts[j].name != COMMA
    requires UnitAt(ts, j, AsWritten) == Success(rd) && rd.next <= |ts|
    requires Tracking(ts, j, done, u0, sel, pushed)
    requires Updated(sel, pushed, rd.unit, sel', pushed', rd.next < |ts|)
    ensures Tracking(ts, rd.next, done + [rd.unit], u0, sel', pushed')
    ensures FirstComma(ts, j) == FirstComma(ts, rd.next)
  {
    AdvanceUnits(ts, j, done, u0);
    AdvanceOps(done, rd.unit, sel, pushed, sel', pushed', rd.next < |ts|);
  }

  /** The whitespace and combinator branches of the `parse_selector` loop: a whitespace
      run pushes a CHILD when tokens follow it; a combinator replaces a pushed CHILD; the
      whitespace after either is burnt. */
  method ReadSeparator(itr: TokenIterator, selectors: seq<Op>, pushedChild: bool)
    returns (sel: seq<Op>, pushed: bool)
    requires itr.Valid() && AllWellFormed(itr.tokens) && itr.id < |itr.tokens|
    requires itr.tokens[itr.id].name in {WS, PLUS, GT, TILDE}
    requires pushedChild ==> |selectors| > 0 && selectors[|selectors| - 1] == CHILD
    requires itr.tokens[itr.id].name == WS ==> !pushedChild
    modifies itr
    ensures itr.Valid()
    ensures var rd := UnitAt(itr.tokens, old(itr.id), AsWritten);
      && rd.Success? && rd.value.next == itr.id
      && Updated(selectors, pushedChild, rd.value.unit, sel, pushed, itr.id < |itr.tokens|)
  {
    ghost var j := itr.id;
    UnitAtSeparator(itr.tokens, j, AsWritten);
    sel, pushed := selectors, pushedChild;
    var name := itr.Name().value;
    if name == WS {
      itr.Burn(WS);
      if itr.CurrentToken().Some? {
        sel := sel + [CHILD];
        pushed := true;
      }
    } else {
      if pushed {
        sel := sel[..|sel| - 1];
        pushed := false;
      }
      sel := sel + [CombinatorOf(name)];
      var _ := itr.Next();
      itr.Burn(WS);
    }
  }

  /** The step branches of the `parse_selector` loop (`*`, `ident`, `#ident`, `.ident`,
      `[...]`, `:ident`, `:ident(...)`, anything else raises): the operation of the step
      that starts at the cursor, which is left on the step's last token. */
  method ReadStep(itr: TokenIterator) returns (r: Result<Op, Error>)
    requires itr.Valid() && AllWellFormed(itr.tokens) && itr.id < |itr.tokens|
    requires itr.tokens[itr.id].name !in {WS, PLUS, GT, TILDE, COMMA}
    modifies itr
    ensures itr.Valid()
    ensures var rd := UnitAt(itr.tokens, old(itr.id), AsWritten);
      && (r.Failure? ==> rd == Failure(r.error))
      && (r.Success? ==> itr.id < |itr.tokens| && rd == Success(Read(Step(r.value), itr.id + 1)))
  {
    var name := itr.Name().value;
    if name == STAR {
      r := Success(ANY);
    } else if name == IDENT {
      r := Success(TAG(itr.Value().value));
    } else if name == SHARP {
      var o := itr.Expect(IDENT);
      if o.Fail? {
        return Failure(o.error);
      }
      r := Success(ID(itr.Value().value));
    } else if name == DOT {
      var o := itr.Expect(IDENT);
      if o.Fail? {
        return Failure(o.error);
      }
      r := Success(CLASS(itr.Value().value));
    } else if name == EVAL {
      r := Success(EVAL_OP(itr.Value().value));
    } else if name == COLON {
      var o := itr.Expect(IDENT);
      if o.Fail? {
        return Failure(o.error);
      }
      var following := itr.Peek();
      if following.None? {
        return Failure(AttributeError);
      }
      if following.value.name == FNARGS {
        var fnName := itr.Value().value;
        var args := itr.Next();
        r := Success(FN(fnName, args.value.value.value));
      } else {
        r := Success(PSEUDO(itr.Value().value));
      }
    } else {
      r := Failure(itr.Unexpected());
    }
  }

  /** One pass of the `parse_selector` loop at a token that is neither a COMMA nor the end:
      a separator or a step is read, or the error the step raises is returned. */
  method ReadUnit(itr: TokenIterator, selectors: seq<Op>, pushedChild: bool, ghost done: seq<Unit>, ghost u0: Result<seq<Unit>, Error>)
    returns (o: Outcome<Error>, sel: seq<Op>, pushed: bool, ghost done': seq<Unit>)
    requires itr.Valid() && AllWellFormed(itr.tokens) && itr.id < |itr.tokens|
    requires itr.tokens[itr.id].name != COMMA
    requires pushedChild ==> itr.tokens[itr.id].name != WS
    requires Tracking(itr.tokens, itr.id, done, u0, selectors, pushedChild)
    modifies itr
    ensures itr.Valid()
    ensures o.Fail? ==> u0 == Failure(o.error)
    ensures o.Pass? ==>
      && old(itr.id) < itr.id <= |itr.tokens|
      && FirstComma(itr.tokens, old(itr.id)) == FirstComma(itr.tokens, itr.id)
      && (pushed ==> itr.id == |itr.tokens| || itr.tokens[itr.id].name != WS)
      && Tracking(itr.tokens, itr.id, done', u0, sel, pushed)
  {
    ghost var ts, j := itr.tokens, itr.id;
    ghost var rd := UnitAt(ts, j, AsWritten);
    var name := itr.Name().value;
    if name == WS || name == PLUS || name == GT || name == TILDE {
      sel, pushed := ReadSeparator(itr, selectors, pushedChild);
    } else {
      var step := ReadStep(itr);
      if step.Failure? {
        UnitsFromStep(ts, j, AsWritten);
        return Fail(step.error), selectors, pushedChild, done;
      }
      sel := selectors + [step.value];
      pushed := false;
      var _ := itr.Next();
    }
    o := Pass;
    assert rd.Success? && rd.value.next == itr.id;
    Advance(ts, j, done, u0, selectors, pushedChild, sel, pushed, rd.value);
    done' := done + [rd.value.unit];
  }

  /** `parse_selector(itr, 'COMMA')`: the group that starts at the cursor, which is
      left on the COMMA that ends it (or at the end). */
  method ParseSelector(itr: TokenIterator) returns (r: Result<Group, Error>)
    requires itr.Valid() && AllWellFormed(itr.tokens) && itr.id <= |itr.tokens|
    modifies itr
    ensures itr.Valid()
    ensures r == GroupOps(itr.tokens, old(itr.id), AsWritten)
    ensures r.Success? ==> itr.id == FirstComma(itr.tokens, old(itr.id))
  {
    ghost var ts, i0 := itr.tokens, itr.id;
    var selectors: seq<Op> := [CHILD];
    itr.Burn(WS);
    ghost var s0 := itr.id;
    FirstCommaAt(ts, i0, FirstComma(ts, s0));
    ghost var u0 := UnitsFrom(ts, s0, AsWritten);
    var pushedChild := true;
    ghost var done: seq<Unit> := [];
    assert u0 == Glue(done, u0) by {
      if u0.Success? { assert done + u0.value == u0.value; }
    }
    while itr.Name().Some? && itr.Name() != Some(COMMA)
      invariant itr.Valid() && itr.tokens == ts && s0 <= itr.id <= |ts|
      invariant FirstComma(ts, i0) == FirstComma(ts, itr.id)
      invariant pushedChild ==> itr.id == |ts| || ts[itr.id].name != WS
      invariant Tracking(ts, itr.id, done, u0, selectors, pushedChild)
      decreases |ts| - itr.id
    {
      var o;
      o, selectors, pushedChild, done := ReadUnit(itr, selectors, pushedChild, done, u0);
      if o.Fail? {
        return Failure(o.error);
      }
    }
    if pushedChild {
      selectors := selectors[..|selectors| - 1];
    }
    assert itr.id == |ts| || ts[itr.id].name == COMMA;
    assert UnitsFrom(ts, itr.id, AsWritten) == Success([]);
    assert done + [] == done;
    r := Success(if |selectors| > 1 then selectors else []);
  }

  /** `groups` in front of the groups still to come, or the error that stops them. */
  ghost function Prepend(groups: seq<Group>, rest: Result<seq<Group>, Error>): Result<seq<Group>, Error>
  {
    match rest
    case Success(more) => Success(groups + more)
    case Failure(e) => Failure(e)
  }

  /** The groups from `i` on, once the group `g` at `i` is read. */
  lemma ParseFromGroup(ts: seq<Token>, i: nat, g: Group)
    requires AllWellFormed(ts) && i < |ts|
    requires GroupOps(ts, i, AsWritten) == Success(g)
    ensures FirstComma(ts, i) < |ts| ==>
      ParseFrom(ts, i, AsWritten) == Prepend([g], ParseFrom(ts, FirstComma(ts, i) + 1, AsWritten))
    ensures FirstComma(ts, i) == |ts| ==> ParseFrom(ts, i, AsWritten) == Success([g])
  {
  }

  lemma PrependPrepend(groups: seq<Group>, g: Group, rest: Result<seq<Group>, Error>)
    ensures Prepend(groups, Prepend([g], rest)) == Prepend(groups + [g], rest)
  {
    if rest.Success? {
      assert groups + ([g] + rest.value) == (groups + [g]) + rest.value;
    }
  }

  /** One pass of the `parse` loop: the group `g` at `i` joins the groups read so far,
      and reading resumes at `next`, after the COMMA that ends the group or at the end. */
  lemma ParseStep(ts: seq<Token>, i: nat, groups: seq<Group>, g: Group, next: nat)
    requires AllWellFormed(ts) && i < |ts|
    requires GroupOps(ts, i, AsWritten) == Success(g)
    requires next == if FirstComma(ts, i) < |ts| then FirstComma(ts, i) + 1 else |ts|
    ensures Prepend(groups, ParseFrom(ts, i, AsWritten)) == Prepend(groups + [g], ParseFrom(ts, next, AsWritten))
  {
    ParseFromGroup(ts, i, g);
    if FirstComma(ts, i) < |ts| {
      PrependPrepend(groups, g, ParseFrom(ts, next, AsWritten));
    } else {
      assert ParseFrom(ts, next, AsWritten) == Success([]);
      assert groups + [g] + [] == groups + [g];
    }
  }

  /** A group that raises stops `parse` with its error. */
  lemma ParseStops(ts: seq<Token>, i: nat, groups: seq<Group>)
    requires AllWellFormed(ts) && i < |ts| && GroupOps(ts, i, AsWritten).Failure?
    ensures Prepend(groups, ParseFrom(ts, i, AsWritten)) == Failure(GroupOps(ts, i, AsWritten).error)
  {
  }

  /** The loop of `parse`: groups are read one after the other until the tokens run out. */
  method ParseGroups(itr: TokenIterator) returns (r: Result<seq<Group>, Error>)
    requires itr.Valid() && AllWellFormed(itr.tokens) && itr.id == 0
    modifies itr
    ensures r == ParseTokens(itr.tokens, AsWritten)
  {
    ghost var tokens := itr.tokens;
    var selectors: seq<Group> := [];
    assert ParseTokens(tokens, AsWritten) == Prepend(selectors, ParseFrom(tokens, itr.id, AsWritten)) by {
      var all := ParseFrom(tokens, 0, AsWritten);
      if all.Success? { assert selectors + all.value == all.value; }
    }
    while itr.CurrentToken().Some?
      invariant itr.Valid() && itr.tokens == tokens && itr.id <= |tokens|
      invariant ParseTokens(tokens, AsWritten) == Prepend(selectors, ParseFrom(tokens, itr.id, AsWritten))
      decreases |tokens| - itr.id
    {
      ghost var i, before := itr.id, selectors;
      var group := ParseSelector(itr);
      if group.Failure? {
        ParseStops(tokens, i, before);
        return Failure(group.error);
      }
      selectors := selectors + [group.value];
      ghost var e := itr.id;
      itr.Burn(WS);
      assert itr.id == e by {
        if e < |tokens| { assert tokens[e].name == COMMA; }
      }
      if itr.CurrentToken().Some? {
        // parse_selector stops only on a COMMA or at the end, so this is never `unexpected`
        assert itr.Name() == Some(COMMA);
        var _ := itr.Next();
      }
      ParseStep(tokens, i, before, group.value, itr.id);
    }
    assert ParseFrom(tokens, itr.id, AsWritten) == Success([]);
    assert selectors + [] == selectors;
    return Success(selectors);
  }

  /** `parse(source)`: lex, then read the groups of the tokens. */
  method Parse(source: string) returns (r: Result<seq<Group>, Error>)
    ensures r == ParseSource(source, AsWritten)
  {
    var lexed := Lexer.Lex(source);
    if lexed.Failure? {
      return Failure(LexFailed);
    }
    var tokens := lexed.value;
    assert AllWellFormed(tokens) by {
      forall k | 0 <= k < |tokens| ensures WellFormed(tokens[k]) {
        assert Lexer.LexemeOk(tokens[k]);
      }
    }
    var itr := new TokenIterator(tokens);
    r := ParseGroups(itr);
  }
}
