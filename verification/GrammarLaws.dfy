/** Properties of the group grammar of cssquery/parser.py: how whitespace and combinators
    turn into CHILD entries, the `(CHILD,)` sentinel, the number of groups, and padding. */
module GrammarLaws {
  import opened Wrappers
  import opened Syntax
  import opened TokenCursor
  import opened Grammar

  /** Emitting one unit, written out. */
  lemma EmitCons(pending: bool, x: Unit, rest: seq<Unit>)
    ensures x.Space? ==> Emit(pending, [x] + rest) == Emit(true, rest)
    ensures x.Comb? ==> Emit(pending, [x] + rest) == [x.op] + Emit(false, rest)
    ensures x.Step? ==> Emit(pending, [x] + rest) == (if pending then [CHILD] else []) + [x.op] + Emit(false, rest)
  {
    assert ([x] + rest)[0] == x;
    assert ([x] + rest)[1..] == rest;
  }

  /** Whitespace at the end of a group (before its COMMA or the end of input) leaves no CHILD. */
  lemma {:induction false} TrailingSpaceEmitsNothing(pending: bool, u: seq<Unit>)
    ensures Emit(pending, u + [Space]) == Emit(pending, u)
  {
    EmitAppend(pending, u, [Space]);
    EmitUnit(PendingAfter(pending, u), Space);
    assert Emit(pending, u) + [] == Emit(pending, u);
  }

  /** Whitespace between two steps becomes exactly one CHILD between their operations. */
  lemma {:induction false} SpaceBetweenStepsIsOneChild(pending: bool, before: seq<Unit>, a: Op, b: Op, after: seq<Unit>)
    ensures Emit(pending, before + [Step(a), Space, Step(b)] + after)
         == Emit(pending, before + [Step(a)]) + [CHILD, b] + Emit(false, after)
  {
    var u := before + [Step(a), Space, Step(b)] + after;
    assert u == (before + [Step(a)]) + ([Space] + ([Step(b)] + after));
    EmitAppend(pending, before + [Step(a)], [Space] + ([Step(b)] + after));
    assert PendingAfter(pending, before + [Step(a)]) == false;
    EmitCons(false, Space, [Step(b)] + after);
    EmitCons(true, Step(b), after);
  }

  /** A combinator replaces the CHILD that whitespace in front of it would have become:
      whitespace then `+`, `>` or `~` emits only the combinator. */
  lemma {:induction false} CombinatorDropsPendingChild(pending: bool, before: seq<Unit>, op: Op, after: seq<Unit>)
    ensures Emit(pending, before + [Space, Comb(op)] + after)
         == Emit(pending, before) + [op] + Emit(false, after)
  {
    var u := before + [Space, Comb(op)] + after;
    assert u == before + ([Space] + ([Comb(op)] + after));
    EmitAppend(pending, before, [Space] + ([Comb(op)] + after));
    EmitCons(PendingAfter(pending, before), Space, [Comb(op)] + after);
    EmitCons(true, Comb(op), after);
  }

  /** Every unit list read from tokens is well formed: steps are not combinators, and
      combinator units are `+`, `>` or `~`. */
  lemma {:induction false} UnitsFromOk(ts: seq<Token>, j: nat, reading: Reading)
    requires j <= |ts| && AllWellFormed(ts)
    ensures UnitsFrom(ts, j, reading).Success? ==> UnitsOk(UnitsFrom(ts, j, reading).value)
    decreases |ts| - j
  {
    if j < |ts| && ts[j].name != COMMA && UnitAt(ts, j, reading).Success? {
      var rd := UnitAt(ts, j, reading).value;
      UnitsFromOk(ts, rd.next, reading);
      var rest := UnitsFrom(ts, rd.next, reading);
      if rest.Success? {
        var u := [rd.unit] + rest.value;
        assert UnitsFrom(ts, j, reading).value == u;
        forall k | 0 <= k < |u|
          ensures u[k].Step? ==> !IsCombinator(u[k].op)
          ensures u[k].Comb? ==> IsCombinator(u[k].op) && u[k].op != CHILD
        {
          if k > 0 { assert u[k] == rest.value[k - 1]; }
        }
      }
    }
  }

  /** Every CHILD entry is directly followed by a step (never by a combinator, another
      CHILD, or the end of the group). */
  ghost predicate ChildBeforeStep(ops: seq<Op>)
  {
    forall k :: 0 <= k < |ops| && ops[k] == CHILD ==> k + 1 < |ops| && !IsCombinator(ops[k + 1])
  }

  lemma ChildBeforeStepCons(x: Op, ops: seq<Op>)
    requires x != CHILD && ChildBeforeStep(ops)
    ensures ChildBeforeStep([x] + ops)
  {
    forall k | 0 <= k < |[x] + ops| && ([x] + ops)[k] == CHILD
      ensures k + 1 < |[x] + ops| && !IsCombinator(([x] + ops)[k + 1])
    {
      assert k > 0 && ([x] + ops)[k] == ops[k - 1];
    }
  }

  /** The operations emitted from well-formed units keep every CHILD in front of a step. */
  lemma {:induction false} EmitChildBeforeStep(pending: bool, u: seq<Unit>)
    requires UnitsOk(u)
    ensures ChildBeforeStep(Emit(pending, u))
    decreases |u|
  {
    if u != [] {
      var x, rest := u[0], u[1..];
      assert u == [x] + rest;
      assert UnitsOk(rest) by {
        forall k | 0 <= k < |rest| ensures rest[k] == u[k + 1] { }
      }
      EmitCons(pending, x, rest);
      EmitChildBeforeStep(x.Space?, rest);
      assert !x.Space? ==> ChildBeforeStep(Emit(false, rest));
      if x.Comb? {
        assert u[0].Comb?;
        ChildBeforeStepCons(x.op, Emit(false, rest));
      } else if x.Step? {
        assert u[0].Step?;
        ChildBeforeStepCons(x.op, Emit(false, rest));
        if pending {
          var ops := [CHILD] + ([x.op] + Emit(false, rest));
          assert Emit(pending, u) == ops;
          forall k | 0 <= k < |ops| && ops[k] == CHILD
            ensures k + 1 < |ops| && !IsCombinator(ops[k + 1])
          {
            if k > 0 { assert ops[k] == ([x.op] + Emit(false, rest))[k - 1]; }
          }
        } else {
          assert Emit(pending, u) == [x.op] + Emit(false, rest);
        }
      }
    }
  }

  /** Every group `parse_selector` returns keeps each CHILD in front of a step. */
  lemma GroupChildBeforeStep(ts: seq<Token>, i: nat, reading: Reading)
    requires i <= |ts| && AllWellFormed(ts)
    ensures GroupOps(ts, i, reading).Success? ==> ChildBeforeStep(GroupOps(ts, i, reading).value)
  {
    var u := UnitsFrom(ts, SkipWs(ts, i), reading);
    if u.Success? {
      UnitsFromOk(ts, SkipWs(ts, i), reading);
      EmitChildBeforeStep(reading == AsWritten, u.value);
    }
  }

  /** The two readings read the same unit, except where the code raises `AttributeError`. */
  lemma UnitAtReadings(ts: seq<Token>, j: nat)
    requires j < |ts| && ts[j].name != COMMA && AllWellFormed(ts)
    ensures UnitAt(ts, j, Intended) != Failure(AttributeError)
    ensures UnitAt(ts, j, AsWritten) != Failure(AttributeError) ==> UnitAt(ts, j, Intended) == UnitAt(ts, j, AsWritten)
  {
  }

  /** The readings agree on the units of a group unless the code raises `AttributeError`,
      which the intended reading never does. */
  lemma {:induction false} UnitsFromReadings(ts: seq<Token>, j: nat)
    requires j <= |ts| && AllWellFormed(ts)
    ensures UnitsFrom(ts, j, Intended) != Failure(AttributeError)
    ensures UnitsFrom(ts, j, AsWritten) != Failure(AttributeError) ==> UnitsFrom(ts, j, Intended) == UnitsFrom(ts, j, AsWritten)
    decreases |ts| - j
  {
    if j < |ts| && ts[j].name != COMMA {
      UnitAtReadings(ts, j);
      UnitsFromStep(ts, j, AsWritten);
      UnitsFromStep(ts, j, Intended);
      var rd := UnitAt(ts, j, Intended);
      if rd.Success? {
        UnitsFromReadings(ts, rd.value.next);
      }
    }
  }

  /** The first unit of a group is a step exactly when its first token after whitespace
      is neither a COMMA nor a combinator (and the group is not at the end). */
  predicate StartsWithStep(ts: seq<Token>, s: nat)
  {
    s < |ts| && ts[s].name !in {COMMA, PLUS, GT, TILDE}
  }

  lemma FirstUnit(ts: seq<Token>, j: nat, reading: Reading)
    requires j <= |ts| && AllWellFormed(ts) && (j == |ts| || ts[j].name != WS)
    requires UnitsFrom(ts, j, reading).Success?
    ensures var u := UnitsFrom(ts, j, reading).value;
      && (u == [] <==> j == |ts| || ts[j].name == COMMA)
      && (u != [] ==> (u[0].Step? <==> StartsWithStep(ts, j)) && !u[0].Space?)
  {
    if j < |ts| && ts[j].name != COMMA {
      UnitsFromStep(ts, j, reading);
      UnitAtSeparator(ts, j, reading);
    }
  }

  /** What the `(CHILD,)` sentinel does, as written: a group that starts with a step keeps
      it in front of the intended operations; any other group is the intended one, except
      that a group made of one combinator alone is dropped to `()`. */
  lemma {:induction false} GroupSentinel(ts: seq<Token>, i: nat)
    requires i <= |ts| && AllWellFormed(ts)
    requires GroupOps(ts, i, AsWritten) != Failure(AttributeError)
    ensures var w, n := GroupOps(ts, i, AsWritten), GroupOps(ts, i, Intended);
      && (w.Failure? ==> n == w)
      && (w.Success? && StartsWithStep(ts, SkipWs(ts, i)) ==> n.Success? && n.value != [] && w.value == [CHILD] + n.value)
      && (w.Success? && !StartsWithStep(ts, SkipWs(ts, i)) ==> n.Success? && w.value == (if |n.value| > 1 then n.value else []))
  {
    var s := SkipWs(ts, i);
    UnitsFromReadings(ts, s);
    var u := UnitsFrom(ts, s, AsWritten);
    if u.Success? {
      FirstUnit(ts, s, AsWritten);
      EmitSentinel(u.value);
    }
  }

  /** The sentinel on a unit list that does not start with whitespace: a leading step gets
      a CHILD in front, which also makes the list long enough to keep; otherwise the two
      readings emit the same operations. */
  lemma EmitSentinel(x: seq<Unit>)
    requires x == [] || !x[0].Space?
    ensures x != [] && x[0].Step? ==>
      var n := Emit(false, x); n != [] && Emit(true, x) == [CHILD] + n && |Emit(true, x)| > 1
    ensures x == [] || !x[0].Step? ==> Emit(true, x) == Emit(false, x)
  {
    if x != [] {
      assert x == [x[0]] + x[1..];
      EmitCons(true, x[0], x[1..]);
      EmitCons(false, x[0], x[1..]);
    }
  }
}
