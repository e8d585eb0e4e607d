/** Whitespace around a whole selector (cssquery/parser.py): whitespace tokens in front of
    the selector change nothing, and one after it changes nothing as long as the selector
    parses and does not end with a COMMA. */
module Padding {
  import opened Wrappers
  import opened Syntax
  import opened TokenCursor
  import opened Grammar
  import opened GrammarLaws

  lemma WellFormedConcat(p: seq<Token>, ts: seq<Token>)
    requires AllWellFormed(p) && AllWellFormed(ts)
    ensures AllWellFormed(p + ts)
  {
    forall k | 0 <= k < |p + ts| ensures WellFormed((p + ts)[k]) {
      if k < |p| { assert (p + ts)[k] == p[k]; } else { assert (p + ts)[k] == ts[k - |p|]; }
    }
  }

  predicate AllSpace(p: seq<Token>)
  {
    forall k :: 0 <= k < |p| ==> p[k].name == WS && p[k].value == None
  }

  // ---------------------------------------------------------------- tokens in front

  /** `ts` sits at offset `n` at the end of `qs`. */
  predicate Shifted(qs: seq<Token>, n: nat, ts: seq<Token>)
  {
    |qs| == n + |ts| && forall m :: 0 <= m < |ts| ==> qs[n + m] == ts[m]
  }

  function Moved(r: Result<Read, Error>, n: nat): Result<Read, Error>
  {
    match r
    case Success(rd) => Success(Read(rd.unit, rd.next + n))
    case Failure(e) => Failure(e)
  }

  lemma {:induction false} ShiftRunEnd(qs: seq<Token>, n: nat, ts: seq<Token>, j: nat, qj: nat, k: Kind)
    requires Shifted(qs, n, ts) && j <= |ts| && qj == n + j
    ensures RunEnd(qs, qj, k) == n + RunEnd(ts, j, k)
    decreases |ts| - j
  {
    if j < |ts| {
      assert qs[qj] == ts[j];
      if ts[j].name == k {
        var next, qnext := j + 1, qj + 1;
        ShiftRunEnd(qs, n, ts, next, qnext, k);
      }
    }
  }

  lemma ShiftWs(qs: seq<Token>, n: nat, ts: seq<Token>, j: nat, qj: nat, reading: Reading)
    requires Shifted(qs, n, ts) && j < |ts| && qj == n + j && ts[j].name == WS && AllWellFormed(qs) && AllWellFormed(ts)
    ensures UnitAt(qs, qj, reading) == Moved(UnitAt(ts, j, reading), n)
  {
    assert qs[qj] == ts[j];
    ShiftRunEnd(qs, n, ts, j, qj, WS);
  }

  lemma ShiftComb(qs: seq<Token>, n: nat, ts: seq<Token>, j: nat, qj: nat, reading: Reading)
    requires Shifted(qs, n, ts) && j < |ts| && qj == n + j && ts[j].name in {PLUS, GT, TILDE} && AllWellFormed(qs) && AllWellFormed(ts)
    ensures UnitAt(qs, qj, reading) == Moved(UnitAt(ts, j, reading), n)
  {
    assert qs[qj] == ts[j];
    var next, qnext := j + 1, qj + 1;
    ShiftRunEnd(qs, n, ts, next, qnext, WS);
  }

  lemma ShiftPrefixed(qs: seq<Token>, n: nat, ts: seq<Token>, j: nat, qj: nat, reading: Reading)
    requires Shifted(qs, n, ts) && j < |ts| && qj == n + j && ts[j].name in {SHARP, DOT, COLON} && AllWellFormed(qs) && AllWellFormed(ts)
    ensures UnitAt(qs, qj, reading) == Moved(UnitAt(ts, j, reading), n)
  {
    assert qs[qj] == ts[j];
    if j + 1 < |ts| { assert qs[qj + 1] == ts[j + 1]; }
    if j + 2 < |ts| { assert qs[qj + 2] == ts[j + 2]; }
  }

  lemma ShiftSingle(qs: seq<Token>, n: nat, ts: seq<Token>, j: nat, qj: nat, reading: Reading)
    requires Shifted(qs, n, ts) && j < |ts| && qj == n + j && ts[j].name !in {WS, COMMA, PLUS, GT, TILDE, SHARP, DOT, COLON}
    requires AllWellFormed(qs) && AllWellFormed(ts)
    ensures UnitAt(qs, qj, reading) == Moved(UnitAt(ts, j, reading), n)
  {
    assert qs[qj] == ts[j];
  }

  lemma ShiftUnitAt(qs: seq<Token>, n: nat, ts: seq<Token>, j: nat, qj: nat, reading: Reading)
    requires Shifted(qs, n, ts) && j < |ts| && qj == n + j && ts[j].name != COMMA && AllWellFormed(qs) && AllWellFormed(ts)
    ensures UnitAt(qs, qj, reading) == Moved(UnitAt(ts, j, reading), n)
  {
    var k := ts[j].name;
    if k == WS {
      ShiftWs(qs, n, ts, j, qj, reading);
    } else if k in {PLUS, GT, TILDE} {
      ShiftComb(qs, n, ts, j, qj, reading);
    } else if k in {SHARP, DOT, COLON} {
      ShiftPrefixed(qs, n, ts, j, qj, reading);
    } else {
      ShiftSingle(qs, n, ts, j, qj, reading);
    }
  }

  lemma {:induction false} ShiftFirstComma(qs: seq<Token>, n: nat, ts: seq<Token>, j: nat)
    requires Shifted(qs, n, ts) && j <= |ts|
    ensures FirstComma(qs, n + j) == n + FirstComma(ts, j)
    decreases |ts| - j
  {
    if j < |ts| {
      assert qs[n + j] == ts[j];
      if ts[j].name != COMMA {
        ShiftFirstComma(qs, n, ts, j + 1);
      }
    }
  }

  /** One unit read alike on both sides makes the units from there on alike. */
  lemma ShiftUnitsStep(qs: seq<Token>, n: nat, ts: seq<Token>, j: nat, qj: nat, reading: Reading)
    requires Shifted(qs, n, ts) && j < |ts| && qj == n + j && ts[j].name != COMMA && AllWellFormed(qs) && AllWellFormed(ts)
    requires UnitAt(qs, qj, reading) == Moved(UnitAt(ts, j, reading), n)
    requires UnitAt(ts, j, reading).Success? ==>
      UnitsFrom(qs, UnitAt(qs, qj, reading).value.next, reading) == UnitsFrom(ts, UnitAt(ts, j, reading).value.next, reading)
    ensures UnitsFrom(qs, qj, reading) == UnitsFrom(ts, j, reading)
  {
    assert qs[qj] == ts[j];
    UnitsFromStep(ts, j, reading);
    UnitsFromStep(qs, qj, reading);
  }

  lemma {:induction false} ShiftUnitsFrom(qs: seq<Token>, n: nat, ts: seq<Token>, j: nat, qj: nat, reading: Reading)
    requires Shifted(qs, n, ts) && j <= |ts| && qj == n + j && AllWellFormed(qs) && AllWellFormed(ts)
    ensures UnitsFrom(qs, qj, reading) == UnitsFrom(ts, j, reading)
    decreases |ts| - j
  {
    if j < |ts| && ts[j].name != COMMA {
      ShiftUnitAt(qs, n, ts, j, qj, reading);
      var rd := UnitAt(ts, j, reading);
      if rd.Success? {
        var next := rd.value.next;
        var qnext := UnitAt(qs, qj, reading).value.next;
        ShiftUnitsFrom(qs, n, ts, next, qnext, reading);
      }
      ShiftUnitsStep(qs, n, ts, j, qj, reading);
    } else if j < |ts| {
      assert qs[qj] == ts[j];
    }
  }

  lemma ShiftGroupOps(qs: seq<Token>, n: nat, ts: seq<Token>, i: nat, qi: nat, reading: Reading)
    requires Shifted(qs, n, ts) && i <= |ts| && qi == n + i && AllWellFormed(qs) && AllWellFormed(ts)
    ensures GroupOps(qs, qi, reading) == GroupOps(ts, i, reading)
  {
    ShiftRunEnd(qs, n, ts, i, qi, WS);
    ShiftUnitsFrom(qs, n, ts, SkipWs(ts, i), SkipWs(qs, qi), reading);
  }

  lemma {:induction false} ShiftParseFrom(qs: seq<Token>, n: nat, ts: seq<Token>, i: nat, qi: nat, reading: Reading)
    requires Shifted(qs, n, ts) && i <= |ts| && qi == n + i && AllWellFormed(qs) && AllWellFormed(ts)
    ensures ParseFrom(qs, qi, reading) == ParseFrom(ts, i, reading)
    decreases |ts| - i
  {
    if i < |ts| {
      ShiftGroupOps(qs, n, ts, i, qi, reading);
      var e := FirstComma(ts, i);
      if e < |ts| {
        var next := e + 1;
        var qnext := n + next;
        ShiftParseFrom(qs, n, ts, next, qnext, reading);
        ShiftGroupBeforeComma(qs, n, ts, i, qi, next, qnext, reading);
      } else {
        ShiftGroupAtEnd(qs, n, ts, i, qi, reading);
      }
    }
  }

  /** The group at `i` (at `qi` in `qs`) followed by a COMMA, given that the groups after the
      COMMA shift. */
  lemma ShiftGroupBeforeComma(qs: seq<Token>, n: nat, ts: seq<Token>, i: nat, qi: nat, next: nat, qnext: nat, reading: Reading)
    requires Shifted(qs, n, ts) && i < |ts| && AllWellFormed(qs) && AllWellFormed(ts)
    requires qi == n + i && qnext == n + next
    requires FirstComma(ts, i) < |ts| && next == FirstComma(ts, i) + 1
    requires GroupOps(qs, qi, reading) == GroupOps(ts, i, reading)
    requires ParseFrom(qs, qnext, reading) == ParseFrom(ts, next, reading)
    ensures ParseFrom(qs, qi, reading) == ParseFrom(ts, i, reading)
  {
    ShiftFirstComma(qs, n, ts, i);
    ParseFromStep(ts, i, next, reading);
    ParseFromStep(qs, qi, qnext, reading);
  }

  lemma ShiftGroupAtEnd(qs: seq<Token>, n: nat, ts: seq<Token>, i: nat, qi: nat, reading: Reading)
    requires Shifted(qs, n, ts) && i < |ts| && qi == n + i && AllWellFormed(qs) && AllWellFormed(ts)
    requires FirstComma(ts, i) == |ts|
    requires GroupOps(qs, qi, reading) == GroupOps(ts, i, reading)
    ensures ParseFrom(qs, qi, reading) == ParseFrom(ts, i, reading)
  {
    ShiftFirstComma(qs, n, ts, i);
    ParseFromLast(ts, i, reading);
    ParseFromLast(qs, qi, reading);
  }

  /** Whitespace tokens in front of a non-empty selector change neither what it parses to
      nor the error it raises. (In front of nothing they make one blank group.) */
  lemma PadFront(p: seq<Token>, ts: seq<Token>, reading: Reading)
    requires AllSpace(p) && AllWellFormed(ts) && ts != []
    ensures AllWellFormed(p + ts)
    ensures ParseTokens(p + ts, reading) == ParseTokens(ts, reading)
  {
    WellFormedConcat(p, ts);
    var qs := p + ts;
    var n := |p|;
    assert Shifted(qs, n, ts) by {
      forall m | 0 <= m < |ts| ensures qs[n + m] == ts[m] { }
    }
    forall m | 0 <= m < n ensures qs[m].name == WS { assert qs[m] == p[m]; }
    SpaceRun(qs, 0, n);
    FirstCommaAt(qs, 0, FirstComma(qs, n));
    SameSkip(qs, 0, n, reading);
    ShiftParseFrom(qs, n, ts, 0, n, reading);
    SameStart(qs, 0, n, reading);
  }

  /** A group is read from its first token after the whitespace. */
  lemma SameSkip(ts: seq<Token>, i: nat, i': nat, reading: Reading)
    requires i <= i' <= |ts| && AllWellFormed(ts) && SkipWs(ts, i) == SkipWs(ts, i')
    ensures GroupOps(ts, i, reading) == GroupOps(ts, i', reading)
  {
  }

  /** Two starting points of the same group that skip to the same first unit parse alike. */
  lemma SameStart(ts: seq<Token>, i: nat, i': nat, reading: Reading)
    requires i <= i' < |ts| && AllWellFormed(ts)
    requires GroupOps(ts, i, reading) == GroupOps(ts, i', reading)
    requires FirstComma(ts, i) == FirstComma(ts, i')
    ensures ParseFrom(ts, i, reading) == ParseFrom(ts, i', reading)
  {
    if FirstComma(ts, i) < |ts| {
      SameStartBeforeComma(ts, i, i', reading);
    } else {
      SameStartAtEnd(ts, i, i', reading);
    }
  }

  lemma SameStartBeforeComma(ts: seq<Token>, i: nat, i': nat, reading: Reading)
    requires i <= i' < |ts| && AllWellFormed(ts)
    requires GroupOps(ts, i, reading) == GroupOps(ts, i', reading)
    requires FirstComma(ts, i) == FirstComma(ts, i') < |ts|
    ensures ParseFrom(ts, i, reading) == ParseFrom(ts, i', reading)
  {
    var next := FirstComma(ts, i) + 1;
    ParseFromStep(ts, i, next, reading);
    ParseFromStep(ts, i', next, reading);
  }

  lemma SameStartAtEnd(ts: seq<Token>, i: nat, i': nat, reading: Reading)
    requires i <= i' < |ts| && AllWellFormed(ts)
    requires GroupOps(ts, i, reading) == GroupOps(ts, i', reading)
    requires FirstComma(ts, i) == FirstComma(ts, i') == |ts|
    ensures ParseFrom(ts, i, reading) == ParseFrom(ts, i', reading)
  {
    ParseFromLast(ts, i, reading);
    ParseFromLast(ts, i', reading);
  }

  /** A run of whitespace up to `e` is skipped in one go. */
  lemma {:induction false} SpaceRun(ts: seq<Token>, i: nat, e: nat)
    requires i <= e <= |ts| && forall m :: i <= m < e ==> ts[m].name == WS
    ensures RunEnd(ts, i, WS) == RunEnd(ts, e, WS)
    decreases e - i
  {
    if i < e {
      SpaceRun(ts, i + 1, e);
    }
  }
}
