/** Whitespace after a selector (cssquery/parser.py): a whitespace token at the end changes
    nothing, provided the selector parses and does not end with a COMMA; together with
    `Padding.PadFront`, padding on both sides changes nothing. */
module Trailing {
  import opened Wrappers
  import opened Syntax
  import opened TokenCursor
  import opened Grammar
  import opened GrammarLaws
  import opened Padding

  /** `qs` is `ts` followed by one whitespace token. */
  predicate Extended(qs: seq<Token>, ts: seq<Token>)
  {
    && |qs| == |ts| + 1
    && qs[|ts|].name == WS && qs[|ts|].value == None
    && forall m :: 0 <= m < |ts| ==> qs[m] == ts[m]
  }

  lemma ExtRunEnd(qs: seq<Token>, ts: seq<Token>, j: nat, k: Kind)
    requires Extended(qs, ts) && j <= |ts|
    ensures RunEnd(ts, j, k) < |ts| ==> RunEnd(qs, j, k) == RunEnd(ts, j, k)
    ensures RunEnd(ts, j, k) == |ts| ==> RunEnd(qs, j, k) == (if k == WS then |ts| + 1 else |ts|)
  {
    var e := RunEnd(ts, j, k);
    forall m | j <= m < e ensures qs[m].name == k { assert qs[m] == ts[m]; }
    if e < |ts| {
      assert qs[e] == ts[e];
      RunEndAt(qs, j, e, k);
    } else if k == WS {
      RunEndAt(qs, j, |qs|, k);
    } else {
      RunEndAt(qs, j, e, k);
    }
  }

  lemma ExtFirstComma(qs: seq<Token>, ts: seq<Token>, j: nat)
    requires Extended(qs, ts) && j <= |ts|
    ensures FirstComma(ts, j) < |ts| ==> FirstComma(qs, j) == FirstComma(ts, j)
    ensures FirstComma(ts, j) == |ts| ==> FirstComma(qs, j) == |qs|
  {
    var e := FirstComma(ts, j);
    if e < |ts| {
      assert qs[e] == ts[e];
      forall m | j <= m < e ensures qs[m].name != COMMA { assert qs[m] == ts[m]; }
      FirstCommaAt(qs, j, e);
    } else {
      forall m | j <= m < |qs| ensures qs[m].name != COMMA {
        if m < |ts| { assert qs[m] == ts[m]; }
      }
      FirstCommaAt(qs, j, |qs|);
    }
  }

  /** How a unit read in `ts` is read in `ts` followed by whitespace: a whitespace run or a
      combinator that reached the end now also takes the new whitespace. */
  function Stretch(r: Result<Read, Error>, n: nat): Result<Read, Error>
  {
    match r
    case Success(rd) => Success(Read(rd.unit, if rd.next == n && !rd.unit.Step? then n + 1 else rd.next))
    case Failure(e) => Failure(e)
  }

  lemma ExtWs(qs: seq<Token>, ts: seq<Token>, j: nat, reading: Reading)
    requires Extended(qs, ts) && j < |ts| && ts[j].name == WS && AllWellFormed(qs) && AllWellFormed(ts)
    ensures UnitAt(qs, j, reading) == Stretch(UnitAt(ts, j, reading), |ts|)
  {
    assert qs[j] == ts[j];
    ExtRunEnd(qs, ts, j, WS);
  }

  lemma ExtComb(qs: seq<Token>, ts: seq<Token>, j: nat, reading: Reading)
    requires Extended(qs, ts) && j < |ts| && ts[j].name in {PLUS, GT, TILDE} && AllWellFormed(qs) && AllWellFormed(ts)
    ensures UnitAt(qs, j, reading) == Stretch(UnitAt(ts, j, reading), |ts|)
  {
    assert qs[j] == ts[j];
    var next := j + 1;
    ExtRunEnd(qs, ts, next, WS);
  }

  lemma ExtPrefixed(qs: seq<Token>, ts: seq<Token>, j: nat, reading: Reading)
    requires Extended(qs, ts) && j < |ts| && ts[j].name in {SHARP, DOT, COLON} && AllWellFormed(qs) && AllWellFormed(ts)
    requires FirstComma(ts, j) < |ts| || UnitAt(ts, j, reading).Success?
    ensures UnitAt(qs, j, reading) == Stretch(UnitAt(ts, j, reading), |ts|)
  {
    assert qs[j] == ts[j];
    if j + 1 < |ts| { assert qs[j + 1] == ts[j + 1]; }
    if j + 2 < |ts| { assert qs[j + 2] == ts[j + 2]; }
  }

  lemma ExtSingle(qs: seq<Token>, ts: seq<Token>, j: nat, reading: Reading)
    requires Extended(qs, ts) && j < |ts| && ts[j].name !in {WS, COMMA, PLUS, GT, TILDE, SHARP, DOT, COLON}
    requires AllWellFormed(qs) && AllWellFormed(ts)
    ensures UnitAt(qs, j, reading) == Stretch(UnitAt(ts, j, reading), |ts|)
  {
    assert qs[j] == ts[j];
  }

  /** One unit, read with and without the trailing whitespace. */
  lemma ExtUnitAt(qs: seq<Token>, ts: seq<Token>, j: nat, reading: Reading)
    requires Extended(qs, ts) && j < |ts| && ts[j].name != COMMA && AllWellFormed(qs) && AllWellFormed(ts)
    requires FirstComma(ts, j) < |ts| || UnitAt(ts, j, reading).Success?
    ensures UnitAt(qs, j, reading) == Stretch(UnitAt(ts, j, reading), |ts|)
  {
    var k := ts[j].name;
    if k == WS {
      ExtWs(qs, ts, j, reading);
    } else if k in {PLUS, GT, TILDE} {
      ExtComb(qs, ts, j, reading);
    } else if k in {SHARP, DOT, COLON} {
      ExtPrefixed(qs, ts, j, reading);
    } else {
      ExtSingle(qs, ts, j, reading);
    }
  }

  /** A unit that is read ends no later than the first COMMA after it, which is also the
      first COMMA after the next unit's start. */
  lemma NextBeforeComma(ts: seq<Token>, j: nat, reading: Reading)
    requires j < |ts| && ts[j].name != COMMA && AllWellFormed(ts) && UnitAt(ts, j, reading).Success?
    ensures UnitAt(ts, j, reading).value.next <= FirstComma(ts, j)
    ensures FirstComma(ts, UnitAt(ts, j, reading).value.next) == FirstComma(ts, j)
  {
    var next, e := UnitAt(ts, j, reading).value.next, FirstComma(ts, j);
    FirstCommaAt(ts, next, e);
  }

  /** In a group followed by a COMMA, the trailing whitespace is never reached. */
  lemma {:induction false} ExtUnitsBeforeComma(qs: seq<Token>, ts: seq<Token>, j: nat, reading: Reading)
    requires Extended(qs, ts) && j <= |ts| && AllWellFormed(qs) && AllWellFormed(ts)
    requires FirstComma(ts, j) < |ts|
    ensures UnitsFrom(qs, j, reading) == UnitsFrom(ts, j, reading)
    decreases |ts| - j
  {
    assert qs[j] == ts[j];
    if ts[j].name != COMMA {
      ExtUnitAt(qs, ts, j, reading);
      var rd := UnitAt(ts, j, reading);
      if rd.Success? {
        NextBeforeComma(ts, j, reading);
        var next := rd.value.next;
        ExtUnitsBeforeComma(qs, ts, next, reading);
      }
      UnitsFromStep(ts, j, reading);
      UnitsFromStep(qs, j, reading);
    }
  }

  /** The units of the last group once whitespace follows it: an extra whitespace unit
      when the group is empty or ends with a step. */
  function Padded(u: seq<Unit>): (r: seq<Unit>)
    ensures r == u || r == u + [Space]
  {
    if u == [] || u[|u| - 1].Step? then u + [Space] else u
  }

  lemma PaddedCons(x: Unit, u: seq<Unit>)
    requires u != []
    ensures [x] + Padded(u) == Padded([x] + u)
  {
    assert ([x] + u)[|[x] + u| - 1] == u[|u| - 1];
    assert [x] + (u + [Space]) == ([x] + u) + [Space];
  }

  /** The extra whitespace unit emits nothing. */
  lemma EmitPadded(pending: bool, u: seq<Unit>)
    ensures Emit(pending, Padded(u)) == Emit(pending, u)
  {
    if u == [] || u[|u| - 1].Step? {
      TrailingSpaceEmitsNothing(pending, u);
    }
  }

  /** The units at the very end, with the whitespace after it. */
  lemma ExtUnitsAtLength(qs: seq<Token>, ts: seq<Token>, reading: Reading)
    requires Extended(qs, ts) && AllWellFormed(qs) && AllWellFormed(ts)
    ensures UnitsFrom(qs, |ts|, reading) == Success([Space])
    ensures UnitsFrom(qs, |qs|, reading) == Success([])
  {
    var n := |ts|;
    ExtRunEnd(qs, ts, n, WS);
    UnitsFromStep(qs, n, reading);
    assert [Space] + [] == [Space];
  }

  /** One unit of the last group, then the rest of it, with the whitespace after it. */
  lemma ExtUnitsCons(qs: seq<Token>, ts: seq<Token>, j: nat, reading: Reading)
    requires Extended(qs, ts) && j < |ts| && ts[j].name != COMMA && AllWellFormed(qs) && AllWellFormed(ts)
    requires UnitAt(ts, j, reading).Success?
    requires UnitAt(qs, j, reading) == Stretch(UnitAt(ts, j, reading), |ts|)
    requires FirstComma(ts, UnitAt(ts, j, reading).value.next) == |ts|
    requires UnitsFrom(ts, UnitAt(ts, j, reading).value.next, reading).Success?
    requires UnitsFrom(qs, UnitAt(ts, j, reading).value.next, reading)
          == Success(Padded(UnitsFrom(ts, UnitAt(ts, j, reading).value.next, reading).value))
    ensures UnitsFrom(ts, j, reading).Success?
    ensures UnitsFrom(qs, j, reading) == Success(Padded(UnitsFrom(ts, j, reading).value))
  {
    var rd := UnitAt(ts, j, reading).value;
    var rest := UnitsFrom(ts, rd.next, reading).value;
    UnitsFromStep(ts, j, reading);
    UnitsFromStep(qs, j, reading);
    if rd.next < |ts| {
      assert rest != [];
      PaddedCons(rd.unit, rest);
    } else if rd.unit.Step? {
      ExtUnitsAtLength(qs, ts, reading);
      assert [rd.unit] + [Space] == ([rd.unit] + []) + [Space];
    } else {
      ExtUnitsAtLength(qs, ts, reading);
      assert [rd.unit] + [] == [rd.unit];
    }
  }

  /** In the last group, the trailing whitespace only adds a whitespace unit at the end. */
  lemma {:induction false} ExtUnitsAtEnd(qs: seq<Token>, ts: seq<Token>, j: nat, reading: Reading)
    requires Extended(qs, ts) && j <= |ts| && AllWellFormed(qs) && AllWellFormed(ts)
    requires FirstComma(ts, j) == |ts| && UnitsFrom(ts, j, reading).Success?
    ensures UnitsFrom(qs, j, reading) == Success(Padded(UnitsFrom(ts, j, reading).value))
    decreases |ts| - j
  {
    if j == |ts| {
      ExtUnitsAtLength(qs, ts, reading);
      assert Padded([]) == [Space];
    } else {
      UnitsFromStep(ts, j, reading);
      ExtUnitAt(qs, ts, j, reading);
      NextBeforeComma(ts, j, reading);
      var next := UnitAt(ts, j, reading).value.next;
      ExtUnitsAtEnd(qs, ts, next, reading);
      ExtUnitsCons(qs, ts, j, reading);
    }
  }

  lemma ExtGroupBeforeComma(qs: seq<Token>, ts: seq<Token>, i: nat, reading: Reading)
    requires Extended(qs, ts) && i <= |ts| && AllWellFormed(qs) && AllWellFormed(ts)
    requires FirstComma(ts, i) < |ts|
    ensures GroupOps(qs, i, reading) == GroupOps(ts, i, reading)
  {
    var s := SkipWs(ts, i);
    var e := FirstComma(ts, i);
    ExtRunEnd(qs, ts, i, WS);
    FirstCommaAt(ts, s, e);
    ExtUnitsBeforeComma(qs, ts, s, reading);
  }

  lemma ExtGroupAtEnd(qs: seq<Token>, ts: seq<Token>, i: nat, reading: Reading)
    requires Extended(qs, ts) && i <= |ts| && AllWellFormed(qs) && AllWellFormed(ts)
    requires FirstComma(ts, i) == |ts| && GroupOps(ts, i, reading).Success?
    ensures GroupOps(qs, i, reading) == GroupOps(ts, i, reading)
  {
    var s := SkipWs(ts, i);
    ExtRunEnd(qs, ts, i, WS);
    if s < |ts| {
      FirstCommaAt(ts, s, |ts|);
      ExtUnitsAtEnd(qs, ts, s, reading);
      EmitPadded(reading == AsWritten, UnitsFrom(ts, s, reading).value);
    } else {
      ExtUnitsAtLength(qs, ts, reading);
    }
  }

  /** The groups from `i` on, with and without the trailing whitespace. */
  lemma {:induction false} ExtParseFrom(qs: seq<Token>, ts: seq<Token>, i: nat, reading: Reading)
    requires Extended(qs, ts) && i < |ts| && AllWellFormed(qs) && AllWellFormed(ts)
    requires ts[|ts| - 1].name != COMMA && ParseFrom(ts, i, reading).Success?
    ensures ParseFrom(qs, i, reading) == ParseFrom(ts, i, reading)
    decreases |ts| - i
  {
    var e := FirstComma(ts, i);
    ExtFirstComma(qs, ts, i);
    if e < |ts| {
      var next := e + 1;
      ParseFromStep(ts, i, next, reading);
      ParseFromStep(qs, i, next, reading);
      ExtGroupBeforeComma(qs, ts, i, reading);
      ExtParseFrom(qs, ts, next, reading);
    } else {
      ParseFromLast(ts, i, reading);
      ParseFromLast(qs, i, reading);
      ExtGroupAtEnd(qs, ts, i, reading);
    }
  }

  /** A whitespace token after a selector that parses and does not end with a COMMA
      changes nothing (`a` and `a ` give the same groups; `a,` and `a, ` do not). */
  lemma PadBack(ts: seq<Token>, w: Token, reading: Reading)
    requires AllWellFormed(ts) && ts != [] && ts[|ts| - 1].name != COMMA
    requires w.name == WS && w.value == None
    requires ParseTokens(ts, reading).Success?
    ensures AllWellFormed(ts + [w])
    ensures ParseTokens(ts + [w], reading) == ParseTokens(ts, reading)
  {
    var qs := ts + [w];
    assert Extended(qs, ts) by {
      forall m | 0 <= m < |ts| ensures qs[m] == ts[m] { }
    }
    WellFormedConcat(ts, [w]);
    ExtParseFrom(qs, ts, 0, reading);
  }

  /** The tokens before the last of a run of whitespace are whitespace, and a selector
      followed by them does not end with a COMMA. */
  lemma SpaceInit(ts: seq<Token>, s: seq<Token>)
    requires ts != [] && ts[|ts| - 1].name != COMMA && AllSpace(s) && s != []
    ensures AllSpace(s[..|s| - 1])
    ensures var us := ts + s[..|s| - 1]; us != [] && us[|us| - 1].name != COMMA
    ensures ts + s == (ts + s[..|s| - 1]) + [s[|s| - 1]]
  {
    var init := s[..|s| - 1];
    forall k | 0 <= k < |init| ensures init[k] == s[k] { }
    var us := ts + init;
    if init != [] {
      assert us[|us| - 1] == s[|init| - 1];
    } else {
      assert us == ts;
    }
    assert s == init + [s[|s| - 1]];
  }

  /** Any run of whitespace tokens after such a selector changes nothing. */
  lemma {:induction false} PadBackAll(ts: seq<Token>, s: seq<Token>, reading: Reading)
    requires AllWellFormed(ts) && ts != [] && ts[|ts| - 1].name != COMMA && AllSpace(s)
    requires ParseTokens(ts, reading).Success?
    ensures AllWellFormed(ts + s)
    ensures ParseTokens(ts + s, reading) == ParseTokens(ts, reading)
    decreases |s|
  {
    if s == [] {
      assert ts + s == ts;
    } else {
      SpaceInit(ts, s);
      var us, w := ts + s[..|s| - 1], s[|s| - 1];
      PadBackAll(ts, s[..|s| - 1], reading);
      PadBack(us, w, reading);
    }
  }

  /** Padding a selector that parses and does not end with a COMMA with whitespace on
      both sides changes nothing: `' a '` gives the groups of `'a'`. */
  lemma Pad(p: seq<Token>, ts: seq<Token>, s: seq<Token>, reading: Reading)
    requires AllSpace(p) && AllSpace(s) && AllWellFormed(ts) && ts != [] && ts[|ts| - 1].name != COMMA
    requires ParseTokens(ts, reading).Success?
    ensures AllWellFormed(p + ts + s)
    ensures ParseTokens(p + ts + s, reading) == ParseTokens(ts, reading)
  {
    PadBackAll(ts, s, reading);
    PadFront(p, ts + s, reading);
    assert p + ts + s == p + (ts + s);
  }
}
