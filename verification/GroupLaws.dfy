/** How many groups `parse` returns (cssquery/parser.py), and the blank ones: the `()` of a
    group with no entries is kept, so leading or doubled commas and whitespace-only input
    give empty groups. */
module GroupLaws {
  import opened Wrappers
  import opened Syntax
  import opened TokenCursor
  import opened Grammar
  import opened Padding

  /** A group with no entries (a COMMA or the end right after optional whitespace) is `()`. */
  lemma BlankGroup(ts: seq<Token>, i: nat, reading: Reading)
    requires i <= |ts| && AllWellFormed(ts)
    requires SkipWs(ts, i) == |ts| || ts[SkipWs(ts, i)].name == COMMA
    ensures GroupOps(ts, i, reading) == Success([])
  {
  }

  /** A selector of whitespace alone is one empty group: `parse(' ') == [()]`. */
  lemma BlankSelector(p: seq<Token>, reading: Reading)
    requires AllSpace(p) && p != []
    ensures AllWellFormed(p)
    ensures ParseTokens(p, reading) == Success([[]])
  {
    assert AllWellFormed(p) by {
      forall k | 0 <= k < |p| ensures WellFormed(p[k]) { }
    }
    SpaceRun(p, 0, |p|);
    BlankGroup(p, 0, reading);
    FirstCommaAt(p, 0, |p|);
    ParseFromLast(p, 0, reading);
  }

  /** A selector that starts with a COMMA (after optional whitespace) starts with an empty
      group, and the groups after that COMMA follow it unchanged: `parse(',a')` is `()`
      followed by the groups of `a`. */
  lemma LeadingComma(ts: seq<Token>, s: nat, reading: Reading)
    requires AllWellFormed(ts) && s == SkipWs(ts, 0) && s < |ts| && ts[s].name == COMMA
    ensures ParseTokens(ts, reading) == Join(Success([]), ParseFrom(ts, s + 1, reading))
  {
    BlankGroup(ts, 0, reading);
    FirstCommaAt(ts, 0, s);
    var next := s + 1;
    ParseFromStep(ts, 0, next, reading);
    assert ParseTokens(ts, reading) == Join(GroupOps(ts, 0, reading), ParseFrom(ts, next, reading));
  }

  /** There is one group per COMMA, plus one for the text after the last COMMA unless that
      text is empty: `a,` has one group but `a, ` has two, and blank groups are kept. */
  lemma {:induction false} GroupCount(ts: seq<Token>, i: nat, reading: Reading)
    requires i <= |ts| && AllWellFormed(ts)
    ensures ParseFrom(ts, i, reading).Success? ==>
      |ParseFrom(ts, i, reading).value| == CommasFrom(ts, i) + OpenEnd(ts, i)
    decreases |ts| - i
  {
    if i < |ts| {
      CommasStep(ts, i);
      var e := FirstComma(ts, i);
      if e < |ts| {
        var next := e + 1;
        assert CommasFrom(ts, i) == 1 + CommasFrom(ts, next) && OpenEnd(ts, next) == OpenEnd(ts, i);
        CountStep(ts, i, next, reading);
        GroupCount(ts, next, reading);
      } else {
        assert CommasFrom(ts, i) + OpenEnd(ts, i) == 1;
        CountLast(ts, i, reading);
      }
    }
  }

  /** A group followed by a COMMA adds one group to those after the COMMA. */
  lemma CountStep(ts: seq<Token>, i: nat, next: nat, reading: Reading)
    requires i < |ts| && AllWellFormed(ts) && FirstComma(ts, i) < |ts| && next == FirstComma(ts, i) + 1
    ensures ParseFrom(ts, i, reading).Success? ==>
      ParseFrom(ts, next, reading).Success? && |ParseFrom(ts, i, reading).value| == 1 + |ParseFrom(ts, next, reading).value|
  {
    ParseFromStep(ts, i, next, reading);
    JoinSize(GroupOps(ts, i, reading), ParseFrom(ts, next, reading));
  }

  /** The last group is one group. */
  lemma CountLast(ts: seq<Token>, i: nat, reading: Reading)
    requires i < |ts| && AllWellFormed(ts) && FirstComma(ts, i) == |ts|
    ensures ParseFrom(ts, i, reading).Success? ==> |ParseFrom(ts, i, reading).value| == 1
  {
    ParseFromLast(ts, i, reading);
    JoinSize(GroupOps(ts, i, reading), Success([]));
  }

  /** Putting a group in front adds one group, and succeeds when both parts do. */
  lemma JoinSize(g: Result<Group, Error>, rest: Result<seq<Group>, Error>)
    ensures Join(g, rest).Success? <==> g.Success? && rest.Success?
    ensures Join(g, rest).Success? ==> |Join(g, rest).value| == 1 + |rest.value|
  {
  }
}
