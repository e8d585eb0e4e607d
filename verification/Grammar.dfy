/** What `parse_selector` and `parse` (cssquery/parser.py) compute, stated as functions
    on the token list. The token stream is first read as a list of units (a whitespace
    run, a combinator with the whitespace after it, or a step), and the operations of a
    group are then emitted from the units. */
module Grammar {
  import opened Wrappers
  import opened Syntax
  import opened TokenCursor
  import Lexer

  /** `AsWritten` is the code as it stands. `Intended` is the behaviour its tests
      expect: no leading `(CHILD,)` sentinel, and `:ident` as the last token is a
      pseudo-class instead of an `AttributeError`. */
  datatype Reading = AsWritten | Intended

  datatype Unit = Space | Comb(op: Op) | Step(op: Op)

  predicate UnitsOk(u: seq<Unit>)
  {
    && (forall k :: 0 <= k < |u| && u[k].Step? ==> !IsCombinator(u[k].op))
    && (forall k :: 0 <= k < |u| && u[k].Comb? ==> IsCombinator(u[k].op) && u[k].op != CHILD)
  }

  function SkipWs(ts: seq<Token>, i: nat): nat
  {
    RunEnd(ts, i, WS)
  }

  /** The first COMMA at or after `i`: where a group that starts at `i` ends. */
  function FirstComma(ts: seq<Token>, i: nat): (e: nat)
    requires i <= |ts|
    ensures i <= e <= |ts|
    ensures forall m :: i <= m < e ==> ts[m].name != COMMA
    ensures e == |ts| || ts[e].name == COMMA
    decreases |ts| - i
  {
    if i == |ts| || ts[i].name == COMMA then i else FirstComma(ts, i + 1)
  }

  /** One unit read at `j`, and the position where the next unit starts. */
  datatype Read = Read(unit: Unit, next: nat)

  /** The combinator operation of a `+`, `>` or `~` token. */
  function CombinatorOf(k: Kind): (op: Op)
    requires k == PLUS || k == GT || k == TILDE
    ensures IsCombinator(op) && op != CHILD
  {
    if k == PLUS then SIBLING_DIRECT else if k == GT then CHILD_DIRECT else SIBLING
  }

  /** The unit that starts at token `j`, or the error its tokens raise. A whitespace run
      and a combinator take the whitespace after them along; `#`, `.` and `:` need an
      IDENT right after them, and `:ident` takes an FNARGS right after it. */
  function UnitAt(ts: seq<Token>, j: nat, reading: Reading): (r: Result<Read, Error>)
    requires j < |ts| && ts[j].name != COMMA && AllWellFormed(ts)
    ensures r.Success? ==> j < r.value.next <= |ts|
    ensures r.Success? ==> (r.value.unit.Space? <==> ts[j].name == WS)
    ensures r.Success? && r.value.unit.Space? ==> r.value.next == |ts| || ts[r.value.next].name != WS
    ensures r.Success? && r.value.unit.Step? ==> !IsCombinator(r.value.unit.op)
    ensures r.Success? && r.value.unit.Comb? ==> IsCombinator(r.value.unit.op) && r.value.unit.op != CHILD
    ensures r.Success? ==> forall m :: j <= m < r.value.next ==> ts[m].name != COMMA
  {
    match ts[j].name
    case WS => Success(Read(Space, SkipWs(ts, j)))
    case PLUS => Success(Read(Comb(CombinatorOf(PLUS)), SkipWs(ts, j + 1)))
    case GT => Success(Read(Comb(CombinatorOf(GT)), SkipWs(ts, j + 1)))
    case TILDE => Success(Read(Comb(CombinatorOf(TILDE)), SkipWs(ts, j + 1)))
    case STAR => Success(Read(Step(ANY), j + 1))
    case IDENT => Success(Read(Step(TAG(ts[j].value.value)), j + 1))
    case EVAL => Success(Read(Step(EVAL_OP(ts[j].value.value)), j + 1))
    case SHARP =>
      if j + 1 < |ts| && ts[j + 1].name == IDENT then Success(Read(Step(ID(ts[j + 1].value.value)), j + 2))
      else Failure(UnexpectedAt(ts, j + 1))
    case DOT =>
      if j + 1 < |ts| && ts[j + 1].name == IDENT then Success(Read(Step(CLASS(ts[j + 1].value.value)), j + 2))
      else Failure(UnexpectedAt(ts, j + 1))
    case COLON =>
      if j + 1 < |ts| && ts[j + 1].name == IDENT then
        if j + 2 < |ts| && ts[j + 2].name == FNARGS then
          Success(Read(Step(FN(ts[j + 1].value.value, ts[j + 2].value.value)), j + 3))
        else if j + 2 < |ts| || reading == Intended then
          Success(Read(Step(PSEUDO(ts[j + 1].value.value)), j + 2))
        else Failure(AttributeError)
      else Failure(UnexpectedAt(ts, j + 1))
    case _ => Failure(UnexpectedAt(ts, j))
  }

  /** The whitespace and combinator cases of `UnitAt`. */
  lemma UnitAtSeparator(ts: seq<Token>, j: nat, reading: Reading)
    requires j < |ts| && AllWellFormed(ts)
    ensures ts[j].name == WS ==> UnitAt(ts, j, reading) == Success(Read(Space, RunEnd(ts, j, WS)))
    ensures ts[j].name in {PLUS, GT, TILDE} ==>
      UnitAt(ts, j, reading) == Success(Read(Comb(CombinatorOf(ts[j].name)), RunEnd(ts, j + 1, WS)))
  {
  }

  /** The units of the group that continues at `j`, up to the next COMMA or the end;
      the first error met on the way, if any. */
  function UnitsFrom(ts: seq<Token>, j: nat, reading: Reading): (r: Result<seq<Unit>, Error>)
    requires j <= |ts| && AllWellFormed(ts)
    ensures r.Success? ==> (r.value == [] <==> j == |ts| || ts[j].name == COMMA)
    ensures r.Success? && r.value != [] ==> (r.value[0].Space? <==> ts[j].name == WS)
    decreases |ts| - j
  {
    if j == |ts| || ts[j].name == COMMA then Success([])
    else
      var rd :- UnitAt(ts, j, reading);
      var rest :- UnitsFrom(ts, rd.next, reading);
      Success([rd.unit] + rest)
  }

  /** The operations of a list of units. `pending` says that a whitespace run (or, as
      written, the group's start) waits for the next unit: it becomes one CHILD when a
      step follows and vanishes before a combinator or the end. */
  function Emit(pending: bool, u: seq<Unit>): seq<Op>
    decreases |u|
  {
    if u == [] then []
    else match u[0]
      case Space => Emit(true, u[1..])
      case Comb(op) => [op] + Emit(false, u[1..])
      case Step(op) => (if pending then [CHILD] else []) + [op] + Emit(false, u[1..])
  }

  /** The group that starts at `i`. As written the group starts with a pending CHILD
      (the sentinel) and is returned only with more than one entry; otherwise `()`. */
  function GroupOps(ts: seq<Token>, i: nat, reading: Reading): Result<Group, Error>
    requires i <= |ts| && AllWellFormed(ts)
  {
    var u :- UnitsFrom(ts, SkipWs(ts, i), reading);
    var ops := Emit(reading == AsWritten, u);
    var keep := if reading == AsWritten then |ops| > 1 else |ops| > 0;
    Success(if keep then ops else [])
  }

  /** The number of COMMA tokens from `i` on. */
  function CommasFrom(ts: seq<Token>, i: nat): nat
    requires i <= |ts|
    decreases |ts| - i
  {
    if i == |ts| then 0 else (if ts[i].name == COMMA then 1 else 0) + CommasFrom(ts, i + 1)
  }

  lemma {:induction false} CommasUpToFirst(ts: seq<Token>, i: nat)
    requires i <= |ts|
    ensures FirstComma(ts, i) < |ts| ==> CommasFrom(ts, i) == 1 + CommasFrom(ts, FirstComma(ts, i) + 1)
    ensures FirstComma(ts, i) == |ts| ==> CommasFrom(ts, i) == 0
    decreases |ts| - i
  {
    if i < |ts| && ts[i].name != COMMA {
      CommasUpToFirst(ts, i + 1);
    }
  }

  /** Whether the tokens from `i` on are non-empty and do not end with a COMMA. */
  function OpenEnd(ts: seq<Token>, i: nat): nat
  {
    if i < |ts| && ts[|ts| - 1].name != COMMA then 1 else 0
  }

  /** The COMMA count and the open end, seen from the group after the first COMMA. */
  lemma CommasStep(ts: seq<Token>, i: nat)
    requires i < |ts|
    ensures FirstComma(ts, i) < |ts| ==>
      && CommasFrom(ts, i) == 1 + CommasFrom(ts, FirstComma(ts, i) + 1)
      && OpenEnd(ts, FirstComma(ts, i) + 1) == OpenEnd(ts, i)
    ensures FirstComma(ts, i) == |ts| ==> CommasFrom(ts, i) == 0 && OpenEnd(ts, i) == 1
  {
    var e := FirstComma(ts, i);
    CommasUpToFirst(ts, i);
    if e < |ts| {
      assert e + 1 < |ts| || ts[|ts| - 1].name == COMMA;
    } else {
      assert ts[|ts| - 1].name != COMMA;
    }
  }

  /** The groups from position `i` on: one group, then, after its COMMA, the rest. */
  function ParseFrom(ts: seq<Token>, i: nat, reading: Reading): Result<seq<Group>, Error>
    requires i <= |ts| && AllWellFormed(ts)
    decreases |ts| - i
  {
    if i == |ts| then Success([])
    else
      var g :- GroupOps(ts, i, reading);
      var e := FirstComma(ts, i);
      if e < |ts| then
        var rest :- ParseFrom(ts, e + 1, reading);
        Success([g] + rest)
      else Success([g])
  }

  /** A group put in front of the groups that follow it. */
  function Join(g: Result<Group, Error>, rest: Result<seq<Group>, Error>): Result<seq<Group>, Error>
  {
    match g
    case Failure(e) => Failure(e)
    case Success(x) =>
      match rest
      case Failure(e) => Failure(e)
      case Success(more) => Success([x] + more)
  }

  /** `ParseFrom` at a group followed by a COMMA: the group, then the groups from `next`,
      just after that COMMA. */
  lemma ParseFromStep(ts: seq<Token>, i: nat, next: nat, reading: Reading)
    requires i < |ts| && AllWellFormed(ts) && FirstComma(ts, i) < |ts| && next == FirstComma(ts, i) + 1
    ensures ParseFrom(ts, i, reading) == Join(GroupOps(ts, i, reading), ParseFrom(ts, next, reading))
  {
    var g := GroupOps(ts, i, reading);
    if g.Success? {
      var rest := ParseFrom(ts, next, reading);
      if rest.Success? {
        assert ParseFrom(ts, i, reading) == Success([g.value] + rest.value);
      } else {
        assert ParseFrom(ts, i, reading) == Failure(rest.error);
      }
    } else {
      assert ParseFrom(ts, i, reading) == Failure(g.error);
    }
  }

  /** `ParseFrom` at the last group. */
  lemma ParseFromLast(ts: seq<Token>, i: nat, reading: Reading)
    requires i < |ts| && AllWellFormed(ts) && FirstComma(ts, i) == |ts|
    ensures ParseFrom(ts, i, reading) == Join(GroupOps(ts, i, reading), Success([]))
  {
    if GroupOps(ts, i, reading).Success? {
      assert [GroupOps(ts, i, reading).value] + [] == [GroupOps(ts, i, reading).value];
    }
  }

  function ParseTokens(ts: seq<Token>, reading: Reading): Result<seq<Group>, Error>
    requires AllWellFormed(ts)
  {
    ParseFrom(ts, 0, reading)
  }

  /** `parse(source)`. */
  function ParseSource(source: string, reading: Reading): Result<seq<Group>, Error>
  {
    match Lexer.Lex(source)
    case Failure(_) => Failure(LexFailed)
    case Success(ts) =>
      assert AllWellFormed(ts) by {
        forall k | 0 <= k < |ts| ensures WellFormed(ts[k]) {
          assert Lexer.LexemeOk(ts[k]);
        }
      }
      ParseTokens(ts, reading)
  }

  /** `FirstComma` is the only position that has no COMMA before it and a COMMA
      (or the end) at it. */
  lemma {:induction false} FirstCommaAt(ts: seq<Token>, i: nat, e: nat)
    requires i <= e <= |ts|
    requires forall m :: i <= m < e ==> ts[m].name != COMMA
    requires e == |ts| || ts[e].name == COMMA
    ensures FirstComma(ts, i) == e
    decreases e - i
  {
    if i < e {
      FirstCommaAt(ts, i + 1, e);
    }
  }

  /** Whether a whitespace run is still pending after the units `u`, read from `pending`. */
  function PendingAfter(pending: bool, u: seq<Unit>): bool
  {
    if u == [] then pending else u[|u| - 1].Space?
  }

  /** Emitting is done unit by unit: the operations of `a + b` are those of `a`
      followed by those of `b`, read with what `a` leaves pending. */
  lemma {:induction false} EmitAppend(pending: bool, a: seq<Unit>, b: seq<Unit>)
    ensures Emit(pending, a + b) == Emit(pending, a) + Emit(PendingAfter(pending, a), b)
    decreases |a|
  {
    if a != [] {
      assert (a + b)[0] == a[0];
      assert (a + b)[1..] == a[1..] + b;
      var p' := a[0].Space?;
      EmitAppend(p', a[1..], b);
      assert PendingAfter(p', a[1..]) == PendingAfter(pending, a);
      var head := match a[0]
        case Space => []
        case Comb(op) => [op]
        case Step(op) => (if pending then [CHILD] else []) + [op];
      assert Emit(pending, a) == head + Emit(p', a[1..]);
      assert Emit(pending, a + b) == head + Emit(p', a[1..] + b);
    } else {
      assert a + b == b;
    }
  }

  /** The operations of a single unit. */
  lemma EmitUnit(pending: bool, u: Unit)
    ensures u.Space? ==> Emit(pending, [u]) == []
    ensures u.Comb? ==> Emit(pending, [u]) == [u.op]
    ensures u.Step? ==> Emit(pending, [u]) == (if pending then [CHILD] else []) + [u.op]
  {
    assert [u][1..] == [];
  }

  /** The units read so far in front of the units still to come, or the error that stops them. */
  function Glue(done: seq<Unit>, rest: Result<seq<Unit>, Error>): (r: Result<seq<Unit>, Error>)
    ensures rest.Failure? ==> r == rest
    ensures rest.Success? ==> r == Success(done + rest.value)
  {
    match rest
    case Success(more) => Success(done + more)
    case Failure(e) => Failure(e)
  }

  /** Reading the units at `j` is reading one unit and then the units after it. */
  lemma UnitsFromStep(ts: seq<Token>, j: nat, reading: Reading)
    requires j < |ts| && ts[j].name != COMMA && AllWellFormed(ts)
    ensures var rd := UnitAt(ts, j, reading);
      && (rd.Failure? ==> UnitsFrom(ts, j, reading) == Failure(rd.error))
      && (rd.Success? ==> UnitsFrom(ts, j, reading) == Glue([rd.value.unit], UnitsFrom(ts, rd.value.next, reading)))
  {
  }

  lemma GlueGlue(done: seq<Unit>, u: Unit, rest: Result<seq<Unit>, Error>)
    ensures Glue(done, Glue([u], rest)) == Glue(done + [u], rest)
  {
    if rest.Success? {
      assert done + ([u] + rest.value) == (done + [u]) + rest.value;
    }
  }
}
