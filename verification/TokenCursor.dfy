/** `TokenIterator` of cssquery/parser.py: a cursor over the token list whose
    only mutable state is the index `id`. */
module TokenCursor {
  import opened Wrappers
  import opened Syntax

  /** First index at or after `i` whose token is not named `k` (or `i` itself
      when `i` is already past the end). */
  function RunEnd(ts: seq<Token>, i: nat, k: Kind): (e: nat)
    ensures i <= e && (i <= |ts| ==> e <= |ts|)
    ensures forall m :: i <= m < e ==> m < |ts| && ts[m].name == k
    ensures e >= |ts| || ts[e].name != k
    decreases |ts| - i
  {
    if i < |ts| && ts[i].name == k then RunEnd(ts, i + 1, k) else i
  }

  /** `RunEnd` is the only position with a run of `k` tokens before it and no `k` token at it. */
  lemma {:induction false} RunEndAt(ts: seq<Token>, i: nat, e: nat, k: Kind)
    requires i <= e <= |ts|
    requires forall m :: i <= m < e ==> ts[m].name == k
    requires e == |ts| || ts[e].name != k
    ensures RunEnd(ts, i, k) == e
    decreases e - i
  {
    if i < e {
      RunEndAt(ts, i + 1, e, k);
    }
  }

  /** The error `unexpected()` raises when the cursor stands at `j`: its message names the
      token there and its value, and it carries that token's position; at the end of input
      the message is `unexpected EOF` and there is no position. */
  function UnexpectedAt(ts: seq<Token>, j: nat): (e: Error)
    ensures e.Unexpected?
    ensures Message(e) == "unexpected EOF" <==> j >= |ts|
    ensures j < |ts| ==>
      Message(e) == "unexpected token " + KindName(ts[j].name) + (if ts[j].value.Some? then " (" + ts[j].value.value + ")" else "")
    ensures (e.line.Some? <==> j < |ts|) && (e.column.Some? <==> j < |ts|)
    ensures j < |ts| ==> e.line == Some(ts[j].line) && e.column == Some(ts[j].column)
  {
    if j < |ts| then
      var e := Unexpected(Some(ts[j].name), ts[j].value, Some(ts[j].line), Some(ts[j].column));
      assert Message(e)[11] == 't' != "unexpected EOF"[11];
      e
    else Unexpected(None, None, None, None)
  }

  class TokenIterator {
    const tokens: seq<Token>
    const length: nat
    var id: nat

    ghost predicate Valid()
      reads this
    {
      length == |tokens|
    }

    constructor (tokens: seq<Token>)
      ensures Valid() && this.tokens == tokens && id == 0
    {
      this.tokens := tokens;
      this.length := |tokens|;
      this.id := 0;
    }

    /** The `token` property. */
    function CurrentToken(): (t: Option<Token>)
      reads this
      requires Valid()
      ensures t.None? <==> id >= |tokens|
      ensures t.Some? ==> t.value == tokens[id]
    {
      if id < length then Some(tokens[id]) else None
    }

    /** The `name` property. */
    function Name(): (n: Option<Kind>)
      reads this
      requires Valid()
      ensures n.None? <==> id >= |tokens|
      ensures n.Some? ==> n.value == tokens[id].name
    {
      if id < length then Some(tokens[id].name) else None
    }

    /** The `value` property: `None` at the end and for tokens without a value. */
    function Value(): (v: Option<string>)
      reads this
      requires Valid()
      ensures id >= |tokens| ==> v.None?
      ensures id < |tokens| ==> v == tokens[id].value
    {
      if id < length then tokens[id].value else None
    }

    /** The `line` property. */
    function Line(): (l: Option<int>)
      reads this
      requires Valid()
      ensures l.None? <==> id >= |tokens|
      ensures l.Some? ==> l.value == tokens[id].line
    {
      if id < length then Some(tokens[id].line) else None
    }

    /** The `column` property. */
    function Column(): (c: Option<int>)
      reads this
      requires Valid()
      ensures c.None? <==> id >= |tokens|
      ensures c.Some? ==> c.value == tokens[id].column
    {
      if id < length then Some(tokens[id].column) else None
    }

    /** `peek()`: the token after the current one, if there is one. */
    function Peek(): (t: Option<Token>)
      reads this
      requires Valid()
      ensures t.None? <==> id + 1 >= |tokens|
      ensures t.Some? ==> t.value == tokens[id + 1]
    {
      if id + 1 < length then Some(tokens[id + 1]) else None
    }

    /** `next()`: advance by one and return the new current token. */
    method Next() returns (t: Option<Token>)
      requires Valid()
      modifies this
      ensures Valid() && id == old(id) + 1
      ensures t == CurrentToken()
    {
      id := id + 1;
      t := CurrentToken();
    }

    /** `unexpected()`: the error it raises, reporting the current position. */
    function Unexpected(): (e: Error)
      reads this
      requires Valid()
      ensures e.Unexpected? && e.name == Name() && e.value == Value()
      ensures e.line == Line() && e.column == Column()
      ensures id >= |tokens| <==> Message(e) == "unexpected EOF"
    {
      UnexpectedAt(tokens, id)
    }

    /** `expect(name)`: advance by one, then raise unless the new token is named `k`. */
    method Expect(k: Kind) returns (r: Outcome<Error>)
      requires Valid()
      modifies this
      ensures Valid() && id == old(id) + 1
      ensures r.Pass? <==> Name() == Some(k)
      ensures r.Fail? ==> r.error == Unexpected()
    {
      var _ := Next();
      if Name() != Some(k) {
        return Fail(Unexpected());
      }
      return Pass;
    }

    /** `burn(name)`: skip every token named `k` from the current one on. */
    method Burn(k: Kind)
      requires Valid()
      modifies this
      ensures Valid() && id == RunEnd(tokens, old(id), k)
    {
      while Name() == Some(k)
        invariant Valid() && old(id) <= id
        invariant RunEnd(tokens, old(id), k) == RunEnd(tokens, id, k)
        decreases |tokens| - id
      {
        id := id + 1;
      }
    }
  }
}
