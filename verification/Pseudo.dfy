/** The pseudo-class and function transforms of cssquery/pseudo.py. Each is a generator
    over a stream of candidates; a stream is modelled as a finite sequence, and a run as
    what the generator yields together with how many candidates it draws from the stream. */
module Pseudo {
  import opened Wrappers

  /** The elements a transform yields and the number of input elements it consumes. */
  datatype Run<T> = Run(yielded: seq<T>, consumed: nat)

  /** Why a transform raises: `next()` on an empty stream (the StopIteration escapes the
      generator, which Python reports as RuntimeError), or `x` read before the loop ever
      bound it (UnboundLocalError). */
  datatype StreamError = NextOnEmpty | Unbound

  /** A run takes at most one element, and that element is one of the consumed ones. */
  ghost predicate Picks<T>(s: seq<T>, r: Run<T>)
  {
    && r.consumed <= |s|
    && |r.yielded| <= 1
    && (r.yielded != [] ==> r.yielded[0] in s[..r.consumed])
  }

  /** `_p_first`: yields the first element, drawing nothing further; an empty stream raises. */
  function First<T>(s: seq<T>): (r: Result<Run<T>, StreamError>)
    ensures r.Failure? <==> s == []
    ensures r.Failure? ==> r.error == NextOnEmpty
    ensures r.Success? ==> Picks(s, r.value) && r.value.yielded == [s[0]] && r.value.consumed == 1
  {
    if s == [] then Failure(NextOnEmpty) else Success(Run([s[0]], 1))
  }

  /** What `_p_last` computes: it drains the stream and yields its final element; an empty
      stream never binds `x`. */
  function LastOf<T>(s: seq<T>): Result<Run<T>, StreamError>
  {
    if s == [] then Failure(Unbound) else Success(Run([s[|s| - 1]], |s|))
  }

  /** `_p_last`, loop by loop: `x` holds the element most recently drawn. */
  method Last<T>(s: seq<T>) returns (r: Result<Run<T>, StreamError>)
    ensures r == LastOf(s)
    ensures r.Failure? <==> s == []
    ensures r.Success? ==> Picks(s, r.value) && r.value.consumed == |s|
  {
    var x: Option<T> := None;
    var i := 0;
    while i < |s|
      invariant 0 <= i <= |s|
      invariant x.None? <==> i == 0
      invariant i > 0 ==> x == Some(s[i - 1])
    {
      x := Some(s[i]);
      i := i + 1;
    }
    match x
    case None => r := Failure(Unbound);
    case Some(v) =>
      assert v == s[|s| - 1] && v in s[..|s|];
      r := Success(Run([v], i));
  }

  /** What `_f_nth` computes for `n = int(args)`: a negative `n` draws nothing; otherwise the
      element at zero-based index `n` is yielded and the stream is left right after it, and
      a stream that ends first is drained with nothing yielded. */
  function NthOf<T>(s: seq<T>, n: int): Run<T>
  {
    if n < 0 then Run([], 0)
    else if n < |s| then Run([s[n]], n + 1)
    else Run([], |s|)
  }

  /** `_f_nth`'s loop: `i` counts the elements drawn without a match, and the loop stops
      right after yielding. */
  method Nth<T>(s: seq<T>, n: int) returns (r: Run<T>)
    ensures r == NthOf(s, n)
    ensures Picks(s, r)
    ensures r.yielded != [] <==> 0 <= n < |s|
  {
    if n < 0 {
      return Run([], 0);
    }
    var yielded: seq<T> := [];
    var consumed := 0;
    var i := 0;
    while consumed < |s|
      invariant 0 <= consumed <= |s|
      invariant i == consumed && i <= n
      invariant yielded == []
    {
      var x := s[consumed];
      consumed := consumed + 1;
      if i == n {
        yielded := [x];
        break;
      }
      i := i + 1;
    }
    r := Run(yielded, consumed);
    assert yielded != [] ==> yielded[0] == s[n] && s[n] in s[..consumed];
  }

  /** `_p_last` yields the element `nth-child` yields at the last index, after drawing the
      same elements. */
  lemma LastIsNthAtEnd<T>(s: seq<T>)
    requires s != []
    ensures LastOf(s) == Success(NthOf(s, |s| - 1))
  {
  }

  /** `nth-child(0)` yields what `:first` yields. */
  lemma NthZeroIsFirst<T>(s: seq<T>)
    requires s != []
    ensures First(s) == Success(NthOf(s, 0))
  {
  }

  /** The names under which the transforms are registered. */
  datatype PseudoClass = FirstClass | LastClass
  datatype PseudoFunction = NthChild

  /** The `PSEUDO` and `FUNCTIONS` registries. */
  const PSEUDO: map<string, PseudoClass> := map["first" := FirstClass, "last" := LastClass]
  const FUNCTIONS: map<string, PseudoFunction> := map["nth-child" := NthChild]

  /** A pseudo-class looked up by name, run over a stream. */
  function ApplyPseudo<T>(name: string, s: seq<T>): (r: Option<Result<Run<T>, StreamError>>)
    ensures r.Some? <==> name == "first" || name == "last"
    ensures name == "first" ==> r == Some(First(s))
    ensures name == "last" ==> r == Some(LastOf(s))
  {
    if name in PSEUDO then
      Some(match PSEUDO[name]
        case FirstClass => First(s)
        case LastClass => LastOf(s))
    else None
  }

  /** A function looked up by name, run over a stream with its already-converted argument. */
  function ApplyFunction<T>(name: string, s: seq<T>, n: int): (r: Option<Run<T>>)
    ensures r.Some? <==> name == "nth-child"
    ensures r.Some? ==> r.value == NthOf(s, n)
  {
    if name in FUNCTIONS then
      Some(match FUNCTIONS[name]
        case NthChild => NthOf(s, n))
    else None
  }

  /** Every registered transform yields at most one element, taken from its input. */
  lemma RegisteredPick<T>(name: string, s: seq<T>, n: int)
    ensures ApplyPseudo(name, s).Some? && ApplyPseudo(name, s).value.Success? ==> Picks(s, ApplyPseudo(name, s).value.value)
    ensures ApplyFunction(name, s, n).Some? ==> Picks(s, ApplyFunction(name, s, n).value)
  {
    if name == "last" && s != [] {
      assert s[|s| - 1] in s[..|s|];
    }
    if name == "nth-child" && 0 <= n < |s| {
      assert s[n] in s[..n + 1];
    }
  }
}
