# cssquery: the selector front end, the pseudo transforms and the result set, in Dafny

This project models the core of cssquery, a Python library that runs CSS-like selectors
over arbitrary object trees. Three parts are modelled.

- **The selector front end** (`cssquery/parser.py`):
  - the token rules of `SELECTOR_SYNTAX`, written as a scanner that counts bracket depth
    (`Lexer`);
  - the `TokenIterator` cursor, as a class whose only mutable field is `id`
    (`TokenCursor`);
  - the loop parsers `parse_selector` and `parse` (`Parser`).

  Each loop method is proved equal to a declarative grammar (`Grammar`). The grammar
  reads a group as a list of *units*: a whitespace run, a combinator, or a step.
  `Emit` then turns the units into `OP` entries. The laws about that grammar are in
  `GrammarLaws`, `GroupLaws`, `Padding` and `Trailing`.
- **The pseudo-class and function transforms** (`cssquery/pseudo.py`): `first`, `last`
  and `nth-child` over a finite stream of candidates, with the `PSEUDO`/`FUNCTIONS`
  registries (`Pseudo`).
- **The insertion-ordered set `_objset`** and the loop of `PrecompiledSelector.query`
  that fills one such set from every selector (`Query`).

The grammar has a `Reading` parameter:
- `AsWritten` is what the Python code does;
- `Intended` is what its tests expect.

They differ in two places, listed under "## Findings". The parser methods are proved
against `AsWritten`.

Where the code and the library's documented behaviour differ, the model follows the code:
- An empty group `()` is kept in the result of `parse`. So whitespace-only input,
  leading commas and doubled commas all give empty groups.
- `a,` gives one group, but `a, ` gives two: a COMMA opens a new group only if a token
  follows it (`GroupLaws.GroupCount`).
- A trailing combinator stays in its group (`a >` gives `[CHILD, TAG a, CHILD_DIRECT]`
  as written).
- The `unexpected()` call after a group in `parse` (cssquery/parser.py:192-193) cannot
  be reached: `parse_selector` only stops at a COMMA or at the end. The loop in
  `Parser.ParseGroups` asserts that the token there is a COMMA instead of modelling the
  raise.
- `parse_selector`'s `terminator` is always `'COMMA'` and `selectors` is always `None`,
  because `parse` is its only caller. The model fixes both.
- Python's `is` comparisons of token names are taken as equality.
- Whitespace padding changes nothing only under conditions (`Padding.PadFront`,
  `Trailing.Pad`):
  - in front: the selector must not be empty;
  - after: the selector must parse and must not end with a COMMA.

  Otherwise `a:p` (fails as written) and `a:p ` (parses) differ, `#` and `# ` fail
  with different tokens, and `a,` and `a, ` differ as above.

## Model

| member | source | states |
|---|---|---|
| TokenCursor.RunEnd | cssquery/parser.py:106-108 | the first index at or after `i` whose token is not named `k`; every token skipped is named `k` |
| TokenCursor.UnexpectedAt | cssquery/parser.py:98-104 | the message is `unexpected EOF` exactly at the end of input, and otherwise `unexpected token NAME` followed by ` (value)` when the token has a value; the error has a line and column exactly when a token is there, and they are that token's |
| TokenCursor.TokenIterator.constructor | cssquery/parser.py:60-63 | a new cursor stands at index 0 of the given tokens |
| TokenCursor.TokenIterator.CurrentToken | cssquery/parser.py:69-71 | `None` exactly when `id >= length`, otherwise the token at `id` |
| TokenCursor.TokenIterator.Name | cssquery/parser.py:73-75 | `None` exactly when `id >= length`, otherwise the current token's name |
| TokenCursor.TokenIterator.Value | cssquery/parser.py:77-79 | `None` at the end, otherwise the current token's value |
| TokenCursor.TokenIterator.Line | cssquery/parser.py:81-83 | `None` exactly at the end, otherwise the current token's line |
| TokenCursor.TokenIterator.Column | cssquery/parser.py:85-87 | `None` exactly at the end, otherwise the current token's column |
| TokenCursor.TokenIterator.Peek | cssquery/parser.py:89-90 | the token at `id + 1`, or `None` when there is none |
| TokenCursor.TokenIterator.Next | cssquery/parser.py:65-67 | `id` grows by exactly one and the new current token is returned |
| TokenCursor.TokenIterator.Unexpected | cssquery/parser.py:98-104 | the error reports the current name, value, line and column; its message is `unexpected EOF` exactly at the end of input |
| TokenCursor.TokenIterator.Expect | cssquery/parser.py:92-96 | advances by one, and passes exactly when the new current token is named `k`, otherwise raises `unexpected()` there |
| TokenCursor.TokenIterator.Burn | cssquery/parser.py:106-108 | moves `id` to the end of the run of tokens named `k` and changes nothing else |
| Lexer.WsEnd | cssquery/parser.py:37 | the whitespace rule takes the longest run of ` \t\r\n` |
| Lexer.IdentEnd | cssquery/parser.py:51 | the identifier rule takes the longest run of identifier characters |
| Lexer.MatchCloseSound | cssquery/parser.py:54-55 | the bracket found closes a body that is balanced for its own bracket kind |
| Lexer.MatchCloseComplete | cssquery/parser.py:54-55 | a balanced body followed by its closing bracket is always found, at that bracket |
| Lexer.ScanBracket | cssquery/parser.py:54-55 | an EVAL/FNARGS token's value `v` is balanced and `open + v + close` is exactly the consumed text; no match means that no closing bracket ends a balanced body |
| Lexer.BracketSpells | cssquery/parser.py:54-55 | a bracket lexeme spells `open + v + close` for a balanced `v` |
| Lexer.ScanOne | cssquery/parser.py:36-56 | one rule matches at a position, chosen by its first character in the listed order; the consumed text spells the token (whitespace run, single punctuation, identifier not starting with a digit, bracket body); no rule matches exactly when the character starts no rule, or when it is a `[` or `(` that no closing bracket ends with a balanced body |
| Lexer.LexFrom | cssquery/parser.py:36-56 | every token carries a value exactly when its rule passes one on, IDENT values are identifiers, bracket values are balanced, and no two whitespace or identifier tokens are adjacent |
| Lexer.LexIdent | cssquery/parser.py:51 | a lone identifier lexes to one IDENT token carrying its text |
| Lexer.LexEvalRoundTrip | cssquery/parser.py:54 | `[v]` with balanced `v` lexes to one EVAL token whose value is `v` |
| Lexer.LexArgsRoundTrip | cssquery/parser.py:55 | `(v)` with balanced `v` lexes to one FNARGS token whose value is `v` |
| Grammar.FirstComma | cssquery/parser.py:118 | a group ends at the first COMMA at or after its start, or at the end of input |
| Grammar.CombinatorOf | cssquery/parser.py:125-148 | `+`, `>` and `~` map to combinator operations other than CHILD |
| Grammar.UnitAt | cssquery/parser.py:119-171 | the unit read at `j`: a whitespace unit exactly for WS; steps are never combinators; a read never crosses a COMMA and always makes progress |
| Grammar.UnitAtSeparator | cssquery/parser.py:119-148 | whitespace and combinators take the whitespace after them |
| Grammar.UnitsFrom | cssquery/parser.py:118-171 | the units of a group are empty exactly at a COMMA or the end, and start with a whitespace unit exactly at a WS token |
| Grammar.CommasStep | cssquery/parser.py:187-196 | the COMMA count and the open end, seen from the group after the first COMMA |
| Grammar.ParseFromStep | cssquery/parser.py:187-196 | the groups from a group that ends at a COMMA are that group followed by the groups after the COMMA; the first error stops them |
| Grammar.ParseFromLast | cssquery/parser.py:187-196 | the groups from the last group are that group alone, or its error |
| Grammar.EmitAppend | cssquery/parser.py:117-174 | the entries of a unit list are computed unit by unit, carrying only whether a CHILD is pending |
| Grammar.UnitsFromStep | cssquery/parser.py:118-171 | reading a group is reading one unit, then the rest of the group |
| Parser.Advance | cssquery/parser.py:117-171 | one pass of the loop reads one unit, keeps the loop state in step with the units read, and stays inside the same group |
| Parser.AdvanceOps | cssquery/parser.py:117-171 | one pass of the loop keeps `selectors` and `pushed_child` in step with the units read so far |
| Parser.ReadSeparator | cssquery/parser.py:119-148 | the whitespace and combinator branches read exactly the unit `UnitAt` describes and update `selectors` as the grammar says |
| Parser.ReadStep | cssquery/parser.py:149-168 | the step branches yield the operation `UnitAt` describes, or its error; `:ident` at the very end raises AttributeError |
| Parser.ReadUnit | cssquery/parser.py:117-171 | one pass of the `parse_selector` loop either reads the next unit of the group, keeping the loop state, or stops with the error the whole group raises |
| Parser.ParseSelector | cssquery/parser.py:111-176 | `parse_selector` returns the group the grammar gives, as written, and leaves the cursor on the COMMA that ends it |
| Parser.ParseStep | cssquery/parser.py:187-194 | one pass of `parse`'s loop appends the group and moves past its COMMA |
| Parser.ParseStops | cssquery/parser.py:189 | a group that raises stops `parse` with its error |
| Parser.ParseGroups | cssquery/parser.py:185-196 | the loop of `parse` returns the groups the grammar gives, as written |
| Parser.Parse | cssquery/parser.py:179-196 | `parse(source)` is lexing followed by the grammar; a lexer failure becomes a CssQueryError |
| GrammarLaws.TrailingSpaceEmitsNothing | cssquery/parser.py:173-174 | whitespace at the end of a group leaves no CHILD |
| GrammarLaws.SpaceBetweenStepsIsOneChild | cssquery/parser.py:119-124 | whitespace between two steps becomes exactly one CHILD between them |
| GrammarLaws.CombinatorDropsPendingChild | cssquery/parser.py:125-148 | a combinator replaces the CHILD that whitespace before it pushed |
| GrammarLaws.UnitsFromOk | cssquery/parser.py:119-168 | steps are never combinators and combinator units are `+`, `>` or `~` |
| GrammarLaws.EmitChildBeforeStep | cssquery/parser.py:119-174 | every CHILD emitted is directly followed by a step |
| GrammarLaws.GroupChildBeforeStep | cssquery/parser.py:111-176 | every group `parse_selector` returns keeps each CHILD directly in front of a step |
| GrammarLaws.UnitAtReadings | cssquery/parser.py:161-166 | the two readings read the same unit except where the code raises AttributeError, which the intended reading never does |
| GrammarLaws.UnitsFromReadings | cssquery/parser.py:118-171 | the same for a whole group |
| GrammarLaws.FirstUnit | cssquery/parser.py:115-118 | after the leading whitespace, a group's first unit is a step exactly when its first token is not a COMMA or a combinator |
| GrammarLaws.GroupSentinel | cssquery/parser.py:112-113 | as written, a group that starts with a step keeps the `(CHILD,)` sentinel in front of the intended entries; any other group is the intended one, except that a lone combinator becomes `()` |
| GrammarLaws.EmitSentinel | cssquery/parser.py:112-124 | a pending CHILD before a leading step adds exactly one CHILD; before anything else it adds nothing |
| GroupLaws.BlankGroup | cssquery/parser.py:176 | a group with no entries is `()` |
| GroupLaws.BlankSelector | cssquery/parser.py:187-196 | whitespace-only input is one empty group |
| GroupLaws.LeadingComma | cssquery/parser.py:187-196 | a leading COMMA gives an empty first group followed by the groups after it |
| GroupLaws.GroupCount | cssquery/parser.py:187-196 | on success `parse` returns one group per COMMA, plus one unless the input after the last COMMA is empty |
| GroupLaws.CountStep | cssquery/parser.py:187-194 | a group that ends at a COMMA adds one group to those after it |
| Padding.ShiftUnitAt | cssquery/parser.py:119-171 | a unit read after leading tokens is the same unit, moved by their number |
| Padding.ShiftParseFrom | cssquery/parser.py:187-196 | the groups read after leading tokens are the same groups |
| Padding.PadFront | tests/test_parser.py:10-17 | whitespace in front of a non-empty selector changes nothing |
| Trailing.ExtUnitAt | cssquery/parser.py:119-171 | with whitespace appended, a unit is read the same, except that a whitespace run or combinator reaching the end also takes the new whitespace |
| Trailing.ExtUnitsAtEnd | cssquery/parser.py:119-124 | the last group gains at most a trailing whitespace unit |
| Trailing.EmitPadded | cssquery/parser.py:173-174 | that whitespace unit emits nothing |
| Trailing.ExtParseFrom | cssquery/parser.py:187-196 | appended whitespace leaves every group of a selector that parses and does not end with a COMMA unchanged |
| Trailing.PadBack | tests/test_parser.py:10-17 | one whitespace token after such a selector changes nothing |
| Trailing.PadBackAll | tests/test_parser.py:10-17 | any run of whitespace tokens after it changes nothing |
| Trailing.Pad | tests/test_parser.py:10-27 | whitespace on both sides of such a selector changes nothing |
| Findings.SingleTag | cssquery/parser.py:111-176 | a lone tag gives `[[CHILD, TAG t]]` as written and `[[TAG t]]` as intended |
| Findings.SentinelSurvives | cssquery/parser.py:112-113 | as written, `parse('a')` is `[[(CHILD,), (TAG, 'a')]]` |
| Findings.IntendedTag | tests/test_parser.py:24-27 | as intended, `parse('a')` is `[[(TAG, 'a')]]` |
| Findings.PseudoAtEndFails | cssquery/parser.py:163 | as written, `a:p` with nothing after it raises AttributeError |
| Findings.PaddedPseudoParses | cssquery/parser.py:161-166 | `a:p ` parses (sentinel aside) |
| Findings.IntendedPseudoAtEnd | tests/test_parser.py:75-79 | as intended, `a:p` gives `[[TAG a, PSEUDO p]]` with or without trailing whitespace |
| Pseudo.First | cssquery/pseudo.py:1-2 | yields exactly the first element and draws one; an empty stream raises |
| Pseudo.Last | cssquery/pseudo.py:5-8 | drains the stream and yields its final element; an empty stream never binds `x` and raises |
| Pseudo.Nth | cssquery/pseudo.py:11-19 | `n < 0` yields nothing and draws nothing; `0 <= n < len` yields the element at `n` and stops right after it; otherwise the stream is drained and nothing is yielded |
| Pseudo.LastIsNthAtEnd | cssquery/pseudo.py:5-19 | `last` yields and draws what `nth-child(len - 1)` does |
| Pseudo.NthZeroIsFirst | cssquery/pseudo.py:1-19 | `nth-child(0)` yields and draws what `first` does |
| Pseudo.ApplyPseudo | cssquery/pseudo.py:22-25 | exactly `first` and `last` are pseudo-classes, bound to their transforms |
| Pseudo.ApplyFunction | cssquery/pseudo.py:28-30 | exactly `nth-child` is a function, bound to its transform |
| Pseudo.RegisteredPick | cssquery/pseudo.py:1-30 | every registered transform yields at most one element, taken from what it drew |
| Query.KeyOf | cssquery/query.py:62-69 | truthy hashable objects are identified by hash-equality, all others by identity |
| Query.DedupSnoc | cssquery/query.py:61-71 | adding an object keeps what was there and appends it only if its key is new |
| Query.DedupKeys | cssquery/query.py:61-71 | every key that was added is kept |
| Query.DedupDistinct | cssquery/query.py:61-71 | no two items share a key |
| Query.DedupFrom | cssquery/query.py:71 | every item is an object that was added |
| Query.DedupPrefix | cssquery/query.py:71 | later additions only append: earlier items stay, in first-occurrence order |
| Query.DedupOfDistinct | cssquery/query.py:61-71 | adding objects with pairwise different keys keeps them all, in order |
| Query.DedupIdempotent | cssquery/query.py:61-71 | adding the items again to a fresh set gives the same items |
| Query.ObjSet.constructor | cssquery/query.py:56-59 | a fresh set has empty `items`, `_ids` and `_hashed` |
| Query.ObjSet.Add | cssquery/query.py:61-71 | a seen key changes nothing; a new key appends the object and records its key in `_hashed` or `_ids`; `len(items) == len(_hashed) + len(_ids)` is kept |
| Query.AddSeen | cssquery/query.py:62-69 | an object whose key was seen leaves the items and key sets a summary of the longer history |
| Query.AddHashed | cssquery/query.py:62-71 | a truthy hashable object with a new hash is appended and its hash recorded, keeping one key per item |
| Query.AddIdent | cssquery/query.py:66-71 | any other object with a new identity is appended and its identity recorded, keeping one key per item |
| Query.AddEach | cssquery/query.py:111-112 | the objects one selector's `_subquery` matches are added to the shared set, in order |
| Query.QueryAll | cssquery/query.py:106-114 | the result holds the objects all selectors add, duplicate-free and in order of first match |
| Query.EarlierSelectorsFirst | cssquery/query.py:106-114 | what the earlier selectors contribute stays at the front of the result |

## Left out

- The flexicon lexer engine, its `row`/`col` bookkeeping and the text of its error (cssquery/parser.py:1, 32-36): the scanner in `Lexer` stands in for it. Lines and columns are its own 1-based count, and a failure is `LexFailed` with no message text from the engine (`Syntax.Message` is defined only for the errors `unexpected()` raises).
- The `(?R)` recursive patterns (cssquery/parser.py:54-55) are modelled as depth counting for each bracket kind on its own. Any other interplay between the patterns inside flexicon is not modelled.
- `OP` is a datatype rather than the dynamic `enum` of cssquery/util.py.
- Trailing.Pad: proved on tokens, not on source text, and only for a selector that parses and does not end with a COMMA. Without these conditions the property does not hold (see the notes above).
- Padding.PadFront: proved on tokens, not on source text.
- The capability hooks `_get_tag`, `_get_children`, `_get_id`, `_get_class` and `_get_attr` (cssquery/query.py:7-52) are not modelled. They probe Python attributes.
- `_subquery`, `COMBINATORS`, `precompile` and `query` (cssquery/query.py:74-124) are not modelled. The code is unfinished: the loop at line 97 has no body, `csp` is undefined and `COMBINATORS` is empty. Compilation also calls into the external `cssselect` and caching uses `functools.lru_cache`. Query.QueryAll therefore takes, for each selector, the sequence of objects its sub-query adds.
- Query.ObjSet.Add: Python's hash-and-equality set membership is modelled as equality of an integer key. Objects that are equal but hash differently are not modelled. An object's truth value and hash are given as plain values, so `add` never fails in the model: `bool(obj)` raising (a numpy array, say) or `hash(obj)` raising although `__hash__` is set (a tuple holding a list) is not modelled (cssquery/query.py:62-63).
- EVAL expression text is never evaluated; it stays a string.
- `int(args)` in `_f_nth` (cssquery/pseudo.py:12) is Python integer parsing. Pseudo.Nth takes the integer `n` directly.
- Generators are modelled as finite sequences. Laziness, and streams that never end, are not modelled. A run is what the generator yields plus how many elements it drew.
- Pseudo.First: the StopIteration raised by `next()` on an empty stream is modelled as the error `NextOnEmpty`. Inside a generator, Python reports it as RuntimeError.
- setup.py is packaging only.

## Findings

| source | as written | input that shows it | evidently intended | confidence | as-written member | corrected member |
|---|---|---|---|---|---|---|
| cssquery/parser.py:112-113 | every group is seeded with `(CHILD,)`, and the sentinel survives unless a leading combinator pops it | `parse('a')` gives `[[(CHILD,), (TAG, 'a')]]` | `[[(TAG, 'a')]]`, as tests/test_parser.py:24-27 expects | not executed | Findings.SentinelSurvives | Findings.IntendedTag |
| cssquery/parser.py:163 | `itr.peek().name` is read when `peek()` returns None | `parse('a:p')`, with nothing after the pseudo-class, raises AttributeError | `[[(TAG, 'a'), (PSEUDO, 'p')]]`, as for `a:p ` | not executed | Findings.PseudoAtEndFails | Findings.IntendedPseudoAtEnd |
