# FluentMdx core in Dafny

This project models the core of FluentMdx, a C# library that reads an MDX
query (the query language of multidimensional OLAP cubes), builds an object
tree for it and writes the tree back out as text. The model covers the whole
pipeline and proves properties of each stage:

- **Lexer** (`lexer.dfy`, `patterns.dfy`, `mdx_rules.dfy`). An ordered-rule
  tokenizer that is generic over its rule table. At each offset it skips a
  space or takes the FIRST rule whose match starts exactly there. It swallows
  ignored matches, fails with `Unrecognized symbol 'c'.` on an unmatched
  character, and ends with one `LastToken` sentinel.
  - `MdxRules` instantiates the 28-rule table of `Lexer.cs`. Each regular
    expression becomes a small `Pattern`: a character class, ordered literal
    alternatives, the axis-name or date shape, a number, or an identifier.
    Matching is case-insensitive (ASCII).
  - `Lexer.TokenizeLoop` is the imperative scanning loop. It is proved equal to
    the functional `Lexer.Tokenize`.
- **Tokens** (`tokens.dfy`). The token kinds, the `(kind, value)` token and
  its `Kind[value]` text form.
- **Cursors** (`twoway_cursor.dfy`, `stated_cursor.dfy`). The buffered
  two-way enumerator, and the backtracking enumerator with its stack of
  displacement counters, as pure state-transition functions. The wrapped
  one-way enumerator is the finite sequence it would yield, and it is taken to
  be restartable (see `Reset` under "Left out").
- **Object tree** (`nodes.dfy`, `containers.dfy`, `queries.dfy`). The node
  classes are immutable datatypes. Each fluent mutator returns the updated
  value, and each `GetStringExpression` is a rendering function. A rendering
  that throws yields `Failure`.
- **Parser** (`parser.dfy`, `parser_properties.dfy`). Each `TryParseX` rule
  is a pure function `(tokens, position) -> Option<Parsed<node>>`. A failed
  rule returns `None` and so leaves the position where it was. This is the
  save/restore discipline that `StatedCursor.RollbackExact` justifies for the
  cursor. `Parser.ParseQuery` is the public entry point: trim, tokenize,
  parse, then demand the sentinel.

Where the code disagrees with itself or with its tests, the model follows the
code as follows:

- **WITH clause.** The parser stores each `WITH` declaration on the query
  (`MdxParser.cs:80-84`). `MdxQuery.cs` has no declaration list and no such
  `With` overload, and its rendering (`MdxQuery.cs:108-132`) prints no `WITH`
  part. The model stores declarations on the query and never renders them.
- **Function in a WHERE clause.** The axis slicer wraps a parsed function into
  a tuple (`MdxParser.cs:610-612`). The WHERE clause instead casts it to
  `MdxTuple` (`MdxParser.cs:168-172`), which throws (see Findings).
- **Set folding.** Only `MdxSet.With` folds flat children into a tuple
  (`MdxSet.cs:34-124`). The fold keeps members and then functions, and drops
  ranges. The tuple that `Mdx.Tuple()` returns only appends.
- **Stale tests.** These tests disagree with the code:
  - `MdxParserTests.cs:66-80` expects a WHERE clause to print back unwrapped,
    but the code always wraps it (`RoundTrips.WhereMemberRoundTrip`).
  - `LexerTests.cs:54` expects `1` to lex as an identifier, but the number rule
    comes first in the table.
  - `MdxParserPartsTests.cs:33`, `:71` and `:109` call parser rules that
    `MdxParser.cs` does not define.
- **Keyed members.** The parser reads navigation functions after a key
  (`MdxParser.cs:551-561`), but `MdxValueMember.cs:24-27` never prints them.
  So `[A].&[1].CHILDREN` prints back as `[A].&[1]`
  (`Nodes.KeyedMemberIgnoresFunctions`).

The snapshot is mid-refactor, and the model reads it as follows:

- **Tuples.** `MdxTuple` is declared abstract, without a `With` method or a
  rendering of its own, yet `Mdx.Tuple()` instantiates it and the parser and
  `MdxSet` call `With` on it with every kind of child. The model therefore has
  one tuple type whose `With` appends any child, rendered `{ c1, c2 }` like
  the typed tuples. An empty one renders `{  }`; that is the model's choice,
  since the typed tuples throw on an empty list instead.
- **Typed containers.** `MdxMemberTuple`, `MdxSetTuple`, `MdxMemberSet` and
  `MdxTupleSet` share one container type with a `Shape`.
- **Members.** A member is an identifier plus a key: none, one value, or a
  range of two values.
- **Null strings.** Unset strings (a constant's value, a navigation title, an
  axis title) render as empty text, as `string.Format` does.

## Model

| member | source | states |
|---|---|---|
| Tokens.TokenToString | BalticAmadeus.FluentMdx/Lexer/Token.cs:33-36 | a token's text is its kind's name, then `[`, then the value, then `]`, with the length adding up exactly |
| Tokens.KindNameRoundTrip | BalticAmadeus.FluentMdx/Lexer/TokenType.cs:6-164 | every token kind's printed name reads back as that same kind, so the names are distinct |
| Tokens.KindNameHasNoBracket | BalticAmadeus.FluentMdx/Lexer/TokenType.cs:6-164 | no kind name contains `[`, so the first `[` of a token's text ends the kind |
| Tokens.ParseTokenStringRoundTrip | BalticAmadeus.FluentMdx/Lexer/Token.cs:23-36 | a token's text reads back as exactly the stored kind and value |
| Tokens.TokenToStringInjective | BalticAmadeus.FluentMdx/Lexer/Token.cs:35 | two tokens have equal text if and only if they have equal kind and value |
| Tokens.FirstBracket | BalticAmadeus.FluentMdx/Lexer/Token.cs:35 | finds the first `[` of a text, or reports that there is none |
| Lexer.FirstMatch | BalticAmadeus.FluentMdx/Lexer/Lexer.cs:80-90 | the chosen rule matches at the position, and every rule before it in table order does not; no rule is chosen exactly when none matches |
| Lexer.FirstMatchSkips | BalticAmadeus.FluentMdx/Lexer/Lexer.cs:80-85 | rules that do not match at the position can be skipped without changing the choice |
| Lexer.NextPiece | BalticAmadeus.FluentMdx/Lexer/Lexer.cs:71-100 | one step of the scan covers a non-empty stretch starting at the position. It fails exactly on a non-space character that no rule matches |
| Lexer.PieceEnd | BalticAmadeus.FluentMdx/Lexer/Lexer.cs:73-100 | each step strictly advances the position and stays inside the input |
| Lexer.PieceFacts | BalticAmadeus.FluentMdx/Lexer/Lexer.cs:71-100 | a step's text is exactly the input at that position. A space is skipped; a non-space is the first rule's match, swallowed for an ignored rule and emitted as a token of the rule's kind otherwise |
| Lexer.ScanFailure | BalticAmadeus.FluentMdx/Lexer/Lexer.cs:92-93 | a failed scan reports a non-space character at an in-range offset at which no rule matches |
| Lexer.ScanStopsHere | BalticAmadeus.FluentMdx/Lexer/Lexer.cs:92-93 | an unmatched non-space character at the scan position is reported with that character and offset |
| Lexer.ScanPassesOnError | BalticAmadeus.FluentMdx/Lexer/Lexer.cs:69-101 | an error after a successful step is the error of the whole scan |
| Lexer.ScanCons | BalticAmadeus.FluentMdx/Lexer/Lexer.cs:69-101 | a successful scan is the first step followed by the scan of the rest |
| Lexer.Tokenize | BalticAmadeus.FluentMdx/Lexer/Lexer.cs:65-104 | a successful tokenization ends with the sentinel; a failure names a non-space character of the input, at its offset, that no rule matches |
| Lexer.ScanTiles | BalticAmadeus.FluentMdx/Lexer/Lexer.cs:95-100 | the pieces of a successful scan cover the input from the start position to its end, in order, without gaps or overlap, each piece's text being the input there |
| Lexer.TilesCons | BalticAmadeus.FluentMdx/Lexer/Lexer.cs:95-100 | a piece that fits at the position, followed by a tiling of the rest, tiles the whole |
| Lexer.ScanJustified | BalticAmadeus.FluentMdx/Lexer/Lexer.cs:71-98 | every piece of a successful scan is a skipped space, a swallowed match of an ignored first rule, or a token of the first matching rule's kind whose value is the matched text |
| Lexer.ScanFailsOnlyOnUnmatched | BalticAmadeus.FluentMdx/Lexer/Lexer.cs:69-101 | if every offset is a space or matched by some rule, the scan succeeds, so it terminates when every rule consumes at least one character |
| Lexer.EmittedAvoidsSentinel | BalticAmadeus.FluentMdx/Lexer/Lexer.cs:97-98 | a table with no rule of kind `LastToken` never emits that kind from a match |
| Lexer.TokenizeEndsWithSingleSentinel | BalticAmadeus.FluentMdx/Lexer/Lexer.cs:103 | a successful tokenization ends with the empty-valued `LastToken` and has no other token of that kind |
| Lexer.TokensFromStep | BalticAmadeus.FluentMdx/Lexer/Lexer.cs:95-100 | emitting one step's token onto the accumulated list does not change the final result |
| Lexer.TokenizeFromAccumulated | BalticAmadeus.FluentMdx/Lexer/Lexer.cs:103 | once the scan reaches the end, the result is the accumulated tokens followed by the sentinel |
| Lexer.SpaceStep | BalticAmadeus.FluentMdx/Lexer/Lexer.cs:71-75 | a space at the position is skipped and contributes no token |
| Lexer.UnmatchedStep | BalticAmadeus.FluentMdx/Lexer/Lexer.cs:92-93 | reaching an unmatched non-space character makes the whole tokenization fail with that character and offset |
| Lexer.MatchAt | BalticAmadeus.FluentMdx/Lexer/Lexer.cs:77-100 | the rule loop at one non-space position finds no rule exactly when the step fails; otherwise it yields the step's token (if any) and the advanced position |
| Lexer.StepKeepsRest | BalticAmadeus.FluentMdx/Lexer/Lexer.cs:95-100 | one loop iteration moves strictly forward and keeps the final result invariant |
| Lexer.TokenizeLoop | BalticAmadeus.FluentMdx/Lexer/Lexer.cs:65-104 | the imperative scanning loop returns exactly the functional tokenization, errors included |
| Patterns.FirstWord | BalticAmadeus.FluentMdx/Lexer/Lexer.cs:17-24 | an alternation picks the first alternative, in written order, that matches at the position (case-insensitively), not the longest |
| Patterns.DigitRun | BalticAmadeus.FluentMdx/Lexer/Lexer.cs:40 | the run of digits at the position is maximal |
| Patterns.IdentifierRun | BalticAmadeus.FluentMdx/Lexer/Lexer.cs:47 | the run of identifier characters (spaces included) at the position is maximal |
| Patterns.DropTrailingSpaces | BalticAmadeus.FluentMdx/Lexer/Lexer.cs:47 | the identifier match gives back its trailing spaces, so a match never ends with a space |
| Patterns.NumberedAxis | BalticAmadeus.FluentMdx/Lexer/Lexer.cs:19 | an `AXIS(n)` match has positive length and stays in the input |
| Patterns.Run | BalticAmadeus.FluentMdx/Lexer/Lexer.cs:12-48 | every pattern's match has positive length and stays in the input |
| Patterns.RunStartsWithInitial | BalticAmadeus.FluentMdx/Lexer/Lexer.cs:12-48 | a pattern only matches at a character that can begin it |
| MdxRules.RulesOf | BalticAmadeus.FluentMdx/Lexer/Lexer.cs:112-117 | each definition becomes a rule of the same kind and ignore flag that matches by its pattern |
| MdxRules.RuleRuns | BalticAmadeus.FluentMdx/Lexer/Lexer.cs:12-48 | the i-th rule of the table matches by the i-th definition's pattern and has its kind |
| MdxRules.MdxTableWellFormed | BalticAmadeus.FluentMdx/Lexer/Lexer.cs:12-48 | every rule of the table matches a positive length inside the input, so the scan always advances |
| MdxRules.MdxTableHasNoSentinelRule | BalticAmadeus.FluentMdx/Lexer/Lexer.cs:12-48 | no rule of the table produces `LastToken` |
| MdxRules.MdxTokenize | BalticAmadeus.FluentMdx/Lexer/Lexer.cs:65-104 | tokenizing MDX text either fails or ends with exactly one sentinel |
| MdxRules.SentinelOnSuccess | BalticAmadeus.FluentMdx/Lexer/Lexer.cs:103 | the single-sentinel property holds for the MDX table |
| MdxRules.ValueSeparatorFirst | BalticAmadeus.FluentMdx/Lexer/Lexer.cs:36-37 | at `.&` the value-separator rule wins over the `.` rule |
| MdxRules.IdentifierSeparatorOtherwise | BalticAmadeus.FluentMdx/Lexer/Lexer.cs:36-37 | a `.` not followed by `&` lexes as an identifier separator of length 1 |
| MdxRules.DimensionUniqueNameIsProperty | BalticAmadeus.FluentMdx/Lexer/Lexer.cs:17-18 | `DIMENSION_UNIQUE_NAME` lexes as one 21-character DimensionProperty, although the later Dimension rule would also match its first 9 characters |
| MdxRules.DimensionRuleMatches | BalticAmadeus.FluentMdx/Lexer/Lexer.cs:18 | the Dimension rule does match the prefix `DIMENSION`, so the earlier rule wins only by its position in the table |
| MdxRules.DimensionPropertyRuleMatches | BalticAmadeus.FluentMdx/Lexer/Lexer.cs:17 | the DimensionProperty rule matches the whole 21-character word |
| MdxRules.SkipToDimensionProperties | BalticAmadeus.FluentMdx/Lexer/Lexer.cs:14-16 | neither the end-of-line rule nor PROPERTIES matches there |
| MdxRules.UnmatchedIffOutsideAlphabet | BalticAmadeus.FluentMdx/Lexer/Lexer.cs:12-48 | at a non-space character, no rule of the table matches if and only if the character lies outside the table's alphabet |
| MdxRules.InsideAlphabetMatches | BalticAmadeus.FluentMdx/Lexer/Lexer.cs:12-48 | every non-space character of the alphabet starts some rule's match |
| MdxRules.AlphabetTextTokenizes | BalticAmadeus.FluentMdx/Lexer/Lexer.cs:65-104 | text made only of alphabet characters always tokenizes |
| MdxRules.ErrorIsOutsideAlphabet | BalticAmadeus.FluentMdx/Lexer/Lexer.cs:92-93 | a lexical error always names a character of the input that lies outside the alphabet |
| MdxRules.PunctuationToken | BalticAmadeus.FluentMdx/Lexer/Lexer.cs:27-34 | a bracket or comma always lexes as its own one-character punctuation token |
| MdxRules.RejectedAfterPunctuation | BalticAmadeus.FluentMdx/Lexer/Lexer.cs:92-93 | a punctuation character followed by a character outside the alphabet fails at offset 1 with that character |
| MdxRules.DollarIsRejected | BalticAmadeus.FluentMdx/Lexer/Lexer.cs:92-93 | `[$]` fails with the message `Unrecognized symbol '$'.` |
| TwoWayCursor.New | BalticAmadeus.FluentMdx/EnumerableExtensions/TwoWayEnumerator.cs:12-20 | a null source is rejected with an argument-null error naming `enumerator`; otherwise the cursor starts before the first element with an empty buffer |
| TwoWayCursor.MoveNext | BalticAmadeus.FluentMdx/EnumerableExtensions/TwoWayEnumerator.cs:31-47 | it succeeds exactly when the source has an element after the index. Inside the buffer the buffer is unchanged; at its end exactly the next source element is appended. A failed call changes nothing |
| TwoWayCursor.MovePrevious | BalticAmadeus.FluentMdx/EnumerableExtensions/TwoWayEnumerator.cs:22-29 | it throws before the first element; otherwise it steps the index back by one and leaves the buffer alone |
| TwoWayCursor.Current | BalticAmadeus.FluentMdx/EnumerableExtensions/TwoWayEnumerator.cs:49-58 | it throws before the first element; otherwise it yields the source element at the index |
| TwoWayCursor.Reset | BalticAmadeus.FluentMdx/EnumerableExtensions/TwoWayEnumerator.cs:60-65 | it returns to the freshly constructed state over the same source |
| TwoWayCursor.ForwardThenBack | BalticAmadeus.FluentMdx/EnumerableExtensions/TwoWayEnumerator.cs:22-47 | stepping forward and back again returns to the same index and element, and a second step forward replays from the buffer |
| TwoWayCursor.SamePositionSameElement | BalticAmadeus.FluentMdx/EnumerableExtensions/TwoWayEnumerator.cs:49-58 | revisiting a position always yields the same element |
| StatedCursor.New | BalticAmadeus.FluentMdx/EnumerableExtensions/StatedTwoWayEnumerator.cs:32-44 | a null source is rejected; otherwise the cursor has an empty buffer, index -1 and one frame of displacement 0 |
| StatedCursor.Reset | BalticAmadeus.FluentMdx/EnumerableExtensions/StatedTwoWayEnumerator.cs:154-161 | it restores exactly the freshly constructed state |
| StatedCursor.SavePosition | BalticAmadeus.FluentMdx/EnumerableExtensions/StatedTwoWayEnumerator.cs:69-72 | it pushes a zero-displacement frame that remembers the current index and changes nothing else |
| StatedCursor.RestoreLastSavedPosition | BalticAmadeus.FluentMdx/EnumerableExtensions/StatedTwoWayEnumerator.cs:50-64 | it moves the index back to the position remembered by the top frame and pops it; with only the bottom frame it does nothing |
| StatedCursor.RemoveLastSavedState | BalticAmadeus.FluentMdx/EnumerableExtensions/StatedTwoWayEnumerator.cs:77-91 | it pops the top frame without moving the index, and every outer frame still remembers its own position; with only the bottom frame it does nothing |
| StatedCursor.MoveNext | BalticAmadeus.FluentMdx/EnumerableExtensions/StatedTwoWayEnumerator.cs:117-135 | it moves like the two-way cursor, adds one to the top displacement on success, and keeps every remembered position |
| StatedCursor.MovePrevious | BalticAmadeus.FluentMdx/EnumerableExtensions/StatedTwoWayEnumerator.cs:100-108 | it throws below index 0; otherwise it moves like the two-way cursor and subtracts one from the top displacement |
| StatedCursor.Current | BalticAmadeus.FluentMdx/EnumerableExtensions/StatedTwoWayEnumerator.cs:140-149 | it reads the same element as the two-way cursor at the same index |
| StatedCursor.Run | BalticAmadeus.FluentMdx/EnumerableExtensions/StatedTwoWayEnumerator.cs:50-161 | any sequence of cursor calls keeps the cursor valid and the buffer append-only |
| StatedCursor.FloorKept | BalticAmadeus.FluentMdx/EnumerableExtensions/StatedTwoWayEnumerator.cs:50-91 | calls that never pop below a given depth leave the positions remembered up to that depth untouched |
| StatedCursor.RollbackExact | BalticAmadeus.FluentMdx/EnumerableExtensions/StatedTwoWayEnumerator.cs:50-72 | save, any balanced calls, then restore returns to the saved index and element with the same remembered positions |
| StatedCursor.CommitKeepsOuterPositions | BalticAmadeus.FluentMdx/EnumerableExtensions/StatedTwoWayEnumerator.cs:77-91 | save, any balanced calls, then remove keeps the current index and gives back exactly the outer remembered positions |
| Text.Trim | BalticAmadeus.FluentMdx/MdxParser.cs:30 | trimming cuts only white space from both ends and leaves a result that neither starts nor ends with white space |
| Text.JoinSnoc | BalticAmadeus.FluentMdx/MdxQuery.cs:113-129 | joining one more part appends the separator and the part |
| Nodes.NavTitled | BalticAmadeus.FluentMdx/MdxNavigationFunction.cs:39-43 | `Titled` replaces the title and keeps the parameters |
| Nodes.NavWithParameters | BalticAmadeus.FluentMdx/MdxNavigationFunction.cs:50-56 | `WithParameters` appends in order and keeps the title |
| Nodes.NavTitledLastWins | BalticAmadeus.FluentMdx/MdxNavigationFunction.cs:39-43 | of two `Titled` calls the last wins, and the earlier title never shows in the text |
| Nodes.NavParameterAppended | BalticAmadeus.FluentMdx/MdxNavigationFunction.cs:58-64 | without parameters the text is the bare title; each added parameter goes inside `title(p1, p2)` |
| Nodes.RenderPath | BalticAmadeus.FluentMdx/MdxIdentifier.cs:40-43 | a path's text is bracketed at both ends |
| Nodes.NavTexts | BalticAmadeus.FluentMdx/MdxIdentifier.cs:45-47 | the applied functions are rendered one by one, in order |
| Nodes.NewIdentifier | BalticAmadeus.FluentMdx/MdxIdentifier.cs:11-12 | the public constructor keeps the titles in order with no applied functions and renders `[t1].[t2]` |
| Nodes.AppendNames | BalticAmadeus.FluentMdx/MdxIdentifier.cs:63-69 | name parts are appended in order and the functions are kept |
| Nodes.ApplyFunction | BalticAmadeus.FluentMdx/MdxIdentifier.cs:71-75 | one function is appended and the names are kept |
| Nodes.PathAppended | BalticAmadeus.FluentMdx/MdxIdentifier.cs:40-43 | appending a name adds `.[n]` inside the path's text |
| Nodes.ApplyFunctionAppends | BalticAmadeus.FluentMdx/MdxIdentifier.cs:40-48 | applying a function adds `.f` to the identifier's text |
| Nodes.IdentifierHash | BalticAmadeus.FluentMdx/MdxIdentifier.cs:55-58 | the hash fails with an overflow exactly when some running total of the scaled name hashes leaves the 32-bit range, and is otherwise 13 plus their exact sum, wrapped to 32 bits |
| Nodes.HashTerms | BalticAmadeus.FluentMdx/MdxIdentifier.cs:57 | each summand is the name's hash times 17 in wrapping 32-bit arithmetic, one per name, in order |
| Nodes.CheckedSum | BalticAmadeus.FluentMdx/MdxIdentifier.cs:57 | the left-to-right checked sum succeeds exactly when every prefix sum fits in 32 bits, and then equals the exact sum |
| Nodes.Wrap32 | BalticAmadeus.FluentMdx/MdxIdentifier.cs:57 | wrapping gives the 32-bit signed value congruent to its argument, and leaves an in-range value alone |
| Nodes.HashIgnoresFunctions | BalticAmadeus.FluentMdx/MdxIdentifier.cs:55-58 | the hash, or its overflow, depends only on the names, never on applied functions |
| Nodes.SingleNameHash | BalticAmadeus.FluentMdx/MdxIdentifier.cs:55-58 | a one-name identifier whose scaled hash fits hashes to `13 + 17 h`, wrapped |
| Nodes.HashOverflowExample | BalticAmadeus.FluentMdx/MdxIdentifier.cs:57 | two names that both hash to `0x4000_0000` make the sum throw, since the second running total is 2^31 |
| Nodes.NewMember | BalticAmadeus.FluentMdx/MdxMember.cs:7-10 | a new member is the plain identifier over the titles, without key, rendering as its path |
| Nodes.NewValueMember | BalticAmadeus.FluentMdx/MdxValueMember.cs:9-12 | the single-title keyed member renders `[title].&[v]` |
| Nodes.NewRangeMember | BalticAmadeus.FluentMdx/MdxRangeMember.cs:10-14 | the single-title range member keys the same one-name path with both values |
| Nodes.RangeMemberIsTwoValueMembers | BalticAmadeus.FluentMdx/MdxRangeMember.cs:32-35 | a range member renders as the two keyed members over the same path joined by `:`, whatever functions were applied |
| Nodes.KeyedMemberIgnoresFunctions | BalticAmadeus.FluentMdx/MdxValueMember.cs:24-27 | applied functions never show in a keyed member's text |
| Nodes.MemberTitled | BalticAmadeus.FluentMdx/MdxParser.cs:476 | titling a member appends one name and keeps the key |
| Nodes.MemberWithFunction | BalticAmadeus.FluentMdx/MdxParser.cs:489 | applying a navigation function to a member appends it and keeps the key |
| Nodes.MemberWithValue | BalticAmadeus.FluentMdx/MdxParser.cs:543 | giving a member a value keeps its identifier and makes it keyed |
| Nodes.RenderParameter | BalticAmadeus.FluentMdx/MdxFunctionParameter.cs:17-20 | a parameter renders its value verbatim |
| Nodes.ParameterHash | BalticAmadeus.FluentMdx/MdxFunctionParameter.cs:17-25 | a parameter hashes as the string hash of its own text, so parameters that render alike hash alike |
| Nodes.Collect | BalticAmadeus.FluentMdx/MdxFunction.cs:64-69 | rendering a list of children succeeds exactly when every child renders, and otherwise fails with the first child's error |
| Nodes.FunctionTitled | BalticAmadeus.FluentMdx/MdxFunction.cs:43-49 | `Titled` appends titles and keeps the parameters |
| Nodes.FunctionWithParameters | BalticAmadeus.FluentMdx/MdxFunction.cs:56-62 | `WithParameters` appends in order and keeps the titles |
| Nodes.FunctionWithoutParameters | BalticAmadeus.FluentMdx/MdxFunction.cs:64-69 | a function without parameters still renders its parentheses, `t1.t2()` |
| Nodes.FunctionParameterAppended | BalticAmadeus.FluentMdx/MdxFunction.cs:64-69 | each added parameter goes inside the parentheses after `, ` |
| Nodes.FunctionTitleAppended | BalticAmadeus.FluentMdx/MdxFunction.cs:43-49 | an added title joins the dotted name before the parentheses |
| Nodes.RangeFrom | BalticAmadeus.FluentMdx/MdxRange.cs:23-28 | `From` sets only the start member |
| Nodes.RangeTo | BalticAmadeus.FluentMdx/MdxRange.cs:35-40 | `To` sets only the end member |
| Nodes.RangeRendering | BalticAmadeus.FluentMdx/MdxRange.cs:23-45 | a range renders `from:to` with no spaces. An unset end renders empty around the `:`, and of two `From` or two `To` calls the last wins |
| Nodes.TupleWith | BalticAmadeus.FluentMdx/MdxParser.cs:298-317 | a tuple's `With` appends the child |
| Nodes.EmptyTupleRendering | BalticAmadeus.FluentMdx/MdxTuple.cs:3-10 | the abstract tuple, which the source never renders, renders `{  }` when empty in the model |
| Nodes.TupleChildAppended | BalticAmadeus.FluentMdx/MdxSetTuple.cs:49-50 | each added child goes inside the braces after `, ` |
| Nodes.LastTuple | BalticAmadeus.FluentMdx/MdxSet.cs:36 | finds the last tuple child, or reports that there is none |
| Nodes.Keep | BalticAmadeus.FluentMdx/MdxSet.cs:112-116 | filtering by kind keeps exactly the children of that kind |
| Nodes.SetWith | BalticAmadeus.FluentMdx/MdxSet.cs:34-124 | a member, function or range goes to the set while it has no tuple child, and otherwise into its last tuple, changing nothing else. A tuple is appended to an empty set or a set that already holds tuples. Otherwise the flat children fold into a new tuple and the children become exactly [folded tuple, given tuple] |
| Nodes.FoldKeepsMembersAndFunctions | BalticAmadeus.FluentMdx/MdxSet.cs:110-121 | the folded tuple holds exactly the member and function children, and ranges and sets are dropped |
| Nodes.SetWithKeepsHomogeneous | BalticAmadeus.FluentMdx/MdxSet.cs:34-124 | a set's children are either all tuples or none, and adding a tuple makes them all tuples |
| Nodes.BuiltSetsHomogeneous | BalticAmadeus.FluentMdx/MdxSet.cs:34-124 | any sequence of `With` calls from an empty set yields homogeneous children |
| Nodes.SetWithKeepsWellFormed | BalticAmadeus.FluentMdx/MdxSet.cs:34-124 | adding a renderable child keeps a set renderable |
| Nodes.BuiltSetsWellFormed | BalticAmadeus.FluentMdx/MdxSet.cs:34-124 | any set built from renderable children renders |
| Nodes.EmptySetRendering | BalticAmadeus.FluentMdx/MdxSet.cs:130-133 | an empty set renders `(  )` with two spaces |
| Nodes.SetChildAppended | BalticAmadeus.FluentMdx/MdxSet.cs:130-133 | each child added to a flat set goes inside the parentheses after `, ` |
| Nodes.WithOperator | BalticAmadeus.FluentMdx/MdxExpression.cs:41-45 | an operator is appended and nothing else changes |
| Nodes.WithOperand | BalticAmadeus.FluentMdx/MdxExpression.cs:53-57 | an operand is appended and nothing else changes |
| Nodes.WithOperation | BalticAmadeus.FluentMdx/MdxExpression.cs:67-73 | an operation is an operator and then an operand |
| Nodes.AsNegative | BalticAmadeus.FluentMdx/MdxExpression.cs:79-83 | only the negative flag is set |
| Nodes.AsNegated | BalticAmadeus.FluentMdx/MdxExpression.cs:89-93 | only the negated flag is set |
| Nodes.WithOperationKeepsBalance | BalticAmadeus.FluentMdx/MdxExpression.cs:67-73 | an operation keeps operands one more than operators exactly when that held before |
| Nodes.FlagsIdempotent | BalticAmadeus.FluentMdx/MdxExpression.cs:79-93 | setting a flag twice is setting it once, and the two flags commute |
| Nodes.ExpressionOutcome | BalticAmadeus.FluentMdx/MdxExpression.cs:95-135 | with no operands rendering fails with "Expression must have at least one operand!". With renderable operands it succeeds exactly when operators are fewer than operands, and otherwise fails with "Expression expects more operands that specified!". An operand that fails first passes its error on |
| Nodes.OperationAppended | BalticAmadeus.FluentMdx/MdxExpression.cs:109-127 | an operation adds ` op o` to the text, wrapping an expression operand in parentheses |
| Nodes.PlainBalancedText | BalticAmadeus.FluentMdx/MdxExpression.cs:109-127 | an unflagged balanced expression renders operands and operators alternately, `o0 op1 o1 … opk ok` |
| Nodes.FlagsWrapRendering | BalticAmadeus.FluentMdx/MdxExpression.cs:99-133 | the flags only wrap the plain text and never change whether it renders |
| Nodes.DecorateCases | BalticAmadeus.FluentMdx/MdxExpression.cs:99-133 | the wrappings are `-(…)`, `NOT (…)` and, with both flags, `-(NOT (…))` |
| Nodes.ExtraOperandsIgnored | BalticAmadeus.FluentMdx/MdxExpression.cs:112-127 | operands beyond one more than the operators are silently left out of the text |
| Nodes.WithValue | BalticAmadeus.FluentMdx/MdxConstantExpression.cs:13-27 | after `WithValue` the constant renders the value verbatim |
| Nodes.ConstantRendering | BalticAmadeus.FluentMdx/MdxConstantExpression.cs:13-27 | an unset constant renders empty text, and of two `WithValue` calls the last wins |
| Nodes.WellFormedRenders | BalticAmadeus.FluentMdx/MdxExpression.cs:105-121 | a tree whose every expression is balanced renders without an exception |
| Containers.New | BalticAmadeus.FluentMdx/MdxMemberTuple.cs:11-14 | a fresh container of any of the four shapes is empty |
| Containers.FromList | BalticAmadeus.FluentMdx/MdxMemberTuple.cs:16-22 | the internal constructor rejects a null list, naming it, and otherwise keeps the list |
| Containers.With | BalticAmadeus.FluentMdx/MdxMemberTuple.cs:29-36 | `With` rejects null, naming the parameter, and otherwise appends at the end |
| Containers.FirstRef | BalticAmadeus.FluentMdx/MdxMemberTuple.cs:38-45 | finds the first occurrence of an item, or reports that there is none |
| Containers.Without | BalticAmadeus.FluentMdx/MdxMemberTuple.cs:38-45 | `Without` rejects null. Otherwise it removes the first occurrence of the item and keeps the rest in order, or changes nothing if the item is absent; the items lose exactly one copy of it |
| Containers.RemovedHandles | BalticAmadeus.FluentMdx/MdxTupleSet.cs:35-42 | removing one position removes exactly one copy of its item |
| Containers.WithoutUndoesWith | BalticAmadeus.FluentMdx/MdxMemberSet.cs:26-42 | removing an item that was just added to a container not holding it gives back the container |
| Containers.ContainerRendering | BalticAmadeus.FluentMdx/MdxMemberSet.cs:44-53 | an empty container fails with its shape's message. A single member in a member tuple or member set renders bare. Otherwise the items are joined by `, ` inside the shape's brackets, and rendering fails only when an item fails |
| Containers.SecondMemberAddsBrackets | BalticAmadeus.FluentMdx/MdxMemberTuple.cs:47-57 | adding a second member turns the bare single member into `{ m1, m2 }` |
| Containers.EmptyMessages | BalticAmadeus.FluentMdx/MdxSetTuple.cs:44-50 | the four empty-container messages are "There are no members in tuple!", "There are no sets in tuple!", "There are no members in set!" and "There are no tuples in set!" |
| Queries.CubeTitled | BalticAmadeus.FluentMdx/MdxCube.cs:33-39 | `Titled` appends the titles in order, so titling with two names equals two calls |
| Queries.RenderCube | BalticAmadeus.FluentMdx/MdxCube.cs:41-44 | a cube renders as the bracketed dotted path of its titles |
| Queries.CubeTitleAppended | BalticAmadeus.FluentMdx/MdxCube.cs:33-44 | a cube without titles renders `[]`, and each added title adds `.[t]` |
| Queries.AxisTitled | BalticAmadeus.FluentMdx/MdxAxis.cs:64-68 | `Titled` overwrites the title and touches nothing else |
| Queries.WithSlicer | BalticAmadeus.FluentMdx/MdxAxis.cs:53-57 | `WithSlicer` overwrites the slicer and touches nothing else |
| Queries.AsNonEmpty | BalticAmadeus.FluentMdx/MdxAxis.cs:74-78 | only the non-empty flag is set |
| Queries.AsEmpty | BalticAmadeus.FluentMdx/MdxAxis.cs:84-88 | only the non-empty flag is cleared |
| Queries.WithProperties | BalticAmadeus.FluentMdx/MdxAxis.cs:95-100 | properties are appended in order and never removed |
| Queries.AxisRendering | BalticAmadeus.FluentMdx/MdxAxis.cs:74-126 | an axis renders exactly when its slicer does, and the non-empty flag only prefixes `NON EMPTY `. Of `AsEmpty` and `AsNonEmpty` the last call wins |
| Queries.AxisPropertyAdded | BalticAmadeus.FluentMdx/MdxAxis.cs:102-126 | with a property the text is `[NON EMPTY ]slicer DIMENSION PROPERTIES p ON title`, always with `DIMENSION` |
| Queries.TitledAxisRendering | BalticAmadeus.FluentMdx/MdxAxis.cs:16-23 | a fresh axis with only a title renders ` ON title`, showing the empty slicer |
| Queries.DeclarationTitled | BalticAmadeus.FluentMdx/MdxDeclaration.cs:21-27 | `Titled` appends titles in order |
| Queries.DeclaredAs | BalticAmadeus.FluentMdx/MdxDeclaration.cs:29-39 | either `As` overload replaces the bound expression, so the last call wins |
| Queries.DeclarationKeyword | BalticAmadeus.FluentMdx/MdxDeclaration.cs:41-47 | a declaration starts with `MEMBER ` exactly when bound to an expression (and with `SET ` for a tuple), and ends with the bound node's text |
| Queries.UnboundDeclaration | BalticAmadeus.FluentMdx/MdxDeclaration.cs:46 | a declaration bound to nothing renders `SET [t1].[t2] AS ` |
| Queries.WithDeclaration | BalticAmadeus.FluentMdx/MdxParser.cs:80-84 | storing a declaration appends it and changes nothing else |
| Queries.On | BalticAmadeus.FluentMdx/MdxQuery.cs:60-67 | `On` rejects a null axis, naming `axis`, and otherwise appends it and changes nothing else |
| Queries.FromCube | BalticAmadeus.FluentMdx/MdxQuery.cs:75-81 | `From(cube)` clears the inner query and appends the cube |
| Queries.FromQuery | BalticAmadeus.FluentMdx/MdxQuery.cs:89-95 | `From(query)` clears the cubes and sets the inner query |
| Queries.Where | BalticAmadeus.FluentMdx/MdxQuery.cs:102-106 | `Where` appends a tuple and changes nothing else |
| Queries.MutatorsKeepSingleSource | BalticAmadeus.FluentMdx/MdxQuery.cs:60-106 | no mutator ever leaves both cubes and an inner query, and the later `From` wins |
| Queries.QuerySource | BalticAmadeus.FluentMdx/MdxQuery.cs:110-129 | the source is the joined cubes, or the inner query in `( … )` |
| Queries.QueryRendering | BalticAmadeus.FluentMdx/MdxQuery.cs:108-132 | a query renders exactly when its axes, its WHERE tuples and its inner query do, and the text is `SELECT a1, a2 FROM source` followed by the WHERE clause, in insertion order |
| Queries.WhereAppended | BalticAmadeus.FluentMdx/MdxQuery.cs:117-131 | the WHERE clause is always wrapped as ` WHERE { ( t1, t2 ) }`, and each added tuple joins inside it after `, ` |
| Queries.InnerQueryRendering | BalticAmadeus.FluentMdx/MdxQuery.cs:123-126 | a query over an inner query renders `SELECT a1 FROM ( inner )` exactly when the inner query renders |
| Queries.WellFormedQueryRenders | BalticAmadeus.FluentMdx/MdxQuery.cs:108-132 | a query whose axes have renderable slicers and whose tuples and inner query are renderable renders without an exception |
| Parser.Next | BalticAmadeus.FluentMdx/MdxParser.cs:965-975 | the next token is consumed exactly when it exists and has the expected kind. Otherwise the position stays, also at the end of input |
| Parser.NextTokenValid | BalticAmadeus.FluentMdx/MdxParser.cs:965-975 | on the backtracking cursor, the check moves forward one token exactly when the token's kind matches, and never changes the remembered positions |
| Parser.ParseValue | BalticAmadeus.FluentMdx/MdxParser.cs:528-541 | a value is read exactly when the next token is one of the allowed kinds. When an identifier token follows, its text is glued on and both tokens are consumed; otherwise the value is that token's text alone. The key values, the navigation parameters (MdxParser.cs:759-762) and the constants (MdxParser.cs:953-955) all read their values this way |
| Parser.ParsePath | BalticAmadeus.FluentMdx/MdxParser.cs:688-710 | a bracketed dotted path consumes tokens and holds at least one name |
| Parser.ParseConstant | BalticAmadeus.FluentMdx/MdxParser.cs:936-963 | a constant is read exactly when the next token is a logical, date, number, identifier or ordering token |
| Parser.ParseNavParameters | BalticAmadeus.FluentMdx/MdxParser.cs:746-766 | a navigation parameter list holds at least one parameter |
| Parser.ParseNavFunction | BalticAmadeus.FluentMdx/MdxParser.cs:724-778 | a navigation function starts with an identifier or dimension-property token, which becomes its title |
| Parser.ParseMemberSteps | BalticAmadeus.FluentMdx/MdxParser.cs:484-512 | the dotted tail of a member keeps the key, and only adds to the member: its names and its navigation functions so far stay prefixes of the result's |
| Parser.ParseMemberFunctions | BalticAmadeus.FluentMdx/MdxParser.cs:551-561 | the functions after a key keep the key and the names, and only add navigation functions after the existing ones |
| Parser.ParseMemberKey | BalticAmadeus.FluentMdx/MdxParser.cs:514-561 | without `.&` the member is complete as it stands. After `.&`, a result has consumed at least four more tokens and carries a key value |
| Parser.ParseMember | BalticAmadeus.FluentMdx/MdxParser.cs:457-567 | a member starts with `[`, consumes tokens, and never carries a range key |
| Parser.ParseRange | BalticAmadeus.FluentMdx/MdxParser.cs:414-449 | a range has both end members set |
| Parser.ParseTuple | BalticAmadeus.FluentMdx/MdxParser.cs:274-336 | a parsed tuple consumes tokens and renders |
| Parser.ParseSet | BalticAmadeus.FluentMdx/MdxParser.cs:344-406 | a parsed set consumes tokens, renders and has homogeneous children |
| Parser.ParseChild | BalticAmadeus.FluentMdx/MdxParser.cs:298-317 | a tuple or set child is a renderable member, function, range, tuple or set |
| Parser.ParseChildren | BalticAmadeus.FluentMdx/MdxParser.cs:295-324 | the comma-separated children are at least one, each a renderable set child |
| Parser.ParseTitles | BalticAmadeus.FluentMdx/MdxParser.cs:792-802 | a function name has at least one title |
| Parser.ParseFunction | BalticAmadeus.FluentMdx/MdxParser.cs:786-841 | a parsed function renders and all its parameters are expressions |
| Parser.ParseArguments | BalticAmadeus.FluentMdx/MdxParser.cs:818-829 | the comma-separated arguments are renderable expressions |
| Parser.NegatedNode | BalticAmadeus.FluentMdx/MdxParser.cs:884-892 | a `NOT` operand is the following expression with the negated flag set |
| Parser.ParseOperand | BalticAmadeus.FluentMdx/MdxParser.cs:857-914 | an operand consumes tokens and renders |
| Parser.ParseOperations | BalticAmadeus.FluentMdx/MdxParser.cs:857-922 | the operand/operator loop only extends the expression and leaves it balanced, so a successful expression has one more operand than operators |
| Parser.ParseExpression | BalticAmadeus.FluentMdx/MdxParser.cs:849-928 | a parsed expression is balanced, renders and carries neither flag |
| Parser.Alone | BalticAmadeus.FluentMdx/MdxParser.cs:600-612 | wrapping a renderable node into a one-element tuple keeps it renderable |
| Parser.ParseSlicer | BalticAmadeus.FluentMdx/MdxParser.cs:593-618 | an axis slicer consumes tokens and is a renderable tuple |
| Parser.ParseProperties | BalticAmadeus.FluentMdx/MdxParser.cs:628-650 | a property list holds at least one dimension property |
| Parser.ParsePropertiesClause | BalticAmadeus.FluentMdx/MdxParser.cs:620-651 | the optional `[DIMENSION] PROPERTIES` clause never moves backwards |
| Parser.ParseAxis | BalticAmadeus.FluentMdx/MdxParser.cs:575-673 | a parsed axis has a title and a renderable slicer, and it is non-empty exactly when it starts with `NON` |
| Parser.ParseAxes | BalticAmadeus.FluentMdx/MdxParser.cs:94-104 | the comma-separated axes are at least one, each with a renderable slicer |
| Parser.ParseCube | BalticAmadeus.FluentMdx/MdxParser.cs:681-716 | a cube parses exactly when a path does, and renders as that path |
| Parser.ParseCubes | BalticAmadeus.FluentMdx/MdxParser.cs:131-141 | the comma-separated cubes are at least one |
| Parser.ParseDeclaration | BalticAmadeus.FluentMdx/MdxParser.cs:184-266 | a parsed declaration is bound to a renderable tuple or expression |
| Parser.ParseDeclarations | BalticAmadeus.FluentMdx/MdxParser.cs:74-85 | a WITH clause holds at least one declaration |
| Parser.ParseWhereSlicerBeforeFunction | BalticAmadeus.FluentMdx/MdxParser.cs:151-167 | a WHERE slicer found by the range, member, set or tuple alternative consumes tokens and is a renderable tuple |
| Parser.ParseWhereSlicer | BalticAmadeus.FluentMdx/MdxParser.cs:151-172 | the WHERE slicer tries range, member, set and tuple first; only when they all fail is a function tried, wrapped into a one-element tuple |
| Parser.ParseWhere | BalticAmadeus.FluentMdx/MdxParser.cs:144-181 | without `WHERE` the query is unchanged. With it, at most one renderable tuple is added and nothing else changes |
| Parser.ParseWhereAsWritten | BalticAmadeus.FluentMdx/MdxParser.cs:144-181 | as written, the WHERE branch throws exactly when the slicer is a function that no earlier alternative parses |
| Parser.WhereAsWrittenAgrees | BalticAmadeus.FluentMdx/MdxParser.cs:151-172 | the corrected WHERE parse agrees with the code as written wherever the code does not throw, and where it throws it yields the function wrapped into a tuple |
| Parser.ParseHead | BalticAmadeus.FluentMdx/MdxParser.cs:71-104 | the head of a query holds at least one axis, and declarations exactly when it starts with `WITH` |
| Parser.ParseWithClause | BalticAmadeus.FluentMdx/MdxParser.cs:71-86 | without `WITH` there are no declarations; with it there is at least one |
| Parser.ParseSource | BalticAmadeus.FluentMdx/MdxParser.cs:106-142 | after `FROM` the query gets cubes or one inner query, never both, and keeps its axes |
| Parser.ParseQueryTokens | BalticAmadeus.FluentMdx/MdxParser.cs:64-182 | a parsed query renders and has at least one axis, cubes or an inner query but not both, at most one WHERE tuple, and declarations exactly when `WITH` is present |
| Parser.TokenList | BalticAmadeus.FluentMdx/MdxParser.cs:43 | an empty remainder lists as empty text, and a single token as its own `Kind[value]` text |
| Parser.TokenListSnoc | BalticAmadeus.FluentMdx/MdxParser.cs:43 | listing one more token appends `, ` and that token's text |
| Parser.ParseTokens | BalticAmadeus.FluentMdx/MdxParser.cs:28-56 | if no query parses, it fails with "Cannot parse the expression. There are no such rules." and every token. It succeeds exactly when the query ends right before the sentinel, and otherwise fails with "There are tokens left in expression." and the remaining tokens. A success always renders |
| Parser.ParseQuery | BalticAmadeus.FluentMdx/MdxParser.cs:28-56 | the input is trimmed and tokenized. A lexical error is passed on, and otherwise the tokens end in a single sentinel and are parsed. A parsed query always renders |
| ParserProperties.PathRoundTrip | BalticAmadeus.FluentMdx/MdxParser.cs:688-710 | the tokens of `[n1].[n2]…` parse back to exactly those names, ending right after them |
| ParserProperties.CubeRoundTrip | BalticAmadeus.FluentMdx/MdxParser.cs:681-716 | the tokens of a cube path parse back to that cube, which renders as the path |
| ParserProperties.MemberStepsOnPath | BalticAmadeus.FluentMdx/MdxParser.cs:484-512 | the dotted tail of a path of names parses back to the member over the whole path |
| ParserProperties.MemberRoundTrip | BalticAmadeus.FluentMdx/MdxParser.cs:457-519 | the tokens of a plain member path parse back to that member, which renders as the path |
| ParserProperties.ValueSeparatorCommits | BalticAmadeus.FluentMdx/MdxParser.cs:514-561 | once `.&` follows the member's path, the member either carries a key value or fails as a whole; without `[` after `.&` it always fails |
| ParserProperties.KeyedTail | BalticAmadeus.FluentMdx/MdxParser.cs:514-566 | `.&[v]` after a member sets its key value to `v` |
| ParserProperties.ValueMemberRoundTrip | BalticAmadeus.FluentMdx/MdxParser.cs:457-566 | the tokens of `[n1].[n2].&[v]` parse back to the keyed member, which renders `[n1].[n2].&[v]` |
| ParserProperties.KeyedMemberExample | BalticAmadeus.FluentMdx/MdxValueMember.cs:24-27 | the tokens of `[Aaa].[Bbb].[Ccc].&[1]` parse to a member rendering exactly that text |
| ParserProperties.NoContainerAtBracket | BalticAmadeus.FluentMdx/MdxParser.cs:279 | at `[` neither a function, a tuple nor a set can start |
| ParserProperties.RangeAfterMember | BalticAmadeus.FluentMdx/MdxParser.cs:414-449 | a range parses exactly when a member, `:` and a member follow one another, and it holds those two members |
| ParserProperties.ChildIsOperandAtMember | BalticAmadeus.FluentMdx/MdxParser.cs:298-304 | where a member parses, a child is a range if possible and the member otherwise |
| ParserProperties.RangeBeforeMember | BalticAmadeus.FluentMdx/MdxParser.cs:298-304 | `[A]:[B]` always becomes a range, never the member `[A]` |
| ParserProperties.SetBeforeParentheses | BalticAmadeus.FluentMdx/MdxParser.cs:868-902 | at `(` a set is preferred over a parenthesised expression |
| ParserProperties.ConstantGluesIdentifier | BalticAmadeus.FluentMdx/MdxParser.cs:953-955 | a constant followed by an identifier token is glued to it |
| ParserProperties.NumberConstant | BalticAmadeus.FluentMdx/MdxParser.cs:936-963 | a lone number token is a constant with the token's value |
| ParserProperties.NumberOperand | BalticAmadeus.FluentMdx/MdxParser.cs:880-882 | a lone number token is an operand holding that constant |
| ParserProperties.SingleOperandExpression | BalticAmadeus.FluentMdx/MdxParser.cs:916-918 | an operand not followed by an operator is a complete one-operand expression |
| ParserProperties.OperationsStep | BalticAmadeus.FluentMdx/MdxParser.cs:857-922 | an operand and an operator are appended before the loop goes on |
| ParserProperties.NoOperandNoOperations | BalticAmadeus.FluentMdx/MdxParser.cs:910-913 | no operand where one is due fails the loop |
| ParserProperties.OperatorWithoutOperand | BalticAmadeus.FluentMdx/MdxParser.cs:910-920 | an operator not followed by an operand fails the whole expression |
| ParserProperties.NoOperandAtSentinel | BalticAmadeus.FluentMdx/MdxParser.cs:857-913 | the sentinel never starts an operand |
| ParserProperties.TrailingOperatorFails | BalticAmadeus.FluentMdx/MdxParser.cs:910-920 | `1 +` at the end of input is not an expression |
| ParserProperties.WhereFunctionParses | BalticAmadeus.FluentMdx/MdxParser.cs:786-816 | the tokens of `F()` parse as a function without parameters |
| ParserProperties.WhereFunctionNotSlicer | BalticAmadeus.FluentMdx/MdxParser.cs:152-167 | `F()` is not a range, member, set or tuple |
| ParserProperties.WhereFunctionThrows | BalticAmadeus.FluentMdx/MdxParser.cs:168-172 | `WHERE F()` makes the code as written throw, while the corrected parse adds the tuple `{ F() }` |
| ParserProperties.SentinelMessage | BalticAmadeus.FluentMdx/MdxParser.cs:43 | with only the sentinel left the message is "Cannot parse the expression. There are no such rules. LastToken[]." |
| ParserProperties.EmptyStatementRejected | BalticAmadeus.FluentMdx/MdxParser.cs:28-44 | an empty statement fails with the no-rules message listing `LastToken[]` |
| RoundTrips.ChildrenRoundTrip | BalticAmadeus.FluentMdx/MdxParser.cs:295-324 | a comma-separated list of member paths, closed by `}` or `)`, parses to exactly those members, in order, ending at the closing bracket |
| RoundTrips.TupleRoundTrip | BalticAmadeus.FluentMdx/MdxParser.cs:274-336 | the tokens of `{ m1 , m2 }` parse to the tuple of exactly those members, in order, which prints as `{ m1, m2 }` |
| RoundTrips.SetRoundTrip | BalticAmadeus.FluentMdx/MdxParser.cs:344-406 | the tokens of `( m1 , m2 )` parse to the set of exactly those members, in order, which prints as `( m1, m2 )` |
| RoundTrips.ArgumentsRoundTrip | BalticAmadeus.FluentMdx/MdxParser.cs:818-829 | a comma-separated list of constants, closed by `)`, parses to one constant expression per value, in order |
| RoundTrips.FunctionRoundTrip | BalticAmadeus.FluentMdx/MdxParser.cs:786-841 | the tokens of `F ( v1 , v2 )` parse to the function `F` of those constants, which prints as `F(v1, v2)` |
| RoundTrips.FunctionExample | BalticAmadeus.FluentMdx.Tests/MdxParserPartsTests.cs:118-138 | the tokens of `FUNCTION ( 1 , 2 )` parse to a function that prints as `FUNCTION(1, 2)` |
| RoundTrips.EmptySetArgumentExample | BalticAmadeus.FluentMdx/MdxParser.cs:786-841 | `MYFUNCTION ( ( ) )` parses, the inner brackets as an empty set argument, and prints as `MYFUNCTION((  ))` |
| RoundTrips.AxisRoundTrip | BalticAmadeus.FluentMdx/MdxParser.cs:575-673 | the tokens of `[NON EMPTY] { m1 , m2 } ON title` parse to the axis of that flag, tuple and title, which prints as it was spelled |
| RoundTrips.AxesRoundTrip | BalticAmadeus.FluentMdx/MdxParser.cs:94-104 | comma-separated axes followed by `FROM` parse to exactly those axes, in order |
| RoundTrips.AxesRendering | BalticAmadeus.FluentMdx/MdxQuery.cs:113-116 | the parsed axes print one by one as they were spelled |
| RoundTrips.StatementRoundTrip | BalticAmadeus.FluentMdx/MdxParser.cs:28-182 | the tokens of `SELECT axes FROM cube` end in the sentinel, parse to the query of those axes and that cube, and the query prints as `SELECT axes FROM cube` again |
| RoundTrips.MeasureQueryExample | BalticAmadeus.FluentMdx.Tests/MdxParserTests.cs:17-30 | `SELECT NON EMPTY { [Measures].[Measure] } ON COLUMNS FROM [Cube]` parses and prints back unchanged |
| RoundTrips.WhereMemberRoundTrip | BalticAmadeus.FluentMdx/MdxParser.cs:144-181 | `WHERE [n1].[n2].&[v]` adds the keyed member alone in a tuple and changes nothing else, and the clause prints as ` WHERE { ( { [n1].[n2].&[v] } ) }` |

## Left out

- Reset (TwoWayCursor.Reset, StatedCursor.Reset): both C# `Reset` methods
  first call `Reset()` on the wrapped enumerator
  (`TwoWayEnumerator.cs:60-65`, `StatedTwoWayEnumerator.cs:154-161`). The model
  assumes that enumerator restarts, like the `List<string>` of
  `TwoWayEnumeratorTests.cs:26`, and always returns the fresh state. A
  compiler-generated iterator throws `NotSupportedException` there instead.
  That includes the `yield` iterator of `Lexer.Tokenize` (`Lexer.cs:65-104`),
  which `MdxParser.cs:32-34` wraps. That error path is not modelled. The parser
  itself never calls `Reset`.
- Regular expressions are not interpreted. Each rule's pattern is a small
  `Pattern` that matches what the .NET pattern matches at the scan position.
  Case folding is ASCII only.
- Tokenizing is eager. The C# lexer yields tokens lazily, so a query whose
  WHERE clause throws before a later lexical error would report the cast
  error first; the model reports the lexical error.
- Object identity is not modelled. Nodes are values, so the internal
  constructors' list copies are implicit. The typed containers' `Without`
  removes by reference, which the model represents with a handle on each
  item.
- The string hash is a parameter of the model, not .NET's hash function.
- `Dispose`, the boxed `IEnumerator.Current`, and the factory and extension
  wrappers (`Mdx.cs`, `GetStatedTwoWayEnumerator`) have no behaviour of their
  own.
- `Lexer/TokenDefinition.cs` is a stale duplicate of the nested class in
  `Lexer.cs`, and the interface-only files hold no behaviour.
- The lexer has no rules for the `With`, `Member`, `Set`, `As` and
  `Ordering` kinds, so the parser's WITH branch cannot be reached from text.
  It is modelled on token sequences only.
- Declarations are stored in a query but never rendered as part of it, as in
  `MdxQuery.cs`.
- `MdxSet.With(MdxSet)` has no overload in the source. A nested set is added
  like a member or function.
- ParseTokens (Parser.ParseTokens): requires a sentinel-terminated token list, which the
  lexer guarantees (`MdxRules.MdxTokenize`). The C# code would throw on a
  list without it.
- ParseTuple (Parser.ParseTuple): its contract states only that a parsed tuple consumes
  tokens and renders. The exact result is proved (`RoundTrips.TupleRoundTrip`)
  only for a list of plain member paths; keyed members, navigation
  functions, ranges, functions and nested containers as children are not.
- ParseSet (Parser.ParseSet): as for tuples, the exact result is proved only for a list
  of plain member paths (`RoundTrips.SetRoundTrip`), so the folding of a
  tuple child into a set is not covered by a round trip.
- ParseChildren (Parser.ParseChildren): the exact children are proved only for plain member
  paths (`RoundTrips.ChildrenRoundTrip`).
- ParseFunction (Parser.ParseFunction): the exact result is proved only for a one-title
  function of constant arguments (`RoundTrips.FunctionRoundTrip`) and for the
  empty-set argument of `RoundTrips.EmptySetArgumentExample`; dotted titles
  and member or operator arguments are not.
- ParseArguments (Parser.ParseArguments): the exact arguments are proved only for constants
  (`RoundTrips.ArgumentsRoundTrip`).
- ParseSlicer (Parser.ParseSlicer): the exact slicer is proved only for a tuple of plain
  member paths; a member, range, set or function slicer wrapped into a tuple
  is not covered by a round trip.
- ParseAxis (Parser.ParseAxis): the exact axis is proved only for `[NON EMPTY] { paths }
  ON title` (`RoundTrips.AxisRoundTrip`). The `DIMENSION PROPERTIES` clause,
  numbered axes and navigation functions in the slicer (the axis test at
  MdxParserPartsTests.cs:140-186) are not.
- ParseAxes (Parser.ParseAxes): the exact axes are proved only for axes of the form above
  (`RoundTrips.AxesRoundTrip`).
- ParseQueryTokens (Parser.ParseQueryTokens): the exact query is proved only for `SELECT axes
  FROM cube` with one cube (`RoundTrips.StatementRoundTrip`). `WITH`, several
  cubes, inner queries and a whole query with `WHERE` are not; the WHERE
  clause alone is `RoundTrips.WhereMemberRoundTrip`.
- ParseQuery (Parser.ParseQuery): the round trips start from tokens, not from text; the
  lexer's output for a given query text is not computed inside a proof.
- EmptyTupleRendering (Nodes.EmptyTupleRendering): `MdxTuple` has no rendering of its own, so `{  }`
  for an empty tuple is the model's choice. The braces follow the tuple text
  the query tests expect (MdxQueryTests.cs:13-25). The typed tuples throw on an
  empty list instead (MdxSetTuple.cs:46-47, MdxMemberTuple.cs:49-50), which
  `Containers.ContainerRendering` states.
- Strings are sequences of Unicode scalar values, not of UTF-16 code units.
  A lone surrogate, which .NET strings can hold and the lexer would report as
  an unrecognized symbol, has no counterpart in the model.
- Run (StatedCursor.Run): states that the buffer only grows over any call
  sequence. It does not describe each call's effect, which the per-call
  members state.

## Findings

| source | as written | input that shows it | evidently intended | confidence | as-written member | corrected member |
|---|---|---|---|---|---|---|
| BalticAmadeus.FluentMdx/MdxParser.cs:168-172 | a function slicer in WHERE is cast to `MdxTuple`, which throws an invalid-cast exception | `SELECT … FROM … WHERE F()`, i.e. the tokens `WHERE`, `F`, `(`, `)` then the sentinel | wrap the function into a one-element tuple, as the axis slicer does at MdxParser.cs:610-612 | not executed | Parser.ParseWhereAsWritten | Parser.ParseWhere |
