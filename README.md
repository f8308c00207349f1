# RedisInsight workbench query assistance and AI chat state, in Dafny

This project models two parts of the RedisInsight user interface.

- **Workbench query utilities** (`redisinsight/ui/src/pages/workbench/utils/query.ts`). These help the editor suggest what to type next in a Redis command:
  - `splitQueryByArgs` cuts the command line into the arguments before and after the cursor. It keeps quotes, honours backslash escapes, joins known two-word arguments and reports the cursor's surroundings.
  - `findStopArgumentInQuery` walks the typed words along the command's grammar tree. It reports where the walk stopped, how many arguments were entered, whether it waits for a value, and the block it stopped inside.
  - `findCurrentArgument` and `getArgumentSuggestions` find the argument the cursor belongs to and decide what can follow it.
  - `getRestArguments`, `getAllRestArguments`, `removeNotSuggestedArgs` and `fillArgsByType` build the suggestion groups, level by level, up the grammar tree.
  - `findArgByToken`, `isCompositeArgument` and `addOwnTokenToArgs` are small helpers.
- **The AI assistant chat slice** (`redisinsight/ui/src/slices/panels/aiAssistant.ts`). This is the state of the AI panel: the selected tab and two chats. Its reducers set loading flags and session ids, append messages, set the error of a message, and load or clear histories.

Files:

- `js_basics.dfy` (`JsBasics`): the JavaScript runtime behaviour the code relies on:
  - `undefined` as `Option`;
  - the `RangeError` that `Array(n)` throws;
  - ASCII case mapping and the characters `trim` removes;
  - `slice` with negative indices;
  - out-of-range reads that give `undefined`.
- `grammar.dfy` (`Grammar`): the command grammar (`IRedisCommand`) and its parent chains (`IRedisCommandTree`), plus `findArgByToken` and `addOwnTokenToArgs`.
- `tokenizer.dfy` (`QueryTokenizer`): `splitQueryByArgs`.
  - A function `Step` gives one turn of the scanning loop.
  - `ScanPrefix` folds `Step` over a prefix of the query.
  - The method `SplitQueryByArgs` keeps the source's loop variables, and its loop invariant ties them to `ScanPrefix`.
- `matcher.dfy` (`ArgumentMatcher`): `findStopArgumentInQuery`.
  - `StepArg`, `Run`, `InBlock` and `FindStop` specify the loop and its recursion into blocks.
  - The method `FindStopArgumentInQuery` keeps the loop and is proved equal to `FindStop`. Its helpers are `WalkBlock`, for the block branch, and `BuildBlockArguments`, for the block's copied arguments.
- `suggestions.dfy` (`Suggestions`): `findCurrentArgument`, `getArgumentSuggestions`, `getRestArguments`, `getAllRestArguments`, `removeNotSuggestedArgs` and `fillArgsByType`. `fillArgsByType` is both a function and a loop method proved equal to it.
- `ai_assistant.dfy` (`AiAssistant`): `getTabSelected`, and a class `AiAssistantState` with one method per reducer. Each method updates the class fields in place.

Definitions that the contracts and lemmas above speak about, and that carry no contract of their own:

- `QueryTokenizer.IsCompositeArgument` is `isCompositeArgument` (query.ts:469-470).
- `QueryTokenizer.Step`, `Consume`, `Flush`, `Emit` and `ScanPrefix` are the loop body and the loop of `splitQueryByArgs` (query.ts:35-86).
- `ArgumentMatcher.Run`, `InBlock` and `FindStop` are the loop of `findStopArgumentInQuery` and its recursion into blocks (query.ts:139-287).
- `Suggestions.NextMandatoryIndex`, `PrevMandatoryIndex` and `RestList` are the index computations and the offer of `getRestArguments` (query.ts:359-388).
- `Suggestions.BlockHead`, `Expand` and `FillArgs` are the loop body and the result of `fillArgsByType` (query.ts:435-461).
- `Suggestions.LevelGroup` is one level of `getAllRestArguments` (query.ts:398-405).
- `Suggestions.FoundParent`, `LastArgument`, `IsBlockComplete` and `OpenSuggestions` are the fall-through branch of `getArgumentSuggestions` (query.ts:338-352).
- `Suggestions.ScanTyped` and `FindCurrentArgument` are the loop of `findCurrentArgument` and the function itself (query.ts:104-137).
- `Suggestions.Decide` is the answer the loop gives at one word (query.ts:111-133).

Modelling choices:

- JavaScript truthiness is written out. For example, a `token` counts only when present and non-empty, and `(i || 0) + 1` is `i + 1` for a number `i`.
- The grammar data is taken to carry `optional` and `multiple` only when they are true. Under that reading, the spread `{ multiple, optional, ...first }` in `fillArgsByType` is an "or" of the flags.
- Lodash's `toNumber` and the two argument names `ArgName.NArgs` and `ArgName.Count` are parameters (`Externals`). `NaN` is `None`.
- `Array(n)` with a negative or too-large `n` throws `RangeError`. That is modelled as `Result.RangeError`, and every caller passes it on.
- For `SET key "hello world"` with the cursor at the very end, the quoted argument goes to the list after the cursor. Inside quotes, `isAfterOffset` compares the index with `position - 1` (query.ts:37), so the closing quote, the last character, already counts as after the cursor.
- The model keeps these quirks exactly as the source has them:
  - In `splitQueryByArgs`, a backslash read before any quote character has been seen sets `escapeNextChar = !quoteChar`, which stays true. So the rest of the query becomes one argument (`BackslashBeforeAnyQuoteTakesTheRest`).
  - In `splitQueryByArgs`, a composite argument merged onto a side that is still empty changes nothing visible.
  - `getRestArguments` does not offer optional arguments that come before the first mandatory one when the stop is a later argument and some mandatory argument follows the stop or is the stop. See `NoEarlierMandatoryOffersOnlyTheStop` and `OptionalStopWithoutEarlierMandatory`. When every argument is optional, the whole level is offered (`AllOptionalOffersTheWholeLevel`).
  - `getRestArguments` reads index `0` as falsy (query.ts:363, 371 and 376). So a stop at the first argument of a level has no next mandatory argument, and the whole level is offered with nothing in front (`StopAtFirstOffersTheWholeLevel`).

## Model

| member | source | states |
|---|---|---|
| QueryTokenizer.CompositeIgnoresCase | redisinsight/ui/src/pages/workbench/utils/query.ts:469-470 | whether two words form a composite argument does not depend on their case |
| QueryTokenizer.TrimmedCharAt | redisinsight/ui/src/pages/workbench/utils/query.ts:95-96 | the cursor's neighbour is empty exactly when it is out of range or whitespace, otherwise it is that one character |
| QueryTokenizer.Finish | redisinsight/ui/src/pages/workbench/utils/query.ts:88-101 | a non-empty leftover argument goes to the end of the list after the cursor; the cursor reports the quote state, the trimmed characters on both sides, and the offsets recorded in the loop, or else the leftover's span `[length - |arg|, length)`, or else `0` and the recorded right offset |
| QueryTokenizer.SplitQueryByArgs | redisinsight/ui/src/pages/workbench/utils/query.ts:9-102 | the in-place scanning loop returns exactly the specified split |
| QueryTokenizer.EmitMergesOrPushes | redisinsight/ui/src/pages/workbench/utils/query.ts:20-28 | a composite argument is glued, after a space, onto the last argument of its side; any other argument is appended and becomes the last one; the other side is untouched |
| QueryTokenizer.SeparatorFlushesArgument | redisinsight/ui/src/pages/workbench/utils/query.ts:67-80 | outside quotes, a space or newline emits a non-empty argument on the cursor's side and empties the accumulator; with an empty accumulator it emits nothing |
| QueryTokenizer.AppendToLastKeepsNonEmpty | redisinsight/ui/src/pages/workbench/utils/query.ts:25-28 | merging onto the last argument keeps every argument non-empty |
| QueryTokenizer.EmitKeepsNonEmpty | redisinsight/ui/src/pages/workbench/utils/query.ts:20-28 | emitting a non-empty argument keeps both lists free of empty arguments |
| QueryTokenizer.ConsumeKeepsInvariant | redisinsight/ui/src/pages/workbench/utils/query.ts:39-83 | each branch of the loop keeps the scanner invariant: the quote character is a quote mark, an open quote's text holds it, no argument is empty |
| QueryTokenizer.ScanPrefixInvariant | redisinsight/ui/src/pages/workbench/utils/query.ts:35-86 | the scanner invariant holds after every prefix of the query |
| QueryTokenizer.QuotedArgumentKeepsItsQuotes | redisinsight/ui/src/pages/workbench/utils/query.ts:44-59 | the matching closing quote emits the argument with both quotes and leaves quoted mode with an empty accumulator |
| QueryTokenizer.ArgumentsAreNonEmpty | redisinsight/ui/src/pages/workbench/utils/query.ts:67-91 | no argument in either list is empty |
| QueryTokenizer.CursorQuoteStateAt | redisinsight/ui/src/pages/workbench/utils/query.ts:85 | after any prefix, the recorded cursor quote state is the quote state right after the character before the cursor, or false if the scan has not reached it |
| QueryTokenizer.CursorInQuotesIsStateBeforeCursor | redisinsight/ui/src/pages/workbench/utils/query.ts:85-94 | `isCursorInQuotes` is the quote state after the character before the cursor, and false at the start or past the end |
| QueryTokenizer.AfterListStartsAtCursor | redisinsight/ui/src/pages/workbench/utils/query.ts:37 | nothing is emitted after the cursor before the scan reaches it |
| QueryTokenizer.BeforeListSettles | redisinsight/ui/src/pages/workbench/utils/query.ts:20-23 | once the list after the cursor is started, the list before it never changes again |
| QueryTokenizer.PushKeepsSameCut | redisinsight/ui/src/pages/workbench/utils/query.ts:20-23 | pushing on either side keeps the two lists together equal to the list of a scan with the cursor at the start |
| QueryTokenizer.CutConsume | redisinsight/ui/src/pages/workbench/utils/query.ts:39-83 | one loop branch keeps a scan and a cursor-at-start scan of the same text in step, apart from the cut |
| QueryTokenizer.CutAt | redisinsight/ui/src/pages/workbench/utils/query.ts:35-86 | without composites, a scan with any cursor and a scan with the cursor at the start agree on everything but the cut |
| QueryTokenizer.CursorOnlyChoosesTheCut | redisinsight/ui/src/pages/workbench/utils/query.ts:9-102 | without composites, the cursor only decides where the argument list is cut: before plus after is the list of the query read with the cursor at the start |
| QueryTokenizer.EscapeRunsOn | redisinsight/ui/src/pages/workbench/utils/query.ts:39-41 | before any quote, an escape stays on and every following character joins the current argument, with nothing emitted |
| QueryTokenizer.BackslashBeforeAnyQuoteTakesTheRest | redisinsight/ui/src/pages/workbench/utils/query.ts:39-43 | a backslash read before any quote makes the rest of the query, separators included, one last argument after the cursor |
| QueryTokenizer.OffsetsSettle | redisinsight/ui/src/pages/workbench/utils/query.ts:49-71 | once an argument after the cursor has recorded non-zero offsets, no later character changes them |
| QueryTokenizer.NoOffsetsBeforeCursor | redisinsight/ui/src/pages/workbench/utils/query.ts:37-71 | while the scan is before the cursor, no offsets are recorded |
| Grammar.Tile | redisinsight/ui/src/pages/workbench/utils/query.ts:195 | `Array(n).fill(args).flat()` has n times as many entries as `args`, opens with `args` and repeats itself every `|args|` entries (so it is n copies of `args` in order), and nests no deeper |
| Grammar.FindArgByToken | redisinsight/ui/src/pages/workbench/utils/query.ts:463-467 | the result is the first node the word opens (a one-of group by any alternative, another node by its first argument, both case-insensitively); none exactly when no node is opened |
| Grammar.AddOwnTokenToArgs | redisinsight/ui/src/pages/workbench/utils/query.ts:483-488 | a node with arguments gets a pure token in front of them and nothing else changes; a node without arguments is returned unchanged |
| ArgumentMatcher.StepArg | redisinsight/ui/src/pages/workbench/utils/query.ts:168-279 | one word moves the matcher by at most two arguments and never counts more than it moves; rule by rule: past the grammar +1 and entered; a pure token +1 unentered; an unmatched optional argument +2 and entered; a block is entered exactly when it is current and the optional-skip does not apply; an exact token match blocks in place; a count of `0` moves +2, any other +1 and blocks; an optional one-of group +1, or +2 and entered when no alternative is the word; a repeatable argument opens a run and is passed once the run reaches the count before it, blocking until then; any other argument +1 and entered |
| ArgumentMatcher.CopiedBlockArguments | redisinsight/ui/src/pages/workbench/utils/query.ts:190-196 | the copy throws exactly for a multiple block with a non-zero count that is negative or too large for an array; a multiple block with a valid non-zero count gets its arguments tiled that many times; otherwise the block's own arguments |
| ArgumentMatcher.BlockArguments | redisinsight/ui/src/pages/workbench/utils/query.ts:189-206 | throws exactly when the copy throws; the result is the copied arguments, led by a pure token for the upper-cased word exactly when the block has a token, the word is not empty and the copy does not already open with that token; it nests less deeply than the grammar |
| ArgumentMatcher.RunOutcomeHolds | redisinsight/ui/src/pages/workbench/utils/query.ts:168-287 | from any point of the loop: no multiple block means no throw; no block means no parent; a final return keeps the grammar and bounds the stop index; a return from a block names a block of this level that stopped inside or is blocked |
| ArgumentMatcher.InBlockOutcome | redisinsight/ui/src/pages/workbench/utils/query.ts:189-228 | the block branch either skips the block, ending the loop one argument further on, or returns the block as parent with a walk that stopped inside it |
| ArgumentMatcher.FindStopOutcome | redisinsight/ui/src/pages/workbench/utils/query.ts:139-287 | over the whole walk: the stop index is at most twice the number of words, the entered count is at most the stop index, the grammar is returned unchanged without a parent, and a parent is a block of the grammar |
| ArgumentMatcher.EmptyGrammarRun | redisinsight/ui/src/pages/workbench/utils/query.ts:276-278 | with no grammar left, every remaining word moves the index and the entered count by one and unblocks |
| ArgumentMatcher.EmptyGrammarCountsEveryWord | redisinsight/ui/src/pages/workbench/utils/query.ts:139-287 | with an empty grammar, the stop index and the entered count both equal the number of words |
| ArgumentMatcher.FindStopArgumentInQuery | redisinsight/ui/src/pages/workbench/utils/query.ts:139-287 | the loop over the matcher's variables, recursing into blocks, returns exactly the specified walk |
| ArgumentMatcher.WalkBlock | redisinsight/ui/src/pages/workbench/utils/query.ts:189-228 | the block branch of the loop returns exactly the specified block walk |
| ArgumentMatcher.BuildBlockArguments | redisinsight/ui/src/pages/workbench/utils/query.ts:189-206 | the in-place copy, tiling and unshift of the block branch return exactly the specified block arguments |
| Suggestions.GetRestArguments | redisinsight/ui/src/pages/workbench/utils/query.ts:355-389 | nothing is offered without a current node or its arguments; every offered entry has the current node as its parent and is one of its arguments or an alternative of one of its one-of groups |
| Suggestions.IndexOfName | redisinsight/ui/src/pages/workbench/utils/query.ts:359-360 | the first argument with the given name, or -1 when none has it |
| Suggestions.MandatoryFrom | redisinsight/ui/src/pages/workbench/utils/query.ts:363-364 | the first mandatory argument from the given position on, or -1 when all from there are optional |
| Suggestions.LastMandatoryIndex | redisinsight/ui/src/pages/workbench/utils/query.ts:366-367 | the last mandatory argument, or -1 when all are optional |
| Suggestions.Offer | redisinsight/ui/src/pages/workbench/utils/query.ts:370-388 | every offered argument is one of the level's arguments or an alternative of one of its one-of groups |
| Suggestions.OfferBetween | redisinsight/ui/src/pages/workbench/utils/query.ts:370-388 | between a previous mandatory argument p and a next one n: the alternatives of n when it is a group, then n when it has a token, then the arguments from p up to n |
| Suggestions.OfferWithoutNext | redisinsight/ui/src/pages/workbench/utils/query.ts:370-388 | without a next mandatory argument: every argument after the previous mandatory one |
| Suggestions.OptionalStopOffersUpToNextMandatory | redisinsight/ui/src/pages/workbench/utils/query.ts:355-389 | stopped at an optional argument, the offer is the next mandatory argument (its alternatives for a group, itself when it has a token), then the previous mandatory argument and every optional one up to the next |
| Suggestions.OptionalStopAfterLastMandatory | redisinsight/ui/src/pages/workbench/utils/query.ts:355-389 | stopped at an optional argument with no mandatory argument after it, the offer is everything after the last mandatory argument before it |
| Suggestions.StopElsewhereOffersTheTail | redisinsight/ui/src/pages/workbench/utils/query.ts:355-389 | with no stop, or a stop that is not an argument of this level, the offer is everything after the last mandatory argument among all but the last one, or the whole level |
| Suggestions.StopAtFirstOffersTheWholeLevel | redisinsight/ui/src/pages/workbench/utils/query.ts:359-388 | stopped at the first argument of a level, the whole level is offered with nothing in front, because index `0` is falsy |
| Suggestions.OptionalStopWithoutEarlierMandatory | redisinsight/ui/src/pages/workbench/utils/query.ts:359-388 | stopped at an optional argument after the first, with only optional arguments before the next mandatory one, the offer is that mandatory argument alone (its alternatives for a group, itself when it has a token); the optional arguments around the stop are not offered |
| Suggestions.AllOptionalOffersTheWholeLevel | redisinsight/ui/src/pages/workbench/utils/query.ts:359-388 | on a level whose arguments are all optional, any stop of the level gets the whole level offered |
| Suggestions.RestListAtMandatory | redisinsight/ui/src/pages/workbench/utils/query.ts:359-388 | stopped at a mandatory argument, the offer is its alternatives (for a group), then itself (if it has a token), then the previous mandatory argument and the optional ones between them |
| Suggestions.NextMandatoryLeadsTheRest | redisinsight/ui/src/pages/workbench/utils/query.ts:355-389 | the same for `getRestArguments`, with the current node as parent of every entry |
| Suggestions.PrevMandatoryIsTheLastBefore | redisinsight/ui/src/pages/workbench/utils/query.ts:366-368 | with distinct names, `prevMandatoryIndex` is the position of the last mandatory argument before the stop |
| Suggestions.NoEarlierMandatoryOffersOnlyTheStop | redisinsight/ui/src/pages/workbench/utils/query.ts:355-389 | with named arguments and no mandatory one before the stop, only the stop (or its alternatives) is offered, not the optional arguments before it |
| Suggestions.RemoveNotSuggestedArgs | redisinsight/ui/src/pages/workbench/utils/query.ts:417-433 | the result is a subsequence of the input, holding only still-suggested arguments and every still-suggested one |
| Suggestions.RemoveNotSuggestedKeepsEveryCopy | redisinsight/ui/src/pages/workbench/utils/query.ts:417-433 | each still-suggested argument is kept as many times as it occurs, and no other is kept |
| Suggestions.RemoveNotSuggestedIsIdempotent | redisinsight/ui/src/pages/workbench/utils/query.ts:417-433 | filtering a second time removes nothing more |
| Suggestions.NothingTypedKeepsTokens | redisinsight/ui/src/pages/workbench/utils/query.ts:417-433 | with nothing typed, every argument that has a token is kept |
| Suggestions.FillArgsByType | redisinsight/ui/src/pages/workbench/utils/query.ts:435-461 | the in-place loop builds exactly the specified entries |
| Suggestions.FillArgsConcat | redisinsight/ui/src/pages/workbench/utils/query.ts:435-461 | filling a list is filling its two halves one after the other |
| Suggestions.FillArgsSnoc | redisinsight/ui/src/pages/workbench/utils/query.ts:438-458 | filling a list with one more argument appends that argument's entries |
| Suggestions.FillArgsKeepsTokenedArguments | redisinsight/ui/src/pages/workbench/utils/query.ts:450-452 | arguments that all have tokens pass through unchanged |
| Suggestions.FillArgsEntriesComeFromArguments | redisinsight/ui/src/pages/workbench/utils/query.ts:441-458 | every entry is a given argument or has one as its parent chain |
| Suggestions.GetAllRestArguments | redisinsight/ui/src/pages/workbench/utils/query.ts:391-415 | one group per level, from the current node up to the root (the first one dropped when skipped); the first group is this level's filtered and unfolded offer, and the group for the ancestor k levels up is that ancestor's offer with the node just below it as the stop |
| Suggestions.OutermostGroupIsTheRoot | redisinsight/ui/src/pages/workbench/utils/query.ts:408-412 | the last group is the offer at the outermost ancestor, with the node just below it as the stop |
| Suggestions.CountMandatory | redisinsight/ui/src/pages/workbench/utils/query.ts:349 | no mandatory argument is left exactly when all the remaining arguments are optional |
| Suggestions.NoMandatoryLeft | redisinsight/ui/src/pages/workbench/utils/query.ts:345-348 | no mandatory argument is left from the stop on exactly when all the arguments from there are optional |
| Suggestions.GetArgumentSuggestions | redisinsight/ui/src/pages/workbench/utils/query.ts:289-353 | throws exactly when the walk does; the stop argument is the one where the walk stopped; a blocked walk blocks unless the stop is one-of-like, and then appends the stop's alternatives as one group; between two mandatory arguments it blocks unless the stop has a token or is one-of-like, and then appends one group (the alternatives, or the stop itself); any other walk does not block and appends `getAllRestArguments` from the found parent, with the stop (or the first rest argument) and the block-complete flag; the answer is complete exactly when the walk was free and only optional arguments remain |
| Suggestions.TokenIndex | redisinsight/ui/src/pages/workbench/utils/query.ts:119-121 | the first argument whose token equals the word case-insensitively, or -1 when there is none |
| Suggestions.LastRecognized | redisinsight/ui/src/pages/workbench/utils/query.ts:110-134 | the position of the last typed word that opens a block or is a token of the level, with none of the later words doing either, or -1 |
| Suggestions.TokenFound | redisinsight/ui/src/pages/workbench/utils/query.ts:123-133 | a found token always answers, with the given parent or else that argument as parent, and its suggestions (and whether it throws) are those of `getArgumentSuggestions` for the typed words from the token on, over the arguments from the token on under a parent, or over the token alone |
| Suggestions.ScanTypedOutcome | redisinsight/ui/src/pages/workbench/utils/query.ts:110-136 | the recursive outcome of the backwards scan over the words before position i: nothing when no word means anything here; an answer when the last word is a plain token; a parent that extends the given one or is rooted in this level |
| Suggestions.DescendOutcome | redisinsight/ui/src/pages/workbench/utils/query.ts:112-117 | a word that opens a block continues the scan inside it, and the parent reported from there extends the chain of that block under the given parent |
| Suggestions.ChainThroughBlock | redisinsight/ui/src/pages/workbench/utils/query.ts:113-116 | a chain that ends with a block's chain ends with the chain of the block's parent, or with the block itself when it has none |
| Suggestions.ScanAnswersFromLastRecognized | redisinsight/ui/src/pages/workbench/utils/query.ts:110-136 | the backwards scan passes over the words after the last recognised one, and that word alone decides the answer; with none, the answer is `null` |
| Suggestions.FindCurrentArgumentScanOutcome | redisinsight/ui/src/pages/workbench/utils/query.ts:104-137 | a whole scan has the outcome described for `ScanTypedOutcome` |
| Suggestions.FindCurrentArgumentOutcome | redisinsight/ui/src/pages/workbench/utils/query.ts:104-137 | the last word that means something at this level decides the answer (by the block it opens or by its token), and there is none when no word does; an answer exists when the last word is a token opening no block; the reported parent extends the given one, or is rooted at an argument of the level |
| AiAssistant.GetTabSelected | redisinsight/ui/src/slices/panels/aiAssistant.ts:14-17 | the tab is `Query` exactly when the stored value is the query tab's value, otherwise `Assistance` |
| AiAssistant.TabRoundTrip | redisinsight/ui/src/slices/panels/aiAssistant.ts:14-17 | reading back the stored value of a tab gives that tab |
| AiAssistant.UnknownTabIsAssistance | redisinsight/ui/src/slices/panels/aiAssistant.ts:14-17 | a value that names no tab (or nothing stored) selects `Assistance` |
| AiAssistant.WithError | redisinsight/ui/src/slices/panels/aiAssistant.ts:93-96 | the messages keep their length, order, ids and contents; only those with the given id get the new error |
| AiAssistant.WithErrorOfUnknownId | redisinsight/ui/src/slices/panels/aiAssistant.ts:93-96 | an id no message has changes nothing |
| AiAssistant.WithErrorIsIdempotent | redisinsight/ui/src/slices/panels/aiAssistant.ts:93-96 | setting the same error twice is setting it once |
| AiAssistant.WithErrorCommutes | redisinsight/ui/src/slices/panels/aiAssistant.ts:93-96 | errors set on two different ids do not interfere |
| AiAssistant.WithFreshIds | redisinsight/ui/src/slices/panels/aiAssistant.ts:64 | a missing payload gives no messages; otherwise each message keeps everything but its id, which becomes `ai_` and a fresh uuid |
| AiAssistant.FreshIdsArePrefixed | redisinsight/ui/src/slices/panels/aiAssistant.ts:64 | every loaded message id starts with `ai_` |
| AiAssistant.AiAssistantState.constructor | redisinsight/ui/src/slices/panels/aiAssistant.ts:19-29 | the initial state: the stored tab (via `getTabSelected`), the stored session id or `''`, no messages, nothing loading |
| AiAssistant.AiAssistantState.SetSelectedTab | redisinsight/ui/src/slices/panels/aiAssistant.ts:37-40 | the tab becomes the payload; both chats are unchanged |
| AiAssistant.AiAssistantState.CreateAssistantChat | redisinsight/ui/src/slices/panels/aiAssistant.ts:41-45 | the assistant is loading with an empty session id; messages, expert and tab are unchanged |
| AiAssistant.AiAssistantState.CreateAssistantSuccess | redisinsight/ui/src/slices/panels/aiAssistant.ts:46-51 | the session id is the payload and loading stops; the rest is unchanged |
| AiAssistant.AiAssistantState.ClearAssistantChatId | redisinsight/ui/src/slices/panels/aiAssistant.ts:52-55 | only the session id is cleared |
| AiAssistant.AiAssistantState.CreateAssistantFailed | redisinsight/ui/src/slices/panels/aiAssistant.ts:56-58 | only the assistant's loading flag is cleared |
| AiAssistant.AiAssistantState.GetAssistantChatHistory | redisinsight/ui/src/slices/panels/aiAssistant.ts:59-61 | only the assistant's loading flag is set |
| AiAssistant.AiAssistantState.GetAssistantChatHistorySuccess | redisinsight/ui/src/slices/panels/aiAssistant.ts:62-65 | loading stops and the messages become the loaded history with fresh ids; the session id, expert and tab are unchanged |
| AiAssistant.AiAssistantState.GetAssistantChatHistoryFailed | redisinsight/ui/src/slices/panels/aiAssistant.ts:66-68 | only the assistant's loading flag is cleared |
| AiAssistant.AiAssistantState.RemoveAssistantChatHistory | redisinsight/ui/src/slices/panels/aiAssistant.ts:69-71 | only the assistant's loading flag is set |
| AiAssistant.AiAssistantState.RemoveAssistantChatHistorySuccess | redisinsight/ui/src/slices/panels/aiAssistant.ts:72-77 | the assistant chat is not loading, has no messages and no session id; expert and tab are unchanged |
| AiAssistant.AiAssistantState.RemoveAssistantChatHistoryFailed | redisinsight/ui/src/slices/panels/aiAssistant.ts:78-80 | only the assistant's loading flag is cleared |
| AiAssistant.AiAssistantState.SendQuestion | redisinsight/ui/src/slices/panels/aiAssistant.ts:81-83 | the question is appended as the last assistant message; everything else is unchanged |
| AiAssistant.AiAssistantState.SetQuestionError | redisinsight/ui/src/slices/panels/aiAssistant.ts:84-98 | the assistant messages with the given id get the error; everything else is unchanged |
| AiAssistant.AiAssistantState.SendAnswer | redisinsight/ui/src/slices/panels/aiAssistant.ts:99-101 | the answer is appended as the last assistant message; everything else is unchanged |
| AiAssistant.AiAssistantState.GetExpertChatHistory | redisinsight/ui/src/slices/panels/aiAssistant.ts:102-104 | only the expert's loading flag is set |
| AiAssistant.AiAssistantState.GetExpertChatHistorySuccess | redisinsight/ui/src/slices/panels/aiAssistant.ts:105-108 | the expert chat is not loading and holds the loaded history with fresh ids; assistant and tab are unchanged |
| AiAssistant.AiAssistantState.GetExpertChatHistoryFailed | redisinsight/ui/src/slices/panels/aiAssistant.ts:109-111 | only the expert's loading flag is cleared |
| AiAssistant.AiAssistantState.SendExpertQuestion | redisinsight/ui/src/slices/panels/aiAssistant.ts:112-114 | the question is appended as the last expert message; assistant and tab are unchanged |
| AiAssistant.AiAssistantState.SetExpertQuestionError | redisinsight/ui/src/slices/panels/aiAssistant.ts:115-129 | the expert messages with the given id get the error; assistant and tab are unchanged |
| AiAssistant.AiAssistantState.SendExpertAnswer | redisinsight/ui/src/slices/panels/aiAssistant.ts:130-132 | the answer is appended as the last expert message; assistant and tab are unchanged |
| AiAssistant.AiAssistantState.ClearExpertChatHistory | redisinsight/ui/src/slices/panels/aiAssistant.ts:133-135 | only the expert messages are emptied |
| AiAssistant.AskAndFail | redisinsight/ui/src/slices/panels/aiAssistant.ts:81-98 | a new question followed by its failure leaves the earlier messages as they were and the question, with the error, last |

## Left out

- `generateDetail` (query.ts:473-481) is not modelled. It calls `generateArgsNames`, which is not part of this model.
- Session-storage reads and writes in the reducers and in the initial state are not modelled. The stored tab and session id are constructor parameters, and the writes have no effect on the state.
- The `uuidv4` generator is a parameter `uuid: nat -> string`, giving the id of the k-th loaded message. The model does not claim the ids are unique.
- The async thunks of the AI slice (network calls, streaming, callbacks) are not modelled.
- The type `AiChatMessage` is not part of this model. A message carries its id, its type, its content and its error. Other fields are not modelled.
- `AiChatType` has two values, assumed to be stored as `'assistance'` and `'query'`; the enum's definition is not part of this model.
- Case mapping (`toUpperCase`, `toLowerCase`) is ASCII only; other letters are left as they are.
- Lodash's `toNumber` is a parameter returning an integer or `NaN`. Fractional and infinite numbers are not modelled.
- ArgumentMatcher.BlockArguments: a multiple block without `arguments` makes the source tile `undefined`. The model tiles an empty list.
- Suggestions.GetArgumentSuggestions: a one-of-like stop can lack `arguments`. That is a one-of group without `arguments`, or a pure token under a one-of parent, which never has any. A blocked walk then appends `[undefined]`, a group that is itself `undefined` (query.ts:321). The between-mandatory branch appends `[[undefined]]`, a group holding `undefined` after `flat()` (query.ts:328). In both cases the model appends an empty group.
- Grammar nodes are read as plain JSON objects. The model assumes they have no `parent` of their own and that `optional` and `multiple` appear only when true.
- Strings are sequences of Unicode scalar values, while JavaScript indexes strings by UTF-16 code units. For a query with characters outside the Basic Multilingual Plane, the source's indices differ from the model's. These are the cursor `position`, `query.length`, `prevCursorChar`/`nextCursorChar` and `argLeftOffset`/`argRightOffset`.
