# Verified model of an operations assistant

The repository is an assistant for a compute centre: an agent server that answers users, MCP servers that search
manuals and run commands on remote hosts, and an administrator console. This project models the hand-written logic of
nine of its parts in Dafny and proves what each of them promises, over all inputs or all runs.

| part | modules | what is proved |
|---|---|---|
| chart markers in a streamed answer | `ChartInline`, `ChartStreaming`, `ChartTokens`, `ChartConverse`, `ChartFailures` | for every fetcher a stream makes the same fetches as the whole text; the two texts agree for all fetchers and all cuts exactly when no chart id contains the letter `c`; with failing fetches, exactly when none fails before the last emission; held text is bounded, nothing is lost, each chart is fetched successfully once |
| argument lists and remote shells | `Shlex`, `ShellWords`, `PosixShell`, `RemoteCommand`, `ArgumentValues`, `ArgvScreens`, `ExecutionArgv` | rendering replaces placeholders in one pass; the remote shells undo the quoting; in the two `su` modes exactly when the first word is neither an assignment nor a reserved word |
| privilege-drop fallback | `PrivilegeDrop` | attempts over any sequence of calls are exactly the calls plus the facts learned |
| stream de-duplication | `StreamDedup` | well-sent messages arrive once and whole; for arbitrary partial texts the exact condition |
| answer guard | `AnswerGuard`, `AnswerPatterns`, `AnswerRules`, `AnswerGrounding`, `AnswerReview` | no unsupported address or path comes out; reviewing is idempotent; more evidence never removes more |
| budgets and raw outputs | `Budgets`, `RawOutputs`, `OutputRules` | the longest end that fits; all printed outputs read back as themselves exactly when no heading is a row of backticks |
| embedding | `EmbeddingCache`, `Embedding` | batches agree with single texts; over a whole run every text gets its own embedding, and the failure run is counted across batches |
| chunking, paging, tool names | `Chunking`, `ChunkRules`, `DocumentPaging`, `ToolNames`, `NameRules` | conservation of text; a reader sees every chunk once; tool names stay valid and distinct whatever is uploaded |
| manuals and memory | `ManualStore`, `ManualTables`, `ManualRules`, `PublishProtocol`, `PublishRaces`, `MemoryStore`, `MemoryWatermark`, `MemoryRaces`, `MemoryRaceRuns` | one published version per title in every interleaving; current vectors, distinct versions and frozen texts in every interleaving with the waiting that each needs; exactly when the summary watermark is exact, in serial runs and in every interleaving |

`Text` holds the string operations the others share, `TextLaws` says what they mean, and `Selections` what it is to keep
some elements of a list in their order. `dafny verify dfyconfig.toml` checks everything.

The functions of the model follow the code. What they mean is said a second time without them, with positions,
characters and rows: `ChartTokens`, `ShellWords`, `ArgvScreens`, `AnswerPatterns`, `AnswerRules`, `OutputRules`,
`ChunkRules`, `NameRules`, `ManualRules`, and parts of the other modules.

Objects that the source updates are classes (`ChartInliner`, `SshRunner`, `Dedup`, `AnswerGuard`, `Collector`,
`Embedder`, `Commands`, `Manuals`, `Memories`), and loops are loops; each method is tied to a function or relation of
the old state, and the theorems are about that function. The world outside is a parameter: the chart fetcher, the ssh
server, the embedding server, the summariser, base64, SHA-1, lower case, white space and Python's `int()` are functions
about which only what a lemma states is assumed.

## Where the code does less than its text says

* The module text of the chart filter promises that only a tail that may still become a marker is held. The first rule
  of the holdback also takes a trailing `c` of an id for the start of a new marker and releases the torn marker before
  it. `ChartConverse.StreamingMatchesWholeExactly` gives the exact condition: the law holds for a text if and only if
  no chart id in it contains a `c`.
* When a fetch fails, every later emission of a stream that lacks the failure notice gets one, so a stream may say
  several times what the whole text says once (`ChartFailures.FailureSaidTwice`). For texts that do not mention the
  failure themselves, the two agree if and only if no fetch fails in front of the last emission
  (`ChartFailures.AgreeIffFailuresAreLast`).
* `shlex.quote` leaves reserved words and assignment words bare, so `su -c` does not run a program whose name is one of
  them. `RemoteCommand.ArgvArrives` states this as an equivalence.
* The argument list of a registered command is empty when all its tokens render to nothing; there is then no program to
  start (`ExecutionArgv.NothingLeftIff`).
* An output whose command consists of backticks only, with no backtick in what is said about it, is printed under a
  heading that opens a code block of its own (`RawOutputs.ReadsBackIff`, `RawOutputs.BacktickIsNotReadBack`).
* In a conversation that two users share, a summary by one moves the watermark over the turns of the other, which then
  stay out of every summary for as long as the user of the conversation row is not deleted
  (`MemoryWatermark.PassedOverStaysOut`). Deleting that user while turns of others remain resets the watermark: turns
  passed over are pending again, and turns already summarised are handed out a second time
  (`MemoryWatermark.HandedOutTwice`). In serial runs nothing else ends the exactness of the watermark
  (`MemoryWatermark.ExactKeptIff`, `MemoryWatermark.ExactThroughoutIff`).
* The agent records and summarises in background tasks that overlap. Then a single user is enough: of two overlapping
  summaries the later one to store hands turns out again and can lower the watermark
  (`MemoryRaceRuns.SummariesMustWait`), and a recording that commits after a later one was summarised leaves a turn that
  the watermark has passed (`MemoryRaceRuns.CommitsCanBeLate`). A deletion that overlaps with a recording can leave a
  turn that is pending again (`MemoryRaceRuns.DeletionsMustWait`). `MemoryRaces` names the statements that end
  exactness, proves that no others do, and proves exactness for every interleaving with the waiting that it needs.
* Four promises about manuals hold for requests that run one after the other, and at the same time only if some of them
  wait. Each is proved for every interleaving with that waiting, and for the statement that breaks it an equivalence
  says when it does (`PublishProtocol`, `PublishRaces`): versions of a title are distinct unless two uploads of it
  overlap; a stored vector belongs to the current text unless an edit lands while a publication or a repair still has
  the vector of the old text to store; texts outside drafts are frozen unless a document is published between the check
  and the write of an edit; a published row stays unless it was published between the check and the `DELETE` of a
  deletion.
* A title whose row is deleted while it is being published is left with no published version
  (`PublishProtocol.CommitLeavesOne`, `PublishRaces.DeletionLeavesNone`).
* The pieces of a long text rebuild it exactly when every empty paragraph stands behind text and its separator still
  fits into the piece (`Chunking.PiecesRebuildTextIff`); a text that begins with a blank line is never given back
  (`Chunking.LeadingBlankIsLost`).

## Model

| member | source | states |
|---|---|---|
| ChartInline.HexRunMaximal | shared/chart_inline.py:28-29 | a run of digits is as long as it can be below its cap |
| ChartTokens.TokenLenIff | shared/chart_inline.py:26-29 | a match is the marker and `k` digits if and only if the marker stands there, 16 to 64 hexadecimal digits follow, and no further one does unless there are 64 |
| ChartTokens.FirstChart | shared/chart_inline.py:75-107 | text up to the first marker is copied, the marker with its whole id becomes the picture of that id, and then the rest is replaced |
| ChartTokens.OneChartText | shared/chart_inline.py:90-125 | a finished text with one chart holds the URI of the picture of the whole id in its place, or nothing there and the notice behind |
| ChartTokens.SubstituteIs | shared/chart_inline.py:75-107 | for any text and any state: chart after chart becomes its picture, fetched at most once, and the notice stands behind exactly when a fetch failed and the text does not say so |
| ChartTokens.HoldbackIs | shared/chart_inline.py:38-53 | held back is the longest beginning of a marker at the end, or else a last marker with fewer than 64 digits and nothing else behind it, or nothing |
| ChartInline.Holdback | shared/chart_inline.py:38-53 | the cut lies in the buffer and leaves at most 71 characters |
| ChartInline.ChartInliner.constructor | shared/chart_inline.py:68-73 | a new filter holds nothing and has fetched nothing |
| ChartInline.ChartInliner.FetchDataUri | shared/chart_inline.py:75-88 | a cached URI, or one fetch whose picture is cached when there is one |
| ChartInline.ChartInliner.SubstituteText | shared/chart_inline.py:90-107 | every match in order becomes its URI or nothing, counters and notice included |
| ChartInline.ChartInliner.Feed | shared/chart_inline.py:109-116 | releases the replacement of the buffer up to the holdback and keeps the rest |
| ChartInline.ChartInliner.Flush | shared/chart_inline.py:118-121 | releases the replacement of what is held |
| ChartInline.ChartInliner.Whole | shared/chart_inline.py:123-125 | the replacement of a finished text |
| ChartStreaming.SubstituteIsReplace | shared/chart_inline.py:90-107 | the loop over matches is the leftmost replacement of the text, each fetch seeing the cache and counters the earlier ones left |
| ChartStreaming.ReplaceSplit | shared/chart_inline.py:90-107 | for every fetcher, a cut that tears no marker splits the replacement: first the left side, then the right side with what the left one left |
| ChartStreaming.HoldbackClean | shared/chart_inline.py:38-53 | on a text whose ids avoid `c` the holdback never cuts through a marker, whatever follows |
| ChartStreaming.StreamedEmits | shared/chart_inline.py:109-121 | deltas and flush release what the texts handed over become one after the other, and the buffer is empty at the end |
| ChartStreaming.SameFetches | shared/chart_inline.py:75-125 | for every fetcher, state and cut of a text whose ids avoid `c`: the same fetches in the same order, the same cache and the same counters as for the whole text |
| ChartStreaming.StreamingMatchesWhole | shared/chart_inline.py:90-125 | for every fetcher and every cut of such a text, what is streamed equals the whole-text replacement whenever no fetch failed |
| ChartStreaming.NoticesDecide | shared/chart_inline.py:90-107 | with failing fetches too: the stream is longer by one notice for each emission that gets one, and equals the whole text if and only if as many emissions get it as the whole text does |
| ChartFailures.AgreeIffFailuresAreLast | shared/chart_inline.py:90-121 | for a text that does not mention the failure, with any fetcher and any cut: stream and whole text agree if and only if no fetch fails in the text in front of the last emission that is not empty |
| ChartFailures.FailureSaidTwice | shared/chart_inline.py:90-107 | a text, a cut and a fetcher for which they differ |
| ChartConverse.UnsafeDiffers | shared/chart_inline.py:38-53 | every text with an id containing `c` has a two-part cut and a fetcher that never fails for which the two differ |
| ChartConverse.StreamingMatchesWholeExactly | shared/chart_inline.py:38-125 | over all fetchers and all cuts, streaming agrees with the whole text whenever no fetch failed, if and only if no id contains `c` |
| ChartStreaming.EveryRun | shared/chart_inline.py:38-121 | in every run, whatever the fetcher does, at most 71 characters are held and each chart is fetched successfully at most once |
| ChartStreaming.CutsRebuild | shared/chart_inline.py:109-121 | the texts that deltas and flush hand to the replacement make up, in order, exactly the text received |
| ChartStreaming.NothingLost | shared/chart_inline.py:109-116 | at every moment the text handed over so far and the text held make up the text received |
| ChartStreaming.HeldIsBuffer | shared/chart_inline.py:109-116 | the text held in that accounting is the buffer of the running filter |
| Shlex.LexQuoteJoin | shared/ssh_exec.py:209-215 | a POSIX shell splits quoted and joined words back into exactly those words |
| Shlex.SplitInvertsQuoteJoin | shared/execution_exec.py:289-296 | `shlex.split` undoes `shlex.quote` and joining, for all words |
| Shlex.BareIff | shared/ssh_exec.py:209-215 | a word stays without quotation marks exactly when it is not empty and holds only the listed characters |
| ShellWords.SplitIff | shared/execution_exec.py:289-296 | `shlex.split` accepts a line exactly when it is white space around words of plain, escaped and quoted pieces, and returns what these mean |
| RemoteCommand.UserShellRunsArgv | shared/ssh_exec.py:212-216 | the user's shell runs exactly the words of the `-c` string if and only if the first is neither an assignment nor a reserved word |
| RemoteCommand.BodyIsQuoteJoin | shared/ssh_exec.py:198-216 | in all three modes the body is a quoted and joined word list |
| RemoteCommand.ReadCdHome | shared/ssh_exec.py:219-239 | the change to the home directory is a command of its own in front of the body |
| RemoteCommand.RootShellRuns | shared/ssh_exec.py:198-239 | in all three modes the root shell runs the intended program with the intended words |
| RemoteCommand.ArgvArrives | shared/ssh_exec.py:198-239 | through one or two shells, in the home directory and under the account of the caller, the remote side runs exactly the original words, with the exact condition for the `su` modes |
| ExecutionArgv.RenderArgv | shared/execution_exec.py:369-377 | tokens are fixed before substitution, each is rendered on its own and checked |
| ExecutionArgv.SlotIff | shared/execution_exec.py:66 | a placeholder is a name in braces: a letter or underscore, then letters, digits and underscores |
| ExecutionArgv.RenderUpTo | shared/execution_exec.py:369-377 | text without an opening brace stays |
| ExecutionArgv.RenderAt | shared/execution_exec.py:369-377 | a placeholder becomes its value, or stays when it has none, and an opening brace of no placeholder stays |
| ExecutionArgv.AcceptedIff | shared/execution_exec.py:275-296 | a command is accepted exactly when it splits into words, at least one, and extra arguments exactly when they are at most 32, all free of control characters, of at most 512 characters and more than an operator |
| ExecutionArgv.RenderReplacesParts | shared/execution_exec.py:369-377 | a token is a sequence of characters and placeholders and each is replaced once; values are never looked at again |
| ExecutionArgv.RenderUsesOwnNames | shared/execution_exec.py:369-377 | a token depends only on the values of the names it mentions |
| ExecutionArgv.WholeSlotIsVerbatim | shared/execution_exec.py:369-377 | a token that is one placeholder becomes exactly the value, whatever it contains |
| ExecutionArgv.NonEmptyKeepsOrder | shared/execution_exec.py:411 | dropping empty tokens works token by token and keeps the order |
| ExecutionArgv.NonEmptyDropsOnlyEmpty | shared/execution_exec.py:411 | exactly the empty tokens are dropped |
| ExecutionArgv.NothingLeftIff | shared/execution_exec.py:411-435 | no token is left exactly when every rendered token and the extra list are empty |
| ExecutionArgv.FillValues | shared/execution_exec.py:399-410 | the last definition of each name decides: a given value, cast to its kind, and only without one the default; with neither the slot is empty, or an error if required; `user_id` is the caller; it fails exactly when some definition has no fitting value |
| ArgumentValues.ArgValueIff | shared/execution_exec.py:351-366 | which text an argument gets: the value itself for text, its integer form, or the value itself if some choice offers it |
| ArgumentValues.ChoiceValueIff | shared/execution_exec.py:140-152 | a choice offers the word in front of a colon and white space with a description, or else the whole stripped text |
| ArgumentValues.FillsOneWay | shared/execution_exec.py:399-409 | these conditions leave exactly one way to fill the slots |
| ExecutionArgv.ScanDenied | shared/execution_exec.py:160-183 | a token is refused if and only if the list is not empty and holds its stripped small form, which is neither path nor option, or in the strict screen the last path part of a stretch between separators |
| ExecutionArgv.RejectOtherUser | shared/execution_exec.py:207-248 | accepted if and only if no word of any token names another account by any of the three spellings |
| ArgvScreens.DeniedIff | shared/execution_exec.py:155-183 | the two screens, said with stretches and characters |
| ArgvScreens.IsFixedIff | shared/execution_exec.py:424-427 | a token repeats an option when a word of the template that begins with `-` equals it or its part before the first `=` |
| ArgvScreens.NamesOtherIff | shared/execution_exec.py:230-248 | the three spellings, in the order in which they are tried |
| ArgvScreens.WordsIff | shared/execution_exec.py:193-204 | the words of a token are its stretches between white space, in order |
| ArgvScreens.AllWordsAre | shared/execution_exec.py:193-204 | the words of several tokens are those of one after the other |
| ExecutionArgv.ExtraRefused | shared/execution_exec.py:414-430 | extra tokens pass if and only if they are allowed, not denied and do not repeat a fixed option |
| ExecutionArgv.BuildRegisteredArgv | shared/execution_exec.py:394-435 | what is returned, and when, said with the written command, the definitions, the values and the screens: exactly the filled template words that are not empty, followed by the extra words |
| ExecutionArgv.BuildsIff | shared/execution_exec.py:394-435 | the conditions and the result, both directions, without the functions that split, fill and screen |
| ExecutionArgv.RunRegistered | shared/execution_exec.py:394-435 | end to end: whenever an argument list is built, the remote program receives exactly this list as the caller, and the list is empty exactly when all tokens render to nothing and there are no extra ones |
| ExecutionArgv.BuildFreeArgv | shared/execution_exec.py:438-453 | the filled words and the extra words, if and only if every stretch of them passes the strict screens |
| ExecutionArgv.ReplaceUserFirst | shared/execution_exec.py:442 | the first placeholder of the caller is replaced and the search goes on behind it |
| ExecutionArgv.ReplaceUserNone | shared/execution_exec.py:442 | without a placeholder the token stays |
| PrivilegeDrop.SshRunner.Run | shared/ssh_exec.py:601-631 | the modes tried and the facts kept are those the replies call for, and the reply is the one to the last attempt |
| PrivilegeDrop.CallIsTried | shared/ssh_exec.py:522-627 | another attempt follows exactly a reply with code 126 or 127 whose error text says that `runuser` or the program is missing; which mode follows, what is remembered, and that nothing else is |
| PrivilegeDrop.LearnOneFact | shared/ssh_exec.py:611-627 | a failure that leads to another attempt teaches exactly one new fact and lowers the mode |
| PrivilegeDrop.CallLearns | shared/ssh_exec.py:533-546 | within a call modes strictly descend, at most three are tried, and each further attempt is one new fact |
| PrivilegeDrop.LearnedCommandTriedOnce | shared/ssh_exec.py:533-538 | a command known to need a login shell is tried once, there |
| PrivilegeDrop.DowngradedNeverRunuser | shared/ssh_exec.py:528-538 | after the downgrade `runuser` is never tried again |
| PrivilegeDrop.TotalAttempts | shared/ssh_exec.py:522-631 | over any calls and any server behaviour attempts equal calls plus the downgrade plus the distinct names learned |
| PrivilegeDrop.LearningPersists | shared/ssh_exec.py:522-531 | what was learned is never forgotten |
| StreamDedup.Dedup.FeedEvent | agent_server/main.py:765-782 | the new text of an event: what it adds to the streamed text, all of a partial text that does not extend it, nothing of a final one; and the new state |
| StreamDedup.EmptyEventsIgnored | agent_server/main.py:765-782 | empty events change nothing anywhere in a stream |
| StreamDedup.MessageIntactIff | agent_server/main.py:749-782 | for any partial texts a message comes out as its final text if and only if that text begins with what was streamed, and otherwise nothing more is sent |
| StreamDedup.NothingRepeatedOrLost | agent_server/main.py:749-782 | for cumulative texts, pure deltas or final texts only, what is sent and `full` are the concatenated final texts |
| AnswerReview.AnswerGuard.constructor | agent_server/main.py:573-578 | the evidence starts with the question and the environment text |
| AnswerReview.AnswerGuard.SeedRag | agent_server/main.py:580-593 | hits of the preliminary search are evidence; the manual counts as searched only with hits |
| AnswerReview.AnswerGuard.Observe | agent_server/main.py:595-605 | tool responses are evidence; the manual counts as searched when some called tool has `manual` in its small name |
| AnswerReview.AnswerGuard.UngroundedIn | agent_server/main.py:607-615 | the collected values are exactly the texts the searches for addresses and for paths come to and the evidence does not contain |
| AnswerReview.AnswerGuard.CleanLines | agent_server/main.py:660 | exactly the lines without a collected value are kept, in order |
| AnswerReview.AnswerGuard.ReviewAnswer | agent_server/main.py:640-668 | what an enabled guard returns is the answer, the answer without the lines that hold invented addresses or paths, or the refusal, each in exactly its case; every address and path of it is in the evidence, and reviewing it again changes nothing, if the evidence holds the intake text |
| AnswerRules.ReviewIsRight | agent_server/main.py:640-668 | the cases of the review: markers of a guide without a search, nothing invented, fewer than 20 characters of content left, and what is written behind |
| AnswerRules.BlockedIs | agent_server/main.py:648-668 | when the refusal stands for the answer, and what comes out otherwise |
| AnswerPatterns.MatchIff | agent_server/main.py:553-554 | an address is four groups of one to three digits with dots between and no word character around; a path is the longest stretch of a slash, path characters and single slashes, not behind a word character or a dot |
| AnswerPatterns.FoundIsSearch | agent_server/main.py:611 | what is found is the first stretch, the first one behind it and so on, and nothing else |
| AnswerPatterns.StretchIsFound | agent_server/main.py:607-615 | every path, and every address without a dot in front, is found or part of a path that is |
| AnswerPatterns.NoneUnsupported | agent_server/main.py:607-615 | without an unsupported value every such stretch is in the evidence |
| AnswerGrounding.MentionsSeam | agent_server/main.py:553-554 | white space separates: the addresses and paths of a text are those of its two sides |
| AnswerGrounding.OnlyTaintedLinesGo | agent_server/main.py:660 | exactly the lines with an unsupported value go |
| AnswerGrounding.KeptInOrder | agent_server/main.py:660 | the other lines stay in their order |
| AnswerGrounding.ReviewedIsGrounded | agent_server/main.py:607-668 | no address or path without support is left in a reviewed answer |
| AnswerGrounding.ReviewIsIdempotent | agent_server/main.py:640-668 | reviewing a reviewed answer changes nothing |
| AnswerGrounding.IntakeStaysKnown | agent_server/main.py:573-605 | a guard whose environment text holds the intake text supports it at every later moment |
| AnswerGrounding.MoreEvidenceRemovesNoMore | agent_server/main.py:607-668 | with more evidence fewer values are unsupported, no further line is removed and no further answer is blocked |
| Budgets.LongestFitIsMaximal | agent_server/main.py:244-267 | the kept length is the only longest one that fits |
| Budgets.TrimHistory | agent_server/main.py:244-267 | the longest suffix of the turns whose text fits, at least one |
| Budgets.KeepLines | agent_server/main.py:484-492 | the longest prefix of the lines within the budget, at least one |
| Budgets.Clip | shared/ssh_exec.py:639-661 | whole lines only, as many as fit, counts that are right, and shown less than total whenever two or more lines are cut |
| Budgets.OnlyFarewellsGo | shared/ssh_exec.py:642-643 | exactly the lines that begin and end as the farewell of ssh go, and the others stay in order |
| Budgets.PlainNewlinesFirst | shared/ssh_exec.py:641 | the first CR LF becomes LF and the search goes on behind it |
| Budgets.PlainNewlinesNone | shared/ssh_exec.py:641 | without CR LF the text stays |
| RawOutputs.FenceNeverBreaks | agent_server/main.py:465-496 | a body in its fence reads back as exactly its lines, however many backticks it holds, also with text behind it, unless it ends in a carriage return (CommonMark 0.31.2, section 4.5) |
| RawOutputs.CollectedIsTrimmed | agent_server/main.py:448-463 | and no collected body does |
| RawOutputs.Collector.Observe | agent_server/main.py:448-463 | results with enough lines are collected in order |
| OutputRules.CollectsLongEnough | agent_server/main.py:448-463 | collected are exactly the results of commands whose output, without the white space at its end, is not empty and has enough lines |
| OutputRules.SplitLinesIff | agent_server/main.py:454-488 | lines end where Python ends them, CR LF counts once, and a last line without an end counts if it is not empty |
| RawOutputs.Collector.PrintAll | agent_server/main.py:472-496 | all collected outputs in order, each under its heading of command, address, account and counts, shortened to whole lines, in its fence |
| OutputRules.PrintedIs | agent_server/main.py:472-496 | each output is printed with its command, address, account, number of lines and whether its end is missing, whole or with as many first lines as fit, in a fence just longer than any run of backticks in it |
| OutputRules.FrontIs | agent_server/main.py:475 | in front of them stand a rule and the title |
| RawOutputs.ShortenedBodyIsSafe | agent_server/main.py:484-495 | a shortened output reads back character by character even if the output held carriage returns |
| RawOutputs.PrintedReadsBack | agent_server/main.py:472-496 | whatever the bodies hold, the whole printed text reads back as exactly the bodies, each one block and in order, if no heading opens a fence |
| RawOutputs.HeadlinePlainIff | agent_server/main.py:477-495 | a heading of one line opens a fence exactly when its command is backticks only and no backtick follows |
| RawOutputs.ReadsBackIff | agent_server/main.py:472-496 | with headings of one line the printed text reads back as the bodies if and only if no heading does so |
| RawOutputs.BacktickIsNotReadBack | agent_server/main.py:477-495 | an output of the command of one backtick is not read back |
| Embedding.Embedder.EmbedText | shared/db.py:95-142 | a known text is read from the cache, any other one is asked for, cut to the limit, and stored if the cache lets it; with a correct cache and an honest server it is the embedding of the text, the cache staying correct |
| Embedding.Embedder.ReadCache | shared/db.py:197-210 | exactly what the cache knows and gives is taken, every other position waits, in order |
| Embedding.Embedder.WriteCache | shared/db.py:239-246 | new vectors are stored one by one until the cache fails; the last one of a key stays, and nothing else changes |
| EmbeddingCache.PlaceAll | shared/db.py:229-237 | answers in order or tagged with a permutation put the right vector at every waiting position |
| EmbeddingCache.PlaceIsPlaced | shared/db.py:229-237 | whatever the server sends, a position gets the last answer that is for it by its tag, or by its place when the tag is no index |
| EmbeddingCache.StoredIsCorrect | shared/db.py:239-246 | storing right vectors keeps the cache right even when it fails half-way |
| Embedding.Embedder.EmbedBatch | shared/db.py:187-250 | the whole effect of a batch, with any server; with an honest one it equals embedding each text, for any cached subset, duplicates and cache failures, and leaves the cache correct |
| Embedding.Embedder.EmbedSingly | shared/db.py:172-183 | one request per text after a failed batch; a success ends the failure run, a failure leaves a gap, the limit stops it |
| Embedding.Embedder.EmbedTexts | shared/db.py:145-184 | batches of the given size, the failed ones text by text, each question put once and with its own effect on the cache; over a whole run each value is the embedding of its own text and the cache stays correct; abandoned exactly with the first stretch of as many failures as the limit, counted across batches; with a willing server it completes with no gap |
| Embedding.AskedIs | shared/db.py:164-183 | the questions, one after the other: each batch of the texts in order, and behind a failed one its texts |
| Chunking.SplitLongText | admin_console/backend/parser.py:219-255 | the loops compute the specified slices and overlaps |
| ChunkRules.ChunksAreRight | admin_console/backend/parser.py:219-255 | a long text is cut at its blank lines into pieces as long as possible, these into slices of the maximal length, and each slice repeats the last characters of the one before from behind their first blank |
| ChunkRules.ParagraphsIff | admin_console/backend/parser.py:227 | the paragraphs are the only such parts: none holds a blank line, and only the last may end with a newline |
| Chunking.OnlyNewlinesLost | admin_console/backend/parser.py:219-247 | for every text the slices hold all characters but newlines, in order |
| Chunking.HardCutConcat | admin_console/backend/parser.py:236-242 | cutting a piece hard ends and keeps its text |
| Chunking.PiecesRebuildTextIff | admin_console/backend/parser.py:219-235 | the merged pieces rebuild the text exactly if and only if every empty paragraph stands behind text and its separator still fits |
| Chunking.RebuiltForAllLengthsIff | admin_console/backend/parser.py:219-235 | a text is rebuilt for all maximal lengths below its own if and only if it has no empty paragraph |
| Chunking.LeadingBlankIsLost | admin_console/backend/parser.py:219-235 | a long text that begins with a blank line is not rebuilt |
| Chunking.PiecesRebuildText | admin_console/backend/parser.py:219-235 | in particular for texts without empty paragraphs |
| Chunking.ChunksFollowSlices | admin_console/backend/parser.py:243-255 | every chunk ends with its slice, begins with an end of the previous one and a newline, and its length is bounded |
| DocumentPaging.GetDocument | mcp_servers/manual_mcp/server.py:38-97 | rows in order and whole, as many as fit, the next one cut if more than 200 characters are left, within the limits on rows and characters, and the continuation values |
| DocumentPaging.FillShows | mcp_servers/manual_mcp/server.py:72-86 | chunks are shown in order, whole except possibly the last |
| DocumentPaging.FillBudget | mcp_servers/manual_mcp/server.py:72-86 | the page stays within its room and stops only where the next chunk does not fit |
| DocumentPaging.FillProgresses | mcp_servers/manual_mcp/server.py:72-86 | a page that has rows shows at least one |
| DocumentPaging.ReadAll | mcp_servers/manual_mcp/server.py:38-97 | following `next_offset` shows every chunk once in order and stops within one call more than there are chunks |
| ToolNames.TooManyTaken | shared/execution_exec.py:126-129 | only 98 taken names can use up the numbered alternatives |
| ToolNames.ToolNameFor | shared/execution_exec.py:103-130 | a valid name of at most 60 characters, the first that is free, and new whenever fewer than 98 are taken |
| NameRules.PlainNameIs | shared/execution_exec.py:120-123 | the abbreviated title, else the abbreviated command, else digits of the hash; with a letter in front; cut to 60 characters |
| NameRules.AsciiIs | shared/execution_exec.py:115-118 | an abbreviation is the first two words of letters, digits and underscores that are not numbers, in small letters, placeholders counting as blanks |
| NameRules.BlankFirst | shared/execution_exec.py:116 | the first placeholder becomes a blank and the search goes on behind it |
| NameRules.BlankNone | shared/execution_exec.py:116 | without a closing brace behind the first opening one the text stays |
| NameRules.AlternativesAre | shared/execution_exec.py:126-130 | a numbered name is 57 characters of the plain name and the number, and the last one 52 characters and four digits of the hash |
| ToolNames.OneIsChosen | shared/execution_exec.py:103-130 | title, command and taken names determine the name |
| ToolNames.BatchKeepsInv | admin_console/backend/routers/execution.py:540-572 | whatever a batch holds and however many names are taken, after every row each title has one valid name, no two titles share one, and no title loses its name |
| ToolNames.SoundRowsRegistered | admin_console/backend/routers/execution.py:540-572 | while table and batch have at most 97 titles together, exactly the rows that pass the other checks are registered |
| ToolNames.Commands.Register | admin_console/backend/routers/execution.py:532-577 | the loop takes the table through these rows, and inserted, updated and skipped add up |
| ManualStore.OperationKeepsInv | admin_console/backend/routers/manuals.py:114-534 | every operation keeps: one published version per title, distinct versions, vectors of the current texts; texts change only in drafts |
| ManualStore.EverySerialRun | admin_console/backend/routers/manuals.py:114-534 | the same at every moment of every serial run |
| ManualTables.Manuals.MaxVersion | admin_console/backend/routers/manuals.py:122-124 | the highest version of a title |
| ManualTables.Manuals.InsertDraft | admin_console/backend/routers/manuals.py:114-142 | a new draft with the next version and one chunk row for each part, without vectors |
| ManualTables.Manuals.AssertChunkEditable | admin_console/backend/routers/manuals.py:309-328 | 404 or 409 unless the document of the chunk is a draft |
| ManualTables.Manuals.UpdateChunk | admin_console/backend/routers/manuals.py:332-340 | new text and no vector, or the refusal and nothing changed |
| ManualTables.Manuals.DeleteChunk | admin_console/backend/routers/manuals.py:344-348 | the row is gone, or the refusal and nothing changed |
| ManualTables.Manuals.PublishManual | admin_console/backend/routers/manuals.py:352-429 | vectors window by window, then the change of status; broken off at the first raising request or wrong length with the statuses unchanged |
| ManualTables.PublishPerforms | admin_console/backend/routers/manuals.py:352-429 | a publication is a step of the life cycle; on success only chunks the server failed on have no vector |
| ManualRules.PublishIs | admin_console/backend/routers/manuals.py:352-429 | row by row: each chunk without a vector gets that of its own titles and text, 200 a request, and then this version is published and the other published ones of its title archived; or where and how it is broken off |
| ManualRules.StatusIs | admin_console/backend/routers/manuals.py:414-460 | the rows that the commit, a withdrawal and a deletion change, and that no others do |
| ManualRules.EditIsEdited | admin_console/backend/routers/manuals.py:332-348 | the row that an edit or a deletion of a chunk changes, and that no other does |
| ManualRules.InsertIsUploaded | admin_console/backend/routers/manuals.py:120-142 | the rows that an upload adds, with the next version, and that nothing else changes |
| ManualTables.Manuals.ChangeStatus | admin_console/backend/routers/manuals.py:414-428 | the two updates together archive the other published versions and publish this one |
| ManualTables.Manuals.UnpublishManual | admin_console/backend/routers/manuals.py:433-448 | a published version becomes a draft, anything else is refused |
| ManualTables.Manuals.DeleteManual | admin_console/backend/routers/manuals.py:452-460 | an unpublished version goes with its chunks, anything else is refused |
| ManualTables.Manuals.Reembed | admin_console/backend/routers/manuals.py:500-534 | the stale chunks with the smallest ids get their vectors, until one has the wrong length |
| ManualTables.ReembedCounts | admin_console/backend/routers/manuals.py:477-534 | what is stored and what remains add up to what was stale |
| ManualRules.ReembedIs | admin_console/backend/routers/manuals.py:500-534 | row by row: the chunks without a vector of this model and length, the first ones by id and 1 to 1000 of them, and the three counts |
| PublishProtocol.EveryInterleaving | admin_console/backend/routers/manuals.py:114-460 | in every interleaving of statements a title has at most one published version |
| PublishProtocol.CommitLeavesOne | admin_console/backend/routers/manuals.py:414-428 | a commit leaves exactly the version it was asked for, or none if that row was deleted meanwhile |
| PublishRaces.DeletionLeavesNone | admin_console/backend/routers/manuals.py:352-460 | a run in which the commit takes the only published version away because its own row was deleted |
| PublishProtocol.VectorsStayCurrent | admin_console/backend/routers/manuals.py:332-534 | in every interleaving, repairs included, in which no edit lands on a chunk while a request still has the vector of its old text to store, vectors belong to the current texts |
| PublishProtocol.StoreKeepsCurrentIff | admin_console/backend/routers/manuals.py:383-534 | storing a vector keeps all vectors current if and only if the text it was computed from has the same vector as the present text |
| PublishProtocol.CurrentThroughoutIff | admin_console/backend/routers/manuals.py:114-534 | in every interleaving, landing edits included, vectors are current throughout if and only if no statement stores the vector of a text that is gone |
| PublishRaces.LandingEditBreaksIff | admin_console/backend/routers/manuals.py:332-534 | after an edit that lands while the vector of the old text is still to be stored, that vector can be stored and is wrong if and only if it has the expected length and the new text has another vector |
| PublishRaces.VersionsStayDistinct | admin_console/backend/routers/manuals.py:120-132 | in every interleaving in which uploads of a title wait for one another its versions are distinct |
| PublishRaces.InsertKeepsDistinctIff | admin_console/backend/routers/manuals.py:120-132 | an insertion keeps versions distinct if and only if its version was not given out since it was read |
| PublishRaces.SameVersionBreaks | admin_console/backend/routers/manuals.py:120-132 | two pending uploads with the same version of a title always lead to a double version |
| PublishRaces.TextsKeptIff | admin_console/backend/routers/manuals.py:332-348 | a statement changes or removes a text outside drafts if and only if it is an edit whose document stopped being a draft after the check |
| PublishRaces.TextsStayFrozen | admin_console/backend/routers/manuals.py:309-428 | in every interleaving in which no document is published under a pending edit, texts outside drafts never change |
| PublishRaces.LandingCommitBreaks | admin_console/backend/routers/manuals.py:309-428 | the waiting in TextsStayFrozen is needed: after a commit that lands on a pending edit of another text that edit is a late one |
| PublishRaces.ErasesPublishedIff | admin_console/backend/routers/manuals.py:452-460 | the statement PublishedRowsStay is about: a deletion takes a published row away exactly when its own row is published at that moment |
| PublishRaces.PublishedRowsStay | admin_console/backend/routers/manuals.py:352-460 | in every interleaving in which no row is published under a pending deletion, no published row is ever deleted |
| PublishRaces.LockIsNeeded | admin_console/backend/routers/manuals.py:414-418 | without the advisory lock some run leaves two published versions |
| PublishRaces.EditsMustWait | admin_console/backend/routers/manuals.py:332-412 | a run from the empty database reaches the wrong vector |
| PublishRaces.UploadsCanShareVersion | admin_console/backend/routers/manuals.py:120-132 | a run from the empty database reaches the double version |
| PublishRaces.TextCanChangeAfterPublication | admin_console/backend/routers/manuals.py:332-340 | a run from the empty database reaches the changed text |
| MemoryStore.Memories.RecordTurns | shared/memory_store.py:98-124 | row by row: turns with content are added, the conversation row is made or counted up, keeping user and watermark |
| MemoryStore.AddedTurns | shared/memory_store.py:103-114 | the new rows are exactly the turns with content, in order, under new ids |
| MemoryStore.Memories.MaybeSummarize | shared/memory_store.py:127-185 | nothing below the threshold or without an answer; otherwise the new rows are exactly the stripped facts that are not blank, in order, their number is returned and the watermark is the last turn shown; the error exactly when nothing is pending and the threshold allows it |
| MemoryStore.PendingExact | shared/memory_store.py:149-156 | pending are exactly the user's turns of the conversation above the watermark, in order |
| MemoryStore.Memories.DeleteUserMemory | shared/memory_store.py:213-225 | row by row: one memory of the user, or all memories, turns and conversation rows, and how many memories went |
| MemoryStore.MemoriesAreOwn | shared/memory_store.py:127-185 | in every run, shared conversation ids or not, every memory is a stripped fact from an answer to turns of its own user only |
| MemoryWatermark.WatermarkIsExact | shared/memory_store.py:98-225 | in every serial run: if each conversation id belongs to one user, the turns at or below the watermark are exactly those handed to a call that returned, each once and in order |
| MemoryWatermark.WatermarkFallsOnlyByDeletion | shared/memory_store.py:98-225 | in serial runs a watermark never falls, except with the deletion of everything of the user of its row |
| MemoryWatermark.ExactKeptIff | shared/memory_store.py:98-225 | from an exact state an operation keeps the watermark of a conversation exact if and only if it is no summary that passes over another user's turn and no deletion of the row that leaves a handed-out turn behind |
| MemoryWatermark.ExactThroughoutIff | shared/memory_store.py:98-225 | in every serial run, shared conversation ids or not, the watermark is exact at every moment if and only if no step is one of the two |
| MemoryWatermark.PassedOverStaysOut | shared/memory_store.py:149-181 | a turn at or below the watermark is handed to no further call as long as the user of the conversation row is not deleted |
| MemoryWatermark.SharedConversationSkips | shared/memory_store.py:127-185 | a run with two users of one conversation id whose summary passes over a turn |
| MemoryWatermark.HandedOutTwice | shared/memory_store.py:98-225 | a serial run with a deletion in which a turn is handed out a second time, together with the next one |
| MemoryRaces.WatermarkFallsIff | shared/memory_store.py:98-225 | a statement lowers a watermark exactly when it stores a summary of older turns than the watermark, or deletes the row |
| MemoryRaces.WatermarkNeverFalls | shared/memory_store.py:127-225 | in every interleaving in which the summaries of a conversation wait for one another, its watermark falls only with everything of the user of its row, whoever shares it |
| MemoryRaces.StepExactIff | shared/memory_store.py:98-225 | from an exact state a statement keeps the watermark exact if and only if it is no late commit, no summary that was overtaken, and no deletion that leaves a handed-out turn behind |
| MemoryRaces.ExactInterleavingIff | shared/memory_store.py:98-225 | in every interleaving the watermark is exact throughout if and only if no statement is one of the three |
| MemoryRaces.OrderlyRunIsExact | shared/memory_store.py:98-225 | it is exact in every interleaving in which one user records into the conversation, its summaries wait for one another, pending turns are read when no recording of it waits for its commit, and none commits in the middle of a deletion |
| MemoryRaceRuns.SummariesMustWait | agent_server/main.py:1298-1320 | a run of one user whose overlapping summaries hand a turn out twice and lower the watermark |
| MemoryRaceRuns.CommitsCanBeLate | agent_server/main.py:1298-1320 | a run of one user whose overlapping recordings leave a turn that the watermark has passed and no call was handed |
| MemoryRaceRuns.DeletionsMustWait | shared/memory_store.py:213-225 | a run of one user whose deletion overlaps with a recording and leaves a turn pending that was handed out |
| MemoryRaces.ErasedAtOnce | shared/memory_store.py:213-225 | a deletion that nothing interrupts is the deletion of the serial model |
| MemoryRaces.RecordedAtOnce | shared/memory_store.py:98-124 | a recording that nothing interrupts is that of the serial model |
| MemoryRaces.SummarizedAtOnce | shared/memory_store.py:127-185 | so is a summary |

## Left out

- Routing, HTTP, server-sent events, the agent framework, Redis and PostgreSQL plumbing: only their outcomes enter, as
  parameters or as failing statements.
- Search and ranking, masking of personal data, cleaning of HTML, header detection, spreadsheets, diagrams, prompts and
  settings seeds.
- ssh processes, control sockets, time-outs and the master supervisor; `resolve_host` and `validate_user`. The account
  pattern is taken as a full match, although Python's `$` also admits a trailing newline.
- RemoteCommand.ArgvArrives: aliases, and reserved words a particular shell adds to those of POSIX (`function`, `time`,
  `[[`), are not modelled. Lines with operators other than `;` and `>`, with expansions or with patterns outside
  quotes are not accepted by the model of the shell at all.
- ExecutionArgv.BuildRegisteredArgv: argument values are strings, with a missing value and the empty string identified;
  which of several errors is reported, and its text, is not modelled. `validate_definition` is left out.
- ExecutionArgv.BuildsIff: takes for granted that a colon is not white space, as do the clauses of the methods that say
  the same.
- PrivilegeDrop.TotalAttempts: calls follow one another. Two calls at the same time may both learn the same fact and
  pay for it twice.
- RawOutputs.PrintedReadsBack: the reader knows fenced code blocks and no other blocks of Markdown. It reads lines, so
  which of the three line endings stood in a body is not read back. The remark on a shortened output and the decimal
  form of a number are parameters.
- AnswerGrounding.ReviewedIsGrounded: the intake text must be part of the evidence, which
  `AnswerGrounding.IntakeStaysKnown` derives from how the guard is made. Digits, word characters and white space are
  parameters about which only disjointness facts are assumed.
- AnswerPatterns.StretchIsFound: an address with a dot in front, which may begin inside another one as in `1.2.3.4.5`,
  is left to `AnswerPatterns.FoundIsSearch`.
- Embedding.Embedder.EmbedBatch: the encoding of vectors as JSON and the expiry of cache entries are not modelled, and
  the configuration is fixed during one operation. That keys are injective stands for the absence of SHA-256 collisions.
- ToolNames.Commands.Register: uploads follow one another. The checks of a row that do not concern its tool name are one
  flag, and the columns other than title, command and tool name are left out.
- DocumentPaging.ReadAll: the document does not change while it is read.
- ManualTables.Manuals.PublishManual: runs alone, and `PublishProtocol` is the model of what happens at the same time.
  A vector column narrower than the configured dimension, which the database would refuse, is not modelled.
- PublishProtocol.EveryInterleaving: statements are atomic and see all committed rows (READ COMMITTED). Row locks, which
  only delay statements, are not modelled, and vectors may be stored in any order, so the model has more runs than the
  database.
- MemoryStore.Memories.MaybeSummarize: calls follow one another here, and `MemoryRaces` is the model of what happens at
  the same time. Expiry dates, embeddings of turns and memories, and memories entered by hand are not modelled. The
  clauses on rows take for granted that the sequences are ahead of the ids, which `MemoryStore.MemoriesAreOwn` proves of
  every run.
- MemoryRaces.StepExactIff: the insertions of a summary and its update of the watermark, which become visible together,
  are one step, and so are the last statement of a deletion and its commit.
