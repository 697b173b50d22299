# Machines of the Alga PSA repository

A Dafny model of six pieces of the repository that hold state machines, parsers or protocols, with proofs of what each of
them promises. The project has one module per file; `dafny verify dfyconfig.toml` checks it.

| file | models |
|---|---|
| `Text.dfy` | JavaScript `trim`, `split` and `join` on strings |
| `InlineMarks.dfy` | the inline markdown tokenizer, its printer, and text nodes as lists of inserted runs |
| `Dom.dfy` | the collaborative document tree and its serialization to markdown |
| `Markdown.dfy` | the line-based block parser and the document nodes that blocks become |
| `MarkdownRoundTrip.dfy` | what parser and serializer are to each other |
| `BlockGrammar.dfy` | the grammar of blocks, written out line by line: the parser accepts exactly it |
| `DocumentNodes.dfy` | the element of each block, and how documents that no parser made read |
| `Mentions.dfy` | collecting the assistant mentions of a document that are ready to be answered |
| `RunProtocol.dfy` | debounce timers, the re-entrancy guard and the batch of mentions, with users' edits at every `await` |
| `Streaming.dfy` | the reply stream: chunks, `data:` lines, the flush timer |
| `RunSteps.dfy` | what each event of the run protocol does to timers, batch and document |
| `ReplyPlacement.dfy` | where the replies of a batch come to stand, when they arrive and in the end |
| `ReplyText.dfy` | from the reply stream to what is inserted in the document |
| `SchemaTemplates.dfy` | test databases cloned from templates that many processes build and publish concurrently |
| `SchemaFallback.dfy` | what failures of template statements come to: fallback, remembered answer, cleanup |
| `DeletionOrder.dfy` | the static check of the tenant deletion order, and a relational semantics of the deletions |
| `MigrationTimestamp.dfy` | the migration file name rule over the date algorithms of section 21.4.1 of ECMA-262 |
| `MigrationVerdicts.dfy` | how timestamps are written and ordered, how the clock ticks, and which report each name gets |
| `PortalRedirects.dfy` | the request middleware as a redirect machine over host, path, query and per-host session |
| `RedirectAnswers.dfy` | every answer of the middleware in terms of paths and parameters as they are written |
| `Notifications.dfy` | the unread counter beside its list, and reference-counted channel subscriptions |

## How the code is represented

- **Loops and in-place updates.** Loops and methods that change fields are methods and classes (`ParseInlineMarks`,
  `ParseMarkdownBlocks`, `BlocksToElements`, `FindAiMentionInParagraph`, `AiParticipant`, `Fragment`, `Reader`,
  `ValidateDeletionOrder`, `RoomMaps`, `SubscriptionTable`). Each is proved equal to a function of its input or of the old
  state, and the properties are proved about that function.
- **Regular expressions.** The token pattern is a hand-written matcher that is proved to accept exactly the language of
  each alternative. The heading pattern's one real backtrack (`\s+` giving a blank back to `.+`) is modelled.
- **Interleavings.** A protocol is a step function over explicit events; a property of runs holds for every sequence of
  events. Between two steps of the assistant any number of user edits can happen; every database statement of a template
  build is a step that can succeed, fail, or be the last one of its process.
- **Independent descriptions.** What a parser, a scan or a decision does is described a second time, without its helper
  functions, by the texts, positions and parameters themselves (`Leftmost`, `Denotes`, `Collects`, `Carries`, `Misplaced`,
  `CarriesOver`), and the two descriptions are proved equivalent for all inputs.
- **The outside world.** JSON decoding is an arbitrary fixed function, the clock of the migration rule is a parameter, and
  timers fire whenever the event sequence says so.

## Main results

- **Markdown.** Printing what the tokenizer produced gives the text back, for every text, and the tokenizer's output is
  the *only* leftmost segmentation. (Text nodes hold the segments as they were passed to `insert`; see "Left out".) The
  block parser accepts **exactly** a grammar written out line by line (which lines are bullets, numbered items, quotes,
  rules, fences and headings), and its blocks partition the lines in the only possible way. Serializing parsed blocks
  and parsing again gives the same blocks **if and only if** every quote among them is one non-empty line. The "only if"
  half counts `>` characters: no block prints more of them than its source lines held, and a quote that is empty or has
  several lines prints strictly fewer, so its print cannot be the source of the same blocks.
- **Run protocol.** Over every run: at most one armed timer per document and never a timer and a batch together; the guard
  is held exactly while a batch runs; no mention is requested twice; no wrapper outlives its batch; the content of a
  document is, in order, exactly what the users' own edits and the replies, each where its wrapper stood, make of it, and
  nothing that no user deletes is lost or moved. When a reply of an undisturbed batch arrives, it stands directly behind its
  own paragraph **if and only if** it is the first; in the end it still stands there whole **if and only if**, besides, it
  is the only one or not longer than the way from its paragraph to the next one of the batch. A batch opens exactly when
  the document asks something, and collects exactly what it asks.
- **Streaming.** Paragraph plus pending text is the full text at every point; the end result depends only on the text
  received, and so does what is finally inserted in the document: it is what the `data: ` lines carry, up to the first
  one that fails.
- **Schema templates.** Over every interleaving, a database under a final template name is complete and is never dropped
  or changed, production databases are never touched, and a finished call holds what a rebuild from nothing would give.
  Every call ends within a fixed number of its own steps, and an undisturbed one succeeds whatever dead processes left
  behind; failing template statements, in whatever number and order, can make a call slower but never make it fail or
  leave a half-built template, unless the very drop of it fails. Exact conditions and counterexamples show why pids, and
  suite databases, of live processes must differ.
- **Deletion order.** An order is never blocked, from any legal database, **if and only if** it has no hazard (a
  restrictive key into a table that a deletion or its cascades can reach too early). For schemas whose cascading children
  come first that is exactly "no violation reported and no restrictive key from an unlisted table". The report holds
  exactly the misplaced keys, in order, each with the first positions of its two tables.
- **Migration timestamps.** Valid **if and only if** the digits name a real Gregorian date and time of year 100 or later;
  string order, field order and instant order agree; and each verdict on a file name is given exactly when it should be.
- **Redirects.** At most three redirects follow from any request and any sessions, and three are reached. Outside
  development the portals admit exactly their own users. For every kind of request the answer is given with its host,
  path and parameters, among them the page to return to after sign-in.
- **Notifications.** The counter never exceeds the unread notifications; the exact effect of every message on their gap;
  each channel is counted as often as its room has open connections, however the hooks of different rooms overlap. A
  hook that closes only what was opened leaves its room's count right in the end **if and only if** no other hook of the
  room was waiting when it began; three runs show the three ways in which it goes wrong.

## Where the code and its documentation differ

The model follows the code.

- `hocuspocus/AiParticipantExtension.js:9-10` asks for *a sibling paragraph* below the mention; the code (107-111) asks for
  an *empty* one.
- `hocuspocus/AiParticipantExtension.js:592-593` says the reply is put after the mention's paragraph. Indices are collected
  once per batch (64, 113-118), so without any edit in between only the first reply of a batch lands there
  (`ReplyPlacement.OnlyFirstReplyLandsInPlace`, with a document of two questions in
  `ReplyPlacement.SecondReplyIsMisplaced`), and the next one can be inserted inside it
  (`ReplyPlacement.RepliesInPlaceExact`, `ReplyPlacement.SecondReplyCutsFirst`).
- `scripts/validate-tenant-management.ts:240-241` and `:335` say that cascading keys may stand in either order.
  `DeletionOrder.CascadeGap` gives an order that passes every check and is blocked.
- `scripts/validate-tenant-management.ts:258-259` skips keys of unlisted tables as outside the deletion; a restrictive one
  blocks it all the same (`DeletionOrder.UnlistedChildGap`).
- `server/src/middleware.ts:461-464` says that query parameters are preserved on the way to the canonical sign-in page; of a
  repeated parameter only the last value arrives (`PortalRedirects.VanitySigninParameters`, and the query `a=1&a=2` in
  `PortalRedirects.RepeatedParameterCollapses`).
- `eslint-plugin-custom-rules/migration-filename.js:47-60`: for years below 100 the Date constructor means the twentieth
  century, so every such timestamp is invalid, whatever date it names (`MigrationTimestamp.CalendarExact`, and
  `000001010000` in `MigrationTimestamp.EarlyYearIsRejected`).
- `hocuspocus/NotificationExtension.js:114-116`: a read event for a notification that is absent or already read still counts
  down, so the counter can fall behind the list (`Notifications.ReadKeepsAgreementExact`, and a concrete room in
  `Notifications.RepeatedReadMiscounts`).
- `hocuspocus/NotificationExtension.js:66-67` and `:151-153` promise one subscription for each channel in use and its end
  with the last connection. The bookkeeping straddles the `await`s (76 and 145, 179 and 180), so hooks of one room that
  overlap miscount (`Notifications.TurnsExact`): two first connects are counted once, a connect during the last disconnect
  is lost, and a disconnect during the first connect is ignored.

## Model

| member | source | states |
|---|---|---|
| InlineMarks.MatchEndIsTheLanguage | hocuspocus/AiParticipantExtension.js:513 | each alternative of the token pattern matches at a position exactly the slices in its language (delimiter, one or more characters other than the stop character, delimiter), so a match is unique where there is one |
| InlineMarks.TokenAtExact | hocuspocus/AiParticipantExtension.js:513 | the alternation finds no token at a position if and only if no text of any of the five forms (`` `a` ``, `***a***`, `**a**`, `*a*`, `~~a~~`) starts there, and otherwise the one that starts there |
| InlineMarks.ChainRecoversToken | hocuspocus/AiParticipantExtension.js:522-533 | for every text an alternative can match, the `startsWith` chain recovers that alternative |
| InlineMarks.ParseInlineMarks | hocuspocus/AiParticipantExtension.js:511-543 | the search loop with its moving `lastIndex` yields, for every non-empty text, the one segmentation that `InlineExact` describes without the matcher |
| InlineMarks.InlineExact | hocuspocus/AiParticipantExtension.js:511-543 | for every non-empty text a segment list is the tokenizer's output if and only if it is leftmost: plain segments are non-empty, never adjacent and hold no position where a text of any of the five written forms starts; each marked one is such a text, with its marks |
| InlineMarks.InlineRoundTrip | hocuspocus/AiParticipantExtension.js:289-302 | printing the parsed segments with the serializer's mark rules gives back the text, for every text |
| InlineMarks.MarksNest | hocuspocus/AiParticipantExtension.js:289-302 | for every combination of marks: strike around bold and italic, these around code, nothing around an empty run |
| InlineMarks.CreateFormattedText | hocuspocus/AiParticipantExtension.js:495-505 | inserting segment by segment at a moving character offset puts all runs, with the marks passed to each insert, side by side in order, and nothing for an empty line |
| Markdown.ParseMarkdownBlocks | hocuspocus/AiParticipantExtension.js:337-419 | the index loop with its inner run loops terminates on every text and yields the block list that `BlockGrammar.ParserExact` describes without the parser |
| Markdown.BlocksToElements | hocuspocus/AiParticipantExtension.js:424-490 | the elements built one by one are, in order, the nodes of the blocks |
| DocumentNodes.ElementsExact | hocuspocus/AiParticipantExtension.js:424-490 | a node list is the elements of a block list if and only if it holds, in order, one element for each block with the level, language, items, paragraphs and formatted (in code: unformatted) text that its kind asks for |
| BlockGrammar.NextBlockExact | hocuspocus/AiParticipantExtension.js:345-416 | a block is read from the first line on, taking a given number of lines, if and only if these lines have the written form of its kind and the next line does not go on with it |
| BlockGrammar.ParserExact | hocuspocus/AiParticipantExtension.js:337-419 | a block list is the parse of a text if and only if the lines of the text can be cut into blank lines and ranges that have, in order, the written forms of the blocks |
| BlockGrammar.BulletText | hocuspocus/AiParticipantExtension.js:380-389 | for every white prefix, each of `-`, `*`, `+` and every item, the one line is one bullet list with that item |
| BlockGrammar.OrderedText | hocuspocus/AiParticipantExtension.js:391-400 | for every white prefix, every digit string and every item, the line with `. ` is one ordered list with that item |
| BlockGrammar.QuoteText | hocuspocus/AiParticipantExtension.js:402-411 | `> ` and any content on one line is one quote of that content |
| BlockGrammar.RuleText | hocuspocus/AiParticipantExtension.js:373-378 | three or more of one of `-`, `*`, `_` between white space are a horizontal rule |
| BlockGrammar.FenceText | hocuspocus/AiParticipantExtension.js:351-363 | a line that opens a fence and nothing after it is an empty code block with the trimmed rest as language |
| BlockGrammar.HeadingText | hocuspocus/AiParticipantExtension.js:365-371 | one to six hashes, a blank and visible content are the heading of that level |
| BlockGrammar.SingleLineExact | hocuspocus/AiParticipantExtension.js:345-416 | a single line that is not blank parses to one block if and only if it has that block's written form |
| BlockGrammar.LinePartition | hocuspocus/AiParticipantExtension.js:337-419 | skipped blank lines and the blocks' source ranges, in order, are exactly the lines of the text; each block denotes its own range: runs are maximal, fenced lines are verbatim, a fence is open only at the end |
| MarkdownRoundTrip.ParsedBlocksAreWellFormed | hocuspocus/AiParticipantExtension.js:337-419 | every block the parser produces is canonical: heading level 1 to 6 with visible or one-blank content on one line, plain paragraphs, non-empty lists of single lines, trimmed fence languages, no fence inside code |
| MarkdownRoundTrip.DocumentMarks | hocuspocus/AiParticipantExtension.js:233-240 | printing a parsed document never needs more `>` characters than its lines held, and strictly fewer as soon as a quote is empty or has several lines |
| MarkdownRoundTrip.CanonicalBlocksReparse | hocuspocus/AiParticipantExtension.js:199-314 | parse after print is the identity on canonical blocks whose quotes are one non-empty line, with list markers and numbers normalised |
| MarkdownRoundTrip.CanonicalExact | hocuspocus/AiParticipantExtension.js:337-419 | the parser's image, exactly: some text is parsed into a block list if and only if every block of the list is canonical |
| MarkdownRoundTrip.BlockRoundTripExact | hocuspocus/AiParticipantExtension.js:199-490 | for every text, serializing the elements of its parsed blocks and parsing again gives the same blocks if and only if every quote among them is one non-empty line |
| DocumentNodes.HeadingLevels | hocuspocus/AiParticipantExtension.js:218-222 | a heading element of any level reads as the heading of the nearest level from 1 to 6 |
| DocumentNodes.InlineChildReads | hocuspocus/AiParticipantExtension.js:267-284 | inline content of any nesting: marked text, the display name of a mention or else its user name, a line break, and what is nested in other elements |
| DocumentNodes.PlainNodesRead | hocuspocus/AiParticipantExtension.js:210-263 | paragraphs, items and elements of other kinds read as their inline content, text nodes and mentions as they do inside a line |
| DocumentNodes.PartRead | hocuspocus/AiParticipantExtension.js:233-313 | each child of a quote, of an item or of the wrapper reads on its own, with `> ` in a quote, and an empty one does not show |
| DocumentNodes.ParagraphsRead | hocuspocus/AiParticipantExtension.js:233-313 | paragraphs that are not empty share one line in a list item and have a line each in a quote |
| DocumentNodes.WrapperIsTransparent | hocuspocus/AiParticipantExtension.js:253-258 | nodes that are not empty read inside the wrapper as they would without it |
| DocumentNodes.ItemsAreNumbered | hocuspocus/AiParticipantExtension.js:228-232 | items are numbered one by one from the first number on, in decimal without leading zeros |
| Mentions.FindAiMentionInParagraph | hocuspocus/AiParticipantExtension.js:141-177 | the scan returns the last pending mention with the text after the first one, or nothing when that text is blank |
| Mentions.FindPendingAiMentions | hocuspocus/AiParticipantExtension.js:94-122 | the loop over the top-level nodes collects the batch that the next two lemmas are about |
| Mentions.MentionExact | hocuspocus/AiParticipantExtension.js:141-177 | a paragraph yields a mention and an instruction if and only if the mention is the last open one of `@ai-assistant` and the instruction, with something visible in it, is the trimmed text of all that follows the first open one |
| Mentions.BatchExact | hocuspocus/AiParticipantExtension.js:94-133 | the batch holds exactly the open questions with their instructions that have a paragraph of nothing but white space below, by ascending index |
| Mentions.ExtractExact | hocuspocus/AiParticipantExtension.js:182-190 | the text of a node is that of its runs in document order, through any nesting |
| Mentions.CollectedExact | hocuspocus/AiParticipantExtension.js:90-133 | a node is collected if and only if it is an element with a pending mention, visible instruction text after the first one, and an empty paragraph directly below |
| Mentions.BatchIsDistinct | hocuspocus/AiParticipantExtension.js:94-122 | no mention is collected twice, none is done, indices ascend and leave room for the wrapper |
| RunProtocol.AiParticipant.Change | hocuspocus/AiParticipantExtension.js:30-50 | a change re-arms exactly one timer for its document unless the room is of another kind or is being processed; timers and map stay in one-to-one agreement |
| RunProtocol.AiParticipant.Fire | hocuspocus/AiParticipantExtension.js:46-49 | a firing timer is forgotten before the document is looked at, and its document is neither waiting nor being processed |
| RunSteps.ChangeExact | hocuspocus/AiParticipantExtension.js:30-50 | a change of a room whose name starts with `document:` and that is not being processed leaves one fresh timer for it and all other timers, entries and the guard alone; any other change does nothing |
| RunSteps.FireExact | hocuspocus/AiParticipantExtension.js:52-88 | a timer that fires is gone, and a batch opens, with the first turn taken, if and only if the room has three parts and its document asks something; nothing else changes |
| RunSteps.TurnExact | hocuspocus/AiParticipantExtension.js:79-87 | the next turn puts a new, empty wrapper behind the collected index and requests the reply of the first mention left; without mentions or without that place the batch ends, the guard is released and nothing else changes |
| RunSteps.ReplyExact | hocuspocus/AiParticipantExtension.js:639-775 | a reply or failure puts new nodes in the wrapper's place if it is still there, marks the mention done in either case, and goes on to the mentions left |
| RunSteps.FailuresRead | hocuspocus/AiParticipantExtension.js:571-583 | a failed request and an empty reply read as the italic quotes with their messages |
| RunProtocol.Fragment.ReplaceWrapper | hocuspocus/AiParticipantExtension.js:764-775 | delete-then-insert at the wrapper's index replaces it in place; without the wrapper nothing changes |
| RunProtocol.AtMostOnce | hocuspocus/AiParticipantExtension.js:30-88 | over every run: at most one armed timer per document, never with a batch; the guard is held exactly while a batch runs; no mention is requested twice; a requested mention is done unless its reply is awaited |
| RunProtocol.WrappersAreCleanedUp | hocuspocus/AiParticipantExtension.js:595-753 | at every point of every run, the only wrapper a document can hold is that of the reply being awaited; after success, API error, empty reply or exception it is gone |
| RunProtocol.BatchesEnd | hocuspocus/AiParticipantExtension.js:79-87 | however edits and other documents interleave, a batch that is still open has taken fewer turns than it had left at the start, so each batch ends and releases the guard |
| RunProtocol.RunPreservesContent | hocuspocus/AiParticipantExtension.js:595-775 | over every interleaving, everything in the document but the wrapper is, in order, exactly the result of the users' own edits and of inserting each reply, whole, where its wrapper stood when it arrived |
| RunProtocol.NothingIsLost | hocuspocus/AiParticipantExtension.js:595-775 | of two nodes, written by users or inserted with a reply, that are in a document at any point of any run and that no user deletes from then on, both are there at the end, in the same order |
| RunProtocol.ReplyTakesWrappersPlace | hocuspocus/AiParticipantExtension.js:721-775 | whatever surrounds the wrapper when the outcome arrives, the non-empty content goes exactly between those neighbours |
| ReplyPlacement.UndisturbedTurn | hocuspocus/AiParticipantExtension.js:618-622 | without edits in between, a turn inserts its reply right behind the index collected for the batch |
| ReplyPlacement.OnlyFirstReplyLandsInPlace | hocuspocus/AiParticipantExtension.js:64-118 | from every reachable state, when a timer fires for a room with ready mentions and nothing disturbs the batch, the events of the protocol run through, and at the moment a reply arrives it stands directly behind its own paragraph if and only if its mention is the first of the batch; a later reply comes to stand before its paragraph |
| ReplyPlacement.RepliesInPlaceExact | hocuspocus/AiParticipantExtension.js:64-118 | after any number of replies of an undisturbed batch, so also in the end, a reply stands whole and directly behind its paragraph if and only if it is the first and either the only one so far or not longer than the way from its paragraph to that of the second mention |
| ReplyPlacement.SecondReplyIsMisplaced | hocuspocus/AiParticipantExtension.js:113-118 | a concrete run: of two questions answered in one batch, the second reply stands before its own paragraph and not behind it |
| ReplyPlacement.SecondReplyCutsFirst | hocuspocus/AiParticipantExtension.js:618-622 | a concrete run: a first reply of three blocks stands in its place when it arrives, and no longer when the second reply has been inserted inside it |
| Streaming.Reader.OnTimer | hocuspocus/AiParticipantExtension.js:666-673 | a firing flush timer brings the paragraph up to the full text, leaves nothing pending and no timer armed, and keeps the conservation invariant |
| Streaming.Reader.OnChunk | hocuspocus/AiParticipantExtension.js:676-706 | the line loop over a chunk takes the complete lines, keeps the rest, stops at the first error event, and keeps the conservation invariant |
| Streaming.Reader.Close | hocuspocus/AiParticipantExtension.js:707-710 | however reading ended, afterwards the paragraph is the full text, nothing is pending and no timer is left to fire |
| Streaming.StreamOutcome | hocuspocus/AiParticipantExtension.js:652-710 | at every point of every interleaving of chunks and timer firings, paragraph plus pending text is the full text and at most one timer is armed; at the end the paragraph holds the full text, which depends on the text received alone and which `StreamSays` describes |
| Streaming.StreamSays | hocuspocus/AiParticipantExtension.js:676-698 | for every decoder and every cutting into chunks: when the text received is the given lines, each ended by a newline, and a rest, the full text is the contents that the `data: ` lines carry, up to the first whose payload is an error, and reading fails if and only if there is one |
| Streaming.DataLineIsRead | hocuspocus/AiParticipantExtension.js:684-698 | one `data: ` line with any white space around it, however it is cut, ends with exactly what its payload decodes to; the end marker says nothing |
| Streaming.OtherLinesAreSkipped | hocuspocus/AiParticipantExtension.js:684-688 | without a line that reads `data: ` and something visible, the text stays empty and reading does not fail, whatever the decoder |
| Streaming.ChunkingIndependent | hocuspocus/AiParticipantExtension.js:676-706 | two ways of cutting the same text end with the same full text, verdict and paragraph |
| ReplyText.ReplyDependsOnTextOnly | hocuspocus/AiParticipantExtension.js:712-752 | the nodes that replace the wrapper are determined by the text received alone: parsed content when there is any, else the error message of the way the stream ended |
| ReplyText.ReplyNodesExact | hocuspocus/AiParticipantExtension.js:721-730 | the nodes that replace the wrapper are, one by one, the elements of the reply's blocks, or one paragraph with the unformatted text when there is no block |
| ReplyText.ReplyReadsBackExact | hocuspocus/AiParticipantExtension.js:721-730 | the inserted nodes serialize to a text with the same blocks if and only if the reply's quotes are one non-empty line each; a reply without blocks is kept verbatim |
| SchemaTemplates.TemplateSafety | server/test-utils/dbConfig.ts:331-381 | over every interleaving of processes that build, fail, crash, lose the race or reuse a dead process's pid: a database under a final name is complete, is never dropped or changed, and production databases are untouched |
| SchemaTemplates.ReadyStaysTrue | server/test-utils/dbConfig.ts:334-372 | a positive cache entry stays true for the rest of the run, in every process |
| SchemaTemplates.CloneRefinesRebuild | server/test-utils/dbConfig.ts:152-181 | whenever a call has finished, by clone or by rebuild after any failure, the suite database holds what an empty create plus bootstrap gives, as long as live processes use different suite databases |
| SchemaTemplates.UndisturbedCallFinishes | server/test-utils/dbConfig.ts:334-381 | a call that nothing disturbs finishes whatever was left behind, and one that may use templates ends with its template published, complete and cached |
| SchemaTemplates.CallsTerminate | server/test-utils/dbConfig.ts:114-200 | over every interleaving with other processes, crashes and failures, the steps a call takes and those it still has left are at most those it had left at the start: twice the length of the bootstrap plus 30 for a whole call |
| SchemaFallback.TemplateFailuresAreHarmless | server/test-utils/dbConfig.ts:272-274 | over every interleaving of processes with suites of their own, a call in which only statements on templates fail, in whatever number, never fails; when it is over, the suite holds what a rebuild gives and the answer about templates is remembered |
| SchemaFallback.FailureExact | server/test-utils/dbConfig.ts:351-381 | a failing statement ends the call if and only if it is one on the suite database other than the clone |
| SchemaFallback.NothingIsLeftBehind | server/test-utils/dbConfig.ts:350-376 | over every interleaving, a call that starts without a leftover of its private name leaves none, however often building fails, unless the very drop of the build it gives up fails |
| SchemaFallback.PublishedIsReused | server/test-utils/dbConfig.ts:351-370 | a call that finds its template published never builds one, whatever other processes do meanwhile |
| SchemaFallback.LostRaceUsesTheirs | server/test-utils/dbConfig.ts:361-370 | a process that is about to rename its build and finds the name taken uses the other one's template: while none of its statements fails, its call ends with a positive answer |
| SchemaTemplates.BuildKeptExact | server/test-utils/dbConfig.ts:344-350 | in every state, a process about to drop a private template leaves the build of another process intact if and only if the two differ in pid or in template |
| SchemaTemplates.SuiteKeptExact | server/test-utils/dbConfig.ts:53-66 | in every state, when a process comes to drop its suite database, that of a finished call of another process stays if and only if their suites differ |
| SchemaTemplates.SharedPidBreaks | server/test-utils/dbConfig.ts:347-350 | two live processes with one pid: three successful steps publish an empty template |
| SchemaTemplates.SharedPidIsReachable | server/test-utils/dbConfig.ts:347-350 | from an empty server, and with the pid rule waived, a run leads to the state from which the empty template is published |
| SchemaTemplates.SharedSuiteBreaks | server/test-utils/dbConfig.ts:53-66 | two live processes with one suite database: the second drops it from under the first, while the template invariant still holds |
| DeletionOrder.ValidateDeletionOrder | scripts/validate-tenant-management.ts:200-286 | the loops over sets, lists and the index map report the repeated entries, the missing tables and the misplaced keys, each exactly, in order and as often as they occur, with the first positions of a key's tables; and they succeed exactly when all three are empty |
| DeletionOrder.RepeatsExact | scripts/validate-tenant-management.ts:205-213 | no duplicate is reported if and only if all entries are different |
| DeletionOrder.WithoutExact | scripts/validate-tenant-management.ts:226-234 | a table is kept by the filters if and only if it is in the database list and not among the excluded (or listed) ones |
| DeletionOrder.ViolationsExact | scripts/validate-tenant-management.ts:252-270 | nothing is reported if and only if no key violates the order, and whatever is reported is a violating key of the schema |
| DeletionOrder.ReportExact | scripts/validate-tenant-management.ts:252-270 | the reported keys are, in order and as often as they occur, exactly the restrictive, not exempt keys whose parent is listed before the child, each with the first positions of its child and its parent |
| DeletionOrder.RepeatsChooses | scripts/validate-tenant-management.ts:205-213 | the duplicates reported are, in order and as often, exactly the entries that stand earlier in the list as well |
| DeletionOrder.WithoutChooses | scripts/validate-tenant-management.ts:226-234 | the filters keep, in order and as often, exactly the tables that are not excluded (or listed) |
| DeletionOrder.ExemptKeysExact | scripts/validate-tenant-management.ts:43-49 | the five constraint names that the check leaves aside |
| DeletionOrder.ExcludedTablesExact | scripts/validate-tenant-management.ts:32-38 | the five table names that the check leaves aside |
| DeletionOrder.OrderExact | scripts/validate-tenant-management.ts:236-270 | deletion in the listed order is never blocked, from any legal database and for any tenant, if and only if the order has no hazard, cascades included |
| DeletionOrder.ViolationIsHazard | scripts/validate-tenant-management.ts:260-269 | every reported violation is real: some legal database blocks the ordered deletion |
| DeletionOrder.CheckerExact | scripts/validate-tenant-management.ts:236-270 | when cascading children are listed before their parents, an order is never blocked if and only if no violation is reported and no restrictive key comes from an unlisted table |
| DeletionOrder.ValidatedDeletion | scripts/validate-tenant-management.ts:236-282 | after a successful validation, when cascading children are listed before their listed parents and no restrictive key comes from an unlisted table, the deletion runs to the end and leaves the tenant no row in any non-excluded tenant table |
| DeletionOrder.OtherTenantsUntouched | ee/temporal-workflows/src/activities/tenant-deletion-activities.ts:1763-1812 | the deletion keeps every row and every reference of every other tenant |
| DeletionOrder.DeletionKeepsOthers | ee/temporal-workflows/src/activities/tenant-deletion-activities.ts:1763-1812 | so does the whole deletion, the nulling of exempt columns included |
| DeletionOrder.CyclesAreReported | scripts/validate-tenant-management.ts:246-270 | a cycle of checked keys is reported in every possible order, so success means a topological order |
| DeletionOrder.CascadeGap | scripts/validate-tenant-management.ts:240-241 | an order with a CASCADE key that passes every check and is blocked by a legal database |
| DeletionOrder.UnlistedChildGap | scripts/validate-tenant-management.ts:258-259 | an order that passes every check and is blocked through a restrictive key of an unlisted table |
| MigrationTimestamp.CalendarExact | eslint-plugin-custom-rules/migration-filename.js:20-63 | for every string of 12 or 14 digits: valid if and only if the year is at least 100 and the fields name a real Gregorian date and time, and then the value is that instant |
| MigrationTimestamp.EarlyYearIsRejected | eslint-plugin-custom-rules/migration-filename.js:47-60 | 1 January of the year 0 is a real date and yet invalid |
| MigrationTimestamp.ReadBackOfReal | eslint-plugin-custom-rules/migration-filename.js:47-60 | the six getters read a real date and time back from its time value unchanged |
| MigrationTimestamp.OrderAgreement | eslint-plugin-custom-rules/migration-filename.js:20-68 | for two valid timestamps, 12 digits padded with `00`, string order is the order of the instants |
| MigrationTimestamp.CutoffAgreement | eslint-plugin-custom-rules/migration-filename.js:107-113 | for a valid timestamp, the string test of its first eight digits against the cutoff is the test against the cutoff instant |
| MigrationTimestamp.RuleExact | eslint-plugin-custom-rules/migration-filename.js:99-156 | a file in a migration directory passes if and only if it is no `.cjs` file, sorts before the cutoff, or carries a real date from year 100 on that is not in the future |
| MigrationVerdicts.NamedExact | eslint-plugin-custom-rules/migration-filename.js:20-27 | a timestamp of digits is exactly the writing of the fields that the check reads from it |
| MigrationVerdicts.ClockTicks | eslint-plugin-custom-rules/migration-filename.js:47-60 | the value of a valid timestamp counts milliseconds from the start of 1970: the next second of the calendar, carried through to the year, is one thousand later |
| MigrationVerdicts.LexExact | eslint-plugin-custom-rules/migration-filename.js:111-113 | a name sorts before the cutoff if and only if at the first difference it ends or has the smaller character |
| MigrationVerdicts.VerdictExact | eslint-plugin-custom-rules/migration-filename.js:93-156 | each verdict exactly: ignored, badly named (no twelve or fourteen digits, underscore, description on one line, `.cjs`), no date, in the future, accepted |
| PortalRedirects.HopDescends | server/src/middleware.ts:301-624 | every redirect, followed with the sessions it leaves, strictly lowers the number of redirects still possible |
| PortalRedirects.RedirectsTerminate | server/src/middleware.ts:301-624 | from every host, path, query and set of sessions at most three redirects follow |
| PortalRedirects.ThreeHopsHappen | server/src/middleware.ts:440-479 | the bound is reached: portal page, vanity sign-in, canonical sign-in, rejected session |
| PortalRedirects.MspPagesAreInternal | server/src/middleware.ts:495-551 | outside development and bypass, an ordinary request passes to an MSP page if and only if its session is internal and not contradictory and it is no bookmark of a migrated settings tab |
| PortalRedirects.PortalPagesAreClient | server/src/middleware.ts:554-620 | outside development, an ordinary request passes to a client portal page if and only if its session is a client's |
| PortalRedirects.RedirectsStayHome | server/src/middleware.ts:301-624 | along every chain the host is the one first asked or the canonical one, which is never left again |
| PortalRedirects.VanitySigninParameters | server/src/middleware.ts:461-467 | the vanity sign-in redirect keeps a parameter if and only if it was not repeated, and sets the branding host |
| PortalRedirects.RepeatedParameterCollapses | server/src/middleware.ts:461-464 | of a parameter given twice, only the second value arrives at the canonical sign-in page |
| PortalRedirects.VisitorsSignIn | server/src/middleware.ts:554-595 | a visitor without a session is sent to the sign-in page of the right host with the page to return to, and rests there if and only if the session on that host is not contradictory |
| RedirectAnswers.PlainAnswersExact | server/src/middleware.ts:310-431 | preflight, stale action, invalid identity and missing key are answered exactly to the requests they are meant for |
| RedirectAnswers.RejectionExact | server/src/middleware.ts:348-385 | a redirect clears the session if and only if the session claims both sides outside the API; it leads to the sign-in page of the same side and host with nothing but the reason |
| RedirectAnswers.MspVisitor | server/src/middleware.ts:496-525 | a visitor on an MSP page passes for a server action or a session still hydrating in development, and is else sent to `/auth/signin` on the same host with the page and its parameters to return to, all other parameters unchanged |
| RedirectAnswers.MspStranger | server/src/middleware.ts:526-535 | a user who is not internal is sent from an MSP page to the client portal's dashboard on the canonical host, or on the same one if there is none |
| RedirectAnswers.MspUser | server/src/middleware.ts:538-551 | an internal user is redirected exactly for one `tab` parameter naming a migrated tab in any case, to the tab's page with all other parameters |
| RedirectAnswers.PortalVisitorAtHome | server/src/middleware.ts:584-597 | a portal visitor is sent to sign in on the same host; a page to return to that was already given is kept, else it is the page asked for |
| RedirectAnswers.PortalVisitorElsewhere | server/src/middleware.ts:566-583 | on another host the visitor is sent to the canonical sign-in page with the absolute address to return to and the shown host, and nothing else |
| RedirectAnswers.PortalUser | server/src/middleware.ts:598-620 | a client passes, an internal user on another host is sent to the canonical MSP dashboard, anyone else to the sign-in page with `error=AccessDenied` and all other parameters |
| RedirectAnswers.SigninElsewhere | server/src/middleware.ts:440-479 | the sign-in page of another host leads internal users to the canonical dashboard and everyone else to the canonical sign-in page, with the last value of each parameter and the shown host |
| RedirectAnswers.OtherPagesPass | server/src/middleware.ts:433-438 | pages outside both portals, the sign-in pages at home and the payment return page pass |
| Notifications.RoomMaps.OnMessage | hocuspocus/NotificationExtension.js:84-129 | every message changes list and counter, entry by entry, as its kind says, keeps the ids of the list unique, and changes the gap between unread notifications and counter as `GapStep` says |
| Notifications.EffectExact | hocuspocus/NotificationExtension.js:84-129 | list and counter after each kind of message, entry by entry: the new one in front, the named or all ones read at the given time, every other one as it was |
| Notifications.GapStep | hocuspocus/NotificationExtension.js:84-129 | the exact effect of each message on the number of unread notifications minus the counter |
| Notifications.UnreadAgreement | hocuspocus/NotificationExtension.js:84-129 | over every run with fresh unread creations the counter never exceeds the unread notifications, and equals them along runs whose read events each name an unread one |
| Notifications.ReadKeepsAgreementExact | hocuspocus/NotificationExtension.js:101-116 | a read event keeps counter and list in agreement if and only if it names an unread notification or the counter is 0 |
| Notifications.RepeatedReadMiscounts | hocuspocus/NotificationExtension.js:114-116 | a concrete room: reading a notification that is already read leaves the counter at 0 with one notification unread |
| Notifications.ChannelsAreDistinct | hocuspocus/NotificationExtension.js:49-64 | distinct accepted rooms never share a channel |
| Notifications.ChannelExact | hocuspocus/NotificationExtension.js:49-64 | exactly the rooms `notifications:tenant:user` are accepted, and the channel of each is the prefix, `internal-notifications:`, tenant and user |
| Notifications.SubscriptionTable.ConnectRoom | hocuspocus/NotificationExtension.js:49-149 | the completed hook counts the room that connects once more, with its channel subscribed, and leaves the count and subscription of every other room as they were |
| Notifications.SubscriptionTable.DisconnectRoom | hocuspocus/NotificationExtension.js:155-184 | the completed hook counts the room that disconnects once less, unsubscribes the last, ignores a room without connections, and leaves every other room as it was |
| Notifications.SubscriptionsCount | hocuspocus/NotificationExtension.js:49-184 | over every sequence of beginnings and ends of hooks in which those of one room take turns while different rooms overlap freely, each channel is subscribed exactly while its room has open connections and, when no hook of the room waits, is counted exactly that often |
| Notifications.CompletedHooksCount | hocuspocus/NotificationExtension.js:49-184 | the same over every sequence of hooks that run to completion one after the other |
| Notifications.TurnsExact | hocuspocus/NotificationExtension.js:49-184 | from a table that agrees with the open connections, a hook that closes only what was opened leaves the right count, once no hook of its room waits any more, if and only if none was waiting when it began, however the hooks of other rooms go on |
| Notifications.OverlappingConnectsMiscount | hocuspocus/NotificationExtension.js:67-148 | for every accepted room, two connects that overlap at the `await` are counted once, and the first disconnect unsubscribes the room although a connection is open |
| Notifications.ConnectDuringDisconnectIsLost | hocuspocus/NotificationExtension.js:175-180 | for every accepted room, a connect that begins while the last disconnect waits is forgotten: the room has a connection but neither entry nor subscription |
| Notifications.DisconnectDuringConnectIsIgnored | hocuspocus/NotificationExtension.js:170-173 | for every accepted room, a disconnect that begins while the first connect waits finds no entry: the room stays subscribed with a count of 1 and no connection |

## Left out

Document editing and the assistant:

- InlineMarks.CreateFormattedText: does not model that Yjs gives an insert without attributes the marks of the text before it, which is library code outside this repository. A text node is the list of runs as inserted, and the inline and block round trips are about those; in the editor, plain text after a marked run (`**a** b`) can take over its marks.
- Yjs internals: merging of concurrent operations and of adjacent equal runs. A fragment is a sequence of identified nodes and a text node the list of runs inserted into it.
- `toString` of a marked text node, which prints tags; the model collects instructions as plain text (AiParticipantExtension.js:182-190).
- UTF-16 code units: strings are sequences of characters.
- `windowDocumentContext`, user names from awareness, logging, `fetch`, `TextDecoder`, and non-string `content` values.
- Users' edits inside the streamed paragraph while it is being filled (the paragraph is the reader's own in `Streaming`).
- Wall-clock durations; only the order of timer firings matters.
- Attribute values that are no numbers or are negative in a heading's `level`.
- `processDocument` and `processAiMention` are steps of the protocol (`Process`, `Advance`, `Complete`) rather than methods, because users' edits come between any two of their `await`s; the timer fields and the fragment are classes.

Test databases:

- Statements still running on the server when their client crashes, live processes on different machines sharing a pid, and suite databases whose names look like template names.
- SQL text, roles, grants, passwords, session settings and differences of the Citus backend; the statements before and after a create are one step that can fail.
- The content hash: equal template names mean equal migration and seed sources, and bootstrap is a fixed function of them.
- Overlapping calls inside one process, which would share its pid and with it the private template name: in the model a process starts a call only when its previous one is over.
- The `recreate: false` path, which touches no database.
- The protocol is a step machine over a shared map of databases and process records, so that steps of different processes interleave; it has no class per process.

Tenant deletion:

- Reading the order from source text and the keys from `information_schema`; both are parameters.
- `SET DEFAULT` is treated like `SET NULL`, and exempt columns are taken to be null for the tenant before deletion begins.
- Foreign keys between rows of different tenants: keys are taken to include the tenant column.
- Going on with the next table after a blocked one (the activity logs the error); the model asks whether any statement is blocked at all.

Migration names:

- Time zones: local time is UTC. The directory test is a boolean, and the text of the report is not modelled.

Middleware:

- CORS, i18n and theme headers, the API-key skip lists (a parameter), the forwarded-host handling and its warning throttle.
- A redirect to the canonical origin arrives with the canonical hostname, and deleting the session cookies clears that host's session.
- Percent-encoding of query strings, and `toLowerCase` beyond ASCII.

Notifications:

- A message for a document that is not loaded (the exception is swallowed and nothing changes) and the incoming-call signal, which touches neither map.
- Listeners: two overlapping first connects call `subscribe` twice, with a listener each, so that later messages can be handled twice; the model keeps only which channels are delivered.
- Broker calls that fail: `subscribe` and `unsubscribe` succeed, and take effect when they are issued.

Not modelled at all, because they are flat lookups or input and output: the room-name validators, `TicketUpdatesExtension.js`, `CollabPersistenceExtension.js`, the route-inventory scripts, configuration files, fixtures and command line scripts.
