# Formal model of the cc-squash proxy

cc-squash sits between a coding assistant and the model API and rewrites request bodies so that they
cost fewer tokens: it cleans tool output, replaces large payloads by markers that can be looked up
again, and sheds history under pressure. It is only safe if a rewrite never breaks the conversation,
never touches text the upstream cache may already hold, and never loses what it replaced. This project
models the logic those promises rest on and proves them with Dafny.

`dafny verify dfyconfig.toml` checks everything.

## How the model is laid out

| file | component |
|---|---|
| `Basics`, `Wire` | optional values, UTF-8 lengths; a parsed body with its verbatim block texts |
| `AnsiStrip`, `Whitespace`, `BlankLines`, `Markup` | the text cleaners, as loops proved against functions of the text; one of them against its documentation |
| `LineRules`, `Documents`, `Layout` | what the cleaners read and write, from the pieces a text is put together from: lines and their endings, escaped text and tags, the page as a three-phase reference |
| `Segmentation`, `SegmentFields` | cutting a transcript into segments, and the payloads they are addressed by; every field of a segment from its messages |
| `Ledger`, `Runner`, `Presets` | the plan of scores, proposals and notes; the runner with its bounded reverts; the pipelines it is given |
| `Recode`, `FastLane`, `SeqDiff`, `RecodeChain` | recode passes, the fast lane, the diff pass, the whole off-path chain |
| `Leaves`, `Passes` | which text of a segment a pass may rewrite; exactly when the two passes that compare segments fire |
| `Targets`, `Rewrite`, `Budget`, `Intercept`, `Reasoning` | replaceable blocks, the splice and its gate, the over-budget ladder, one whole interception and what it never replaces |
| `Hints`, `Rungs`, `Outcomes` | which blocks a splice hints, what the ladder drops by tokens and positions, and everything an interception sends, commits and releases |
| `Render`, `Backrefs`, `Marker`, `Store` | staging and rendering of markers, what back-references point at, the marker grammar and its scanner, the content-addressed store |
| `Staging`, `Wording`, `Collection` | what a plan holds and which repeats refer back, the markers' exact wording, which rows a collection evicts |
| `Economics`, `Ladder` | pricing, the controller, the two economics gates and the spine around them |
| `Verdicts`, `Strategies` | the controller's verdict over sums, the spine's strategy for each decision |
| `Session`, `LaneRuns`, `Breaker` | a session's state over runs of turns, and over interleavings with staging tasks; what a commitment binds; when a turn is intercepted |
| `Supervisor`, `Ticks` | the Go supervisor: backoff, crash breaker, skew latch; one tick, field by field |

Code that the source writes as loops or as updates of an object is written that way here: methods and
classes (`PlanLedger`, `SessionEcon`, `Renderer`, `RefStore`, `Supervisor`) whose contracts give the new
state as a function of the old one. The theorems are about those functions. Code that the source writes
as expressions is functions and lemmas.

Modelling conventions: floating-point numbers are reals; text lengths are UTF-8 bytes where the source
counts bytes; the content hash, the JSON minifier and printer, the diff renderer, token estimates and what
a summarizer decides are arbitrary functions or inputs, and collision-freedom is a premise where a lemma
needs it. Clocks and the answers of other processes are inputs.

## Where the code falls short of its own words

Each of these is proved: the input or run that shows it, and the exact condition under which the code does
what is promised.

* While the fast-lane window is open, the message floor is to cover every request sent upstream. In every
  sequential run of a transcript that only grows it does (`Session.OpenWindowCovers`). It does not when a later
  request is shorter than an uninspected one (`Session.ShrinkingTranscriptBreaksTheFloor`), or when an uninspected
  forward shuts the window between an inspected turn's read and its snapshot
  (`Session.OverlapBreaksTheFloor`). The exact conditions are `Session.OpenWindowPromiseIff` for sequential runs
  and `Session.InterleavedPromiseIff` for interleavings; overlapping turns that grow and do not straddle a shut
  keep the promise (`Session.UnstraddledWindowCovers`).
* A staging claim dropped before its task starts is never released (`Session.AbandonedClaimIsNeverReleased`). A new
  session gets there in two steps (`Session.OrphanIsReachable`), and a claim ends up without an owner exactly in
  the runs that abandon one (`Session.OrphanedIff`).
* The last segment of a body may change when messages are appended (`Segmentation.LastSegmentMayChange`): exactly
  when it is an assistant turn that the first appended message answers (`Segmentation.LastSegmentKeptIff`). All
  others are stable.
* A staged dedup back-reference says that an earlier message shows the same. With every staged segment
  rendered, an earlier segment still shows that leaf exactly when some earlier segment of it offers no target
  or shares its address with none that anything was staged for (`Backrefs.EarlierTextStaysIff`). Dedup alone
  does not see to that: of two turns with the same long text, the first summarized, or both under one
  address, the second goes out as a back-reference and the text is shown nowhere
  (`Backrefs.DedupHidesTheText`). The back-reference's own ref always retrieves its segment's payload.
* A page of markup only is emptied by the markup pass and staged as a back-reference, although no earlier
  message of the request says the same (`Backrefs.EmptiedPageClaimsAnEarlierOne`). A bare back-reference is
  staged exactly when the chain emptied the leaf and a ref-backed pass fired; an earlier segment of the
  incoming request says the same whenever that was dedup (`Backrefs.BareBackrefCause`).
* The fast lane is to leave alone what upstream may have cached. Commitments are keyed by payload, so a segment
  that was sent before enters the lane, exactly when it renders there and its payload has been committed, by
  itself while it was fresh or by a later copy (`LaneRuns.SentSegmentInLaneIff`, `LaneRuns.OlderCopiesFollow`).
* The budget's first rung counts the tokens of historical reasoning as shed. No interception ever replaces a
  reasoning block (`Reasoning.ReasoningIsNeverShed`); the segment loses a text or a tool result instead,
  exactly when it is unpinned, outside the recency window and has one that the placeholder shrinks
  (`Reasoning.StrippedSegmentChangesIff`).
* The two economics gates agree for every floor that is not negative, and for no negative one
  (`Economics.GatesAgree`, `Economics.NegativeFloorDisagrees`); at any floor they agree on candidates that gain
  something, bust aside (`Economics.GatesAgreeOnSavers`). At a floor that is not negative a live batch is parked
  only over a huge paste or a staged recode that no per-candidate test priced (`Ladder.ParkedBlamesUnpriced`), and
  either can park it (`Ladder.HugePasteIsParked`, `Ladder.RecodeIsParked`).
* The reported break-even turns leave out the chance that the cache has died: the bust is repaid after that
  share of them (`Economics.RepaysIff`), so the report is right exactly when it is zero or the cache is
  certainly alive (`Economics.BreakEvenIsExactIff`).
* The over-budget target is always 256 tokens, because the window is passed as its own maximal output
  (`Budget.TargetIsTheFloor`); it would leave the documented room exactly for windows of at least the
  output and 1280 tokens (`Budget.TargetLeavesRoomIff`).
* `normalize_ws` is documented to collapse three or more blank lines. It also collapses two
  (`BlankLines.TwoBlankLinesCollapse`), and agrees with its documentation exactly on texts without a run of
  exactly two blank lines, not counting the blank end of a text without a final newline
  (`BlankLines.DocumentedRuleIff`).
* The backoff follows its capped doubling exactly when the base is within the cap and no wait that still gets
  doubled overflows 64 bits: the first wait is not clamped, and a base or doubling of 2^62 or more below the
  cap wraps around (`Supervisor.BackoffIsCappedDoubling`).
* The second session to put a payload gets a record naming the row, but a retrieval by that session misses
  it (`Store.SecondPutterMisses`, `Store.TwoPutsOneOwner`): only the row's owner hits (`Store.RetrieveIsScoped`).

## Model

| member | source | states |
|---|---|---|
| AnsiStrip.SkipEscapeAt | crates/ccs-policy/src/pipeline/passes/ansi_strip.rs:61-77 | the cursor loop skips exactly one escape sequence: to the final byte of a control sequence, or one character |
| AnsiStrip.StripAnsi | crates/ccs-policy/src/pipeline/passes/ansi_strip.rs:43-57 | the character loop computes `Strip`, the function the next six lemmas characterize |
| AnsiStrip.StripKeepsGlyphs | crates/ccs-policy/src/pipeline/passes/ansi_strip.rs:43-77 | for any tokenization by the ECMA-48 grammar (escape, control sequence, control, glyph, truncated ending), stripping leaves exactly the glyphs |
| AnsiStrip.EveryTextTokenizes | crates/ccs-policy/src/pipeline/passes/ansi_strip.rs:43-77 | every text has such a tokenization, so the previous row covers every input |
| AnsiStrip.StripKeepsOnly | crates/ccs-policy/src/pipeline/passes/ansi_strip.rs:49-55 | the result holds no control character but newline and tab, so no carriage return |
| AnsiStrip.StripIsSubsequence | crates/ccs-policy/src/pipeline/passes/ansi_strip.rs:43-57 | the result is a subsequence of the input |
| AnsiStrip.StripShrinksOrKeeps | crates/ccs-policy/src/pipeline/passes/ansi_strip.rs:28-40 | the result is the input itself or strictly shorter in bytes |
| AnsiStrip.StripIdempotent | crates/ccs-policy/src/pipeline/passes/ansi_strip.rs:43-57 | stripping twice is stripping once |
| Whitespace.NormalizeWs | crates/ccs-policy/src/pipeline/passes/whitespace.rs:41-61 | the line loop computes `Normalize` |
| Whitespace.NormalizeReachesNormalForm | crates/ccs-policy/src/pipeline/passes/whitespace.rs:39-61 | no carriage return, no trailing white space on a line, no two blank lines in a row, a final newline exactly when the input had one |
| Whitespace.NormalizeKeepsInk | crates/ccs-policy/src/pipeline/passes/whitespace.rs:39-61 | every visible character survives, in order, and none is added |
| Whitespace.NormalizeShrinksOrKeeps | crates/ccs-policy/src/pipeline/passes/whitespace.rs:26-38 | on text without carriage returns the result is the input itself or strictly shorter |
| Whitespace.NormalizeIdempotent | crates/ccs-policy/src/pipeline/passes/whitespace.rs:39-61 | normalizing twice is normalizing once |
| LineRules.EveryTextDivides | crates/ccs-policy/src/pipeline/passes/whitespace.rs:41-45 | every text divides into lines, each ended by a newline, a carriage return or both, and an open rest, in such a way that no ending could be read as part of another |
| LineRules.NormalizeIs | crates/ccs-policy/src/pipeline/passes/whitespace.rs:41-61 | for every such division: the output is the lines, each cut after its last visible character, without the blank ones that come right after a blank one, all ended by newlines; unless the input ended in a newline, the newlines at the end come off |
| BlankLines.TwoBlankLinesCollapse | crates/ccs-policy/src/pipeline/passes/whitespace.rs:39-61 | a text with exactly two blank lines in a row loses one of them, where the documented rule keeps both |
| BlankLines.DocumentedRuleIff | crates/ccs-policy/src/pipeline/passes/whitespace.rs:39-61 | the code agrees with the documented three-or-more rule exactly on texts without a run of exactly two blank lines, not counting the blank end of a text without a final newline |
| Markup.StripHtml | crates/ccs-policy/src/pipeline/passes/markup_strip.rs:140-186 | the index loop yields the rendered page when the markup is well formed and the page is shorter in bytes, and nothing otherwise |
| Markup.FindTagEnd | crates/ccs-policy/src/pipeline/passes/markup_strip.rs:365-385 | the loop computes `TagEnd` |
| Markup.FindClosingTag | crates/ccs-policy/src/pipeline/passes/markup_strip.rs:403-414 | the hop from `<` to `<` finds the first closing tag of that name at or after the start, if there is one |
| Markup.TagEndIsFirstUnquoted | crates/ccs-policy/src/pipeline/passes/markup_strip.rs:361-385 | a tag ends at `e` if and only if `e` is the first `>` outside quotes and no unquoted run up to it exceeds 256 bytes, by an independent left-to-right reading of quotes |
| Markup.Renderer.Tag | crates/ccs-policy/src/pipeline/passes/markup_strip.rs:257-272 | depth and pending separator after a tag |
| Markup.Renderer.Push | crates/ccs-policy/src/pipeline/passes/markup_strip.rs:274-291 | the page after one character of text |
| Markup.RenderingFits | crates/ccs-policy/src/pipeline/passes/markup_strip.rs:135-186 | output bytes plus a pending separator never exceed the input, and are as many only when the output is the input: well-formed markup is declined exactly when rendering changes nothing |
| Markup.RenderKeepsInk | crates/ccs-policy/src/pipeline/passes/markup_strip.rs:237-318 | the visible characters of the text nodes, entities decoded, come out in order; separators add none |
| Markup.NoPreNoTripleBreaks | crates/ccs-policy/src/pipeline/passes/markup_strip.rs:237-318 | without pre and code elements the output never holds three newlines in a row |
| Markup.PreIsVerbatim | crates/ccs-policy/src/pipeline/passes/markup_strip.rs:274-279 | text inside pre or code is appended as it stands, after any separator due |
| Markup.ElementsStayApart | crates/ccs-policy/src/pipeline/passes/markup_strip.rs:216-272 | after a closing block (cell) tag, the next visible character is preceded by white space holding a newline (by white space), whatever tags and blanks come in between |
| Documents.DocumentIsRead | crates/ccs-policy/src/pipeline/passes/markup_strip.rs:140-235 | a document put together from escaped characters, no-break spaces, comments, tags and whole script or style elements is scanned as exactly those: the characters meant, a space, nothing, the tag with its name, nothing |
| Documents.EscapeRoundTrips | crates/ccs-policy/src/pipeline/passes/markup_strip.rs:416-427 | any text, escaped character by character (`&`, `<`, `>`, `"`, `'`), is scanned as exactly its own characters |
| Documents.LoneSignsStand | crates/ccs-policy/src/pipeline/passes/markup_strip.rs:140-186 | an `&` that begins no known entity, and a `<` before anything but a letter, slash or exclamation mark, stand for themselves; a `<` at the end is malformed |
| Documents.MalformedIff | crates/ccs-policy/src/pipeline/passes/markup_strip.rs:140-192 | scanning fails at a position if and only if an unclosed comment, an unclosed tag, a script or style element without an end, or a last lone `<` stands there |
| Documents.SeparatorTable | crates/ccs-policy/src/pipeline/passes/markup_strip.rs:216-235 | which tags part the text: a line break tag wherever it stands, cells by a space and blocks by a line break where they close; which preserve it |
| Layout.PageIs | crates/ccs-policy/src/pipeline/passes/markup_strip.rs:237-318 | for every text that scans, the one-pass renderer gives what three phases give: mark where elements part, resolve each mark against the white space and marks around it, allow two line breaks in a row outside pre and code; and the pass answers with that page unless it is the text itself |
| Layout.DocumentPageIs | crates/ccs-policy/src/pipeline/passes/markup_strip.rs:140-318 | so the page of a document is that page of its pieces |
| Segmentation.BuildMarks | crates/ccs-policy/src/segment.rs:75-157 | the segment built at a message opens a new generation exactly for a user turn, is pinned exactly for an unanswered assistant turn with a client tool call, and is true-human exactly for a user turn of plain text |
| Segmentation.SegmentPrompt | crates/ccs-policy/src/segment.rs:38-221 | the loop computes `Segments` |
| Segmentation.SegmentsPartitionMessages | crates/ccs-policy/src/segment.rs:38-164 | the segments' message indices, concatenated, are every index once and in order |
| Segmentation.SegmentsAreDisjoint | crates/ccs-policy/src/segment.rs:38-164 | no message is in two segments |
| Segmentation.PairsShareASegment | crates/ccs-policy/src/segment.rs:227-262 | an assistant message whose tool calls the next user message answers is in one segment with it, and that segment holds just the two |
| Segmentation.SegmentShape | crates/ccs-policy/src/segment.rs:205-221 | a segment's index is its position; past the preamble it covers one message, or an answered tool call with its answer, and is of kind tool pair exactly in the second case |
| Segmentation.SegmentsAbut | crates/ccs-policy/src/segment.rs:205-221 | past the preamble, a segment's byte offset is the previous one's plus the byte length of the previous payload |
| Segmentation.SegmentMarks | crates/ccs-policy/src/segment.rs:75-164 | a segment's generation is the number of user turns up to it; exactly the last segment is current; pinned are the last and the assistant turns waiting for a tool result |
| Segmentation.SegmentsAreStable | crates/ccs-policy/src/segment.rs:38-164 | when messages are appended, every segment but the last is the same record with the same payload |
| Segmentation.SourcesInRange | crates/ccs-policy/src/payload.rs:8-16 | every message a segment names exists, so its payload is made of real messages |
| Segmentation.LastSegmentMayChange | crates/ccs-policy/src/segment.rs:227-262 | a body whose only segment turns from an assistant turn into a tool pair when its answer is appended |
| Segmentation.LastSegmentKeptIff | crates/ccs-policy/src/segment.rs:75-164 | when messages are appended, the last segment keeps its record up to its marks and its payload if and only if it is not an assistant turn answered by the first appended message; then it becomes the tool pair of the two |
| SegmentFields.SegmentIsItsMessages | crates/ccs-policy/src/segment.rs:75-221 | past the preamble a segment covers one message, or an assistant message and the user message that answers one of its calls; its kind is the first one's role; its tokens are the characters of exactly those messages over 3.5, rounded up; it is true-human exactly for a user's plain string; its offset counts all bytes before it |
| SegmentFields.HeadSegmentsAre | crates/ccs-policy/src/segment.rs:43-73 | the tools and then the system prompt are segments of no message, with their own kind, tokens and offset, in generation zero |
| SegmentFields.PairIff | crates/ccs-policy/src/segment.rs:227-262 | two neighbouring messages are a tool pair if and only if the first is an assistant's, the second a user's, and a client call of the first and a result in the second share an id |
| SegmentFields.PinnedIff | crates/ccs-policy/src/segment.rs:110-164 | a message segment is pinned if and only if it is the last, or an assistant turn with a client call that the next message does not answer |
| SegmentFields.PairCostsBoth | crates/ccs-policy/src/segment.rs:79-107 | a pair is estimated at no less than each of its messages and no more than the two together |
| Ledger.PlanLedger.ProposalFor | crates/ccs-policy/src/pipeline/pass.rs:100-102 | lookup of a segment's proposal |
| Ledger.PlanLedger.UpsertProposal | crates/ccs-policy/src/pipeline/pass.rs:105-114 | replaces the segment's proposal in place, or appends it |
| Ledger.FindAfterUpsert | crates/ccs-policy/src/pipeline/pass.rs:99-119 | the written segment has the new proposal, every other one what it had |
| Ledger.UpsertKeepsOnePerSegment | crates/ccs-policy/src/pipeline/pass.rs:105-114 | an upsert keeps at most one proposal per segment |
| Ledger.RetainKeepsMembers | crates/ccs-policy/src/pipeline/passes/ladder_select.rs:174-175 | filtering keeps exactly the proposals that satisfy the test |
| Ledger.RetainKeepsOnePerSegment | crates/ccs-policy/src/pipeline/passes/ladder_select.rs:174-175 | filtering keeps at most one proposal per segment |
| Runner.Run | crates/ccs-policy/src/pipeline/mod.rs:132-155 | the stage loop with its reverts leaves the last plan of `Trace` |
| Runner.RunIsBounded | crates/ccs-policy/src/pipeline/mod.rs:137-161 | whatever passes answer, forward jumps and missing checkpoints included, at most (max_reverts + 1) times the number of stages are visited |
| Runner.AlwaysRevertingTrace | crates/ccs-policy/src/pipeline/mod.rs:137-155 | a pass that always reverts is visited exactly once more than the cap: the cap is what stops it |
| Runner.EveryPlanHasOnePerSegment | crates/ccs-policy/src/pipeline/mod.rs:137-155 | under passes that write through upsert, retain and record, every intermediate plan has at most one proposal per segment |
| Runner.RunIsFold | crates/ccs-policy/src/pipeline/mod.rs:137-155 | when no pass reverts, a run is the passes applied in order |
| Presets.PresetsAreDisciplined | crates/ccs-policy/src/pipeline/presets.rs:28-81 | every pass of the recode chain, of the continuous spine and of the budget fallback writes only through upsert, retain, record and score, and never reverts |
| Presets.PresetRunsKeepOnePerSegment | crates/ccs-policy/src/pipeline/presets.rs:28-81 | so every intermediate plan of a run of any of them holds at most one proposal per segment, under any cap on reverts |
| Presets.PresetsCompute | crates/ccs-policy/src/pipeline/presets.rs:28-81 | run through the runner on a ledger without proposals, they leave what the chain, the spine and the ladder compute |
| Recode.ApplyPass | crates/ccs-policy/src/pipeline/passes/ansi_strip.rs:28-40 | the per-segment loop of a recode pass |
| Recode.PassActsPerSegment | crates/ccs-policy/src/pipeline/passes/recode.rs:51-124 | a pass over all segments does to each segment's proposal what it would do to that segment alone |
| Recode.RecodeOneActsOnItsSlot | crates/ccs-policy/src/pipeline/passes/recode.rs:75-124 | one segment's step writes that segment's proposal and no other |
| Leaves.StepIs | crates/ccs-policy/src/pipeline/passes/recode.rs:51-124 | a pass replaces a segment's proposal if and only if its rewrite of the current text is shorter in bytes; the tokens saved are the difference of the two estimates, an original once kept stays, and a ref-backed pass keeps one |
| Leaves.PairLeafIff | crates/ccs-policy/src/pipeline/passes/recode.rs:134-222 | a tool pair has a leaf if and only if it may be rewritten, exactly one of its results reads as a string, of more than 256 bytes, and exactly one is large on the wire |
| Leaves.TurnLeafIff | crates/ccs-policy/src/pipeline/passes/recode.rs:134-236 | any other segment has one if and only if it is one message, a string or, in a user or assistant turn, blocks with exactly one text, of more than 256 bytes; the fast lane never takes it |
| Leaves.LaneTargetIsTheLeaf | crates/ccs-policy/src/pipeline/passes/recode.rs:145-174 | a segment the fast lane may clean offers no target but the very result its leaf was read from |
| FastLane.FastLaneEqualsStagedChain | crates/ccs-policy/src/pipeline/passes/fast_lane.rs:27-46 | for every leaf and every minifier, ANSI strip, whitespace and minify staged through the runner on an empty ledger propose exactly the fast lane's bytes, or nothing when it declines |
| FastLane.StagedTexts | crates/ccs-policy/src/pipeline/passes/fast_lane.rs:39-46 | threading the cleaners with a shrink test per pass ends in the text the direct composition ends in |
| FastLane.RunInlineChain | crates/ccs-policy/src/pipeline/passes/fast_lane.rs:27-46 | the three pass loops on one ledger leave the plan the runner's stages leave |
| SeqDiff.ApplySeqDiff | crates/ccs-policy/src/pipeline/passes/seq_diff.rs:62-88 | the loop over segments and the latest base per tool computes `SeqDiffAll` |
| SeqDiff.DiffsHaveBareBases | crates/ccs-policy/src/pipeline/passes/seq_diff.rs:62-135 | every diff is against the latest earlier segment of the same tool that renders bare; that base's final text is the text diffed against, it carries no ref and is no diff, and the diff is at most half the size |
| SeqDiff.OthersAreKept | crates/ccs-policy/src/pipeline/passes/seq_diff.rs:62-88 | segments the pass does not diff keep their proposals |
| SeqDiff.SeqDiffIdempotent | crates/ccs-policy/src/pipeline/passes/seq_diff.rs:62-135 | running the pass again leaves the ledger unchanged, for any diff function |
| SeqDiff.BasesAreLatest | crates/ccs-policy/src/pipeline/passes/seq_diff.rs:70-86 | the base kept for a tool is its latest earlier segment that the model reads verbatim |
| Passes.DiffIff | crates/ccs-policy/src/pipeline/passes/seq_diff.rs:62-135 | a segment becomes a diff if and only if the latest earlier segment that shows the same tool bare is comparable with it (1 KiB to 512 KiB, at most ten thousand lines) and the diff is at most half as long |
| Passes.ToolIff | crates/ccs-policy/src/pipeline/passes/seq_diff.rs:140-165 | a segment's tool is the call that its first string result answers, under the first name given to that call |
| RecodeChain.ApplyDedup | crates/ccs-policy/src/pipeline/passes/dedup_backref.rs:37-65 | the loop over the seen set computes `DedupAll` |
| RecodeChain.DedupReplacesRepeats | crates/ccs-policy/src/pipeline/passes/dedup_backref.rs:37-65 | a segment's proposal becomes the dedup one exactly when its raw leaf repeats an earlier one |
| Passes.DedupIff | crates/ccs-policy/src/pipeline/passes/dedup_backref.rs:37-65 | a segment is emptied, its raw leaf kept for the ref, if and only if the leaf has at least 1024 bytes and an earlier segment has the same; every other proposal stays |
| RecodeChain.RunChain | crates/ccs-policy/src/pipeline/presets.rs:52-62 | running a chain of passes on one ledger computes `After` |
| RecodeChain.ChainProposalsShrinkEligibleLeaves | crates/ccs-policy/src/pipeline/passes/recode.rs:51-143 | for any chain, no pinned or true-human segment gets a proposal, and every content is strictly shorter than the raw leaf |
| RecodeChain.ChainStoresTheRightOriginal | crates/ccs-policy/src/pipeline/passes/recode.rs:102-124 | a ref is asked for exactly when a ref-backed pass fired; it carries the raw leaf if dedup fired, else what the earliest ref-backed pass that fired had read |
| RecodeChain.DedupIsFinal | crates/ccs-policy/src/pipeline/passes/dedup_backref.rs:37-65 | after dedup fired on a segment no later pass changes its proposal |
| Targets.SquashTargetsOffered | crates/ccs-policy/src/targets.rs:46-171 | every target is a real block or string content in a message of its own segment, larger than the span floor, a text block or a tool result with that very id |
| Targets.SegmentRenderingFits | crates/ccs-proxy/src/intercept.rs:691-708 | rendering any segment's targets, with any texts, keeps each replaced block's part in tool pairing |
| Targets.SquashTargetsIff | crates/ccs-policy/src/targets.rs:46-171 | a place is a target if and only if it takes more than 256 bytes and is a readable result of a tool pair's user message, a text or readable result of a one-message user or assistant turn, or the whole string of a one-message segment; sizes, ids and error flags are those of the block |
| Targets.OnePlaceOneTarget | crates/ccs-policy/src/targets.rs:46-171 | no place of a segment is offered twice in different ways |
| Rewrite.EditMessage | crates/ccs-policy/src/rewrite.rs:82-139 | the loop over renderings and the hint edit compute `EditSpec` |
| Rewrite.SpliceIsExact | crates/ccs-policy/src/rewrite.rs:37-139 | position by position, the spliced body holds the last rendering put there or the original block, up to its cache hint; envelope and roles are the original's |
| Rewrite.FittingOverwrite | crates/ccs-policy/src/rewrite.rs:82-114 | renderings that fit the body always go in, and the last one at a place shows |
| Rewrite.SpliceKeepsPairsAndRoles | crates/ccs-policy/src/rewrite_gate.rs:32-56 | a splice of fitting renderings keeps the roles and both tool id sets, so the pair and role checks pass if and only if the original's tool pairs balance |
| Rewrite.HintsOnlyWhereKept | crates/ccs-policy/src/rewrite.rs:116-176 | a block of the result carries a cache hint only as the last block of a kept position |
| Rewrite.HintsStayWithinCap | crates/ccs-policy/src/rewrite.rs:37-80 | the hinted blocks of the result and the hints of the prefix together stay within the cap of four; if the prefix alone exceeds it, no block is hinted |
| Hints.KeptPositionsAreHinted | crates/ccs-policy/src/rewrite.rs:116-146 | at every kept position the last block, if an object, carries the ephemeral hint; a string content becomes one hinted text block |
| Hints.HintedIff | crates/ccs-policy/src/rewrite.rs:116-146 | a block of the result carries a hint if and only if it is the last block, an object, of a kept position |
| Hints.KeptHintsIff | crates/ccs-policy/src/rewrite.rs:50-59 | a position is kept if and only if it names a message and is among the last of those planned: four, less the hints the prefix has |
| Hints.UntouchedStaysVerbatim | crates/ccs-policy/src/rewrite.rs:82-96 | a message that nothing targets, that is to carry no hint and mentions none comes out as it went in |
| Hints.TouchedIsPrinted | crates/ccs-policy/src/rewrite.rs:98-116 | any other message is printed from its fields |
| Hints.SpliceOkIff | crates/ccs-policy/src/rewrite.rs:82-131 | a splice of fitting renderings fails if and only if a hint is wanted on a message without blocks |
| Hints.GatePassesIff | crates/ccs-policy/src/rewrite_gate.rs:32-56 | the pair and role checks pass if and only if every call is answered and every answer called for, and the roles are the original's one by one |
| Budget.DefaultCompact | crates/ccs-proxy/src/intercept.rs:1579-1634 | the single-function ladder: strip, drop tool pairs, drop oldest, with early returns |
| Budget.ApplyStripReasoning | crates/ccs-policy/src/pipeline/passes/budget_fallback.rs:65-88 | rung 1 as a pass over the ledger |
| Budget.ApplyDropToolPairs | crates/ccs-policy/src/pipeline/passes/budget_fallback.rs:90-126 | rung 2 as a pass that starts from what the ledger already removes |
| Budget.ApplyDropOldest | crates/ccs-policy/src/pipeline/passes/budget_fallback.rs:128-165 | rung 3 as a pass that starts from what the ledger already removes |
| Budget.RunLadder | crates/ccs-policy/src/pipeline/passes/budget_fallback.rs:21-165 | the three passes on one empty ledger |
| Budget.LadderThroughLedger | crates/ccs-policy/src/pipeline/passes/budget_fallback.rs:21-165 | for every body and target, the three passes propose exactly the segments the single function strips or drops |
| Budget.LadderIsGreedy | crates/ccs-policy/src/pipeline/passes/budget_fallback.rs:21-165 | no drop happens once `running` is at the target, drops are oldest first, and the ladder ends at the target or with every droppable segment dropped |
| Rungs.LadderIff | crates/ccs-policy/src/pipeline/passes/budget_fallback.rs:21-165 | nothing goes at or under the target; above it, a turn counts as shed exactly when it holds reasoning and a later assistant turn exists, an unpinned tool pair goes exactly when what is left after the reasoning and all older pairs is above, and any other turn but the last exactly when what is left after the pairs and all older turns is |
| Rungs.ShedIsReasoning | crates/ccs-policy/src/budget.rs:49-94 | what a stripped turn counts as shed is its estimate less the estimate of the same message without its reasoning blocks |
| Intercept.CommitmentDeltas | crates/ccs-proxy/src/intercept.rs:335-341 | newly committed keys are outside the old commitment set, un-committed ones inside it, and without a staged plan none is un-committed |
| Intercept.CommittedIsUncached | crates/ccs-proxy/src/intercept.rs:163-210 | a key is newly committed only for a leaf none of whose messages lies below the floor, with the window open and no staged entry |
| Intercept.CommittedLeafShowsOrIsDisplaced | crates/ccs-proxy/src/intercept.rs:457-508 | on a successful splice every eligible committed leaf shows its cleaned bytes at each of its places, or is displaced at its own place: by a staged rewrite, which un-commits its key, or by a budget drop, which un-commits nothing |
| Intercept.StandingShows | crates/ccs-proxy/src/intercept.rs:457-508 | a lane rendering whose places the base does not take is in the spliced body |
| Intercept.InterceptPassesPairGate | crates/ccs-proxy/src/intercept.rs:510-540 | a body with balanced tool pairs is never rejected by the pair or role checks, and an interception keeps the number of messages |
| Outcomes.BaseIff | crates/ccs-proxy/src/intercept.rs:237-456 | what is written beneath the fast lane: the staged texts of every matched row of an applied batch; or, with nothing staged and a last segment of more than two fifths of the window, the placeholder for every target it shrinks, in unpinned segments outside the recency window that the ladder strips or drops; nothing else |
| Outcomes.InLaneIff | crates/ccs-proxy/src/intercept.rs:163-235 | a segment is in the lane if and only if its key is committed, or it is unsent, unstaged and the window open; it has a leaf of at most 256 KiB that cleaning shrinks; and the cleaned text shrinks every target |
| Outcomes.OwedShows | crates/ccs-proxy/src/intercept.rs:457-540 | a spliced body shows every text owed: each rewrite beneath the lane, and each cleaned leaf of which no target is rewritten beneath it |
| Outcomes.OwedOnce | crates/ccs-proxy/src/intercept.rs:457-540 | what is owed at a place is one text |
| Outcomes.NothingElseChanges | crates/ccs-proxy/src/intercept.rs:457-540 | where nothing is owed the original stands, up to its hint; envelope, roles and message count stay |
| Outcomes.SplicesIff | crates/ccs-proxy/src/intercept.rs:457-540 | unless the gate's other checks refuse, something is spliced if and only if something is owed and the tool pairs balance |
| Outcomes.GateOnlyRefuses | crates/ccs-proxy/src/intercept.rs:510-540 | those checks accept or refuse the body as a whole and have no other effect |
| Outcomes.CommittedExactly | crates/ccs-proxy/src/intercept.rs:457-508 | a splice commits exactly the keys of fresh lane leaves it shows, and releases exactly the committed keys of rows the applied batch rewrites |
| Outcomes.BreakpointsIff | crates/ccs-proxy/src/intercept.rs:542-556 | a block of a spliced body is hinted if and only if it is the last of a message the applied batch rewrote and that message is among the last of its planned breakpoints so rewritten: four, less the prefix's hints |
| Outcomes.NominalIsIdentity | crates/ccs-proxy/src/intercept.rs:848-873 | nothing staged, no lane leaf and a last segment of at most two fifths of the window: the body goes out as it came |
| Outcomes.OverBudgetSheds | crates/ccs-proxy/src/intercept.rs:848-932 | above that, every shrinking target of an unpinned segment outside the recency window that the ladder strips or drops shows the placeholder in whatever is spliced |
| Outcomes.OverBudgetSplices | crates/ccs-proxy/src/intercept.rs:848-932 | and if there is such a target and the gate accepts, something is spliced |
| Outcomes.AppliedBatchShows | crates/ccs-proxy/src/intercept.rs:427-456 | an applied batch, of any number of rows, shows every text it staged for a row it still holds |
| Outcomes.HeldBatchIsIdentity | crates/ccs-proxy/src/intercept.rs:237-425 | a batch that is held, or of which no row is left, rewrites and releases nothing; without lane leaves the body goes out as it came |
| LaneRuns.LaneIsStable | crates/ccs-proxy/src/intercept.rs:163-235 | a leaf in the lane renders the same bytes at the same places in every grown body, as long as its key is committed |
| LaneRuns.CommittedLeafRendersTheSame | crates/ccs-proxy/src/session.rs:43-48 | in every run, from the turn that commits a leaf on and until its key is released, every grown request renders it in the lane with the same bytes |
| LaneRuns.OlderCopiesFollow | crates/ccs-proxy/src/intercept.rs:163-200 | from the turn after the commitment on, every segment with that payload that renders in the lane is in it, however long ago it was sent |
| LaneRuns.SentSegmentInLaneIff | crates/ccs-proxy/src/intercept.rs:163-210 | a segment with a message below the floor is in the lane if and only if it renders there and its payload has been committed |
| Reasoning.OtherBlocksSurvive | crates/ccs-proxy/src/intercept.rs:457-540 | any block that is neither a text nor a tool result comes through any interception at its place, up to its cache hint |
| Reasoning.ReasoningIsNeverShed | crates/ccs-policy/src/pipeline/passes/budget_fallback.rs:62-88 | so no reasoning block is ever replaced, though the first rung counts its tokens as shed |
| Reasoning.BudgetChangesIff | crates/ccs-proxy/src/intercept.rs:848-927 | a segment the budget proposed changes if and only if it is unpinned, outside the recency window and offers a target that the placeholder shrinks |
| Reasoning.StrippedSegmentChangesIff | crates/ccs-proxy/src/intercept.rs:848-927 | a segment proposed for its reasoning changes if and only if it is unpinned, outside the recency window and holds a text or readable tool result of more than 256 bytes that the placeholder shrinks |
| Render.StagePlan | crates/ccs-proxy/src/staging.rs:115-183 | the loop fills the plan map: recode if it saves a fifth, else decision, skipping gated segments and failed puts |
| Render.PlanNamesPayloads | crates/ccs-proxy/src/staging.rs:115-183 | every plan entry was made for the payload its key addresses, by the last segment that made one, and its ref is its key |
| Staging.EntryIs | crates/ccs-proxy/src/staging.rs:115-183 | exactly when a segment stages an entry, and what it holds: a recode of at most four fifths of the payload with its ref and marker if it needs one, else the decision with its summary |
| Staging.PlanHolds | crates/ccs-proxy/src/staging.rs:115-183 | the plan holds a key if and only if some segment stages an entry under it, and then the last one's |
| Render.RenderSegments | crates/ccs-proxy/src/intercept.rs:563-654 | the loop over live segments and the first-seen map computes `RenderTo` |
| Render.BackrefsHaveAnchors | crates/ccs-proxy/src/intercept.rs:557-654 | of entries without a recode: every back-reference has a full placeholder of the same ref further up, under a role it may refer to, and replaces an unpinned payload of at least 1024 bytes |
| Staging.BackrefsExactlyWhenAllowed | crates/ccs-proxy/src/intercept.rs:557-689 | an entry without a recode is rendered as a back-reference if and only if its ref was rendered before, first under the same role or by the assistant before the user, and it has at least 1024 bytes and is not pinned; otherwise as the full placeholder with its sizes and summary |
| Staging.RenderPlaces | crates/ccs-proxy/src/intercept.rs:563-654 | the rendering lists every target of every live entry once, in order; a recode says its content and, below it, its marker |
| Backrefs.EarlierTextStaysIff | crates/ccs-proxy/src/intercept.rs:264-280 | with every staged segment that offers a target rendered, an earlier segment of the same leaf is left as it is if and only if some earlier segment of that leaf offers no target, or no segment of its address got an entry: a condition on the advice, before anything is rendered |
| Backrefs.BackrefAnchoredIff | crates/ccs-proxy/src/intercept.rs:563-654 | a rendered back-reference, baked into a recode or not, has a full placeholder of the same ref further up if and only if its plan entry is not a recode |
| Backrefs.StagedRecodeIsThePayload | crates/ccs-proxy/src/staging.rs:252-288 | what is staged for a chain proposal is addressed by the whole payload, and has a marker exactly when a ref-backed pass fired; the original the proposal carries decides nothing else |
| Backrefs.BareBackrefCause | crates/ccs-policy/src/pipeline/passes/dedup_backref.rs:37-65 | a bare back-reference is staged if and only if the chain emptied the leaf and a ref-backed pass fired; when that was dedup, an earlier segment of the incoming body has the same leaf of at least 1024 bytes, and when none has, it was a pass that compares nothing |
| Backrefs.DedupHidesTheText | crates/ccs-proxy/src/intercept.rs:264-280 | of any two turns with one long text, the first summarized or both under one address, dedup sends the second as a back-reference and leaves the text shown nowhere; under one address both go out as back-references |
| Backrefs.EmptiedPageClaimsAnEarlierOne | crates/ccs-policy/src/pipeline/passes/markup_strip.rs:72-94 | a page of markup only is staged as a bare back-reference, with no earlier segment of that leaf |
| Render.RenderedTextsNameTheirPayloads | crates/ccs-proxy/src/intercept.rs:608-654 | the first ref the scanner finds in any rendering without a recode is the content address of the payload it replaces |
| Render.RecodeTextNamesTheRef | crates/ccs-proxy/src/staging.rs:252-298 | a recode staged with a ref is read as its content's own refs and then the address of its payload |
| Render.RenderFailsIff | crates/ccs-proxy/src/intercept.rs:563-582 | rendering fails exactly when a live segment is unknown or offers no target |
| Render.RenderedFits | crates/ccs-proxy/src/intercept.rs:563-654 | the renderings fit the body, so the splice theorems apply to them |
| Marker.Extract | crates/ccs-refs/src/marker.rs:40-45 | the scan collects `ExtractRefs` |
| Marker.ExtractSplits | crates/ccs-refs/src/marker.rs:23-45 | scanning a concatenation is scanning both parts when the second starts with `[` or a line break |
| Marker.BackrefRoundTrip | crates/ccs-refs/src/marker.rs:40-77 | `extract(pre + backref(id) + post) == extract(pre) + [id] + extract(post)` for all texts |
| Marker.PlaceholderRoundTrip | crates/ccs-refs/src/marker.rs:40-72 | the same for a placeholder, with the id followed by the refs in its summary |
| Marker.OnlyMarkersMatch | crates/ccs-refs/src/marker.rs:23-36 | whatever the scanner accepts is, end to end, one of the two emitted shapes |
| Wording.BackrefReads | crates/ccs-refs/src/marker.rs:74-77 | the exact wording of a back-reference |
| Wording.PlaceholderReads | crates/ccs-refs/src/marker.rs:51-72 | the exact wording of a placeholder's header, with both sizes in their places, and what follows it |
| Wording.DecimalRoundTrips | crates/ccs-refs/src/marker.rs:57-62 | the sizes are written in decimal, without leading zeros |
| Store.RefStore.Put | crates/ccs-refs/src/store.rs:94-135 | inserts only when the key is free, and returns the caller's record either way |
| Store.RefStore.Materialize | crates/ccs-refs/src/store.rs:141-167 | a hit bumps count and clock of that row only; a miss changes nothing |
| Store.RefStore.Retrieve | crates/ccs-refs/src/store.rs:177-214 | a hit only for the row's owner; anything else misses and changes nothing |
| Store.RefStore.Gc | crates/ccs-refs/src/store.rs:225-285 | survey, sort, take victims, delete: what remains is the declarative `GcRows`, and the unchecked subtraction stays natural |
| Store.RefStore.Victims | crates/ccs-refs/src/store.rs:261-277 | the fold over candidates in last-access order picks exactly the doomed rows |
| Store.GcTakesOldest | crates/ccs-refs/src/store.rs:261-277 | every evicted row was accessed before every eligible row kept, ties by digest |
| Store.GcReachesCap | crates/ccs-refs/src/store.rs:216-277 | if an eligible row is kept, the unreachable unpinned rows kept are within the cap |
| Store.GcStopsInTime | crates/ccs-refs/src/store.rs:269-277 | with its last victim back, the rows left over exceed the cap: the prefix evicted is the shortest |
| Collection.EvictedIff | crates/ccs-refs/src/store.rs:225-285 | a row is evicted if and only if it is unpinned, unreachable and past the grace, and the unpinned unreachable rows, less those of them that are collectable and were accessed earlier (ties by digest), take more than the cap; what is kept is unchanged |
| Collection.KeptWithinCap | crates/ccs-refs/src/store.rs:216-285 | if a collectable row is kept, the unpinned unreachable rows left are within the cap and all that went was accessed earlier |
| Collection.StalerGoFirst | crates/ccs-refs/src/store.rs:261-277 | with an evicted row go all collectable rows accessed earlier |
| Collection.StaleReadIsCollected | crates/ccs-refs/src/store.rs:177-285 | having been read does not save a row: put at 0, read at 10, with no room it is collected at 10000 |
| Store.RowTellsItsHistory | crates/ccs-refs/src/store.rs:94-214 | in every run of put, materialize, retrieve and gc, each row was put by one step, the only one, that found its key free and has stayed since; it is owned by that step's session, the first since its last eviction, and counts exactly the hits since |
| Store.ProtectedRowsStay | crates/ccs-refs/src/store.rs:216-285 | in every run, a row that each collection reaches, or finds pinned or in its grace, stays with its bytes, owner and age |
| Store.KeysAreAddresses | crates/ccs-refs/src/store.rs:94-135 | every row's key is the address of its bytes |
| Store.RetrieveIsScoped | crates/ccs-refs/src/store.rs:177-214 | unless a payload put before collides with it, the address of a payload gives its owner back exactly those bytes, and anyone else a miss that changes nothing |
| Store.SecondPutterMisses | crates/ccs-refs/src/store.rs:92-214 | a second session's put changes nothing and its retrieval misses |
| Store.TwoPutsOneOwner | crates/ccs-refs/src/store.rs:92-214 | after two sessions put the same bytes, the first hits and the second misses |
| Economics.BatchGain | crates/ccs-economics/src/cost.rs:33-90 | a batch's NPV is exactly the sum of its candidates' single NPVs plus the busts they share |
| Economics.GatesAgree | crates/ccs-policy/src/controller.rs:118-177 | for a floor that is not negative, a non-empty batch of candidates each admitted by the NPV test is never held as warm and deep; it is held only below the cache floor |
| Economics.NegativeFloorDisagrees | crates/ccs-policy/src/controller.rs:118-177 | for every negative floor, two short segments replaced by longer placeholders ahead of a long suffix clear it one by one and are held together as warm and deep |
| Economics.GatesAgreeOnSavers | crates/ccs-policy/src/controller.rs:118-177 | at any floor, a batch that clears it one by one and whose candidates each gain something, bust aside, is never held as warm and deep |
| Economics.WarmDeepIff | crates/ccs-policy/src/controller.rs:118-177 | exactly when a batch is held as warm and deep, in terms of its candidates' single NPVs |
| Verdicts.VerdictIff | crates/ccs-policy/src/controller.rs:118-200 | the verdict over the summed scaled tokens, the summed removals and the summed quality: held below the cache floor, else riding a cold cache or an announced bust, else flushed if worth more than the floor, else held; the four exclude each other and leave nothing out |
| Verdicts.FlushReports | crates/ccs-policy/src/controller.rs:150-163 | a flush carries the batch, its longest suffix and what it removes, and its cost and saving make up its worth |
| Verdicts.SurvivalIs | crates/ccs-economics/src/cache.rs:30-44 | the survival chance falls in proportion from certain at no idle time to none at the time-to-live |
| Economics.RepaysIff | crates/ccs-economics/src/cost.rs:33-78 | a batch that removes tokens repays its bust exactly when the turns exceed the reported break-even turns times the chance that the cache is alive |
| Economics.BreakEvenIsExactIff | crates/ccs-economics/src/cost.rs:65-78 | the reported turns are the true ones for every horizon if and only if they are zero or the cache is certainly alive |
| Economics.FlushRepays | crates/ccs-policy/src/controller.rs:118-177 | a flush without quality gain, at a floor that is not negative, is one the remaining turns repay |
| Economics.MaxSuffixIsLargest | crates/ccs-policy/src/candidate.rs:61-70 | the batch's suffix is the largest of its candidates' suffixes, zero for none |
| Economics.PAliveAgreesWithCold | crates/ccs-economics/src/cache.rs:30-44 | for a positive time-to-live, the survival probability is zero exactly when the cache counts as cold, one exactly when it has not been idle, and never rises with time |
| Economics.MaxWithinSum | crates/ccs-policy/src/candidate.rs:61-79 | the batch's suffix is at most the sum of its candidates' suffixes |
| Ladder.ApplySalience | crates/ccs-policy/src/pipeline/passes/salience_gate.rs:23-37 | appends one note per segment that is no squash candidate |
| Ladder.NotesGateExcluded | crates/ccs-policy/src/pipeline/passes/salience_gate.rs:23-45 | those notes gate exactly the segments that are no candidates |
| Ladder.ApplyScores | crates/ccs-policy/src/pipeline/passes/score.rs:25-48 | sets every segment's score in the table |
| Ladder.OffersAreRanked | crates/ccs-policy/src/pipeline/passes/ladder_select.rs:87-99 | the ladder offers from the highest score down, ties by segment |
| Ladder.ApplyLadder | crates/ccs-policy/src/pipeline/passes/ladder_select.rs:87-127 | the loop over staged entries in score order, skipping gated and unadmitted segments, leaves `LadderPass` |
| Ladder.ApplyGate | crates/ccs-policy/src/pipeline/passes/ladder_select.rs:159-183 | collects the vetoed segments, then removes their proposals and notes each |
| Ladder.ApplyAntiThrash | crates/ccs-policy/src/pipeline/passes/anti_thrash.rs:21-39 | removes the proposals whose ref is in flight, one note for each |
| Ladder.RunSpine | crates/ccs-policy/src/pipeline/presets.rs:33-39 | the five passes in order leave `Spine`, scores and notes included |
| Ladder.SpineIsSelectStrategy | crates/ccs-policy/src/pipeline/passes/ladder_select.rs:37-184 | whatever the scores, the spine leaves for each staged segment exactly the strategy the single function picks, or nothing if it is gated, below the score floor, kept or hot; and it leaves nothing else |
| Strategies.RemovalsAreNoted | crates/ccs-policy/src/pipeline/passes/ladder_select.rs:159-183 | the veto leaves one note per vetoed segment, the hot-ref filter one per dropped proposal, after all earlier notes |
| Strategies.IneligibleAreNoted | crates/ccs-policy/src/pipeline/passes/salience_gate.rs:23-37 | the salience gate's notes are about human turns no longer than the verbatim limit |
| Strategies.StrategyIff | crates/ccs-policy/src/pipeline/passes/ladder_select.rs:37-184 | for every staged entry, case by case: truncation carries the ranges, a summary its text, a compression the ref and text, exactly when the entry is admitted, unpinned, large enough, worth its floor and cool, or is a huge human paste to be compressed; else nothing |
| Strategies.OfferOrder | crates/ccs-policy/src/pipeline/passes/ladder_select.rs:87-99 | offers go by falling score, vetoed ones last, ties by segment, and none is lost |
| Ladder.ParkedBlamesUnpriced | crates/ccs-proxy/src/intercept.rs:264-372 | at a floor that is not negative, a live batch of survivors and deterministic recodes is held as warm and deep only over a huge paste or a recode whose own NPV does not clear the floor |
| Ladder.HugePasteIsParked | crates/ccs-proxy/src/intercept.rs:320-372 | a pasted turn of ten thousand tokens ahead of two hundred thousand survives the spine and, alone at floor zero, is held as warm and deep |
| Ladder.RecodeIsParked | crates/ccs-proxy/src/intercept.rs:264-280 | so is a staged recode of a tool pair of that size |
| Session.SessionEcon.InterceptInputs | crates/ccs-proxy/src/relay.rs:243-262 | reads the turn's inputs and takes the staged plan, only for an enabled breaker and a known model |
| Session.SessionEcon.CommitFastLane | crates/ccs-proxy/src/relay.rs:277-291 | adds the committed keys and then removes the un-committed ones |
| Session.SessionEcon.StashEgressSnapshot | crates/ccs-proxy/src/relay.rs:301-321 | a body that parses raises the floor to its message count and opens the window; any other changes nothing |
| Session.SessionEcon.CloseWindow | crates/ccs-proxy/src/relay.rs:328-332 | closes the window |
| Session.SessionEcon.ClaimStaging | crates/ccs-proxy/src/relay.rs:338-346 | test and set of the overlap guard |
| Session.SessionEcon.ReleaseStaging | crates/ccs-proxy/src/staging.rs:398-404 | the guard's drop clears the flag |
| Session.SessionEcon.InspectedTurn | crates/ccs-proxy/src/relay.rs:122-156 | one inspected turn's steps in order give the state and egress `AfterInspected` and `InspectedEgress` |
| Session.EgressKeepsCount | crates/ccs-proxy/src/relay.rs:301-321 | the egress has as many messages as the request, whatever was spliced |
| Session.FloorIsLargestInspected | crates/ccs-proxy/src/session.rs:43-53 | in every run the floor is the largest message count of an inspected turn so far |
| Session.FloorNeverDecreases | crates/ccs-proxy/src/relay.rs:301-321 | no run of turns lowers the floor |
| Session.OpenWindowCovers | crates/ccs-proxy/src/relay.rs:71-172 | in every sequential run of a growing transcript, kills, shadows, disabled breakers and unparsable bodies in any order, an open window means the floor covers everything sent |
| Session.OpenWindowPromiseIff | crates/ccs-proxy/src/relay.rs:71-172 | in any sequential run, while the window is open the floor covers everything sent if and only if a shut came after every opening, or every uninspected request is matched by an inspected one at least as long |
| Session.FloorCoversIff | crates/ccs-proxy/src/relay.rs:71-172 | the floor alone, window aside, covers everything sent if and only if every uninspected request is so matched |
| Session.NewLeavesWereNeverSent | crates/ccs-proxy/src/intercept.rs:163-210 | in such a run, a leaf is newly committed only if none of its messages was in any earlier parsable request sent upstream |
| Session.CommitmentMovesOnSpliceOnly | crates/ccs-proxy/src/relay.rs:277-291 | a turn that is not spliced leaves the commitment set as it was; a spliced one adds and removes exactly its deltas |
| Breaker.SwitchIsTheLast | crates/ccs-proxy/src/relay.rs:243-262 | in every run the breaker stands where the last switch after the session's birth left it, and model and recency window stay what they were |
| Breaker.EgressIff | crates/ccs-proxy/src/relay.rs:122-262 | an inspected turn sends what the interception makes of its body under the session's commitments, floor, window and plan if and only if the breaker is enabled, the model known and the work did not fail open; any other sends its body as it came and leaves commitments and, if not intercepted, the plan |
| Breaker.BrokenIsUntouched | crates/ccs-proxy/src/relay.rs:243-262 | after the breaker is disabled, no turn splices or takes a plan until it is enabled |
| Breaker.PlanIff | crates/ccs-proxy/src/relay.rs:243-262 | a staged plan is still there if and only if no intercepted turn and no later plan came after it |
| Session.StagingIsExclusive | crates/ccs-proxy/src/relay.rs:338-346 | in every interleaving, from a new session on, at most one task owns the claim, and no plan is handed to two interceptions |
| Session.SessionEcon.StageNext | crates/ccs-proxy/src/staging.rs:63-70 | a staging task may commit a plan, and releases the claim however it ends |
| Session.InterleavedPromiseIff | crates/ccs-proxy/src/relay.rs:71-172 | in any interleaving of atomic steps, while the window is open the floor covers everything sent if and only if a shut came after every opening snapshot, or every request sent is matched by a snapshot at least as long |
| Session.UnstraddledWindowCovers | crates/ccs-proxy/src/relay.rs:71-172 | overlapping turns that follow their programs, grow, and have no shut between an inspected turn's read and its snapshot keep that promise |
| Session.FreshLeavesAreUnsent | crates/ccs-proxy/src/intercept.rs:163-210 | in such an interleaving, a leaf an interception newly commits was in no request sent before it read its inputs |
| Session.FloorRisesInEveryInterleaving | crates/ccs-proxy/src/relay.rs:301-332 | no interleaving lowers the floor |
| Session.AbandonedClaimIsNeverReleased | crates/ccs-proxy/src/relay.rs:219-240 | once a claim is held without an owner, it stays so, and no later plan is published |
| Session.OrphanIsReachable | crates/ccs-proxy/src/relay.rs:219-240 | a new session gets there by a claim and its abandonment |
| Session.OrphanedIff | crates/ccs-proxy/src/relay.rs:219-240 | a run ends with the claim held and no owner if and only if some claim was abandoned on the way |
| Session.OverlapBreaksTheFloor | crates/ccs-proxy/src/relay.rs:71-172 | growing turns that straddle a shut end with an open window and a floor below what was sent |
| Session.ShrinkingTranscriptBreaksTheFloor | crates/ccs-proxy/src/relay.rs:71-172 | a sequential run of a shrinking transcript that does the same |
| Supervisor.Backoff.After | go/internal/supervisor/state.go:17-29 | the doubling loop, with 64-bit wrap-around, computes `Delay` |
| Supervisor.BackoffIsCappedDoubling | go/internal/supervisor/state.go:9-29 | for a positive base, the wait is min(base * 2^(n-1), cap) for every n >= 1 if and only if the base is within the cap and no doubled wait overflows |
| Supervisor.Supervisor.Tick | go/internal/supervisor/state.go:116-145 | one supervision pass: its new state and its effects in order |
| Supervisor.Supervisor.Revive | go/internal/supervisor/state.go:147-183 | the revival path: counted death, breaker, backoff, spawn, verification |
| Supervisor.Supervisor.Replace | go/internal/supervisor/state.go:187-240 | the replacement path, with its deferral, its kill and its one final event |
| Supervisor.Supervisor.VerifySpawned | go/internal/supervisor/state.go:242-251 | a ready child resets the backoff and notes its version; any other counts as a failed spawn |
| Supervisor.BreakerHolds | go/internal/supervisor/state.go:147-161 | once a counted death reaches the threshold, every tick retreats and none spawns until a probe is reachable |
| Supervisor.HazardCountsAChain | go/internal/supervisor/state.go:116-161 | in every run of a fresh supervisor the breaker's count is the number of counted deaths in a chain, each within the hazard window of the one before and no healthy probe at its own version since the first |
| Supervisor.OneDeathPerSpell | go/internal/supervisor/state.go:147-157 | two counted deaths have a reachable probe or a respawn in between |
| Supervisor.VerifiedIsNotReplaced | go/internal/supervisor/state.go:116-145 | after a spawn is verified at a version, no tick replaces a child reachable at it until another non-empty version is verified |
| Supervisor.LatchMoves | go/internal/supervisor/state.go:253-261 | the latch moves only by verifying a non-empty version |
| Supervisor.RetryWaits | go/internal/supervisor/state.go:162-174 | a failed spawn is not retried by the revival path before its delay is over |
| Supervisor.ReplacementEndsOnce | go/internal/supervisor/state.go:187-229 | a replacement that is not deferred ends in exactly one of success and abort; success exactly with a verified child, and a child is started only once the old one is out of the way |
| Ticks.SpawnsIff | go/internal/supervisor/state.go:116-240 | exactly when a tick tries to spawn, and when it verifies one |
| Ticks.BackoffIs | go/internal/supervisor/state.go:116-251 | failures and retry time after a tick: cleared by a healthy probe or a verified spawn, one more failure and its delay after a failed one, else unchanged |
| Ticks.GoodNewsResets | go/internal/supervisor/state.go:242-251 | a tick that verifies a spawn or finds the child healthy leaves no failures and no retry time |
| Ticks.HazardIs | go/internal/supervisor/state.go:116-183 | the death count, the last death and the outage mark after a tick |
| Ticks.LatchIs | go/internal/supervisor/state.go:253-262 | the latch after a tick |
| Ticks.RevivalIs | go/internal/supervisor/state.go:147-183 | the effects of a tick with an unreachable child, in order |
| Ticks.ReplacementIs | go/internal/supervisor/state.go:116-240 | the effects of a tick with a reachable child, in order: a replacement only for a skewed version, by force only when degraded, shutdown before kill before spawn, one verdict |

## Left out

- Intercept.CommittedLeafShowsOrIsDisplaced: which staged rows stay live, whether the batch is applied or held, and the texts it shows are arbitrary inputs here; `Ladder`, `Economics` and `Render` model how they are chosen.
- Intercept.InterceptPassesPairGate: the gate's hint cap, shrink, thinking and envelope checks are one arbitrary test of the rewritten body.
- Rewrite.SpliceIsExact: blocks are verbatim texts beside the fields a JSON reader sees; JSON printing, key order, duplicate keys and escapes inside ids are not modelled, and an array as a tool result's content is taken as readable.
- Backrefs.EarlierTextStaysIff: takes every staged segment with a target as rendered; a segment that pricing or the hot-ref filter leaves out is not replaced, and renderings of the fast lane or the budget are not considered.
- Session.FreshLeavesAreUnsent: says nothing of requests that other turns send between an interception's read of its inputs and its own send.
- Session.SessionEcon.InterceptInputs: pricing, hot refs, calibration and usage observation are not part of the session state; whether interception is enabled is an input, so the breaker's timing is not modelled.
- Session.StagingIsExclusive: mutual exclusion and hand-out only; cancellation between claim and task start is modelled as the abandoned claim it leaves.
- Render.StagePlan: the salience gate, the recode chain, the summarizer and the store answer through inputs; the working-state fold is left out.
- Leaves.LaneTargetIsTheLeaf: takes it that a result's wire text is at least as long as the string it holds, as JSON text is; a block's wire text and its fields are independent here.
- Recode.ApplyPass: blob extraction, JSON to TOON and head/tail truncation are arbitrary ref-backed rewrites; the chain theorems hold for any such passes in any order.
- Markup.StripHtml: the recognizer that decides whether a leaf looks like HTML is not modelled, and strings are scalar values weighed in UTF-8 bytes instead of byte arrays.
- SeqDiff.DiffsHaveBareBases: the diff text is an arbitrary function of tool, base and target.
- Store.RefStore.Retrieve: the lossy UTF-8 view and the text search inside a hit are left out; so are token estimates, sources and kinds of rows, 64-bit overflow of byte sums, schema checks and the database itself.
- Economics.BatchGain: reals instead of doubles, so rounding, infinities and NaN are not modelled.
- Ladder.ApplyScores: what the scorer makes of a segment is an arbitrary function; its signals and weights are not modelled.
- Budget.LadderIsGreedy: stated over `running`, which counts a segment twice when it is stripped and then dropped, as the source does.
- Supervisor.Supervisor.Tick: policies, processes and clocks answer through one record per tick; spawn and wait timeouts are left out.
- The HTTP relay, header handling, SSE synthesis, the usage tap, the MCP server, control sockets and file-descriptor handoff: I/O.
- The summarizer, its prompts and the relevance scores: model output and transcendental arithmetic.
- Recency and freshness tests other than the recency window of budget drops and the breakpoint planner: they would add easy members.
- Command line, configuration, status files and code generation.
