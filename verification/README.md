# Verification model of sned's output delivery, search, stream and text layers

A Dafny model of the parts of sned whose correctness depends on several functions working
together, with proofs. `dafny verify dfyconfig.toml` checks all of it.

## What is modelled

- **Output delivery** (`OutputEvents`, `OutputProtocol`, `OutputSafety`, `OutputTheorems`,
  `EmitOutcomes`, `OutputRace`, `DrainLoop`, `DrainPass`, `DrainLoopRuns`, `OutputWriter`,
  `ReasoningMailbox`).
  `OutputProtocol` is the writer and its receivers as a transition system with logs of what was
  numbered, received, lost and dropped without count. `OutputSafety` proves its invariant,
  `OutputTheorems` what the delivery contract promises for every run, and `EmitOutcomes` says what
  one emit does to every lane. `OutputWriter` is the object with its fields, loops and counters;
  each method is proved to move the object as the transition system moves. `OutputRace` splits
  `emit` into channel operations with receivers in between; `DrainLoop` places the drain loop's
  barriers among them, and `DrainPass` and `DrainLoopRuns` a whole pass over the main channel.
- **Workspace search** (`RefreshProtocol`, `SearchOutcomes`, `FuzzyMatch`, `TopK`, `Mentions`). The
  refresh protocol is a transition system over critical sections and channel operations; a step is
  what one task does between two points where another can interfere. A watch channel keeps its old
  value when a send finds no receiver, as tokio's does. `SearchOutcomes` says what searches answer.
- **Stream accumulator** (`StreamChunks`, `StreamAccumulator`). The first says what a list of inputs
  means, without accumulation; the second is the object that must end there.
- **Layout, highlighting, caches, redaction** (`TextWrap`, `WrapBreaks`, `BoxDrawing`,
  `BoxContents`, `Highlight`, `LexicalHighlight`, `Painting`, `LruModel`, `FileContentCache`,
  `RenderCaches`, `Redact`). `WrapBreaks`, `BoxContents` and `Painting` say where lines break, what a
  box shows and which style each character is drawn in, in terms of the input alone.

`Utf8` fixes how Rust strings are read: sequences of Unicode scalar values with a length in octets
(section 3 of RFC 3629).

## Where the code and its documentation differ

The model follows the code; each difference has an exact condition.

- The delivery contract says that finalized output cannot be reordered (`src/cli/output.rs:873-875`).
  The receiver does not take the writer's mutex: a receive between the flush giving up and the append
  lets the newer event overtake (`OutputRace.WindowReceiveInverts`), only such a receive does
  (`InversionImpliesWindowReceive`), and an append keeps order if and only if it takes no slot from a
  waiter (`AppendOrderedIff`, and over runs `OrderedThroughoutIff`).
- The drain loop's barrier (`src/cli/interactive.rs:2265-2272`) promises that no control event
  overtakes finalized output emitted before it. That holds whatever writers do where the pass ended
  because a flush moved nothing (`DrainPass.FlushedPassIsRight`). Where the event budget is used up
  just as the channel runs empty, it fails in two ways, for every budget: a writer moves an older
  waiter into the channel between the read of the channel and that of the deferred queue
  (`DrainLoopRuns.TwoReadsFail`; exactly then, `DrainLoop.DrainBarrier`; never in the other order,
  `OldestFirstIsRight`); or a line waits between the first control event, the only one the test looks
  at, and a later one (`DrainLoopRuns.BatchFails`, `DrainLoop.BatchBarrier`).
- The barrier inside the loop (`src/cli/interactive.rs:2142-2146`) promises the same. It holds before
  an ordered event, and fails before a snapshot that took a slot ahead of a waiter
  (`DrainLoop.LoopBarrier`, `DrainLoopRuns.SnapshotLetsControlPass`).
- The reasoning mailbox trims a chunk before appending it, so a chunk over 64 KiB can leave a gap
  (`ReasoningMailbox.AppendShows`, `GapHappens`).
- `draw_box` says each line is exactly as wide as the box. A wrapped row may carry a `/`, `?` or `#`
  over its limit or be left over-full by a wide glyph, and code is not wrapped at all
  (`BoxDrawing.SlashBoxOverflows`, `WideGlyphBoxOverflows`, `CodeBoxOverflows`); the promise holds if
  and only if no line does so (`TextWrap.RowsWithinIff`, `BoxDrawing.BoxIsExactIff`).
- The lexical highlighter prints a comment again that runs into the end of the code
  (`LexicalHighlight.LexicalStripIff`).
- The render caches never subtract the bytes of an entry that `put` evicts at the entry cap, so an
  entry within the budget may not survive its own insert (`LruModel.RetainedIff`,
  `RenderCaches.MarkdownForgets`), and the lost room never comes back (`LruModel.LeakedRoomIsGone`).
- A mention whose path holds whitespace or an at sign does not read back (`Mentions.MentionRoundTrip`).

## Model

| member | source | states |
|---|---|---|
| `OutputTheorems.DeliveryOrder` | src/cli/output.rs:867-875 | in every run of atomic steps, what was received from, waits in, or waits for the main channel is in emission order apart from snapshots, and each control lane is in emission order |
| `OutputTheorems.ExactlyOnePlace` | src/cli/output.rs:878-902 | in every run each sequenced event is in exactly one of pipeline, priority lane, approval lane, counted losses or undeliverable approval ends; nothing else is anywhere |
| `OutputTheorems.CriticalNeverLost` | src/cli/output.rs:1305-1313 | while the priority receiver exists no critical event is ever lost |
| `OutputTheorems.MainOnlyWhenNobodyWaits` | src/cli/output.rs:1271-1284 | an ordered event enters the main channel only if afterwards nobody waits in the deferred queue |
| `OutputTheorems.MailboxShowsUntakenReasoning` | src/cli/output.rs:1235-1242 | in every run of short chunks the next snapshot is the longest bounded end of exactly the reasoning text not yet taken |
| `OutputTheorems.MergeReproducesEmission` | src/cli/output.rs:363-368 | merging the three lanes by sequence number gives the emission order of all survivors, without gaps |
| `OutputTheorems.OldestDeferredIsLeast` | src/cli/output.rs:1360-1368 | the oldest deferred sequence is the least waiting one and larger than every ordered event in or through the main channel |
| `DrainLoop.DrainBarrier` | src/cli/interactive.rs:2265-2286 | once the channel has been seen empty, with any steps of writers, down to single channel operations, before the oldest waiter is read: the test never holds a control back without reason, and where it passes it is right if and only if no writer moved an older waiter into the channel between the reads |
| `DrainPass.FlushedPassIsRight` | src/cli/interactive.rs:2134-2286 | whatever writers do before, between and after the reads: if the pass ended because a flush moved nothing, and the channel is then seen empty, every control received before it may be applied; so the test can be wrong only where the event budget was used up |
| `DrainLoopRuns.TwoReadsFail` | src/cli/interactive.rs:2257-2286 | for every budget, a pass that uses it up as the channel runs empty, after which the end of the turn passes while a line emitted before it is unread in the channel |
| `DrainLoop.OldestFirstIsRight` | src/cli/interactive.rs:2279-2282 | reading the oldest waiter first and the channel second lets a control through only if nothing older is unread, whatever writers do in between |
| `DrainLoop.BatchBarrier` | src/cli/interactive.rs:2273-2291 | the test looks at the first control and applies all of them: right for all if and only if the last one would have passed and no writer moved anything older than it |
| `DrainLoopRuns.BatchFails` | src/cli/interactive.rs:2257-2291 | for every budget, a pass that uses it up as the channel runs empty, without interference, after which the first control passes and the second is applied ahead of a line emitted before it |
| `DrainLoop.LoopBarrier` | src/cli/interactive.rs:2142-2157 | in every atomic run, applying older-numbered controls before the next event of the channel is right if that event is ordered, and for any event if and only if the first ordered event still unread is not older |
| `DrainLoop.LoopBarrierFrom` | src/cli/interactive.rs:2142-2157 | the same from any state in which finalized output is in order |
| `DrainLoopRuns.SnapshotLetsControlPass` | src/cli/interactive.rs:2142-2157 | for every capacity and larger budget, a pass in which a model-line snapshot that took a slot ahead of a waiting line lets the end of the turn be applied ahead of that line |
| `OutputTheorems.FinalizedLossIff` | src/cli/output.rs:881-896 | with the receiver there, a finalized event costs nothing if and only if a slot is left after the waiters or the deferred queue has room |
| `OutputTheorems.DeferKeepsLongestSuffix` | src/cli/output.rs:1142-1168 | deferring rejects an event that can never fit and leaves the queue as it was, or keeps the longest suffix of queue and event within both bounds; the rest is lost, oldest first |
| `OutputTheorems.DrainDeliversPipeline` | src/cli/output.rs:1170-1206 | from any state receiving and flushing alone deliver the whole pipeline in its order and lose nothing |
| `EmitOutcomes.EmitWithRoom` | src/cli/output.rs:1229-1296 | with room for the pending snapshot, those who wait and itself, an ordered event goes into the main channel behind them, in this order; nothing is lost and nobody waits |
| `EmitOutcomes.EmitLossy` | src/cli/output.rs:1271-1304 | a line in progress needs room for the snapshot and itself only, is lost without it, and leaves those who wait alone |
| `EmitOutcomes.EmitCriticalCrowded` | src/cli/output.rs:1271-1314 | a critical event without such room is on the priority lane, or lost if that receiver is gone; the snapshot and as many waiters as fit are in the main channel, or all lost if it is closed |
| `EmitOutcomes.EmitDeferred` | src/cli/output.rs:1271-1321 | any other finalized event without such room waits behind those that still wait, at the cost of the fewest oldest ones, or is lost alone if it can never fit |
| `EmitOutcomes.EmitApproval` | src/cli/output.rs:1248-1268 | an approval event takes its own lane, or is counted lost or vanishes without a receiver there; the main channel and those who wait change by the snapshot only |
| `EmitOutcomes.SnapshotIsShown` | src/cli/output.rs:1100-1110 | the pending reasoning is sent right behind what is in the main channel exactly if a slot is free, and is otherwise counted lost |
| `EmitOutcomes.SnapshotLostIff` | src/cli/output.rs:1100-1110 | in every run each snapshot was taken by one emit, and is lost if and only if the main channel was full or closed at that step, and in or through it otherwise |
| `EmitOutcomes.SendingSnapshotOutcome` | src/cli/output.rs:1100-1110 | the same for the single channel operation |
| `EmitOutcomes.InterleavedSnapshotLostIff` | src/cli/output.rs:1100-1110 | in every interleaving a snapshot is lost if and only if the channel was full or closed when it was sent |
| `OutputSafety.EmitKeepsInv` | src/cli/output.rs:1229-1322 | emit keeps bounds, numbering, conservation, lane kinds and order |
| `OutputSafety.ReachableInv` | src/cli/output.rs:860-906 | every reachable state satisfies that invariant |
| `OutputSafety.FlushEmptiesOrFills` | src/cli/output.rs:1274-1279 | after a flush a free slot means that nobody waits |
| `OutputSafety.FlushKeepsOrder` | src/cli/output.rs:1175-1206 | a flush reorders nothing, and losing all waiters on a closed channel keeps the rest in order |
| `OutputSafety.ReceiverKeepsLanes` | src/cli/output.rs:1019-1044 | receiving, closing, attaching and taking move nothing between lanes |
| `OutputRace.InterleavedConservation` | src/cli/output.rs:1229-1322 | with receivers stepping between any two channel operations, bounds and conservation still hold, the writer's hand included |
| `OutputRace.CriticalNeverLost` | src/cli/output.rs:1305-1313 | the same with receivers stepping between any two channel operations, the writer's hand included: while the priority receiver exists no critical event is ever lost |
| `OutputRace.AppendOrderedIff` | src/cli/output.rs:1284-1284 | one append keeps the transcript in order if and only if it takes no slot while somebody waits |
| `OutputRace.InversionImpliesWindowReceive` | src/cli/output.rs:1187-1191 | in every interleaving, finalized output out of order implies a receive between the flush giving up and the append |
| `OutputRace.OrderedThroughoutIff` | src/cli/output.rs:1229-1322 | an interleaving keeps finalized output in order in all its states if and only if no append in it takes a slot from a waiter |
| `OutputRace.WindowReceiveInverts` | src/cli/output.rs:873-875 | such a receive does let a newer line overtake a waiting one, contrary to the documented contract |
| `OutputRace.FlushLoopIsFlush` | src/cli/output.rs:1175-1206 | the flush loop, one send at a time and undisturbed, is the atomic flush |
| `OutputRace.EmitRefinesAtomic` | src/cli/output.rs:1229-1322 | an emit that no receiver interrupts is the atomic emit |
| `OutputWriter.ChannelOutputWriter.constructor` | src/cli/output.rs:981-1006 | a new writer is the initial state, with both bounds at least one |
| `OutputWriter.ChannelOutputWriter.RecordDroppedEvent` | src/cli/output.rs:1057-1098 | a drop is counted in the category of its event and raises the overflow signal |
| `OutputWriter.ChannelOutputWriter.TrySend` | src/cli/output.rs:1284-1284 | the bounded channel takes an event exactly when it is open and has a slot |
| `OutputWriter.ChannelOutputWriter.EvictFor` | src/cli/output.rs:1157-1165 | the eviction loop drops the fewest oldest waiters that make room, and counts each |
| `OutputWriter.ChannelOutputWriter.PushDeferredFinalizedEvent` | src/cli/output.rs:1142-1168 | in place: the deferred queue, its byte counter and the losses become those of the longest fitting suffix |
| `OutputWriter.ChannelOutputWriter.MoveWaiters` | src/cli/output.rs:1181-1192 | the loop moves waiters in order until the channel refuses one, which goes back to the front |
| `OutputWriter.ChannelOutputWriter.FlushDeferredFinalizedEvents` | src/cli/output.rs:1175-1206 | moves the oldest waiters into the free slots and reports moved and remaining, which add up to the old length |
| `OutputWriter.ChannelOutputWriter.LoseAllDeferred` | src/cli/output.rs:1193-1202 | with the receiver gone every waiter is counted lost |
| `OutputWriter.ChannelOutputWriter.FlushReasoningSnapshot` | src/cli/output.rs:1100-1110 | the pending reasoning becomes one numbered event that is sent if the channel has a slot and counted lost if not (`EmitOutcomes.SnapshotIsShown`) |
| `OutputWriter.ChannelOutputWriter.FailControlDelivery` | src/cli/output.rs:1046-1055 | an undeliverable approval request is counted, an undeliverable approval end is not |
| `OutputWriter.ChannelOutputWriter.SendControl` | src/cli/output.rs:1248-1268 | approvals bypass the transcript and fail without an attached, open receiver |
| `OutputWriter.ChannelOutputWriter.AppendOrKeep` | src/cli/output.rs:1284-1321 | the append and the policy for a refused event: lossy counted, critical to the priority lane, the rest deferred |
| `OutputWriter.ChannelOutputWriter.Emit` | src/cli/output.rs:1229-1322 | emit in place is the atomic emit of the transition system, whose complete outcome `EmitOutcomes` states |
| `OutputWriter.ChannelOutputWriter.TakeOverflowSignal` | src/cli/output.rs:1329-1332 | true exactly when something was counted lost since the previous call |
| `OutputWriter.ChannelOutputWriter.DroppedCount` | src/cli/output.rs:1334-1336 | the five counters together count every loss exactly once |
| `OutputWriter.ChannelOutputWriter.OldestDeferredSequence` | src/cli/output.rs:1360-1368 | the sequence number at the front of the deferred queue |
| `OutputWriter.ChannelOutputWriter.HasDeferredFinalizedEvents` | src/cli/output.rs:1350-1358 | whether anybody waits |
| `OutputWriter.ChannelOutputWriter.TakeApprovalRx` | src/cli/output.rs:1019-1030 | the first caller gets the approval receiver and attaches it, later callers get nothing and change nothing |
| `OutputWriter.TallyTotal` | src/cli/output.rs:818-826 | per-category counts of a log of losses sum to its length |
| `ReasoningMailbox.Mailbox.RetainTail` | src/cli/output.rs:326-336 | keeps the longest suffix that starts on a character and fits 64 KiB |
| `ReasoningMailbox.Mailbox.AppendWithSequence` | src/cli/output.rs:304-324 | appends in place; an empty chunk only counts |
| `ReasoningMailbox.Mailbox.TakeWithSequence` | src/cli/output.rs:343-345 | returns what is pending and empties the mailbox |
| `ReasoningMailbox.LongestSuffixUnique` | src/cli/output.rs:326-336 | there is only one longest fitting suffix |
| `ReasoningMailbox.TruncatedTailIsNearlyFull` | src/cli/output.rs:326-336 | a truncated snapshot uses all but at most three octets of its bound |
| `ReasoningMailbox.AppendShows` | src/cli/output.rs:304-324 | an append leaves the mailbox at the end of the history if and only if an oversized chunk does not leave room for the character before it |
| `ReasoningMailbox.GapHappens` | src/cli/output.rs:309-322 | a chunk of three-octet characters two octets over the bound leaves a gap after any text that ends in a one-octet character |
| `ReasoningMailbox.MailboxShowsWholeHistory` | src/cli/output.rs:304-336 | however the text is cut into chunks within the bound, the mailbox holds the longest bounded end of all of it |
| `ReasoningMailbox.MailCarriesLatest` | src/cli/output.rs:304-324 | the pending value carries the number of the last chunk that is not empty, and how many chunks there were |
| `RefreshProtocol.AtMostOneWalk` | src/core/file_search.rs:271-295 | in every interleaving two unfinished refreshes of a workspace are the same one, and a registered refresh has a live task |
| `RefreshProtocol.NextKeepsInv` | src/core/file_search.rs:246-342 | every step of every search and refresh keeps registration, channel, cache and search invariants; what searches answer is `SearchOutcomes` |
| `RefreshProtocol.OlderWalkNeverOverwrites` | src/core/file_search.rs:257-266 | no run replaces a cached index by that of an older walk |
| `RefreshProtocol.WokenFindsIndex` | src/core/file_search.rs:324-332 | a search woken by a successful refresh reads that walk's index or a newer one exactly while the entry has not expired |
| `RefreshProtocol.WaiterWakes` | src/core/file_search.rs:271-295 | once the refresh task has taken its six steps and then every caller that still holds a clone of its sender has taken one, however interleaved with anything else, a waiter can go on |
| `RefreshProtocol.HolderNeverMoved` | src/core/file_search.rs:271-282 | whoever holds a clone of a finished refresh at the end of a run has held it throughout and not moved |
| `RefreshProtocol.NoNewClones` | src/core/file_search.rs:272-282 | nobody takes a new clone of a finished refresh |
| `RefreshProtocol.EarlyWaiterGetsValue` | src/core/file_search.rs:287-292 | a search that subscribed before the send needs only the task's six steps |
| `RefreshProtocol.TaskFinishes` | src/core/file_search.rs:287-292 | after its remaining steps, however interleaved, a task is gone and so is its registration |
| `SearchOutcomes.AnswerIsTrue` | src/core/file_search.rs:297-342 | every answer is true at the step that gives it: a fresh one is cached and unexpired, a stale one is what the search started on, and an empty one reports a pending refresh exactly if one is registered |
| `SearchOutcomes.AnswersAreTrue` | src/core/file_search.rs:297-342 | in every run that answers a search there is such a step |
| `SearchOutcomes.FreshSearch` | src/core/file_search.rs:301-306 | a search that starts on an unexpired index answers it, whatever else runs |
| `SearchOutcomes.StaleSearch` | src/core/file_search.rs:308-314 | a search that starts on an expired index answers that index after four steps of its own, with a pending refresh that was registered at a step in between, whatever else runs |
| `SearchOutcomes.PreloadRegisters` | src/core/file_search.rs:290-295 | a preload sees to a registered refresh in the same way and answers nobody |
| `SearchOutcomes.MissingSearch` | src/core/file_search.rs:316-320 | a search that starts without an index registers a refresh or joins the registered one and waits for that one, within four steps of its own |
| `SearchOutcomes.WaitingSearchEnds` | src/core/file_search.rs:316-342 | every waiting search has its answer after the refresh's six steps, one of each caller that holds its sender and three of its own, however interleaved |
| `SearchOutcomes.OutcomeIsTrue` | src/core/file_search.rs:285-289 | what a refresh tells its waiters is how its walk ended |
| `SearchOutcomes.CachedWasWalked` | src/core/file_search.rs:246-269 | whatever is cached was found by a walk of that workspace that succeeded, and is dated by the step that stored it |
| `FuzzyMatch.FuzzyScoreNormalized` | src/core/file_search.rs:363-424 | the scan returns the specified score |
| `FuzzyMatch.GreedyIsComplete` | src/core/file_search.rs:374-423 | a score is returned if and only if the query is a subsequence of the folded target, and the match is the leftmost one |
| `FuzzyMatch.GreedyStaysAhead` | src/core/file_search.rs:374-407 | at any point greedy matching is not behind any embedding |
| `FuzzyMatch.RawScoreBounds` | src/core/file_search.rs:388-420 | the raw score is between the query length and five times it plus ten, and the maximum means that the folded target starts with the query; the divisor is positive |
| `FuzzyMatch.PointsAre` | src/core/file_search.rs:387-413 | the raw score counts the matched positions: five for each right after the one before it or at the start, four for each other one at a word boundary, one for every other, ten for a match at the start |
| `FuzzyMatch.ScoreIs` | src/core/file_search.rs:414-420 | the score is that, scaled down by how much longer than the query the target is, and rounded down |
| `FuzzyMatch.BetterScoresNoLower` | src/core/file_search.rs:414-420 | a target that is no longer and whose match is worth no less never scores lower |
| `FuzzyMatch.BoundaryBeatsScattered` | src/core/file_search.rs:387-420 | with as many consecutive matches and as good a start, the match with more positions at word boundaries is worth more, and scores no lower in a target that is no longer |
| `TopK.RankTop` | src/core/file_search.rs:457-494 | one pass with a bounded heap yields the first elements of the complete ranking, for every limit including 0, and they are the best matches by score, path and index |
| `TopK.RankingIsTop` | src/core/file_search.rs:457-521 | the ranking by scores: indices are distinct matches, scores do not increase, equal scores go by the first octet that differs and equal paths by index, whatever is left out comes behind all of them, and only the limit leaves a match out |
| `TopK.Offer` | src/core/file_search.rs:472-479 | push while there is room, else replace the worst by a better candidate: the ranking of the heap is the kept prefix |
| `TopK.PeekWorst` | src/core/file_search.rs:474-474 | the greatest element in the eviction order |
| `TopK.RankedUnique` | src/core/file_search.rs:490-494 | a multiset of candidates has one ranking, so any correct sort agrees |
| `TopK.BetterTotal` | src/core/file_search.rs:509-521 | the eviction order is total and irreflexive |
| `TopK.BetterTransitive` | src/core/file_search.rs:509-521 | the eviction order is transitive |
| `TopK.TakeInsert` | src/core/file_search.rs:472-479 | inserting into the kept prefix equals inserting into everything |
| `TopK.MatchesPaths` | src/core/file_search.rs:464-470 | the candidates are exactly the matching entries with their scores and indices |
| `TopK.SearchWorkspaceFiles` | src/core/file_search.rs:436-500 | a blank query lists the first entries; any other is stripped of leading slashes, lower-cased and answered with the best matches, best first |
| `Mentions.ExtractMentionQueryAtCursor` | src/core/file_search.rs:535-563 | the cursor is rounded down to a character and the mention before it extracted |
| `Mentions.CharsBeforeIs` | src/core/file_search.rs:537-540 | the last character boundary at or before the offset is unique, and is where the cursor is rounded down to |
| `Mentions.InProgressIff` | src/core/file_search.rs:541-563 | a mention is in progress exactly if an at sign that starts a word stands before the cursor with neither whitespace nor another at sign in between, and the query is the text in between |
| `Mentions.NormalisedIs` | src/core/file_search.rs:592-600 | an inserted path gets a slash in front unless it has one, and for a folder one at its end |
| `Mentions.MentionIs` | src/core/file_search.rs:602-606 | the mention is an at sign and that path, in quotes exactly if it holds a space |
| `Mentions.InsertKeepsPrefix` | src/core/file_search.rs:581-616 | inserting leaves the prefix, puts the mention and a space, keeps the text after the replaced word, and returns the position after the space |
| `Mentions.InactiveAtCursor` | src/core/file_search.rs:535-563 | at the returned cursor no mention is in progress |
| `Mentions.MentionRoundTrip` | src/core/file_search.rs:535-616 | one position earlier the inserted path and index read back if and only if the path has neither whitespace nor an at sign |
| `StreamChunks.AfterClassifies` | src/core/agent_stream.rs:472-531 | the incremental step keeps the declarative classification of the whole list of inputs |
| `StreamChunks.ClassificationIsUnique` | src/core/agent_stream.rs:472-531 | a list of inputs has one classification |
| `StreamChunks.VisibleIsSubstantive` | src/core/agent_stream.rs:185-260 | visible output is substantive output at every point |
| `StreamChunks.OrderIsKeySet` | src/core/agent_stream.rs:318-359 | the call order lists exactly the calls with an accepted delta |
| `StreamChunks.OrderIsDistinct` | src/core/agent_stream.rs:318-359 | the call order has no duplicates |
| `StreamChunks.OrderIsArrival` | src/core/agent_stream.rs:357-358 | calls are ordered by their first accepted delta |
| `StreamChunks.ArgumentsAreConcatenated` | src/core/agent_stream.rs:320-341 | a call's arguments are the concatenation of its fragments in arrival order |
| `StreamChunks.CallsHold` | src/core/agent_stream.rs:318-359 | an assembled call holds the last name and the last id that its deltas give, the function id and signature of its first delta, and arguments unless the first has none and no later one has text; and there is a call for exactly the keys with an accepted delta |
| `StreamChunks.ArgumentsHold` | src/core/agent_stream.rs:320-341 | its arguments are the texts of those deltas in the log, in arrival order |
| `StreamChunks.ReinterleavingKeepsCalls` | src/core/agent_stream.rs:318-359 | any reinterleaving that keeps each call's deltas in order yields the same calls |
| `StreamChunks.SwapKeepsCalls` | src/core/agent_stream.rs:318-359 | adjacent inputs that do not feed the same call may be swapped |
| `StreamChunks.CallsPush` | src/core/agent_stream.rs:318-359 | one delta changes one call, as merging says, and no other; what the calls then hold is `StreamChunks.CallsHold` |
| `StreamChunks.UsageAfterReports` | src/core/agent_stream.rs:382-452 | every usage figure is the last one actually reported; chunks without data are ignored |
| `StreamAccumulator.StreamAccumulator.Push` | src/core/agent_stream.rs:146-159 | every push keeps the object at what the whole list of inputs means, and returns the right events |
| `StreamAccumulator.StreamAccumulator.NotePreoutputFailure` | src/core/agent_stream.rs:141-144 | a failure before output is recorded as a hideable failure |
| `StreamAccumulator.StreamAccumulator.PushText` | src/core/agent_stream.rs:185-211 | text, filtered text, flags and signature after a text chunk |
| `StreamAccumulator.StreamAccumulator.PushReasoning` | src/core/agent_stream.rs:213-243 | reasoning, signature and redacted data after a reasoning chunk |
| `StreamAccumulator.StreamAccumulator.PushToolCallStarted` | src/core/agent_stream.rs:245-253 | a call is announced once |
| `StreamAccumulator.StreamAccumulator.PushToolCalls` | src/core/agent_stream.rs:255-361 | an accepted delta is merged into or starts its call; an empty one is skipped but counts as output; what the calls then hold is `StreamChunks.CallsHold` |
| `StreamAccumulator.StreamAccumulator.PushUsage` | src/core/agent_stream.rs:363-470 | figures fall back to the previous ones |
| `StreamAccumulator.StreamAccumulator.PushError` | src/core/agent_stream.rs:472-531 | flags and errors after an error chunk |
| `StreamAccumulator.StreamAccumulator.Finish` | src/core/agent_stream.rs:161-183 | the outcome is the declarative classification, calls, usage and texts of everything pushed |
| `StreamAccumulator.ErrorBreaks` | src/core/agent_stream.rs:472-531 | an error event is shown exactly when the error breaks the attempt |
| `StreamAccumulator.TextsAreCollected` | src/core/agent_stream.rs:185-243 | texts are those of all chunks one after the other, each signature the last one of its kind, and redacted data is complete |
| `TextWrap.WrapLine` | src/cli/text_utils.rs:151-245 | the printed rows are those of the specified segments, which break as `WrapBreaks.LineBreaksWell` states |
| `TextWrap.ScanLine` | src/cli/text_utils.rs:182-244 | the scan emits each segment as soon as it overflows, cut as `WrapBreaks.SegmentsBreakWell` states |
| `TextWrap.WrapLineBounds` | src/cli/text_utils.rs:151-245 | segments concatenate to the right-trimmed line, none is empty, and rows exceed their room by at most 2, 1 or 0 columns depending on glyphs and separators |
| `TextWrap.RowsFit` | src/cli/text_utils.rs:197-244 | the bound of each row, from any point of the scan |
| `TextWrap.SegmentsAreLossless` | src/cli/text_utils.rs:197-244 | the segments from any point are the rest of the line |
| `TextWrap.RowsWithinIff` | src/cli/text_utils.rs:197-244 | for all glyphs and from any point of the scan: every row fits its room if and only if the scan never takes a hard separator along in a cut, never stands over-full after a glyph that is not trimmed, and never meets such a glyph wider than the room |
| `TextWrap.NarrowOverflowIff` | src/cli/text_utils.rs:205-220 | for narrow glyphs that one way is all three |
| `TextWrap.LineFitsIff` | src/cli/text_utils.rs:150-177 | a whole line fits if and only if it does not overflow in one of the three ways |
| `TextWrap.BoundsAreReached` | src/cli/text_utils.rs:205-240 | the excess of one column and of two columns occurs |
| `WrapBreaks.LineBreaksWell` | src/cli/text_utils.rs:150-245 | every segment of a line ends right after the last break at or before the glyph it overflows with, else before that glyph, or after it if it is alone; a line that fits is not cut |
| `WrapBreaks.SegmentsBreakWell` | src/cli/text_utils.rs:197-244 | the same from any point of the scan; what an earlier segment has looked at gives no break |
| `WrapBreaks.BreaksWellUnique` | src/cli/text_utils.rs:197-244 | there is only one such cutting |
| `WrapBreaks.FirstRowIsFull` | src/cli/text_utils.rs:205-230 | where the text overflows at glyph i and b is the last break up to i, the first segment ends right after b |
| `WrapBreaks.PrintedRows` | src/cli/text_utils.rs:150-195 | each printed row shows the indent and its right-trimmed segment |
| `BoxDrawing.WrapText` | src/cli/text_utils.rs:113-148 | fences toggle code, code is kept, prose is wrapped, the last newline is dropped |
| `BoxDrawing.LinesOfRows` | src/cli/text_utils.rs:142-147 | the wrapped text splits back into its rows, except that a carriage return before a newline goes with it and a blank last row is not a line |
| `BoxDrawing.TextFitsIff` | src/cli/text_utils.rs:105-148 | any text, code and fences included, wraps to fitting lines if and only if no prose line overflows and no code line or fence is wider than the room |
| `BoxDrawing.TruncateToWidth` | src/cli/text_utils.rs:29-41 | the longest prefix within the width |
| `BoxDrawing.DrawBox` | src/cli/text_utils.rs:46-103 | the drawn text is the specified rows, or the plain fallback below ten columns |
| `BoxDrawing.BoxWidths` | src/cli/text_utils.rs:46-103 | both borders are exactly the width for every title, and a content row is wider by what its line exceeds the room |
| `BoxDrawing.BoxIsExactIff` | src/cli/text_utils.rs:43-103 | every row is exactly the width, as promised, if and only if no line of the text overflows its room |
| `BoxDrawing.SlashBoxOverflows` | src/cli/text_utils.rs:43-103 | in a box of every width, a full row followed by a slash breaks the promise |
| `BoxDrawing.WideGlyphBoxOverflows` | src/cli/text_utils.rs:43-103 | in a box of every width, a wide glyph after a space and a full row breaks it without any such separator |
| `BoxDrawing.CodeBoxOverflows` | src/cli/text_utils.rs:43-103 | any line of code wider than the room breaks it |
| `BoxContents.FenceIff` | src/cli/text_utils.rs:121-123 | a line is a fence exactly if three backticks follow its leading whitespace |
| `BoxContents.TextIsBlocks` | src/cli/text_utils.rs:113-148 | the rows of a text are, line by line, the line itself if it is a fence or an odd number of fences stands before it, and otherwise its wrapped rows |
| `BoxContents.WrappedShows` | src/cli/text_utils.rs:113-148 | the lines of the wrapped text are those rows, but for a blank last one and carriage returns |
| `BoxContents.BoxShows` | src/cli/text_utils.rs:46-103 | a box shows, between a top row that holds the longest fitting beginning of the title and a bottom row, each line between bars, followed by spaces |
| `Highlight.RenderHighlights` | src/cli/syntax_highlight.rs:345-375 | removing the codes gives the source; emitted spans are ordered and disjoint; every other usable span starts inside one; nothing is rendered exactly when no span is usable |
| `Highlight.StripAll` | src/cli/syntax_highlight.rs:353-374 | the strip law for every list of placed spans |
| `Highlight.SkippedStartsInside` | src/cli/syntax_highlight.rs:357-363 | a skipped span starts inside an emitted one |
| `Painting.HighlightsAreDrawn` | src/cli/syntax_highlight.rs:345-375 | every octet is drawn once, in the style of the emitted span that holds it and in none outside of them, and no style stays in force |
| `LexicalHighlight.RenderLexicalHighlights` | src/cli/syntax_highlight.rs:377-486 | the loop prints the specified tokens and styles |
| `LexicalHighlight.NextToken` | src/cli/syntax_highlight.rs:381-482 | strings, comments, numbers, words and single characters end where the inner loops stop |
| `LexicalHighlight.LexicalStripIff` | src/cli/syntax_highlight.rs:400-434 | removing the codes gives the source if and only if no comment of more than one character runs into the end of the code |
| `LexicalHighlight.NewlineTerminatedIsClosed` | src/cli/syntax_highlight.rs:400-434 | code that ends in a newline has no such comment |
| `LexicalHighlight.OpenCommentIsDoubled` | src/cli/syntax_highlight.rs:400-415 | two slashes print as three |
| `Painting.HighlightedDraws` | src/cli/syntax_highlight.rs:377-486 | what is drawn are the tokens of the code in their styles: strings up to their closing quote or the end, comments up to a newline, runs of digits and words, and keywords, called names, and types apart |
| `Painting.DrawsUnique` | src/cli/syntax_highlight.rs:377-486 | a code is drawn in only one such way |
| `FileContentCache.TaskState.InsertFileContent` | src/core/agent_types.rs:428-447 | the cache becomes the new entry followed by the longest most-recent-first prefix of the others within 10 MiB and 49 slots; an oversized insert changes nothing |
| `FileContentCache.TaskState.EvictFor` | src/core/agent_types.rs:438-444 | the loop drops the fewest least recently used entries |
| `FileContentCache.KeepIs` | src/core/agent_types.rs:438-446 | dropping for bytes and then for slots keeps the longest prefix that fits |
| `LruModel.PutSums` | src/cli/markdown.rs:162-171 | what a put adds to and takes from the bytes of the list |
| `LruModel.PutIs` | src/cli/markdown.rs:142-171 | a put leaves the new entry in front of the others in their order, as many as the slots allow, and a lookup that hits brings its entry to the front |
| `LruModel.InsertIs` | src/cli/markdown.rs:146-179 | an accepted insert leaves the longest prefix of that list whose bytes, together with the leaked ones, fit; a refused one changes nothing |
| `LruModel.CountersAreLivePlusLeaked` | src/cli/markdown.rs:146-179 | the counters, kept as the code keeps them with saturating subtraction, are in every run exactly the live bytes plus those of entries that put evicted |
| `LruModel.RunKeepsInv` | src/cli/markdown.rs:126-180 | over every run the counters and entries stay within budget and what has leaked never shrinks |
| `LruModel.InsertKeepsInv` | src/cli/syntax_highlight.rs:77-111 | an insert keeps counters and entries within their caps |
| `LruModel.RunKeepsRendered` | src/cli/markdown.rs:208-235 | every cached value is what the renderer gives for its key |
| `LruModel.EveryHitIsRendered` | src/cli/markdown.rs:208-235 | whoever else reads or fills the cache before and in between, every lookup that hits gives what the renderer gives |
| `LruModel.RetainedIff` | src/cli/markdown.rs:146-179 | an accepted entry is there after its insert if and only if its bytes and the leaked ones fit |
| `LruModel.FullCacheLeaks` | src/cli/markdown.rs:162-171 | a full cache charges a new key for the entry it pushes out |
| `LruModel.LeakedRoomIsGone` | src/cli/markdown.rs:162-179 | once the leaked bytes leave no room for r bytes, no state of any later run holds an entry of r or more |
| `LruModel.AcceptedButNotRetained` | src/cli/markdown.rs:146-179 | a run that fills a cache of any size and then inserts a key that does not fit beside the first entry ends with an empty cache |
| `RenderCaches.MarkdownForgets` | src/cli/markdown.rs:110-179 | such a run for the 16 slots and 8 MiB of the markdown cache, of words that the renderer renders as themselves |
| `RenderCaches.MarkdownCache.Get` | src/cli/markdown.rs:142-144 | a hit is the rendering of its key and moves to the front |
| `RenderCaches.MarkdownCache.Insert` | src/cli/markdown.rs:146-179 | entries and counter change in place as specified |
| `RenderCaches.RenderStreamedMarkdownCached` | src/cli/markdown.rs:208-235 | rendering through the cache gives the renderer's result, whatever the cache held |
| `RenderCaches.HighlightCache.Insert` | src/cli/syntax_highlight.rs:77-111 | entries and both counters change in place as specified |
| `Redact.RedactJson` | src/cli/redact.rs:29-65 | strings are redacted, secret fields get the marker, arrays keep their length and objects their number of entries at every depth |
| `Redact.SecretsAreMarked` | src/cli/redact.rs:34-51 | a field whose key is one of the nine names up to ASCII case and dashes for underscores holds the marker; any other holds its value redacted |
| `Redact.UniqueKey` | src/cli/redact.rs:53-60 | the suffix search ends with the first free key |
| `Redact.CandidatesDiffer` | src/cli/redact.rs:55-58 | distinct suffixes give distinct keys |
| `Redact.RedactedIsUnique` | src/cli/redact.rs:29-65 | the redacted document is determined by the document |
| `Redact.RedactedIsSafe` | src/cli/redact.rs:29-65 | every string left is a redaction result or the marker, every key a redaction result with at most a suffix, and keys stay distinct |
| `Redact.ObjectKeepsEntries` | src/cli/redact.rs:34-62 | as a map, in whatever order it keeps its keys, the object has as many entries as before and holds each redacted value under its key |

## Left out

- OutputRace.WindowReceiveInverts: shows one inverting run; that every receive in the window followed by the append inverts is the other half of OutputRace.AppendOrderedIff.
- Redact.RedactJson: the document is rebuilt rather than changed in place, and an object is the sequence of its entries in iteration order; its reading as a map is Redact.ObjectKeepsEntries.
- RefreshProtocol.WaiterWakes: that the task and the callers get to take their steps is its hypothesis; that the runtime schedules them is not modelled.
- RenderCaches.RenderStreamedMarkdownCached: runs the lookup and the insert back to back, while the source releases the lock in between; LruModel.EveryHitIsRendered and LruModel.RunKeepsInv hold for every interleaving of single lookups and inserts.
- StreamAccumulator.StreamAccumulator.PushUsage: without the context-window figures and the deltas of the event, which are copied or computed elsewhere.
- DrainLoop.DrainBarrier: controls come from the priority lane and are numbered; a reasoning snapshot that the drain loop puts in front of them is not one of them.
- DrainPass.FlushedPassIsRight: passes that run out of time, which apply no control at their end, and the bounds on control events per pass.
- The refresh protocol is modelled on values, because its state is shared between tasks; the walk's result is the identity of the walk.
- The bounded heap and the sorts are modelled by their contracts, and candidate paths as bytes; Unicode lower-casing of the query is a parameter.
- LRU lists are values with the contract of the lru crate; hash order and its internals are not modelled.
- Dropping a channel's receiver is a close after which nothing is received; what was buffered stays counted as buffered.
- Integer saturation and wrap-around of the 64-bit counters and sequence numbers.
- Markdown rendering, span collection from a syntax tree, the secret patterns, the thinking-tag filter and glyph width tables are parameters.
- Logging and JSON event output of the stream accumulator.
- Mutex poisoning, timing records, colours, standard error output, and what the drain loop does with an event.
- Checkpoints, cancellation, subcommands and the command tables: input, output and signals dominate them.
