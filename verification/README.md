# Edge inference runtime: verified models

Dafny models of the parts of the runtime that carry state or arithmetic worth proving, one module
per source file or concern. `dafny verify dfyconfig.toml` checks all of them.

## Main results

1. **Acceptance of a batch is characterised.** `init` accepts exactly the batches that `Batches.Accepted` describes,
   for every memory state and both kinds of positions: `BatchAllocr.Allocr.Init`.
2. **The in-place equal split is characterised.** Rounds, deferral, extension, truncation and un-using of tokens end
   in the one list of tokens that a law on the used flags allows: which sets open, how many of them are served and
   how far, and which tokens go out: `BatchAllocr.Allocr.SplitEqual`, `SplitLaw.EqualSplitUnique`, with
   `EqualSplit.NextPlanPromises` on its size and tails.
3. **A whole split loses nothing and has no choice.** It terminates; every token goes out once, in order per sequence
   set, in equal groups, tails whole: `SplitDriver.SplitAll`. Each batch has one split in each mode:
   `SplitDriver.SplitIsDetermined`.
4. **The logits handed out for token t are those computed for token t**, through micro-batches, the selection sort of
   the output ids and the lazy replay of its swaps on the rows, in any run of decodes and reads on one context, failed
   ones included: `Decoding.RunCalls`, `Decoding.ReadsGetOwnRow`, with `Decoding.DecodeBatch` about one call.
5. **Classes come first, and ageing is bounded exactly.** Two bounds on arrival times decide the order of two classes
   at all instants, between them it varies, and ageing crosses classes only if a wait may reach 100 intervals:
   `JobOrder.ClassDecidesAtEqualAge`, `JobOrder.AgedJobGoesFirst`, `JobOrder.FresherHigherJobGoesFirst`,
   `JobOrder.BetweenTheBoundsOrderVaries`, `JobOrder.AgeingKeepsClasses`.
6. **The scheduler's books balance under every interleaving** of submissions, cancellations, timers and settling: no
   slot idles while a job may run, every start is a fair pick, and every outcome is that of the event that ended the
   job: `Scheduler.Scheduler.Schedule`, `Scheduler.OutcomesTell` and the event methods beside them.
7. **A request walks strictly down the device ladder and ends**, in one of four ways, with its faults on record and
   engine and ladder in step: `BackendRouters.BackendRouter.Route`.
8. **A device reported removed, once left, is never entered again** in any run without a new session, and every move
   lands on the first tier that the history of faults and probes allows: `BackendRouters.RemovalLastsTheSession`,
   `DeviceLadders.DeviceLadder.Walk`.
9. **Busy means one request** in every reachable pool, a crash fails only its own, and a crashed worker always has a
   probe ahead or its rounds spent, and serves again only after a live answer or the supervisor's word:
   `PoolModel.BusyMeansOneRequest`, `PoolModel.CrashKeepsInv`, `PoolModel.RoundsAreTimers`, `PoolModel.ProbeMeans`.
10. **One execution per request id, replay exactly within the time to live**, and a mirror file that converges:
    `RequestRegistry.Registry.Run`, `RequestRegistry.Registry.Drain`.
11. **Workers and reserve fit the device to the byte**, as many as do, at discovery and after every run of
    reassignments: `CapacityPlan.CapacityFits`, `CapacityPlan.CapacityIsLargest`,
    `WorkerReassignment.Supervisor.ApplyReassignment`.
12. **Unescaping undoes escaping on all byte strings**, and the escape of a text is JSON: `JsonCodec.RoundTrip`,
    `JsonCodec.FrameRoundTrip`, `JsonCodec.EscapedTextIsJson`.
13. **Any JSON string body reads back as its text in UTF-8**, however its characters are written:
    `JsonCodec.TextReadsBack`.
14. **No payload can forge a field.** A search over a whole frame finds exactly the fields written, so a reply is read
    back whole: `RemoteFrames.FrameRead`, `RemoteFrames.ReplyTextReads`.

## Parts

| part | modules |
|---|---|
| micro-batch splitter | Batches, BatchTokens, SplitPlan, EqualSplit, SplitLaw, BatchAllocr, SplitDriver |
| output rows | OutputRows, Decoding |
| shell scheduler | JobOrder, Scheduler |
| device ladder and router | LadderModel, DeviceLadders, BackendRouters |
| request registry | RequestRegistry |
| worker pool | PoolModel, WorkerPools |
| capacity | CapacityPlan, WorkerReassignment |
| remote transport | JsonCodec, RemoteFrames |
| used by several | Sequences |

Code that updates objects in place is modelled by classes with the same fields. Each method is proved
against a specification on values: what the new state is as a function of the old one, or which predicate
it establishes. The properties are lemmas about those functions and invariants that every method keeps.
Ghost fields and ghost out-parameters record history (what was emitted, which probes were taken, which
faults and cancels were reported, how each job ended), and laws stated in terms of that history and of the
plain data say what the results mean. The clock, probes, sockets, timers, hooks, executions and disk writes
are nondeterministic: a method draws their answers, so every proof holds for all of them. Each event handler
of the two Node services is one step, as the event loop runs it.

What the models take for granted: clocks do not go back; each handler runs to completion; a job that
settles and its `.finally` are one step; status callbacks do not re-enter the scheduler; the fallback
hook reads but does not move the ladder; batches have at least one token and every token has a sequence.

## Where the code and its own words differ

- `init` announces (llama-batch.cpp:337-344) that partial sub-sets of sequences are invalid. The test behind it
  cannot fire, because the intersection it checks always contains the id at hand: `CheckSequences`. A batch of the
  very shape drawn there is accepted (`PartialExampleAccepted`). `PartialSubsetsPass` says exactly when such batches
  are kept out, for every state of memory: when no three sequences allowed stand at one place there.
- `split_equal` is meant to respect `n_ubatch`, but the scan for sets stops one set late (llama-batch.cpp:547):
  `SizeBoundIsExceeded` shows it. `PlanForSize` and `NextPlanPromises` give the exact condition, on the sets chosen;
  `FewSequencesKeepTheBound` is what a caller can go by: at most `n_ubatch` sequences.
- The kept tail is meant for each sequence (llama-batch.cpp:605-607) but is kept per sequence set. `SequenceTails`: the
  tail of a sequence goes out whole exactly if it carries one set, as it does without coupled sequences
  (`UncoupledTails`). llama-memory-hybrid.cpp:84-89 also splits coupled batches this way (`CoupledTailIsCut`).
- `decode` forgets the recorded swaps (llama-context.cpp:1727) before it knows that the batch can be split and placed.
  If it then returns an error, outputs that were not read yet are read in the wrong order exactly if swaps were
  recorded: `ClearSwaps`, the exit without room of `DecodeBatch`, and a run that shows it, `ForgottenSwapsMisread`.
  Reading any output first avoids it (`ReadsSeeLastDecode`), and so does a simple split (`SimpleLeavesNoSwaps`).
- After a micro-batch fails, a negative index still finds a row, at the front of the buffer: `OutputResolveRow`, with
  the contents in `Decode`.
- `get_logits_ith` hands out a row for every wanted token, also for those whose logits were left on the backend
  (llama-context.cpp:1863). The row is then what the buffer held before: `OwnRows`, `UnsampledIsCopied`,
  `AllSampledNoneCopied`.
- `docs/06-scheduler.md:145-155` presents ageing as what keeps low jobs from starving. A waiting job is dropped
  after the queue timeout (30 s by default), long before ageing can lift it a class (25 minutes by default):
  `AgeingKeepsClasses` gives the exact condition, `queueTimeoutMs < 100 * agingMs`, and `ShippedSettingsNeverLift` its
  instance. That the queue timer fires on time is assumed there: `Scheduler` lets it fire at any moment. `JobOrder`
  states what ageing does bound.
- A ladder can be degraded without a reason: `ReasonAfterFault` says exactly when, `DegradedMayHaveNoReason`
  shows a run.
- A fault can leave a healthy lower tier unused, because the ladder is searched from the top:
  `EligibleAboveBlocksFallback`, with the exact condition in `FallsBackExactlyWhen`.
- The scheduler and the pool count on request ids that are not in use already. `SubmitNeedsFreshId`,
  `DuplicateIdUndercounts` and `SendNeedsFreshId` prove that they need exactly this.
- A crash notice may name a request (ipc.js:319-343). If another worker serves that one while the crashed worker is
  busy, the crashed worker's own request stays bound to it: `NoticeKeepsInv`. The supervisor names none
  (supervisor.cpp:801-803).

## Model

| member | source | states |
|---|---|---|
| `BatchTokens.MembersAt` | backend/inference-worker/llama-src/src/llama-batch.cpp:184-199 | The k-th entry of a sequence set's index list is a token of exactly that set and has k set-mates before it; with RankIndexes, the index lists partition the batch |
| `BatchTokens.RankIndexes` | backend/inference-worker/llama-src/src/llama-batch.cpp:184-199 | Every token stands in its own set's index list, at its rank, so every list read is in bounds |
| `BatchTokens.UseNext` | backend/inference-worker/llama-src/src/llama-batch.cpp:589-598 | Marking the next token of one set used moves the head of that set by one, no other head, and raises n_used by one |
| `BatchTokens.GiveBackLast` | backend/inference-worker/llama-src/src/llama-batch.cpp:647-654 | Un-using the latest token of a set moves its head back by one, no other head, and lowers n_used by one: the inverse of using it |
| `BatchTokens.UsedIsPrefixOfEachSet` | backend/inference-worker/llama-src/src/llama-batch.cpp:510-679 | In every reachable splitting state the used tokens of each sequence set are a prefix of its index list |
| `BatchTokens.UnusedIffRemaining` | backend/inference-worker/llama-src/src/llama-batch.cpp:563-567 | A set has an unused token exactly when its head is short of the end, so the scan for the first unused token stays in bounds |
| `BatchTokens.LedgerExtends` | backend/inference-worker/llama-src/src/llama-batch.cpp:671-678 | Handing out the next tokens of one set keeps the ledger: per set, what was emitted is exactly the used prefix, in order |
| `BatchTokens.LedgerCounts` | backend/inference-worker/llama-src/src/llama-batch.cpp:510-679 | Over any run of splits a token is emitted once if it is used and never otherwise |
| `BatchTokens.EmittedExactlyTheUsed` | backend/inference-worker/llama-src/src/llama-batch.cpp:467-721 | Over any run of splits no token goes out twice, and the emitted tokens are the used ones |
| `BatchTokens.EmittedInBatchOrder` | backend/inference-worker/llama-src/src/llama-batch.cpp:510-679 | Two tokens of one set go out in batch order, whatever micro-batches they land in |
| `SplitPlan.LeadersGood` | backend/inference-worker/llama-src/src/llama-batch.cpp:517-551 | The chosen sets belong to unused tokens, are pairwise disjoint, have consecutive first ids in sequential mode, and number at most n_ubatch + 1 |
| `SplitPlan.LeadersProgress` | backend/inference-worker/llama-src/src/llama-batch.cpp:517-558 | Something is chosen exactly when a token is unused, so a split returns nothing exactly when it is done |
| `SplitPlan.LeadersMaximal` | backend/inference-worker/llama-src/src/llama-batch.cpp:517-551 | Without the sequential rule and below the size cut-off, every unused token's set meets a chosen one |
| `SplitPlan.RoundsBounds` | backend/inference-worker/llama-src/src/llama-batch.cpp:573-603 | The common group length is at least one, no more than any chosen set has left, and times the number of sets at most n_ubatch unless there are more sets than n_ubatch (then it is one) |
| `SplitPlan.PlanForOk` | backend/inference-worker/llama-src/src/llama-batch.cpp:605-669 | The sets kept are a non-empty prefix of the chosen ones, each keeps zero or at least n_keep_tail tokens, and the length after extension or truncation is never zero |
| `SplitPlan.PlanForSize` | backend/inference-worker/llama-src/src/llama-batch.cpp:547-603 | The micro-batch exceeds n_ubatch exactly when more than n_ubatch sets were chosen and each may give up one token now (it is finished by it or keeps its tail); then it has n_ubatch + 1 tokens |
| `SplitPlan.PlanIdxsGroups` | backend/inference-worker/llama-src/src/llama-batch.cpp:671-678 | Token j of group g is the j-th next token of the g-th set |
| `SplitPlan.PlanIdxsLength` | backend/inference-worker/llama-src/src/llama-batch.cpp:752-760 | The micro-batch length is a multiple of the number of sets, so the divisibility assertion never fails |
| `SplitPlan.PlanKeepsLedger` | backend/inference-worker/llama-src/src/llama-batch.cpp:510-679 | Emitting a whole plan keeps per-set order: nothing twice, nothing skipped |
| `SplitLaw.LeadersAreOpeners` | backend/inference-worker/llama-src/src/llama-batch.cpp:517-551 | The sets opened obey a law that speaks only of tokens and flags: each is opened by the first token still allowed to (unused, disjoint from the sets open, with the next first id in sequential mode), and none that may open one is left while no more than n_ubatch are open |
| `SplitLaw.OpenersUnique` | backend/inference-worker/llama-src/src/llama-batch.cpp:517-551 | That law leaves one choice of sets |
| `SplitLaw.PlanIsServed` | backend/inference-worker/llama-src/src/llama-batch.cpp:569-669 | The sets served obey a law on how many unused tokens each has: all get the most that every one of them can give and n_ubatch allows, one at least; without a kept tail every open set is served; with one, the longest prefix of sets that finish or keep a tail; if that is empty, the first set alone, to its end if it fits, else up to its tail |
| `SplitLaw.ServedUnique` | backend/inference-worker/llama-src/src/llama-batch.cpp:569-669 | That law leaves one number of sets and one length |
| `SplitLaw.PlanObeys` | backend/inference-worker/llama-src/src/llama-batch.cpp:510-679 | The tokens of the plan are an equal split in the sense of those laws: openers, sets served, and for each the next unused tokens of its set in batch order |
| `SplitLaw.EqualSplitUnique` | backend/inference-worker/llama-src/src/llama-batch.cpp:510-679 | Two lists of tokens that are an equal split of the same flags are the same list |
| `EqualSplit.ChosenSound` | backend/inference-worker/llama-src/src/llama-batch.cpp:517-567 | The chosen sets are distinct and each has a token left |
| `EqualSplit.NextPlanPromises` | backend/inference-worker/llama-src/src/llama-batch.cpp:510-679 | One equal split: the plan is sound and not empty, cuts no set's tail, and exceeds n_ubatch, then by one token, exactly when more than n_ubatch sets were chosen and each may give up one token |
| `EqualSplit.FewSequencesKeepTheBound` | backend/inference-worker/llama-src/src/llama-batch.cpp:517-603 | With at most n_ubatch sequences in the batch, no equal split exceeds n_ubatch |
| `EqualSplit.SizeBoundIsExceeded` | backend/inference-worker/llama-src/src/llama-batch.cpp:547-549 | A batch of two sequences with n_ubatch = 1 gives two tokens: the scan stops one set late |
| `EqualSplit.TokensWithoutSequenceCollide` | backend/inference-worker/llama-src/src/llama-batch.cpp:521-551 | Two tokens without any sequence id would both open a group of the same set, so the batch rules out the empty set |
| `EqualSplit.ClearedCount` | backend/inference-worker/llama-src/src/llama-batch.cpp:660-666 | Giving back a whole group front to back lowers n_used by its length although the flags are no prefix in between |
| `EqualSplit.GiveBackGroup` | backend/inference-worker/llama-src/src/llama-batch.cpp:660-666 | Giving back a deferred set restores its head to where the call found it |
| `EqualSplit.EqualStateDone` | backend/inference-worker/llama-src/src/llama-batch.cpp:605-678 | Once the served sets have moved and the deferred ones are back, the flags are those of the plan |
| `EqualSplit.RoundsReached` | backend/inference-worker/llama-src/src/llama-batch.cpp:573-603 | The one-token-a-round loop stops at exactly min(shortest set, n_ubatch / number of sets), at least one |
| `BatchAllocr.FirstUnused` | backend/inference-worker/llama-src/src/llama-batch.cpp:477-486 | The index returned is unused and everything before it is used |
| `BatchAllocr.WindowEnd` | backend/inference-worker/llama-src/src/llama-batch.cpp:488-505 | The window of a simple split begins at the first unused token, is never empty and ends within the batch |
| `BatchAllocr.WindowIsLongest` | backend/inference-worker/llama-src/src/llama-batch.cpp:476-508 | The window runs from the first unused token without a gap, and is as long as n_ubatch or the end of the batch allows, one token at least |
| `BatchAllocr.PrefixWindowUnused` | backend/inference-worker/llama-src/src/llama-batch.cpp:476-508 | After only simple splits the window holds only unused tokens |
| `BatchAllocr.ChainCovers` | backend/inference-worker/llama-src/src/llama-batch.cpp:681-721 | A sequence split passes over no token it could still take |
| `BatchAllocr.EqualGroups` | backend/inference-worker/llama-src/src/llama-batch.cpp:749-760 | A plan's tokens are tokens of the batch and divide evenly over its sets |
| `BatchAllocr.Allocr.Init` | backend/inference-worker/llama-src/src/llama-batch.cpp:25-391 | Accepts exactly the batches whose ids are in range, whose positions go on from what memory holds (at the very next one, or after it for M-RoPE), miss none with one position per token, and never go back in a sequence, and whose coupled sequences stand at one place in memory; then nothing is used and the tables describe the batch |
| `Batches.CheckIds` | backend/inference-worker/llama-src/src/llama-batch.cpp:58-67 | True exactly when every sequence id is below n_seq_max |
| `Batches.CountOutputs` | backend/inference-worker/llama-src/src/llama-batch.cpp:155-158 | Counts the tokens flagged for output |
| `Batches.FindCoupled` | backend/inference-worker/llama-src/src/llama-batch.cpp:160-182 | True exactly when some token belongs to two sequences; collects the positions of every sequence and the pairs that share a token |
| `Batches.CountFindsGaps` | backend/inference-worker/llama-src/src/llama-batch.cpp:316 | Comparing the number of distinct positions with first and last finds exactly the sequences with a gap |
| `Batches.CheckPositions` | backend/inference-worker/llama-src/src/llama-batch.cpp:251-321 | Rejects exactly the batches in which some sequence does not go on from its last stored position, or misses a position where one position per token is asked |
| `Batches.RunContinues` | backend/inference-worker/llama-src/src/llama-batch.cpp:289-320 | With one position per token a sequence passes exactly if its stored positions and those of the batch make one run, without a gap and without going back |
| `Batches.JumpContinues` | backend/inference-worker/llama-src/src/llama-batch.cpp:255-288 | With several positions a sequence passes exactly if its tokens take no stored position, and embeddings at most the last one |
| `Batches.CheckCoupled` | backend/inference-worker/llama-src/src/llama-batch.cpp:323-335 | Rejects exactly the batches that couple two sequences whose first or last stored positions differ |
| `BatchAllocr.Allocr.BuildSets` | backend/inference-worker/llama-src/src/llama-batch.cpp:184-199 | Every set's index list holds exactly its tokens, in batch order |
| `Batches.CheckSequences` | backend/inference-worker/llama-src/src/llama-batch.cpp:354-386 | Rejects exactly the batches in which some sequence goes back in position or starts below -1: the intersection test in the loop never fires |
| `Batches.PartialExampleAccepted` | backend/inference-worker/llama-src/src/llama-batch.cpp:337-344 | A batch of the shape the comment draws as invalid, with ids {x,y,z}, {x,y}, {y,z}, is accepted for every memory in which the three sequences stand at one place, and for both kinds of positions |
| `Batches.PartialSubsetsPass` | backend/inference-worker/llama-src/src/llama-batch.cpp:337-386 | For every memory and kind of positions: no accepted batch has partial sub-sets exactly if no batch is accepted at all, or no three sequences stand at one place |
| `Batches.PartialSubsetsPassAtStart` | backend/inference-worker/llama-src/src/llama-batch.cpp:337-386 | While nothing is stored, partial sub-sets are kept out exactly if fewer than three sequences are allowed, or more than the maximum |
| `BatchAllocr.Allocr.SplitReset` | backend/inference-worker/llama-src/src/llama-batch.cpp:467-474 | Nothing used, nothing emitted, no output id recorded |
| `BatchAllocr.Allocr.UBatchAdd` | backend/inference-worker/llama-src/src/llama-batch.cpp:749-844 | The micro-batch carries the rows of the given tokens and out_ids grows by the flagged ones, in order |
| `BatchAllocr.Allocr.SplitSimple` | backend/inference-worker/llama-src/src/llama-batch.cpp:476-508 | Emits the longest window n_ubatch allows from the first unused token; the state stays sound exactly when no token of the window was used before |
| `BatchAllocr.Allocr.SplitSeq` | backend/inference-worker/llama-src/src/llama-batch.cpp:681-721 | Emits a chain of unused tokens with shrinking sequence sets, at most n_ubatch of them, leaving out none it could take |
| `BatchAllocr.Allocr.SplitEqual` | backend/inference-worker/llama-src/src/llama-batch.cpp:510-679 | The imperative split, with rounds, deferral, extension, truncation and un-using, emits exactly what the law of `SplitLaw` asks of the flags before it and what the closed-form plan gives, keeps the state sound, and returns nothing exactly when it must |
| `BatchAllocr.Allocr.ChooseSets` | backend/inference-worker/llama-src/src/llama-batch.cpp:517-551 | The scan over the batch returns exactly the chosen sets |
| `BatchAllocr.Allocr.FirstUnusedPerSet` | backend/inference-worker/llama-src/src/llama-batch.cpp:560-567 | The index of each chosen set stands at its first unused token |
| `BatchAllocr.Allocr.Expand` | backend/inference-worker/llama-src/src/llama-batch.cpp:569-603 | The round loop gives every chosen set exactly the common number of next tokens |
| `BatchAllocr.Allocr.KeepTails` | backend/inference-worker/llama-src/src/llama-batch.cpp:605-669 | Keeps the longest prefix of sets that finish or keep a tail, settles the first set alone if none does, and gives all others back |
| `BatchAllocr.Allocr.CountKept` | backend/inference-worker/llama-src/src/llama-batch.cpp:615-625 | The longest prefix of sets that finish here or keep a full tail |
| `BatchAllocr.Allocr.ResolveFirst` | backend/inference-worker/llama-src/src/llama-batch.cpp:627-658 | The first set is finished if it fits into n_ubatch, else shortened to leave n_keep_tail tokens |
| `BatchAllocr.Allocr.DeferFrom` | backend/inference-worker/llama-src/src/llama-batch.cpp:660-668 | The deferred sets are back where the call found them |
| `SplitDriver.AllUsedIsComplete` | backend/inference-worker/llama-src/src/llama-kv-cache.cpp:699-734 | n_used equal to the batch size means every token was emitted exactly once |
| `SplitDriver.OutIdsExactlyFlagged` | backend/inference-worker/llama-src/src/llama-batch.cpp:800-802 | After a full split out_ids lists each flagged token exactly once and has as many entries as outputs were counted |
| `SplitDriver.EmittedInPositionOrder` | backend/inference-worker/llama-src/src/llama-batch.cpp:337-386 | Within one set, positions never go back over the whole split |
| `SplitDriver.EmittedWithoutGaps` | backend/inference-worker/llama-src/src/llama-batch.cpp:316-319 | If all tokens of a sequence have one set, consecutive tokens of it go out at the same position or the next: none is skipped over |
| `SplitDriver.PlanIsGrouped` | backend/inference-worker/llama-src/src/llama-batch.cpp:671-678 | A micro-batch of an equal split consists of equally long groups, one sequence set each, no two sharing a sequence |
| `SplitDriver.ChosenConsecutive` | backend/inference-worker/llama-src/src/llama-batch.cpp:532-541 | In a sequential split the groups are single sequences with consecutive ids |
| `SplitDriver.EqualShape` | backend/inference-worker/llama-src/src/llama-batch.cpp:510-679 | Grouping and size of every micro-batch of an equal split, from any state of the split |
| `SplitDriver.TailStep` | backend/inference-worker/llama-src/src/llama-batch.cpp:605-669 | One equal split keeps the promise for tails: if so far each set's tail is untouched or went out in one micro-batch, so it does after the split |
| `SplitDriver.AllTailsWhole` | backend/inference-worker/llama-src/src/llama-batch.cpp:605-669 | After a whole equal split the last n_keep_tail tokens of each sequence set went out in one micro-batch |
| `SplitDriver.SequenceTails` | backend/inference-worker/llama-src/src/llama-batch.cpp:605-607 | The last n_keep_tail tokens of a sequence went out in one micro-batch exactly if they all carry one sequence set |
| `SplitDriver.UncoupledTails` | backend/inference-worker/llama-src/src/llama-batch.cpp:605-607 | Without coupled sequences the tail of every sequence carries one set, so it goes out whole |
| `SplitDriver.CoupledTailIsCut` | backend/inference-worker/llama-src/src/llama-memory-hybrid.cpp:84-89 | A coupled batch in which the tail of a sequence carries two sets |
| `SplitDriver.SplitAll` | backend/inference-worker/llama-src/src/llama-memory-recurrent.cpp:407-447 | The split loop terminates; it fails exactly for a sequential split of coupled sequences; otherwise every token goes out once, in order per set, outputs are listed once, kept tails are not spread (per set always, per sequence exactly if the tail carries one set), and every micro-batch is the one its split's law allows after those before, with the groups and the size it promises |
| `SplitDriver.SplitIsDetermined` | backend/inference-worker/llama-src/src/llama-memory-recurrent.cpp:407-447 | A batch has one split in each mode: any two complete lists of micro-batches that follow the law of their mode carry the same tokens |
| `SplitDriver.SplitEnds` | backend/inference-worker/llama-src/src/llama-memory-recurrent.cpp:432-447 | When no split yields anything more, all tokens went out and the tails asked for are whole, except exactly for a sequential split of coupled sequences |
| `OutputRows.ReplayCarries` | backend/inference-worker/llama-src/src/llama-context.cpp:2222-2235 | Replaying swaps moves rows the way it moves the ids that label them |
| `OutputRows.SortOutIds` | backend/inference-worker/llama-src/src/llama-context.cpp:1997-2012 | The selection sort leaves the ids ascending, the recorded swaps replayed on the unsorted ids give the sorted ones, and each recorded swap brings a later row forward, further on each time |
| `OutputRows.SwapsMove` | backend/inference-worker/llama-src/src/llama-context.cpp:1999-2012 | Recorded swaps always move something: replaying them leaves a list as it is exactly if there are none |
| `OutputRows.SwapRows` | backend/inference-worker/llama-src/src/llama-context.cpp:2227-2235 | The element-wise loop exchanges two whole rows and leaves every other row as it was |
| `OutputRows.SwappedRows` | backend/inference-worker/llama-src/src/llama-context.cpp:2227-2235 | Buffers that differ by the element swaps have rows that differ by one exchange |
| `OutputRows.AscendingUnique` | backend/inference-worker/llama-src/src/llama-context.cpp:1991-2012 | A strictly ascending list of given ids is the only one |
| `OutputRows.FlaggedPrefix` | backend/inference-worker/llama-src/src/llama-batch.cpp:800-802 | The outputs of a first part of the split come first among all outputs |
| `OutputRows.OutputsOf` | backend/inference-worker/llama-src/src/llama-context.cpp:1907-1970 | The outputs of each micro-batch stand in one block of the collected rows |
| `OutputRows.Outputs.OutputReserve` | backend/inference-worker/llama-src/src/llama-context.cpp:2032-2192 | Room for the wanted rows and for n_seq_max of them, in the old buffer when it is large enough and else in a new one; no token mapped |
| `OutputRows.Outputs.ClearSwaps` | backend/inference-worker/llama-src/src/llama-context.cpp:1727 | In any state: forgetting the recorded swaps keeps a right mapping right exactly if there were none |
| `OutputRows.Outputs.Decode` | backend/inference-worker/llama-src/src/llama-context.cpp:1792-2020 | Computes up to the first micro-batch that fails. Each row then holds the logits of its token if its micro-batch was copied to the host, else what was there before. If all went well, tokens are mapped so that, swaps replayed, rows stand in user batch order, and swaps are recorded exactly if the order of computation was another; else every token is unmapped |
| `OutputRows.Outputs.NeedsRawLogits` | backend/inference-worker/llama-src/src/llama-context.cpp:1618-1633 | True exactly if some wanted token of the micro-batch has a sequence without a backend sampler |
| `OutputRows.Outputs.ExtractAll` | backend/inference-worker/llama-src/src/llama-context.cpp:1802-1970 | The rows stored after any number of micro-batches are those of the tokens in micro-batches that needed raw logits, each at its place, and no other row was touched |
| `OutputRows.Outputs.SetOutputMapping` | backend/inference-worker/llama-src/src/llama-context.cpp:1972-2020 | Each wanted token maps to its rank among the wanted, every other to -1 |
| `OutputRows.Outputs.OutputReorder` | backend/inference-worker/llama-src/src/llama-context.cpp:2222-2288 | The rows become those in batch order; a second call changes nothing |
| `OutputRows.Outputs.OutputResolveRow` | backend/inference-worker/llama-src/src/llama-context.cpp:849-876 | Token index to row; a negative index counts back from the last row in use; every bad index is an error; after an aborted decode no token index resolves, and a negative one gives a row at the front of the buffer |
| `OutputRows.Outputs.GetLogitsIth` | backend/inference-worker/llama-src/src/llama-context.cpp:878-896 | In every state of a context: the row handed out is the one the table names, after the swaps are replayed once. If the mapping is right, the row for batch index i is the one of token i |
| `Decoding.DecodeBatch` | backend/inference-worker/llama-src/src/llama-context.cpp:1635-2020 | End to end, on a context in any state: refused exactly if the samplers do not serve it or the batch is not accepted, and then nothing of the outputs changes; no room exactly if it cannot be split or placed, and then only the recorded swaps are lost; aborted at the first micro-batch that fails, which leaves nothing mapped and the earlier rows at the front; else every wanted token is mapped to its row |
| `Decoding.CheckSamplers` | backend/inference-worker/llama-src/src/llama-context.cpp:1664-1692 | Refuses exactly the batches in which a sequence sampled on the backend is named by more wanted tokens than allowed |
| `Decoding.OwnRows` | backend/inference-worker/llama-src/src/llama-context.cpp:1862-1876 | The row of a wanted token is its own exactly if its micro-batch was copied to the host, or the buffer held the same before |
| `Decoding.UnsampledIsCopied` | backend/inference-worker/llama-src/src/llama-context.cpp:1618-1633 | A wanted token with a sequence that has no backend sampler is always copied; without samplers all are |
| `Decoding.AllSampledNoneCopied` | backend/inference-worker/llama-src/src/llama-context.cpp:1618-1633 | If every sequence of every wanted token has a backend sampler, no row is written |
| `Decoding.RunCalls` | backend/inference-worker/llama-src/src/llama-context.cpp:878-896 | Any sequence of decodes and reads on one context, whichever of them fail: each answer and what is known of the outputs after it are as the call before demands |
| `Decoding.ReadsSeeLastDecode` | backend/inference-worker/llama-src/src/llama-context.cpp:878-896 | In any run a read gives the rows of the last decode that went well, whatever failed before it, if since then there were only reads, refused decodes, and decodes without room after a read |
| `Decoding.ReadsGetOwnRow` | backend/inference-worker/llama-src/src/llama-context.cpp:878-896 | Such a read of a wanted token with a sequence sampled on the host gives exactly the logits computed for that token |
| `Decoding.SimpleLeavesNoSwaps` | backend/inference-worker/llama-src/src/llama-context.cpp:1977-1997 | After a simple split no swap is recorded, so the outputs survive a decode that finds no room |
| `Decoding.ForgottenSwapsMisread` | backend/inference-worker/llama-src/src/llama-context.cpp:1727-1760 | Two decodes and a read: the first goes well, the second finds no room, and the logits asked for token 1 are those of token 2 |
| `JobOrder.BeforeIsTotal` | backend/shell-app/scheduler.js:231-241 | The comparator with arrival as last tie-break is a strict total order at every instant |
| `JobOrder.PointsOfClasses` | backend/shell-app/scheduler.js:196-200 | High is above normal and normal above low, 100 points apart |
| `JobOrder.ClassDecidesAtEqualAge` | backend/shell-app/scheduler.js:231-241 | Of two jobs of one age the higher class goes first; within a class, the one that arrived first |
| `JobOrder.AgedJobGoesFirst` | backend/shell-app/scheduler.js:202-205 | At every instant a job precedes every job of its own or a higher class that came later by 100 ageing intervals for each class between them |
| `JobOrder.FresherHigherJobGoesFirst` | backend/shell-app/scheduler.js:202-205 | At every instant a job follows every job of a higher class that came earlier, or later by at most one interval less than that |
| `JobOrder.BetweenTheBoundsOrderVaries` | backend/shell-app/scheduler.js:202-205 | Every pair of jobs of different classes whose arrivals lie strictly between the two bounds is ordered one way at one instant and the other way at another, so the bounds are exact |
| `JobOrder.AgeingKeepsClasses` | backend/shell-app/scheduler.js:196-205 | Among jobs that wait at most t, ageing never lifts one over a job of a higher class exactly if t < 100 * agingMs |
| `JobOrder.LiftedHasWaited` | backend/shell-app/scheduler.js:202-205 | A job that precedes one of a higher class has waited at least 100 intervals for each class between them |
| `JobOrder.ShippedSettingsNeverLift` | backend/shell-app/scheduler.js:17-19 | With the shipped ageing interval a wait must be allowed to reach 25 minutes before ageing lifts a job; the shipped queue timeout is 30 seconds |
| `JobOrder.RankedIsBijection` | backend/shell-app/scheduler.js:207-216 | Sorting the queue is a bijection between waiting jobs and positions 1..n that agrees with the service order |
| `Scheduler.DuplicateIdUndercounts` | backend/shell-app/scheduler.js:255-281 | Starting a job keeps the counter of every client right exactly when its id is not running already; else one entry stands for two jobs, and settling one removes it |
| `Scheduler.SubmitNeedsFreshId` | backend/shell-app/scheduler.js:31-105 | Accepting a job keeps the invariant exactly when its id is neither waiting nor running |
| `Scheduler.SubmitKeepsInv` | backend/shell-app/scheduler.js:31-105 | Accepting a job keeps queue order, places, caps and counters |
| `Scheduler.DropKeepsInv` | backend/shell-app/scheduler.js:107-127 | Dropping a waiting job finishes it once and keeps everything else |
| `Scheduler.StartKeepsInv` | backend/shell-app/scheduler.js:255-281 | A start keeps perMfeActive equal to the running jobs per client, all caps, and arrival order within client and class |
| `Scheduler.ReleaseKeepsInv` | backend/shell-app/scheduler.js:262-281 | Giving a slot back finishes exactly that job and keeps all counts |
| `Scheduler.NoteKeepsInv` | backend/shell-app/scheduler.js:311-354 | A late settle or an abort changes only what that very run remembers |
| `Scheduler.OutcomesTell` | backend/shell-app/scheduler.js:107-140 | In every reachable state the outcome on record is that of the event that ended the job: cancelled exactly if a cancel found it waiting or it was rejected after one reached it, failed exactly if it was rejected without, timed out exactly by the timer named |
| `Scheduler.StoppedIffAsked` | backend/shell-app/scheduler.js:129-140 | A job that holds a slot is told to stop exactly if a cancel reached it since it started |
| `Scheduler.FirstCandidate` | backend/shell-app/scheduler.js:231-241 | Filter, sort, take first gives the maximum of the service order among runnable jobs, and nothing exactly when none is runnable |
| `Scheduler.FirstRunnableMayStart` | backend/shell-app/scheduler.js:231-253 | The job started is the earliest waiting of its client and class |
| `Scheduler.FirstIsFair` | backend/shell-app/scheduler.js:231-241 | The job picked leaves no runnable job of a higher class waiting unless it waited 100 intervals per class, none of its class that arrived before, and none of a lower class that has earned the difference |
| `Scheduler.EarlierGoesFirst` | backend/shell-app/scheduler.js:231-241 | Within one class, order of arrival is order of service at every instant |
| `Scheduler.OnlyStartsStep` | backend/shell-app/scheduler.js:243-253 | Scheduling only starts jobs: it finishes none and submits none |
| `Scheduler.Scheduler.constructor` | backend/shell-app/scheduler.js:12-29 | An idle scheduler satisfies the invariant |
| `Scheduler.Scheduler.GetQueuePosition` | backend/shell-app/scheduler.js:207-216 | The 1-based rank of a waiting job in the service order, -1 if it does not wait |
| `Scheduler.Scheduler.PickNextJob` | backend/shell-app/scheduler.js:231-241 | The first runnable job in the service order, if any, and fair by class to every runnable one it leaves waiting |
| `Scheduler.Scheduler.RunJob` | backend/shell-app/scheduler.js:255-281 | Exactly the job picked moves from the queue to a slot, and nobody has asked it to stop |
| `Scheduler.Scheduler.StartNext` | backend/shell-app/scheduler.js:243-253 | One round: the job picked starts, in the state it was picked in; none starts exactly when none may run |
| `Scheduler.Scheduler.Schedule` | backend/shell-app/scheduler.js:243-253 | Terminates, only starts jobs, each of them the fair pick of its moment, and re-establishes work conservation |
| `Scheduler.Scheduler.Enqueue` | backend/shell-app/scheduler.js:31-105 | Refuses exactly when the queue is full and then changes nothing; else accepts once and schedules |
| `Scheduler.Scheduler.Cancel` | backend/shell-app/scheduler.js:107-140 | A waiting job ends cancelled; a running one is only asked to stop, which goes on record; anything else is unchanged |
| `Scheduler.Scheduler.OnQueueTimeout` | backend/shell-app/scheduler.js:66-91 | The timer of a job that still waits ends exactly that job, for the first and only time |
| `Scheduler.Scheduler.ReleaseSlot` | backend/shell-app/scheduler.js:262-281 | A run that holds a slot gives it back: its job is finished for the first and only time, with the outcome of the event that ended it, counters drop by one, and waiting jobs may start |
| `Scheduler.Scheduler.OnExecTimeout` | backend/shell-app/scheduler.js:283-309 | The job ends timed out and its slot is free at once, whatever its work does later |
| `Scheduler.Scheduler.OnSettle` | backend/shell-app/scheduler.js:311-354 | Settling ends the job: done if the work resolved, cancelled if it was rejected after a cancel reached it, else failed; if the slot is already free nothing but that run's memory changes, even if the id runs again |
| `Scheduler.Scheduler.SettleRunning` | backend/shell-app/scheduler.js:311-354 | The outcome recorded is that of the settling and the cancels so far, and waiting jobs may start |
| `LadderModel.FirstEligible` | backend/inference-worker/deviceLadder.cpp:178-201 | The index returned is eligible and no earlier one is |
| `LadderModel.AfterLooks` | backend/inference-worker/deviceLadder.cpp:165-176 | Looking at tiers changes probe caches of the tiers looked at and nothing else |
| `LadderModel.ProbeIsShared` | backend/inference-worker/deviceLadder.cpp:164-176 | A probe answers for the interval that follows it and no longer; with the interval 0 every look probes |
| `LadderModel.LooksKeepTrace` | backend/inference-worker/deviceLadder.cpp:150-201 | Looking at tiers keeps caches and fault records true to the history of probes and faults; a tier found eligible is, by that history, neither removed nor set aside and was reported available, and one passed over was removed, set aside, never faulted (in a recovery), or reported unusable |
| `LadderModel.FaultIsRecorded` | backend/inference-worker/deviceLadder.cpp:203-217 | After a fault the marks of every tier agree with the log of faults: fatal exactly if one of this session was a removal, set aside until the quarantine after the last one |
| `LadderModel.SessionIsRecorded` | backend/inference-worker/deviceLadder.cpp:81-89 | After a session begins no earlier fault counts any more |
| `LadderModel.SelectKeepsRouterInv` | backend/inference-worker/deviceLadder.cpp:178-201 | A first selection keeps the router invariant and succeeds exactly when some tier is eligible |
| `LadderModel.FirstSelectionIsBaseline` | backend/inference-worker/deviceLadder.cpp:187-195 | The first tier ever selected is the baseline, and with it nothing is degraded |
| `LadderModel.FaultKeepsRouterInv` | backend/inference-worker/deviceLadder.cpp:203-235 | A fault never moves the ladder up, moves it down exactly when it reports success, and adds one fault to the active tier only |
| `LadderModel.FaultSetsAside` | backend/inference-worker/deviceLadder.cpp:203-217 | The tier that faulted is usable again exactly from now + quarantine on, unless the fault was a removal or one came before: then not this session |
| `LadderModel.RecoveryKeepsRouterInv` | backend/inference-worker/deviceLadder.cpp:91-122 | A recovery moves up exactly when it reports success and never above the baseline |
| `LadderModel.RecoveryClearsReason` | backend/inference-worker/deviceLadder.cpp:108-117 | A recovery takes the reason away exactly if it ends the degradation |
| `LadderModel.SessionKeepsRouterInv` | backend/inference-worker/deviceLadder.cpp:81-89 | A new session keeps the baseline and the active tier |
| `LadderModel.SessionStartsAfresh` | backend/inference-worker/deviceLadder.cpp:81-89 | In a new session a tier may be selected exactly if a new probe finds it available; its fault count stays |
| `LadderModel.DegradedMeansOffBaseline` | backend/inference-worker/deviceLadder.h:48 | In every router-driven run degraded() says exactly that the active tier is not the baseline |
| `LadderModel.SelectAgainMayRise` | backend/inference-worker/deviceLadder.cpp:178-201 | Selecting while a tier is active keeps the invariant exactly when the first eligible tier is not above the baseline |
| `LadderModel.FallsBackExactlyWhen` | backend/inference-worker/deviceLadder.cpp:203-229 | A fault leads to a lower tier exactly if one is eligible there and none is at or above the faulted tier |
| `LadderModel.EligibleAboveBlocksFallback` | backend/inference-worker/deviceLadder.cpp:222-229 | A healthy lower tier is not used after a fault when a higher tier is eligible too |
| `LadderModel.ReasonAfterFault` | backend/inference-worker/deviceLadder.cpp:194-235 | A reason stands after a fault exactly when a fallback was made, or one stood before and the first eligible tier was below the baseline |
| `LadderModel.ReasonTells` | backend/inference-worker/deviceLadder.cpp:223-233 | The reason for a fallback names the tier and its fault, and no two faults have one name |
| `LadderModel.DegradedMayHaveNoReason` | backend/inference-worker/deviceLadder.cpp:194-229 | A run from fresh tiers, by one selection and two faults, that ends degraded with an empty reason |
| `DeviceLadders.DeviceLadder.constructor` | backend/inference-worker/deviceLadder.cpp:54-65 | Fresh tiers in order, no baseline; negative settings count as zero |
| `DeviceLadders.DeviceLadder.ProbeTierCached` | backend/inference-worker/deviceLadder.cpp:165-176 | Answers from the cache while it is younger than the interval, else probes and remembers |
| `DeviceLadders.DeviceLadder.LookAt` | backend/inference-worker/deviceLadder.cpp:91-106 | One tier of a walk: probed only if neither removed nor set aside, nor without a fault in a recovery |
| `DeviceLadders.DeviceLadder.Walk` | backend/inference-worker/deviceLadder.cpp:178-201 | The walk stops at the first eligible tier and changes only caches on the way; by the history the tier is fit, and every one above was passed over for cause |
| `DeviceLadders.DeviceLadder.Select` | backend/inference-worker/deviceLadder.cpp:178-201 | Equals the specification for the answers it got; on success the landing tier is fit and every tier above it was passed over for cause |
| `DeviceLadders.DeviceLadder.ReportFault` | backend/inference-worker/deviceLadder.cpp:203-235 | Succeeds exactly when the first eligible tier of the whole ladder lies strictly below the faulted one, and that tier is fit by the history with this fault in it; otherwise the old tier is restored |
| `DeviceLadders.DeviceLadder.MarkFault` | backend/inference-worker/deviceLadder.cpp:203-217 | The fault is on the log and on the marks of the active tier |
| `DeviceLadders.DeviceLadder.RecoverEligibleTier` | backend/inference-worker/deviceLadder.cpp:91-122 | Moves up only to a fit tier that once faulted, the first such, and passes over every other for cause |
| `DeviceLadders.DeviceLadder.InvalidateProbeCache` | backend/inference-worker/deviceLadder.cpp:75-79 | Every cache entry is dropped, nothing else changes |
| `DeviceLadders.DeviceLadder.BeginSession` | backend/inference-worker/deviceLadder.cpp:81-89 | Clears session-fatal marks, quarantines and caches of all tiers, nothing else; the log starts a new session |
| `DeviceLadders.DeviceLadder.TierState` | backend/inference-worker/deviceLadder.cpp:140-148 | A status query may refresh a cache but moves nothing; available means a probe since the last fault said so |
| `BackendRouters.RemovedNeverReentered` | backend/inference-worker/backendRouter.cpp:75-147 | In every run of ladder states without a new session, a removed tier that was left is never active again |
| `BackendRouters.RemovalLastsTheSession` | backend/inference-worker/deviceLadder.cpp:203-229 | A device reported removed, and left for a lower tier, is not active in any state of any run that follows without a new session |
| `BackendRouters.BaselineFixed` | backend/inference-worker/deviceLadder.cpp:187-191 | The baseline, once set, is the same at the end of every run |
| `BackendRouters.DescendingFits` | backend/inference-worker/backendRouter.cpp:86-88 | Strictly descending attempts are at most as many as tiers |
| `BackendRouters.FailureRecorded` | backend/inference-worker/backendRouter.cpp:112-123 | One more failed attempt puts one more fault on exactly its tier |
| `BackendRouters.RoundFails` | backend/inference-worker/backendRouter.cpp:88-137 | A failed round keeps the attempts strictly descending and recorded; the fault returned is the last one |
| `BackendRouters.BackendRouter.Select` | backend/inference-worker/backendRouter.cpp:34-42 | Succeeds exactly when a tier becomes active |
| `BackendRouters.BackendRouter.RegisterBackend` | backend/inference-worker/backendRouter.cpp:12-19 | Adds the adapter and drops cached probes |
| `BackendRouters.BackendRouter.BeginSession` | backend/inference-worker/backendRouter.cpp:48-50 | The ladder begins a session |
| `BackendRouters.BackendRouter.SetFallbackHook` | backend/inference-worker/worker.cpp:172-176 | The hook is installed while the engine runs the active tier |
| `BackendRouters.BackendRouter.CallHook` | backend/inference-worker/backendRouter.cpp:64-69 | The engine is sent to exactly the tier that is active; the ladder does not move |
| `BackendRouters.BackendRouter.Report` | backend/inference-worker/backendRouter.cpp:112-126 | The active tier takes one fault; the ladder goes down or stays where it is |
| `BackendRouters.BackendRouter.Recover` | backend/inference-worker/backendRouter.cpp:52-58 | The ladder is searched for a tier to recover; if it moves, then up and to a tier that once faulted |
| `BackendRouters.BackendRouter.AttemptRecovery` | backend/inference-worker/backendRouter.cpp:52-73 | Success means a higher, once faulted tier is active; a refused hook counts as a fault of the recovered tier; with no move nothing changes; engine and ladder end on the same tier |
| `BackendRouters.BackendRouter.FollowUp` | backend/inference-worker/backendRouter.cpp:60-72 | The engine comes up on the recovered tier, or that tier is faulted and the engine follows wherever the ladder goes |
| `BackendRouters.BackendRouter.GiveUp` | backend/inference-worker/backendRouter.cpp:63-71 | The recovered tier takes one fault and the engine ends on whichever tier is active then |
| `BackendRouters.BackendRouter.FollowDown` | backend/inference-worker/backendRouter.cpp:132-141 | After a fallback the engine is on the new active tier; only an installed hook can refuse |
| `BackendRouters.BackendRouter.Start` | backend/inference-worker/backendRouter.cpp:76-83 | A tier is active afterwards unless none is usable, and recovery was tried |
| `BackendRouters.BackendRouter.Execute` | backend/inference-worker/backendRouter.cpp:90-104 | Only a registered adapter that can execute ever reports success |
| `BackendRouters.BackendRouter.TryTier` | backend/inference-worker/backendRouter.cpp:88-141 | One round either settles with the right answer or moves strictly down with one more failed attempt |
| `BackendRouters.BackendRouter.Route` | backend/inference-worker/backendRouter.cpp:75-147 | Tiers are tried strictly downward, each at most once; the loop ends in one of four exits (the fifth is unreachable); on success device, text and degraded are those of the tier that served; faults on record are exactly the failed attempts; recovery is tried first; engine and ladder, if they agreed on the tier before, agree after |
| `PoolModel.ScheduleRestores` | backend/api-server/ipc.js:373-399 | Scheduling leaves a crashed worker with a probe ahead or its rounds spent |
| `PoolModel.OutOfServiceOk` | backend/api-server/ipc.js:362-371 | Taking a worker out of service starts its recovery over and never leaves it forgotten |
| `PoolModel.OutOfServiceMeans` | backend/api-server/ipc.js:364-371 | A worker taken out of service is crashed, the timer it held is off, and the first of its rounds is coming if any are allowed |
| `PoolModel.RefreshOk` | backend/api-server/ipc.js:296-317 | A readiness refresh leaves busy workers busy and makes a worker ready only if its socket exists |
| `PoolModel.RefreshMeans` | backend/api-server/ipc.js:296-317 | An idle worker in service is ready exactly if its socket file exists, and out of service exactly if it does not and the grace is over |
| `PoolModel.ProbeOk` | backend/api-server/ipc.js:383-398 | A probe answer keeps a crashed worker covered or makes it ready |
| `PoolModel.ProbeMeans` | backend/api-server/ipc.js:383-398 | A crashed worker is ready after a probe exactly if it found it alive, and then starts afresh; else it is still crashed with exactly one more round coming, or its rounds are spent |
| `PoolModel.RoundsAreTimers` | backend/api-server/ipc.js:373-399 | Every timer made since the last reset, by whichever event, is counted by recoveryAttempt, so at most recoveryAttempts are made between resets |
| `PoolModel.SpentStaysOut` | backend/api-server/ipc.js:373-380 | A crashed worker with its rounds spent stays out until the supervisor speaks |
| `PoolModel.SupervisorMeans` | backend/api-server/ipc.js:74-106 | A restarted worker is crashed until a probe finds it, with all rounds ahead; a ready one is ready at once; a busy one is left alone |
| `PoolModel.BusyMeansOneRequest` | backend/api-server/ipc.js:270-280 | A worker is busy exactly when one request in flight is bound to it, and never two |
| `PoolModel.SlotsAreRequests` | backend/api-server/ipc.js:55-72 | The number of busy workers equals the number of requests in flight |
| `PoolModel.WorkerStepKeepsInv` | backend/api-server/ipc.js:74-106 | A step of one worker that does not change whether it is busy keeps every binding |
| `PoolModel.SendNeedsFreshId` | backend/api-server/ipc.js:467-470 | Sending a request keeps the bindings exactly when its id is not in flight already |
| `PoolModel.FinishKeepsBound` | backend/api-server/ipc.js:145-155 | Settling one call and freeing its worker keeps every other binding |
| `PoolModel.ResultKeepsInv` | backend/api-server/ipc.js:518-535 | A result settles its call once and frees its worker |
| `PoolModel.ResultMeans` | backend/api-server/ipc.js:518-535 | A result settles its call with that text and frees its worker unless that is out of service; nothing else changes |
| `PoolModel.FailureKeepsInv` | backend/api-server/ipc.js:448-465 | A failure settles its call once and frees or quarantines its worker |
| `PoolModel.FailureMeans` | backend/api-server/ipc.js:352-371 | A failed request takes its worker out of service exactly if it could not connect, its socket failed or was closed; any other failure frees the worker |
| `PoolModel.CrashKeepsInv` | backend/api-server/ipc.js:319-348 | A crash notice takes the worker out, fails the one request it served, and touches nothing else |
| `PoolModel.NoticeKeepsInv` | backend/api-server/ipc.js:319-348 | A crash notice keeps all bindings exactly if it names no request in flight, or one of the crashed worker, or that worker is idle: else its own request is left behind |
| `PoolModel.OwnRequestNamed` | backend/api-server/ipc.js:325-343 | A notice that names the request of the crashed worker does what one without a name does |
| `WorkerPools.CrashFails` | backend/api-server/ipc.js:335-343 | Failing one affected request leaves the others of the notice as they were |
| `WorkerPools.WorkerPool.constructor` | backend/api-server/ipc.js:16-53 | All workers starting, nothing in flight |
| `WorkerPools.WorkerPool.ScheduleRecoveryProbe` | backend/api-server/ipc.js:373-399 | One more timer of recoveryMs times the round, unless the worker is not crashed or the rounds are spent |
| `WorkerPools.WorkerPool.QuarantineAfterTransportFailure` | backend/api-server/ipc.js:362-371 | Takes a worker out of service once |
| `WorkerPools.WorkerPool.TimerFires` | backend/api-server/ipc.js:383-384 | A fired timer becomes an outstanding probe |
| `WorkerPools.WorkerPool.ProbeAnswers` | backend/api-server/ipc.js:384-397 | The answer counts only while the worker is crashed |
| `WorkerPools.WorkerPool.RefreshWorkerReadiness` | backend/api-server/ipc.js:296-317 | Each idle worker is judged by its socket file and grace period; busy and crashed ones are left alone |
| `WorkerPools.WorkerPool.FindReady` | backend/api-server/ipc.js:272 | The first ready worker, or none |
| `WorkerPools.WorkerPool.RunInference` | backend/api-server/ipc.js:108-117 | Takes the first ready worker after a refresh, or refuses because none is ready; the bindings stay right exactly unless the id taken is in flight already |
| `WorkerPools.WorkerPool.CallFails` | backend/api-server/ipc.js:448-465 | A settled call ignores further failures; an open one fails once with the right effect on its worker |
| `WorkerPools.WorkerPool.ResultArrives` | backend/api-server/ipc.js:518-535 | A settled call ignores late results, even if its id was reused; an open one settles and frees its worker |
| `WorkerPools.WorkerPool.MarkWorkerCrashed` | backend/api-server/ipc.js:319-348 | Unknown workers are ignored; else the request named fails, if it is in flight, and otherwise exactly the one of that worker; the bindings stay right exactly unless the request named is served elsewhere while the crashed worker is busy |
| `WorkerPools.WorkerPool.HandleSupervisorMessage` | backend/api-server/ipc.js:74-106 | Each message changes exactly the worker it names, and a crash notice the request it names; restarted and ready spare a busy worker; the bindings stay right under the condition of `NoticeFits` |
| `WorkerPools.WorkerPool.GetHealth` | backend/api-server/ipc.js:55-72 | activeSlots equals the number of requests in flight |
| `RequestRegistry.EarlyBreakIsExact` | backend/api-server/requestRegistry.js:98-106 | Because finish times are in order, stopping at the first fresh entry removes exactly the expired ones |
| `RequestRegistry.OneExecutionPerId` | backend/api-server/requestRegistry.js:55-89 | No id has two executions outstanding |
| `RequestRegistry.NeverBoth` | backend/api-server/requestRegistry.js:55-95 | No id is both in flight and completed |
| `RequestRegistry.EvictKeepsInv` | backend/api-server/requestRegistry.js:98-106 | After an eviction exactly the successes still alive are kept |
| `RequestRegistry.BeginKeepsInv` | backend/api-server/requestRegistry.js:68-88 | Starting an execution keeps the registry consistent |
| `RequestRegistry.SuccessKeepsInv` | backend/api-server/requestRegistry.js:91-95 | A success joins the results at the end, so finish order is kept although the map keeps old keys in place |
| `RequestRegistry.FailureKeepsInv` | backend/api-server/requestRegistry.js:75-80 | A failure leaves nothing to replay and frees the id |
| `RequestRegistry.Decides` | backend/api-server/requestRegistry.js:55-66 | Right after an eviction an id has an entry exactly when its last success is alive, and a running id has an unsettled execution |
| `RequestRegistry.Registry.constructor` | backend/api-server/requestRegistry.js:6-16 | The old file is kept as orphans and one write of the empty set is outstanding |
| `RequestRegistry.Registry.EvictCompleted` | backend/api-server/requestRegistry.js:98-106 | Keeps exactly the results within their time to live |
| `RequestRegistry.Registry.Lookup` | backend/api-server/requestRegistry.js:43-53 | Reports what a submission would find |
| `RequestRegistry.Registry.Run` | backend/api-server/requestRegistry.js:55-89 | Within the time to live of its last success an id is replayed; else it joins its running execution; else exactly one execution starts |
| `RequestRegistry.Registry.Settle` | backend/api-server/requestRegistry.js:71-95 | A success leaves the in-flight set, is recorded once, and is persisted |
| `RequestRegistry.Registry.Fail` | backend/api-server/requestRegistry.js:75-80 | A failure leaves the in-flight set and is not recorded as a result |
| `RequestRegistry.Registry.Persist` | backend/api-server/requestRegistry.js:110-144 | At most one write is outstanding; otherwise a note is left to it |
| `RequestRegistry.Registry.WriteFinished` | backend/api-server/requestRegistry.js:132-143 | A successful write puts its payload in the file; a note left meanwhile starts a write of the current set |
| `RequestRegistry.Registry.Drain` | backend/api-server/requestRegistry.js:110-144 | Without more updates the writer is idle after at most two completions, and unless the last failed the file equals the in-flight set |
| `CapacityPlan.DeviceOrdinalFromName` | backend/hardware/capacityPlan.cpp:57-74 | The number at the end of the name, or the fallback when there is none or it exceeds 1024; the accumulator never overflows |
| `CapacityPlan.ValueGrows` | backend/hardware/capacityPlan.cpp:66-72 | Reading more digits never lowers the number, so the early return is right |
| `CapacityPlan.NumberedNameReadsBack` | backend/hardware/capacityPlan.cpp:57-74 | A name made of a word and a decimal ordinal gives that ordinal back |
| `CapacityPlan.BestDevice` | backend/hardware/capacityPlan.cpp:98-105 | The device with the most free memory, the first on a tie |
| `CapacityPlan.PlanCapacity` | backend/hardware/capacityPlan.cpp:88-145 | Each half of the plan is the largest number of workers its budget, reserve and ceiling allow, with the right reason |
| `CapacityPlan.CapacityFits` | backend/hardware/capacityPlan.cpp:107-142 | To the byte: workers up to the capacity and the reserve fit the chosen device and the available RAM; both capacities together stay within the ceiling |
| `CapacityPlan.CapacityIsLargest` | backend/hardware/capacityPlan.cpp:107-142 | To the byte: below the ceiling, with one worker more the workers and the reserve would not fit the device, or the RAM |
| `CapacityPlan.PlaceableWorkerCount` | backend/hardware/capacityPlan.cpp:147-156 | Between one and the configured count, and within the capacity unless the floor of one applies |
| `CapacityPlan.AssignWorkers` | backend/hardware/capacityPlan.cpp:158-183 | Ids 0, 1, 2, ...; the GPU slots go to the lowest ids, and each worker has the reason for its place; as many GPU workers as the capacity allows |
| `CapacityPlan.AssignmentsFit` | backend/hardware/capacityPlan.cpp:147-183 | GPU workers fit the device; CPU workers fit the RAM but for the single worker of the floor |
| `WorkerReassignment.DemotionLowersCuda` | backend/hardware/capacityPlan.cpp:233-238 | A demotion moves one worker from GPU to CPU, with the fault as its reason, and leaves every other entry and all ids alone |
| `WorkerReassignment.CallsInTurn` | backend/supervisor/workerReassignment.cpp:53-67 | The crash notice comes before the start, and the restart notice after it and only if it succeeded; each hook installed is called at most once, with the worker's id, and the first two always |
| `WorkerReassignment.Supervisor.constructor` | backend/hardware/capacityPlan.cpp:88-183 | Discovery: plan, count and assignments fit the hardware |
| `WorkerReassignment.Supervisor.ReassignmentsAreBounded` | backend/supervisor/workerReassignment.cpp:18-69 | At most gpuWorkerCapacity reassignments are ever handled, and after that many no GPU worker is left |
| `WorkerReassignment.Supervisor.ApplyReassignment` | backend/supervisor/workerReassignment.cpp:18-69 | Handles exactly a reassign exit of a known GPU worker of a running supervisor: it becomes a CPU worker, the GPU count drops by one, ids stay, hooks run in order; otherwise nothing changes; the VRAM bound holds after every run |
| `JsonCodec.ReadHex4` | backend/inference-worker/remoteTransport.cpp:90-109 | Succeeds exactly on four hex digits of either case, with their value; fails past the end |
| `JsonCodec.ShiftAndOr` | backend/inference-worker/remoteTransport.cpp:97-105 | Shift by four and or is times sixteen and plus |
| `JsonCodec.OrIsSum` | backend/inference-worker/remoteTransport.cpp:72-88 | The UTF-8 prefixes or-ed with the payload bits are their sum |
| `JsonCodec.Utf8IsRight` | backend/inference-worker/remoteTransport.cpp:72-88 | The encoder writes the form section 3 of RFC 3629 gives for the range of the code point |
| `JsonCodec.Utf8IsUnique` | backend/inference-worker/remoteTransport.cpp:72-88 | One code point has one encoding and one encoding one code point |
| `JsonCodec.AppendCodePoint` | backend/inference-worker/remoteTransport.cpp:72-88 | Appends exactly the UTF-8 bytes |
| `JsonCodec.JsonEscape` | backend/inference-worker/remoteTransport.cpp:38-70 | Computes the escape of every byte string |
| `JsonCodec.JsonUnescape` | backend/inference-worker/remoteTransport.cpp:111-161 | Computes the unescaping of every byte string, well-formed or not, without reading past the end |
| `JsonCodec.UnescapeUnicode` | backend/inference-worker/remoteTransport.cpp:136-154 | One \u escape, with a low surrogate rejoined when it follows |
| `JsonCodec.RoundTrip` | backend/inference-worker/remoteTransport.cpp:38-161 | For every byte string, unescaping its escape gives it back |
| `JsonCodec.EscapeIsInjective` | backend/inference-worker/remoteTransport.cpp:38-70 | Different strings have different escapes |
| `JsonCodec.EscapedTextIsJson` | backend/inference-worker/remoteTransport.cpp:38-70 | The escape of any Unicode text, in UTF-8, is a JSON string body of exactly that text, every character written in one of the ways section 7 of RFC 8259 gives |
| `JsonCodec.EscapeIsShortest` | backend/inference-worker/remoteTransport.cpp:38-70 | Every character but backspace and form feed is escaped in the shortest of those ways |
| `JsonCodec.EscapedIsBody` | backend/inference-worker/remoteTransport.cpp:38-70 | An escaped string is a JSON string body as the frame parser matches it |
| `JsonCodec.EscapedHasNoControls` | backend/inference-worker/remoteTransport.cpp:38-70 | No escaped byte is below 0x20, so a frame stays on one line |
| `JsonCodec.FrameRoundTrip` | backend/inference-worker/remoteTransport.cpp:163-171 | From its opening quote on, an escaped string is taken whole and unescaping it gives the string back; the search for that quote over a whole frame is `RemoteFrames.FrameRead` |
| `JsonCodec.ScalarEscapeReads` | backend/inference-worker/remoteTransport.cpp:136-154 | Anywhere in a string, the escape of a Unicode scalar value becomes exactly its UTF-8 bytes |
| `JsonCodec.PlainReads` | backend/inference-worker/remoteTransport.cpp:114-118 | Bytes other than the backslash pass through unchanged |
| `JsonCodec.CharReads` | backend/inference-worker/remoteTransport.cpp:111-161 | Anywhere in a string, each character becomes its UTF-8 bytes, whichever way section 7 of RFC 8259 lets it be written: as itself, by a short escape, by one or two \u escapes |
| `JsonCodec.TextReadsBack` | backend/inference-worker/remoteTransport.cpp:111-161 | A JSON string body unescapes to its text in UTF-8, for every Unicode text and every way of writing its characters |
| `JsonCodec.EveryScalarHasAnEscape` | backend/inference-worker/remoteTransport.cpp:136-154 | Every scalar value has such an escape (section 7 of RFC 8259) |
| `JsonCodec.UnicodeYieldsScalar` | backend/inference-worker/remoteTransport.cpp:136-154 | A \u escape yields valid UTF-8 exactly when it is not an unpaired surrogate |
| `RemoteFrames.TextHidesNoKey` | backend/inference-worker/remoteTransport.cpp:163-171 | No key matches anywhere inside a string value: an escaped quote cannot end a key, and no colon follows the closing quote |
| `RemoteFrames.OnlyOwnKey` | backend/inference-worker/remoteTransport.cpp:163-181 | Anywhere in a field, a key matches only at its front and only if it is the key of that field |
| `RemoteFrames.BodyEndsAtQuote` | backend/inference-worker/remoteTransport.cpp:164 | The pattern takes a string body up to its own closing quote, escaped quotes included |
| `RemoteFrames.FrameRead` | backend/inference-worker/remoteTransport.cpp:163-181 | A search over a whole frame captures the value of the first field that has the key and the kind asked for, and nothing if there is none, for all fields and values: no payload can pass for a field |
| `RemoteFrames.NumeralReadsBack` | backend/inference-worker/remoteTransport.cpp:173-181 | A printed whole number of either sign is read back, saturated to the range of a 64-bit long |
| `RemoteFrames.LastLine` | backend/inference-worker/remoteTransport.cpp:338-344 | The last line of an output is found whatever lines come before it and blanks after it |
| `RemoteFrames.ReplyReads` | backend/inference-worker/remoteTransport.cpp:337-356 | A reply with any status, text and error is read back whole, behind any earlier output |
| `RemoteFrames.ReplyTextReads` | backend/inference-worker/remoteTransport.cpp:337-356 | For every Unicode text and error, however JSON writes their characters, the worker gets status, text and error exactly, in UTF-8 |
| `RemoteFrames.RequestReads` | backend/inference-worker/remoteTransport.cpp:332-335 | The frame built of any prompt and endpoint gives back exactly those two |

## Left out

- Sockets, pipes, processes, HTTP, server-sent events and the file system: events or nondeterministic answers here.
- All of llama.cpp but the splitter and the output mapping; graph building and floating point in particular.
- `output_reorder` swaps embedding, sampling and layer-input buffers with the same loop; only the logits rows are modelled.
- BatchAllocr.Allocr.Init: the range check of token ids against the vocabulary (llama-batch.cpp:49-56) and the fields it generates when they are missing (llama-batch.cpp:73-146) are not modelled; every batch here brings its own positions, ids and output flags.
- Batches.CheckIds: ids are natural numbers here, so the same test's rejection of a negative id does not show.
- `seq_idx` and `seq_id_unq`: lookups that the splits do not read.
- Order between different sequence sets that overlap: `init` admits batches in which it is not preserved.
- BatchAllocr.Allocr.SplitSimple: the state stays sound only under the stated condition, because the source does not look at the flags inside the window.
- BatchAllocr.Allocr.SplitEqual: the caller must ask for a tail shorter than n_ubatch, which the source asserts; on a violation it aborts.
- OutputRows.Outputs.OutputReserve: the buffer is always obtained; an allocation that fails is not modelled. The sampling and embedding buffers that share the allocation are not modelled either, so of a row that no decode wrote nothing is said but that this decode left it alone.
- OutputRows.Outputs.Decode: what a failed micro-batch leaves in the memory module, and its removal from there, are not modelled.
- Decoding.DecodeBatch: whether the memory module finds room is a parameter; its retry after an optimisation, the demand that embedding contexts output every token, and calls without a memory module, which are encoded instead, are not modelled.
- The scheduler's `done` map (eviction by age and size), the duration estimate and the texts of status callbacks.
- Scheduler.Scheduler.Enqueue: assumes an id that is neither waiting nor running, which the source does not check; `SubmitNeedsFreshId` proves that the invariant needs exactly this.
- Scheduler.Scheduler.constructor: assumes a positive ageing interval, which the source does not check.
- Scheduler.Scheduler.OnQueueTimeout: the timer may fire at any moment while its job waits; that it fires after `queueTimeoutMs` is not modelled.
- RemoteFrames.ParseResponse: replies as `JSON.stringify` writes them are frames of plain keys, strings and whole numbers; a status that is not a whole number is not modelled.
- The texts of log lines and JSON status reports; queries they make of the ladder are modelled, since they refresh probe caches.
- DeviceLadders.DeviceLadder.Walk: the loops of `select` and `recoverEligibleTier` differ in one guard and are one method here.
- BackendRouters.BackendRouter.constructor: assumes no tier has an empty name, which the ladder parser ensures (deviceLadder.cpp:34-48).
- BackendRouters.BackendRouter.SetFallbackHook: that the engine runs on the active tier when the hook is installed is taken from worker.cpp:172-176, not derived.
- BackendRouters.BackendRouter.AttemptRecovery: what a hook leaves behind in the engine is not modelled, only whether it accepts.
- WorkerPools.WorkerPool.RunInference: framing of the byte stream and the last reported device are left out. Plain and streaming requests have the same effect on the pool and share one model.
- RequestRegistry.Registry.Persist: writing the temporary file and renaming it are one step, and the process id and timestamp in the payload are left out.
- CapacityPlan.PlanCapacity: reasons are names, not the texts with numbers in them.
- The RAM budget after reassignments: nothing re-checks it, so only the VRAM bound is lasting.
- JsonCodec.AppendCodePoint: shifts and masks are written as division and remainder; `OrIsSum` and `ShiftAndOr` tie the or-ed forms to sums on bit-vectors.
- Model-cache handshake, circuit breaker window, liveness classifier, vendor status mappers, argument parsing and user interfaces.
