# Verified models of the relay protocol's core

Lava consumers send relays to providers and pay for them in compute units (CU). This project models, in Dafny, the
parts of the protocol code whose correctness depends on many calls together, and proves what each part is for. Verify
it with `dafny verify dfyconfig.toml`.

| file | what it models |
|---|---|
| `ProviderSessions.dfy` | the provider's CU accounting of one project and epoch as a step system: every atomic load and every compare-and-swap is a step, any number of sessions run at once |
| `SingleProviderSession.dfy` | the same code as the objects and retry loops one thread runs, and that a thread running alone takes exactly those steps |
| `ProviderRuns.dfy` | single relays as runs of the step system, and the runs that reach its bounds |
| `ConsumerSessions.dfy`, `ConsumerSessionsWithProvider.dfy` | the consumer's accounting: a step system in which a session is unlocked before the provider entry is updated, and the objects whose methods perform those steps |
| `RelayAgreement.dfy` | one session seen from both ends, with lost, reordered and repeated messages |
| `ChainTracker.dfy`, `WantedBlocks.dfy` | the window of the last N block hashes, refreshed by reading from the tip down to the first known hash, and queries on it |
| `FinalizationConsensus.dfy`, `FinalizationProof.dfy` | grouping of reported block hashes and conflict detection; building a finalization proof from the window and checking its shape |
| `HonestProofs.dfy` | the proofs an honest provider sends over a whole run of polls: later ones are accepted, and exactly when two of them contradict each other |
| `RouterKey.dfy`, `ChainRouter.dfy` | the canonical key of a set of extensions, and the start-up check that every subset a consumer may ask for can be routed |
| `Codec.dfy` | the chain tracker's wire messages, written backwards and read forwards |
| `UnknownFields.dfy`, `WireFormat.dfy` | messages with fields the reader does not know; what the bytes are apart from reading them back, and which are refused |
| `Alerting.dfy` | suppression of alerts by occurrence, against a two-state automaton over whole histories |
| `ProviderSelection.dfy` | valid addresses, per-addon caches, resets, blocking, and the retry loop that picks providers |
| `Common.dfy`, `Sums.dfy`, `Sorting.dfy` | optional values and results, sums over sessions, sorting by a total order |

A step system is a datatype of states, a `Step` function and a `Run` over a sequence of events; its theorems hold for
every sequence of events. Where the source updates objects in place, a class has the source's fields, and each method's
`ensures` ties the new state to the step system or to a function of the old state.

Assumptions that the source leaves implicit:

- uint64 counters do not wrap around. The proofs show that no subtraction goes below zero.
- The missing-CU threshold is a real number, and the tolerated missing CU are the floor of `maxCu * threshold`.
- A block hash commits to its parent: two chains with the same hash at one height agree at all lower heights
  (`HashLinked`).
- The tracker saves at least as many blocks as the finalization distance plus the blocks of a proof
  (`protocol/rpcprovider/rpcprovider.go:402`).
- During one poll a node answers about one chain, and answers any subset of the queries.

What the proofs brought out:

- A relay refused at the CU ceiling, or one that fails, leaves the missing CU it was allowed charged to the project: the
  books are as before exactly when its signed total covered its price (`BooksAreRestoredIff`), and
  `RefusalLeavesMissingCharged` is a run after which they are not.
- The check that missing CU do not exceed used CU means that nothing is served on credit before the first payment
  (`NothingServedBeforePayment`), and that at least half of the work is paid as long as no relay fails
  (`MissingIsBackedByUsed`). A failure of the paid relay can leave served work with nothing paid
  (`FailureLeavesMissingUnbacked`).
- The pool of consumer sessions reaches one more than the configured maximum (`PoolExceedsMaximum`); `PoolSize` gives
  its size after every run.
- A lost reply leaves the provider's sum above the consumer's. `SumsEqualIff` says exactly when the sums agree, and
  `LostReplyLeavesProviderAhead` gives a run in which they do not.
- A finalization proof with no hashes at all is accepted while no block above 0 is finalized (`AcceptedExactly`).
- A proof fetched for a block the provider expects but may not have seen is built for that block and sent with the
  tracker's own latest block. The consumer's check accepts it exactly when the two coincide
  (`ProvideOptimisticProof`, `protocol/rpcprovider/rpcprovider_server.go:852-885`); `OptimisticProofIsRefused` is one it
  refuses.
- Two honest proofs of one provider contradict each other exactly when they overlap and a fork has replaced the newest
  block that was finalized at the earlier one (`HonestProofsDisagreeIff`); `DeepForkContradicts` is such a pair.
- A list cached for an addon and extensions is found again under a key that joins both. It lists supporting providers as
  long as no name is used for an addon and for an extension (`UsableSupports`); otherwise two requests can share a key
  (`SwappedNamesCollide`) that no provider need support alike (`SwappedNamesDiffer`).
- A provider counts as supporting an addon with extensions although no single endpoint of it has both
  (`SupportMayBeSplit`).
- A group of unknown fields may be closed under another number than it was opened under (`Unknown`, `closedBy`).
- A request cut between two of its numbers is read as a shorter request; cut anywhere else it is refused
  (`CutRequestIsNoticed`).
- A range relative to the latest block that reaches before the first block is inverted or shrinks to the latest block
  (`RelativeRangeResolves`).
- Router keys of names without `|` are canonical except that no name and the empty name share a key
  (`SameKeyExactly`); names that hold `|` do collide (`SeparatorCollides`).

## Model

| member | source | states |
|---|---|---|
| ProviderSessions.LimitsOf | protocol/lavasession/provider_types.go:215-217 | the tolerated missing CU are the largest whole number not above `maxCu * threshold` |
| ProviderSessions.MissingFor | protocol/lavasession/single_provider_session.go:129-141 | what the signed total leaves uncovered: the price less what the total adds, never more than the price, and zero exactly when the total covers the price |
| ProviderSessions.CuToAdd | protocol/lavasession/single_provider_session.go:139-173 | adding raises the session to the signed total, and a lower total adds nothing |
| ProviderSessions.Conservation | protocol/lavasession/single_provider_session.go:172-193 | over every interleaving the project's used CU are the sum of the sessions' CU, plus adds and subtractions in transit: no update is lost |
| ProviderSessions.NoUnderflow | protocol/lavasession/single_provider_session.go:266-300 | on every run the two subtractions of a failed relay have enough to subtract from, and no counter is negative |
| ProviderSessions.UnpaidWorkIsBounded | protocol/lavasession/provider_types.go:205-227 | whatever totals are signed, the price of all accepted relays not undone is at most the sessions' CU plus the missing CU, less those charged to relays that came to nothing; the missing CU never exceed their cap |
| ProviderSessions.UsedStaysUnderCeiling | protocol/lavasession/single_provider_session.go:245-264 | used CU never exceed `maxCu * (v + 1)` for the largest virtual epoch v passed so far, for any number of concurrent sessions |
| ProviderSessions.CompletedRelaysIncrease | protocol/lavasession/provider_session_manager.go:58-64 | a session's relay number moves exactly when a relay completes on it, then grows, and becomes the number of that relay |
| ProviderSessions.StepKeepsInv | protocol/lavasession/single_provider_session.go:117-312 | every load, compare-and-swap, acceptance, refusal, failure and completion keeps the books balanced |
| ProviderSessions.RunKeepsInv | protocol/lavasession/single_provider_session.go:117-312 | the accounting invariant holds after every run |
| ProviderSessions.MissingStaysUnderUsed | protocol/lavasession/provider_types.go:205-227 | after every run the missing CU are at most the CU that were used at some moment of it, and at most the allowance |
| ProviderSessions.MissingIsBackedByUsed | protocol/lavasession/provider_types.go:219-222 | on runs without a failed relay the missing CU never exceed the used ones, and all accepted work costs at most twice the used CU |
| ProviderSessions.NothingServedBeforePayment | protocol/lavasession/provider_types.go:219-222 | while no CU have ever been used, no relay with a price is being served or has been kept, whatever totals are signed |
| ProviderRuns.ActsAreARun | protocol/lavasession/single_provider_session.go:117-312 | a session that acts alone among others, action by action, is a run of the step system |
| ProviderRuns.RelayAlone | protocol/lavasession/single_provider_session.go:117-203 | a request with a new relay number is prepared as the sequential code does; one with an old number changes nothing |
| ProviderRuns.RelayIsServed | protocol/lavasession/single_provider_session.go:302-312 | an accepted relay that is done: session and project take up what the total adds, the rest of the price is charged as missing, and the relay number is recorded |
| ProviderRuns.RelayFails | protocol/lavasession/single_provider_session.go:280-300 | an accepted relay that fails leaves only its missing CU charged |
| ProviderRuns.RefusalLeavesMissingCharged | protocol/lavasession/single_provider_session.go:139-193 | for any k, a run in which k CU are let through as missing and the relay is then refused at the ceiling: they stay charged although no relay is left |
| ProviderRuns.FailureLeavesMissingUnbacked | protocol/lavasession/single_provider_session.go:280-300 | for any k, a run in which a relay of k CU is served unpaid next to a paid one that then fails: nothing is used and k CU are missing |
| SingleProviderSession.FailureUndoesPrepare | protocol/lavasession/single_provider_session.go:280-300 | a failure after an accepted relay restores everything but the missing CU it was allowed |
| SingleProviderSession.BooksAreRestoredIff | protocol/lavasession/single_provider_session.go:129-193 | a relay refused at the ceiling or failed leaves the books as they were exactly when its signed total covered its price (or the price was 0); one refused for missing CU always does |
| SingleProviderSession.RefusedExactly | protocol/lavasession/provider_types.go:205-227 | in plain inequalities, exactly when a relay is refused for missing CU, exactly when at the ceiling, and what an accepted one leaves |
| SingleProviderSession.SoloFailureRefines | protocol/lavasession/single_provider_session.go:280-300 | the interleaved steps of a failure, run without interference, end where the sequential failure does |
| SingleProviderSession.AcceptedIsAccountedFor | protocol/lavasession/single_provider_session.go:117-203 | an accepted relay is paid for or counted as missing; project and session move together; a refused relay changes neither |
| SingleProviderSession.SoloPrepareRefines | protocol/lavasession/single_provider_session.go:117-203 | the interleaved steps, run without interference, end where the sequential preparation does |
| SingleProviderSession.ProviderSessionsWithConsumerProject.AtomicCompareAndWriteUsedComputeUnits | protocol/lavasession/provider_types.go:180-185 | writes exactly when the known value is still there, and skips the swap when nothing would change |
| SingleProviderSession.ProviderSessionsWithConsumerProject.AtomicCompareAndWriteMissingComputeUnits | protocol/lavasession/provider_types.go:198-203 | the same for the missing CU |
| SingleProviderSession.ProviderSessionsWithConsumerProject.SafeAddMissingComputeUnits | protocol/lavasession/provider_types.go:205-227 | adds the missing CU exactly when the total next to what is used stays within the allowance, and within the cap and what is used |
| SingleProviderSession.SingleProviderSession.ValidateAndAddUsedCU | protocol/lavasession/single_provider_session.go:245-264 | adds exactly when the ceiling of the virtual epoch allows it |
| SingleProviderSession.SingleProviderSession.ValidateAndSubUsedCU | protocol/lavasession/single_provider_session.go:266-273 | the retry loop subtracts exactly once |
| SingleProviderSession.SingleProviderSession.PrepareSessionForUsage | protocol/lavasession/single_provider_session.go:117-203 | verdict and new state are those of the specification `Prepared`; a session that is not locked is refused untouched |
| SingleProviderSession.SingleProviderSession.OnSessionFailure | protocol/lavasession/single_provider_session.go:280-300 | session and project give back the relay's CU, the session is unlocked |
| SingleProviderSession.SingleProviderSession.OnSessionDone | protocol/lavasession/single_provider_session.go:302-312 | the relay number is recorded and the CU stay |
| ConsumerSessions.Conservation | protocol/lavasession/consumer_session_manager.go:404-418 | on every run the used CU are the sum over sessions of CU and pending CU, plus what was released and not yet subtracted |
| ConsumerSessions.DecreaseNeverGoesNegative | protocol/lavasession/consumer_types.go:290-298 | although sessions are unlocked before the provider entry is updated, no decrease is ever refused |
| ConsumerSessions.SessionsInUseAreUsable | protocol/lavasession/consumer_session_manager.go:675-739 | a relay never runs on a block-listed session, and a usable session has at most three errors in a row |
| ConsumerSessions.PoolSize | protocol/lavasession/consumer_types.go:327-379 | after every run the pool holds the smaller of the number of creations and the configured maximum plus one |
| ConsumerSessions.PoolExceedsMaximum | protocol/lavasession/consumer_types.go:327-379 | every run of more creations than the maximum reaches the maximum plus one |
| ConsumerSessions.SessionsRemember | protocol/lavasession/consumer_session_manager.go:675-739 | after every run a session's relay number counts the relays charged on it, its errors are those since the last relay done, and it is block-listed exactly for a failure out of sync, one failure too many in a row, or misuse of its lock |
| ConsumerSessions.StartsUnderCeiling | protocol/lavasession/consumer_session_manager.go:403-418 | a usable session takes a relay exactly under the written ceiling, and is left as it was above it |
| ConsumerSessions.RelayIsDone | protocol/lavasession/consumer_session_manager.go:771-797 | a relay that is done: its CU are in the session and in the provider entry, its number is counted, errors start over |
| ConsumerSessions.RelayIsReleased | protocol/lavasession/consumer_session_manager.go:658-739 | a relay that failed or was not used: after its settlement all CU are as before |
| ConsumerSessions.UsedStaysUnderCeiling | protocol/lavasession/consumer_types.go:271-280 | the consumer's used CU never exceed the ceiling of the largest virtual epoch charged |
| ConsumerSessions.StepKeepsInv | protocol/lavasession/consumer_session_manager.go:658-797 | taking, charging, ending and settling relays in any order keep the consumer's books |
| ConsumerSessions.RunKeepsInv | protocol/lavasession/consumer_session_manager.go:317-470 | the consumer's invariant holds after every run |
| ConsumerSessionsWithProvider.ReleaseAndSettleDoes | protocol/lavasession/consumer_session_manager.go:658-739 | an unused or failed relay, without interference, takes exactly its CU out of session and provider entry |
| ConsumerSessionsWithProvider.LimitIsMetIff | protocol/lavasession/consumer_types.go:335-357 | the limit is met exactly at a session of the endpoint before which that many block-listed ones were met |
| ConsumerSessionsWithProvider.Provider.ValidateComputeUnits | protocol/lavasession/consumer_types.go:256-268 | fails exactly above the ceiling |
| ConsumerSessionsWithProvider.Provider.AddUsedComputeUnits | protocol/lavasession/consumer_types.go:271-280 | adds exactly when below the ceiling |
| ConsumerSessionsWithProvider.Provider.DecreaseUsedComputeUnits | protocol/lavasession/consumer_types.go:290-298 | refuses exactly when the result would be negative |
| ConsumerSessionsWithProvider.Provider.GetConsumerSessionInstanceFromEndpoint | protocol/lavasession/consumer_types.go:327-379 | for every iteration order, says exactly where the search stops: at the first free usable session, which is locked, or at the limit on block-listed ones; a search that passes creates a session unless the pool is full |
| ConsumerSessionsWithProvider.Provider.ChargeSession | protocol/lavasession/consumer_session_manager.go:403-418 | performs the charge and stamp steps, or unlocks the session |
| ConsumerSessionsWithProvider.Provider.OnSessionDone | protocol/lavasession/consumer_session_manager.go:771-797 | performs the completion step, as a finished subscription does; misuse of the lock block-lists the session |
| ConsumerSessionsWithProvider.Provider.OnSessionFailure | protocol/lavasession/consumer_session_manager.go:675-739 | performs release and settlement of a failed relay and keeps the invariant; the subtraction cannot fail |
| ConsumerSessionsWithProvider.Provider.OnSessionUnUsed | protocol/lavasession/consumer_session_manager.go:658-672 | performs release and settlement of an unused relay and keeps the invariant |
| RelayAgreement.ServeIsPrepare | protocol/lavasession/single_provider_session.go:117-203 | the serving step of the two-party model is the provider's preparation whenever its counters let the relay through |
| RelayAgreement.ServedIffAcquired | protocol/lavasession/provider_session_manager.go:58-64 | a request is served exactly when an idle session of the provider takes its relay number |
| RelayAgreement.SumsArePrices | protocol/lavaprotocol/request_builder.go:81-95 | on every schedule: the consumer's sum is what its completed relays cost, each total signed is what those completed before cost plus the relay's own price, and the provider's sum covers what was completed |
| RelayAgreement.ScheduleIsServed | protocol/lavaprotocol/request_builder.go:81-95 | when each relay is delivered in full or lost altogether, both sums are the prices of those delivered, however many are lost in between |
| RelayAgreement.FailureIsUndoneInTime | protocol/lavasession/provider_session_manager.go:228-238 | a failure gives back the CU while its epoch is valid; afterwards the relay counts as served |
| RelayAgreement.SumsAgree | protocol/lavaprotocol/request_builder.go:81-95 | on every schedule: consumer sum ≤ provider sum ≤ the largest total ever signed |
| RelayAgreement.SumsAreTopTotals | protocol/lavasession/single_provider_session.go:172-199 | each side's sum is the largest total signed among the relays it closed |
| RelayAgreement.SumsEqualIff | protocol/lavasession/consumer_session_manager.go:771-797 | the sums are equal exactly when every relay the provider kept was signed for nothing or is topped by a relay the consumer completed, in particular when both saw the same outcomes |
| RelayAgreement.ClosedRelaysIncrease | protocol/lavasession/provider_session_manager.go:58-64 | relays are closed in increasing order on both sides, and the consumer only completes what the provider kept |
| RelayAgreement.LostReplyLeavesProviderAhead | protocol/lavasession/consumer_session_manager.go:675-739 | a concrete run with one lost reply after which the sums differ |
| RelayAgreement.RunKeepsInv | protocol/lavasession/provider_session_manager.go:228-238 | the two-party invariant holds after every schedule, including failures reported after the epoch is over |
| WantedBlocks.LatestArgToBlockNum | protocol/chaintracker/wanted_block_data.go:145-158 | a relative request resolves to a block of 0..latest, the one asked for exactly when the chain reaches back to it, and otherwise the latest block; an absolute one stands for itself |
| WantedBlocks.RelativeRangeResolves | protocol/chaintracker/wanted_block_data.go:145-158 | a relative range keeps its length exactly when the chain reaches back to its first block; otherwise it starts at the latest block and is inverted exactly when its end was met |
| WantedBlocks.AbsoluteQuery | protocol/chaintracker/wanted_block_data.go:21-58 | a query by numbers asks for exactly its range and its specific block, and can be answered exactly when all of them are saved |
| WantedBlocks.NothingApplicable | protocol/chaintracker/wanted_block_data.go:21-58 | without one end of the range only the specific block is asked for; without that too, nothing can be answered |
| WantedBlocks.NewBlockRange | protocol/chaintracker/wanted_block_data.go:103-122 | succeeds exactly for a range inside the saved blocks, and tells an inverted range from one out of bounds |
| WantedBlocks.RangeIndexes | protocol/chaintracker/wanted_block_data.go:124-130 | the indexes of the range, each once, ascending |
| WantedBlocks.WantedBlocksData.New | protocol/chaintracker/wanted_block_data.go:21-58 | succeeds exactly when the query can be answered, and then every block asked for is in exactly one of the two ranges |
| WantedBlocks.WantedBlocksData.IsWanted | protocol/chaintracker/wanted_block_data.go:83-97 | true exactly for the blocks asked for |
| WantedBlocks.WantedBlocksData.IterationIndexes | protocol/chaintracker/wanted_block_data.go:61-80 | strictly ascending, in bounds, and exactly the range and the specific block, without duplicates |
| ChainTracker.SearchFollowsForkDepth | protocol/chaintracker/chain_tracker.go:230-260 | on a full window the overlap search stops exactly at the newest saved block still on the chain; the mismatch and too-few-blocks errors cannot occur |
| ChainTracker.IncrementalIsFullRead | protocol/chaintracker/chain_tracker.go:163-226 | for any gap and any fork depth, splicing saved and newly read hashes equals reading all N hashes |
| ChainTracker.IncrementalIsContiguous | protocol/chaintracker/chain_tracker.go:163-203 | a refresh always leaves N consecutive blocks that end at the latest one |
| ChainTracker.SameTipSameWindow | protocol/chaintracker/chain_tracker.go:263-284 | equal newest hashes mean equal windows, so not refetching is right |
| ChainTracker.Tracker.ReadHash | protocol/chaintracker/chain_tracker.go:210-223 | one query: it succeeds exactly when answered, and an overlap is reported exactly at the fork depth |
| ChainTracker.Tracker.ReadHashes | protocol/chaintracker/chain_tracker.go:205-226 | error-free reading costs exactly min(N, gap + fork depth + 1) queries, fills the new part of the window, and says what to keep |
| ChainTracker.Tracker.KeepIncremental | protocol/chaintracker/chain_tracker.go:163-203 | joining the kept and the read part gives exactly the incremental window, full and contiguous |
| ChainTracker.Tracker.ReplaceBlocksQueue | protocol/chaintracker/chain_tracker.go:188-203 | joins the kept part and the new part, or takes the new one whole |
| ChainTracker.Tracker.FetchAllPreviousBlocks | protocol/chaintracker/chain_tracker.go:163-186 | succeeds exactly when the needed queries are answered and the chain is not shorter; then the window is the spliced one, otherwise nothing changes |
| ChainTracker.Tracker.ForkChanged | protocol/chaintracker/chain_tracker.go:263-284 | compares the newest saved hash with the node's |
| ChainTracker.Tracker.FetchAllPreviousBlocksIfNecessary | protocol/chaintracker/chain_tracker.go:292-347 | one poll moves the tracker as `NextView` says, and its result tells refreshed, forked, backwards and up to date apart; a fully answered poll that does not go back is refreshed or up to date |
| ChainTracker.Tracker.GetLatestBlockData | protocol/chaintracker/chain_tracker.go:79-107 | answers exactly the answerable queries, with exactly the blocks asked for, oldest first; the invalid-iteration error is unreachable |
| ChainTracker.RunPolls | protocol/chaintracker/chain_tracker.go:292-347 | over any run of polls the window stays full and contiguous and the latest block never decreases |
| ChainTracker.RunKeepsWindow | protocol/chaintracker/chain_tracker.go:163-260 | over any run, with forks and failures, the window equals a full read of the chain of the last refresh |
| ChainTracker.PollLeavesNodesWindow | protocol/chaintracker/chain_tracker.go:292-347 | a poll that refreshes, or finds nothing new, leaves exactly the node's own window |
| ChainTracker.AnsweredPollIsCurrent | protocol/chaintracker/chain_tracker.go:292-347 | after any run, a poll that learns a latest block not below the saved one and is answered throughout leaves the node's own window, also when only a fork at the same height happened |
| FinalizationConsensus.FirstAgreeing | protocol/lavaprotocol/finalization_consensus.go:113-131 | the first group a report does not contradict |
| FinalizationConsensus.RecordKeepsHashes | protocol/lavaprotocol/finalization_consensus.go:79-95 | a group's hash for a block never changes once set |
| FinalizationConsensus.HashesNeverChange | protocol/lavaprotocol/finalization_consensus.go:79-136 | over any reports within an epoch, every group stays in its place and keeps every hash it has |
| FinalizationConsensus.RecordStandsFor | protocol/lavaprotocol/finalization_consensus.go:79-136 | the groups hold exactly what was reported: every report is in a group, and every hash of a group was reported |
| FinalizationConsensus.RunStandsFor | protocol/lavaprotocol/finalization_consensus.go:103-195 | that holds for the current and the previous epoch after every history |
| FinalizationConsensus.ConflictDetectionIsExact | protocol/lavaprotocol/finalization_consensus.go:103-156 | after any history a report conflicts exactly when it disagrees on a block with a report of the current or previous epoch |
| FinalizationConsensus.GroupsPairwiseConflict | protocol/lavaprotocol/finalization_consensus.go:113-136 | any two groups of an epoch contradict each other |
| FinalizationConsensus.GroupsListTheirProviders | protocol/lavaprotocol/finalization_consensus.go:79-95 | after any history each recorded report is contained in its group, and a group's agreeing providers are exactly those whose reports it took in, each with the last finalized block of its latest report there |
| FinalizationConsensus.EpochIsLargest | protocol/lavaprotocol/finalization_consensus.go:182-195 | after any history the epoch is the largest one announced |
| FinalizationConsensus.DiscrepancyChecker | protocol/lavaprotocol/finalization_consensus.go:158-180 | iterating only the smaller map finds every disagreement |
| FinalizationConsensus.InsertProviderToConsensus | protocol/lavaprotocol/finalization_consensus.go:79-95 | the loop merges the report into the group |
| FinalizationConsensus.Consensus.UpdateFinalizedHashes | protocol/lavaprotocol/finalization_consensus.go:103-156 | records the report in the first fitting group or a new one, and answers with a conflict exactly when some current or previous group contradicts it |
| FinalizationConsensus.Consensus.NewEpoch | protocol/lavaprotocol/finalization_consensus.go:182-195 | a newer epoch moves current groups to previous; others change nothing |
| FinalizationProof.IsFinalizedBlock | x/spec/types/types.go:120-134 | finalized means non-negative and at least the distance behind the latest block |
| FinalizationProof.NeighboursShowGaps | protocol/lavaprotocol/response_builder.go:118-126 | comparing neighbours in the sorted heights finds every gap |
| FinalizationProof.CollectBlocks | protocol/lavaprotocol/response_builder.go:96-115 | stops exactly at a height that is not finalized; otherwise collects each height once, and their maximum from 0 up |
| FinalizationProof.CheckConsecutive | protocol/lavaprotocol/response_builder.go:118-126 | accepts exactly the maps without gaps |
| FinalizationProof.VerifyFinalizationDataIntegrity | protocol/lavaprotocol/response_builder.go:96-145 | accepts exactly the finalized, gapless, up-to-date maps of a reply not older than the session, and says which check failed first |
| FinalizationProof.AcceptedExactly | protocol/lavaprotocol/response_builder.go:96-145 | a nonempty map is accepted exactly when its keys are a consecutive non-negative run that ends at latest minus distance; an empty one exactly when no block above 0 is finalized |
| FinalizationProof.BuildProofFromBlocks | protocol/chaintracker/utils.go:31-37 | the map holds the listed blocks |
| FinalizationProof.FindRequestedBlockHash | protocol/chaintracker/utils.go:17-29 | the loop computes the requested hash and the map of `Found` |
| FinalizationProof.RequestedBlockIsSetApart | protocol/chaintracker/utils.go:17-29 | from a range and one more block, exactly the range's hashes are collected, whether or not it covers that block, and that block's hash is found |
| FinalizationProof.FoundAddsTo | protocol/chaintracker/utils.go:17-29 | what is found is added to the map passed in |
| FinalizationProof.CountShowsCover | protocol/chaintracker/utils.go:21-23 | the number of answers tells whether the range covers the requested block |
| FinalizationProof.AnswersListRangeAndBlock | protocol/chaintracker/chain_tracker.go:79-107 | what the tracker answers to a range and a specific block lists exactly those blocks in ascending order |
| FinalizationProof.AnswersGiveProofAndHash | protocol/chaintracker/utils.go:17-29 | from these answers the search collects exactly the proof of the range, and finds the saved hash of the specific block |
| FinalizationProof.ProvideProof | protocol/rpcprovider/rpcprovider_server.go:996-1004 | end to end: with a full window of non-negative blocks the query succeeds, the map has exactly the range's keys and hashes, and is accepted against any older session |
| FinalizationProof.ProvideProofAndHash | protocol/chaintracker/chain_tracker_test.go:621-626 | query and search combined, as the chain tracker's own test does (the provider server asks for the specific block on its own): succeeds exactly on a window of non-negative blocks that holds the block; then the map is the proof of the range, the hash is the saved one, and the proof is accepted in every session not newer |
| FinalizationProof.ProvideOptimisticProof | protocol/rpcprovider/rpcprovider_server.go:852-885 | a proof for an expected block is accepted exactly when the tracker's latest block is that block |
| HonestProofs.LaterHonestProofIsAccepted | protocol/lavaprotocol/response_builder.go:96-145 | over any run of polls, with forks and failed queries, a later proof is accepted after an earlier one |
| HonestProofs.HonestProofsDisagreeIff | protocol/lavaprotocol/finalization_consensus.go:158-180 | the proofs of two moments of a run contradict each other exactly when they overlap and the newest block finalized at the first moment was replaced by the second |
| HonestProofs.DeepForkContradicts | protocol/lavaprotocol/finalization_consensus.go:158-180 | two polls around a fork deeper than the distance, and the two honest proofs that contradict each other |
| HonestProofs.OptimisticProofIsRefused | protocol/rpcprovider/rpcprovider_server.go:852-885 | a proof for the expected block that is refused with the tracker's latest block and accepted with the expected one |
| RouterKey.SameNamesSameKey | protocol/lavasession/router_key.go:14-26 | order and repetitions do not matter |
| RouterKey.NewRouterKey | protocol/lavasession/router_key.go:14-26 | whatever order the set is iterated in, the result is the key of the sorted distinct names |
| RouterKey.SameKeyExactly | protocol/lavasession/router_key.go:14-26 | for names without the separator, equal keys mean equal sets, except no name and the empty name |
| RouterKey.KeyIsCanonical | protocol/lavasession/router_key.go:14-26 | for nonempty names without the separator, keys are equal exactly when the sets are |
| RouterKey.KeyInOrder | protocol/lavasession/router_key.go:14-26 | names given in any order and repeatedly stand in the key once, in order, between separators |
| RouterKey.SeparatorCollides | protocol/lavasession/router_key.go:25 | two names and the name that joins them have the same key |
| ChainRouter.Kept | protocol/chainlib/base_chain_parser.go:175-199 | the separated lists have no duplicates and exactly the names of their kind |
| ChainRouter.SeparateAddonsExtensions | protocol/chainlib/base_chain_parser.go:175-199 | splits into addons and extensions in order of first occurrence, and fails exactly on an unknown name |
| ChainRouter.Requirements.PopulateRequiredForAddon | protocol/chainlib/chain_router.go:151-174 | adds the requirement of every subset of the extensions and nothing else, although it returns early on marked sets and marks a set before its subsets |
| ChainRouter.SiblingsAreClosed | protocol/chainlib/chain_router.go:161-173 | what earlier recursive calls marked is downward closed, so the early return of the next one skips nothing |
| ChainRouter.AllSubsetsReached | protocol/chainlib/chain_router.go:168-173 | removing one name at a time reaches every subset |
| ChainRouter.BatchNodeUrlsByServices | protocol/chainlib/chain_router.go:73-90 | each batch holds exactly the urls of its key, in order |
| ChainRouter.UpdateRouteCombinations | protocol/chainlib/chain_router.go:105-118 | marks all subsets required and the full set supported, for each addon |
| ChainRouter.GetChainProxySupporting | protocol/chainlib/chain_router.go:34-52 | finds a proxy exactly when an entry of these extensions supports the addon |
| ChainRouter.SupportedIsRequired | protocol/chainlib/chain_router.go:105-118 | whatever is supported is required |
| ChainRouter.SizesShowCompleteness | protocol/chainlib/chain_router.go:135-137 | comparing the two sizes detects exactly a missing requirement |
| ChainRouter.AddBatch | protocol/chainlib/chain_router.go:98-134 | one batch adds its requirements, support and entry, or fails for an unknown name or an unreachable proxy |
| ChainRouter.CompleteServes | protocol/chainlib/chain_router.go:34-52 | in a complete router every subset of a url's extensions is served with each of the url's addons |
| ChainRouter.RoutedToMatchingUrls | protocol/chainlib/chain_router.go:19-52 | every url of the entry a request is routed to lists the addon asked for, and has exactly the extensions asked for |
| ChainRouter.ServedIffSomeUrl | protocol/chainlib/chain_router.go:34-52 | a request is served exactly when some url lists the addon and has exactly these extensions |
| ChainRouter.CompleteExactly | protocol/chainlib/chain_router.go:135-137 | the start-up check passes exactly when for whatever may be asked of any url there is a url with the addon and exactly these extensions |
| ChainRouter.NewChainRouter | protocol/chainlib/chain_router.go:92-144 | is refused for missing requirements exactly when some subset is unsupported; a router that is made holds exactly the urls' entries and serves whatever they may be asked |
| Codec.SovIsVarintSize | protocol/chaintracker/chain_tracker.pb.go:625-627 | the size computed from the bit length is the varint's byte count |
| Codec.EncodeVarint | protocol/chaintracker/chain_tracker.pb.go:547-557 | writes exactly the varint in front of the offset and nothing else |
| Codec.NumberSize | protocol/chaintracker/chain_tracker.pb.go:558-575 | the size of an optional number field is the length of its encoding |
| Codec.LatestBlockDataSize | protocol/chaintracker/chain_tracker.pb.go:558-575 | Size is the length of the encoding |
| Codec.BlockStoreSize | protocol/chaintracker/chain_tracker.pb.go:609-623 | Size is the length of the encoding |
| Codec.ResponseSize | protocol/chaintracker/chain_tracker.pb.go:591-607 | Size is the length of the encoding, for any number of blocks |
| Codec.MarshalLatestBlockDataTo | protocol/chaintracker/chain_tracker.pb.go:414-435 | writes exactly the encoding at the end of the buffer and leaves the rest |
| Codec.MarshalBlockStoreTo | protocol/chaintracker/chain_tracker.pb.go:527-545 | the same for a block |
| Codec.MarshalResponseTo | protocol/chaintracker/chain_tracker.pb.go:485-510 | the same for the response, with its backwards loop over the blocks |
| Codec.MarshalLatestBlockData | protocol/chaintracker/chain_tracker.pb.go:399-407 | the buffer of Size bytes is exactly filled with the encoding |
| Codec.MarshalResponse | protocol/chaintracker/chain_tracker.pb.go:470-478 | the same for the response |
| Codec.ReadVarintChainTracker | protocol/chaintracker/chain_tracker.pb.go:637-650 | the shift loop computes the number modulo 2^64, and reports overflow and end of input as the specification does |
| Codec.SkipChainTracker | protocol/chaintracker/chain_tracker.pb.go:1030-1101 | skips one field of any wire type with nested groups, and stops on every input |
| Codec.ReadField | protocol/chaintracker/chain_tracker.pb.go:634-731 | tag, wire type, lengths and their overflow checks, for any input |
| Codec.UnmarshalLatestBlockData | protocol/chaintracker/chain_tracker.pb.go:631-737 | decodes or reports the first error, on arbitrary bytes |
| Codec.UnmarshalBlockStore | protocol/chaintracker/chain_tracker.pb.go:929-1029 | decodes or reports the first error, on arbitrary bytes |
| Codec.UnmarshalResponse | protocol/chaintracker/chain_tracker.pb.go:826-928 | decodes or reports the first error, nested blocks included |
| Codec.GroupsOfVarint | protocol/chaintracker/chain_tracker.pb.go:547-557 | reading back a varint gives the number and the index after it |
| Codec.LatestBlockDataRoundTrip | protocol/chaintracker/chain_tracker.pb.go:631-737 | decoding an encoded request gives it back, for all int64 values |
| Codec.BlockStoreRoundTrip | protocol/chaintracker/chain_tracker.pb.go:929-1029 | decoding an encoded block gives it back, for any hash bytes |
| Codec.ResponseRoundTrip | protocol/chaintracker/chain_tracker.pb.go:826-928 | decoding an encoded response gives it back, for any list of blocks |
| UnknownFields.SkipsExactlyTheField | protocol/chaintracker/chain_tracker.pb.go:1030-1101 | skipping finds exactly the end of any unknown field: numbers, 8 or 4 bytes, bytes with a length, and groups to any depth |
| UnknownFields.FieldIsSkipped | protocol/chaintracker/chain_tracker.pb.go:1050-1097 | at any depth of groups a field is stepped over up to its last byte |
| UnknownFields.RequestSurvivesUnknownFields | protocol/chaintracker/chain_tracker.pb.go:631-737 | a request with unknown fields in front of, between and behind its numbers decodes to the request |
| UnknownFields.StoreSurvivesUnknownFields | protocol/chaintracker/chain_tracker.pb.go:929-1029 | the same for a block |
| UnknownFields.ResponseSurvivesUnknownFields | protocol/chaintracker/chain_tracker.pb.go:826-928 | the same for a response, with unknown fields also inside and between its blocks |
| WireFormat.WordIsTwosComplement | protocol/chaintracker/chain_tracker.pb.go:414-435 | a negative number is written as its two's complement |
| WireFormat.VarintDigits | protocol/chaintracker/chain_tracker.pb.go:547-557 | each byte of a varint is a group of seven bits, lowest first, and its high bit says whether more follows |
| WireFormat.RequestBytes | protocol/chaintracker/chain_tracker.pb.go:414-435 | the bytes of a request: its numbers under the tags 8, 16 and 24 |
| WireFormat.BlockBytes | protocol/chaintracker/chain_tracker.pb.go:527-545 | the bytes of a block: its number under the tag 8, its hash under the tag 18 |
| WireFormat.ResponseBytes | protocol/chaintracker/chain_tracker.pb.go:485-510 | the bytes of a response: the latest block under the tag 8, each block under the tag 18 |
| WireFormat.BadNumber | protocol/chaintracker/chain_tracker.pb.go:637-650 | a number that is cut off is an unexpected end, one that goes on for ten bytes an overflow |
| WireFormat.TagIsChecked | protocol/chaintracker/chain_tracker.pb.go:651-658 | closing tags, the field number 0 and wrong wire types are refused, each with its own error |
| WireFormat.BadLength | protocol/chaintracker/chain_tracker.pb.go:1000-1013 | a length past the end of the data is an unexpected end, one past the largest index an invalid length |
| WireFormat.UnclosedGroup | protocol/chaintracker/chain_tracker.pb.go:1085-1101 | a group that is not closed is an unexpected end |
| WireFormat.CutFixedField | protocol/chaintracker/chain_tracker.pb.go:1066-1095 | an unknown field whose 8 or 4 bytes are not all there is an unexpected end |
| WireFormat.CutRequestIsNoticed | protocol/chaintracker/chain_tracker.pb.go:631-737 | any prefix of a request decodes to the whole numbers it holds, or is refused when it ends inside one |
| Alerting.OnAfterAlert | protocol/monitoring/alerting.go:125-146 | an alerting round keeps the automaton on, or turns it on as the threshold-th in a row |
| Alerting.OnAfterClear | protocol/monitoring/alerting.go:436-461 | a clear round keeps it on unless it is the threshold-th in a row |
| Alerting.CountersShowState | protocol/monitoring/alerting.go:436-461 | the two counters show exactly the automaton's state and the lengths of the current runs |
| Alerting.Alerting.FilterOccurenceSuppresedAlerts | protocol/monitoring/alerting.go:125-146 | counts every attribute and lets through those at the threshold; a threshold of one or less lets all through |
| Alerting.Alerting.ReviewCounts | protocol/monitoring/alerting.go:436-456 | the end-of-round loop: which counters are reset, raised, or due for deletion |
| Alerting.Alerting.SendRecoveryAlerts | protocol/monitoring/alerting.go:197-216 | exactly the listed entries whose count had reached the threshold |
| Alerting.Alerting.FinishRound | protocol/monitoring/alerting.go:436-460 | review, recovery and deletion together |
| Alerting.Alerting.CheckHealthResults | protocol/monitoring/alerting.go:409-460 | over any rounds an alert goes out exactly when raised now with its automaton on, and a recovery exactly at each switch-off |
| ProviderSelection.GetAllProviders | protocol/lavasession/common.go:144-153 | all addresses that are not ignored, in order |
| ProviderSelection.PairingListIsEmpty | protocol/lavasession/consumer_session_manager.go:475-492 | the count shortcut reports empty exactly when all valid addresses are ignored |
| ProviderSelection.SupportsExactly | protocol/lavasession/consumer_types.go:170-199 | a provider supports a request exactly when one endpoint has the addon, if any is asked for, and one has all the extensions |
| ProviderSelection.SupportMayBeSplit | protocol/lavasession/consumer_types.go:170-199 | a provider that supports an addon with an extension though no endpoint of it has both |
| ProviderSelection.ConsumerSessionManager.RemoveAddonAddresses | protocol/lavasession/consumer_session_manager.go:102-113 | purges all cached lists, or empties one |
| ProviderSelection.ConsumerSessionManager.CalculateAddonValidAddresses | protocol/lavasession/consumer_session_manager.go:116-124 | the valid addresses whose providers support addon and extensions; each is a key of the pairing |
| ProviderSelection.ConsumerSessionManager.GetValidAddresses | protocol/lavasession/consumer_session_manager.go:127-133 | the cached list, or the computed one when none is cached; either way the providers support the addon and the extensions, if the requests of the epoch use no name for an addon and for an extension |
| ProviderSelection.ConsumerSessionManager.UsableSupports | protocol/lavasession/consumer_session_manager.go:102-133 | cached or not, every usable address belongs to a provider that supports the request, within one vocabulary |
| ProviderSelection.SameKeySameRequest | protocol/lavasession/router_key.go:14-26 | within one vocabulary of proper names, addons apart from extensions, equal cache keys mean the same addon and the same set of extensions |
| ProviderSelection.SwappedNamesCollide | protocol/lavasession/router_key.go:14-26 | an addon and an extension that swap their names share a cache key |
| ProviderSelection.SwappedNamesDiffer | protocol/lavasession/consumer_session_manager.go:116-133 | a provider can support one of the two requests and not the other |
| ProviderSelection.ConsumerSessionManager.ComputeCache | protocol/lavasession/consumer_session_manager.go:293-302 | the list is computed anew and stored under its key; every cached list still holds valid addresses that support what it was computed for |
| ProviderSelection.ConsumerSessionManager.CacheAddonAddresses | protocol/lavasession/consumer_session_manager.go:293-302 | caching does not change what is usable, and keeps the invariant |
| ProviderSelection.ConsumerSessionManager.SetValidAddressesToDefaultValue | protocol/lavasession/consumer_session_manager.go:238-264 | all addresses of the pairing, or those that support the addon in addition, become valid |
| ProviderSelection.ConsumerSessionManager.ResetValidAddresses | protocol/lavasession/consumer_session_manager.go:281-291 | only an empty list is reset, and then exactly the supporting providers are usable |
| ProviderSelection.ConsumerSessionManager.ValidatePairingListNotEmpty | protocol/lavasession/consumer_session_manager.go:306-313 | afterwards some address is usable if any provider of the pairing supports the request |
| ProviderSelection.ConsumerSessionManager.RemoveAddressFromValidAddresses | protocol/lavasession/consumer_session_manager.go:599-609 | removes exactly that address and purges the caches, or reports it missing |
| ProviderSelection.ConsumerSessionManager.BlockProvider | protocol/lavasession/consumer_session_manager.go:614-641 | takes effect exactly in the current epoch |
| ProviderSelection.ConsumerSessionManager.UpdateAllProviders | protocol/lavasession/consumer_session_manager.go:54-94 | a newer epoch replaces pairing, valid addresses and caches; an older one changes nothing |
| ProviderSelection.ConsumerSessionManager.GetValidProviderAddresses | protocol/lavasession/consumer_session_manager.go:473-518 | what the optimizer offers, or the empty-list error, in exactly these cases |
| ProviderSelection.ConsumerSessionManager.SearchProviders | protocol/lavasession/consumer_session_manager.go:538-596 | whatever is picked is usable, fits and was not ignored at the start; never more are picked than were offered at first, and fewer only when no more can be had; it fails exactly when there is none |
| ProviderSelection.ConsumerSessionManager.GetValidConsumerSessionsWithProvider | protocol/lavasession/consumer_session_manager.go:520-596 | the retry loop stops, never meets an address without a provider, picks only usable providers that fit, and as many as the first offer held unless no more can be had; asked for all, it picks all; within one vocabulary each picked provider has endpoints for the addon and the extensions; it fails exactly when none is left |

## Left out

- Badge sessions: a badge refusal returns after the project's counter was raised, so conservation is stated for sessions without a badge.
- Data reliability sessions: every project is registered without them.
- `UpdateSessionCU`: it is documented as not free of races and does not check the ceiling.
- Epoch-keyed maps of the provider session manager (`UpdateEpoch`, `filterOldEpochEntries`): only the effect of a past epoch on a failed relay is modelled.
- Lost updates by weak memory: loads and compare-and-swaps are atomic steps in one total order.
- Endpoint connections, reconnect callbacks, reporting of providers and probes in `GetSessions` and `blockProvider`: input and output.
- Whether a failed relay also blocks or reports its provider: the model has the two operations, not the choice between them.
- The provider optimizer: a parameter that only offers valid addresses that are not ignored; whether compute units suffice is a fixed set during one selection.
- Lists cached for other addons are not refreshed when an addon is reset; the model keeps that, and states that cached addresses are valid and support what they were cached for.
- Random session ids and quality-of-service reports: no theorem depends on them; a session is known by its index.
- Polling timers, callbacks, block-gap statistics and initial retries of the chain tracker: wall-clock behaviour.
- int64 overflow of block heights: heights are integers.
- A group of `FinalizationConsensus` shares its first report's map with the caller in the source; the model copies it.
- Signatures, timestamps and reply metadata in finalization data, and the consistency check on seen blocks: foreign code or independent of the shape check.
- `sort.Slice` and `sort.Strings`: modelled by an insertion sort with the same contract.
- Duplicate provider addresses in one pairing list: the count shortcut and the caches are stated for distinct addresses.
- Proxies, connections and node messages of the router: an entry is known by the urls of its batch, and a set says which batches cannot be connected.
- ChainRouter.NewChainRouter: stated for configured names without `|`, because the keys of other names collide (`SeparatorCollides`).
- `GetLatestBlockNumResponse`, unknown-field preservation and reflection in the wire code: the first is the same pattern as the request message.
- Messages are values in `Codec`: decoding into an object shared with others is not captured.
- Buffers and inputs of 2^63 bytes or more: lengths are assumed to fit an int64 where the encoder converts them.
- Alerting.Alerting.CheckHealthResults: stated for rounds in which an alert is raised at most once per entity, as the health checks do; the counting method itself is not restricted.
- Suppression by time and the cache behind it: they depend on a library's eviction and on wall-clock time.
