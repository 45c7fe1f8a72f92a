# Verified core of the modified beacon node and its attacker service

A Dafny model of the hardest logic of the repository, file by file, with machine-checked
theorems about it. Everything is a statement about the model: nothing here executes the node.

`dafny verify dfyconfig.toml` checks the whole project.

## What is modelled

| area | files | main results |
|---|---|---|
| Event feed | `CaseList`, `Feed`, `FeedProtocol`, `FeedProgress` | exactly-once delivery under every schedule of sends and removals; `find` never misses over every interleaving; a Send can always end and reach everybody |
| Multilock | `LockKeys`, `Multilock`, `MultilockRuns`, `MultilockClean`, `MultilockCalls` | token conservation, mutual exclusion, legal channel use, no cycle of waiters, deadlock freedom; which keys a Clean takes away; a free Lock succeeds and its Unlock leaves nothing behind |
| RPC client | `JsonRpc`, `RequestOps`, `RpcDispatch`, `RpcDelivery`, `RpcStranding` | one send and one close per request over every run; which reads answer whom, and what the caller of an accepted request gets; exactly when nobody can end a request any more, and which steps cause it |
| RPC server | `BatchBuffer`, `BatchRuns`, `BatchAnswers`, `Notifications`, `Forwarding` | one write per batch, complete or a prefix, message by message what it holds; notification order; the bounded forwarding buffer |
| Blob availability | `BlobNotifier`, `BlobAvailability`, `BlobRuns`, `BlobOutcomes` | what every check answers from the events since, nil means persisted, a check whose blobs are persisted can return nil, no lost notification, the send outside the lock never blocks |
| Fork choice | `ForkTree`, `ForkPruning`, `ForkChoice`, `ForkChoiceRuns`, `ForkChoiceVotes`, `ForkChoiceAdmission`, `ForkChoiceHead`, `ForkChoiceChain`, `ForkChoiceStore` | lowest common ancestor, target pointers refine checkpoint search, exact pruning, exactly which blocks the available-attestation rule makes stable over every run, when a chain arrives, how the head moves |
| Chain walks and caches | `ChainWalks`, `OrphanLoss`, `FillInStore`, `InitSyncCache`, `InitSyncRaces` | what the early exit of the orphan walk loses; what filling in does to the store; cache and database as one map; which blocks a flush race loses |
| Attestation dedup | `AttestationDedup` | exactly the inclusion-maximal bit sets, once each |
| Arithmetic | `SquareRoot`, `SquareRootRuns`, `Committees`, `Scatter` | when the cached square root is right; committees partition the shuffled list; at most 2P-1 workers |

Objects that the source updates in place are classes whose methods are proved against value-level
functions; concurrent protocols are step machines (`Enabled`, `Next`, `Run`) that use the same
functions, so that a theorem about runs speaks about the operations the methods implement.

## Where the code does not do what it seems to promise

- `CachedSquareRoot` (math_helper.go:56-74) divides by zero exactly when the balance is 2^64-1 and the last
  non-zero balance was 1, 2 or 3; afterwards the cached pair stays broken (`RunIsCorrectIff`, `TrapIsReachable`).
- The early exit of `saveOrphanedOperations` (head.go:397-401) loses no attestation. It loses slashings, exits
  and address changes exactly when some block on the path that is an epoch old when the walk reaches it carries
  any, and no attestation on the way is rejected (`EarlyExitKeepsOthersIff`, `EarlyExitCanLoseASlashing`).
- `onBlockBatch` passes (justified, finalized) to `fillInForkChoiceMissingBlocks`, which is declared with
  (finalized, justified) (process_block.go:157, process_block_helpers.go:430-431). The nodes added record the
  right epochs exactly when the two epochs are equal or no node was added; and the store takes the justified
  checkpoint for finalized and prunes there exactly when something is inserted on a known block and that checkpoint is ahead of the
  store's finality (`FillForBatch`, `ExchangeFinalizesJustified`). The chain then arrives exactly when its oldest
  block survives that prune (`UniformChainArrivesIff`).
- `insert` (store.go:74-174) registers a node before it finds that the parent is unknown and reports an error;
  the node stays registered (`Insert`, `RefusedBlockStaysRegistered`). If finality later moves to a block below
  such a node, `prune` deletes the whole main tree and leaves a broken link; otherwise checkpoints keep the
  links together (`CheckpointsKeepStructureIff`, `DetachedPruneDeletes`, `DetachedFinalityBreaksLinks`).
- Votes counted for a block survive its removal. In every run a block enters with leftover votes exactly when a
  validator was counted for it since the last restart of the count and it was removed afterwards; exactly then
  the vote bound breaks (`LeftoverExactlyWhenReentering`, `InvExactlyWithoutReentry`, `LeftoverVotesBreakBacking`).
- A block that is not stable or not viable unseats a head exactly when it is a child of that head: the head falls
  back to another fork, or there is none left (`UnstableChildUnseatsHead`, `HeadFallsBackToOtherFork`).
- A saved block is lost exactly when a flush clears the cache after the block was saved behind that flush's
  snapshot and before anything stored it, and nothing saves or stores it again (`LostExactlyWhen`,
  `FlushRaceLosesABlock`).
- A call can be left waiting although no continuation answers or closes it. An open request can still end exactly
  while the loop runs and either reads for a table that holds it or its write is not over (`CanEndIff`). Exactly
  these steps lose one (`StepLosesIff`, `LostExactlyWhen`): the connection breaks after its write, before the loop
  has noticed that the write is over (any transport, `WrittenRequestIsLostByBreak`); its write ends when no table
  is read for it, because the break came during the write (`InFlightRequestIsLost`) or, on standard input and
  output, whose closing has no effect so that writes go on succeeding, before it (`LaterRequestIsLost`); or the
  client shuts down without a table it reads for (`ShutdownLosesTheWrite`). A failed write and a time-out do it
  to requests whose caller has given up. A reconnect loses nobody.
- A finished batch lacks an answer exactly when its closing write was the first and a request was still queued.
  Then the context had been cancelled: by a timeout that lost the race for the buffer, or from outside
  (`UnansweredExactlyWhen`, `TimeoutRaceWritesPrefix`, `OutsideCancelLeavesRequest`).
- A failed notification write does not stop later ones, so the client may see a gap (`FailedWriteLeavesAGap`,
  `DeliveredFollowsNotify`).
- A committee look-up uses the specification's offsets exactly when the products it forms fit uint64
  (`LookupOffsetsAreRightIff`, `OffsetsAreRightIff`).

## Model

| member | source | states |
|---|---|---|
| CaseList.Find | modified_prysm/async/event/feed.go:221-228 | first case with the channel; -1 exactly when it is absent |
| CaseList.DeactivateActive | modified_prysm/async/event/feed.go:236-240 | deactivation moves exactly one channel out of the active prefix |
| CaseList.DeletePrefix | modified_prysm/async/event/feed.go:231-233 | deletion removes exactly one occurrence of the channel from a prefix |
| CaseList.ApplyFacts | modified_prysm/async/event/feed.go:157-188 | every send or removal keeps the list's shape and strictly shrinks len(sendCases)+len(cases) |
| CaseList.ScheduleConserves | modified_prysm/async/event/feed.go:154-188 | under every schedule each initial channel is active, served or removed while active, and the list has lost only removed channels |
| CaseList.EveryScheduleServesOnce | modified_prysm/async/event/feed.go:134-196 | when Send ends, delivered plus removed-while-active is the multiset of initial channels, and the counts add up |
| CaseList.UntouchedChannelIsServed | modified_prysm/async/event/feed.go:132-133 | a channel not removed while active gets the value once per subscription |
| Feed.Feed.constructor | modified_prysm/async/event/feed.go:61-66 | a fresh feed has only the receive case and a free send lock |
| Feed.Feed.Subscribe | modified_prysm/async/event/feed.go:73-93 | the channel joins the inbox and the subscribed multiset |
| Feed.Feed.Delete | modified_prysm/async/event/feed.go:231-233 | in-place shift equals removing the element |
| Feed.Feed.Deactivate | modified_prysm/async/event/feed.go:236-240 | in-place swap with the last active case |
| Feed.Feed.Merge | modified_prysm/async/event/feed.go:140-143 | the case list becomes old list plus inbox, inbox empty |
| Feed.Feed.Unsubscribe | modified_prysm/async/event/feed.go:109-130 | outside a Send one subscription of the channel disappears, from inbox or case list |
| Feed.Feed.FastPath | modified_prysm/async/event/feed.go:161-167 | the pass with `i--` follows a legal schedule on the aliased array and terminates |
| Feed.Feed.SelectOne | modified_prysm/async/event/feed.go:171-187 | one select sends to an active case or removes a channel that waits for it, and shrinks the measure |
| Feed.Feed.Deliveries | modified_prysm/async/event/feed.go:157-188 | the whole loop follows a legal schedule until no case is active, and terminates |
| Feed.Feed.Send | modified_prysm/async/event/feed.go:134-196 | exactly-once delivery to the merged cases; only channels whose removal was asked for are removed; nsent plus removed-while-active is the number of cases; lock handed back; panic on a type mismatch only |
| FeedProtocol.RemovalFinds | modified_prysm/async/event/feed.go:122-129 | a waiting removal finds its channel in the case list |
| FeedProtocol.WaitingUnsubscribeBalances | modified_prysm/async/event/feed.go:109-121 | a channel not in the inbox is in the case list beside those already waiting |
| FeedProtocol.StepKeepsInv | modified_prysm/async/event/feed.go:73-196 | every step of every goroutine keeps the accounting of subscriptions |
| FeedProtocol.RunKeepsInv | modified_prysm/async/event/feed.go:73-196 | the accounting holds over every interleaving |
| FeedProtocol.FeedNeverPanics | modified_prysm/async/event/feed.go:109-130 | inbox plus case list is the multiset of unremoved subscriptions and `find` never returns -1 before `delete` |
| FeedProtocol.EverySendServesOnce | modified_prysm/async/event/feed.go:134-196 | each completed Send serves a channel once per subscription at its merge unless one was removed meanwhile, never more often |
| FeedProgress.UnsubscribeTakesOne | modified_prysm/async/event/feed.go:109-121 | an unsubscription takes one entry out of the inbox and is done, or waits |
| FeedProgress.RemovalTakesOne | modified_prysm/async/event/feed.go:122-129 | a waiting removal takes exactly one case of its channel, with or without a Send |
| FeedProgress.SendReachesAll | modified_prysm/async/event/feed.go:134-196 | from every reachable state with a free lock a Send can run to its end, delivering once per subscription there was |
| LockKeys.LessTotal | modified_prysm/async/multilock.go:84 | the sort order is total |
| LockKeys.Unique | modified_prysm/async/multilock.go:127-141 | the first occurrence of each name, in order |
| LockKeys.KeysFor | modified_prysm/async/multilock.go:78-90 | keys strictly ascending, exactly the names |
| LockKeys.NewMultilock | modified_prysm/async/multilock.go:78-90 | nil for no names, otherwise those keys |
| LockKeys.SameNamesSameKeys | modified_prysm/async/multilock.go:78-90 | two multilocks acquire the same keys in the same order exactly when they name the same things |
| Multilock.GetChanKeepsInv | modified_prysm/async/multilock.go:115-124 | getChan returns the open channel of the key, making one with its token if there is none |
| Multilock.AcquireKeepsInv | modified_prysm/async/multilock.go:42-49 | taking a token moves it from the channel to the lock |
| Multilock.PutBackIsSafe | modified_prysm/async/multilock.go:59-63 | Unlock sends on an open, empty channel that this lock holds |
| Multilock.CleanKeyIsOpen | modified_prysm/async/multilock.go:98-105 | Clean never visits a closed channel |
| Multilock.CloseIsSafe | modified_prysm/async/multilock.go:100-102 | Clean closes only an open channel whose token it took |
| Multilock.FinishCleanKeepsInv | modified_prysm/async/multilock.go:107-111 | deleting the closed channels leaves every open channel in the table |
| Multilock.StepKeepsInv | modified_prysm/async/multilock.go:37-124 | every step keeps each channel's one token in one place |
| MultilockRuns.ReachableInv | modified_prysm/async/multilock.go:37-124 | every reachable state has such a placement of tokens |
| MultilockRuns.OneTokenPerOpenChannel | modified_prysm/async/multilock.go:37-124 | an open channel has exactly one token among channel, locks and Clean; a closed one none |
| MultilockRuns.MutualExclusion | modified_prysm/async/multilock.go:37-52 | two different locks never hold the same key |
| MultilockRuns.HeldHoldsAll | modified_prysm/async/multilock.go:37-52 | a held lock holds all its keys through the table's current channels |
| MultilockRuns.ChannelsAreUsedLegally | modified_prysm/async/multilock.go:56-68 | no run sends on a closed channel or closes twice; the sends of Unlock never block |
| MultilockRuns.TableIsOpen | modified_prysm/async/multilock.go:93-124 | the table has a closed channel only while a Clean that closed it still holds the global lock |
| MultilockRuns.OneOpenChannelPerKey | modified_prysm/async/multilock.go:115-124 | at most one channel per key is open |
| MultilockRuns.WaitingIncreases | modified_prysm/async/multilock.go:37-52 | the waits-for relation strictly increases in key order |
| MultilockRuns.NoCycleOfWaiters | modified_prysm/async/multilock.go:37-52 | no reachable state has a cycle of locks each waiting for the next |
| MultilockRuns.NoDeadlock | modified_prysm/async/multilock.go:37-111 | with a Lock or Unlock in flight, some internal step is possible or some user holds a lock |
| MultilockClean.CleanTracks | modified_prysm/async/multilock.go:98-106 | at every moment of a Clean, what it still has to visit and what it has collected, from the events since its start |
| MultilockClean.CleanRemovesExactly | modified_prysm/async/multilock.go:98-111 | over every run a Clean visits every key of the table and removes exactly those whose token was in the channel then |
| MultilockClean.FreeKeyIsRemoved | modified_prysm/async/multilock.go:98-111 | a key whose token is in its channel at the start, and that no lock takes, is not in the table afterwards |
| MultilockClean.HeldIffNoToken | modified_prysm/async/multilock.go:37-52 | outside a Clean a key is held exactly when its channel is in the table without token |
| MultilockClean.QuietCleanLeavesHeld | modified_prysm/async/multilock.go:93-112 | after a Clean with nothing in between the table holds exactly the keys some lock holds |
| MultilockCalls.LockSucceeds | modified_prysm/async/multilock.go:37-52 | a Lock none of whose keys is held can run to its end alone, and then holds them all |
| MultilockCalls.UnlockCompletes | modified_prysm/async/multilock.go:56-68 | an Unlock can run to its end alone; the lock is free again and the table holds exactly the keys of other locks |
| MultilockCalls.RetryFindsOpen | modified_prysm/async/multilock.go:42-49 | a lock that finds its channel closed waits on an open one of the same key after a retry |
| RequestOps.Handler.AddRequestOp | attacker-service/rpc/handler.go:320-324 | every id of the operation points to it, the rest is unchanged |
| RequestOps.Handler.RemoveRequestOp | attacker-service/rpc/handler.go:327-331 | exactly the operation's ids leave the table |
| RequestOps.Handler.HandleResponses | attacker-service/rpc/handler.go:391-445 | responses resolved as specified; the call path gets the other messages in order |
| RequestOps.Handler.CancelAllRequests | attacker-service/rpc/handler.go:334-349 | in any visiting order each registered operation but the one in flight is closed once, table emptied |
| RequestOps.ResolveDelivers | attacker-service/rpc/handler.go:391-445 | every operation with a response in the batch gets the batch once, no other is touched, exactly its ids leave the table, no send panics or blocks |
| RequestOps.CallsAreCallPath | attacker-service/rpc/handler.go:423-440 | the calls collected are the messages that are neither responses nor subscription results, in order |
| RequestOps.CancelledKeepsOk | attacker-service/rpc/handler.go:334-349 | cancellation never closes a channel twice |
| RpcDispatch.StepKeepsInv | attacker-service/rpc/client.go:620-697 | every case of the dispatch select keeps table and write lock consistent |
| RpcDispatch.RunKeepsInv | attacker-service/rpc/client.go:620-697 | so does every run |
| RpcDispatch.ChannelsAreUsedOnce | attacker-service/rpc/client.go:560-697 | over every run a response channel is sent to and closed at most once, never sent to after closing or when full, no nil request; the batch answers one of its ids |
| RpcDispatch.ReconnectTransfersInFlight | attacker-service/rpc/client.go:657-674 | a reconnect has a request in flight, registers exactly it with the new connection and closes the others |
| RpcDispatch.GivenUpIsAbandoned | attacker-service/rpc/client.go:683-695 | after a timeout or a failed write the request is in no table |
| RpcDispatch.LostConnectionClosesPending | attacker-service/rpc/client.go:627-655 | shutdown closes every pending request, a read error every one but that in flight |
| RpcDispatch.AbandonedForever | attacker-service/rpc/client.go:620-697 | a request in no table and not in flight is never sent to or closed in any continuation |
| RpcDelivery.ReadDelivers | attacker-service/rpc/client.go:645-650 | in every reachable state an admitted read gives its batch to every request it answers that has nothing yet and takes exactly their ids out; any other read changes nothing |
| RpcDelivery.InitRegisters | attacker-service/rpc/client.go:677-681 | an accepted request has all its ids in the table and is being written |
| RpcDelivery.NextRequestIsAccepted | attacker-service/rpc/client.go:683-691 | in every reachable state the next request needs at most the end of the current write |
| RpcDelivery.AcceptedRequestIsAnswered | attacker-service/rpc/client.go:620-697 | over every run that does not disturb it, an accepted request has been sent exactly the first admitted batch that answers it, or nothing and is still registered |
| RpcStranding.CanEndIff | attacker-service/rpc/client.go:620-697 | a continuation that answers or closes an open request exists exactly while it is in a table that is read for or its write is not over |
| RpcStranding.StepLosesIff | attacker-service/rpc/client.go:620-697 | over every step, exactly which events end that possibility; a reconnect never does |
| RpcStranding.LostForever | attacker-service/rpc/client.go:620-697 | a lost request stays lost in every continuation |
| RpcStranding.LostExactlyWhen | attacker-service/rpc/client.go:620-697 | over every run a request is lost exactly when some step lost it |
| RpcStranding.WrittenRequestIsLostByBreak | attacker-service/rpc/client.go:652-655 | a run: the break comes between the write and the loop's notice of it |
| RpcStranding.InFlightRequestIsLost | attacker-service/rpc/client.go:652-655 | a run: the break comes during the write, and the request is lost when the write ends |
| RpcStranding.LaterRequestIsLost | attacker-service/rpc/stdio.go:61-63 | a run: where closing has no effect, a request written after the break is lost when its write ends |
| RpcStranding.ShutdownLosesTheWrite | attacker-service/rpc/client.go:627-634 | a run: shutdown after the break leaves the request being written open |
| BatchBuffer.BatchCallBuffer.NextCall | attacker-service/rpc/handler.go:108-119 | the next call stays queued |
| BatchBuffer.BatchCallBuffer.PushResponse | attacker-service/rpc/handler.go:122-130 | the first call is popped and its answer, if any, appended |
| BatchBuffer.BatchCallBuffer.DoWrite | attacker-service/rpc/handler.go:156-164 | writes once, and only a non-empty list |
| BatchBuffer.BatchCallBuffer.RespondWithError | attacker-service/rpc/handler.go:142-152 | an error response for each unanswered request, then the write |
| BatchBuffer.PushKeeps | attacker-service/rpc/handler.go:122-130 | the buffer holds the answers to exactly the processed requests, in order |
| BatchBuffer.WriteKeeps | attacker-service/rpc/handler.go:133-138 | a write from an exhausted queue answers every request |
| BatchBuffer.ErrorKeeps | attacker-service/rpc/handler.go:142-152 | respondWithError answers every request unless something was written before |
| BatchBuffer.WriteIsCompleteIff | attacker-service/rpc/handler.go:133-138 | a plain write is complete exactly when only notifications are left |
| BatchRuns.StepKeepsInv | attacker-service/rpc/handler.go:195-247 | every step of goroutine and timer keeps these facts |
| BatchRuns.WrittenAtMostOnce | attacker-service/rpc/handler.go:195-247 | over every interleaving at most one write, never empty; complete if from errors or an exhausted queue, else a prefix |
| BatchRuns.UncancelledBatchIsAnswered | attacker-service/rpc/handler.go:195-247 | without cancellation every request of the batch is answered once, in order |
| BatchRuns.PopsOnlyWhatIsThere | attacker-service/rpc/handler.go:217-227 | no pop from an empty queue |
| BatchRuns.WrittenIsFinal | attacker-service/rpc/handler.go:154-164 | nothing after the first write changes what the client got |
| BatchRuns.FinalWriteIsCompleteIff | attacker-service/rpc/handler.go:237-242 | the closing write is complete exactly when only notifications were left |
| BatchRuns.TimeoutRaceWritesPrefix | attacker-service/rpc/handler.go:208-221 | a run in which the timeout cancels but the goroutine writes first, leaving a request unanswered |
| BatchRuns.UnansweredExactlyWhen | attacker-service/rpc/handler.go:195-247 | over every interleaving a finished batch lacks an answer exactly when its closing write was the first with a request still queued, and then the context was cancelled |
| BatchRuns.OutsideCancelLeavesRequest | attacker-service/rpc/handler.go:217-221 | a run without a timeout in which a cancellation from outside does it |
| BatchRuns.AnswerFits | attacker-service/rpc/handler.go:460-490 | every message but a notification is answered, under its id or null when it has none |
| BatchAnswers.WrittenExactly | attacker-service/rpc/handler.go:195-242 | over every interleaving, message by message what the client gets: each call the payload its method produced, invalid messages -32600, the rest -32003 or -32002 by what ended the batch |
| BatchAnswers.RefusedExactlyWhen | attacker-service/rpc/handler.go:228-235 | the rest is refused exactly when the results so far exceed a limit that is not 0 |
| BatchAnswers.UndisturbedBatchEnds | attacker-service/rpc/handler.go:195-242 | without cancellation, timeout or limit every batch runs to its end and all its messages are answered in order |
| Notifications.Notifier.CreateSubscription | attacker-service/rpc/subscription.go:117-128 | one subscription, before the call returns, else a panic |
| Notifications.Notifier.NotifyClient | attacker-service/rpc/subscription.go:132-151 | buffered before activation, written after; misuse panics and changes nothing |
| Notifications.Notifier.TakeSubscription | attacker-service/rpc/subscription.go:161-166 | marks the call as returned |
| Notifications.Notifier.ActivateNotifier | attacker-service/rpc/subscription.go:171-182 | flushes the buffer in order up to the first failed write; active only without failure |
| Notifications.AttemptsFollowNotify | attacker-service/rpc/subscription.go:132-182 | over every run nothing is written before activation and the attempted writes are a prefix of the Notify calls, all of them once active |
| Notifications.DeliveredFollowsNotify | attacker-service/rpc/subscription.go:132-194 | delivered notifications are a prefix of the Notify calls if, and for distinct ones only if, no write succeeds after a failed one |
| Notifications.FailedWriteLeavesAGap | attacker-service/rpc/subscription.go:146-148 | a run with a gap |
| Forwarding.Forward | attacker-service/rpc/subscription.go:329-375 | the loop computes the fold of its rounds for every sequence of choices, and asks for an unsubscription exactly when it ends by Unsubscribe, a bad message or an overflow |
| Forwarding.RunsWithoutEnd | attacker-service/rpc/subscription.go:329-375 | until something ends it, the loop has sent exactly what was taken and buffers the rest of what arrived |
| Forwarding.EndsWith | attacker-service/rpc/subscription.go:345-370 | the first choice that ends the loop decides its exit and changes nothing else |
| Forwarding.ForwardsInOrder | attacker-service/rpc/subscription.go:329-375 | received is sent plus buffer, in order; buffer never above 20000; overflow exit only with a full buffer |
| Forwarding.ReceivesEverything | attacker-service/rpc/subscription.go:360-368 | until it exits the loop has received every value that arrived |
| BlobNotifier.BlobNotifierMap.constructor | modified_prysm/beacon-chain/blockchain/service.go:107-111 | nothing seen, no channel |
| BlobNotifier.BlobNotifierMap.NotifyIndex | modified_prysm/beacon-chain/blockchain/service.go:115-139 | under the lock: mark the index, pick or make the root's channel; other roots untouched |
| BlobNotifier.BlobNotifierMap.ForRoot | modified_prysm/beacon-chain/blockchain/service.go:141-150 | the root's channel, made if missing; other roots untouched |
| BlobNotifier.BlobNotifierMap.Delete | modified_prysm/beacon-chain/blockchain/service.go:152-157 | the root is forgotten, others untouched |
| BlobNotifier.MissingIndices | modified_prysm/beacon-chain/blockchain/process_block.go:493-515 | exactly the committed indices not in storage; error for too many commitments or a storage error |
| BlobAvailability.SaveTransit | modified_prysm/beacon-chain/blockchain/receive_blob.go:16-23 | an index first saved now has a sender that will notify it |
| BlobAvailability.SendHasRoom | modified_prysm/beacon-chain/blockchain/service.go:138 | a sender about to send finds room in the buffer |
| BlobAvailability.StepKeepsInv | modified_prysm/beacon-chain/blockchain/process_block.go:549-577 | every step of senders and waiters keeps the invariant |
| BlobRuns.RunKeepsInv | modified_prysm/beacon-chain/blockchain/process_block.go:549-577 | so does every interleaving |
| BlobRuns.NilMeansPersisted | modified_prysm/beacon-chain/blockchain/process_block.go:517-577 | nil is returned only if every committed index has been persisted |
| BlobRuns.NoLostNotification | modified_prysm/beacon-chain/blockchain/process_block.go:549-572 | a missing index that has been persisted has its notification queued or with a sender |
| BlobRuns.NotifyNeverBlocks | modified_prysm/beacon-chain/blockchain/service.go:115-139 | the send outside the lock never blocks; a channel carries each index at most once over its life, across delete and re-creation |
| BlobRuns.WaiterIsNotStuck | modified_prysm/beacon-chain/blockchain/process_block.go:560-577 | once all is persisted, the waiter can receive or a sender of a missing index can go on |
| BlobOutcomes.StoredIsSaved | modified_prysm/beacon-chain/blockchain/process_block.go:500-503 | over every run a blob is in storage exactly when its save has happened |
| BlobOutcomes.OutcomeFollows | modified_prysm/beacon-chain/blockchain/process_block.go:521-577 | over every run, from the events since a check: an error for more than six commitments, nil at once when all committed indices are stored, otherwise an error exactly on abort, nil exactly on Delete, which comes exactly when every index then missing has been received |
| BlobOutcomes.NilMeansSaved | modified_prysm/beacon-chain/blockchain/process_block.go:521-577 | a nil answer means every index the checked block commits to has been saved |
| BlobOutcomes.ErrorExactlyWhen | modified_prysm/beacon-chain/blockchain/process_block.go:549-575 | an error exactly for more than six commitments or an abort |
| BlobOutcomes.WaiterCanReturnNil | modified_prysm/beacon-chain/blockchain/process_block.go:560-577 | in every reachable state a check whose blobs are all stored can return nil by steps already under way |
| ForkTree.ComputeDepth | modified_prysm/beacon-chain/forkchoice/doubly-linked-tree/node.go:17-26 | the number of links to the root of the tree |
| ForkTree.AncestorRoot | modified_prysm/beacon-chain/forkchoice/doubly-linked-tree/forkchoice.go:200-222 | the nearest ancestor at or before the slot, or the error |
| ForkTree.AncestorAtIsNearest | modified_prysm/beacon-chain/forkchoice/doubly-linked-tree/forkchoice.go:200-222 | every ancestor in the slot range is at or above the answer |
| ForkTree.IsCanonical | modified_prysm/beacon-chain/forkchoice/doubly-linked-tree/forkchoice.go:169-183 | true exactly for ancestors of the head |
| ForkTree.CommonAncestor | modified_prysm/beacon-chain/forkchoice/doubly-linked-tree/forkchoice.go:423-465 | the lowest common ancestor; an error exactly when a root is unknown or there is none |
| ForkTree.TargetRefinesCheckpoint | modified_prysm/beacon-chain/forkchoice/doubly-linked-tree/forkchoice.go:636-664 | jumping along target pointers finds the same block as the block-by-block checkpoint search |
| ForkPruning.DeletedExactly | modified_prysm/beacon-chain/forkchoice/doubly-linked-tree/store.go:179-199 | the recursion deletes exactly the subtree minus the finalized subtree |
| ForkPruning.PruneGoneExactly | modified_prysm/beacon-chain/forkchoice/doubly-linked-tree/store.go:203-244 | pruning deletes exactly the blocks that compete with the finalized one |
| ForkPruning.FinalizedStays | modified_prysm/beacon-chain/forkchoice/doubly-linked-tree/store.go:203-244 | the finalized node survives and the rest descends from it |
| ForkPruning.PruneCuts | modified_prysm/beacon-chain/forkchoice/doubly-linked-tree/store.go:203-244 | what remains keeps slots, parents and votes |
| ForkPruning.CutKeepsTargets | modified_prysm/beacon-chain/forkchoice/doubly-linked-tree/store.go:203-244 | pruning keeps every target pointer right |
| ForkPruning.RemoveCuts | modified_prysm/beacon-chain/forkchoice/doubly-linked-tree/optimistic_sync.go:49-98 | removal deletes exactly the descendants of the node, the node included |
| ForkPruning.RemoveKeepsChildren | modified_prysm/beacon-chain/forkchoice/doubly-linked-tree/optimistic_sync.go:49-75 | the swap removal keeps child lists and parents consistent |
| ForkPruning.RemoveUnlists | modified_prysm/beacon-chain/forkchoice/doubly-linked-tree/optimistic_sync.go:62-74 | the parent lists the removed node once less; no other remaining node lists it or changes its list |
| ForkChoice.NewNodeTarget | modified_prysm/beacon-chain/forkchoice/doubly-linked-tree/store.go:74-174 | the target set at insertion is the checkpoint block of the new node |
| ForkChoice.InsertKeepsStructureIff | modified_prysm/beacon-chain/forkchoice/doubly-linked-tree/store.go:74-174 | insertion keeps parents, children and targets together exactly for consistent blocks |
| ForkChoice.InsertKeepsInv | modified_prysm/beacon-chain/forkchoice/doubly-linked-tree/store.go:74-174 | and the votes, if none are left over for the block |
| ForkChoice.AttestKeepsInv | modified_prysm/beacon-chain/forkchoice/doubly-linked-tree/forkchoice.go:72-101 | attestations keep it; each validator counts once per block |
| ForkChoice.CheckpointsKeepInv | modified_prysm/beacon-chain/forkchoice/doubly-linked-tree/forkchoice.go:143-159 | new checkpoints and the pruning they cause keep it, unless the links break as said next |
| ForkChoice.CheckpointsKeepStructureIff | modified_prysm/beacon-chain/forkchoice/doubly-linked-tree/store.go:203-244 | new checkpoints keep the links together exactly unless finality moves below a node registered without a parent |
| ForkChoice.DetachedPruneDeletes | modified_prysm/beacon-chain/forkchoice/doubly-linked-tree/store.go:203-224 | then the whole tree of the tree root is deleted |
| ForkChoice.DetachedFinalityBreaksLinks | modified_prysm/beacon-chain/forkchoice/doubly-linked-tree/store.go:203-224 | a run in which finality below a refused block deletes the main tree |
| ForkChoice.InvalidateKeepsInv | modified_prysm/beacon-chain/forkchoice/doubly-linked-tree/optimistic_sync.go:49-98 | removing an invalid payload keeps it |
| ForkChoiceRuns.RunKeepsStructure | modified_prysm/beacon-chain/forkchoice/doubly-linked-tree/store.go:74-174 | the links fit together in every reachable store |
| ForkChoiceRuns.CachedExactlyWhenCounted | modified_prysm/beacon-chain/forkchoice/doubly-linked-tree/store.go:324-340 | in every run a vote count is cached for exactly the roots counted since the last restart |
| ForkChoiceRuns.LeftoverExactlyWhenReentering | modified_prysm/beacon-chain/forkchoice/doubly-linked-tree/store.go:324-340 | a block enters with leftover votes exactly when it was counted since the last restart and is not in the store |
| ForkChoiceRuns.ReentersIsRemoved | modified_prysm/beacon-chain/forkchoice/doubly-linked-tree/optimistic_sync.go:49-98 | it was then removed in between, by pruning or an invalid payload |
| ForkChoiceRuns.RunKeepsInv | modified_prysm/beacon-chain/forkchoice/doubly-linked-tree/store.go:74-174 | without re-entry the whole invariant holds in every reachable store |
| ForkChoiceRuns.InvExactlyWithoutReentry | modified_prysm/beacon-chain/forkchoice/doubly-linked-tree/store.go:74-174 | and exactly without: every store of a run satisfies it if and only if no block re-entered |
| ForkChoiceRuns.LeftoverVotesBreakBacking | modified_prysm/beacon-chain/forkchoice/doubly-linked-tree/store.go:324-340 | a sequence in which 200 validators make a block stable |
| ForkChoiceRuns.RestartIsTested | modified_prysm/beacon-chain/forkchoice/doubly-linked-tree/store.go:324-333 | the test the store makes is that an attestation is newer than all since the last restart |
| ForkChoiceVotes.CountIsNewVotes | modified_prysm/beacon-chain/forkchoice/doubly-linked-tree/store.go:324-340 | in every run the cached count of a root is the number of validators newly recorded for it since the last restart |
| ForkChoiceVotes.StableExactlyWhen | modified_prysm/beacon-chain/forkchoice/doubly-linked-tree/store.go:129-146 | in every run a block inserted on a known parent is stable exactly after genesis with at least 256 newly recorded validators for the parent, or with no attestation for it since the restart and the parent at slot 0 |
| ForkChoiceVotes.NewVotesAreDistinct | modified_prysm/beacon-chain/forkchoice/doubly-linked-tree/forkchoice.go:72-101 | while a block stays, that number is the growth of its set of distinct validators |
| ForkChoiceVotes.ThreeHundredMakeStable | modified_prysm/beacon-chain/forkchoice/doubly-linked-tree/store.go:134-137 | a run: 300 validators make a block stable |
| ForkChoiceAdmission.AdmittedIsConsistent | modified_prysm/beacon-chain/blockchain/process_block_helpers.go:342-353 | a block that passes the finality check and is what its root commits to fits the store |
| ForkChoiceAdmission.PruneKeepsStaleFinal | modified_prysm/beacon-chain/forkchoice/doubly-linked-tree/store.go:179-244 | a target that pruning makes stale is not after the finalized epoch start |
| ForkChoiceAdmission.AdmittedRunFits | modified_prysm/beacon-chain/blockchain/process_block_helpers.go:342-353 | runs of such blocks are runs of the store |
| ForkChoiceHead.EligibleIsLeaf | modified_prysm/beacon-chain/forkchoice/doubly-linked-tree/store.go:248-259 | head candidates are leaves |
| ForkChoiceHead.HeadIsBacked | modified_prysm/beacon-chain/forkchoice/doubly-linked-tree/store.go:263-322 | a head candidate's parent has at least 256 distinct attesters, or is at slot 0 |
| ForkChoiceHead.HeadsAreBacked | modified_prysm/beacon-chain/forkchoice/doubly-linked-tree/store.go:263-322 | so over every run without re-entry |
| ForkChoiceHead.InsertMovesCandidates | modified_prysm/beacon-chain/forkchoice/doubly-linked-tree/store.go:74-174 | an insert takes exactly the parent from the candidates and adds the block if stable and viable |
| ForkChoiceHead.NoHeadAfterInsertIff | modified_prysm/beacon-chain/forkchoice/doubly-linked-tree/store.go:263-322 | exactly when an insert after genesis leaves no head |
| ForkChoiceHead.HeadAfterInsertIff | modified_prysm/beacon-chain/forkchoice/doubly-linked-tree/store.go:263-322 | for every head and block, ties included, exactly which heads an insert can leave |
| ForkChoiceHead.HeadStaysIff | modified_prysm/beacon-chain/forkchoice/doubly-linked-tree/store.go:300-318 | a head can stay exactly when it is not extended and no stable viable block gets ahead of it |
| ForkChoiceHead.UnstableChildUnseatsHead | modified_prysm/beacon-chain/forkchoice/doubly-linked-tree/store.go:248-322 | any other block unseats a head exactly as its child: for a fork that was not better, or for none if it was the only candidate |
| ForkChoiceHead.HeadFallsBackToOtherFork | modified_prysm/beacon-chain/forkchoice/doubly-linked-tree/store.go:248-322 | a run in which the head goes to the other fork |
| ForkChoiceHead.RemovalMovesCandidates | modified_prysm/beacon-chain/forkchoice/doubly-linked-tree/optimistic_sync.go:51-98 | removing an invalid block takes exactly the candidates below it and adds its parent exactly when that was all it listed and it is stable and viable |
| ForkChoiceChain.ChainArrivesIff | modified_prysm/beacon-chain/forkchoice/doubly-linked-tree/forkchoice.go:473-495 | a new chain on a known block is inserted without error, its newest parent in the store, exactly when every block survives its own checkpoint update |
| ForkChoiceChain.UniformChainArrivesIff | modified_prysm/beacon-chain/forkchoice/doubly-linked-tree/forkchoice.go:473-495 | with common checkpoints, exactly when the oldest block does |
| ForkChoiceChain.UniformChainFinalizes | modified_prysm/beacon-chain/forkchoice/doubly-linked-tree/forkchoice.go:143-159 | the store's finality is then the later of its own and the common checkpoint |
| ForkChoiceChain.AddedNodesRecord | modified_prysm/beacon-chain/forkchoice/doubly-linked-tree/forkchoice.go:482-491 | every node it adds records the epochs of the common checkpoints |
| ForkChoiceChain.SurvivesIff | modified_prysm/beacon-chain/forkchoice/doubly-linked-tree/store.go:203-244 | a block survives its round exactly when its checkpoint is not ahead, or known and not pruning it |
| ForkChoiceStore.ForkChoiceStore.ProcessAttestation | modified_prysm/beacon-chain/forkchoice/doubly-linked-tree/forkchoice.go:72-101 | repeated indices count once; only new voters are added |
| ForkChoiceStore.ForkChoiceStore.UpdateBestDescendant | modified_prysm/beacon-chain/forkchoice/doubly-linked-tree/store.go:263-322 | the head is the deepest candidate, latest slot on ties, or the tree root |
| ForkChoiceStore.ForkChoiceStore.Insert | modified_prysm/beacon-chain/forkchoice/doubly-linked-tree/store.go:74-174 | the store as specified, and when it reports an error |
| ForkChoiceStore.ForkChoiceStore.SetCheckpoints | modified_prysm/beacon-chain/forkchoice/doubly-linked-tree/forkchoice.go:143-159 | checkpoints only advance, each by its own epoch; pruning exactly when finality moves to a known block with a parent; when the links stay together |
| ForkChoiceStore.ForkChoiceStore.InsertChain | modified_prysm/beacon-chain/forkchoice/doubly-linked-tree/forkchoice.go:473-495 | the store and the error of the loop over all but the newest block, whatever the checkpoints do |
| ForkChoiceStore.RefusedBlockStaysRegistered | modified_prysm/beacon-chain/forkchoice/doubly-linked-tree/store.go:112-121 | a block on an unknown parent is refused and stays registered |
| ChainWalks.EarlyExitLosesNoAttestation | modified_prysm/beacon-chain/blockchain/head.go:388-417 | the early exit saves the same attestations as a full walk, also with a running clock |
| OrphanLoss.SaveAttsSavesRecent | modified_prysm/beacon-chain/blockchain/head.go:402-417 | of a block none of whose attestations is rejected exactly those no older than an epoch at their reading are saved, in order |
| OrphanLoss.RecentOnesHas | modified_prysm/beacon-chain/blockchain/head.go:402-405 | which those are, one by one |
| OrphanLoss.FullWalkSaves | modified_prysm/beacon-chain/blockchain/head.go:388-442 | what a full walk saves of every path, and when it ends in an error |
| ChainWalks.SaveOrphanedOperations | modified_prysm/beacon-chain/blockchain/head.go:388-442 | the loop computes the walk, including its errors |
| OrphanLoss.EarlyExitKeepsOthersIff | modified_prysm/beacon-chain/blockchain/head.go:388-442 | other operations all survive exactly when the pool rejects on the way or every block that is old at its turn has none |
| OrphanLoss.EarlyExitKeepsOthersAtSlot | modified_prysm/beacon-chain/blockchain/head.go:388-442 | at a fixed slot: exactly when every block on the path at least an epoch old has none |
| OrphanLoss.EarlyExitCanLoseASlashing | modified_prysm/beacon-chain/blockchain/head.go:397-401 | a chain where one is lost |
| ChainWalks.DatabaseAgreesWithForkChoice | modified_prysm/beacon-chain/blockchain/process_block_helpers.go:405-426 | the recursion over stored blocks finds what fork choice finds |
| ChainWalks.FillIn | modified_prysm/beacon-chain/blockchain/process_block_helpers.go:430-465 | by the first stored ancestor that stops the walk, exactly when nothing is missing, a block is not found, the chain does not descend from the finalized block, or it is inserted; the inserted list is the whole path, newest-first with falling slots |
| FillInStore.FillMissing | modified_prysm/beacon-chain/blockchain/process_block_helpers.go:430-465 | exactly when the incoming block's parent is in fork choice afterwards, and what the store's finality becomes |
| FillInStore.FillForBatch | modified_prysm/beacon-chain/blockchain/process_block.go:157 | the nodes added record the right epochs exactly when the two are equal or there are none; the justified checkpoint becomes final exactly when it is ahead and something is inserted on a known block |
| FillInStore.ExchangeFinalizesJustified | modified_prysm/beacon-chain/blockchain/process_block.go:157 | a run that finalizes a merely justified block and deletes a fork |
| ChainWalks.BatchNodes | modified_prysm/beacon-chain/blockchain/process_block.go:218-240 | a linear batch becomes the same newest-first shape |
| InitSyncCache.BlockCache.GetInitSyncBlocks | modified_prysm/beacon-chain/blockchain/init_sync_process_block.go:67-76 | exactly the cached blocks |
| InitSyncCache.BlockCache.Flush | modified_prysm/beacon-chain/blockchain/process_block_helpers.go:331-336 | a flush does not change the plain map, even when it fails midway |
| InitSyncCache.BlockCache.SaveInitSyncBlock | modified_prysm/beacon-chain/blockchain/init_sync_process_block.go:13-26 | the block joins the plain map; the cache is flushed exactly when it then holds more than 64 blocks |
| InitSyncCache.BlockCache.HasBlockInInitSyncOrDB | modified_prysm/beacon-chain/blockchain/init_sync_process_block.go:37-42 | answers as the plain map |
| InitSyncCache.BlockCache.GetBlock | modified_prysm/beacon-chain/blockchain/init_sync_process_block.go:46-63 | answers as the plain map, or the database error |
| InitSyncCache.ContentsAreAllSaved | modified_prysm/beacon-chain/blockchain/init_sync_process_block.go:13-83 | over every run cache and database stand for all blocks saved |
| InitSyncCache.LookupsAgree | modified_prysm/beacon-chain/blockchain/init_sync_process_block.go:37-63 | every lookup in every run agrees with that map |
| InitSyncCache.ClearKeepsContentsIff | modified_prysm/beacon-chain/blockchain/init_sync_process_block.go:79-83 | clearing is harmless exactly when the database has every cached block |
| InitSyncRaces.CacheIsFreshPuts | modified_prysm/beacon-chain/blockchain/init_sync_process_block.go:13-26 | over every interleaving the cache holds what was saved since the last clear |
| InitSyncRaces.SnapshotHolds | modified_prysm/beacon-chain/blockchain/init_sync_process_block.go:67-76 | a flush holds what was fresh at its snapshot |
| InitSyncRaces.DbIsStored | modified_prysm/beacon-chain/blockchain/process_block_helpers.go:331-336 | the database holds what it had and what flushes stored |
| InitSyncRaces.StepLosesIff | modified_prysm/beacon-chain/blockchain/init_sync_process_block.go:79-83 | a step loses a block exactly when it is the clear of a flush behind whose snapshot the block was saved, unstored |
| InitSyncRaces.LostExactlyWhen | modified_prysm/beacon-chain/blockchain/process_block_helpers.go:331-336 | a saved block is missing exactly when such a step lost it and nothing brought it back |
| InitSyncRaces.UndisturbedFlushesLoseNothing | modified_prysm/beacon-chain/blockchain/process_block_helpers.go:371-376 | flushes without a save between snapshot and clear lose nothing |
| InitSyncRaces.FlushRaceLosesABlock | modified_prysm/beacon-chain/blockchain/process_block_helpers.go:331-336 | a run that loses a block |
| AttestationDedup.CompareRow | attacker-service/types/atts.go:133-153 | the inner loop with both indices stepped back terminates and separates row i |
| AttestationDedup.DedupGroup | attacker-service/types/atts.go:133-153 | in place: an antichain drawn from and covering the group; an error exactly for unequal lengths |
| AttestationDedup.AntichainCoverIsMaximal | attacker-service/types/atts.go:133-153 | such an antichain is exactly the set of inclusion-maximal bit sets |
| AttestationDedup.GroupByRoot | attacker-service/types/atts.go:124-131 | groups by data root, in order |
| AttestationDedup.Dedup | attacker-service/types/atts.go:120-163 | for every data root exactly the maximal bit sets, once each |
| SquareRoot.SquareRootCache.CachedSquareRoot | modified_prysm/math/math_helper.go:56-74 | one call from any reachable cache, including wrap-around and division by zero |
| SquareRoot.SquareRootCache.Newton | modified_prysm/math/math_helper.go:66-73 | the loop terminates at the floor square root unless the first sum wraps |
| SquareRoot.NewtonStep | modified_prysm/math/math_helper.go:67-72 | a step stays at or above the root, falls until the exit test, which is the floor-root test |
| SquareRoot.FirstSumWraps | modified_prysm/math/math_helper.go:67-68 | the first sum wraps exactly in the trap |
| SquareRootRuns.RunIsCorrectIff | modified_prysm/math/math_helper.go:56-74 | a run of calls is correct throughout exactly when no call asks for 2^64-1 after 1, 2 or 3 |
| SquareRootRuns.RunBelowMaximumIsCorrect | modified_prysm/math/math_helper.go:33-37 | below 2^64-1 every run from the initial pair is correct |
| SquareRootRuns.TrapIsReachable | modified_prysm/math/math_helper.go:56-74 | a run that fails, and what later calls return |
| Committees.CommitteeIsSlice | modified_prysm/beacon-chain/cache/committee.go:92-107 | the look-up never fails and returns the slice of its number while its own products fit uint64 |
| Committees.WrappedCut | modified_prysm/container/slice/slice.go:306-308 | within uint64 the offset is the specification's |
| Committees.LookupOffsetsAreRightIff | modified_prysm/beacon-chain/cache/committee.go:199-204 | a look-up uses the specification's two offsets exactly when its products fit uint64 |
| Committees.OffsetsAreRightIff | modified_prysm/container/slice/slice.go:306-308 | all offsets are the specification's exactly when the largest product fits uint64 |
| Committees.SlicesCoverList | modified_prysm/beacon-chain/cache/committee.go:199-204 | the slices in order are the list |
| Committees.SlicesAreBalanced | modified_prysm/beacon-chain/cache/committee.go:199-204 | sizes differ by at most one |
| Committees.SliceNumberIsBijective | modified_prysm/beacon-chain/cache/committee.go:92-99 | (slot, index) pairs and slices correspond one to one |
| Committees.EpochPartition | modified_prysm/beacon-chain/cache/committee.go:92-107 | all committees of an epoch in order are the shuffled list |
| Scatter.Chunks | modified_prysm/async/scatter.go:24-51 | non-empty chunks of at most items/P + 1 entries tile the input, at most 2P-1 of them, or an error for a non-positive length |
| Scatter.AtMostTwoPerProcessor | modified_prysm/async/scatter.go:67-77 | at most 2P-1 workers for every input length |
| Scatter.BoundIsTight | modified_prysm/async/scatter.go:67-77 | with 2P-1 items there are 2P-1 workers |
| Scatter.TilingCoversOnce | modified_prysm/async/scatter.go:24-51 | every position lies in exactly one chunk |

## Left out

- Committees.CommitteeIsSlice: is stated while the look-up's products fit uint64; LookupOffsetsAreRightIff shows that its
  offsets are wrong otherwise.
- RpcStranding.LostExactlyWhen: assumes that ids are not reused; the 32-bit id counter reuses them after 2^32 calls.
- BlobOutcomes.ErrorExactlyWhen: a storage read error, which `MissingIndices` reports, is not an event of the runs.
- RpcDelivery.AcceptedRequestIsAnswered: assumes that ids are not reused, as does `LostExactlyWhen`.
- RpcDispatch.RunKeepsInv: `op.sub`, client subscriptions and the error values of requests are not part of the model.
- Feed.Feed.Send: the typecheck is a boolean parameter; interface types and the reflect API are not modelled.
- Contexts: cancellation is an event where it matters (batch, blob waiter) and absent elsewhere.
- Mutexes and goroutines: a region under a lock is one step of a machine; the Go memory model is not modelled.
- Liveness: no claim that a call, a lock or a waiter eventually proceeds under every schedule, only that it can.
- Concurrent waiters on one blob root, and removal of stored blobs, which the notifier does not support.
- Fork choice works on roots: a removed node object that shares its root with a re-inserted one is not told apart;
  optimistic status and payload hashes are left out.
- `SortByProfitabilityUsingMaxCover`, aggregation, BLS, KZG, state transition and database internals.
- The replies to empty and oversized batches, and the single-call path, whose `sync.Once` settles the same race.
- `Scatter`'s early return on a worker error: only the chunking is modelled.
- The wrap-around of slot plus 32 in the orphan walk, which needs slots near 2^64.
- The committee cache's LRU and in-progress bookkeeping.
- HTTP, WebSocket, IPC and stdio transports, JSON encoding and reflection, method registration.
- Attack strategies, slot functions, plugins, delays, reward collection, metrics, logging and command line.
