# HydraServe in Dafny

HydraServe serves a language model: requests wait for admission, run their prompt once
(prefill), and then produce one token per decode step in shared batches. Two scarce
resources carry a running request, the pages of the paged KV store and a slot for its
recurrent state, and most of the system is about who holds which of them.

This project models that logic and proves what it keeps. `dafny verify dfyconfig.toml`
checks it.

## How the files fit together

**Pages and prefixes.** `BlockManager` is the reference-counted page allocator with its
headroom and reservations. `RadixTree` and `PrefixCache` are the radix index of cached
prompt pages: the tree is a map from a namespace and a path of token blocks to a node, the
class keeps the tree, the acquisitions and the sighting counts. `PagedKV` joins the two
with the physical store. Its invariant says that every page reference is owned by a request
or by a tree node, and that two owners of a page always mean the same token prefix by it, so
that reading a request back gives what it would have computed alone. `TokenPaths`,
`PageSharing`, `Publishing` and `PageLedger` hold the lemmas between them. `LostPages` is
about the one way in which an insertion can lose its pages, `LostPrompt` a run that does;
`Doorkeeper` says what the admission policy is shown and what follows for one that counts
sightings.

**The generation loop.** `GenerationStream` defines the stream a request produces when it
runs alone and what its state must have folded. `ServingLoop` (with `ServingBooks`,
`Queues` and the backend's contract in `GenerationBackend`) is the loop: submission,
admission with preemption, recovery by exact replay, decode, failure and release. Its
invariant is that each request is in exactly one place and that every handle has heard a
prefix of its own solo stream, from a state that has folded exactly the tokens and KV
positions it should. `BackendAdmission` reserves the two resources together,
`DecodeTransaction` is the decode step with rollback and bisection and `DecodeTrace` what
its attempts leave of each request. `RuntimeBackend` puts the two behind the operations the
loop calls and proves the loop's contract for them. Whether a request's decode steps leave
no trace but its own tokens is a field of the request in the loop (`clean`); the loop's
theorems about states and streams are for such requests, those about places, resources and
delivery for all, and `RuntimeBackend.MeetsIff` says exactly when the runtime backend makes
it true. `FairScheduler` and `BoundedBypass` are the choice of a batch and how long a
request can be passed over. `BatchScheduler` is the separate iteration-level scheduler over
the same allocator.

**Protocols.** `DecodePrepare` lets the decode worker's background prepare race with cancel
and release. `RpcChannel` lets any number of callers drain one worker's response queue;
`LoadLedger` is the coordinator's ledger over its workers. Steps are the regions under one
lock and the single calls between them, and the theorems are about every interleaving.

**Host cache, transfer, memory.** `HostIndex` and `HostCache` are the host-side LRU cache
with its block index and pins, `ChunkTransfer` the announced and sent ranges of a streamed
prompt, `MemoryPlan` the sizing of pages and state pool, `KvQuantizer` the INT4/INT8 codec
over exact reals.

Objects that the source updates in place are classes whose methods are proved against
functions of the old and new state. Sampling is a function of a request's own state,
history and step; scores, scales and fractions are reals; clocks, failures of the runtime
and of the network, and the policy's scores are arbitrary.

## Where the code does something other than its evident intent

The model follows the code. Each of these is a theorem with its exact condition, and a
method or lemma that reaches it through the modelled operations at a concrete input.

- **Lost pages.** `PrefixCache.insert` keeps the namespace's root across an eviction that
  may drop it from the index. The new pages then stay counted, but no lookup and no
  eviction finds them again. It can happen exactly when the insertion shares no node,
  nothing in the namespace is held, and the shortage is at least the namespace's pages
  (`LostPages.LosesPagesIff`). The default policy does it with two prompts and a cache of
  one page (`LostPrompt.SecondPromptIsLost`). Reads stay correct, and the worker's own leak
  check cannot notice (`PagedKV.PagedKVCache.Audit`): both of its sides count a lost page.
- **A metadata budget that does not hold.** The pruning after a rejected insertion takes
  page-less leaves, but not the parents they leave as leaves. The budget holds afterwards
  exactly if there were enough of them (`PrefixCaching.BudgetHoldsIff`; `PrunedOnce` for a
  prompt of many blocks), and a rejection for want of room does not prune at all.
- **A release of what nobody acquired.** It succeeds exactly when others reference every
  node of its path, and takes one of their references
  (`PrefixCaching.PrefixCache.Release`, `TakenFromOthers`).
- **Rollback after a commit.** When sampling fails after the runtime has committed a decode
  step, the rollback restores lengths but not the tensors that were overwritten in place;
  the retry then folds the token twice. A failure while the input is built is not rolled
  back at all. What each request is left with follows from the runtime's answers
  (`DecodeTransaction.RuntimeGenerationBackend.Decode`), is clean exactly under
  `DecodeTrace.CleanIff`, and goes wrong in `LateFailure.LateFailureFoldsTwice`.
- **A second acceptance taken for a refusal.** After a preemption made room, a candidate
  that is now accepted is ended without a release. `ServingLoop` proves that this is the
  only way the loop leaks: an admission pass leaks exactly the candidates that were
  deferred and then accepted (`Admit`, `NotAdmitted`, `AllHeard`).
  `LeakingAdmission.SecondAcceptanceLeaks` is two requests with which it does.
- **A dangling host index.** `HostPrefixCache.put` drops the old entry before it can refuse
  the new one. The index then lists a stale key; lookups that are served by it fail, and a
  pin left by such a lookup makes the next `put` of the key report success and store
  nothing. Which key becomes stale, and when a lookup fails, is stated exactly
  (`HostCache.HostPrefixCache`: `Put`, `Match`, `Pin`); everything else the cache promises
  holds with stale keys too. `DanglingIndex.RefusedReplacement` is the run.
- **An identifier reserved or prepared again too early.** The worker only tests whether a
  prepare is in progress, or the request is live. A prepare's thread may then still free
  the pages and drop the lease. A reservation made before it has freed them loses its pages
  to it, one that pins a prefix before the thread is over loses the lease, or overwrites
  the old one; a prepare made too early loses what it receives into. When each is sound is
  stated exactly, over every interleaving with what the old thread has left to do
  (`DecodePrepare.EarlyReserveIff`, `EarlyPrepareIff`), with the runs
  `EarlyReserveLosesItsPages`, `EarlyReserveLosesItsLease` and `EarlyPrepareLosesItsPages`.
  The other theorems there are about identifiers that are not used again so early.
- **A cancelled request in an in-flight batch.** The batch can then neither be committed nor
  failed, and no further batch is ever formed; each try to commit it gives the requests
  before the cancelled one another token (`BatchScheduler.ContinuousBatchScheduler`:
  `Cancel`, `CommitDecodeTokens`, `FailDecodeBatch`, `NextDecodeBatch`;
  `SchedulerRuns.CancelledInFlight`).
- **A replay of another length.** The batch scheduler replays the prompt and all generated
  tokens but the last. For a request whose first token came from a decode step that is one
  token less than the state it gave up (`Resume`, exactly when; `SchedulerRuns.ShorterReplay`).
- **One token too many.** A request that asked for no token ends with one, and a request for
  one token that its prefill brought is decoded once more, beyond its reservation, and ends
  with two; nobody else ends with more than was asked for
  (`BatchScheduler.ContinuousBatchScheduler.EndsTooLongIff`,
  `SchedulerRuns.OneTokenTooMany`).
- **Releases that overlap.** A release takes down whatever binding the request has when the
  worker has answered, but charges the worker it began with. If another release finished
  meanwhile it takes a request off the ledger that is no longer on it; if the request also
  came back on another worker it takes that one's load off the wrong worker
  (`LoadLedger.LoadLedger.EndRelease`, exactly when; `LoadLedger.TwoReleasesAtOnce`,
  `ReboundDuringRelease`). The end of a prefill has the same flaw
  (`LoadLedger.LoadLedger.MarkPrefillComplete`).

## Model

| member | source | states |
|---|---|---|
| BlockManager.BlocksRequired | hydraserve/cache/block_manager.py:82-85 | the least number of pages that covers a token count |
| BlockManager.KVBlockManager.constructor | hydraserve/cache/block_manager.py:47-66 | every page starts free and unreferenced |
| BlockManager.KVBlockManager.Allocate | hydraserve/cache/block_manager.py:92-144 | exactly when an allocation is refused and with which error; an accepted one gets its shared prefix and the lowest free pages, one reference more on each of them; a refused one changes nothing; the allocator's whole audit holds after it |
| BlockManager.KVBlockManager.Reserve | hydraserve/cache/block_manager.py:146-173 | the reservation grows onto the lowest free pages, or exactly why it does not |
| BlockManager.KVBlockManager.GrowMany | hydraserve/cache/block_manager.py:178-228 | all requests of the batch grow, each onto its own stretch of the free list, or none does; which error when; the pages taken are just those the reservations lack |
| BlockManager.KVBlockManager.Truncate | hydraserve/cache/block_manager.py:230-244 | the length rolls back and the pages stay reserved |
| BlockManager.KVBlockManager.Free | hydraserve/cache/block_manager.py:253-258 | the request's references, and only those, are gone; pages nobody refers to are free again |
| BlockManager.KVBlockManager.RetainBlocks | hydraserve/cache/block_manager.py:260-272 | one more outside reference on each named page, or an error that changes nothing |
| BlockManager.KVBlockManager.ReleaseBlocks | hydraserve/cache/block_manager.py:274-276 | one reference less on each named page, after all checks; the allocator's books hold if and only if each had a reference outside the requests |
| BlockManager.KVBlockManager.ReleaseBlocksLocked | hydraserve/cache/block_manager.py:284-296 | all checks precede the first decrement; a page joins the sorted free list exactly when its count reaches zero |
| BlockManager.KVBlockManager.Audit | hydraserve/cache/block_manager.py:334-361 | the allocator's self-check passes in every reachable state |
| BlockManager.Sorted | hydraserve/cache/block_manager.py:284-296 | the rebuilt free list has the same pages in ascending order |
| BlockManager.Grant | hydraserve/cache/block_manager.py:132-144 | handing out the first free pages keeps counts, free list and holders in agreement, and changes no reference held outside the allocations |
| BlockManager.ListedIsReferenced | hydraserve/cache/block_manager.py:334-361 | a page some request lists is referenced, so it is not free |
| BlockManager.NoMidStreamExhaustion | hydraserve/cache/block_manager.py:178-228 | a batch that stays inside its reservations needs no new page, whatever else is allocated |
| RadixTree.EvictionIsExact | hydraserve/cache/prefix_cache.py:508-567 | for any score, an eviction run of quota k reclaims exactly min(k, countable) pages and never a referenced or protected node, and leaves a well-formed tree |
| RadixTree.TurnsAreBounded | hydraserve/cache/prefix_cache.py:508-542 | no eviction run is longer than the tree: the loop ends |
| RadixTree.EvictableHasCandidate | hydraserve/cache/prefix_cache.py:508-567 | below any node that is countable as evictable there is a leaf the loop may choose: counting and evicting agree |
| RadixTree.RemoveCandidate | hydraserve/cache/prefix_cache.py:508-542 | one eviction takes exactly its leaf from what is evictable |
| RadixTree.BlockedByChildren | hydraserve/cache/prefix_cache.py:544-567 | a node is blocked if and only if it is protected, referenced or has a blocked child: the one-pass count computes the global notion |
| RadixTree.MatchedPrefix | hydraserve/cache/prefix_cache.py:335-365 | cached nodes are prefix-closed: above the deepest cached block everything is cached |
| RadixTree.WithoutLeased | hydraserve/cache/prefix_cache.py:508-542 | evicting unreferenced nodes disturbs no acquisition |
| RadixTree.FilledLeased | hydraserve/cache/prefix_cache.py:305-325 | mapping the pages of a path disturbs no acquisition |
| RadixTree.FilledWellFormed | hydraserve/cache/prefix_cache.py:305-325 | an insertion keeps the tree prefix-closed |
| RadixTree.AcquireLeased | hydraserve/cache/prefix_cache.py:482-506 | after an acquisition every count is again the number of acquisitions through its node |
| RadixTree.ReleaseLeased | hydraserve/cache/prefix_cache.py:482-506 | releasing an outstanding acquisition finds its whole path with positive counts, and the counts are exact again |
| RadixTree.LeasedTransfer | hydraserve/cache/prefix_cache.py:367-380 | only what happens to referenced nodes can matter to an acquisition |
| PrefixCaching.PrefixCache.Insert | hydraserve/cache/prefix_cache.py:182-333 | argument errors; otherwise the outcome of `InsertLocked`, and one more sighting recorded of the shared part or else of the whole path; cached pages never exceed the capacity |
| PrefixCaching.PrefixCache.InsertLocked | hydraserve/cache/prefix_cache.py:201-333 | rejected exactly when the policy admits no part, or when the pages short exceed what can be evicted around the path; only the first kind of rejection prunes; else the new tree, the inserted and the evicted pages are stated; an insertion whose eviction emptied its namespace keeps its pages out of the index, as the code does |
| PrefixCaching.PrefixCache.BeginInsert | hydraserve/cache/prefix_cache.py:202-280 | the walk, the sightings the shared part is offered with, one more than recorded and two at least, the recording itself, and the part of the path the policy admits |
| Doorkeeper.DecidedByOffers | hydraserve/cache/prefix_cache.py:234-303 | whatever the policy, what it is shown and how it decides: the whole path as seen once unless all of it is shared, then the shared part with its sightings; the longer part it admits goes in if and only if there is room |
| Doorkeeper.OnlySharedIsAdmitted | hydraserve/cache/prefix_cache.py:234-303 | a policy that wants two sightings or more admits an insertion exactly up to the part its path shares with the tree, if that is not empty, was seen often enough and has room, and two sightings are always offered; an insertion that shares no node is refused however often it was recorded, which the comment there does not say |
| Doorkeeper.SecondSightingIsAdmitted | hydraserve/cache/prefix_cache.py:182-333 | the run of two prompts that start alike behind such a policy: the first is refused, the second admitted up to the shared block |
| Doorkeeper.AdmittedNode | hydraserve/cache/prefix_cache.py:305-328 | what every node an admitted insertion passes records for the policy: the tokens that lead to it, its share of the cost, the most sightings offered, the order of use; it keeps its page, hits and holders |
| PrefixCaching.PrefixCache.MakeRoom | hydraserve/cache/prefix_cache.py:284-303 | reclaims exactly the shortage, sparing the shared path, or refuses without evicting |
| PrefixCaching.PrefixCache.Place | hydraserve/cache/prefix_cache.py:305-325 | a node keeps a page it already has; the others get the offered pages, which are reported as inserted |
| PrefixCaching.PrefixCache.Match | hydraserve/cache/prefix_cache.py:335-365 | the longest cached block prefix of the namespace, by comparison with trying every length; an acquiring match holds it |
| PrefixCaching.PrefixCache.Walk | hydraserve/cache/prefix_cache.py:335-365 | the walk down the tree computes that longest prefix and its pages in order |
| PrefixCaching.PrefixCache.Release | hydraserve/cache/prefix_cache.py:367-380 | an outstanding acquisition can always be released, whatever insertions, prunings and evictions came between; of anything else, which error it is or that it succeeds: exactly when every node of the path is there and referenced by others, and then the counts are no longer those of the acquisitions |
| PrefixCaching.TakenFromOthers | hydraserve/cache/prefix_cache.py:367-380 | a release of what nobody acquired leaves counts that are not those of the acquisitions |
| PrefixCaching.PrefixCache.AdjustReferences | hydraserve/cache/prefix_cache.py:482-506 | all references of a path move by one, or on any error none does |
| PrefixCaching.PrefixCache.Evict | hydraserve/cache/prefix_cache.py:382-390 | hands back exactly min(max, countable) pages, those of the victims in their order (that they are distinct is `PageSharing.EvictedPages`) |
| PrefixCaching.PrefixCache.EvictLocked | hydraserve/cache/prefix_cache.py:508-542 | the loop with an arbitrary score is a complete eviction run, each victim minimal among the unreferenced unprotected leaves; it stops only at the quota or with no leaf left |
| PrefixCaching.PrefixCache.CountEvictable | hydraserve/cache/prefix_cache.py:544-567 | the one-pass count equals the number of pages evictions could reclaim |
| PrefixCaching.PrefixCache.RecordFrequency | hydraserve/cache/prefix_cache.py:451-473 | one more sighting; the frequency map never outgrows its budget: when a new key finds it full all counts are halved, and if that drops none, one of the least is |
| PrefixCaching.PrefixCache.PruneBlocklessLeaves | hydraserve/cache/prefix_cache.py:421-449 | only page-less leaves go, and exactly as many as the budget is exceeded by, or all there are |
| PrefixCaching.BudgetHoldsIff | hydraserve/cache/prefix_cache.py:421-449 | the metadata budget holds after a pruning if and only if there were enough page-less leaves |
| PrefixCaching.PrunedOnce | hydraserve/cache/prefix_cache.py:421-449 | so a rejected prompt of many blocks leaves all its nodes but one, whatever the budget |
| PrefixCaching.PrunedKeeps | hydraserve/cache/prefix_cache.py:421-449 | pruning keeps shape, pages and acquisitions |
| PrefixCaching.AdmittedBlocks | hydraserve/cache/prefix_cache.py:261-280 | the longer of the two offers, whole path and shared part, that the policy admits, and nothing only if it admits neither |
| PrefixCaching.Halved | hydraserve/cache/prefix_cache.py:451-473 | aging halves the counts, keeps those above one and drops the others |
| PrefixCaching.SparedPath | hydraserve/cache/prefix_cache.py:284-303 | eviction around a path leaves the pages on it alone |
| LostPages.OnlyExposed | hydraserve/cache/prefix_cache.py:201-305 | whatever the policy: an eviction can empty the insertion's own namespace only if the insertion shares no node, nothing in the namespace is held and the shortage is at least the namespace's pages |
| LostPages.ExposedEmpties | hydraserve/cache/prefix_cache.py:201-305 | and then some policy does empty it |
| LostPages.LosesPagesIff | hydraserve/cache/prefix_cache.py:201-305 | so whether an admitted insertion can lose its pages is decided by the tree before the call: a condition the code does not test |
| LostPages.SecondPromptIsExposed | hydraserve/cache/prefix_cache.py:201-305 | the condition at the smallest input: a cache of one page, two prompts |
| LostPrompt.SecondPromptIsLost | hydraserve/cache/prefix_cache.py:182-333 | that input run under the default policy: the second insertion reports its page as inserted, its lookup finds nothing, the page stays counted, and the next prompt is refused for want of room |
| LostPrompt.BlankIsWorthLess | hydraserve/cache/prefix_cache.py:76-95 | why the default policy does it: a node that has no page yet is always worth less than a page |
| Publishing.AdmittedMoves | hydraserve/cache/prefix_cache.py:201-333 | an admitted insertion moves exactly the pages it reports between caller and tree |
| Publishing.DroppedMoves | hydraserve/cache/prefix_cache.py:201-333 | one whose namespace was emptied counts its pages but no node refers to them |
| Publishing.InsertMoves | hydraserve/cache/prefix_cache.py:201-333 | whatever is decided, the tree's pages move as the result says |
| PageSharing.EvictedPages | hydraserve/cache/prefix_cache.py:508-542 | eviction hands back distinct pages, each of which leaves the tree |
| PageSharing.FilledPages | hydraserve/cache/prefix_cache.py:305-325 | filling a path adds the pages it was missing and no others |
| PageSharing.SharingGrant | hydraserve/cache/paged_kv.py:77-124 | pages nobody refers to can be given to a request; what they held is forgotten |
| PageSharing.SharingPublish | hydraserve/cache/paged_kv.py:141-179 | publishing keeps every shared page the same token prefix for all who list it |
| PageSharing.SameCell | hydraserve/cache/paged_kv.py:314-362 | two requests that share a cell read the same token prefix there |
| PageLedger.ReferencesAddUp | hydraserve/cache/paged_kv.py:276-290 | all references together are those the requests list plus one per page the cache counts, lost pages included |
| PageLedger.DrainedPages | hydraserve/cache/paged_kv.py:129-139 | with no request and no cached node left, a page is free if and only if it was not lost; all are free if and only if none was lost |
| PageLedger.UnheldIsReclaimable | hydraserve/cache/prefix_cache.py:544-567 | when nothing is acquired everything cached can be reclaimed |
| PagedKV.PagedKVCache.Allocate | hydraserve/cache/paged_kv.py:77-124 | an admitted request starts on the longest cached prefix of its prompt, reads there as its own tokens without having computed them, and gets free pages for the rest; if they are short it evicts exactly as many cached pages as it lacks, or all that can be evicted around the prefix, and only such; that suffices if and only if enough of them are nobody else's, so where only the cache holds them a request is admitted exactly if the free pages and all of them together are enough; every refusal and failure gives back what it took; all ownership and content invariants hold after it |
| PagedKV.PagedKVCache.AllocateMatched | hydraserve/cache/paged_kv.py:94-124 | the part after the match is acquired: success records the match, failure releases it |
| PagedKV.PagedKVCache.AcquireMatch | hydraserve/cache/paged_kv.py:89-93 | the match and its acquisition, pending until a request takes it over |
| PagedKV.PagedKVCache.Reclaim | hydraserve/cache/paged_kv.py:99-107 | eviction for a shortage reclaims as many cached pages as are short, or all that can be, and spares what somebody acquired |
| PagedKV.OnlyCachedIsFreed | hydraserve/cache/paged_kv.py:95-103 | evicting pages that no request lists and that were not lost frees every one of them |
| PagedKV.AcquiredIsSpared | hydraserve/cache/paged_kv.py:89-107 | what can be evicted once the prefix is acquired is what can be evicted around it |
| PagedKV.PagedKVCache.Grant | hydraserve/cache/paged_kv.py:108-124 | the request holds its matched pages and free ones, and the acquisition is its own |
| PagedKV.PagedKVCache.Withdraw | hydraserve/cache/paged_kv.py:114-121 | a pending acquisition is given back |
| PagedKV.PagedKVCache.Write | hydraserve/cache/paged_kv.py:314-362 | stores the values of the request's positions past its shared prefix; no published page and no other request reads differently after it |
| PagedKV.PagedKVCache.WriteDecodeBatch | hydraserve/cache/paged_kv.py:380-476 | succeeds exactly if every row's position is its own request's, past its shared prefix and on a page within the table; checks every row before the first cell is written, then writes one position per request, disturbing nobody |
| PagedKV.PagedKVCache.RowErrorIs | hydraserve/cache/paged_kv.py:395-428 | which error refuses a row, and when none does |
| PagedKV.PagedKVCache.Read | hydraserve/cache/paged_kv.py:478-514 | the gathered sequence is, at every written or matched position, the value of the request's own token prefix |
| PagedKV.PagedKVCache.Gather | hydraserve/cache/paged_kv.py:478-514 | gathering page by page is the logical sequence |
| PagedKV.PagedKVCache.ReserveAppend | hydraserve/cache/paged_kv.py:126-127 | more room on formerly free pages; nobody else's view changes |
| PagedKV.PagedKVCache.RollBack | hydraserve/cache/block_manager.py:230-244 | a request rolls back without cutting into what it published, and everybody reads as before |
| PagedKV.PagedKVCache.Free | hydraserve/cache/paged_kv.py:129-139 | the request's references and its hold on its matched prefix are given back, nobody else's view changes |
| PagedKV.PagedKVCache.PublishPrefix | hydraserve/cache/paged_kv.py:141-179 | the complete prompt pages are offered; the tree ends with exactly one reference on each page it reports inserted, none on the others, and evicted pages are released |
| PagedKV.PagedKVCache.Audit | hydraserve/cache/paged_kv.py:276-290 | the worker's leak check passes in every reachable state, also after pages were lost |
| PagedKV.PagedKVCache.AddUp | hydraserve/cache/paged_kv.py:276-290 | why it passes: both sides count a lost page once |
| PagedKV.PagedKVCache.DrainedIsFree | hydraserve/cache/paged_kv.py:129-139 | when the last request is freed every cached page can be evicted, and then exactly the lost pages are still in use |
| PagedKV.WriteKeepsRequests | hydraserve/cache/paged_kv.py:314-362 | writing a position's own value changes what no request reads |
| PagedKV.WriteKeepsPages | hydraserve/cache/paged_kv.py:314-362 | nor what any published page holds |
| PagedKV.GrantHolds | hydraserve/cache/paged_kv.py:77-124 | a matched prefix already reads as the new request's own tokens |
| PagedKV.PublishHolds | hydraserve/cache/paged_kv.py:141-179 | published pages hold their path's values because the request filled them |
| TokenPaths.UptoChunks | hydraserve/cache/paged_kv.py:314-362 | the tokens up to a position are spelled by the path of its page |
| FairScheduler.FairDecodeScheduler.Select | hydraserve/engine/fair_scheduler.py:41-85 | a round that serves a candidate serves everyone who is favoured over it: nowhere behind in priority, service, wait and deadline, and somewhere ahead as far as the configuration gives that weight, or of smaller id; the first `limit` candidates in score order, each once, and exactly they are charged one service; which error when, also the one that is noticed only after the round began |
| FairScheduler.FavouredRanksFirst | hydraserve/engine/fair_scheduler.py:55-83 | of two candidates the one that is nowhere behind and somewhere ahead ranks first |
| FairScheduler.RankedFirstIsPicked | hydraserve/engine/fair_scheduler.py:84-85 | whoever ranks before a selected candidate is selected |
| FairScheduler.RoundCharges | hydraserve/engine/fair_scheduler.py:62-88 | each candidate has an account after a round, with one more service now if it was selected, and nobody else has one |
| FairScheduler.FairDecodeScheduler.Rate | hydraserve/engine/fair_scheduler.py:55-83 | scores the candidates in order and opens accounts for the new ones |
| FairScheduler.FairDecodeScheduler.Forget | hydraserve/engine/fair_scheduler.py:87-88 | drops one account |
| FairScheduler.Sorted | hydraserve/engine/fair_scheduler.py:41-85 | sorting by score and identifier is an ordered permutation |
| FairScheduler.Urgency | hydraserve/engine/fair_scheduler.py:55-83 | the deadline term lies between zero and its bias |
| BoundedBypass.BoundedBypass | hydraserve/engine/fair_scheduler.py:41-85 | a request that stays a candidate and is passed over waits at most Patience + 1 + (pool - 1) / limit rounds, for arbitrary arrivals, departures, forgotten accounts and services of others; Patience is the floor of its past service plus all biases over the aging weight |
| BoundedBypass.AheadIsRecent | hydraserve/engine/fair_scheduler.py:55-85 | whoever goes first was served, or arrived, less than Patience rounds after the request's own last service |
| BoundedBypass.FullBatchAhead | hydraserve/engine/fair_scheduler.py:41-85 | a round that passes a request over serves a full batch ahead of it |
| BoundedBypass.RoundShrinks | hydraserve/engine/fair_scheduler.py:41-85 | each such round uses up a batch of the rivals that are left |
| BoundedBypass.Patience | hydraserve/engine/fair_scheduler.py:55-83 | that many rounds of aging outweigh any lead |
| DecodeTransaction.RuntimeGenerationBackend.Decode | hydraserve/engine/serving_loop.py:1762-1861 | at most 2n runtime calls, whose answers are exactly the trace; successes and failures split the batch; a request failed if and only if its last attempt did, and then it was alone in it; every length and state is where those answers put it, everybody else's is untouched; while the reservations last the answers alone decide the calls; argument errors change nothing |
| DecodeTransaction.RuntimeGenerationBackend.Step | hydraserve/engine/serving_loop.py:1836-1861 | the attempt on the whole batch, then bisection: the attempts, as a function of the runtime's answers |
| DecodeTransaction.RuntimeGenerationBackend.Isolate | hydraserve/engine/serving_loop.py:1845-1861 | bisection until every failure stands alone, in less than 2n attempts, each recorded with the runtime's answer |
| DecodeTransaction.RuntimeGenerationBackend.AttemptGroup | hydraserve/engine/serving_loop.py:1796-1834 | one attempt advances every request of the group or none; it succeeds exactly when the runtime's answer is no fault, and lacks pages only if a reservation is used up |
| DecodeTransaction.RuntimeGenerationBackend.Run | hydraserve/engine/serving_loop.py:1804-1834 | the runtime's answer decides the attempt; what the call, its rollback and the sampling leave of it, also when it fails before its input is built or after the commit |
| DecodeTransaction.RuntimeGenerationBackend.Restore | hydraserve/engine/serving_loop.py:1781-1794 | lengths return to their bases; states return as far as their tensors were not overwritten in place |
| DecodeTrace.CleanIff | hydraserve/engine/serving_loop.py:1781-1834 | a request's state is exact if and only if no attempt on it failed past its commit, or its steps go to fresh tensors |
| DecodeTrace.FailedStep | hydraserve/engine/serving_loop.py:1781-1834 | a failed attempt leaves the state that the count of late failures describes |
| DecodeTrace.MarksAre | hydraserve/engine/serving_loop.py:1781-1834 | the count of late failures is zero exactly when no runtime call on the request failed past its commit, and likewise for those whose input was not built |
| DecodeTransaction.FailsIff | hydraserve/engine/serving_loop.py:1843-1861 | a request failed if and only if the last attempt that named it named it alone and did not succeed, for a fault or for want of pages |
| DecodeTransaction.HalvesPlanned | hydraserve/engine/serving_loop.py:1845-1861 | if the reservations suffice for the attempts that follow from the runtime's answers, those are the attempts that are made |
| DecodeTrace.NeverLate | hydraserve/engine/serving_loop.py:1804-1834 | a request that no runtime call of the step fails past its commit has no late failure |
| DecodeTrace.RecordedAnswers | hydraserve/engine/serving_loop.py:1804-1812 | every fault in a trace is the runtime's answer to one of its calls |
| DecodeTrace.StandingNext | hydraserve/engine/serving_loop.py:1781-1834 | one attempt, however it ends, leaves a request where its mark says, and within its reservation on the pages it has |
| LateFailure.LateFailureFoldsTwice | hydraserve/engine/serving_loop.py:1781-1834 | the input, run: one request, a failure after the commit, a retry; a token comes back and the state has folded the old one twice on one KV position |
| RuntimeBackend.MeetsIff | hydraserve/engine/serving_loop.py:1762-1861 | the decode step is what the serving loop relies on if and only if no row vouched for was in an attempt whose trace the rollback leaves behind |
| RuntimeBackend.TracelessIsUntouched | hydraserve/engine/serving_loop.py:1781-1834 | which holds whenever no runtime call on the request fails past its commit into shared tensors or before its input is built |
| RuntimeBackend.HousedStep | hydraserve/engine/serving_loop.py:1796-1834 | a step leaves an admitted request on its own pages and reservation, one token longer with its new token or where it was: housed again |
| RuntimeBackend.HousedHasRoom | hydraserve/engine/serving_loop.py:1796-1803 | no batch of such requests lacks a page at any attempt of the step |
| RuntimeBackend.Worker.Admit | hydraserve/engine/serving_loop.py:1621-1686 | a grant is a slot and pages to the end of the longest answer; no state changes |
| RuntimeBackend.Worker.Prefill | hydraserve/engine/serving_loop.py:1724-1760 | the first token of the request's own prompt on as many KV positions, or everything is given back |
| RuntimeBackend.Worker.Recover | hydraserve/engine/serving_loop.py:1692-1722 | the exact state of prompt and tokens but the last, housed to the end again, or everything is given back |
| RuntimeBackend.Worker.Release | hydraserve/engine/serving_loop.py:1875-1882 | pages, slot and state go, nobody else's |
| RuntimeBackend.Worker.Decode | hydraserve/engine/serving_loop.py:1762-1861 | the runtime backend keeps the loop's contract for decode exactly under `MeetsIff`, so always on rows the runtime leaves no trace in; a housed batch stays housed, and its attempts and whether the contract is kept follow from the runtime's answers alone, before the call |
| BackendAdmission.AdmissionDesk.Reserve | hydraserve/engine/serving_loop.py:1624-1686 | a slot and pages, both or neither; refused for good if and only if an idle worker could not hold it or it already holds another size; an idle worker accepts everything else; a half-held request is cleared first; who holds both keeps them; others keep what they have |
| BackendAdmission.AdmissionDesk.Grant | hydraserve/engine/serving_loop.py:1662-1679 | a slot without pages goes back |
| BackendAdmission.AdmissionDesk.Admit | hydraserve/engine/serving_loop.py:1621-1622 | an accepted request is housed to the end of its longest answer |
| BackendAdmission.AdmissionDesk.Readmit | hydraserve/engine/serving_loop.py:1692-1700 | so is a recovering one, at the length of its replay; a history longer than the longest answer is an error that holds nothing |
| BackendAdmission.AdmissionDesk.Release | hydraserve/engine/serving_loop.py:1875-1882 | gives both back |
| GenerationStream.SoloPrefix | hydraserve/engine/serving_loop.py:1236-1257 | the stream a request has alone is one stream: shorter runs are prefixes of longer ones |
| GenerationStream.StepFollowsSolo | hydraserve/engine/serving_loop.py:1796-1831 | a decode step from a state that has folded prompt + generated[:-1] yields the next token of that stream and such a state again |
| GenerationStream.PrefillFollowsSolo | hydraserve/engine/serving_loop.py:1724-1760 | prefill does the same from nothing |
| GenerationStream.SameStream | hydraserve/engine/serving_loop.py:1692-1722 | two unended streams of a request agree as far as both go, however it was scheduled |
| GenerationStream.UnendedIsShort | hydraserve/engine/serving_loop.py:1289-1305 | an unended stream is no longer than was asked for |
| GenerationStream.EndsIff | hydraserve/engine/serving_loop.py:1289-1305 | a stream stops exactly at an end token that is not ignored or at the end of a stop sequence, and otherwise ends exactly at its full length |
| GenerationStream.UnendedIff | hydraserve/engine/serving_loop.py:1289-1305 | an unended stream came to none of these before its last token |
| GenerationStream.NextStepIsReserved | hydraserve/engine/serving_loop.py:1615-1619 | a stream that has not ended has room for its next step in its reservation |
| GenerationStream.WholeLifeFits | hydraserve/engine/serving_loop.py:1615-1619 | from the first token to the last, no decode step of an admitted request needs a page beyond its reservation |
| GenerationStream.DecodeNeedsNoPage | hydraserve/engine/serving_loop.py:1796-1812 | nor does any batch of such requests |
| GenerationBackend.Backend.Decode | hydraserve/engine/serving_loop.py:1132-1206 | what the loop relies on: a clean row that advanced folded its token on one KV position more and got the token of its own state, a clean row that failed is where it was, others are untouched; the runtime backend provides it under `RuntimeBackend.MeetsIff` |
| ServingLoop.ContinuousGenerationLoop.Submit | hydraserve/engine/serving_loop.py:296-344 | queues a request if queue length and queued tokens allow it; identifiers are never reused |
| ServingLoop.ContinuousGenerationLoop.TakeCandidates | hydraserve/engine/serving_loop.py:1440-1455 | every queued request is in hand, once |
| ServingLoop.ContinuousGenerationLoop.PendingDone | hydraserve/engine/serving_loop.py:1480-1486 | the queue's count and tokens equal the queued sums, so the underflow guard is unreachable |
| ServingLoop.ContinuousGenerationLoop.DeferHead | hydraserve/engine/serving_loop.py:841-844 | a deferred candidate keeps its place in the books |
| ServingLoop.ContinuousGenerationLoop.DeferRemaining | hydraserve/engine/serving_loop.py:1457-1460 | so do the rest of the candidates |
| ServingLoop.ContinuousGenerationLoop.Admit | hydraserve/engine/serving_loop.py:797-878 | a whole pass keeps every book: each request in exactly one place, the limit on active ones, queue sums, streams, states, ownership; it leaks exactly the candidates whose answers in this pass were a deferral and then an acceptance |
| ServingLoop.ContinuousGenerationLoop.AdmitHead | hydraserve/engine/serving_loop.py:806-853 | one candidate: preemption for a slot, what it takes off the token budget, cancellation, expiry; what the backend was asked and answered, and that it leaks exactly on a deferral followed by an acceptance |
| ServingLoop.ContinuousGenerationLoop.NotAdmitted | hydraserve/engine/serving_loop.py:836-853 | asked again exactly if it was deferred and some active request may be pushed aside; accepted then, it is ended and its grant is leaked; otherwise nothing is |
| ServingLoop.ContinuousGenerationLoop.Decide | hydraserve/engine/serving_loop.py:822-877 | the verdict on one candidate as a function of the backend's answers |
| LeakingAdmission.SecondAcceptanceLeaks | hydraserve/engine/serving_loop.py:797-878 | the input, run: one request runs, a more urgent one is deferred, pushes it aside and is accepted: it is ended and what it was granted is leaked for good |
| ServingLoop.ContinuousGenerationLoop.Start | hydraserve/engine/serving_loop.py:854-877 | prefill's token is the stream's first; the request is active or over |
| ServingLoop.ContinuousGenerationLoop.TryPreemptFor | hydraserve/engine/serving_loop.py:880-936 | an active request leaves exactly if one is strictly less urgent and preempted less often than allowed; of those it is the least urgent, and on the shortest replay of those that are as urgent |
| ServingLoop.UrgencyIsAnOrder | hydraserve/engine/serving_loop.py:925-936 | urgency is a strict order, by priority and then deadline, so equal requests never push each other aside and nobody pushes back |
| ServingLoop.ContinuousGenerationLoop.SetAside | hydraserve/engine/serving_loop.py:904-923 | the backend gave its state and pages up, and it waits to be recovered |
| ServingLoop.ContinuousGenerationLoop.RecoverPreempted | hydraserve/engine/serving_loop.py:953-1006 | each waiting request is visited once, oldest first: those asked to recover are asked in queue order, those that go on waiting keep it; a recovered one goes on from the exact state of its own tokens; nobody else moves, nothing leaks |
| ServingLoop.ContinuousGenerationLoop.Recover | hydraserve/engine/serving_loop.py:953-1006 | the replay is the prompt and all generated tokens but the last |
| ServingLoop.ContinuousGenerationLoop.DecodeOnce | hydraserve/engine/serving_loop.py:1132-1206 | one batch of at most so many active requests: each row the backend gave a token has it, unless its deadline passed; the others and everybody else generate nothing; all books hold and nothing leaks |
| ServingLoop.ContinuousGenerationLoop.AcceptDecodeSample | hydraserve/engine/serving_loop.py:1236-1257 | the token reaches the request and its handle, or the deadline passed and neither has it and the request is over |
| ServingLoop.ContinuousGenerationLoop.AcceptSample | hydraserve/engine/serving_loop.py:1236-1257 | the handle hears the token; the request goes on if and only if the token neither stops its stream nor fills it up, and otherwise is being released for that reason |
| ServingLoop.ContinuousGenerationLoop.SuspendOrFail | hydraserve/engine/serving_loop.py:1208-1234 | a recoverable failure sets the request aside, another one ends it |
| ServingLoop.ContinuousGenerationLoop.Close | hydraserve/engine/serving_loop.py:1328-1377 | with a release the handle hears the end only after the resources are back; at most one end per handle |
| ServingLoop.ContinuousGenerationLoop.CompleteRelease | hydraserve/engine/serving_loop.py:1379-1419 | the background release returns the resources, then the handle hears the end, for the reason it was released, and as a failure otherwise only where a release failed |
| ServingLoop.ContinuousGenerationLoop.RemoveCancelledOrExpired | hydraserve/engine/serving_loop.py:1259-1284 | exactly the active requests that were cancelled, or whose deadline is over, are being released, as cancelled or as failed; everybody else's request and place is as it was |
| ServingLoop.ContinuousGenerationLoop.Shutdown | hydraserve/engine/serving_loop.py:1421-1438 | whoever waits or is preempted is told that it was cancelled, whoever is active is being released as cancelled, each exactly once; nothing is left in a queue and nothing leaks |
| ServingLoop.ContinuousGenerationLoop.Drain | hydraserve/engine/serving_loop.py:374-391 | the outstanding releases finish |
| ServingLoop.ContinuousGenerationLoop.AllHeard | hydraserve/engine/serving_loop.py:1328-1419 | when nothing is left to do, every handle has heard its own request's tokens and exactly one end, which is true of them, the tokens are a prefix of the request's solo stream where its decode steps were clean, and the backend holds leaked resources only |
| ServingLoop.ContinuousGenerationLoop.NothingGoesOn | hydraserve/engine/serving_loop.py:1236-1305 | no stream of any request went on past an end token, a stop sequence or its full length, and no request that has not ended has come to one |
| ServingLoop.ContinuousGenerationLoop.EndsAreTrue | hydraserve/engine/serving_loop.py:1289-1419 | a handle hears of a stop only after the end token or a stop sequence, of the full length only at it and without either, and of a cancellation only before any of them |
| ServingBooks.DemandOrder | hydraserve/engine/serving_loop.py:1440-1486 | the queued tokens do not depend on the order of the queue |
| DecodePrepare.StepKeepsConsistent | hydraserve/engine/pd_service.py:1360-1531 | every block under the state lock, and every call between two of them, keeps the books of a request |
| DecodePrepare.RunKeepsConsistent | hydraserve/engine/pd_service.py:1360-1531 | so does every interleaving |
| DecodePrepare.ReleasedIsClean | hydraserve/engine/pd_service.py:1633-1654 | under every interleaving a released request ends with no reservation, state slot, pages or lease, and every pin was dropped once |
| DecodePrepare.ReleaseIsForGood | hydraserve/engine/pd_service.py:1633-1654 | whatever a release finds and whatever follows, nothing is left of the request once thread and loop are at rest, until it is reserved or prepared again |
| DecodePrepare.CancelledIsClean | hydraserve/engine/pd_service.py:1419-1521 | after every run, a cancel or a release that finds a prepare running undoes it in every interleaving: not live once the prepare is over, and no pages, installed state or lease once its thread has ended, each pin dropped once |
| DecodePrepare.UncancelledIsInstalled | hydraserve/engine/pd_service.py:1402-1485 | a prepare that has received and is not called off ends with the request installed on its pages, the lease dropped |
| DecodePrepare.PrepareCanSucceed | hydraserve/engine/pd_service.py:1360-1500 | with or without a reservation nothing but its sender keeps a prepare from that end |
| DecodePrepare.SecondPrepareFails | hydraserve/engine/pd_service.py:1390-1484 | a prepare without a reservation of a request that has pages never receives onto them; it fails and leaves nothing |
| DecodePrepare.ReleaseGivesAllBack | hydraserve/engine/pd_service.py:1633-1654 | a release that finds no prepare can always be carried through and gives everything back |
| DecodePrepare.WholeLife | hydraserve/engine/pd_service.py:1300-1654 | the run of one request from its reservation to its release: one pin, dropped once |
| DecodePrepare.ThreadCanRest | hydraserve/engine/pd_service.py:1390-1500 | the background thread can always come to its end on its own steps |
| DecodePrepare.CommandsSpareThePrepare | hydraserve/engine/pd_service.py:1513-1654 | neither a cancel nor a release frees anything a live prepare uses |
| DecodePrepare.EarlyReserveIff | hydraserve/engine/pd_service.py:1471-1497 | reserving an identifier whose prepare has just ended is refused exactly while its old thread still has the pages; otherwise the reservation keeps its pages and its lease until its own prepare or release, however the old thread's rest comes in, if and only if that thread has no pages left to free and, where a lease was taken, is over |
| DecodePrepare.EarlyReserveLosesItsPages | hydraserve/engine/pd_service.py:1471-1497 | the run in which the old thread frees the new reservation's pages |
| DecodePrepare.EarlyReserveLosesItsLease | hydraserve/engine/pd_service.py:1495-1497 | the run, a step later, in which it drops the lease the new reservation has just taken |
| DecodePrepare.EarlyPrepareIff | hydraserve/engine/pd_service.py:1360-1375 | preparing an identifier whose prepare has just ended is sound in every interleaving with the old thread's rest, until it is reserved again, if and only if that thread has nothing left to free or unpin |
| DecodePrepare.EarlyPrepareLosesItsPages | hydraserve/engine/pd_service.py:1360-1375 | the run in which the old thread frees the pages the new prepare has received into |
| BatchScheduler.ContinuousBatchScheduler.Add | hydraserve/engine/continuous_batching.py:57-76 | a waiting request joins the line with pages reserved to its end, exactly if there are as many, or an error changes nothing |
| BatchScheduler.ContinuousBatchScheduler.SeedFirstToken | hydraserve/engine/pd_worker.py:528-530 | a worker appends the first token after prefill or transfer, which leaves the pages one behind the tokens |
| BatchScheduler.ContinuousBatchScheduler.NextPrefillBatch | hydraserve/engine/continuous_batching.py:78-102 | first come first served; each item is the next chunk of its prompt, as long as the rest, the chunk size and what is left of the budget allow; the budget is used up unless the line is |
| BatchScheduler.ContinuousBatchScheduler.PrefillHead | hydraserve/engine/continuous_batching.py:83-101 | one chunk of exactly that length; an unfinished prompt goes to the end of the line |
| BatchScheduler.ContinuousBatchScheduler.MarkPrefillComplete | hydraserve/engine/continuous_batching.py:104-115 | accepted if and only if the whole prompt was scheduled and is in prefill |
| BatchScheduler.ContinuousBatchScheduler.MarkTransferComplete | hydraserve/engine/continuous_batching.py:117-123 | accepted if and only if a transfer is pending |
| BatchScheduler.ContinuousBatchScheduler.NextDecodeBatch | hydraserve/engine/continuous_batching.py:125-156 | ready requests start in order up to the limit; the batch is all running requests with their newest tokens; all of them are preempted exactly if the step needs more pages than there are, which cannot happen while first tokens come from prefill and more were asked for |
| BatchScheduler.ContinuousBatchScheduler.Launch | hydraserve/engine/continuous_batching.py:134-156 | growth of the whole batch exactly if the pages suffice, or preemption of the whole batch |
| BatchScheduler.ContinuousBatchScheduler.CommitDecodeTokens | hydraserve/engine/continuous_batching.py:158-173 | succeeds if and only if every request of the batch still runs, so always for an intact one; each request before the first that does not run gets its own token and ends at its limit, also when it fails, at every try; after a cancellation it fails every time and the batch stays in flight |
| BatchScheduler.ContinuousBatchScheduler.AppendTokens | hydraserve/engine/continuous_batching.py:163-172 | the tokens up to the first request that no longer runs, and no further |
| BatchScheduler.ContinuousBatchScheduler.FailDecodeBatch | hydraserve/engine/continuous_batching.py:175-184 | an intact batch fails as a whole; after a cancellation this fails too |
| BatchScheduler.ContinuousBatchScheduler.Preempt | hydraserve/engine/continuous_batching.py:186-196 | accepted if and only if the request is running and not in flight; its pages go back, and how long its state was follows from where its first token came from |
| BatchScheduler.ContinuousBatchScheduler.Resume | hydraserve/engine/continuous_batching.py:198-221 | reserves again, exactly if the pages suffice; the replay with the last generated token is everything the request has; it is as long as the state given up if and only if the first token came from prefill, or there is none |
| BatchScheduler.ContinuousBatchScheduler.MarkRecomputeComplete | hydraserve/engine/continuous_batching.py:223-229 | accepted if and only if the request is recovering |
| BatchScheduler.ContinuousBatchScheduler.FailRecompute | hydraserve/engine/continuous_batching.py:231-241 | pages go back; retried or ended |
| BatchScheduler.ContinuousBatchScheduler.Cancel | hydraserve/engine/continuous_batching.py:243-254 | ends a request wherever it stands; an in-flight batch that contains it is wedged for good |
| BatchScheduler.ListedMoved | hydraserve/engine/continuous_batching.py:44-52 | each queue holds exactly the requests of its state, once each, across any transition |
| BatchScheduler.ReachedFrom | hydraserve/engine/scheduler.py:24-47 | the table of transitions read backwards: which states lead to each, and nothing leads on from an end; every change the scheduler makes to a request keeps to it |
| SchedulerRuns.CancelledInFlight | hydraserve/engine/continuous_batching.py:158-184 | the input, run: a request of the in-flight batch is cancelled; commit, fail and the next batch are errors from then on |
| SchedulerRuns.ShorterReplay | hydraserve/engine/continuous_batching.py:186-221 | the input, run: an unseeded request decodes one token and is preempted; its replay is one token, the state given up was two |
| SchedulerRuns.OneTokenTooMany | hydraserve/engine/continuous_batching.py:125-173 | the input, run: a seeded request for one token is decoded once more and ends with two |
| BatchScheduler.ContinuousBatchScheduler.EndsTooLongIff | hydraserve/engine/continuous_batching.py:158-173 | a finished request has more tokens than it asked for, and a running one will with its next, if and only if it asked for none, or for one that its prefill had brought |
| RpcChannel.RunKeepsConsistent | hydraserve/engine/collocated_multi.py:434-512 | every interleaving of callers, worker and lock holders keeps the channel consistent and takes at most six steps per call |
| RpcChannel.StepKeepsAwaited | hydraserve/engine/collocated_multi.py:485-501 | what a waiting caller waits for is always under way |
| RpcChannel.ReachesOnlyItsCaller | hydraserve/engine/collocated_multi.py:434-512 | a call returns the worker's answer to itself |
| RpcChannel.ReturnsItsAnswer | hydraserve/engine/collocated_multi.py:464-512 | a call that returns returns the worker's answer to it and leaves nothing behind |
| RpcChannel.MailIsForWaiters | hydraserve/engine/collocated_multi.py:479-509 | no response is kept for a call that is over, and the pending count is the number of waiting calls |
| RpcChannel.MailboxHasRoom | hydraserve/engine/collocated_multi.py:485-501 | a mailbox is empty when its response is put; the pending count equals the waiters, so its clamp never bites |
| RpcChannel.NeverStuck | hydraserve/engine/collocated_multi.py:464-509 | while a call waits some thread can go on without anybody giving up |
| RpcChannel.QuietMeansServed | hydraserve/engine/collocated_multi.py:464-509 | when nothing is under way every waiter has its response |
| LoadLedger.LoadLedger.Claim | hydraserve/engine/collocated_multi.py:380-386 | the chosen worker is charged one request, its prompt and what it may generate, one token at least, and its prompt |
| LoadLedger.LoadLedger.Unassign | hydraserve/engine/collocated_multi.py:398-416 | what was charged is taken off in full and no clamp bites, and the ledger stays exact, if and only if it is taken off the worker it was charged to |
| LoadLedger.LoadLedger.Bind | hydraserve/engine/collocated_multi.py:609-614 | the claim becomes the request's binding |
| LoadLedger.LoadLedger.MarkPrefillComplete | hydraserve/engine/collocated_multi.py:418-432 | the prompt is taken off once, the decode work stays; the ledger stays exact if and only if the request, as far as its prompt still weighs, is bound to the worker that ran its prefill |
| LoadLedger.LoadLedger.TakeDown | hydraserve/engine/collocated_multi.py:728-730 | binding and load go together |
| LoadLedger.LoadLedger.EndRelease | hydraserve/engine/collocated_multi.py:713-731 | the ledger stays exact if and only if this release took the binding down at the worker it began with, or took nothing down and that worker's count was zero |
| LoadLedger.TwoReleasesAtOnce | hydraserve/engine/collocated_multi.py:713-731 | the input, run: two releases of one request while another is bound to the worker; the worker then counts nobody |
| LoadLedger.ReboundDuringRelease | hydraserve/engine/collocated_multi.py:713-731 | the input, run: a second release finishes and the request comes back on another worker before the first one ends; its load then comes off a worker that does not have it |
| LoadLedger.Leaves | hydraserve/engine/collocated_multi.py:398-416 | an entry that leaves a column is counted in it |
| LoadLedger.IdleIsZero | hydraserve/engine/collocated_multi.py:398-432 | with nothing claimed, bound or leaving every column is zero |
| LoadLedger.NewestStands | hydraserve/engine/collocated_multi.py:287-313 | in whatever order numbered capacity reports arrive, the newest stands |
| LoadLedger.LatestStands | hydraserve/engine/collocated_multi.py:287-313 | a report with the number of the newest so far replaces it |
| LoadLedger.UnnumberedStands | hydraserve/engine/collocated_multi.py:287-313 | a report without a number always stands and lets no older one pass afterwards |
| HostCache.HostPrefixCache.Put | hydraserve/cache/host_prefix_cache.py:105-156 | stored if and only if it fits beside what is pinned, or the key is pinned, even if it is stale and nothing is stored; the bytes stay within the limit and equal the sum of the sizes; pinned entries stay; the index lists the stored and the stale keys, and a key becomes stale exactly when an unpinned entry is replaced by one that does not fit |
| HostCache.HostPrefixCache.MakeRoom | hydraserve/cache/host_prefix_cache.py:132-143 | evicts the first unpinned entries in order of use, and no more of them than make room; the branch without a victim is unreachable |
| HostCache.HostPrefixCache.FirstUnpinned | hydraserve/cache/host_prefix_cache.py:132-138 | the least recently used entry that is not pinned |
| HostCache.HostPrefixCache.Reclaimable | hydraserve/cache/host_prefix_cache.py:126-131 | the bytes evictions could reclaim |
| HostCache.HostPrefixCache.RemoveIndex | hydraserve/cache/host_prefix_cache.py:158-172 | the key leaves every node of its path and empty nodes go |
| HostCache.HostPrefixCache.AddIndex | hydraserve/cache/host_prefix_cache.py:144-156 | the key joins every node of its path |
| HostCache.HostPrefixCache.MatchKey | hydraserve/cache/host_prefix_cache.py:174-195 | the exact entry, else one of the shortest keys the index lists that share the longest block-aligned prefix with the prompt |
| HostCache.HostPrefixCache.Match | hydraserve/cache/host_prefix_cache.py:197-214 | an error exactly when the key it is served by is stale, never while no candidate is stale, always when all are; otherwise the longest prefix shared with anything stored, and the prompt's own values, stale keys or not; the entry becomes the most recent |
| HostCache.HostPrefixCache.Pin | hydraserve/cache/host_prefix_cache.py:216-234 | the same, and the pin counts before the entry is read: a failed lookup leaves it on the stale key |
| HostCache.HostPrefixCache.Unpin | hydraserve/cache/host_prefix_cache.py:236-245 | gives one pin back, if there is one, in every state |
| HostCache.UnpinnedExists | hydraserve/cache/host_prefix_cache.py:126-138 | where bytes can be reclaimed some entry is not pinned |
| HostIndex.LongestShared | hydraserve/cache/host_prefix_cache.py:174-195 | the reference answer, by trying every length |
| HostIndex.UnderMeansSharing | hydraserve/cache/host_prefix_cache.py:174-195 | a key below a node of the prompt's path starts with the prompt's tokens |
| HostIndex.IndexedDangles | hydraserve/cache/host_prefix_cache.py:121-131 | what a refused replacement leaves behind |
| HostCache.LongestOfFewer | hydraserve/cache/host_prefix_cache.py:174-195 | stale keys never make a lookup that is served find less than the stored ones allow |
| DanglingIndex.RefusedReplacement | hydraserve/cache/host_prefix_cache.py:105-156 | the input, run: a refused replacement, after which the prompt's lookup raises, the pin of that lookup stays, and storing it anew reports success and stores nothing |
| ChunkTransfer.ChunkIsWholePages | hydraserve/engine/pd_worker.py:32-65 | any positive limits give a size: whole pages, at most the requested size, at most half a page over the target, each unless that is less than a page, and no more pages keep to both |
| ChunkTransfer.LighterTokensLongerChunks | hydraserve/engine/pd_worker.py:32-65 | a token that weighs less makes no smaller chunk |
| ChunkTransfer.EstimateIsWhatIsSent | hydraserve/engine/pd_worker.py:48-57 | the weight of a token is what the codecs send for it, exactly for whole groups and short by less than a group otherwise |
| ChunkTransfer.CompressedIsLighter | hydraserve/engine/pd_worker.py:48-57 | from four elements on INT4 weighs no more than INT8, and that no more than the full form |
| ChunkTransfer.Process | hydraserve/engine/pd_worker.py:98-257 | for every chunk size, host prefix and split, the ranges sent are the ranges announced; they tile what the prefix leaves, the manifest is accepted, and past the prefix they are cut at the multiples of the chunk size and before a last token on its own, and nowhere else |
| ChunkTransfer.AcceptedIffTiles | hydraserve/transfer/pipeline.py:177-187 | the manifests the reader accepts are exactly the tilings |
| ChunkTransfer.StartsAreAligned | hydraserve/engine/pd_worker.py:128-140 | every chunk starts on a page boundary |
| ChunkTransfer.AnnouncedTiles | hydraserve/engine/pd_worker.py:128-140 | clipping a tiling at the host prefix is a tiling of the rest |
| ChunkTransfer.Receive | hydraserve/engine/pd_worker.py:350-432 | installing prefix and chunks where their ranges say yields the whole KV, and so does joining them for the host cache |
| MemoryPlan.PlanLeavesTheStates | hydraserve/cache/memory_planner.py:73-108 | if the planner succeeds and the pages take what it planned, the state pool sized afterwards gets every slot and workspace it was promised |
| MemoryPlan.PlanIsLargest | hydraserve/cache/memory_planner.py:96-97 | one more page would eat into what is held back |
| MemoryPlan.PlanIs | hydraserve/cache/memory_planner.py:41-108 | exactly when planning succeeds and with how much: it fails for lack of memory only if a single page would not leave the states their fraction and the reserve beside the guard, and otherwise shrinks the request to the most pages that do |
| MemoryPlan.PoolFits | hydraserve/cache/state_pool.py:181-229 | clamped or not, the pool fits its budget and its workspace does not exceed its slots |
| MemoryPlan.PoolExistsIff | hydraserve/cache/state_pool.py:196-229 | there is a pool if and only if one slot and its workspace fit |
| MemoryPlan.PoolIsLargest | hydraserve/cache/state_pool.py:181-229 | of all sizes up to what is wanted the pool is the largest that fits with its share of workspaces |
| MemoryPlan.BudgetIsMost | hydraserve/cache/state_pool.py:11-20 | the budget is the most whole bytes within the fraction of the free memory that leave the reserve |
| MemoryPlan.AmpleIsFull | hydraserve/cache/state_pool.py:196-229 | a sufficient budget is not cut down |
| KvQuantizer.QuantizeInt4 | hydraserve/cache/kv_quantizer.py:64-81 | the padded buffer, the scales and the packed codes are those of the codec's definition; a group size that is not positive is an error |
| KvQuantizer.DequantizeInt4 | hydraserve/cache/kv_quantizer.py:84-94 | the interleaved buffer restores that definition's values |
| KvQuantizer.Int4RoundTrip | hydraserve/cache/kv_quantizer.py:64-94 | for every tensor and group size: each element is within half a step of its group, and encoding the decoded tensor gives the same scales and bytes |
| KvQuantizer.UnpackedIsBack | hydraserve/cache/kv_quantizer.py:77-90 | unpacking inverts packing at every length, odd ones included |
| KvQuantizer.EncodedIsStable | hydraserve/cache/kv_quantizer.py:97-121 | encode, decode, encode is encode, for INT4 and INT8 alike |
| KvQuantizer.IsNear | hydraserve/cache/kv_quantizer.py:97-121 | the error bound for any number of levels |
| KvQuantizer.CodeIsRint | hydraserve/cache/kv_quantizer.py:75-76 | the clipping never bites |
| KvQuantizer.PeakIsExact | hydraserve/cache/kv_quantizer.py:73-76 | the largest magnitude of a group survives exactly |
| KvQuantizer.ScaleIsOwn | hydraserve/cache/kv_quantizer.py:71-77 | the scale of a group is its own: the largest level stands for the largest of the tensor's elements in it, which come back exactly, whatever fills the group up |
| KvQuantizer.ZerosStay | hydraserve/cache/kv_quantizer.py:75-77 | a group of zeros has the scale 1 and decodes to zeros |
| KvQuantizer.RintIsNear | hydraserve/cache/kv_quantizer.py:77 | rounding is to the nearest integer, and of two as near to the even one |

## Left out

- Statistics, high-water marks, metric strings and error texts: they influence no decision.
- Model kernels, CUDA streams and events, float rounding and widths: the runtime is a deterministic step per request, numbers are integers and reals.
- HTTP server, process spawning, restarts, the wire formats of the transfer backends and the shared-memory ring.
- The multi-worker routing heuristics, worker scores and the choice between healthy workers: the ledger's worker is any worker.
- The disaggregated loop with its asynchronous prefill, recovery and independent decode: only the synchronous path of the loop is modelled.
- The prefill worker's short and long command queues and their budget.
- Radix nodes as linked objects: a node is an entry of a map from its path; a dropped root is modelled by its effect, that the nodes below it are out of the index.
- The order in which dictionaries are walked and ties are broken: candidates of an admission pass, decode batches of the loop and host-index sources are any that satisfy the rule.
- PagedKV.PagedKVCache.Write: the INT8 form of the on-device store, with a scale per token and head, is not modelled; cells hold values.
- PagedKV.PagedKVCache.Allocate: a store without a prefix cache is not modelled; it is the case of an empty one that admits nothing.
- PagedKV.PagedKVCache.ReserveAppend: growth of a batch is proved on the allocator (`GrowMany`); on the joined store it is one request at a time.
- ServingLoop.ContinuousGenerationLoop.DecodeOnce: the batch is any within the limits; which active requests the fair scheduler chooses, and so `BoundedBypass`, is proved for the scheduler and not carried through the loop.
- RuntimeBackend.Worker.Prefill: publishing the prompt's prefix is not modelled here; `PagedKV.PagedKVCache.PublishPrefix` is.
- BoundedBypass.BoundedBypass: assumes that no deadline of a candidate has passed, since an expired one is urgent without bound.
- DecodeTransaction.RuntimeGenerationBackend.Decode: the physical pages written by a failed attempt are not part of its state; they lie beyond the restored lengths.
- GenerationBackend.Backend.Decode: the loop is proved against this contract; for a row that is not clean it only says that the row keeps a state. A call that raises as a whole may leave its rows in any state.
- DecodeTransaction.RuntimeGenerationBackend.Isolate: a request has generated a token before it is decoded, as every active one has.
- BackendAdmission.AdmissionDesk.Reserve: pages are taken from the allocator without a cached prefix, so eviction for an admission and the prefix match that clearing a half-held request leaves behind are not modelled here; `PagedKV.PagedKVCache.Allocate` has the eviction.
- PagedKV.PagedKVCache.RollBack: stated for lengths that keep what the request has published; the decode step that rolls back never goes below its prompt.
- PrefixCaching.PrefixCache.Evict: that its pages are distinct needs the owners of pages and is proved in `PageSharing.EvictedPages`.
- HostCache.HostPrefixCache.Match: which of several equally short candidates serves a lookup is not modelled, so a lookup with both stale and stored ones among them may fail or not.
- BatchScheduler.ContinuousBatchScheduler.Add: a request that already brings generated tokens is not modelled; the scheduler that creates requests makes none.
- DecodePrepare.EarlyPrepareIff: until the identifier is reserved again; a lease recorded later can still fall to an old thread that has not ended.
- DecodePrepare.ThreadCanRest: that the sender eventually answers or the receive times out is assumed.
- RpcChannel.NeverStuck: responses without an identifier, a worker that dies and the health flags are not modelled; a caller that gives up stands for every timeout.
- HostCache.HostPrefixCache.Put: every payload occupies something; quantized payloads are stored whole and not sliced, and the exact-entry mark of an index node, which lookups do not use, is not modelled.
- ChunkTransfer.Receive: a lossy wire form is not modelled here; `KvQuantizer` bounds what it loses.
- KvQuantizer.Int4RoundTrip: reals instead of 32-bit floats, and a flat tensor with its size instead of a shape.
- MemoryPlan.PlanLeavesTheStates: fractions are exact; devices other than CUDA are not clamped and not modelled.
- The recurrent-state pool's installation, batching and copying of tensors, and its slot manager.
- The cost-aware admission policy's other parameters: the cache is proved for every policy, and `LostPrompt` runs the default one.
