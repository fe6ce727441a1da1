# Verified models of a subnet node

Dafny models of the parts of the subnet node whose behaviour is hardest to see from the code, and
proofs of what they promise. `dafny verify dfyconfig.toml` checks the whole project.

| module | what it models |
|---|---|
| `Wrappers`, `Orders` | shared types, and the first member of a finite set |
| `MempoolSchema` | the columns of the mempool tables |
| `MempoolWalk` | the eager scheduler, the nonce cache, and why the lazy mining walk refines the scheduler |
| `MempoolSync` | the rows a sync query sees, its pages, and the byte stream of a sync reply |
| `MempoolTables` | admission, replacement by fee, cascading deletion, the bloom set, and runs of all of these |
| `MempoolDB` | the database class itself: submission, collection, the walk, paging, streaming |
| `MempoolQuery` | the peer's side of a sync: decoding replies and following page ids |
| `BloomCounters`, `MempoolBloom` | the counting bloom filter, and what the mempool asks of it |
| `BurnchainPipeline` | the feeder and the three threads of burnchain sync as interleaved steps |
| `BurnchainStore` | the burnchain block store and its canonical tip |
| `FeeMedians`, `StableSort` | the weighted-median fee rate estimator |
| `Pessimistic` | the top-ten cost estimator |
| `Relaying`, `Conversation` | relayer checks, and the peer conversation with its handshakes |
| `Withdrawals` | withdrawal ids and keys |

Code that changes tables, fields or arrays step by step is a class or a method with loops. Each such
method is proved against a function on values, and the properties are lemmas about that function.

Several properties that one would expect turned out not to hold of the code as it stands. Each has
a lemma with an input that breaks it, and a statement of exactly when it holds:

- A sync stream ends in a page id unless the rows ran out. In fact the id is also sent when the rows
  ran out but the last row visited was one the peer already had (`TrailerAfterRowsRanOut`; exactly
  when: `StreamReply`). Following the ids nevertheless gives the peer everything (`SyncMempool`).
- An Ok answer of burnchain sync means that every header was processed. It does not when the stored
  tip is already at the target and the range has one to three headers: a failing parser then goes
  unnoticed (`FailureGoesUnnoticed`, `OkMeansCompleteExactly`).
- A slot's holder is displaced only by a higher fee or from another fork. That is so for origin slots;
  the holder of a sponsor slot is not compared with when another transaction holds the origin slot
  (`SponsorHolderDisplaced`, `SponsorSlotSafeExactly`).
- The nonces an account uses up during a walk have no gaps. A row that names its own account and nonce
  as its sponsor uses one nonce twice and moves the cache on twice (`SelfSponsoredGap`). An account has
  no gaps, whatever the chain and the closure, exactly if the mempool has no such row of it
  (`NeverGapsExactly`).
- The bloom set never advertises more than it is dimensioned for. Submissions may lag behind the newest
  row by less than the depth of the window, and no further (`LagOverflows`, `NeverOverflowsExactly`).
- The burnchain store depends only on the set of blocks it was given. That is so exactly when no two
  of them offer different contents for one new hash (`OrderMatters`, `OrderIndependentExactly`).
- The bins of the bloom counter stand for the items put in and not yet taken out. That is so exactly
  while no bin overflows and nothing is taken out that only seems to be there
  (`FalsePositiveErasesMember`, `HistoriesTrackExactly`). The mempool does ask for the removal of absent
  items, when the replaced transaction has already been recorded as removed (`ReplacedMayBeGone`) and
  when the eviction picks it once more (`ReplacedMayBeEvicted`); in all other runs, with room in the bins, the filter shows
  every row it should (`TameRunsAreShown`).
- A peer reads a sync reply back. It does exactly when the reply is no longer than its reader allows
  (`ReadBackExactly`).
- Withdrawal keys are distinct. Two keys coincide exactly when the heights agree, the ids agree in 32
  bits, and the same is withdrawn by the same principal (`KeysRepeat`, `KeysCoincideExactly`).
- Data-plane messages need a key. None gets to the data-plane handler or to the caller without one
  (`HandledAfterIntroduction`), but a message is handed, nacked or not, to whoever waits for its
  sequence number (`NackedButClaimed`), and to nobody else (`ProcessMessage`).

## Model

| member | source | states |
|---|---|---|
| MempoolWalk.PickIsBest | src/core/mempool.rs:862-932 | The picked row is of the sampled class if there is one such row; of its class no row has a higher fee rate, or without estimates a higher fee. |
| MempoolWalk.SampleIsByPercentage | src/core/mempool.rs:1040-1046 | A draw below the percentage asks for a row without an estimate, a draw at it does not. |
| MempoolWalk.FirstOfSubset | src/core/mempool.rs:862-888 | The best row of a larger result set is also the best row of any smaller set that still contains it. |
| MempoolWalk.LazyPickIsEagerPick | src/core/mempool.rs:890-932 | The query over cached (possibly empty) nonces picks nothing exactly when no transaction is ready; if the picked row has both nonces cached it is the scheduler's own pick. |
| MempoolWalk.BumpKeepsCoherence | src/core/mempool.rs:830-841 | Bumping both columns for one address turns the cache for some account nonces into the cache for the bumped nonces: all cells of one address stay empty together or equal. |
| MempoolWalk.LookupKeepsCoherence | src/core/mempool.rs:843-860 | Storing a looked-up nonce in both columns makes the cache agree with the account nonces on one more address. |
| MempoolWalk.ConsideredDies | src/core/mempool.rs:1071-1093 | After its nonces are bumped a considered transaction can never become ready again, and no dead one comes back. |
| MempoolWalk.WalkContinues | src/core/mempool.rs:1071-1093 | One consideration keeps the walk safe, on the eager schedule, and within its bound on rounds. |
| MempoolWalk.WalkLooksUp | src/core/mempool.rs:1052-1070 | One lookup round keeps the walk safe, on the eager schedule, and within its bound on rounds. |
| MempoolWalk.NoDoubleNoGaps | src/core/mempool.rs:1036-1095 | Whatever the chain and the closure, the nonces that the schedule uses up of an account without a doubling row are consecutive. |
| MempoolWalk.NeverGapsExactly | src/core/mempool.rs:1071-1093 | For unique slots: every schedule of a closure that touches only its own accounts leaves an account without gaps if and only if no row of the mempool sponsors itself at that account with equal nonces. |
| MempoolWalk.SelfSponsoredGap | src/core/mempool.rs:1089-1092 | One row that sponsors itself at nonce 0 is considered, and uses nonce 0 twice. |
| MempoolWalk.CacheIsExact | src/chainstate/stacks/db/transactions.rs:963-976 | If the closure applies every transaction it goes on from, the cached nonce of an account is the chain's if and only if no considered transaction of it sponsored itself. |
| MempoolWalk.WalkReflects | src/core/mempool.rs:1036-1095 | At every moment of a walk from reset nonces with such a closure, every filled cell of an account without a doubling row holds the chain's nonce. |
| MempoolDB.MemPoolDB.ResetLastKnownNonces | src/core/mempool.rs:823-828 | Afterwards the cache holds no nonce at all. |
| MempoolDB.MemPoolDB.BumpLastKnownNonces | src/core/mempool.rs:830-841 | The two updates leave the cache for the bumped account nonces. |
| MempoolDB.MemPoolDB.UpdateLastKnownNonces | src/core/mempool.rs:843-860 | The two updates add one address to the cache, or fail without effect when the nonce does not fit the column. |
| MempoolDB.MemPoolDB.GetNextTxToConsider | src/core/mempool.rs:894-932 | Answers that nothing is ready, or asks for one or two nonces that are really missing, or gives exactly the eager scheduler's pick with both nonces cached. |
| MempoolDB.MemPoolDB.WalkRound | src/core/mempool.rs:1036-1095 | One pass looks up missing nonces or considers the scheduler's pick, and comes closer to the end; or it ends the walk, for a cause that holds. |
| MempoolDB.MemPoolDB.IterateCandidates | src/core/mempool.rs:1015-1103 | No transaction is considered twice; each account's used nonces are consecutive if and only if no considered transaction of it sponsors itself, which only a doubling row of the mempool can; passes of the loop, the last one included, are at most addresses plus transactions plus one; a closure that touches only the accounts of its transaction sees the eager schedule. The walk ends for one of five causes, each with its condition: the deadline had passed at the last pass and at none before, a looked-up nonce did not fit its column, nothing was ready, or the closure stopped or failed on the last transaction; only the first two cut the schedule short. The answer and the final chain state follow from the cause. The cache follows the chain for a closure that applies what it goes on from. |
| MempoolDB.MemPoolDB.WalkFromReset | src/chainstate/stacks/miner.rs:915-960 | The same from reset nonces, with the schedule computed from the chain's own nonces: if no deadline passes within the walk and every nonce fits its column, a closure that touches only the accounts of its transaction is given the whole eager schedule. |
| MempoolSync.RowsListed | src/core/mempool.rs:1757-1790 | A page query lists exactly the recent, non-removed rows above the cursor, in increasing hashed order. |
| MempoolSync.CursorAdvances | src/core/mempool.rs:1757-1790 | Querying again from a listed row's hash lists exactly the rows after it. |
| MempoolSync.PageIsUnique | src/core/mempool.rs:1791-1832 | How many rows a page visits is determined by the rows, the limits and the peer's data. |
| MempoolSync.VisitRows | src/core/mempool.rs:1791-1832 | The loop returns exactly the rows the peer lacks among those visited, stops where the page definition says, and points the cursor at the last row visited. |
| MempoolDB.MemPoolDB.FindNextMissingTransactions | src/core/mempool.rs:1757-1832 | One page of the rows above the cursor; it fails exactly when a number does not fit a signed 64-bit column. |
| MempoolDB.MemPoolDB.FindAllMissingTransactions | src/core/mempool.rs:1757-1832 | Following the returned cursors gives every row the peer lacks, once and in order, in at most one page more than there are rows. |
| MempoolDB.MemPoolDB.MissingRows | src/core/mempool.rs:1757-1832 | What is missing: exactly the recent non-removed transactions above the cursor that the peer's data does not contain, in increasing hashed order. |
| MempoolSync.TrailerAfterRowsRanOut | src/core/mempool.rs:1925-1944 | A stream whose rows ran out, that sent all there was to send, and that nevertheless ends in a page id. |
| MempoolSync.StreamUnrolls | src/core/mempool.rs:1884-1924 | The specified stream splits at every page that sends something: its bytes, then the stream of the rows after it. |
| MempoolSync.StreamEnds | src/core/mempool.rs:1925-1953 | When a page sends nothing, the specified stream is the page id of the last row visited, or empty if there was none. |
| MempoolSync.ReplyResumes | src/core/mempool.rs:1836-1958 | A reply without a page id has sent everything the peer lacks; with one, what the peer lacks is what was sent followed by what it lacks above that id, and the id is that of a row further on. |
| MempoolDB.TxStreamData.constructor | src/chainstate/stacks/db/blocks.rs:587-608 | A new stream starts at its page id with nothing buffered. |
| MempoolDB.MemPoolDB.LoadNext | src/core/mempool.rs:1862-1955 | Refilling the buffer leaves the bytes still to be delivered unchanged and makes progress: the stream is corked or more rows are used up. |
| MempoolDB.MemPoolDB.StreamTxs | src/core/mempool.rs:1836-1958 | The bytes written followed by the bytes still to come are what was to come before; fewer than 2*count bytes are written, and fewer than count only when the stream is finished; the row budget is never exceeded. |
| MempoolDB.MemPoolDB.StreamReply | src/net/rpc.rs:2863-2890 | Whatever the chunk sizes, the chunks of a new stream concatenate to the one specified stream: the missing transactions among the rows visited, then 32 bytes of page id unless the rows ran out within the budget and there were none or the last one was sent (an if and only if); in at most one call more than there are bytes. |
| MempoolQuery.DecodeTxStream | src/net/http.rs:4015-4095 | The loop with its retry position, end-of-stream flag and bounded reader decodes a list of transactions and an optional page id, and fails on anything else, as the recursive decoder does on the bytes within the bound. |
| MempoolQuery.PageIdRoundTrip | src/net/http.rs:3977-4010 | The 32 bytes of a 256-bit hash read back as that hash. |
| MempoolQuery.DecodeRoundTrip | src/net/http.rs:4012-4095 | Any transactions, with or without a page id after them, decode to exactly those transactions and that page id. |
| MempoolQuery.ReadBackExactly | src/net/http.rs:4024-4095 | A reply decodes to what was sent if and only if it is no longer than the reader allows. |
| MempoolQuery.Query | src/net/p2p.rs:3505-3530 | One query, streamed in chunks and decoded, gives the transactions the peer lacks among the first rows above its cursor and where to go on, if and only if the reply is no longer than the reader allows. |
| MempoolQuery.SyncMempool | src/net/p2p.rs:3505-3530 | A peer that follows the page ids until a reply has none, and describes anew what it has in every query, receives from each stretch of rows exactly those its description at the time lacks, in at most one reply more than there are rows, if the replies fit. |
| MempoolQuery.ReceivedAll | src/net/p2p.rs:3505-3530 | With one description throughout, a peer receives everything it lacks. |
| MempoolQuery.ReceivedMembers | src/net/p2p.rs:3505-3530 | A row that every description lacks is received, and a row that every description has is not. |
| MempoolQuery.ReceivedInOrder | src/net/p2p.rs:3505-3530 | Nothing is received twice or out of order, whatever the descriptions. |
| MempoolTables.RemoveAll | src/core/mempool.rs:493-521 | The pruning loop takes every listed txid out of the counter once and records it as removed. |
| MempoolTables.Cheapest | src/core/mempool.rs:556-566 | The eviction query names a candidate of least fee. |
| MempoolDB.MemPoolDB.UpdateBloomCounter | src/core/mempool.rs:530-585 | Prune, forget the replaced transaction, evict at most one, insert: the tables afterwards are those of the specification. |
| MempoolTables.AdmittedExactly | src/core/mempool.rs:1281-1339 | Admitted if and only if all numbers fit signed 64-bit columns and the row in the origin slot, or for want of one the row in the sponsor slot, pays less or is in another fork. |
| MempoolDB.MemPoolDB.TrySubmit | src/core/mempool.rs:1258-1384 | Accepts exactly if the holder of the origin slot (or else of the sponsor slot) is beaten, changes the tables as specified, keeps the invariant, and changes nothing when it rejects. |
| MempoolDB.MemPoolDB.GarbageCollect | src/core/mempool.rs:1386-1406 | Deletes exactly the rows below a height, with their child rows, and keeps the invariant; fails without effect when the height does not fit the column. |
| MempoolDB.MemPoolDB.DropTxs | src/core/mempool.rs:1634-1642 | Deletes the named rows one by one, with their child rows, and nothing else; keeps the invariant. |
| MempoolDB.MemPoolDB.GetBloomTxids | src/core/mempool.rs:1687-1699 | Returns exactly the rows that are not recorded as removed, are above height zero and have no row two or more blocks newer; all of them are in the bloom set, and they are no more than the bound when it holds. |
| MempoolTables.After | src/core/mempool.rs:398-417 | The tables after any sequence of submissions, collections and drops: both kinds of slots have at most one holder, every row not recorded as removed is in the bloom set, removed rows are rows, and the paging and estimate tables have exactly the mempool's rows. |
| MempoolTables.UpdateBloomRepresents | src/core/mempool.rs:530-585 | Only the transaction being replaced can leave the bloom set without being recorded as removed, and the new one is in it. |
| MempoolTables.AdvertisedExactly | src/core/mempool.rs:1687-1699 | A row is advertised if and only if it is not recorded as removed, is above height zero, and no row is two or more blocks newer. |
| MempoolTables.NumRecentCounts | src/core/mempool.rs:1711-1727 | The number that triggers the eviction is that of the rows above height zero to which no row is two or more blocks newer. |
| MempoolBloom.ExpiredExactly | src/core/mempool.rs:530-546 | A submission prunes a row if and only if it is the first at its height and the row, not yet recorded as removed, is two blocks older. |
| MempoolBloom.VictimExactly | src/core/mempool.rs:553-584 | A submission evicts if and only if the newest two blocks have 8192 rows and an unremoved row is less than two blocks older; then the cheapest such row. |
| MempoolBloom.RemovedByUpdate | src/core/mempool.rs:530-585 | What a submission records as removed is exactly the pruned rows and the evicted one. |
| MempoolTables.PagingLosesNoRow | src/core/mempool.rs:1757-1790 | The joins of the sync query lose no recent row. |
| MempoolTables.EvictMakesRoom | src/core/mempool.rs:547-584 | If the count at the old maximum height sees all unremoved rows above the new floor, the eviction leaves room for one more. |
| MempoolTables.LagIsCounted | src/core/mempool.rs:547-584 | Although eviction is windowed by the new height and counting by the old maximum, the count sees all candidates of a submission that lags by less than the depth of the window. |
| MempoolTables.RunsStayBounded | src/core/mempool.rs:1687-1727 | If submissions lag behind the newest row by less than the depth of the window, mixed with collections and drops, the number of advertised txids never exceeds the maximum. |
| MempoolTables.LagOverflows | src/core/mempool.rs:547-584 | A run with submissions that lag by the depth of the window, and then the drop of the newest row, after which too many txids are advertised. |
| MempoolTables.NeverOverflowsExactly | src/core/mempool.rs:547-584 | All runs whose submissions lag by at most d stay within the bound if and only if d is less than the depth of the window. |
| MempoolTables.NonDecreasingNeverLags | src/core/mempool.rs:1687-1727 | Runs of submissions at non-decreasing heights, mixed with collections and drops, never lag and stay within the bound. |
| MempoolTables.AcceptedRows | src/core/mempool.rs:1341-1376 | An accepted submission is in the mempool, the paging table and the estimates as submitted; of the other rows exactly those in its own two slots are gone, and the rest keep their estimates. |
| MempoolTables.OriginHolderChange | src/core/mempool.rs:1281-1339 | An origin slot passes from one transaction to another only through a submission that pays more or is in another fork. |
| MempoolTables.SponsorSlotSafeExactly | src/core/mempool.rs:1281-1339 | For every fork relation: every admitted submission to two slots beats the holder of the sponsor slot if and only if nobody else holds the origin slot, or on every tip of the holder's fork the one who does is in the same fork and pays no less. |
| MempoolTables.SponsorHolderDisplaced | src/core/mempool.rs:1281-1339 | A run of two submissions after which a third one is admitted against the cheap transaction at its origin slot and displaces the rich one at its sponsor slot without beating it. |
| BloomCounters.RemoveInvertsInsertExactly | src/util_lib/bloom.rs:471-542 | Removing what was just inserted restores all bins if and only if no bin reached its ceiling. |
| BloomCounters.BloomCounter.InsertRaw | src/util_lib/bloom.rs:471-488 | Adds to each bin as often as the item draws it, saturating, and returns the least of its bins before, also when the item draws a bin twice. |
| BloomCounters.BloomCounter.CountRaw | src/util_lib/bloom.rs:492-510 | The least of the item's bins. |
| BloomCounters.BloomCounter.RemoveRaw | src/util_lib/bloom.rs:516-542 | Leaves the bins alone if one of the item's bins is empty, otherwise takes the item out of them; it panics exactly when a bin holds less than the item draws from it. |
| BloomCounters.BloomCounter.ToBloomFilter | src/util_lib/bloom.rs:546-570 | The bits set are those of the positive bins. |
| BloomCounters.ContainsRaw | src/util_lib/bloom.rs:294-309 | True exactly if all bits the item draws are set. |
| BloomCounters.ShownExactly | src/util_lib/bloom.rs:544-570 | The extracted filter contains an item if and only if the counter counts it. |
| BloomCounters.InsertTracksExactly | src/util_lib/bloom.rs:471-488 | Inserting keeps the bins equal to the load of the items if and only if no bin overflows. |
| BloomCounters.RemoveTracksExactly | src/util_lib/bloom.rs:513-542 | Removing acts on the bins as on the items if and only if the item is there or does not seem to be. |
| BloomCounters.MembersAreSeen | src/util_lib/bloom.rs:490-510 | No false negatives: the count of an item is at least its multiplicity. |
| BloomCounters.HistoriesTrackExactly | src/util_lib/bloom.rs:471-542 | Over every history from empty bins, the bins stay equal to the load of the items exactly as long as every change is careful. |
| BloomCounters.MembersMakeCareful | src/util_lib/bloom.rs:471-542 | If only members are taken out and the insertions times hashes fit a counter, every change is careful. |
| BloomCounters.BinsExist | src/util_lib/bloom.rs:471-542 | Such a history never panics. |
| BloomCounters.FalsePositiveErasesMember | src/util_lib/bloom.rs:513-542 | Removing an item that was never inserted can make a member disappear. |
| MempoolBloom.AskedHolds | src/core/mempool.rs:530-585 | Removing the expired rows in any order, then the replaced transaction and at most one victim, and inserting the new one, leaves the counter with the bloom multiset of the tables. |
| MempoolBloom.RunHolds | src/core/mempool.rs:530-585 | After every run, the items that the counter was asked to hold are the bloom multiset of the tables. |
| MempoolBloom.TameRunsAreShown | src/core/mempool.rs:1668-1671 | After every run in which no replaced transaction is recorded as removed after the pruning and none is picked by the eviction, and whose submissions times hashes fit a 32-bit counter, the filter taken from the bins contains every row not recorded as removed. |
| MempoolBloom.TameRunRemovesMembers | src/core/mempool.rs:530-585 | Such a run never asks for the removal of an item that is not there. |
| MempoolBloom.TameRunsCanBeDriven | src/util_lib/bloom.rs:516-542 | Such a run never makes the counter panic: there are bins for all of it. |
| MempoolBloom.RunHasParts | src/core/mempool.rs:530-585 | Every run of operations asks for some sequence of changes of the counter. |
| MempoolBloom.ReplacedMayBeGone | src/core/mempool.rs:547-551 | A run of two submissions after which a replacement removes a txid that the counter no longer holds. |
| MempoolBloom.ReplacedMayBeEvicted | src/core/mempool.rs:547-566 | A run after which the eviction picks the transaction that has just been replaced, so that it is taken out twice. |
| BurnchainPipeline.EveryInterleavingConserves | src/burnchains/burnchain.rs:725-864 | In every interleaving, with any stage failing at any time, processed ++ in flight ++ unfed is the input, in order and without duplicates. |
| BurnchainPipeline.Progress | src/burnchains/burnchain.rs:725-891 | Until every stage has exited, some step that needs no outside help is enabled. |
| BurnchainPipeline.Deadlock | src/burnchains/burnchain.rs:725-891 | A reachable state in which only faults can happen is one in which every stage has exited. |
| BurnchainPipeline.RunLength | src/burnchains/burnchain.rs:725-891 | A run over n headers has at most 8n + 11 steps. |
| BurnchainPipeline.FaultsAreAlwaysPossible | src/burnchains/burnchain.rs:725-864 | The downloader, the parser and the database thread may fail whenever they hold an item, and only then: no result depends on a fault being ruled out. |
| BurnchainPipeline.SettleIsLeast | src/burnchains/burnchain.rs:656-697 | The range starts at the lower of the stored tip and the synced height, and ends at the least of the header height, a target above the start, and the maximum number of blocks from there. |
| BurnchainPipeline.AnswerExactly | src/burnchains/burnchain.rs:866-894 | For every run, from its actions alone: the answer is a panic if and only if the insertion panicked, a closed coordinator if and only if announcing a block failed, and otherwise Ok with the height reached if and only if that is at least the target and the feeder did not fail. |
| BurnchainPipeline.GoodRunsAreOk | src/burnchains/burnchain.rs:725-894 | A run without faults processes every header and answers Ok with the end of the range. |
| BurnchainPipeline.OkMeansComplete | src/burnchains/burnchain.rs:866-894 | If the stored tip was below the target, or the range is empty or has at least four headers, an Ok answer means that every header was processed, whichever stage fails. |
| BurnchainPipeline.OkReachesTarget | src/burnchains/burnchain.rs:877-894 | If the stored tip was below the target, an Ok answer reports the target height and the whole range. |
| BurnchainPipeline.FailureGoesUnnoticed | src/burnchains/burnchain.rs:839-894 | For one to three headers behind a stored tip at the target, a run that answers Ok with nothing processed. |
| BurnchainPipeline.OkMeansCompleteExactly | src/burnchains/burnchain.rs:725-894 | The condition of OkMeansComplete is necessary and sufficient. |
| BurnchainPipeline.MisleadingOnlyBehindTip | src/burnchains/burnchain.rs:656-697 | A misleading answer is possible only when the synced headers are behind the stored tip. |
| BurnchainStore.ClassifiedAt | src/burnchains/db.rs:292-312 | Every transaction that is classified has its operation in the list, right after those of the transactions before it. |
| BurnchainStore.ClassifiedCount | src/burnchains/db.rs:292-312 | The list has as many operations as there are classified transactions. |
| BurnchainStore.OpsAreSortedStably | src/burnchains/db.rs:292-316 | A block's stored operations are a stable, vtxindex-sorted permutation of its classified transactions. |
| BurnchainStore.GetBlockstackTransactions | src/burnchains/db.rs:292-316 | The loop and the sort give exactly those operations. |
| BurnchainStore.StoredExactly | src/burnchains/burnchain.rs:497-526 | A new hash is stored if and only if some processed block whose header fits the columns offers it, and then with that block's entry. |
| BurnchainStore.ProcessOnlyAdds | src/burnchains/burnchain.rs:497-526 | Nothing stored is ever changed or lost. |
| BurnchainStore.SameContents | src/burnchains/burnchain.rs:497-526 | Two sequences of the same unambiguous blocks, with repeats and in any order, give the same contents. |
| BurnchainStore.OrderIndependentExactly | src/burnchains/burnchain.rs:497-526 | The contents are the same for every order if and only if no two blocks offer different entries for one new hash. |
| BurnchainStore.OrderMatters | src/burnchains/burnchain.rs:497-526 | Two blocks that claim one hash give different contents in the two orders. |
| BurnchainStore.RepeatChangesNothing | src/burnchains/burnchain.rs:497-526 | Processing a block again, however many blocks later, changes nothing. |
| BurnchainStore.CanonicalTip | src/burnchains/db.rs:251-255 | The tip is a stored header of greatest height and, among those, least hash; there is none exactly when the store is empty. |
| BurnchainStore.TipOnlyImproves | src/burnchains/db.rs:251-255 | Processing blocks never moves the tip to a worse header. |
| BurnchainStore.SameTip | src/burnchains/db.rs:251-255 | The tip does not depend on the order of arrival. |
| BurnchainStore.BurnchainDB.constructor | src/burnchains/db.rs:171-228 | A new database holds the first block's header only, and nothing processed. |
| BurnchainStore.BurnchainDB.StoreNewBurnchainBlock | src/burnchains/db.rs:318-337 | Stores the header and the sorted operations of a new hash, or fails without effect when a number of the header does not fit its column or the hash is already there. |
| BurnchainStore.BurnchainDB.ProcessBlock | src/burnchains/burnchain.rs:497-526 | A known hash is left alone; after any blocks the contents are those of the whole sequence processed since the database was created. |
| BurnchainStore.BurnchainDB.GetCanonicalChainTip | src/burnchains/db.rs:251-255 | Always succeeds: a stored header such that none is higher and none at its height has a smaller hash; the tip of all blocks processed so far. |
| StableSort.SortKeepsPointwiseOrder | src/cost_estimates/fee_medians.rs:133-158 | If one list is pointwise below another, it still is after both are sorted separately. |
| StableSort.SortIsStable | src/burnchains/db.rs:313-314 | Sorting keeps the elements of each key in their order. |
| FeeMedians.ValueIsBetween | src/cost_estimates/fee_medians.rs:259-286 | Every interpolated value lies between the smallest and the largest rate, zero weights included. |
| FeeMedians.ValueAscends | src/cost_estimates/fee_medians.rs:259-286 | Higher percentiles have no lower values. |
| FeeMedians.ValueAtEntry | src/cost_estimates/fee_medians.rs:244-286 | At the percentile of an entry of positive weight the value is that entry's rate. |
| FeeMedians.FeeRateEstimateFromSortedWeightedFees | src/cost_estimates/fee_medians.rs:237-286 | One pass with an index that never goes back computes the values at the three percentiles and never divides by zero. |
| FeeMedians.MaybeAddMinimumFeeRate | src/cost_estimates/fee_medians.rs:290-306 | The loop pads a block that is not full up to the full weight, unless the weights overflow 64 bits. |
| FeeMedians.PaddedIsFull | src/cost_estimates/fee_medians.rs:290-306 | After padding the total weight is at least the full weight. |
| FeeMedians.FeeRateAndWeightFromReceipt | src/cost_estimates/fee_medians.rs:313-356 | A paying receipt gives an entry whose weight is its cost and whose rate is the fee per unit of cost, where no cost counts as one, and the minimum where the fee is less than that. |
| FeeMedians.EntryOfReceipt | src/cost_estimates/fee_medians.rs:192-205 | The entry of each paying receipt is at the position given by the paying receipts before it, with that receipt's cost and rate. |
| FeeMedians.EntriesAreOfReceipts | src/cost_estimates/fee_medians.rs:192-205 | There are no other entries. |
| FeeMedians.UniformBlock | src/cost_estimates/fee_medians.rs:192-224 | A block whose paying transactions all pay one rate and together fill it measures that rate three times; one in which nobody pays more than the minimum measures the minimum. |
| FeeMedians.EstimateAtEntry | src/cost_estimates/fee_medians.rs:237-286 | An entry of positive weight at 5, 50 or 95 percent gives the low, middle or high value. |
| FeeMedians.TwoEqualEntries | src/cost_estimates/fee_medians.rs:237-286 | Two entries of equal weight give their two rates as low and high, and their mean as middle. |
| FeeMedians.MedianIsMiddle | src/cost_estimates/fee_medians.rs:138-158 | At least half of a sorted list is on each side of its median, which is midway between the two in the middle. |
| FeeMedians.MeasurableBlock | src/cost_estimates/fee_medians.rs:192-224 | Whatever the receipts, padding and sorting give a non-empty sorted list of positive weight without rates below the minimum. |
| FeeMedians.BlockMeasureOrdered | src/cost_estimates/fee_medians.rs:192-224 | Every block's measure satisfies 1 <= low <= middle <= high. |
| FeeMedians.MedianKeepsOrder | src/cost_estimates/fee_medians.rs:138-158 | Medians of two separately sorted lists keep the pointwise order of the lists. |
| FeeMedians.MedianEstimateOrdered | src/cost_estimates/fee_medians.rs:106-159 | If every measure is in order and not below the minimum, so is the estimate of the three medians. |
| FeeMedians.WeightedMedianFeeRateEstimator.UpdateEstimate | src/cost_estimates/fee_medians.rs:161-188 | Whatever the measure, the table goes on holding exactly the measures of the last windowSize blocks. |
| FeeMedians.WeightedMedianFeeRateEstimator.NotifyBlock | src/cost_estimates/fee_medians.rs:192-224 | Every block adds its measure to the history. |
| FeeMedians.WeightedMedianFeeRateEstimator.GetRateEstimates | src/cost_estimates/fee_medians.rs:106-159 | An estimate exists exactly when a block was seen and the window is not empty; it is the median of the last blocks' measures, and 1 <= low <= middle <= high. |
| Pessimistic.TopIsLargest | src/cost_estimates/pessimistic.rs:104-128 | The kept samples are part of the history, and nothing left out is larger than anything kept. |
| Pessimistic.MeanNeverDrops | src/cost_estimates/pessimistic.rs:104-146 | Once ten samples are held, another one never lowers the mean. |
| Pessimistic.MeanIsPessimistic | src/cost_estimates/pessimistic.rs:135-146 | The mean of the kept samples is never below the floored mean of the whole history. |
| Pessimistic.MeanRoundsDown | src/cost_estimates/pessimistic.rs:135-146 | The mean is the exact quotient of sum and number, rounded down. |
| Pessimistic.SteadyCostsAreReported | src/cost_estimates/pessimistic.rs:59-70 | An operation that always had the same cost is reported with that cost in each of the five dimensions, capped to what the column holds. |
| Pessimistic.Samples.LeastIndex | src/cost_estimates/pessimistic.rs:110-120 | Finds the first of the least items. |
| Pessimistic.Samples.UpdateWith | src/cost_estimates/pessimistic.rs:104-128 | After any history the items are, as a multiset, its ten largest samples; the answer says whether the new one is among them. |
| Pessimistic.KeyIsInjective | src/cost_estimates/pessimistic.rs:219-244 | Two descriptor and field pairs never share a row. |
| Pessimistic.DescriptorsCoincideExactly | src/cost_estimates/pessimistic.rs:219-244 | For names without colons and dots, which all names of the chain are: two operations share a descriptor if and only if they are of the same kind, and contract calls only if they call the same function in the same cost regime. |
| Pessimistic.PessimisticEstimator.UpdateField | src/cost_estimates/pessimistic.rs:148-157 | Exactly one row changes, and its stored value is the capped mean of its stored samples. |
| Pessimistic.PessimisticEstimator.NotifyEvent | src/cost_estimates/pessimistic.rs:254-292 | After any events every row stands for the history of its own descriptor and field. |
| Pessimistic.PessimisticEstimator.EstimateCost | src/cost_estimates/pessimistic.rs:294-332 | Succeeds exactly when an event with the same descriptor was recorded; every dimension is the capped mean of its ten largest costs. |
| Relaying.CheckRelayerCycles | src/net/chat.rs:1514-1523 | True exactly if no key hash occurs twice. |
| Relaying.CheckRelayersRemote | src/net/chat.rs:1526-1534 | True exactly if our own key hash does not occur. |
| Relaying.ProcessRelayers | src/net/chat.rs:1540-1568 | Passes exactly if both checks do; then every relayer's address is counted once and nothing else changes, otherwise nothing changes at all. |
| Relaying.PathIsRecorded | src/net/codec.rs:1129-1165 | Along a path the relayer list grows by exactly the nodes of the path, in order. |
| Relaying.NoNodeTwice | src/net/chat.rs:812-830 | No node occurs twice on a relay path, nor one already in the list the path starts with. |
| Relaying.PathsAreShort | src/net/chat.rs:1514-1568 | In a network of N nodes a path has at most N relays, and never more than a message has room for. |
| Conversation.KindsOfMessages | src/net/chat.rs:1925-1969 | The data plane is everything that is not about handshakes, nacks, pings or hole punches, and no two kinds of messages share an identifier. |
| Conversation.ConversationP2P.HasAcceptableEpoch | src/net/chat.rs:671-715 | True exactly if the peer supports our newest epoch or the current one. |
| Conversation.ConversationP2P.IsPreambleValid | src/net/chat.rs:721-791 | The checks in turn accept exactly the preambles of our network and major version, of an acceptable epoch, with heights the stable confirmations apart and no other hash for a stable block we know. |
| Conversation.SameRulesAreValid | src/net/chat.rs:721-791 | A peer of our version and network is believed if and only if it names no other hash for a stable block we know. |
| Conversation.ConversationP2P.ValidateHandshake | src/net/chat.rs:951-1030 | Accepts exactly a readable, unexpired key that is not ours, signed by itself if it is the first, and from the address we called if we called; a missing signature or an unreadable key is an invalid message, everything else an invalid handshake. |
| Conversation.ConversationP2P.UpdateFromHandshakeData | src/net/chat.rs:1035-1071 | Installs the identity of the handshake if its key decodes, otherwise changes nothing; says whether a different key was replaced. |
| Conversation.ConversationP2P.HandleHandshake | src/net/chat.rs:1099-1197 | An acceptable handshake installs its identity and our heartbeat and is answered with our own key and heartbeat; an invalid one is rejected, an unsigned or undecodable one breaks off, and so does a changed key that cannot be saved; a rejected or disabled handshake changes nothing. |
| Conversation.ConversationP2P.HandleHandshakeAccept | src/net/chat.rs:1202-1236 | Installs the accepted identity and the given heartbeat, at most six hours, exactly if the key decodes; otherwise changes nothing. |
| Conversation.ConversationP2P.HandleAuthenticated | src/net/chat.rs:1905-1969 | With a key, for every kind of message, the answer, the identity and the heartbeat afterwards: handshakes have their outcome, accepts install an identity, pings and hole punches are answered in kind, everything else is passed on untouched; all within the rules. |
| Conversation.ConversationP2P.HandleUnauthenticated | src/net/chat.rs:1974-2074 | The same without a key: a solicited accept with a readable key installs its identity and a capped heartbeat, one with an unreadable key breaks off, an unsolicited one is swallowed; rejections, nacks and hole-punch replies are passed on, hole punches are answered, and everything else is nacked and consumed. |
| Conversation.ConversationP2P.CountMessage | src/net/chat.rs:2151-2180 | One more message in the total and in its own type's count; the peer's heights and their hashes follow the preamble, never back, and stay both zero or stable confirmations apart. |
| Conversation.AddHealthpoint | src/net/chat.rs:168-177 | Appends a health point and keeps the newest 32. |
| Conversation.ConversationP2P.FulfillRequest | src/net/connection.rs:1224-1245 | The message is taken exactly if some request waits for its sequence number, and one such request is struck off. |
| Conversation.ConversationP2P.HandleDataMessage | src/net/chat.rs:1679-1772 | May be called with a data-plane message only if the peer has a key, and records the call; a push is forwarded exactly if its relayers check out and it is not throttled, and breaks the conversation off exactly if they do not or the nack cannot be sent; neighbour and inventory requests are answered, or forwarded if that fails; everything else is forwarded; every reply is listed. |
| Conversation.ConversationP2P.PassOn | src/net/chat.rs:2151-2244 | A message goes to whoever waits for it, who is struck off, else, if not consumed, to the data-plane handler, exactly once; the handler's own record of calls agrees. |
| Conversation.ConversationP2P.ProcessValid | src/net/chat.rs:2100-2244 | A message with a valid preamble: what the control plane makes of it, then, unless that breaks off, one of claimed, delivered or dropped; the replies, in order; counted either as a message or as unsolicited. |
| Conversation.PeersGetKnown | src/net/chat.rs:1099-1236 | A solicited accept with a readable key, and an acceptable first handshake that can be answered, end with the peer known under what it said. |
| Conversation.StrangersAreNacked | src/net/chat.rs:2040-2074 | From a peer without a key, data-plane messages, pings and pongs are nacked, never delivered, and teach us nothing. |
| Conversation.ConversationP2P.ProcessMessage | src/net/chat.rs:2094-2244 | One lawful record per message, which agrees with the handler's record of calls and with the waiting requests; a valid message is processed as above, so a solicited accept with a readable key ends with the peer known; an invalid preamble breaks off and changes only the error statistics. |
| Conversation.ConversationP2P.Chat | src/net/chat.rs:2081-2247 | Keeps every invariant over the whole inbox; fails exactly if a message ended the conversation, which is then the last one looked at; otherwise returns exactly the messages recorded as returned; calls the handler with exactly those recorded as delivered, in order; never removes a key; heights never decrease. |
| Conversation.KeyHasOrigin | src/net/chat.rs:951-1071 | In every run that ends with a key, the first key came from a self-signed, unexpired handshake that is not our own, or from a solicited handshake-accept, and the key was there ever since. |
| Conversation.DeliveredAfterIntroduction | src/net/chat.rs:1974-2074 | In every run from an unknown peer, a data-plane message that was delivered or returned came after a message that introduced the peer properly. |
| Conversation.ConversationP2P.HandledAfterIntroduction | src/net/chat.rs:2094-2244 | At any time of a conversation, every data-plane message the handler was ever called with came after a proper introduction. |
| Conversation.NackedButClaimed | src/net/chat.rs:2201-2217 | A push from a peer without a key is nacked, never handled, and still handed to the request that waits for its sequence number. |
| Conversation.OneMoreReceived | src/net/chat.rs:2157-2165 | Counting one message raises the sum of all per-type counts by one. |
| Withdrawals.KeyReadsBack | src/clarity_vm/withdrawal.rs:23-57 | A reader that knows the three tuple layouts gets back kind, recipient, amount or token, asset contract, id and height; the tuple has exactly the fields of its layout. |
| Withdrawals.KeyTells | src/clarity_vm/withdrawal.rs:81-202 | Two keys are equal if and only if id, height, kind, sender, amount or token, and asset contract are; asset names and earlier ids do not count. |
| Withdrawals.GenerateKeyFromEvent | src/clarity_vm/withdrawal.rs:59-202 | A withdrawal event gets the id and nothing else changes in it; its key reads back as its kind, recipient, amount or token, asset contract, id and height; any other event is left alone and has no key. |
| Withdrawals.LabelEvents | src/clarity_vm/withdrawal.rs:217-225 | The inner loop labels the events of one receipt and appends their keys, with a 32-bit counter. |
| Withdrawals.GenerateWithdrawalKeys | src/clarity_vm/withdrawal.rs:211-227 | The receipts are labelled in place and the keys come out in receipt and event order. |
| Withdrawals.BlockReadsBack | src/clarity_vm/withdrawal.rs:204-227 | The k-th key of a block reads back as its k-th withdrawal, with id k in 32 bits and the block's height. |
| Withdrawals.WithdrawnAt | src/clarity_vm/withdrawal.rs:211-227 | Every withdrawal event is the withdrawal of the block that its id says. |
| Withdrawals.ReceiptsAreLabelledThrough | src/clarity_vm/withdrawal.rs:211-227 | Labelling receipt by receipt is labelling all events of the block in one go. |
| Withdrawals.LabelAt | src/clarity_vm/withdrawal.rs:211-227 | Each withdrawal's id is the number of withdrawals before it; other events keep everything. |
| Withdrawals.ReceiptsKeepTheRest | src/clarity_vm/withdrawal.rs:211-227 | Nothing but withdrawal ids changes. |
| Withdrawals.SecondRunIsSame | src/clarity_vm/withdrawal.rs:211-227 | Running again changes nothing and gives the same keys. |
| Withdrawals.KeysCoincideExactly | src/clarity_vm/withdrawal.rs:134-227 | Two keys, of one block or of two, are equal if and only if the heights agree, their positions agree modulo 2^32 and the same is withdrawn. |
| Withdrawals.KeysAreDistinct | src/clarity_vm/withdrawal.rs:134-227 | Up to 2^32 withdrawals the keys of a block are pairwise distinct. |
| Withdrawals.HeightsAreDistinct | src/clarity_vm/withdrawal.rs:134-202 | Keys of blocks at different heights never coincide. |
| Withdrawals.KeysRepeat | src/clarity_vm/withdrawal.rs:211-227 | Equal withdrawals 2^32 apart share a key. |
| Withdrawals.ItemsCoincideExactly | src/clarity_vm/withdrawal.rs:204-227 | With an injective serialization, the same for the serialized items of the trees of any two blocks. |
| Withdrawals.ItemsAreDistinct | src/clarity_vm/withdrawal.rs:204-227 | Up to 2^32 of them, the items of a tree are pairwise distinct. |

## Left out

- SQLite itself: tables are maps, sequences and sets; transactions, indexes and I/O errors are not modelled. `INSERT OR REPLACE` and `ON DELETE CASCADE` are.
- Equal sort keys: where a query leaves the order of ties open, ties are broken by txid.
- Hashes are taken to be free of collisions where paging depends on it, and Clarity value serialization to be injective where the distinctness of serialized keys depends on it.
- Clocks, deadlines, random draws, signatures, key decoding, epochs and the throttle are parameters: the proofs hold for every behaviour of them.
- Floating point: rates, weights and medians are real numbers, without rounding, NaN or infinity.
- MempoolTables: the bloom counter is an exact multiset whose removal does nothing for an absent item; BloomCounters says exactly when the real counter behaves so, and MempoolBloom ties whole runs to its bins.
- MempoolQuery: the transaction format is a parameter of which it is assumed that stored transactions can be read back and that none fits into 32 bytes; what a peer makes of a reply that is longer than its reader allows is not described further, and neither is the time a reply takes.
- The mempool's admission checks by the chain state, the height lookup of the submitting tip, fee-rate estimation of queued transactions, and the events sent to observers.
- MempoolDB.MemPoolDB.BumpLastKnownNonces: does not model that a cached nonce past the largest signed 64-bit number turns into a floating-point one; no admitted row has such a nonce, so that no row matches it in either form.
- MempoolDB.MemPoolDB.LookUp: the loop over the at most two addresses of a lookup round is written out, without the set of addresses already done.
- MempoolDB.MemPoolDB.StreamTxs: a write error of the output and a malformed stored transaction are not modelled.
- BurnchainPipeline: the headers of a range are read before the threads start; an error while reading them is not modelled, nor is what a block holds.
- Pessimistic: sums and means are exact, where the source adds and divides floating-point numbers.
- Conversation: messages carry what the conversation looks at; inventories, neighbour lists, block bodies and our own address in an accept are not modelled, and neither is the panic on a push with an impossible payload length.
- Bandwidth averages: whether a push is throttled is a parameter.
- Withdrawals: the Merkle tree over the keys is not modelled; the 32-bit id counter wraps around, as it does without overflow checks.
- Clarity block processing, burnchain event parsing, the scalar fee estimator and its fuzzer, reward-cycle arithmetic and constants would only add easy members.
