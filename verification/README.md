# Verification of the zkNFT runtime pallets

A Dafny model of four stateful parts of the runtime under `src/zkNFT/pallets`, with proofs about every
run of them.

* **The shielded ledger (manta-pay).** UTXOs are registered in 256 shards, each with a Merkle
  accumulator; nullifiers go to an ordered log. A call changes seven storage items that must agree, or
  none. Wallets pull the shards and the log in bounded chunks. `ShieldedTypes`, `ShardLogs`,
  `Registration`, `ShardGrouping`, `LedgerInvariant`, `ProxyLedger`, `LedgerSteps`, `MantaPay`,
  `LedgerRuns`, `LedgerAccounting`, `ImplPay`, `WalletSync`.
* **Collator selection.** Candidates with reserved bonds, the percentile rule that evicts
  underperformers at the end of a session, and the reward pot. `Eviction`, `CollatorBonds`,
  `PotRewards`, `CollatorSelection`, `CollatorRuns`.
* **The asset manager.** Locations and ids of assets, and a table that counts the assets of every
  parachain, together with the migration that builds it. `AssetRegistry`, `AssetManager`, `AssetRuns`.
* **OrderedSet.** A set kept as a sorted vector. `OrderedSets`.

The mutable parts are classes whose methods follow the code's loops and in-place updates
(`ProxyLedger`, `CollatorSelection`, `AssetManager`, `OrderedSet`); each method is tied to a function
on values, and the theorems about runs are lemmas about these functions.

## How the ledger is modelled

* Hashing is a parameter (`AccumulatorModel`): the item hash, the shard a leaf selects, the root of a
  leaf sequence, and the capacity of a tree are arbitrary; every theorem holds for all of them.
* A stored tree keeps its last leaf, that leaf's index and, in place of the sibling digests, the
  earlier leaves they digest. The first insertion leaves the index at 0, later ones add 1, and an
  insertion into a full tree fails.
* A note that has no ledger form is `None`; its conversion fails in the middle of `register_all` or
  `spend_all`, after part of the storage was changed. The caller's rollback restores the storage.
* The library's `post` is the sequence of the checks it is documented to make (known output, unspent,
  unregistered, no duplicates inside the post), then `spend_all` with all spendings and `register_all`
  with all receivers. What else it decides (signature, proof, accounts before; public balances after)
  is a `Verdict` given with the call.
* The pull methods require, for the nullifier log and for every shard the pull comes to, that the index
  plus the effective chunk size (the requested size, at most 32768) stays below 2^64, the width of the
  index arithmetic in the code. A sync comes to every shard in the end.
* The wallet advances its checkpoint by the number of received UTXOs per shard, found by hashing each
  received UTXO; its loop is the one described for `sync`.

## How the collators are modelled

* A run of the collator pallet interleaves registrations, departures, removals, authored blocks,
  sessions, parameter changes, and steps of the rest of the runtime (`CollatorRuns.Event`).
* The rest of the runtime may set the free balance of an account and what it reserves itself to any
  value. It is assumed not to unreserve or slash more of an account's reserve than it put there; what
  this pallet put there it leaves alone.
* The pallet starts without candidates, and what is reserved then belongs to the rest of the runtime
  (the constructor's contract).

## Results that need a condition

* **Error of a batch.** The batch and the singles always fail together. The singles report the first
  faulty item, the batch the first faulty item of the lowest faulty shard, and the errors are the same
  if and only if these two fail in the same way (`Registration.ErrorsAgreeIff`); in particular when
  every note decodes. `Registration.ErrorsMayDiffer` is an input of the ledger call for which they
  differ. It is hypothetical for posts: a note of a post was itself read from its ledger form
  (`src/zkNFT/pallets/manta-pay/src/types.rs:512-521`) and is only turned back into it
  (`types.rs:499-509`), so the conversion should not fail; the model leaves it open because the
  encoding is library code. Both errors surface as the same internal error of the pallet.
* **End of a sync.** Pulling repeatedly ends if and only if nothing is missing of a kind that is asked
  for in chunks of size 0 (`WalletSync.SyncEndsIff`); `WalletSync.EmptyRequestNeverEnds` is the input
  for which it does not.
* **The count table.** `update_asset_location` accepts any existing asset, also one registered by an
  arbitrary signed account, whose recorded location is the native one. Moving such an asset to a
  parachain counts it there although nobody force-registered it (`AssetRuns.SignedAssetSpoilsTable`).
  `AssetRuns.UpdateKeepsTableIff` says, for every reachable storage, exactly which successful updates
  keep the table right, from what the storage shows before the call. That an asset was
  force-registered is visible in the storage over every run (`AssetRuns.ForcedStoredOverRuns`).
* **The locations.** The same two calls make the native location unknown, also when the table stays
  right; the next force-registered asset can then take it
  (`AssetRuns.SignedAssetFreesNativeLocation`). `AssetRuns.UpdateKeepsLocationsIff` says exactly which
  successful updates keep every known location with its asset, `AssetRuns.NativeLocationStaysIff`
  which keep the native location known.
* **The migration.** It rebuilds the maintained table if and only if the native location is on no
  other parachain than 2084 and no force-registered asset is on 2084
  (`AssetRuns.MigrationRebuildsIff`); `AssetRuns.MigrationDropsSelf` is a run after which it does not.
* **Clearing the performance map.** Without any validator the cursor loop gives up and nothing is
  cleared; with one or more it clears everything
  (`CollatorSelection.CollatorSelection.ResetCollatorPerformance`).
* **Rewards.** The transfer from the pot fails exactly when the author would stay below the
  existential deposit (`PotRewards.RewardPaidIff`); `PotRewards.RewardRefused` is such a case.

## Model

| member | source | states |
|---|---|---|
| ShardLogs.InsertExtendsTree | src/zkNFT/pallets/manta-pay/src/ledger.rs:171-181 | inserting into the tree of a log gives the tree and root of the extended log, or fails when the log has reached the capacity |
| ShardLogs.RepresentationUnique | src/zkNFT/pallets/manta-pay/src/lib.rs:155-174 | the contents of the shards determine UtxoSet, Shards and ShardTrees completely |
| Registration.RegisterEachAppends | src/zkNFT/pallets/manta-pay/src/ledger.rs:120-209 | registering items singly in input order succeeds iff every note decodes and every shard has room for its share, and then appends to every shard its share in input order |
| Registration.LastRootsAreSingleRoots | src/zkNFT/pallets/manta-pay/src/ledger.rs:200-206 | the roots the batch stores are among the roots the singles would store |
| Registration.BatchFailsWithSingles | src/zkNFT/pallets/manta-pay/src/ledger.rs:171-192 | batch and singles fail on the same inputs, with the capacity error in both when all notes decode |
| Registration.BatchFaultIffUnfit | src/zkNFT/pallets/manta-pay/src/ledger.rs:159-193 | the batch is free of faults iff every note decodes and no shard overflows |
| Registration.SinglesReportFirst | src/zkNFT/pallets/manta-pay/src/ledger.rs:171-193 | the singles report what goes wrong at the first item that finds no room in its shard or has an undecodable note |
| Registration.BatchReportsLowest | src/zkNFT/pallets/manta-pay/src/ledger.rs:151-193 | the batch reports what goes wrong at the first such item of the lowest shard that has one |
| Registration.FailureHasFaults | src/zkNFT/pallets/manta-pay/src/ledger.rs:171-193 | registration fails iff there is such an item |
| Registration.ErrorsAgreeIff | src/zkNFT/pallets/manta-pay/src/ledger.rs:151-193 | the errors agree iff the first faulty item and the first faulty item of the lowest faulty shard fail in the same way |
| Registration.ErrorsMayDiffer | src/zkNFT/pallets/manta-pay/src/ledger.rs:151-192 | an input, hypothetical for decoded posts, with an undecodable note for which the errors differ |
| Registration.BatchOfOne | src/zkNFT/pallets/manta-pay/src/ledger.rs:120-209 | a batch of a single item is exactly one single registration, output included |
| Registration.BatchAddsEntries | src/zkNFT/pallets/manta-pay/src/ledger.rs:171-193 | a batch that goes through stores exactly its items: each UTXO with its own note in the shard its hash selects; nothing stored before changes |
| Registration.SpendEachAddsSpents | src/zkNFT/pallets/manta-pay/src/ledger.rs:68-97 | spending puts the k-th nullifier with its own outgoing note at the k-th new position, and all commitments into the set |
| ShardGrouping.SortByShard | src/zkNFT/pallets/manta-pay/src/ledger.rs:151 | the sort is ascending by shard and keeps the items of each shard in their order |
| ShardGrouping.GroupByShard | src/zkNFT/pallets/manta-pay/src/ledger.rs:152-158 | the grouping loop yields, for exactly the touched shards in increasing order, all items of the shard |
| LedgerInvariant.EmptyStorageIsGood | src/zkNFT/pallets/manta-pay/src/lib.rs:155-193 | the empty storage satisfies the ledger invariant for every hashing |
| ProxyLedger.ProxyLedger.IsUnspent | src/zkNFT/pallets/manta-pay/src/ledger.rs:38-49 | refuses exactly the commitments in the nullifier set |
| ProxyLedger.ProxyLedger.HasMatchingUtxoAccumulatorOutput | src/zkNFT/pallets/manta-pay/src/ledger.rs:52-66 | accepts exactly the zero output and the stored outputs |
| ProxyLedger.ProxyLedger.SpendAll | src/zkNFT/pallets/manta-pay/src/ledger.rs:68-97 | fails iff some note does not decode, otherwise appends every nullifier with its own note, as spending singly does |
| ProxyLedger.ProxyLedger.IsNotRegistered | src/zkNFT/pallets/manta-pay/src/ledger.rs:109-117 | refuses exactly the UTXOs in the UTXO set |
| ProxyLedger.ProxyLedger.InsertGroup | src/zkNFT/pallets/manta-pay/src/ledger.rs:159-207 | one group is appended to its shard in all maps and only its last root is stored, or the first fault in the group is reported |
| ProxyLedger.ProxyLedger.RegisterAll | src/zkNFT/pallets/manta-pay/src/ledger.rs:120-209 | sorting, grouping and per-shard insertion end with the maps of the singles, every item stored with its own note, plus exactly the last root of each touched shard; on failure the error is that of the lowest faulty shard |
| LedgerSteps.BatchKeepsReceivers | src/zkNFT/pallets/manta-pay/src/ledger.rs:159-207 | a batch of fresh, distinct UTXOs keeps the receiver side of the invariant and appends to the logs |
| LedgerSteps.SpendEachKeepsSenders | src/zkNFT/pallets/manta-pay/src/ledger.rs:77-95 | fresh, distinct nullifiers are appended to the log, which keeps enumerating the set without repetition |
| MantaPay.CheckSenders | src/zkNFT/pallets/manta-pay/src/ledger.rs:38-66 | passes iff all nullifiers are unspent, distinct and proved against known outputs; an error names a real fault |
| MantaPay.CheckReceivers | src/zkNFT/pallets/manta-pay/src/ledger.rs:109-117 | passes iff all UTXOs are unregistered and distinct; an error names a real fault |
| MantaPay.GuardIffPermitted | src/zkNFT/pallets/manta-pay/src/lib.rs:202-312 | the guards let through exactly the signed calls with the right four lengths, no zero source or sink, and for `private_transfer_asset` the metadata's own zk address and an origin account |
| MantaPay.GuardErrors | src/zkNFT/pallets/manta-pay/src/lib.rs:202-312 | which error each first violated condition gives |
| MantaPay.PostKeepsInv | src/zkNFT/pallets/manta-pay/src/impl_pay.rs:142-184 | a successful post keeps the whole invariant and appends exactly its receivers and senders to the logs |
| MantaPay.PostTransaction | src/zkNFT/pallets/manta-pay/src/impl_pay.rs:142-184 | succeeds iff every check passes and everything fits, and then has the full effect; an error names a real fault |
| MantaPay.Dispatch | src/zkNFT/pallets/manta-pay/src/lib.rs:201-312 | a call succeeds iff it is permitted and its post goes through; it has its full effect or none, also after failing half-way, and keeps the invariant; guard errors come first |
| LedgerRuns.LogsAreHistory | src/zkNFT/pallets/manta-pay/src/ledger.rs:68-207 | after any run the logs are the earlier logs plus everything the successful calls brought, in order, and nothing of failed calls |
| LedgerRuns.StepStores | src/zkNFT/pallets/manta-pay/src/ledger.rs:68-207 | a successful call stores exactly its receivers and senders, each with its own note |
| LedgerRuns.ReceiversStay | src/zkNFT/pallets/manta-pay/src/ledger.rs:159-207 | the UTXO of every receiver of every successful call is stored with its own note in its shard ever after |
| LedgerRuns.SendersStay | src/zkNFT/pallets/manta-pay/src/ledger.rs:68-97 | the nullifier of every sender of every successful call is in the order with its own note ever after |
| LedgerRuns.LedgerInvariantOverRuns | src/zkNFT/pallets/manta-pay/src/ledger.rs:159-207 | after every run shard keys are 0..n with leaf index n-1, and the UTXO set is the disjoint union of the shards, each UTXO at one position in the shard its hash selects |
| LedgerRuns.OutputsAreRoots | src/zkNFT/pallets/manta-pay/src/ledger.rs:194-206 | every stored output is the root of a non-empty prefix of a shard and every non-empty shard's current root is stored |
| LedgerRuns.AcceptedOutputsStay | src/zkNFT/pallets/manta-pay/src/ledger.rs:52-66 | an output once accepted is accepted in every later state |
| LedgerRuns.NullifiersOverRuns | src/zkNFT/pallets/manta-pay/src/ledger.rs:68-97 | the insertion order has keys 0..size and lists the nullifier set without repetition |
| LedgerRuns.NoDoubleSpend | src/zkNFT/pallets/manta-pay/src/ledger.rs:38-49 | a call with a commitment spent by any earlier successful call fails and changes nothing |
| LedgerAccounting.UtxoSetSize | src/zkNFT/pallets/manta-pay/src/lib.rs:155-169 | the UTXO set has as many elements as all shards together have positions |
| LedgerAccounting.TotalMeans | src/zkNFT/pallets/manta-pay/src/impl_pay.rs:121-124 | the reported total is the number of UTXOs and nullifiers less one for every shard that holds something |
| LedgerAccounting.RunAccounting | src/zkNFT/pallets/manta-pay/src/lib.rs:202-312 | after t, p, q successful to_private, private transfers, to_public: 2(p+q) nullifiers, t+2p+q UTXOs, and a reported total that is their sum less one per non-empty shard |
| ImplPay.PullReceiversForShard | src/zkNFT/pallets/manta-pay/src/impl_pay.rs:66-87 | takes as much of the shard's missing suffix as there is room for; the flag is true iff some of it does not fit |
| ImplPay.PullReceivers | src/zkNFT/pallets/manta-pay/src/impl_pay.rs:34-61 | returns the prefix of the shard-ordered missing suffixes that fits the chunk, at most the requested number and at most 32768; flag true iff more is missing than fits, and then the chunk is full; with the early stop and with size 0 |
| ImplPay.PullSenders | src/zkNFT/pallets/manta-pay/src/impl_pay.rs:91-108 | returns exactly the next slice of the nullifier log, at most the requested number and at most 32768; flag true iff more remains, and then the chunk is full |
| ImplPay.TotalLeafIndices | src/zkNFT/pallets/manta-pay/src/impl_pay.rs:121-124 | adds up the last leaf indices of the 256 shards |
| ImplPay.PullLedgerDiff | src/zkNFT/pallets/manta-pay/src/impl_pay.rs:113-131 | answers a pull with both chunks, the joint flag and the total, which obeys the accounting law of the ledger |
| WalletSync.PullIsExact | src/zkNFT/pallets/manta-pay/src/impl_pay.rs:34-131 | a pull brings min(missing, cap) items, the next ones; after counting them per shard exactly the others are missing; the flag is true iff some are |
| WalletSync.PullSizes | src/zkNFT/pallets/manta-pay/src/impl_pay.rs:39-108 | a pull brings all that is missing, or as many as asked for, or 32768, whichever is least, of each kind |
| WalletSync.PullPerShard | src/zkNFT/pallets/manta-pay/src/impl_pay.rs:66-108 | sorted by shard, what a pull brings is the next part of every log's missing suffix |
| WalletSync.LeftAfter | src/zkNFT/pallets/manta-pay/src/impl_pay.rs:113-131 | n pulls leave exactly what n full chunks cannot carry |
| WalletSync.FlagAfter | src/zkNFT/pallets/manta-pay/src/impl_pay.rs:113-131 | the flag of the pull after n others is false iff n+1 full chunks of both kinds are enough |
| WalletSync.SyncEndsIff | src/zkNFT/pallets/manta-pay/src/impl_pay.rs:113-131 | repeated pulling ends iff no kind that is missing is asked for in chunks of 0 |
| WalletSync.Sync | src/sdk/wallet/crate/src/lib.rs:531-555 | the pull loop ends after the least positive number of pulls whose chunks of mr and ms can carry R and S, that is max(1, ceil(R/mr), ceil(S/ms)), mr and ms being the requested sizes but at most 32768, with exactly the missing suffix of every shard and of the nullifier log |
| WalletSync.PullOnce | src/zkNFT/pallets/manta-pay/src/impl_pay.rs:113-131 | one pull of a wallet is the pull event of the interleavings |
| WalletSync.SyncSafeUnderGrowth | src/zkNFT/pallets/manta-pay/src/impl_pay.rs:66-108 | any interleaving of posts and pulls keeps the wallet's holdings a contiguous run of every log from its starting checkpoint |
| WalletSync.NewWalletStaysInSync | src/zkNFT/pallets/manta-pay/src/impl_pay.rs:66-108 | the same for a new wallet from any reachable ledger and any checkpoint |
| WalletSync.EmptyRequestNeverEnds | src/zkNFT/pallets/manta-pay/src/impl_pay.rs:34-61 | asked for chunks of no receivers while one is missing, every pull brings none and says there is more |
| WalletSync.WalletCatchesUp | src/sdk/wallet/crate/src/lib.rs:531-555 | after any interleaving of posts and pulls, the pulls needed from the wallet's checkpoint make its holdings exactly what lies beyond its starting checkpoint in every log |
| Eviction.LeastCovering | src/zkNFT/pallets/collator-selection/src/lib.rs:606-612 | the least covering count is the nearest-rank value: fewer than rank counts below it, at least rank not above it |
| Eviction.Rank | src/zkNFT/pallets/collator-selection/src/lib.rs:607-612 | the rank lies in 1..n, so its index is always in range |
| Eviction.RankValueUnique | src/zkNFT/pallets/collator-selection/src/lib.rs:606-612 | there is only one nearest-rank value |
| Eviction.CountAtRank | src/zkNFT/pallets/collator-selection/src/lib.rs:602-612 | every ascending list of the records has the nearest-rank value at the rank's index, however ties are ordered |
| Eviction.ScannedBeforeIndex | src/zkNFT/pallets/collator-selection/src/lib.rs:626-631 | scanning only the slice below the rank loses nobody under the threshold |
| Eviction.RankValueIsPercentile | src/zkNFT/pallets/collator-selection/src/lib.rs:606-612 | the value at the rank is the one that less than baseline percent of the records lie below and at least baseline percent do not exceed |
| Eviction.UnderperformsIff | src/zkNFT/pallets/collator-selection/src/lib.rs:614-631 | a recorded collator is evicted iff 100 times its count is below (100 - tolerance) times the percentile value |
| Eviction.PercentileExists | src/zkNFT/pallets/collator-selection/src/lib.rs:584-612 | there is a percentile value unless eviction is off or nothing is recorded, and then nobody is evicted |
| Eviction.EvictionBounded | src/zkNFT/pallets/collator-selection/src/lib.rs:614-631 | nobody at or above the percentile value is evicted, and less than p percent of the recorded collators are |
| Eviction.EqualPerformanceSurvives | src/zkNFT/pallets/collator-selection/src/lib.rs:614-631 | equal performance evicts nobody |
| Eviction.ToleranceShrinks | src/zkNFT/pallets/collator-selection/src/lib.rs:592-595 | more tolerance evicts no one else |
| Eviction.BaselineGrows | src/zkNFT/pallets/collator-selection/src/lib.rs:588-591 | a higher percentile spares no one more |
| CollatorBonds.RemoveTakesEntry | src/zkNFT/pallets/collator-selection/src/lib.rs:553-566 | removal takes the entry out, keeps the others as they were, and frees what the entry records |
| CollatorBonds.RemoveReturnsDeposit | src/zkNFT/pallets/collator-selection/src/lib.rs:553-566 | removal returns exactly the recorded deposit to the candidate, touches no other account and keeps the bond invariant |
| CollatorBonds.RemoveEachFilters | src/zkNFT/pallets/collator-selection/src/lib.rs:626-646 | removing several distinct candidates one by one is filtering them out of the list, order kept |
| CollatorBonds.RemoveEachReleases | src/zkNFT/pallets/collator-selection/src/lib.rs:626-646 | list and balances after removing several candidates one by one do not depend on the order |
| CollatorBonds.ReleaseKeepsBonds | src/zkNFT/pallets/collator-selection/src/lib.rs:553-566 | an eviction returns exactly the recorded deposits of those evicted and keeps the bond invariant |
| CollatorBonds.EnrolKeepsBonds | src/zkNFT/pallets/collator-selection/src/lib.rs:408-424 | registration keeps the bond invariant |
| CollatorSelection.EnrolIff | src/zkNFT/pallets/collator-selection/src/lib.rs:387-424 | when registration succeeds, and which error each first violated condition gives |
| CollatorSelection.EnrolMovesBond | src/zkNFT/pallets/collator-selection/src/lib.rs:408-424 | a registration appends the account with the bond and moves the bond into its reserve; nothing else changes |
| CollatorSelection.KickedAreUnderperformers | src/zkNFT/pallets/collator-selection/src/lib.rs:626-646 | for every ascending list the scan removes exactly the underperforming candidates |
| CollatorSelection.CollatorSelection.constructor | src/zkNFT/pallets/collator-selection/src/lib.rs:254-286 | the pallet starts without candidates and holds no reserve |
| CollatorSelection.CollatorSelection.RegisterAsCandidate | src/zkNFT/pallets/collator-selection/src/lib.rs:387-428 | checks in the source's order; on success the bond is reserved and the candidate appended, on error nothing changes |
| CollatorSelection.CollatorSelection.RegisterCandidate | src/zkNFT/pallets/collator-selection/src/lib.rs:435-481 | the same on behalf of another account, for the update origin only |
| CollatorSelection.CollatorSelection.TryRemoveCandidate | src/zkNFT/pallets/collator-selection/src/lib.rs:553-566 | removes the account's entry and returns its deposit, or fails without effect when there is none |
| CollatorSelection.CollatorSelection.LeaveIntent | src/zkNFT/pallets/collator-selection/src/lib.rs:486-491 | a candidate leaves with its deposit |
| CollatorSelection.CollatorSelection.RemoveCollator | src/zkNFT/pallets/collator-selection/src/lib.rs:498-513 | the update origin removes a candidate that is not invulnerable |
| CollatorSelection.CollatorSelection.Cutoff | src/zkNFT/pallets/collator-selection/src/lib.rs:602-618 | sorting and indexing compute the percentile value, and the threshold that n is below iff 100 n is below (100 - tolerance) times it |
| CollatorSelection.CollatorSelection.EvictBadCollators | src/zkNFT/pallets/collator-selection/src/lib.rs:579-649 | removes exactly the stored candidates whose count is below the threshold, each once and the worst first; no removal fails when the snapshot is stored |
| CollatorSelection.CollatorSelection.RemoveUnderperformers | src/zkNFT/pallets/collator-selection/src/lib.rs:626-648 | the walk over the slice removes each underperforming candidate from list and bonds |
| CollatorSelection.CollatorSelection.ClearAll | src/zkNFT/pallets/collator-selection/src/lib.rs:655-664 | the cursor loop ends for any limit and clears everything iff the limit is positive |
| CollatorSelection.CollatorSelection.ResetCollatorPerformance | src/zkNFT/pallets/collator-selection/src/lib.rs:652-669 | leaves the performance map as the validators at 0, or untouched when there are none |
| CollatorSelection.CollatorSelection.NewSession | src/zkNFT/pallets/collator-selection/src/lib.rs:786-814 | exactly the candidates below (100 - tolerance) percent of the percentile value leave with their deposits, the result is the invulnerables followed by exactly the ids left in storage, in order, and the records start again |
| CollatorSelection.CollatorSelection.NoteAuthor | src/zkNFT/pallets/collator-selection/src/lib.rs:757-777 | pays half the surplus if the transfer succeeds and counts the block, saturating |
| CollatorSelection.ActiveIds | src/zkNFT/pallets/collator-selection/src/lib.rs:796-805 | the filter over the snapshot keeps exactly the ids that were not removed |
| CollatorRuns.Deliver | src/zkNFT/pallets/collator-selection/src/lib.rs:374-814 | every event of the runs is a call of the pallet with the same effect |
| CollatorRuns.BondConservation | src/zkNFT/pallets/collator-selection/src/lib.rs:374-566 | over every interleaving candidates stay distinct and an account's reserve held here is its recorded deposit if it is a candidate, else 0 |
| CollatorRuns.BondComesBack | src/zkNFT/pallets/collator-selection/src/lib.rs:408-566 | leaving returns exactly the amount taken at registration, whatever happened to the bond parameter meanwhile |
| CollatorRuns.SessionJudgesBlocks | src/zkNFT/pallets/collator-selection/src/lib.rs:579-814 | however everything interleaves, the records are the blocks authored since the last session with validators, and the next session removes exactly the candidates below the threshold of these numbers |
| PotRewards.BlockPays | src/zkNFT/pallets/collator-selection/src/lib.rs:757-766 | a block pays its author half of the pot's surplus unless the author is the pot or would stay below the existential deposit; nothing else changes |
| PotRewards.RewardPaidIff | src/zkNFT/pallets/collator-selection/src/lib.rs:764-766 | exactly when the reward transfer succeeds |
| PotRewards.RewardRefused | src/zkNFT/pallets/collator-selection/src/lib.rs:757-766 | a new author whose first reward is below the existential deposit gets nothing |
| PotRewards.PotDecay | src/zkNFT/pallets/collator-selection/src/lib.rs:757-766 | after k blocks a surplus d is ceil(d/2^k), the authors got the rest, each its own rewards, and the pot stays at or above the existential deposit |
| PotRewards.IssuanceUnchanged | src/zkNFT/pallets/collator-selection/src/lib.rs:757-766 | whoever the authors are, the sum of the balances does not change |
| AssetRegistry.ParaIdOfIff | src/zkNFT/pallets/asset-manager/src/lib.rs:633-640 | a location is on the parachain that is its first junction, and on none when it does not start with one |
| AssetManager.AssetManager.NextAssetIdAndIncrement | src/zkNFT/pallets/asset-manager/src/lib.rs:616-624 | returns the current id and moves on, or fails at the maximum without effect |
| AssetManager.AssetManager.IncreaseCountOfAssociatedAssets | src/zkNFT/pallets/asset-manager/src/lib.rs:644-659 | adds one to the parachain's count, starting at 1 |
| AssetManager.AssetManager.RegisterAsset | src/zkNFT/pallets/asset-manager/src/lib.rs:349-383 | the outcome of the call, with everything put back after an error |
| AssetManager.AssetManager.ForceRegisterAsset | src/zkNFT/pallets/asset-manager/src/lib.rs:396-431 | the outcome of the call, with everything put back after an error |
| AssetManager.AssetManager.UpdateAssetLocation | src/zkNFT/pallets/asset-manager/src/lib.rs:441-493 | the outcome of the call on both location maps and on the counts of the parachains left and entered |
| AssetManager.AssetManager.OnRuntimeUpgrade | src/zkNFT/pallets/asset-manager/src/migrations.rs:36-66 | below version 1, in any order of the locations, each parachain but 2084 is increased by its number of locations; otherwise nothing happens |
| AssetRuns.Deliver | src/zkNFT/pallets/asset-manager/src/lib.rs:349-493 | every event of the runs is a call of the pallet with the same effect |
| AssetRuns.GoesThroughIff | src/zkNFT/pallets/asset-manager/src/lib.rs:349-493 | exactly when each call goes through; otherwise nothing changes |
| AssetRuns.RegisteredMetadataStays | src/zkNFT/pallets/asset-manager/src/lib.rs:349-431 | a registered asset keeps its metadata over every later run |
| AssetRuns.LookupsOverRuns | src/zkNFT/pallets/asset-manager/src/lib.rs:349-493 | over every run a location leads to an asset that is there, different locations to different assets, no id is issued twice, and different identifiers have different ids |
| AssetRuns.StartIsSound | src/zkNFT/pallets/asset-manager/src/lib.rs:182-190 | genesis satisfies the lookup invariant when the native id is below the start id |
| AssetRuns.TableOverRuns | src/zkNFT/pallets/asset-manager/src/lib.rs:396-493 | on runs that move only force-registered assets the table counts the force-registered assets of each parachain and has a key iff there is one |
| AssetRuns.ForcedStoredOverRuns | src/zkNFT/pallets/asset-manager/src/lib.rs:349-493 | over every run the force-registered assets are exactly the known ids that are neither the native one nor registered under an identifier |
| AssetRuns.UpdateKeepsTableIff | src/zkNFT/pallets/asset-manager/src/lib.rs:456-488 | after any run that left the table right, exactly which successful updates keep it right, from the storage before the call |
| AssetRuns.UpdateKeepsLocationsIff | src/zkNFT/pallets/asset-manager/src/lib.rs:456-461 | a successful update keeps every known location with its asset iff the asset is force-registered, that is not the native one and found at its own location |
| AssetRuns.NativeLocationStaysIff | src/zkNFT/pallets/asset-manager/src/lib.rs:456-461 | a successful update keeps the native location known iff the moved asset is not recorded there |
| AssetRuns.SignedAssetSpoilsTable | src/zkNFT/pallets/asset-manager/src/lib.rs:349-493 | a run after which the table and the native location's lookup are wrong |
| AssetRuns.SignedAssetFreesNativeLocation | src/zkNFT/pallets/asset-manager/src/lib.rs:349-493 | a run that keeps the table right but frees the native location, which another asset then takes |
| AssetRuns.AllowedIffAssetThere | src/zkNFT/pallets/asset-manager/src/lib.rs:668-692 | on these runs a destination is allowed iff it is one parent up and either an account of the relay chain or an account of a parachain that is the first junction of some force-registered asset |
| AssetRuns.MigrationRebuildsIff | src/zkNFT/pallets/asset-manager/src/migrations.rs:39-54 | the recount from an empty table equals the maintained table iff the native location is on no other parachain and no force-registered asset is on 2084 |
| AssetRuns.MigrationDropsSelf | src/zkNFT/pallets/asset-manager/src/migrations.rs:39-54 | a run after which the recount misses the force-registered asset on 2084 |
| OrderedSets.Canonical | src/zkNFT/pallets/parachain-staking/src/set.rs:27-28 | two strictly increasing vectors with the same elements are equal |
| OrderedSets.Dedup | src/zkNFT/pallets/parachain-staking/src/set.rs:40 | a sorted vector becomes strictly increasing and keeps its elements |
| OrderedSets.BinarySearch | src/zkNFT/pallets/parachain-staking/src/set.rs:53-55 | finds the value or the position where it belongs |
| OrderedSets.VectorRunRefines | src/zkNFT/pallets/parachain-staking/src/set.rs:38-82 | every sequence of operations keeps the vector strictly increasing and ends with the set of the mathematical operations |
| OrderedSets.EqualSetsEqualVectors | src/zkNFT/pallets/parachain-staking/src/set.rs:27-82 | two runs end with the same vector iff they end with the same set |
| OrderedSets.OrderedSet.From | src/zkNFT/pallets/parachain-staking/src/set.rs:38-42 | any vector becomes the set of its elements |
| OrderedSets.OrderedSet.Insert | src/zkNFT/pallets/parachain-staking/src/set.rs:52-60 | set insertion; true iff the value was not there |
| OrderedSets.OrderedSet.Remove | src/zkNFT/pallets/parachain-staking/src/set.rs:64-72 | set removal; true iff the value was there |
| OrderedSets.OrderedSet.Contains | src/zkNFT/pallets/parachain-staking/src/set.rs:75-77 | true iff the value is in the set |

## Left out

- Zero-knowledge proofs, signatures, Poseidon hashing and Merkle paths: library code; the ledger only sees verdicts and arbitrary hash functions.
- The fungible and NFT ledgers and `create_asset`: calls into them are an abstract success or failure given with the call.
- Encoding failures of UTXOs, nullifier commitments, roots and stored paths: `is_not_registered` and `is_unspent` convert the same values before, and the others were produced by the ledger itself; only the conversion of notes can fail in the model.
- `public_transfer` and the choice between asset types: they do not touch the shielded storage.
- ImplPay.PullReceivers: does not model what happens when an index sum leaves u64; the bound is a precondition.
- ImplPay.PullSenders: does not model what happens when an index sum leaves u64; the bound is a precondition.
- ImplPay.PullLedgerDiff: the 16-byte encoding of the total is not modelled, the total is a number.
- AssetManager.AssetManager.IncreaseCountOfAssociatedAssets: counts are unbounded, the u32 overflow of a table entry is not modelled.
- PotRewards.PotDecay: balances are unbounded and the currency's locks do not apply to the pot.
- CollatorSelection.CollatorSelection.ClearAll: the position of a clearing is an index into the iteration order of the map, not an encoded key.
- The setters of the collator pallet (bond, invulnerables, desired candidates, baseline, tolerance): plain assignments; they appear as events of the runs.
- Metadata updates, minting, fees and units per second of the asset manager: plain map updates behind a guard.
- Weights, events, logging, origins beyond a boolean, storage versions other than the migration's guard, RPC, front end and SDK bindings.
- parachain-staking beyond OrderedSet, among it the inflation computation.
