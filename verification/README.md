# PKT full node: a verified model of its core

This project models the parts of the PKT full node that decide which chain of blocks it
follows and how it stores that decision, and proves what those parts promise. Everything is
checked by Dafny 4.11: `dafny verify dfyconfig.toml`.

## What is modelled

**Block tree, view and selection.** A block node is an immutable value: its block and its parent
(`BlockTree`). The flat view over the best chain is a class over a backing array with stale
spare entries (`ChainViews`); locators and the answers to them are in `Locators` and `Sync`.
`ChainRules` describes one step of chain selection on values: a block index, the validity flags
of its nodes and a tip. `ChainSafety` proves what every run of such steps keeps, and
`ChainProvenance` that everything such a run marks or lets in goes back to a verdict that says
so. `ChainStore` says what the database holds for a tip. `BlockChains.BlockChain` is the chain
object itself, with its reorganization lists, database writes, flags waiting to be flushed and
orphan pool (`OrphanPools`); its methods are proved to make exactly the steps of `ChainRules`,
so the run theorems hold for it; `StrandedOrphans` holds a run after which the pool keeps a
block it could have adopted, and `FullPools` one after which it holds a block too many. Whether
a block passes the consensus checks is a verdict given from outside (accepted, rule broken, or
the check itself failed). `IndexReload` loads the index back from its rows.

**Unspent outputs and the election.** `Ledger` defines connecting and disconnecting a block on
the unspent set, and `UnspentSets` says which outputs are unspent on a chain and what the journal
of a block lists. `UtxoViews` models the view through which this happens: loading, spending,
adding, writing back, committing. `ReorgViews` follows one view through a whole reorganization.
`Elections` models the network steward election over such a view, `ElectionTally` proves when
the tally equals a recount, `ReorgTally` says so in terms of the blocks, for reorganizations and
for runs of blocks that extend the tip, and `TallyExamples` has blocks for which it is wrong.
`CheckedTally` does the same for the first phase of a reorganization, where one view is carried
through all blocks without being written, with an example in `RespentVotes`. `Money` is the supply
the tally is compared with.

**Storage.** `Vlq`, `Compression` and `SpendJournal` are the codecs for spent outputs and
unspent entries, as values and as loops over byte arrays; `StoredFormats` gives the same formats
in plain bytes.

**Arithmetic and trees.** `Difficulty` is the compact target format and the retarget rules,
`Merkle` the linear Merkle store and its branches.

**Protocols beside the chain.** `ScriptValidator` is the coordinator and its workers as an
interleaving of steps over channels, `AddrBooks` and `AddrManagers` the address buckets,
`AddrLeases` the address hand-out that drops its lock half-way, `CFCheckpoints` the
filter-header checkpoint cache and `CFCheckpointRuns` what it serves over any sequence of
requests while the block index grows; `TornCaches` has a run in which it serves a wrong header.

## Where the code does something other than its comments say

- `UtxoViewpoint.commit` is described as marking all entries unmodified. It flips the flag
  (blockchain/utxoviewpoint.go:495-504). `CommitClearsIff` says exactly when the description
  is true, and `CommitSettles` that the unspent set is not affected. The steward tally is: an
  entry that one block of a reorganization adds or restores and that later blocks leave alone is
  unmodified at the next block and modified again at the one after. `ReorgViews.At` shows that
  it is marked exactly when it was written an even number of blocks before, and
  `UntouchedVoteIsRepeated` gives three blocks of which the third counts a vote again.
- The steward tally is described as exact (blockchain/election.go:62-76). An output that is
  created and spent in the same block is subtracted from the disapproval although it was never
  part of it; `PassingVoteIsSubtracted` gives a block after which the disapproval is negative.
  `TallyError` says by how much the kept disapproval is off at any block of a reorganization.
  `AttachedRunIsExactIff` and `BlockRunIsExactIff` give the condition on the blocks under which
  the election state is exact; for a block connected through a new view that keeps the steward it
  is that no such output opposes them (`BlockTallyIff`).
- `KnownAddress.isBad` is described with a month, three failures and ten failures in a week
  (addrmgr/knownaddress.go:68-75). The constants are two weeks, five and fifteen (`WhenBad`).
- The table of example amounts gives 47 for 50000000 (blockchain/compress.go:456). By the format
  and by the code it is 48 (`AmountFormat` with q = 0, d = 5 and e = 7).
- Candidates are filed under their key filled up with zero bytes. Keys that differ only in
  trailing zero bytes share a file (`PadClashesIff`, `ClashingKeysAreMixed`). An elected state is
  exact exactly when nobody opposes such another key (`ElectedIsExactIff`).
- Amount compression wraps above a bound and then loses the amount (`LargeAmountIsLost`). An
  amount comes back if and only if its compressed form fits 64 bits (`AmountRoundTrip`), and
  `ExactlyCompressible` says which amounts these are.
- `BigToCompact` wraps its exponent for huge numbers; it keeps its precision exactly below
  `CompactLimit()` (`PrecisionExactlyBelowLimit`).
- The checkpoint cache grows by `append`, which may reuse the stored array. A request that fails
  half-way can then leave blocks of two chains in the stored cache, and a later peer is sent the
  header of the wrong chain (`TornServesWrong`; `TornRun` and `ServesTorn` are such a run).
  After a request every later peer is served right if and only if that did not happen
  (`ServesAllIff`, `CacheStaysSoundIff`).
- After processing a block no pooled block is meant to be left whose parent is known. When
  checking an orphan fails for an internal reason, the remaining ones are not looked at, and
  since later calls only look at children of blocks they add (`KnownParentsStay`), they stay
  (`OrphanStaysBehind`). After a call that adds blocks without a fault, nothing adoptable is left if
  and only if every orphan pooled before whose parent was known before has a parent that is known
  to be invalid (`ProcessBlock`, `NothingAdoptableIff`).
- The orphan pool is meant to hold at most 100 blocks. The orphan remembered as the oldest may
  have left the pool already, and then nothing makes room: `OneTooMany` is a run that ends with
  101. A block that comes in leaves at most 100 if and only if fewer than 100 have not expired, or
  exactly 100 have not and none is remembered, the remembered one is among them or one of them
  expires earlier (`CapHoldsIff`). There are never more than 101 (`StaysWithin`).
- electionProcessBlock is described as working on a view that is a diff against the tip, also for
  blocks that do not build on it (blockchain/election.go:62-76). In the first phase of a
  reorganization it runs on such a view, and its result is not used there. The disapproval it
  computes is exact if and only if the opposition touched by the blocks that is unspent both before
  and after equals the touched opposition that is unspent neither before nor after
  (`CheckedTallyIff`); `RespentVoteIsSubtracted` has two branches for which it is not.
- `getReorganizeNodes` is described as returning empty lists for a node that is not on a side
  chain. For a node of the best chain the list to detach is empty only if it is the tip
  (`OnChainListsIff`).

## Model

| member | source | states |
|---|---|---|
| `ChainSafety.RunKeepsBest` | blockchain/chain.go:1117-1257 | over every run of offered blocks: the state stays sound, flags only grow, the tip's work never drops, the tip only moves to a descendant of itself or to strictly more work, and without internal faults every indexed block with more work than the tip has a known invalid block in its chain |
| `ChainSafety.FlagsAreSoundOverRuns` | blockchain/chain.go:517-545 | after every run a node flagged as having an invalid ancestor has a proper ancestor that failed validation, and no best-chain block is known invalid |
| `ChainSafety.MaybeAcceptKeeps` | blockchain/accept.go:27-101 | one offered block keeps all of the above, whatever the checks answer |
| `ChainSafety.RejectedIsFlagged` | blockchain/chain.go:1140-1165 | a block that enters the index and is rejected by a rule is flagged invalid, and no other block enters |
| `ChainSafety.ReorganizeKeeps` | blockchain/chain.go:842-1101 | a reorganization to a heavier node keeps flags sound and, unless a check could not be carried out, ends with nothing heavier than the tip left unflagged |
| `ChainSafety.ConnectBestKeeps` | blockchain/chain.go:1117-1257 | the same for the choice between extending, ignoring a lighter side chain and reorganizing |
| `ChainSafety.InitialIsSound` | blockchain/chainio.go:999-1109 | the chain of genesis alone meets the invariant |
| `ChainProvenance.ConnectBestExplained` | blockchain/chain.go:1117-1257 | for every offered node: a node becomes valid only if the full check accepts it or it is the one added with the fast flag, and failed only if the check rejects it; a rule error needs a rejection and a fault a failed check on the branch; a node that extends the tip or is heavier and whose branch passes becomes the tip |
| `ChainProvenance.CheckAttachJudges` | blockchain/chain.go:956-1011 | over the nodes to attach: newly valid means accepted, newly failed means rejected, and the result is what the checks say |
| `ChainProvenance.PlanRebuilds` | blockchain/chain.go:510-556 | taking the detach list off the best chain, tip first, and putting the attach list on gives the new chain, and no block is in both |
| `ChainProvenance.PlanFlags` | blockchain/chain.go:517-545 | if a block of the branch or the parent is known to be invalid, nothing is listed and the node is flagged; only ancestors of the node get that flag |
| `ChainProvenance.AboveInvalidFlagged` | blockchain/chain.go:510-545 | every block of the branch above all its known invalid ones gets that flag |
| `ChainProvenance.EntersIff` | blockchain/accept.go:27-101 | a block enters the index exactly if its parent is known and not known to be invalid, its height fits and its context is accepted; otherwise nothing changes |
| `ChainProvenance.OfferedAgain` | blockchain/process.go:162-170 | a block that has entered the index is turned away with a rule error when it is offered again, and nothing changes |
| `ChainProvenance.RunTraced` | blockchain/chain.go:1117-1257 | over every run, everything that became valid, failed or known goes back to an event that accepted, rejected or admitted it |
| `ChainProvenance.BestChainWasChecked` | blockchain/chain.go:1117-1257 | over every run from genesis, every block of the best chain was admitted and was accepted by the full check or added with the fast flag |
| `ChainProvenance.AdoptedAsOffered` | blockchain/process.go:89-141 | an orphan adopted after a block lands at the height it came with, with an accepted context, and is valid only by the full check or the fast flag |
| `ChainProvenance.RunStores` | blockchain/accept.go:60-101 | over every run, every block in the index is marked as stored |
| `ChainRules.CheckAttachSound` | blockchain/chain.go:956-1011 | checking the nodes to attach keeps every flag justified, also when it stops at an invalid one |
| `ChainRules.CheckAttachEffect` | blockchain/chain.go:956-1011 | only nodes to be attached get flags, flags only grow, and success means all of them are valid |
| `BlockChains.BlockChain.ProcessBlock` | blockchain/process.go:153-265 | turns away exactly duplicates and failed checks, pools exactly blocks with unknown parents, otherwise offers the block and then exactly the pooled blocks that leave the pool; index, flags and tip are those of that run; only the last offer of a call can fault; from any state, after a call that adds blocks without a fault the adoptable orphans are exactly those pooled before whose parent was known before and is not invalid now, so there are none if and only if all these parents are invalid; the pool stays within 101 |
| `BlockChains.BlockChain.ProcessOrphans` | blockchain/process.go:89-141 | ends, adopts exactly the orphans it takes out of the pool, and unless it faults leaves none adoptable but those of parents given as left behind; a fault adds the parents still queued to them |
| `BlockChains.BlockChain.AdoptChildren` | blockchain/process.go:98-138 | takes out every orphan of one parent and queues each of them, unless one faults |
| `BlockChains.KnownParentsStay` | blockchain/process.go:89-141 | an orphan whose parent was known before a call does not leave the pool by adoption |
| `BlockChains.NothingAdoptableIff` | blockchain/process.go:89-141 | that set of orphans is empty exactly when every orphan pooled before whose parent was known before has a parent known to be invalid |
| `BlockChains.BlockChain.SomethingCovers` | blockchain/process.go:89-141 | every state of the pool meets the precondition of `ProcessBlock` for some list of parents left behind |
| `StrandedOrphans.OrphanStaysBehind` | blockchain/process.go:89-141 | four processed blocks, the last without any fault, after which an orphan with a valid parent is still in the pool |
| `BlockChains.BlockChain.BlockExists` | blockchain/process.go:46-78 | a block exists exactly when it is in the index, the stored blocks adding nothing |
| `BlockChains.BlockChain.MaybeAcceptBlock` | blockchain/accept.go:27-101 | makes exactly the step of `MaybeAccept`, with all flags flushed |
| `BlockChains.BlockChain.ConnectBestChain` | blockchain/chain.go:1117-1257 | makes exactly the step of `ConnectBest` on index, flags and tip, and keeps the database in agreement |
| `BlockChains.BlockChain.GetReorganizeNodes` | blockchain/chain.go:510-556 | the lists are the nodes above the highest common ancestor, tip first and lowest first; for an invalid chain both are empty and the nodes above the invalid one are flagged |
| `ChainSafety.OnChainListsIff` | blockchain/chain.go:500-556 | for a node of the best chain nothing is attached, and nothing is detached exactly when it is the tip |
| `BlockChains.BlockChain.ReorganizeChain` | blockchain/chain.go:842-1101 | all or nothing: the assertion error occurs exactly when the lists do not meet the tip; a failing check, or a list to attach that starts elsewhere, leaves tip, snapshot and database as they were; success ends at the requested node |
| `BlockChains.BlockChain.Rebuild` | blockchain/chain.go:1021-1087 | the second phase ends at the requested node, or fails exactly when nothing is detached and the blocks to attach do not start at the tip, and then changes nothing |
| `BlockChains.BlockChain.CheckLists` | blockchain/chain.go:848-870 | the checks on node order and fork point fail exactly when the lists do not fit the tip |
| `BlockChains.BlockChain.CheckAttachNodes` | blockchain/chain.go:956-1011 | the first phase changes nothing but flags, as `CheckAttach` says |
| `BlockChains.BlockChain.DetachAll` | blockchain/chain.go:1021-1046 | every detached block meets the precondition of disconnecting, down to the fork |
| `BlockChains.BlockChain.AttachAll` | blockchain/chain.go:1048-1087 | every attached block meets the precondition of connecting, up to the new tip |
| `BlockChains.BlockChain.ConnectBlock` | blockchain/chain.go:569-694 | refuses a block that does not extend the tip and changes nothing; otherwise the database, snapshot and view all describe the new tip and no flag is left unflushed |
| `BlockChains.BlockChain.DisconnectBlock` | blockchain/chain.go:700-819 | refuses any block but the tip; otherwise everything describes its parent |
| `BlockChains.BlockChain.SetStatusFlags` | blockchain/blockindex.go:302-307 | flags are added and the node is remembered for the next flush |
| `BlockChains.BlockChain.FlushToDB` | blockchain/blockindex.go:311-335 | after a flush the stored rows are the flags of all nodes |
| `ChainStore.IndexesAgree` | blockchain/chainio.go:852-899 | hash and height index are inverse to each other and list exactly the best chain; the journal has exactly its blocks above genesis |
| `ChainStore.StoreIsDetermined` | blockchain/chain.go:569-819 | the tip and its election state fix indexes, journal, unspent set, totals and snapshot |
| `ChainStore.ConnectMatches` | blockchain/chain.go:607-668 | the writes of connecting take the stored maps of the parent to those of the node |
| `ChainStore.DisconnectMatches` | blockchain/chain.go:730-793 | the writes of disconnecting take them back |
| `ChainStore.DisconnectRestores` | blockchain/chain.go:607-793 | connecting a block and disconnecting it restores snapshot and database but for the election state kept for the block |
| `ChainStore.TotalCountsAll` | blockchain/chain.go:607-668 | the stored total is the number of all transactions from genesis up, coinbases included |
| `ChainStore.StoredAboveGenesis` | blockchain/chainio.go:1062-1066 | in the database of any chain no unspent output and no journal entry has height zero |
| `OrphanPools.OrphanPool.RemoveOrphanBlock` | blockchain/chain.go:258-289 | both maps lose exactly that orphan and keep describing the same set, with no empty list left |
| `OrphanPools.RemoveFromList` | blockchain/chain.go:264-288 | the in-place removal loop gives the list without that orphan, order kept |
| `OrphanPools.OrphanPool.ExpireOrphans` | blockchain/chain.go:298-310 | exactly the expired orphans go; the orphan remembered afterwards expires no later than any pooled one and is a pooled one or the one remembered before |
| `OrphanPools.OrphanPool.AddOrphanBlock` | blockchain/chain.go:297-337 | the pool is what was not expired plus the block, which stays for an hour, less exactly the remembered orphan when 100 or more are left; the size afterwards follows from the state before; nothing is remembered after an eviction, else the orphan that expires first |
| `OrphanPools.CapHoldsIff` | blockchain/chain.go:297-337 | from any state, the pool has at most 100 orphans afterwards exactly if fewer than 100 are unexpired, or 100 are and none is remembered, the remembered one is among them or one of them expires earlier |
| `OrphanPools.StaysWithin` | blockchain/chain.go:297-337 | beyond 100 orphans none is remembered, so the pool never grows beyond 101 |
| `FullPools.OneTooMany` | blockchain/chain.go:258-337 | a run of blocks coming in and one leaving after which the pool holds 101 |
| `Ledger.DisconnectUndoesConnect` | blockchain/utxoviewpoint.go:235-479 | disconnecting a block with its own journal entry restores the unspent set, also when the block spends its own outputs |
| `Ledger.DisconnectTxsUndoes` | blockchain/utxoviewpoint.go:356-473 | undoing transactions last first, each with its share of the journal, undoes connecting them |
| `Ledger.RestoreUndoesSpend` | blockchain/utxoviewpoint.go:406-472 | restoring inputs last first undoes spending them |
| `Ledger.JournalHasNoLegacyEntries` | blockchain/utxoviewpoint.go:431-460 | no journal entry of a connected block has height zero, so the legacy branch is not reached for it |
| `ChainRules.UnspentAboveGenesis` | blockchain/chainio.go:1062-1066 | nothing the genesis block pays is ever in the unspent set of a chain |
| `ChainStore.JournalAboveGenesis` | blockchain/utxoviewpoint.go:431-460 | no journal entry of any chain has height zero |
| `UnspentSets.BlockCreatesIff` | blockchain/utxoviewpoint.go:165-228 | a block creates exactly its spendable outputs, the first transaction as coinbase, at its height |
| `UnspentSets.ConnectIff` | blockchain/utxoviewpoint.go:235-295 | after a block an output is unspent exactly if it was there or is created by the block, and no transaction of the block spends it |
| `UnspentSets.JournalAt` | blockchain/utxoviewpoint.go:256-275 | entry i of a block's journal is the coin that input i of the block spends |
| `UnspentSets.UnspentIff` | blockchain/utxoviewpoint.go:235-295 | an output is unspent on a chain exactly if some block above genesis creates it and nothing since has spent it |
| `BlockTree.WorkIsPathSum` | blockchain/blockindex.go:101-118 | cumulative work is the sum of the work of all blocks from genesis up |
| `BlockTree.ForkIsHighest` | blockchain/chainview.go:280-318 | the fork point is the highest common ancestor |
| `BlockTree.SharedUpToFork` | blockchain/chainview.go:280-318 | two chains agree exactly up to the height of their fork point |
| `ChainViews.ChainView.SetTip` | blockchain/chainview.go:114-146 | whatever was in the backing array, entry i becomes the new tip's ancestor at height i, despite the early exit |
| `ChainViews.ChainView.Fill` | blockchain/chainview.go:142-146 | stopping at the first matching entry is enough |
| `ChainViews.ChainView.Resize` | blockchain/chainview.go:121-141 | growing in place or into a larger array keeps the old entries |
| `ChainViews.ChainView.Tip` | blockchain/chainview.go:87-93 | the last node of the viewed path |
| `ChainViews.ChainView.NodeByHeight` | blockchain/chainview.go:188-194 | the node of the path at that height, if any |
| `ChainViews.ChainView.Contains` | blockchain/chainview.go:225-227 | true exactly for ancestors of the tip |
| `ChainViews.ChainView.Next` | blockchain/chainview.go:248-254 | the child on the viewed chain, exactly when there is one |
| `ChainViews.ChainView.FindFork` | blockchain/chainview.go:288-318 | the highest common ancestor of node and tip, none for another tree |
| `ChainViews.ChainView.AncestorInView` | blockchain/chainview.go:390-398 | looking up in the view and walking back give the same ancestor |
| `ChainViews.ChainView.BlockLocator` | blockchain/chainview.go:351-408 | the locator has exactly height + 1 entries up to height 12, 12 + floor(log2(height - 10)) above, at the heights of `EntryHeight` |
| `ChainViews.Ancestor` | blockchain/blockindex.go:154-165 | the ancestor at a height, none out of range |
| `Locators.LengthReached` | blockchain/chainview.go:360-372 | the predicted number of entries is where the steps reach genesis |
| `Locators.NextEntry` | blockchain/chainview.go:374-405 | one step of the loop moves from one entry height to the next |
| `Sync.LocatorEnds` | blockchain/chainview.go:351-408 | the last entry, and no earlier one, is genesis |
| `Sync.LocatorDescends` | blockchain/chainview.go:351-408 | entry heights strictly descend |
| `Sync.ResumeEntry` | blockchain/chainview.go:351-408 | the first entry at or below a fork d blocks down is exactly there for d up to 11 and less than 2d down otherwise |
| `Sync.PeerResumes` | blockchain/chain.go:1569-1614 | a peer resumes exactly at the fork point when it is at most 11 blocks below the located block, else fewer than d blocks below it |
| `Sync.LocateInventory` | blockchain/chain.go:1569-1614 | start and count for any locator, stop hash and limit |
| `Sync.LocateBlocks` | blockchain/chain.go:1623-1639 | the hashes of the best chain from the first shared entry on; if the stop block is on the chain and within the limit the last one is its hash, and otherwise the list reaches the limit or the tip |
| `IndexReload.BigEndianOrder` | blockchain/chainio.go:1345-1350 | byte order of big-endian prefixes is numeric order, then the order of the rest |
| `IndexReload.KeysSortByHeight` | blockchain/chainio.go:1345-1350 | key order never goes down in height |
| `IndexReload.KeyLayout` | blockchain/chainio.go:1345-1350 | a key has 36 bytes, of which the first four are the height from its highest byte down |
| `IndexReload.ParentsComeFirst` | blockchain/chainio.go:1160-1204 | rows in key order list genesis first and every node after its parent |
| `IndexReload.FindParent` | blockchain/chainio.go:1171-1194 | the shortcut through the last loaded node finds the same parent as the lookup |
| `IndexReload.LoadIndex` | blockchain/chainio.go:1160-1204 | the loop with its shortcut loads what loading by lookup alone loads, and fails on the same rows |
| `IndexReload.LoadsIff` | blockchain/chainio.go:1160-1204 | rows load exactly if the first is genesis and the parent of every other one is in a row before it, and then to exactly their hashes |
| `IndexReload.ReloadRebuilds` | blockchain/chainio.go:1160-1204 | for the rows of any block tree the loop does not fail and rebuilds every node with its parent, height, work and flags |
| `IndexReload.UpgradeToValid` | blockchain/chainio.go:1225-1242 | the walk marks exactly the tip's ancestors valid, leaves every other flag alone, and remembers exactly those that were not valid |
| `IndexReload.InitChainState` | blockchain/chainio.go:1141-1266 | loading, finding the tip, marking its ancestors, building the snapshot and flushing the marked rows, with every failure |
| `IndexReload.RestartMarksChain` | blockchain/chainio.go:1225-1242 | after a start exactly the stored valid marks and those of the best chain are set, and no other mark changes |
| `IndexReload.RestartFlushes` | blockchain/chainio.go:1225-1266 | after start-up the stored rows are the flags of all nodes |
| `IndexReload.RestartRestores` | blockchain/chainio.go:1114-1266 | a start-up on a flushed database gives back the index, flags, tip and snapshot that were running and writes nothing |
| `IndexReload.ChainRestarts` | blockchain/chainio.go:1114-1266 | so does one after any processed block of the chain object |
| `UtxoViews.ViewConnects` | blockchain/utxoviewpoint.go:283-295 | connecting through a view that repeats the stored set shows exactly the connected set and records exactly the journal entry |
| `UtxoViews.ConnectsFrom` | blockchain/chain.go:956-1011 | through a view that was changed but not written, connecting shows the connected set of what the view showed before, whatever is stored |
| `UtxoViews.ViewDisconnects` | blockchain/utxoviewpoint.go:349-479 | disconnecting through the view shows exactly the disconnected set |
| `UtxoViews.DisconnectsFrom` | blockchain/chain.go:888-935 | the same for disconnecting |
| `UtxoViews.FetchedShows` | blockchain/utxoviewpoint.go:569-617 | after loading inputs the view still shows the stored set, except for outputs of the block added early |
| `UtxoViews.WritesWhatItShows` | blockchain/chainio.go:792-829 | writing the modified entries stores exactly what the view shows |
| `UtxoViews.PutUtxoView` | blockchain/chainio.go:792-829 | the loop over the entries, in any order, stores the modified unspent ones, removes the modified spent ones and leaves all else |
| `UtxoViews.CommittedAt` | blockchain/utxoviewpoint.go:493-504 | committing drops exactly nil and modified spent entries and turns the flag of the others; spending again changes nothing |
| `UtxoViews.CommitSettles` | blockchain/utxoviewpoint.go:495-504 | after writing and committing every entry repeats what is stored |
| `UtxoViews.CommitClearsIff` | blockchain/utxoviewpoint.go:493-504 | a commit clears all modified flags exactly when every entry that stays was modified |
| `UtxoViews.CommitMarksUntouched` | blockchain/utxoviewpoint.go:493-504 | an unmodified entry comes out of a commit marked modified |
| `UtxoViews.ConnectThroughView` | blockchain/chain.go:1048-1087 | connecting, writing and committing stores the connected set and leaves a view ready for the next block |
| `UtxoViews.DisconnectThroughView` | blockchain/chain.go:1021-1046 | disconnecting, writing and committing stores the set before the block and leaves a view ready for the next |
| `UtxoViews.NewViewIsPlain` | blockchain/chain.go:1145-1186 | through a new view, stored outputs are marked modified only when spent |
| `UtxoViews.UtxoViewpoint.AddTxOuts` | blockchain/utxoviewpoint.go:165-228 | adds exactly the spendable outputs as new entries |
| `UtxoViews.UtxoViewpoint.ConnectTransaction` | blockchain/utxoviewpoint.go:235-276 | spends the inputs in order, recording each, then adds the outputs; fails exactly on an input without entry |
| `UtxoViews.UtxoViewpoint.ConnectTransactions` | blockchain/utxoviewpoint.go:283-295 | does so for the whole block |
| `UtxoViews.UtxoViewpoint.FetchInputUtxos` | blockchain/utxoviewpoint.go:569-617 | every input is loaded or refers to the block; every entry comes from before, repeats what is stored for an input of the block, or is an output of the block with the coin it creates |
| `UtxoViews.UtxoViewpoint.FetchUtxosMain` | blockchain/utxoviewpoint.go:513-541 | reads exactly the requested outputs, with a nil entry for each that is not stored |
| `UtxoViews.UtxoViewpoint.DisconnectTransactions` | blockchain/utxoviewpoint.go:349-479 | refuses a journal entry of the wrong length, else walks the block backwards |
| `UtxoViews.UtxoViewpoint.Commit` | blockchain/utxoviewpoint.go:495-504 | drops nil and spent entries and flips the flag of the others |
| `ReorgViews.StepSettles` | blockchain/chain.go:1021-1087 | every block detached from or attached through the carried view writes exactly the unspent set after it, and the view repeats it |
| `ReorgViews.StepAges` | blockchain/chain.go:1015-1087 | every such step keeps this: the view holds exactly the unspent outputs that an earlier step created or restored, each marked modified exactly when that was an even number of steps ago |
| `ReorgViews.At` | blockchain/chain.go:1015-1087 | so this holds after any number of steps of any reorganization |
| `ReorgViews.PassingAt` | blockchain/utxoviewpoint.go:235-276 | the entries of an attached block that were never stored and are spent are exactly the outputs it creates and spends itself, with their coins |
| `Money.PktCalcTotalMoney` | blockchain/validate.go:238-246 | counting by periods gives the sum of the subsidies of all blocks below a height |
| `Money.MintedByPeriods` | blockchain/validate.go:202-246 | the total d blocks into a period is the whole periods plus d subsidies |
| `Money.SupplyIsCapped` | blockchain/validate.go:205-246 | the total never reaches six thousand million coins, so it fits 64 bits |
| `Money.SubsidyIs` | blockchain/validate.go:208-218 | the subsidy of a period is the whole part of 4166 coins times nine tenths to the power of the period |
| `Money.FirstPeriods` | blockchain/validate.go:200-246 | the first 144000 blocks mint 4166 coins each, the next 144000 nine tenths of that |
| `Elections.GetVotesForAgainst` | txscript/script.go:59-88 | the first well-formed vote of a script counts and no other; keys have 1 to 79 bytes |
| `Elections.CanonicalIff` | txscript/script.go:235-256 | a push is canonical exactly if it uses the shortest opcode for its length and its data is not one byte of at most 16 |
| `Elections.VoteFormat` | txscript/script.go:59-88 | two shortest pushes, or two empty ones, before opcode 0x66 are a vote |
| `Elections.PadIs` | blockchain/election.go:39-43 | a file name has 80 bytes: the key, then zeros |
| `Elections.PadClashesIff` | blockchain/election.go:37-60 | two keys share a file exactly when they differ only in zero bytes at the end |
| `Elections.Election.CastBallot` | blockchain/election.go:37-60 | adds the value to exactly the files of the two keys |
| `Elections.Election.CountStored` | blockchain/election.go:110-124 | every file holds the sums over the stored set |
| `Elections.Election.CountChanges` | blockchain/election.go:125-134 | every file changes by the sums over modified entries, spent ones negative |
| `Elections.Election.Winner` | blockchain/election.go:135-154 | in any order, a candidate of maximal positive approval, else the current steward |
| `Elections.KeptDisapproval` | blockchain/election.go:83-96 | the tip's disapproval plus the view's changes to it |
| `Elections.ElectionProcessBlock` | blockchain/election.go:77-154 | keeps the steward exactly while the kept disapproval is at most half of all money, else elects |
| `Elections.ChangesBalance` | blockchain/election.go:62-76 | for any weighing of coins: the new total is the stored total plus the view's changes, plus what was created and spent in passing, less what was marked modified though stored and untouched |
| `ElectionTally.KeptIsExactIff` | blockchain/election.go:83-105 | the kept disapproval equals the recount exactly when those two errors cancel |
| `ElectionTally.BlockTallyIff` | blockchain/election.go:83-105 | for a block connected through a new view: exactly when no output created and spent within it opposes the steward |
| `ElectionTally.ElectionIsExact` | blockchain/election.go:107-154 | with exact voting changes and no key clash a full election returns the recounted disapproval of a candidate of maximal positive approval |
| `ElectionTally.MajorityRules` | blockchain/election.go:97-154 | when the tip is exact, no vote passes through unseen and keys do not clash, on the recount alone: a steward opposed by at most half of all money stays; otherwise a candidate of maximal approval takes over, unless nobody has any; and the new disapproval is exact |
| `ElectionTally.StateIsExactIff` | blockchain/election.go:77-154 | after any block, kept or elected: the state equals the recount exactly when opposition made in passing balances opposition counted again and, for an elected steward, opposition to keys filed with theirs |
| `ElectionTally.ElectedIsExactIff` | blockchain/election.go:107-154 | without the first two, an elected state is exact exactly when no unspent coin opposes another key that differs from the winner's only in zero bytes at the end |
| `ElectionTally.RunIsExactIff` | blockchain/election.go:77-154 | over every run of views from an exact state, the states are exact after each of the first n steps exactly when each of these balances |
| `ElectionTally.RunStaysExact` | blockchain/election.go:77-154 | in particular all states are exact while no vote is made in passing or counted again and no keys clash |
| `ReorgTally.TallyError` | blockchain/chain.go:1048-1087 | at any block a reorganization attaches, the kept disapproval is the recount, less the opposition created and spent within the block, plus the unspent opposition last written an even number of steps before |
| `ReorgTally.ReorganizationIsExactIff` | blockchain/chain.go:1048-1087 | so, whether the steward is kept or newly elected, the condition on the blocks under which the new state is exact |
| `ReorgTally.AttachedRunIsExactIff` | blockchain/chain.go:1048-1087 | over all blocks any reorganization attaches, from an exact state at the fork: the tally is exact after each of them exactly when each of them meets that condition |
| `ReorgTally.BlockIsExactIff` | blockchain/chain.go:1145-1186 | the same for a block that extends the tip through a view of its own |
| `ReorgTally.BlockRunIsExactIff` | blockchain/chain.go:1145-1186 | over every run of such blocks from an exact state: the tally is exact after each of the first n blocks exactly when each of them balances |
| `TallyExamples.PassingVoteIsSubtracted` | blockchain/election.go:83-96 | a block of two transactions on a stored output, whose first makes a vote against the steward and whose second spends it: the kept disapproval is the negative amount, the recount zero |
| `TallyExamples.UntouchedVoteIsRepeated` | blockchain/utxoviewpoint.go:493-504 | three blocks attached through one view, the first making a vote: the kept disapproval is the amount, the amount, and twice the amount, the recount always the amount |
| `TallyExamples.StartIsReached` | blockchain/validate.go:985-1000 | the unspent set these examples start from is that of a chain of 101 blocks whose first coinbase output is mature at the next height |
| `CheckedTally.Shown` | blockchain/chain.go:888-1011 | after any number of blocks detached and attached in the checking phase, the view shows the unspent set there would be and has an entry, marked modified, for exactly the outputs these blocks create or spend |
| `CheckedTally.CheckedTallyIff` | blockchain/validate.go:1232-1236 | so the disapproval computed there is the recount plus the opposition they touch that is unspent before and after, less that which is unspent neither before nor after, and exact exactly when these are equal |
| `RespentVotes.RespentVoteIsSubtracted` | blockchain/validate.go:1232-1236 | two branches that spend the same vote: the disapproval computed when the second is checked is the negative amount, the recount zero |
| `ElectionTally.ClashingKeysAreMixed` | blockchain/election.go:37-60 | two votes for which the elected steward gets the opposition of another key |
| `Vlq.RoundTrip` | blockchain/compress.go:53-107 | decoding an encoding followed by anything gives the number and its size |
| `Vlq.PrefixFree` | blockchain/compress.go:53-107 | no encoding is a prefix of another |
| `Vlq.EveryStringIsAnEncoding` | blockchain/compress.go:53-107 | every string of continued bytes with one final byte is the encoding of its value |
| `StoredFormats.EncodingKeepsOrder` | blockchain/compress.go:53-89 | a smaller number has a shorter encoding or one of the same length that comes first |
| `StoredFormats.KnownNumbers` | blockchain/compress.go:29-41 | the bytes of the largest numbers of one, two and three bytes and of their successors |
| `Vlq.SerializeSize` | blockchain/compress.go:53-60 | the computed size is the length of the encoding |
| `Vlq.Put` | blockchain/compress.go:67-89 | writes the encoding at the offset and nothing else, by writing groups and reversing them in place |
| `Vlq.ReverseInPlace` | blockchain/compress.go:83-86 | the reversal swaps exactly the written part |
| `Vlq.Deserialize` | blockchain/compress.go:94-107 | the loop decodes as specified, wrapping included, on any bytes |
| `Compression.DecompressUndoesCompress` | blockchain/compress.go:464-529 | on naturals decompression undoes compression |
| `Compression.CompressUndoesDecompress` | blockchain/compress.go:464-529 | and compression undoes decompression, so both are bijections |
| `StoredFormats.AmountFormat` | blockchain/compress.go:440-446 | an amount of digits q and d followed by e < 9 zeros is stored as 1 + 10(9q + d - 1) + e |
| `StoredFormats.RoundAmountFormat` | blockchain/compress.go:447-449 | an amount with nine zeros or more is stored as ten times what is left without nine of them |
| `Compression.ExactlyCompressible` | blockchain/compress.go:464-489 | the amounts that compress within 64 bits, among them all up to (2^64 - 1) / 9 |
| `Compression.CompressAmount` | blockchain/compress.go:464-489 | the machine arithmetic computes the specified value modulo 2^64 |
| `Compression.DecompressAmount` | blockchain/compress.go:494-529 | so does the other direction |
| `Compression.AmountRoundTrip` | blockchain/compress.go:464-529 | an amount survives storing and loading exactly when its compressed form fits 64 bits; no amount that wraps comes back by accident |
| `Compression.LargeAmountIsLost` | blockchain/compress.go:464-529 | an amount that does not |
| `Compression.ScriptRoundTrip` | blockchain/compress.go:245-422 | every script, standard or not, survives, and its size is found from its first bytes |
| `StoredFormats.KeyHashFormat` | blockchain/compress.go:119-126 | payments to key and script hashes byte by byte, and the 21 bytes they are stored as |
| `StoredFormats.KeyFormat` | blockchain/compress.go:127-130 | payments to valid keys byte by byte, compressed or not, and the 33 bytes they are stored as |
| `StoredFormats.OtherFormat` | blockchain/compress.go:132-135 | a script of any other length is stored after its length plus six |
| `Compression.TxOutRoundTrip` | blockchain/compress.go:547-587 | an output decodes, within its computed size, to itself exactly when its amount is compressible, and else differs only in the amount |
| `SpendJournal.CoinRoundTrip` | blockchain/chainio.go:307-394 | a journal entry's output of any 64-bit amount decodes to itself but for the amount, and fills its computed size |
| `SpendJournal.ReturnedIff` | blockchain/chainio.go:307-394 | and the amount, too, is kept exactly when it is compressible |
| `StoredFormats.CoinFormat` | blockchain/chainio.go:205-220 | twice the height plus one for coinbases, a zero byte if there is a height, the compressed amount, the compressed script; without the zero for unspent entries |
| `StoredFormats.JournalFormat` | blockchain/chainio.go:453-473 | what is spent later stands before what was spent earlier |
| `SpendJournal.JournalRoundTrip` | blockchain/chainio.go:402-473 | the whole reversed journal decodes to the list that was written exactly when every amount is compressible; otherwise only amounts differ |
| `SpendJournal.UtxoRoundTrip` | blockchain/chainio.go:653-715 | an unspent entry decodes to itself exactly when its amount is compressible |
| `SpendJournal.OutPointKeysAreDistinct` | blockchain/chainio.go:615-625 | different outputs have different keys |
| `SpendJournal.PutCompressedScript` | blockchain/compress.go:300-339 | writes exactly the compressed script |
| `SpendJournal.PutCompressedTxOut` | blockchain/compress.go:557-561 | writes exactly the compressed output |
| `SpendJournal.PutSpentTxOut` | blockchain/chainio.go:336-347 | writes exactly the encoded journal output |
| `SpendJournal.JournalSize` | blockchain/chainio.go:458-462 | the size computed beforehand is the size of the journal |
| `SpendJournal.SerializeSpendJournalEntry` | blockchain/chainio.go:453-473 | the backwards loop fills the buffer with the specified bytes |
| `SpendJournal.DeserializeSpendJournalEntry` | blockchain/chainio.go:402-449 | the backwards loop decodes as specified, failures included |
| `Difficulty.CompactIsGreatestBelow` | blockchain/difficulty.go:64-132 | below the limit a number is packed to the greatest representable value not above it |
| `Difficulty.RoundingIsMonotone` | blockchain/difficulty.go:64-132 | packing keeps order |
| `Difficulty.RepresentableRoundTrip` | blockchain/difficulty.go:64-132 | representable values survive |
| `Difficulty.PrecisionExactlyBelowLimit` | blockchain/difficulty.go:96-132 | packing loses less than one part in 2^15 exactly below the limit |
| `Difficulty.WrapsToZero` | blockchain/difficulty.go:117-132 | the numbers just above the limit are packed to zero |
| `Difficulty.HarderIsMoreWork` | blockchain/difficulty.go:144-156 | a lower target never counts as less work |
| `Difficulty.WorkIsQuotient` | blockchain/difficulty.go:144-156 | work is 2^256 divided by the target plus one, rounded down, and zero for targets that are not positive |
| `Difficulty.CompactValue` | blockchain/difficulty.go:64-92 | a compact number is its signed mantissa times 256 to the power of its exponent less three, rounded towards zero |
| `Difficulty.TargetFollows` | blockchain/difficulty.go:283-313 | the next target is the last one times the timespan over the intended one, rounded down, with the timespan clamped by the factor on both sides and the target by the limit |
| `Difficulty.RetargetFollows` | blockchain/difficulty.go:283-313 | the next bits stand for the greatest representable target within the limit and the scaled last target |
| `Difficulty.EasiestSteps` | blockchain/difficulty.go:162-194 | no factor before any time has passed, one within the first maximal timespan, one more for every further one |
| `Difficulty.RetargetIsBounded` | blockchain/difficulty.go:283-313 | the next target is at most the limit and at most the factor times the last, and, as packed, at least the smaller of the limit and the last scaled to the minimal timespan |
| `Difficulty.RetargetIsMonotone` | blockchain/difficulty.go:283-313 | a longer timespan never makes the next target harder |
| `Difficulty.CalcEasiestDifficulty` | blockchain/difficulty.go:162-194 | the loop equals min(limit, target times factor to the number of started timespans), packed |
| `Merkle.LastIsRoot` | blockchain/merkle.go:109-160 | the last slot of the padded array is the root of the tree that repeats the last node of odd levels |
| `Merkle.KnownRoots` | blockchain/merkle.go:78-107 | the roots of one, two and three leaves |
| `Merkle.BuildMerkleTreeStore` | blockchain/merkle.go:109-160 | the loop with its moving offset fills that array |
| `Merkle.GetMerkleBranch` | blockchain/merkle.go:164-178 | the loop over the array collects the siblings level by level |
| `Merkle.BranchProvesLeaf` | blockchain/merkle.go:164-178 | folding any leaf with its branch, a missing sibling read as the node itself, gives the root |
| `Merkle.CoinbaseBranch` | rpcserver.go:2184-2194 | the coinbase branch has no missing sibling and verifies under the left fold |
| `ScriptValidator.ValidateIsCorrect` | blockchain/scriptval.go:122-176 | for every number of processors and every interleaving: no error is returned exactly when all items pass, a returned error names a failing item, no item is checked twice, a run has at most 5 steps per item and one more, and it only stops after Validate has returned and all workers have left |
| `ScriptValidator.WorkerCount` | blockchain/scriptval.go:130-136 | three workers per processor, one without any, and no more than there are items |
| `ScriptValidator.ProtocolIsCorrect` | blockchain/scriptval.go:57-176 | the same for any number of workers and items |
| `ScriptValidator.NoDeadlock` | blockchain/scriptval.go:47-176 | before that some step is always possible |
| `ScriptValidator.StepKeeps` | blockchain/scriptval.go:57-176 | every step keeps the protocol invariant |
| `ScriptValidator.StepShrinks` | blockchain/scriptval.go:57-176 | every step uses up part of a finite measure |
| `AddrManagers.AddrManager.UpdateAddress` | addrmgr/addrmanager.go:150-222 | the new state, with every way of not filing an address, and the book stays in order; the draw has a positive range |
| `AddrManagers.AddrManager.ExpireNew` | addrmgr/addrmanager.go:226-262 | exactly the bad addresses and one oldest other one leave the bucket, in any order of visiting |
| `AddrManagers.AddrManager.PickTried` | addrmgr/addrmanager.go:267-279 | the first of the oldest |
| `AddrManagers.AddrManager.Good` | addrmgr/addrmanager.go:969-1053 | the new state for unknown, tried and untried addresses, with and without eviction, and the book stays in order |
| `AddrManagers.GoodMovesOne` | addrmgr/addrmanager.go:969-1053 | marking an address good loses none: it is tried, and the only other record that changes is that of the oldest address of a full tried bucket, which is new again |
| `AddrManagers.HomeHasRoom` | addrmgr/addrmanager.go:1024-1034 | an evicted address goes to its own new bucket if that has fewer than 64 addresses, otherwise to the first that the good one was in, where there is room |
| `AddrManagers.FirstHeard` | addrmgr/addrmanager.go:190-201 | an address heard of for the first time has what was announced and no attempts; all others stay |
| `AddrManagers.ExpiredLeaves` | addrmgr/addrmanager.go:226-262 | nothing bad stays in an expired bucket, something goes, and at most one address that is not bad, no newer than any that stays |
| `AddrManagers.WhenBad` | addrmgr/knownaddress.go:76-103 | never within a minute of an attempt; else when dated more than ten minutes ahead, unseen for two weeks, failed five times without a success ever or fifteen times without one in a week |
| `AddrManagers.GoodLasts` | addrmgr/addrmanager.go:972-985 | an address that worked is bad again exactly once a minute has passed and it is unseen for two weeks or dated ahead |
| `AddrManagers.BadLasts` | addrmgr/knownaddress.go:76-103 | an address that is not dated ahead and is bad stays bad until something is heard of it |
| `AddrManagers.SeenIs` | addrmgr/addrmanager.go:159-174 | services add up, and the time moves exactly when the announcement is newer or offers more |
| `AddrManagers.SkipsWhen` | addrmgr/addrmanager.go:176-195 | an unknown address is always filed; one with eight references, or tried, or in the bucket never; any other by one draw in twice its references |
| `AddrBooks.BookIsBounded` | addrmgr/addrmanager.go:89-115 | a book in order holds at most 66560 new and 16384 tried addresses, each in at most eight new buckets |
| `AddrManagers.AddrManager.Unfile` | addrmgr/addrmanager.go:991-1006 | the loop takes the address out of every new bucket, its references reach zero and the first bucket is remembered |
| `AddrBooks.DropKeeps` | addrmgr/addrmanager.go:233-261 | losing a reference, and being forgotten with the last one, keeps references, slots, counters and sizes right |
| `AddrBooks.AddRefKeeps` | addrmgr/addrmanager.go:203-218 | so does gaining one |
| `AddrBooks.InsertKeeps` | addrmgr/addrmanager.go:192-201 | so does a new address, but for its missing bucket |
| `AddrBooks.PromoteKeeps` | addrmgr/addrmanager.go:991-1021 | so does a move to the tried buckets |
| `AddrBooks.SwapKeeps` | addrmgr/addrmanager.go:1023-1052 | so does an exchange with a tried address |
| `AddrLeases.NeverGrantedTwice` | addrmgr/addrmanager.go:758-923 | for every interleaving, any answers of isOk and any passing of time, two grants of one entry are at least 60 seconds apart |
| `AddrLeases.GrantedAfterAMinute` | addrmgr/addrmanager.go:758-923 | an entry whose last attempt is a minute old is granted by some run |
| `AddrLeases.StepKeeps` | addrmgr/addrmanager.go:758-923 | every step keeps mutual exclusion and the spacing of grants |
| `AddrLeases.FirstCheckIsNotEnough` | addrmgr/addrmanager.go:765-783 | two threads can hold the same entry after the first check, so the second one is needed |
| `CFCheckpoints.IntervalBlockHashes` | blockchain/chain.go:1518-1551 | the hashes of the ancestors at all multiples of the interval, whether found in the view or by walking; an error exactly for unknown or unvalidated blocks |
| `CFCheckpoints.SharedCheckpoint` | server.go:980-990 | blocks that agree at one checkpoint agree at all earlier ones |
| `CFCheckpoints.ServedIsUncached` | server.go:940-1046 | what is served from a coherent cache is the header of every requested block, and nothing is refused while all lookups succeed |
| `CFCheckpoints.AnsweredAgain` | server.go:940-1046 | a request longer than the cache, once answered, is answered again the same way without any lookup |
| `CFCheckpoints.CacheStaysSoundIff` | server.go:940-1046 | the stored cache lies on one chain afterwards exactly when the request was not left half written in place |
| `CFCheckpoints.CheckptCache.OnGetCFCheckpt` | server.go:899-1047 | for any stop hash: nothing is sent or changed for an unknown or unvalidated block; otherwise the handler over the shared array answers for that block's checkpoints, leaves the cache as specified, and says when the array is replaced by a larger one |
| `CFCheckpoints.CheckptCache.Serve` | server.go:925-1047 | the part after the hashes are known, on the shared array |
| `CFCheckpoints.CheckpointsAreIndexed` | server.go:899-925 | every requested hash is that of an indexed block |
| `CFCheckpointRuns.StepHolds` | server.go:899-1047 | a request that is not torn, and any growth of the block index, keep the cache coherent |
| `CFCheckpointRuns.RunServesUncached` | server.go:899-1047 | over every run of requests and reorganizations, as long as no earlier request tore the cache, a reply is the list without a cache, and it is refused only if a lookup fails |
| `CFCheckpointRuns.FindingRunServesAll` | server.go:899-1047 | from the empty cache, if no lookup fails, every request of every run is answered with the list without a cache |
| `CFCheckpointRuns.TornServesWrong` | server.go:940-1046 | after any torn request, whoever asks for the chain cached before is sent the other chain's header at the fork |
| `CFCheckpointRuns.ServesAllIff` | server.go:940-1046 | a request leaves a cache that serves every later request right exactly when it is not torn |
| `TornCaches.TornRun` | server.go:940-1046 | three requests from the empty cache at the interval of 1000 blocks, the second torn, the third answered with a header of another chain |
| `TornCaches.ServesTorn` | server.go:899-1047 | the same through the handler, with an array that has room after the first request |
| `CFCheckpoints.CheckptCache.Append` | server.go:957-970 | growing reuses the stored array exactly when it has room |

## Left out

- Consensus checks (block sanity and context, scripts, proof of work) are verdicts given from outside; a verdict of "accept" is only assumed to imply that the block's inputs exist and its outputs are new.
- The orphan flag returned together with a failed proof-of-work check, and notifications sent while the chain lock is released.
- Database failures: each update is atomic and succeeds.
- `BlockChains.BlockChain.ProcessBlock`: the check of a block's target against the last checkpoint is part of the outside verdict, because the checkpoint list is configuration.
- `BlockChains.BlockChain.ReorganizeChain`: takes lists that are consecutive nodes of one chain each, as getReorganizeNodes builds them.
- `BlockChains.BlockChain.ConnectBestChain`: a block added with the fast flag faults unless its inputs exist, are different and its outputs are new; the code fails only on an input without entry, so it would also connect one that spends an input twice or overwrites an output.
- `ChainSafety.ConnectBestKeeps`: the same for the fast flag.
- `BlockChains.BlockChain.AttachAll`: the election states of attached blocks are given by a function from outside, because what electionProcessBlock makes of the carried view is the subject of `ReorgTally`.
- `BlockChains.BlockChain.DisconnectBlock`: does not model the work sum written with the best state, because a reload computes it anew.
- `UtxoViews.UtxoViewpoint.DisconnectTransactions`: does not model the rescue of legacy journal entries without a height, because `StoredAboveGenesis` shows that no stored chain has one.
- `UtxoViews.UtxoViewpoint.ConnectTransaction`: does not say what is left in a view after a missing input, because the caller discards it.
- `UtxoViews.ViewConnects`: assumes that transaction ids differ from each other and from those already stored, because they are hashes.
- `Compression.ScriptRoundTrip`: assumes of elliptic-curve key parsing only that compressing and expanding a valid key gives it back.
- `Vlq.Deserialize`: a malformed length that makes the surrounding decoder index out of range ends in a decoding failure instead of a panic.
- `SpendJournal.DeserializeSpendJournalEntry`: takes the number of inputs instead of the transactions; the nested loops over them are one loop.
- `Merkle.BuildMerkleTreeStore`: no leaves at all is excluded, where the code fails on an index; floating point in the next power of two is exact.
- `IndexReload.ReloadRebuilds`: heights below 2^32 and hashes of 32 bytes, as the key format has room for.
- `CheckedTally.CheckedTallyIff`: the kept disapproval only; assumes that an output has the same amount and script wherever it appears, because transaction ids are hashes.
- `Elections.ElectionProcessBlock`: amounts are unbounded integers; reading opcodes from script bytes is a parameter.
- `ElectionTally.ElectionIsExact`: one direction for the choice of the winner; for the disapproval `StateIsExactIff` and `ElectedIsExactIff` have both.
- `IndexReload.InitChainState`: does not model the block size and weight in the snapshot, the migration of old databases, or a chain state that is missing altogether.
- `CFCheckpoints.CheckptCache.OnGetCFCheckpt`: one request at a time, as under the write lock.
- `CFCheckpoints.ServedIsUncached`: assumes that no block hashes to zero, the blank entry's hash.
- `AddrManagers.AddrManager.UpdateAddress`: bucket choice, random draws, routability and the clock are parameters.
- `AddrManagers.AddrManager.Good`: bucket choice and the clock are parameters.
- The order in which `getAddress` visits buckets, peers-file input and output, address scoring.
- The capacity that `fastLog2Floor` predicts for a locator; the length of the locator itself is proved.
- The past median time, sequence locks, checkpoints, headers requests, filters other than the checkpoint cache.
- Networking, RPC, wallet support, mining, configuration and logging.
