# Verified model of the node's state machines

This project models, in Dafny, the parts of the node that keep state: the ledger and the choice of
the best chain, the address manager, the block template builder, the network message queues, the
Merkle tree and the block locator, the base 58 and compact-target codecs with the retarget that uses
them, the stake modifier, and four bookkeeping machines. Code that updates objects in place is a
class or a method over arrays, proved against functions over values; what the source promises is then
proved about those functions.

`dafny verify dfyconfig.toml` checks everything.

| component | modules | main result |
|---|---|---|
| Ledger | `Ledger`, `LedgerProofs`, `Supply`, `Rewards`, `TxDb`, `Connect`, `BlockLaws` | `LedgerProofs.ConnectThenDisconnect`: disconnecting a connected block gives the old transaction index back exactly when none of its transactions was indexed before. `BlockLaws.ConnectsExactly` and `SpentOutput`: which blocks connect, and that what they spend is mature. `Supply.IncreaseBoundedByReward` and `ProofOfWorkBoundExactly`: when the reward bounds what a block creates |
| Best chain | `BlockTree`, `ChainState`, `ChainExample`, `StaleReward` | `Node.SetBestChain`: the stored index is always the replay of one chain, the forward links mark that chain, and every recorded supply is the sum of the unspent outputs; both success and consistency afterwards are decided by conditions on the state before the call and the answers from outside. `StaleReward.StaleRewardExactly`: when a connected block keeps to the reward at its parent's supply |
| Address manager | `AddrTables`, `AddressManager`, `AddrCheck`, `SetWalk` | every operation keeps the five indexes in step; `AddrCheck.CheckExactly`: what the shipped consistency check accepts and what it misses |
| Address file | `AddrDisk`, `AddrDiskProofs`, `AddrDiskLaws` | `AddrDiskProofs.RoundTrip`: saving and loading renames the ids and loses nothing |
| Block template | `Template`, `TemplateLaws`, `Miner`, `Mining` | `Miner.CreateNewBlock`: parents first, nothing left out without a reason, and the block connects. `Mining.MineBlock`: such a block, accepted while nothing refuses, becomes the best one exactly when its header and single transactions pass their own checks |
| Message framing | `Wire`, `Net` | `Net.Delivery`: whatever the partial sends and the cutting of the stream, a receiver has the first messages of the sender, in order, and all of them once it has every byte |
| Merkle tree, locator | `Merkle`, `Locator` | `Merkle.BranchLeadsToRoot`, `OnlyTheLeaf`; `Locator.LocatorLength`, `CommonBlock` |
| Codecs, retarget | `Numerals`, `Base58`, `Compact`, `Retarget`, `RetargetLaws` | `Base58.RoundTrip` with its exact condition, `Compact.RoundingError`, `Retarget.TargetInRange`, `RetargetLaws.TargetMoves` |
| Bookkeeping | `StakeModifier`, `BlockDownload`, `Orphans`, `PageLocks`, `Hmac` | selection never fails; each block has one peer; the orphan index is exact; a page is locked as long as a range needs it; PBKDF2 is the one of RFC 8018 |

## Conventions

* Hashes are numbers, and hash functions, signatures, script sizes and clocks are arbitrary functions
  or parameters. A transaction carries its id.
* A check whose inputs are outside the model may reject. The checks on transactions and blocks are the
  functions of `Rules`, which may differ from block to block and from call to call. Disk reads, the
  Velocity constraints, the rolling checkpoint, `bIndex_Factor` and database commits are the functions
  of `ChainState.Outside`, an argument of each call, so that success is decided by the arguments and
  the state before the call.
* Random choices are arbitrary values in range, and so is the order of the miner's priority queue.
* `int64_t` amounts are unbounded integers; unsigned differences of times in the retarget wrap
  around at 64 bits.
* Methods are proved against functions; the lemmas named `...Exactly` and the modules `...Laws` say in
  numbers, and without those functions, what the functions decide.
* Pointers into lists (`BlockDownload`) are tokens that name one list element.

## What the code does not do

These are places where a natural claim is stronger than the code. The model follows the code, and
the exact condition is proved.

* A proof-of-work block may carry a coinstake, which `ConnectBlock` does not compare with any reward.
  `Supply.ProofOfWorkBoundExactly` says when the reward still bounds the new money, and
  `Supply.UncheckedCoinStake` is a block that passes every check on top of ten unspent coins and
  creates more than its reward.
* `ConnectBlock` computes the reward from the supply of the best block, which in a reorganization is
  not the parent. `StaleReward.StaleRewardExactly`: every proof-of-work block without coinstake that
  connects keeps to the reward at its parent's supply if and only if the reward is not stale
  (`Rewards.Stale`: the best block's supply is below 9,000,000 coins, the parent's is not, and the
  reserve reward is not halved away; for the first block, the other way about the largest amount). A
  chain without such blocks has at most 9,090,000 coins and 6.25 more for each block
  (`ChainState.Node.TipWithinLimit`), and extending the best chain never makes one
  (`ChainState.Node.ChildNotStale`).
* `SetBestChain` makes the new block the best one even when a postponed reconnect fails.
  `ChainState.Node.SetBestChain` proves that the node is consistent afterwards exactly when every
  postponed block can be read, connects and is committed. `ChainExample.InvalidBlockBecomesBest` is a
  run of `AcceptBlock` from the genesis block: one commit is refused, so a good block stays
  unadopted, and then, with every answer from outside yes, a block on top of it that pays itself more
  than the reward becomes the best block.
* `SelectTried` returns the place the oldest entry was drawn from, not where it is after the shuffle.
  `AddressManager.AddrMan.SelectTried` proves that this place holds that entry exactly when it was
  drawn from its own slot; `AddressManager.OtherEntryReturned` is a bucket and draws for which it
  holds another one.
* `Check_` reads an absent address as id 0, and looks neither at bucket sizes nor at home buckets;
  `AddrCheck.CheckExactly` lists what it leaves open, and `AddrCheck.CheckMisses` is a table it accepts
  and the invariant does not.
* The decoder in use drops leading zero bytes. `Base58.RoundTrip` and `Base58.CheckRoundTrip` are
  equivalences.
* Two transaction lists of different lengths can have the same Merkle root (`Merkle.RepeatedTail`).
* The kind of block asked about is counted once for every block scanned, so the retarget's skew never
  has an effect (`Retarget.NeverSkewed`).
* The next target can be zero when the old one is very small; `Retarget.NextTargetUsable` says exactly
  when a hash can still meet it, and `Retarget.TargetVanishes` is a chain after which none can.
* Reading a damaged address file makes up an entry for every absent id a bucket names.
  `AddressManager.AddrMan.Load` follows that; `AddrDiskProofs.RoundTrip` shows that saving produces no
  such file.

## Model

| member | source | states |
|---|---|---|
| `LedgerProofs.ConnectThenDisconnect` | src/main.cpp:1820-1997 | a block that passes ConnectBlock is undone exactly, outputs created and spent inside it included, if and only if none of its ids was indexed before |
| `LedgerProofs.DisconnectRestores` | src/main.cpp:1690-1715 | undoing the transactions in reverse inverts applying them, exactly for fresh ids |
| `LedgerProofs.ConnectPrefixApplies` | src/main.cpp:1849-1893 | after any number of transactions the loop's pending view is the plain application of those transactions |
| `LedgerProofs.UndoTxAfterApplyTx` | src/main.cpp:1437-1470 | giving back one transaction's inputs and erasing its entry restores the index before it |
| `LedgerProofs.UndoTxsAfterApplyTxs` | src/main.cpp:1693-1699 | the same for a list of fresh transactions with distinct ids |
| `LedgerProofs.SpendAllFacts` | src/main.cpp:1616-1669 | a successful spend found every slot null, had no repeated input, and changed those slots and nothing else |
| `LedgerProofs.UnspendAllFacts` | src/main.cpp:1437-1462 | giving back existing slots never fails and nulls those slots and nothing else |
| `LedgerProofs.SlotAfterBlock` | src/main.cpp:1849-1931 | every slot of the connected index: the position of its spender in the block, else what it was, else null for outputs the block made |
| `LedgerProofs.SpenderIsUnique` | src/main.cpp:1571-1687 | an output of a connected block is spent by one transaction of it only |
| `LedgerProofs.NoDoubleSpend` | src/main.cpp:1571-1687 | two inputs of a connected block that name the same output are the same input |
| `LedgerProofs.SpentOutputsExisted` | src/main.cpp:1571-1687 | what a block spends was unspent before it or made earlier in it |
| `Supply.SpendLowersTotal` | src/main.cpp:1616-1669 | marking one output spent lowers the sum of unspent outputs by its value |
| `Supply.AddTxRaisesTotal` | src/main.cpp:1889-1893 | indexing a new transaction raises that sum by the value of its outputs |
| `Supply.ConnectPrefixConserves` | src/main.cpp:1862-1893 | conservation: the sum of unspent outputs changes by exactly the loop's running value out minus value in |
| `Supply.NetValue` | src/main.cpp:1862-1888 | with regular minting the value created is coinbase plus stake minus fees |
| `Supply.RewardAtZeroFees` | src/blockparams.cpp:456-502 | rewards are linear in the fees, never negative without them and at most 90000 coins |
| `Supply.IncreaseBoundedByReward` | src/main.cpp:1895-1919 | a proof-of-stake block, or one without coinstake, raises the sum of unspent outputs by at most its reward at zero fees |
| `Supply.ProofOfWorkBoundExactly` | src/main.cpp:1895-1903 | for any proof-of-work block that bound holds if and only if the coinbase and the coinstakes' gains together fit the reward |
| `Supply.UncheckedCoinStake` | src/main.cpp:1895-1903 | a proof-of-work block that passes every check on top of an index whose sum is the best block's supply, and raises that sum by more than its reward |
| `BlockLaws.InputLaw` | src/main.cpp:1571-1669 | every input of a connected block spends an output that exists, is unspent, not empty, between 0 and 100 million coins and not dated after its spender, with a valid signature; one of a coinbase or coinstake points into none of the ten nearest blocks |
| `BlockLaws.SpentOutput` | src/main.cpp:1582-1612 | it was made by an earlier transaction of the block or in an ancestor, at least ten blocks earlier if by a coinbase or coinstake |
| `BlockLaws.SpendAllExactly` | src/main.cpp:1616-1669 | marking outputs spent succeeds exactly when they are different, exist and are unspent |
| `BlockLaws.GoodInputExactly` | src/main.cpp:1582-1640 | what is asked of one input, in numbers |
| `BlockLaws.AcceptedExactly` | src/main.cpp:1571-1688 | ConnectInputs accepts exactly the transactions whose every input is good, with no input repeated and no more paid out than taken in |
| `BlockLaws.PrefixExactly` | src/main.cpp:1841-1893 | the loop gets through k transactions exactly when each is good against the index with the earlier ones applied and the signature operations stay within the limit; its totals are the sums |
| `BlockLaws.ConnectsExactly` | src/main.cpp:1820-1919 | so a block connects exactly when it passes CheckBlock, each transaction is good where it stands, the signature operations are within the limit, and the reward at zero fees plus the fees covers the coinbase or the stake |
| `BlockLaws.TotalsNext` | src/main.cpp:1862-1888 | fees leave coinbase and coinstakes out; the stake is what the last coinstake gains |
| `BlockLaws.CheckBlockExactly` | src/main.cpp:2426-2503 | the checks on a block alone, in other words |
| `BlockLaws.CheckTransactionExactly` | src/main.cpp:735-775 | the checks on a transaction alone, with the range of partial sums reduced to that of the total |
| `BlockLaws.PlacesExactly` | src/main.cpp:1849-1860 | the transactions of a block lie one after the other behind the header and a count of 1, 3, 5 or 9 bytes |
| `Rewards.LimitStep` | src/blockparams.cpp:456-502 | a block within its reward at its parent's supply takes a chain from the sharp limit at its parent's height to the one at its own |
| `Rewards.LimitBound` | src/blockparams.cpp:456-502 | that limit is below 9,090,000 coins and 6.25 for each block |
| `Rewards.StaleExactly` | src/blockparams.cpp:456-502 | the reward at one supply exceeds the reward at another if and only if only the first is still in the reserve phase and that reward is not halved away, or, for the first block, only the second is too large |
| `Rewards.RewardTable` | src/blockparams.cpp:456-502 | the rewards in numbers: 90000 coins while the supply is below nine million, 6.25 after, and 6.25 or nothing for the first block |
| `Rewards.RewardHalves` | src/blockparams.cpp:476-476 | the proof-of-work reward halves with every 210000 blocks |
| `TxDb.TxDB.TxnBegin` | src/txdb-leveldb.cpp:137-142 | an empty batch shows what is stored |
| `TxDb.TxDB.TxnCommit` | src/txdb-leveldb.cpp:144-155 | if the store takes the write, all changes become stored, otherwise none; the batch is gone |
| `TxDb.TxDB.TxnAbort` | src/txdb-leveldb.h:169-174 | stored entries and best-chain hash are untouched |
| `TxDb.TxDB.ReadTxIndex` | src/txdb-leveldb.cpp:228-232 | a read sees the batch's last write or deletion before the stored entry |
| `TxDb.TxDB.UpdateTxIndex` | src/txdb-leveldb.cpp:234-237 | later reads see the entry, the store does not change |
| `TxDb.TxDB.EraseTxIndex` | src/txdb-leveldb.cpp:247-253 | later reads do not see the entry, the store does not change |
| `BlockTree.MainChainExactly` | src/main.h:1080-1083 | with the right forward links, having one or being the tip means exactly being the tip or its ancestor |
| `BlockTree.AncestorsComparable` | src/main.h:946-1000 | ancestors of one block lie on one line, ordered by height |
| `BlockTree.FirstAboveIs` | src/main.cpp:2208-2220 | the block found walking down has a parent with no more trust than the limit, and every block above it has a parent with more |
| `BlockTree.FirstAboveUnique` | src/main.cpp:2208-2220 | no other block on the way is like that |
| `BlockTree.UndoReplay` | src/main.cpp:1690-1715 | undoing the top block of a replayed chain gives the replay of its parent |
| `BlockTree.ReplayWellIndexed` | src/main.cpp:1926-1931 | every entry of a replayed index points at its own transaction and has one slot per output |
| `BlockTree.AboveForkIsApart` | src/main.cpp:2049-2060 | blocks above the lowest common ancestor are on one side only |
| `BlockTree.WriteTxsKeeps` | src/main.h:809-833 | writing a block to free places keeps what was readable and makes its transactions readable |
| `Connect.FetchInputs` | src/main.cpp:1473-1542 | succeeds if and only if every input's transaction, slot and output exist, and returns those transactions and current entries |
| `Connect.IsConfirmedInNPrevBlocks` | src/main.cpp:1424-1435 | finds the nearest ancestor within the depth that an entry points into, if and only if there is one |
| `Connect.CheckInput` | src/main.cpp:1582-1612 | accepts exactly the outputs that are not empty, between 0 and 100 million coins, not younger than the spender and, for a coinbase or coinstake, in none of the last ten blocks |
| `Connect.CheckInputValues` | src/main.cpp:1582-1612 | accepts exactly when every input and every partial sum is acceptable, and returns the value in |
| `Connect.GetValueMapIn` | src/main.cpp:1557-1569 | the value of the outputs spent |
| `Connect.SpendInputs` | src/main.cpp:1616-1669 | succeeds if and only if every signature is valid and no output is spent yet, also by an earlier input |
| `Connect.ConnectInputs` | src/main.cpp:1571-1688 | accepts exactly the transactions the specification accepts, with the same new index view |
| `Connect.DisconnectInputs` | src/main.cpp:1437-1470 | fails exactly for missing entries or slots; otherwise the open batch shows the undone index |
| `Connect.DisconnectBlock` | src/main.cpp:1690-1715 | the same for a whole block, last transaction first |
| `ChainState.Node.constructor` | src/main.cpp:2194-2200 | a node that knows the genesis block only is consistent |
| `ChainState.Node.ConnectTransaction` | src/main.cpp:1849-1893 | one round of the loop accepts exactly when the specification does, with the same totals |
| `ChainState.Node.ConnectTransactions` | src/main.cpp:1841-1893 | the loop accepts exactly the blocks whose every transaction connects on top of the earlier ones |
| `ChainState.Node.ConnectBlock` | src/main.cpp:1820-1997 | accepts exactly the blocks that connect; then the batch shows the new index and mint and supply are the block's; otherwise nothing changed |
| `ChainState.Node.ConnectsOnReplay` | src/main.cpp:1895-1931 | on its parent's chain a connecting block yields its own chain's index, and its totals account for the new money |
| `ChainState.Node.ConnectNext` | src/main.cpp:1895-1931 | the recorded supply is the sum of unspent outputs, and grows by at most the reward under regular minting; every input spends an older output of the same chain, ten blocks older for coinbases and coinstakes |
| `ChainState.Node.FindFork` | src/main.cpp:2049-2060 | returns the lowest common ancestor and the number of rounds of the search; neither cursor runs off the tree |
| `ChainState.Node.CollectBranch` | src/main.cpp:2069-2079 | lists exactly the blocks between the tip and the fork |
| `ChainState.Node.DisconnectBranch` | src/main.cpp:2084-2101 | succeeds exactly when each block can be read, since undoing never fails, and takes the batch back to the fork's index |
| `ChainState.Node.ConnectBranch` | src/main.cpp:2104-2128 | succeeds if and only if each block can be read, connects on its parent's chain and meets the Velocity constraints; then the batch shows the new tip's index |
| `ChainState.Node.SwitchIndex` | src/main.cpp:2084-2134 | the stored index moves to the other chain exactly when the old branch can be read, the new one joins and the commit succeeds, and otherwise stays; the supplies along the old chain stay right |
| `ChainState.Node.UnlinkBranch` | src/main.cpp:2136-2139 | after it the forward links describe the chain up to the fork |
| `ChainState.Node.LinkBranch` | src/main.cpp:2141-2144 | after it they describe the chain up to the new tip |
| `ChainState.Node.Reorganize` | src/main.cpp:1999-2159 | succeeds if and only if the branch is not too high, passes checkpoint and supply checks, both sides can be read, all its own blocks join and the commit succeeds; otherwise the stored index and every forward link are as before |
| `ChainState.Node.ReorganizableExactly` | src/main.cpp:1999-2134 | the condition in numbers: at most one block higher than the tip, in the checkpoint's chain, sane for the fork and the number of rounds, the old branch readable, each block of the new one readable, connecting and within Velocity, and the commit done |
| `ChainState.Node.SetBestChainInner` | src/main.cpp:2163-2185 | attaches one block to its parent's chain if and only if it connects and is committed; otherwise nothing stored changes |
| `ChainState.Node.Postponed` | src/main.cpp:2208-2220 | stops at the block whose parent has no more trust than the best block while every block above it has a parent with more; those are postponed |
| `ChainState.Node.MoreTrustIsApart` | src/main.cpp:2208-2220 | no postponed block is an ancestor of the old best block |
| `ChainState.Node.ConnectPostponed` | src/main.cpp:2233-2249 | the node ends describing the highest postponed block below which all were read, connected and committed |
| `ChainState.Node.AllReconnected` | src/main.cpp:2233-2249 | that is the new block itself if and only if every postponed block was read, connected and committed |
| `ChainState.Node.AllReconnectExactly` | src/main.cpp:2233-2249 | all postponed blocks reconnect exactly when each can be read, connects and is committed |
| `ChainState.Node.LastConnectedExactly` | src/main.cpp:2233-2249 | the blocks up to the last one connected all do, and the next one does not |
| `ChainState.Node.MainChainRightExactly` | src/main.h:1080-1083 | IsInMainChain answers right for all blocks if and only if the connected block is the best one |
| `ChainState.Node.SwitchBestChain` | src/main.cpp:2208-2249 | succeeds exactly when the reorganization does; a failed switch leaves index, links and supplies of the old chain |
| `ChainState.Node.SetBestChain` | src/main.cpp:2187-2263 | finds the block to switch to, whose parent has no more trust than the best block while every block above it has a parent with more; succeeds if and only if a child of the best block connects and is committed, or that block can be reorganized to; failure changes nothing; afterwards the node is consistent, and IsInMainChain right, if and only if each block above it can be read, connects and is committed; a chain within its rewards stays so unless one is stale |
| `ChainExample.InvalidBlockBecomesBest` | src/main.cpp:2187-2263 | a run of a fresh node: a block whose commit is refused stays unadopted; a block on top of it, offered while nothing outside refuses, is accepted and becomes the best block although it fails ConnectBlock, and the node is inconsistent |
| `StaleReward.StaleRewardExactly` | src/main.cpp:1895-1919 | for every index, supply of the best block and height: all proof-of-work blocks without coinstake that connect keep to the reward at the supply of that index, if and only if the reward at the best block's supply is not stale |
| `ChainState.Node.TipSupply` | src/main.cpp:1917-1919 | at every consistent state every indexed entry leads to its own transaction, and the tip's recorded supply is the sum of all unspent outputs |
| `ChainState.Node.SupplyStep` | src/main.cpp:1895-1919 | along the best chain each regular block added at most 90000 coins |
| `ChainState.Node.SupplyCap` | src/main.cpp:1895-1919 | so, whatever was connected and disconnected on the way and whoever's supply the rewards were read from, the supply is at most 90000 coins times the height |
| `ChainState.Node.Rewarded` | src/main.cpp:1895-1919 | a connected block creates at most the reward at the supply of the block that was the best one then |
| `ChainState.Node.FairSupply` | src/main.cpp:1895-1919 | a chain whose blocks each kept to the reward at their parent's supply stays within the sharp limit |
| `ChainState.Node.TipWithinLimit` | src/main.cpp:1895-1919 | so the recorded supply of a consistent node on such a chain is below 9,090,000 coins and 6.25 for each block |
| `ChainState.Node.BranchFair` | src/main.cpp:2104-2128 | connecting a branch on top of such a chain keeps it so when no block of the branch has a stale reward |
| `ChainState.Node.AdoptedFair` | src/main.cpp:2187-2263 | so does adopting a block, whatever was reorganized and postponed |
| `ChainState.Node.ChildNotStale` | src/main.cpp:2163-2185 | a regular child of the best block has no stale reward |
| `ChainState.Node.FindBlockByHeight` | src/main.cpp:1274-1290 | from any of its three starting points it reaches the one block of the main chain with that height, and its cache stays on the main chain |
| `ChainState.Node.StoreBlock` | src/main.cpp:2353-2409 | a new block joins the tree without disturbing the chain or any supply |
| `ChainState.Node.AcceptBlock` | src/main.cpp:2505-2625 | a block enters the tree exactly when it is new and passes the checks, and its transactions are then on disk; it becomes the best one exactly when it has more trust and is adoptable; the node stays consistent, and IsInMainChain right, unless a postponed reconnect failed |
| `AddrTables.SizesAgree` | src/addrman.cpp:434-439 | new and tried counts add up to the length of vRandom and the number of entries |
| `AddrTables.NewIdHasBucket` | src/addrman.cpp:286-302 | a new entry is in some bucket, so "no bucket found" cannot happen |
| `AddrTables.SwappedKeeps` | src/addrman.cpp:105-123 | swapping two places of vRandom keeps the invariant |
| `AddrTables.DroppedFacts` | src/addrman.cpp:149-201 | losing a reference removes the entry from every index exactly when it was the last one |
| `AddrTables.DroppedKeeps` | src/addrman.cpp:149-201 | so it keeps the invariant, also while another entry's count runs one ahead |
| `AddrTables.AdmittedKeeps` | src/addrman.cpp:351-362 | a created entry is consistent except that its count is one ahead of its buckets |
| `AddrTables.AheadKeeps` | src/addrman.cpp:358-366 | so is an entry about to get one more bucket |
| `AddrTables.InsertedKeeps` | src/addrman.cpp:358-366 | putting that entry into a bucket with room restores the full invariant |
| `AddrTables.HistoryKeeps` | src/addrman.cpp:322-331 | times, services and attempts play no part in the invariant |
| `AddrTables.MovedKeeps` | src/addrman.cpp:203-228 | promotion into a tried bucket with room keeps the invariant |
| `AddrTables.ExchangedKeeps` | src/addrman.cpp:230-259 | promotion into a full bucket, with the evicted entry going to its own new bucket or to the vacated one, keeps it, so no bucket overflows |
| `AddrTables.TerribleExactly` | src/addrman.cpp:38-57 | which entries may be deleted, in seconds and attempts |
| `AddressManager.AddrMan.constructor` | src/addrman.h:393-399 | an empty manager satisfies the invariant |
| `AddressManager.AddrMan.Find` | src/addrman.cpp:80-91 | the entry with that network address, if and only if there is one |
| `AddressManager.AddrMan.Create` | src/addrman.cpp:93-103 | a fresh id enters mapInfo, mapAddr and vRandom |
| `AddressManager.AddrMan.SwapRandom` | src/addrman.cpp:105-123 | the two places and back-pointers are exchanged, and nothing else |
| `AddressManager.AddrMan.SelectTried` | src/addrman.cpp:125-147 | the bucket is the old one after the draws' swaps; the place returned is the draw of the least recently successful of the first four, and holds that entry exactly when it was drawn from its own slot |
| `AddressManager.ShuffleFirst` | src/addrman.cpp:129-146 | for given draws, the shuffled bucket, and the draw of the first of the least recently successful entries |
| `AddressManager.OtherEntryReturned` | src/addrman.cpp:125-147 | a full bucket and draws for which the place returned holds another entry |
| `AddressManager.PromotedNew` | src/addrman.cpp:230-259 | a promoted entry leaves every new bucket; an evicted one joins the bucket its address and source name if that has fewer than 64 others, otherwise the one the promoted entry was found in, and no other |
| `AddressManager.PromotedTried` | src/addrman.cpp:125-259 | the promoted entry joins its home tried bucket, at the end or in the place from which the least recently successful of four was drawn, whose entry goes |
| `AddressManager.OldestExactly` | src/addrman.cpp:174-187 | the oldest of four drawn: none of them is older, or as old with a smaller id |
| `AddressManager.GainedExactly` | src/addrman.cpp:358-366 | one bucket gains the entry; a full one loses the first terrible entry or, if there is none, the oldest of four drawn |
| `AddressManager.AddrMan.ShrinkNew` | src/addrman.cpp:149-201 | removes one reference of a terrible entry if the bucket has one, otherwise of the oldest of the entries at four drawn places |
| `AddressManager.AddrMan.FindTerrible` | src/addrman.cpp:154-172 | the first terrible entry in ascending order, or there is none |
| `AddressManager.AddrMan.OldestOfFour` | src/addrman.cpp:174-187 | of the entries at the four drawn places of the ascending walk, the oldest, and the first of equally old ones |
| `AddressManager.AddrMan.LeaveNewBuckets` | src/addrman.cpp:207-212 | the entry is in no bucket and its count fell by the number it was in |
| `AddressManager.AddrMan.MakeTried` | src/addrman.cpp:203-259 | the invariant holds again; the entry is in its home tried bucket and in no new one; one tried entry went back to new if and only if that bucket was full, into its own new bucket if that had room and otherwise into the one vacated; all others are untouched |
| `AddressManager.AddrMan.Exchange` | src/addrman.cpp:230-259 | with a full home bucket the evicted entry is another tried one, the one SelectTried names, and goes to its own new bucket or to the vacated one |
| `AddressManager.AddrMan.FindNewBucket` | src/addrman.cpp:286-298 | the search from any random start ends at a bucket that holds the entry |
| `AddressManager.AddrMan.Good_` | src/addrman.cpp:261-308 | keeps the invariant; does nothing for an unknown service; otherwise the entry ends up tried with fresh times and no failures, and at most one other entry changes, which is put back as MakeTried does |
| `AddressManager.AddrMan.GoodTimes` | src/addrman.cpp:276-280 | keeps the time conditions as well |
| `AddressManager.AddrMan.Attempt_` | src/addrman.cpp:370-387 | keeps the invariant and changes one entry's attempt count and time only |
| `AddressManager.AddrMan.Connected_` | src/addrman.cpp:509-527 | keeps the invariant and refreshes one entry at most every twenty minutes |
| `AddressManager.AddrMan.Refresh` | src/addrman.cpp:322-343 | asks for one more bucket only for a new entry below the limit and for newer news |
| `AddressManager.AddrMan.MakeRoom` | src/addrman.cpp:363-364 | leaves room in the bucket; one other entry may lose a reference, the rest keep all but their places in vRandom |
| `AddressManager.AddrMan.PutIntoBucket` | src/addrman.cpp:360-366 | restores the full invariant for an entry one reference ahead |
| `AddressManager.AddrMan.Admit` | src/addrman.cpp:351-362 | the new entry is one reference ahead and in no bucket yet |
| `AddressManager.AddrMan.Add_` | src/addrman.cpp:310-368 | keeps the invariant and everything tried; reports new exactly for a routable unknown address, with its fields; a known one is refreshed by the stated times and gains at most one reference; one bucket gains the entry, and a full one loses the first terrible entry or the oldest of four; every other entry keeps all but its place in vRandom, and goes only with its last reference |
| `AddressManager.AddrMan.GetAddr_` | src/addrman.cpp:493-507 | keeps the invariant; returns the addresses at the front of vRandom, 23 percent of the table and at most 2500, all different, changing only its order |
| `AddrTables.TimesFrom` | src/addrman.cpp:466-468 | operations that keep or clear times keep the time conditions |
| `AddrCheck.CheckEntries` | src/addrman.cpp:441-462 | passes exactly the tables without a faulty entry, and collects tried ids and reference counts |
| `AddrCheck.CheckTried` | src/addrman.cpp:465-473 | crosses every tried id off exactly once, or the buckets are wrong |
| `AddrCheck.CheckNew` | src/addrman.cpp:475-484 | counts every reference down to zero, or the buckets are wrong |
| `AddrCheck.Check_` | src/addrman.cpp:434-490 | returns 0 if and only if entries, counts and bucket contents agree |
| `AddrCheck.CheckExactly` | src/addrman.cpp:434-490 | the invariant is exactly what the check accepts together with bucket sizes, id range, stray addresses and home buckets |
| `AddrCheck.CheckMisses` | src/addrman.cpp:465-473 | a table with one tried entry passes the check whatever its home bucket is, and satisfies the invariant only if it lies there |
| `AddressManager.AddrMan.SaveNew` | src/addrman.h:294-306 | every new entry is written once, in ascending order of ids, and numbered in that order |
| `AddressManager.AddrMan.SaveTried` | src/addrman.h:307-317 | every tried entry is written once, in ascending order of ids |
| `AddressManager.AddrMan.SaveBucket` | src/addrman.h:318-328 | a bucket is written as the numbers of its entries, each once |
| `AddressManager.AddrMan.Save` | src/addrman.h:290-328 | the file holds every entry and every bucket exactly once |
| `AddressManager.AddrMan.LoadNew` | src/addrman.h:338-350 | reading new entries rebuilds the indexes, and default buckets for foreign files |
| `AddressManager.AddrMan.LoadTried` | src/addrman.h:351-371 | reading tried entries fills home buckets and counts the lost ones |
| `AddressManager.AddrMan.LoadBucket` | src/addrman.h:372-388 | reading a bucket restores references up to the limit, making up entries for ids that are absent |
| `AddressManager.AddrMan.Load` | src/addrman.h:329-389 | the manager read from a file, damaged or not, is the one its contents determine |
| `AddrDiskLaws.NewEntries` | src/addrman.h:338-350 | for any file: entry x is record x, with one reference if the file has another number of buckets than 256 |
| `AddrDiskLaws.NewEntryIn` | src/addrman.h:338-350 | and that reference is of the bucket its address and source name |
| `AddrDiskLaws.TriedEntries` | src/addrman.h:351-371 | for any file: each tried bucket takes the first 64 of its records, and every other one is lost and lowers the count |
| `AddrDiskLaws.ReferenceNext` | src/addrman.h:372-388 | a name adds a reference to an entry with fewer than four, made up if it is unknown |
| `AddrDiskLaws.References` | src/addrman.h:372-388 | so no entry has a fifth reference, and a bucket holds nothing the file does not name in it |
| `AddrDiskProofs.ReadBackRenamed` | src/addrman.h:281-390 | what is read back is the saved tables with ids renamed, entries and buckets alike |
| `AddrDiskProofs.RenamedKeeps` | src/addrman.h:281-390 | renaming keeps the invariant |
| `AddrDiskProofs.RoundTrip` | src/addrman.h:281-390 | saving and loading a consistent manager is well-formed, loses nothing, and gives a consistent manager that differs in id names, order and last attempts only |
| `AddrDiskProofs.RenamedTimes` | src/addrman.h:281-390 | the time conditions survive as well |
| `AddrDiskProofs.EntriesBack` | src/addrman.h:338-371 | every entry comes back with its fields |
| `AddrDiskProofs.NewBucketsBack` | src/addrman.h:372-388 | every new bucket comes back with its members |
| `AddrDiskProofs.TriedBucketsBack` | src/addrman.h:351-371 | every tried bucket comes back with its members, none lost |
| `AddrDiskProofs.CountsRestored` | src/addrman.h:372-388 | reference counts come back from the buckets |
| `Template.DraftSize` | src/miner.cpp:283-286 | the running size is the reserve plus the sizes added and stays below the limit |
| `Template.ConnectedAgrees` | src/miner.cpp:309-327 | a transaction that connects against template entries connects, for the same value, against the entries of the stored block |
| `Template.DraftInStep` | src/miner.cpp:263-363 | template and block stay in step: same unspent outputs, same fees, no more signature operations |
| `Template.DraftConnects` | src/miner.cpp:371-373 | a block made of a draft passes ConnectBlock's spent, value, maturity, signature-operation and reward checks from the same index |
| `Template.DraftChecks` | src/main.cpp:2426-2503 | of CheckBlock only the checks on header and single transactions remain |
| `TemplateLaws.AddedExactly` | src/miner.cpp:283-331 | a transaction is added exactly when it is below both limits, not dated too late, every input is good, none is repeated and no more is paid out than taken in |
| `TemplateLaws.DraftTotals` | src/miner.cpp:263-363 | the totals are 1000 bytes and 100 operations more than the sums over the transactions, which are dated in time |
| `TemplateLaws.ChosenGood` | src/miner.cpp:309-327 | every transaction is good against those before it |
| `TemplateLaws.ExcusedExactly` | src/miner.cpp:283-331 | the reasons for leaving a transaction out, in numbers and for the transactions before it |
| `Miner.ReadFromDisk` | src/main.cpp:416-436 | finds a previous transaction exactly when the index leads to it and it has the output |
| `Miner.Depend` | src/miner.cpp:201-242 | a transaction waits for exactly the pool transactions it spends and is registered with each |
| `Miner.Enlist` | src/miner.cpp:195-261 | one more pool transaction becomes ready or waits, and nothing else changes |
| `Miner.Gather` | src/miner.cpp:195-261 | every candidate of a closed pool is ready or waits for what it lacks |
| `Miner.Release` | src/miner.cpp:346-362 | exactly the transactions for which this was the last parent become ready; none is lost or doubled |
| `Miner.TryAdd` | src/miner.cpp:283-331 | succeeds exactly when size, operation, time, input and connection rules allow it (TemplateLaws.AddedExactly), with the same new totals |
| `Miner.Consider` | src/miner.cpp:273-363 | keeps the schedule and the draft in step |
| `Miner.Drain` | src/miner.cpp:273-363 | the loop ends with every candidate in the block, excused, or still lacking a parent |
| `Miner.ParentsComeFirst` | src/miner.cpp:346-362 | if one transaction of the block spends another's output, the other comes earlier |
| `Miner.NoneForgotten` | src/miner.cpp:346-362 | what is left when the queue is empty lacks a parent that is not in the block |
| `Miner.LeftOut` | src/miner.cpp:273-363 | a final pool transaction whose parents are in the block or stored is left out only if, with the first k transactions in, it would have passed a limit, been dated too late, had a bad or repeated input, paid out too much, or been cheap and past the size for such |
| `Miner.SizesAllowed` | src/miner.cpp:156-168 | the size limit is the argument, but at least 1000 and at most 15255128, and the size for cheap transactions at most that |
| `Miner.TemplateTimes` | src/miner.cpp:293-295 | nothing is dated after now, nor after the coinbase of a proof-of-stake template; sizes and operations are below the limits |
| `Miner.CreateNewBlock` | src/miner.cpp:103-387 | distinct final pool transactions, parents first, dated in time, below the size and operation limits, each omission excused, fees as counted, coinbase made for the reward; once stored, the block passes ConnectBlock's input, value, signature-operation and reward checks, and connects exactly when its header and single transactions pass theirs |
| `Miner.TemplateConnects` | src/miner.cpp:371-373 | the last part, for any place the block may be stored |
| `Mining.ReplayPlaced` | src/main.cpp:1849-1893 | every entry of a chain's index points into a block of that chain above the genesis block |
| `Mining.Joins` | src/main.cpp:1820-1931 | a template stored at a place of no block of the chain connects on top of the tip if and only if it passes the checks on header and single transactions |
| `Mining.MineBlock` | src/miner.cpp:455-493 | a proof-of-work template made on a consistent node and accepted at a free place, while nothing refuses and the rules are the same, becomes the best block if and only if it passes those checks; the node is consistent either way |
| `Wire.LE32RoundTrip` | src/protocol.h:25-57 | a size written in four bytes reads back |
| `Wire.DeclaredExactly` | src/protocol.h:25-57 | the size stands in bytes 16 to 19 of the header, least significant first |
| `Wire.FramesOf` | src/net.cpp:654-680 | complete messages parse first, then whatever follows them |
| `Wire.FramesExact` | src/net.cpp:654-680 | parsing inverts writing: messages and rest give the stream back |
| `Wire.RejectedStays` | src/net.cpp:682-711 | a refused header stays refused whatever follows |
| `Wire.RejectedExactly` | src/net.cpp:654-720 | after complete messages a header that declares more than 32 MiB is refused, and one that declares no more waits for its payload |
| `Wire.RejectedOnlyThen` | src/net.cpp:703-705 | a stream is refused only then |
| `Wire.PrefixArrives` | src/net.cpp:654-680 | the bytes arrived so far parse to a prefix of the messages and a proper part of the next |
| `Net.NetMessage.ReadHeader` | src/net.cpp:682-711 | takes as much of the header as there is; refuses exactly a complete header that declares too much |
| `Net.NetMessage.ReadData` | src/net.cpp:713-727 | takes as much of the payload as there is; the buffer never exceeds the declared size and grows at most 256 KiB ahead |
| `Net.QueueIsParse` | src/net.cpp:654-680 | a receive queue is the parse of the bytes it absorbed, however they were cut |
| `Net.Receiver.ReceiveMsgBytes` | src/net.cpp:654-680 | succeeds if and only if the whole stream so far has no refused header, and then the bytes absorbed grew by the chunk and the complete messages are those of a one-shot parse |
| `Net.Receiver.EraseProcessed` | src/main.cpp:4166-4168 | handing on complete messages keeps the rest of the queue and the bytes absorbed |
| `Net.HeaderFilled` | src/net.h:608-645 | writing size and checksum into the zero header gives the message's header and leaves the payload |
| `Net.HeaderDeclares` | src/net.h:620-622 | that header declares the length of the payload |
| `Net.Sender.BeginMessage` | src/net.h:589-595 | a message under construction starts with a blank header |
| `Net.Sender.Write` | src/net.h:670-670 | an argument is appended to the message begun |
| `Net.Sender.EndMessage` | src/net.h:608-645 | queues exactly one message with the right size and checksum, whose header declares its payload's length, or none when it is dropped or none was begun; a message queued on an empty queue is offered to the socket at once; nothing sent is taken back |
| `Net.Sender.SocketSendData` | src/net.cpp:921-962 | with any partial sends, bytes sent and bytes queued together are the messages in order, the size counter is the sum of the queue, and neither assertion fires |
| `Net.SentPart` | src/net.cpp:927-948 | one partial send keeps that |
| `Net.Delivery` | src/net.cpp:654-962 | what a receiver handed on and has complete is a prefix of what the sender logged, payloads and order included, and all of it once every byte is absorbed; no byte still to come is refused |
| `Net.TooLong` | src/net.cpp:703-705 | a message above the limit ends the connection once its header has arrived |
| `Merkle.MerkleBlock.BuildMerkleTree` | src/main.h:758-775 | the flat array is all levels in order, and the result is the root, zero for no transactions |
| `Merkle.MerkleBlock.GetMerkleBranch` | src/main.h:777-791 | the siblings on the way from the leaf to the root |
| `Merkle.CheckMerkleBranch` | src/main.h:793-806 | what the leaf and the siblings hash up to; zero for index -1 |
| `Merkle.BranchLeadsToRoot` | src/main.h:777-806 | every leaf's branch hashes up to the root |
| `Merkle.RootOfHalves` | src/main.h:758-775 | the root over a power of two leaves is the hash of the roots over both halves, left first |
| `Merkle.RootOfThree` | src/main.h:758-775 | three leaves hash like four with the last one repeated |
| `Merkle.OnlyTheLeaf` | src/main.h:793-806 | with an injective pair hash, a full-length branch accepted at an index proves that very leaf and is its branch |
| `Merkle.SameRootSameLeaves` | src/main.h:758-775 | equally long lists with one root are equal |
| `Merkle.RepeatedTail` | src/main.h:758-775 | repeating an odd last leaf does not change the root, so length is not determined |
| `Locator.Set` | src/main.h:1311-1326 | names the ancestors at depths 0 to 10 and then at doubling distance, as far as they go, and genesis |
| `Locator.LocatorLength` | src/main.h:1311-1326 | at most 13 entries more than the logarithm of the height |
| `Locator.DepthExactly` | src/main.h:1311-1326 | the depths are 0 to 11 one by one, then 13 and 17, each step twice the one before |
| `Locator.GetBlockIndex` | src/main.h:1349-1363 | the first entry in the main chain, or genesis |
| `Locator.CommonBlock` | src/main.h:1349-1363 | for a fork d blocks down, the block found is the fork for d up to 11, otherwise at most twice as deep or genesis |
| `Locator.AlwaysFound` | src/main.h:1349-1363 | some entry is always shared |
| `Numerals.RoomEnough` | src/base58.cpp:113-114 | 58 to the length of the buffer is at least 256 to the number of bytes, for every number of bytes |
| `Base58.TimesPlus` | src/base58.cpp:117-123 | one byte's carry loop multiplies the buffer by 256 and adds the byte |
| `Base58.NoCarry` | src/base58.cpp:124-124 | so the carry assertion never fires |
| `Base58.AlphabetExactly` | src/base58.cpp:20-20 | the symbols are exactly the digits and letters other than 0, I, O and l |
| `Base58.AlphabetInOrder` | src/base58.cpp:20-20 | in the order of their codes |
| `Base58.SpaceExactly` | src/base58.cpp:29-43 | spaces are the blank and the codes 9 to 13 |
| `Base58.Convert` | src/base58.cpp:113-126 | the buffer holds the value of the bytes |
| `Base58.EncodeBase58` | src/base58.cpp:106-138 | a '1' for each leading zero byte, then the shortest base 58 numeral of the value |
| `Base58.DecodeBase58` | src/base58.cpp:22-70 | the bytes of the value without leading zeros, after spaces and ones, unless something other than spaces follows the digits |
| `Base58.DecodedExactly` | src/base58.cpp:22-70 | how any string is read: spaces, ones, digits up to the first character that is none, and a rest that must be spaces |
| `Base58.DecodedEncoded` | src/base58.cpp:22-138 | decoding an encoding gives the bytes without their leading zeros |
| `Base58.RoundTrip` | src/base58.cpp:22-138 | so it gives the bytes back if and only if there are none or the first is not zero |
| `Base58.EncodeBase58Check` | src/base58.cpp:148-154 | decodes back to the same bytes if and only if the first byte written is not zero |
| `Base58.DecodeBase58Check` | src/base58.cpp:156-172 | accepts exactly the strings that decode to some bytes followed by their checksum, and returns those bytes |
| `Base58.CheckRoundTrip` | src/base58.cpp:148-172 | the checksummed pair round-trips if and only if the first byte written is not zero |
| `Compact.GetCompact` | src/bignum.h:334-345 | the compact form of any number reads back as that number, rounded, with its sign |
| `Compact.SetCompact` | src/bignum.h:322-332 | for the compact form of a number, that number, rounded, with its sign; otherwise what the bytes stand for |
| `Compact.ExpandedExactly` | src/bignum.h:322-332 | the value of any 32 bits: a length, a sign and the leading 23 bits of the amount |
| `Compact.ExpandedCompacted` | src/bignum.h:322-345 | reading back gives the target rounded down, never negative |
| `Compact.SignKept` | src/bignum.h:322-345 | the same for negative numbers, whose amount is rounded |
| `Compact.RoundingError` | src/bignum.h:322-345 | by less than one part in 2^15 |
| `Compact.RoundedTwice` | src/bignum.h:322-345 | rounding is idempotent |
| `Compact.CompactedAgain` | src/bignum.h:322-345 | compacting a rounded target gives the same bits |
| `Compact.RoundedInOrder` | src/bignum.h:322-345 | rounding is monotone |
| `Retarget.NeverSkewed` | src/blockparams.cpp:302-320 | the adjustment for the rarer kind of block never changes the average |
| `Retarget.FactorInRange` | src/blockparams.cpp:258-371 | for all times the division is by a number from 6 to 20000 |
| `RetargetLaws.AverageExactly` | src/blockparams.cpp:185-256 | the average from the last five waits: 2, 1.5, 1.25, 1, 0.75 or 0.5 for each, from fast to slow |
| `RetargetLaws.AverageBounds` | src/blockparams.cpp:225-233 | its values for five waits of one kind |
| `RetargetLaws.SlowerIsLess` | src/blockparams.cpp:185-256 | longer waits never give a larger average |
| `RetargetLaws.CurveExactly` | src/blockparams.cpp:302-371 | what the curve divides by after how many seconds, and when the limit applies instead |
| `RetargetLaws.CurveEases` | src/blockparams.cpp:302-371 | a curve round never makes the divisor larger |
| `RetargetLaws.FactorBounds` | src/blockparams.cpp:258-371 | without a curve round the divisor is 10000 after five waits of 300 to 330 seconds, at most 7500 after longer and at least 12500 after shorter ones |
| `Retarget.Engine.BaseEngine` | src/blockparams.cpp:185-256 | the average rate factor of the last five spacings, and the counts of both kinds |
| `Retarget.Engine.SimulateRetarget` | src/blockparams.cpp:258-269 | the old target divided by at least one, with the fraction dropped |
| `Retarget.Engine.ThreadCurve` | src/blockparams.cpp:302-371 | one more division for each threshold passed; gives up exactly beyond the last one |
| `Retarget.Engine.Retarget` | src/blockparams.cpp:391-422 | the next target as specified, the limit for young chains and resets |
| `Retarget.TargetInRange` | src/blockparams.cpp:391-422 | the decoded target never exceeds the limit and is positive if and only if the old one is at least the divisor |
| `RetargetLaws.NextExactly` | src/blockparams.cpp:391-422 | the next target is the limit for heights below 130 and beyond the curve, otherwise ten thousand times the quotient, at most the limit, rounded |
| `RetargetLaws.TargetMoves` | src/blockparams.cpp:391-422 | after five waits above 330 seconds a target from 40000 on rises unless the limit stops it; after five below 300 it falls by a fifth at least |
| `Retarget.NextTargetUsable` | src/main.cpp:1364-1378 | CheckProofOfWork can accept some hash for it exactly then, or when the limit applies |
| `Retarget.TargetVanishes` | src/blockparams.cpp:391-422 | an old target of one for which no hash passes |
| `StakeModifier.GetLastStakeModifier` | src/kernel.cpp:27-38 | the nearest ancestor that generated a modifier; fails only if there is none |
| `StakeModifier.CarryOn` | src/kernel.cpp:123-129 | every block that generates none carries its nearest generating ancestor's modifier |
| `StakeModifier.SelectBlockFromCandidates` | src/kernel.cpp:59-98 | fails exactly when all are selected; otherwise none up to the stop time has a smaller lot, or it is the first unselected one if all are later |
| `StakeModifier.LotExactly` | src/kernel.cpp:75-83 | the lot is the selection hash, without its last 32 bits for a proof-of-stake block |
| `StakeModifier.StakeFavoured` | src/kernel.cpp:79-83 | with one hash a proof-of-stake block comes before a proof-of-work block |
| `StakeModifier.Sort` | src/kernel.cpp:144-145 | an ordered permutation |
| `StakeModifier.CollectCandidates` | src/kernel.cpp:131-145 | the blocks since the start of the interval, ordered by time and hash |
| `StakeModifier.CandidatesExactly` | src/kernel.cpp:131-145 | the candidates are the last blocks back to the first one before the start, by time and then by hash |
| `StakeModifier.StartExactly` | src/kernel.cpp:135-136 | the start lies the sum of the sections before the last multiple of 120 seconds not after the tip |
| `StakeModifier.SectionExactly` | src/kernel.cpp:41-45 | the n-th section is 7560 seconds divided by 189 - 2 n, from 40 to 120 seconds |
| `StakeModifier.SelectBlocks` | src/kernel.cpp:147-163 | min(64, n) rounds, none of which fails |
| `StakeModifier.RoundExactly` | src/kernel.cpp:147-163 | each round picks a new block, the one with the least lot up to the end of its section or the first one left |
| `StakeModifier.BitIs` | src/kernel.cpp:158-160 | bit k is the k-th pick's entropy bit |
| `StakeModifier.BitsBound` | src/kernel.cpp:158-160 | no bit beyond the number of picks |
| `StakeModifier.OneLeft` | src/kernel.cpp:151-157 | with distinct hashes fewer picks than candidates leave one to pick |
| `StakeModifier.ComputeNextStakeModifier` | src/kernel.cpp:113-192 | never fails; generates exactly when the interval has changed, and otherwise hands on the last modifier |
| `BlockDownload.EraseAgrees` | src/main.cpp:248-267 | erasing a listed hash through its pointer keeps index and lists inverse |
| `BlockDownload.AppendAgrees` | src/main.cpp:270-300 | so does appending an unlisted one |
| `BlockDownload.WantedOnce` | src/main.cpp:98-104 | a hash is wanted from or requested of one peer, once |
| `BlockDownload.EnqueuedExactly` | src/main.cpp:270-284 | the hash goes to the end of one peer's list and nothing else changes |
| `BlockDownload.LaunchedExactly` | src/main.cpp:287-300 | the same for requests |
| `BlockDownload.UnlistedExactly` | src/main.cpp:248-267 | a wanted hash leaves its list, the rest of which stays in order |
| `BlockDownload.UnflownExactly` | src/main.cpp:248-267 | the same for requests |
| `BlockDownload.NotListed` | src/main.cpp:248-267 | a hash that is on no list is left alone |
| `BlockDownload.JoinedExactly` | src/main.cpp:229-233 | a new peer starts with empty lists, a known one keeps its own |
| `BlockDownload.LeftExactly` | src/main.cpp:235-245 | a peer that leaves takes exactly its own hashes along |
| `BlockDownload.LimitKept` | src/main.cpp:4389-4389 | no operation passes the limit of 128, except a request of a peer already at it |
| `BlockDownload.Downloads.InitializeNode` | src/main.cpp:229-233 | a new peer starts with nothing |
| `BlockDownload.Downloads.FinalizeNode` | src/main.cpp:235-245 | a lost peer's hashes leave both indexes |
| `BlockDownload.Downloads.MarkBlockAsReceived` | src/main.cpp:248-267 | the hash is wanted from and requested of nobody |
| `BlockDownload.Downloads.AddBlockToQueue` | src/main.cpp:270-284 | queues exactly unlisted hashes of live peers, at the end |
| `BlockDownload.Downloads.MarkBlockAsInFlight` | src/main.cpp:287-300 | moves the hash from wherever it was to the end of that peer's requests |
| `BlockDownload.Downloads.RequestBlocks` | src/main.cpp:4389-4398 | ends; requests the first wanted hashes in order, as many as fit below the limit, and touches no other peer |
| `Orphans.OrphanPool.AddOrphanTx` | src/main.cpp:347-376 | stores exactly unknown transactions of at most 5000 bytes and keeps the index exact |
| `Orphans.OrphanPool.EraseOrphanTx` | src/main.cpp:378-393 | removes the transaction from store and index, leaving no empty set |
| `Orphans.OrphanPool.LimitOrphanTxSize` | src/main.cpp:395-409 | evicts exactly the excess |
| `Orphans.SpendersExactly` | src/main.cpp:3763-3768 | which stored transactions are tried for a parent |
| `Orphans.ReasonsExactly` | src/main.cpp:3763-3793 | what is tried, queued and erased, by the answers to the offers |
| `Orphans.AnswerExactly` | src/main.cpp:3770-3785 | what the pool holds when a transaction is offered |
| `Orphans.OrphanPool.TrySpenders` | src/main.cpp:3763-3788 | tries every stored spender of a parent once, and each enters the queues exactly as its own offer was answered |
| `Orphans.OrphanPool.ProcessOrphans` | src/main.cpp:3755-3793 | ends; each orphan enters the pool at most once; every spender of what was accepted was offered; queued are exactly those whose own offer was accepted, and erased exactly those accepted or refused, so a tried one that stays was told each time that it lacks inputs |
| `PageLocks.HoldersWithout` | src/allocators.h:68-88 | taking one range away lowers the count on its pages only |
| `PageLocks.TouchesExactly` | src/allocators.h:45-88 | a range touches exactly the pages it overlaps |
| `PageLocks.LockedPageManager.LockedExactly` | src/allocators.h:45-88 | a page is locked if and only if an outstanding range touches it; with none outstanding the map is empty |
| `PageLocks.LockedPageManager.LockRange` | src/allocators.h:45-65 | one more outstanding range, all counts right |
| `PageLocks.LockedPageManager.UnlockRange` | src/allocators.h:68-88 | one range less, all counts right; the assertion never fires |
| `PageLocks.LockedPageManager.GetLockedPageCount` | src/allocators.h:91-95 | the number of locked pages |
| `Hmac.HmacContext.Init256` | src/pbkdf2.cpp:30-63 | the context is keyed as in section 2 of RFC 2104 |
| `Hmac.HmacContext.Init512` | src/hash.cpp:3-29 | so is this one, whose buffer is xored twice in place |
| `Hmac.HmacContext.Update` | src/hash.cpp:31-34 | absorbs data |
| `Hmac.HmacContext.Final` | src/hash.cpp:36-42 | the HMAC of section 2 of RFC 2104 of everything absorbed |
| `Hmac.HmacExactly` | src/pbkdf2.cpp:30-96 | what that is in bytes: the pads 0x36 and 0x5c, the key filled up with zeros or hashed first |
| `Hmac.Int32Exactly` | src/pbkdf2.cpp:17-24 | the block number is written most significant byte first |
| `Hmac.Block` | src/pbkdf2.cpp:117-137 | one block T of section 5.2 of RFC 8018 from the precomputed password and salt state |
| `Hmac.BlocksExactly` | src/pbkdf2.cpp:111-146 | part i of the key is block i, counted from one |
| `Hmac.Pbkdf2Sha256` | src/pbkdf2.cpp:98-148 | the derived key of section 5.2 of RFC 8018 for every length, last block cut, and nothing else of the buffer changed |

## Left out

- The genesis branch of `SetBestChain`: the constructor starts a node whose best block is the genesis block; its outputs are not indexed, as in the source.
- 64-bit overflow of sums over a block, and shifts of the subsidy by 64 or more halvings.
- How signatures, the limit on signature operations, Velocity, rolling checkpoints, `bIndex_Factor`, checkpoints, block reads and database commits come to their answers.
- Misbehaviour scores, the address index, `fJustCheck`, the mempool-accept mode of `FetchInputs`, putting transactions back into or out of the memory pool after a reorganization, wallet signals, `-backtoblock`, the upgrade warning.
- Mining.MineBlock: for proof of work; the coinbase is a new small transaction that pays at most its value, the pool holds nothing the chain has, and the block's trust is positive.
- ChainState.Node.AcceptBlock: assumes that transaction ids do not repeat along a branch and that block files are only appended to; the checks between the duplicate test and the write to disk are one arbitrary rejection.
- AddressManager.AddrMan.SelectTried: that the least recently successful entry is returned, which the source does not do; see above.
- `Select_` and `GetChance`, which draw by floating-point chances; the service bits are a set; buckets hash by arbitrary functions.
- AddressManager.AddrMan.Load: reading replaces every field, so it is a constructor; a file with more buckets than the table has, for which the source writes past its vector, is outside it. The times of the last attempts live in memory only.
- AddrCheck.Check_: works on the tables as a value; the source's lookup also stores the default id 0 for an absent address.
- AddressManager.AddrMan.TwoToTheNTimesHarder: no probabilities, only that zero makes it certain.
- Priorities, fees per kilobyte and the heap's order in the miner, which are floating-point numbers: the next transaction is any ready one, and which fees count as cheap is a parameter.
- Miner.Gather: for a pool in which every input is in the index or in the pool; for others the source frees a waiting transaction that its table of dependents still names.
- The coinstake of a proof-of-stake template, the header fields, and more than one reading of the clock while a template is made. The coinbase is a function of its value; `MAX_BLOCK_SIZE` is a constant. Signatures are judged alike when a template is made and when its block is connected, and the limit on signature operations does not fall in between (`Template.SameRules`).
- Net.Receiver.ReceiveMsgBytes: after a refused header the connection ends, so nothing is said about the queue then. Clearing the queue on close, socket errors by kind, and statistics are not modelled.
- Net.Sender.EndMessage: for payloads below 4 GiB; messages above `MAX_SIZE` are queued and the receiver refuses them (`Net.TooLong`).
- The value reserved for vectors and the growth policy of buffers other than the receive buffer.
- The unreachable tail of `DecodeBase58`, embedded NUL characters, and the overload that takes an address range.
- OpenSSL's big numbers are mathematical integers and its MPI conversions are functions on digits; numbers of 256 bytes or more keep only the low byte of their length in compact form, and nothing is said about them.
- Retarget.Engine.Retarget: the averages are exact reals instead of doubles, the test on the previous difficulty is a flag, and a block of the kind asked about must exist above the genesis block, because the source follows its parent pointer otherwise.
- The genesis block's stake modifier, which is the base of `StakeModifier.CarriesModifiers`; logging; `ComputeStakeModifierV2`; kernel hashes. Block times are not negative and hashes along a chain differ.
- Times, stalling and misbehaviour in block download, the batches of 1000 in `getdata`, and peers already marked for disconnection.
- Random eviction of orphan transactions is an arbitrary choice; the memory pool's answer is an arbitrary function of the number of offers made before, the transaction and what the pool holds, but it never accepts what it has.
- Hmac.Pbkdf2Sha256: a hash context is the bytes it absorbed, and cleaning memory is not modelled; an iteration count of zero acts like one.
- Ranges at the very top of the address space, and failures of the operating system to lock a page.
- `CBlockLocator::GetDistanceBack` and the locator's serialization.
- LevelDB, Berkeley DB, sockets, UPnP, RPC, the user interface, script evaluation, secure messaging, the block-size calculator, alerts, ban lists and subnets. Every operation runs under one lock in the source and is one step here.
