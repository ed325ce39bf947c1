# A model of the node's core logic

The repository is a C++ proof-of-stake node of the Bitcoin family. This project models the parts of it that carry
invariants over many steps, and proves them for every input, every run and every reachable state:

- **Merkle trees** (`Merkle`, `PartialMerkle`): the level-order array, the recursive form and the depth-first bit
  and hash stream are one tree; branches check and bind; partial trees come back exactly, and whatever extraction
  accepts selects transactions of the block.
- **Address manager** (`AddrTables`, `AddrEvict`, `AddrMan`, `AddrStore`, `AddrCheck`): five linked structures and two counters
  stay consistent under every operation and every random choice; saving and loading gives an isomorphic state; the
  source's own consistency check never complains.
- **Chain state** (`TxIndex`, `MoneySupply`, `ChainState`, `BlockChain`, `FreshIds`, `CoinStakes`): exactly which blocks
  are accepted, disconnecting as the inverse of connecting, why ids do not come back, and the money supply as the total
  of all unspent outputs.
- **Reorganisation** (`BlockTree`, `Reorg`): the fork is the last common ancestor; the `pnext` links and the transaction
  index follow the path to the tip, or are what they were.
- **Consensus arithmetic** (`Kernel`, `Compact`, `Retarget`, `MedianTime`): stake modifier rounds, the compact form
  of targets, retargeting, median time past.
- **Codecs and streams** (`Numerals`, `Base58`, `MnemonicBits`, `WordList`, `Mnemonic`, `MnemonicText`, `Framing`,
  `Receiving`, `Pbkdf2`): round trips in both directions, message framing that does not depend on how a stream is
  cut, key derivation as section 5.2 of RFC 8018 defines it.
- **Block assembly** (`Scheduling`, `Assembly`, `Assembled`): the dependency queue of `CreateNewBlock` and what the
  blocks it makes are.

`Arith` and `Common` hold the few facts and functions that several parts need.

Hash functions, script checks, clocks and random numbers are parameters or nondeterministic choices, so every result
holds whatever they do; a result that needs a collision-free hash says so. Money is unbounded. Objects that the source
updates in place are classes; code that works in loops is methods with invariants, proved against functions and
predicates about which the lemmas speak.

## Results to start from

| question | answer |
|---|---|
| Does a relayed partial tree give the matched transactions back? | `PartialMerkle.RoundTrip`, `PartialMerkle.RelayMatches` |
| Which transaction does a Merkle branch prove? | `Merkle.BranchBinds`, for every index; `Merkle.DuplicateTail` |
| Can any partial tree with the right root and count lie? | `PartialMerkle.Soundness`; with a wrong count, `PartialMerkle.WrongCountFoolsExtraction` |
| Is the address manager consistent after every run? | `AddrManager.Run`, `AddrCheck.ValidIff`, `AddrTables.Capacity` |
| Does saving and loading it lose anything? | `AddrStore.Reload`; with other bucket parameters, `AddrStore.Load` |
| Which blocks are accepted, and what is undone? | `BlockChain.Chain.ConnectBlock`, `TxIndexing.DisconnectRestores`, `FreshIds.AcceptedIsFresh` |
| Is the money supply right? | `BlockChain.Run`, `FreshIds.RunAny`; by how much a block raises it, `BlockChain.Chain.ConnectBlock`, `BlockChain.RewardIs` |
| Do links and index follow the tip? | `Reorganisation.ChainTip.SetBestChain`, `Reorganisation.ChainTip.InMainChain`, `Reorganisation.ChainTip.FindBlockByHeight` |
| Are the bits required of the next block sane? | `Retargeting.TargetAt`, `Retargeting.TargetInRange`, `Retargeting.LaterIsEasier` |
| Which blocks make the stake modifier? | `Kernel.ComputeNextStakeModifier`, `Kernel.RoundFavours` |
| Does median time past ever go back? | `MedianTime.MedianNeverDecreases` |
| Does cutting the stream matter? | `Receiving.ReceiveAll` |
| What does the assembler take, and does the chain accept it? | `Assembly.CreateNewBlock`, `Assembly.TakesBest`, `Assembled.CreatedIsAccepted` |
| Are the codecs inverse? | `Base58.DecodeEncode`, `Base58.EncodeDecode`, `MnemonicText.EncodeThenDecode`, `MnemonicText.DecodeThenEncode` |

## Where the code and its words differ

- src/main.h:2012 bounds the flag bits by 2 N - 1. A right-edge node with a single child costs one bit more:
  `PartialMerkle.MoreBitsThanDocumented` is such a tree, `PartialMerkle.BitCount` the true count, and
  `PartialMerkle.DocumentedBitsIff` says exactly when the bound holds.
- src/main.cpp:2105-2108 says that erasing a duplicate transaction is a no-op. It is not: in
  `FreshIds.ReusedIdIsLost` connecting accepts a block whose disconnection loses an old entry, and
  `TxIndexing.DisconnectRestores` says exactly when disconnecting restores the index. Behind `AcceptBlock`, whose rule
  for coinbases is at src/main.cpp:3593-3597, such a block does not come up: `FreshIds.AcceptedIsFresh`.
- src/addrman.cpp:134-141 returns the place that the oldest entry had before the swap: the entry that is evicted is the
  oldest one inspected exactly when that entry was drawn from its own place (`AddrEviction.VictimIsOldest`, and
  `AddrEviction.YoungerIsEvicted` for a full bucket that gives up a younger one).
- src/addrman.h:268-269 promises that bucket parameters may change between saving and loading. Loading then puts the new
  entries into buckets without looking at their size: the state satisfies the invariant exactly when no bucket gets more
  than 64 (`AddrStore.Load`; `AddrStore.CrowdedBucket` is a file with which one does).
- src/main.cpp:2953-2968 moves the tip even when a postponed block failed to connect; `SetBestChain` says exactly when
  tip, links and index agree afterwards, and `Reorganisation.TipOutrunsLinks` is a tree where they do not. A child of
  such a tip is then connected with the refused block skipped, and the links are no path any more
  (`Reorganisation.ChainTip.ExtendRefused`, `Reorganisation.RefusedIsSkipped`).
- src/main.cpp:1942-1943 takes a target that has fallen to zero for the easiest one, so the capped target follows the
  spacing exactly when the old target is not one (`Retargeting.CapFollowsSpacing`). And src/main.cpp:1927-1928 takes a time
  that runs backwards for one on target, which is easier than no time at all (`Retargeting.BackwardsIsEasier`).
- src/main.cpp:3462-3478 forbids further coinstakes only in proof-of-stake blocks, and src/main.cpp:2544-2558 does not
  compare the values of a coinstake. A proof-of-work block therefore raises the supply by at most the reward exactly when
  the value of its coinbase and what its coinstakes add are at most the reward and its fees (`ConnectBlock`), and at every
  height from 2 to the last proof-of-work block one that charges any fee, such as the 10000 of src/state.h:58, may mint
  any amount (`CoinStakes.CoinStakeMints`).
- src/miner.cpp:363 checks the inputs of a transaction at the height of the previous block and with the mandatory script
  flags, while src/main.cpp:2597-2606 and src/main.cpp:2704 use the height of the block itself and other flags, so that the
  maturity and marker rules of src/main.cpp:2448-2463 can differ. A block of the assembler is accepted exactly when, besides
  its coinbase, every added transaction passes the chain's own checks of its inputs (`Assembled.CreatedIsAccepted`); one
  that spends an empty output where the chain refuses this is not (`Assembled.MarkerIsRefused`).
- src/main.h:812-829 hashes the last node of an odd level with itself, so different blocks can have one root, and an index
  past the end passes for the last transaction (`Merkle.DuplicateTail`); `Merkle.BranchBinds` says which transaction every
  index stands for.
- src/extkey.cpp:1165 takes one bit in 32 for checksum, which is one too many from 32 groups of three words on. Of the
  lengths that encoding reads within its buffer, `MnemonicText.EncodeThenDecode` says exactly which come back.
- src/extkey.cpp:997-1001 accepts all lengths from 4 to 1027 bytes, but the packing loop at src/extkey.cpp:1018-1044 reads
  past its buffer for some of them, from 995 bytes on: a length n is safe exactly when n / 4 + 3 (n % 4) is at most 256
  (`Mnemonics.ReadableIff`).

## Model

| member | source | states |
|---|---|---|
| Merkle.NodeExists | src/main.h:2034-2037 | a node of a level exists exactly when its first leaf does |
| Merkle.WidthFormula | src/main.h:2034-2037 | the shift formula is repeated halving that rounds up |
| Merkle.ComputeHeight | src/main.cpp:3209-3212 | the loop stops at the first level of width one |
| Merkle.LevelIsCalcHash | src/main.cpp:3124-3142 | every level built from the one below it holds the recursively computed node hashes |
| Merkle.LevelOrderRoot | src/main.h:812-829 | the last entry of the level-order array is the recursive root, odd widths included |
| Merkle.Block.BuildMerkleTree | src/main.h:812-829 | the nested loops fill the level-order array and return the recursive root (0 for no transactions) |
| Merkle.Block.GetMerkleBranch | src/main.h:831-845 | the branch collected from the array is the siblings on the way up |
| Merkle.CheckMerkleBranch | src/main.h:847-860 | folding a branch, and 0 for index -1 |
| Merkle.BranchChecks | src/main.h:831-860 | every leaf's branch folds to the root and is as long as the tree is high |
| Merkle.BranchBinds | src/main.h:847-860 | for every index, without a collision among the hashed pairs, a leaf and a branch of the right length fold to the root exactly when they are those of the place that the index leads to, which is the index itself exactly when it is in range |
| Merkle.DuplicateTail | src/main.h:812-860 | a block of odd length above one and the block that repeats its last transaction have one root, and the index past the end passes for the last transaction |
| PartialMerkle.FlagIsAnyMatch | src/main.cpp:3146-3149 | a flag is set exactly when a leaf under the node is matched |
| PartialMerkle.HashesAtMostLeaves | src/main.cpp:3229-3231 | a subtree stores at most one hash for each of its leaves |
| PartialMerkle.HashesByMatches | src/main.h:2001-2005 | a subtree stores at most 1 + matches * height hashes |
| PartialMerkle.BitCount | src/main.h:2012 | bits are 2 * hashes - 1 plus one for each descended node with a single child |
| PartialMerkle.BuiltSize | src/main.h:2001-2012 | the three size bounds for the whole tree |
| PartialMerkle.MoreBitsThanDocumented | src/main.h:2012 | a tree of three leaves with more bits than the comment allows |
| PartialMerkle.DocumentedBitsIff | src/main.h:2012 | the documented bound on the bits holds exactly when no odd level below the root has a match under its last node |
| PartialMerkle.OddMatchIs | src/main.h:2012 | such a match is one of the last leaves of the block, counted from the level's last node |
| PartialMerkle.ExtractBuilt | src/main.cpp:3166-3201 | reading a built subtree from anywhere in the streams gives its hash, its matches in order, and consumes exactly its bits and hashes |
| PartialMerkle.RoundTrip | src/main.cpp:3220-3253 | a built tree, with any padding to bytes, passes every check and yields the root and exactly the matched ids in order, up to the limit on transactions and never above it |
| PartialMerkle.InjectiveIsCollisionFree | src/main.cpp:3199-3199 | an injective pair hash rules out every clash that the soundness result excludes |
| PartialMerkle.ExtractSound | src/main.cpp:3166-3201 | a subtree that reproduces the block's node hash can only append leaves of the block, in order |
| PartialMerkle.Soundness | src/main.cpp:3220-3253 | any partial tree at all with the block's count that yields the block's root, meeting no collision, yields a selection of its ids in order |
| PartialMerkle.NothingLeftOver | src/main.cpp:3245-3250 | what begins with an accepted tree is accepted exactly when it has no more hashes and no more bytes of bits |
| PartialMerkle.AcceptedReads | src/main.cpp:3224-3250 | exactly when a tree is accepted: its counts, and that everything is read |
| PartialMerkle.WrongCountFoolsExtraction | src/main.cpp:3224-3231 | with a wrong count an inner node passes for a transaction |
| PartialMerkle.PackBits | src/main.h:2060-2065 | eight bits to a byte, least significant first, zero padding |
| PartialMerkle.UnpackBits | src/main.h:2050-2059 | every bit of the bytes is read back |
| PartialMerkle.PartialMerkleTree.FromMatches | src/main.cpp:3203-3216 | construction gives the depth-first streams of the tree |
| PartialMerkle.PartialMerkleTree.Unserialize | src/main.h:2047-2059 | what is read differs from what was packed only by padding |
| PartialMerkle.PartialMerkleTree.TraverseAndBuild | src/main.cpp:3144-3164 | appends the subtree's bits and hashes and nothing else |
| PartialMerkle.PartialMerkleTree.TraverseAndExtract | src/main.cpp:3166-3201 | the cursors, matches and failure flag are those of the recursive reader |
| PartialMerkle.PartialMerkleTree.ExtractMatches | src/main.cpp:3220-3253 | all checks in their order, the root or 0 |
| PartialMerkle.RelayMatches | src/main.cpp:3203-3253 | build, pack, unpack, extract: the root and the matched ids |
| AddrManager.AddrMan.constructor | src/addrman.h:382-393 | an empty manager satisfies the invariant |
| AddrManager.AddrMan.SwapRandom | src/addrman.cpp:104-122 | two places are exchanged, positions stay inverse, entries otherwise unchanged |
| AddrManager.AddrMan.Forget | src/addrman.cpp:162-166 | an entry leaves the random order, the addresses and the tables, the others stay |
| AddrEviction.ChoiceIsOldest | src/addrman.cpp:132-143 | the entry drawn at the named turn is the first of those inspected that succeeded least recently |
| AddrEviction.VictimIsOldest | src/addrman.cpp:134-145 | the entry at the returned place is that one exactly when its turn drew no offset |
| AddrEviction.YoungerIsEvicted | src/addrman.cpp:134-145 | any full bucket whose second entry succeeded less recently than the first and no later than the next two gives up its first one for some draws |
| AddrManager.AddrMan.SelectTried | src/addrman.cpp:124-146 | the shuffled bucket and the place are those of the choice that the draws make |
| AddrManager.PickVictim | src/addrman.cpp:153-188 | a terrible entry if there is one, else the oldest of a sample of at most four |
| AddrManager.VictimIs | src/addrman.cpp:153-188 | the entry given up is not worth keeping; or all are, and it was heard of no later than the others of the sample |
| AddrManager.NotTerribleIs | src/addrman.cpp:36-54 | which entries are worth keeping, in figures |
| AddrManager.OldestOfFour | src/addrman.cpp:173-187 | no entry of the sample is older |
| AddrManager.AddrMan.ShrinkNew | src/addrman.cpp:148-200 | one such entry leaves the bucket, and the tables when that was its last reference |
| AddrManager.AddrMan.DropFromBucket | src/addrman.cpp:158-170 | losing a reference keeps all tables consistent, also while an entry waits for its bucket |
| AddrManager.AddrMan.Create | src/addrman.cpp:92-102 | a new id, everything else unchanged |
| AddrManager.AddrMan.Refresh | src/addrman.cpp:320-348 | the known entry's services are joined, its time moves exactly when the address is news of more than a day, or an hour for one heard of lately, past the penalty; and exactly when another reference is tried |
| AddrManager.StochasticTest | src/addrman.cpp:343-348 | one of 2^n draws passes for n references |
| AddrManager.AddrMan.MakeRoom | src/addrman.cpp:362-364 | a bucket with room loses nothing, a full one the victim of `ShrinkNew` |
| AddrManager.AddrMan.Reference | src/addrman.cpp:360-365 | one more reference from a bucket without the entry, which loses the right one when it is full |
| AddrManager.AddrMan.PutInNew | src/addrman.cpp:358-366 | the entry enters its bucket; exactly a full bucket without it loses one entry, the right one; the invariant holds again |
| AddrManager.AddrMan.Add | src/addrman.cpp:311-368 | exactly when an address is new, what is stored for it; for a known one exactly when its time moves and where to, and its services; exactly which bucket changes and what it loses; and that tried entries are never lost |
| AddrManager.AddrMan.EraseFromNew | src/addrman.cpp:206-214 | the id leaves every new bucket; the count left is exact |
| AddrManager.AddrMan.Evict | src/addrman.cpp:229-257 | the chosen entry of the full bucket goes back to new with one reference, in its own bucket or the one just left; when it is the oldest inspected |
| AddrManager.AddrMan.MakeTried | src/addrman.cpp:202-258 | the whole new state in both cases, none lost, and which entry a full bucket gives up |
| AddrManager.AddrMan.FindNewBucket | src/addrman.cpp:287-299 | a bucket that holds the id, or -1 when none does |
| AddrManager.AddrMan.Good | src/addrman.cpp:260-309 | a known address is tried afterwards, with the given time for its last success, last try and itself and no attempts: a bucket is always found; at most one entry of the same tried bucket is displaced |
| AddrManager.AddrMan.Attempt | src/addrman.cpp:370-387 | only the attempt counter and time of that entry change |
| AddrManager.AddrMan.Connected | src/addrman.cpp:515-533 | only the time changes, after twenty minutes |
| AddrManager.AddrMan.Sample | src/addrman.cpp:505-512 | the first entries of an order that is shuffled as they are taken |
| AddrManager.AddrMan.GetAddr | src/addrman.cpp:499-513 | pairwise different known addresses, 23 percent and at most 2500 of them |
| AddrManager.Run | src/addrman.cpp:92-387 | after every sequence of operations from empty the invariant holds |
| AddrTables.NewToTried | src/addrman.cpp:206-226 | erasing an id from all new buckets and marking it tried keeps reference counts equal to holders |
| AddrTables.CountersGiveSize | src/addrman.cpp:444-444 | the two counters add up to the length of the random order |
| AddrTables.Capacity | src/addrman.h:122-141 | at most 16384 new and 4096 tried entries, each new one with one to four references |
| AddrCheck.CheckEntries | src/addrman.cpp:444-469 | passes exactly when every entry does, and collects exactly the tried ids and reference counts |
| AddrCheck.CheckTried | src/addrman.cpp:471-479 | passes with nothing left exactly when every tried id stands once and nothing else does |
| AddrCheck.CheckNew | src/addrman.cpp:481-490 | passes with nothing left exactly when every new id is held as often as it is referenced and nothing else is |
| AddrCheck.Check | src/addrman.cpp:438-496 | returns 0 exactly when counters, entries, tried buckets and new buckets are right |
| AddrCheck.ValidPasses | src/addrman.cpp:438-496 | the invariant implies all of that |
| AddrCheck.EntryIs | src/addrman.cpp:448-469 | which entries pass |
| AddrCheck.ValidIff | src/addrman.cpp:438-496 | the invariant holds exactly when the check passes and the rest holds that it does not look at: ids, surplus addresses, bucket numbers and sizes, the bucket of a tried entry |
| AddrStore.Save | src/addrman.h:279-317 | records in id order, buckets as ranks |
| AddrStore.SavedIsLoadable | src/addrman.h:279-377 | what is saved loads without loss: addresses differ, tried entries fit |
| AddrStore.KeptCount | src/addrman.h:347-359 | every tried bucket keeps all its records, or 64 |
| AddrStore.LoadableIsKept | src/addrman.h:318-378 | of a file that fits nothing is left out |
| AddrStore.RegroupedSound | src/addrman.h:334-338 | new buckets that are made again hold every new entry once |
| AddrStore.DifferentIsConsistent | src/addrman.h:318-378 | which files with different addresses can be loaded |
| AddrStore.CrowdedBucket | src/addrman.h:334-338 | without buckets in the file, entries that belong to one bucket fit exactly up to its size |
| AddrStore.LoadNews | src/addrman.h:327-340 | the new records become the first entries, without references or each in its own bucket |
| AddrStore.LoadTrieds | src/addrman.h:341-360 | for any file, exactly the tried records that find room are kept and counted, each in its bucket |
| AddrStore.LoadBuckets | src/addrman.h:361-377 | bucket membership and reference counts are restored; buckets of another number are not used and change nothing |
| AddrStore.Load | src/addrman.h:318-378 | loading any file whose kept records have different addresses and whose buckets name their entries gives the state of what is kept, and one that satisfies the invariant exactly when no new bucket holds too much |
| AddrStore.Reload | src/addrman.h:248-380 | saving and loading renumbers ids and forgets the times of the last try; entries, counts, new and tried membership stay, and so does what the check asks of times |
| TxIndexing.MarkUndone | src/main.cpp:2096-2097 | clearing spent pointers undoes setting them |
| TxIndexing.DisconnectUndoesTx | src/main.cpp:2075-2112 | disconnecting a transaction with a fresh id restores the index |
| TxIndexing.DisconnectRestores | src/main.cpp:2567-2572 | disconnecting a block, last transaction first, restores the index exactly when none of its ids was in it |
| TxIndexing.BlockSpends | src/main.cpp:2519-2527 | after a block with fresh ids everything that its transactions spend is spent |
| FreshIds.AcceptedIsFresh | src/main.cpp:3593-3597 | where coinbases start with their heights and ids identify transactions, every accepted block has fresh ids |
| FreshIds.RunsAgree | src/main.cpp:3593-3597 | where coinbases start with their heights, runs that offer any block and runs that offer only blocks with fresh ids lead to the same chain |
| FreshIds.TakeAnyStep | src/main.cpp:2567-2765 | one connect or disconnect of any block that keeps the rule leads to exactly the specified chain, and keeps it valid |
| FreshIds.RunAny | src/main.cpp:2567-2765 | what `BlockChain.Run` states, for every sequence of such blocks, whatever their ids |
| FreshIds.LoneIsAccepted | src/main.cpp:2625-2719 | a coinbase that pays nothing is accepted on its own whenever it overwrites nothing unspent |
| FreshIds.ReusedIdIsLost | src/main.cpp:2105-2109 | without the rule for coinbases, an accepted block that reuses a completely spent id loses the old entry when it is disconnected |
| MoneySupply.TotalAfterMark | src/main.cpp:2519-2527 | spending lowers the total of unspent outputs by the value of the inputs |
| MoneySupply.TotalAfterConnect | src/main.cpp:2695-2708 | connecting changes the total by outputs minus inputs |
| MoneySupply.SettledStays | src/main.cpp:2641-2647 | an old transaction that is completely spent stays so through the block |
| ChainState.FetchInputs | src/main.cpp:2115-2190 | succeeds exactly when every previous output exists, through queued changes first, and returns the entries of that view |
| ChainState.GetValueIn | src/main.cpp:2386-2401 | the value of the inputs |
| ChainState.CheckInputs | src/main.cpp:2433-2470 | the first loop passes exactly when every input passes |
| ChainState.MarkInputs | src/main.cpp:2474-2527 | succeeds exactly when all inputs are unspent, also among queued changes, and different; then exactly they are marked |
| ChainState.ConnectInputs | src/main.cpp:2422-2565 | the exact condition of acceptance and the marked view |
| ChainState.GetValueOut | src/main.cpp:2674-2674 | the value of the outputs |
| ChainState.OverwritesUnspent | src/main.cpp:2629-2647 | true exactly when an older transaction of that id has an unspent output |
| ChainState.ConnectOne | src/main.cpp:2625-2709 | exactly when a transaction of a block is accepted, and its effect on the index and the total |
| BlockChain.Chain.constructor | src/main.cpp:2733-2736 | an empty chain: no outputs, no supply |
| BlockChain.Chain.ConnectBlock | src/main.cpp:2591-2765 | a block is accepted exactly when its rules, transactions and reward pass; all or nothing; the supply moves with the unspent total, by exactly the coinbase and what coinstakes add less the fees: in 365 * 24 * 56 proof-of-stake blocks of V3 by at most a twentieth, before V3 by at most what the coin age earns, and for proof of work by at most the reward exactly when coinbase and coinstakes stay within reward and fees |
| BlockChain.RewardIs | src/chainparams.cpp:15-43 | the reward rule in figures, both ways: 18750000 coins at height one, a twentieth of a V3 supply of whole coins in 365 * 24 * 56 blocks, 33 parts in 12053 of a twentieth of the coin age before |
| ChainState.SubsidyIs | src/chainparams.cpp:25-43 | what may be minted, as the greatest amount within that |
| BlockChain.AcceptedShape | src/main.cpp:3462-3478 | the shape of an accepted block: where coinbase and coinstake stand, and what every transaction has |
| BlockChain.AcceptedTx | src/main.cpp:2433-2527 | every input of an accepted block is a stored, unspent, not negative output of a transaction that is not younger, passes the other checks, and is used once; an overwritten transaction is completely spent |
| BlockChain.AcceptedPays | src/main.cpp:2544-2558 | every transaction of an accepted block but coinbase and coinstakes takes in what it pays out and the fee |
| CoinStakes.CoinStakeMints | src/main.cpp:3462-3478 | for every fee, every amount and every height from 2 to the last proof-of-work block, an accepted proof-of-work block without reward, with a coinstake behind a transaction that pays the fee, adds that amount less the fee to the supply |
| BlockChain.Chain.DisconnectInputs | src/main.cpp:2075-2112 | exactly when it succeeds, and the resulting index |
| BlockChain.Chain.DisconnectBlock | src/main.cpp:2567-2589 | the transactions are taken back in reverse order; never fails on a connected block |
| BlockChain.Chain.ConnectTip | src/main.cpp:2733-2748 | a block extends the chain exactly when acceptable; the recorded supply is right, and with fresh ids the chain can be taken back |
| BlockChain.Chain.DisconnectTip | src/main.cpp:2567-2589 | always succeeds and restores the index of one block earlier |
| BlockChain.IndexIsReplay | src/main.cpp:2743-2748 | whatever happened on the way, the index is what connecting the chain's blocks to an empty one gives |
| BlockChain.TakeStep | src/main.cpp:2567-2765 | one connect or disconnect leads to exactly the specified chain |
| BlockChain.Run | src/main.cpp:2567-2765 | after every sequence of connects and disconnects the chain is the specified one, the index depends on its blocks alone, and the tip's supply is the total of all outputs with a null spent pointer |
| BlockTree.FindFork | src/main.cpp:2771-2783 | terminates with the last common ancestor, or there is none |
| BlockTree.ForkSplits | src/main.cpp:2785-2794 | the two lists are exactly the blocks that the tips do not share |
| BlockTree.ListDisconnect | src/main.cpp:2785-2788 | the blocks down to the fork, tip first |
| BlockTree.ListConnect | src/main.cpp:2790-2794 | the blocks up from the fork, oldest first |
| BlockTree.Retreat | src/main.cpp:2842-2845 | cutting one link leaves exactly the path to the previous block |
| BlockTree.Advance | src/main.cpp:2847-2850 | adding one link gives exactly the path to the next block |
| Reorganisation.IndexAt | src/main.cpp:2743-2748 | while the chain stands at a block, its index is the replay of the path and its supply the total |
| Reorganisation.StepForward | src/main.cpp:2825-2829 | the next block connects exactly when its whole path is accepted, and its ids are then fresh |
| Reorganisation.Switch | src/main.cpp:2799-2840 | disconnecting to the fork and connecting to the new block succeeds exactly when the new path is accepted; otherwise the transaction is aborted and the index is the old one |
| Reorganisation.ChainTip.Reorganize | src/main.cpp:2767-2865 | succeeds exactly when the new path meets the old one and is accepted; then links and index follow it, otherwise both are the old ones |
| Reorganisation.ChainTip.SetBestChainInner | src/main.cpp:2869-2891 | links and index move on together exactly when the path to the block is accepted, and stay together otherwise |
| Reorganisation.ChainTip.Postpone | src/main.cpp:2914-2929 | the postponed blocks are exactly those whose parent already has more trust than the tip |
| Reorganisation.ChainTip.ConnectFurther | src/main.cpp:2939-2955 | links and index reach the last block whose path is accepted |
| Reorganisation.ChainTip.SetBestChain | src/main.cpp:2893-2971 | exactly when it succeeds; then the tip is the new block, and tip, links and index agree exactly when the whole path is accepted; otherwise nothing has changed |
| Reorganisation.TipOutrunsLinks | src/main.cpp:2939-2968 | a tree where the change succeeds and links and index stop one block before the tip |
| Reorganisation.ChainTip.ExtendRefused | src/main.cpp:2869-2968 | after that, exactly when a child of the tip is accepted; then it is connected onto the earlier index, the links are a path to no block, and the recorded supply is the total exactly when the parent's record was; otherwise nothing has changed |
| Reorganisation.RefusedIsSkipped | src/main.cpp:2869-2891 | in that tree a child of the refused tip is accepted |
| Reorganisation.ChainTip.InMainChain | src/main.h:1238-1241 | having a forward link or being the tip means exactly being an ancestor of the tip or the tip |
| Reorganisation.ChainTip.FindBlockByHeight | src/main.cpp:1761-1783 | the cached search from either end finds the ancestor of the tip with that height, or nothing |
| Kernel.GetStakeModifierSelectionInterval | src/kernel.cpp:58-65 | the sum of the 64 sections |
| Kernel.SectionsGrow | src/kernel.cpp:51-56 | sections grow up to the modifier interval |
| Kernel.SectionIs | src/kernel.cpp:51-56 | a section is the longest time of which 189 - 2 k fit into 63 modifier intervals, a third of one for the first |
| Kernel.SumBounds | src/kernel.cpp:58-65 | the time between two stops, between as many of the first and of the last section of the way |
| Kernel.SelectBlockFromCandidates | src/kernel.cpp:67-115 | succeeds exactly when a candidate is left, and picks the first of least key up to the stop, or the first one left |
| Kernel.PickFavours | src/kernel.cpp:91-110 | of the candidates left in time the pick comes first by selection hash, where a proof-of-stake hash counts for a 2^32nd part |
| Kernel.StakeIsFavoured | src/kernel.cpp:93-97 | a proof-of-stake candidate is picked before a proof-of-work one when its hash is less than 2^32 times the other's |
| Kernel.LatePick | src/kernel.cpp:83-84 | when none is left in time the earliest one left is picked |
| Kernel.RoundFavours | src/kernel.cpp:216-234 | the same of every round of a whole selection |
| Kernel.SelectRounds | src/kernel.cpp:216-234 | every round succeeds, picks are pairwise different, each the pick of its round |
| Kernel.ModifierBits | src/kernel.cpp:228-229 | bit r is the entropy bit of pick r, higher bits are zero |
| Kernel.SortByTimestamp | src/kernel.cpp:213-214 | sorted and a permutation |
| Kernel.DistinctIsPermuted | src/kernel.cpp:213-214 | sorting keeps the candidates different |
| Kernel.Candidates | src/kernel.cpp:201-214 | the blocks after the last one too old, sorted |
| Kernel.GetLastStakeModifier | src/kernel.cpp:20-32 | the last block that generated a modifier, failing exactly when there is none |
| Kernel.ComputeNextStakeModifier | src/kernel.cpp:180-234 | when the modifier is kept, when it is new, and what the new one is made of |
| Kernel.WindowIs | src/kernel.cpp:201-212 | the candidates are the blocks after the last one before a time from which the 64 sections last to the beginning of the previous block's interval |
| Numerals.SetGetVch | src/bignum.h:302-327 | the signed byte format holds every number |
| CompactBits.GetSetVch | src/bignum.h:302-327 | and every shortest byte string is written back as it is |
| CompactBits.CompactIdempotent | src/bignum.h:329-352 | what the compact form has rounded, it keeps |
| CompactBits.CompactTruncates | src/bignum.h:329-352 | of a positive number less than one part in 2^15 is cut off, never all |
| CompactBits.CompactRoundTrip | src/bignum.h:329-352 | exactly the compact numbers in normal form survive decoding and encoding |
| CompactBits.CompactNormal | src/bignum.h:341-352 | every number is encoded in normal form |
| CompactBits.CompactValue | src/bignum.h:329-339 | the number that compact bits of three bytes or more stand for: 23 bits shifted, and the sign |
| Retargeting.GetLastBlockIndex | src/main.cpp:1896-1901 | the last block of the kind, or genesis |
| Retargeting.GetNextTargetRequired | src/main.cpp:1910-1946 | the branches of the source compute the specified next target |
| Retargeting.LimitAtFirst | src/main.cpp:1913-1923 | without two blocks of the kind past genesis the limit of the kind and the protocol is required |
| Retargeting.TargetAt | src/main.cpp:1925-1945 | the exact target from the times of the last two blocks of the kind: c target spacings apart, 1349 + 2 c parts in 1351 of the old one under V2 and 1439 + 2 c in 1441 before, or the limit |
| Retargeting.BackwardsIsOnTarget | src/main.cpp:1927-1928 | times that run backwards give the target that a spacing on target gives |
| Retargeting.LongIsTen | src/main.cpp:1930-1933 | in V3 more than ten target spacings give the target that ten give |
| Retargeting.LaterIsEasier | src/main.cpp:1926-1943 | the later the last block, not before the one measured against, the easier the next target, unless the old one is one |
| Retargeting.BackwardsIsEasier | src/main.cpp:1927-1928 | a last block before the one measured against makes the next target easier than one at the same time |
| Retargeting.TargetInRange | src/main.cpp:1910-1946 | for every chain the decoded bits are positive, at most the limit and within one part in 2^15 of the exact target |
| Retargeting.MovedMonotone | src/main.cpp:1936-1940 | the moved target follows the spacing |
| Retargeting.MovedAt | src/main.cpp:1936-1940 | a spacing of c target spacings moves the target by (I - 1 + 2 c) / (I + 1), rounded down |
| Retargeting.StepBounds | src/main.cpp:1925-1940 | one step moves the target by a factor between (I - 1) / (I + 1) and, in V3, (I + 19) / (I + 1) |
| Retargeting.MovedOnTarget | src/main.cpp:1936-1940 | a spacing on target keeps the target |
| Retargeting.SameBitsOnTarget | src/main.cpp:1910-1946 | when the last two blocks of the kind are on target and the target is within the limit, the same bits are required again exactly when they are in normal form |
| Retargeting.CapFollowsSpacing | src/main.cpp:1942-1943 | after capping the target follows the spacing exactly when the old one is not one |
| MedianTime.MedianSplits | src/main.h:1268-1269 | the median is one of the times, and at least v exactly when at most half of them are below v |
| MedianTime.GetMedianTimePast | src/main.h:1258-1270 | the buffer filled backwards and sorted gives that median |
| MedianTime.FillWindow | src/main.h:1260-1266 | the buffer holds the last up to eleven times in order |
| MedianTime.MedianStep | src/main.h:1258-1270 | a time above the median neither lowers the median nor falls below the new one |
| MedianTime.TimeRule | src/main.cpp:3560-3562 | the timestamp rule in figures: later than the block before under V2; later than the median and at most 15 seconds or ten minutes before otherwise |
| MedianTime.TimesIncrease | src/main.cpp:3560-3562 | under V2 the times of accepted blocks increase |
| MedianTime.TimeAtLeastMedian | src/main.cpp:3560-3562 | no accepted block is older than its own median, across short windows and the protocol switch |
| MedianTime.MedianNeverDecreases | src/main.cpp:3560-3562 | the median never decreases along an accepted chain, and every block is younger than all medians before it |
| Base58.EncodeBase58 | src/base58.h:31-70 | the division loop and the leading zeros write the number in base 58 |
| Base58.AlphabetIs | src/base58.h:29-29 | the digits are the letters and numerals without 0, I, O and l, in ascending order |
| Base58.DecodeBase58 | src/base58.h:78-124 | accepts exactly digits framed by spaces, and reads their number, sign byte and leading zeros handled |
| Base58.RecodeBack | src/base58.h:31-124 | changing the base of a digit string and changing it back is the identity, leading zeros included |
| Base58.DecodeEncode | src/base58.h:31-124 | decoding undoes encoding for every byte string |
| Base58.EncodeDecode | src/base58.h:31-124 | encoding undoes decoding for every Base58 string |
| Base58.ReadWhole | src/base58.h:87-101 | a string of digits is read whole |
| Base58.EncodeBase58Check | src/base58.h:136-144 | four bytes of hash are appended |
| Base58.DecodeBase58Check | src/base58.h:146-165 | accepts exactly digits framed by spaces whose last four bytes are the hash of the rest |
| Base58.CheckRoundTrip | src/base58.h:136-165 | the checksum form gives every byte string back |
| MnemonicBits.TakeWordBit | src/extkey.cpp:1020-1039 | the shifts of the encoder take eleven consecutive bits at any offset |
| MnemonicBits.PartBits | src/extkey.cpp:1137-1157 | the shifts of the decoder put eleven bits there |
| MnemonicBits.TopBits | src/extkey.cpp:1186-1189 | the mask keeps the leading bits of a byte |
| Mnemonics.PackWords | src/extkey.cpp:1013-1044 | the words hold the bits of the bytes in order |
| Mnemonics.UnpackWords | src/extkey.cpp:1126-1159 | the bytes hold the bits of the words in order, then zeros |
| Mnemonics.EncodeWords | src/extkey.cpp:989-1044 | exactly which entropy is accepted, and that the words are its bits and its checksum's, for all lengths of `ReadableIff` |
| Mnemonics.ReadableIff | src/extkey.cpp:1015-1044 | exactly for which of the accepted lengths the packing loop stays inside its buffer |
| Mnemonics.DecodeWords | src/extkey.cpp:1119-1198 | exactly which words are accepted, with the source's error codes, and the entropy |
| Mnemonics.DecodesEncoded | src/extkey.cpp:978-1198 | below 128 bytes the encoder's words are accepted and give the entropy |
| Mnemonics.EncodesDecoded | src/extkey.cpp:978-1198 | accepted words are the encoding of their entropy |
| Mnemonics.WordCount | src/extkey.cpp:1015-1044 | how many words each length gives; only lengths of 0 or 3 past a multiple of four give a multiple of three |
| Mnemonics.LongDecodes | src/extkey.cpp:1164-1195 | from 127 bytes on, entropy of 3 bytes past a multiple of four is accepted exactly when certain bits of its digest are not set |
| WordList.GetWord | src/extkey.cpp:856-878 | the line with that number, failing exactly when there is none |
| WordList.GetWordOffset | src/extkey.cpp:880-913 | the first line equal to the word, failing exactly when there is none |
| WordList.LinesAre | src/extkey.cpp:856-913 | the words are what newlines end, and nothing is lost |
| WordList.TokensAre | src/extkey.cpp:1103-1118 | a text comes apart at every space, and a word is what has none |
| WordList.TokensOfJoin | src/extkey.cpp:1061-1063 | joined words come apart into the same words |
| WordList.FewWords | src/extkey.cpp:1105-1118 | a text of words of two or more characters has at most one word for every three characters |
| MnemonicText.WordsToText | src/extkey.cpp:1046-1064 | the text is the named words, separated by spaces |
| MnemonicText.TextToWords | src/extkey.cpp:1101-1117 | succeeds exactly when every word is known, with their numbers |
| MnemonicText.MnemonicEncode | src/extkey.cpp:978-1070 | the text for an entropy, or error 2 |
| MnemonicText.MnemonicDecode | src/extkey.cpp:1072-1198 | errors 2 to 5 exactly when they apply, else the entropy, with and without the checksum; there are never more words than a digest has checksum bits for |
| MnemonicText.EncodeThenDecode | src/extkey.cpp:978-1198 | for every length of `ReadableIff`: the text decodes to the entropy exactly when it is shorter than 2048 characters and the entropy is a multiple of four bytes below 128, or 3 past such a multiple from 127 on with those digest bits not set |
| MnemonicText.DecodeThenEncode | src/extkey.cpp:978-1198 | an accepted text is encoded again as its own words |
| Framing.FrameCuts | src/net.cpp:650-679 | framing loses and reorders nothing and every piece is a message, a beginning of one, or rejected for its size |
| Framing.FrameAppend | src/net.cpp:650-679 | framing can go on from where it stopped, and a rejection stays |
| Framing.FrameOfConcat | src/net.cpp:650-679 | messages sent back to back come out as they went in |
| Framing.WriteRead | src/protocol.h:36-42 | a header and payload written out are one message that reads back as both |
| Framing.LE32Is | src/protocol.h:36-42 | sizes and checksums are four bytes, least significant first |
| Receiving.NetMessage.constructor | src/net.h:231-238 | an empty message |
| Receiving.NetMessage.ReadHeader | src/net.cpp:681-710 | takes at least one byte, at most up to the header's end, and rejects exactly too large sizes |
| Receiving.NetMessage.ReadData | src/net.cpp:712-726 | takes at least one byte, at most up to the message's end; the buffer stays within the declared size and 256 KiB past what has arrived |
| Receiving.CompleteIffWhole | src/net.h:240-245 | complete means exactly the header and payload of the message |
| Receiving.BufferBound | src/net.cpp:717-721 | a message takes no more than 256 KiB past what has arrived of it, and at most 32 MiB |
| Receiving.Node.Absorb | src/net.cpp:652-676 | one turn of the loop takes at least one byte and keeps the queue right |
| Receiving.Node.ReceiveMsgBytes | src/net.cpp:650-679 | the verdict and the queue depend on all bytes so far, not on the chunk |
| Receiving.Node.Erase | src/main.cpp:6153-6154 | taking processed messages off the front does not disturb the rest |
| Receiving.ReceiveAll | src/net.cpp:650-679 | however a stream is cut into chunks, verdict and queue are those of the whole stream |
| Scheduling.PopBest | src/miner.cpp:97-118 | an entry is taken that pays most for its size, and of those has most priority, or the other way round; the others stay |
| Scheduling.SeenIffReady | src/miner.cpp:382-398 | an entry has been queued exactly when everything it waits for is in the block |
| Scheduling.PopKeeps | src/miner.cpp:277-286 | taking an entry keeps that, and no entry is taken twice |
| Scheduling.Release | src/miner.cpp:382-398 | telling the dependers keeps that, repeated parents included |
| Scheduling.Enlist | src/miner.cpp:208-219 | the dependers map and the waiting set of one orphan |
| Assembly.Scan | src/miner.cpp:179-227 | when inputs are missing, their value, and the parents to wait for |
| Assembly.Collect | src/miner.cpp:173-265 | after the first pass every candidate is queued or waits for exactly its pool parents |
| Assembly.FetchFromPool | src/main.cpp:2115-2190 | the assembler's lookup, through the test pool and the memory pool |
| Assembly.TryConnect | src/miner.cpp:319-367 | exactly when the rest of the checks pass, the fee, and the test pool after |
| Assembly.CheckLimits | src/miner.cpp:288-317 | exactly when the first checks pass and exactly when the order becomes by fee |
| Assembly.Judge | src/miner.cpp:288-367 | an entry is added exactly when it is addable to the block so far; the order after its turn |
| Assembly.BestIsNext | src/miner.cpp:277-286 | a greatest entry of the queue comes before everything that is ready and not considered |
| Assembly.RunGoesOn | src/miner.cpp:277-399 | a run goes on with that entry, added exactly when addable |
| Assembly.TakeTurn | src/miner.cpp:277-399 | one turn keeps everything and takes one entry more |
| Assembly.CreateNewBlock | src/miner.cpp:166-399 | terminates; the block is the end of a run in which every turn takes a first entry of the current order among all that are ready, adds it exactly when addable, and sets the order; each transaction at most once, connecting in order, within all limits; fees are inputs minus outputs; everything ready at the end was considered |
| Assembly.TakesBest | src/miner.cpp:277-286 | in every turn by fee, fee times size of the other shows that no transaction that is ready and not considered pays more for its size, nor as much with more priority; by priority the other way round |
| Assembly.TurnIs | src/miner.cpp:288-367 | in figures, exactly when a turn adds its transaction |
| Assembly.OrderIs | src/miner.cpp:306-317 | when the order is by fee: from the start when nothing is kept for priority, for good, and from the first transaction in reach that passes the size kept or is below priority 57600000 |
| Assembly.InputsAddUp | src/miner.cpp:196-227 | values and ages of inputs add up |
| Assembly.OneInput | src/miner.cpp:196-227 | an input counts for its value, and for value times depth when it is in the chain |
| Assembly.TotalsAddUp | src/miner.cpp:369-376 | sizes and signature operations of transactions add up |
| Assembled.ParentsFirst | src/miner.cpp:319-325 | every pool parent stands before its child |
| Assembled.NoDoubleSpend | src/miner.cpp:360-367 | no output is spent twice in the block |
| Assembled.AssembledConnects | src/miner.cpp:360-367 | behind a fresh coinbase every transaction is spendable when the chain comes to it, at whatever position the block is stored |
| Assembled.AddedIsAccepted | src/main.cpp:2625-2709 | a transaction that was added passes the chain's checks of ids, double spends and fee at its turn, and is accepted exactly when its inputs pass the checks that the chain makes of them, whatever these are |
| Assembled.CreatedIsAccepted | src/main.cpp:2591-2731 | the returned block behind a fresh coinbase is accepted by the chain exactly when every input of every added transaction passes the chain's own checks and its shape, the rules not modelled and the coinbase's value are in order |
| Assembled.SameChecksPass | src/miner.cpp:360-364 | under the assembler's own checks every added transaction passes |
| Assembled.MarkerIsRefused | src/main.cpp:2459-2463 | a block in which a transaction spends an empty output is refused once the chain refuses such inputs |
| KeyDerivation.HmacCtx.Init | src/pbkdf2.cpp:17-51 | the inner and outer contexts of section 2 of RFC 2104, long keys hashed |
| KeyDerivation.HmacCtx.Update | src/pbkdf2.cpp:53-60 | the text grows |
| KeyDerivation.HmacCtx.Final | src/pbkdf2.cpp:62-79 | the digest is the HMAC of the text fed |
| KeyDerivation.FillPad | src/pbkdf2.cpp:37-47 | the pad is the zero-filled key exclusive-ored with the constant |
| KeyDerivation.XorInto | src/pbkdf2.cpp:122-124 | exclusive or in place |
| KeyDerivation.Iterate | src/pbkdf2.cpp:116-125 | the inner loop gives the exclusive or of U_1 to U_c |
| KeyDerivation.DeriveBlock | src/pbkdf2.cpp:105-125 | the copied context gives the same as a fresh HMAC over salt and block number |
| KeyDerivation.IntIs | src/pbkdf2.cpp:105-107 | the four octets of the block number, most significant first |
| KeyDerivation.PBKDF2_SHA256 | src/pbkdf2.cpp:81-136 | the buffer is the first dkLen octets of T_1 \|\| T_2 \|\| ... |
| KeyDerivation.ShorterKey | src/pbkdf2.cpp:127-131 | a shorter key is the beginning of a longer one |

## Left out

- Anonymous (ring) inputs and outputs: they rest on ring signature and wallet code; all transactions here have plain inputs.
- The thin-client chain code: it repeats the full-node code over a pruned window.
- Script evaluation, signatures, coin age, signature operation counts and the remaining block rules: parameters of the models.
- 64-bit overflow of money: the largest amount is the largest 64-bit number, so amounts are unbounded here.
- Sockets, threads, locks, databases, files, logging, RPC, user interface; a failing disk or database write.
- `GetChance` and `Select_` of the address manager: floating-point chances, nothing exact to state.
- AddrStore.Load: says nothing of a file with an address twice, or with buckets that name no entry, name one twice, or name one in more than four; a manager never writes such a file.
- BlockChain.Run: offers only blocks whose ids are not in the index; `FreshIds.RunAny` does not.
- ChainState.FetchInputs: models the lookup for a block; the lookup for the assembler is `Assembly.FetchFromPool`, the one for the memory pool's own acceptance is not modelled.
- Reorganisation.ChainTip.Reorganize: resurrecting and deleting pool transactions is not modelled; blocks can always be read from disk.
- Reorganisation.ChainTip.SetBestChain: starts where tip, links and index agree; from a refused tip only its children are modelled (`Reorganisation.ChainTip.ExtendRefused`), not a switch to another branch, which would disconnect blocks that were never connected.
- Assembly.CreateNewBlock: one reading of the clock is a parameter; the coinbase and the header are not modelled, nor is the coinstake that a staker puts in later; a pool transaction with a missing input after an input from the pool is excluded, since the source then keeps a pointer to a deleted orphan.
- Assembly.Collect: priorities are exact real numbers, not floating-point ones.
- Mnemonics.EncodeWords: asks that the packing loop stay inside its buffer, as do MnemonicText.MnemonicEncode and MnemonicText.EncodeThenDecode; what is read past it is not defined.
- Mnemonics.DecodeWords: asks for no more checksum bits than the digest has when it compares them, which holds for every text that `MnemonicText.MnemonicDecode` gets so far with.
- MnemonicText.DecodeThenEncode: speaks of 3 to 93 words; longer texts are compared with other digest bits than are written, so not every accepted one is what its entropy is encoded as.
- WordList.GetWord: a later word of an empty list is not asked for, since the source would read past the list.
- MnemonicText.MnemonicDecode: one known language with a space between words of at least two bytes, as in all lists of src/wordlists; language detection and the ideographic space are not modelled.
- Receiving.Node.ReceiveMsgBytes: says nothing of calls after a rejection, when the caller has closed the connection.
- KeyDerivation.PBKDF2_SHA256: wiping of temporary buffers is not modelled.
- `std::sort`, the heap functions and bignum arithmetic of the libraries: an insertion sort, a search for a greatest entry and unbounded integers stand for them.
- Alerts, checkpoints, key stores, coin control, stealth addresses, secure messaging: easier or separate parts of the repository.
