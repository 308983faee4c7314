# A verified model of the Scone consensus engine

This project models the consensus state engine of Scone, a name registry kept by a small
proof-of-stake chain, and proves what its parts promise together. It follows the layers of the program:

- **Sparse Merkle tree** (`SmtSpec`, `SmtShape`, `Smt`, `SmtCanon`, `SmtBinding`, `Packing`). The class
  `SmtTree.Smt` keeps leaves, buckets, branch points, a root slot and a root cache, and changes them in place.
  After every insertion and removal its root is the root of the naive tree of depth 40 over the same leaves,
  every stored branch hash is the naive hash of its subtree, and every stored field is a function of the content.
- **Chain state** (`Ledger`, `Indexes`, `ChainState`, `Lifecycle`, `Effects`, `Runs`, `StateRoot`, `EntryCodec`,
  `Backend`). `Ledger` says what the ten transactions, an expiry pass and a rollback do to the logical state; the class
  `ChainState.ChainState` does it with counters, owner reference counts, an expiration queue, a grace map, bans and the
  tree, and an undo journal. `Effects` tells each transaction by what is accepted and refused after it.
- **Blockchain** (`Blocks`, `History`, `ForkChoice`, `Acceptance`, `StaleIndex`, `Chain`, `Nodes`). The class
  `Chain.Blockchain` keeps a window of blocks whose layout shifts at the first eviction, a hash index, an anti-replay
  index and the state, next to a ghost full history. `Acceptance` says what acceptance and every refusal of a block or
  branch mean; `StaleIndex` says what the anti-replay index is worth after a reorg; `Nodes` puts two such chains side by
  side.
- **Finality** (`Checkpoints`, `Quorum`, `Finality`, `Signer`, `Agreement`). Committees, quorum certificates, the chain of
  checkpoints, and signers that crash, restart and lose writes, as steps over the set of released signatures.
- **Bytes** (`Bytes`, `Wire`, `RecordCodec`, `RecordSet`, `CheckpointWire`, `CheckpointHash`, `Dns`, `Layouts`). Varints,
  canonical record sets, where every field stands, the checkpoint envelope, and DNS messages (sections 4.1 and 4.2.1
  of RFC 1035).

Hashes, signature checks, proof-of-work and name rules are functions the theorems range over. A theorem that needs
more of them says so where it needs it: no collision among the bytes actually hashed (`SmtBinding`, `StateRoot`),
no forged signature of one key (`Agreement`), and different leaf hashes for different entries in the chain state,
without which removing one entry could take another one's leaf out of the tree. The tree itself is proved for any hash.

Where comments and code of the program differ, the model follows the code:

- `UpdateDomain` learns the owner's key before it checks the sequence, so a refusal is without trace exactly when that
  branch is not met (`Ledger.RefusalTrace`); the rollback of the block removes the key.
- A reorg keeps the anti-replay index of the chain it leaves (`StaleIndex`).
- An accepted checkpoint freezes the pool of the current tip, not that of its own block. The two agree when it is at the
  tip, and differ once a key of the pool was banned in between (`ForkChoice.BannedSinceCheckpoint`).
- A checkpoint is compared with our chain by height only (`ForkChoice.ForeignBlockPasses`), and a block next to the tip is
  attached without a checkpoint check (`ForkChoice.SisterKeepsFinality`).
- An exact duplicate of the last checkpoint fails the epoch rule before the duplicate rule is reached.
- A second slash of a key that is already banned is refused, because the key is no longer in the pool (`Effects.SlashBans`).
- The time frozen with a checkpoint is that of its block only while the window holds that block, as it does on every chain
  grown from genesis; a restored chain that accepts a checkpoint below its base freezes zero.
- A chain restored at height zero holds genesis twice and would not serve its next block.
- An all-zero record hash reads back as none; the signer record is 95 bytes long, not 96.

`dafny verify dfyconfig.toml` checks the whole project.

## Model

| member | source | states |
|---|---|---|
| SmtTree.Smt.Insert | crates/scone-blockchain/src/smt.rs:407-496 | after adding a leaf the tree is valid for exactly the old content plus that leaf: root, branch hashes, shape and buckets all agree with the naive tree |
| SmtTree.Smt.Remove | crates/scone-blockchain/src/smt.rs:500-613 | the same after removing a leaf; an emptied key collapses exactly one branch point, and the branch the source marks unreachable is never reached |
| SmtTree.Smt.RecomputeFrom | crates/scone-blockchain/src/smt.rs:371-403 | refreshing the hashes on the path of one key is enough to make every stored hash and the root cache naive again |
| SmtTree.Smt.LocateFull | crates/scone-blockchain/src/smt.rs:321-345 | the walk ends at the slot where the key belongs, with every branch point above it on the stack |
| SmtTree.Smt.SlotValue | crates/scone-blockchain/src/smt.rs:287-307 | an empty, chain or node slot is worth the naive hash of the subtree it stands for, implicit levels folded on the fly |
| SmtTree.Smt.Fold | crates/scone-blockchain/src/smt.rs:243-256 | folding a lone leaf with default siblings gives the naive hash at the wanted depth, whenever its key is alone there |
| SmtTree.Smt.RootHash | crates/scone-blockchain/src/smt.rs:628-634 | the root is the naive root of the content, cached or not |
| SmtTree.Smt.BucketMerkleRoot | crates/scone-blockchain/src/smt.rs:162-179 | the level-by-level loop with the last hash duplicated computes the recursive bucket root |
| SmtTree.Smt.BucketRootOf | crates/scone-blockchain/src/smt.rs:231-239 | a key's bottom value is that of its set of leaves, whether it is kept as a single leaf or a sorted bucket |
| SmtTree.Smt.DivergenceDepth | crates/scone-blockchain/src/smt.rs:125-129 | the depth found is the length of the common prefix |
| SmtTree.Smt.GrowTree | crates/scone-blockchain/src/smt.rs:437-494 | making room for a key keeps the tree canonical for the enlarged set of keys and touches no hash off its path |
| SmtTree.Smt.RemoveKey | crates/scone-blockchain/src/smt.rs:531-609 | unlinking an emptied key leaves exactly the canonical tree of the remaining content |
| SmtTree.StaleOnlyOnPath | crates/scone-blockchain/src/smt.rs:365-403 | changing the leaves of one key leaves every stored hash off its path right |
| SmtTree.CollapseFacts | crates/scone-blockchain/src/smt.rs:531-609 | promoting the sibling of a removed key yields the canonical shape and keeps every other hash right |
| SmtShape.NewBranchPoint | crates/scone-blockchain/src/smt.rs:437-494 | a new key adds exactly one branch point, at the first bit where it leaves its neighbour |
| SmtShape.LostBranchPoint | crates/scone-blockchain/src/smt.rs:531-609 | a removed key takes away exactly the deepest branch point on its path |
| SmtSpec.LiftIsNaive | crates/scone-blockchain/src/smt.rs:243-256 | lifting one subtree through empty siblings equals the naive hash, for any number of implicit levels |
| SmtSpec.EmptySubtree | crates/scone-blockchain/src/smt.rs:184-193 | the default table holds the naive hash of an empty subtree at every depth |
| SmtSpec.PathToRoot | crates/scone-blockchain/src/smt.rs:371-403 | on the way up the value stands on the side of its bit |
| SmtSpec.SmallBuckets | crates/scone-blockchain/src/smt.rs:162-179 | a lone leaf is its own root, two are paired in order, an odd last one with itself |
| SmtCanon.PhysicalIsCanonical | crates/scone-blockchain/src/smt.rs:723-731 | equal content means equal leaves, buckets, branch points, root slot and root cache, however it was reached |
| SmtCanon.HistoryContent | crates/scone-blockchain/src/smt.rs:407-613 | after any sequence of insertions and removals a leaf is present exactly when the last operation on it was an insertion |
| SmtCanon.InsertThenRemove | crates/scone-blockchain/src/smt.rs:407-613 | inserting a new leaf and removing it restores every stored field |
| SmtCanon.NodeCount | crates/scone-blockchain/src/smt.rs:648-650 | the number of branch points is one less than the number of distinct keys, or zero |
| SmtBinding.BucketBinding | crates/scone-blockchain/src/smt.rs:162-179 | equal bucket roots mean equal leaf lists, even across lengths padded by duplicating the last hash, if nothing hashed collides |
| SmtBinding.RootBinding | crates/scone-blockchain/src/smt.rs:628-634 | equal roots mean equal content, if nothing hashed collides |
| Packing.ShiftIsPrefix | crates/scone-blockchain/src/smt.rs:113-121 | right-shifting a key is taking a prefix of its bits |
| Packing.BitAtDepth | crates/scone-blockchain/src/smt.rs:243-256 | the bit tested at a depth is that bit of the path |
| Packing.DivergenceDepthIsFirstDifference | crates/scone-blockchain/src/smt.rs:125-129 | leading zeros of the exclusive or give the first differing depth |
| Packing.SlotCodec | crates/scone-blockchain/src/smt.rs:84-121 | the tagged word encoding of slots is read back exactly |
| Packing.SlotBits | crates/scone-blockchain/src/smt.rs:76-121 | bit 63 marks a chain, bit 62 a branch point, and below them stand the key, or depth and prefix |
| Packing.SmtKeyBits | crates/scone-blockchain/src/smt.rs:713-716 | bit i of the key is bit i of the 256-bit identifier from the top, for the first 40 |
| Packing.SmtKeyTopBits | crates/scone-blockchain/src/smt.rs:713-716 | two identifiers share a key exactly when their first five bytes agree |
| Ledger.StepReverts | crates/scone-blockchain/src/state.rs:662-993 | what a transaction journals, accepted or refused, takes the ledger back exactly |
| Ledger.RefusalTrace | crates/scone-blockchain/src/state.rs:640-642 | a refusal leaves ledger and journal unchanged exactly unless it is the refused update of an owner whose key was not known; then exactly that key stays |
| Ledger.RefusalMayLeaveAKey | crates/scone-blockchain/src/state.rs:743-762 | a refused update at which the ledger does change |
| Ledger.LapseReverts | crates/scone-blockchain/src/state.rs:1031-1077 | names retired one after the other come back in reverse order with their expiry and owner |
| Ledger.RollbackIsExact | crates/scone-blockchain/src/state.rs:1088-1169 | expiry and then any list of transactions, wherever it stops, is undone exactly by one journal |
| Indexes.CommitsUnique | crates/scone-blockchain/src/state.rs:486-530 | the content of the tree is determined by the set of entries |
| Indexes.RefsAcquire | crates/scone-blockchain/src/state.rs:429-436 | acquiring keeps every count equal to the number of live entries of its owner |
| Indexes.RefsRelease | crates/scone-blockchain/src/state.rs:437-451 | releasing keeps the counts exact and leaves no zero entry |
| Indexes.RefsUnique | crates/scone-blockchain/src/state.rs:429-451 | the reference counts are determined by the entries |
| Indexes.QueueAdd | crates/scone-blockchain/src/state.rs:453-459 | a name enters the slot of its expiry |
| Indexes.QueueRemove | crates/scone-blockchain/src/state.rs:461-469 | a name leaves its slot and no empty slot stays |
| Indexes.QueueUnique | crates/scone-blockchain/src/state.rs:453-469 | the expiration queue is determined by the live names |
| ChainState.ChainState.ApplyJournaledAt | crates/scone-blockchain/src/state.rs:662-993 | each of the ten transactions does to entries, counters, counts, queue, grace, bans and tree exactly what the rules do to the ledger, with the same verdict and journal |
| ChainState.ChainState.Apply | crates/scone-blockchain/src/state.rs:613-622 | refused means every stored field is unchanged |
| ChainState.ChainState.GcExpired | crates/scone-blockchain/src/state.rs:1031-1077 | the pass retires exactly the names whose expiry has come, ordered by expiry and id, and parks each in grace |
| ChainState.ChainState.Rollback | crates/scone-blockchain/src/state.rs:1088-1169 | undoing a journal in place follows the pure undo and keeps every index right |
| ChainState.ChainState.SameViewSameState | crates/scone-blockchain/src/state.rs:1088-1169 | the logical state determines every stored field down to the physical tree, so a rollback restores them all |
| ChainState.ChainState.ApplyBlock | crates/scone-blockchain/src/chain.rs:575-594 | expiry at the parent time and then all transactions, or nothing at all |
| ChainState.ChainState.EligibleValidators | crates/scone-blockchain/src/finality.rs:379-389 | the pool read off the reference counts is, sorted, a scan of all live owners with a known unbanned key |
| ChainState.ChainState.MoveExpiry | crates/scone-blockchain/src/state.rs:902-934 | a renewal moves one name between queue slots and swaps its leaf; nothing else changes |
| ChainState.ChainState.MoveOwner | crates/scone-blockchain/src/state.rs:935-954 | a transfer moves the seat from the old to the new owner |
| Lifecycle.LiveStep | crates/scone-blockchain/src/state.rs:733-773 | while a name is live its owner changes only by that owner's transfer, its sequence by one per accepted update, its expiry only forward and within three years |
| Lifecycle.ClaimStep | crates/scone-blockchain/src/state.rs:998-1011 | a name becomes live for one term at sequence zero, and past anyone else's grace |
| Lifecycle.FreshNameOutlives | crates/scone-blockchain/src/state.rs:699-699 | the term is added without an overflow check, so a new registration outlives the expiry pass of its own block time exactly when one term still fits the clock |
| Lifecycle.FreeOverRuns | crates/scone-blockchain/src/state.rs:998-1011 | in every run a name is free for a claimant exactly when it was never live, or is not live now and its last owner is the claimant or thirty days have passed since its last expiry |
| Lifecycle.IdsStayDisjoint | crates/scone-blockchain/src/state.rs:408-424 | in every run no id names both a name and a namespace, if the two derivations never agree |
| Lifecycle.TldStep | crates/scone-blockchain/src/state.rs:774-870 | a namespace is claimed closed and off the reserved list, changes only by its owner's transaction, one field at a time, and is given up only by its owner |
| Lifecycle.BanStep | crates/scone-blockchain/src/state.rs:955-993 | a key is banned only by evidence that verifies against it while it is in the pool |
| Lifecycle.LapseStep | crates/scone-blockchain/src/state.rs:1031-1077 | a live name disappears only by expiry, leaving its expiry and last owner in grace |
| Lifecycle.GraceProtectsLastOwner | crates/scone-blockchain/src/state.rs:998-1011 | in every run a lapsed name goes to someone else only thirty days after its last expiry |
| Lifecycle.SequenceCountsUpdates | crates/scone-blockchain/src/state.rs:733-773 | over any stretch in which a name stays live its sequence grows by the number of accepted updates |
| Lifecycle.ExpiryHorizon | crates/scone-blockchain/src/state.rs:902-934 | no live name expires later than three years after the latest block time used so far |
| Lifecycle.PoolAfterExpiry | crates/scone-blockchain/src/finality.rs:379-389 | right after an expiry pass the pool is exactly the unbanned keys of owners of unexpired names and of namespaces |
| Lifecycle.BanIsForLife | crates/scone-blockchain/src/state.rs:955-993 | a banned key stays banned and out of the pool in every later state |
| Effects.AcceptedExactly | crates/scone-blockchain/src/state.rs:662-993 | a transaction is accepted exactly under the rules of its kind: network, binding of owner and key, and the conditions on names, namespaces, grace, sequence, horizon or evidence |
| Effects.RefusalIsTrue | crates/scone-blockchain/src/state.rs:662-993 | every refusal names a cause that is there |
| Effects.SlashBans | crates/scone-blockchain/src/state.rs:955-993 | an accepted slash takes the offender and nobody else out of the pool, seizes nothing, and is not accepted twice |
| Effects.PoolMembers | crates/scone-blockchain/src/finality.rs:379-389 | the pool is the known, unbanned keys of the owners of live names and namespaces |
| Effects.OpenTldTakesNames | crates/scone-blockchain/src/state.rs:857-870 | once a namespace is set open every free name with a valid proof is accepted under it from anyone, once closed none |
| Effects.ClaimedTld | crates/scone-blockchain/src/state.rs:774-822 | a claimed namespace is closed, cannot be claimed again, lets only its owner assign names, and seats the owner's known key |
| Effects.TldChangesHands | crates/scone-blockchain/src/state.rs:823-839 | after a transfer the new owner commands the namespace and nobody else does |
| Effects.RevokedTldIsGone | crates/scone-blockchain/src/state.rs:840-856 | nothing can be done under or with a revoked namespace, and anyone may claim it afresh |
| Effects.NewName | crates/scone-blockchain/src/state.rs:678-732 | a registered or assigned name is live under its owner at sequence zero for one term, cannot be taken again, and a registration seats its signer's known key |
| Effects.HolderCommands | crates/scone-blockchain/src/state.rs:902-954 | the holder of a name, and nobody else, transfers, renews and updates it |
| Effects.ChangedName | crates/scone-blockchain/src/state.rs:733-773 | an update shows the new record and cannot be applied twice, a renewal moves the expiry, a transfer changes the holder only |
| Effects.AllAccepted | crates/scone-blockchain/src/chain.rs:575-594 | a list of transactions is accepted exactly when each is signed and accepted where it stands, and the verdict is that of the first that is not |
| Runs.ChainIsRun | crates/scone-blockchain/src/chain.rs:564-594 | the ledger of a chain is the last state of a run of expiry passes and accepted transactions at parent block times, so every statement about runs is one about chains |
| Runs.GuardedKeyIsNeverBanned | crates/scone-blockchain/src/state.rs:955-993 | a key used only through the signer guard is never banned, whatever evidence is offered |
| StateRoot.StateRootSmt | crates/scone-blockchain/src/state.rs:546-552 | the live root is the committed root of the current entries |
| StateRoot.RecomputeStateRoot | crates/scone-blockchain/src/snapshot_verify.rs:61-75 | the root recomputed from snapshot entries in any order, repetitions included, is the committed root of their set |
| StateRoot.StateRootBinds | crates/scone-blockchain/src/snapshot_verify.rs:61-95 | if nothing hashed collides, equal roots hold exactly between equal registries |
| EntryCodec.DomainExact | crates/scone-blockchain/src/state.rs:103-133 | a stored name reads back exactly if and only if its record hash is not all zero |
| EntryCodec.DomainCanonical | crates/scone-blockchain/src/state.rs:116-133 | every 88-byte entry re-encodes to itself |
| EntryCodec.TldCanonical | crates/scone-blockchain/src/state.rs:139-154 | a 33-byte entry re-encodes to itself if and only if its flag is 0 or 1 |
| Layouts.DomainEntry | crates/scone-blockchain/src/state.rs:103-114 | where each field of a stored name stands |
| Layouts.LeafBytesBind | crates/scone-blockchain/src/finality.rs:330-358 | different entries are hashed from different bytes |
| Backend.MemoryBackend.Range | crates/scone-blockchain/src/state_backend.rs:103-119 | a page is the first entries from a key on in order, and the cursor is the next key or none |
| Backend.MemoryBackend.ScanAll | crates/scone-blockchain/src/finality.rs:415-430 | following the cursor reads every entry once, in order, for any page size |
| Backend.StoreIsExact | crates/scone-blockchain/src/state.rs:371-384 | the one key space answers for names and namespaces exactly if and only if no id names both |
| Backend.ReachableStoreIsExact | crates/scone-blockchain/src/state.rs:371-384 | so the store of every reachable registry answers exactly, if name and namespace ids never agree |
| Backend.ReachableStoresAgree | crates/scone-blockchain/src/state_backend.rs:48-53 | and two runs leave equal stores exactly when they leave equal registries |
| Backend.EntryStore.PutDomainEntry | crates/scone-blockchain/src/state.rs:408-412 | writing a name's bytes in place is updating the map of names, its all-zero record hash becoming none, and whatever else the id held is gone |
| Backend.EntryStore.PutTldEntry | crates/scone-blockchain/src/state.rs:418-420 | the same for a namespace |
| Backend.EntryStore.RemoveEntry | crates/scone-blockchain/src/state.rs:414-424 | deleting removes the id and nothing else |
| Backend.EntryStore.Domain | crates/scone-blockchain/src/state.rs:371-376 | a lookup decodes what the map of names holds |
| History.HistoryGrows | crates/scone-blockchain/src/chain.rs:470-622 | an accepted block extends the history and the ledger by exactly its own effect |
| Chain.Blockchain.PushBlock | crates/scone-blockchain/src/chain.rs:470-622 | the verdict is the first failing rule in the order of the source; acceptance extends history, window, index and state together; refusal changes nothing; a right index, no replay and placed checkpoints are kept |
| Chain.Blockchain.CheckBlock | crates/scone-blockchain/src/chain.rs:471-562 | all checks before any change, with the kind of parent miss |
| Acceptance.AcceptedBlock | crates/scone-blockchain/src/chain.rs:470-594 | a block is accepted exactly with its parent's hash, height, version, size, its own transaction root, no replay, an encoding, a valid header, an allowed producer and accepted transactions |
| Acceptance.RefusedBlock | crates/scone-blockchain/src/chain.rs:470-594 | every refusal of a block names a cause that is there |
| Acceptance.RefusedProducer | crates/scone-blockchain/src/chain.rs:536-562 | a producer is refused without a verifying signature, or outside an allowed set that is not empty |
| Acceptance.ReportedExpiry | crates/scone-blockchain/src/chain.rs:564-575 | the expired names reported are exactly those due at the parent's time, by expiry and id |
| Chain.Blockchain.EvictBelowWindow | crates/scone-blockchain/src/chain.rs:414-445 | the window slides to the lower of the RAM bound and the finality floor, across the change of layout, and the hash index follows |
| Chain.Blockchain.BlockAtIsHistory | crates/scone-blockchain/src/chain.rs:261-280 | a lookup answers genesis and the heights from the window base to the tip with the block of the full history, and nothing else |
| Chain.Blockchain.BlockHashAtIsHistory | crates/scone-blockchain/src/chain.rs:358-360 | the hash index answers for exactly the blocks the window serves |
| History.WindowBounds | crates/scone-blockchain/src/chain.rs:414-445 | nothing at or above the floor or within the last 512 blocks is evicted, nothing before the first checkpoint, and at most 513 blocks stay once the floor is near the tip |
| Chain.Blockchain.constructor | crates/scone-blockchain/src/chain.rs:210-225 | a new chain is at genesis with the empty ledger |
| Chain.Blockchain.Restore | crates/scone-blockchain/src/chain.rs:176-197 | a restored chain holds genesis and the tip of a history its state is the fold of, and is fit for use exactly when the tip is above genesis |
| Chain.Blockchain.RestoredServesNext | crates/scone-blockchain/src/chain.rs:261-280 | in the restored layout the next block is served if and only if the tip is above genesis |
| Chain.Blockchain.RecordIds | crates/scone-blockchain/src/chain.rs:604-617 | the index gains the block's ids at its height and loses what left the window |
| History.IndexGrows | crates/scone-blockchain/src/chain.rs:604-617 | so the index stays the map of the ids of the last 256 blocks to their last inclusion |
| History.NoReplayGrows | crates/scone-blockchain/src/chain.rs:518-528 | no id enters two blocks whose heights differ by 256 or less |
| History.ReplayedByIndex | crates/scone-blockchain/src/chain.rs:518-528 | asking the index is asking the last 256 blocks |
| History.RebuildRestoresIndex | crates/scone-blockchain/src/chain.rs:335-344 | from any list of inclusions of this chain that covers the window, the rebuilt index is the one pushing would have left |
| History.RebuiltIsLive | crates/scone-blockchain/src/chain.rs:335-344 | so a node that restarted and a node that never stopped hold the same index |
| Chain.Blockchain.RebuildReplayIndex | crates/scone-blockchain/src/chain.rs:335-344 | the loop in place is the fold the theorem is about |
| StaleIndex.SisterKeepsIndex | crates/scone-blockchain/src/fork_choice.rs:228-237 | after the tip is replaced the index left in place is right exactly when the two blocks include the same ids |
| StaleIndex.BranchKeepsIndex | crates/scone-blockchain/src/fork_choice.rs:228-237 | after a branch is adopted it is right exactly when the blocks that leave the window are empty of ids, the replaced ones include the same ids height by height, and the added ones none |
| StaleIndex.DroppedIdStaysRefused | crates/scone-blockchain/src/fork_choice.rs:228-237 | one failing family: an id only the dropped tip had included stays refused although the chain no longer contains it |
| StaleIndex.AdoptedIdIsLetThrough | crates/scone-blockchain/src/fork_choice.rs:228-237 | the other: an id only the adopted branch included is let through, and the next block can repeat it |
| StaleIndex.CoversAfterReorg | crates/scone-blockchain/src/fork_choice.rs:228-237 | the kept index still knows every id of the window outside the adopted heights |
| StaleIndex.PushAfterReorg | crates/scone-blockchain/src/chain.rs:518-528 | a block that index admits keeps the chain free of replays within 256 blocks exactly when it repeats no id of the adopted blocks in the window |
| StaleIndex.RunAfterReorg | crates/scone-blockchain/src/chain.rs:518-528 | the same over any run of pushes after the reorg |
| StaleIndex.IndexHeals | crates/scone-blockchain/src/chain.rs:604-617 | after 256 pushes the index is right again, whatever it was |
| ForkChoice.PushStep | crates/scone-blockchain/src/fork_choice.rs:204-219 | pushing the next block of a list succeeds exactly when the list replays one block further |
| Acceptance.ReplaysExactly | crates/scone-blockchain/src/fork_choice.rs:204-219 | every block of a chain that replays keeps those rules where it stands, with no id of the 256 blocks before it, and a list of such blocks replays |
| ForkChoice.ReplayedHasNoReplay | crates/scone-blockchain/src/fork_choice.rs:204-219 | a rebuilt chain repeats no id within 256 blocks |
| Chain.Blockchain.ReorgToHeight | crates/scone-blockchain/src/fork_choice.rs:178-224 | the reorg succeeds exactly when the prefix is in RAM and prefix plus extension replay from genesis against the current base, and returns the names that expired along the extension in order; otherwise nothing changes |
| History.GcLogUnique | crates/scone-blockchain/src/fork_choice.rs:209-222 | the list of expired names a reorg returns is determined by the chain |
| Chain.Blockchain.SwapWith | crates/scone-blockchain/src/fork_choice.rs:228-237 | everything but the anti-replay index is taken over |
| Chain.Blockchain.TryAttach | crates/scone-blockchain/src/fork_choice.rs:48-81 | a block on the tip is pushed, a block beside it replaces it when lower; each refusal carries the error of the source; checkpoints stay placed exactly when the block extends the tip or the last checkpoint is below it |
| Chain.Blockchain.AdoptBranch | crates/scone-blockchain/src/fork_choice.rs:94-170 | a branch is adopted exactly when it links up, keeps every checkpoint from the fork on, is better and replays; the pair of height and tip hash strictly improves, placed checkpoints stay placed, no id repeats within 256 blocks, and any other outcome changes nothing |
| Acceptance.AdoptedExactly | crates/scone-blockchain/src/fork_choice.rs:94-170 | when a branch replaces the chain: it forks off it, has every checkpoint from there on, is longer or as long with a lower hash, and replays |
| Acceptance.SisterExactly | crates/scone-blockchain/src/fork_choice.rs:48-81 | when a block replaces the tip: same height, lower hash, replays in its place |
| Acceptance.RefusedSister | crates/scone-blockchain/src/fork_choice.rs:48-81 | every refusal of a block beside the tip names a cause that is there |
| Acceptance.RefusedBranch | crates/scone-blockchain/src/fork_choice.rs:94-156 | every refusal of a branch names a cause that is there |
| Chain.Blockchain.CheckpointsKept | crates/scone-blockchain/src/fork_choice.rs:126-156 | the loop decides whether every checkpoint at or above the fork has its block on the branch |
| ForkChoice.FinalitySurvives | crates/scone-blockchain/src/fork_choice.rs:124-156 | checking the checkpoints at or above the fork is checking all of them |
| ForkChoice.SisterKeepsFinality | crates/scone-blockchain/src/fork_choice.rs:48-81 | replacing the tip keeps the checkpoints placed if and only if the last of them is strictly below it |
| ForkChoice.NewestPlaced | crates/scone-blockchain/src/finality.rs:225-273 | a new checkpoint keeps the window on the chain exactly when its own block is on it |
| ForkChoice.ForeignBlockPasses | crates/scone-blockchain/src/finality.rs:137-141 | the content rules do not ask for that: with any other block hash the same checkpoint passes them and leaves the chain |
| ForkChoice.BannedSinceCheckpoint | crates/scone-blockchain/src/finality.rs:250-257 | the pool frozen below the tip differs from the pool at the checkpoint's block once a key of that pool was banned |
| ForkChoice.AdoptingIsOffering | crates/scone-blockchain/src/fork_choice.rs:94-170 | without checkpoints, adopting a full branch from genesis keeps the better of the two chains |
| ForkChoice.OffersEndAtTheBest | crates/scone-blockchain/src/fork_choice.rs:157-169 | after any offers the chain is the old one or a valid offered branch, and none of those is better |
| ForkChoice.Convergence | crates/scone-blockchain/src/fork_choice.rs:157-169 | from one tip, the same offers in any order and number lead to the same height and tip hash |
| Nodes.OfferBranches | crates/scone-blockchain/src/fork_choice.rs:94-170 | adopting the offered branches in place, one after the other, ends at the chain of that theorem |
| Nodes.MeetAtTheBest | crates/scone-blockchain/src/fork_choice.rs:157-169 | two nodes that start at one tip and are offered the same whole branches, in any order and number, end at one tip |
| Chain.Blockchain.AcceptCheckpoint | crates/scone-blockchain/src/finality.rs:225-273 | the verdict follows content rules, committee floor, quorum and state root in this order; a new checkpoint extends the window, freezes the pool of the current ledger (which is that of its own block when it is at the tip) and the timestamp of its block while the window holds it, is of a recovery round only within the limit and when due, and keeps the window on our chain exactly when its block is ours |
| Chain.Blockchain.ContentPasses | crates/scone-blockchain/src/finality.rs:137-191 | the content rules told by the history: our height, the next epoch and parent, a recovery round within its limit and due by the timestamps of tip and last checkpoint |
| Chain.Blockchain.CheckpointPasses | crates/scone-blockchain/src/finality.rs:225-249 | it passes exactly with that content, more than two thirds of a committee of at least four, and at the tip our state root; every other verdict names what is missing |
| Chain.Blockchain.TimeAtIsHistory | crates/scone-blockchain/src/finality.rs:179-191 | the time looked up is the timestamp of the historical block as long as the window holds it |
| Finality.WindowedKeeps | crates/scone-blockchain/src/finality.rs:270-272 | the newest checkpoints stay, at most 64, in order |
| Chain.Blockchain.ProposeCheckpoint | crates/scone-blockchain/src/finality.rs:117-202 | what a node proposes is placed on its chain and passes its own content rules |
| Finality.CheckpointsGrow | crates/scone-blockchain/src/finality.rs:133-174 | the window keeps at most 64 checkpoints, consecutive, hash-linked, rising, with the frozen base at its end |
| Finality.CheckpointHeightsRise | crates/scone-blockchain/src/finality.rs:150-158 | later checkpoints of the window are higher by at least one block an epoch |
| Finality.DuplicateFailsEpochRule | crates/scone-blockchain/src/finality.rs:225-255 | the last finalized checkpoint offered again is refused by the epoch rule, so the idempotence branch is not reached by an exact duplicate |
| Chain.Blockchain.Committee | crates/scone-blockchain/src/finality.rs:83-104 | the committee is the draw of the round over the live or frozen pool |
| Finality.ElectedUnique | crates/scone-blockchain/src/finality.rs:83-104 | nodes with the same base and ledger elect the same committee |
| Acceptance.ElectedExactly | crates/scone-blockchain/src/finality.rs:83-112 | which seed and pool each round draws from, and that no recovery round exists before finality |
| Chain.Blockchain.AllowedProducers | crates/scone-blockchain/src/finality.rs:282-309 | the set holds exactly the keys drawn in the normal round and in every recovery round that is due |
| Acceptance.ProducersAreElected | crates/scone-blockchain/src/finality.rs:282-309 | who may produce: exactly the members of the committees of the normal round and of every recovery round that is due |
| Finality.AllowedGrows | crates/scone-blockchain/src/finality.rs:294-307 | for a fixed base the allowed set only grows with block time |
| Finality.ProducerStaysOk | crates/scone-blockchain/src/finality.rs:282-309 | so a producer that may sign now may sign later, whatever happens to the ledger; an open set stays open |
| Finality.CommitteeIsDrawn | crates/scone-core/src/checkpoint.rs:192-203 | a key is selected exactly when it is eligible and fewer than the committee size rank before it |
| Quorum.SelectCommittee | crates/scone-core/src/checkpoint.rs:192-203 | the first keys in rank order, whatever order or repetitions they are listed in |
| Quorum.CommitteeUnique | crates/scone-core/src/checkpoint.rs:192-203 | there is one such committee |
| Quorum.CommitteeSize | crates/scone-core/src/checkpoint.rs:192-203 | its members are distinct and as many as asked for or eligible |
| Quorum.CommitteeRanks | crates/scone-core/src/checkpoint.rs:192-203 | members stand in rank order, and everyone eligible and not elected ranks after them |
| Quorum.VerifyQuorum | crates/scone-core/src/checkpoint.rs:150-168 | true exactly when at least quorum distinct members have a first listed signature that verifies |
| Quorum.SignerCounts | crates/scone-core/src/checkpoint.rs:150-168 | a member counts when the first signature under its key verifies, later ones never |
| Quorum.QuorumBounds | crates/scone-core/src/consensus_params.rs:23-30 | the quorum is the least number above two thirds and leaves room for every tolerated fault |
| Quorum.HonestMembersCertify | crates/scone-core/src/consensus_params.rs:23-30 | the honest members alone can certify |
| Quorum.Intersection | crates/scone-core/src/consensus_params.rs:23-30 | two quorums share more members than the committee tolerates faulty |
| Quorum.Accountability | crates/scone-core/src/transaction.rs:946-957 | two certificates over different contents of one epoch and parent convict more members than the committee tolerates, each by evidence that verifies |
| Signer.SignerGuard.Load | crates/scone-blockchain/src/signer.rs:112-161 | an absent file gives a fresh guard, a readable well-formed one its contexts, anything else a sealed guard |
| Signer.SignerGuard.Authorize | crates/scone-blockchain/src/signer.rs:187-207 | a signature is released exactly when the rule allows it and the context reached the disk; memory keeps the context in either case |
| Signer.RefusesExactly | crates/scone-blockchain/src/signer.rs:165-183 | between restarts the guard refuses a content exactly when its starting context or a content it let through is of a later epoch, or of the same epoch with another hash |
| Signer.SameContentAgain | crates/scone-blockchain/src/signer.rs:165-183 | so a content whose write failed may be signed again |
| Signer.FileIsRead | crates/scone-blockchain/src/signer.rs:112-161 | a file is read exactly when it is absent or made of whole well-formed records, and an empty one is not |
| Signer.LastRecordCounts | crates/scone-blockchain/src/signer.rs:135-155 | the last record of a key counts |
| Layouts.SignerRecord | crates/scone-blockchain/src/signer.rs:46-58 | where each field of a signer record stands |
| Signer.SignerGuard.Persist | crates/scone-blockchain/src/signer.rs:211-238 | a written file holds the contexts in memory, one record a key in key order, and loads back to them |
| Signer.RecordRoundTrip | crates/scone-blockchain/src/signer.rs:46-95 | a 95-byte record reads back exactly |
| Signer.LoadAfterPersist | crates/scone-blockchain/src/signer.rs:112-238 | loading what was persisted gives the same contexts |
| Signer.SafeStep | crates/scone-blockchain/src/signer.rs:165-207 | every step keeps the file above all released signatures and memory above the file |
| Signer.CrashSafeSigning | crates/scone-blockchain/src/signer.rs:165-238 | over any interleaving of signing, failed writes, crashes and restarts a key releases at most one content per epoch |
| Agreement.GuardedKeyIsNeverConvicted | crates/scone-core/src/transaction.rs:946-957 | a key used only through the guard never yields valid slash evidence |
| Agreement.Agreement | crates/scone-core/src/checkpoint.rs:150-168 | with at most floor((n-1)/3) members outside the guard, two certificates of one epoch certify the same content |
| Nodes.OneRoundOneContent | crates/scone-blockchain/src/finality.rs:225-248 | certificates of the committees two nodes elect in one round of one base certify the same content, whatever the nodes' tips |
| Nodes.AcceptApart | crates/scone-blockchain/src/finality.rs:225-273 | two chains with equal finalized base that both accept a checkpoint of one recovery round have accepted the same content |
| Agreement.SigningHashNamesEpoch | crates/scone-core/src/checkpoint.rs:88-107 | the hypothesis that a signing hash names its epoch follows when the signed bytes involved do not collide |
| Wire.Cursor.ReadU64 | crates/scone-protocol/src/varint.rs:42-61 | the loop with its three refusals is the recursive reading of a minimal varint |
| Wire.Writer.PutU64 | crates/scone-protocol/src/varint.rs:22-33 | the loop appends the recursive encoding |
| Wire.U64RoundTrips | crates/scone-protocol/src/varint.rs:22-61 | a number is read back and nothing after it is touched |
| Wire.U64Canonical | crates/scone-protocol/src/varint.rs:42-61 | what is read was the one encoding of its value |
| Wire.PutLength | crates/scone-protocol/src/varint.rs:18-19 | no encoding is longer than ten bytes |
| Layouts.Varint | crates/scone-protocol/src/varint.rs:22-33 | seven bits a byte, least significant first, continued on every byte but the last, no byte too many |
| Layouts.RefusedVarint | crates/scone-protocol/src/varint.rs:42-61 | each refusal names its cause |
| Wire.BytesCanonical | crates/scone-protocol/src/codec.rs:98-130 | an accepted byte string is its bounded encoding |
| RecordCodec.WriteData | crates/scone-protocol/src/record.rs:59-110 | the encoder appends the specified bytes or refuses with the specified error |
| RecordCodec.ReadData | crates/scone-protocol/src/record.rs:112-139 | the decoder in place is the specified parse |
| RecordCodec.DataRoundTrip | crates/scone-protocol/src/record.rs:59-139 | each of the seven kinds of record reads back, whatever follows |
| RecordCodec.DataCanonical | crates/scone-protocol/src/record.rs:112-139 | accepted record bytes are the one encoding of what was read |
| Layouts.Record | crates/scone-protocol/src/record.rs:59-110 | the bytes and the refusals of each kind of record |
| RecordSet.WriteRecord | crates/scone-protocol/src/record.rs:169-192 | validation, sorting, duplicate check and output in place give the specified bytes or error |
| RecordSet.ReadRecord | crates/scone-protocol/src/record.rs:194-223 | the decoding loop in place is the specified parse |
| RecordSet.RecordRoundTrip | crates/scone-protocol/src/record.rs:169-223 | decoding the encoding gives the record with its set in canonical order |
| RecordSet.RecordCanonical | crates/scone-protocol/src/record.rs:194-223 | any accepted byte string re-encodes to itself |
| RecordSet.CompleteRecord | crates/scone-protocol/src/codec.rs:37-44 | a whole input is accepted as a record exactly when it is the encoding of that canonically ordered record |
| RecordSet.SameBytesSameRecord | crates/scone-protocol/src/record.rs:164-167 | encodings are equal exactly when the records are equal up to the order of the set |
| Layouts.DictionaryOrder | crates/scone-protocol/src/record.rs:164-192 | the order of the set is the dictionary order of its encodings |
| Layouts.RecordSetEncodes | crates/scone-protocol/src/record.rs:169-192 | a set has an encoding exactly when its sequence is not zero and it has 1 to 256 encodable records, no two alike |
| CheckpointWire.WriteCheckpoint | crates/scone-protocol/src/checkpoint.rs:85-118 | the writer in place gives the specified bytes or error |
| CheckpointWire.ReadCheckpoint | crates/scone-protocol/src/checkpoint.rs:120-156 | the reader in place is the specified parse |
| CheckpointWire.CheckpointRoundTrip | crates/scone-protocol/src/checkpoint.rs:57-156 | a checkpoint with strictly sorted signers reads back exactly |
| CheckpointWire.CheckpointCanonical | crates/scone-protocol/src/checkpoint.rs:120-156 | accepted bytes are the one encoding of the checkpoint read |
| Layouts.Envelope | crates/scone-protocol/src/checkpoint.rs:85-118 | what is signed, the count, then keys and signatures; written exactly for at most 64 strictly rising keys |
| Layouts.SignedCheckpoint | crates/scone-core/src/checkpoint.rs:88-99 | where each field of the signed bytes stands |
| CheckpointHash.SigningBytesBind | crates/scone-core/src/checkpoint.rs:88-107 | different contents have different signed bytes |
| CheckpointHash.BuildChainingBytes | crates/scone-core/src/checkpoint.rs:123-143 | the buffer loop builds content hash, count and signatures |
| CheckpointHash.ChainingBytesBind | crates/scone-core/src/checkpoint.rs:123-143 | the chained bytes fix the content hash and every signature in its place |
| Dns.ParseQueryLoop | crates/scone-network/src/dns.rs:475-523 | the label loop in place is the specified parse |
| Dns.QueryRoundTrip | crates/scone-network/src/dns.rs:475-523 | a standard query for two to sixteen labels is accepted and read back in lower case, whatever follows it |
| Dns.AcceptedExactly | crates/scone-network/src/dns.rs:475-523 | exactly the standard queries are accepted: response bit clear, one question, 2 to 16 labels of permitted bytes, class IN |
| Dns.QueryReads | crates/scone-network/src/dns.rs:475-523 | id, flag, type and question are those bytes of the message, and the name looked up has only permitted bytes |
| Dns.FindQuestion | crates/scone-network/src/dns.rs:596-610 | the walk finds the question section of the specification |
| Dns.AcceptedHasQuestion | crates/scone-network/src/dns.rs:475-610 | every accepted query has a question section that starts with an uncompressed name |
| Dns.BuildResponse | crates/scone-network/src/dns.rs:534-592 | appending while answers fit and patching flags and count afterwards gives the specified response |
| Dns.ResponseLayout | crates/scone-network/src/dns.rs:534-592 | the id and the question byte for byte, the count of answers, and the answers in order |
| Dns.AnswerFields | crates/scone-network/src/dns.rs:560-573 | where each field of a written answer stands |
| Dns.FlagBits | crates/scone-network/src/dns.rs:574-589 | each header flag sits in its own bit; the code byte is or-ed in, and reads back from the low four bits exactly when it is below 16 |
| Dns.KeptIsLongest | crates/scone-network/src/dns.rs:560-573 | the answers kept are the longest prefix that fits the budget |
| Dns.ResponseLength | crates/scone-network/src/dns.rs:534-592 | the response never outgrows the budget unless header and question alone do |
| Dns.ResponseRoundTrip | crates/scone-network/src/dns.rs:534-760 | reading the response back gives exactly the longest fitting prefix with clamped times to live, and the truncation flag is set exactly when that is not everything |
| Dns.ResponseMatches | crates/scone-network/src/dns.rs:721-727 | the response is recognised as the reply to its query |
| Dns.OnlyRepliesMatch | crates/scone-network/src/dns.rs:721-727 | and nothing else is |
| Dns.ExtractAnswers | crates/scone-network/src/dns.rs:734-760 | the reading loop in place is the specified one, with the largest clamped time to live |
| Dns.ClampedTtls | crates/scone-network/src/dns.rs:734-760 | only times to live are clamped, to ten minutes, and the largest is reported |

## Left out

- ChainState.ChainState: keeps decoded entries in two maps; that the one ordered byte store gives the same answers is proved beside it (`Backend`), for every reachable registry, under the assumption that name and namespace ids never agree; the two classes are not joined into one object.
- ChainState.ChainState.ApplyJournaledAt: block time plus one term wraps round, as in a release build; a debug build stops there instead.
- SmtTree.Smt.Insert: keys are 40-bit strings; the packed 64-bit words of the source are related to them in `Packing`, and the dirty lists for storage are not kept.
- Blocks.NetworkOk: different entries have different leaf hashes; an idealisation, stronger than what is used (no collision among the leaves that occur), which no 32-byte hash meets and some unbounded one does. The program relies on BLAKE3 here.
- SmtBinding.RootBinding: tree hashes are unbounded numbers, so that the absence of a collision is a condition some hash meets; nothing is claimed about BLAKE3.
- Chain.Blockchain.PushBlock: transaction validation and the consensus hook for transactions are one signature predicate, and the Merkle root over transactions is an abstract function; which of its inputs collide is not studied.
- Chain.Blockchain.AcceptCheckpoint: does not promise that the checkpoint's block is ours, because the code compares only the height; what it promises instead is an if and only if, and `ForkChoice.ForeignBlockPasses` shows the failing input. Once ours, every later step keeps it except replacing the tip at the checkpoint's own height.
- Nodes.AcceptApart: rounds with different recovery counters elect different committees, which need not share a member, so nothing is claimed across rounds; nor about the next base, since the hash a checkpoint passes on covers its signatures and two certificates of one content may differ in them.
- Nodes.MeetAtTheBest: the offers are whole branches from genesis and no checkpoint is in force; a branch that starts higher can be adopted only by a node that holds its fork point.
- Agreement.Agreement: signature values are opaque and unforgeability is a hypothesis on each guarded key.
- Signer.SignerGuard.Persist: an atomic write leaves the old bytes or the new ones and reports success only with the new ones; directory syncing is not modelled.
- Dns.BuildResponse: the cache, forwarding to upstream servers and the choice of answers are not modelled.
- RecordCodec.ReadData: UTF-8 and the name rules are predicates; signed record envelopes are a record followed by two byte strings and are not modelled.
- Real hashing, signatures, proof-of-work, the ICANN list, name validation, record groups and the mempool: predicates or absent, since they would add only easy members.
- The archive state root, persistence of the tree, block production, networking, storage, RPC and key files: outside the consensus path.
- The wire form of transactions, blocks and messages: transactions and blocks are abstract values.
