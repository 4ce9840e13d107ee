# MadNet: a verified model

A Dafny model of the parts of MadNet in which a mistake is hardest to see, with proofs of what
they promise.

- **Sparse Merkle trie** (`badgerTrie/`). `Keys`, `Trie`, `TreeUpdate`, `Doubling`, `ExactUpdate`, `Batch`,
  `Reads`, `Smt`, `History`, `InMemory`, `MerkleProofs`, `Codec`, `Sync`, `BatchChecks`, `Mending`,
  `FastSync`, `Snapshot`. The trie has 256 levels, kept in batches of 31 slots. A digest is a free term
  (`Default`, `Leaf`, `Node`), which is the collision-free reading of the three kinds of hash input.
  `Trie.Canon` is the reference: the one tree that a map has. `TreeUpdate.UpdateTree` is the update as a
  function on trees, `TreeUpdate.UpdateMeaning` and `ExactUpdate.UpdateIff` its meaning on maps, and the
  class `Smt.SMT` the code that works on slots, cache and database, proved against `UpdateTree`.
- **Epoch-versioned parameters** (`dynamics/`). `RawStorages`, `Dynamics`, `Walks`, `Runs`, `Storages`.
  A doubly linked list of epoch nodes in a table, proved against `Dynamics.Replay`: the standard
  parameters with the updates of epoch at most e applied in arrival order. `Walks` follows the walk
  forward and the walk back apart, `Runs.Next` says from which epoch on an update is seen, and the
  class `Storages.Storage` is proved against it in every state that a run can reach.
- **Request-worker controller** (`peering/p2pbus.go`). `WorkerOversight`. A bound on disconnects over
  all sequences of results, by a potential, the sequence that reaches the bound, and the way back
  after any sequence.
- **Peer stores** (`peering/active.go`, `peering/inactive.go`, `peering/peermanager.go`). `PeerStores`.
  The stores as classes, and a state machine over the interleaved steps of all goroutines.
- **Quorums** (`crypto/utils.go`, `crypto/bngroup.go`). `Quorum`.

Where an unrestricted statement is not true of the code, the code is modelled as it is, with the
exact condition and an input that shows the difference:

- `maybeAddShortcutToKV` lists keys twice when a deleted shortcut has a smaller and a larger key
  beside it. `TreeUpdate.WithShortcutMerges` gives the exact condition for the merge. For a whole
  update, `ExactUpdate.UpdateIff` gives the exact condition: for each deletion that the merge takes
  back, `ExactUpdate.Rescued` on the bits of the batch keys that meet the same shortcut.
  `TreeUpdate.Mergeable` says that there is no such deletion; batches that only insert or only delete
  meet it (`History.InsertsMerge`, `History.DeletesMerge`). `History.MixedBatchFails` is a batch that is
  not rescued, `History.MergeableNotNecessary` one that is.
- `VerifyNonInclusion` does not ask for `proofKey != key`: `MerkleProofs.AbsenceSound` shows that an
  accepted proof is right exactly if it does not name the key itself, and
  `MerkleProofs.PresentKeyProvedAbsent` that every present key has one that does. An empty trie has no
  accepted proof of absence (`MerkleProofs.EmptyHasNoProof`).
- `Discard` acts only if some node was stored: `Smt.DiscardRun` states, by the results that a caller
  of `Update` saw, when the committed root is back; `Smt.DiscardAfterEmptying` is a run after which it
  is not.
- `verifyBatch` does not look at every flag byte and every slot, and panics on some batches.
  `BatchChecks.CheckIff` gives the exact condition under which a batch that passes is the one of the
  trie, `BatchChecks.FlagNotSeen` and `BatchChecks.SlotNotSeen` are batches that pass and are not,
  `BatchChecks.FlagHidesKeys` and `BatchChecks.FlagPanicsReader` are what a reader then gets, and
  `BatchChecks.VerifyBatchTests` tells a refusal from a panic. `Mending.MendIff` is the same with a
  condition that a receiver can test: it fixes the batch up to the flags of the lowest slots, and
  those do not matter to a reader (`Mending.SoundReads`).
- `syncStateNodes` closes a request before it looks at the answer and does not ask again when the
  answer is refused: `FastSync.SyncTrie` shows that, from a target with none of the trie's batches, the
  trie is complete at the end if and only if no answer was refused, and `FastSync.RefusedOnce` is an
  answer that costs the whole trie.
- `updateStorageValue` writes back a copy of the next node that it took before `addNode` changed that
  node's back link. `Runs.UpdateTracks` states the effect for every run, `Runs.UpdateAnswersIff` exactly
  when the answers are right nevertheless, `Runs.LateUpdateMissed` is a run after which one is not.

## Model

| member | source | states |
|---|---|---|
| `Keys.BitOrder` | badgerTrie/util.go:62-64 | of two keys that agree on their first d bits, the one with bit d clear is the smaller one byte by byte |
| `Keys.AgreeAll` | badgerTrie/util.go:62-64 | keys that agree on all 256 bits are equal |
| `Keys.BitSetSets` | badgerTrie/util.go:66-68 | bitSet sets its bit and no other |
| `Trie.CanonIsCanonical` | badgerTrie/smt.go:88-140 | every map has a canonical tree, which denotes that map; it is the empty one exactly for the empty map |
| `Trie.CanonicalUnique` | badgerTrie/smt.go:88-140 | two canonical trees of the same map are the same tree |
| `Trie.CanonOfMap` | badgerTrie/smt.go:88-140 | a canonical tree is the reference tree of its map |
| `TreeUpdate.SplitExact` | badgerTrie/smt.go:301-308 | on sorted keys with a common prefix, splitKeys separates exactly by the next bit, in keys and in what the two parts ask for |
| `TreeUpdate.WithShortcutMerges` | badgerTrie/smt.go:379-424 | the merge of a shortcut into a batch is sorted, free of duplicates and denotes the merged map, if and only if the batch does not delete the shortcut between a smaller and a larger key |
| `TreeUpdate.MaybeAddShortcutToKV` | badgerTrie/smt.go:379-424 | the loop computes the list that WithShortcutMerges is about, for every sorted batch |
| `TreeUpdate.JoinCanonical` | badgerTrie/smt.go:311-375 | moving a lone shortcut up, or hashing two children, keeps the tree canonical and its map |
| `TreeUpdate.UpdateMeaning` | badgerTrie/smt.go:146-285 | one batch in which the merge takes no deletion back, on the canonical tree of a map, gives the canonical tree of the updated map; keys that are deleted need not be there |
| `TreeUpdate.ShortcutMeaning` | badgerTrie/smt.go:169-204 | the same where the subtree is a shortcut that moves down |
| `TreeUpdate.UpdateChildrenMeaning` | badgerTrie/smt.go:206-285 | the same where the keys go to the left, to the right or to both sides |
| `Doubling.InsertsBehind` | badgerTrie/smt.go:206-285 | a sorted list of insertions with more insertions behind it leaves the tree of the list alone, if and only if its last two keys part at the last bit only and its last key has every bit set that is set behind it |
| `Doubling.RefillVanishes` | badgerTrie/smt.go:206-285 | a deletion, its own insertion and more insertions leave nothing in an empty subtree, if and only if the deleted key has every bit set that is set behind it |
| `Doubling.DoubledBehind` | badgerTrie/smt.go:395-421 | a sorted list with the doubled list behind it leaves the tree of the list alone, if and only if the bits of the keys rescue it |
| `ExactUpdate.ShortcutIff` | badgerTrie/smt.go:169-204 | where the subtree is a shortcut deleted between a smaller and a larger key: the tree is that of the updated map if and only if the bits of the keys rescue it |
| `ExactUpdate.JoinIff` | badgerTrie/smt.go:311-375 | two updated children give the reference tree of a map if and only if each is the reference tree of its half |
| `ExactUpdate.TreeIff` | badgerTrie/smt.go:146-285 | at every subtree: the result is the reference tree if and only if every deletion of its part that is taken back is rescued |
| `ExactUpdate.UpdateIff` | badgerTrie/smt.go:88-140 | on the tree of any map, every sorted batch that only deletes present keys yields the tree of the updated map if and only if every deletion that is taken back is rescued |
| `History.InsertsMerge` | badgerTrie/smt.go:395-421 | a batch without deletions always meets the merge condition |
| `History.DeletesMerge` | badgerTrie/smt.go:395-421 | a batch that only deletes present keys always meets it |
| `History.RunMeaning` | badgerTrie/smt.go:88-140 | after any run of batches that meet the merge condition the tree is the reference tree of the map the run describes |
| `History.RunIff` | badgerTrie/smt.go:88-140 | in any run of permitted batches, all trees on the way are the reference trees if and only if each batch rescues what it takes back |
| `History.HistoryIndependence` | badgerTrie/smt.go:88-140 | two runs that describe the same map end in the same root, whatever their order and history |
| `History.MergeableNotNecessary` | badgerTrie/smt.go:395-421 | a deletion between two insertions that misses the merge condition, is rescued and gets the root of the resulting map |
| `History.MixedBatchFails` | badgerTrie/smt.go:395-421 | one deletion between two insertions in the subtree of the deleted key: the root is not that of the resulting map |
| `Batch.BatchUnique` | badgerTrie/smt.go:428-452 | the digest determines all 31 slots of its batch |
| `Batch.ShortcutBatch` | badgerTrie/smt.go:817-834 | a shortcut batch uses slots 0, 1 and 2 only |
| `Batch.HoldsCleared` | badgerTrie/smt.go:173-181 | clearing the key and the value of a shortcut leaves nothing below it |
| `Batch.SiblingKept` | badgerTrie/smt.go:261-285 | writes below one child do not touch what the other child holds |
| `Batch.LoadChildrenFinds` | badgerTrie/smt.go:428-478 | loadChildren finds the two children of the node and knows a shortcut; it fails exactly if the batch is not there |
| `Reads.GetNodeFinds` | badgerTrie/smt_tools.go:27-47 | reading through batches answers as the tree does, and always answers when the batches are there |
| `Reads.LookupIsMapGet` | badgerTrie/smt_tools.go:27-47 | on a canonical tree that answer is the map's, for every key |
| `Smt.SMT.StoreNode` | badgerTrie/smt.go:837-848 | a changed node is cached under its digest, and the cache stays well formed |
| `Smt.SMT.LeafHash` | badgerTrie/smt.go:817-834 | an empty subtree becomes a shortcut; only slots below it change, and exactly its digest is cached at the root of a batch |
| `Smt.SMT.InteriorHash` | badgerTrie/smt.go:851-873 | the node over two children, one of them possibly empty, with both subtrees kept in their slots |
| `Smt.SMT.MoveUpShortcut` | badgerTrie/smt.go:339-375 | a shortcut beside an empty sibling moves to its parent's place, from this batch or the next, and nothing of it stays below |
| `Smt.SMT.FinishNode` | badgerTrie/smt.go:311-336 | what follows an update of the children is the join of the two trees |
| `Smt.SMT.UpdateBoth` | badgerTrie/smt.go:261-285 | both sides of a node in either order: the same results, the same slots and the same cache keys, and nothing outside the subtree changes |
| `Smt.CacheUnique` | badgerTrie/smt.go:837-848 | a cache is determined by its keys, so either order of the two sides leaves the same cache |
| `Smt.SMT.UpdateBranches` | badgerTrie/smt.go:206-285 | updateLeft, updateRight and updateParallel compute the tree of UpdateChildren, in the slots and in the cache |
| `Smt.SMT.UpdateLoaded` | badgerTrie/smt.go:168-218 | update after loading: the tree of UpdateTree, its batches present, exactly the described keys added to the cache |
| `Smt.SMT.UpdateNode` | badgerTrie/smt.go:146-218 | the same from any slot; without keys it fails and changes nothing |
| `Smt.SMT.Get` | badgerTrie/smt_tools.go:19-47 | the map's answer for every key |
| `Smt.SMT.CheckBatch` | badgerTrie/smt.go:88-122 | a batch passes exactly if sizes, distinctness and present values allow it, and each reason for a refusal is given exactly when its check is the first to fail |
| `Smt.SMT.CheckValues` | badgerTrie/smt.go:107-127 | on the trie of a map, the first pair that deletes an absent key is the missing key, the first that sets a present key to another value is the conflict, and without either the batch passes |
| `Smt.NothingOverwritten` | badgerTrie/smt.go:107-127 | a batch that passes never changes the value of a key: it removes exactly the keys it names for deletion and adds exactly the others that were not there |
| `Smt.SMT.Update` | badgerTrie/smt.go:88-140 | refused exactly for the stated reasons, on the trie of a map exactly if some pair deletes an absent key or sets a present one to another value, and an accepted batch changes no present value; the new root is that of the reference tree of the updated map if and only if every deletion that is taken back is rescued, and then empty exactly for the empty map; a rejected batch changes nothing; every batch below the root stays present and well formed |
| `Smt.SMT.Commit` | badgerTrie/smt_tools.go:51-62 | cache and database together hold what they held before, the root is on record for its height, every recorded version stays readable |
| `Smt.Database.PutAll` | badgerTrie/trie_cache.go:28-45 | the commit loop adds exactly the cached batches |
| `Smt.SMT.Discard` | badgerTrie/smt_tools.go:65-73 | the root and the cache afterwards; the object stays valid, so the root that is left can be read |
| `Smt.WritesNothingIff` | badgerTrie/smt.go:146-218 | an update of a whole trie caches no node if and only if it leaves no key |
| `Smt.UpdateAndTell` | badgerTrie/smt.go:88-140 | whether an accepted batch has stored a node shows in the root it returns; on an empty trie it always has |
| `Smt.DiscardRun` | badgerTrie/smt_tools.go:65-73 | after any run of updates on a clean object, Discard brings the committed root back if and only if some accepted batch left keys or none was accepted; otherwise the trie stays empty |
| `Smt.DiscardAfterEmptying` | badgerTrie/smt_tools.go:65-73 | deleting the only key and discarding leaves the empty root |
| `Smt.SMT.OpenAt` | badgerTrie/smt.go:50-65 | a version on record opens with its root and can be read, with no committed root to go back to; a height without one is an error |
| `Smt.RunBeside` | badgerTrie/smt.go:50-65 | any run of updates, commits and discards of one trie leaves every other trie on the database readable at its own root, and every version that is not committed anew |
| `InMemory.MemoryTrie.Update` | badgerTrie/memoryt.go:11-18 | each call answers with the root of its own batch from empty, whatever was asked before |
| `MerkleProofs.MerkleProofFinds` | badgerTrie/smt_merkle_proof.go:76-117 | the proof read from the batches is the proof read from the tree |
| `MerkleProofs.InclusionSound` | badgerTrie/smt_merkle_proof.go:120-134 | an accepted inclusion proof is true of the map |
| `MerkleProofs.AbsenceSound` | badgerTrie/smt_merkle_proof.go:138-160 | for an accepted absence proof, the key is absent if and only if the proof does not name the key itself |
| `MerkleProofs.ProofComplete` | badgerTrie/smt_merkle_proof.go:76-160 | on every non-empty trie and every key, the produced proof is accepted: as inclusion with the map's value, or as absence by an empty subtree or another leaf |
| `MerkleProofs.InclusionIff` | badgerTrie/smt_merkle_proof.go:120-134 | some path is accepted for a key and a value if and only if the map has that pair |
| `MerkleProofs.AbsenceIff` | badgerTrie/smt_merkle_proof.go:138-160 | some absence proof that does not name the key is accepted if and only if the key is absent |
| `MerkleProofs.PresentKeyProvedAbsent` | badgerTrie/smt_merkle_proof.go:138-160 | the inclusion path of a present key is accepted as an absence proof that names the key itself |
| `MerkleProofs.EmptyHasNoProof` | badgerTrie/smt_merkle_proof.go:138-160 | the empty trie accepts no absence proof |
| `MerkleProofs.VerifyNonInclusion` | badgerTrie/smt_merkle_proof.go:138-160 | the loop over the bits decides exactly as ProvesAbsence |
| `MerkleProofs.Compress` | badgerTrie/smt_merkle_proof.go:49-68 | the bitmap marks exactly the entries that are not default, the packed path holds them in order |
| `MerkleProofs.CompressedClimbs` | badgerTrie/smt_merkle_proof.go:176-191 | from any position the compressed climb computes the digest of the plain climb |
| `MerkleProofs.CompressedRefines` | badgerTrie/smt_merkle_proof.go:163-216 | compressed inclusion and absence checks decide as the plain ones, for every path, key and value |
| `MerkleProofs.InclusionSoundC` | badgerTrie/smt_merkle_proof.go:163-191 | any accepted compressed inclusion proof is true of the map, whatever its bitmap and entries |
| `MerkleProofs.AbsenceSoundC` | badgerTrie/smt_merkle_proof.go:194-216 | for any accepted compressed absence proof, the key is absent if and only if the proof does not name the key itself |
| `Codec.SerializeBatch` | badgerTrie/trie_cache.go:51-64 | the loop writes the bitmap and the packed entries of the batch |
| `Codec.ParseBatch` | badgerTrie/smt.go:481-521 | the loop reads what Parsed describes, the failures on short data included |
| `Codec.RoundTrip` | badgerTrie/trie_cache.go:51-64 | parsing the serialization of a well-formed batch gives the batch, shortcut or regular |
| `Codec.SerializedBits` | badgerTrie/trie_cache.go:51-64 | bit i - 1 of the bytes is set exactly if slot i is there, bit 31 exactly for a shortcut |
| `Codec.ParsedIff` | badgerTrie/smt.go:481-521 | any bytes parse to a batch if and only if it is well formed, their bitmap marks its kind and slots, and they go on with its packed slots; what stands behind is not looked at |
| `Codec.StoredBatchRoundTrip` | badgerTrie/smt.go:481-521 | every batch a trie stores is well formed in bytes, so it survives the codec |
| `Codec.StoredBatchesDiffer` | badgerTrie/trie_cache.go:51-64 | two batches of tries that are stored as the same bytes are the same batch, flags included, as long as no two of their words are the same bytes |
| `Codec.ZerosParse` | badgerTrie/smt.go:481-521 | four zero bytes parse, to a regular batch in which nothing is there |
| `Sync.BatchVerifies` | badgerTrie/sync.go:37-44 | every batch of a trie passes the check at its own layer |
| `Sync.VerifyBelowAccepts` | badgerTrie/smt.go:526-607 | the recursion behind it, at every slot |
| `Sync.BatchContents` | badgerTrie/smt.go:609-686 | a batch of a trie asks for exactly the batches below it and delivers exactly the leaves inside it |
| `Sync.NextRootsFind` | badgerTrie/smt.go:609-686 | the recursion for the batches below, at every slot |
| `Sync.FinalLeavesFind` | badgerTrie/smt.go:777-813 | the recursion for the leaves, at every slot |
| `BatchChecks.VerifyBelowTests` | badgerTrie/smt.go:526-607 | on any slots, the recursion accepts, refuses or panics as the first failing test in a flat list of node tests does |
| `BatchChecks.VerifyBatchTests` | badgerTrie/sync.go:37-44 | a regular batch is accepted exactly if all tests succeed, and panics exactly if the first one that fails indexes out of range |
| `BatchChecks.ShortcutTests` | badgerTrie/smt.go:540-552 | a shortcut batch panics exactly if its key or value is missing and nothing else is there |
| `BatchChecks.NothingPanics` | badgerTrie/smt.go:575-586 | the batch of four zero bytes makes the check panic |
| `BatchChecks.FittingNeverPanics` | badgerTrie/smt.go:526-607 | with fitting flags in slots 0 to 14 no index is out of range, for any digest and layer |
| `BatchChecks.CheckSound` | badgerTrie/smt.go:526-607 | a batch with fitting flags that passes is the batch of the digest, for any digest |
| `BatchChecks.CheckIff` | badgerTrie/sync.go:37-44 | on a digest of a trie, a batch is the one of the trie if and only if its flags fit and it passes |
| `BatchChecks.FlagNotSeen` | badgerTrie/smt.go:575-597 | one flag byte changed from interior to shortcut: the batch still passes and is not the one of the trie |
| `BatchChecks.SlotNotSeen` | badgerTrie/smt.go:555-597 | any digest put beside a sibling with children: the same |
| `BatchChecks.FlagHidesKeys` | badgerTrie/smt_tools.go:27-47 | with the changed flag, where the left child of that side is there, all keys on that side of the root are answered as absent, present ones among them |
| `BatchChecks.FlagPanicsReader` | badgerTrie/smt_tools.go:27-47 | where it is not, every read on that side panics |
| `BatchChecks.WellFlaggedFits` | badgerTrie/smt.go:526-607 | the flags that a trie writes pass the test of a receiver |
| `Mending.MendedVerdict` | badgerTrie/smt.go:526-607 | the check answers the same, whether a digest of the lowest slots is flagged as interior or as shortcut |
| `Mending.MendedContents` | badgerTrie/smt.go:609-813 | the batches below and the leaves are the same too |
| `Mending.MendIff` | badgerTrie/sync.go:37-44 | on a digest of a trie, a batch is the one of the trie up to those flags if and only if a receiver finds its flags fit and it passes |
| `Mending.SoundReads` | badgerTrie/smt_tools.go:27-47 | from a complete store of such batches every key is answered as the map answers it |
| `BatchChecks.LeavesPanicIff` | badgerTrie/smt.go:777-813 | collecting the leaves panics exactly if it comes across an absent node or a shortcut without key or value |
| `BatchChecks.FlagPanics` | badgerTrie/smt.go:777-813 | a changed flag that passes the check and then makes the leaves panic |
| `FastSync.StoreSnapShotNode` | badgerTrie/sync.go:22-92 | which batches are refused, panic or are stored, and with which sub-roots, layer and leaves; a panic over the leaves comes after the batch is stored; with fitting flags, what is not refused is the batch of the digest |
| `FastSync.SyncTrie` | consensus/lstate/fastsync.go:986-1037 | against any answers of a peer, for any of the open requests: as long as no batch whose flags a receiver finds unfit gets past the check, nothing panics and the sync ends after at most as many answers as the trie has nodes; if none was refused the whole trie is there, the delivered leaves are the pairs of its map, each once, and every key reads right; from a target with none of the trie's batches it is there if and only if none was refused |
| `FastSync.RefusedOnce` | consensus/lstate/fastsync.go:999-1010 | for every trie, an answer with fitting flags that is refused, after which an empty target stays without the trie |
| `FastSync.RefusalKeeps` | consensus/lstate/fastsync.go:999-1010 | a refused answer moves its subtree from the requested to the lost ones: delivered, requested and lost leaves still make up the map, and the work left is less |
| `FastSync.CountOnce` | badgerTrie/smt.go:88-140 | no two batches of a trie have the same digest |
| `FastSync.LostIsMissing` | consensus/lstate/fastsync.go:999-1010 | a lost request leaves a batch missing that no other request brings |
| `FastSync.SyncFrom` | badgerTrie/sync.go:22-92 | from a source that has the trie the sync ends with the whole trie, in any order of requests, within layers 0 to 64 |
| `FastSync.StepKeeps` | badgerTrie/sync.go:22-92 | for a request of the sync, exactly the batch of the trie passes with fitting flags, in the strict sense and up to the lowest flags, and it leads to requests of the same kind one layer down |
| `FastSync.RoundKeeps` | consensus/lstate/fastsync.go:1005-1035 | one stored batch of the trie keeps everything covered and counted, and lowers the work left |
| `FastSync.LeavesListMap` | badgerTrie/smt.go:777-813 | the leaves of a tree, in order, are sorted and list exactly its map |
| `FastSync.FinalizeSnapShotRoot` | badgerTrie/sync.go:94-105 | the synced root becomes a readable version of the target |
| `Snapshot.WalkerFinds` | badgerTrie/smt.go:1052-1106 | by their flags, the bottom slots of a batch name exactly the batches below it: 0 to walk on, 1 for a shortcut batch, 2 for neither |
| `Snapshot.AvailableIsRoots` | badgerTrie/smt.go:887-1049 | a trie is complete in a store exactly if the store has all of its batch roots |
| `Snapshot.WalkNodes` | badgerTrie/smt.go:887-1049 | the walk reports exactly the batches of the trie, in whatever order the walkers run |
| `Snapshot.SnapShot` | badgerTrie/smt_tools.go:77-90 | exactly those batches are added under the new prefix, root and commit height go on record there, and the copy is readable at the same root |
| `Snapshot.SnapShotOpens` | badgerTrie/trie_cache.go:66-98 | the copy, opened at the commit height on record, answers every key as the trie does |
| `Snapshot.SnapShotTwice` | badgerTrie/trie_cache.go:66-98 | a snapshot of the copy has the same batches and the same root, on record for the same height |
| `RawStorages.RawStorage.UpdateValue` | dynamics/rawstorage.go:77-187 | the named base value is set and all derived values fit the base values again; an update that cannot be used changes nothing |
| `Dynamics.UpdatedBase` | dynamics/rawstorage.go:77-187 | an update sets the base value of its own type and no other, for each of the 13 types |
| `Dynamics.ReplayReads` | dynamics/rawstorage.go:77-214 | for every history and epoch, each of the 13 base values is that of the last update of its type with an epoch up to it, or the literal standard value, and the four derived values follow from them |
| `Dynamics.LatestIs` | dynamics/rawstorage.go:77-187 | what the last update of a type is, by position |
| `RawStorages.RawStorage.SetMaxBytes` | dynamics/rawstorage.go:216-219 | the proposal size follows the byte limit |
| `RawStorages.RawStorage.SetMsgTimeout` | dynamics/rawstorage.go:237-240 | the server timeout follows the message timeout |
| `Dynamics.LinkInLinks` | dynamics/storage.go:441-595 | linking a new epoch into a well-formed chain gives a chain whose walks both visit the old epochs and the new one, strictly ordered, with all other parameters as they were |
| `Storages.Storage.AddNode` | dynamics/storage.go:441-518 | addNode succeeds exactly for a fresh node above the tail on an epoch that the walk back does not visit, links it in, and otherwise changes nothing |
| `Storages.Storage.AddNodeBefore` | dynamics/storage.go:470-518 | its backward loop ends and finds the place |
| `Storages.Storage.AddNodeHead` | dynamics/storage.go:521-563 | the links of the old and the new head |
| `Storages.Storage.AddNodeSplit` | dynamics/storage.go:566-595 | the links of the new node and its two neighbours |
| `Storages.Storage.SetNode` | dynamics/db.go:18-39 | a valid node is stored under its epoch, any other is refused |
| `Storages.Storage.FindNode` | dynamics/storage.go:198-268 | the backward loop ends at the last visited node that is not beyond the epoch |
| `Storages.Storage.PushForward` | dynamics/storage.go:312-342 | the forward loop ends and applies the change to the first node and to all behind it |
| `Storages.Storage.UpdateStorageValue` | dynamics/storage.go:166-343 | the resulting table, from any pair of walks that a run can reach |
| `Walks.Gap` | dynamics/storage.go:235-246 | behind a visited node the walk forward comes to the next visited one, or to one hidden node between them |
| `Walks.OnNodeWalks` | dynamics/storage.go:211-223 | an update on a visited epoch leaves both walks as they are |
| `Walks.NewHeadWalks` | dynamics/storage.go:226-234 | an update beyond the head is on both walks |
| `Walks.HiddenWalks` | dynamics/storage.go:235-326 | an update in an empty gap is on the walk forward only |
| `Walks.ReplacedWalks` | dynamics/storage.go:235-326 | a second one in the same gap is on both walks, and the hidden node on none |
| `Walks.HealedWalks` | dynamics/storage.go:235-326 | a second one on the hidden epoch puts that node on both walks |
| `Runs.UpdateTracks` | dynamics/storage.go:166-343 | every update, in every state that a run can reach: both walks, every visited value and every hidden one are as Next says |
| `Runs.TracksAnswer` | dynamics/storage.go:395-435 | at every epoch the walk back answers with the updates as they are seen, in arrival order |
| `Runs.ReplayMoved` | dynamics/storage.go:395-435 | an update that is seen from another epoch on shows between the two epochs only |
| `Runs.StaysClean` | dynamics/storage.go:166-343 | from a state in which every update is seen from its own epoch on, an update leads to such a state if and only if it does not fall between two nodes |
| `Runs.SplitMisses` | dynamics/storage.go:235-326 | if it does, exactly the epochs up to the later node do not see it |
| `Runs.UpdateAnswersIff` | dynamics/storage.go:166-343 | all answers are right after it if and only if it does not fall between two nodes or sets what is already set there |
| `Runs.SecondUpdateHeals` | dynamics/storage.go:235-326 | a second update of the missed epoch makes both seen from that epoch on |
| `Runs.OrderlyIsClean` | dynamics/storage.go:114-159 | in a run in which each epoch is 1, was updated before or lies beyond all others, every update is seen from its own epoch on |
| `Runs.LateUpdateMissed` | dynamics/storage.go:114-159 | updates for the epochs 10 and 5: the answer at epoch 5 is wrong, until that epoch is updated again |
| `Storages.Storage.LoadRawStorage` | dynamics/storage.go:395-435 | the walk back ends; what it answers, and each of its errors |
| `Storages.Storage.LoadStorage` | dynamics/storage.go:353-387 | after any run, for every epoch from 1 on, the accepted updates as they are seen; epoch 0 is an error and loads nothing |
| `Storages.Storage.StartList` | dynamics/storage.go:126-151 | the first update starts a list at epoch 1 with the standard parameters |
| `Storages.Storage.UpdateStorage` | dynamics/storage.go:114-159 | exactly the usable updates are accepted, in every state, and the state follows the trace; a refused one changes nothing |
| `Storages.AnswerAfter` | dynamics/storage.go:114-435 | after any run the answer at every epoch is that of the accepted updates as they are seen, parameter by parameter; after an orderly one each parameter has the value of the last update of its type with an epoch up to it |
| `Runs.AcceptedLatest` | dynamics/storage.go:114-159 | updates that are refused for their value do not show |
| `WorkerOversight.StepDistance` | peering/p2pbus.go:299-355 | every result keeps the counters in range and as many workers running as counted; only a deadline lowers the potential, by at most one |
| `WorkerOversight.NoEarlyDisconnect` | peering/p2pbus.go:299-355 | in every sequence of results, for any limit of workers, no disconnect comes before the 25th deadline |
| `WorkerOversight.DeadlinesInARow` | peering/p2pbus.go:299-355 | the bound is reached: 24 deadlines in a row do not disconnect, the 25th does |
| `WorkerOversight.SuccessesFrom` | peering/p2pbus.go:307-320 | from every reachable state, as many successes as are missing to twice the workers add one, up to the limit, and take one backoff back; fewer change nothing else |
| `WorkerOversight.DeadlinesFrom` | peering/p2pbus.go:322-349 | the counterpart for deadlines: one worker less, or one backoff more for the last; at the maximum each disconnects |
| `WorkerOversight.SuccessesInARow` | peering/p2pbus.go:307-320 | from the start, w(w - 1) - 2 + j successes give w workers, for every w up to the limit and every j below 2w |
| `WorkerOversight.Recovers` | peering/p2pbus.go:307-320 | r rounds of successes bring r workers more, up to the limit, and r steps of backoff less |
| `WorkerOversight.FullRecovery` | peering/p2pbus.go:299-355 | after any sequence of results, a bounded number of successes brings all workers back and ends the backoff |
| `WorkerOversight.OthersDoNotCount` | peering/p2pbus.go:299-355 | errors other than deadlines can be left out of any sequence |
| `WorkerOversight.WaitsInARow` | peering/p2pbus.go:357-359 | deadlines in a row wait 2, 4, and up to 20 seconds |
| `WorkerOversight.P2PBus.constructor` | peering/p2pbus.go:225-251 | two workers, no errors, no backoff |
| `WorkerOversight.P2PBus.Handle` | peering/p2pbus.go:299-355 | one round does what Step says unless the connection closes inside it; it waits exactly if it raises the backoff, then twice the backoff in seconds, and at most 20 |
| `WorkerOversight.P2PBus.Oversee` | peering/p2pbus.go:299-355 | the loop, closed at any point: the state and the waits of the run, and no disconnect before 25 deadlines |
| `PeerStores.ActivePeerStore.Add` | peering/active.go:52-72 | a connection is kept exactly if there is none for the peer or the old one is closed; then a watcher starts, else the connection is closed if the store may close it |
| `PeerStores.ActivePeerStore.Del` | peering/active.go:75-86 | the entry goes, from both maps |
| `PeerStores.ActivePeerStore.OnExit` | peering/active.go:33-49 | the entry goes if the pid is still the watcher's |
| `PeerStores.InactivePeerStore.Add` | peering/inactive.go:31-38 | a peer becomes inactive unless it cools down |
| `PeerStores.InactivePeerStore.Del` | peering/inactive.go:41-56 | an inactive peer starts to cool down, with a timer |
| `PeerStores.InactivePeerStore.Expire` | peering/inactive.go:55-67 | a timer ends the cooldown it was started for |
| `PeerStores.InactivePeerStore.RandomPop` | peering/inactive.go:72-92 | for every order of the iteration a peer of the store is popped and cools down; nothing exactly if the store is empty or the draw fails, and the panic is not reached |
| `PeerStores.AlwaysSound` | peering/peermanager.go:291-335 | at every moment of every interleaving with fresh pids: the maps of the active store have the same keys and every entry its watcher, no peer is inactive and cooling down, and none is active and inactive while the manager's lock is free |
| `PeerStores.WatcherRemovesItsOwn` | peering/active.go:33-49 | a watcher that exits removes the entry of its own connection, if that is still there, and no other |
| `PeerStores.ConnectionArrives` | peering/active.go:52-72 | in every interleaving, after a connection is handed over its peer is active: by it exactly if there was none or the old one was closed, with a watcher of its own, else by the old one; no other entry changes |
| `PeerStores.ActiveUntilRemoved` | peering/active.go:33-86 | a peer stops being active exactly by its deletion, which closes the connection if the store may, or by the exit of its own watcher |
| `PeerStores.OnlyConnectedAreActive` | peering/active.go:52-72 | a peer becomes active by a connection of its own, and in no other way |
| `PeerStores.PeerIsLearnt` | peering/inactive.go:31-38 | after an address is learnt its peer is inactive, and so can be dialled, exactly if it does not cool down; no other peer changes |
| `PeerStores.OnlyLearntAreInactive` | peering/inactive.go:31-38 | a peer becomes inactive by being learnt, and in no other way |
| `PeerStores.TakenCoolsDown` | peering/inactive.go:41-92 | a peer stops being inactive exactly if it is popped or connected, and then cools down, with a fresh timer of its own |
| `PeerStores.OnlyTakenCoolDown` | peering/inactive.go:41-68 | a cooldown begins in no other way, and keeps its timer |
| `PeerStores.ActiveIsNotLearnt` | peering/peermanager.go:291-335 | an address of an active peer does not reach the inactive store |
| `PeerStores.ConnectedIsNotInactive` | peering/peermanager.go:291-335 | once the section of a connection is over its peer is not inactive |
| `PeerStores.SettledIsOpen` | peering/active.go:33-72 | once the watchers of closed connections have exited, only open connections are active |
| `PeerStores.CooldownEndsOnTime` | peering/inactive.go:52-68 | a cooldown ends when its own timer expires, and in no other way |
| `Quorum.CalcThreshold` | crypto/utils.go:20-27 | 3t is at most 2n, and 2n less than 3(t + 1) |
| `Quorum.VerifyGroupShares` | crypto/bngroup.go:50-70 | accepted exactly if every share starts with 128 bytes that are a point and no two start with the same; otherwise the first position that fails, and why |
| `Quorum.QuorumsIntersect` | crypto/bngroup.go:105-121 | two groups of more than the threshold among distinct shares have more than a third of all signers in common, so an honest one if at most a third is faulty |
| `Quorum.HonestAreEnough` | crypto/utils.go:9-27 | if less than a third is faulty, the others alone exceed the threshold |

## Left out

- The hash function, signatures and aggregation: the hash is taken to be free of collisions, and whether bytes are a point of the group is a parameter.
- Database access: Badger transactions and their errors, key prefixes and mutexes; the database is a map from digest to batch and from height to root. Bytes are modelled in Codec only, and Codec.StoredBatchRoundTrip ties them to the stored batches.
- Update in place through shared slices: a stored batch is a copy of the slots at that moment, so the model does not show that the cache entry and the batch under construction are the same slice.
- Smt.SMT.UpdateBoth: the two goroutines run in either order as wholes; their instruction-level interleaving follows only from the disjoint slots stated by Batch.SiblingKept.
- FastSync.SyncTrie: the caches, timeouts and repeated downloads around the requests are not modelled, an answer that does not parse being none; nor are the pending header and leaf keys, which follow the same pattern. After a sync with mislabelled lowest flags reading is proved, later updates and walks are not.
- Snapshot.WalkNodes: the walk is a worklist in any order; channels, cancellation and the wait group are not modelled. `getUnsyncedNodes` is not used by the repository and is not modelled.
- RawStorages.RawStorage.UpdateValue: updates are already parsed, an unknown type or a text that does not parse being one case; JSON and the range of the integers are not modelled, and durations are not negative.
- WorkerOversight.P2PBus.Oversee: the time of the waits and the workers themselves are not modelled, only how many run and how long each wait is.
- PeerStores.AlwaysSound: pids are fresh and not 0, where the source draws random numbers; shutdown of the stores and the gossip maps are not modelled.
- Quorum.QuorumsIntersect: signers are counted as a set of keys; that a list of signatures has no signer twice is not checked by the source either.
- application, blockchain, consensus, localrpc, config, bridge and the other packages: delegation, network and timing around engines that are outside this model; they would add easy members only.
