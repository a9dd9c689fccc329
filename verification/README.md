# MLP index, maple tree leaves and range splitting

A Dafny 4 model of three data structures of the repository, with proofs.

**The MLP index** is a set of 64-bit keys: a path-compressed byte trie whose nodes live in a
cuckoo hash table. The first three levels are flat bitmaps. A node's child set is a sorted list
of at most eight bytes, a bitmap that borrows an empty neighbouring slot (two of its bits go into
the owner's packed word, because the slot's own bits there are its occupancy flag), or a 32-byte
bitmap of its own. `Bits`, `Keys`, `ChildMap`, `Slots`, `CuckooTable`, `Trie`, `TrieInsert`,
`FlatLevels` and `MlpSet` go from words to the set; `HashWord` and `XxHash` are the packed word
and the hashes, and `Encoding` joins them to the model. `HashValues` and `Counterexamples` are runs
that go wrong, with the hash functions of the code and a table of 2^14 slots.

**The version protocol** on top of it has one writer and many readers. `Snapshot` is what a
reader can conclude about a slot and `Reader` about a whole lookup; `Versioned`, `Locks` and
`VersionedSet` are what the writer does, `LevelVersions` is the same protocol on the flat levels, and
`Served` is what the writer's tables answer part of the way through an insertion. `StaleReads` are
lookups that pass their check and still go wrong.

**The maple tree** stores a piecewise-constant map: `MapleLeaf` and `MapleStore` are stores into
one leaf, `MapleRcu` is a lock-free lookup beside a writer that replaces leaves and entries,
`MapleRuns`, `MapleGap` and `MapleWalk` are the gap bookkeeping and the way up and down.

**Range insertion** splits a range of keys into complete subtrees and leftovers: `RangeModule`
and `RangeInsert`.

## How the pieces are modelled

- Words are natural numbers below 2^64, bytes come from division by 256; only `HashWord`, `XxHash`,
  `Encoding` and `HashValues`, where masks and shifts are the point, use bit-vectors. The LCP of two
  keys is the number of leading bytes they share, which the code gets by counting leading zeros of
  their xor.
- The slot array has six slots at either end that no hash reaches, for bitmaps only; the table is
  read through three hash functions of a prefix length and that prefix, and every theorem holds
  for any three. `Encoding.PlacesOfKey` shows that the code's are such. `rand() % 2` is a parameter.
- A slot is unused, a node, or three words of somebody's bitmap; `Encoding.WordMatches` shows that
  comparing packed words compares slots.
- What an operation does to the table is also given as functions of the slots before it
  (`AfterMove`, `AfterDisplacement`, `AfterReservation`, `AfterBelow`), so that the conditions under
  which an insertion fails or breaks the discipline speak of the table before the call alone.
- `CuckooTable.TableInv` says what a table means as a map from (prefix length, prefix) to (path
  length, minimum key, children); `Trie.TrieInv` says what such a map means as a set of keys.
- Versions are 8-bit counters (32 bits for the three flat levels), memory is sequentially
  consistent, and a history records the table after every step of the writer, another the flat levels
  with their versions. Part of both invariants is that from one moment to the next a version stays or
  is one more, or is reset to 1 where the history notes it. The discipline is: a slot whose words, or
  whose bitmap's words, differ after a step had an odd version. A reader may look in the middle of a
  step, where the slots that the step changes hold anything.
- The writer of the versioned index finds its place with a copy of the unversioned query
  (`NaiveQueryLCP`), which is what the model calls.
- The maple tree's leaf is its two arrays, with the metadata bytes inside the last slot's word.

## What the code does not do

The code decides here; each of these is stated as a theorem.

- `Insert` goes on using the position of the node it splits after reserving a slot for the lower
  part. If making room displaces that node, the debug build stops at an assertion and the release
  build damages the trie. `SplitLosesNode` is the exact condition, `SplitDisplacesItsNode` a run of
  three insertions. A reservation that fails is an assertion too; `SplitCannotReserve` and
  `LeafCannotReserve` are the exact conditions, `SplitFindsNoSlot` and `LeafFindsNoSlot` runs of three
  and two insertions. All three conditions speak of the table before the call.
- `Resolve` asserts that the first position matches in the branch where it does not; the value it
  returns there is the right one.
- The lock of the path increments both candidate positions. A node found at its second position
  has that position twice, so its version is even while it changes (`SecondPositionUnlocked`;
  `DoubledLock` is a run of three insertions).
- `Init` resets a version to 1, so the version of a slot that gets a new node, or whose node is split
  under fitting locks, ends at 2: it comes back exactly if it was 2 before (`EndsAtTwo` in
  `VersionedSet.Insert`; `CutSlotComesBack` is a run of two insertions). `CheckPassesOverNewLeaf` is a
  run of three in which a lookup passes its check over such a slot and takes a key for a member that
  was not one when the versions were collected. `VersionReturns` says exactly when a version returns.
- The slots of whole keys are not checked. A lookup can pass its check and miss a whole-key node that
  was in the table all the time: `StoredKeyMissed` is a displacement of a leaf during which a lookup of
  its key answers with the parent. `ExistIsOfOneMoment` says exactly when an answer up to length 7 is
  wrong: the node of the whole key is stored and the node found has another minimum.
- After a fingerprint collision slot 0 is compared in place of the first candidate of the lengths ruled
  out already, and its version is not checked either; an answer from there is `Stray` in `Reader`.
- `FindNeighboringEmptySlot` looks at address bits first, which never changes what it finds.
- When the first two bytes of a key are known and the third is new, the bitmap of the third level
  changes under an even version; no other word of the flat levels ever does (`VersionedSet.Insert`).
- `InsertRange` on a range of one key inserts nothing. Its comment says that a crossed middle is
  ignored, but the call is made with the crossed bounds; the model records such a call as a piece
  without keys.
- Walking up a maple tree past an implied pivot takes that pivot's 0 for the maximum
  (`ImpliedPivotLosesMax`). The tree there is well formed; that the code builds one like it is not
  shown, because the slow path that makes inner nodes is not modelled.
- A lookup in a leaf with one slot would read the next slot if its pivot were implied (`LookupOffset`).
  No such leaf arises: `mas_new_root` stores the pivot, and no other store that is modelled makes a leaf
  with one slot or touches that pivot (a clause of `StoreEntry`).
- `RelocateBitMap` writes its mask with nine digits; it still acts as the intended one.

## Model

| member | source | states |
|---|---|---|
| MlpSet.MlpSet.constructor | Code/Part1_concurrent_mlp_index/src/Origin/MlpSetUInt64.cpp:1002-1057 | the empty set satisfies the whole invariant; the table has four times the smallest power of two from the larger of 4096 and maxSetSize on, all slots empty; the flat levels have their sizes |
| MlpSet.MlpSet.Exist | Code/Part1_concurrent_mlp_index/src/Origin/MlpSetUInt64.cpp:1248-1261 | true exactly for the members of the set, in every well-formed state, fingerprint collisions included |
| MlpSet.MlpSet.LowerBound | Code/Part1_concurrent_mlp_index/src/Origin/MlpSetUInt64.cpp:1425-1433 | the least stored key at or above the argument; found is false exactly when there is none, and the result then is the largest 64-bit number |
| MlpSet.MlpSet.LowerBoundInternal | Code/Part1_concurrent_mlp_index/src/Origin/MlpSetUInt64.cpp:1263-1414 | the promise it returns denotes the node whose minimum is that least key |
| MlpSet.MlpSet.AtLcpNode | Code/Part1_concurrent_mlp_index/src/Origin/MlpSetUInt64.cpp:1295-1328 | the deepest node on the path answers, or its subtree holds nothing from the argument on |
| MlpSet.MlpSet.ParentWalk | Code/Part1_concurrent_mlp_index/src/Origin/MlpSetUInt64.cpp:1330-1362 | the walk over shorter prefixes finds the least key or proves that the first three bytes hold none |
| MlpSet.MlpSet.FlatMapping | Code/Part1_concurrent_mlp_index/src/Origin/MlpSetUInt64.cpp:1364-1414 | the three flat levels give the next used 3-byte prefix, or prove that there is none |
| MlpSet.MlpSet.Insert | Code/Part1_concurrent_mlp_index/src/Origin/MlpSetUInt64.cpp:1059-1246 | already present iff the key was in the set; inserted means the set is exactly S plus the key and the whole invariant holds; each of the three ways it can fail happens if and only if a condition on the table before the call holds |
| MlpSet.MlpSet.InsertBelow | Code/Part1_concurrent_mlp_index/src/Origin/MlpSetUInt64.cpp:1095-1222 | child or split, then the walk over the ancestors, leave the trie ready for the leaf, and the layout of the table is the one that follows from the old table |
| MlpSet.MlpSet.Attach | Code/Part1_concurrent_mlp_index/src/Origin/MlpSetUInt64.cpp:1102-1109 | path matched: the byte joins the child set and the minimum falls if the key is smaller; no other slot says anything else |
| MlpSet.MlpSet.Split | Code/Part1_concurrent_mlp_index/src/Origin/MlpSetUInt64.cpp:1110-1196 | path differs: the node is cut at the common prefix, exactly unless its slot cannot be reserved or the node itself is displaced; the layout it leaves follows from the old table |
| MlpSet.MlpSet.MoveLowerPart | Code/Part1_concurrent_mlp_index/src/Origin/MlpSetUInt64.cpp:1127-1141 | the subtree moves to the reserved slot under its longer index |
| MlpSet.MlpSet.RebuildUpperPart | Code/Part1_concurrent_mlp_index/src/Origin/MlpSetUInt64.cpp:1145-1158 | the cut node holds the two bytes and the smaller minimum |
| MlpSet.MlpSet.LowerAncestors | Code/Part1_concurrent_mlp_index/src/Origin/MlpSetUInt64.cpp:1197-1221 | minKey is lowered along all ancestors although the walk breaks early |
| MlpSet.MlpSet.InsertLeaf | Code/Part1_concurrent_mlp_index/src/Origin/MlpSetUInt64.cpp:1225-1245 | leaf and flat-level bits complete the insertion; it fails iff no slot can be freed in the table before the call |
| MlpSet.MlpSet.NextPrefixOf | Code/Part1_concurrent_mlp_index/src/Origin/MlpSetUInt64.cpp:1370-1413 | the next used 3-byte prefix above that of a key |
| MlpSet.SplitOutcome | Code/Part1_concurrent_mlp_index/src/Origin/MlpSetUInt64.cpp:1131-1138 | both failure conditions of a split are decided at the deepest node |
| MlpSet.LeafOutcome | Code/Part1_concurrent_mlp_index/src/Origin/MlpSetUInt64.cpp:1225-1234 | whether the leaf finds a slot after the child or the split is decided by the table before the insertion, at the deepest node |
| MlpSet.CutLayout | Code/Part1_concurrent_mlp_index/src/Origin/MlpSetUInt64.cpp:1131-1158 | moving the lower part and rebuilding the upper part give the layout of a split |
| Counterexamples.SplitDisplacesItsNode | Code/Part1_concurrent_mlp_index/src/Origin/MlpSetUInt64.cpp:1131-1142 | a run from the empty set, with the hash functions of the code and its smallest table: inserting two keys and then the successor of the first displaces the very node being split, and the code goes on with a stale position |
| Counterexamples.NextDisplacesA | Code/Part1_concurrent_mlp_index/src/Origin/MlpSetUInt64.cpp:888-916 | the table of the two keys meets the exact condition of that failure |
| Counterexamples.DoubledLock | Code/Part1_concurrent_mlp_index/src/Versioning/MlpSetUInt64.cpp:1406-1419 | a run from the empty set, with the hash functions of the code: the third insertion works and leaves every version even, but a slot changed while its version was even |
| Counterexamples.NextLocksTwice | Code/Part1_concurrent_mlp_index/src/Versioning/MlpSetUInt64.cpp:1406-1412 | the table of the first two keys: the third is inserted, and its locks do not fit |
| Counterexamples.LeafFindsNoSlot | Code/Part1_concurrent_mlp_index/src/Origin/MlpSetUInt64.cpp:1225-1234 | a run from the empty set, with the hash functions of the code: all positions of two keys coincide, and the second insertion ends at the assertion that its leaf finds a slot |
| Counterexamples.SplitFindsNoSlot | Code/Part1_concurrent_mlp_index/src/Origin/MlpSetUInt64.cpp:1131-1138 | a run from the empty set: the third insertion ends at the assertion that the lower part of a split finds a slot |
| Counterexamples.CutSlotComesBack | Code/Part1_concurrent_mlp_index/src/Versioning/MlpSetUInt64.cpp:1475-1496 | a run from the empty set under the version protocol: the second insertion keeps the discipline, changes what a slot shows, and leaves its version at 2, where it was |
| Counterexamples.NextSplitsA | Code/Part1_concurrent_mlp_index/src/Versioning/MlpSetUInt64.cpp:1406-1496 | the table of the first key: the second splits it, finds both slots, and its locks fit |
| Trie.DeepestDecides | Code/Part1_concurrent_mlp_index/src/Origin/MlpSetUInt64.cpp:1248-1261 | at the deepest node on the path a common prefix of 8 means membership, and only then |
| Trie.NoNodeNoKey | Code/Part1_concurrent_mlp_index/src/Origin/MlpSetUInt64.cpp:725-886 | without a node on the path no key shares three bytes with the argument |
| Trie.NextChildIsLeast | Code/Part1_concurrent_mlp_index/src/Origin/MlpSetUInt64.cpp:1300-1313 | the node of the next larger child byte has the answer as its minimum |
| Trie.DeepestChildStep | Code/Part1_concurrent_mlp_index/src/Origin/MlpSetUInt64.cpp:1300-1313 | the search among the children of a matched node decides the query |
| Trie.DeepestPathStep | Code/Part1_concurrent_mlp_index/src/Origin/MlpSetUInt64.cpp:1314-1327 | a mismatch inside a compressed path is decided by comparing minima |
| Trie.ParentStep | Code/Part1_concurrent_mlp_index/src/Origin/MlpSetUInt64.cpp:1340-1360 | moving to the next ancestor: its path ends one byte above, and its next larger child decides |
| Trie.ParentEndsAbove | Code/Part1_concurrent_mlp_index/src/Origin/MlpSetUInt64.cpp:1342-1346 | consecutive nodes on a path have no gap |
| Trie.NextPrefixIsLeast | Code/Part1_concurrent_mlp_index/src/Origin/MlpSetUInt64.cpp:1370-1409 | the node of the next 3-byte prefix has the answer as its minimum |
| Trie.NoNextPrefix | Code/Part1_concurrent_mlp_index/src/Origin/MlpSetUInt64.cpp:1410-1413 | without a next prefix no key is large enough |
| TrieInsert.InsertAtRoot | Code/Part1_concurrent_mlp_index/src/Origin/MlpSetUInt64.cpp:1065-1073 | a leaf for a new 3-byte prefix keeps the trie invariant |
| TrieInsert.InsertChild | Code/Part1_concurrent_mlp_index/src/Origin/MlpSetUInt64.cpp:1102-1109 | one more child, lowered ancestors and the leaf represent the larger set |
| TrieInsert.InsertSplit | Code/Part1_concurrent_mlp_index/src/Origin/MlpSetUInt64.cpp:1110-1158 | the cut node, its lower part, lowered ancestors and the leaf represent the larger set |
| TrieInsert.WalkMayStop | Code/Part1_concurrent_mlp_index/src/Origin/MlpSetUInt64.cpp:1204-1216 | once an ancestor is low enough all shorter ones are |
| TrieInsert.LoweredDone | Code/Part1_concurrent_mlp_index/src/Origin/MlpSetUInt64.cpp:1199-1221 | stopping there gives what lowering all of them gives |
| TrieInsert.SplitIndexIsNew | Code/Part1_concurrent_mlp_index/src/Origin/MlpSetUInt64.cpp:1131-1138 | the index of the lower part is new and off the path of the key |
| FlatLevels.SetLevelBit | Code/Part1_concurrent_mlp_index/src/Origin/MlpSetUInt64.cpp:1069-1070 | sets one bit of a level and no other |
| FlatLevels.SearchLevel | Code/Part1_concurrent_mlp_index/src/Origin/MlpSetUInt64.cpp:1371-1377 | the next used prefix within a 256-bit group, or none |
| FlatLevels.LevelGrows | Code/Part1_concurrent_mlp_index/src/Origin/MlpSetUInt64.cpp:1241-1244 | a level that gains the bit of a key represents the larger set |
| CuckooTable.CuckooHashTable.QueryLCP | Code/Part1_concurrent_mlp_index/src/Origin/MlpSetUInt64.cpp:725-886 | finds the deepest stored node on the path of the key and the byte LCP with its minimum, or 2 when there is none, whatever the fingerprints |
| CuckooTable.CuckooHashTable.SlowPath | Code/Part1_concurrent_mlp_index/src/Origin/MlpSetUInt64.cpp:809-886 | the slow path with zeroed positions never accepts a wrong slot and misses no right one |
| CuckooTable.CuckooHashTable.Lookup | Code/Part1_concurrent_mlp_index/src/Origin/MlpSetUInt64.cpp:678-702 | finds the node of a prefix iff it is stored |
| CuckooTable.CuckooHashTable.GetLookupMustExistPromise | Code/Part1_concurrent_mlp_index/src/Origin/MlpSetUInt64.cpp:704-723 | a promise for the prefix, and if the prefix is stored, resolving it gives the minimum of its node |
| CuckooTable.CuckooHashTable.Resolve | Code/Part1_concurrent_mlp_index/src/Origin/MlpSetUInt64.h:250-262 | the promise of a stored prefix yields the minimum key of its node, although the second slot is taken without a look |
| CuckooTable.PromiseResolves | Code/Part1_concurrent_mlp_index/src/Origin/MlpSetUInt64.h:250-262 | in every well-formed table, also one changed since the promise was made, the promise of a stored prefix stands for its node |
| CuckooTable.CuckooHashTable.HashTableCuckooDisplacement | Code/Part1_concurrent_mlp_index/src/Origin/MlpSetUInt64.cpp:888-936 | all or nothing: fails iff the chain does not end within the round bound and then changes no slot; else the victim slot is empty, chain nodes sit at their other position, the index-to-node map is unchanged, and the table is the one that follows from the old one |
| CuckooTable.CuckooHashTable.DisplaceNode | Code/Part1_concurrent_mlp_index/src/Origin/MlpSetUInt64.cpp:895-916 | the same for a victim that is a node |
| CuckooTable.CuckooHashTable.RelocateVictimBitMap | Code/Part1_concurrent_mlp_index/src/Origin/MlpSetUInt64.cpp:916-935 | a victim that is a bitmap moves elsewhere and every node keeps its children |
| CuckooTable.CuckooHashTable.FindOwner | Code/Part1_concurrent_mlp_index/src/Origin/MlpSetUInt64.cpp:917-929 | the search finds the one node whose bitmap lies in the slot |
| CuckooTable.ChainHasNoRepeat | Code/Part1_concurrent_mlp_index/src/Origin/MlpSetUInt64.cpp:888-936 | the slots a successful displacement visits are pairwise different |
| CuckooTable.ChainStep | Code/Part1_concurrent_mlp_index/src/Origin/MlpSetUInt64.cpp:910-916 | one more move at the front of a chain |
| CuckooTable.DisplacedIffVacated | Code/Part1_concurrent_mlp_index/src/Origin/MlpSetUInt64.cpp:1131-1138 | a node has left its slot exactly when the chain vacated it |
| CuckooTable.ChainLinksMove | Code/Part1_concurrent_mlp_index/src/Origin/MlpSetUInt64.cpp:895-915 | a node whose two positions coincide makes every chain through it endless |
| CuckooTable.CuckooHashTable.ReservePositionForInsert | Code/Part1_concurrent_mlp_index/src/Origin/MlpSetUInt64.cpp:628-663 | an existing node is reported, a free slot at one of the two positions returned, or failure iff none can be freed (NoRoomIs); which slot and which table follows from the old table |
| CuckooTable.NoRoomIs | Code/Part1_concurrent_mlp_index/src/Origin/MlpSetUInt64.cpp:655-660 | no slot can be freed, whatever the coin, exactly if both positions are taken and, along the other places from the chosen one on, the first thousand slots are all nodes and the next is not free |
| CuckooTable.RoomByLayout | Code/Part1_concurrent_mlp_index/src/Origin/MlpSetUInt64.cpp:628-663 | whether a slot can be freed, and which, depends only on which slots are free, bitmaps or nodes of which index |
| CuckooTable.CuckooHashTable.Insert | Code/Part1_concurrent_mlp_index/src/Origin/MlpSetUInt64.cpp:665-676 | the node map gains exactly the new node |
| CuckooTable.CuckooHashTable.Init | Code/Part1_concurrent_mlp_index/src/Origin/MlpSetUInt64.cpp:191-198 | a free slot becomes the node of a new index |
| CuckooTable.CuckooHashTable.SplitOff | Code/Part1_concurrent_mlp_index/src/Origin/MlpSetUInt64.cpp:1138-1140 | a node moved and re-indexed replaces its old index in the node map |
| CuckooTable.CuckooHashTable.SetMinKey | Code/Part1_concurrent_mlp_index/src/Origin/MlpSetUInt64.cpp:1204-1205 | one node's minimum changes and nothing else |
| CuckooTable.Located | Code/Part1_concurrent_mlp_index/src/Origin/MlpSetUInt64.cpp:678-702 | a prefix is stored iff one of its two positions holds it |
| CuckooTable.PrintMatches | Code/Part1_concurrent_mlp_index/src/Origin/MlpSetUInt64.h:46-54 | equal prefix implies equal fingerprint for every stored node |
| CuckooTable.CuckooHashTable.FindNeighboringEmptySlot | Code/Part1_concurrent_mlp_index/src/Origin/MlpSetUInt64.cpp:200-224 | the first free one of the slots at distance 1, -1, 2, -2, 3, -3, or 0 iff all are taken; the test of address bits makes no difference |
| Slots.FreeOffsetIsNearest | Code/Part1_concurrent_mlp_index/src/Origin/MlpSetUInt64.cpp:200-224 | that slot is the nearest free one, and of two at the same distance the one after the node |
| CuckooTable.CuckooHashTable.MoveNode | Code/Part1_concurrent_mlp_index/src/Origin/MlpSetUInt64.cpp:507-532 | the node arrives with its index, path and child set; every other node keeps its own; both old slots are empty |
| CuckooTable.CuckooHashTable.RelocateBitMap | Code/Part1_concurrent_mlp_index/src/Origin/MlpSetUInt64.cpp:534-551 | the bitmap leaves its slot; no child set changes |
| CuckooTable.CuckooHashTable.CopyToExternalBitMap | Code/Part1_concurrent_mlp_index/src/Origin/MlpSetUInt64.cpp:496-505 | the members of the external copy are the node's children, stolen bits included |
| CuckooTable.CuckooHashTable.ExtendToBitMap | Code/Part1_concurrent_mlp_index/src/Origin/MlpSetUInt64.cpp:253-275 | eight inline children become a bitmap with the same members |
| CuckooTable.CuckooHashTable.BitMapSet | Code/Part1_concurrent_mlp_index/src/Origin/MlpSetUInt64.cpp:226-245 | exactly one member joins, wherever its bit lives |
| CuckooTable.CuckooHashTable.AddChild | Code/Part1_concurrent_mlp_index/src/Origin/MlpSetUInt64.cpp:408-443 | exactly one member joins in all three forms, the 8-to-9 conversion included, and no other node changes |
| CuckooTable.CuckooHashTable.LowerBoundChild | Code/Part1_concurrent_mlp_index/src/Origin/MlpSetUInt64.cpp:294-364 | the least child at or above a byte, or -1 |
| Slots.MoveWithBitmap | Code/Part1_concurrent_mlp_index/src/Origin/MlpSetUInt64.cpp:507-532 | moving a node with its bitmap slot keeps the one-to-one ownership and all child sets |
| Slots.MoveNodeMoves | Code/Part1_concurrent_mlp_index/src/Origin/MlpSetUInt64.cpp:507-532 | the slot writes of a move, whatever the node's child map, move exactly that node; a reader of any other slot finds the same words |
| Slots.RelocateBitmap | Code/Part1_concurrent_mlp_index/src/Origin/MlpSetUInt64.cpp:534-551 | so does moving a bitmap slot alone |
| Slots.RelocationRearranges | Code/Part1_concurrent_mlp_index/src/Origin/MlpSetUInt64.cpp:534-551 | so do those of a relocation, for any slot but the owner's |
| Slots.BitmapStaysNear | Code/Part1_concurrent_mlp_index/src/Origin/MlpSetUInt64.cpp:507-551 | a bitmap that moves, with its node or alone, lies next to the node afterwards exactly if one of the six slots there was free, and is copied out otherwise |
| Slots.TakeBitmapSlot | Code/Part1_concurrent_mlp_index/src/Origin/MlpSetUInt64.cpp:253-275 | and claiming a free slot for a bitmap |
| Slots.OwnerIsNear | Code/Part1_concurrent_mlp_index/src/Origin/MlpSetUInt64.cpp:917-929 | the owner of a bitmap slot is at most three slots away |
| ChildMap.ExistChild | Code/Part1_concurrent_mlp_index/src/Origin/MlpSetUInt64.cpp:366-406 | membership, in all three forms |
| ChildMap.LowerBoundChild | Code/Part1_concurrent_mlp_index/src/Origin/MlpSetUInt64.cpp:294-364 | least member at or above a byte or -1, in all three forms |
| ChildMap.NearLowerBound | Code/Part1_concurrent_mlp_index/src/Origin/MlpSetUInt64.cpp:317-363 | the same for the bitmap split over two slots and two stolen bits |
| ChildMap.Bitmap256LowerBound | Code/Part1_concurrent_mlp_index/src/Origin/MlpSetUInt64.cpp:277-292 | the same for a 256-bit bitmap |
| ChildMap.InlineAddSpec | Code/Part1_concurrent_mlp_index/src/Origin/MlpSetUInt64.cpp:412-438 | the packed sorted insert adds exactly one byte and stays sorted |
| ChildMap.InsertLaneUnpack | Code/Part1_concurrent_mlp_index/src/Origin/MlpSetUInt64.cpp:425-427 | the shift-and-mask expression, with its special case for the last lane, inserts the byte into the list at its place |
| ChildMap.FirstGreaterSpec | Code/Part1_concurrent_mlp_index/src/Origin/MlpSetUInt64.cpp:416-423 | the compare mask finds the first larger byte |
| ChildMap.NearAddHas | Code/Part1_concurrent_mlp_index/src/Origin/MlpSetUInt64.cpp:226-245 | setting a bit in the split bitmap, stolen bits included, adds exactly that member |
| ChildMap.BitmapAddHas | Code/Part1_concurrent_mlp_index/src/Origin/MlpSetUInt64.cpp:229-231 | the same for a 32-byte bitmap |
| Bits.CtzIsLowest | Code/Part1_concurrent_mlp_index/src/Origin/MlpSetUInt64.cpp:277-292 | count of trailing zeros is the lowest set bit |
| Keys.LcpSpec | Code/Part1_concurrent_mlp_index/src/Origin/MlpSetUInt64.cpp:802-806 | the prefix comparison agrees up to the LCP and no further |
| Keys.LcpByte | Code/Part1_concurrent_mlp_index/src/Origin/MlpSetUInt64.cpp:802-806 | past the LCP the next bytes differ and order the keys |
| Keys.TopWithByte | Code/Part1_concurrent_mlp_index/src/Origin/MlpSetUInt64.cpp:1311-1312 | the key built for the next lookup has the prefix with the found byte |
| HashWord.Init | Code/Part1_concurrent_mlp_index/src/Origin/MlpSetUInt64.cpp:191-198 | the packed word holds exactly the given fields |
| HashWord.AlterIndexKeyLen | Code/Part1_concurrent_mlp_index/src/Origin/MlpSetUInt64.h:101-106 | changes the index length and no other field |
| HashWord.AlterHash18bit | Code/Part1_concurrent_mlp_index/src/Origin/MlpSetUInt64.h:110-116 | changes the fingerprint and no other field |
| HashWord.SetChildNum | Code/Part1_concurrent_mlp_index/src/Origin/MlpSetUInt64.h:154-160 | changes the child count and no other field |
| HashWord.ExtendToBitMap | Code/Part1_concurrent_mlp_index/src/Origin/MlpSetUInt64.cpp:258-259 | makes room for the stolen bits, both clear, and keeps the rest |
| HashWord.RebaseBitMap | Code/Part1_concurrent_mlp_index/src/Origin/MlpSetUInt64.cpp:515-516 | changes the bitmap offset and keeps the stolen bits |
| HashWord.RelocateMaskIsRight | Code/Part1_concurrent_mlp_index/src/Origin/MlpSetUInt64.cpp:549-550 | the nine-digit mask acts as the intended one |
| HashWord.SetStolenBit | Code/Part1_concurrent_mlp_index/src/Origin/MlpSetUInt64.cpp:236-237 | sets one stolen bit and nothing else |
| HashWord.FieldsDetermineWord | Code/Part1_concurrent_mlp_index/src/Origin/MlpSetUInt64.h:13-23 | the six fields are the whole word |
| HashWord.MaskedEqualIs | Code/Part1_concurrent_mlp_index/src/Origin/MlpSetUInt64.h:46-49 | the masked comparison means: node, index length, fingerprint |
| HashWord.MaskedLengthIs | Code/Part1_concurrent_mlp_index/src/Origin/MlpSetUInt64.h:51-54 | the masked comparison means: node, index length |
| HashWord.OnlyNodesMatch | Code/Part1_concurrent_mlp_index/src/Origin/MlpSetUInt64.h:46-49 | an unused or bitmap slot never matches |
| Encoding.PlacesOfKey | Code/Part1_concurrent_mlp_index/src/Origin/MlpSetUInt64.cpp:629-641 | positions and fingerprint of a prefix in the model are what the code computes from the whole key with its hash functions and masks, for every table of 2^k slots |
| Encoding.TruncatedKey | Code/Part1_concurrent_mlp_index/src/Origin/MlpSetUInt64.cpp:33-36 | clearing the trailing bytes of a key leaves its prefix |
| Encoding.WordMatches | Code/Part1_concurrent_mlp_index/src/Origin/MlpSetUInt64.h:46-49 | the masked comparison of packed words is the comparison of slots in the model |
| XxHash.XXHashArray | Code/Part1_concurrent_mlp_index/src/Origin/MlpSetUInt64.cpp:113-187 | all eighteen lanes equal the scalar hashes, for every 64-bit key |
| XxHash.LongLanes | Code/Part1_concurrent_mlp_index/src/Origin/MlpSetUInt64.cpp:120-161 | one register for lengths 5 to 8 equals the scalar computation |
| XxHash.Positions | Code/Part1_concurrent_mlp_index/src/Origin/MlpSetUInt64.cpp:734-762 | the arrays of positions and expected words are laid out as Insert and Lookup compute them |
| XxHash.PrefixDecides | Code/Part1_concurrent_mlp_index/src/Origin/MlpSetUInt64.cpp:33-46 | a hash depends on the prefix only |
| XxHash.Halves | Code/Part1_concurrent_mlp_index/src/Origin/MlpSetUInt64.cpp:140-151 | the lane masks are what clearing trailing bytes leaves |
| XxHash.Core | Code/Part1_concurrent_mlp_index/src/Origin/MlpSetUInt64.cpp:33-46 | the scalar function in the terms of the lanes |
| HashValues.A3Third | Code/Part1_concurrent_mlp_index/src/Origin/MlpSetUInt64.cpp:54-58 | a computed value of the third hash, for a prefix of three bytes |
| HashValues.A8Third | Code/Part1_concurrent_mlp_index/src/Origin/MlpSetUInt64.cpp:54-58 | and one for a whole key |
| HashValues.A3Print | Code/Part1_concurrent_mlp_index/src/Origin/MlpSetUInt64.cpp:668-669 | the fingerprint of that prefix in the model, its highest bit set |
| Snapshot.SnapshotOfOneMoment | Code/Part1_concurrent_mlp_index/src/Versioning/MlpSetUInt64.cpp:808-874 | every field a passing attempt reads, each at its own moment and possibly in the middle of a step, from the slots of prefix lengths 3 to 7, is what the slot held at the end of its collect loop |
| Snapshot.TornStep | Code/Part1_concurrent_mlp_index/src/Versioning/MlpSetUInt64.cpp:529-581 | in the middle of a step a slot with an even version shows what it showed before, so the discipline on steps is one on single writes |
| Snapshot.QuietSlot | Code/Part1_concurrent_mlp_index/src/Versioning/MlpSetUInt64.cpp:13-22 | under the discipline, a slot whose version keeps one even value holds the same words, bitmap included |
| Snapshot.QuietAttemptPasses | Code/Part1_concurrent_mlp_index/src/Versioning/MlpSetUInt64.cpp:808-818 | with no writer active and even versions an attempt needs no retry |
| Snapshot.ReturnNeedsWrap | Code/Part1_concurrent_mlp_index/src/Versioning/MlpSetUInt64.cpp:9-11 | in a stretch without a reset a version returns exactly after a positive multiple of 256 increments |
| Snapshot.ReturnAfterReset | Code/Part1_concurrent_mlp_index/src/Versioning/MlpSetUInt64.cpp:212-216 | after a last reset to 1 it returns exactly if 1 and the increments since then make up the recorded value, modulo 256 |
| Snapshot.ReturnOfCounted | Code/Part1_concurrent_mlp_index/src/Versioning/MlpSetUInt64.cpp:9-11 | the two together, for any history whose versions stay, count on by one or are reset where the history notes it |
| Reader.AnswerIsOfOneMoment | Code/Part1_concurrent_mlp_index/src/Versioning/MlpSetUInt64.cpp:753-957 | a whole lookup beside the writer, fingerprint collisions included: if its check passes, its answer up to prefix length 7 is the deepest node of the table at one moment and the LCP with its minimum |
| Reader.SteadyAnswerIsQuery | Code/Part1_concurrent_mlp_index/src/Versioning/MlpSetUInt64.cpp:753-957 | if the versions of the whole-key slots and of slot 0, which the code does not check, were steady too, the answer, whatever its length, is that of the plain query on that table |
| Reader.ExistIsOfOneMoment | Code/Part1_concurrent_mlp_index/src/Versioning/MlpSetUInt64.cpp:1604-1621 | a passing Exist is exact about the set at that moment, unless its answer stands on a slot that is not checked: it is wrong if and only if the node of the whole key was stored and the node found has another minimum |
| Reader.SteadyExistIsExact | Code/Part1_concurrent_mlp_index/src/Versioning/MlpSetUInt64.cpp:1604-1621 | with the unchecked slots steady it is exact without exception |
| Reader.ExistBesideInsert | Code/Part1_concurrent_mlp_index/src/Versioning/MlpSetUInt64.cpp:1604-1621 | a passing Exist beside an insertion: what stands on a checked slot is right about the set before the insertion or after it, but for a stored key whose own node is overlooked |
| Reader.SteadyExistBesideInsert | Code/Part1_concurrent_mlp_index/src/Versioning/MlpSetUInt64.cpp:1604-1621 | with the unchecked slots steady it finds every key of the set before and none outside the set after |
| Reader.ExistDecides | Code/Part1_concurrent_mlp_index/src/Versioning/MlpSetUInt64.cpp:1604-1621 | on one table, with the deepest node up to length 7 as answer: when an LCP of 8 is membership |
| Reader.AnswerOnOneTable | Code/Part1_concurrent_mlp_index/src/Versioning/MlpSetUInt64.cpp:753-957 | if all readings come from one table, the lookup answers as the plain query, collisions and slot 0 included |
| Reader.ReadsAreOfOneMoment | Code/Part1_concurrent_mlp_index/src/Versioning/MlpSetUInt64.cpp:808-957 | all fields of the lanes of prefix lengths 3 to 7 come from that one table |
| Reader.FirstMatchDecides | Code/Part1_concurrent_mlp_index/src/Versioning/MlpSetUInt64.cpp:825-838 | no longer prefix than the first match is stored |
| Reader.SlowAnswerDecides | Code/Part1_concurrent_mlp_index/src/Versioning/MlpSetUInt64.cpp:878-957 | after a fingerprint collision the slow path finds the deepest node all the same |
| Reader.LaneDecides | Code/Part1_concurrent_mlp_index/src/Versioning/MlpSetUInt64.cpp:825-838 | a lane finds its prefix exactly if it is stored |
| StaleReads.StoredKeyMissed | Code/Part1_concurrent_mlp_index/src/Versioning/MlpSetUInt64.cpp:13-22 | a displacement by the writer, with the hash functions of the code: every moment has the trie of two keys, the discipline is kept, no checked version changes, the lookup passes and misses one of the keys |
| StaleReads.MissedBetween | Code/Part1_concurrent_mlp_index/src/Versioning/MlpSetUInt64.cpp:1166-1182 | the same for any hash functions and any two keys whose positions allow it |
| StaleReads.CheckPassesOverNewLeaf | Code/Part1_concurrent_mlp_index/src/Versioning/MlpSetUInt64.cpp:212-216 | a run of three insertions from the empty set: the discipline is kept, and a lookup passes its check and takes for a member a key that the set did not have when the versions were collected |
| Served.ServedQuery | Code/Part1_concurrent_mlp_index/src/Versioning/MlpSetUInt64.cpp:1604-1621 | a table that serves two sets answers a query for every key of the smaller with yes and for every key outside the larger with no |
| Served.TrieServes | Code/Part1_concurrent_mlp_index/src/Versioning/MlpSetUInt64.cpp:1604-1621 | the trie of a set serves it |
| Served.ChildServes | Code/Part1_concurrent_mlp_index/src/Versioning/MlpSetUInt64.cpp:1436-1443 | so does every table between a new child, the lowered minima and the leaf, for the set before and the set after |
| Served.ReindexedServes | Code/Part1_concurrent_mlp_index/src/Versioning/MlpSetUInt64.cpp:1475-1479 | and the table in which the lower part of a split has moved and the upper part is gone |
| Served.SplitServes | Code/Part1_concurrent_mlp_index/src/Versioning/MlpSetUInt64.cpp:1482-1496 | and every table between the cut, the lowered minima and the leaf |
| Versioned.VersionedTable.HashTableCuckooDisplacement | Code/Part1_concurrent_mlp_index/src/Versioning/MlpSetUInt64.cpp:1140-1211 | the displacement of the plain table, with every version's parity kept and every version counted on by a known amount; it keeps the discipline iff every slot that receives a node had an even version, and then no odd version changes; every moment has the same nodes, and no version off the chain is touched |
| Versioned.MovedVersionsDiffer | Code/Part1_concurrent_mlp_index/src/Versioning/MlpSetUInt64.cpp:1166-1207 | after a displacement every slot that received a node, and every slot that gave one away and had an even version, has another version than before |
| Versioned.DestsEvenIs | Code/Part1_concurrent_mlp_index/src/Versioning/MlpSetUInt64.cpp:1140-1211 | the discipline's condition along the chain: as long as the places before are nodes, the next place has an even version |
| Versioned.VersionedTable.MoveUnderVersions | Code/Part1_concurrent_mlp_index/src/Versioning/MlpSetUInt64.cpp:1166-1182 | one move, with the same guarantee; the receiving slot's version is two more, that of the other slot two more if it was even; every moment has the slots before or after it |
| Versioned.VersionedTable.RelocateVictimBitMap | Code/Part1_concurrent_mlp_index/src/Versioning/MlpSetUInt64.cpp:1184-1209 | a bitmap moves with its owner's version odd, whatever it was before; that version is two more if it was even, and no other changes: discipline and parities kept |
| Versioned.VersionedTable.RelocateContents | Code/Part1_concurrent_mlp_index/src/Versioning/MlpSetUInt64.cpp:561-581 | moving the bitmap shows to readers of its owner: disciplined iff the owner's version is odd |
| Versioned.VersionedTable.ReservePositionForInsert | Code/Part1_concurrent_mlp_index/src/Versioning/MlpSetUInt64.cpp:656-691 | as in the plain table; disciplined iff the slots that receive a node had even versions; the versions are counted on as by the displacement, or not at all |
| Versioned.EvenStartIsDisciplined | Code/Part1_concurrent_mlp_index/src/Versioning/MlpSetUInt64.cpp:1140-1211 | from all-even versions no displacement chain moves into a slot whose version is odd, so every displacement keeps the discipline |
| Versioned.RoomEvenBy | Code/Part1_concurrent_mlp_index/src/Versioning/MlpSetUInt64.cpp:1166-1182 | that condition looks at the layout and the parities only |
| Versioned.VersionedTable.VersionReturns | Code/Part1_concurrent_mlp_index/src/Versioning/MlpSetUInt64.cpp:212-216 | in every history the writer can leave: a version returns between two moments exactly after a positive multiple of 256 increments, or, if Init reset it in between, exactly if 1 and the increments since the last reset make up the recorded value |
| VersionedSet.VersionedSet.constructor | Code/Part1_concurrent_mlp_index/src/Versioning/MlpSetUInt64.cpp:1279-1335 | starts empty with every version even, and histories of one moment that show the empty set |
| VersionedSet.VersionedSet.Insert | Code/Part1_concurrent_mlp_index/src/Versioning/MlpSetUInt64.cpp:1337-1602 | set semantics and failure conditions of the plain insertion; every version of slots and levels even again afterwards, repeated lock positions, resets and displacement included; the discipline is kept iff the locks fit, a condition on the table before the call that covers displacement too; at every moment queries find the set before or the set after; only the slot of the new leaf and that of a node that is cut are reset, and they end (the latter under fitting locks) at version 2 and so return exactly if they were at 2; the words of the flat levels change under odd versions only, but for the third level iff two bytes are known and three new; the three level versions are counted up twice if the first two bytes are new and stay otherwise |
| VersionedSet.VersionedSet.Prepare | Code/Part1_concurrent_mlp_index/src/Versioning/MlpSetUInt64.cpp:1374-1562 | everything before the leaf; it and the leaf's displacement keep the discipline iff the locks fit the old table |
| VersionedSet.VersionedSet.PrepareBelow | Code/Part1_concurrent_mlp_index/src/Versioning/MlpSetUInt64.cpp:1404-1561 | the same where a node lies on the path; the slot of a node that was cut is left at version 1 |
| VersionedSet.VersionedSet.Commit | Code/Part1_concurrent_mlp_index/src/Versioning/MlpSetUInt64.cpp:1564-1600 | the leaf and the unlocking, after what came before: all versions even, the sets of before and after at every moment, which slots end at version 2 or were reset, when the flat levels change |
| VersionedSet.VersionedSet.InsertBelow | Code/Part1_concurrent_mlp_index/src/Versioning/MlpSetUInt64.cpp:1404-1561 | lock, make room, change the deepest node, walk the ancestors: disciplined iff the locks fit the old table; the parities and the layout it leaves follow from it |
| VersionedSet.VersionedSet.LockPath | Code/Part1_concurrent_mlp_index/src/Versioning/MlpSetUInt64.cpp:1406-1412 | every locked slot is incremented once per occurrence |
| VersionedSet.VersionedSet.LockTopLevels | Code/Part1_concurrent_mlp_index/src/Versioning/MlpSetUInt64.cpp:1362-1364 | all three level versions are one more, and no word of the levels changes |
| VersionedSet.VersionedSet.UnlockPath | Code/Part1_concurrent_mlp_index/src/Versioning/MlpSetUInt64.cpp:1413-1419 | every locked slot is even afterwards, however often it occurs; odd versions are counted on once, even ones not at all |
| VersionedSet.VersionedSet.Unlock | Code/Part1_concurrent_mlp_index/src/Versioning/MlpSetUInt64.cpp:1592-1598 | no version stays odd; an odd version is counted on once, whatever the number of locks, and an even one not at all |
| VersionedSet.VersionedSet.SplitUnderVersions | Code/Part1_concurrent_mlp_index/src/Versioning/MlpSetUInt64.cpp:1475-1496 | the split keeps the discipline iff the cut slot was odd and the reserved one even; only the cut slot is reset; queries find the set before or after at each of its moments |
| VersionedSet.VersionedSet.LowerAncestors | Code/Part1_concurrent_mlp_index/src/Versioning/MlpSetUInt64.cpp:1536-1560 | the walk keeps the discipline iff each lowered ancestor's slot is odd |
| VersionedSet.VersionedSet.InsertLeaf | Code/Part1_concurrent_mlp_index/src/Versioning/MlpSetUInt64.cpp:1564-1583 | leaf and level bits; fails iff no slot can be freed; disciplined iff the slots displaced nodes go to had even versions, and then no odd version but that of the leaf's slot changes; the recorded history of the flat levels has a word changing under an even version exactly if the first two bytes were known and the third new |
| VersionedSet.VersionedSet.MarkPair | Code/Part1_concurrent_mlp_index/src/Versioning/MlpSetUInt64.cpp:1377-1382 | all three level versions are counted up before either bit is set; at each recorded moment the third level's bits are the three-byte prefixes with a node |
| VersionedSet.VersionedSet.MarkTriple | Code/Part1_concurrent_mlp_index/src/Versioning/MlpSetUInt64.cpp:1577-1583 | the bit of three bytes joins after its node is in the table, under an odd version iff the levels are locked |
| LevelVersions.QuietLevel | Code/Part1_concurrent_mlp_index/src/Versioning/MlpSetUInt64.cpp:1361-1372 | a reader that finds an even level version before and after has read the words of one moment, unless the writer counted all 32 bits in between |
| LevelVersions.LevelHasNodes | Code/Part1_concurrent_mlp_index/src/Versioning/MlpSetUInt64.cpp:1577-1583 | between insertions the third level's bits are exactly the three-byte prefixes with a node |
| LevelVersions.LeafBits | Code/Part1_concurrent_mlp_index/src/Versioning/MlpSetUInt64.cpp:1577-1583 | before the leaf too, and after it but for the bit still to be set |
| VersionedSet.VersionedSet.UnlockTopLevels | Code/Part1_concurrent_mlp_index/src/Versioning/MlpSetUInt64.cpp:1370-1372 | all three level versions are even; locked ones are counted up once, even ones not at all |
| Locks.DistinctLocksFit | Code/Part1_concurrent_mlp_index/src/Versioning/MlpSetUInt64.cpp:1406-1412 | pairwise different lock positions that leave out the reserved slot fit when nothing is displaced |
| Locks.SecondPositionUnlocked | Code/Part1_concurrent_mlp_index/src/Versioning/MlpSetUInt64.cpp:1406-1412 | a node found at its second position is locked twice, that is not at all |
| Locks.ProperlyLockedAt | Code/Part1_concurrent_mlp_index/src/Versioning/MlpSetUInt64.cpp:1406-1412 | whether the locks fit is decided at the deepest node |
| Locks.PathIsReady | Code/Part1_concurrent_mlp_index/src/Versioning/MlpSetUInt64.cpp:1404-1583 | what the steps before the leaf leave decides, by the old table alone, whether the leaf finds a slot and whether the whole insertion keeps the discipline |
| Locks.SplitIsDone | Code/Part1_concurrent_mlp_index/src/Versioning/MlpSetUInt64.cpp:1440-1496 | a split with its reservation: what it keeps and changes, displacement included |
| Locks.LocksAre | Code/Part1_concurrent_mlp_index/src/Versioning/MlpSetUInt64.cpp:1406-1412 | the positions that are locked, in terms of the hashes |
| Locks.NoneLowered | Code/Part1_concurrent_mlp_index/src/Versioning/MlpSetUInt64.cpp:1538-1559 | below an ancestor that is low enough nothing is lowered |
| RangeModule.GetSplitByteIndex | Code/Part2_range_tree/src/MlpRangeSupport/RangeModule.cpp:46-60 | the number of leading bytes the two keys share |
| RangeModule.GetPrefix | Code/Part2_range_tree/src/MlpRangeSupport/RangeModule.cpp:71-80 | the leading bytes as a number |
| RangeModule.ConvertToPerfectLowerBound | Code/Part2_range_tree/src/MlpRangeSupport/RangeModule.cpp:117-150 | the next subtree edge at or above the key; changed iff the key is not one |
| RangeModule.ConvertToPerfectUpperBound | Code/Part2_range_tree/src/MlpRangeSupport/RangeModule.cpp:172-210 | the last subtree end at or below the key; changed iff the key is not one |
| RangeModule.HandleRange | Code/Part2_range_tree/src/MlpRangeSupport/RangeModule.cpp:319-339 | the largest run of complete subtrees inside the range and the leftovers on either side |
| RangeModule.MiddleVanishes | Code/Part2_range_tree/src/MlpRangeSupport/RangeModule.cpp:319-339 | the middle is empty, crossed by exactly one, iff both bounds are ragged and in neighbouring subtrees |
| RangeModule.MiddleIsRunOfSubtrees | Code/Part2_range_tree/src/MlpRangeSupport/RangeModule.cpp:268-286 | a middle that is not empty is a run of complete subtrees below one prefix |
| RangeInsert.RangeInserter.InsertRange | Code/Part2_range_tree/src/MlpRangeSupport/MlpSetUInt64.cpp:1638-1677 | for low < high every key of the range is handed on exactly once and no other; a one-key range hands on nothing; at most 13 calls and 512 single keys |
| RangeInsert.RangeInserter.InsertLeftover | Code/Part2_range_tree/src/MlpRangeSupport/MlpSetUInt64.cpp:1662-1676 | a leftover is tiled exactly, by splitting or key by key |
| RangeInsert.RangeInserter.InsertKeys | Code/Part2_range_tree/src/MlpRangeSupport/MlpSetUInt64.cpp:1667-1668 | the key loop inserts each key once and does not wrap |
| RangeInsert.LeftLeftover | Code/Part2_range_tree/src/MlpRangeSupport/MlpSetUInt64.cpp:1663-1669 | the left leftover splits strictly later and is ragged on one side only |
| RangeInsert.RightLeftover | Code/Part2_range_tree/src/MlpRangeSupport/MlpSetUInt64.cpp:1670-1676 | so is the right one, and it does not end at the largest key |
| RangeInsert.Assembled | Code/Part2_range_tree/src/MlpRangeSupport/MlpSetUInt64.cpp:1654-1677 | middle and leftovers tile the range |
| MapleLeaf.SplicedValue | Code/Part2_range_tree/src/maple_tree_rcu_support/maple_tree.c:4086-4203 | the spliced leaf maps the interval to the entry and everything else as before, pivots still increasing |
| MapleLeaf.StoreMeaning | Code/Part2_range_tree/src/maple_tree_rcu_support/maple_tree.c:4359-4400 | any leaf that is the splice slot by slot has that meaning |
| MapleLeaf.SplicedNulls | Code/Part2_range_tree/src/maple_tree_rcu_support/maple_tree.c:4272-4304 | two neighbouring slots are never both NULL afterwards |
| MapleLeaf.SplicedEnd | Code/Part2_range_tree/src/maple_tree_rcu_support/maple_tree.c:3739-3753 | a leaf ends with NULL only if it is the rightmost |
| MapleStore.DataEndIsExact | Code/Part2_range_tree/src/maple_tree_rcu_support/maple_tree.c:1442-1463 | the data end is found exactly, from the metadata or the last pivot |
| MapleStore.LookupOffset | Code/Part2_range_tree/src/maple_tree_rcu_support/maple_tree.c:3907-3918 | a lookup reads the slot of its index iff the leaf has two slots or its pivot is stored |
| MapleStore.LeafNode.SetMeta | Code/Part2_range_tree/src/maple_tree_rcu_support/maple_tree.c:894-901 | metadata written over the last slot reads back |
| MapleStore.WriteState.StoreEntry | Code/Part2_range_tree/src/maple_tree_rcu_support/maple_tree.c:4409-4438 | a store that does not take a slow path is interval overwrite; order of pivots, exact data end, NULL rules kept; the state ends on the slot of the stored interval; exactly when it takes no slow path; only a leaf that had a single slot is left with one, and with its pivot as it was |
| MapleStore.CompletesByCount | Code/Part2_range_tree/src/maple_tree_rcu_support/maple_tree.c:4126-4133 | in numbers of slots: a store that is no whole slot, append or moved boundary completes exactly if it leaves 16 slots at most and, below the root, 8 at least, and the leaf passes the size test before |
| MapleStore.StoreOffset | Code/Part2_range_tree/src/maple_tree_rcu_support/maple_tree.c:4157-4168 | the slot where the splice puts the new interval is the one its first index is found in |
| MapleStore.WriteState.Modify | Code/Part2_range_tree/src/maple_tree_rcu_support/maple_tree.c:4359-4400 | every form the store takes is the same splice, and ends on its slot; and exactly when one of them applies |
| MapleStore.WriteState.DirectReplace | Code/Part2_range_tree/src/maple_tree_rcu_support/maple_tree.c:4365-4370 | a whole slot replaced; the offset stays on it |
| MapleStore.WriteState.Append | Code/Part2_range_tree/src/maple_tree_rcu_support/maple_tree.c:4306-4338 | an interval at either end of the last slot, iff it is at exactly one; the offset ends on it |
| MapleStore.WriteState.SlotStore | Code/Part2_range_tree/src/maple_tree_rcu_support/maple_tree.c:4211-4258 | one boundary between two slots moved, iff the interval takes all of one of two neighbouring slots and part of the other; the offset ends on it |
| MapleStore.WriteState.NodeStore | Code/Part2_range_tree/src/maple_tree_rcu_support/maple_tree.c:4086-4203 | a copy of the leaf with the interval in place, iff the copy is neither too full nor too empty; the offset ends on it |
| MapleStore.WriteState.CopyOf | Code/Part2_range_tree/src/maple_tree_rcu_support/maple_tree.c:4144-4192 | the copy encodes the splice, the word read past the pivots of a full node included |
| MapleStore.WriteState.ExtendNull | Code/Part2_range_tree/src/maple_tree_rcu_support/maple_tree.c:4272-4304 | a stored NULL takes in the NULL slots it touches, which changes no value, and touches none afterwards |
| MapleStore.WriteState.NodeWalk | Code/Part2_range_tree/src/maple_tree_rcu_support/maple_tree.c:2307-2330 | the slot of the index and its bounds |
| MapleStore.WriteState.EndPiv | Code/Part2_range_tree/src/maple_tree_rcu_support/maple_tree.c:4260-4270 | the slot of the last index and its end |
| MapleRcu.LookupIsLinearizable | Code/Part2_range_tree/src/maple_tree_rcu_support/maple_tree.c:6215-6243 | in every interleaving with leaves replaced by copies and entries replaced in place, a lookup returns the entry the map had at some moment of the call |
| MapleRcu.LookupTakes | Code/Part2_range_tree/src/maple_tree_rcu_support/maple_tree.c:3889-3928 | while the writer pauses and the leaf on the path is not dead, a lookup is done after exactly three steps a level and one more, with the entry the map has |
| MapleRcu.LookupGetsThere | Code/Part2_range_tree/src/maple_tree_rcu_support/maple_tree.c:3889-3928 | and from every such state it can take all its steps |
| MapleRcu.DeadLeafRetries | Code/Part2_range_tree/src/maple_tree_rcu_support/maple_tree.c:6215-6235 | with a dead leaf on the path it is back at its start after 3 * level + 2 steps, and never done until the writer goes on |
| MapleRcu.ReaderStepIsUnique | Code/Part2_range_tree/src/maple_tree_rcu_support/maple_tree.c:3889-3928 | in every reachable state a lookup that is not done has exactly one next step |
| MapleRcu.OnlyDeadNodesRetry | Code/Part2_range_tree/src/maple_tree_rcu_support/maple_tree.c:3922-3928 | it starts over only from a node that is dead |
| MapleRcu.WriterReplaces | Code/Part2_range_tree/src/maple_tree_rcu_support/maple_tree.c:4193-4196 | the writer can replace any leaf in three steps, after which the copy is in its place and no other node has died |
| MapleRcu.ReaderKeepsInv | Code/Part2_range_tree/src/maple_tree_rcu_support/maple_tree.c:3889-3928 | a reader's node is on the path of its index as long as it is not dead; an entry read from a leaf that is not dead is current when it is read |
| MapleRcu.ReadWasCurrent | Code/Part2_range_tree/src/maple_tree_rcu_support/maple_tree.c:3915-3920 | the entry a reader holds for its last test was current when it was read, unless its leaf has died since |
| MapleRcu.WriterKeepsInv | Code/Part2_range_tree/src/maple_tree_rcu_support/maple_tree.c:4193-4196 | marking, publishing, marking again and replacing an entry keep that |
| MapleRcu.LinkKeepsPaths | Code/Part2_range_tree/src/maple_tree_rcu_support/maple_tree.c:1751-1784 | publishing a copy changes a path only where it led to the replaced leaf |
| MapleRcu.KillKeepsPaths | Code/Part2_range_tree/src/maple_tree_rcu_support/maple_tree.c:298-302 | marking changes no path |
| MapleRcu.PutKeepsPaths | Code/Part2_range_tree/src/maple_tree_rcu_support/maple_tree.c:4365-4370 | nor does replacing an entry of a leaf |
| MapleGap.LeafMaxGap | Code/Part2_range_tree/src/maple_tree_rcu_support/maple_tree.c:1506-1574 | the longest run of NULL indices in the leaf |
| MapleGap.RunInSlot | Code/Part2_range_tree/src/maple_tree_rcu_support/maple_tree.c:1560-1572 | a run of NULL indices lies within one slot |
| MapleGap.LargestSlot | Code/Part2_range_tree/src/maple_tree_rcu_support/maple_tree.c:1506-1574 | so the largest NULL slot is the longest run |
| MapleGap.MaxGap | Code/Part2_range_tree/src/maple_tree_rcu_support/maple_tree.c:1588-1604 | the largest entry and where it is |
| MapleGap.EntryChanged | Code/Part2_range_tree/src/maple_tree_rcu_support/maple_tree.c:1661-1681 | when a changed entry leaves the largest as it was |
| MapleGap.GapPath.ParentGap | Code/Part2_range_tree/src/maple_tree_rcu_support/maple_tree.c:1644-1693 | if every entry off the path is its child's longest run of NULL indices and the entries on it agree, then with the leaf's new run every entry of every node up to the root is its child's longest run, although the walk stops early; no entry off the path changes |
| MapleGap.GapPath.UpdateGap | Code/Part2_range_tree/src/maple_tree_rcu_support/maple_tree.c:1699-1719 | if every entry of every node up to the root was its child's longest run of NULL indices before the leaf changed, every entry is afterwards, and the metadata point at a largest one |
| MapleGap.GapPath.LargestEntry | Code/Part2_range_tree/src/maple_tree_rcu_support/maple_tree.c:1588-1630 | with true entries, the entry the metadata points at is the longest run below the node |
| MapleGap.GapPath.TrueIsExact | Code/Part2_range_tree/src/maple_tree_rcu_support/maple_tree.c:1644-1693 | true entries agree on the way up |
| MapleGap.GapPath.ExactIsTrue | Code/Part2_range_tree/src/maple_tree_rcu_support/maple_tree.c:1644-1693 | entries that agree on the way up are true, if those off the path and the leaf's are |
| MapleRuns.LargestOfChildren | Code/Part2_range_tree/src/maple_tree_rcu_support/maple_tree.c:1588-1604 | the longest run of NULL indices below a node is the longest of its children's |
| MapleRuns.RunInChild | Code/Part2_range_tree/src/maple_tree_rcu_support/maple_tree.c:1537-1547 | a run of NULL indices stays within one child |
| MapleRuns.EndIsNotNull | Code/Part2_range_tree/src/maple_tree_rcu_support/maple_tree.c:1537-1547 | because only the largest index of all may end a subtree with NULL |
| MapleWalk.MaState.Descend | Code/Part2_range_tree/src/maple_tree_rcu_support/maple_tree.c:1046-1062 | the child and its bounds; the maximum is right iff its pivot is stored |
| MapleWalk.MaState.Ascend | Code/Part2_range_tree/src/maple_tree_rcu_support/maple_tree.c:1091-1169 | by parent pointer and parent slot: the parent, the slot and the parent's minimum; its maximum iff the bounding pivot is stored or none is needed |
| MapleWalk.MaState.DownAndUp | Code/Part2_range_tree/src/maple_tree_rcu_support/maple_tree.c:1046-1169 | in a tree whose child slots and parent pointers match, with stored pivots, up undoes down |
| MapleWalk.ImpliedPivotLosesMax | Code/Part2_range_tree/src/maple_tree_rcu_support/maple_tree.c:1135-1156 | a tree with an implied pivot and a walk up in it that does not |

## Left out

- `InsertPerfectRange` and the range-aware queries of the range index: they clear slots by zeroing
  the packed word and set level bits for part of a subtree, so there is no contract to prove. The
  model records which pieces they are called with.
- The variant behind one global lock and the maple tree without RCU: the same algorithms.
- Spanning stores, splits and rebalancing of the maple tree (its slow path), bulk mode, destroy walks.
- Stores of the maple tree that extend the last slot or move a boundary in place, as concurrent readers
  see them: several writes, modelled sequentially only.
- Inner nodes of the maple tree that die: in the lookup model only leaves are replaced.
- Dead nodes met while walking up or down: the walks are modelled on a tree that does not change.
- The gap bookkeeping of one leaf's path is modelled; the nodes off the path are trees whose runs of
  NULL indices are known, and the gap arrays inside them, which it does not touch, are left out.
- MapleGap.LeafMaxGap: for a leaf with at least two slots; with one slot the code takes the data end
  0 minus 1 as an unsigned byte.
- External bitmaps are values owned by their node: allocation, aliasing and freeing are not modelled.
- SlowPath: the six rounds that the source writes out are a loop.
- Snapshot.SnapshotOfOneMoment: assumes that no collected version leaves its value and returns to it,
  because the code does not rule that out; VersionReturns says when it happens in the writer's histories.
- Reader.AnswerIsOfOneMoment: assumes the same, and speaks of answers up to prefix length 7 that do not
  stand on slot 0; StoredKeyMissed and CheckPassesOverNewLeaf say why not of more.
- `LowerBound` beside a writer; the retries of a lookup, whose last attempt alone is modelled.
- Hardware memory ordering, prefetching, vector instructions as such, mmap, RCU grace periods,
  statistics, debug dumps, benchmarks and plotting.
- Helper functions of the range module that nothing calls.
