# A verified model of sdbm_tree

sdbm_tree keeps a key/value store inside one flat byte resource: a header of 44 bytes, an intrusive list of
free chunks, a binary search tree of key blocks, and a chain of chunks for every value, all linked by 32-bit
offsets. This project models that store in Dafny, from the bytes up to transactions, and proves that it does
what it is for: nothing overlaps, nothing leaks, the order of the keys survives every operation, the bytes
read back are the bytes stored, and a client cannot tell a store without duplicate keys from a finite map.

Run `dafny verify dfyconfig.toml` to check everything.

## How it is built

The database handle is the class `Store.Td`. Its real fields are the header in memory, the header as stored,
the resource as a sequence of bytes, the depth of the deepest search, and how often the extend callback was
asked. Ghost fields say what the bytes mean: a map from offsets to blocks (`heap`), the free list as a sequence of offsets, the chain of every value,
and the tree as a datatype with offsets at its nodes. Methods follow the C functions step by step; ghost
state never decides what they do. Three layers of invariant tie the two together:

- `Store.IsSound`: the bytes encode the blocks, the blocks tile the resource exactly from byte 44 to
  `header.size`, and the links from `off_e` run once through exactly the free chunks.
- `Database.Consistent`: the links from `top` spell out the tree and reach every key block once, the keys
  are in order, every value chunk is on the chain of exactly one key, checksums are right where they are kept,
  and the counters count.
- `Database.Valid`: both, with the stored header equal to the one in memory. Every operation that succeeds
  keeps it; gets, deletes and cursors keep it when they fail as well.

`Database.ContentsOf` is what a store means: its entries in order. `Maps.MapOf` is the finite map of a store
without duplicates. The main results, from the bottom up:

1. **Allocator.** `Allocator.ClaimOnce` and `Claim` give the exact choice, the exact new free list, the bounds on
   what is granted, and when there is none; `Accounts` adds up every byte of the resource.
2. **Values.** `Values.StoreValue` builds the chain back to front out of any fragments and ends on every free
   list; `Values.ReadValue` is its inverse up to the size of the buffer (`Values.StoreAndRead`).
3. **Tree.** Search ends on the first match or next to where it would be; insertion, deletion with grafting,
   rotation and the rebalancing pass keep the in-order sequence; a place in that sequence determines the whole
   cursor stack. The shape of the tree after every put, delete and pop is exact as well, with the condition for a
   pass (`Rebalance.SettledMeans`).
4. **Operations.** `Runs.Run` is the whole life of a store: along any sequence of operations, with duplicate
   keys or without, the entries change as they should, and without duplicates every answer is that of a map. A
   run of up to 128 operations on a resource with room for all it puts goes through. `Runs.Drain` and
   `Cursors.Enumerate` hand out all entries in order, once each. `Clients` shows what follows for small programs.
5. **Transactions.** `Overlay.Tdx.Commit` makes the original what the transaction showed, and
   `Overlay.AskCommitAsk` states the agreement of the two lookups.

## Where the code and its documentation differ

The model follows the code.

- `tdx_init` opens the store of changes without `TDFLG_ALLOCTDT` (tdx_init.c:34), so that store has no callback
  that allocates buffers (td_init_fd.c:133). `tdx_commit` depends on that callback (tdx_commit.c:30): as the two
  stand, the commit of a transaction with any change answers `TDERR_STRUCT` and leaves the original alone.
  `Overlay.Tdx.Commit` proves this and proves the commit right for changes that can be read.
- `tdx_get` is said to copy what it finds into the changes (tdx_get.c:13-18); it does not.
- `tdx_get` judges a change by the last byte in the caller's buffer. `Overlay.Tdx.Get` says exactly when that is
  right: if value and tag fit, or by chance for a tombstone. `Overlay.TombstoneMisread` gives a deleted key that
  comes back.
- `td_store_value` copies from a partly used segment at the wrong offset (td_store_value.c:114). A value of several
  segments comes out right for all sizes of chunks if and only if in every segment that has bytes before it all
  bytes are the same (`Vectors.CopyableExactly`), which covers single values and those of transactions. For
  every other value `Vectors.TellingWrong` names sizes that break it, as in `Vectors.HalfUsedBreaks`.
- `td_get` is said to allocate the key for a call with `TDFLG_ALLOCKEY` (td_get.c:70-74). It reads the key without
  the flags of the call (td_get.c:31), so it does only if the store itself was made with that flag or
  `TDFLG_ALLOCTDT`; otherwise the key comes back empty (`Operations.Get`).
- With `TDFLG_PARTIAL` alone `td_get` is said to answer not-found if nothing matches in part (td_get.c:56-58); it
  hands out a neighbour, as it does without flags (`Operations.Get`).
- `tdc_mov` is said to go at or just before the key and to renew a stale cursor (tdc_mov.c:45-48). It may end just
  behind where the key would be (`Operations.NearMiss`), and a stale cursor stays stale (`Cursors.Cursor.Move`).
- `TDERR_SPACE` is said to mean that the store is not extendable or cannot be extended (td.h:386-388). It is also
  the answer when the grant falls into a gap: `td_claim` asks for as much as the resource has (td_claim.c:172-175),
  and if that is 1 to 15 bytes more than the request it can be neither used whole nor split. The callback of
  td_init_malloc.c:34-44 grants what it is asked for; `Clients.GenerousClaim` has the exact condition.
- `td_defrag` is said to defragment values as well (td_defrag.c:98-99); it touches the free list only
  (`Defrag.DefragStore`).

## Model

| member | source | states |
|---|---|---|
| Blocks.KeyHeadRoundTrip | td_types.h:33-41 | A key head written as six words reads back as itself. |
| Blocks.ChunkHeadRoundTrip | td_types.h:70-76 | A chunk head written as four words reads back as itself. |
| Blocks.SizeWord | td_types.h:33-76 | Key, value and free blocks all keep their size in the second word, which is what lets one kind be read as another. |
| Blocks.HoldsFree | td_yield.c:26-37 | Overwriting only the first word of a key or value block turns it into a free chunk of the same size. |
| Blocks.EncodedRetag | td_write.c:26-33 | A write inside one block leaves every other block's record as it was. |
| Tilings.TilingSplit | td_claim.c:107-123 | Cutting a chunk in two keeps the exact tiling of the resource. |
| Tilings.TilingMerge | td_defrag.c:80-84 | Joining two chunks that touch keeps it. |
| Tilings.TilingExtend | td_extend.c:33-42 | A chunk at the old end of the resource keeps it. |
| Tilings.StartsDecide | td_types.h:96-111 | Where the blocks begin decides how long they are: as long as none comes or goes, no free chunk changes its size. |
| Tilings.ByteInOneBlock | td_types.h:96-111 | In a tiling every byte past the header is in one block and in no other. |
| Tilings.BytesConserved | td_types.h:96-111 | However the blocks are dealt out among three owners, their bytes add up to the resource without its header. |
| FreeLists.FreePush | td_yield.c:31-35 | Pushing a block keeps the list a cycle-free list of exactly the free chunks. |
| FreeLists.FreeDrop | td_claim.c:126-135 | So does unlinking one chunk, and the others keep their order. |
| FreeLists.FreeShrink | td_claim.c:107-123 | So does putting the rest of a split chunk in the chunk's place. |
| Fitness.TableComplete | td_claim.c:52-92 | The fitness table has a row for every chunk that can be split, or used up by a caller content with less. |
| Fitness.PicksUnique | td_claim.c:94-106 | Request, mode and list determine the chunk: the first perfect fit met before eight options, else the first option of greatest dif. |
| Fitness.PicksLargest | td_claim.c:58-106 | A contiguous claim without a perfect fit takes the first of the largest chunks seen. |
| Fitness.PicksFarthest | td_claim.c:58-106 | Any other claim takes a largest chunk to split or a smallest to use up, whichever is farther from the request. |
| Fitness.EightAreSeen | td_claim.c:13-92 | Of nine chunks that can be split the last and largest is never looked at, in either mode. |
| Fitness.NoneFitsMeans | td_claim.c:58-98 | A claim finds nothing just when, for a contiguous one, no chunk is equal to the request or 16 bytes longer, and for another every chunk is 1 to 15 bytes too long. |
| Fitness.OneMoreHelps | td_claim.c:171-178 | After a pass that found nothing, exactly which granted sizes do not help. |
| Allocator.CutInTwo | td_claim.c:107-123 | After a split the front holds what it held and the rest is a free chunk with a head of its own. |
| Allocator.Scan | td_claim.c:49-92 | The pass over the list stops at a perfect fit, at the eighth option or at the end, with a table of exactly the options seen. |
| Allocator.Nicest | td_claim.c:99-106 | The row chosen is the first of greatest dif. |
| Allocator.ClaimOnce | td_claim.c:33-138 | Fails just when nothing fits; else grants the chunk the fitness rule names, and the list loses it or keeps its rest in its place. |
| Allocator.Claim | td_claim.c:166-182 | Out of space just when nothing fits and the store cannot be extended, the grant is refused, or it does not help; else grants the chunk the fitness rule names on the list, extended or not. Asks the callback once and only if nothing fits, for as much as the resource has or the request if that is more. Where a chunk is 16 bytes longer than the request it succeeds and costs the largest chunk at most the request. |
| Allocator.GrantWasShort | td_extend.c:29-47 | What is meant by a store that was out of space only after too small a grant: the last answer of the callback. |
| Allocator.Extend | td_extend.c:26-48 | Asks the callback once; fails just when it grants 16 bytes or less, or more than 32 bits can address; else exactly the grant becomes one free chunk in front of the list. |
| Allocator.Yield | td_yield.c:26-37 | The block leaves the blocks in use and heads the free list with its size, whatever kind it was. |
| Allocator.YieldSetZero | td_yield_set_zero.c:23-42 | Wiping zeroes all of a block but its first two words and nothing outside it. |
| Allocator.WipedYield | td_yield.c:26-37 | A wiped block is as good a free chunk as an unwiped one. |
| Store.Td.WriteKeyhead | td_write_keyhead.c:24-45 | Rewriting a key head changes that head alone, in a store that stays sound. |
| Store.Td.ReadChunkhead | td_read_chunkhead.c:24-47 | A head read off the bytes is the one the account of the store says is there. |
| Checksums.Create | td_checksum_create.c:38-50 | The loop computes 64-bit FNV-1a (section 2 of draft-eastlake-fnv) cut down to 32 bits. |
| Checksums.Verify | td_checksum_verify.c:26-38 | Data verifies exactly against its own checksum. |
| Checksums.FnvIs32 | td_checksum_create.c:41-49 | The truncated 64-bit loop equals the recurrence on 32 bits with basis 0x84222325 and multiplier 0x1b3. |
| Checksums.StepInjective | td_checksum_create.c:43-47 | One step forgets nothing of the state, for the multiplier is odd. |
| Checksums.OneByteChangeCaught | td_checksum_verify.c:26-38 | Data with exactly one byte changed never verifies against the original's checksum. |
| Vectors.SegVec.TakeNoCopy | td_store_value.c:62-93 | A chunk that one segment can fill is filled with the last bytes not yet stored, and the vector moves on by as many. |
| Vectors.SegVec.TakeCopy | td_store_value.c:95-148 | What the copying loop gathers, the vector it leaves, and that it fails just when the segments have too few bytes left. |
| Vectors.TakenExactly | td_store_value.c:106-118 | In any state of the vector, exactly when the next chunk is filled with the right bytes. |
| Vectors.TakenRight | td_store_value.c:161-177 | It always is if in every segment that has bytes before it all bytes are the same. |
| Vectors.CopyableExactly | td_store_value.c:226-246 | And only then: a value comes out right for all sizes of chunks if and only if it is copyable. |
| Vectors.TellingWrong | td_store_value.c:110-126 | For any other value, the two chunk sizes that store it wrong, computed from the segments. |
| Vectors.HalfUsedBreaks | td_store_value.c:112-116 | The segments 1 2 3 and 4 5, stored in chunks of one byte and of two, come out as 3 5 5. |
| Values.StoreValuechunk | td_store_valuechunk.c:28-63 | A granted block becomes a chunk with the link, size, checksum, reference count and bytes given, and is counted. |
| Values.StoreEmptyValue | td_store_value.c:18-42 | An empty value is one chunk without payload. |
| Values.StorePiece | td_store_value.c:226-246 | Each round stores the last bytes still needed in front of the chain, and either needs less or has a shorter free list. |
| Values.StoreValue | td_store_value.c:194-248 | Ends, whatever the free list looks like, with a new chain of new chunks that holds the value if it is copyable; nothing else in use has changed. Out of space, the chunks filled so far stay. It is never out of space where a chunk is 32 bytes longer than the value, and an extendable store only after too small a grant. |
| Values.YieldAll | td_yield_all.c:23-34 | Frees exactly the chunks of a chain, in front of the free list, and counts them off. |
| Values.UnlinkValue | td_unlink_value.c:23-41 | The last reference takes the whole chain with it; a shared value only loses one reference. |
| Values.ReadValue | td_read_value.c:25-70 | A buffer of n bytes receives the first min(n, length) bytes of the value, a growing one all; the answer is a checksum error exactly if checksums are asked for and a chunk that is read fails its own. |
| Values.ReadUnclean | td_read_value.c:39-67 | A chunk is read if no more bytes come before it than fit, and one wrong sum among those is an error. |
| Values.StoreAndRead | td_read_value.c:25-70 | What is stored and then read into n bytes is the first min(n, length) bytes, on every shape of free list, and its checksums hold. |
| Chains.ChainPush | td_store_value.c:244-245 | A chunk linked in front of a chain makes a chain, with its bytes in front. |
| Chains.ChainedAdd | td_store_value.c:226-246 | A new chain shares no chunk with the others, which keep their bytes. |
| Chains.ChainedRemove | td_yield_all.c:26-33 | Taking one chain out leaves all others whole. |
| Trees.RotatedLeft | td_rotate_left.c:83-107 | A left rotation keeps the in-order sequence. |
| Trees.RotatedRight | td_rotate_right.c:35-59 | A right rotation keeps it. |
| Trees.Rebalanced | td_rebalance_node.c:31-56 | So does a whole pass of rotations, over any tree. |
| Trees.PassShiftsWeight | td_rebalance_node.c:45-54 | After a pass the side that was too light is heavier than it was; if neither was, the root stays. |
| Trees.EvenStays | td_rebalance_node.c:31-56 | A pass leaves a tree as it is if and only if at no node one side outweighs the other by more than one. |
| Trees.PassOverRightChain | td_rebalance_node.c:31-56 | A pass over a chain to the right brings its last node but one to the root. |
| Trees.RightChainLowered | td_rebalance.c:30-39 | Three nodes or more in a chain come out one lower. |
| Trees.PassOverLeftChain | td_rebalance_node.c:31-56 | A pass over a chain to the left brings its second node to the root. |
| Trees.PlantedDepth | td_put_key.c:70-80 | A new key is a leaf one step below the node a search for it ends at. |
| Trees.WedgedDepth | td_put_key.c:43-56 | A duplicate put in behind an equal entry is one step below it. |
| Trees.WithoutRoot | td_del_pathhead.c:40-54 | In all three child cases what takes a deleted node's place has exactly the other nodes, in order. |
| Trees.BesideEither | td_iterate_to_key.c:32-49 | With the same two nodes, a search for a key between them ends at the one or the other, by the shape of the tree. |
| Rebalance.RotateLeft | td_rotate_left.c:74-108 | The stored links spell out the rotated tree, and the caller's copy of the parent's head is what is stored. |
| Rebalance.RotateRight | td_rotate_right.c:26-60 | The same to the right. |
| Rebalance.RebalanceNode | td_rebalance_node.c:31-56 | The stored tree becomes the rebalanced one, the weight is the number of nodes, and the parent's head in memory equals the stored one across nested rotations. |
| Rebalance.Log2 | td_rebalance.c:17-27 | The loop counts bits: the argument is below that power of two and not below the one before. |
| Rebalance.RebalanceTree | td_rebalance.c:40-54 | A pass is made just when the deepest search so far reaches twice the bit count, and the depth is then set to that count; the sequence of nodes stays, and only links change. |
| Rebalance.SettledMeans | td_rebalance.c:43-53 | With 2^(k-1) to 2^k - 1 nodes, two at least, a search 2k deep makes a pass and sets the depth to k: a side too light by more than one gets heavier. Below that depth nothing changes. |
| Rebalance.SettledChain | td_rebalance.c:43-53 | A chain of three nodes or more, searched so deep, comes out one lower. |
| Paths.SubRange | td_types.h:45-57 | The subtree below a path is one stretch of the in-order sequence. |
| Paths.DepthBound | td_types.h:86-92 | A path is never longer than the tree is high. |
| Walks.IterateToMin | td_iterate_to_min.c:24-43 | Ends at the first node of the subtree below the path, unless the tree is too deep for the stack. |
| Walks.IterateToMax | td_iterate_to_max.c:24-43 | Ends at its last node. |
| Walks.PathNext | td_path_next.c:24-59 | Moves the in-order index by one up; not-found just at the last node; never fails on a tree less than 128 high. |
| Walks.PathPrevious | td_path_previous.c:24-59 | Moves it by one down; not-found just at the first node. |
| Walks.OnePath | td_types.h:45-57 | Place in the order determines the whole stack, cached heads and marks included. |
| Walks.ThereAndBack | td_path_next.c:24-59 | A step forward and one back restore the very same stack. |
| Walks.BackAndThere | td_path_previous.c:24-59 | A step back and one forward restore it too. |
| Keys.CompareStep | td_compare.c:33-59 | The branches on lengths amount to a byte-by-byte lexicographic order, with or without partial matches. |
| Keys.CompareZero | td_compare.c:33-59 | Full comparison is zero just for equal keys, partial comparison just for a key that begins with the search key. |
| Keys.CompareTwins | td_compare.c:33-59 | Swapping the arguments of a full comparison swaps its sign. |
| Keys.CompareMonotone | td_compare.c:33-59 | Along ascending keys a search key only turns from greater to equal to less, also when it matches in part. |
| Keys.CompareTransitive | td_compare.c:33-59 | The order of keys is transitive. |
| Search.MatchesAreInterval | td_compare.c:33-59 | All matches of a search, exact or partial, are one stretch of the order. |
| Search.IterateCompare | td_iterate_compare.c:26-39 | The mark is the comparison with the stored key, which passes its checksum if checksums are kept. |
| Search.WalkBack | td_iterate_to_key.c:50-72 | From a match the backward loop ends, on the first match. |
| Search.IterateToKey | td_iterate_to_key.c:26-74 | Ends on the first match or, without one, on a neighbour in order with room for a child on the side the mark names. |
| Search.Iterate | td_iterate.c:25-33 | The same from the root; the deepest search so far is then the greater of what it was and the length of this path, which is the depth of its end. |
| Search.EndIsBeside | td_iterate_to_key.c:32-49 | Tree and rank of the key determine the neighbour a search without a match ends at; a node has no child on a side just when it is the node beside the gap on that side. |
| Search.PathDepth | td_iterate.c:29-31 | A path is as long as its end is deep in the tree. |
| Surgery.ReplacedInorder | td_del_pathhead.c:55-66 | Replacing the subtree at a path replaces exactly its stretch of the sequence. |
| Surgery.GraftedIsReplaced | td_del_pathhead.c:41-45 | Giving the minimum of the right subtree the left subtree as child is the graft. |
| Sorting.Partition | td_qsort.c:40-52 | Three ways around the middle element, nothing lost. |
| Sorting.Qsort | td_qsort.c:21-65 | Leaves the same offsets in ascending order. |
| Sorting.DescentRetreats | td_defrag.c:43-66 | When the level covers the list, a sort moves the first descent exactly one place forward or leaves none. |
| Sorting.SortsConverge | td_defrag.c:43-66 | Each sort permutes the list, and n of them put a list of n chunks in order. |
| Sorting.SortAscends | td_defrag.c:43-66 | When the level covers the list, each sort moves the point from which the list ascends one place towards the front. |
| Defrag.SortEmptiesFrom | td_defrag.c:13-41 | Sorts a stretch of the stored list and relinks it; sizes and blocks in use stay. |
| Defrag.SortEmpties | td_defrag.c:43-66 | Finds the first descent within the level and sorts from there, or does nothing. |
| Defrag.MergeEmpties | td_defrag.c:68-93 | The count of free chunks drops by exactly the merges; in the end no chunk touches the next on the list, unless the level ran out. |
| Defrag.MergeAscends | td_defrag.c:81-88 | A merge takes a chunk off the list without moving that point back. |
| Defrag.SameCover | td_defrag.c:105-120 | The bytes covered by free chunks are the same as before. |
| Defrag.NoneTouch | td_defrag.c:68-93 | In an ascending list without touching neighbours no two free chunks touch at all. |
| Defrag.DefragStore | td_defrag.c:105-120 | One bounded sort and then the merges, as Defragmented says; an ascending list of 2 to 512 chunks comes out ascending and coalesced. |
| Defrag.SortAll | td_defrag.c:43-66 | Called as often as there are free chunks, the sort leaves the stored list in ascending order, sizes and blocks in use as they were. |
| Records.ValueAdded | td_put_locked_key.c:39-41 | Storing a value leaves every entry as it is. |
| Records.KeyRemoved | td_del_pathhead.c:67-69 | Freeing a key and its value leaves every other entry as it is. |
| Records.ValueReplaced | td_put_replace.c:27-39 | Exchanging one key's value leaves every other entry as it is. |
| Database.LandedRank | td_iterate_to_key.c:26-74 | Where a search ends is the key's rank among the entries. |
| Database.ConsistentRelinked | td_rebalance.c:40-54 | Relinking keeps the store consistent and all its entries. |
| Database.RebalanceStore | td_rebalance.c:40-54 | Rebalancing keeps the whole invariant, all entries and all free chunks, and settles the tree. |
| Database.ConsistentInserted | td_put_key.c:30-81 | A new node in its place keeps the store consistent, counters included, with one entry more. |
| Database.ConsistentReplaced | td_put_replace.c:27-39 | An exchanged value keeps it consistent, with one value changed. |
| Puts.PutNew | td_put_new.c:30-55 | A claimed block becomes a key block with exactly the head and key described, and entries and changes are counted. |
| Puts.AttachNode | td_put_key.c:38-80 | A new node below the one found, on the left or before its right subtree, is one place before or behind it in order. |
| Puts.GrownWhole | td_put_key.c:38-80 | Seen as a whole, the tree has had a leaf planted beside the node found, or a node wedged in behind it. |
| Puts.PutReplace | td_put_replace.c:27-39 | The k-th entry gets the new value, and the chunks of the old one are free. |
| Puts.PutAt | td_put_key.c:36-81 | The cases: a key comes in its place, a duplicate before the first equal entry if that has no left child and behind it otherwise, a value is exchanged, or the put is refused; and the tree afterwards. |
| Puts.DuplicateComesIn | td_put_key.c:37-57 | With n the rank of the key: a duplicate comes in at n if the n-th node is where a search for the gap before it ends, and at n + 1 otherwise. |
| Puts.PutKey | td_put_key.c:27-85 | The same after header write and rebalancing: the tree, the depth of the deepest search, and the change number, which goes up by one just when a key came in; a put that is refused has changed no entry. |
| Puts.Put | td_put.c:31-40 | A successful put keeps the whole invariant, changes the entries as PutOutcome says, and adds one to the change number just when a key came in. What counts is each flag of the call or of the store. It is refused just when a key is there that must not be overwritten. Never out of space where a chunk has 56 bytes more than key and value, and an extendable store only after too small a grant; then every entry is as it was and the chunks filled so far are without a key. With checksums every new block passes its own. |
| Puts.PutLockedKey | td_put_locked_key.c:27-45 | The same in terms of the flags taken together; a put that is refused gives its value back. |
| Deletes.Graft | td_del_pathhead.c:40-45 | The left subtree hangs under the minimum of the right one. |
| Deletes.Heir | td_del_pathhead.c:40-54 | The stored child that moves up spells out the tree without the node. |
| Deletes.CutOut | td_del_pathhead.c:37-66 | The order afterwards is the old one without the node; only links have changed. |
| Deletes.CutWhole | td_del_pathhead.c:37-66 | Seen as a whole, the tree has lost the node, and what takes its place is what WithoutRoot says. |
| Deletes.Release | td_del_pathhead.c:67-69 | Exactly the node's value and block become free, in front of what was free. |
| Deletes.CountChange | td_del_pathhead.c:71-73 | The change number goes up by one; if it is then a multiple of eight the free list is defragmented as Defragmented says, else it is not touched. |
| Deletes.ConsistentWithout | td_del_pathhead.c:37-69 | The store without the node is consistent, with one entry less and the same others. |
| Deletes.TakeOut | td_del_pathhead.c:37-69 | The node is out of the tree, its blocks are in front of the free list, and the store is consistent with one entry less; a failure changes nothing. |
| Deletes.FinishDelete | td_del_pathhead.c:70-75 | The change is counted, every eighth defragments the free list and no other touches it, and all entries stay. |
| Deletes.Remove | td_del_pathhead.c:37-75 | Just the entry the path leads to is gone, in all three child cases, and the invariant holds; the tree, the depth of the deepest search, the change number and the free list afterwards. |
| Deletes.DelPathhead | td_del_pathhead.c:29-76 | A delete hands out the value first and then takes the entry out; a failed one changes nothing, not even the change number. |
| Deletes.SpoiledValue | td_read_value.c:45-47 | A wrong sum in a chunk that is read spoils the value of its entry, so reading with checksums has to fail. |
| Operations.InitCreate | td_init2.c:13-39 | A resource of 60 bytes or more becomes an empty store of one free chunk; a smaller one is refused. |
| Operations.FetchKey | td_read_keydata.c:26-68 | The key, cut to the buffer; a checksum error exactly if checksums are asked for, the key is read whole, and its sum is wrong. |
| Operations.Get | td_get.c:78-87 | Found: the first match. Not found: not-found if exact, else the node beside where the key would be. What counts is each flag of the call or of the store, but the key is allocated only if the store's own flags ask for it. The depth of the deepest search takes this one in. |
| Operations.GetLocked | td_get.c:13-36 | The same in terms of the flags taken together. |
| Operations.OneAnswer | td_get.c:22-33 | Request, entries and tree leave a lookup, or a seek, no choice, and a near miss is next to the place of the key. |
| Operations.NearMiss | tdc_mov.c:26-36 | Two stores of the keys 1 and 3: a search for 2 comes out behind its place in the one and before it in the other. |
| Operations.DelOne | td_del.c:13-29 | Deletes the first match, or answers not-found just when there is none; the tree, the depth and the free list afterwards. |
| Operations.Del | td_del.c:31-52 | With TDFLG_DELETEALL, in the call or in the store, exactly the entries that begin with the given bytes are gone; without it the first match is, and the change number goes up by one. |
| Operations.DelAll | td_del.c:35-47 | The loop ends, and at every exit the entries without the prefix are all still there; with fewer than 128 entries only checksums can stop it. |
| Operations.Pop | td_pop.c:13-31 | Takes out the first entry and hands it out; not-found just for an empty store; the change number goes up by one. |
| Contents.FoundIff | td_iterate_to_key.c:26-74 | In an ordered store a key is found at its rank just when some entry matches. |
| Contents.PurgedOne | td_del.c:37-41 | Deleting the first match does not change what a prefix delete leaves in the end. |
| Contents.PurgedInterval | td_del.c:31-52 | The keys with a prefix are one interval, and the prefix delete cuts out that interval and nothing else. |
| Maps.FoundInMap | td_get.c:13-36 | Without duplicates a key is found just when the finite map has it, with the map's value. |
| Maps.PutIsUpdate | td_put_key.c:27-85 | A put is an update of the map, and leaves no duplicate. |
| Maps.DeleteIsRemoval | td_del.c:13-29 | A delete removes its key from the map. |
| Maps.PurgeIsRestriction | td_del.c:31-52 | A prefix delete removes exactly the keys with that prefix. |
| Maps.FirstIsLeast | td_pop.c:13-31 | The first entry has the least key. |
| Accounts.Owners | td_types.h:96-111 | The free list, the nodes of the tree and the chunks of their values are disjoint and are all blocks there are, and the three counters count them. |
| Accounts.ChunkOwner | td_types.h:70-76 | Every chunk belongs to the value of exactly one key. |
| Accounts.BytesAccounted | td_types.h:96-111 | Free, key and value bytes add up to the size less 44, and every byte is in one block only. |
| Accounts.CountersFit | td_types.h:107-110 | The three counters never come near to wrapping. |
| Accounts.DrainedIsFree | td_pop.c:13-31 | In a store without entries the free list covers every byte past the header. |
| Accounts.ValueFits | td_store_value.c:203-248 | A stored value with its chunk heads is never longer than the resource. |
| Accounts.ValidAccounted | td_types.h:96-111 | The account holds between any two successful operations. |
| Runs.Do | td_put_locked_key.c:36-44 | One operation on any store, with duplicates or without and under any flags, answers and changes the entries as Change says and the tree as Reshaped says; what it costs of the free space. |
| Runs.ChangeIsStep | td_del.c:31-52 | On a store of unique keys such a change is a step of a finite map, and keys stay unique. |
| Runs.HistoryIsTrace | td_get.c:13-36 | So a whole history of such a store is that of a map, answer for answer. |
| Runs.Run | td_put_locked_key.c:27-45 | Over any sequence of puts, gets, deletes, prefix deletes and pops on a fresh store the entries stay in order, entries and tree change as they should, without duplicates every answer is the map's, and the bytes are all accounted for. If the resource has room for key, value and 40 bytes of every put and 60 bytes more, no put is out of space; up to 128 operations meet no tree too deep; so such a run goes through to its end unless overwriting is forbidden. An extendable store is out of space only after too small a grant. |
| Runs.Drain | td_pop.c:13-31 | Popping until not-found hands out all entries in order, duplicates too, and leaves every byte past the header free. |
| Cursors.Cursor.Init | tdc_init.c:13-26 | A new cursor is at the first entry. |
| Cursors.Cursor.GetLocked | tdc_get_locked.c:25-60 | Invalid just for a stale cursor, not-found just at the end, else the entry at the cursor. |
| Cursors.Cursor.Next | tdc_nxt.c:13-30 | Hands out the entry at the cursor and moves on by one. |
| Cursors.Cursor.Move | tdc_mov.c:13-37 | Seeks to the very entry a lookup with the same flags hands out; a stale cursor stays stale. |
| Cursors.Enumerate | tdc_nxt.c:13-30 | Init and repeated next give every entry exactly once and in order. |
| Overlay.ViewPut | tdx_put.c:16-33 | A tagged put into the changes is a put into what the transaction shows. |
| Overlay.ViewDel | tdx_del.c:16-33 | A tombstone is a deletion from what it shows. |
| Overlay.Tdx.constructor | tdx_init.c:25-36 | A new transaction shows the original, and its changes have no allocating callback unless asked for. |
| Overlay.Tdx.Put | tdx_put.c:16-33 | The transaction shows the new value from now on; the original is untouched. Out of space only after too small a grant for the changes. |
| Overlay.Tdx.Del | tdx_del.c:16-33 | It no longer shows the key; the original is untouched. Out of space only after too small a grant for the changes. |
| Overlay.Tdx.Get | tdx_get.c:19-45 | Answers what the transaction shows; for a changed key if and only if value and tag fit, or the change is a tombstone and the last byte that fits looks like its tag. |
| Overlay.TagRead | tdx_get.c:27-38 | What the last byte in the buffer says of a change, and when that is right. |
| Overlay.TombstoneMisread | tdx_get.c:30-35 | A tombstone of the bytes 1 2 read into one byte passes for a put: a deleted key comes back. |
| Overlay.ReplayedAll | tdx_commit.c:25-58 | Carrying the changes over one by one ends in "changes override original". |
| Overlay.CarryOver | tdx_commit.c:39-55 | A put or a tombstone replayed on the original; not-found just for a tombstone without a key, and then nothing has changed. On a tree less than 128 high a tombstone ends in success or not-found, and a put in success, duplicate or out of space. |
| Overlay.Tdx.Commit | tdx_commit.c:16-61 | A successful commit makes the original what the transaction showed, and an empty one succeeds; one ended by not-found has carried over exactly the changes before it; without an allocating callback a commit of any change is TDERR_STRUCT and does nothing. With one, and at most 128 entries and changes together, only a missing key, a refusal to overwrite or lack of space can end it early, and the last not if the original has room for all changes. |
| Overlay.AskCommitAsk | tdx_commit.c:16-61 | After a commit td_get answers what tdx_get answered before it. |
| Clients.GenerousClaim | td_claim.c:171-178 | With a callback that grants what it is asked for, a claim is out of space if and only if nothing fits and the request is 1 to 15 bytes smaller than the resource, or 32 bits are used up. |
| Clients.FirstPut | td_put_locked_key.c:27-45 | A new store with room for one key and value takes them, whatever its flags. |
| Clients.PutTwice | td_put_key.c:37-57 | A key put twice into an empty store with duplicates is looked up with the value put last. |
| Clients.StaleAfterDelete | tdc_get_locked.c:28-31 | A cursor made before a delete is refused afterwards. |
| Clients.StaleAfterPop | tdc_get_locked.c:28-31 | So is one made before a pop. |
| Clients.StaleAfterPut | tdc_get_locked.c:28-31 | So is one made before a put that brings a key in. |
| Clients.EightDeletes | td_del_pathhead.c:71-73 | Of any eight deletes in a row exactly one, the one whose change number is a multiple of eight, defragments the free list. |
| Clients.DefragAll | td_defrag.c:105-120 | A list of up to 512 free chunks is in order after as many defragmentations, whatever was merged on the way, and after one more no free chunk touches another. |
| Clients.SevenPuts | td_rebalance.c:40-54 | Seven ascending puts hang in a chain until the seventh search is deep enough; then the sixth key comes to the root, the tree is six high, and a near miss between the fifth and the sixth comes out at the fifth. |

## Left out

- Puts.Put: after a put that fails the entries are as before, but the changed header is not written (td_store_value.c:226-246, td_put_locked_key.c:39-43); what a later operation makes of the store, which reloads the old header, is not stated. The same goes for Overlay.Tdx.Put and Overlay.Tdx.Del.
- Puts.Put, Values.StoreValue: the caller keeps key and value short enough for a block's 32-bit size; the sums wrap in the source (td_put_new.c:43, td_store_value.c:218).
- Operations.Del: what the caller's value buffer holds after a prefix delete of several entries is not stated.
- Allocator.Extend: the extend callback is any function of how often it was asked before and of what is wanted; that the one for files also reloads the size of the resource (td_init_fd.c:78-81) is not modelled.
- Runs.Run: what a prefix delete makes of the shape of the tree, one deletion after another, is not spelled out.
- Walks.PathNext, Walks.PathPrevious, Search.Iterate: success is promised for trees less than 128 high, the limit of TD_PATH_VALID; rebalancing does single rotations and gives no bound on height.
- Cursors.Cursor.Next: a cursor is followed on an unchanged store; a replaced value does not count as a change in the source although the cursor caches the old key head.
- Overlay.Tdx.Commit: closing and removing the file of the changes is I/O; an original that is too deep, full or refuses overwriting ends the commit halfway.
- Store.Td: the header is a record beside the 44 bytes kept free for it; magic and level are dropped, and words are little-endian.
- Bounds checks of td_read and td_write: shown never to fire, so the methods that read and write have them as preconditions.
- Alignment greater than 1 and sparse creation: no init path passes an alignment, and a sparse store starts with an empty free list.
- User comparison callbacks, realloc failures, locks, the streams of td_get_stream and td_put_stream, file, memory and mmap back ends, the tdt_ helpers: I/O or foreign code.
- td_put_keys and shared values: td_put_replace frees a chain without a look at its reference count (td_put_replace.c:35), so all counts here are one.
- td_push: its carry test and the link it leaves out keep it from building the list it describes (td_push.c:20-26, td_push.c:48).
- td_wipe: it does not reset header.top (td_wipe.c:17-36).
- tdc_first, tdc_last, tdc_rpl, tdc_del, tdc_prv: the first three drop the path they set up or link a freed value (tdc_first.c:17-19, tdc_last.c:17-19, tdc_rpl.c:29-36); the others would add nothing to td_path_previous and td_del_pathhead.
- The lock calls of tdc_mov and tdc_del, which lock twice (tdc_mov.c:110-112, tdc_del.c:58-68).
