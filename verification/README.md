# A persistent copy-on-write B-tree

A model of the storage engine in `nodemanager/`, `btree/`, `pagemanager/` and `engine/`, and of its in-memory
ancestor in `archive/`, with proofs of what they compute. Each layer uses only the contract of the layer below:

1. **Bytes of a page.** `Bytes`, `Entries`, `PageCodec`, `PageReads`, `PageEdit`, `Buffer`, `NodeManager`, `NodeEdits`. A
   class `Node` over an `array<byte>` that is shifted and cleared in place. Its invariant says that the 4096 bytes are the
   image of a page: type, entries, one pointer more than entries, offsets that are the prefix sums of the entry
   lengths, zeros behind the last entry.
2. **The algorithm on trees.** `Trees`, `CowNodes`, `CowTree` and the other modules named `Cow...`. Splits, rotations,
   merges, predecessor and successor exchange and root collapse as functions on trees whose nodes carry page
   numbers, with the allocator threaded through. Proved about them: contents, shape, order, page accounting, search,
   height, room, and when exactly nodes are split, filled up or merged and what that writes and frees (`CowMoves`).
3. **Transactions.** `Database`, `Runs`, `Batches`, `FreeQueue`. An operation with its commit, runs of operations,
   batches of the engine, the free list as a queue.
4. **Pages of a file.** `Disk`, `MasterCodec`, `PageManager`. Page writes and barriers form a log; a crash keeps, for
   each page and independently, the image at the last barrier or any image written since. Class `PageManager` keeps
   free list and root in the bytes of page 0.
5. **The tree on its pages.** `TreePages`, `Twins`, `Store`, `NodeSteps`, `DeleteSteps`, `BTree`. Class `BTree` has the
   methods of the source; each is proved to do to nodes, pages, allocator and log what the function of layer 2 does to trees.
6. **Crashes and group commit.** `CrashSteps` and `Crash` prove the commit protocol, `ClientRuns` carries it through runs
   of calls from the creation of the file on, `Engine` through the flush and the loop around it.
7. **The ancestor.** `ArchiveTree`, `ArchiveSteps`, `Archive`. Heap nodes whose slices are reassigned in place, with
   the tree they form as a ghost value, for any degree from 2.

Conventions. `Status` stands for the errors of the source: `Ok`, `NotFound`, `TooLarge`, and `Panic` for the one panic
of `InsertKV`. Methods of `BTree` take the tree they work on as a ghost argument (`t` or `n`, height `h`) and the set
`base` of pages in use when the transaction began. A tree of height 0 is a leaf. Integers of the source are written
with their width where it matters: 16-bit sizes and offsets, 32-bit page numbers.

## What the code does not keep

Properties the code suggests that do not hold, each with the exact condition under which they do:

- **Room for one more entry.** The comment at nodemanager/node_manager.go:167-170 says a node that does not overflow
  has room for the worst-case key. It does exactly for entries of at most 1333 bytes (`CowRoom.ReserveIff`), since an
  entry costs ten bytes more than its length.
- **Size of a node without keys.** It is read from the low half of a page number (`NodeManager.Node.GetSize`), and this
  decides whether a deletion panics: where inner nodes have room for an exchange (`CowRoom.Slack`), exactly if the node
  it starts from has a single separator, the deletion exchanges it, and the number of the right child leaves no room
  (`CowRoom.DeletePanicsByPageNumber`). `CowRoom.TinyDeletePanics` has the input.
- **Inserting a key that is there.** The tree keeps distinct keys exactly when the key is new
  (`Database.InsertContents`); which of the two values a search then finds is `CowSearch.PresentKeySeenIff`. A split
  then puts its median where it is taken to land exactly when the separator before the child is not equal to it
  (`Twins.MedianLandsIff`); if it is, a subtree is lost, as after the insertions in `Twins.TwinsArise`
  (`Twins.TwinSplitLosesChild`).
- **A deletion that finds nothing.** It leaves no trace exactly when no node on the path had a single key
  (`Runs.FailedDeleteIsHarmlessIff`); otherwise the next commit counts a page twice (`Runs.StalePendingIsPublished`).
- **Deletions in a batch.** No page is freed twice exactly when no deletion follows another request
  (`Batches.BatchFreesOnceIff`).
- **A flush that fails.** It leaves no trace exactly when it fails at its first request, and not at a deletion that
  meets a node of one key on its way (`Batches.FailedFlushIsHarmlessIff`); after a later failure the committed root is
  on the list of freed pages (`Batches.FailedFlushFreesRoot`).
- **Durability without sync.** The repository's README promises a crash-safe engine; with sync off a crash can leave a
  root that leads to no tree (`Crash.UnsyncedCommitCanBeTorn`), from the first insertion on
  (`ClientRuns.InsertUnsynced`). With sync on the promise is kept, for every run of calls
  (`ClientRuns.CrashLeavesAPrefix`) and for every run of batches (`Engine.CrashLeavesWholeBatches`).

Two smaller differences between the repository's README and its code, where the model follows the code: the page holds
one pointer more than keys, and a search that finds nothing returns an error of its own, not `ErrKeyNotFound`.

## Model

| member | source | states |
|---|---|---|
| `Bytes.LessMeaning` | nodemanager/node_manager.go:186-202 | the order of bytes.Compare: a key is below another where it ends inside it or has the smaller byte, unsigned, at the first difference |
| `Bytes.BE32Value` | nodemanager/node_manager.go:157-160 | a 32-bit field is written with weights 2^24, 2^16, 2^8, 1 from its first byte on |
| `Bytes.Get32Value` | nodemanager/node_manager.go:152-155 | and read with the same weights |
| `Bytes.BE16Value` | nodemanager/node_manager.go:57-59 | a 16-bit field is written with the byte of weight 256 first |
| `Entries.InsSorted` | nodemanager/node_manager.go:186-202 | putting an entry at the index FindIndex gives leaves strictly ordered keys exactly when the key was not there |
| `Entries.InsRefinesUpdate` | nodemanager/node_manager.go:250-270 | on strictly ordered entries, insertion of a new key is map update |
| `Entries.DelRefinesRemove` | btree/btree.go:412-431 | on strictly ordered entries, removal at the found index takes exactly that key out of the map |
| `Entries.InsUndoesDel` | nodemanager/node_manager.go:133-139 | putting a deleted entry back restores the sequence |
| `PageReads.ImageInjective` | nodemanager/node_manager.go:19-34 | a page buffer determines type, entries and pointers: two pages with the same bytes are the same page |
| `PageReads.HeaderBytes` | nodemanager/node_manager.go:19-34 | bytes 0-1 are the type, 2-3 the key count, then four bytes a pointer, each field with its higher bytes first |
| `PageReads.OffsetBytes` | nodemanager/node_manager.go:77-99 | then two bytes an offset: zero for the first entry, and from one entry to the next its key and value lengths and four more |
| `PageReads.EntryBytes` | nodemanager/node_manager.go:101-131 | each entry lies that far behind the offsets: key length, key, value length, value |
| `PageReads.TailBytes` | nodemanager/node_manager.go:86-99 | everything behind the last entry is zero |
| `NodeManager.Node.GetPtr` | nodemanager/node_manager.go:152-155 | the four bytes read are pointer idx of the page |
| `NodeManager.Node.GetOffset` | nodemanager/node_manager.go:77-84 | the stored offset is the total length of the entries before idx; index 65535 of a node without keys reads the low half of pointer 0 |
| `NodeManager.Node.KvPos` | nodemanager/node_manager.go:91-99 | where entry idx begins, and for idx = key count where the last entry ends |
| `NodeManager.Node.GetKVLen` | nodemanager/node_manager.go:141-146 | the encoded length of entry idx; 4 in a node without keys, whatever idx is |
| `NodeManager.Node.GetKV` | nodemanager/node_manager.go:101-117 | exactly the key and value of entry idx |
| `NodeManager.Node.GetSize` | nodemanager/node_manager.go:47-51 | the bytes in use; with no keys, 12 plus the low half of pointer 0, in 16-bit arithmetic |
| `NodeManager.Node.FindIndex` | nodemanager/node_manager.go:186-202 | every key before the index is a proper prefix of the target or has the smaller byte at the first difference, the key at the index is and has not |
| `NodeManager.Node.ContainsKey` | nodemanager/node_manager.go:204-214 | true exactly when the key is among the entries at its lower bound |
| `NodeManager.Node.SetPtr` | nodemanager/node_manager.go:157-160 | the four bytes from 4 + 4 idx become the pointer, the highest first; every other byte stays |
| `NodeManager.Node.SetType` | nodemanager/node_manager.go:57-59 | the first two bytes become the type, the higher first; every other byte stays |
| `NodeManager.Node.Overflow` | nodemanager/node_manager.go:166-178 | with keys, true exactly when the page uses more than 2752 bytes; without, when the number read from pointer 0 says so |
| `NodeManager.Node.Underflow` | nodemanager/node_manager.go:180-184 | true exactly for no key or one |
| `NodeManager.Node.InsertKV` | nodemanager/node_manager.go:250-270 | false (the panic) exactly when the 16-bit size guard fails, with keys when the entry and its ten bytes more do not stay below 4096, and then nothing was touched; otherwise the buffer is the image of the page with the entry at its place, a zero pointer at that index, prefix-sum offsets and a zero tail |
| `NodeManager.Node.UpdateOffsets1` | nodemanager/node_manager.go:287-291 | every stored offset after idx grows by the length, all other bytes stay |
| `NodeManager.Node.UpdateOffsets2` | nodemanager/node_manager.go:318-322 | every stored offset from idx on shrinks by the length, all other bytes stay |
| `NodeManager.Node.DeleteKV` | nodemanager/node_manager.go:295-316 | the buffer is the image of the page without entry idx and without the pointer left of it; every other entry is kept byte for byte and the tail is zero again |
| `NodeManager.Node.UpdateKV` | nodemanager/node_manager.go:133-139 | delete then insert: false (the panic) exactly when the new entry does not fit what is left |
| `NodeManager.Split` | nodemanager/node_manager.go:218-248 | two fresh nodes: entries and pointers left of the median, entries and pointers right of it, same type; the node is untouched and no copy panics |
| `NodeEdits.AppendEntry` | btree/btree.go:529-538 | an entry above all others, with the pointer that was last moved back to its left |
| `NodeEdits.DropLastEntry` | btree/btree.go:512-515 | the last entry goes together with the pointer to its right |
| `NodeEdits.MergeNodes` | btree/btree.go:571-588 | separator, all entries and, for inner nodes, all pointers of the right node end up behind those of the left, in order |
| `TreePages.MergeUndoesSplit` | btree/btree.go:562-599 | merging the two halves of a split around the median gives back the page, pointers included |
| `TreePages.JoinUndoesSplit` | btree/btree.go:234-264 | the same for nodes with their subtrees |
| `TreePages.SplicedPage` | btree/btree.go:253-261 | inserting the median and setting two pointers turns the page of a node into the page of the node with the child replaced by two |
| `TreePages.UpdatedPage` | btree/btree.go:508-510 | UpdateKV on a separator exchanges it and leaves a zero where its left pointer was |
| `TreePages.DropLastPage` | btree/btree.go:511-515 | the saved pointer put back after DeleteKV makes the page that of the node without its last entry and child |
| `TreePages.PrependedPage` | btree/btree.go:499-506 | the child of a right rotation gets the separator and, above leaves, the last pointer of its sibling in front |
| `TreePages.AppendedPage` | btree/btree.go:532-543 | the child of a left rotation gets the separator and, above leaves, the first pointer of its sibling at the end |
| `TreePages.SuccessorPage` | btree/btree.go:665-674 | restoring the left pointer after UpdateKV and setting the right one gives the page of the node with successor and new child |
| `TreePages.TypeBytes` | btree/btree.go:18-21 | on disk a leaf begins with the bytes 0 0, an inner node with 0 1 |
| `CowNodes.OverflowHasThree` | nodemanager/node_manager.go:166-178 | a node of entries up to 1344 bytes that overflows has at least three of them |
| `CowNodes.HalvesShape` | nodemanager/node_manager.go:218-248 | both halves of such a node keep a key and the shape of their height |
| `CowNodes.JoinShape` | btree/btree.go:562-599 | two one-key nodes and their separator always fit one page, with three keys |
| `CowContents.SplitChildFlat` | btree/btree.go:234-264 | splitting a child does not change the in-order contents |
| `CowContents.InsertNodeFlat` | btree/btree.go:212-307 | on distinct keys, the contents after insertion are the old contents with the entry at its place |
| `CowContents.InsertRootFlat` | btree/btree.go:95-182 | the same through the root, split or not |
| `CowContents.RotateRightFlat` | btree/btree.go:494-527 | a right rotation keeps the contents, and the new separator is below the old one |
| `CowContents.RotateLeftFlat` | btree/btree.go:529-560 | a left rotation keeps the contents, and the new separator is above the old one |
| `CowContents.MergeFlat` | btree/btree.go:562-599 | a merge keeps the contents |
| `CowContents.FillChildFlat` | btree/btree.go:453-492 | fillChild keeps the contents, and the child the search then enters has two keys at least |
| `CowContents.LastIsLast` | btree/btree.go:631-638 | the loop down the right edge finds the last entry of the subtree |
| `CowContents.FirstIsFirst` | btree/btree.go:654-661 | the loop down the left edge finds the first entry |
| `CowContents.PredecessorRemoves` | btree/btree.go:629-650 | putting the predecessor in place of an entry and taking it out of the left child removes that entry and no other |
| `CowContents.SuccessorRemoves` | btree/btree.go:652-675 | the same for the successor |
| `CowContents.DeleteNodeFlat` | btree/btree.go:397-410 | deletion removes exactly the key, answers not-found only for a missing key, keeps the shape, and costs the node at most one key; the recursion, also the one that re-enters the same node after a merge, ends |
| `CowContents.DeleteHereFlat` | btree/btree.go:601-627 | the same when the node itself holds the key: predecessor, successor or merge |
| `CowContents.BelowHolds` | btree/btree.go:318-347 | a key that is not in a node is in the tree exactly when it is in the one child the search goes to, with the same value |
| `CowMoves.SplitChildMoves` | btree/btree.go:234-264 | a child is split exactly when it uses more than 2752 bytes: entry number count/2 goes up, the right half is written first, then the left, the old page is freed |
| `CowMoves.InsertTakesPages` | btree/btree.go:212-307 | an insertion below a node writes one page a level and two for every child on its way above 2752 bytes; if there is none it frees the pages on its way, from above |
| `CowMoves.InsertRootTakesPages` | btree/btree.go:95-117 | the same for the whole tree, with the splits of the root; the height grows exactly when the root uses more than 2752 bytes |
| `CowMoves.FillChildMoves` | btree/btree.go:453-492 | exactly a child of one key is filled up: by the last entry of a left sibling with two, else the first of a right sibling with two, else by a merge, to the left if there is a left; which pages are freed and written, in order |
| `CowMoves.PlainDeleteTakesPages` | btree/btree.go:397-451 | a deletion that meets no one-key node on its way to a leaf writes one page a level and frees those on its way, from below |
| `CowMoves.DeleteHereMoves` | btree/btree.go:601-627 | a key the node holds gives way to its predecessor if the left child has two keys, else to its successor if the right child has, and only else the children merge; all other children stay |
| `CowMoves.DeleteFreesInOrder` | btree/btree.go:433-451 | a node that holds the key frees the child it turns to, or both it merges, first; a child entered on the way is freed last |
| `CowPages.TakeAccount` | pagemanager/page_manager_linux.go:13-33 | a page handed out leaves the allocator, and is counted nowhere else |
| `CowPages.SplitChildBalanced` | btree/btree.go:234-264 | pages of the children, free, pending and never used: split child changes the sum for no page number |
| `CowPages.FillChildBalanced` | btree/btree.go:453-492 | the same for rotations and merges |
| `CowPages.InsertNodeBalanced` | btree/btree.go:212-307 | over a whole insertion every page is counted as often as before, and what was handed out plus what can be is constant |
| `CowPages.DeleteNodeBalanced` | btree/btree.go:397-451 | over a whole deletion the same |
| `CowSearch.FindIsLookup` | btree/btree.go:318-347 | the search finds the value bound to the key in the in-order contents, or nothing if there is none |
| `CowSearch.EnoughKeys` | btree/btree.go:480-491 | a tree of height h with a key in every node holds at least 2^(h+1) - 1 entries |
| `CowSearch.SearchIsLogarithmic` | btree/btree.go:318-347 | a way down from the root, each page a child of the one before, has at most log2(n + 1) pages in a tree of n entries, and one in an empty tree |
| `CowSearch.PresentKeySeenIff` | btree/btree.go:266-283 | after inserting a key that is there, a search finds the new value exactly when the descent met the key in no inner node, and otherwise the old value |
| `Twins.MedianLandsIff` | btree/btree.go:257-261 | what splitChild writes into the parent is the parent with the child replaced by its halves exactly when the separator before the child is not equal to the median |
| `Twins.StrayMedian` | btree/btree.go:257-261 | otherwise a zero pointer, the number of the master page, stays where the median landed, and the pointer to the child before is overwritten |
| `Twins.TwinLeafGrows` | btree/btree.go:266-278 | seven insertions of one key into an empty leaf: each goes in front of its twins |
| `Twins.TwinsArise` | btree/btree.go:184-210 | two larger keys later the parent has that key as separator, and the overflowing right child has it as median |
| `Twins.TwinSplitLosesChild` | btree/btree.go:234-264 | the next split of that child leaves the parent with the pointers 0, left half, right half: the first child is lost |
| `CowRoom.ReserveIff` | nodemanager/node_manager.go:166-178 | nodes with a key that do not overflow have room for one more entry, leaves as well as parents that take a median, exactly when that entry is at most 1333 bytes, although 1344 are accepted |
| `CowRoom.HalfBound` | nodemanager/node_manager.go:218-248 | footprints within a factor of two: each half of a split takes at most 2732 bytes |
| `CowRoom.InsertRootHasRoom` | btree/btree.go:95-117 | under that bound and 1333 bytes an insertion never reaches the panic |
| `CowRoom.DeletePanicsIff` | btree/btree.go:397-451 | on any tree whose inner nodes have room to exchange a separator, a deletion panics exactly when the one exchange its guards select in the node it starts from does not fit |
| `CowRoom.DeletePanicsByPageNumber` | nodemanager/node_manager.go:133-139 | so it panics exactly if that node has a single separator and the number of its right child, read as a size, leaves no room for the entry exchanged |
| `CowRoom.DeleteHasRoom` | btree/btree.go:397-451 | a root of two keys, or small page numbers: a deletion never reaches the panic |
| `CowRoom.TinyDeletePanics` | nodemanager/node_manager.go:47-51 | the input: deleting a present key among four tiny entries panics if the leaf of that key is page 4073, and not on any page before |
| `CowRoom.EqualSlack` | btree/btree.go:485-491 | entries of one size leave that room in every node |
| `Database.InsertContents` | btree/btree.go:95-149 | an insertion of a new key is map update on a tree of distinct keys; with a key that is there the result is no longer such a tree |
| `Database.DeleteContents` | btree/btree.go:349-377 | a deletion removes the key from the map; not found means it was not there; the root may collapse |
| `Database.CommitPublishesIff` | btree/btree_util.go:78-95 | a commit appends the freed pages in order exactly when there are none or the list with them ends before byte 4096 of the master page; otherwise it loses all of them |
| `Database.InsertAccounts` | btree/btree.go:137-149 | after a committed insertion each page from 1 below the bump pointer is reachable, free or lost, exactly one of these; lost are all freed pages if the list with them does not fit the master page, and none otherwise |
| `Database.DeleteAccounts` | btree/btree.go:363-375 | after a committed deletion the same; lost in addition only the discarded empty root |
| `Database.AccountsMeaning` | btree/btree_util.go:78-95 | what the account means: the sets are disjoint and no list holds a page twice |
| `Runs.InsertWritesFresh` | btree/btree_util.go:56-67 | an insertion writes only pages outside the committed tree, each at most once |
| `Runs.DeleteWritesFresh` | btree/btree.go:397-451 | the same for a deletion, successful or not |
| `Runs.RunSafe` | btree/btree.go:95-149 | over any run of insertions of new keys and deletions, on through rejected entries and harmless misses: the map is the fold of the operations, the tree stays well formed, every page is accounted for; only a panic or a miss on a path with a one-key node ends the run |
| `Runs.PassesIff` | btree/btree.go:349-377 | which operations leave the system in order: those committed, those with an entry too long, and misses on a path of nodes with two keys |
| `Runs.InsertRunNeverPanics` | nodemanager/node_manager.go:250-253 | a run of insertions under the capacity bound never panics and never fails |
| `Runs.EqualRunNeverPanics` | nodemanager/node_manager.go:133-139 | a run of insertions and deletions of entries of one size never panics while page numbers stay below 4084 less that size |
| `Runs.FailedDeleteIsHarmlessIff` | btree/btree.go:349-357 | a deletion that finds nothing leaves the map alone; it leaves the database as it was exactly when no node on the search path had a single key, and otherwise a page still in use is pending |
| `Runs.StalePendingIsPublished` | btree/btree.go:137-140 | the next committed insertion then counts such a page twice in tree and free list |
| `Batches.ThreadFolds` | engine/engine.go:73-100 | threading the root through a batch computes the fold of its requests up to the first that fails, and names it |
| `Batches.FlushIsAtomic` | engine/engine.go:101-118 | a flush commits the fold of the whole batch or leaves the committed map as it was; panics apart, it does the one exactly when every request can be met in its turn |
| `Batches.FlushAccounts` | engine/engine.go:101-113 | without late deletions every page stays accounted for across a flush, and for insertions the loss is none, or all freed pages if the list with them does not fit the master page |
| `Batches.BatchFreesOnceIff` | btree/btree.go:379-395 | no page is freed twice by a successful batch exactly when every deletion in it came first |
| `Batches.FailedFlushFreesRoot` | btree/btree.go:172-175 | a flush that fails after its first request leaves the committed root, still in use, on the list of freed pages |
| `Batches.FailedFlushIsHarmlessIff` | engine/engine.go:73-100 | a failed flush leaves the database as it was exactly when it fails at its first request and that request, if a deletion, meets no node of one key on its way |
| `Disk.BarrierSettles` | pagemanager/page_manager.go:80-90 | a barrier leaves one possible image of every page, the master barrier of page 0, and all outcomes of every other page |
| `MasterCodec.MasterInjective` | btree/btree_util.go:69-95 | the master page determines root and free list |
| `MasterCodec.MasterBytes` | btree/btree_util.go:75-95 | the first four bytes of the master page are the root, the next four the length of the list, then the list, each number with its highest byte first |
| `MasterCodec.PopHead` | pagemanager/page_manager.go:103-106 | shifting the list left by four bytes drops its head and nothing else |
| `FreeQueue.QueueIsFifo` | pagemanager/page_manager.go:92-112 | allocations, freed pages and commits in any order: the list hands pages out in the order appended, never outgrows the master page, and the end of the file is handed out without gaps |
| `PageManager.PageManager.Read` | pagemanager/page_manager.go:54-70 | a fresh copy of the page; end of file exactly on a file without pages; every read is recorded |
| `PageManager.PageManager.Write` | pagemanager/page_manager.go:72-78 | one page changes, and the write is the next event of the file |
| `PageManager.PageManager.Fsync` | pagemanager/page_manager.go:80-85 | a barrier for the file if and only if sync is on |
| `PageManager.PageManager.MsyncMaster` | pagemanager/page_manager.go:87-90 | a barrier for the master page in any case |
| `PageManager.PageManager.AllocateViaFreeList` | pagemanager/page_manager.go:92-112 | pops the head of the list in the bytes of the master page, keeps the root field; says so when the list is empty and then touches nothing |
| `PageManager.PageManager.Allocate` | pagemanager/page_manager_linux.go:13-63 | free list first, then the page at the bump pointer; the file grows by 80 zero pages exactly when neither has a page; no page but the master changes |
| `Store.StoredFrame` | btree/btree_util.go:46-54 | a tree depends on its own pages only |
| `Store.StoredUnique` | btree/btree_util.go:46-54 | a page number and the pages determine the tree |
| `Store.TakeSafe` | btree/btree_util.go:56-67 | with a safe allocator the next page handed out is live nowhere, and the allocator stays safe |
| `Store.AccountsSafe` | btree/btree_util.go:89-113 | when every page is accounted for, the allocator is safe for the pages of the committed tree |
| `BTree.BTree.constructor` | btree/btree.go:47-93 | a new file stands for the empty map, with a zero root field in the master page |
| `BTree.BTree.LoadAsNode` | btree/btree_util.go:46-54 | a node on a fresh copy of the page |
| `BTree.BTree.CopyToNewPage` | btree/btree_util.go:56-67 | the node lands on the next page of the allocator; no live page changes in memory or by any write |
| `BTree.BTree.HandleMasterPage` | btree/btree_util.go:69-115 | one write of page 0: its first four bytes become the root, the freed pages are appended exactly when the list stays below (4096 - 8) / 4 entries, or there are none, and are forgotten otherwise |
| `BTree.BTree.SplitRoot` | btree/btree.go:184-210 | refines the root split: right half first, then left, new root in memory |
| `BTree.BTree.SplitChild` | btree/btree.go:234-264 | refines the child split on node bytes, allocator and stored pages |
| `BTree.BTree.InsertIntoLeaf` | btree/btree.go:266-278 | refines insertion into a leaf |
| `BTree.BTree.InsertIntoInternal` | btree/btree.go:280-307 | refines the descent: the child's old page freed, its new page in the pointer, the node on a new page |
| `BTree.BTree.InsertAt` | btree/btree.go:212-232 | refines insertion below a node: the resulting tree is on its pages, the allocator took and freed the same pages, no live page changed |
| `BTree.BTree.Insert` | btree/btree.go:95-149 | refines the insertion transaction; the log is the copy-on-write writes, a barrier, the root switch, a barrier |
| `BTree.BTree.InsertNoSync` | btree/btree.go:151-182 | refines the insertion of a batch: returns the new root, frees the root it was given, commits nothing |
| `BTree.BTree.SearchAt` | btree/btree.go:318-347 | returns what the search on the tree returns; the pages read are those of a way down from the node |
| `BTree.BTree.SearchFrom` | btree/btree.go:309-316 | from any root whose tree is on its pages, the value the map has for the key, or nothing; the pages read lead down from the root, at most log2(n + 1) of them, one in an empty tree |
| `BTree.BTree.Search` | btree/btree.go:309-316 | the same for the committed root |
| `BTree.BTree.Delete` | btree/btree.go:349-377 | refines the deletion transaction, with the same log; not found commits nothing and leaves tree and root |
| `BTree.BTree.DeleteNoSync` | btree/btree.go:379-395 | refines the deletion of a batch: frees the committed root, whichever root it was given |
| `BTree.BTree.DeleteAt` | btree/btree.go:397-410 | refines deletion below a node |
| `BTree.BTree.DeleteFromLeaf` | btree/btree.go:412-431 | refines deletion from a leaf |
| `BTree.BTree.DeleteFromInternal` | btree/btree.go:433-451 | refines deletion through an inner node that has been fixed |
| `BTree.BTree.FillChild` | btree/btree.go:453-492 | refines fillChild: left sibling, right sibling, merge, in this order |
| `BTree.BTree.RotateRight` | btree/btree.go:494-527 | refines the right rotation, and stops exactly where UpdateKV panics |
| `BTree.BTree.RotateLeft` | btree/btree.go:529-560 | refines the left rotation |
| `BTree.BTree.MergeChildren` | btree/btree.go:562-599 | refines the merge; it cannot panic |
| `BTree.BTree.DeleteKeyFromInternal` | btree/btree.go:601-627 | refines deletion of a key the node holds |
| `BTree.BTree.BorrowFromInorderPredecessor` | btree/btree.go:629-650 | refines the exchange with the predecessor |
| `BTree.BTree.BorrowFromInorderSuccessor` | btree/btree.go:652-675 | refines the exchange with the successor, the left pointer saved around UpdateKV |
| `BTree.BTree.FillRoot` | btree/btree.go:677-687 | the page of the only child if the root is an inner node without keys, else the root's own |
| `CrashSteps.WritesKeepAnchor` | btree/btree_util.go:56-67 | before the root switch, at every moment, a crash leaves the old tree |
| `CrashSteps.ReadersUndisturbed` | btree/btree.go:280-307 | a reader that holds a live root sees its pages unchanged after every single write |
| `Crash.TransactionIsAtomic` | btree/btree.go:124-147 | at every moment of a synced transaction a crash leaves the old tree or the new one; before the root write only the old, after the second barrier only the new |
| `Crash.RunIsCrashSafe` | btree/btree.go:124-147 | over any chain of commits and of work not committed, a crash between epoch i and epoch i + 1 leaves the tree of the one or of the other |
| `Crash.CrashLeavesOldOrNew` | btree/btree.go:124-147 | the same for maps: the disk holds a database, and whatever tree it is read as, its map is the old one or the new one |
| `Crash.DurableIsUnique` | btree/btree_util.go:69-76 | one disk holds one tree, up to the page of the empty tree before the first commit |
| `Crash.NewFileAtRest` | btree/btree.go:73-93 | before the first commit a crash leaves the empty tree, a root field of zero standing for it |
| `Crash.UnsyncedCommitCanBeTorn` | pagemanager/page_manager.go:80-85 | with sync off, after the commit of a non-empty tree a crash can leave a root that leads to neither tree |
| `Engine.ThreadAdvances` | engine/engine.go:73-100 | one turn of the loop over the batch, and where it stops |
| `Engine.Engine.ThreadBatch` | engine/engine.go:71-100 | the loop over the batch computes the threaded root, or the first failure |
| `Engine.Engine.Flush` | engine/engine.go:69-118 | refines the flush: one reply per request, all with the same outcome; barrier, root switch and master barrier only after success; a failed flush leaves root and committed tree |
| `Engine.Engine.FlushNext` | engine/engine.go:69-118 | one turn of the loop leads from one epoch to the next, through a commit or without a trace |
| `Engine.Engine.BatchCommitLoop` | engine/engine.go:119-131 | over all batches, each committed in order or turned down without a trace: after every batch the map is the fold of the requests of the batches that could be met, every page is accounted for, and with sync on the epochs form a chain |
| `Engine.CrashLeavesWholeBatches` | engine/engine.go:64-131 | a crash at any moment of the loop leaves the map after the batches before the one under way, or after that one too |
| `ClientRuns.Call` | btree/btree.go:95-149 | one synced Insert or Delete leads from one epoch to the next, whatever its outcome |
| `ClientRuns.CallAll` | btree/btree.go:349-377 | over a run of synced calls the epochs form a chain, and epoch i shows the map after i operations |
| `ClientRuns.CreateAndCallAll` | btree/btree.go:47-93 | the same from the creation of the file on, which starts at rest |
| `ClientRuns.CrashLeavesAPrefix` | btree/btree.go:124-147 | a crash at any moment of the run leaves the map after the calls that had returned, or after the call under way as well |
| `ClientRuns.InsertUnsynced` | pagemanager/page_manager.go:80-85 | with sync off, already the first insertion into a new file can be torn by a crash after it |
| `Archive.CalculateAppropriateIdx` | archive/util.go:6-14 | the number of keys below k |
| `ArchiveSteps.SortRemoves` | archive/btree.go:352-357 | overwrite by the last key, cut, sort: exactly the key is gone |
| `ArchiveSteps.SplicedFacts` | archive/btree.go:69-93 | a split keeps contents and shape |
| `ArchiveSteps.RotateRightFacts` | archive/btree.go:206-224 | a right rotation keeps contents, shape and heap nodes |
| `ArchiveSteps.RotateLeftFacts` | archive/btree.go:226-244 | a left rotation keeps contents, shape and heap nodes |
| `ArchiveSteps.FusedFacts` | archive/btree.go:246-282 | a merge keeps contents and shape and drops one heap node |
| `ArchiveSteps.BorrowFacts` | archive/btree.go:284-327 | overwriting a key by its predecessor or successor and taking that out of the child removes the key |
| `Archive.BTree.constructor` | archive/btree.go:20-24 | an empty leaf, the empty set |
| `Archive.BTree.SplitRoot` | archive/btree.go:48-67 | three fresh nodes, the old root untouched, same contents, one level more |
| `Archive.BTree.Split` | archive/btree.go:69-93 | the heap holds the tree with child idx replaced by its halves, same contents |
| `Archive.BTree.InsertInSubtree` | archive/btree.go:95-118 | the key is added to the set below the node; counts, depth, order and separateness of subtrees are kept |
| `Archive.BTree.Insert` | archive/btree.go:26-38 | set insertion for any degree from 2; a key that is there changes nothing |
| `Archive.BTree.Search` | archive/btree.go:127-141 | true exactly when the key is in the set |
| `Archive.BTree.Delete` | archive/btree.go:143-149 | set removal, also of a key that is not there; the root collapses when it is empty |
| `Archive.BTree.DeleteAt` | archive/btree.go:151-178 | the key is removed from the set below the node, which loses at most one key of its own |
| `Archive.BTree.PreemptiveFix` | archive/btree.go:180-204 | same contents, and the child the search then enters has a key to spare: from the left sibling if that has one to spare, else from the right one, else by a combination, to the left if there is a left |
| `Archive.BTree.DeleteFromInternalNode` | archive/btree.go:284-301 | which subtree to go on in and which key to delete there: the predecessor if the left child has a key to spare, else the successor if the right one has, else the key itself in the merged child |
| `Archive.BTree.DeleteFromLeafNode` | archive/btree.go:352-357 | the key leaves the leaf, the rest stays in order |

## Left out

- I/O errors of reads, writes, barriers and allocation: they are taken to succeed.
- mmap, mremap, fallocate, ftruncate, msync and file lengths: the file is a sequence of pages that grows by 80 zero pages.
- PageManager.PageManager.Allocate: requires the bump pointer to stay below 2^20 - 1 when the free list is empty, because the 32-bit byte offset of a page wraps beyond that; the tree operations require the same of the bump pointer they end with.
- `pagemanager/page_manager_darwin.go`: the same allocation by other system calls.
- Reopening an existing file: page numbers are not restored by the source, so crash properties speak of the pages on disk, not of a restarted process.
- Page writes torn within a page: a page reaches the disk as a whole or not at all.
- Readers that outlive the commit after the one that replaced their root: the pages they hold may be reused then.
- Channels, ticker and goroutines of the engine: a flush gets its batch, the loop gets its batches, a reply is an element of the returned sequence.
- Engine.Engine.BatchCommitLoop: speaks of batches that are turned down without a trace, or succeed and delete at most in their first request; after others pages are freed twice or while in use, as stated above.
- ClientRuns.CallAll: speaks of runs without a panic and without a miss that leaves a trace; a call that ends a run is `ClientRuns.Call`.
- NodeManager.Node.GetKV: returns values; the source returns slices of the buffer, which a later edit of the same node would change.
- NodeManager.Split: requires strictly ordered entries of at most 1344 bytes, which the copying by `InsertKV` relies on.
- NodeEdits.MergeNodes: requires room for both nodes with the separator, and for the separator in a left node without keys; `mergeChildren` meets this because both nodes have one key.
- BTree.BTree.Insert: requires a tree of distinct keys to start from; the key itself may be there, with the outcome stated above. A tree with a key twice may lose a subtree in a split (`Twins.TwinSplitLosesChild`), so that no map describes it.
- BTree.BTree.InsertNoSync: requires distinct keys in the tree, for the same reason.
- BTree.BTree.InsertAt: requires distinct keys in the tree, for the same reason.
- BTree.BTree.InsertIntoInternal: requires distinct keys in the tree, for the same reason.
- BTree.BTree.SplitRoot: requires distinct keys in the tree, for the same reason.
- BTree.BTree.SplitChild: requires distinct keys in the tree, for the same reason.
- BTree.BTree.Delete: requires distinct keys in the tree, for the same reason, and nothing left on the list of freed pages by a miss before it; what becomes of such pages is `Runs.StalePendingIsPublished`.
- BTree.BTree.DeleteNoSync: requires distinct keys in the tree, for the same reason.
- BTree.BTree.DeleteAt: requires distinct keys in the tree, for the same reason; after a panic the allocator is not described, since the process ends.
- BTree.BTree.DeleteFromInternal: requires distinct keys in the tree, for the same reason.
- BTree.BTree.FillChild: requires distinct keys in the tree, for the same reason.
- BTree.BTree.RotateRight: requires distinct keys in the tree, for the same reason.
- BTree.BTree.RotateLeft: requires distinct keys in the tree, for the same reason.
- BTree.BTree.MergeChildren: requires distinct keys in the tree, for the same reason.
- BTree.BTree.DeleteKeyFromInternal: requires distinct keys in the tree, for the same reason.
- BTree.BTree.BorrowFromInorderPredecessor: requires distinct keys in the tree, for the same reason.
- BTree.BTree.BorrowFromInorderSuccessor: requires distinct keys in the tree, for the same reason.
- BTree.BTree.constructor: speaks of a new file, as said about reopening.
- Engine.Engine.ThreadBatch: requires that every insertion of the batch is of a new key in its turn, since a second copy of a key ends what is known of the tree.
- Engine.Engine.Flush: requires the same, and a database without freed pages left over from a miss or a failed flush.
- The guard that the source has for nodes of no known type: every stored node is a leaf or an inner node.
- Archive.BTree.constructor: degrees 0 and 1 are excluded; the source's split then leaves nodes without keys.
- Capacities of slices and sharing of their backing arrays in `archive/`: no two live nodes share one.
- `slices.Sort` by its algorithm: it is modelled as the ascending rearrangement.
- Printing, `String`, `Data`, `FreeListLen` and `Root` helpers and the benchmarks: they add only easy members.
