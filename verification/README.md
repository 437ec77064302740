# LMDB engine and sharded ledger store: a verified model

This project models the storage engine in `lmdb/` (a memory-mapped, copy-on-write B+tree with
multi-version snapshots) and the sharded, batched store of `ledger/level_db.cpp`, and proves what
they promise. `dafny verify dfyconfig.toml` checks everything.

The model comes in layers, each in its own modules.

* **Snapshots and page reuse** (`Mvcc`, `MvccSafety`, `MvccTheorems`, `MvccProgress`). A state
  machine over single loads and stores: readers that publish a transaction id, check it again and
  copy a meta page; one writer that scans the reader table word by word, allocates, saves its free
  list, flushes and writes a meta page; dying processes and crashes at any step. The theorems hold
  for every run; what the protocol is for can also be reached from every state of one.
* **B+tree** (`Sizes`, `SplitPoint`, `BTree`, `BTreePut`, `BTreeDelete`, `BTreeDeleteProofs`,
  `BTreeRoom`). Insertion with splits and deletion with moves, merges and separator updates, with
  node sizes and page capacities, refine updates of a finite map. It is also proved exactly when
  an operation fails with `MDB_PAGE_FULL`.
* **Copy on write** (`PageMemory`, `PathUpdate`, `PageSteps`, `PageRebalance`, `TrackedCursors`,
  `CowTxn`, `PrivateSteps`, `CowInMvcc`). The class `CowTxn.Txn` does the same operations in
  place: page by page, with a page stack, touching pages before it writes to them, with the lists
  that page numbers come from and go to, and with the other open cursors, whose page and index
  stacks it adjusts. It refines the B+tree layer, leaves every page of other snapshots alone and
  loses no page number; in the protocol's terms it takes only private steps (`CowInMvcc`).
* **Pages and cursors** (`NodeLayout`, `SlottedPage`, `PageRoom`, `CursorPath`, `Cursors`). The byte
  array behind a page with its slots and nodes, that its free space is what the B+tree reckons
  with, and the search and iteration of cursors.
* **Page number lists and their users** (`IdList`, `IdSort`, `IdOps`, `IdRuns`, `DirtyLists`,
  `NestedTxn`, `NestedCommit`, `FreelistSave`, `FreelistCommit`, `FreelistInMvcc`,
  `FreelistSteps`). The in-place algorithms of `midl.c`, allocation of runs, the commit of nested
  transactions, and the reserve-and-fill loop that stores the free list, as a run of the protocol's
  private steps that ends in its save step.
* **Whole-tree walks** (`PageTree`, `DropTree`, `OverflowPages`, `CompactCopy`, `CopyHandoff`,
  `CopyEnds`, `CopyStream`). Dropping a tree with its overflow page counter, the compacting copy,
  the two buffers between its walker and its writer thread, and the file that comes out.
* **Sharded store** (`ShardedStore`). Sixteen stores refine one map, also across batches that fail
  part way and are tried again.

Where the code and its comments disagree, the model follows the code. The comment at
`lmdb/mdb.c:8147-8150` says that `MDB_PAGE_FULL` should never happen because callers check for
room. They do not when `mdb_page_split` divides a page that already has 32 nodes or more in the
middle without looking at sizes: `BTreeRoom.PutMayFail` gives a leaf and a key for which a put
fails, `BTreeRoom.DelMayFail` a tree and a key for which a deletion does, and
`BTreeRoom.PutFailsIff` and `BTreeRoom.DelFailsIff` say exactly which operations fail.

Loads and stores of shared words are sequentially consistent, and a meta page is copied and
written in one step. Keys are integers in the order of the database's comparator; how many bytes a
key or a value takes is an arbitrary function within the limits of the engine.

## Model

| member | source | states |
|---|---|---|
| MvccTheorems.LiveReadersAreSafe | lmdb/mdb.c:2505-2531 | At every state of every run, a live reader's snapshot is a committed one no older than its slot's id, all its pages are in the file, and the writer can neither hand out nor write any of them |
| MvccTheorems.ReadersSeeOneVersion | lmdb/mdb.c:3040-3045 | Between any two moments of a read transaction the pages of its snapshot hold the same bytes |
| MvccTheorems.ReadsAreFresh | lmdb/mdb.c:3040-3081 | A read transaction sees every commit that was published before it began, even if it stalls between publishing its id and copying the meta page |
| MvccTheorems.MetasStayIntact | lmdb/mdb.c:4177-4300 | The two meta pages name the last two commits, whose pages are in the file and closed to the writer |
| MvccTheorems.CrashRecoversLastCommit | lmdb/mdb.c:4306-4312 | After a crash at any step the newer meta page is that of the last commit, the snapshot whose meta page was written last, and all its pages are readable |
| MvccTheorems.WritersBuildOnNewest | lmdb/mdb.c:3049-3059 | Every write transaction, also the first one after a dead owner, starts from the newest meta page |
| MvccTheorems.DeadOwnerLeavesStaleId | lmdb/mdb.c:11135-11151 | An owner that dies between its meta page and `mti_txnid` leaves an id that names the older meta page, which is why recovery reads the meta pages again |
| MvccTheorems.OwnerMayDieUnpublished | lmdb/mdb.c:11135-11151 | A run in which that happens: the first transaction's owner dies between its meta page and `mti_txnid` |
| MvccTheorems.PagesAreConserved | lmdb/mdb.c:962-965 | In every state a write transaction's pages are partitioned among trees, `mt_free_pgs`, loose pages, `me_pghead` and unconsumed records; every committed snapshot uses or lists each page exactly once, given that the save step leaves the records that `FreelistSteps.SaveInRun` shows it to leave |
| MvccTheorems.CachedOldestIsLowerBound | lmdb/mdb.c:2364-2381 | Every process's cached `me_pgoldest`, however stale, is at most the id of every pinned reader |
| MvccProgress.OldestIsAttained | lmdb/mdb.c:2364-2381 | What a scan of the reader table leaves as `me_pgoldest` is the last commit's id, or an id that a claimed slot held at some moment of that scan |
| MvccProgress.NoReaderNoDelay | lmdb/mdb.c:2364-2381 | If no claimed slot holds an older id during the scan, it is the last commit's id |
| MvccProgress.RecordsCanBeReused | lmdb/mdb.c:2505-2531 | If the next freeDB record is older than the last commit and than every claimed slot's id, the writer's own steps lead to its pages being in `me_pghead` |
| MvccProgress.ReadersNeverWait | lmdb/mdb.c:3040-3081 | From every state, four steps of a reader's own make it active on the commit that is published, whatever the writer is doing |
| MvccProgress.SlotsCanBeClaimed | lmdb/mdb.c:3008-3032 | A free slot, also one behind all others, can be claimed, and holds no id then |
| MvccProgress.ReadersCanEnd | lmdb/mdb.c:3310-3318 | A reader that ends holds no id any more |
| MvccProgress.TransactionsCanCommit | lmdb/mdb.c:3799-4021 | From every state between two operations a write transaction can commit, and its pages become the newest snapshot's |
| MvccProgress.WritersNeverStuck | lmdb/mdb.c:11130-11152 | From every state, also after the owner's death, another write transaction can begin |
| MvccProgress.OwnDeadThreadIsFatal | lmdb/mdb.c:11146-11151 | A process that finds its own thread dead with the mutex repairs `mti_txnid` but does not become the writer |
| MvccProgress.CrashesMayTear | lmdb/mdb.c:4012-4018 | A crash may leave anything in the dirty pages that are not flushed, and touches no others |
| MvccSafety.RunKeepsInv | lmdb/mdb.c:2976-3108 | Every step of readers, writer, dying processes and crashes keeps the protocol's invariant |
| MvccSafety.OldRecordsSpare | lmdb/mdb.c:2505-2531 | A freeDB record whose key is below the oldest id has no page of any snapshot that a reader or a meta page still needs |
| MvccSafety.TxnKeepsPartition | lmdb/mdb.c:2420-2610 | Allocation, freeing, loosening and fetching records keep the partition of the pages |
| MvccSafety.SaveConserves | lmdb/mdb.c:3420-3637 | The records that the free list is saved in, with the trees' pages, have every page once; `FreelistInMvcc.SaveFills` has the loop's records |
| MvccSafety.PicksLast | lmdb/mdb.c:4306-4312 | `mdb_env_pick_meta` finds the last commit |
| SplitPoint.FindSplit | lmdb/mdb.c:9601-9674 | The split-point loops compute the specified index; unless the page has 32 nodes or more, the new one is small and it is not the last, both parts fit at that index |
| SplitPoint.SplitPointIs | lmdb/mdb.c:9601-9674 | Which index that is: the middle, the last one at which the left part fits a page, or the first one behind the middle at which the right part does, depending on the place and the size of the new node |
| SplitPoint.SearchedSplitFits | lmdb/mdb.c:9644-9674 | When the split point is searched, both parts are non-empty and fit, for all node sizes up to half a page; on a branch the right part's first node loses its key |
| SplitPoint.MiddleSplitFits | lmdb/mdb.c:9560-9560 | An unsearched split fits exactly when the half with the new node has room for it |
| SplitPoint.MiddleSplitMayFail | lmdb/mdb.c:9560-9560 | Node sizes for which the middle does not fit although another split point would |
| BTree.BranchOverfull | lmdb/mdb.c:9690-9690 | The parent check without rounding is enough, because free space is always even |
| Sizes.BigIfTwoDoNotFit | lmdb/mdb.c:4876-4877 | Data go to overflow pages exactly when two such nodes would not fit on one page |
| BTreePut.SplitLeafKeeps | lmdb/mdb.c:9481-9894 | A leaf split divides the entries in order between two sound leaves and its separator bounds both |
| BTreePut.SplitBranchKeeps | lmdb/mdb.c:9481-9894 | A branch split keeps order, separators, depth and two children on either side |
| BTreePut.PutTreeKeeps | lmdb/mdb.c:7422-7946 | Put with any chain of splits keeps sortedness, separators, uniform depth and page capacities, and its entries are the old ones with one added or replaced |
| BTreePut.PutRefinesUpdate | lmdb/mdb.c:9897-9919 | When it succeeds, the map is the old one with the key set, also when the root was split or created |
| BTreeDeleteProofs.MergeFits | lmdb/mdb.c:8962-9097 | A merge never lacks room, given the 25% threshold and the half-page node limit |
| BTreeDeleteProofs.MoveKeeps | lmdb/mdb.c:8733-8951 | A move between neighbours always has room and leaves two sound pages with the same entries and a bounding separator |
| BTreeDeleteProofs.UpdateKeyKeeps | lmdb/mdb.c:8643-8709 | A separator update, which may split its page, keeps the tree's entries and soundness |
| BTreeDeleteProofs.RebalanceKeeps | lmdb/mdb.c:9129-9309 | Rebalancing a page that lost a node keeps the entries and restores every minimum, passing a deficit on to the parent |
| BTreeDeleteProofs.QuarterRule | lmdb/mdb.c:9129-9309 | A leaf that lost an entry is left alone if it is a quarter full; otherwise it is joined with its neighbour if that is not a quarter full or has one entry, and else gets the neighbour's nearest entry |
| BTreeDeleteProofs.DelTreeKeeps | lmdb/mdb.c:9313-9407 | Deletion keeps order, separators, depth, capacities and at least two children per branch, and removes exactly the one entry |
| BTreeDeleteProofs.LookupIsFlat | lmdb/mdb.c:6323-6400 | Following one child per level finds the same as looking at all entries |
| BTreeDeleteProofs.GetIsLookup | lmdb/mdb.c:6323-6400 | The search answers as the map does |
| BTreeDeleteProofs.DelRefinesRemoval | lmdb/mdb.c:9410-9425 | Delete reports a missing key exactly when it is missing, and otherwise removes it from the map, emptying or collapsing the root where needed |
| BTreeRoom.SplitFits | lmdb/mdb.c:9601-9674 | Which splits fit, as an equivalence |
| BTreeRoom.LeafSplitFails | lmdb/mdb.c:9601-9674 | A leaf split fails exactly when it is unsearched and the new node's half overflows |
| BTreeRoom.BranchSplitFails | lmdb/mdb.c:9601-9674 | The same for branches, with the first key of the right part stripped |
| BTreeRoom.PutFailsIff | lmdb/mdb.c:8147-8150 | A put fails with `MDB_PAGE_FULL` exactly when it meets such a split on its path, by the sizes of the pages there; if it does not fail, the sizes also say whether the page is split, and with which separator |
| BTreeRoom.DelFailsIff | lmdb/mdb.c:8147-8150 | A deletion fails exactly when a longer separator, or the split it causes, meets such a split, by the sizes and separators of the pages on its path and of their neighbours; moves and merges never fail; if it does not fail, the sizes also say what it leaves of the page |
| BTreeRoom.SmallPagesSuffice | lmdb/mdb.c:9644-9644 | With fewer than 32 nodes on every page neither fails |
| BTreeRoom.EntryGoesIn | lmdb/mdb.c:9644-9644 | An entry put behind all others of a leaf, or one that takes more than a 16th of the page, always goes in |
| BTreeRoom.KidGoesIn | lmdb/mdb.c:9644-9644 | So does a separator of a branch |
| BTreeRoom.AppendingNeverFails | lmdb/mdb.c:9638-9643 | Putting a key greater than all others never fails, on a tree of any sizes |
| BTreeRoom.PutMayFail | lmdb/mdb.c:8147-8150 | A sound leaf and a key whose put fails |
| BTreeRoom.DelMayFail | lmdb/mdb.c:8147-8150 | A sound tree and a key in it whose deletion fails: a node moved to a neighbour leaves a longer separator, and dividing the full parent in the middle does not make room |
| CowTxn.Txn.constructor | lmdb/mdb.c:3049-3081 | A transaction begins with the newest snapshot's tree and nothing dirty |
| CowTxn.Txn.Alloc | lmdb/mdb.c:2444-2607 | A page is the first loose page if there is one, else the last of `me_pghead`, else `mt_next_pgno`, and only that list is shortened; it is nobody's and not part of any snapshot; there is none exactly when both lists are empty and the map is full |
| CowTxn.Txn.PageTouch | lmdb/mdb.c:2704-2799 | A clean page is copied to a new number that its parent, or `md_root`, then names, and the old number goes to `mt_free_pgs`; a dirty one stays, and no list changes; the tree as a value is the same, and every other cursor on an entry stays on it, its stack now naming the copy |
| CowTxn.Txn.Loosen | lmdb/mdb.c:2123-2165 | A page taken out of use becomes loose if it is dirty and goes to `mt_free_pgs` otherwise |
| CowTxn.Txn.TouchPath | lmdb/mdb.c:7392-7416 | All pages from the root to the cursor's leaf can be written to afterwards, the tree is the same as a value, and the other cursors stay where they are |
| CowTxn.Txn.Search | lmdb/mdb.c:6323-6400 | The page stack is the path that the key's search takes, down to its place on a leaf |
| CowTxn.Txn.PageSplit | lmdb/mdb.c:9481-9894 | Splitting a page and all parents that overflow, up to a new root, makes of the database what the recursive specification does; when a leaf is split and its parent is not, the other cursors keep their entries |
| CowTxn.Txn.NewRoot | lmdb/mdb.c:9517-9541 | A root that was split gets a new page above it |
| CowTxn.Txn.AddToParent | lmdb/mdb.c:9688-9727 | The parent gets the separator if it has room and is split otherwise |
| CowTxn.Txn.PutOnLeaf | lmdb/mdb.c:7822-7853 | Overwriting in place, replacing and adding a node at the cursor agree with the specification on all levels above, and the other cursors keep their entries unless the leaf's parent is split |
| CowTxn.Txn.Put | lmdb/mdb.c:9897-9919 | On success the contents are the old ones with the key set and the tree is the specified one; `MDB_PAGE_FULL` is reported only when the specification fails; no page of a snapshot changes, even on failure; unless the leaf's parent is split, every other cursor on an entry is afterwards on the same one, or on the one that replaced it, and its pages and indices are a path to it from the root |
| CowTxn.Txn.LowestKey | lmdb/mdb.c:6409-6422 | The first key below a page |
| CowTxn.Txn.NodeMove | lmdb/mdb.c:8733-8951 | Moving a node between neighbours and updating the separator between them, which may split the parent |
| CowTxn.Txn.JoinPages | lmdb/mdb.c:8962-9080 | The pages of a merge: the left one has all nodes, the right one is given up by `Loosen`, and the parent loses its node |
| CowTxn.Txn.PageMerge | lmdb/mdb.c:8962-9097 | Merging two neighbours, giving up one page and rebalancing the parent |
| CowTxn.Txn.Rebalance | lmdb/mdb.c:9129-9309 | Rebalancing from a page upwards makes of the database what the recursive specification does |
| CowTxn.Txn.RebalanceBelow | lmdb/mdb.c:9237-9309 | The choice of neighbour, and of moving or merging |
| CowTxn.Txn.ShrinkRootPage | lmdb/mdb.c:9156-9235 | An empty root page is freed, one with a single child gives way to it |
| CowTxn.Txn.DelOnLeaf | lmdb/mdb.c:9313-9407 | Deleting the node at the cursor |
| CowTxn.Txn.Del | lmdb/mdb.c:9410-9425 | Says whether the key was there; on success the contents are the old ones without it; no page of a snapshot changes |
| CowTxn.Txn.Run | lmdb/mdb.c:3799-4037 | A whole sequence of puts and deletions makes of the contents what it makes of a map |
| CowTxn.Txn.SnapshotsStay | lmdb/mdb.c:2704-2799 | Every tree in the pages that snapshots may point to is still there, page for page |
| CowTxn.Txn.EveryPageOnce | lmdb/mdb.c:962-965 | Each page number below `mt_next_pgno` is in exactly one of the tree, `mt_free_pgs`, the loose pages, `me_pghead` and what others use |
| CowTxn.Txn.OldPagesKept | lmdb/mdb.c:2728-2728 | A page of the old tree is in the new one or in `mt_free_pgs`, never up for reuse in the same transaction |
| CowTxn.Txn.Track | lmdb/mdb.c:6911-7107 | A cursor set on a key joins the tracked ones; its stack is a path of pages to that key |
| CowTxn.Txn.FixTouched | lmdb/mdb.c:2775-2799 | Every cursor that has the touched page on that level gets the copy instead |
| CowTxn.Txn.FixMoved | lmdb/mdb.c:7834-7851 | Cursors at or behind a new node on its page move on by one |
| CowTxn.Txn.FixSplit | lmdb/mdb.c:9833-9885 | The loop over the cursors after a split: raised above a new root, moved to the right page with the stack that leads to it, or moved on in the parent |
| CowTxn.Txn.Settle | lmdb/mdb.c:9867-9881 | With the stacks that the splitting cursor has at that point, the loop keeps every cursor on its entry |
| CowTxn.Txn.SettleAtRoot | lmdb/mdb.c:9848-9877 | The same after the split of a root leaf |
| TrackedCursors.CurrentIs | lmdb/mdb.c:5816-5904 | Following a cursor's pages through memory and through the tree gives the same entry |
| TrackedCursors.TouchedKeeps | lmdb/mdb.c:2764-2799 | Naming the copy of a touched page in a stack keeps its entry |
| TrackedCursors.MovedKeeps | lmdb/mdb.c:7834-7851 | The move on the leaf keeps the entry, or finds the one that replaced it |
| TrackedCursors.SplitKeeps | lmdb/mdb.c:9867-9881 | The adjustment after a leaf split whose parent has room, with the page stack of the right half |
| TrackedCursors.RootSplitKeeps | lmdb/mdb.c:9848-9877 | The adjustment after a root leaf was split: the shift of both stacks, the new root below them, and the right half |
| TrackedCursors.PassBy | lmdb/mdb.c:9867-9867 | Comparing one page of the stack is enough: a cursor that has the page is on a path through it, as no page is in the tree twice |
| TrackedCursors.ParentKeptIs | lmdb/mdb.c:9688-9690 | Whether the parent is split, told from the tree before the put |
| CowInMvcc.TxnIsPrivate | lmdb/mdb.c:2420-2610 | Whatever puts and deletions have done to a transaction's pages and lists, a run of the protocol's private steps does |
| CowInMvcc.AbsKeepsInv | lmdb/mdb.c:2976-3108 | So the protocol's invariant holds with the transaction as far as it has come |
| CowInMvcc.TxnSparesReaders | lmdb/mdb.c:2505-2531 | Nothing it has dirtied or may hand out belongs to a snapshot of a live reader or a meta page |
| PathUpdate.PutIsUp | lmdb/mdb.c:9688-9727 | Carrying a leaf's change upwards, as the splits do, is the same as the top-down specification of put |
| PathUpdate.DelIsUp | lmdb/mdb.c:9084-9096 | The same for deletion and rebalancing |
| PageSteps.TouchKeeps | lmdb/mdb.c:2704-2799 | A copied page and its parent's new pointer hold the same tree, relabelled |
| PageRebalance.RebalanceIs | lmdb/mdb.c:9237-9309 | Rebalancing is a move or a merge with the neighbour that is chosen |
| PageRebalance.MergeWritten | lmdb/mdb.c:8962-9097 | After a merge the source page is not part of the tree, and no other page is lost |
| SlottedPage.Page.AddNode | lmdb/mdb.c:8152-8271 | Succeeds exactly when node and slot fit; then the page's nodes are the old ones with the new node at its index, and free space is less by just that |
| SlottedPage.Page.DeleteNode | lmdb/mdb.c:8279-8328 | Closing the gap with memmove leaves exactly the other nodes, byte for byte, and gives the space back |
| SlottedPage.Page.UpdateKey | lmdb/mdb.c:8643-8709 | Resizing a branch key changes only that key; it fails exactly when the page has no room |
| SlottedPage.PackedIsNode | lmdb/mdb.c:8225-8258 | A node's bytes read back as the node |
| SlottedPage.ExampleNode | lmdb/mdb.c:1060-1085 | The bytes of a node worked out by hand, low bytes first |
| SlottedPage.SizeLeftIsExact | lmdb/mdb.c:1017-1017 | `SIZELEFT` is the page less its header and the space of all nodes and slots |
| SlottedPage.NodesApart | lmdb/mdb.c:8303-8327 | Nodes lie at even offsets between `mp_upper` and the page's end and do not overlap |
| PageRoom.RoomIs | lmdb/mdb.c:1017-1017 | A page whose bytes hold a tree node has just the room left that the B+tree's sizes say, which is never negative |
| PageRoom.EntryFits | lmdb/mdb.c:8184-8207 | `mdb_node_add` has room for an entry exactly when the leaf with it fits a page |
| PageRoom.SeparatorFits | lmdb/mdb.c:9690-9690 | And for a separator exactly when the unrounded check of `mdb_page_split` lets it through |
| PageRoom.AddEntry | lmdb/mdb.c:8152-8271 | Adding an entry to the bytes of a page that holds a leaf gives the bytes of the longer leaf |
| Cursors.NodeSearch | lmdb/mdb.c:5816-5904 | The binary search finds the first key not less, or the child to follow, and whether it is equal |
| Cursors.Cursor.SearchKey | lmdb/mdb.c:6323-6400 | Ends on the leaf that the key belongs to |
| Cursors.Cursor.SearchFirst | lmdb/mdb.c:6323-6400 | Ends on the first leaf |
| Cursors.Cursor.SearchLast | lmdb/mdb.c:6323-6400 | Ends on the last leaf |
| Cursors.Cursor.Sibling | lmdb/mdb.c:6675-6729 | Climbs as far as needed and moves to the neighbouring page of the same level, or reports that there is none |
| Cursors.Cursor.First | lmdb/mdb.c:7111-7153 | The first entry, unless the database is empty |
| Cursors.Cursor.Last | lmdb/mdb.c:7157-7198 | The last entry, unless the database is empty |
| Cursors.Cursor.Next | lmdb/mdb.c:6733-6821 | The entry after the current one in key order, or none after the last, where the cursor stays |
| Cursors.Cursor.Prev | lmdb/mdb.c:6825-6907 | The entry before the current one, or none before the first, where the cursor stays |
| Cursors.Cursor.SetHere | lmdb/mdb.c:6927-7016 | The shortcut on the current page gives the answer and entry of a full search whenever it decides |
| Cursors.Cursor.Set | lmdb/mdb.c:6911-7107 | Finds the key, or the first one not less, from whatever position the cursor had |
| Cursors.CurrentEntry | lmdb/mdb.c:6819-6819 | The entry on the top page is the one at the cursor's position in the whole tree |
| Cursors.List | lmdb/mdb.c:6733-6821 | First and repeated next list every entry once in ascending order and stop |
| Cursors.SearchIsMap | lmdb/mdb.c:6911-7107 | What a search finds is what the map has |
| IdSort.Sort | lmdb/midl.c:221-279 | The list is sorted downwards and is a permutation, all indices stay inside, and nothing behind the list changes |
| IdSort.SortSegments | lmdb/midl.c:221-279 | The loop with its explicit stack of 64 slots, which never overflows |
| IdSort.InsertionSort | lmdb/midl.c:232-241 | Sorts a short segment although its scan is bounded by the list's start, not by the segment's |
| IdSort.Partition | lmdb/midl.c:245-266 | The scans without bounds checks stop inside the segment and divide it |
| IdSort.StackDepth | lmdb/midl.c:267-276 | Since the larger part is pushed, segments halve with each level, so that 32 levels are enough |
| IdOps.Search | lmdb/midl.c:34-67 | The odd-shaped binary search finds the id, or the place where it belongs |
| IdOps.XMerge | lmdb/midl.c:201-213 | Merging in place, with the maximum id as sentinel, gives the merge of the two lists |
| IdOps.MergedIsUnion | lmdb/midl.c:201-213 | The merge of disjoint strictly descending lists is their strictly descending union |
| IdRuns.FindRun | lmdb/mdb.c:2467-2476 | Finds a run exactly when one exists, and then the lowest |
| IdRuns.TestMeansRun | lmdb/mdb.c:2471-2472 | The comparison of two slots means that the run is there |
| IdRuns.RunMeansTest | lmdb/mdb.c:2471-2472 | And a run makes the comparison succeed |
| IdRuns.RemoveRun | lmdb/mdb.c:2593-2597 | Moving the stragglers down removes just that run |
| IdRuns.InsertRun | lmdb/mdb.c:6582-6590 | A freed run of pages is added in place |
| IdRuns.TakeThenInsert | lmdb/mdb.c:6582-6590 | Giving back a run that was taken restores the list |
| DirtyLists.Search2 | lmdb/midl.c:281-314 | The number of ids below, plus one |
| DirtyLists.Insert2 | lmdb/midl.c:316-345 | Inserts in order, or reports a duplicate or a full list |
| DirtyLists.MergeDirty | lmdb/mdb.c:3924-3933 | The backward merge in place gives the merge of the two lists |
| DirtyLists.MergedIsOverride | lmdb/mdb.c:3924-3933 | In the merge the child's copy of a page wins |
| DirtyLists.MergedKeys | lmdb/mdb.c:3924-3933 | It has each page of either list once |
| NestedTxn.RoomIsExact | lmdb/mdb.c:1348-1353 | In every run of a nested transaction `mt_dirty_room` is the capacity less the dirty pages it sees |
| NestedTxn.StepKeepsRoom | lmdb/mdb.c:2645-2696 | Allocating, copying down, spilling and unspilling keep it so |
| NestedTxn.CopyDownFits | lmdb/mdb.c:2737-2762 | Copying a parent's page into the child's list needs no room of its own |
| NestedTxn.PagesCanBeTouched | lmdb/mdb.c:2644-2696 | Every page on the child's or the parent's lists can be made writable in one step, reading as before |
| NestedTxn.PagesCanBeSpilled | lmdb/mdb.c:2280-2350 | Every dirty page that the parent has not spilled can be spilled, reading as before |
| NestedTxn.CommitKeepsPages | lmdb/mdb.c:3864-3936 | After the commit the parent sees of every page what the child saw |
| NestedTxn.CommitKeepsRoom | lmdb/mdb.c:3936-3936 | And the child's `mt_dirty_room` is right for the parent |
| NestedTxn.AbortUndoes | lmdb/mdb.c:3295-3386 | Without the commit the parent sees of every page what it saw when the child began |
| NestedCommit.UnlistDirty | lmdb/mdb.c:3866-3885 | The parent's spill list loses exactly the child's dirty pages |
| NestedCommit.RemoveSpilled | lmdb/mdb.c:3887-3904 | The parent's dirty list loses exactly the child's spilled pages |
| NestedCommit.CountMerged | lmdb/mdb.c:3906-3923 | The counting loop finds the merge's length |
| NestedCommit.AppendSpilled | lmdb/mdb.c:3937-3944 | Appending and sorting, with more space if need be, joins the two spill lists; only deletion marks may repeat |
| NestedCommit.CommitLists | lmdb/mdb.c:3864-3948 | The whole merge: child's copy first, spilled pages gone, the rest kept, the length that `mt_dirty_room` implies, and the child's spilled pages added to the parent's |
| FreelistSave.DisturbConserves | lmdb/mdb.c:3490-3494 | Whatever a put into the freeDB does to the pools, no page is lost |
| FreelistCommit.Saver.DeletePulled | lmdb/mdb.c:3496-3509 | Deletes the records that pages were taken from, and reservations, until none is left |
| FreelistCommit.Saver.SaveFreed | lmdb/mdb.c:3511-3543 | Stores `mt_free_pgs` under the transaction's id, again when the put changed it |
| FreelistCommit.Saver.Reserve | lmdb/mdb.c:3549-3584 | Which record is written next and with how much room: the present one again, or the one before it if the present one is full |
| FreelistCommit.RoomForRule | lmdb/mdb.c:3563-3571 | A record gets room for all that is left, or for a share of it rounded up to whole pages |
| FreelistCommit.Saver.FillReserved | lmdb/mdb.c:3609-3636 | Fills the reserved records from the end of the list |
| FreelistCommit.Saver.Save | lmdb/mdb.c:3420-3637 | When it ends, each reclaimed page and each freed page is in exactly one record, the records after `me_pglast` are as they were, and the pages in use and in records are all the pages there were; the pools are what its writes, one after the other, have made of them; it gives up only when the given `script` of what its writes do is used up |
| FreelistCommit.FilledStores | lmdb/mdb.c:3609-3636 | The filled records hold just the pages of `me_pghead` |
| FreelistCommit.Accounts | lmdb/mdb.c:3420-3637 | The sum over trees and records is unchanged by the filling |
| FreelistInMvcc.SaveFills | lmdb/mdb.c:3609-3636 | In a map that has every page once, what the loop leaves in the records up to `me_pglast` is a filling in the protocol's sense: keys from 1, all of `me_pghead`, nothing else and nothing twice |
| FreelistInMvcc.SaveIsTable | lmdb/mdb.c:3420-3637 | The freeDB that the protocol's commit publishes is, record by record, the one the loop has written, its own record included |
| FreelistInMvcc.SaveIsAStep | lmdb/mdb.c:3420-3637 | So the loop's result is a save step of the protocol, and its snapshot has every page once |
| FreelistSteps.DisturbanceIsPrivate | lmdb/mdb.c:3490-3494 | What a put into the freeDB does to the pools, a run of the protocol's private steps does, if it fetches only records older than every reader |
| FreelistSteps.SaveIsReached | lmdb/mdb.c:3420-3637 | From any state of the protocol that mirrors the pools before the loop, private steps lead to one that keeps the invariant and in which the save step can be taken with the freeDB that the loop has written |
| FreelistSteps.SaveInRun | lmdb/mdb.c:3420-3637 | The loop itself does so, for every script of what its writes do within those bounds |
| DropTree.Drop | lmdb/mdb.c:10787-10885 | The walk ends, and every branch, leaf and overflow page of the tree is freed exactly once, given that the counter it starts from is exact |
| DropTree.Walk.constructor | lmdb/mdb.c:6323-6400 | Down the leftmost path to the lowest level |
| DropTree.Walk.Sibling | lmdb/mdb.c:6675-6729 | The recursive step to the right goes to the next page of the level in order, or finds that there is none |
| DropTree.Walk.Pop | lmdb/mdb.c:10864-10871 | Going back to the saved leftmost path puts the cursor on the first page of the level above |
| DropTree.Visit | lmdb/mdb.c:10815-10854 | A page adds the pages it points to; leaves are left once the counter is down to 0, and then no overflow page is left out |
| DropTree.AtPos | lmdb/mdb.c:6675-6729 | The page on top of the stack is the one at the stack's position in its level |
| DropTree.LevelPages | lmdb/mdb.c:10787-10885 | The levels together are all pages |
| OverflowPages.Database.Put | lmdb/mdb.c:7742-7816 | Every big value lies on enough pages for it and the page header, and on new ones no more than that; pages are overwritten exactly when they are dirty and hold the new data; `md_overflow_pages` stays the number of overflow pages of all entries |
| OverflowPages.EnoughPages | lmdb/mdb.c:1039-1039 | The number of overflow pages is the least with which they hold header and data |
| OverflowPages.Database.Del | lmdb/mdb.c:7949-8047 | And when one is deleted |
| OverflowPages.Database.Empty | lmdb/mdb.c:10888-10935 | So that dropping the tree of a database frees each of its pages exactly once |
| OverflowPages.CountIsExact | lmdb/mdb.c:10798-10801 | What the entries count is what lies beneath the leaves, so that skipping leaves by the counter skips nothing |
| OverflowPages.PutSum | lmdb/mdb.c:8076-8078 | A put takes the pages of the entry it replaces out of the count and adds its own |
| OverflowPages.FindIsFlat | lmdb/mdb.c:6323-6400 | The entry whose pages are freed is the one that all entries have under the key |
| CompactCopy.CopyWalk | lmdb/mdb.c:10050-10203 | The walk with its explicit stack appends and hands over the tree renumbered in depth-first order from 2 on, children before parents, and never fills a buffer beyond its end |
| CompactCopy.SameTree | lmdb/mdb.c:10050-10203 | Renumbering changes nothing but page numbers |
| CompactCopy.TreeReadable | lmdb/mdb.c:10050-10203 | Every pointer in the copy leads to the page that is meant |
| CompactCopy.CopyIsTheSame | lmdb/mdb.c:10050-10203 | The copy can be read as a tree with the same structure and the same map |
| CompactCopy.CopyCompact | lmdb/mdb.c:10252-10313 | The copy is reported good exactly when the root got the number in the meta page, which is so exactly when trees, listed free pages and the freeDB's own add up to all pages; an empty database is copied without a check |
| CompactCopy.PredictedRoot | lmdb/mdb.c:10279-10297 | If every page is in the tree, in one record or in the freeDB, and in one place only, they add up, and the root's number is `mt_next_pgno - 1 - freecount` |
| CopyHandoff.RunKeepsInv | lmdb/mdb.c:9948-10042 | Every step of either thread keeps the handoff's invariant |
| CopyHandoff.BuffersAreExclusive | lmdb/mdb.c:10028-10042 | The walker never fills a buffer that the writer owns |
| CopyHandoff.OutputIsInOrder | lmdb/mdb.c:9969-10018 | What is written is a prefix of what was handed over, each buffer with its overflow tail; without an error all of it |
| CopyHandoff.WriterExitsLast | lmdb/mdb.c:9970-9973 | The writer exits only after the last buffer |
| CopyHandoff.NoDeadlock | lmdb/mdb.c:9969-10042 | In every state some thread can move, though both wait on one condition variable |
| CopyHandoff.WalkMayGoOn | lmdb/mdb.c:10028-10203 | While it fills its buffer, the walk can append any page, hand over any tail, or end, with or without an error |
| CopyEnds.CopyEnds | lmdb/mdb.c:10316-10319 | Once the walker is at its last hand-over, every schedule without endless spurious wake-ups ends with both threads done |
| CopyStream.OutputIsStream | lmdb/mdb.c:9969-10042 | When the writer has exited without an error, the output is the meta pages and all that the walker has appended or handed over, in that order |
| CopyStream.CopyReachesFile | lmdb/mdb.c:9948-10319 | So the file of a compacting copy is the meta pages and then the renumbered tree, from which the tree can be read |
| CopyStream.PageAt | lmdb/mdb.c:10185-10187 | Each page is at the offset that its new number says |
| ShardedStore.Hash | ledger/level_db.cpp:166-201 | The loop over words and the switch over the rest compute the specified hash |
| ShardedStore.Key1 | ledger/level_db.cpp:152-201 | The hash and the shard of the key "key1", as a number |
| ShardedStore.OneByte | ledger/level_db.cpp:186-198 | A hash as a number, one byte behind the last word |
| ShardedStore.TwoBytes | ledger/level_db.cpp:186-198 | Two bytes |
| ShardedStore.ThreeBytes | ledger/level_db.cpp:186-198 | Three |
| ShardedStore.OneWord | ledger/level_db.cpp:176-183 | None |
| ShardedStore.NineBytes | ledger/level_db.cpp:166-201 | Two rounds and one byte |
| ShardedStore.ElevenBytes | ledger/level_db.cpp:166-201 | Two rounds and three bytes |
| ShardedStore.HashTellsApart | ledger/level_db.cpp:166-201 | Two keys of one length that differ in one word only, or in the bytes behind the last one, have different hashes |
| ShardedStore.ShardOf | ledger/level_db.cpp:152-160 | The hash that the loop computes gives the shard that every operation on the key goes to |
| ShardedStore.LevelDB.PutKey | ledger/level_db.cpp:83-97 | Sets the key in the union of the shards, unless it is empty or the store refuses |
| ShardedStore.LevelDB.DelKey | ledger/level_db.cpp:110-124 | Removes it, unless it is empty or the store refuses |
| ShardedStore.LevelDB.GetKey | ledger/level_db.cpp:71-81 | The value in the union |
| ShardedStore.LevelDB.PutBatch | ledger/level_db.cpp:99-108 | Queues the operation behind all others |
| ShardedStore.LevelDB.DelBatch | ledger/level_db.cpp:126-135 | Queues the deletion behind all others |
| ShardedStore.LevelDB.ApplyBatch | ledger/level_db.cpp:137-150 | The first success, after any number of calls that failed part way, leaves the union as if all queued operations had been applied once in issue order; a failure stops at the shard that reports it |
| ShardedStore.PartThenAll | ledger/level_db.cpp:137-150 | Applying all operations again over a part of them gives the same as applying them once |
| ShardedStore.AllShardsApplied | ledger/level_db.cpp:137-150 | Each shard applying its own operations is the union applying all |
| ShardedStore.WriteOne | ledger/level_db.cpp:83-97 | Writing to the routed shard is writing to the union |
| ShardedStore.UnionAt | ledger/level_db.cpp:152-160 | The union has at each key what its own shard has |

## Left out

- DUPSORT, LEAF2 and sub-pages, sub-databases and named databases: they multiply the cases.
- WRITEMAP, NOSYNC, NOMETASYNC, NOLOCK, PREVSNAPSHOT, FIXEDMAP, `MDB_APPEND` and the other put flags, MDB_VL32 and Windows.
- mmap, fsync, pwrite, file locks, mutexes and process death as such: they are atomic steps or steps of the environment; out of memory is not modelled.
- Opening and closing an environment, and the DBI tables.
- The dirty-list limit and page spilling are modelled for nested transactions (`NestedTxn`), not in `CowTxn`.
- CowTxn.Txn.Put: leaf nodes with big data do not carry their overflow pages here, and whether such a page may be overwritten is the parameter `inPlace`; the pool of free pages does not grow during an operation, as it does when mdb_page_alloc fetches records (`Mvcc` has that step).
- CowTxn.Txn.Alloc: single pages only; runs are in `IdRuns`.
- CowTxn.Txn.PageSplit: when the parent of the split page is split too, the other cursors are left as they are here, where the source adjusts them; the two halves are written before the separator goes up, in the source after, and the source's page copy is a temporary.
- TrackedCursors.SplitKeeps: puts that split the leaf's parent as well, cursors after deletions, and C_DEL are not covered.
- FreelistCommit.Saver.Save: partial correctness; the retry loop has no evident measure, since its puts consume pages, and it runs as long as the given `script` of what they do lasts. The order in which the freed list is sorted and loose pages are merged into the lists is not modelled, and filling a reserved record is taken not to change the pools.
- FreelistSteps.SaveInRun: records are fetched up to `me_pgoldest` as it was cached when the loop began; a new scan of the reader table in the middle of the loop is not part of the run.
- DropTree.Drop: the counter is the caller's, for which `OverflowPages.Database` keeps it exact; sub-databases are not dropped.
- OverflowPages.Database.Put: a big value stands for its data together with the number of pages it lies on, and whether those are dirty is a parameter.
- IdSort.Sort: for lists of fewer than 2^30 ids, so that the sum of two indices is a C int.
- Cursors.Cursor.SearchKey: for trees of at most 32 levels, the size of the cursor's stack.
- SlottedPage.Page.AddNode: the decision to put data on overflow pages is the caller's; `mp_lower` and `mp_upper` are fields, not bytes of the page.
- CompactCopy.CopyCompact: whole pages, whose bytes are an arbitrary function of page and number in `CopyStream`; an error of the writer thread ends the walk only in `CopyHandoff`.
- CopyEnds.CopyEnds: assumes that the walk itself ends, which `CompactCopy.CopyWalk` shows.
- `ledger/rocks_db.cpp` (the same sharding), the other back ends, the benchmark driver and its configuration.
