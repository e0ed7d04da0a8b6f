# A verified model of pagebox

pagebox is an embedded storage engine: a B+tree of byte strings with B-link leaves over a swizzling buffer pool, a
hybrid optimistic latch, a sharded free-page allocator, and a write-ahead log with checkpoints.  This project models
the algorithms of those parts in Dafny and proves what they promise.  `dafny verify dfyconfig.toml` checks all of it.

## What is modelled

**The B+tree.**  A tree is a map from page ids to leaves and inner nodes, with two labels per page that exist only for
the proofs: its level, and a real number that orders the pages of a level (`Trees`).  Separators are not assumed to be
sorted; the invariant only asks that nothing in front of a separator exceeds it and that only the leaf right in front
may reach it.  That is what routing plus chasing right needs, and it survives every step the code takes, including the
states in the middle of a split (`LeafSteps`, `SplitSteps`, `EdgeSteps`, `InnerSteps`, `RootSteps`, `LeftLinks`,
`SeparatorBounds`, `Merges`, `Splits`).  On top of these steps there are three systems:

- `SequentialTree` is the tree as a class whose methods write pages one at a time: descents, splits with recursive
  publication, merges, separator repair, root collapse, scans and recovered metadata.  `Histories` runs arbitrary
  sequences of operations and compares them with a map.
- `Concurrent` is a step system in which every page write, every publication of a separator and every hop of a reader
  is a step of its own, interleaved in any way, and which may crash at any step and go on with what is left.  `Readers`
  has what each write does to readers that are under way, and `Atomic` compares every run with an atomic map.
- `Records` is the log of page images such a run emits, cut off anywhere and replayed, and `Walks` how bare pages are
  read.

`InOrder` and `LeafOrder` read a tree from left to right as one sequence of leaves and separators and say what each
structural change does to it.  `Scans` has ranges and listings, `Reach` reachability, `Search` the walk for a parent,
`Levels`, `Accounts`, `Descents` and `Removals` the space, page counts and paths the class needs, `Stale` the
separators that may lead a descent astray, `Room` and `Deletes` when writes and deletes panic, and `Descending` and
`BackLinks` the left links and what is read along them.  `Fans`, `Findings`, `LateStrands` and `HollowRun` are examples.

**The latch** (`VersionWord`, `Latch`, `Guards`): any number of threads, one version word, one reader/writer lock and the guarded
data, with lock, load, store and release as separate steps.

**The allocator** (`Extents`, `Shards`, `Allocator`): the coalescing central map, hot buckets, reserved tails and the
global cursor, as classes; a ghost set of live pages makes "no page is handed out while live" a statement.

**Checkpoint and recovery** (`Recovery`, `Opening`, `Header`): appends, log flushes, evictions, checkpoints with mutations going on
beside them, process kills, power losses and recovery as steps over page versions, with the operating system free to
make any unsynced write durable at any time; and the bytes of the header page.  `Reopening` puts the log of the tree
under it.

**Swips** (`Swips`, `Unswizzle`): tagged 64-bit words as hot pointers, cool pointers and page ids, and the loops that
rewrite them in page buffers.

## What does not hold

Where a property fails of the code, the code is modelled as it is, with an input on which the property fails and the
condition under which it holds.

- A descent that records its path stops on an empty leaf instead of following its right link.  A delete there reports a
  stored key as absent (`Findings.StrandedDelete`, `Findings.DeleteMisses`); `SequentialTree.BTree.Remove` states that
  this is the only case.  An insert whose leaf is full descends this way before it splits, and writes into the empty leaf
  (`Findings.InsertStrands`), after which stored keys are not found any more (`Findings.InsertLoses`).
  `Walks.RightUnlessLost` says exactly which: the smaller stored keys that are read past that leaf.
  `SequentialTree.BTree.Insert` states that an insert always fails when its leaf is full and its descent stranded in the
  tree it is called on.  The converse does not hold: with a separator that is too large for what is in front of it, the
  descent may find the leaf and miss it after the split (`LateStrands.LateStrand`).  Unless it finds the leaf past such a
  stale separator the condition is exact, and with no stale separator nothing is stranded, however often the leaf is
  split (`Stale.ClearNotStranded`).  It takes an earlier delete of the only key of a leaf that is not the last one:
  `Descents.NoHollowNoStrand`, and everything else keeps its condition.  `Histories.Run` says so for whole histories.
- Replacing a separator by a longer one may not fit the node, with entries well below half a leaf
  (`Findings.RepairOverflows`), and then the delete that needs it panics (`Findings.DeletePanics`).
  `SequentialTree.BTree.Remove` states exactly when a delete panics, in separator repair or in any merge on the way up, on
  the tree before the call; with short keys of one length it never does.
- Overwriting a stored value may panic although the new entry fits a leaf: a leaf of two entries is split around the
  entry as if it were new (`Findings.OverwritePanics`, `Room.OverwriteInPair`).  With short keys
  `SequentialTree.BTree.Upsert` states exactly when, on the leaf before the call; it does not if the new entry fits a
  leaf together with any other one of the leaf (`Room.OverwriteFits`).
- After a crash between the image that links a new leaf and the one that corrects the left link of its successor, a
  descending scan misses the new leaf (`BackLinks.LinkHides`), and nothing corrects the link on reopening.
  `BackLinks.EveryLeftLink` says which left links are right after any steps, and
  `SequentialTree.BTree.ScanRangeDesc` what a scan then reads.  Lookups and ascending scans are not affected.
- A checkpoint whose page flush finds nothing dirty does not sync the file, although evictions may have written pages
  before.  If the new header reaches the disk first and power fails, those pages are lost
  (`Recovery.CarelessCheckpointLoses`); `Recovery.HeaderSafeIff` and `Recovery.CarefulIff` say exactly when the header is
  safe.
- A mutation that is logged while a checkpoint runs is dropped with the log when the checkpoint resets it, flushed or not
  (`Recovery.BusyCheckpointLoses`); `Recovery.ResetSafeIff` and `Recovery.ResetIff` say exactly when the reset is safe.
  It is if nothing was logged meanwhile (`Recovery.QuietIsSafe`).
- Taking the first extent of a bucket is right for a request only if the request is the bucket's shortest length
  (`Shards.BucketMayBeShort`).  The only length the allocator is asked for, one page, is.

The header format's comment speaks of version 1; the constant is 2, and the model follows the constant.

## Model

| member | source | states |
|---|---|---|
| `Keys.NumIsOrder` | crates/storage/src/slotted_page.rs:379-408 | byte-string order is a linear order that embeds into the reals, injectively and in both directions |
| `Keys.NextKeyIsTight` | crates/btree/src/btree.rs:3699-3771 | no byte string lies strictly between a key and that key followed by a zero byte, so a scan may resume there |
| `Keys.PrefixIsInterval` | crates/btree/src/btree.rs:3787-3832 | the keys with a prefix form one interval that starts at the prefix |
| `Pages.LowerBoundSorted` | crates/storage/src/slotted_page.rs:379-408 | the binary search returns the insertion point of a sorted page and whether the key is there |
| `Pages.SearchPage` | crates/storage/src/slotted_page.rs:379-408 | the search loop, for all pages including unsorted separators, computes the same position as the recursive definition |
| `Descents.InsertBoundAgrees` | crates/btree/src/btree.rs:608-622 | the append and prepend short cuts of the insert search give the same position as the full search |
| `Trees.RouteStands` | crates/btree/src/btree/node.rs:647-666 | routing through separators that may be out of order never passes a stored key that is not smaller than the search key |
| `Trees.ChaseStands` | crates/btree/src/btree.rs:1136-1145 | following a right link by the chase rule never passes the key, and moves strictly right |
| `Trees.HopStands` | crates/btree/src/btree.rs:999-1122 | each hop keeps "everything to my left is smaller" and decreases level, or the number of leaves further right |
| `Trees.Locate` | crates/btree/src/btree.rs:1124-1177 | route-then-chase terminates from every standing page, at a leaf that need not be left |
| `Trees.StopAnswers` | crates/btree/src/btree.rs:3315-3406 | the leaf where the search stops answers exactly what the stored map holds, present or absent |
| `Trees.LookupAgrees` | crates/btree/src/btree.rs:3315-3406 | lookup from the root equals the stored map in every state that satisfies the invariant, also with unpublished siblings |
| `Descents.StopUnique` | crates/btree/src/btree.rs:1124-1177 | there is only one leaf at which a search for a key can stop |
| `Descents.NoHollowNoStrand` | crates/btree/src/btree.rs:911-997 | without empty leaves before the last one no descent with a recorded path stops on the wrong leaf |
| `LeafSteps.WithEntriesKeeps` | crates/btree/src/btree.rs:631-648 | rewriting one leaf within its neighbours' keys and its separators keeps the whole tree invariant |
| `SplitSteps.SplitLeafKeeps` | crates/btree/src/btree.rs:1402-1459 | cutting a leaf at any inner position keeps the invariant while the sibling has no parent, and the last left key may be published |
| `EdgeSteps.PublishKeeps` | crates/btree/src/btree.rs:1942-1971 | installing a separator and the page right behind an edge keeps the invariant |
| `EdgeSteps.UnpublishKeeps` | crates/btree/src/btree.rs:263-331 | taking an edge and its separator out of a node keeps the invariant, with the child as an orphan |
| `InnerSteps.SplitInnerKeeps` | crates/btree/src/btree.rs:1460-1504 | cutting an inner node around a promoted separator keeps the invariant and makes that separator publishable |
| `InnerSteps.JoinInnerKeeps` | crates/btree/src/btree.rs:2643-2680 | joining two neighbouring inner nodes around their separator keeps the invariant |
| `RootSteps.GrowKeeps` | crates/btree/src/btree.rs:1598-1622 | moving the root's content one level down below a rewritten root page keeps the invariant |
| `RootSteps.CollapseKeeps` | crates/btree/src/btree.rs:247-261 | copying the only child of an empty root into the root page keeps the invariant |
| `SeparatorBounds.SpineSeparates` | crates/btree/src/btree.rs:2375-2408 | the largest key under an edge is a valid separator behind it, which is what repair writes |
| `LeftLinks.RelinkRepairs` | crates/btree/src/btree.rs:373-385 | pointing the one wrongly linked successor back at its predecessor restores the doubly linked list |
| `Splits.PlanIsGood` | crates/btree/src/btree.rs:1402-1459 | every split that does not panic divides the entries, with the pending one exactly where it belongs, into two non-empty leaves that fit |
| `Splits.PlanBalances` | crates/btree/src/btree.rs:1402-1459 | three entries or more are divided in the middle, the left half taking one or two more |
| `Splits.PairPlan` | crates/btree/src/btree.rs:1377-1456 | two entries are divided around a new one: behind both it goes alone, otherwise it joins the entry it is next to |
| `Splits.SmallEntriesSplit` | crates/btree/src/btree.rs:1671-1837 | with entries of at most half a leaf no split panics |
| `Splits.LeafSplitKeeps` | crates/btree/src/btree.rs:1402-1459 | leaf split and relink keep invariant and left links, add exactly the pending entry to the map, and leave one publishable orphan |
| `Splits.RootLeafSplitKeeps` | crates/btree/src/btree.rs:1538-1669 | splitting a leaf root keeps invariant, left links and map (plus the pending entry) with no orphan left |
| `Splits.RootInnerSplitKeeps` | crates/btree/src/btree.rs:1538-1669 | splitting an inner root keeps invariant, left links and map, also while orphans below are unpublished |
| `Merges.MergeLeavesKeeps` | crates/btree/src/btree.rs:2519-2570 | merging neighbouring leaves, with the separator it rewrites, keeps invariant and map and breaks only the successor's back link |
| `Merges.MergeInnersKeeps` | crates/btree/src/btree.rs:2643-2680 | merging neighbouring inner nodes keeps invariant, map and left links |
| `Search.FewerAbove` | crates/btree/src/btree.rs:2092-2159 | below an unpublished page there are fewer pages per level going up, so recursive publication ends |
| `Accounts.LeafSplitStops` | crates/btree/src/btree.rs:3097-3219 | after a split that only made room, the search for the key stops at the half of the leaf that its order says, with fewer entries, so the insert loop ends |
| `SequentialTree.BTree.constructor` | crates/btree/src/btree.rs:387-416 | a new tree is an empty leaf: settled, empty map, height 0, one page |
| `SequentialTree.BTree.FindParent` | crates/btree/src/btree.rs:2092-2159 | the walk over the whole tree terminates and returns the edge that names the page |
| `SequentialTree.BTree.SplitParent` | crates/btree/src/btree.rs:1239-1305 | splitting a full parent in the middle leaves everything up to the child's level unchanged and the owner of the edge with at most half the slots |
| `SequentialTree.BTree.PublishSibling` | crates/btree/src/btree.rs:1839-1971 | publication terminates, keeps the map and all lower levels, and installs the sibling; a parent with room takes it and nothing else changes; it fails on no tree with small separators |
| `SequentialTree.BTree.PutEdge` | crates/btree/src/btree.rs:1942-1971 | the write of separator and sibling into a parent with room is the publication in the tree, and keeps the map |
| `SequentialTree.BTree.CutInner` | crates/btree/src/btree.rs:1460-1504 | the page writes of an inner split are the split of the tree, with a publishable upper half |
| `SequentialTree.BTree.SplitRootInner` | crates/btree/src/btree.rs:1598-1642 | the page writes of an inner root split are the root split of the tree |
| `SequentialTree.BTree.CutLeaf` | crates/btree/src/btree.rs:1402-1459 | the page writes of a leaf split are the split of the tree; map, links and one orphan as planned |
| `SequentialTree.BTree.SplitRootLeaf` | crates/btree/src/btree.rs:1538-1669 | the page writes of a leaf root split are the root split of the tree; height grows by one and pages by two |
| `SequentialTree.BTree.SplitLeafNode` | crates/btree/src/btree.rs:1307-1532 | a split installs the pending entry or makes room as planned, with the half where the search then stops; it fails whenever the plan does, and with short keys only then |
| `Room.OverwriteInPair` | crates/btree/src/btree.rs:1377-1456 | in a leaf of two entries there is room to overwrite one if and only if the new entry fits together with the other |
| `Room.OverwriteFits` | crates/btree/src/btree.rs:2971-3095 | splits make room to overwrite an entry if the new one fits a leaf together with any other one of the leaf |
| `Room.TooLarge` | crates/btree/src/btree.rs:1671-1837 | no sequence of splits makes room for an entry that is larger than a leaf |
| `SequentialTree.BTree.FindLeaf` | crates/btree/src/btree.rs:782-909 | the descent ends at the one leaf where the search stops |
| `SequentialTree.BTree.FindLeafWithPath` | crates/btree/src/btree.rs:911-997 | the recorded path is the routed one and the leaf the one it leads to; it is refused exactly if it must be left and is not empty |
| `SequentialTree.BTree.FindLeafWithPathFallback` | crates/btree/src/btree.rs:1179-1237 | the blocking variant records the same path, follows right links as well and ends at the stop |
| `SequentialTree.BTree.Lookup` | crates/btree/src/btree.rs:3246-3268 | returns what the map holds |
| `SequentialTree.BTree.TryInsertLeaf` | crates/btree/src/btree.rs:631-648 | reports presence exactly, inserts into the map, or changes nothing and asks for a split exactly when there is no room |
| `SequentialTree.BTree.TryUpsertLeaf` | crates/btree/src/btree.rs:650-687 | overwrites or inserts, says which, or changes nothing and asks for a split |
| `SequentialTree.BTree.Misplace` | crates/btree/src/btree.rs:631-648 | what every lookup answers after an entry went into an empty leaf: a reader that comes past it finds the new key and loses every smaller one |
| `SequentialTree.BTree.MakeRoom` | crates/btree/src/btree.rs:3097-3219 | one attempt to make room: whether it restarts, strays into an empty leaf or splits is decided by the routed leaf and the one where the search stops |
| `SequentialTree.BTree.Insert` | crates/btree/src/btree.rs:3097-3219 | terminates; inserts if and only if the key is absent, as on a map, and without a split, height and page count unchanged, if there is room; is misplaced whenever the key is absent, its leaf full and the descent stranded, otherwise only behind a stale separator, and then says what every lookup answers; with short keys it panics otherwise exactly if no split of its leaf makes room; a root with two children keeps two |
| `SequentialTree.BTree.Upsert` | crates/btree/src/btree.rs:2971-3095 | terminates; the map afterwards has the value, and the answer says whether the key was new; is misplaced under the same condition, for new keys and for values that have outgrown their leaf, and panics exactly if no split makes room, also for a stored key |
| `SequentialTree.BTree.MergeLeafPair` | crates/btree/src/btree.rs:2519-2570 | the page writes of a leaf merge are the leaf merge of the tree; one page fewer, same map |
| `SequentialTree.BTree.MergeInnerPair` | crates/btree/src/btree.rs:2643-2680 | the page writes of an inner merge are the inner merge of the tree; one page fewer, same map |
| `SequentialTree.BTree.CollapseRoot` | crates/btree/src/btree.rs:247-261 | the page writes are the collapse of the tree; height and page count drop by one |
| `SequentialTree.BTree.TryMergeLeaf` | crates/btree/src/btree.rs:2682-2819 | merges exactly if a sibling at hand takes the leaf, right before left; cascades up the popped path keep the map and all invariants and make no empty leaf, and panic exactly if a separator overflows in one of the merges; otherwise everything is unchanged |
| `SequentialTree.BTree.TryMergeInner` | crates/btree/src/btree.rs:2821-2942 | merges exactly if a sibling at hand takes the node; inner merges and root collapse up the path terminate, keep the map and all invariants, and panic exactly if a separator overflows in one of them |
| `SequentialTree.BTree.AfterMerge` | crates/btree/src/btree.rs:2730-2745 | after a merge an empty root collapses and the height falls by one, an underfull node is merged in turn, and a root that had two children or one full one has two again |
| `SequentialTree.BTree.RepairSeparators` | crates/btree/src/btree.rs:2375-2408 | changes exactly the first separator behind the leaf on the path to the largest key in front of it, and panics exactly if that key does not fit |
| `SequentialTree.BTree.RemoveAt` | crates/btree/src/btree.rs:3592-3626 | removing one entry, then merging an underfull leaf or repairing the separator behind it, removes that key from the map; without a merge the tree is the old one without the entry, with the new largest key in the first separator behind; it panics exactly if something does not fit |
| `Removals.UnderfullMeans` | crates/btree/src/btree/node.rs:26-130 | a node is underfull exactly if its entries take fewer bytes than two fifths of a page, less its fixed parts |
| `Removals.ThinLeavesFit` | crates/btree/src/btree.rs:2682-2819 | two underfull leaves that are neighbours always fit one page |
| `Removals.ThinLeavesMerge` | crates/btree/src/btree.rs:2682-2819 | an underfull leaf whose next sibling is underfull and at hand is merged |
| `Removals.ThinInnersFit` | crates/btree/src/btree.rs:2572-2641 | two underfull inner nodes fit one page with a separator of at most a fifth of a page |
| `Removals.MergeTightens` | crates/btree/src/btree.rs:2519-2570 | after a leaf merge the separator behind the merged leaf is its largest key |
| `Deletes.BehindOnce` | crates/btree/src/btree.rs:2375-2408 | going up the path there is at most one first separator behind a page |
| `SequentialTree.BTree.Remove` | crates/btree/src/btree.rs:3566-3626 | removes if and only if the key is stored and the descent is not stranded on an empty leaf, and the answer says so; pages are merged away exactly if the leaf is then underfull and a sibling at hand takes it; panics if and only if a separator overflows, told on the tree before the call; keeps two children under the root, so the height falls when it can; leaves an empty leaf in front of others only if the key was the only one of such a leaf |
| `SequentialTree.BTree.Scan` | crates/btree/src/btree.rs:3699-3771 | terminates and lists every entry of the map exactly once in order |
| `SequentialTree.BTree.ScanRange` | crates/btree/src/btree.rs:3862-3931 | lists exactly the entries within the bounds, in order, for every kind of bound |
| `SequentialTree.BTree.ScanPrefix` | crates/btree/src/btree.rs:3787-3832 | lists exactly the entries with the prefix, in order |
| `SequentialTree.BTree.FindRightmostLeaf` | crates/btree/src/btree.rs:3543-3564 | following upper edges ends at the leaf they lead to, which has no right sibling if every leaf is published |
| `SequentialTree.BTree.ScanRangeDesc` | crates/btree/src/btree.rs:3947-4045 | lists backwards exactly what the range holds of the leaves on the chain of left links from its start, for recovered trees as well; that is the whole range if every left link is right and the last leaf published |
| `Descending.SeesAll` | crates/btree/src/btree.rs:3947-4045 | with all left links right a descending scan from the right leaf misses nothing |
| `Descending.Missed` | crates/btree/src/btree.rs:3947-4045 | the entries of a leaf that no left link names are missed by every descending scan that starts elsewhere |
| `SequentialTree.BTree.OwnedPageIds` | crates/btree/src/btree.rs:479-510 | terminates and returns exactly the pages reachable from the root, among recovered pages that nothing links as well; without orphans these are all pages of the tree |
| `SequentialTree.BTree.RecoveredHeight` | crates/btree/src/btree.rs:525-549 | terminates and returns the height, among recovered pages that nothing links as well |
| `SequentialTree.BTree.RebuildRecoveredMetadata` | crates/btree/src/btree.rs:517-523 | recomputes height and the number of reachable pages from any stale values, also after a crash inside a split; without orphans and stray pages the tree is settled again |
| `Histories.Apply` | crates/btree/src/btree.rs:2971-3626 | one operation answers and changes the tree as on a map unless it fails or panics; it fails if and only if the tree it is called on says so, except for a write behind a stale separator, and with short keys panics if and only if that tree says so |
| `Histories.Run` | crates/btree/src/btree.rs:2971-3626 | every history of insert, upsert, remove and lookup agrees with a map in all answers and in contents up to the first operation that fails or panics on the tree this history has made, one tree for every prefix; from a tree without empty leaves nothing fails before a delete of the only key of a leaf that is not the last; nothing panics with small entries, if keys have one length or nothing is removed |
| `Histories.FirmTrace` | crates/btree/src/btree.rs:911-997 | as long as no delete takes the only key of a leaf that is not the last, no tree of a history has an empty leaf in front of others |
| `Reach.DepthIsHeight` | crates/btree/src/btree.rs:525-549 | every path from the root to a leaf has the length of the tree's height |
| `Reach.ReachableIsAll` | crates/btree/src/btree.rs:479-510 | without orphans the reachable pages are all pages, so the page count is the number of reachable pages |
| `Scans.ListingUnique` | crates/btree/src/btree.rs:3699-3931 | a range has only one listing, so what a scan emits is determined |
| `Scans.DescendingIsReverse` | crates/btree/src/btree.rs:3933-4045 | for all bounds the descending scan is the exact reverse of the ascending one |
| `InOrder.InnerSplitReading` | crates/btree/src/btree.rs:1471-1504 | inner split with publication leaves the in-order sequence of leaves and separators unchanged |
| `InOrder.InnerMergeReading` | crates/btree/src/btree.rs:2643-2680 | inner merge leaves the in-order sequence unchanged |
| `InOrder.RootSplitReading` | crates/btree/src/btree.rs:1598-1622 | splitting an inner root leaves the in-order sequence unchanged |
| `InOrder.CollapseReading` | crates/btree/src/btree.rs:247-261 | collapsing an empty root leaves the in-order sequence unchanged |
| `InOrder.GrownReading` | crates/btree/src/btree.rs:247-261 | moving the root's content down or up leaves the sequence unchanged; a leaf root only changes its page |
| `LeafOrder.FlatAlternates` | crates/btree/src/btree.rs:1442-1459 | in order, leaves and separators alternate and start and end with a leaf |
| `LeafOrder.LeavesInOrder` | crates/btree/src/btree.rs:1427-1428 | the in-order sequence contains exactly the leaves, each once |
| `LeafOrder.LinksAreOrder` | crates/btree/src/btree.rs:2741-2752 | right and left links form one doubly linked list, equal to the leaves in order |
| `LeafOrder.SeparatorsCover` | crates/btree/src/btree.rs:1449-1470 | read in order, every separator is at least every key before it, although separators may be out of order |
| `LeafOrder.LeafSplitReading` | crates/btree/src/btree.rs:1402-1459 | leaf split, relinked and published, puts exactly one separator and the new leaf behind the old one; the rest of the sequence is the same |
| `LeafOrder.LeafMergeReading` | crates/btree/src/btree.rs:2519-2570 | leaf merge takes exactly the right leaf and the separator in front of it out, and rewrites the separator behind if the parent has one; the rest is the same |
| `Concurrent.InitOk` | crates/btree/src/btree.rs:387-416 | the empty tree with no reader and no split under way satisfies the invariant that every step keeps |
| `Concurrent.StepOk` | crates/btree/src/btree.rs:1307-1532 | every page write, publication, hop and leaf change of any thread, and every crash, keeps tree, map, pending siblings and readers consistent |
| `Concurrent.RunOk` | crates/btree/src/btree.rs:1307-1532 | in every state of every interleaved run, with any number of crashes, the invariant holds |
| `Concurrent.EveryLookup` | crates/btree/src/btree.rs:3315-3406 | in every reachable state a lookup equals the map, whatever split is half done |
| `Concurrent.EveryReader` | crates/btree/src/btree.rs:999-1122 | a reader interleaved with anything since it began still reaches the right answer by its remaining hops |
| `Concurrent.EveryAnswer` | crates/btree/src/btree.rs:3327-3353 | the answer a reader leaves with is what the map holds at that moment |
| `Concurrent.EveryHop` | crates/btree/src/btree.rs:999-1122 | every hop decreases a measure on the rest of the way |
| `Concurrent.EveryPublished` | crates/btree/src/btree.rs:1839-1971 | while nothing crashes, every page without a parent is being published, so there is none when no split is under way |
| `Atomic.StepMeans` | crates/btree/src/btree.rs:650-676 | every step does to the map, and to the keys threads have in hand, what its action means for an atomic map |
| `Atomic.EveryMap` | crates/btree/src/btree.rs:631-687 | in every state of every run the map is what the actions so far mean, told without the tree: every run is a run of an atomic map |
| `Atomic.EveryReply` | crates/btree/src/btree.rs:3327-3353 | the answer a thread takes away is what that map holds at its key |
| `Atomic.NeverStuck` | crates/btree/src/btree.rs:999-1122 | a thread under way may hop on exactly if it has not arrived |
| `Atomic.WritesOffered` | crates/btree/src/btree.rs:631-687 | a thread that has arrived may remove, insert or overwrite exactly if the map has the key or not and there is room |
| `Atomic.EveryPageFits` | crates/btree/src/btree.rs:1671-1837 | in every state of every run every page of the tree is within its space |
| `Atomic.LinkMeans` | crates/btree/src/btree.rs:1402-1459 | linking a sibling divides the entries of the leaf, with the pending one in its place, between two neighbours and leaves one to be published |
| `Atomic.CutMeans` | crates/btree/src/btree.rs:1460-1504 | cutting an inner node keeps its separators and children in order, with one separator between the halves to be published |
| `Atomic.PublishMeans` | crates/btree/src/btree.rs:1942-1971 | publication gives the sibling its edge right behind its neighbour and takes it off the stack |
| `Atomic.RootLeafMeans` | crates/btree/src/btree.rs:1538-1669 | splitting a leaf root puts two leaves under it that divide its entries |
| `Atomic.RootInnerMeans` | crates/btree/src/btree.rs:1598-1642 | splitting an inner root puts two nodes under it that divide its separators and children |
| `Atomic.SplitGoesOn` | crates/btree/src/btree.rs:1839-1971 | while nothing has crashed a split under way can always be published or goes on: the neighbour of its topmost sibling has a parent that takes it or can be cut |
| `Readers.RewriteReaders` | crates/btree/src/btree.rs:631-687 | a leaf write strands no reader standing anywhere |
| `Readers.SplitReaders` | crates/btree/src/btree.rs:1410-1459 | a leaf split strands no reader standing anywhere |
| `Records.StepIsRecord` | crates/btree/src/btree.rs:1507-1530 | a step changes the stored pages by at most one page image, the one it logs |
| `Records.CrashAnywhere` | crates/btree/src/btree.rs:1534-1642 | for every prefix of the page images of every run, the replayed pages answer every lookup, and an ascending scan from the first leaf lists every entry, exactly as the map that the actions up to the last image of the prefix mean |
| `Records.SplitPrefix` | crates/btree/src/btree.rs:1507-1530 | for every prefix of the images of one whole split, with cascaded inner splits, lookups and ascending scan are those of the map before, plus the pending entry exactly once the image that installs it is in the prefix |
| `Records.ReadsAsOnce` | crates/btree/src/btree.rs:1507-1530 | pages read as at most one map, so what recovery brings back is determined |
| `BackLinks.EveryLeftLink` | crates/btree/src/btree.rs:1507-1530 | in every state of every run, with any number of crashes, a left link is right exactly if no split has left it to be corrected |
| `BackLinks.LinkHides` | crates/btree/src/btree.rs:1507-1523 | between linking a sibling and relinking its successor, every descending scan that starts elsewhere misses the sibling |
| `Findings.StrandedDelete` | crates/btree/src/btree.rs:927-938 | a tree in which a delete of a stored key reports it absent although lookup finds it |
| `Findings.InsertStrands` | crates/btree/src/btree.rs:3097-3219 | a tree on which the insert of an absent key is blocked: its leaf is full and the second descent ends on an empty leaf |
| `Findings.InsertLoses` | crates/btree/src/btree.rs:3097-3219 | on that tree the insert is misplaced, and afterwards two stored keys are not found |
| `Findings.DeleteMisses` | crates/btree/src/btree.rs:3566-3626 | on that tree the delete of a stored key answers false and leaves it stored |
| `HollowRun.HollowReached` | crates/btree/src/btree.rs:927-938 | that tree is met by a run from the empty tree: insert, split, remove, insert |
| `LateStrands.LateStrand` | crates/btree/src/btree.rs:1307-1532 | a tree on which no descent is stranded, but the split that makes room for the entry leaves one on which it is |
| `Stale.ClearNotStranded` | crates/btree/src/btree.rs:911-997 | a search with no stale separator in front of its leaf is never stranded |
| `Stale.LeafSplitClear` | crates/btree/src/btree.rs:1402-1459 | a split makes no separator stale, and neither does the one it publishes |
| `Walks.AnswersAfterWrite` | crates/btree/src/btree.rs:3315-3406 | after an entry went into an empty leaf, a lookup answers as before unless it comes past that leaf and its key is not larger |
| `Walks.RightUnlessLost` | crates/btree/src/btree.rs:3315-3406 | such a write is right for a lookup if and only if its key is not a smaller stored one that is read past the leaf |
| `Findings.MisplacedKeeps` | crates/btree/src/btree.rs:911-938 | a write into an empty leaf leaves an ordered tree if and only if the key is below everything to its right and admitted by every separator behind |
| `Findings.RepairOverflows` | crates/btree/src/btree/node.rs:1042-1060 | a tree with entries of at most half a leaf in which the delete of a stored key makes a separator overflow, whatever is at hand for merging |
| `Findings.DeletePanics` | crates/btree/src/btree.rs:3566-3626 | on that tree the delete panics |
| `Findings.OverwritePanics` | crates/btree/src/btree.rs:1377-1456 | a leaf of two entries in which overwriting one with an entry that fits a leaf panics |
| `VersionWord.EnterThenExit` | crates/hybrid-latch/src/helpers.rs:96-139 | entering is allowed exactly if leaving will not overflow; the pair advances the word by two |
| `VersionWord.BitsAgree` | crates/hybrid-latch/src/helpers.rs:36-84 | the arithmetic of the model is what the bit operations compute on 64-bit words |
| `Latch.InitOk` | crates/hybrid-latch/src/latch.rs:261-279 | a new latch with all threads idle satisfies the latch invariant |
| `Latch.StepOk` | crates/hybrid-latch/src/latch.rs:281-716 | every step of any number of threads keeps the latch invariant |
| `Latch.WordCounts` | crates/hybrid-latch/src/latch.rs:332-361 | in every state of every run the word is twice the completed exclusive sections, plus one while a writer is inside |
| `Latch.ExitNeverOverflows` | crates/hybrid-latch/src/latch.rs:711-716 | releasing an exclusive guard never overflows |
| `Latch.PanicMeansExhausted` | crates/hybrid-latch/src/latch.rs:332-361 | a step panics if and only if it enters an exclusive section from the last readable version |
| `Latch.Exclusion` | crates/hybrid-latch/src/latch.rs:332-361 | a writer inside excludes other writers and all shared guards |
| `Latch.SharedIsFrozen` | crates/hybrid-latch/src/latch.rs:401-424 | a shared guard's version is the live word, and the data is what it was when the guard was made |
| `Latch.WordMonotone` | crates/hybrid-latch/src/latch.rs:332-361 | the word never decreases over a run |
| `Latch.QuietBetween` | crates/hybrid-latch/src/latch.rs:484-491 | between two moments with the same readable word nobody was inside and the data did not change |
| `Guards.ValidateIff` | crates/hybrid-latch/src/latch.rs:484-491 | a validation succeeds if and only if since the snapshot nobody was in an exclusive section, and then the data never changed |
| `Latch.UpgradeOnce` | crates/hybrid-latch/src/latch.rs:509-648 | over a run at most one exclusive upgrade from a snapshot value succeeds, and afterwards none of either kind |
| `Guards.UpgradeSharedIff` | crates/hybrid-latch/src/latch.rs:586-648 | an upgrade to a shared guard succeeds if and only if nobody was inside since the snapshot |
| `Guards.UpgradeExclusiveIff` | crates/hybrid-latch/src/latch.rs:493-584 | an upgrade to an exclusive guard succeeds if and only if nobody was inside since the snapshot and versions are left |
| `Guards.GuardMeans` | crates/hybrid-latch/src/latch.rs:281-482 | a snapshot is refused exactly while a writer is inside; loads and stores under the lock give their guard, and drops give everything back |
| `Guards.LockGranted` | crates/hybrid-latch/src/latch.rs:281-361 | the lock is granted exactly if no other thread is in the way, shared guards not being in the way of each other |
| `Guards.HolderGoesOn` | crates/hybrid-latch/src/latch.rs:332-361 | whoever holds the lock can always step, and lets go after at most five steps of its own |
| `Guards.EveryData` | crates/hybrid-latch/src/latch.rs:711-716 | in every state of every run the data is what was written last, and the word counts the exclusive guards dropped |
| `Extents.CentralIsDecomposition` | crates/storage/src/free_page_allocator.rs:111-162 | the central map is exactly the decomposition of its pages into maximal runs |
| `Extents.CentralUnique` | crates/storage/src/free_page_allocator.rs:111-162 | two central maps with the same pages are the same map |
| `Extents.BestFit` | crates/storage/src/free_page_allocator.rs:146-162 | finds a shortest sufficient run, the leftmost of several, exactly if there is a sufficient one |
| `Allocator.CentralInner.Insert` | crates/storage/src/free_page_allocator.rs:111-144 | adds exactly the extent's pages and coalesces; refused exactly on overlap, changing nothing |
| `Allocator.CentralInner.AllocateBestFit` | crates/storage/src/free_page_allocator.rs:146-162 | takes the head of a smallest sufficient run, keeps maximal runs and the page total, and fails exactly if no run suffices |
| `Shards.HotBucket` | crates/storage/src/free_page_allocator.rs:435-437 | the bucket of a length is the first whose limit is at least the length, and exists exactly up to 256 pages |
| `Shards.BucketMayBeShort` | crates/storage/src/free_page_allocator.rs:263-272 | every extent of a bucket is long enough for a request if and only if the request is the bucket's shortest length |
| `Allocator.FreePageAllocator.constructor` | crates/storage/src/free_page_allocator.rs:287-303 | a new allocator has at least one shard, nothing to reuse or reserved, and accounts for every page below its cursor as live |
| `Allocator.FreePageAllocator.PopAny` | crates/storage/src/free_page_allocator.rs:263-272 | takes exactly the oldest extent of the first bucket that has one; fails exactly if all are empty |
| `Allocator.FreePageAllocator.ReturnRemainder` | crates/storage/src/free_page_allocator.rs:399-403 | puts an extent behind the others of the bucket for its length, or into the central map if it is too long |
| `Allocator.FreePageAllocator.AllocateFromShard` | crates/storage/src/free_page_allocator.rs:368-375 | takes the first page of that extent and puts the rest into the bucket for its length |
| `Allocator.FreePageAllocator.RefillShard` | crates/storage/src/free_page_allocator.rs:377-397 | moves eight pages of the best-fitting run, or one if no run is that long, from the central map to the shard, and fails exactly if the map is empty |
| `Allocator.FreePageAllocator.Steal` | crates/storage/src/free_page_allocator.rs:347-366 | takes the page at the head of the next shard around the ring that has one, or shows that all buckets everywhere are empty |
| `Allocator.FreePageAllocator.AllocateLocal` | crates/storage/src/free_page_allocator.rs:347-366 | a page from the own shard, or from what refills it, and none exactly if both shard and central map are empty |
| `Allocator.FreePageAllocator.AllocateExtent` | crates/storage/src/free_page_allocator.rs:347-366 | returns the reusable page that goes first: own shard, central map, other shards around the ring; and none exactly if there is none |
| `Allocator.FreePageAllocator.TryAllocate` | crates/storage/src/free_page_allocator.rs:222-233 | takes the next reserved page exactly if the reserve is not used up |
| `Allocator.FreePageAllocator.AllocateMonotonic` | crates/storage/src/free_page_allocator.rs:405-432 | returns the shard's next reserved page, or the one at the cursor, which moves exactly then |
| `Allocator.FreePageAllocator.AllocatePage` | crates/storage/src/free_page_allocator.rs:315-323 | hands out a page that is not live, and exactly the one that goes first; live, hot, central and reserved pages stay disjoint and make up all pages below the cursor, which moves only if no reusable page exists |
| `Allocator.FreePageAllocator.PromoteReusableExtent` | crates/storage/src/free_page_allocator.rs:305-307 | retired live pages become reusable, conserving every page and never overlapping |
| `Recovery.InitOk` | crates/kvstore/src/lib.rs:136-168 | an empty store with an empty log satisfies the recovery invariant |
| `Recovery.StepOk` | crates/kvstore/src/lib.rs:126-246 | every step of work, checkpoint, crash and recovery keeps the recovery invariant, also with mutations beside the checkpoint: a header write if the durable pages hold what it lets recovery skip, a log reset if they hold everything |
| `Recovery.CarefulIff` | crates/kvstore/src/lib.rs:235-246 | a header write keeps the invariant if and only if that condition holds |
| `Recovery.ResetIff` | crates/kvstore/src/lib.rs:235-246 | a log reset keeps the invariant if and only if the durable pages hold every record |
| `Recovery.EveryCrashRecovers` | crates/kvstore/src/lib.rs:136-168 | in every state of every such run, with any number of crashes anywhere, replay from what is visible gives exactly the flushed mutations |
| `Opening.EveryOpening` | crates/kvstore/src/lib.rs:136-168 | in every state of every such run: if the process is killed or power fails here, recovery ends and the store opens with exactly the records that were flushed |
| `Opening.RecoveryEnds` | crates/kvstore/src/lib.rs:136-168 | from every state that satisfies the invariant recovery ends with the store open and every flushed record in its pages |
| `Opening.RecoveryCheckpoints` | crates/kvstore/src/lib.rs:136-168 | a recovery that finds a record the header does not cover ends with an empty log, and with pages and header durable and up to date |
| `Opening.NextOk` | crates/kvstore/src/lib.rs:136-168 | every step of recovery is possible, brings its end closer and leaves the log as it is |
| `Opening.OpensFull` | crates/kvstore/src/lib.rs:136-168 | the store does not open before every flushed record is in its pages |
| `Opening.RestKept` | crates/wal/src/wal_impl.rs:1045-1085 | in any state, every step of recovery works towards the version that replay says for a page |
| `Opening.EveryLog` | crates/wal/src/wal_impl.rs:2417-2432 | in every state of every run the log holds what the actions have appended, flushed as far as they say, and a crash takes exactly the rest |
| `Opening.CrashLoses` | crates/kvstore/src/lib.rs:126-168 | a killed process loses exactly the unflushed records, a power loss also what was not durable in the file |
| `Opening.WriteReaches` | crates/kvstore/src/lib.rs:200-205 | writing a page back brings the file up to the page in memory, and no other page |
| `Opening.SyncReaches` | crates/storage/src/page_store.rs:1027-1046 | a sync makes everything written durable, pages and header |
| `Opening.WritebackReaches` | crates/storage/src/page_store.rs:1027-1046 | what the system writes back on its own reaches the disk |
| `Opening.CheckpointBegins` | crates/kvstore/src/lib.rs:235-246 | a checkpoint flushes the log and notes the largest LSN in it |
| `Opening.FlushGoesOn` | crates/storage/src/buffer_pool.rs:6085-6165 | the page flush of a checkpoint always has a page to write or is done |
| `Opening.CheckpointEnds` | crates/kvstore/src/lib.rs:235-246 | a careful reset leaves an empty log and durable pages equal to those in memory |
| `Recovery.InvRecovers` | crates/wal/src/wal_impl.rs:1045-1085 | replay guarded by page LSN from an invariant state ends every page at its last flushed record |
| `Recovery.RecoveryFinishes` | crates/kvstore/src/lib.rs:136-168 | recovery that synced its pages has the flushed mutations durable |
| `Recovery.HeaderSafeIff` | crates/kvstore/src/lib.rs:235-246 | power loss after the checkpoint header reached the disk recovers everything if and only if the durable pages already held every flushed record it lets recovery skip |
| `Recovery.SyncedIsSafe` | crates/storage/src/page_store.rs:1027-1046 | with no unsynced page write that condition holds |
| `Reopening.LastImage` | crates/wal/src/wal_impl.rs:1045-1085 | the version replay reaches for a page names its last image in the log |
| `Reopening.ReopensToMap` | crates/kvstore/src/lib.rs:136-168 | a store whose log is that of a run of the tree, with any number of crashes in either, comes up after a kill or a power loss in any state with the map that the flushed actions mean, in every lookup and in the ascending scan |
| `Recovery.CarelessCheckpointRuns` | crates/kvstore/src/lib.rs:200-205 | one flushed and evicted record leads to a state with an unsynced page write |
| `Recovery.CarelessCheckpointFlushes` | crates/kvstore/src/lib.rs:235-246 | the flush of a checkpoint there finds nothing dirty and syncs nothing |
| `Recovery.CarelessCheckpointLoses` | crates/kvstore/src/lib.rs:235-246 | after the header write and a power loss the flushed record is gone |
| `Recovery.ResetSafeIff` | crates/wal/src/wal_impl.rs:2746-2757 | power loss after the log reset recovers everything if and only if the durable pages held every record, those appended during the checkpoint included |
| `Recovery.QuietIsSafe` | crates/kvstore/src/lib.rs:235-246 | if nothing was appended since the checkpoint began, that condition holds |
| `Recovery.BusyCheckpointRuns` | crates/kvstore/src/lib.rs:235-246 | a checkpoint of an empty store with a mutation between header and reset is a run |
| `Recovery.BusyCheckpointLoses` | crates/wal/src/wal_impl.rs:2746-2757 | the reset flushes that mutation and drops it, and a power loss loses it |
| `Header.ReadsBack` | crates/storage/src/page_store.rs:547-564 | little-endian encoding of every number that fits decodes to it |
| `Header.WritesBack` | crates/storage/src/page_store.rs:566-597 | every byte string is the encoding of what it decodes to |
| `Header.BuildHeader` | crates/storage/src/page_store.rs:547-564 | the buffer filled field by field is the header of the fields |
| `Header.HeaderRoundTrip` | crates/storage/src/page_store.rs:547-597 | for all 64-bit values, validating a built header returns its fields |
| `Header.AcceptedIff` | crates/storage/src/page_store.rs:566-597 | a page is rejected exactly by the first of magic, version and page size whose bytes differ |
| `Header.DigitAt` | crates/storage/src/page_store.rs:547-564 | byte j of a stored number is its digit to base 256 at position j, lowest first |
| `Header.Layout` | crates/storage/src/page_store.rs:530-564 | a built header byte by byte: letters, version, the five numbers at bytes 8, 16, 24, 32 and 40, and the page size |
| `Header.AcceptedFields` | crates/storage/src/page_store.rs:591-595 | the fields of an accepted page are the numbers stored at bytes 8, 16, 24, 32 and 40 |
| `Swips.EncodeMeans` | crates/swip-kernel/src/word.rs:13-60 | encoding a hot, cool or evicted swip and classifying the word gives it back |
| `Swips.MeaningEncodes` | crates/swip-kernel/src/state.rs:27-55 | every raw word is the encoding of its classification, so the classification is one to one |
| `Swips.TopBits` | crates/swip-kernel/src/state.rs:27-55 | the top two bits say what a word is, and the rest is its payload |
| `Swips.SwipWord.CoolDown` | crates/swip-kernel/src/word.rs:124-127 | cooling a hot word means Hot to Cool with the same pointer |
| `Swips.SwipWord.WarmUp` | crates/swip-kernel/src/word.rs:129-132 | warming a cool word means Cool to Hot with the same pointer |
| `Swips.SwipWord.Evict` | crates/swip-kernel/src/word.rs:134-138 | evicting a cool word means the given page id |
| `Swips.SwipWord.Resolve` | crates/swip-kernel/src/word.rs:140-144 | resolving an evicted word means Hot with the given pointer |
| `Swips.SwipWord.Apply` | crates/swip-kernel/src/word.rs:124-144 | every allowed sequence of operations refines the three-case datatype |
| `Unswizzle.WordRewrites` | crates/btree/src/btree.rs:100-115 | rewriting a live word in place, in a copy or by page id gives the same word, not resident and naming the same page |
| `Unswizzle.StaleStays` | crates/storage/src/buffer_frame.rs:766-805 | a copy keeps a resident word exactly if it names no frame of the pool |
| `Unswizzle.SameBytes` | crates/storage/src/buffer_frame.rs:718-805 | in place and in a copy, unswizzling a page gives the same bytes |
| `Unswizzle.UnswizzledMeans` | crates/storage/src/buffer_frame.rs:718-764 | unswizzling keeps keys and the page every edge names, leaves no resident word and is idempotent |
| `Unswizzle.CopyIsCleanIff` | crates/storage/src/buffer_frame.rs:766-805 | a rewritten copy has no resident word if and only if every resident word named a frame |
| `Unswizzle.PageBuffer.ConvertHotSwipsToEvicted` | crates/storage/src/buffer_frame.rs:718-764 | the loop over slots and upper word computes the unswizzled page |
| `Unswizzle.PageBuffer.ConvertSwipsInBuf` | crates/storage/src/buffer_frame.rs:766-805 | the loop over a copied page computes the unswizzled copy |
| `Unswizzle.PageBuffer.UnswizzleCopiedInnerEdges` | crates/btree/src/btree.rs:108-115 | rewriting every edge by page id gives the same unswizzled page |

## Left out

- SequentialTree.BTree.Insert: behind a stale separator whether it is misplaced is not decided on the tree before the call; when it panics is exact for trees with short keys only, and the state a panic leaves behind is not described.
- SequentialTree.BTree.Upsert: as for Insert.
- SequentialTree.BTree.Remove: a panic is reported before the write that would overflow, with the entry already removed.
- SequentialTree.BTree.TryMergeLeaf: which siblings are resident with a free latch is a parameter, fixed for one delete.
- SequentialTree.BTree.TryMergeInner: as for TryMergeLeaf.
- SequentialTree.BTree.MergeLeafPair: relinks the successor right away; the code does so after the inner merges above.
- SequentialTree.BTree.PublishSibling: always finds the parent by search, not by the recorded path, the parent hint or the non-blocking attempt, which are tried first; that it gives up is excluded for short keys, not characterised for long ones.
- SequentialTree.BTree.SplitParent: as for PublishSibling.
- SequentialTree.BTree.SplitLeafNode: as for PublishSibling; the other way to fail is exact.
- SequentialTree.BTree.MakeRoom: as for SplitLeafNode.
- SequentialTree.BTree.Scan: and the other scans run on a tree that does not change meanwhile; callbacks that stop a scan early are not modelled.
- SequentialTree.BTree.OwnedPageIds: returns the set; the order of the returned vector is not modelled.
- Histories.Run: stops at the first operation that answers differently from the map or panics; after a missed delete it may be called again, after a misplaced insert the tree is no longer ordered.
- Concurrent.StepOk: merges, separator repair and root collapse are not interleaved with readers or unfinished splits; they are in the sequential model.
- Concurrent.EveryReader: each page is read in one step; torn optimistic reads and their restarts are the latch model's subject.
- Records.CrashAnywhere: lookups and ascending scans; page images only, the byte format of the log, patches of equal length and group commit are not modelled.
- Latch.StepOk: sequentially consistent steps; weak memory order, spinning and wait statistics are not modelled.
- Allocator.FreePageAllocator.AllocatePage: one call is one step; `install_reserved_tail` and `try_allocate` interleaved more finely are not modelled, nor overflow of the 64-bit cursor.
- Allocator.FreePageAllocator.AllocateExtent: only single pages, the one length the public interface asks for.
- Allocator.CentralInner.Insert: an overlap is a refusal that changes nothing, where the code panics.
- Reopening.ReopensToMap: lookups and ascending scans, and runs whose checkpoints are careful; a sibling left unpublished by a crash stays so, and a split of that sibling is not published.
- Recovery.StepOk: one checkpoint at a time; a page version is its last log record, and a torn page write is not modelled.
- Unswizzle.UnswizzledMeans: child values are eight-byte words; slot values longer than that are opaque bytes.
- Page layout inside a slotted page: pages are sequences of entries with a cost per entry.
- Buffer pool: eviction policy, pins, the page provider and parent links of frames.
- Page allocation inside the tree: a fresh page id is any id not in use, and pages merged away leave the map at once.
- Key-value store operations above the tree, its command line, benchmarks, metrics and file input and output.
