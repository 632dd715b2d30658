# A verified model of MemoryEngine

MemoryEngine is a memory engine for disaggregated memory over RDMA. Compute nodes share a B-link tree whose pages
live on memory nodes. Every change of a page is written to a redo log, and memory nodes replay those logs to keep
replicas of the pages. This project models these two halves, proves what each promises, and joins them:
a tree changed by many threads on many compute nodes, logged as bytes, delivered in any order and replayed by the
memory node, ends up on the replica page by page if and only if every change was logged and every row is as it was
last logged. It also models the STX B+ tree, the page-cache hash table, the delta records of multi-version concurrency
control and the compound keys that order the tree.

`dafny verify dfyconfig.toml` checks everything. Where the code changes things in place, so does the model: pages are
byte arrays, streams, nodes, tables and records are classes, and every method is tied to a function of the old state.

## How the parts fit

**The B-link tree.** `BLinkPage` gives the page operations as values. `BLinkTree` has the structural invariant `Tree`:
each level is a right-linked chain of sorted pages with abutting half-open ranges from the minimum to the maximum key,
every child starts at its separator, and a new sibling is waiting (in `pend`) until one thread has posted its
separator. `BLinkSystem` is the state machine: any number of threads on any number of nodes, each action being what
one thread does under one page latch or under the root locks; node caches may be stale or invalidated at any time. A
thread counts its right turns as the code does and fails a page only where the code does. `BLinkSafety`, `BLinkRoot`
and `BLinkRuns` prove what every run keeps, `BLinkMeaning` what the steps mean for the abstract map, and `BLinkScan`
what an iterator sees. `BLinkLogger` proves when an operation loses its redo logger, and `BLinkSolo` that an insert
which meets no other thread goes down, stores and posts up to a new root without a right turn. `BLinkAlone` takes any
state of any run, waiting siblings included, and proves where a thread comes to while the others stand still: how many
actions a search takes to its answer and a store or a post to its page, and what happens when that is too far right.
`BLinkReach` walks two runs in full, up to the states where the code goes wrong. `PageBytes`, `PageLog` and
`PageBuffer` take the same operations down to the bytes of a page.

**The redo log.** `LogCodec` and `LogItems` are the byte formats, `LogWire` says what the bytes of a payload mean
without the code, `RedoPage` applies a record to a page, `LogStream` is one stream of segments, `StreamTable` finds
the stream of a write, and `Replayer` is the thread of a region. `ReplayOrder` is the ordering protocol those methods
refine: a history of records, split over streams, delivered piecewise. `ReplayRuns` has its runs, from nothing
delivered, with any deliveries and any schedule. `LogicalRegion` is the region as an object: every order of segment
requests, completed writes and turns on it is one of those runs.

**Both together.** `Replication` turns page changes into records and back, `PartialLog` asks what is left when some
changes are not logged, `ReplicatedTree` does both for whole runs of the B-link tree, and `ReplicatedBytes` carries the
result through to the bytes in the frames of the memory node.

**STX tree.** `StxTree`, `StxInsert`, `StxErase` and `StxVerify` work on tree values whose leaves have identities.
`StxChain` has the double links of the leaves, `StxDb` the whole tree object with its head, tail and counters and both
its root pointers, the member and the one in the catalogue, and `StxCheck` the whole of verify(). `StxNode` holds the
node operations in place on the slot arrays and the leaf links, each proved equal to the value operation.

**Versions of a record.** `Delta` has the records, the packed deltas that keep their older versions, and rolling back
along the pointers between them; `Snapshot` the commits that build such a chain and the reads that go back along it.
`CompoundKey` is the order of the keys.

## What the code does not do

The following are properties one would expect that do not hold as the code stands. Each has a statement in the model.

- A search before the first insert reads outside its page. leaf_page_search asserts that the leaf has a record and then
  takes its last index, -1, as an unsigned number (storage/page.cpp:325-326), and nothing on the way there looks for an
  empty tree (btr/Btr.cpp:1085-1101, 1322). `BLinkReach.SearchOnEmptyTree` is such a run. In every run a leaf has a
  record exactly when some row has been stored (`BLinkRuns.LeafHasRecord`), so a search is answered exactly then:
  `BLinkRuns.SearchAnswersTheMap`.
- Overwriting the row of an existing key writes no log record and leaves the page version alone
  (storage/page.cpp:453-462), so the replica keeps the old row: `ReplicatedTree.OverwriteOnReplica`, exactly unless the
  row is the same. It goes on until a split logs the right half of the leaf with its rows as they are
  (`ReplicatedTree.SplitLogsRight`). Runs may overwrite rows freely: once a fully logged run has been replayed, the
  replica holds the tree if and only if every row is as it was last logged (`ReplicatedTree.EveryReplayMirrors`), and
  each overwrite by another row ends that (`ReplicatedTree.OverwriteGoesStale`).
- A separator posted through the fall-back calls that pass a null logger (btr/Btr.cpp:1771 and 2046) raises the page
  version without a record. An operation loses its logger exactly when it gives up a post after five right turns, on a
  page that ends at or before the separator, with no page remembered above (`BLinkLogger.LoggerLostIff`), and in every
  run one without a logger began without one or has done just that (`BLinkLogger.WhyNoLogger`).
  `BLinkReach.PostsWithoutLogger` is such a run: one thread reads the root one level above the leaves and stalls at its
  leaf, another splits that level six times, and the first one's post then fails on the sixth page. The tree then never
  reaches the replica: some replay ends with all its pages only if every change was logged
  (`ReplicatedTree.TreeIsReplicated`). A later record of that page is never replayed, nor any after it, and the log is
  never replayed to its end (`ReplicatedTree.UnloggedThenLogged`, `ReplayRuns.BehindGapIsNeverDone`); a log can be
  replayed to its end exactly when no page has a logged change after an unlogged one
  (`ReplicatedTree.TreeLogCompletes`).
- The first root leaf is created with version 1 and never logged (btr/Btr.cpp:57-95). On a replica where its place is
  blank, a log can be replayed to its end exactly when it has no record of that page and no gap elsewhere:
  `ReplicatedTree.BlankFirstPage`. `LogOfRun` asks that the pages a tree starts with are already on the replica.
- Erasing the last pair of an STX tree frees the root leaf and clears the member root_gptr, but leaves the freed leaf in
  the catalogue (btr/stx_btree.h:2924-2943; a collapsing root is written there, 3090-3093). Every later operation starts
  from the catalogue (btr/stx_btree.h:1857, 2300, 2778), so the test for a null root never holds. In every run an
  operation starts from a live root if and only if no erasure has emptied the tree: `StxCheck.StartsLiveIff`.
  `StxCheck.EraseTwice` inserts a key and erases it twice; erase(key) makes that second call by itself where duplicates
  are allowed.
- The STX verify() fails after every initialization, insert and erase_one, except the erasure that empties the tree.
  initialization (btr/stx_btree.h:1397-1406) sets neither the head nor the tail leaf, so the leaf walk has nowhere to
  start, and after one more operation on an emptied tree the root is the freed leaf: `StxCheck.RunVerifies`. Its
  counters are wrong too: inner nodes are never counted and leaves never uncounted (btr/stx_btree.h:1526-1580). A tree
  that does pass fails again exactly after an insert that allocates an inner node (`StxCheck.InsertReverifies`), after
  an erasure that merges leaves and leaves a pair, and after one on an emptied tree (`StxCheck.EraseReverifies`). The
  links, the order and the item count that verify() is there for hold in every run: `StxCheck.RunSound`.
- A stale or failing record returns without storing the progress of its segment
  (memory_node/LogReplayerManager.cpp:598-632), so the position stays at the entry of that segment:
  `LogStream.Stream.Replay`. `ReplayRuns.NeverStale` and `Replayer.TakeIsReplay` show that neither happens for a
  gap-free history.
- A write that completes before the first segment of its stream was accepted is counted as received and never stored
  (memory_node/LogReplayerManager.cpp:134-165); received and replayed can then never become equal:
  `LogStream.Stream.Accounting` gives the exact condition.
- Streams of different nodes share a slot exactly when a region id reaches 32
  (memory_node/LogReplayerManager.h:146-148): `StreamTable.SlotIsOwn`.
- INT8 and INT16 columns get byte-fill sentinels that are not extreme (storage/DynamicCompoundKey.h:253-285):
  `CompoundKey.MinIsLeast` and `CompoundKey.MaxIsGreatest` hold exactly for the schemas without them.
- The STX erase takes the last child but one of the left node as left cousin (btr/stx_btree.h:2999). It does no harm,
  since no repair crosses parents: `StxErase.RepairIsLocal`.

## Model

| member | source | states |
|---|---|---|
| `BLinkPage.Upper` | storage/page.cpp:11-98 | the slot a key belongs to: everything before is not above it, everything from there on is above it |
| `BLinkPage.UpperUnique` | storage/page.cpp:11-98 | only one slot splits a sorted page at a key, so any search that ends at such a slot is right |
| `BLinkPage.FindComplete` | storage/page.cpp:319-384 | a key that is in a sorted leaf is found |
| `BLinkPage.WithRecordSorted` | storage/page.cpp:386-540 | storing a new key keeps the records strictly sorted |
| `BLinkTree.MoveRight` | btr/Btr.cpp:1005-1262 | right moves from any page starting at or before k end at the page of that level whose range holds k |
| `BLinkTree.Descend` | btr/Btr.cpp:658-746 | right and down moves from any such page, at any level, end at the leaf whose range holds k |
| `BLinkTree.ViewAt` | btr/Btr.cpp:1265-1339 | whatever leaf holds k in its range answers for it; the abstract map does not depend on the route |
| `BLinkTree.StoredPageOk` | btr/Btr.cpp:1837-1917 | a store into a page that is not full keeps its range, its order and its capacity |
| `BLinkTree.StoreRowKeepsTree` | btr/Btr.cpp:1837-1917 | a leaf store keeps the whole tree invariant and moves no page |
| `BLinkTree.SeparatorIsNew` | btr/Btr.cpp:1574-1630 | a waiting separator is neither in the page it belongs to nor its lowest key |
| `BLinkTree.StoreChildKeepsTree` | btr/Btr.cpp:1574-1630 | posting a separator keeps the tree and takes exactly that child off the waiting set |
| `BLinkTree.SplitPagesOk` | btr/Btr.cpp:1630-1687 | both halves of a full page are good pages with room, and the middle key lies strictly inside the old range |
| `BLinkTree.SplitKeepsTree` | btr/Btr.cpp:1630-1687 | a split keeps the tree; the new sibling waits for its separator |
| `BLinkTree.NewRootKeepsTree` | btr/Btr.cpp:275-339 | a new root over the old one and its waiting sibling keeps the tree and ends the waiting |
| `BLinkMeaning.LeafPutMeaning` | storage/page.cpp:386-540 | a leaf store changes what a lookup finds under that key and under no other |
| `BLinkMeaning.SplitLeafMeaning` | btr/Btr.cpp:1919-1946 | range check and lookup in the two halves of a split leaf give what the old leaf gave, for every key |
| `BLinkMeaning.SplitInternalMeaning` | btr/Btr.cpp:1630-1662 | range check and routing in the two halves of a split internal page select the old child, for every key |
| `BLinkMeaning.SplitPartitions` | btr/Btr.cpp:1630-1662 | the halves, with the lifted key and its child between them, are exactly the old records, as even as can be; the old page goes to its next version and the new one starts at 1 |
| `BLinkMeaning.StoreRowView` | btr/Btr.cpp:1837-1917 | a leaf store changes the abstract map at one key |
| `BLinkMeaning.SplitView` | btr/Btr.cpp:1919-1946 | a split leaves the abstract map as it was |
| `BLinkMeaning.ViewStable` | btr/Btr.cpp:275-339 | a step that leaves every leaf alone leaves the abstract map alone |
| `BLinkSafety.PutRowKeepsTree` | btr/Btr.cpp:1837-1959 | store and split under one leaf latch keep the tree, leave no page full, and only narrow ranges |
| `BLinkSafety.PutChildKeepsTree` | btr/Btr.cpp:1574-1687 | the same for a separator post with its split; the posted child stops waiting and a new sibling starts |
| `BLinkSafety.PutRowView` | btr/Btr.cpp:1837-1959 | the whole insert action changes the abstract map at its key only, to the new row |
| `BLinkSafety.PutChildView` | btr/Btr.cpp:1574-1687 | the whole separator post leaves the abstract map as it was |
| `BLinkSafety.AfterReadOk` | btr/Btr.cpp:1005-1262 | one internal_page_search never takes a search or insert to a page that starts after its key |
| `BLinkSafety.AfterReadLeafOk` | btr/Btr.cpp:1265-1339 | the same for leaf_page_search; where its right turns lead to is in `BLinkAlone.LookupAnswers` |
| `BLinkSafety.AfterReadProbeOk` | btr/Btr.cpp:1964-2060 | the fall-back search of a failed post, run with k and not the separator, hands on a page of the right level |
| `BLinkSafety.LocalKeepsInv` | btr/Btr.cpp:658-746 | searching, restarting from the root and falling back to the level above keep the system invariant |
| `BLinkSafety.PutLeafKeepsInv` | btr/Btr.cpp:1800-2026 | leaf_page_store, whatever page it finds, keeps the system invariant |
| `BLinkSafety.PutInternalKeepsInv` | btr/Btr.cpp:1540-1753 | internal_page_store, whatever page it finds, keeps the system invariant |
| `BLinkRoot.RefetchedOk` | btr/Btr.cpp:185-264 | after a refetch the cache names the index entry and its height |
| `BLinkRoot.GrowWaits` | btr/Btr.cpp:1691-1753 | the local check, the global lock and the second check keep the system invariant, whether or not they give up |
| `BLinkRoot.GrowCheckIsLocal` | btr/Btr.cpp:1695-1701 | the first check goes by the node's own root and height, stale or not, and by the index entry only when the pointer was lost; it takes the mutex exactly when the split page is the root there, else the separator is inserted top down |
| `BLinkRoot.GrowRecheckIsGlobal` | btr/Btr.cpp:1715-1750 | the second check goes by the index entry; failing it frees both locks |
| `BLinkRoot.GrowBuildKeepsInv` | btr/Btr.cpp:275-320 | building a new root under both locks keeps the system invariant |
| `BLinkRoot.RootCasSucceeds` | btr/Btr.cpp:320-339 | the compare-and-swap of the index entry always finds the old root; the new one is one level higher and starts at the minimum key |
| `BLinkRoot.GrowCasKeepsInv` | btr/Btr.cpp:320-339 | swinging the index entry and dropping the locks keep the system invariant |
| `BLinkRoot.NodeActionsKeepInv` | btr/Btr.cpp:143-183 | losing or refetching a node's root pointer at any time keeps the system invariant |
| `BLinkRoot.ActionKeepsInv` | btr/Btr.cpp:429-592 | every action of every thread keeps the system invariant |
| `BLinkRuns.InitHasInv` | btr/Btr.cpp:39-104 | a fresh tree with idle threads satisfies the invariant |
| `BLinkRuns.ReachableIsSafe` | btr/Btr.cpp:429-592 | every state of every run of any number of threads and nodes satisfies the invariant |
| `BLinkRuns.ActionMeaning` | btr/Btr.cpp:1800-2026 | the abstract map changes only when a leaf store finds its leaf, at exactly that key; splits, posts, root growth and searches leave it unchanged |
| `BLinkRuns.LeafAnswersTheMap` | btr/Btr.cpp:1265-1339 | the answer a leaf read gives is the abstract map at that moment |
| `BLinkRuns.RowsWereStored` | btr/Btr.cpp:39-104 | a key is present only after some row was stored; a fresh tree has none |
| `BLinkRuns.StoredRowStays` | btr/Btr.cpp:1800-2026 | once a row has been stored, some key is present for the rest of the run |
| `BLinkRuns.LeafHasRecord` | storage/page.cpp:319-330 | in every run, every leaf has a record if and only if some row has been stored: what leaf_page_search asserts |
| `BLinkRuns.SearchAnswersTheMap` | btr/Btr.cpp:1265-1339 | in every run, a search at the leaf of its key gets an answer if and only if some row has been stored, and the answer is the abstract map at that moment |
| `BLinkRuns.NeverTooFarRight` | btr/Btr.cpp:1005-1262 | at every moment a search or insert stands at or left of its leaf, which right and down moves reach |
| `BLinkRuns.SeparatorNeverPostedTwice` | btr/Btr.cpp:1540-1630 | a post that finds its page finds no such separator there, and room for it |
| `BLinkRuns.StepEvolves` | btr/Btr.cpp:1630-1687 | no step moves a page's lowest key or level, or raises its highest |
| `BLinkRuns.KeyStays` | btr/Btr.cpp:429-592 | a key once present stays present for the rest of the run |
| `BLinkRuns.SearchNeverMisses` | btr/Btr.cpp:658-746 | a search that reports a key absent proves it absent at every earlier moment of the run |
| `BLinkRuns.EntryOnlySwings` | btr/Btr.cpp:275-339 | the index entry only ever moves to a page exactly one level higher |
| `BLinkRuns.RootsRise` | btr/Btr.cpp:275-339 | over any stretch of a run the root is the same or strictly higher, and always starts at the minimum key; no level has two roots |
| `BLinkRuns.HeightsNeverFall` | btr/Btr.cpp:185-264 | a refetch never lowers a node's tree height |
| `BLinkLogger.StartsNoLater` | btr/Btr.cpp:1005-1262 | a page that holds a key of a lower page starts no later than that page |
| `BLinkLogger.RunStack` | btr/Btr.cpp:658-746 | in every run the pages a posting thread remembers from two levels above its target on start at or before its separator, and so does the page it posts at when it remembers none above; no thread has been higher than the root its node has cached, and none has more than five right turns behind it |
| `BLinkLogger.LoggerLostIff` | btr/Btr.cpp:1765-1775 | an operation under way loses its redo logger if and only if it gives up a post of its own split after five right turns, on a page that ends at or before the separator, with no page remembered above |
| `BLinkLogger.WhyNoLogger` | btr/Btr.cpp:2036-2047 | in every run an operation without a redo logger began without one, or gave up a post like that, and has had none since |
| `BLinkSolo.RouteHolds` | btr/Btr.cpp:1005-1262 | where no sibling of the level below waits for its separator, the child a search takes holds its key |
| `BLinkSolo.Posts` | btr/Btr.cpp:1540-1753 | a thread alone posts its separator at the page it remembers, and every split above it in turn, up to a new root, and leaves the pages below as they were |
| `BLinkSolo.Inserts` | btr/Btr.cpp:429-592 | an insert of a thread that meets no other ends, idle again and with the root cached, and has put its row in the leaf of its key and the separator of a split in the page above that leaf, each split where that filled it; nothing else changes on the two lowest levels |
| `BLinkAlone.LookupAnswers` | btr/Btr.cpp:1297-1339 | from any state of any run in which a row was stored: a search at any leaf at or left of its key, acting alone, is answered with the abstract map after exactly as many reads as there are right turns to its leaf and one more, if it has that many turns left; siblings may wait for their separators |
| `BLinkAlone.AtLeafAtWork` | btr/Btr.cpp:1265-1339 | in every run, every thread at a leaf is in such a state |
| `BLinkAlone.UpsertStores` | btr/Btr.cpp:1800-2026 | the same for an insert: after that many stores its row is in the abstract map, which changes nowhere else; with a split the thread goes on to post the start of the new leaf at the page remembered above, keeping the key of the insert to fall back on, or to grow the tree |
| `BLinkAlone.SearchDescends` | btr/Btr.cpp:1005-1262 | a descent comes, after one read for each right turn and one more, to the child for its key of the page that holds it; a top-down insert stops at its own level |
| `BLinkAlone.SearchAnswers` | btr/Btr.cpp:658-746 | a whole search that acts alone from any internal page at or left of its key is answered with the abstract map, after exactly as many actions as there are pages on its way, when no level has more right turns than it may take |
| `BLinkAlone.PostLinks` | btr/Btr.cpp:1540-1687 | a post that acts alone gives its child a parent, which it had not, after one action for each right turn and one more, and goes on with the separator of a split |
| `BLinkAlone.ProbeDescends` | btr/Btr.cpp:1775-1800 | the probe of a failed post comes back to the level of the post, at the child for its key of the page that holds that key |
| `BLinkAlone.GoesBack` | btr/Btr.cpp:1290-1320 | a thread with more right turns before it than it has left gives up with the sixth and goes back: to the page remembered above or to the root, or a post of a split to its probe |
| `BLinkAlone.GivesUpPage` | btr/Btr.cpp:1307-1339 | the same for a page that starts behind the key of the thread, at any time |
| `BLinkAlone.SearchClimbs` | btr/Btr.cpp:680-693 | a search whose level is too far right may climb to the page remembered above it |
| `BLinkAlone.PostsAtFirstPage` | btr/Btr.cpp:376-412 | a top-down insert may post at the first page of its level it comes to, wherever its separator belongs |
| `BLinkAlone.ReadsRootLeaf` | btr/Btr.cpp:1085-1101 | a search that reads a root leaf is at its leaf, or starts again when the leaf no longer holds its key |
| `BLinkReach.SearchOnEmptyTree` | btr/Btr.cpp:1085-1101 | a run from a fresh tree takes a search for any key to the empty root leaf, which cannot be searched |
| `BLinkReach.HopsAfter` | btr/Btr.cpp:1630-1687 | a change of the page that holds a key leaves the number of right turns to that key from any page of its level, or makes it one more when the key went to a new sibling |
| `BLinkReach.SixSplits` | btr/Btr.cpp:1630-1687 | while one thread stalls at its leaf, another can always insert keys just before that leaf until the level above has been split six times between the page the first one remembers and its leaf, which stays as it was |
| `BLinkReach.PostsWithoutLogger` | btr/Btr.cpp:2036-2047 | a run of two threads in which an insert with a redo logger gives up its post on the sixth page, with no page remembered above; it comes to the page that holds its separator without a logger, and the store there raises the version of that page, whatever address a split takes |
| `BLinkScan.Iterator.Next` | include/Btr.h:115-132 | Next goes to the following position, to the sibling's first record, or to the end |
| `BLinkScan.NextIsNext` | include/Btr.h:115-132 | across the unlatched gap, Next lands on a larger key and passes over no key present before and after; at the end nothing larger was left |
| `BLinkScan.SiblingLater` | btr/Btr.cpp:1930-1946 | the remembered sibling still starts where the leaf ended, however both have split since |
| `BLinkScan.ScanIncreases` | include/Btr.h:115-132 | the keys of a scan strictly increase, whatever other threads insert |
| `BLinkScan.ScanSkipsNothing` | include/Btr.h:115-132 | every key present when the scan began, not before its first record, has been yielded once the scan has passed it |
| `PageBytes.SlotBelow` | storage/page.cpp:179-215 | after a move by one record and a write, a slot before the new record is as it was |
| `PageBytes.SlotAbove` | storage/page.cpp:179-215 | and a slot behind it holds its left neighbour's old record |
| `PageBytes.RecordInserted` | storage/page.cpp:469-520 | the bytes then hold the old records with the new one inserted |
| `PageBytes.HeaderFormat` | storage/page.h:56-80 | where the fields of a page stand, in bytes: version at 16, leftmost child at 32, sibling at 40, last index at 48 (-1 when empty), level at 60, highest key at 64 and lowest behind it |
| `PageBytes.RecordsFormat` | storage/page.h:125-200 | and record i stands i record sizes behind the two keys |
| `PageBuffer.Buffer.SearchInternal` | storage/page.cpp:11-98 | the binary search over the key bytes of a page returns the child under the greatest separator not above k, else the leftmost |
| `PageBuffer.Buffer.SearchLeaf` | storage/page.cpp:319-384 | the binary search over a leaf's bytes returns the row stored under k, or nothing |
| `PageBuffer.Buffer.StoreInternal` | storage/page.cpp:104-242 | the edited bytes hold the page with the separator in order and the next version, and the operations logged are exactly the modelled ones |
| `PageBuffer.Buffer.StoreLeaf` | storage/page.cpp:386-540 | the edited bytes hold the page after an insert or an overwrite; an insert is logged and an overwrite is not |
| `PageBuffer.Buffer.CopyTimes` | btr/Btr.cpp:1930-1940 | copying the same records again and again, as the leaf split loop does, is copying them once |
| `PageBuffer.Buffer.SplitLeaf` | btr/Btr.cpp:1919-1946 | the bytes of a leaf and of its new sibling are the two halves of the old leaf |
| `PageBuffer.Buffer.SplitInternal` | btr/Btr.cpp:1630-1687 | the bytes of an internal page and of its new sibling are the two halves around the lifted key |
| `PageBuffer.Buffer.MakeRoot` | btr/Btr.cpp:275-300 | the bytes of a new root hold the two children, the separator and the full key range |
| `PageLog.StoreOpsAre` | storage/page.cpp:179-239 | the logged move and updates do to any page image what the store did to the original |
| `PageLog.StoreReplayed` | storage/page.cpp:469-533 | replayed on any image that agrees on the live content, the log of a store gives the stored page |
| `PageLog.SplitReplayed` | btr/Btr.cpp:2180-2342 | the same for the three fields logged for the old page of a split |
| `PageLog.NewPageReplayed` | btr/Btr.cpp:2180-2380 | replayed on any image whatsoever, the log of a new sibling or a new root gives that page |
| `LogCodec.UVarRoundTrip` | txn/LogCodec.h:82-95 | every 64-bit integer is read back from its variable-length form, wherever it stands in a buffer |
| `LogCodec.ReadUVar` | txn/LogCodec.h:86-95 | the reading loop, with its cut-off after ten bytes and its truncation failure, computes the specified integer |
| `LogCodec.OpRoundTrip` | txn/LogCodec.h:131-230 | every operation decodes from its encoding, at any offset |
| `LogCodec.CodecRoundTrip` | txn/LogCodec.h:122-240 | decoding an encoded payload gives back its operations |
| `LogWire.OperandIsRead` | txn/LogCodec.h:86-95 | the sum of (b[i] % 128) * 128^i over at most ten bytes, of which all but the last have the top bit set, is what the decoder reads, cut to 64 bits |
| `LogWire.ReadIsOperand` | txn/LogCodec.h:86-95 | and it reads nothing else |
| `LogWire.PutFormat` | txn/LogCodec.h:82-85 | the encoder writes a number as such bytes, in as few as it takes |
| `LogWire.DecodeFormat` | txn/LogCodec.h:178-230 | on every buffer, an operation is decoded if and only if it stands there: opcode 0x01 to 0x04, offset or destination, then length, source or value, then a third integer, a byte or the bytes, with the widths of the fields |
| `LogWire.PayloadFormat` | txn/LogCodec.h:163-240 | every payload says one list of operations after the version byte 1, whole or up to the first place where none stands, and the decoder yields just that |
| `LogWire.EncodingSays` | txn/LogCodec.h:116-160 | an encoded payload says its operations |
| `RedoPage.FillInto` | memory_node/LogReplayerManager.cpp:726-786 | a fill writes its bytes and nothing else |
| `RedoPage.OpByte` | memory_node/LogReplayerManager.cpp:726-786 | what each of the four operations makes of every single byte of a page |
| `RedoPage.MoveWithin` | memory_node/LogReplayerManager.cpp:726-786 | an overlapping move copies the bytes as they were before |
| `RedoPage.ProcessLogRecord` | memory_node/LogReplayerManager.cpp:702-787 | the page becomes the result of all operations that the bytes of the payload say, up to the first place where none stands, and that decides success |
| `RedoPage.SetVersion` | memory_node/LogReplayerManager.cpp:812-832 | the version field is written and nothing else |
| `RedoPage.Apply` | memory_node/LogReplayerManager.cpp:702-832 | after a record the page carries that record's version, even when its payload wrote over the header |
| `LogItems.HeaderRoundTrip` | txn/RedoLogger.h:80-88 | the header fields read in place are the record's; a record begins with the bytes 0x52 0x4C and a close marker is the byte 0x24 |
| `LogItems.FlatAt` | txn/RedoLogger.h:124-230 | after the first k items the flat stream continues with exactly item k |
| `LogItems.PlayConcat` | memory_node/LogReplayerManager.cpp:557-667 | replaying two stretches in turn is replaying them as one, unless the first stops |
| `LogStream.Replica.ReadVersion` | memory_node/LogReplayerManager.cpp:789-810 | the version of a page, or 0 for an address this node does not hold |
| `LogStream.Replica.TakeRecord` | memory_node/LogReplayerManager.cpp:591-664 | the eight bytes at 16 of the page decide: a record not above them is stale, one more than one above is parked; the very next one runs the operations its payload says and leaves its own version there; no other page changes |
| `LogStream.Replica.ReplayChunk` | memory_node/LogReplayerManager.cpp:557-667 | the byte loop over one segment plays its items in order and counts exactly their bytes |
| `LogStream.JoinedIsFlat` | memory_node/LogReplayerManager.cpp:134-165 | the segments in list order are one flat byte stream of items |
| `LogStream.LocatedItems` | memory_node/LogReplayerManager.cpp:517-555 | the bytes the lookup cuts from a segment are exactly the next whole items up to the limit |
| `LogStream.Stream.Accounting` | memory_node/LogReplayerManager.cpp:134-165 | recycled <= replayed <= received; received is recycled plus the segments' bytes plus what the handler has not stored yet and what it lost; caught up exactly when all are zero or replayed |
| `LogStream.Stream.AddSegment` | memory_node/LogReplayerManager.cpp:34-114 | a segment with a mapped address joins the end of the list; others are refused; no byte moves |
| `LogStream.Stream.CountReceived` | memory_node/LogReplayerManager.cpp:116-150 | the first half of the write handler: bytes are counted before they are in a segment |
| `LogStream.Stream.ExtendLast` | memory_node/LogReplayerManager.cpp:134-181 | the second half: the items join the last segment, or are lost when there is none |
| `LogStream.Stream.Locate` | memory_node/LogReplayerManager.cpp:517-529 | the lookup loop finds the segment that holds the byte at the replay position, and that byte |
| `LogStream.Stream.Recycle` | memory_node/LogReplayerManager.cpp:837-915 | exactly the leading segments leave that are finished: not the last, not empty, wholly replayed, and passed, full or closed by the marker; unread items are unchanged |
| `LogStream.Stream.ReplayRound` | memory_node/LogReplayerManager.cpp:508-680 | one round replays what is left of exactly one segment and moves the position by the items it played, or not at all on a stale or failing record |
| `LogStream.Stream.ReplayRounds` | memory_node/LogReplayerManager.cpp:508-690 | all rounds of a turn together play the items up to the limit as one stretch |
| `LogStream.Stream.Replay` | memory_node/LogReplayerManager.cpp:508-700 | a whole turn: the same pages and outcome as playing the items once, no item lost; drained or parked it stands at the item that stopped it, and when it applied a record exactly the finished segments leave and their bytes are counted as recycled; after a stale or failing record it stands at the entry of that item's segment and nothing leaves |
| `StreamTable.SlotIsOwn` | memory_node/LogReplayerManager.h:146-148 | a stream slot is its own exactly when the region id is below 32 |
| `StreamTable.SlotForAll` | memory_node/LogReplayerManager.h:105-150 | each of 32 compute nodes has a slot for each of 32 regions, and no other node has |
| `StreamTable.Table.SegmentRequest` | memory_node/LogReplayerManager.cpp:34-114 | the slot is created once, the segment joins its list exactly for a valid slot and a mapped address, which for a region below 32 is a compute node below 32, and no other stream is touched |
| `StreamTable.Table.WriteCompleted` | memory_node/LogReplayerManager.cpp:116-181 | a write reaches exactly its own stream and appends its items, or is counted and lost, or is ignored |
| `ReplayOrder.InOrderIsFold` | memory_node/LogReplayerManager.cpp:702-787 | applying a history in order gives each page the fold of its own records |
| `ReplayOrder.PageLogVersions` | memory_node/LogReplayerManager.cpp:594-632 | in a gap-free history the k-th record of a page carries its start version plus k |
| `ReplayOrder.HeadIsNew` | memory_node/LogReplayerManager.cpp:594-632 | in every consistent state the next record of every stream is newer than its page: the stale branch is unreachable |
| `ReplayOrder.ReadyIsNextOfPage` | memory_node/LogReplayerManager.cpp:594-632 | a record that passes the version check is the very next one of its page |
| `ReplayOrder.ReplayKeepsConsistent` | memory_node/LogReplayerManager.cpp:591-664 | replaying any ready record of any stream keeps the state consistent with the history |
| `ReplayOrder.DeliveryKeepsConsistent` | memory_node/LogReplayerManager.cpp:116-181 | so does any delivery to any stream |
| `ReplayOrder.StartIsConsistent` | memory_node/LogReplayerManager.cpp:276-344 | nothing delivered yet is a consistent state |
| `ReplayOrder.TurnKeepsConsistent` | memory_node/LogReplayerManager.cpp:508-700 | so does a whole turn of a stream |
| `ReplayOrder.CompleteIsInOrder` | memory_node/LogReplayerManager.cpp:314-344 | a consistent state with everything replayed has the pages of the history applied in order |
| `ReplayOrder.SomeStreamIsReady` | memory_node/LogReplayerManager.cpp:309-351 | when every predecessor of a delivered record is delivered, some stream with pending records can move |
| `ReplayOrder.StuckMeansUndelivered` | memory_node/LogReplayerManager.cpp:309-351 | when none can, some record is delivered before an earlier one of the same page |
| `ReplayRuns.RunIsConsistent` | memory_node/LogReplayerManager.cpp:276-351 | every state of every run, under any deliveries and any schedule, is consistent with its gap-free history |
| `ReplayRuns.Confluence` | memory_node/LogReplayerManager.cpp:314-344 | every run that has replayed everything ends with exactly the pages of the history applied in order |
| `ReplayRuns.NeverStale` | memory_node/LogReplayerManager.cpp:594-632 | in every run the next record of every stream is newer than its page: the stale branch is unreachable |
| `ReplayRuns.CanComplete` | memory_node/LogReplayerManager.cpp:309-351 | every run of a gap-free history, wherever it stands, can go on until everything is replayed |
| `ReplayRuns.TurnReaches` | memory_node/LogReplayerManager.cpp:508-700 | a turn of a stream is a stretch of a run |
| `ReplayRuns.StaysBelow` | memory_node/LogReplayerManager.cpp:594-632 | in every run of any history, a page stays below a version that no record of it carries |
| `ReplayRuns.BehindGapParks` | memory_node/LogReplayerManager.cpp:594-632 | every record of that page above that version, not only the first, parks whenever it is offered |
| `ReplayRuns.BehindGapIsNeverDone` | memory_node/LogReplayerManager.cpp:594-632 | and is never replayed, in any run |
| `ReplayRuns.GapIsNeverComplete` | memory_node/LogReplayerManager.cpp:225-246 | so no run ever replays such a history to its end |
| `ReplayRuns.CompleteIffGapFree` | memory_node/LogReplayerManager.cpp:309-351 | among the histories whose versions rise page by page, exactly the gap-free ones can be replayed to the end |
| `Replayer.TakeIsReplay` | memory_node/LogReplayerManager.cpp:591-664 | on a consistent state the version check applies the next record when it is ready and parks it when it is not; it never finds it stale or failing |
| `Replayer.AppliedRecords` | memory_node/LogReplayerManager.cpp:618-622 | what a stretch of items counts as applied is the number of records taken |
| `Replayer.PlayIsTurn` | memory_node/LogReplayerManager.cpp:508-700 | on a consistent state, playing the bytes of a stream is one turn of the protocol: nothing is stale and nothing fails |
| `Replayer.TakeTurn` | memory_node/LogReplayerManager.cpp:508-700 | the code on bytes refines the turn; when the byte count stands still the stream is empty or its next record is not ready |
| `Replayer.Deliver` | memory_node/LogReplayerManager.cpp:116-181 | a completed write delivers the next records of its stream, or is lost or ignored when the stream has no segment or does not exist; either way the region stays consistent |
| `Replayer.RegionTurn` | memory_node/LogReplayerManager.cpp:314-344 | the same on the region: a turn of one stream keeps the whole region consistent, replays what is ready and touches no other stream |
| `Replayer.Pass` | memory_node/LogReplayerManager.cpp:314-344 | one pass over all streams; it reports progress exactly when some stream moved, and without progress every stream is stuck |
| `Replayer.NoProgressMeansUndelivered` | memory_node/LogReplayerManager.cpp:309-351 | a pass without progress while bytes are left means a record was delivered before an earlier one of its page |
| `Replayer.CaughtUp` | memory_node/LogReplayerManager.cpp:225-246 | the waiting loop's test is true exactly when every stream has replayed what it received |
| `Replayer.CaughtUpIsDone` | memory_node/LogReplayerManager.cpp:225-246 | and then every delivered record has been applied |
| `Replayer.ProgressPass` | memory_node/LogReplayerManager.cpp:309-351 | when predecessors are delivered, a pass with bytes left strictly lowers the unreplayed total |
| `Replayer.ReplayAll` | memory_node/LogReplayerManager.cpp:276-351 | repeated passes end, caught up; for a whole history the frames then hold exactly the history applied in order |
| `LogicalRegion.Machine.RequestSegment` | memory_node/LogReplayerManager.cpp:34-114 | the stream is made once, its segment list grows by exactly an accepted segment, and the region stands as before |
| `LogicalRegion.Machine.WriteCompleted` | memory_node/LogReplayerManager.cpp:116-181 | a write delivers exactly its records, or none when it is lost or ignored, and its bytes are counted as received |
| `LogicalRegion.Machine.GiveTurn` | memory_node/LogReplayerManager.cpp:314-344 | a turn replays a ready record, leaves none ready at the head of its stream, moves no other stream, delivers nothing, and keeps the region tied to its run |
| `LogicalRegion.Machine.CatchUp` | memory_node/LogReplayerManager.cpp:225-246 | passes end with every delivered record replayed |
| `LogicalRegion.Machine.CallsAreRun` | memory_node/LogReplayerManager.cpp:276-351 | whatever calls were made, in whatever order, they are a run of the ordering protocol that ends with the pages in the frames |
| `LogicalRegion.Machine.BytesConverge` | memory_node/LogReplayerManager.cpp:276-351 | after any such calls that brought and replayed a whole history, the frames hold exactly the history applied in order |
| `Replication.RecordPlays` | btr/Btr.cpp:2180-2380 | the logged record decodes, stays inside the page, and replays as its operations and version |
| `Replication.ChangeReplayed` | btr/Btr.cpp:2180-2380 | a page change and the replay of its record agree on header, range, count, version and live records |
| `Replication.ReplicaFollows` | memory_node/LogReplayerManager.cpp:702-832 | replaying the first n records of a log gives, page by page, the tree after n changes |
| `Replication.LogIsHistory` | storage/page.cpp:179-239 | the log of changes made under page latches is gap-free per page, as the replayer needs |
| `Replication.ReplicaRepresents` | memory_node/LogReplayerManager.cpp:314-344 | in a consistent state that has replayed the whole log the replica holds the pages after all changes |
| `PartialLog.ChangesRaiseVersion` | storage/page.cpp:179-239 | after n changes, logged or not, a page's version is its first one plus the number of its changes |
| `PartialLog.KeptIsRising` | btr/Btr.cpp:1765-1775 | a log with changes left out still carries rising versions page by page |
| `PartialLog.HistoryIffGapFree` | btr/Btr.cpp:1765-1775 | it is gap-free exactly when no page has a logged change after an unlogged one and the replica began with the pages that have logged changes |
| `PartialLog.CompleteIffNoGap` | memory_node/LogReplayerManager.cpp:309-351 | exactly under that condition can it be replayed to its end |
| `PartialLog.UnloggedIsMissing` | btr/Btr.cpp:1765-1775 | no record of a page carries the version that an unlogged change gave it, and the page starts below it |
| `PartialLog.NeverRepresents` | memory_node/LogReplayerManager.cpp:594-632 | in every run the replica stays below the version of a page with an unlogged change and never represents it |
| `PartialLog.LastVersionRepresents` | memory_node/LogReplayerManager.cpp:702-832 | with every change logged, a replica page that has reached its last version represents the page after all changes, in every run and however far the other pages are |
| `PartialLog.CompleteRunMirrors` | memory_node/LogReplayerManager.cpp:314-344 | with every change logged, every run that replays everything, whatever its schedule, leaves all pages on the replica |
| `PartialLog.MirroredIffLogged` | memory_node/LogReplayerManager.cpp:276-351 | for any pages that differ from those after all changes in rows at most: some run leaves them on the replica if and only if every change was logged and they do not differ |
| `ReplicatedTree.PutChanges` | btr/Btr.cpp:1574-1687 | the records logged for a store with its split are, in order, page changes that lead from what the log said before to the stored pages, up to rows that were overwritten without a record |
| `ReplicatedTree.StepChanges` | btr/Btr.cpp:1800-2026 | the same for every action of the B-link system, overwrites included |
| `ReplicatedTree.RunChanges` | btr/Btr.cpp:429-592 | the log of a whole run leads from its first pages to its last, up to overwritten rows |
| `ReplicatedTree.RunSays` | storage/page.cpp:453-540 | in every state of a run, the pages a full log describes hold under every key the row last logged for it, by its insert or by a split |
| `ReplicatedTree.SameIffAsLogged` | storage/page.cpp:453-462 | those pages are the pages of the tree if and only if every row of the abstract map is the one last logged |
| `ReplicatedTree.TreeIsReplicated` | memory_node/LogReplayerManager.cpp:276-351 | for any run of the tree by any threads, overwrites included, and any spread of its log over streams, some replay ends with every page of the tree on the replica if and only if every change was logged and every row is as it was last logged |
| `ReplicatedTree.EveryReplayMirrors` | memory_node/LogReplayerManager.cpp:276-351 | every replay of the whole log of a fully logged run, under any deliveries and any schedule, ends with the pages the log describes, and so with the tree if and only if every row is as it was last logged |
| `ReplicatedTree.TreeLogCompletes` | memory_node/LogReplayerManager.cpp:225-246 | the log of a run can be replayed to its end exactly when no page has a logged change after an unlogged one |
| `ReplicatedTree.TreeLogIsHistory` | btr/Btr.cpp:429-592 | the log of a fully logged run is a gap-free history |
| `ReplicatedTree.OverwriteOnReplica` | storage/page.cpp:453-462 | after an overwrite the replica still agrees exactly when the row is the one it had |
| `ReplicatedTree.OverwriteGoesStale` | storage/page.cpp:453-462 | in a run whose rows are all as last logged, an overwrite logs nothing, and they still are afterwards exactly when the row is the one that was there |
| `ReplicatedTree.SplitLogsRight` | btr/Btr.cpp:2180-2342 | a leaf split logs every row of its right half as it is, and leaves those of the left half as they were last logged |
| `ReplicatedTree.UnloggedThenLogged` | btr/Btr.cpp:1765-1775 | after a store without a logger and a later logged change of that page, no replay ever replays that later record, finishes the log, or brings the page to its version |
| `ReplicatedTree.BlankFirstPage` | btr/Btr.cpp:57-95 | where the first page is blank on the replica, the log of a run, overwrites included, can be replayed to its end exactly when it has no record of that page and no gap elsewhere |
| `ReplicatedBytes.FramesMirrorTree` | memory_node/LogReplayerManager.cpp:276-351 | a region that was served in any order, has received the whole log of a fully logged run of the tree as bytes and replayed what it received, holds in its frames the pages the log describes, and so the tree if and only if every row is as it was last logged |
| `ReplicatedBytes.CatchUpWithTree` | memory_node/LogReplayerManager.cpp:225-246 | and passes over its streams get it there |
| `StxTree.MaxIsLast` | btr/stx_btree.h:3868-3952 | the separator recorded for a subtree is its last key |
| `StxTree.LowerInChild` | btr/stx_btree.h:1733-1774 | find_lower in an inner node leads to the child that holds the lower bound of the whole subtree |
| `StxInsert.SplitIsCut` | btr/stx_btree.h:2356-2430 | split_inner_node with its shifted middle, then the insertion into a half or as the split key, is one cut of the keys and children with the new ones inserted; both halves are filled enough |
| `StxInsert.LeafInserted` | btr/stx_btree.h:2436-2480 | a leaf insertion, split or not, puts the pair at its lower bound, or nothing for a disallowed duplicate |
| `StxInsert.InsertKeeps` | btr/stx_btree.h:2342-2480 | the recursive insertion keeps heights, fill, separators and order, and adds exactly the pair |
| `StxInsert.InsertIsInsert` | btr/stx_btree.h:2294-2335 | insertion into a fresh or valid tree, with root growth, gives a valid tree with exactly the pair added |
| `StxInsert.DistinctStays` | btr/stx_btree.h:2294-2335 | without duplicates allowed, distinct keys stay distinct |
| `StxErase.RepairIsLocal` | btr/stx_btree.h:2930-2985 | every repair uses a neighbour under the same parent, merges only when the neighbour is few and takes from it only when it is not |
| `StxErase.RepairChoice` | btr/stx_btree.h:2930-2985 | which of the four repairs is made, from the uses of the siblings alone: the cousins that the code looks at make no difference |
| `StxErase.JoinOk` | btr/stx_btree.h:3480-3550 | a merge fits the capacity and keeps all pairs in order |
| `StxErase.ShiftLeftIsCut` | btr/stx_btree.h:3555-3655 | shifting from the right, whose use is at least two more, is a cut of the joined nodes at the stated place |
| `StxErase.ShiftRightIsCut` | btr/stx_btree.h:3661-3765 | the same for shifting from the left |
| `StxErase.ShiftsEvenly` | btr/stx_btree.h:3555-3765 | a shift loses no slot and leaves the two nodes even, or the giving one with one more |
| `StxErase.RebalanceOk` | btr/stx_btree.h:2930-2985 | merging or shifting around a child that is one under its minimum gives children that all have enough, with right separators and the same pairs |
| `StxErase.Erase` | btr/stx_btree.h:2854-3145 | the recursive erasure removes exactly the pair at the lower bound when its key matches, else reports it missing; it keeps height, fill and separators and hands up the new last key |
| `StxErase.EraseIsRemove` | btr/stx_btree.h:2769-2792 | erase_one from a live root, or on the emptied tree value, with root collapse and the last pair, removes exactly one matching pair or reports not found, and the tree stays valid |
| `StxErase.EraseAll` | btr/stx_btree.h:2794-2808 | erasing a key removes all its pairs and counts them, also when the loop stops after the first because duplicates are not allowed |
| `StxVerify.VerifiedIsValid` | btr/stx_btree.h:3868-3952 | a tree whose nodes pass verify_node satisfies the invariant on order, fill and separators used here |
| `StxVerify.ValidIsVerified` | btr/stx_btree.h:3868-3952 | and every tree that satisfies it passes those node checks |
| `StxChain.LinkedAfter` | btr/stx_btree.h:2497-2519 | the link updates of split_leaf_node put the new leaf behind the split one in the doubly linked chain, and move the tail exactly when that was the last |
| `StxChain.Unlinked` | btr/stx_btree.h:3497-3501 | the link updates of merge_leaves take the right leaf out of the chain, and move the tail exactly when that was the last |
| `StxChain.InsertIds` | btr/stx_btree.h:2342-2523 | an insertion changes the in-order list of leaves by at most the new leaf, right behind the leaf it splits |
| `StxChain.EraseIds` | btr/stx_btree.h:2854-3145 | an erasure changes it by at most one leaf, merged into its left neighbour |
| `StxDb.InsertSound` | btr/stx_btree.h:2294-2335 | insert keeps the chain equal to the in-order list of leaves and itemcount equal to the pairs, and counts every new leaf |
| `StxDb.EraseSound` | btr/stx_btree.h:2769-2792 | erase_one keeps both, through every merge and root collapse and down to the last pair, and on an emptied tree; it uncounts no leaf, and leaves a live root in the catalogue if and only if it leaves a pair |
| `StxCheck.VerifyIff` | btr/stx_btree.h:3848-3993 | on a tree with chained leaves and counted items, verify() passes exactly when the node checks hold, head and tail are its first and last leaf, and the two other counters are right |
| `StxCheck.VerifiedIsSound` | btr/stx_btree.h:3848-3993 | a tree that passes verify() is valid with all three counters right, and its leaves are chained in order from head to tail when it has at most level 2 or distinct keys |
| `StxCheck.InsertReverifies` | btr/stx_btree.h:2294-2335 | a tree that passes verify() passes it after an insert if and only if the insert allocated no inner node |
| `StxCheck.EraseReverifies` | btr/stx_btree.h:2769-2792 | and after an erasure if and only if the tree was not empty before and nothing was found, the tree was emptied, or no leaves were merged |
| `StxCheck.RunSound` | btr/stx_btree.h:1397-1406 | in every run from initialization of erasures, and of inserts from a live root, the leaves are chained in order and the pairs counted; inner nodes are not counted and the head is not set |
| `StxCheck.StartsLiveIff` | btr/stx_btree.h:2924-2943 | in every such run an operation starts from a live root if and only if no erasure before it has emptied the tree |
| `StxCheck.RunVerifies` | btr/stx_btree.h:3848-3993 | so verify() passes in such a run exactly right after the erasure that emptied the tree |
| `StxCheck.FirstInsertFailsVerify` | btr/stx_btree.h:1397-1406 | one insert into a new tree, and verify() fails |
| `StxCheck.EraseTwice` | btr/stx_btree.h:2769-2792 | a key inserted and erased twice: the second erasure starts from the freed leaf and finds nothing, and verify(), which passed before it, fails |
| `StxNode.FindLowerItem` | btr/stx_btree.h:1733-1774 | the linear search over leaf slots finds the lower bound (the binary branch is switched off in the code) |
| `StxNode.FindLowerKey` | btr/stx_btree.h:1733-1774 | the same over the keys of an inner node |
| `StxNode.LeafList.LinkAfter` | btr/stx_btree.h:2497-2519 | the assignments to nextleaf, prevleaf and tail insert the new leaf behind the old one in the list |
| `StxNode.LeafList.Unlink` | btr/stx_btree.h:3497-3501 | the assignments of merge_leaves take the right leaf out of the list |
| `StxNode.LeafNode.SplitInto` | btr/stx_btree.h:2485-2523 | the slots are divided at half, and the new leaf is linked in behind this one |
| `StxNode.LeafNode.Insert` | btr/stx_btree.h:2436-2480 | the slot array after shifting, splitting and storing is the specified leaf, or pair of leaves; a new leaf is linked in, else no link changes |
| `StxNode.LeafNode.Erase` | btr/stx_btree.h:2870-2925 | the slot array after the removal is the specified leaf |
| `StxNode.LeafNode.MergeFrom` | btr/stx_btree.h:3480-3508 | copying the right leaf over is the specified join, and the emptied leaf leaves the list |
| `StxNode.LeafNode.TakeFromRight` | btr/stx_btree.h:3555-3600 | the copies and shifts of shift_left_leaf give the specified pair and separator |
| `StxNode.LeafNode.GiveToRight` | btr/stx_btree.h:3661-3712 | the same for shift_right_leaf |
| `StxNode.InnerNode.SplitInto` | btr/stx_btree.h:2526-2556 | keys and children are divided around the middle key, which goes up |
| `StxNode.InnerNode.InsertChild` | btr/stx_btree.h:2356-2430 | the key and child arrays after split, switch and shift are the specified node, or pair of nodes |
| `StxNode.InnerNode.MergeFrom` | btr/stx_btree.h:3511-3550 | copying the right node over, with the parent key between, is the specified join |
| `StxNode.InnerNode.TakeFromRight` | btr/stx_btree.h:3603-3655 | the copies and shifts of shift_left_inner give the specified pair and separator |
| `StxNode.InnerNode.GiveToRight` | btr/stx_btree.h:3715-3765 | the same for shift_right_inner |
| `HandleTable.MaskIffPower` | include/cache.h:443-446 | hash & (length_ - 1) is the remainder for every hash if and only if the length is a power of two |
| `HandleTable.Table.Find` | include/cache.h:443-459 | the walk along next_hash stops at the entry with that key and hash, or at the end exactly when the map has none, and hands on the slot that points there |
| `HandleTable.Table.Lookup` | include/cache.h:379-382 | a lookup returns what the map holds |
| `HandleTable.Table.Insert` | include/cache.h:384-406 | the map gains or replaces exactly that entry, the old one is returned, the links run through every entry once in the bucket of its hash, and elems_ stays the map's size and at most length_ |
| `HandleTable.Table.Place` | include/cache.h:386-391 | the two pointer assignments append the entry to its chain or put it in the place of the old one |
| `HandleTable.Table.Remove` | include/cache.h:408-429 | the map loses exactly that entry, which is returned |
| `HandleTable.Table.Unlink` | include/cache.h:419-423 | pointing the slot past the entry takes it out of its chain and leaves every other link alone |
| `HandleTable.Table.Resize` | include/cache.h:461-487 | every entry is relinked into the new buckets, none lost or doubled; the bucket count is a power of two |
| `HandleTable.Table.RelinkChain` | include/cache.h:472-481 | walking one old chain while its links are overwritten moves exactly its entries, and keeps the chains not yet walked |
| `HandleTable.Relink` | include/cache.h:474-478 | an entry goes to the front of its new chain, and no other link changes |
| `HandleTable.Table.NewLength` | include/cache.h:461-465 | the least power of two that is at least 4 and at least the number of entries |
| `Delta.ColumnOfPut` | storage/Record.h:60-68 | writing a column changes that column and no other |
| `Delta.EstimateIsExact` | storage/Record.h:300-313 | the estimated size, apart from the header, is exactly the size of the serialised fields |
| `Delta.HeaderRead` | storage/Record.h:255-262 | wherever a packed delta stands in memory, the end that roll_back finds from its size is where its fields end, and the header has the meta fields of the version it keeps |
| `Delta.RollBackRestores` | storage/Record.h:255-272 | parsing serialised fields reaches their end and restores every dirty column, on any record of the schema |
| `Delta.RestoredColumn` | storage/Record.h:255-272 | a restored record has the older version's dirty columns and keeps its others |
| `Delta.RollBackOne` | storage/Record.h:255-281 | rolling back the delta of the older version, wherever it stands in memory, restores all its columns and the version part of the meta column |
| `Delta.RollBackChain` | storage/Record.h:255-281 | rolling back n times along the pointers of the meta column gives the n-th older version |
| `Delta.Record.SetColumn` | storage/Record.h:60-68 | the column is written and recorded as dirty, and nothing outside the dirty columns differs |
| `Delta.Record.EstimateDeltaSize` | storage/Record.h:300-313 | the loop computes 41 header bytes plus the size of every dirty field |
| `Delta.Record.SerializeToDelta` | storage/Record.h:283-299 | the cursor writes exactly the fields of the dirty columns and stops where the estimate says |
| `Delta.Record.RollBackTo` | storage/Record.h:255-281 | the parsing loop over memory, from the header to the end its size says, and the meta update compute the specified older record |
| `Snapshot.FillInDelta` | txn/DeltaSection.h:138-160 | memory gets exactly the packed delta of the global record with the columns the local one has changed, and the global record takes over that set |
| `Snapshot.Commit` | txn/TransactionManagerMVOCC.cpp:744-768 | a commit makes the chain of versions one longer: the replaced version stays in a delta to which the new one points, with a larger timestamp, and the older deltas stay as they are |
| `Snapshot.ReadAt` | txn/TransactionManagerMVOCC.cpp:319-451 | a read ends with the newest version whose timestamp is in the snapshot, and finds none if and only if there is none |
| `CompoundKey.RankIsTheOrder` | storage/DynamicCompoundKey.h:100-190 | the comparison is the order of one number per key, so it is total and transitive; the B-link keys are these numbers |
| `CompoundKey.EqualIsSame` | storage/DynamicCompoundKey.h:100-190 | two keys compare equal exactly when their bytes are the same |
| `CompoundKey.ComparesKeys` | storage/DynamicCompoundKey.h:100-190 | for any columns: the first one whose bytes differ decides; among byte strings the first byte that differs, among all others the numbers whose little-endian two's complement the bytes are |
| `CompoundKey.ComparesNumbers` | storage/DynamicCompoundKey.h:113-157 | any two numbers in the range of a number type, as bytes of a column, compare as numbers |
| `CompoundKey.HoldsNumber` | storage/DynamicCompoundKey.h:113-157 | and every field of such a column is the bytes of some number |
| `CompoundKey.CompareKeys` | storage/DynamicCompoundKey.h:100-190 | the loop over the columns computes that order, which is the one of `CompoundKey.ComparesKeys` |
| `CompoundKey.MinIsLeast` | storage/DynamicCompoundKey.h:253-335 | the minimum sentinel is below every key exactly when no column is INT8 or INT16 |
| `CompoundKey.MaxIsGreatest` | storage/DynamicCompoundKey.h:253-335 | the same for the maximum sentinel |
| `CompoundKey.Encode` | storage/DynamicCompoundKey.h:289-335 | the field loop writes the sentinel of the schema's key columns |
| `CompoundKey.SentinelOf` | storage/DynamicCompoundKey.h:289-335 | the field of key column i in a sentinel is the extreme of the table column that the schema names there |
| `CompoundKey.SentinelCache.Value` | storage/DynamicCompoundKey.cpp:12-62 | whatever was cached before, in either level, the answer is a fresh encoding for this schema, and both levels then hold it |

## Left out

- The latches themselves (SELCC), RDMA, sockets, memcached, threads and condition variables: a page latch is one
  atomic action, a completed write is one call.
- Deleting from the B-link tree and lower_bound: delete changes a leaf under a shared latch (btr/Btr.cpp:1359, 1422)
  and never merges, and the two descriptions of lower_bound disagree.
- Liveness of B-link operations: whether retries end depends on scheduling. The fall-back loop that searches with k in
  place of the separator (btr/Btr.cpp:2049) is modelled and proved safe, not proved to end.
- btr/Btr_backup.cpp, an older copy of the tree.
- STX lock coupling, iterators, bulk loading, copying, dump and erasing through an iterator.
- The level argument of split_inner_node (btr/stx_btree.h:2543): levels are heights in the model.
- The branch that renews a leaf's split key after an insertion at its end (btr/stx_btree.h:2470-2476): after a split it
  is never taken, since the slot then lies strictly inside the left half, and without one the key is not used.
- Inserting into an STX tree that erasing has emptied, which writes into the freed leaf (btr/stx_btree.h:2300), and what
  an erasure there would do if another tree had reused that leaf.
- R-tree, hash index, benchmarks, and the simulated replay functions.
- FLOAT, DOUBLE and UINT32 key columns.
- Debug-only fields and checks: the log type in record headers, the deadlock counter, the shadow map of the cache, and
  the assertions that a leaf search is not below the first key and that a delta has a field.
- Wrap-around of 64-bit byte counters, of page versions, of the 32-bit table length and of the 32-bit size of a delta;
  `StoreLeaf` and the others ask that the version has room, and `Delta` that a delta fits its size.
- The ring buffer, allocation and reuse of delta sections: `Snapshot` asks that a new delta overwrites none that the
  record still points to.
- The isolation levels and validation of transactions around `Snapshot.Commit` and `Snapshot.ReadAt`.
- Replayer.Deliver: completions of one stream are handled in order, one at a time; both halves of the handler are
  separate steps in LogStream.Stream, where a turn may run between them.
- StxErase.Erase: works on tree values; in StxNode a key and its datum are one element, and a child pointer is the
  subtree it points to.
- BLinkScan.Iterator.Next: takes the latched leaf as an argument; Get only copies the record out.
- LogStream.Stream.Replay: the limit of a turn is given as a number of whole items, since writes end at item
  boundaries (the code asserts this); a write that ends inside a record is not modelled. A turn is one call: a write
  that arrives between two of its rounds comes after it, since the turn read its limit before the first round.
- PageBuffer.Buffer.SearchLeaf: asks for a leaf with a record, as the code does; without one the code has no answer.
- StxCheck.VerifiedIsSound: does not conclude that the leaves are chained in order for a tree above level 2 with equal
  keys; verify() compares the links between such subtrees by key only, and subtrees of equal keys may stand either way.
