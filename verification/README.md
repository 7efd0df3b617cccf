# Verified model of the containers, the buffer-queue broker and the edje compiler pieces

This project models, in Dafny, the parts of the repository that keep the most
intricate state, and proves what they are for:

- the in-place bottom-up merge sort of `evas_list.c` (EvasList, on the plain
  merge sort of RunMerge);
- the buffer-queue broker of `bq_mgr.c`: a state machine with event logs
  (BrokerModel), what every run of it keeps (BrokerRuns), its state told from the
  requests alone (BrokerHistory), and the handlers on reference-counted objects,
  each proved to be one step of it (Broker);
- the pool allocator of `evas_mempool.c`, with free lists threaded through
  memory (Mempool);
- the resizing hash table of `ecore_hash.c`: tables as values (HashModel), the
  proof that they are finite maps with cheap resizing (HashProofs), and the
  same on linked nodes and a bucket array (EcoreHash);
- the binary heap of `ecore_sheap.c` (Sheap) and the sorts of `ecore_list.c`
  (EcoreList, on the stable merge sort of StableSort);
- the script parser and printer of `edje_cc_script.c` (Script, ScriptRoundTrip),
  the integer evaluator of `edje_cc_parse.c` (IntExpr), and the model-directory
  compaction and the color tree of `edje_cc_out.c` (ModelDirectory, ColorTree).

Code that changes things in place is modelled by classes, arrays and loops.
Each method is proved against a function on values, and the properties are
lemmas about that function.  Comparison and hash functions are arbitrary; where
a result needs a total preorder, or a hash that respects the comparison, the
lemma says so.  Ghost parameters of methods (chains of nodes, the data they
hold) only name the state before the call.

`dafny verify dfyconfig.toml` checks everything.

Where the code and its promise differ, the code is modelled and the difference
is a lemma: an edje script loses the last character of a function body
(`ScriptRoundTrip.ParseBody`, `ScriptRoundTrip.BodyKeptIffSpaced`); in an
integer expression a unary plus is read as 0 with the plus sign left over
(`IntExpr.SignMisread`, harmless exactly behind + and in front of a whole
expression: `IntExpr.UnaryPlusExactly`, `IntExpr.LeadingPlus`), and a minus sign
that is not in front of a digit is read as 0 (`IntExpr.MinusStops`,
`IntExpr.MinusStopsBehind`, `IntExpr.UnaryMinusExactly`); rewriting an edje
script follows a NULL pointer when a message handler was written with nothing
between its braces, or when a name that is compared or printed is missing
(`ScriptRoundTrip.RewriteExactly` is the exact condition,
`ScriptRoundTrip.EmptyHandler` and `ScriptRoundTrip.NamelessVariable` are two
texts that do it); a variable behind a forward declaration takes over the
function's tag and arguments (`ScriptRoundTrip.ForwardDeclarationSticks`);
merging message handlers can lose a line break
(`ScriptRoundTrip.MessageBodiesExactly`); a color tree that begins with a brace
is named by an uninitialized buffer (`ColorTree.ForestExactlyWhen`,
`ColorTree.StaleNameMakesCycle`); the move to the front in `evas_mempool_malloc`
is dead code (`Mempool.EvasMempool.FindFree`).
`ecore_list_sort` is documented as possibly unstable;
`EcoreList.SwitchUnobservable` says when that cannot be seen.

## Model

| member | source | states |
|---|---|---|
| EvasList.EvasListSort | src/benchmarks/eina/evas_list.c:960-1064 | for every list, size and comparison: the returned list is a well-linked list of the same nodes with the right `last` and `count`; if 0 < size <= the number of nodes, its first `size` nodes are the first ones of the list, sorted by their data for a total preorder, and the later ones are where they were; for any other size all nodes are sorted; without list or comparison the result is NULL and nothing changes |
| EvasList.SortPrefixCorrect | src/benchmarks/eina/evas_list.c:960-1064 | the run-merge order of the first n nodes is a permutation of them, for every comparison, in non-descending order of their data if that is a total preorder on it; the later nodes stay |
| EvasList.SortPrefixPermutes | src/benchmarks/eina/evas_list.c:960-1064 | and a permutation of all nodes for every comparison, even one that is no order |
| EvasList.RoundsCover | src/benchmarks/eina/evas_list.c:977-989 | halving `list_number` while doubling the run length keeps `list_number + 1` merges enough for every pass and for the whole list at the end |
| EvasList.SortPass | src/benchmarks/eina/evas_list.c:983-1059 | one pass merges all neighbouring runs of the first `size` nodes, in place, and keeps head and tail right |
| EvasList.MergeRound | src/benchmarks/eina/evas_list.c:991-1058 | one round of `process_list` replaces two adjacent runs by their merge and leaves the rest of the chain alone |
| EvasList.Relink | src/benchmarks/eina/evas_list.c:1030-1045 | the relinking block moves `head2` in front of `head1` and the chain stays doubly linked |
| RunMerge.MergeSorted | src/benchmarks/eina/evas_list.c:1007-1057 | merging two sorted runs gives a sorted run |
| RunMerge.MergePermutes | src/benchmarks/eina/evas_list.c:1007-1057 | merging keeps every element |
| RunMerge.MergeRunsDoubles | src/benchmarks/eina/evas_list.c:979-1060 | a pass over sorted runs of length w leaves sorted runs of length 2w |
| RunMerge.BottomUpSortCorrect | src/benchmarks/eina/evas_list.c:960-1064 | passes with doubled run lengths sort and permute every input |
| BrokerRuns.ConsumerRebuildsQueue | src/bin/ecore_buffer/bq_mgr.c:329-378 | in every run, replaying a connected consumer's event log gives exactly the queue's current buffers with engine, size, format, flags, kind, id, offsets and strides, whether it joined before or after them |
| BrokerRuns.LogsKeepProtocol | src/bin/ecore_buffer/bq_mgr.c:240-312 | in every run, the log of every consumer and provider, live or destroyed, obeys the protocol: connected and disconnected alternate, buffer events lie inside a connection, a buffer is attached once before any set or add, all are detached before disconnected |
| BrokerRuns.ReferencesExact | src/bin/ecore_buffer/bq_mgr.c:127-238 | in every run, a queue's references are its consumer and provider, a buffer's are its live sides, buffers exist only under a provider and have a consumer side exactly when the queue has a consumer, registered queues are referenced, and no fd is closed twice |
| Broker.BqMgr.FreedExactly | src/bin/ecore_buffer/bq_mgr.c:127-238 | in every reachable state of the objects, a queue, consumer, provider or buffer ever created is freed exactly if no registered queue holds it any more; so a name is registered exactly as long as its queue is live |
| Broker.BqMgr.Serve | src/bin/ecore_buffer/bq_mgr.c:240-745 | any sequence of requests that is a run of the model, from any valid state of the objects, is served by the handlers one after another and leaves the objects in the state the model reaches |
| Broker.BqMgr.Dispatch | src/bin/ecore_buffer/bq_mgr.c:240-745 | whatever request the model admits, the objects it names are there and its handler does the model's step |
| Broker.BqMgr.OthersServe | src/bin/ecore_buffer/bq_mgr.c:240-745 | a request leaves every other queue registered, with the same consumer, provider and buffer objects |
| BrokerRuns.StepKeepsInv | src/bin/ecore_buffer/bq_mgr.c:240-745 | every request and every destruction keeps the invariant behind the three results |
| BrokerRuns.RunKeepsInv | src/bin/ecore_buffer/bq_mgr.c:240-745 | so does every run |
| BrokerRuns.LegalLogKeepsProtocol | src/bin/ecore_buffer/bq_mgr.c:329-378 | a consumer log that the strict replay accepts obeys the protocol's rules stated without any replay |
| BrokerRuns.LegalProviderLogKeepsProtocol | src/bin/ecore_buffer/bq_mgr.c:651-676 | the same for providers |
| BrokerRuns.CatchUpRebuilds | src/bin/ecore_buffer/bq_mgr.c:431-444 | the events sent to a late consumer rebuild all buffers that are already there |
| BrokerRuns.DetachAllEmpties | src/bin/ecore_buffer/bq_mgr.c:651-667 | the events of a provider's end detach every buffer before disconnected |
| BrokerRuns.CatchUpClosesOnce | src/bin/ecore_buffer/bq_mgr.c:361-376 | catching up closes each waiting fd once |
| BrokerHistory.RunIsTold | src/bin/ecore_buffer/bq_mgr.c:240-745 | after every run the whole state is a function of the requests alone: which queues are registered, the sizes of each consumer, every log, live or ended, every buffer's handle, attributes, content and serial, and the fds closed |
| BrokerHistory.BuffersAsAsked | src/bin/ecore_buffer/bq_mgr.c:455-632 | the buffers of a queue are those attached and not yet gone, in order, each with the attributes of its attach request, the content of the last request that set it and the serial of the last that enqueued it |
| BrokerHistory.EnqueueTells | src/bin/ecore_buffer/bq_mgr.c:620-624 | in every run, an enqueue request adds exactly one event to the consumer's log: the buffer with the serial of that request |
| BrokerHistory.ReleaseTells | src/bin/ecore_buffer/bq_mgr.c:240-260 | in every run, a release request adds exactly one event to the provider's log: the buffer with the serial of the last enqueue request for it, 0 if there was none |
| BrokerHistory.ConnectionTells | src/bin/ecore_buffer/bq_mgr.c:381-446 | a provider is told the sizes in the request that made the consumer, whichever of the two came first |
| Broker.BqMgr.CreateConsumer | src/bin/ecore_buffer/bq_mgr.c:381-446 | the handler on reference-counted objects does the model's step: refused if the queue has a consumer, otherwise connects it and replays the buffers; the provider and the buffer objects stay, and what is added is new |
| Broker.BqMgr.CreateProvider | src/bin/ecore_buffer/bq_mgr.c:683-745 | the same for providers; the consumer and the buffer objects stay |
| Broker.BqMgr.ProviderAttachBuffer | src/bin/ecore_buffer/bq_mgr.c:455-495 | does the model's attach step: the list gets one new buffer object, and the provider goes on serving the queue |
| Broker.BqMgr.ProviderSetBufferId | src/bin/ecore_buffer/bq_mgr.c:498-531 | does the model's set-id step, and provider, consumer and buffers are the same objects |
| Broker.BqMgr.ProviderSetBufferFd | src/bin/ecore_buffer/bq_mgr.c:533-567 | does the model's set-fd step, closing the fd when a consumer was told, and provider, consumer and buffers are the same objects |
| Broker.BqMgr.ProviderDetachBuffer | src/bin/ecore_buffer/bq_mgr.c:569-594 | does the model's detach step, and the buffer object is freed with no reference left; all others stay |
| Broker.BqMgr.ProviderEnqueueBuffer | src/bin/ecore_buffer/bq_mgr.c:597-632 | does the model's enqueue step, and provider, consumer and buffers are the same objects |
| Broker.BqMgr.ConsumerReleaseBuffer | src/bin/ecore_buffer/bq_mgr.c:240-260 | does the model's release step, and provider, consumer and buffers are the same objects |
| Broker.BqMgr.ConsumerDestroy | src/bin/ecore_buffer/bq_mgr.c:266-312 | does the model's step: every buffer is freed, the provider is told, the consumer is freed, the queue is released, and unregistered and freed with its last reference; the provider goes on serving it otherwise |
| Broker.BqMgr.ProviderDestroy | src/bin/ecore_buffer/bq_mgr.c:635-680 | the same at the provider's end, and the consumer is told of every buffer before disconnected |
| Broker.BqQueue.ConsumerDestroyed | src/bin/ecore_buffer/bq_mgr.c:281-310 | draining the buffer list frees every buffer, with no reference left, frees the consumer and leaves the queue consistent |
| Broker.BqQueue.ProviderDestroyed | src/bin/ecore_buffer/bq_mgr.c:645-676 | the same at the provider's end, with the log the consumer gets |
| Broker.CatchUpConsumer | src/bin/ecore_buffer/bq_mgr.c:431-444 | the loop over the existing buffers sends the model's catch-up events and gives each buffer a consumer side |
| Broker.BqMgr.QueueNew | src/bin/ecore_buffer/bq_mgr.c:212-238 | finds the registered queue and takes a reference, or registers a new one |
| Broker.BqMgr.QueueUnref | src/bin/ecore_buffer/bq_mgr.c:135-149 | releases a reference; the last one unregisters and frees the queue |
| Mempool.EvasMempool.Malloc | src/benchmarks/eina/evas_mempool.c:64-130 | returns a slot that was not live, adds a pool exactly if all are full, adds exactly it to the live slots, counts it, and writes no word inside a live slot |
| Mempool.EvasMempool.Free | src/benchmarks/eina/evas_mempool.c:132-190 | takes exactly the given slot off the live ones, writes only in it, and drops a pool left empty; an address outside all pools changes nothing |
| Mempool.EvasMempool.FindFree | src/benchmarks/eina/evas_mempool.c:73-91 | the search stops at the first pool or finds all pools full; the move to the front inside it is never reached |
| Mempool.EvasMempool.FindPool | src/benchmarks/eina/evas_mempool.c:145-150 | finds the pool whose memory holds the address, or no pool does |
| Mempool.EvasMempool.ClientWrite | src/benchmarks/eina/evas_mempool.c:109-128 | whatever the client writes into a live slot, all free lists stay intact |
| Mempool.LiveSlotsDisjoint | src/benchmarks/eina/evas_mempool.c:40-51 | live slots never overlap, across all pools |
| Mempool.OwnsSlot | src/benchmarks/eina/evas_mempool.c:145-150 | the pool found for a live slot is the one that handed it out |
| Mempool.PoolNew | src/benchmarks/eina/evas_mempool.c:29-54 | threads a free list through all slots of a new pool |
| Mempool.TakeSlot | src/benchmarks/eina/evas_mempool.c:109-127 | takes the first free slot of a pool and keeps usage plus free-list length |
| Mempool.GiveSlot | src/benchmarks/eina/evas_mempool.c:151-154 | puts a slot back in front of the pool's free list |
| Mempool.TakeFromFirst | src/benchmarks/eina/evas_mempool.c:109-127 | takes a slot from the first pool and moves it to the end when it has filled up, keeping full pools last |
| Mempool.GiveBackTo | src/benchmarks/eina/evas_mempool.c:151-184 | gives a slot back and drops the pool or moves it to the front, keeping one well-linked list with full pools last and no empty pool |
| Mempool.Unlink | src/benchmarks/eina/evas_mempool.c:157-167 | takes any pool out of the doubly linked list, with both ends right |
| Mempool.MoveFirstToEnd | src/benchmarks/eina/evas_mempool.c:111-124 | moves the first pool to the end of the list, links and ends right |
| Mempool.WriteKeepsPools | src/benchmarks/eina/evas_mempool.c:46-51 | a write into a live slot touches no word of any free list |
| HashProofs.RunIsMap | src/benchmarks/eina/ecore_hash.c:177-582 | over every run of set, get, remove and import from a new table, lookups are those of a finite map, and after every operation the load is within both bounds |
| HashProofs.MovesAreFew | src/benchmarks/eina/ecore_hash.c:714-844 | over every run, all rehashes together move at most three nodes for each set, get, remove and entry imported |
| HashProofs.OpPays | src/benchmarks/eina/ecore_hash.c:469-470 | each operation's moves are paid for by what was saved up and three credits, for an import three an entry |
| HashProofs.SetIsUpdate | src/benchmarks/eina/ecore_hash.c:177-205 | set is map update, keeps the load bounds, and resizes only for a new key |
| HashProofs.RemoveIsDelete | src/benchmarks/eina/ecore_hash.c:520-582 | remove is map deletion and keeps the load bounds; even a miss may shrink the table |
| HashProofs.SetResizes | src/benchmarks/eina/ecore_hash.c:20-24 | a set grows the table exactly if the key is new and there were four nodes a bucket |
| HashProofs.RemoveResizes | src/benchmarks/eina/ecore_hash.c:25-30 | a removal, hit or miss, shrinks the table exactly if nodes left / buckets of the smaller size < 3 * 0.375 |
| HashProofs.NodeGetCorrect | src/benchmarks/eina/ecore_hash.c:626-659 | a lookup finds the map's value, and moving the node to the front changes no lookup |
| HashProofs.ImportCorrect | src/benchmarks/eina/ecore_hash.c:214-252 | importing any entries, in any order and with repeated keys, even from a table built by other hash and comparison functions, is map override with the later entries last |
| HashProofs.ImportIsOverride | src/benchmarks/eina/ecore_hash.c:214-252 | if the imported table tells the same keys apart, however it hashes them, importing overrides the map by the imported one, for tables of any sizes |
| HashProofs.RehashCorrect | src/benchmarks/eina/ecore_hash.c:823-844 | a rehash with room resizes no further, moves each node once, loses none and keeps the map |
| HashProofs.ResizeCorrect | src/benchmarks/eina/ecore_hash.c:714-815 | growing or shrinking keeps the map and counts the moves |
| HashProofs.GrownCorrect | src/benchmarks/eina/ecore_hash.c:469-470 | the resize in front of an insertion changes the size as the load asks, moves every node once and keeps the map |
| HashProofs.ShrunkCorrect | src/benchmarks/eina/ecore_hash.c:578-579 | the resize behind a removal does the same |
| HashProofs.NodeAddCorrect | src/benchmarks/eina/ecore_hash.c:460-484 | adding a new key, with the resize it may start, is map insertion |
| HashProofs.NodesIsSize | src/benchmarks/eina/ecore_hash.c:460-582 | `nodes` is the number of keys of the map: the buckets list every key once |
| HashModel.AddKeepsBalance | src/benchmarks/eina/ecore_hash.c:20-30 | the load bounds hold again after every insertion |
| HashModel.RemoveKeepsBalance | src/benchmarks/eina/ecore_hash.c:20-30 | and after every removal, hit or miss |
| HashModel.AddPays | src/benchmarks/eina/ecore_hash.c:20-30 | amortized cost of an insertion in terms of sizes alone |
| HashModel.RemovePays | src/benchmarks/eina/ecore_hash.c:20-30 | amortized cost of a removal |
| HashModel.GrowsWhenFull | src/benchmarks/eina/ecore_hash.c:20-24 | between operations, the growth test holds exactly at four nodes a bucket |
| HashModel.PrimesGrow | src/benchmarks/eina/ecore_hash.c:33-38 | neighbouring table sizes differ by factors between 3/2 and 3 |
| EcoreHash.EcoreHash.Set | src/benchmarks/eina/ecore_hash.c:177-205 | on linked nodes and a bucket array: leaves the table that the model's set gives |
| EcoreHash.EcoreHash.Get | src/benchmarks/eina/ecore_hash.c:494-509 | returns the map's value and leaves the model's table |
| EcoreHash.EcoreHash.Remove | src/benchmarks/eina/ecore_hash.c:520-582 | returns the map's value and leaves the model's table |
| EcoreHash.EcoreHash.HashSet | src/benchmarks/eina/ecore_hash.c:214-252 | leaves the model's import in this table and a new empty table in the other, sharing nothing, so that both can be used again |
| EcoreHash.EcoreHash.NodeGet | src/benchmarks/eina/ecore_hash.c:626-659 | finds the node, relinked at the front of its bucket |
| EcoreHash.EcoreHash.NodeAdd | src/benchmarks/eina/ecore_hash.c:460-484 | links the node in front of its bucket, after the resize if one is due |
| EcoreHash.EcoreHash.Rehash | src/benchmarks/eina/ecore_hash.c:823-844 | pops every node of the old array and adds it, as the model's rehash does, even if an addition should resize again |
| EcoreHash.EcoreHash.Increase | src/benchmarks/eina/ecore_hash.c:713-766 | replaces the bucket array by the next larger one |
| EcoreHash.EcoreHash.Decrease | src/benchmarks/eina/ecore_hash.c:773-815 | replaces the bucket array by the next smaller one |
| EcoreHash.BucketGet | src/benchmarks/eina/ecore_hash.c:668-707 | finds the first node with the key and unlinks it unless it is in front |
| EcoreHash.CutFromRow | src/benchmarks/eina/ecore_hash.c:540-576 | removes the first node with the key from its chain with a trailing pointer |
| Sheap.Sheap.Insert | src/benchmarks/eina/ecore_sheap.c:127-207 | refuses when full, otherwise adds exactly the item and keeps heap order for either order |
| Sheap.Sheap.Extract | src/benchmarks/eina/ecore_sheap.c:216-233 | returns an item x with compare(x, y) <= 0 for every item y, or >= 0 in a maximum heap, removes exactly it and keeps heap order; NULL when empty |
| Sheap.Sheap.Extreme | src/benchmarks/eina/ecore_sheap.c:241-248 | returns such an item without removing it |
| Sheap.Sheap.Sort | src/benchmarks/eina/ecore_sheap.c:330-354 | leaves the same items in non-descending order, or non-ascending for a maximum heap, in a new array, and sets the flag |
| Sheap.Sheap.Item | src/benchmarks/eina/ecore_sheap.c:364-377 | returns the i-th item in order, sorting first if the flag is not set; NULL beyond the size; the array is the old one or a new one |
| Sheap.Sheap.OrderSet | src/benchmarks/eina/ecore_sheap.c:313-321 | the same items as a heap of the new order, from any arrangement |
| Sheap.Sheap.CompareSet | src/benchmarks/eina/ecore_sheap.c:290-303 | the same items as a heap of the new comparison, from any arrangement |
| Sheap.Sheap.Heapify | src/benchmarks/eina/ecore_sheap.c:384-430 | restores heap order below a slot that may belong further down |
| Sheap.Sheap.SiftUp | src/benchmarks/eina/ecore_sheap.c:149-204 | restores heap order above the last slot |
| Sheap.Sheap.UpdateData | src/benchmarks/eina/ecore_sheap.c:432-451 | inserts every item again into a new array of full size |
| Sheap.TopIsExtreme | src/benchmarks/eina/ecore_sheap.c:216-233 | the top of a heap comes before everything in it |
| Sheap.SwapUp | src/benchmarks/eina/ecore_sheap.c:161-182 | swapping with the parent moves the only misplaced slot up |
| Sheap.SwapDown | src/benchmarks/eina/ecore_sheap.c:420-429 | swapping with the better child moves the only misplaced slot down |
| Sheap.MovingStep | src/benchmarks/eina/ecore_sheap.c:343-344 | extracting into an array keeps it sorted, below all that is left, and complete |
| EcoreList.EcoreList.DListMergesort | src/benchmarks/eina/ecore_list.c:1941-1966 | leaves a correct doubly linked list of the same nodes, with first, last and every link back right, holding the stable merge sort of the data in the given direction |
| EcoreList.EcoreList.ListMergesort | src/benchmarks/eina/ecore_list.c:1029-1054 | the same for singly linked lists |
| EcoreList.DNodeMergesort | src/benchmarks/eina/ecore_list.c:2009-2051 | recursive sort of a doubly linked chain, including the data swap for two nodes |
| EcoreList.DNodeMerge | src/benchmarks/eina/ecore_list.c:2053-2106 | merges two doubly linked chains in place, the first one first on ties, with every link both ways |
| EcoreList.NodeMergesort | src/benchmarks/eina/ecore_list.c:1097-1138 | recursive sort of a singly linked chain |
| EcoreList.NodeMerge | src/benchmarks/eina/ecore_list.c:1140-1185 | merges two singly linked chains in place |
| EcoreList.EcoreList.ListHeapsort | src/benchmarks/eina/ecore_list.c:1198-1234 | leaves the nodes as they are, with the data a permutation in non-descending order, or non-ascending if so asked |
| EcoreList.EcoreList.ListSort | src/benchmarks/eina/ecore_list.c:1002-1017 | sorts whichever algorithm the node count selects |
| EcoreList.MergeSortDirection | src/benchmarks/eina/ecore_list.c:1027-1138 | for a total preorder, the merge sorts put smaller data first, or larger data first if so asked |
| EcoreList.SwitchUnobservable | src/benchmarks/eina/ecore_list.c:1010-1014 | where only identical data compare equal, every sorted arrangement of the data, so also the heap sort's, is the merge sort's |
| StableSort.MergeSortStable | src/benchmarks/eina/ecore_list.c:1027-1138 | the merge sort sorts, permutes, and keeps the order of elements that compare equal |
| StableSort.StableSortUnique | src/benchmarks/eina/ecore_list.c:1027-1027 | a sorted sequence with given elements of every rank in order is unique, so stability pins the result down |
| StableSort.SortUnique | src/benchmarks/eina/ecore_list.c:1002-1017 | if only identical elements compare equal, all sorted permutations are equal |
| StableSort.MergeStable | src/benchmarks/eina/ecore_list.c:1140-1185 | merging puts equal elements of the first run before those of the second |
| ScriptRoundTrip.RoundTrip | src/bin/edje/edje_cc_script.c:63-335 | parsing the printed script gives back the public variables and all functions in order, with visibility, tags, names and tagged arguments, and bodies trimmed on the right |
| ScriptRoundTrip.PrintAgain | src/bin/edje/edje_cc_script.c:413-465 | printing what was read back gives the same text again |
| ScriptRoundTrip.ParseBody | src/bin/edje/edje_cc_script.c:166-199 | any balanced body is read up to its own closing brace, and loses its last character |
| ScriptRoundTrip.BodyKeptIffSpaced | src/bin/edje/edje_cc_script.c:190-194 | so of the body the parser stores: it is the hand-written one up to right trimming exactly if that was empty or ended in white space |
| ScriptRoundTrip.SkipBodyIsSkipChars | src/bin/edje/edje_cc_script.c:167-189 | skipping a body token by token skips the same text as counting its braces |
| ScriptRoundTrip.ParseFunc | src/bin/edje/edje_cc_script.c:140-199 | the printed text of one function adds that function and leaves the parser clean |
| ScriptRoundTrip.ParseVars | src/bin/edje/edje_cc_script.c:107-138 | the printed variables add exactly the public ones, in order |
| ScriptRoundTrip.ParseSkips | src/bin/edje/edje_cc_script.c:254-265 | white space in front of a token does not matter to the parser |
| ScriptRoundTrip.LastDefinitionWins | src/bin/edje/edje_cc_script.c:337-357 | merging symbols leaves one of each name, and it is the one defined last |
| ScriptRoundTrip.GatheredExactly | src/bin/edje/edje_cc_script.c:337-410 | the merged lists are the last definition of each name, in the order in which those stand in the base groups and the group itself; all message handlers are kept |
| ScriptRoundTrip.InitializerSkipped | src/bin/edje/edje_cc_script.c:87-105 | a declaration with an equal mark and any text without comma and semicolon is read as without them |
| ScriptRoundTrip.StatementsRead | src/bin/edje/edje_cc_script.c:84-138 | a list of statements, public and private, of declarations with and without initializers, declares exactly these variables, in order and with their statement's visibility |
| ScriptRoundTrip.ForwardDeclaration | src/bin/edje/edje_cc_script.c:107-165 | a function header that ends in a semicolon leaves its symbol begun |
| ScriptRoundTrip.ForwardDeclarationSticks | src/bin/edje/edje_cc_script.c:107-165 | so the variable declared next gets the function's tag and arguments |
| Script.CodeParse | src/bin/edje/edje_cc_script.c:63-234 | the token loop with its stack and flags computes the parsing function |
| Script.NextTokenLoop | src/bin/edje/edje_cc_script.c:236-335 | the character loop computes the tokenizer, marks, words and blanks behind words included |
| Script.ScriptRewrite | src/bin/edje/edje_cc_script.c:337-490 | the gathering and printing loops write exactly the text of the gathered lists, all functions named `message` printed last as one function, and follow a NULL pointer exactly where the model has no text |
| Script.PushFuncs | src/bin/edje/edje_cc_script.c:380-410 | the loop over one script's functions pushes the others in order and sets the message handlers aside; a function without a name is compared all the same |
| Script.AppendMessage | src/bin/edje/edje_cc_script.c:467-480 | the loop over the message handlers, which trims the whole buffer each time, prints one public function with the joined bodies, or measures a body that is not there |
| Script.Push | src/bin/edje/edje_cc_script.c:337-357 | the loop of _push_symbol computes the replacement, or compares a name that is not there |
| ScriptRoundTrip.RewriteExactly | src/bin/edje/edje_cc_script.c:337-490 | for all base groups and their group: rewriting follows no NULL pointer exactly if all variables have names (a single private one need not), all functions have names, every message handler has a body, and the arguments of every function that no later one replaces have names |
| ScriptRoundTrip.RewriteRoundTrip | src/bin/edje/edje_cc_script.c:63-490 | for all base groups and their group whose symbols can be printed: something is written exactly under that condition; it holds one definition a name, and parsing it gives back the gathered variables and functions, the merged handler last |
| ScriptRoundTrip.HandlerExactly | src/bin/edje/edje_cc_script.c:166-194 | a script that is one message handler with a balanced body parses, and can be rewritten exactly if there is a character between the braces |
| ScriptRoundTrip.EmptyHandler | src/bin/edje/edje_cc_script.c:467-477 | the handler with empty braces parses and cannot be rewritten, whatever the base groups hold |
| ScriptRoundTrip.NamelessVariable | src/bin/edje/edje_cc_script.c:337-350 | the text `a;,` parses to a variable and a private one without a name, and cannot be rewritten |
| ScriptRoundTrip.MessageBodiesExactly | src/bin/edje/edje_cc_script.c:471-477 | the merged handler holds the trimmed bodies one below the other exactly if all are there and none but the first is blank; behind a blank one a line break is lost |
| Script.AppendFunc | src/bin/edje/edje_cc_script.c:439-463 | prints one function; trimming the whole buffer trims only the body; none if a name is missing |
| Script.AppendVars | src/bin/edje/edje_cc_script.c:415-433 | prints the public variables, and nothing if there is none; none if a name is missing |
| Script.TrimBuffer | src/bin/edje/edje_cc_script.c:460-461 | trimming the buffer stops at the opening brace |
| IntExpr.EvaluatesPrinted | src/bin/edje/edje_cc_parse.c:1540-1555 | the text of every expression tree that fits the buffer evaluates to the tree's value in C ints, and is undefined exactly when that is |
| IntExpr.Evaluates | src/bin/edje/edje_cc_parse.c:1540-1555 | the same with blanks strewn in anywhere; a text too long for the buffer gives 0 |
| IntExpr.NumberText | src/bin/edje/edje_cc_parse.c:1659-1675 | a number's text evaluates to the sum of its digits times powers of ten, negated by a minus sign, if that is a C int |
| IntExpr.RingText | src/bin/edje/edje_cc_parse.c:1718-1740 | the text of a sum, difference or product evaluates to x + y, x - y or x * y of what the operands' texts evaluate to, if that is a C int |
| IntExpr.DivisionText | src/bin/edje/edje_cc_parse.c:1729-1743 | the texts of quotient and remainder evaluate to q and r with x = q * y + r, |r| < |y| and r zero or of the sign of x; to x if y is 0; to nothing for the one quotient that is no int |
| IntExpr.GroupText | src/bin/edje/edje_cc_parse.c:1557-1596 | parentheses, floor and ceil around a text do not change what it evaluates to |
| IntExpr.ReadSum | src/bin/edje/edje_cc_parse.c:1640-1657 | `_alphai` consumes exactly the tree's text, wherever it stands |
| IntExpr.SumPrefix | src/bin/edje/edje_cc_parse.c:1647-1656 | sums group to the left and bind weaker than products |
| IntExpr.ProductPrefix | src/bin/edje/edje_cc_parse.c:1628-1637 | products group to the left |
| IntExpr.ReadOperand | src/bin/edje/edje_cc_parse.c:1598-1619 | numbers, parentheses, floor( and ceil( are read whole |
| IntExpr.ReadNum | src/bin/edje/edje_cc_parse.c:1659-1675 | a number with an optional minus sign is read up to its last digit |
| IntExpr.BlanksIgnored | src/bin/edje/edje_cc_parse.c:1968-1988 | inserting spaces and tabs changes nothing exactly as long as the text still fits or was 0 anyway |
| IntExpr.TruncatingDivision | src/bin/edje/edje_cc_parse.c:1729-1743 | the model's / and % are C's: they undo each other and the remainder has the sign of the left operand |
| IntExpr.UnaryPlusIsZero | src/bin/edje/edje_cc_parse.c:1677-1684 | a plus sign is taken for the start of a number but read as 0, unconsumed |
| IntExpr.SignBehind | src/bin/edje/edje_cc_parse.c:1621-1684 | behind any operator, wherever it stands and whatever follows, a plus sign or a minus sign that no number follows is taken for 0, and the rule for sums goes on with that sign (plus) or behind it (minus) |
| IntExpr.SignMisread | src/bin/edje/edje_cc_parse.c:1621-1684 | so for every operator and all operands, at every position, `a op +b` is read as `(a op 0) + b`, likewise `a op -+b` and `a op --b`, and what follows is read behind it; no value if the sum overflows |
| IntExpr.SignInSum | src/bin/edje/edje_cc_parse.c:1621-1684 | the same for the last product of a sum, as in `x + a*+b` |
| IntExpr.UnaryPlusExactly | src/bin/edje/edje_cc_parse.c:1621-1684 | for an operator, all operations with a plus sign in front of the right operand are evaluated as without it, at every position, wherever both have values, exactly if it is + |
| IntExpr.LeadingPlus | src/bin/edje/edje_cc_parse.c:1640-1684 | a plus sign in front of a whole expression, at the start of a text or behind a parenthesis, changes nothing |
| IntExpr.MinusAloneIsZero | src/bin/edje/edje_cc_parse.c:1659-1675 | a minus sign with no digit behind it is read as 0 and consumed |
| IntExpr.MinusStops | src/bin/edje/edje_cc_parse.c:1640-1684 | so a minus sign in front of any parenthesis or call, where an expression starts, makes the reader stop behind the sign, with value 0 |
| IntExpr.MinusStopsBehind | src/bin/edje/edje_cc_parse.c:1621-1684 | behind an operator the reader stops there too, with what the operator makes of 0, as in `a*-(b)` |
| IntExpr.MinusStopsInSum | src/bin/edje/edje_cc_parse.c:1621-1684 | and in the last product of a sum, as in `x + a*-(b)` |
| IntExpr.UnaryMinusExactly | src/bin/edje/edje_cc_parse.c:1640-1684 | where an expression starts, a minus sign in front of an operand gives its negation, read to the end, exactly if the operand is a number that has no sign of its own or is 0 |
| IntExpr.AlphaI | src/bin/edje/edje_cc_parse.c:1640-1657 | the loop computes the rule for sums |
| IntExpr.BetaI | src/bin/edje/edje_cc_parse.c:1621-1638 | the loop computes the rule for products |
| IntExpr.GetNumI | src/bin/edje/edje_cc_parse.c:1659-1675 | the loop collects the number's text |
| IntExpr.StrStrip | src/bin/edje/edje_cc_parse.c:1968-1988 | the loop drops spaces and tabs, and refuses a text that does not fit |
| IntExpr.MyAtoiI | src/bin/edje/edje_cc_parse.c:1540-1555 | strips and evaluates, 0 for a text that is too long |
| ModelDirectory.CompactionKeepsMeaning | src/bin/edje/edje_cc_out.c:4267-4305 | exactly the used entries are left, ids are indices again, and the id list sends every reference to a used entry to the entry of that name, no two to the same |
| ModelDirectory.ReferenceKept | src/bin/edje/edje_cc_out.c:3787-3795 | one lookup per reference is enough although a slot may be refilled several times |
| ModelDirectory.CompactedShape | src/bin/edje/edje_cc_out.c:4273-4299 | entries in front stay, recorded ids run down from the last index, all that is left is used and numbered |
| ModelDirectory.ReferencesApart | src/bin/edje/edje_cc_out.c:3787-3795 | references to different entries stay apart |
| ModelDirectory.OutsideKept | src/bin/edje/edje_cc_out.c:3787-3795 | a reference that is no index, such as -1 for no model, stays as it is |
| ModelDirectory.ModelDirectory.Compact | src/bin/edje/edje_cc_out.c:4273-4299 | the loop on the entry array computes the compaction |
| ModelDirectory.UpdateId | src/bin/edje/edje_cc_out.c:3787-3795 | the list walk takes the first recorded id that matches |
| ColorTree.AcceptedIsForest | src/bin/edje/edje_cc_out.c:4623-4702 | every accepted text keeps the tree a forest, over any number of blocks, unless it begins with a brace and takes an unknown name from the uninitialized buffer |
| ColorTree.ForestFacts | src/bin/edje/edje_cc_out.c:4607-4621 | in a forest no class descends from itself, each class has at most one parent and root classes have none |
| ColorTree.NamedExactlyWhen | src/bin/edje/edje_cc_out.c:4641-4655 | in an accepted text every node is named by the class introduced just before it, exactly if the text does not begin with a brace |
| ColorTree.ForestExactlyWhen | src/bin/edje/edje_cc_out.c:4623-4702 | from a forest, every accepted text gives a forest whose new nodes are named by the class just before them, exactly if its first token is not an opening brace |
| ColorTree.FirstBlockIsForest | src/bin/edje/edje_cc_out.c:4623-4702 | the first block of a file gives a forest under that condition, whatever the uninitialized buffer holds |
| ColorTree.StaleNameMakesCycle | src/bin/edje/edje_cc_out.c:4626-4655 | for every class name, the text that opens a node, lists the name and closes is accepted with that name in the stale buffer, and makes the class its own parent |
| ColorTree.StepKeepsForest | src/bin/edje/edje_cc_out.c:4637-4695 | one token keeps the forest, and a name left in the buffer has been introduced |
| ColorTree.ClassesBelong | src/bin/edje/edje_cc_out.c:4637-4695 | counting braces alone: in every accepted text, the classes directly inside a brace become, in order, those of the node that this brace opens, the classes outside all braces become root classes, in order, and nothing else is added |
| ColorTree.TokensRead | src/bin/edje/edje_cc_out.c:4574-4605 | written tokens, marks bare and classes in quotes with any other text between them, are read back; text behind the last is one more, empty token |
| ColorTree.QuotedToken | src/bin/edje/edje_cc_out.c:4574-4605 | a quoted text is one token whatever it holds, so a quoted brace reads like a brace |
| ColorTree.TokenNext | src/bin/edje/edje_cc_out.c:4574-4605 | the character loop computes the tokenizer |
| ColorTree.EdjeFile.ProcessColorTree | src/bin/edje/edje_cc_out.c:4623-4702 | the loop with its two alternating buffers computes the model, or aborts where it does |
| ColorTree.EdjeFile.ParentNodeGet | src/bin/edje/edje_cc_out.c:4607-4621 | finds the first node that lists the class |

## Left out

- Broker.BqMgr.QueueUnref: requires that nothing hangs on a queue at its last release, as is proved where it is called; the tear-down loops of the queue's free function, which then find nothing to do, are not modelled.
- Broker.BqMgr.ProviderEnqueueBuffer: requires a connected consumer, because without one the source dereferences NULL.
- Broker: the Wayland transport, client ids, allocation failure, signals and start-up; sending an event is appending to the receiver's log. Handles of buffers stand for the ids of their resources, and fd numbers are identities of the model; finding the objects a request names is the transport's part (`Broker.BqMgr.Dispatch`). The `deleted` flag of objects is never set on the paths modelled. A buffer is assumed to belong to the queue it is used with.
- Mempool.EvasMempool.Malloc: the address the C library returns for a new pool is a parameter, required not to overlap the pools in use; its failure is not modelled, nor is the build without pools.
- Mempool.EvasMempool.Free: requires a live slot, or an address outside all pools; any other address corrupts the free list in the source, which has no check for it, so a double free is not modelled.
- EvasList: element data and the accounting pointer are constants, because the sort never writes them; unsigned wrap-around is excluded by the 2^31 bound of the list's own counter.
- HashModel: the shrink test divides doubles in the source; it is compared here without rounding, which cannot differ for node counts below 2^27. NULL hash and comparison functions (direct comparison) are one choice of the functions given. Free callbacks, allocation failure, `ecore_hash_find` and iteration are not modelled.
- HashProofs.ImportIsOverride: requires that both tables tell the same keys apart, since the lookups of the imported one mean nothing for the other otherwise; `HashProofs.ImportCorrect` is the result for any two tables.
- EcoreHash.EcoreHash.HashSet: requires two different tables; imported into itself, the source takes a node off a bucket and adds it to the same table again, without end.
- Sheap.Sheap.Insert: requires that the array has room when `size < space`; a sort shrinks the array to its items without changing `space` (`Sheap.Sheap.Sort`), so an insertion directly behind it writes past the end of the array, which C leaves undefined. `ecore_sheap_change` is marked incorrect in the source and is not modelled.
- EcoreList: the cursor and index of lists, and merging whole lists. The sort direction is a sign; where `char` is unsigned the source's -1 becomes 255. Data is never NULL. Failure to allocate the heap, after which the source falls back to the merge sort, is not modelled.
- Script: token buffers have no limit (PATH_MAX characters in the source); Lua code, and braces inside strings or comments of a body, are not modelled.
- ScriptRoundTrip.RoundTrip: names and tags are free of blanks and marks and are not the word `public`, and bodies have balanced braces; a name that is not so cannot be told apart in the text.
- IntExpr: texts with characters the grammar does not know give no value, since the source goes on with ints it never wrote; overflow, which C leaves undefined, gives no value either. The floating-point evaluator is not modelled.
- ModelDirectory: the lookups that mark entries as used, and the walk over all parts, of which one reference is modelled. Image and set compaction are not modelled.
- ColorTree: token buffers have no limit (1024 characters in the source), and line numbers in messages are not kept. Open nodes are positions in the list of nodes instead of pointers.
