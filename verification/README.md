# favorX verification

A Dafny 4.11 model of the parts of favorX where correctness depends on schedules, protocols
or arithmetic, with proofs about every input, every run or every reachable state.

- **Chunk hash.** `pkg/bmt` hashes a chunk with one goroutine per section. The goroutines
  climb a shared tree and an atomic toggle at each node decides who stops and who hashes.
  The model is a state machine whose steps are the single accesses to the shared tree. Write
  calls, goroutines and goroutines left over from earlier fills interleave freely, and a tree
  is handed from fill to fill. The main theorem is that every run returns the short recursive
  Merkle hash (`BmtRuns.HashRefinesReference`), and every schedule ends with exactly one value
  sent (`ScheduleEnds`, `EndedRunDelivers`). Content-addressed chunks (`pkg/cac`) sit on top.
- **Route discovery.** `pkg/routetab` as a network of nodes with tables, pending calls and
  every message ever sent. The main theorem is an invariant of every reachable network state
  (`RouteProof.NetworkInvariant`), from which routes lead to their targets. Along any unused
  chain of at most MaxTTL hops a search finds its route (`RouteSearch.SearchFindsRoute`). The
  pending calls of that network carry the channels FindRoute waits on: no send on one ever
  blocks (`RouteChannels.SendsNeverBlock`). Saving and deleting paths side by side is a state
  machine of its own (`RouteRace`).
- **Multicast flooding.** `pkg/multicast` as nodes with two dedup caches and messages in
  flight: at most once, everybody reachable, and the flood ends.
- **RPC client.** `pkg/rpc`: the dispatch loop, senders, reconnection and responses as one
  state machine: the write lock is exclusive, each response is routed once, a send fails
  exactly after two failed writes or without a connection (`RpcSend.SendFailsIff`), and it is
  known exactly which requests are lost (`RpcLost.LostIff`).
- **XOR metric.** Byte-wise comparison and bounded prefix scan against big-endian integers.
- **Kernels.** The chunk-count recursion, the re-chunking pipe, the counter-mode segment
  cipher and the pull queue under interleaving.

The base hash is a function parameter. Addresses are opaque values, and path and target keys
stand for themselves. Times are numbers handed in. Random choices (forward nodes, padding
bytes, the order of a map walk) are parameters or left open. Classes follow the source's
objects. Their methods are proved against functions and predicates on values, and the network,
channel and schedule proofs are about those same functions.

Where the code does less than one might expect, the model keeps the code and proves exactly
when the property holds:

- `toggle()` tells the first arrival from the second unless the 32-bit counter is negative
  and even, which is out of reach before 2^30 fills of one tree
  (`ToggleTellsFirst`, `WornOutTreePublishesStaleHash`).
- `Hash` clears 64 bytes behind the input. That covers the open section exactly when the
  section ends within 64 bytes (`ZeroTailExact`, `StaleByteSurvives`).
- `respForward` reuses one message for all pending sources, so the k-th source receives the
  node k times (`AnswersRepeatTheNode`); the response invariant allows adjacent repeats.
- `GcResItems` stops at the first entry that is still fresh. It keeps exactly the fresh
  entries if and only if no expired entry stands behind a fresh one (`GcIsExact`). `Add` takes
  the time before the lock, so an expired entry can stand there (`LateEntryStays`).
- A save that overlaps a delete can enter a route whose path has just been taken away, and the
  route stays (`RouteWithoutPath`). Every route resolves, or is about to be dropped, all along
  a run if and only if no save visits a target after such a delete has passed it
  (`RunSettledIff`); the other promises of the table survive any overlap (`ShapeSurvives`).
- A request that was written need not be answered or failed. A read error between its
  acceptance and the end of its write takes it out of the waiting requests without closing it
  (`ReadErrorLoses`). And where the connection can still be written after its input has ended,
  the next request is registered with a handler for which nobody reads (`DeadConnLoses`).
  Either waits until its caller gives up (`LostForGood`). A waiting request can still be
  answered or closed if and only if it was accepted while the connection was read, or has
  reconnected itself, and no read error took it out in flight since (`LostIff`).
- `Proximity` scans four bytes, lengths taken modulo 256. It is the number of common bits,
  at most 31, if and only if the scan is long enough or the difference lies inside it. Of
  two 256-byte addresses nothing is scanned (`FarLooksNear`).
- `ChunkPipe` keeps a chunk until its writer reports all of it taken. No byte arrives twice if
  and only if nothing arrives after a partial write (`ArrivesOnceIff`). The io.Pipe it is wired
  to meets that, so its reader gets exactly the input up to where it went away (`RunPipe`);
  `RepeatedByte` needs another writer.
- `popNode` steps over the element behind one it removes. The node is gone afterwards if and
  only if no two copies stood side by side (`SkimRemovesIff`, `SkimLeavesOne`).
- The ticker does not forget a node that is late, so every tick without an answer queues it once
  more (`EveryTickQueues`, `QueuedTwice`). A node is in the three lists of the pull queue at most
  once, all along a run, if and only if nobody answers or is late who is still to be asked, be
  it because its own answer names it, or has answered before (`RunOnceIff`).
- `queueProcess` reads the length of `UnPull` twice. Nodes that arrive between the two reads
  are all moved, so `Pulling` is not bounded by `PullingMax` in every run (`RaceOverfills`).
  A run keeps the bound, whatever follows without another second read, if and only if each
  second read sees a list that fits (`RunStaysWithinIff`).

## Model

| member | source | states |
|---|---|---|
| `BmtSpec.ZeroHashIsRootOfZeros` | pkg/bmt/pool.go:31-54 | entry k of the zero-hash chain is the recursive Merkle root of 2^k zero segments |
| `BmtSpec.AncIsDivision` | pkg/bmt/pool.go:114-137 | following k parent links from leaf i arrives at i / 2^k |
| `BmtSpec.ValIsRoot` | pkg/bmt/doc.go:3-8 | the value the tree gives a node is the recursive root of the bytes below it |
| `BmtSpec.ValBeyond` | pkg/bmt/bmt.go:201-260 | every node right of the last section of the input has the zero hash of its level |
| `BmtMachine.ToggleTellsFirst` | pkg/bmt/pool.go:142-144 | with 32-bit wrap-around and truncating remainder, the toggle tells first from second if and only if the counter is not negative and even |
| `BmtMachine.NextPosIs` | pkg/bmt/bmt.go:98-118 | the section left open by Write is the one of the next byte, or the last one when the chunk is full |
| `BmtSteps.ToggleIsRight` | pkg/bmt/bmt.go:161-194 | in every reachable state the toggle is right about who came first, and the other child is then stored or not accordingly |
| `BmtSteps.RunKeepsInv` | pkg/bmt/bmt.go:129-260 | a goroutine that is not done can always step, and any step keeps the whole invariant |
| `BmtClient.WriteKeeps` | pkg/bmt/bmt.go:98-118 | Write may interleave with running goroutines and keeps the invariant |
| `BmtClient.NothingSentEarly` | pkg/bmt/bmt.go:161-194 | before Hash is called nothing is sent on the result channel |
| `BmtClient.FinalSection` | pkg/bmt/bmt.go:75-88 | the final section holds the current bytes then zeros, whatever an earlier fill left in the buffer |
| `BmtClient.StaleByteSurvives` | pkg/bmt/bmt.go:75-88 | a buffer with which a section reaching further than 64 bytes past the input keeps a stale byte |
| `BmtClient.ZeroTailExact` | pkg/bmt/bmt.go:75-88 | clearing 64 bytes is enough for every stale buffer if and only if the open section ends within 64 bytes of the input |
| `BmtClient.StartHashKeeps` | pkg/bmt/bmt.go:75-88 | starting the final goroutine keeps the invariant |
| `BmtRuns.CounterIsEven` | pkg/bmt/bmt.go:161-194 | once the result is sent every node was toggled twice or not at all |
| `BmtRuns.OnlyFinalLingers` | pkg/bmt/bmt.go:201-260 | after the result is sent only the final goroutine may still run, without a hash, as a right child all the way up |
| `BmtRuns.PublishedIsUntouched` | pkg/bmt/bmt.go:161-260 | no goroutine writes a node or sends again after the result is sent |
| `BmtRuns.LingeringKeeps` | pkg/bmt/bmt.go:201-260 | a goroutine of an earlier fill never disturbs the tree it left |
| `BmtRuns.CountersAfterFill` | pkg/bmt/pool.go:69-84 | a tree put back has every counter even and small, so the next fill starts as on a fresh tree |
| `BmtRuns.RecycleCleansNothing` | pkg/bmt/pool.go:69-84 | a tree goes from fill to fill with its counters, stale hashes and stale buffer, and unfinished goroutines run on |
| `BmtRuns.RecycleKeeps` | pkg/bmt/pool.go:69-84 | returning a tree and taking it again keeps the invariant |
| `BmtRuns.RunInv` | pkg/bmt/bmt.go:75-260 | the invariant holds in every state of every run: any number of fills, any split into Writes, any schedule |
| `BmtRuns.DataIsInput` | pkg/bmt/bmt.go:98-118 | over any run what a fill has accepted is its input in order, cut at the capacity |
| `BmtRuns.HashRefinesReference` | pkg/bmt/bmt.go:75-260 | at most one value is sent, and Hash returns H(span ++ root of the input zero-padded to the chunk size) |
| `BmtRuns.DoneMeansSent` | pkg/bmt/bmt.go:129-260 | when all goroutines are done the result has been sent |
| `BmtRuns.NoDeadlock` | pkg/bmt/bmt.go:129-260 | until the result is sent some goroutine can step |
| `BmtRuns.StepsRunOut` | pkg/bmt/bmt.go:129-260 | every step of a goroutine, of this fill or left over from an earlier one, strictly lowers the work left |
| `BmtRuns.ScheduleEnds` | pkg/bmt/bmt.go:129-260 | between two client calls the goroutines of all fills together take at most as many steps as there is work, in every schedule |
| `BmtRuns.EndedRunDelivers` | pkg/bmt/bmt.go:75-260 | every run after Hash in which no goroutine of the fill can go on has sent exactly one value, and Hash returns the reference hash |
| `BmtRuns.WornOutTreePublishesStaleHash` | pkg/bmt/pool.go:142-144 | with a wrapped counter the goroutine of section 0 alone publishes a root made with a stale right field |
| `BmtPool.SizeToParams` | pkg/bmt/pool.go:147-153 | the least power of two, at least two, that holds n segments, and its exponent |
| `BmtPool.ZeroTable` | pkg/bmt/pool.go:31-54 | the loop fills the table with the zero hash of every level |
| `BmtPool.NewConf` | pkg/bmt/pool.go:31-54 | the configuration is valid and holds the requested segments |
| `BmtPool.TreeNode.constructor` | pkg/bmt/pool.go:105-112 | a new node knows its side and its parent and starts with counter zero |
| `BmtPool.TreeNode.Toggle` | pkg/bmt/pool.go:142-144 | increments with wrap-around and reports a first arrival exactly when the counter was even and not negative |
| `BmtPool.UpIsAncestor` | pkg/bmt/pool.go:114-137 | in the built tree leaf i's k-th ancestor is node i / 2^k of its level |
| `BmtPool.NewLevel` | pkg/bmt/pool.go:124-131 | a level of fresh distinct nodes, each linked to node i / 2 above |
| `BmtPool.NewTree` | pkg/bmt/pool.go:114-137 | levels of 2^k distinct fresh nodes with the parent links of a balanced tree; the leaves are the widest level |
| `BmtPool.Hasher.Write` | pkg/bmt/bmt.go:98-118 | copies what fits; each section below pos has been started exactly once, in order, and pos never |
| `BmtPool.Hasher.BeforeFinal` | pkg/bmt/bmt.go:75-88 | clears the tail and hands the final goroutine the one section never started |
| `Cac.SomeRunDelivers` | pkg/cac/cac.go:61-72 | for every data within a chunk there is a complete run that returns the reference hash |
| `Cac.HasherIsReference` | pkg/cac/cac.go:61-72 | over all schedules and trees the hasher can return a value if and only if it is the reference hash |
| `Encoding.WrittenAndRead` | pkg/cac/cac.go:29-31 | the bytes written lowest first read back as the number modulo 2^(8k) |
| `Cac.NewIsExact` | pkg/cac/cac.go:18-32 | New refuses exactly empty and too large data, each with its error; otherwise the chunk is the length of the data in eight bytes, lowest first, then the data, under their hash |
| `Cac.NewWithDataSpanIsExact` | pkg/cac/cac.go:34-59 | NewWithDataSpan refuses exactly data shorter than a span or too large; otherwise the chunk is the data under the hash of its two parts |
| `Cac.ValidIsExact` | pkg/cac/cac.go:75-88 | Valid answers true if and only if the size is right and the address is the hash of span and data, on any schedule |
| `Cac.BuiltChunksAreValid` | pkg/cac/cac.go:18-88 | whatever New or NewWithDataSpan builds, Valid accepts, even when the two hash on different schedules and trees |
| `Cac.ValidIffRebuilt` | pkg/cac/cac.go:34-88 | a chunk is valid if and only if NewWithDataSpan rebuilds it from its data |
| `RouteTable.SaveKeeps` | pkg/routetab/table.go:108-153 | saving keeps: every route resolves to a stored path with the target before its last item, which is the neighbour; lists are duplicate-free and at most NeighborAlpha long |
| `RouteTable.SaveEffect` | pkg/routetab/table.go:108-162 | the path is entered for every item but the last and for no other target; a known route leaves its list alone, a new one comes first and only the last of a full list goes |
| `RouteTable.SaveForgetsOnlyTheOldest` | pkg/routetab/table.go:129-152 | over a whole save a route goes only where the saved one is new and the list was full, and then the last; the others keep their order; a path known under all its targets changes no route |
| `RouteTable.SavedExpiresIff` | pkg/routetab/table.go:226-234 | a path is collected exactly when it is older than the limit, counted from its last save |
| `RouteTable.DeleteIsEverywhere` | pkg/routetab/table.go:236-259 | visiting only the targets on the path removes every reference under any target |
| `RouteTable.DeleteKeeps` | pkg/routetab/table.go:236-259 | deleting keeps the table invariant and leaves neither the path nor a route to it |
| `RouteTable.DeleteOneMore` | pkg/routetab/table.go:226-234 | deleting one after another is deleting the set, in any order |
| `RouteTable.Table.Enter` | pkg/routetab/table.go:130-150 | the new route first, known routes untouched, the oldest dropped when the list is full |
| `RouteTable.Table.EnterAll` | pkg/routetab/table.go:127-152 | the loop enters the route of the path for every item but the last |
| `RouteTable.Table.SavePath` | pkg/routetab/table.go:108-153 | a save that nothing overlaps keeps the invariant and is the save function on the table; overlapping ones are RouteRace |
| `RouteTable.Table.Get` | pkg/routetab/table.go:164-183 | every route of the target is answered with its path, or not found when there is none |
| `RouteTable.Table.GetNextHop` | pkg/routetab/table.go:206-224 | exactly the distinct neighbours of the target's routes that are not skipped |
| `RouteTable.Table.DeletePath` | pkg/routetab/table.go:236-259 | keeps the invariant and removes the path and its routes everywhere |
| `RouteTable.Table.Gc` | pkg/routetab/table.go:226-234 | removes exactly the expired paths and the routes to them, whatever the order |
| `RouteRace.VisitIsTheLoop` | pkg/routetab/table.go:125-153 | undisturbed, the visits of a running save or delete are the loops of SavePath and Delete |
| `RouteRace.ShapeSurvives` | pkg/routetab/table.go:108-259 | in every run of overlapping saves, deletes and collections lists stay within NeighborAlpha and duplicate-free, and each route ends in its neighbour and runs through its target |
| `RouteRace.StepSettlesIff` | pkg/routetab/table.go:108-259 | a step keeps every route resolving or about to be dropped if and only if it is not a save entering a route whose path is gone and which no running delete has ahead of it |
| `RouteRace.RunSettledIff` | pkg/routetab/table.go:108-259 | the same over whole runs: every state along the run is settled if and only if no such entry happens |
| `RouteRace.SettledAtRest` | pkg/routetab/table.go:108-259 | with nothing running, a settled table satisfies the full table invariant |
| `RouteRace.SavedOnce` | pkg/routetab/table.go:108-153 | the table of that run is reached by one save and satisfies the table invariant |
| `RouteRace.RouteWithoutPath` | pkg/routetab/table.go:108-259 | a path is saved, saved again, and removed by a collector that judged the first copy, between the second store and its entry: at rest the target has a route without a path |
| `RouteProof.OnReqOk` | pkg/routetab/route.go:184-277 | handling a request stores only sound paths and sends only sound messages |
| `RouteProof.OnRespOk` | pkg/routetab/route.go:279-328 | handling a response stores only sound paths and sends only sound messages |
| `RouteProof.StepKeeps` | pkg/routetab/route.go:184-395 | every step of the network keeps the invariant |
| `RouteProof.NetworkInvariant` | pkg/routetab/route.go:184-395 | in every reachable state stored paths omit the node, have at most MaxTTL items, end in a peer that sent to the node, and each item is or has sent to the next; requests carry one duplicate-free path of at most MaxTTL+1 items ending in the sender |
| `RouteResults.RoutesReachTheirTarget` | pkg/routetab/table.go:108-153 | in every reachable state each route names a next hop from which the reversed path leads to the target |
| `RouteResults.TableAnswersContinueTheRequest` | pkg/routetab/route.go:237-263 | a table answer is a stored path through the target; request path, node and stored path share nothing and have at most MaxTTL+1 items together |
| `RouteResults.AnswersRepeatTheNode` | pkg/routetab/route.go:330-395 | the k-th distinct source receives the path with the node appended k times |
| `RouteResults.EachForwardIsLonger` | pkg/routetab/route.go:347-367 | a forwarded request has exactly one item more, and none is forwarded past MaxTTL |
| `RouteResults.CascadesEnd` | pkg/routetab/route.go:184-367 | every cascade of requests with finite fan-out ends, within a bound computed from the start |
| `RouteSearch.SearchFindsRoute` | pkg/routetab/route.go:184-494 | for any chain of distinct nodes with at most MaxTTL hops and empty tables there is a run from FindRoute at one end after which its channel is signalled and its table has the route to the other end over the first hop |
| `RouteSearch.TargetAnswers` | pkg/routetab/route.go:225-229 | the target of a request that is not discarded sends exactly one response, to the sender, with itself as the path |
| `RouteSearch.MiddleAnswersIff` | pkg/routetab/route.go:230-276 | any other node answers, once and with a shortest fitting path, if and only if the target is not its neighbour and it knows a path that fits; otherwise it sends requests to the target or the chosen nodes |
| `RouteSearch.RequestsTeach` | pkg/routetab/route.go:221-223 | a request leaves its path in the table, under every item but the sender |
| `RouteSearch.AllAreStored` | pkg/routetab/table.go:102-124 | saving paths one after another stores all of them and removes none |
| `RouteSearch.ForwardSends` | pkg/routetab/route.go:347-367 | each next hop without a request under way gets exactly one, nobody else any |
| `RouteSearch.ForwardRegisters` | pkg/routetab/route.go:347-367 | every next hop registers the caller, request under way or not |
| `RouteSearch.ForwardIsUnderWay` | pkg/routetab/route.go:347-367 | afterwards a request is under way over every next hop, and where one was |
| `RouteSearch.AnsweredIsSentAgainIff` | pkg/routetab/pending.go:70-81 | after a response nobody waits, and a search over the same hop is sent again if and only if anybody had waited or none was under way |
| `RouteSearch.GivenUpIsSentAgain` | pkg/routetab/route.go:471-484 | after a timeout nobody waits, and a search over any of its hops is sent again |
| `RouteSearch.CollectionIsExact` | pkg/routetab/table.go:226-259 | collection leaves a node exactly the paths that are young enough and the routes to them |
| `RouteSearch.DeletionIsExact` | pkg/routetab/table.go:236-259 | deleting leaves exactly the other paths and the routes to them |
| `RouteSearch.CallsAreCollected` | pkg/routetab/pending.go:83-115 | collecting calls leaves the callers behind the expired ones and exactly the young requests |
| `RouteService.InPath` | pkg/routetab/utils.go:12-19 | membership in a path |
| `RouteService.InPaths` | pkg/routetab/utils.go:21-30 | two paths share an item |
| `RouteService.SkipPeers` | pkg/routetab/utils.go:32-40 | the peers that are not skipped, in order and with their repeats |
| `RouteService.SkippingCounts` | pkg/routetab/utils.go:32-40 | every peer that is not skipped is kept as often as it was there, the others not at all |
| `RouteService.PickShortest` | pkg/routetab/table.go:57-80 | the first of the shortest paths |
| `RouteService.Service.SavePaths` | pkg/routetab/table.go:102-106 | saves the paths one after another in the table object |
| `RouteService.Service.MustDiscard` | pkg/routetab/route.go:207-219 | a request is dropped exactly when a path of it is too long or contains the node |
| `RouteService.Service.UsablePaths` | pkg/routetab/route.go:237-247 | the stored paths that fit behind the request path and share nothing with it |
| `RouteService.Service.DoRouteReq` | pkg/routetab/route.go:347-367 | registers the call for every next hop and sends where none is under way: the forward function of the network model |
| `RouteService.Service.OnRouteReq` | pkg/routetab/route.go:184-277 | new tables and messages are those of the network model's request handler |
| `RouteService.Service.ServeCallers` | pkg/routetab/route.go:330-345 | every distinct waiting node is answered once with the message grown so far, and every local search is signalled on its channel |
| `RouteService.Service.RespForward` | pkg/routetab/route.go:330-345 | takes the callers of the target out, answers every waiting node and signals every local search |
| `RouteService.Service.OnRouteResp` | pkg/routetab/route.go:279-328 | new tables, messages and signals to local searches are those of the network model's response handler |
| `RouteService.Service.FindRoute` | pkg/routetab/route.go:457-470 | refuses the node itself and a target without neighbours, else the pending entries and requests of the network model's search |
| `RouteService.Service.AfterWait` | pkg/routetab/route.go:471-488 | a signal is answered with every route the table has; a timeout takes the calls out again, leaving no caller of that target |
| `RoutePending.GcIsExact` | pkg/routetab/pending.go:93-115 | collection keeps exactly the unexpired entries if and only if no expired entry stands behind a fresh one |
| `RoutePending.LateEntryStays` | pkg/routetab/pending.go:44-115 | a list in which an expired entry stands behind a fresh one and is kept |
| `RoutePending.InOrderExpiresFirst` | pkg/routetab/pending.go:44-115 | entries added at nondecreasing times are collected exactly |
| `RoutePending.AddKeepsOrder` | pkg/routetab/pending.go:44-68 | calls added at nondecreasing times stay in the order of their times |
| `RoutePending.RequestExpiresIff` | pkg/routetab/pending.go:44-91 | a request is collected exactly when its first call is old enough, however many calls follow |
| `RoutePending.PendCallResTab.Add` | pkg/routetab/pending.go:44-68 | every caller is appended; the result tells whether the request was already under way |
| `RoutePending.PendCallResTab.Get` | pkg/routetab/pending.go:70-81 | hands the whole list out once |
| `RoutePending.PendCallResTab.GcReqLog` | pkg/routetab/pending.go:83-91 | keeps exactly the unexpired requests |
| `RoutePending.PendCallResTab.Scan` | pkg/routetab/pending.go:93-115 | finds the first fresh entry, or zero when all have expired |
| `RoutePending.PendCallResTab.GcResItems` | pkg/routetab/pending.go:93-115 | every list loses its expired prefix and no empty list stays |
| `RouteChannels.EventKeeps` | pkg/routetab/route.go:330-488 | over the pending table: for every channel the values sent, its callers in the table, those a running respForward has in hand and those still to be registered never exceed its capacity |
| `RouteChannels.RunInv` | pkg/routetab/route.go:330-488 | that holds in every run of searches, requests, responses, timeouts and collections |
| `RouteChannels.SendsNeverBlock` | pkg/routetab/route.go:330-345 | in every run a send on a FindRoute channel finds room, whether or not anything was received |
| `RouteChannels.SignalsPerSearch` | pkg/routetab/route.go:457-494 | a search is signalled at most once per next hop it has registered |
| `RouteChannels.BufferFills` | pkg/routetab/route.go:469-487 | one answer to a search over n hops sends n values, so the buffer made for them is filled and no smaller one would do |
| `RouteChannels.SearchIsAdds` | pkg/routetab/route.go:347-367 | what a search does to the table in the network model is what its registrations do |
| `RouteChannels.ServesTheSignals` | pkg/routetab/route.go:330-345 | serving the list in hand leaves the table alone and signals each channel as often as the network model's handler |
| `RouteChannels.ResponseIsTakeAndServe` | pkg/routetab/route.go:279-345 | a response of the network model is taking the callers out and serving them |
| `Multicast.Service.EachPeer` | pkg/multicast/kademlia.go:350-410 | sends to every peer of a set that is not skipped, in order |
| `Multicast.Service.ToGroup` | pkg/multicast/kademlia.go:382-402 | sends to all connected and kept peers of the group that are not skipped; a group without peers is looked for first, and gets nothing only when nobody is found |
| `Multicast.Service.Multicast` | pkg/multicast/kademlia.go:350-410 | numbers a new message, sends a first-seen one to the group or the forward nodes and a known one to nobody |
| `Multicast.Service.OnMulticast` | pkg/multicast/kademlia.go:412-469 | handles a first-seen message of somebody else: notifies if joined and forwards to all but the sender |
| `MulticastProof.FloodInvariant` | pkg/multicast/kademlia.go:350-469 | in every reachable state each forwarder's group peers have the message or a copy is on its way to them |
| `MulticastProof.AtMostOnce` | pkg/multicast/kademlia.go:350-469 | in every run each node notifies and forwards a message at most once; only nodes that joined the group notify, the origin never |
| `MulticastProof.ReachableNodesHandle` | pkg/multicast/kademlia.go:350-469 | once no copy is in flight every node reachable over group-peer links has forwarded the message, and notified if it joined |
| `MulticastPicks.ChosenNodesHandle` | pkg/multicast/kademlia.go:382-408 | once no copy is in flight everybody whom a node chose when it first saw the message, group peers, discovered or forward nodes, has forwarded it, and notified if joined |
| `MulticastPicks.NeverBack` | pkg/multicast/kademlia.go:391-396 | where the group is known a message never goes straight back to its sender |
| `MulticastProof.DeliverSpends` | pkg/multicast/kademlia.go:412-469 | each delivery of a message uses up a finite budget |
| `MulticastProof.FloodEnds` | pkg/multicast/kademlia.go:350-469 | deliveries of a message are bounded by its budget, whatever else is sent |
| `RpcProof.StepKeeps` | pkg/rpc/client.go:469-606 | every step of senders, dispatch, readers and close keeps the invariant |
| `RpcProof.RunInv` | pkg/rpc/client.go:469-606 | the invariant holds in every run |
| `RpcProof.WriteLockIsExclusive` | pkg/rpc/client.go:469-606 | at most one sender is between acceptance on reqInit and its push to reqSent, the push never blocks, and reconnected is only offered by lastOp |
| `RpcProof.ResponsesAreRouted` | pkg/rpc/client.go:529-606 | each id is delivered at most once and to its own request, op.resp is closed at most once and not used afterwards, and delivery never blocks dispatch |
| `RpcSend.SendFailsIff` | pkg/rpc/client.go:469-524 | in every run a send returns an error if and only if two of its writes failed or a dial failed or found the client quit; otherwise the request waits, and fails only when its caller gives up |
| `RpcSend.RetryDelivers` | pkg/rpc/client.go:484-524 | from every reachable state in which a first write fails while the client runs, the request can be written on a newer connection, where it is registered and waits |
| `RpcSend.AnswerCanArrive` | pkg/rpc/client.go:554-559 | in every run each id a request waits for on a connection that is read can be answered, and the answer reaches the request |
| `RpcSend.FailedIsForgotten` | pkg/rpc/client.go:592-603 | in every run nobody waits for a request that has failed, once dispatch has taken note |
| `RpcLost.StepIsRight` | pkg/rpc/client.go:529-606 | after a step a live request is registered, answered or closed if and only if the step registers it, or it was so before and the step is neither a read error while it is in flight nor a reconnection of another one while nothing is read |
| `RpcLost.AttendedStep` | pkg/rpc/client.go:529-606 | the same for being answered, closed or waited for on a connection that is read: kept by every step but a read error in flight |
| `RpcLost.AttendedIff` | pkg/rpc/client.go:469-606 | in every run a request accepted and not given up is answered, closed, or waited for on a connection that is read, if and only if it was accepted while the connection was read or has reconnected itself, and no read error took it out in flight since |
| `RpcLost.MayEndIff` | pkg/rpc/client.go:136-150 | from any reachable state some way on without giving up ends a waiting request if and only if it is attended |
| `RpcLost.LostIff` | pkg/rpc/client.go:469-606 | in every run a waiting request can still be answered or closed if and only if the run accepted it while the connection was read, or it reconnected, and no read error took it out in flight since |
| `RpcLost.LostForGood` | pkg/rpc/client.go:136-150 | a waiting request that is not attended stays so, not answered in full and not closed, until its caller gives up, before or after the client quits |
| `RpcLost.ReadErrorLoses` | pkg/rpc/handler.go:174-194 | a run in which a read error during the write leaves a request waiting with nobody to answer it |
| `RpcLost.DeadConnLoses` | pkg/rpc/client.go:561-590 | a run in which a read error before the request leaves it registered with a handler for which nobody reads |
| `RpcHandler.Handler.AddRequestOp` | pkg/rpc/handler.go:160-165 | every id of the operation waits for it: the registration of the state machine |
| `RpcHandler.Handler.RemoveRequestOp` | pkg/rpc/handler.go:167-171 | none of the ids waits any more, the others do |
| `RpcHandler.Handler.Cancel` | pkg/rpc/handler.go:174-187 | the walk in any order gives every waiting request but the one in flight the error and closes it exactly once: the closing of the state machine |
| `RpcHandler.Handler.CancelAllRequests` | pkg/rpc/handler.go:174-194 | every waiting request but the one in flight has the error and is closed once, nobody waits afterwards, and exactly the subscriptions of the client end |
| `RpcHandler.Handler.HandleResponse` | pkg/rpc/handler.go:263-287 | a plain request gets the answer, a subscription its error or an entry under its id and is unblocked; the id no longer waits; unknown ids change nothing |
| `Metric.DistanceRaw` | pkg/boson/distance.go:22-34 | the byte-wise XOR, or an error for different lengths |
| `Metric.Distance` | pkg/boson/distance.go:10-17 | the XOR as a big-endian integer, or an error for different lengths |
| `Metric.DistanceCmp` | pkg/boson/distance.go:41-57 | 1, 0 or -1 exactly as the integer distances compare; 0 exactly when x equals y; an error exactly when the lengths differ |
| `Metric.Proximity` | pkg/boson/proximity.go:16-34 | the common leading bits when the difference lies in the scanned bytes, else 31; equal to min(common bits, 31) if and only if the scan is long enough or the difference lies inside it |
| `Metric.FarLooksNear` | pkg/boson/proximity.go:16-34 | two 256-byte addresses that differ in the first bit have proximity 31 |
| `Metric.FirstBit` | pkg/boson/proximity.go:26-31 | the inner loop finds the highest set bit |
| `Metric.FirstByteDecides` | pkg/boson/distance.go:41-57 | the first byte that differs decides which integer is larger |
| `Metric.CommonBitsIsLog` | pkg/boson/proximity.go:16-34 | common bits are the reverse rank of the integer logarithm of the distance |
| `Metric.NearerIsCloser` | pkg/boson/proximity.go:16-34 | a strictly larger proximity to a, as the scan returns it at any length or as common bits up to 31, means a strictly smaller distance to a |
| `Metric.Ultrametric` | pkg/boson/proximity.go:16-34 | the scanned proximity, and common bits up to 31, are symmetric and satisfy the ultrametric inequality at every length |
| `ChunkLen.ChunkLen1CountsMerges` | pkg/fileinfo/fileinfo.go:244-256 | the recursion counts the merges when full groups of Branches collapse to one until fewer are left |
| `ChunkLen.ChunkLen1Closed` | pkg/fileinfo/fileinfo.go:244-256 | for every n >= 1 it equals (n-1) div (Branches-1) |
| `ChunkLen.ChunkLenClosed` | pkg/fileinfo/fileinfo.go:232-256 | for every span: L, or L + (L-1) div (Branches-1) when L > Branches, with L the least number of chunks; negative spans truncate; the result fits where the span fits |
| `ChunkPipe.Pipe.constructor` | pkg/file/buffer.go:23-30 | a new pipe has taken nothing in |
| `ChunkPipe.Pipe.Write` | pkg/file/buffer.go:38-68 | what went in is exactly what the sink has reported as taken in full and what waits, in order; each write sends the input from where the reported bytes end; only whole chunks go out; without a sink error all of b is taken and at most one chunk waits, with one at least a chunk waits |
| `ChunkPipe.Pipe.Emit` | pkg/file/buffer.go:51-66 | one chunk goes to the sink; it leaves the buffer only when the sink reports all of it taken, otherwise it waits whole, whatever the sink took |
| `ChunkPipe.Pipe.Turn` | pkg/file/buffer.go:40-67 | one turn of the loop copies or sends, so the loop ends, and loses no input |
| `ChunkPipe.Pipe.Close` | pkg/file/buffer.go:71-82 | sends the rest as one write and closes; when the sink fails, in full or in part, it stays open |
| `ChunkPipe.Run` | pkg/file/buffer.go:38-82 | for any writes, a close and any writer every write sends the accepted input from where the reported bytes end, in whole chunks but for the close; it is closed with all of it reported, or some write failed |
| `ChunkPipe.RunPipe` | pkg/file/buffer.go:23-82 | into the io.Pipe whose reader goes away after n bytes: it gets exactly the first n bytes of the accepted input, each once, and the pipe is closed if and only if that was all of it, with the input in chunks |
| `ChunkPipe.RunOpen` | pkg/file/buffer.go:38-82 | a writer that takes everything gets exactly the input, in chunks |
| `ChunkPipe.PipeGetsPrefix` | pkg/file/buffer.go:23-30 | whatever is written to an io.Pipe and however often after a failure, no byte arrives twice and what has arrived is a prefix of the input |
| `ChunkPipe.ArrivesOnceIff` | pkg/file/buffer.go:38-82 | no position of the input arrives twice if and only if nothing arrives after a write the sink took in part |
| `ChunkPipe.ArrivedIsPrefix` | pkg/file/buffer.go:38-82 | what has arrived is then a prefix of the input and extends what was reported |
| `ChunkPipe.RepeatedByte` | pkg/file/buffer.go:51-82 | with a writer that takes part of a write and goes on, which an io.Pipe never does: the first byte of a chunk arrives twice |
| `ChunkPipe.ChunksAreUnique` | pkg/file/buffer.go:13-20 | the bytes decide the chunks, so the split into writes leaves no trace |
| `Cipher.Encryption.Transcrypt` | pkg/encryption/encryption.go:134-168 | masks any input no longer than a digest with the segment key, whatever the base key, pads the rest, touches nothing else |
| `Cipher.Encryption.MaskAll` | pkg/encryption/encryption.go:116-128 | the loop masks every segment under its own counter and advances the index by their number |
| `Cipher.Encryption.Transform` | pkg/encryption/encryption.go:116-131 | the masked input, then padding |
| `Cipher.Encryption.Encrypt` | pkg/encryption/encryption.go:77-93 | pads to the fixed length, refuses exactly data that is longer, and leaves the index then |
| `Cipher.Encryption.Decrypt` | pkg/encryption/encryption.go:96-107 | refuses exactly data of another length than the padding, else unmasks |
| `Cipher.MaskedIsXor` | pkg/encryption/encryption.go:116-168 | segment by segment is XOR with one keystream |
| `Cipher.SegmentKeyIs` | pkg/encryption/encryption.go:134-158 | the key of segment i is the hash of the hash of the base key and four bytes, lowest first, with the value i + initCtr modulo 2^32 |
| `Cipher.SegmentsHashApart` | pkg/encryption/encryption.go:134-158 | segments less than 2^32 apart hash different bytes |
| `Cipher.RoundTrip` | pkg/encryption/encryption.go:77-168 | decrypting from any index what was encrypted from any index gives the data first if and only if the two keystreams agree on its length |
| `Cipher.StreamWraps` | pkg/encryption/encryption.go:143-145 | the keystream depends on the start index only modulo 2^32 |
| `Cipher.SegmentAlone` | pkg/encryption/encryption.go:134-168 | Transcrypt at the index of a segment recovers it from that segment of the ciphertext alone |
| `Cipher.EncryptResetDecrypt` | pkg/encryption/encryption.go:77-131 | encrypt, reset, decrypt returns the data as a prefix whenever it fits the padding |
| `PullQueue.SkimRemovesIff` | pkg/chunkinfo/queue.go:70-81 | popNode removes every copy if and only if no two copies stand side by side |
| `PullQueue.SkimLeavesOne` | pkg/chunkinfo/queue.go:70-81 | of two copies side by side one stays |
| `PullQueue.SkimKeepsOthers` | pkg/chunkinfo/queue.go:70-81 | popNode loses nothing else and removes at least one copy of a node that is there |
| `PullQueue.Queue.Pop` | pkg/chunkinfo/queue.go:59-67 | takes the first node |
| `PullQueue.Queue.PopNode` | pkg/chunkinfo/queue.go:70-81 | the in-place loop, with the element it steps over |
| `PullQueue.Queue.Push` | pkg/chunkinfo/queue.go:84-90 | appends the node |
| `PullQueue.Queue.IsExists` | pkg/chunkinfo/queue.go:127-138 | membership |
| `PullQueue.Queue.QueueProcess` | pkg/chunkinfo/queue.go:141-177 | undisturbed: moves as many nodes as fit, all of them or until Pulling is full, in order, asks exactly them, and stays within PullingMax |
| `PullQueue.Queue.UpdateQueue` | pkg/chunkinfo/queue.go:179-200 | is the update function on the lists: adds exactly new nodes, each once, up to PullerMax, all of them when there is room; the node that answered moves to Pulled |
| `PullQueue.Queue.Join` | pkg/chunkinfo/queue.go:184-197 | the loop over the nodes of an answer |
| `PullQueue.JoinsWell` | pkg/chunkinfo/queue.go:184-197 | the nodes that join are new, each once, within the limit, and all new ones join while there is room |
| `PullQueue.Queue.Enlist` | pkg/chunkinfo/chunkinfodiscover.go:112-124 | the loop over the nodes a search names: those not yet known are queued |
| `PullQueue.EnlistsAll` | pkg/chunkinfo/chunkinfodiscover.go:117-124 | every node a search names is known afterwards; the new ones are queued once, behind what was there, and nothing else changes |
| `PullQueue.Queue.TimeOut` | pkg/chunkinfo/timeouttrigger.go:70-71 | a node that did not answer goes from Pulling to the end of UnPull |
| `PullOnce.Ticker.FindLate` | pkg/chunkinfo/timeouttrigger.go:43-53 | some node that is late, or none when nobody is, whatever the order of the map |
| `PullOnce.Ticker.OnTick` | pkg/chunkinfo/timeouttrigger.go:56-78 | one tick: a late node is queued again and stays late, the waiting search is told, and without a queue the entry is forgotten |
| `PullOnce.StepOnceIff` | pkg/chunkinfo/queue.go:141-200 | a step keeps every node in the three lists at most once if and only if the node that answers or is late was being asked or is unknown |
| `PullOnce.RunOnceIff` | pkg/chunkinfo/queue.go:141-200 | the same all along every run of searches, answers, ticks and calls of queueProcess |
| `PullOnce.AskedIsLate` | pkg/chunkinfo/queue.go:164-169 | a node that is asked is late from the timeout on, and others when they were |
| `PullOnce.AnsweredIsNotLate` | pkg/chunkinfo/message.go:173-178 | a node that has answered is not late until it is asked again |
| `PullOnce.EveryTickQueues` | pkg/chunkinfo/timeouttrigger.go:56-78 | k ticks after a node is late append k copies of it to UnPull |
| `PullOnce.AskedOnce` | pkg/chunkinfo/queue.go:141-177 | one search and one call of queueProcess ask a node |
| `PullOnce.QueuedTwice` | pkg/chunkinfo/timeouttrigger.go:56-78 | from there two ticks queue the node twice |
| `PullRace.NeverPopsEmpty` | pkg/chunkinfo/queue.go:141-177 | no interleaving makes queueProcess pop an empty list |
| `PullRace.StaysWithinIff` | pkg/chunkinfo/queue.go:141-177 | from any state of any run Pulling stays within its limit, until the length of UnPull is read a second time, if and only if what the running call has counted fits |
| `PullRace.SecondReadDecides` | pkg/chunkinfo/queue.go:160-163 | at the second read the call is safe if and only if Pulling and the list it sees fit together |
| `PullRace.RunStaysWithinIff` | pkg/chunkinfo/queue.go:141-177 | for every run: Pulling is within its limit all along and in whatever may follow until the next second read, if and only if every second read of the length saw a list that fits |
| `PullRace.QuietRunsFit` | pkg/chunkinfo/queue.go:141-200 | without a push to UnPull between the two reads every second read sees a list that fits |
| `PullRace.QuietRunsStayWithin` | pkg/chunkinfo/queue.go:141-200 | every run without a push to UnPull between the two reads keeps Pulling within its limit, and so does what may follow |
| `PullRace.RaceOverfills` | pkg/chunkinfo/queue.go:160-163 | a run that puts any number of nodes into Pulling |
| `PullRace.AloneIsTheCall` | pkg/chunkinfo/queue.go:141-177 | undisturbed, the steps move exactly what the method QueueProcess moves |

## Left out

- BmtRuns.HashRefinesReference: needs sections of at most 64 bytes and fewer than 2^30 fills of a tree; both limits are the code's own, see `ZeroTailExact` and `ToggleTellsFirst`.
- BmtRuns.EndedRunDelivers: the same two limits.
- BmtRuns.RunInv: one Hash call per fill, a base hash that does not fail, and no fill abandoned between Write and Hash.
- RouteProof.NetworkInvariant: honest nodes; signatures and path bodies are not modelled, since the code does not check them.
- RouteService.Service.OnRouteReq: the kademlia choice of neighbours is a parameter.
- RouteSearch.SearchFindsRoute: that such a run exists over unused tables; a lost message or a call already under way can keep a search from ending, and then it times out.
- RouteTable.Table.SavePath: the copy of the table on disk and reloading from it are not modelled, nor a change of NeighborAlpha while routes are stored.
- RouteRace.RunSettledIff: times of use and the table answers read while operations overlap are not modelled.
- RouteService.Service.AfterWait: which of signal and timeout a waiting search sees is a parameter.
- MulticastProof.ReachableNodesHandle: lossless links, fixed peer sets and a dedup window longer than the flood.
- Multicast.Service.Multicast: the forward nodes outside a group are a parameter, limited in number.
- Multicast.Service.ToGroup: what discovery finds is a parameter and used for this message only.
- RpcProof.ResponsesAreRouted: distinct ids, and no response on a connection to a request whose write there failed; the buffer of a batch is counted per id.
- RpcHandler.Handler.HandleResponse: a subscription is entered under its id and not followed further; its goroutine and its notifications are left out.
- Cipher.Encryption.MaskAll: needs a key that is not empty and segments no longer than a digest; with other keys the code's loop does not advance or indexes past the digest.
- PullRace.NeverPopsEmpty: one queue; the map of queues is not modelled, and the guards of pushes are left open, which allows more runs than the code has.
- PullOnce.Ticker.OnTick: one file; the send to the waiting search is a result, and whether it finds room in the channel is not modelled.
- PullOnce.RunOnceIff: each operation is one step; their interleaving is `PullRace`.
- Underlay addresses carried by route messages, relaying, and connecting over routes.
- HTTP clients, batch calls, server-side request handling and server-side subscriptions of the RPC package.
- Peer discovery, group membership changes and handshakes of the multicast package.
- `ExtendedProximity`, whose result for equal prefixes does not follow the prefix length.
- Whether the chunk count is the number of chunks a file is stored in: the splitter is not part of this model.
- The local store and its garbage collection accounting, mantaray tries, traversal, pipeline and joiner.
- Goroutines, channels and locks appear as steps of a state machine, not as Dafny code.
- API handlers, logging, metrics, tracing, settlement, relay streams and node wiring: they pass values on and hold no protocol or arithmetic of their own.
