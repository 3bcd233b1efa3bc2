# Verified model of the RapidIO stack

This project models the four step-by-step engines of the Linux RapidIO stack, and the sysfs
configuration file, in Dafny, and proves what they are for.

**Fabric enumeration, routing and discovery** (`rio-scan.c`, `rio.c`).  `Fabric` is the hardware:
devices, ports, symmetric links, one route table per switch, the Host Base Device ID Lock CSR, and the
walk of a maintenance packet with a destination ID and a hop count.  `RioScan.Scan` is the enumerating
host: a recursive walk over an arbitrary finite port graph, cycles and redundant links included, that
locks devices, hands out IDs from the bitmap of `DestIds`, writes route tables and repairs them in a
second pass.  All its configuration accesses go through the tables as they are at that moment, so the
proofs must show that every packet finds its target.  `ScanState` states what each step keeps and
`ScanLemmas` proves it; `ScanOrder` is the same walk without locks, tables and packets, as a function, and
fixes the order of devices, tags and IDs; `Trees`, `TreeRoutes`, `Routing` and `Delivery` turn the result into statements
about packets.  `Discovery.Agent` is another endpoint that explores the enumerated fabric, and
`Completeness` ties the two together.

**Block DMA** (`devices/tsi721_dma.c`, `include/dmaengine.h`).  `DmaDescriptors` gives scatter lists and
descriptor words a common meaning: a sequence of single-byte moves.  `DmaRing` is the ring with its link
descriptor and the compiler of scatter lists; `DmaChannel` is the channel over its whole life with
clients, hardware and tasklet as actors; `DmaStatus` is the descriptor status FIFO.

**Windows and message rings** (`devices/tsi721.c`).  `Outbound` and `Inbound` are the window allocators
with their registers; `OmsgRing` and `ImsgRing` are the driver's message rings with the hardware as an
actor.

**Channelized messaging** (`rio_cm.c`).  `CmTx` and `CmRx` are the rings above the driver's, proved in
step with them.  `CmNet` is the connection protocol between any number of nodes, with packets that may be
reordered or lost.  `CmChannel` is a single channel object: receive ring, completion tokens, accept queue,
buffers.

**Configuration file** (`rio-sysfs.c`).  `Config` splits byte ranges into register accesses.

## What was found

* The walk of `rio_disc_peer` goes on without unlocking a switch when an active port has no route
  (rio-scan.c:784-785), and the next port with a route unlocks it again.  So a switch is left locked exactly if
  the last active port, the arrival port apart, has no ID routed to it: `Discovery.Agent.DiscPeer` states the
  lock of every device after the walk, `Discovery.Agent.UnroutedIs` says that these are the ports without a
  device behind them on the tree, and `Completeness.DiscoverSmallFabric` is an instance.
  `rio_build_route_tables` frees all locks in the end.  Taking a lock that the host holds already releases it
  and needs a second write (`Discovery.Agent.LockDevice`).
* A scatter list moves what it asks for exactly if none of the runs that `tsi721_submit_sg` merges from its
  entries is empty (`DmaDescriptors.CompiledExact`): an empty entry that a run takes in does no harm, one that
  stands alone becomes a transfer of 64 MB (`DmaDescriptors.EmptyEntries`).
* The size of an inbound window is stored in 32 bits (devices/tsi721.h:874), so a window of 4 GB or more is
  stored as empty.  An overlap with it is seen exactly if the request starts before the window's start and ends
  after it (`Inbound.StoredSize`).  The count and the books stay right after every mapping; a new window keeps
  the windows apart exactly if none of them is such a large one that holds the new one's start
  (`Inbound.Device.MapDirect`, `MapTranslated`, `Inbound.EnteredApart`), and `Inbound.WideRun` is a run to two
  windows that share a page.  A large window can also never be unmapped (`Inbound.Device.UnmapInb`).
* The registers of an inbound window describe it exactly from 4 KB on.  A direct mapping may be smaller:
  in `Inbound.SmallRun` requests of 16 bytes at 0x1010 and 0x1020 get two windows with the same registers.
* A message that the driver refuses still advances the channel manager's transmit slot
  (rio_cm.c:845-855), so the two layers stay in step exactly as long as all messages are 8 to 4096 bytes
  long: `CmTx.CmTx.PostSend` proves both directions, and `CmTx.RefusedRun` is an instance.
* A channel that asked for its connection never learns `rem_destid` (rio_cm.c:1054-1058), so its DATA and
  CLOSE headers name node 0; only the routing by `rdev` is right.  The header names the right node exactly if
  the log holds no request of the sender or the right node is 0, which is an ID that the enumerator gives out
  (`CmNet.Net.BetweenPeers`); `CmNet.WrongHeader` is a run to a wrong one.
* The search for a buffer in `tsi721_get_inb_message` ends exactly if the ring holds a buffer
  (`ImsgRing.Imsg.Findable`, `ImsgRing.Imsg.FindBuffer`); `CmRx.Starve` is a run, with an allocator that fails,
  to a state with a message and no buffer.
* The write counter of a DMA ring never rests on the link slot, so the wrap at the start of
  `tsi721_submit_sg` (devices/tsi721_dma.c:462-466) is never needed.

## Assumptions

* One enumerating host; configuration accesses succeed; endpoints have one port, switches are pure
  switches; fewer devices than destination IDs and at most 255 switches, so that IDs, tags and 8-bit hop
  counts suffice; all locks are free at first; the ID table starts at 0.
* A `struct rio_dev` goes by the device that it was set up for.  An ID without an entry in a route table
  stands for RIO_INVALID_ROUTE.
* DMA: strides are zero; addresses do not wrap or reach the all-ones value; counters and cookies are
  unbounded; an idle channel has read all descriptors written; for whole runs, the channel stays active,
  entries are at most 64 MB, and a client does not submit a record again while it is at work.
* Addresses of inbound windows do not wrap around at 64 bits.
* Channel messaging: packets are not forged; channel numbers of a node are not used again; a handler, and a
  call's section between waits, is one step; a connect call waits for its answer, and receivers of a
  channel that asked come after it; buffers have names of their own.
* The kernel's cookie comparison (`dma_async_is_complete`), `idr`, completions and allocators are modelled
  by their documented behaviour; they are not part of the repository.

## Model

| member | source | states |
|---|---|---|
| DestIds.IdTable.Alloc | rio-scan.c:65-82 | the least unused ID is taken, or none is left and the table is unchanged |
| DestIds.IdTable.Reserve | rio-scan.c:91-102 | the ID is in use afterwards; the result tells if it was before |
| DestIds.IdTable.Free | rio-scan.c:110-118 | the ID is unused afterwards, all others as before |
| DestIds.IdTable.Next | rio-scan.c:144-157 | the least ID in use from a given one on, or the invalid ID exactly if there is none |
| DestIds.IdTable.First | rio-scan.c:124-136 | the least ID in use, or the invalid ID exactly if there is none |
| Fabric.Topology.TrailTarget | Documentation/rapidio/rapidio.txt:262-268 | a packet whose trail follows the route tables is consumed at the end of the trail when its hop count is used up or an endpoint is met |
| RioScan.Scan.GetComptag | rio.c:855-873 | the listed device with a component tag is found exactly if there is one |
| RioScan.Scan.SetUpDevice | rio-scan.c:331-485 | a new device gets the next tag, an endpoint also the next ID, a switch an empty table; nothing else changes |
| RioScan.Scan.RouteBack | rio-scan.c:599-622 | the table of a new switch sends the host's ID and all IDs given out so far back through the arrival port |
| RioScan.Scan.RouteBelow | rio-scan.c:655-672 | after a port's subtree, exactly the IDs given out there are routed to the port, in the hardware and in the driver's copy |
| RioScan.Scan.KnownDevice | rio-scan.c:546-566 | at a device that is owned already, the previous switch learns its neighbour by component tag and nothing else changes |
| RioScan.Scan.Adopt | rio-scan.c:568-622 | a free device is locked, set up and linked to the previous switch; the new state is exactly the one from which `ScanLemmas.EndpointKeeps` and `SwitchKeeps` start |
| RioScan.Scan.EnumPeer | rio-scan.c:533-705 | the walk ends on any graph, keeps the invariant, sets up and links everything it enters, leaves earlier records as they were, and finds the devices that the depth-first walk in port order finds, in that order |
| RioScan.Scan.ScanSwitch | rio-scan.c:624-699 | the ports of a switch are followed from the lowest on; an empty switch takes an ID of its own, others none |
| RioScan.Scan.UpdateRouteTables | rio-scan.c:895-926 | every switch ends with a route for every device's ID that does not end at the switch itself |
| RioScan.Scan.ClearLocks | rio-scan.c:200-239 | all locks of listed devices and the host become free and the result is 0, because every stored address reaches its device |
| RioScan.Scan.EnumMport | rio-scan.c:953-1019 | enumeration succeeds exactly if the host's link is active, and changes only the host's lock and ID register otherwise; the fabric is then enumerated, devices, tags, arrival ports and IDs are those of the depth-first walk in port order, all locks are free, every device is marked discovered, the host has tag 1 and its ID, and the bitmap holds the host's ID and all IDs below next_destid |
| ScanOrder.WalkInOrder | rio-scan.c:624-672 | the depth-first walk finds each device once, and of two devices behind ports of one device, the one behind the lower port is found, and left with all that is behind it, before the other |
| Delivery.NumberedInOrder | rio-scan.c:395-419 | position by position, the records hold the device, tag, arrival port and ID of the depth-first walk in port order |
| Delivery.SiblingsInOrder | rio-scan.c:624-672 | of two devices that hang from ports of one switch, the one at the lower port has the lower tag, and all IDs given out from it are below the other's |
| ScanLemmas.EndpointKeeps | rio-scan.c:411-419 | setting up an endpoint with the next ID and tag keeps the whole invariant of the walk |
| ScanLemmas.SwitchKeeps | rio-scan.c:589-622 | setting up a switch with routes back to everything known keeps the whole invariant |
| ScanLemmas.AnyRouteKeeps | rio-scan.c:644-650 | the temporary route for the any-device ID keeps the whole invariant |
| ScanLemmas.RoutesKeep | rio-scan.c:655-672 | routing a finished subtree's IDs to its port keeps the whole invariant |
| ScanLemmas.DoneKeeps | rio-scan.c:690-699 | leaving a switch, with an ID of its own if it is empty, keeps the whole invariant |
| ScanLemmas.Room | rio-scan.c:65-82 | the IDs in use never outnumber the devices, so that IDs do not run out |
| ScanLemmas.HopsFit | rio-scan.c:533-541 | hop counts of switches stay within 8 bits |
| Routing.TreeValid | rio-scan.c:533-705 | the records after the walk describe a spanning tree of links that hangs from the host |
| Routing.IntervalsNest | rio-scan.c:624-699 | the ID interval of a device lies inside those of all switches above it |
| Routing.IdIntervals | rio-scan.c:624-699 | a device with an ID of its own is below a switch exactly when its ID lies between the switch's entry and exit next_destid; no two share an ID |
| Routing.RouteLeads | rio-scan.c:599-672 | every route written by the walk leads along the tree towards the home of its ID |
| Delivery.ExtendedSound | rio-scan.c:895-926 | the second pass only adds routes that lead towards the home of their ID |
| Delivery.EnumeratedFull | rio-scan.c:895-926 | after both passes every switch routes every ID that does not end at the switch itself |
| Delivery.Addressed | rio-scan.c:695-699 | the stored (destid, hopcount) pair of every device walks from the host to that device, also through chains of empty switches that share an ID, with or without the second pass |
| Delivery.AllPairsDelivery | rio-scan.c:895-926 | from any endpoint or the host, a packet to any other endpoint's ID follows the hardware tables along the tree path, passes no device twice, and ends at exactly that endpoint |
| Delivery.AllReachableSetUp | rio-scan.c:624-692 | every device linked to the host over any chain of links was set up |
| Delivery.TagsAndIds | rio-scan.c:395-419 | every device has a component tag of its own, and the bitmap holds exactly the host's ID and all IDs up to next_destid |
| Delivery.LinksRecorded | rio-scan.c:546-597 | nextdev of a switch names the device really at the other end of every active link but the one to its parent, which prev names |
| Delivery.HomeBelow | rio-scan.c:695-699 | a device's stored ID ends at the device or below it |
| TreeRoutes.FollowsTree | rio-scan.c:887-926 | tables that lead towards homes everywhere, as the passes leave them, take an ID along the tree path to its home |
| Trees.Tree.LoopFree | rio-scan.c:895-926 | tree paths visit no device twice |
| Discovery.Agent.LockDevice | rio.c:1608-1643 | a free or own lock ends up held by the caller; a foreign lock stays and the call fails after its time |
| Discovery.Agent.UnlockDevice | rio.c:1652-1672 | one write to the lock register; success exactly if the lock is free then |
| Discovery.Agent.FindRoute | rio-scan.c:772-782 | the least ID below the reserved one that is routed to the port, or the reserved one if there is none |
| Discovery.Agent.DiscPeer | rio-scan.c:736-797 | exactly the devices beyond the link are added, each once and with what its registers say, its neighbours and its address; the switch that led there records the first of them behind the port; the lock of each is left held, free or untouched exactly as its active ports and their routes tell; foreign records and locks stay |
| Discovery.Agent.DiscPort | rio-scan.c:758-790 | the devices reached through the port are added, and the switch records its neighbour there exactly if there are any; it ends locked after an active port without routes, unlocked after one with routes, and as before after an inactive one |
| Discovery.Agent.NextPort | rio-scan.c:758-790 | what one more port does to the lock, from the description by the last active port without routes |
| Discovery.Agent.UnroutedIs | rio-scan.c:772-785 | a port has no route below the reserved ID exactly if no device lies behind it on the tree |
| Discovery.BranchHasId | rio-scan.c:772-785 | every port that leads to a device on the tree has an ID below the reserved one routed to it |
| Discovery.SideBeyond | rio-scan.c:787-790 | crossing a tree link leads to exactly the devices in that direction |
| Discovery.Agent.BuildRouteTables | rio-scan.c:1031-1056 | all switch records end with a copy of the hardware table, and all switch locks are free |
| Discovery.Agent.DiscMport | rio-scan.c:1068-1115 | an agent on a routed fabric ends with one record of every other device and with all locks free; each record names its previous device and exactly its neighbours away from the agent, and a switch goes by the least ID routed to it; after the walk, before the tables are copied, exactly the switches whose last active port has no route are locked |
| Discovery.Agent.NeighboursMatch | rio-scan.c:740-790 | a port of a found device leads to a neighbour on record exactly if the device at the other end was entered by that very link, and then that one's previous device is this one |
| Completeness.EnumeratedRouted | rio-scan.c:953-1019 | an enumerated fabric meets all that discovery relies on |
| Completeness.Discover | rio-scan.c:736-797 | on a fabric enumerated by this model, an agent at any other endpoint finds every device once, the host included, with complete neighbours, reads the IDs and tags given out, and leaves all locks free |
| Completeness.FoundExactly | rio-scan.c:953-1019 | exactly the devices linked to the host over any chain of links are enumerated |
| Completeness.EnumerateAndDiscover | rio-scan.c:953-1115 | on any fabric, enumeration and then discovery by any other endpoint linked to the host find exactly the other devices linked to the host, once each, with the tags and IDs of the depth-first walk in port order and complete neighbours, and leave all locks free |
| Completeness.DiscoverSmallFabric | rio-scan.c:736-797 | on a concrete fabric with a link from a switch to itself, discovery finds the host and the switch as each other's only neighbours, and its walk leaves the switch locked |
| DmaDescriptors.FilledEffect | devices/tsi721_dma.c:348-389 | a descriptor filled in both steps does what its count stands for, with 0 for 64 MB: 66-bit address, 26-bit count, target and type; it names the system size and sets no other flag |
| DmaDescriptors.MergedMean | devices/tsi721_dma.c:493-500 | merging neighbours into runs keeps what a list asks for |
| DmaDescriptors.CompiledExact | devices/tsi721_dma.c:478-540 | one descriptor for each merged run moves what the list asks for exactly if no run is empty |
| DmaDescriptors.NoEmptyEntry | devices/tsi721_dma.c:493-500 | a list without empty entries has no empty run |
| DmaDescriptors.EmptyEntries | devices/tsi721_dma.c:493-516 | one list with an empty entry is moved as asked, another moves 64 MB too much |
| DmaDescriptors.ListMovesOrder | devices/tsi721_dma.c:478-540 | a scatter list names each RapidIO byte of its range once, in order, with its local byte |
| DmaRing.IssuedBound | devices/tsi721_dma.c:459-467 | a round of the ring that starts off the link slot holds at most bd_num data descriptors |
| DmaRing.ExecFill | devices/tsi721_dma.c:510-516 | filling the next slot, less than a round ahead, changes nothing about the descriptors not yet carried out |
| DmaRing.Ring.FillEnd | devices/tsi721_dma.c:379-389 | closing the open descriptor, when the next entry does not join its run, turns the run into moves |
| DmaRing.Ring.FillInit | devices/tsi721_dma.c:348-377 | the next descriptor opens in a data slot, and the next slot after it is a data slot again |
| DmaRing.Ring.FillList | devices/tsi721_dma.c:472-544 | the descriptors written and the runs of the rest of the list together are the runs of the list, for any merging; the list is split only when all data slots of a round are filled |
| DmaRing.Ring.SubmitSg | devices/tsi721_dma.c:428-549 | the same for the whole call: one descriptor for each of the first bd_num merged runs, the rest of the list for the rest, so that the whole list is issued exactly if it has at most bd_num runs; the link slot stays; it fails exactly on a busy channel, or if an entry over 64 MB comes up before the ring is full |
| DmaRing.MeetsNone | devices/tsi721_dma.c:478-508 | a part of a list that fills the round leaves no entry over 64 MB that should have been met |
| DmaRing.IssuedAll | devices/tsi721_dma.c:503-508 | a whole round of the ring has exactly bd_num data slots |
| DmaRing.Ring.StartDma | devices/tsi721_dma.c:320-346 | an idle channel with new descriptors starts; any other is left alone |
| DmaRing.Ring.constructor | devices/tsi721_dma.c:78-158 | the ring starts empty and idle, with a last descriptor that links to its start |
| DmaStatus.StatusFifo.ClrStat | devices/tsi721_dma.c:404-425 | clears the consecutive rows that hold a status, at most one round, nothing else, and ends at a row that starts empty |
| DmaChannel.Channel.constructor | devices/tsi721_dma.c:746-790 | a new channel is valid with all records free, the last one first |
| DmaChannel.Channel.Prep | devices/tsi721_dma.c:851-930 | refuses empty lists, unknown directions and an empty free list, and changes nothing then; otherwise the first free record leaves the free list and holds the whole request with the transaction type for its direction and write type, whatever the sizes and addresses |
| DmaChannel.Channel.Submit | devices/tsi721_dma.c:715-744 | a prepared transfer becomes the last job with the next cookie, its interrupt flag and its callback, standing for what its list asks for exactly if no merged run is empty; a record that is listed already is refused |
| DmaChannel.Channel.AdvanceWork | devices/tsi721_dma.c:551-588 | an idle channel with work starts it; every record still has one owner and no move is lost or added |
| DmaChannel.Channel.Tasklet | devices/tsi721_dma.c:590-713 | a finished transfer completes only when its whole list was issued, and then its callback is called exactly if it asked for an interrupt and has one, and its record is the first free one; else its next part is issued; the invariant over whole runs holds |
| DmaChannel.Channel.HardwareStep | devices/tsi721_dma.c:320-346 | carrying out a descriptor moves it from what is to do to what is done, and the end is signalled |
| DmaChannel.Channel.TxStatus | devices/tsi721_dma.c:825-834 | for an issued cookie, complete means exactly that its transfer is finished |
| DmaChannel.Channel.AssignCookie | include/dmaengine.h:28-41 | cookies are consecutive and name jobs in order of submission |
| DmaChannel.Channel.Complete | include/dmaengine.h:51-56 | the completed cookie becomes that of the oldest pending transfer, whose record becomes free |
| DmaChannel.Channel.InOrder | devices/tsi721_dma.c:676-713 | in every state the hardware has moved exactly the bytes of all finished jobs and a part of the next, in order of submission; exactly the callbacks of the finished jobs that asked for an interrupt and have one were called, once each, in order; work is never forgotten |
| Outbound.Device.Search | devices/tsi721.c:900-932 | the search ends, each clashing window being jumped once, at the least place that clashes with no active window of the BAR |
| Outbound.Device.Alloc | devices/tsi721.c:885-946 | takes the first inactive window and the least aligned place in the BAR that fits; fails for lack of room exactly when no place fits |
| Outbound.Device.MapOutb | devices/tsi721.c:949-1030 | rejects bad sizes and addresses; otherwise the least fitting place of the first BAR that has one, whose free space shrinks by the size; no memory exactly when neither BAR has one; windows stay disjoint and counted |
| Outbound.Device.UnmapOutb | devices/tsi721.c:1032-1056 | the first matching window becomes inactive and its space is given back; without a match nothing changes |
| Outbound.Device.constructor | devices/tsi721.c:1064-1103 | at first all windows are inactive and all space is free |
| Outbound.FitsFree | devices/tsi721.c:973-976 | if a place in a BAR fits, its free count is large enough, so the check of the count refuses nothing that fits |
| Outbound.Device.Program | devices/tsi721.c:994-1028 | the registers and all eight zones say what the window is for, with plain reads and writes as access types; other windows' registers stay |
| Outbound.Device.Linear | devices/tsi721.c:994-1020 | the hardware translates an address exactly if it is in an active window, by that window alone, to rstart plus the offset |
| Inbound.DirectWindow | devices/tsi721.c:1134-1152 | the smallest naturally aligned power-of-two window that holds the range; refused exactly if that exceeds 16 GB |
| Inbound.Within | devices/tsi721.c:1186-1213 | a window that holds a request holds the smallest window for it, so that no other window is in the way |
| Inbound.StoredSize | devices/tsi721.c:1222-1227 | the stored size is the window's exactly below 4 GB; with a larger window an overlap is seen exactly if the request starts before the window's start and ends after it |
| Inbound.Device.MapDirect | devices/tsi721.c:1116-1262 | an overlap is shared exactly when an active direct window holds the request, else refused; without overlap the first inactive window becomes the smallest one, in the books and in the registers; the count is always right, and windows are apart afterwards exactly if they were before and a new one does not start inside a window of 4 GB or more |
| Inbound.Device.MapTranslated | devices/tsi721.c:1116-1262 | rejects bad sizes and addresses, a lack of windows, and any overlap that it sees; otherwise the first inactive window maps exactly the request, in the books and in the registers; count and windows as for a direct request |
| Inbound.EnteredApart | devices/tsi721.c:1186-1227 | a new window that overlaps none by the stored sizes overlaps none by the full sizes exactly if it does not start inside a window of 4 GB or more |
| Inbound.NarrowApart | devices/tsi721.c:1186-1213 | without windows of 4 GB or more, the active windows are always apart |
| Inbound.RegsSay | devices/tsi721.c:1241-1250 | the five registers written enable the window, and describe its base, size and local address exactly from 4 KB on |
| Inbound.Device.Linear | devices/tsi721.c:1241-1250 | a window of at least 4 KB translates an address exactly if it is active and holds it, to its local address plus the offset, and while windows are apart no other one of at least 4 KB does |
| Inbound.WideRun | devices/tsi721.c:1134-1227 | a window of 8 GB and then one page inside it both become active, and are not apart |
| Inbound.SmallRun | devices/tsi721.c:1134-1250 | two requests of 16 bytes in one page get two windows that are apart but have the same registers, which name the whole page's base |
| Inbound.Device.UnmapInb | devices/tsi721.c:1269-1322 | the first window below 4 GB that serves the address loses one client, and becomes inactive exactly with its last one; larger windows stay as they are; windows that were apart stay so |
| Inbound.OneClientLess | devices/tsi721.c:1285-1312 | of a direct window's clients exactly one with the address goes, and the window stays active exactly if there are others |
| OmsgRing.Omsg.AddMessage | devices/tsi721.c:1698-1755 | refuses lengths outside 8 to 4096; otherwise the message and its descriptor are in the next slot and no unsent one is overwritten |
| OmsgRing.Omsg.Handler | devices/tsi721.c:1764-1849 | the slot after the last message sent, or nothing if only the link descriptor was processed |
| OmsgRing.Omsg.HardwareStep | devices/tsi721.c:1737-1753 | the hardware sends the oldest unsent message, or passes the link descriptor |
| OmsgRing.Omsg.InOrder | devices/tsi721.c:1698-1755 | messages leave in the order of posting with their targets and contents |
| CmTx.CmTx.PostSend | rio_cm.c:828-860 | busy exactly if 128 messages are unacknowledged; otherwise the manager's slot advances, and the layers stay in step exactly if the length is valid |
| CmTx.RefusedRun | rio_cm.c:845-855 | a message of 7 bytes is refused, and leaves the manager at slot 1 and the driver at slot 0 |
| CmTx.CmTx.HardwareStep | devices/tsi721.c:1737-1753 | what the hardware sends does not disturb the step of the two layers |
| CmTx.CmTx.Acknowledge | rio_cm.c:745-768 | frees the slots of exactly the messages that the driver saw finished, even if all 128 did |
| CmTx.CmTx.TxcqHandler | rio_cm.c:730-787 | the same, and then waiting requests move to the ring oldest first, each with its buffer, until it is full or none waits |
| CmTx.CmTx.QueueReq | rio_cm.c:798-815 | a request waits behind the others |
| CmTx.Reached | rio_cm.c:745-757 | stopping at the named slot, with fewer than 128 unacknowledged messages, means that all finished ones are acknowledged |
| ImsgRing.Imsg.AddBuffer | devices/tsi721.c:2455-2479 | fails exactly if all slots hold buffers |
| ImsgRing.Imsg.GetMessage | devices/tsi721.c:2487-2549 | the oldest message, in the buffer that was added first |
| ImsgRing.Imsg.FindBuffer | devices/tsi721.c:2509-2513 | the search from the next slot on ends at the oldest buffer |
| ImsgRing.Imsg.Findable | devices/tsi721.c:2509-2513 | there is a buffer to find exactly if one was added and not used |
| RingSlots.Gap | devices/tsi721.c:2509-2513 | the slots after the last entry are empty up to that of the oldest entry |
| CmRx.CmRx.GetMsg | rio_cm.c:312-334 | the buffer of the oldest message is found on record and leaves it; without a message nothing changes |
| CmRx.CmRx.Fill | rio_cm.c:342-360 | as many new buffers as asked for, free and available are added, and the driver accepts each |
| CmRx.CmRx.Receive | rio_cm.c:675-686 | one message is taken, and one buffer added if the allocator has one |
| CmRx.Starve | rio_cm.c:342-360 | with an allocator that fails, messages use up the buffers until one waits and no buffer is left |
| Records.RecordMore | rio_cm.c:349-357 | a table that records each buffer once keeps doing so with a new one in an empty slot |
| Records.RecordLess | rio_cm.c:319-328 | the same without one of its buffers |
| CmNet.Net.Connect | rio_cm.c:1037-1104 | only an idle channel asks, once, and waits for its answer |
| CmNet.Net.ReqHandler | rio_cm.c:444-493 | a listening channel queues the request behind the others and nothing else changes; anything else is answered with a NACK to a known peer |
| CmNet.Net.Accept | rio_cm.c:1210-1277 | the oldest request gets a new connected channel that names the requester and is found by its number, and one ACK; an unknown peer's request is dropped in silence; no other channel changes |
| CmNet.Net.FoundUntilClose | rio_cm.c:1460-1548 | in every reachable state a connected channel is found by its number exactly if it has not sent a CLOSE |
| CmNet.Net.RespHandler | rio_cm.c:502-528 | only a channel that waits becomes connected, to the channel that sent the ACK |
| CmNet.Net.Close | rio_cm.c:1531-1548 | a found channel is given up; exactly if it was connected one CLOSE goes to its peer |
| CmNet.Net.CloseHandler | rio_cm.c:536-560 | the named channel goes away and nothing is sent in reply |
| CmNet.Net.Shutdown | rio_cm.c:2349-2379 | a connected channel sends its one CLOSE and can no longer be found |
| CmNet.Net.SendData | rio_cm.c:876-924 | data only leaves connected channels, to the peer they name |
| CmNet.Net.DataHandler | rio_cm.c:609-655 | data is taken only by the connected channel it names |
| CmNet.Net.Bind | rio_cm.c:1325-1368 | only an idle channel becomes bound |
| CmNet.Net.Listen | rio_cm.c:1300-1312 | only a bound channel starts to listen |
| CmNet.Net.Logged | rio_cm.c:1054-1091 | a channel's request is known exactly if it is in the log, and taken up by a channel exactly if that one's ACK to it is; a channel that asked never sends an ACK |
| CmNet.Net.Agreement | rio_cm.c:502-528 | in every reachable state a connected channel's peer exists; if the log holds the channel's request, the peer sent it the ACK and names it, if not, the peer asked and got this channel's ACK; if both are connected the two name each other |
| CmNet.Net.OneForOne | rio_cm.c:1210-1277 | no two ACKs go to one request or come from one channel, and each comes from a channel that names the requester |
| CmNet.Net.AtMostOnce | rio_cm.c:1037-1116 | each channel asks at most once, closes at most once, and gets at most one answer, ACK or NACK |
| CmNet.Net.BetweenPeers | rio_cm.c:894-911 | data and CLOSE packets only pass between two channels of which one sent the other the ACK; their header names the right node exactly if the sender did not ask or the right node is 0 |
| CmNet.WrongHeader | rio_cm.c:894-911 | a run in which the asking channel sends data to node 2 under a header that names node 0 |
| CmNet.PopKeeps | rio_cm.c:1238-1246 | taking a request out of an accept queue keeps every other request with its one owner |
| CmNet.NewKeeps | rio_cm.c:1226-1270 | a new channel for a request that no one else has keeps all agreements |
| CmChannel.Channel.DataHandler | rio_cm.c:609-655 | a message is kept with one token exactly if the channel is connected and its ring is not full |
| CmChannel.Channel.ReceiveFinish | rio_cm.c:980-1018 | a woken receiver on a connected channel always finds a message, the oldest; it is given to the user or freed |
| CmChannel.Channel.FreeRxbuf | rio_cm.c:926-948 | frees a buffer exactly if the user has it |
| CmChannel.Channel.ReqHandler | rio_cm.c:470-483 | a listening channel queues the request with one token |
| CmChannel.Channel.AcceptFinish | rio_cm.c:1210-1246 | a woken accepter on a listening channel always finds a request, the oldest |
| CmChannel.Channel.RespHandler | rio_cm.c:502-528 | an answer leaves one token for the connect call, and an ACK connects the channel |
| CmChannel.Channel.ConnectFinish | rio_cm.c:1097-1110 | the connect call uses up the token of its answer, not one of a message |
| CmChannel.Channel.Free | rio_cm.c:1460-1486 | every message that was ever kept has been freed exactly once |
| CmChannel.AllFreed | rio_cm.c:1460-1486 | the buffers with the user, in the ring and freed before are all buffers that arrived, each once |
| Config.TilesOnce | rio-sysfs.c:190-234 | accesses that tile a range are aligned, in order, and hold every byte of it exactly once |
| Config.Device.ReadConfig | rio-sysfs.c:168-237 | returns the clipped range byte by byte as in the space, by the widest aligned accesses from its start on, and nothing else of the buffer changes |
| Config.Device.WriteConfig | rio-sysfs.c:239-297 | replaces exactly the clipped range by the data, by the widest aligned accesses from its start on |
| Config.PlanTiles | rio-sysfs.c:190-234 | the widest aligned accesses that fit, one after the other, tile the range |
| Config.Device.WriteThenRead | rio-sysfs.c:168-297 | a write and a read of the same range give the data back |
| Config.Device.Read | rio-access.c:94-121 | an aligned access reads the big-endian value; an unaligned one is refused |

## Left out

- RioScan.Scan.EnumPeer: does not model the waiting and retreat for a competing enumerating host, port enabling, `port_ok` bits, power-on of ports or device-specific switch operations; none of them changes IDs, routes or locks of a single host.
- RioScan.Scan.EnumMport: a port that was enumerated or reserved before, and failing allocations, are not modelled.
- Discovery.Agent.DiscMport: starts when the enumerator's flag is set; the wait for it is real time. The agent's own ID is read when the agent is created.
- Discovery.Agent.LockDevice: with no time limit it is only called on a lock that is free or held by the caller, since it would wait for ever on another one.
- DmaChannel.Channel.Tasklet: channel errors, status-FIFO overflow and `terminate_all` are not modelled, nor is a submit that fails; these do not clear the active transfer.
- DmaChannel.Channel.Submit: an entry over 64 MB is excluded, because its submit fails without clearing the active transfer, and so are wrapping addresses; the channel is active, so the refusal of an inactive one is not modelled. A record at work is not in a list, so the driver would queue it a second time; a client does not do that.
- DmaRing.Ring.FillEnd: never asks for an interrupt, as in all its calls.
- Inbound.Device.MapDirect: a failing allocation of the client record is not modelled; the size is at least 1.
- OmsgRing.Omsg.Handler: channel errors and re-initialisation are not modelled; the status FIFO is a sequence, its clearing is that of `DmaStatus`.
- ImsgRing.Imsg.GetMessage: a message that waits while no buffer is in the ring is excluded, because the search has no end then. The list of free hardware buffers and the length field are not modelled; a descriptor carries its message.
- CmRx.CmRx.GetMsg: excludes the same case.
- CmRx.CmRx.Receive: excludes the same case; `CmRx.Starve` shows that it can be reached.
- CmTx.CmTx.QueueReq: takes requests of a valid length only; all its callers queue a bare header.
- CmNet.Net.Create: takes a number that was not used on the node before, so a number that is used again while packets are on their way is not modelled.
- CmChannel.Channel.ReceiveWake: time limits and signals end a wait without a token and are not modelled.
- PCI probing, interrupts, memory mapping and the other registers of the Tsi721.
- The switch drivers; a route table is a map, as rio.c sees it.
- Port-write handling and error-stop recovery in rio.c, and the walk over extended features.
- The network device, the character devices and their argument copying.
