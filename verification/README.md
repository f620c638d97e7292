# ros2probe: a verified model of reassembly, discovery and recording

ros2probe watches DDS/RTPS and Zenoh traffic and rebuilds messages and the ROS graph
from captured packets. This project models the stateful core of that work in Dafny
and proves what it is meant to guarantee. `dafny verify dfyconfig.toml` checks all of it.

How the modules are built: what an operation does to the state is a function on
values (`Accept`, `Step`, `ProcessBody`, `Insert`, ...). The class that stands for the
source's struct has methods with the source's loops, in-place edits and branches, each
proved to take the state where that function says. The theorems are about those
functions and about runs of them, against an independent description: what a sender
writes (streams, connections, numbered fragments, packets, parameter lists, CDR), what
was declared or announced and when, and what key expressions parse to.

| file | module | what it is about |
|---|---|---|
| basics.dfy, fragment_log.dfy | Basics, FragmentLogs | shared types, received fragments |
| fifo.dfy | FifoOrder, FlowTables | the bounded table that drops its oldest key, as RTPS, IP and TCP flows are kept |
| framing.dfy, framing_streams.dfy | Framing, FramingStreams | cutting a byte stream into batches by a u16 length prefix, and what it reads of streams as they are written |
| tcp.dfy | TcpReassembly | Zenoh over TCP: the segment queue in 32-bit sequence space (section 3.4 of RFC 9293), refined to unbounded stream positions |
| tcp_recovery.dfy | TcpRecovery | lost bytes, refused batches, and how a flow recovers |
| tcp_flows.dfy | TcpFlows | the table of TCP flows, and that they do not disturb each other |
| tcp_sender.dfy | TcpConnections | flows as connections with SYN, FIN and RST |
| ranges.dfy | Ranges | the interval lists edited in place |
| budget.dfy | MapSums, SharedBudget, BudgetProtocol | the memory budget shared by concurrent processors, as interleaved atomic steps |
| rtps_fragments.dfy | RtpsFragments | DATA_FRAG reassembly (section 8.3.7.3 of DDSI-RTPS 2.3) |
| zenoh_fragments.dfy | ZenohFlows, ZenohFragments, ZenohCrowding | Zenoh fragment reassembly |
| rtps_sender.dfy, zenoh_sender.dfy | RtpsSender, ZenohSender | fragments as a sender numbers and cuts them |
| ip_fragments.dfy | IpFragments | IP reassembly (section 3.2 of RFC 791, section 4.5 of RFC 8200) |
| liveliness.dfy | ZenohEntities, Liveliness | token tables per flow and the reference-counted entity graph |
| token_runs.dfy | TokenRuns | what tokens stand for, by what was declared |
| discovery.dfy | DiscoveryIds, Directories, Discovery, DiscoveryLookup | participants and endpoints with GID indexes and deadlines |
| discovery_times.dfy | DiscoveryTimes | what entries say and until when they stand, by what was announced |
| nodes.dfy, node_listings.dfy | Nodes, NodeListings | the node table and its six indexes, and what it shows of samples |
| runtime_graph.dfy | RuntimeGraph | the relation between flows and key expressions that drives the two tables above |
| runtime_news.dfy | RuntimeNews | when a change of the tables asks for a redraw |
| runtime_view.dfy | RuntimeView | what the tables show and flows hold, by what key expressions parse to and what happened |
| cdr.dfy | RosDiscoveryInfo | the CDR reader that finds out the GID width |
| kernel_scan.dfy, kernel_packets.dfy | KernelScan, KernelPackets | the bounded kernel scan against the full walk, and both on packets as they are written |
| parameters.dfy | ParameterLists, UnalignedLists | parameter lists (section 9.4.2.11 of DDSI-RTPS 2.3) |
| gid_map.dfy, gid_selection.dfy | GidMap, GidSelection | the kernel's GID map and its mirror, and which topics are selected |
| recorder.dfy, recorder_answers.dfy | Recorder, RecorderAnswers | the bounded-channel recorder protocol and its answers |

What is uninterpreted: the batch decoder and the message decoder, UTF-8 validity, the
split of a key expression into its parts, the hash that makes Zenoh GIDs, the
normalisation of type names. Each is a function parameter of the theorems. What the
environment decides is a ghost or an input: whether the allocator or the file system
succeeds, which processor runs between two atomic operations, which flow is met first
in a hash table, whether the kernel refuses a call. Times are natural numbers with a
last representable one, passed in.

Results that differ from what one might expect:

- IP reassembly keeps one chunk per offset, so a shorter repeat loses bytes
  (`IpFragments.ShorterRepeatLoses`). `AssembledExactly` says exactly when the result
  is still the datagram, and equal lengths at equal offsets are enough.
- `skip_parameter_list` rounds offsets from the start of the submessage while
  `iter_parameters` rounds lengths. `ParameterLists.SkipExact` shows that the skip ends
  past the sentinel if and only if the list is 4-aligned or empty; the search for a
  disposal is reliable for the same offsets only (`UnalignedLists.DisposalReliable`).
- The kernel scan reads the first submessage header without a bound check. It agrees
  with the full walk if and only if the payload has room for that header or the bytes
  behind it happen not to look like data (`KernelScan.ScanDecides`, over all payloads;
  `ShortPayloadMisread` is an input).
- A full table drops a pending flow for a new one, so other traffic can cost an RTPS
  sample, an IP datagram, a Zenoh message or a TCP flow its completion. `LostToAnother`
  in each of the four modules says exactly which arrival does it. That a flow completes
  is proved for fewer competing keys than places, which depends on the arrivals alone,
  and `CrowdedOut` shows for every number of places that one more is too many. The tail
  of a Zenoh message whose head was dropped is then decoded as if it were a message.
- A lease is announced in seconds and a fraction, which DDSI-RTPS counts in units of
  2^-32 seconds. The program takes the fraction for nanoseconds, and so does the model
  (`DiscoveryTimes.LeaseEnds`).
- A GID that two entries carry, or an id that two nodes list, is found for one of them
  only (`Directories.PutComplete`, `Nodes.ClaimComplete`: if and only if, for one step;
  `RunFinds` for whole runs). Lookups are sound in any case.

## Model

| member | source | states |
|---|---|---|
| Framing.FrameBatches | ros2probe/src/protocols/zenoh.rs:1737-1785 | the framing loop yields exactly the batches, the remainder and the failure flag that the length prefixes determine |
| Framing.ChunkIndependent | ros2probe/src/protocols/zenoh.rs:1737-1785 | for every decoder, framing x and then its remainder with y appended is framing x and y at once; a failure stays a failure |
| Framing.FrameInvertsEncode | ros2probe/src/protocols/zenoh.rs:1737-1785 | framing the concatenation of length-prefixed non-empty payloads returns exactly those payloads and no remainder |
| Framing.FramePrefix | ros2probe/src/protocols/zenoh.rs:1737-1785 | when nothing in a stream is refused nothing in a prefix is, and the whole gives the batches of the prefix and then those of what it leaves with the rest |
| FramingStreams.FrameReads | ros2probe/src/protocols/zenoh.rs:1737-1785 | a stream cut off within a batch gives all batches before it, empty ones left out, and keeps the part of the last one |
| FramingStreams.FrameStops | ros2probe/src/protocols/zenoh.rs:1737-1785 | a batch that the decoder refuses stops framing there, after the batches before it |
| TcpReassembly.SeqCompare | ros2probe/src/protocols/zenoh.rs:1716-1730 | within 2^31 of each other, comparisons modulo 2^32 agree with comparisons of unbounded stream positions |
| TcpReassembly.TcpFlowState.TryAlignFromSegment | ros2probe/src/protocols/zenoh.rs:1593-1625 | alignment succeeds exactly when the segment frames to at least one batch without failure; the new state is determined |
| TcpReassembly.TcpFlowState.InsertSegmentBytes | ros2probe/src/protocols/zenoh.rs:1637-1672 | a segment is refused only by the queue limits; otherwise it is inserted in sequence order unless a queued one of the same start is at least as long |
| TcpReassembly.TcpFlowState.FlushContiguous | ros2probe/src/protocols/zenoh.rs:1674-1705 | all segments that reach back to the next byte move to the buffer, cut at the bytes already there; the byte count follows |
| TcpReassembly.TcpFlowState.ProcessPayload | ros2probe/src/protocols/zenoh.rs:540-571 | one payload takes the flow to the state, and hands on the batches, of the step that the refinement theorem is about; a segment that a queue limit refuses starts the flow afresh |
| TcpReassembly.InsertRefines | ros2probe/src/protocols/zenoh.rs:1637-1672 | inserting a segment refines inserting a slice of the stream into the queue of unbounded positions |
| TcpReassembly.PopRefines | ros2probe/src/protocols/zenoh.rs:1674-1705 | popping one segment advances the position by exactly its bytes beyond the buffer |
| TcpReassembly.FlushRefines | ros2probe/src/protocols/zenoh.rs:1674-1705 | flushing refines draining the abstract queue, and the buffer grows by exactly the stream bytes up to the new position |
| TcpReassembly.EnqueueKeeps | ros2probe/src/protocols/zenoh.rs:1637-1672 | the queue stays sorted and covers exactly the old positions and those of the new slice |
| TcpReassembly.DrainKeeps | ros2probe/src/protocols/zenoh.rs:1674-1705 | every segment left after a flush starts strictly after the next byte, sorted |
| TcpReassembly.DrainCovers | ros2probe/src/protocols/zenoh.rs:1674-1705 | draining loses no received position beyond the new one |
| TcpReassembly.ReassemblyRefines | ros2probe/src/protocols/zenoh.rs:1593-1730 | for every arrival order, with duplicates, overlaps and wrap-around: the next byte is the first not received since alignment, the batches are exactly the framing of the stream up to it, the queue is exactly what lies beyond, sorted, with an exact byte count |
| TcpReassembly.QueueBounded | ros2probe/src/protocols/zenoh.rs:1637-1672 | on any input, the queue never holds more segments or bytes than have arrived |
| TcpReassembly.SmallRunsFit | ros2probe/src/protocols/zenoh.rs:1637-1672 | a run that is small as a whole never hits the queue limits |
| TcpReassembly.PayloadsRecovered | ros2probe/src/protocols/zenoh.rs:540-571 | end to end: once every byte of a stream of length-prefixed payloads has arrived, exactly those payloads were emitted, in order, and nothing is left queued |
| TcpReassembly.RefusedStartsAfresh | ros2probe/src/protocols/zenoh.rs:540-571 | a segment past the next byte and not held yet, when 4096 are queued or it would take the queue past 1 MiB: its own framing is what comes out, and the flow waits for its end with an empty queue, or is unaligned if that framing fails or yields nothing |
| TcpRecovery.BatchRefused | ros2probe/src/protocols/zenoh.rs:540-571 | the arrival that completes a batch the decoder refuses hands on everything before that batch and leaves the flow unaligned and empty |
| TcpRecovery.RecoversAfterLoss | ros2probe/src/protocols/zenoh.rs:540-571 | whatever a flow has been through, lost bytes included: once it is unaligned or its queue refuses a slice, all payloads from that slice on come out |
| TcpRecovery.StuckRecovers | ros2probe/src/protocols/zenoh.rs:540-571 | such a run: bytes are lost, 4096 segments queue up behind the gap, the next one starts the flow afresh and its batch comes out |
| TcpFlows.ProcessKeeps | ros2probe/src/protocols/zenoh.rs:597-616 | the order lists exactly the flows, at most capacity of them |
| TcpFlows.OthersKeep | ros2probe/src/protocols/zenoh.rs:597-616 | a flow outlasts the packets of other flows while fewer of them bring segments than the table has places |
| TcpFlows.FlowIsolated | ros2probe/src/protocols/zenoh.rs:511-595 | whatever arrives on other flows in between, the batches that come out at the packets of a flow are those of its own segments, up to and including the packet that ends it |
| TcpFlows.PayloadsRecoveredAmongMany | ros2probe/src/protocols/zenoh.rs:511-595 | end to end for one flow among many: exactly the payloads of its stream come out at its packets |
| TcpConnections.ConnectionRecovered | ros2probe/src/protocols/zenoh.rs:511-595 | one connection among many, by the sequence numbers of its packets: the SYN takes the initial one and the first byte the next; exactly the payloads of its stream come out at its packets |
| TcpConnections.EndedIsNew | ros2probe/src/protocols/zenoh.rs:511-595 | after FIN or RST nothing of a flow is left, and what follows is a run in which the flow is new |
| TcpFlows.LostToAnother | ros2probe/src/protocols/zenoh.rs:597-616 | another flow's packet costs a flow its state if and only if it brings a segment for a new flow to a full table whose oldest flow this is |
| TcpFlows.CrowdedOut | ros2probe/src/protocols/zenoh.rs:597-616 | for every number of places, that many rivals are too many: the flow loses its state in between, and what comes out at its packets is not what its segments hold |
| TcpFlows.TcpFlowTable.FlowState | ros2probe/src/protocols/zenoh.rs:597-616 | the state of a flow, with the oldest flow dropped when a new one meets a full table |
| TcpFlows.TcpFlowTable.ProcessTcp | ros2probe/src/protocols/zenoh.rs:511-595 | one packet with its SYN, FIN and RST flags: table and batches are those of the value-level step |
| Ranges.InsertRange | ros2probe/src/capture/ip_frag.rs:621-643 | a canonical interval list stays canonical and covers exactly the old set and [start, end) |
| Ranges.InsertRangeBounded | ros2probe/src/protocols/rtps.rs:565-591 | the same with a bound: a full list of 4096 refuses exactly the non-empty intervals that touch no range, and the list never grows past 4096 |
| Ranges.CanonicalUnique | ros2probe/src/protocols/rtps.rs:565-591 | a set of positions has one canonical interval list |
| Ranges.WholeCoversAll | ros2probe/src/protocols/rtps.rs:593-599 | the list is the one interval [0, size) exactly when every position below size is covered |
| MapSums.SumSet | ros2probe/src/protocols/rtps.rs:383-401 | the sum over a table changes by the difference at the key that is set |
| SharedBudget.MemoryBudget.TryReserve | ros2probe/src/protocols/rtps.rs:383-389 | all bytes or none, refused exactly when they would exceed the capacity; no other share changes |
| SharedBudget.MemoryBudget.Release | ros2probe/src/protocols/zenoh.rs:399-408 | returning no more than one's share cannot underflow and gives exactly those bytes back |
| BudgetProtocol.WorkerConserves | ros2probe/src/protocols/rtps.rs:213-372 | every atomic step of an RTPS or Zenoh worker changes the counter by exactly what it changes in its flows and reservations in flight |
| BudgetProtocol.StepConserves | ros2probe/src/protocols/zenoh.rs:801-904 | any interleaved step keeps the counter equal to the sum over all workers and within the capacity |
| BudgetProtocol.RunConserves | ros2probe/src/protocols/zenoh.rs:383-408 | in every state of every interleaving the counter is the sum over all live flows and reservations in flight, never above capacity, never below zero |
| BudgetProtocol.DropReturnsEverything | ros2probe/src/protocols/rtps.rs:408-413 | once all processors are dropped the whole budget is free |
| RtpsFragments.LatestWins | ros2probe/src/protocols/rtps.rs:329-333 | a written byte is the one of the latest fragment covering it |
| RtpsFragments.AcceptKeeps | ros2probe/src/protocols/rtps.rs:213-372 | after any submessage the order lists the flow keys once each, at most capacity of them, and all fragments fit their samples |
| RtpsFragments.EmittedIsExact | ros2probe/src/protocols/rtps.rs:329-362 | an emitted sample has the announced size and every byte comes from the latest accepted fragment covering it |
| RtpsFragments.OnlyTheSample | ros2probe/src/protocols/rtps.rs:213-362 | whatever else arrives, if the submessages of a key are fragments of one sample, nothing but that sample is emitted for it |
| RtpsSender.OnlyWhatWasSent | ros2probe/src/protocols/rtps.rs:213-362 | whatever else arrives, if the submessages of a key carry numbered fragments of one size of one sample, several at a time and the last one short or not, nothing but that sample comes out for it |
| RtpsSender.SampleDelivered | ros2probe/src/protocols/rtps.rs:213-362 | those submessages, in any order and with repeats, among traffic of fewer other keys than places: the one with which the last fragment number arrives yields the sample, and none before yields anything |
| RtpsSender.FewNeverScatter | ros2probe/src/protocols/rtps.rs:565-591 | a run of at most 4096 submessages never makes more intervals than a flow keeps |
| RtpsSender.TooScattered | ros2probe/src/protocols/rtps.rs:329-342 | a part that is apart from 4096 intervals received so far costs its key what it had |
| RtpsSender.Contradictions | ros2probe/src/protocols/rtps.rs:252-300 | a submessage of another size costs its key what it had; one numbered zero, without payload, too large, or without memory for it changes nothing |
| RtpsFragments.SampleYielded | ros2probe/src/protocols/rtps.rs:213-362 | the fragments of one sample, in any order and with repeats, and with any submessages for other keys in between as long as fewer other keys enter than the table has places, yield that sample with the fragment that completes the cover, and nothing before |
| RtpsFragments.OthersKeep | ros2probe/src/protocols/rtps.rs:272-307 | a pending flow outlasts the submessages of others while fewer of them enter than the table has places |
| RtpsFragments.LostToAnother | ros2probe/src/protocols/rtps.rs:278-285 | another key costs a pending flow its place if and only if it enters a full table whose oldest flow this is |
| RtpsFragments.CrowdedOut | ros2probe/src/protocols/rtps.rs:278-285 | for every number of places, that many rivals are too many: all else that the delivery asks for holds, and the fragment that completes the cover yields nothing |
| RtpsFragments.FewAreNotRefused | ros2probe/src/protocols/rtps.rs:565-591 | fewer than 4096 fragments are never refused for want of ranges |
| RtpsFragments.FragState.WriteAt | ros2probe/src/protocols/rtps.rs:329-333 | the buffer is written at the offset only when the ranges accept the fragment |
| RtpsFragments.FragState.IsComplete | ros2probe/src/protocols/rtps.rs:593-599 | completeness of the ranges is coverage of every byte |
| RtpsFragments.RtpsProcessor.RemoveFlow | ros2probe/src/protocols/rtps.rs:365-372 | the flow leaves the table and the order, and its bytes the budget |
| RtpsFragments.RtpsProcessor.MakeRoom | ros2probe/src/protocols/rtps.rs:278-285 | the oldest flow leaves when the table is full |
| RtpsFragments.RtpsProcessor.NewFlow | ros2probe/src/protocols/rtps.rs:272-307 | a new flow is entered exactly when budget and allocation allow; otherwise nothing stays reserved |
| RtpsFragments.RtpsProcessor.AcceptDataFrag | ros2probe/src/protocols/rtps.rs:213-362 | one submessage: table and output are those of the value-level step, and the bytes charged stay those of the flows whatever other processors do meanwhile |
| RtpsFragments.RtpsProcessor.Drop | ros2probe/src/protocols/rtps.rs:408-413 | dropping the processor returns all it was charged |
| ZenohFragments.AcceptKeeps | ros2probe/src/protocols/zenoh.rs:801-904 | after any fragment at most capacity flows are pending, each a well-begun run of consecutive numbers within the size limit; a completed run ends with its only fragment without more |
| ZenohFragments.OnlyGapFreeRuns | ros2probe/src/protocols/zenoh.rs:801-904 | what reaches the decoder is the latest stretch of fragments of the key, none left out, consecutive modulo the resolution, begun at a first fragment or fresh state, ended by the first without more |
| ZenohFragments.MessageDelivered | ros2probe/src/protocols/zenoh.rs:801-904 | the fragments of a message, arriving in order, the first one marked or on fresh state, deliver exactly the message, whatever arrives for other keys in between, as long as there are fewer rivals than places, memory is granted, the flow is never silent for the timeout and its direction stays open |
| ZenohSender.MessageArrives | ros2probe/src/protocols/zenoh.rs:801-904 | a message cut into pieces that are numbered consecutively modulo the resolution arrives: the payload that the decoder is given with the last piece is the message |
| ZenohSender.RunNumbered | ros2probe/src/protocols/zenoh.rs:801-904 | what reaches the decoder is numbered as a sender numbers, from its first number on |
| ZenohSender.ExpiryExact | ros2probe/src/protocols/zenoh.rs:644-658 | in any run, a sweep takes exactly the pending messages whose last fragment arrived at least the timeout before, all of them when the timeout is zero |
| ZenohSender.ClosingExact | ros2probe/src/protocols/zenoh.rs:628-638 | in any run, closing a direction takes exactly the pending messages of that direction |
| ZenohFragments.VictimIsAnother | ros2probe/src/protocols/zenoh.rs:670-679 | the least recently seen flow is another one while the table has more flows than there are rivals |
| ZenohFragments.LostToAnother | ros2probe/src/protocols/zenoh.rs:617-679 | anything but a fragment of its own costs a pending message its flow if and only if a fragment of a new key meets a full table in which it is the one chosen as least recently seen, or it is silent for the timeout, or its direction closes |
| ZenohCrowding.CrowdedOut | ros2probe/src/protocols/zenoh.rs:801-904 | for every number of places, that many rivals are too many: all else that the delivery asks for holds, the head of the message is evicted, and the decoder is handed its tail alone |
| ZenohFragments.FragmentTable.OldestFlow | ros2probe/src/protocols/zenoh.rs:670-679 | the flow chosen for eviction is least recently seen |
| ZenohFragments.FragmentTable.RemoveState | ros2probe/src/protocols/zenoh.rs:664-668 | the flow leaves and its bytes return to the budget |
| ZenohFragments.FragmentTable.ExpireInactive | ros2probe/src/protocols/zenoh.rs:644-658 | exactly the flows not seen for at least the timeout leave |
| ZenohFragments.FragmentTable.RemoveDirection | ros2probe/src/protocols/zenoh.rs:628-638 | exactly the pending messages of a closed direction leave |
| ZenohFragments.FragmentTable.AcceptFragment | ros2probe/src/protocols/zenoh.rs:801-904 | one fragment: table and completed run are those of the value-level step, the decoder is given exactly the concatenation, and the bytes stored stay this processor's share |
| ZenohFragments.FragmentTable.Drop | ros2probe/src/protocols/zenoh.rs:907-916 | dropping the processor returns all it was charged |
| IpFragments.ChunksSurvive | ros2probe/src/capture/ip_frag.rs:229-241 | the stored chunks are exactly the last fragment received at each offset |
| IpFragments.Assemble | ros2probe/src/capture/ip_frag.rs:252-263 | copying sorted chunks into a zeroed buffer gives, at each position, the byte of the chunk with the largest offset that covers it |
| IpFragments.AcceptKeeps | ros2probe/src/capture/ip_frag.rs:177-278 | the order lists exactly the flow keys, at most capacity |
| IpFragments.AssembledExactly | ros2probe/src/capture/ip_frag.rs:229-263 | for slices of one datagram the assembled bytes are the datagram if and only if every position that is not zero is held by a slice that no later one of the same offset replaced |
| IpFragments.EqualLengthsIntact | ros2probe/src/capture/ip_frag.rs:229-263 | if equal offsets mean equal lengths, slices that cover the datagram leave every position held |
| IpFragments.ShorterRepeatLoses | ros2probe/src/capture/ip_frag.rs:229-241 | three packets through the reassembler: a shorter repeat at the same offset replaces the longer chunk, and the datagram that comes out is not the one that was sent |
| IpFragments.CompleteIsCovered | ros2probe/src/capture/ip_frag.rs:645-654 | for slices of one datagram the test for completeness is coverage |
| IpFragments.OnlyTheDatagram | ros2probe/src/capture/ip_frag.rs:177-278 | whatever else arrives, nothing but the datagram is emitted for its key |
| IpFragments.DatagramEmitted | ros2probe/src/capture/ip_frag.rs:177-278 | slices of one datagram, cut in any way, in any order, with repeats, overlaps and traffic for other keys, as long as fewer other keys arrive than the table has places: the one that completes the cover, and none before, makes a datagram come out, the right one if and only if every position that is not zero is held by a slice that was not replaced |
| IpFragments.DatagramYielded | ros2probe/src/capture/ip_frag.rs:177-278 | and where equal offsets mean equal lengths it is the datagram |
| IpFragments.OthersKeep | ros2probe/src/capture/ip_frag.rs:196-204 | a pending flow outlasts the packets of others while fewer of them arrive than the table has places |
| IpFragments.LostToAnother | ros2probe/src/capture/ip_frag.rs:196-204 | another key costs a pending flow its place if and only if it enters a full table whose oldest flow this is |
| IpFragments.CrowdedOut | ros2probe/src/capture/ip_frag.rs:196-204 | for every number of places, that many rivals are too many: the packet that completes the cover makes nothing come out |
| IpFragments.IpFragmentReassembler.EvictOldest | ros2probe/src/capture/ip_frag.rs:196-204 | the oldest flow leaves when the table is full |
| IpFragments.IpFragmentReassembler.AcceptPacket | ros2probe/src/capture/ip_frag.rs:177-278 | one packet: table and datagrams are those of the value-level step |
| Liveliness.TokenIsLast | ros2probe/src/protocols/zenoh.rs:1153-1214 | after any run of declarations a token id stands for what the last one deciding it says, with the prefixes declared at that point |
| TokenRuns.TokensExactly | ros2probe/src/protocols/zenoh.rs:1011-1257 | after any run of messages and closed flows, with fewer other directions than places: a direction has exactly the tokens that its declarations leave it, each for the string it stands for and the entity that this parses to |
| TokenRuns.PrefixAndSuffix | ros2probe/src/protocols/zenoh.rs:1240-1257 | a token declared with a scope stands for the prefix declared for it, by the same direction with mapping Sender and by the opposite one with mapping Receiver, followed by the suffix |
| TokenRuns.SuffixAlone | ros2probe/src/protocols/zenoh.rs:1240-1257 | without a scope it stands for the suffix alone |
| TokenRuns.GoneUntilDeclared | ros2probe/src/protocols/zenoh.rs:1198-1214 | an undeclared token, and any token of a direction that left or closed, is gone until it is declared again |
| TokenRuns.TokenLives | ros2probe/src/protocols/zenoh.rs:1284-1305 | the entity of a token is live, and is what its string parses to |
| Liveliness.InsertExact | ros2probe/src/protocols/zenoh.rs:1285-1294 | one more token entry for an entity keeps the counts exact, and the event is raised exactly for the first |
| Liveliness.RemoveExact | ros2probe/src/protocols/zenoh.rs:1296-1305 | one token entry fewer keeps the counts exact, and the entity leaves exactly with the last |
| Liveliness.ResetExact | ros2probe/src/protocols/zenoh.rs:1183-1185 | redeclaring a token for the same entity leaves the graph exact unchanged |
| Liveliness.LiveAreTheNamed | ros2probe/src/protocols/zenoh.rs:1284-1305 | an entity is live exactly when some token entry of some flow names it; its count is the number of those entries; it is the entity its key expression announces |
| Liveliness.RunCalls | ros2probe/src/protocols/zenoh.rs:1011-1055 | any run of messages and closed flows, from nothing: the tables are those of the calls, every count is the number of token entries that name the entity, the live entities are those that are named, and all the events returned replay to them |
| Liveliness.ZenohSemanticState.GraphInsert | ros2probe/src/protocols/zenoh.rs:1285-1294 | the count grows by one, the entity enters with the first |
| Liveliness.ZenohSemanticState.GraphRemove | ros2probe/src/protocols/zenoh.rs:1296-1305 | the count falls by one, the entity leaves with the last |
| Liveliness.ZenohSemanticState.RemoveTokenTable | ros2probe/src/protocols/zenoh.rs:1216-1230 | in whatever order the entries leave, the counts are exact for what remains and the events replay |
| Liveliness.ZenohSemanticState.RemoveFlowDirection | ros2probe/src/protocols/zenoh.rs:1011-1033 | key expressions, tokens and order lose the direction, counts stay exact, events replay |
| Liveliness.ZenohSemanticState.EnsureFlowDirection | ros2probe/src/protocols/zenoh.rs:967-989 | the direction is present afterwards, oldest directions leave while there is no room, events replay |
| Liveliness.ZenohSemanticState.DeclareNewToken | ros2probe/src/protocols/zenoh.rs:1171-1197 | the entry is set; counts stay exact and events replay through every kind of redeclaration |
| Liveliness.ZenohSemanticState.ProcessDeclareBody | ros2probe/src/protocols/zenoh.rs:1153-1214 | one declaration: tables as specified, order and capacity kept, counts exact, events replay |
| Liveliness.ZenohSemanticState.ProcessMessages | ros2probe/src/protocols/zenoh.rs:1035-1055 | messages up to the first Close: tables as specified, at most capacity directions, counts exact, all events replay |
| Directories.PutComplete | ros2probe/src/discovery/discovery.rs:542-623 | after an upsert every entry is found under its GID if and only if no other entry carries the GID that arrived |
| Directories.FoundExactly | ros2probe/src/discovery/discovery.rs:272-296 | with GIDs that belong to one id each, a lookup finds the entry that carries the GID exactly when there is one |
| Directories.RemoveEach | ros2probe/src/discovery/discovery.rs:872-890 | in whatever order, exactly the named entries and their GIDs leave |
| Directories.ExpireEach | ros2probe/src/discovery/discovery.rs:851-870 | exactly the entries whose deadline has come leave, and are accounted for |
| Discovery.RunKeeps | ros2probe/src/discovery/discovery.rs:139-624 | in every table that samples, disposals, removals and sweeps lead to, indexes are sound and no endpoint expires before the finite lease of its participant |
| DiscoveryLookup.RunFinds | ros2probe/src/discovery/discovery.rs:139-624 | as long as every GID is used for one id only, all three indexes stay sound and complete in every table that a run leads to |
| DiscoveryTimes.RunAsTold | ros2probe/src/discovery/discovery.rs:139-624 | in every table of a run a participant stands until the lease it last announced ends, an endpoint shows what it last announced and stands until the later of the ends that its own announcement and those of its participant gave it |
| DiscoveryTimes.SweepByTime | ros2probe/src/discovery/discovery.rs:242-270 | a sweep takes exactly the participants and endpoints that no longer stand by those announcements |
| DiscoveryTimes.AnnouncedIsIn | ros2probe/src/discovery/discovery.rs:152-186 | what is announced is in the table |
| DiscoveryTimes.ChangeReported | ros2probe/src/discovery/discovery.rs:152-186 | a sample is reported as an insertion or an update by whether its identity was known, and one that names nothing changes nothing |
| DiscoveryTimes.EndpointDisposal | ros2probe/src/discovery/discovery.rs:188-240 | a message that an endpoint is disposed of is reported as a removal exactly when one carries the GID, and takes it and nothing else |
| DiscoveryTimes.ParticipantDisposal | ros2probe/src/discovery/discovery.rs:188-215 | a message that a participant is disposed of takes the participant that carries the GID with all its endpoints and no others, and without one changes nothing |
| DiscoveryTimes.Forgotten | ros2probe/src/discovery/discovery.rs:302-314 | a participant that is forgotten leaves with its endpoints, one that is not known leaves everything as it was |
| Discovery.SweepExact | ros2probe/src/discovery/discovery.rs:242-270 | a sweep leaves exactly the entries without a deadline or with one after now, and no endpoint goes whose participant's lease survives |
| Discovery.RemovalTakesEndpoints | ros2probe/src/discovery/discovery.rs:302-314 | removing a participant takes exactly its endpoints along |
| Discovery.DisposalIsRemoval | ros2probe/src/discovery/discovery.rs:188-215 | disposal of a participant by GID is removal of the participant that carries it |
| Discovery.DiscoveryTable.Publication | ros2probe/src/discovery/discovery.rs:278-282 | the entry found under a GID carries that GID |
| Discovery.DiscoveryTable.ApplySample | ros2probe/src/discovery/discovery.rs:152-186 | one sample: the new table and the change reported, invariants kept |
| Discovery.DiscoveryTable.UpsertEndpointSample | ros2probe/src/discovery/discovery.rs:542-623 | an endpoint sample that arrives under a GID is found under it, with its details and its deadline |
| Discovery.DiscoveryTable.RefreshEach | ros2probe/src/discovery/discovery.rs:892-902 | exactly the endpoints of the participant get the new deadline |
| Discovery.DiscoveryTable.Dispose | ros2probe/src/discovery/discovery.rs:188-240 | disposal by kind and GID, with the change reported |
| Discovery.DiscoveryTable.ExpireStale | ros2probe/src/discovery/discovery.rs:242-270 | the sweep, with exact counts, ids and GIDs of what left |
| Discovery.DiscoveryTable.RemoveParticipantById | ros2probe/src/discovery/discovery.rs:302-314 | the participant and its endpoints leave; the entry is returned |
| Discovery.DiscoveryTable.RemovePublicationById | ros2probe/src/discovery/discovery.rs:316-322 | the publication leaves; the entry is returned |
| Discovery.DiscoveryTable.RemoveSubscriptionById | ros2probe/src/discovery/discovery.rs:324-330 | the subscription leaves; the entry is returned |
| Nodes.ClaimComplete | ros2probe/src/discovery/discovery.rs:681-732 | after a node arrives every listed id is found if and only if no other node lists one of its ids |
| Nodes.RemoveKeeps | ros2probe/src/discovery/discovery.rs:773-777 | after a removal all six indexes agree with the nodes |
| Nodes.PutKeeps | ros2probe/src/discovery/discovery.rs:681-732 | after an upsert all six indexes agree with the nodes |
| Nodes.RunKeeps | ros2probe/src/discovery/discovery.rs:681-833 | in every table that upserts, removals and replacements lead to, all six indexes agree with the nodes |
| Nodes.RunFinds | ros2probe/src/discovery/discovery.rs:681-833 | as long as no two nodes list the same id, every listed id is found in every such table |
| Nodes.UpsertEachNodes | ros2probe/src/discovery/discovery.rs:681-732 | after several samples each named node is as its last sample says, first seen when it first was, and all others are unchanged |
| Nodes.ReplaceExact | ros2probe/src/discovery/discovery.rs:734-771 | a replacement leaves the participant exactly the samples' nodes and no other node changed |
| NodeListings.ReplacedBySamples | ros2probe/src/discovery/discovery.rs:734-771 | each node shows what the last sample that names it lists, first seen when it first was; nodes of the participant that no sample names are gone, all others as they were |
| Nodes.NodeTable.NodeForWriter | ros2probe/src/discovery/discovery.rs:639-643 | the node found for a writer lists it |
| Nodes.NodeTable.NodesForParticipant | ros2probe/src/discovery/discovery.rs:663-670 | exactly the nodes of the participant are found |
| Nodes.NodeTable.UpsertSample | ros2probe/src/discovery/discovery.rs:681-732 | one sample, indexes kept |
| Nodes.NodeTable.AddToIndexes | ros2probe/src/discovery/discovery.rs:779-803 | the loops claim exactly the listed ids |
| Nodes.NodeTable.RemoveFromIndexes | ros2probe/src/discovery/discovery.rs:805-833 | the loops release exactly the listed ids |
| Nodes.NodeTable.RemoveNode | ros2probe/src/discovery/discovery.rs:773-777 | the node leaves and is returned, indexes kept |
| Nodes.NodeTable.ReplaceParticipantNodes | ros2probe/src/discovery/discovery.rs:734-771 | stale nodes leave, samples are upserted in order, indexes kept |
| RuntimeGraph.InsertRelates | ros2probe/src/runtime/mod.rs:830-1000 | the relations from flows to key expressions and back stay inverse and free of empty sets and gain exactly the pair |
| RuntimeGraph.RemoveRelates | ros2probe/src/runtime/mod.rs:1002-1031 | they lose exactly the pair |
| RuntimeGraph.NodeForAdd | ros2probe/src/runtime/mod.rs:830-1000 | the node that the held key expressions describe gains exactly what the new one stands for |
| RuntimeGraph.NodeForTake | ros2probe/src/runtime/mod.rs:1033-1081 | it loses exactly what the withdrawn one stands for, when key expressions stand for different things |
| RuntimeGraph.InsertMirrors | ros2probe/src/runtime/mod.rs:830-1000 | an announcement keeps nodes, publications, subscriptions and participants exactly those that a held key expression stands for |
| RuntimeGraph.RemoveMirrors | ros2probe/src/runtime/mod.rs:1002-1111 | so does a withdrawal, whether or not it is the last |
| RuntimeGraph.SweepMirrors | ros2probe/src/runtime/mod.rs:415 | a table sweep may hide endpoints but neither nodes nor participants, and shows nothing that is not held |
| RuntimeGraph.SweepShowsAll | ros2probe/src/runtime/mod.rs:415 | a sweep hides nothing that is held if and only if all of it is announced until after now |
| RuntimeGraph.OthersKeep | ros2probe/src/runtime/mod.rs:830-1168 | RTPS discovery samples leave the Zenoh part of the discovery table alone |
| RuntimeGraph.ReplaceOthers | ros2probe/src/runtime/mod.rs:418-425 | replacing the nodes of a participant with a GID leaves the Zenoh nodes alone |
| RuntimeGraph.ExpireAllKeeps | ros2probe/src/runtime/mod.rs:1134-1168 | in whatever order silent flows leave, they lose everything they hold, the others nothing, and the mirror is kept |
| RuntimeGraph.RefreshShowsAll | ros2probe/src/runtime/mod.rs:1170-1266 | in whatever order tables are walked, after a refresh everything that is held is announced until after now |
| RuntimeGraph.SweepShows | ros2probe/src/runtime/mod.rs:402-425 | after the periodic sweep the tables show exactly what is held, whatever they had hidden before |
| RuntimeGraph.RunMirrors | ros2probe/src/runtime/mod.rs:402-425 | after any run of announcements, withdrawals, touches, refreshes and periodic sweeps, with any RTPS traffic on the same tables in between, the tables show exactly the Zenoh nodes, publications and subscriptions that a held key expression stands for |
| RuntimeView.RunShowsHeld | ros2probe/src/runtime/mod.rs:830-1266 | after every run, by what held key expressions parse to: publishers and service clients are among the publications and the writers of their node, subscriptions and service servers among the subscriptions and the readers, each under its topic and participant, and nothing else of Zenoh is in the tables |
| RuntimeView.RunHolds | ros2probe/src/runtime/mod.rs:1113-1168 | in every run a flow holds a key expression from its announcement until its withdrawal or until a periodic sweep finds it silent for longer than the timeout |
| RuntimeGraph.RuntimeZenohGraph.InsertEntity | ros2probe/src/runtime/mod.rs:830-1000 | one announcement on the two tables: new state, relation, mirror, and exactly when a redraw is asked for |
| RuntimeGraph.RuntimeZenohGraph.RemoveEntityFromFlow | ros2probe/src/runtime/mod.rs:1002-1031 | one withdrawal on the two tables: new state, mirror, and exactly when a redraw is asked for |
| RuntimeGraph.RuntimeZenohGraph.RemoveEntityRef | ros2probe/src/runtime/mod.rs:1033-1081 | the endpoint and its place in the node go; a redraw is asked for when either was there |
| RuntimeGraph.RuntimeZenohGraph.SyncOrRemoveNode | ros2probe/src/runtime/mod.rs:1083-1111 | a node without tokens leaves with its participant, another is announced anew, a redraw is asked for either way |
| RuntimeGraph.RuntimeZenohGraph.ExpireFlow | ros2probe/src/runtime/mod.rs:1153-1166 | a silent flow lets go of exactly what it lists, in some order |
| RuntimeGraph.RuntimeZenohGraph.ExpireInactiveFlows | ros2probe/src/runtime/mod.rs:1134-1168 | exactly the silent flows leave, each with what it lists, in some order; a redraw is asked for when one withdrawal asks for it |
| RuntimeGraph.RuntimeZenohGraph.RefreshDiscovery | ros2probe/src/runtime/mod.rs:1170-1266 | every node and every held key expression is announced, in some order; a redraw is asked for when one of them was hidden |
| RuntimeGraph.DiscoverySweep | ros2probe/src/runtime/mod.rs:402-425 | the periodic sweep does a step of the runs that the theorem is about, and parts the nodes of exactly the participants that left |
| RuntimeNews.InsertTells | ros2probe/src/runtime/mod.rs:830-1000 | while the tables show what is held, an announcement asks for a redraw if and only if nobody held the key expression before |
| RuntimeNews.RemoveTells | ros2probe/src/runtime/mod.rs:1002-1111 | and a withdrawal if and only if the flow held it and no other does |
| RuntimeNews.InsertQuiet | ros2probe/src/runtime/mod.rs:830-1000 | an announcement that asks for no redraw leaves both tables as they were |
| RuntimeNews.RemoveQuiet | ros2probe/src/runtime/mod.rs:1002-1111 | a withdrawal that asks for no redraw leaves both tables as they were |
| RuntimeNews.ExpiryQuiet | ros2probe/src/runtime/mod.rs:1134-1168 | in whatever order silent flows leave, expiry that asks for no redraw leaves both tables as they were |
| RuntimeNews.RefreshTells | ros2probe/src/runtime/mod.rs:1170-1266 | in whatever order tables are walked, a refresh hides nothing and asks for a redraw if and only if some participant, endpoint or node came into view |
| RuntimeNews.SweepQuiet | ros2probe/src/runtime/mod.rs:402-425 | a periodic sweep that asks for no redraw leaves in view exactly what was in view |
| RosDiscoveryInfo.RoundTrip | ros2probe/src/discovery/ros_graph.rs:31-93 | in both byte orders and both GID widths, with any zero padding, an encoded value is read back if and only if it keeps within the limits |
| RosDiscoveryInfo.BodyRoundTrip | ros2probe/src/discovery/ros_graph.rs:51-93 | a body within the limits is read back with the width it was written in |
| RosDiscoveryInfo.ShortLayoutOnLong | ros2probe/src/discovery/ros_graph.rs:31-49 | the 16-byte layout on a 24-byte message gives the value when it has no nodes, and fails on trailing bytes otherwise |
| RosDiscoveryInfo.BodyWithin | ros2probe/src/discovery/ros_graph.rs:51-93 | whatever is accepted is within the limits |
| RosDiscoveryInfo.ReadsNode | ros2probe/src/discovery/ros_graph.rs:65-84 | a written node is read back and the offset ends after it |
| RosDiscoveryInfo.CdrReader.ReadU32 | ros2probe/src/discovery/ros_graph.rs:105-118 | value and offset of a length field in either byte order |
| RosDiscoveryInfo.CdrReader.ReadString | ros2probe/src/discovery/ros_graph.rs:120-145 | value and offset of a string, with every failure |
| RosDiscoveryInfo.CdrReader.ReadTopicGid | ros2probe/src/discovery/ros_graph.rs:160-174 | the first 16 bytes of a GID of either width |
| RosDiscoveryInfo.CdrReader.ReadBoundedLen | ros2probe/src/discovery/ros_graph.rs:176-194 | a length beyond the limit or the remaining bytes is refused |
| RosDiscoveryInfo.CdrReader.ReadGidSequence | ros2probe/src/discovery/ros_graph.rs:147-158 | all GIDs in order, or the first failure |
| RosDiscoveryInfo.CdrReader.ReadNodes | ros2probe/src/discovery/ros_graph.rs:64-84 | all nodes in order, or the first failure |
| RosDiscoveryInfo.CdrReader.Finish | ros2probe/src/discovery/ros_graph.rs:196-201 | true exactly when only zeros remain |
| RosDiscoveryInfo.ParseParticipantEntitiesInfo | ros2probe/src/discovery/ros_graph.rs:31-49 | the method reads what the round trip is about |
| KernelScan.WalkPacket | ros2probe/src/protocols/rtps.rs:151-211 | the user-space walk meets exactly the submessages of the payload |
| KernelScan.ScanDecides | ebpf/src/rtps.rs:34-116 | over all payloads: the bounded scan decides by the full walk if and only if the packet is not RTPS, or the payload has room for a submessage header, or the bytes loaded in its place exist and do not look like data |
| KernelScan.ShortPayloadMisread | ebpf/src/rtps.rs:62-76 | a payload that ends with the 20-byte header is routed by the bytes behind it in the packet, though the full walk meets nothing: an input for the other side of the condition |
| KernelScan.Classify | ebpf/src/rtps.rs:34-105 | the loop does the bounded scan on every packet, and decides by the full walk where the payload is long enough |
| KernelScan.NeverHidesData | ebpf/src/rtps.rs:34-116 | in a payload with room for a submessage header, what the bounded scan says: NoData exactly when at most four submessages exist and none carries data, Inconclusive exactly when more than four exist and the first four carry none, a route exactly for the first of the first four that does, a failed load exactly when its entity ids are past the packet |
| KernelPackets.WalkReadsPacket | ros2probe/src/protocols/rtps.rs:151-211 | user space meets the submessages of a packet as a sender writes it, each where it was written |
| KernelPackets.WalkLast | ros2probe/src/protocols/rtps.rs:151-211 | a last submessage with length zero reaches to the end of the payload |
| KernelPackets.RoutesByFirstData | ebpf/src/rtps.rs:34-116 | a packet whose first data submessage is among its first four is routed by it: writer and reader are the prefix of the sender with their entity ids, and it is discovery traffic exactly for the three writers of announcements |
| ParameterLists.VisitsExactly | ros2probe/src/discovery/deserialize.rs:262-289 | the walk hands out an encoded list exactly, in order |
| ParameterLists.SkipExact | ros2probe/src/protocols/rtps.rs:541-563 | the skip ends just past the sentinel if and only if the list is 4-aligned or empty |
| ParameterLists.DisposalExact | ros2probe/src/protocols/rtps.rs:504-526 | in an aligned list a disposal is found exactly when some parameter says so |
| ParameterLists.StatusWordSays | ros2probe/src/protocols/rtps.rs:504-526 | a status parameter says disposed or unregistered exactly when one of the two lowest bits of the word is set, in both byte orders |
| UnalignedLists.DisposalReliable | ros2probe/src/protocols/rtps.rs:504-526 | the search for a disposal is right for every list if and only if the list starts at a multiple of four; from any other offset a disposal is stepped over |
| ParameterLists.IterParameters | ros2probe/src/discovery/deserialize.rs:262-289 | the loop on any input, with any consumer |
| ParameterLists.SkipParameterList | ros2probe/src/protocols/rtps.rs:541-563 | the loop on any input |
| ParameterLists.InlineQosHasDisposal | ros2probe/src/protocols/rtps.rs:504-526 | the loop on any input |
| GidMap.NormalizeTwice | ros2probe/src/recorder/gid_map.rs:263-271 | names come out absolute and normalising twice is normalising once |
| GidSelection.PublicationSelected | ros2probe/src/recorder/gid_map.rs:144-189 | by the names that endpoints announce: a publication is selected when all topics are recorded, when its topic is a named one, or when it carries the graph, with its absolute topic, its type and its participant |
| GidSelection.GraphReaderSelected | ros2probe/src/recorder/gid_map.rs:166-187 | a subscription of the graph is selected in every mode and is the one that counts |
| GidSelection.StrangerNotSelected | ros2probe/src/recorder/gid_map.rs:144-189 | a GID without an RTPS endpoint in the table is not selected |
| GidMap.RecorderTopicGidMap.SelectFromTable | ros2probe/src/recorder/gid_map.rs:144-189 | a GID is selected exactly when its publication matches the mode or its subscription is of the discovery topic, which wins |
| GidMap.RecorderTopicGidMap.RemoveOne | ros2probe/src/recorder/gid_map.rs:204-211 | one removal: both sides lose the key, or neither |
| GidMap.RecorderTopicGidMap.PutOne | ros2probe/src/recorder/gid_map.rs:218-231 | one insertion or update: both sides gain the key, or neither, and there is always room |
| GidMap.RecorderTopicGidMap.Sync | ros2probe/src/recorder/gid_map.rs:191-234 | both sides agree whatever the kernel refuses; failure only by a refusal; success puts the selection in force with exact counts |
| GidMap.RecorderTopicGidMap.RebuildFromTable | ros2probe/src/recorder/gid_map.rs:118-131 | there is one selection for table and mode; beyond the kernel's capacity it changes nothing, otherwise success puts it in force |
| Recorder.RunKeeps | ros2probe/src/recorder/actor.rs:77-263 | in every reachable state file and queue together hold exactly what was accepted, nothing was thrown away, drops are counted, the queue is within its bound |
| Recorder.StopAnswered | ros2probe/src/recorder/actor.rs:120-130 | a stop answered with a file: the file holds exactly the accepted messages in send order, per topic calls are accepted messages plus counted drops, sequence numbers have no gap |
| RecorderAnswers.StopAnswers | ros2probe/src/recorder/actor.rs:192-246 | in every run: a stop is answered with the file, which holds all that was accepted, if and only if it can be closed, and none is open afterwards |
| RecorderAnswers.StartAnswers | ros2probe/src/recorder/actor.rs:192-246 | a start is answered with yes if and only if a file can be opened, which is empty then |
| RecorderAnswers.ChannelAnswers | ros2probe/src/recorder/actor.rs:192-246 | a channel is handed out if and only if the writer agrees, for the key asked for |
| RecorderAnswers.AnswersUsed | ros2probe/src/runtime/bag.rs:262-309 | the runtime keeps the channel it was given under the key it asked for, begins a recording exactly on a yes, and forgets one that was stopped |
| RecorderAnswers.ShutdownEnds | ros2probe/src/recorder/actor.rs:247-263 | in every run: a shutdown ends the actor, and an open recording is finished with all that was accepted if it can be |
| RecorderAnswers.RecordDoes | ros2probe/src/recorder/actor.rs:134-161 | a message is accepted if and only if fewer than 1000 events are queued, numbered by how many its channel had before; otherwise it is counted as dropped for its topic and no other |
| Recorder.ShutdownFinishes | ros2probe/src/recorder/actor.rs:247-263 | a shutdown finishes an open file with everything accepted |
| Recorder.SequencesDistinct | ros2probe/src/runtime/bag.rs:295-309 | two messages of a channel never share a sequence number below u32::MAX |
| Recorder.RecorderActor.HandleEvent | ros2probe/src/recorder/actor.rs:192-246 | one event of the actor loop: new state and reply |
| Recorder.RecorderActor.HandleShutdown | ros2probe/src/recorder/actor.rs:247-263 | what is still queued is written before the file is finished |
| Recorder.RecorderHandle.TryRecord | ros2probe/src/recorder/actor.rs:134-161 | accepted exactly when there is room, else counted for the topic |
| Recorder.RecordingSession.Record | ros2probe/src/runtime/bag.rs:294-309 | the sequence number advances only when the message was accepted |

## Left out

- TcpReassembly.ReassemblyRefines: is about runs within 2^30 bytes of the next expected byte. What happens when a queue limit refuses a segment or the decoder a batch is in TcpRecovery; beyond that window there is only the step, `TcpFlowState.ProcessPayload`.
- TcpFlows.TcpFlowTable.ProcessTcp: what RST, FIN and eviction do to the fragments and liveliness tokens of the flow is in the modules for those and not composed here; a table with no places is left out, since the source compares its size with `==`.
- RtpsFragments.RtpsProcessor.AcceptDataFrag: reading the fields out of the submessage bytes is not modelled; a submessage is its fields, and Malformed stands for a fragment number of zero.
- ZenohFragments.FragmentTable.AcceptFragment: the negotiated resolution is an input of each step; the table that remembers it per direction is not modelled, and the mask is a modulus.
- ZenohFragments.FragmentTable: the per-flow struct is a value in a map that is replaced, not an object edited in place. The same holds for the flows of IpFragments.IpFragmentReassembler.
- SharedBudget.MemoryBudget.Interfere: stands for any operations of other processors; callers use only its contract, that one's own share stands. BudgetProtocol has all interleavings.
- IpFragments.IpFragmentReassembler.AcceptPacket: parsing of IP headers and the per-packet metadata (fragment count, timestamps, addresses) are not modelled.
- Liveliness.ZenohSemanticState.ProcessMessages: returns only discover and undiscover events; events for topic samples are not modelled.
- Discovery.DiscoveryTable.ApplySample: locators and most QoS fields are copied without effect on the tables and are not modelled; topic, type and type hash stand for them.
- RuntimeNews.InsertQuiet: says nothing of announcements that ask for a redraw; where the tables show all that is held, `InsertTells` says exactly when they do.
- RuntimeGraph.RunMirrors: needs an announced key expression to stand for something else than those held at that time, and one node per participant, which the names rmw_zenoh makes up provide, and a positive lifetime of endpoints (20 seconds in the source); without that the source shares entries between key expressions.
- KernelScan.Classify: the kernel's fragment map and packets cut off inside the payload are not modelled.
- KernelScan.WalkPacket: what is parsed inside a DATA submessage, and the error that ends the walk when that fails, are not modelled.
- Recorder.RunKeeps: writes to an open file succeed; opening and closing may fail. The runtime thread is the only sender, as in the source. The paused flag, the topic filter and timestamps are not modelled.
- GidMap.RecorderTopicGidMap.Sync: a refused kernel call leaves the kernel's map as it was. The clear operation is not modelled; when it fails half way the mirror is not kept.
- The composition of Liveliness with RuntimeGraph: an undiscover event carries the flow that dropped the last token, not the one that introduced the entity, so the layers are proved separately.
- The standard's rule for a zero octetsToNextHeader: both walks take it for the last submessage of any kind, and their agreement is what is proved.
- Sockets, eBPF loading, threads, the command line and user interfaces, the Zenoh codec and the MCAP writer.
- Topic views, display formatting, statistics, the sample caches and the parsers of single parameters: easy members.
