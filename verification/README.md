# A verified model of the packet engine

This project models, in Dafny 4.11, the stateful core of a user-space packet engine built on DPDK and of the sockperf client that runs on top of it, and proves what that core guarantees. `dafny verify dfyconfig.toml` checks all of it.

The NIC, the pools, the rings, the clock, other threads and the objects behind interfaces are inputs: how many packets a burst brings, which allocations succeed, which ring has room, which flow rule the NIC refuses, what a job answers, what a read of the stop flag finds. Every theorem holds for all of them.

| files | component |
|---|---|
| `Sinks.dfy`, `AttachProtocol.dfy` | the port table, first-match search, and concurrent attaches at load / compare-and-swap granularity |
| `Frame.dfy`, `Checksum.dfy`, `Service.dfy` | VLAN walk, Internet checksum, in-place echo and ARP answers |
| `RxSpec.dfy`, `RxPath.dfy`, `RxTheorems.dfy`, `RxRefresh.dfy` | the receive job: packet-by-packet specification, the batched in-place implementation, conservation, order, staleness |
| `Delivery.dfy` | which frames are dropped, served and delivered, from the bytes the sending side makes, and runs of the receive job over them |
| `Arp.dfy` | address resolution over whole runs |
| `TxTimestamps.dfy`, `TxJob.dfy`, `TxBuffers.dfy`, `Wire.dfy`, `Recorder.dfy`, `LossStats.dfy`, `EndToEnd.dfy` | sending, timestamps, message format, recording, loss statistics, and the path through all of them |
| `UdpTx.dfy` | scattering a payload over a linked chain of buffers |
| `FlowQueue.dfy` | flow queues, the rules they own, and attaching channels |
| `Jobs.dfy` | the job runner of a core |
| `SocketConfig.dfy` | grouping cores by socket |
| `Numerics.dfy`, `Bits.dfy`, `Bytes.dfy`, `Collections.dfy` | 128-bit scaling, bit operators, byte buffers, sequences |

## What turned out false, and exactly when it holds

Where the code does less than its comments, names or assertions suggest, the model keeps the code and a lemma says when the expectation is met.

- Receive buffers: the constructor limits the burst to 512 although the array of 512 must hold the burst twice; indices stay inside for every burst the NIC can deliver exactly if the burst size is at most 256, ARP frames alone breaking any larger one (`RxTheorems.BufferSufficesExactly`). The receive job itself is proved for every burst that fits, whatever the burst size (`RxPath.RxJob.Process`).
- What a channel gives back is looked at only when a packet for another channel ends its run; nothing leaks exactly if no other run gives anything back (`RxTheorems.LeakFreeExactly`). The base class of the channels gives everything back, and a UDP packet alone in its burst is then lost (`RxTheorems.LosePacket`).
- A table refresh happens within max(1, reload_checkpoint) calls exactly if reload_checkpoint + 2 * burst_size fits 16 bits (`RxRefresh.RefreshWithin`, `RxRefresh.RefreshMissed`, and with real bursts `RxRefresh.MissRefresh`).
- An attach whose compare-and-swap fails reports "address in use" and is lost, even on a free port, because its channel was moved into the copy (`AttachProtocol.AttachSucceedsExactly`, `AttachProtocol.LostForGood`).
- An attach for port 0 can succeed, but no packet for port 0 ever reaches its channel: the sentinel answers for it (`AttachProtocol.FirstWinnerIsServed`).
- The VLAN walk wraps its 7-bit length field: it never ends on frames whose every reachable type position holds a tag, and agrees with a parser exactly if the stack fits (`Frame.EndlessExactly`, `Frame.UpdateL2Size`; a frame of each kind in `Frame.SomeFrameIsEndless` and `Frame.SomeFrameIsMisread`).
- The incremental echo checksum is the recomputed one exactly if some byte behind the checksum is not zero (`Checksum.EchoUpdateIsRecomputed`).
- The loss counter is the number of lost packets exactly if a queue's numbers are distinct and none lies below the first (`LossStats.MissingIsLostExactly`).
- After a partly taken burst the device's own sender goes on with the packets the NIC did not take exactly if the NIC took all or none (`TxBuffers.RememberedIsUnsentExactly`); the sockperf sender keeps the right packets, turned (`TxBuffers.KeepUnsent`).
- The closing assertion of the core grouping, that sockets come in order of falling size, holds exactly if the enumeration meets larger sockets first (`SocketConfig.SpansFallExactly`, with a counterexample in `SocketConfig.SpansNeedNotFall`).
- Packing and splitting a sequence number gives the pair back exactly if the number fits 28 bits (`Wire.PackedSeqnSplits`).
- An attach to a multicast group that was joined before reports "address in use" although its rule is live (`FlowQueue.AttachedIsServed`, with two such attaches in `FlowQueue.SecondJoinIsRefused`).
- The idle counter of the job runner wraps every 256 idle passes; four passes then go by between two reads of the stop flag instead of one, every 253rd read (`Jobs.IdleReads`, `Jobs.RunIdle`), but never more than 33 (`Jobs.StopIsNoticed`).
- The guard of the statistics loop skips queue numbers above the number of queues and lets that number itself through to an index out of range; the loop leaves its tables at the first such record, or one with no send slot before it, and nowhere else (`LossStats.UnreadableExactly`, `LossStats.Analyse`).

## Model

| member | source | states |
|---|---|---|
| RxPath.RxJob.Process | dpdkx/device.cpp:86-171 | One call of the receive job over any burst that fits the array together with what the opening table leaves of it, with any table growth, channel answers and ring space in between: channels got exactly what packet-by-packet dispatch gives, batches are the maximal runs, every packet was routed by a linear search of a table that is a prefix of the published one, and the free list, service ring, ARP table and refresh counter are what the specification says |
| RxPath.RxJob.FindRxChannel | dpdkx/device.cpp:88-96 | The cached index, checked first and refreshed from a grown table, always gives the first-match result for the snapshot in force, and stays in range |
| RxPath.RxJob.TryReloadSinks | dpdkx/device.hpp:78-88 | Loads the published table exactly when the counter has reached its limit and tells whether it changed; the cached index stays valid |
| RxPath.RxJob.constructor | dpdkx/device.cpp:75-84 | Starts with the published table, the counter at 1001 and the burst clamped to the size of the array |
| RxPath.Device.ProcessRxPackets | dpdkx/device.cpp:499-607 | In place: answered packets go on the ring in order, all others, edited or not, are compacted to the front in arrival order, every ARP packet is learnt from, nothing in front of the slice is touched |
| RxPath.Device.EtherAddress | dpdkx/device.cpp:373-409 | The four outcomes of an address query, the request put on the ring and the pending mark, including the buffer that is lost when the ring refuses it |
| Delivery.ServiceIsParked | dpdkx/device.cpp:120-149 | Every frame the device answers or learns from is left to the service stage, whatever the table |
| Delivery.RoutedExactly | dpdkx/device.cpp:107-147 | Over all frames, in bytes: dropped exactly if the type is zero or a UDP packet is shorter than its headers say; delivered exactly if it is any other UDP packet whose destination port has an entry, and then to that entry's channel |
| Delivery.SentIsRouted | dpdkx/device.cpp:107-147 | A packet with the headers the sending side makes goes to the channel the table has for its destination port, or to the service stage if there is none; received in part it is dropped |
| Delivery.ChannelFindsPayload | dpdkx/device.cpp:130-131 | Behind the layer lengths the receive job sets, the sockperf channel finds exactly the payload that was sent |
| Delivery.ServeOne | dpdkx/device.cpp:86-171 | A run of the receive job over one frame that goes to no channel: the reply to an echo request or to an ARP request for the device goes on the ring, or is freed if the ring refuses it; any other frame is freed; no channel is called, and ARP packets are learnt from |
| Delivery.DeliverOne | dpdkx/device.cpp:86-171 | A run over one sent packet for a port with a channel: that channel alone is handed it, with its payload in place; nothing is freed or sent |
| Delivery.PingOne | dpdkx/device.cpp:512-553 | A run over an echo request to the device: its reply goes on the ring |
| Delivery.ReceiveArp | dpdkx/device.cpp:162-169 | A run over n ARP frames: the counter advances by two burst sizes more exactly if they do not fill the burst |
| Delivery.AnswersKeepOrder | dpdkx/device.cpp:499-607 | Packets that all have answers leave in their order, none remaining |
| Delivery.LeftoversKeepOrder | dpdkx/device.cpp:594-606 | Packets without answers remain in their order |
| RxSpec.StepAccounted | dpdkx/device.cpp:107-154 | One packet more keeps the account: delivered in order, parked, freed as a multiset |
| RxSpec.StepBatching | dpdkx/device.cpp:132-158 | One packet more keeps batches equal to the maximal runs that have ended, the open run waiting |
| RxSpec.LogicKeepsIdentity | dpdkx/device.cpp:130-131 | Editing a packet for a channel or into an answer never makes it another buffer |
| RxTheorems.Conservation | dpdkx/device.cpp:100-166 | For every burst and every buffer: its occurrences received equal its occurrences kept by channels, freed, put on the service ring, and leaked |
| RxTheorems.ProcessAll | dpdkx/device.cpp:86-171 | Over any run of calls and bursts: the growth of what was handed over, freed and put on the ring accounts for every buffer of all bursts, as kept, freed, sent or leaked |
| RxTheorems.LeakFreeExactly | dpdkx/device.cpp:134-158 | Nothing is leaked if and only if no run that ends without a packet for another channel gives buffers back |
| RxTheorems.LonePacketLeaks | dpdkx/rx_channel.cpp:30-43 | With a channel that, like the base class, gives all buffers back, a packet alone in its burst is leaked |
| RxTheorems.LosePacket | dpdkx/device.cpp:157-158 | A run of the receive job over one UDP frame that loses it: handed over, given back, neither freed nor sent |
| RxTheorems.ChannelOrder | dpdkx/device.cpp:100-158 | What a channel is handed, over all its batches, is exactly the burst's packets for it in arrival order |
| RxTheorems.BufferSufficesExactly | dpdkx/device.cpp:75-79 | Whatever the configuration and the table: a burst size keeps every burst of distinct, valid, walkable frames inside the array if and only if it is at most 256 |
| RxTheorems.StayingIsLeftover | dpdkx/device.cpp:148-149 | The room `Process` asks for behind the burst is exactly the packets the table leaves |
| RxSpec.ServeStays | dpdkx/device.cpp:130-147 | A packet a grown table leaves to the service stage, the table before left there too |
| RxTheorems.ScheduleIsEnvironment | dpdkx/device.cpp:441-448 | The tables a receive job sees while any attaches act in any order are well-formed and growing, which is all `Process` assumes of them |
| RxRefresh.RefreshWithin | dpdkx/device.hpp:78-88 | If the counter cannot wrap, every window of max(1, reload_checkpoint) calls contains a refresh, whatever the traffic |
| RxRefresh.RefreshMissed | dpdkx/device.cpp:162-169 | If it can wrap, some pattern of quiet calls goes that long without a refresh |
| RxRefresh.Enact | dpdkx/device.cpp:100-169 | Every pattern of quiet calls is produced by bursts of nothing or one broken packet fed to `Process`, with the counter going through the values of the abstract run |
| RxRefresh.MissRefresh | dpdkx/device.cpp:98-169 | So a job whose counter can wrap really keeps its old table over that many calls, whatever is published |
| RxRefresh.Poll | dpdkx/device.cpp:98-98 | Whatever was published before a row of that many calls is in the job's snapshot after it, for all bursts the array can hold |
| Sinks.FindSink | dpdkx/device.cpp:38-40 | The index of the first entry with the port, or the length |
| Sinks.LookupStable | dpdkx/device.cpp:88-96 | An entry that answers in a table answers in every table that extends it |
| AttachProtocol.PublishedTable | dpdkx/device.cpp:441-448 | In every interleaving the table is the sentinel followed by one entry per successful call, all with channels, in the order of success; a call has an entry exactly if it returned success |
| AttachProtocol.FirstWinnerIsServed | dpdkx/device.cpp:185-185 | In every interleaving a port other than 0 leads to the channel of the first call that won with it, and port 0 to none |
| AttachProtocol.TableOnlyGrows | dpdkx/device.cpp:441-448 | No step of any call drops, changes or reorders an entry |
| AttachProtocol.AttachSucceedsExactly | dpdkx/device.cpp:443-447 | An attach succeeds if and only if it was given a channel and nobody published between its load and its swap |
| AttachProtocol.LostForGood | dpdkx/device.cpp:444-446 | A call whose swap failed once never gets an entry |
| AttachProtocol.OverlappingAttachIsRefused | dpdkx/device.cpp:441-448 | A concrete interleaving of two attaches on different ports in which the second is refused |
| Frame.UpdateL2Size | dpdkx/detail/utils.hpp:33-48 | The walk ends on every frame that is not endless; its answer is the recursive parser's if and only if the tag stack fits the field, and then `eth_proto` later gives the same type |
| Frame.TagInBytes | dpdkx/detail/utils.hpp:39-40 | A position holds a tag exactly if its two bytes are 81 00 or 88 A8 |
| Frame.EndlessExactly | dpdkx/detail/utils.hpp:39-45 | The walk survives every number of rounds if and only if the frame reaches the wrap and all 32 positions hold tags |
| Frame.SomeFrameIsEndless | dpdkx/detail/utils.hpp:39-45 | A frame on which it does |
| Frame.SomeFrameIsMisread | dpdkx/detail/utils.hpp:39-48 | A frame on which the walk ends behind the wrap, with the payload placed at offset 2 and a type from behind the frame, where the parser finds the frame truncated |
| Frame.SurvivesFollowsParse | dpdkx/detail/utils.hpp:38-45 | Before the wrap the walk stands where the parser stands, inside the frame |
| Checksum.EchoUpdateIsRecomputed | dpdkx/device.cpp:544-550 | For every acceptable request the two-fold incremental update is the checksum recomputed over the reply, if and only if the rest is not all zero (section 3 of RFC 1624) |
| Checksum.EchoReplyAccepted | dpdkx/device.cpp:544-550 | The reply is acceptable if and only if the request was and the rest is not all zero |
| Checksum.AllZeroEchoIsRefused | dpdkx/device.cpp:545-550 | An acceptable request whose reply is not |
| Checksum.TurnAroundKeepsHeaderValid | dpdkx/device.cpp:541-542 | The untouched IPv4 header checksum stays valid if and only if own and pinged address have the same word sum modulo 65535; so always for a request to the device itself |
| Checksum.OddByteIsPadded | dpdkx/device.cpp:544-550 | In the sum a receiver checks, a last odd byte counts as if a zero byte followed it (section 4.1 of RFC 1071) |
| Checksum.FoldAllIsRemainder | dpdkx/device.cpp:548-549 | Folding carries is the remainder by 65535 taken in 1..65535 (section 2 of RFC 1071) |
| Service.EchoAnswerAccepted | dpdkx/device.cpp:512-553 | On the bytes of the frame: the answer is an echo reply with the request's identifier, number and data, and is acceptable exactly as above |
| Service.EchoAnswerHeaders | dpdkx/device.cpp:522-543 | The answer goes back to the Ethernet address it came from and its IPv4 header is the request's turned around |
| Service.EchoAnswerAddresses | dpdkx/device.cpp:522-543 | In bytes: from the device's MAC and address to those of the asker, the rest of the header as it was |
| Service.MulticastAnswerAddresses | dpdkx/device.cpp:524-530 | In bytes: a multicast answer goes to the asker's MAC and address, from the device's MAC and from the asker's neighbour, whose last octet has the low two bits 2 if they were 1 and else 1 |
| Service.EchoRequestExactly | dpdkx/device.cpp:512-524 | Byte by byte, which untagged frames are echo requests to answer, and that 224 as first octet makes one multicast |
| Service.ArpExactly | dpdkx/device.cpp:562-572 | Byte by byte, which untagged frames are ARP, which of them are answered and which are learnt from |
| Service.EchoAnswerHeaderValid | dpdkx/device.cpp:540-543 | The header checksum of the answered frame is valid exactly if the word sums agree |
| Service.MulticastAnswerChecksum | dpdkx/device.cpp:524-539 | A multicast answer leaves with a valid IPv4 header checksum, or with a zero one and the order to the NIC to compute it, and with its header length set |
| Service.ArpAnswerIsReply | dpdkx/device.cpp:572-582 | The rewritten frame is an ARP reply from this device to the asker, field by field |
| Arp.TableIsHistory | dpdkx/device.cpp:379-408 | In every run of queries and ARP packets the table holds, per address, the latest packet heard, else a pending mark if a request went out, else nothing |
| Arp.QueryIsLatestSender | dpdkx/device.cpp:373-409 | A query for an address beginning with 127 or 255 returns the device's own MAC; any other the sender MAC of the latest ARP packet from the address, and the exact error otherwise, also with the table disabled (Packet Reception in RFC 826) |
| Arp.OneRequestPerAddress | dpdkx/device.cpp:386-406 | At most one request per address is queued in any run |
| Arp.StagesOnlyAdvance | dpdkx/device.cpp:379-406 | With a non-zero clock an address only moves from absent to pending to known |
| Arp.StoppedClockForgets | dpdkx/device.cpp:379-385 | With a zero clock it does move back |
| Arp.DisabledTableStaysEmpty | dpdkx/device.cpp:386-406 | With the table disabled nothing is learnt or asked |
| Arp.ServingIsHearing | dpdkx/device.cpp:562-593 | What the service stage does to the table is what the run of events says |
| Arp.Ask | dpdkx/device.cpp:373-409 | A query of the device is the query step of the run: same answer, same table, and a request on the ring exactly if the run records one |
| Arp.ArpExchange | dpdkx/device.cpp:391-403 | The request this code builds is broadcast from the asker's MAC and answered, as a request for it, exactly by the owner of the address, to the asker's MAC from the owner's; the asker learns the owner's MAC from the answer and the owner the asker's from the request |
| TxTimestamps.UpperBound | sockperf_cli/stats.cpp:99-99 | Binary search: everything before the index is at most the value, everything from it on is greater |
| TxTimestamps.FindSendTime | sockperf_cli/stats.cpp:99-101 | The lookup is the last slot before the packet, and nothing exactly if the search would fall off the front |
| TxTimestamps.ZeroIsSentLast | sockperf_cli/stats.cpp:99-99 | Number 0 wraps to the largest key, so that such a packet is given the last slot's time |
| TxTimestamps.Timestamps.Slot | sockperf_cli/stats.cpp:25-31 | Appends a key, keeping keys strictly increasing and the rest of the table |
| TxJob.LookupFindsBurst | sockperf_cli/stats.cpp:99-101 | Every packet finds the time of the last transmit attempt of the round that carried it, that round being the k-th burst of the run |
| TxJob.EveryPacketCarried | sockperf_cli/utils.cpp:262-267 | Every number between first and last sent belongs to one burst |
| TxJob.Sender.constructor | sockperf_cli/utils.cpp:244-254 | Sizes of burst, quota (five bursts more than asked for), timestamp table and payload, ready to run |
| TxJob.Sender.Process | sockperf_cli/utils.cpp:256-294 | Over any run of empty pools and retried bursts: one slot per burst with its first number minus one and the time of its last attempt, no slot beyond capacity, Ping payloads with consecutive packed numbers on the wire, done exactly when the quota is met, and no burst beyond it |
| TxJob.RunSender | sockperf_cli/utils.cpp:244-294 | A new sender and its run: done exactly if buffers were found for ceil(packets / burst) + 5 bursts, and then exactly so many bursts of Pings are on the wire |
| TxJob.PingInBytes | sockperf/sockperf.hpp:32-40 | A payload is the Ping with a number exactly if its first eight bytes are the packed number and the next two are 0 and 3 |
| TxBuffers.KeepUnsent | sockperf_cli/utils.cpp:271-278 | The overlapping copy leaves exactly the packets the NIC did not take at the front, rotated by a stated amount |
| TxBuffers.RingSender.Process | dpdkx/device.cpp:53-73 | Which packets the device's sender holds after topping up from the ring and sending |
| TxBuffers.RememberedIsUnsentExactly | dpdkx/device.cpp:62-68 | These are the unsent ones if and only if the NIC took all or none |
| Wire.PackedSeqnSplits | sockperf/x.hpp:28-29 | For every 64-bit number: the two parts that come back; the pair itself if and only if the number fits 28 bits; warmup if and only if bit 7 of the queue or bit 63 of the number is set |
| Wire.WarmupIsRecognised | sockperf/x.hpp:8-11 | Every warmup value is recognised |
| Wire.TypeInBytes | sockperf/sockperf.hpp:88-94 | The message type is the two bytes behind the number, most significant first |
| Wire.WarmupInBytes | sockperf/x.hpp:8-11 | A message is a warmup exactly if its first byte has the top bit |
| Wire.SetSeqn | sockperf/sockperf.hpp:72-78 | Reads back exactly; everything behind it stays, for buffers of eight bytes on |
| Wire.SetMessageType | sockperf/sockperf.hpp:96-102 | Reads back exactly; the number and everything behind stay, for buffers of ten bytes on |
| Wire.SetMessageSize | sockperf/sockperf.hpp:112-118 | Reads back exactly; the other fields and the payload stay |
| Wire.PreparePacket | sockperf_cli/utils.cpp:116-120 | Written, read and split: the packed number, the same pair exactly if the number fits, warmup exactly if bit 7 or bit 63 is set, and all behind the two fields untouched |
| Recorder.SockperfChannel.Enqueue | sockperf_cli/utils.cpp:333-370 | A batch is noted packet by packet, every buffer is freed, and nothing is given back |
| Recorder.SockperfChannel.Session | sockperf_cli/utils.cpp:333-370 | However a session is cut into calls: slots up to the quota, first records never overwritten, the last slot the newest, stop exactly once the quota is exceeded, the last warmup message, and every slot in use the record of some message of the stream |
| Recorder.InfoRecords | sockperf_cli/utils.cpp:358-362 | A record holds the number of its message, the clock of the call that brought it, the length of the frame, and as reception time the NIC's timestamp in nanoseconds where there is one and it fits, else that clock |
| Recorder.HoldsFromStream | sockperf_cli/utils.cpp:333-370 | So each slot in use, against the stream of arrivals |
| Recorder.DataComesFrom | sockperf_cli/utils.cpp:333-370 | The j-th record comes from the message of the stream with j data messages before it |
| Recorder.LastWarmupIs | sockperf_cli/utils.cpp:346-352 | The warmup note is of the last warmup message of the stream, with the NIC's timestamp as it came |
| Recorder.PingPongExactly | sockperf_cli/utils.cpp:339-346 | In bytes, which messages are looked at, and which of them are warmup |
| Recorder.SockperfChannel.constructor | sockperf_cli/utils.cpp:327-331 | Quota and table size, with the queue count narrowed to eight bits; there is a slot to record into exactly if nothing is to be recorded or the count is no multiple of 256 |
| Recorder.NoteAllSplits | sockperf_cli/utils.cpp:335-367 | Cutting the stream differently changes nothing |
| Recorder.BookHolds | sockperf_cli/stats.cpp:39-43 | The table against the stream's data messages in arrival order |
| Recorder.NothingOverwritten | sockperf_cli/utils.cpp:330-330 | With at least as many slots as the quota the table is the stream's data messages |
| LossStats.Analyse | sockperf_cli/stats.cpp:83-131 | One pass over any records, up to the first that takes the code out of its tables, if any: per-queue counters, packet-to-packet and round-trip samples, each equal to its definition over the records, and exactly which record is the earliest and the latest |
| LossStats.UnreadableExactly | sockperf_cli/stats.cpp:95-101 | A record takes it out of its tables if and only if its queue is the number of queues, or known with no slot before the packet |
| LossStats.MissingIsLostExactly | sockperf_cli/stats.cpp:112-126 | The 64-bit counter is the number of values between first and highest that never came, if and only if numbers are distinct and none is below the first |
| LossStats.BalanceIsLostLessExcess | sockperf_cli/stats.cpp:113-123 | In general the counter is lost numbers less repeats and numbers below the first |
| LossStats.NeverUnderflows | sockperf_cli/stats.cpp:121-122 | Under that condition the decrement never passes zero |
| LossStats.RepeatedPacketUnderflows | sockperf_cli/stats.cpp:121-122 | One repeated packet does make it wrap |
| LossStats.LateIsBehindLarger | sockperf_cli/stats.cpp:120-120 | The out-of-sequence count is the number of packets arriving after a larger one |
| LossStats.GapCount | sockperf_cli/stats.cpp:108-129 | Packet-to-packet samples are packets less queues seen |
| LossStats.GapsAddUp | sockperf_cli/stats.cpp:108-129 | For every table the samples, with the times in front of the records that give none, add up to the time from the first record to the last |
| LossStats.GapsOfOneQueue | sockperf_cli/stats.cpp:108-129 | The samples of a table of one queue are the times between neighbours, and add up to the time from first to last |
| EndToEnd.EchoFindsItsBurst | sockperf_cli/stats.cpp:93-102 | A recorded number is attributed to its queue and packet, and its send time is the last attempt of the round that carried the packet |
| EndToEnd.SessionIsReadable | sockperf_cli/stats.cpp:93-101 | If every record echoes a packet some sender sent, the whole table can be analysed |
| EndToEnd.EchoIsOnTheWire | sockperf_cli/utils.cpp:266-266 | A message that brings back the number field of a payload on a sender's wire has a number that was sent |
| EndToEnd.EchoIsRecorded | sockperf_cli/utils.cpp:339-363 | A Ping of a test, echoed as Ping or Pong, is recorded under its own number and not taken for a warmup |
| EndToEnd.Report | sockperf_cli/stats.cpp:50-131 | Over a table of such records: one round trip each, from the last attempt of the carrying round to the arrival; none for fewer than three records |
| EndToEnd.Measure | sockperf_cli/utils.cpp:333-370 | Senders that have run, a session of arrivals cut into calls in any way whose data messages bring back number fields the senders wrote, and the report: every table entry is the record of a data message of the session, and every round trip is the clock of the call that brought that message less the last attempt of the round that carried the packet it echoes |
| UdpTx.Send | dpdkx/udptx_channel.cpp:35-137 | For every payload and every pattern of allocation failures: success exactly if all needed buffers are granted and the ring accepts; then one chain in the ring, correctly linked, whose segments join to headers and payload; otherwise no buffer is left out of the pools |
| UdpTx.Scatter | dpdkx/udptx_channel.cpp:57-70 | The do-while loop fills exactly the needed buffers in order, or frees the whole chain |
| UdpTx.LoopEndsExactly | dpdkx/udptx_channel.cpp:58-70 | The loop has an end, however often buffers are granted, if and only if buffers have room or the payload is empty |
| UdpTx.NeededIs | dpdkx/udptx_channel.cpp:47-79 | How many buffers that is: one if headers and payload fit it, else one for the headers and ceil(payload / room) for the payload, at least one |
| UdpTx.LengthsAreTrue | dpdkx/udptx_channel.cpp:80-107 | The IPv4 total length is right if and only if the payload is at most 65507 bytes, the UDP length if and only if at most 65527 |
| UdpTx.PacketFields | dpdkx/udptx_channel.cpp:80-107 | Every other header field of the joined packet, in bytes: from the device's MAC, address and port to the destination's, IPv4 and UDP, the payload behind |
| UdpTx.SentTellsTruth | dpdkx/udptx_channel.cpp:56-113 | Up to 65507 bytes the segment count and the packet length are those of the chain |
| UdpTx.PacketTellsTruth | dpdkx/udptx_channel.cpp:94-107 | Both length fields read back from the joined bytes are the lengths of what follows |
| FlowQueue.RxQueue.Start | dpdkx/flow/rx_queue.cpp:25-36 | Makes the stub rule if there is none, with the failure |
| FlowQueue.RxQueue.Sweep | dpdkx/flow/rx_queue.cpp:38-47 | Destroys what can be destroyed and keeps exactly the handles that resist, in order |
| FlowQueue.RxQueue.Reset | dpdkx/flow/rx_queue.cpp:49-61 | Sweep, countdown, channel and new rule, with both early exits |
| FlowQueue.RxQueue.RouteTo | dpdkx/flow/rx_queue.cpp:63-69 | Adds a rule or reports the failure |
| FlowQueue.ResetKeeps | dpdkx/flow/rx_queue.cpp:49-61 | After any reset the handles are exactly the queue's live rules; it fails to delete exactly if some flow resists twice, then keeping the old channel; otherwise the channel is stored even if the new rule cannot be made |
| FlowQueue.StartKeeps | dpdkx/flow/rx_queue.cpp:25-36 | After any start the handles are exactly the queue's live rules; an idle queue has got the one rule for its stub, or none with the failure, and any other queue is left alone |
| FlowQueue.StubAddress | dpdkx/flow/rx_queue.hpp:15-15 | The stub of queue n is 224.0.hi.lo, port 0, and no two queues share one |
| FlowQueue.GroupAddress | dpdkx/device.cpp:425-426 | Multicast groups are the addresses whose first octet is 224 to 239 |
| FlowQueue.OnlyGroupsAreJoined | dpdkx/device.cpp:425-435 | In every run only multicast groups are joined |
| FlowQueue.Device.AttachRx | dpdkx/device.cpp:417-440 | Which queue an attach routes to or resets, joining the multicast group afterwards, with its outcome, keeping the device sound |
| FlowQueue.Device.JoinMcast | dpdkx/device.cpp:475-485 | First join with its report, or one more on the 8-bit counter |
| FlowQueue.GroupsAreCounted | dpdkx/device.cpp:475-485 | In every run a group is known exactly if a rule was made for it, and its counter is their number modulo 256 |
| FlowQueue.RunSound | dpdkx/device.cpp:417-440 | In every run of starts, sweeps and attaches, whatever the NIC refuses: each queue holds exactly the rules made for it and not destroyed, every live rule is held, and a channel has at most one queue |
| FlowQueue.UnusedSound | dpdkx/flow/rx_queue.cpp:11-13 | So for every run from a new device |
| FlowQueue.AssignedForGood | dpdkx/device.cpp:417-435 | An assigned queue never changes its channel |
| FlowQueue.ChannelStaysInPlace | dpdkx/device.cpp:417-435 | A channel that had a queue never has another |
| FlowQueue.AttachedIsServed | dpdkx/device.cpp:417-436 | An attach that made its rule brings the endpoint to a queue of the channel, and reports success exactly if it need not join a group or is the first to join it and can send the report |
| FlowQueue.SecondJoinIsRefused | dpdkx/device.cpp:423-426 | Two attaches for one multicast group on a NIC that accepts everything: success, then address in use, with two live rules |
| FlowQueue.NoQueueExactly | dpdkx/device.cpp:429-440 | No queue is found if and only if none carries the channel and all are assigned |
| Jobs.RunJobsOnce | dpdkx/jobs.cpp:62-84 | Every listed job is called once, in order, while the list is erased in place; exactly the done ones go; done exactly if a non-empty list became empty, else busy exactly if a job was; and the state left by an exception |
| Jobs.RunJobs | dpdkx/jobs.cpp:86-120 | Any run, for any answers of the jobs and of the stop flag: the passes and their results are those of the reference, and rounds between reads of the flag are exactly as long as the thresholds and the wrapping 8-bit counter make them |
| Jobs.RunExclusive | dpdkx/jobs.cpp:34-60 | The single-job runner is the list runner on a list of one |
| Jobs.PassesAreFair | dpdkx/jobs.cpp:62-84 | After any number of passes over distinct jobs the list holds, in order, exactly those that never answered done, each called once a pass, and no job is called after it was done |
| Jobs.RunIsFair | dpdkx/jobs.cpp:96-113 | So for every run however it ends |
| Jobs.NeverMeetsEmptyList | dpdkx/jobs.cpp:99-101 | A run that starts with a job never makes a pass over an empty list |
| Jobs.StopIsNoticed | dpdkx/jobs.cpp:98-113 | One to 33 passes, and at most 33 calls per listed job, between two reads of the flag |
| Jobs.IdleCadence | dpdkx/jobs.cpp:105-108 | A round of idle passes takes 1 pass, 3 or 2 at the beginning, and 4 when the counter wraps |
| Jobs.IdleReads | dpdkx/jobs.cpp:98-108 | In every idle run the passes before read k of the flag: k + 2 and three more for each of the (k - 1) / 253 wraps |
| Jobs.RunIdle | dpdkx/jobs.cpp:86-120 | Such runs exist: `run_jobs` over jobs that are always idle, for any list and any number of reads |
| Jobs.BusyRound | dpdkx/jobs.cpp:98-113 | A round without three idle passes in a row takes exactly 33 passes |
| Jobs.BusyReads | dpdkx/jobs.cpp:97-113 | So in every run without three idle passes in a row the flag is read after every 33rd pass |
| Jobs.RunBusy | dpdkx/jobs.cpp:86-120 | Such runs exist: `run_jobs` over jobs that are always busy |
| SocketConfig.Configure | dpdkx/config/socket.cpp:10-65 | For every list of cores and every socket map: the array is a permutation of the list, the spans tile it, in first-seen order, each listing its socket's cores |
| SocketConfig.Insert | dpdkx/config/socket.cpp:19-37 | Inserting a core behind its group keeps the array equal to the groups laid out one behind the other |
| SocketConfig.OrderIsKept | dpdkx/config/socket.cpp:19-37 | Cores enumerated later come later within their socket, and sockets met later behind those met before |
| SocketConfig.SpanHoldsItsSocket | dpdkx/config/socket.cpp:45-59 | A span holds exactly the cores of its socket and the main core is last in its span |
| SocketConfig.MainHasSpan | dpdkx/config/socket.cpp:39-53 | The main core's socket has a span |
| SocketConfig.SpansFallExactly | dpdkx/config/socket.cpp:61-63 | The closing assertion holds if and only if the socket sizes, in first-seen order, never rise |
| SocketConfig.SpansNeedNotFall | dpdkx/config/socket.cpp:61-63 | A configuration that contradicts it |
| Numerics.MulDivForms | dpdkx/detail/numerics.hpp:27-39 | The split-and-recombine form equals the direct one on all operands, and both are the true quotient if and only if it fits 64 bits |
| Numerics.TimestampFixMonotone | dpdkx/device.hpp:118-118 | Monotone wherever the result fits |
| Numerics.ClockRoundTrip | sockperf_cli/utils.cpp:202-202 | Nanoseconds to ticks and back never gains and loses at most ceil((10^9 - 1) / hz) |
| Numerics.RoundTripLossIsReached | sockperf_cli/utils.cpp:202-202 | The bound is met |

## Left out

- DPDK itself: rings, pools, flow rules, the clock and the library's checksum routines are inputs, or are modelled by what they promise; a flow handle is not given out again, and an mbuf taken from a pool is a fresh object.
- Widths and byte order: `l2_len` is the 7-bit field of the mbuf; 16-bit checksum words are loaded as on little-endian hosts.
- Frame.UpdateL2Size: requires a frame on which the walk ends; the endless ones are described by `Frame.EndlessExactly`.
- RxPath.RxJob.Process: requires frames on which the VLAN walk ends, and room in the array for the burst and what the opening table leaves of it; outside that the code does not return or leaves its array. Only with a reload_checkpoint of zero can the table grow within a call, and the room needed be less. The hand-over of a run is made before a broken packet is freed or another is parked, where the code does it after; the two touch different state.
- RxPath.RxJob.TryReloadSinks: the loop that re-reads the shared table until it is stable is its last read, whose value is a parameter.
- Partial transmission in the timestamp run: `TxJob.Sender.Process` takes bursts whole or not at all; after a partial one the code requests a second slot under the same key and leaves it unwritten. Which buffers survive a partial burst is `TxBuffers.KeepUnsent`.
- LossStats.Analyse: differences of times are integers rather than 64-bit values; what the code does after it has left its tables is not modelled.
- TxJob.Sender.Process: requires that packet numbers stay below 2^64. One payload buffer stands for those of the pool; its bytes behind the message type are whatever they were.
- Recorder.SockperfChannel.Enqueue: requires a table with a slot unless there is nothing to record; a queue count that is a multiple of 256 makes an empty one, and the code would index in front of it.
- UdpTx.Send: the checksums, which the library computes, are parameters; offload flags and the layer lengths are constants and not kept.
- UdpTx.Append: fills the new buffer and counts it before linking it, where the code links first; the three writes are independent.
- FlowQueue.Device.AttachRx: the fall-through to the sink table is `AttachProtocol`, without the join that follows it; the membership report is an input; concurrent attaches of flow queues are not modelled.
- Jobs.RunJobs: a run is observed through the reads of the stop flag, so infinite runs are covered by all their finite beginnings; `flow::rx_queue` overrides `run_exclusive`, and that version is not modelled.
- SocketConfig.Configure: the assertion at dpdkx/config/socket.cpp:61-63 is taken as absent, as in a build without assertions.
- `detach_rx`: it edits the shared table in place, which breaks the snapshots readers hold; the receive theorems are about runs of attaches.
- Memory ordering below atomic loads and compare-and-swap.
- Leaving multicast groups and the bytes of IGMP reports, `next_src_port`, histograms and the per-queue summary, option parsing, logging, device printing and the command line: output, configuration, or byte layout with no invariant to keep.
