# Models of emulated DEC bus devices

QUniBone emulates peripheral controllers on a real UNIBUS or Q-bus. This project models the devices whose behaviour
is a contract with the guest program, and proves that contract for every guest memory, every register sequence and
every interleaving of the device's threads.

Each device comes in two layers. A datatype holds the device's state, and functions on it say what one lock-held
section, one loop or one register write does; the lemmas are about these functions. A class holds the fields the
device code updates in place, and its methods, written in the form of that code, are each proved to compute the
function. Machine words are integers with the C code's width, sign and rounding written out.

| file | device |
|---|---|
| `guest_memory.dfy`, `byte_dma.dfy` | guest memory whose words may time out; the byte writers of the two Ethernet controllers |
| `ether_filter.dfy` | the compiler from an address list to a classic packet filter, and an interpreter for it |
| `delqa_filter.dfy` | DELQA address logic and the filter it gives the kernel |
| `delqa_queue.dfy`, `delqa_csr.dfy`, `delqa_descriptor.dfy` | its read queue, its CSR and interrupt level, its descriptors |
| `delqa_receive.dfy`, `delqa_transmit.dfy`, `delqa.dfy` | its two descriptor walks, and the controller |
| `delqa_transmit_csr.dfy`, `delqa_transmit_messages.dfy` | what a transmit walk leaves in the CSR, and makes of its messages |
| `delqa_memory.dfy`, `delqa_faults.dfy` | what whole walks leave in memory, and what goes wrong in them |
| `delqa_lengths.dfy`, `delqa_history.dfy` | the lengths a walk reports, and what a host gets over a run of walks, arrivals and resets |
| `deuna_ring.dfy`, `deuna_receive.dfy`, `deuna_transmit.dfy` | DEUNA rings and the walks over them |
| `deuna_command.dfy`, `deuna.dfy` | its command block, and the controller |
| `deuna_messages.dfy`, `deuna_effects.dfy` | what message lengths come to, and commands, arrivals and modes in the host's words |
| `dz11.dfy`, `dz11_device.dfy` | the DZ multiplexer as a state machine, and its code |
| `dz11_requests.dfy`, `dz11_silo.dfy` | its interrupt requests, its receive side and register writes |
| `word_arithmetic.dfy`, `ke11.dfy` | KE11 extended arithmetic |
| `display_log.dfy` | the display register's lock-free change log |
| `kw11p.dfy`, `line_clock.dfy` | the KW11-P programmable clock, the KW11-L catch-up scheduler |
| `dhv11.dfy`, `dhv11_channels.dfy` | the DHV11's master reset and self-test; its FIFO, reports and channel registers |

`dafny verify dfyconfig.toml` checks all of it.

Results a maintainer may want to know, each with a lemma:

- The packet filter's bound is exact: 63 addresses work, 64 do not (`EtherFilter.BoundIsExact`). The DELQA's list never
  comes near it, but leaves out all-zero entries, so a station whose first setup entry is zero never sees frames to it
  (`DelqaFilter.KernelKeepsTaken`, `DelqaFilter.ZeroDestinationLost`).
- A DELQA receive walk is cut off after 258 fetches, a transmit walk after 257.
- A DELQA segment whose buffer or status times out counts as delivered; no status of that walk reports it, and nothing
  else is ever lost (`DelqaFaults.WalkLoses`). The packet stays at the queue head, and a later walk completes it under
  its full length although the host lacks the torn bytes (`DelqaFaults.SpentReported`, `DelqaHistory.LengthsDiffer`).
  Over any run the length reported is the bytes received plus the bytes torn, so the two agree exactly if no segment
  with bytes was torn (`DelqaHistory.LengthsExplained`). A software reset in between delivers the packet again from its
  start (`DelqaFaults.LostFrameAgain`).
- An arrival on a full DELQA queue can push out a packet whose first part the host has; the host then joins that part
  to the packet after it (`DelqaHistory.FramesRunTogether`).
- A DELQA receive walk that ends in a bus timeout reports the timeout only: deliveries made earlier in the same walk get
  no receive interrupt (`DelqaController.Delqa.ReceiveInterrupt`, `DelqaController.Delqa.DeliveryUnreported`).
- Frames the DELQA lost are told to the host only if the next segment completes a packet; otherwise the count is cleared
  all the same (`DelqaLengths.LossTold`). A wire frame pushed out by the limit of four is counted nowhere
  (`DelqaQueue.LossExact`).
- A valid DELQA descriptor can have an empty buffer, and a receive walk then reports an all-ones segment of no bytes
  (`DelqaDescriptor.BufferLengthFits`, `DelqaFaults.EmptyBufferTakesNothing`).
- Programming the DELQA's vector from or to zero while a completion stands enabled leaves request and level apart until
  the next CSR change (`DelqaCsr.RequestParts`).
- A KW11-P event that is due but not yet seen by the worker is lost to a stop, to a buffer write, or to a new rate or
  direction (`Kw11p.DropsExactly`); otherwise the next turn fires it (`Kw11p.DueUntilTurn`).
- The KW11-P's CTR can read zero before DONE is up (`Kw11p.ZeroShownEarly`).
- In the DZ's maintenance mode a load never lets the transmit level fall, so a transmit interrupt taken before is not
  requested again (`Dz11Requests.WrapLoadSilent`).
- A DEUNA message counts as too long also when it fills 1514 bytes exactly before its last entry, however short that is
  (`DeunaMessages.LengthsJudged`).
- The comment in the DHV11's CSR write says the FIFO stays empty until the self-test ends. It does exactly if no line
  character, report request or wrapped character comes (`Dhv11.FifoFills`); a report request fills it
  (`Dhv11.FifoFillsDuringTest`); completion throws its contents away (`Dhv11.StepEnds`).
- The DEUNA's retry of a jump is safe because probe and full read agree on the owner while the host does not write in
  between (`DeunaTransmit.OwnedAgree`); a host that does can keep it jumping (`DeunaTransmit.JumpsForever`).

Assumptions about the bus: an address's bit 0 takes no part in a word cycle, a write transfer stops at the first word
that times out with the words before it written, a word that answered a read accepts a write, and no other master
writes during one walk. So a DELQA descriptor just read takes its used mark and a DEUNA entry just read takes its new
words, and the exits the devices have for writes that fail there are not modelled. `INTR` and `cancel_INTR` set and
clear a request; a grant or a bus reset takes it. A host that resets the DELQA drops what it has begun to put together.
`abs` of the most negative 32-bit value counts as 2^31.

## Model

| member | source | states |
|---|---|---|
| ByteDma.SplitWrite | 10.02_devices/2_src/delqa.cpp:581-618 | the DELQA's head/middle/tail writer is one byte-wise write for every address and length; after a timeout exactly the bytes before the word that failed are written |
| ByteDma.SplitRead | 10.02_devices/2_src/delqa.cpp:542-576 | the DELQA's reader succeeds exactly when every word touched answers, and returns the bytes in memory |
| ByteDma.WindowWrite | 10.02_devices/2_src/deuna.cpp:1106-1151 | the DEUNA's aligned-window writer is the same byte-wise write, all or nothing through the window, a leading part for whole words |
| ByteDma.WritersAgree | 10.02_devices/2_src/deuna.cpp:1106-1151 | in range and without timeout both writers leave the same memory, changing exactly the bytes addressed |
| ByteDma.WriteBoth | 10.02_devices/2_src/delqa.cpp:542-618 | on equal memories both writers leave equal memories, and the DELQA reads back what was written |
| ByteDma.ReadBack | 10.02_devices/2_src/delqa.cpp:542-576 | reading a range returns the bytes last written there |
| GuestMemory.Bus.ReadWords | 10.02_devices/2_src/delqa.cpp:527-531 | word cycles of a read: success is every word answering |
| GuestMemory.Bus.WriteWords | 10.02_devices/2_src/delqa.cpp:533-538 | word cycles of a write: everything before the first word that times out is written |
| EtherFilter.EtherReceiveFilter | 10.02_devices/2_src/ether_filter.cpp:9-42 | the emitting loop produces the program of the address list |
| GuestMemory.WordsRead | 10.02_devices/2_src/delqa.cpp:562 | a word read is its low byte at the even address and 256 times its high byte at the odd one |
| GuestMemory.WordStored | 10.02_devices/2_src/delqa.cpp:601-603 | a write that answers leaves each word's low byte at the even address and its high byte at the odd one |
| EtherFilter.LoadsBigEndian | 10.02_devices/2_src/ether_filter.cpp:30-36 | loads of one, two and four bytes put the first byte in the most significant place, as the constants of the compares do |
| EtherFilter.ProgramCorrect | 10.02_devices/2_src/ether_filter.cpp:9-42 | interpreted on any frame of at least 6 bytes, the program for up to 63 addresses halts and accepts exactly promiscuous, multicast and listed destinations |
| EtherFilter.ProgramWellFormed | 10.02_devices/2_src/ether_filter.cpp:11-41 | every jump goes forward and stays inside the program |
| EtherFilter.UnicastCorrect | 10.02_devices/2_src/ether_filter.cpp:26-38 | a unicast frame is kept exactly when its destination is in the list |
| EtherFilter.MulticastCorrect | 10.02_devices/2_src/ether_filter.cpp:22-27 | a multicast frame is always kept |
| EtherFilter.BoundIsExact | 10.02_devices/2_src/ether_filter.cpp:17-27 | the program decides its list if and only if the list has at most 63 addresses, the point where the 8-bit jump still reaches the accept |
| EtherFilter.OverlongDropsMulticast | 10.02_devices/2_src/ether_filter.cpp:17-27 | beyond the bound every multicast frame whose last two bytes match no listed address is dropped |
| DelqaFilter.AddressLogic.ActivePhysicalAddress | 10.02_devices/2_src/delqa.cpp:1277-1284 | the first unicast entry of a valid table, else the station address |
| DelqaFilter.AddressLogic.AddressRecognised | 10.02_devices/2_src/delqa.cpp:1293-1311 | computes the address recognition of the table |
| DelqaFilter.AddressLogic.BridgeAccept | 10.02_devices/2_src/delqa.cpp:1315-1430 | the unlocked fast reject never changes the verdict of the locked check |
| DelqaFilter.AddressLogic.UpdateBridgeFilter | 10.02_devices/2_src/delqa.cpp:1255-1271 | the kernel program is the compiled list of the table's physical addresses |
| DelqaFilter.AddressLogic.ProcessSetup | 10.02_devices/2_src/delqa.cpp:1112-1174 | a setup packet loads table and modes and re-aims the kernel program |
| DelqaFilter.SetupRoundTrip | 10.02_devices/2_src/delqa.cpp:1126-1155 | decoding the setup packet a host builds from 14 addresses and the modes gives back exactly those |
| DelqaFilter.ReceivesIsRecognised | 10.02_devices/2_src/delqa.cpp:1293-1430 | a frame the bridge accepts has a recognised destination, in every setup state |
| DelqaFilter.ReceivesExactly | 10.02_devices/2_src/delqa.cpp:1277-1430 | which destinations a programmed controller receives, from the addresses and modes in the host's setup packet |
| DelqaFilter.AnswersExactly | 10.02_devices/2_src/delqa.cpp:1293-1390 | which destinations its address logic answers to and which sources it takes for its own |
| DelqaFilter.UnprogrammedExactly | 10.02_devices/2_src/delqa.cpp:1297-1412 | before the first setup packet: the station address and broadcast |
| DelqaFilter.KernelKeepsTaken | 10.02_devices/2_src/delqa.cpp:1255-1430 | a frame the bridge takes passes the kernel program if and only if its destination is not all zeros, or the filter is promiscuous, or the station address is zero |
| DelqaFilter.ZeroDestinationLost | 10.02_devices/2_src/delqa.cpp:1255-1271 | the exception exists: a frame to a zeroed first entry is taken by the bridge and never gets past the kernel |
| DelqaFilter.KernelProgramFits | 10.02_devices/2_src/delqa.cpp:1255-1271 | the list never exceeds what the jumps can span, so the kernel takes the program |
| DelqaQueue.EnqueueKeeps | 10.02_devices/2_src/delqa.cpp:1198-1241 | the queue keeps both limits, never evicts a reflected packet, and refuses and counts a packet only when full of reflected ones |
| DelqaQueue.RoomKeeps | 10.02_devices/2_src/delqa.cpp:1201-1228 | making room removes wire frames only, the oldest first: the wire frames left are the youngest, in their order |
| DelqaQueue.LossExact | 10.02_devices/2_src/delqa.cpp:1201-1228 | what is counted as lost: every packet that finds 32 queued, but a wire frame that finds four of its kind pushes one out uncounted |
| DelqaQueue.OldestGoes | 10.02_devices/2_src/delqa.cpp:1208-1224 | the frame that makes way is the oldest from the wire |
| DelqaQueue.ResetKeepsWireFrames | 10.02_devices/2_src/delqa.cpp:255-299 | a reset keeps every wire frame, undelivered in full, and nothing else |
| DelqaController.Delqa.EnqueuePacket | 10.02_devices/2_src/delqa.cpp:1198-1241 | the deque method computes the queue function the lemmas are about |
| DelqaCsr.UpdateDerivesLevel | 10.02_devices/2_src/delqa.cpp:224-251 | after any CSR change a request is outstanding exactly while the interrupt level is high |
| DelqaCsr.WriteCsrBits | 10.02_devices/2_src/delqa.cpp:360-394 | every bit after a host write, one rule per kind of bit |
| DelqaCsr.ResetState | 10.02_devices/2_src/delqa.cpp:255-299 | what a software reset leaves |
| DelqaCsr.LevelNeverStranded | 10.02_devices/2_src/delqa.cpp:206-251 | over every run of host writes, completions and grants, no completion is left without a request |
| DelqaCsr.VectorAloneIsSilent | 10.02_devices/2_src/delqa.cpp:322-356 | programming a vector while a completion stands may leave the level high without a request |
| DelqaCsr.RequestParts | 10.02_devices/2_src/delqa.cpp:322-356 | exactly when request and level part: a vector write from or to zero while a completion stands enabled, or a grant of a level still high; the next CSR change joins them again |
| DelqaController.Delqa.UpdateCsr | 10.02_devices/2_src/delqa.cpp:224-251 | the method computes the CSR function |
| DelqaController.Delqa.WriteCsr | 10.02_devices/2_src/delqa.cpp:360-394 | a host write computes the CSR function; a reset it asks for empties the queue of reflections; turning the receiver on with frames waiting asks for a delivery, and both boot bits for the boot ROM |
| DelqaController.Delqa.SoftwareReset | 10.02_devices/2_src/delqa.cpp:255-299 | the whole state after a reset, kernel program included |
| DelqaController.Delqa.NxmError | 10.02_devices/2_src/delqa.cpp:622-628 | a bus timeout sets its bits and re-derives the interrupt |
| DelqaController.Delqa.ProcessRbdl | 10.02_devices/2_src/delqa.cpp:665-912 | the receive loop over guest memory computes the walk the lemmas are about |
| DelqaController.Delqa.ReceiveInterrupt | 10.02_devices/2_src/delqa.cpp:684-911 | RI stands after a walk if and only if it stood before, or the walk delivered and every word it came to - of descriptors, buffers and statuses - answered |
| DelqaController.Delqa.ReceiveReports | 10.02_devices/2_src/delqa.cpp:904-911 | every bit of the CSR after a receive walk, and the request that goes with it |
| DelqaController.Delqa.DeliveryUnreported | 10.02_devices/2_src/delqa.cpp:684-911 | the exception happens: a walk that delivers a frame, ends in a timeout and raises no RI |
| DelqaReceive.WalkConserves | 10.02_devices/2_src/delqa.cpp:665-912 | for any guest memory and queue, packets are delivered whole, in order and once; a timeout loses at most the segment it interrupts |
| DelqaReceive.BytesConserved | 10.02_devices/2_src/delqa.cpp:757-903 | undelivered bytes before = bytes delivered in order, then what a timeout lost, then undelivered bytes after |
| DelqaReceive.LostOnlyOnTimeout | 10.02_devices/2_src/delqa.cpp:665-912 | nothing is lost without a bus timeout |
| DelqaFaults.SegmentLost | 10.02_devices/2_src/delqa.cpp:745-880 | a descriptor with a buffer stops the walk if and only if the buffer or its status words do not answer; exactly that segment then counts as delivered in the queue and is reported by no status |
| DelqaFaults.WalkLoses | 10.02_devices/2_src/delqa.cpp:665-912 | what a whole walk loses: the segment of its last descriptor if that one does not land, otherwise nothing |
| DelqaFaults.FrameLost | 10.02_devices/2_src/delqa.cpp:745-880 | the loss happens: one frame, one descriptor, a buffer that does not answer; the walk reports nothing, and the frame stays at the queue head with nothing left to deliver |
| DelqaFaults.WalkTimesOut | 10.02_devices/2_src/delqa.cpp:665-912 | a walk ends in a timeout if and only if the last place it looks at has words that do not answer |
| DelqaFaults.WalkStopsWhere | 10.02_devices/2_src/delqa.cpp:684-735 | the reason a walk stops, by the last place it looks at: an invalid descriptor, an empty queue, the head of the list again, or more than 256 descriptors |
| DelqaFaults.OrderLeaves | 10.02_devices/2_src/delqa.cpp:709-735 | a chain is followed to its address; the other descriptors without a buffer stop the walk |
| DelqaFaults.SpentReported | 10.02_devices/2_src/delqa.cpp:757-886 | a wire packet whose last bytes were torn is completed by the next descriptor with a buffer, without a byte, under its full length and without an error bit up to 1518 |
| DelqaFaults.LostFrameReported | 10.02_devices/2_src/delqa.cpp:757-886 | that happens: the list armed again, the lost frame is reported complete at 60 bytes and the host has none |
| DelqaFaults.LostFrameAgain | 10.02_devices/2_src/delqa.cpp:274-283 | after a software reset instead, the same frame is delivered again in full |
| DelqaHistory.LengthsExplained | 10.02_devices/2_src/delqa.cpp:665-912 | over any run of walks, arrivals and resets, whatever memory holds each time: the length decoded for a wire packet is the bytes received of it plus the bytes torn since it was last undelivered in full; so it is the bytes received if and only if no segment with bytes was torn; and what the host joined is those bytes behind the ones of packets pushed out before |
| DelqaHistory.StepKeeps | 10.02_devices/2_src/delqa.cpp:255-299 | every walk, arrival and reset keeps that account of every queued packet |
| DelqaHistory.UndisturbedWhole | 10.02_devices/2_src/delqa.cpp:665-912 | if no walk tears a byte and no arrival pushes out a packet the host has begun, the host puts together every packet completed as one that arrived, framed as its kind is |
| DelqaHistory.AllCame | 10.02_devices/2_src/delqa.cpp:1198-1241 | over any run every packet queued or completed is one that arrived, framed as its kind is |
| DelqaHistory.FramesRunTogether | 10.02_devices/2_src/delqa.cpp:1201-1219 | an arrival on a full queue pushes out a packet already begun, and the next one completed reaches the host behind its first part |
| DelqaHistory.LengthsDiffer | 10.02_devices/2_src/delqa.cpp:757-886 | the smallest run in which the host decodes 60 bytes and has got none |
| DelqaFaults.EmptyBufferTakesNothing | 10.02_devices/2_src/delqa.cpp:745-778 | a descriptor with an empty buffer takes no byte and leaves the packet in place, reported all ones while bytes of it remain |
| DelqaReceive.WalkBounded | 10.02_devices/2_src/delqa.cpp:684-706 | a walk over any, even cyclic, list ends within 258 fetches |
| DelqaReceive.WalkKeepsGood | 10.02_devices/2_src/delqa.cpp:665-912 | a walk keeps the queue's limits |
| DelqaReceive.WalkReports | 10.02_devices/2_src/delqa.cpp:760-778 | packets from the wire are delivered at lengths between 60 and 1600 |
| DelqaLengths.WalkDecodes | 10.02_devices/2_src/delqa.cpp:757-880 | for every packet a walk completes, the status words decode to the bytes the host put together for it in the walk plus those delivered before it, wire and looped packets alike; error and loss bits say what they are for |
| DelqaLengths.WalkFrames | 10.02_devices/2_src/delqa.cpp:757-778 | what the host puts together for each packet completed, byte by byte: a frame from the wire as queued, cut to 1600 bytes and followed by zeros up to 60; any other packet as it is; of a packet begun before, what was left |
| DelqaLengths.WalkSized | 10.02_devices/2_src/delqa.cpp:757-886 | a walk completes the packets at the front of its queue in order, each under its whole length, and leaves the rest as they were |
| DelqaReceive.LoopbackDecodes | 10.02_devices/2_src/delqa.cpp:809-864 | a looped packet reports its whole length and the external-loopback bit; its error bit is for more than 1518 bytes, in external loopback for 1536 or more |
| DelqaReceive.RuntDecodes | 10.02_devices/2_src/delqa.cpp:809-839 | exactly when a looped packet is a runt, and its status then |
| DelqaReceive.SetupDecodes | 10.02_devices/2_src/delqa.cpp:803-808 | the status of a reflected setup packet |
| DelqaReceive.BootDecodes | 10.02_devices/2_src/delqa.cpp:843-862 | a boot ROM segment reports its own length and whether another follows, in both words |
| DelqaLengths.LossTold | 10.02_devices/2_src/delqa.cpp:787-788 | frames lost before a walk are told by the status of its first segment exactly if that completes a packet; the count is cleared in any case |
| DelqaReceive.MoreDecodes | 10.02_devices/2_src/delqa.cpp:853-874 | a non-final segment has both status words all ones, and the host tells it from a final one, except for a long boot ROM segment |
| DelqaReceive.DeliveryInMemory | 10.02_devices/2_src/delqa.cpp:797-903 | memory after a delivery: statuses, segment, used mark, and nothing else changed |
| DelqaReceive.NoDeliveryInMemory | 10.02_devices/2_src/delqa.cpp:709-735 | a descriptor that takes no segment changes its used mark only |
| DelqaMemory.WalkFrame | 10.02_devices/2_src/delqa.cpp:684-904 | a whole receive walk, timeouts included, changes only marks and statuses of the descriptors visited and the buffers filled or torn |
| DelqaMemory.SegmentStays | 10.02_devices/2_src/delqa.cpp:684-904 | a byte of a delivered segment that nothing else in the walk overlies is in memory at its end |
| DelqaMemory.HostReadsBack | 10.02_devices/2_src/delqa.cpp:684-904 | with buffers clear of descriptors and of each other the host reads every segment back as delivered |
| DelqaDescriptor.BufferLengthFits | 10.02_devices/2_src/delqa.cpp:745-753 | the word-count arithmetic underflows exactly on a zero count with an odd end marked; a buffer is empty exactly on a zero count with none, or on one word with both ends odd |
| DelqaDescriptor.EmptyBufferExists | 10.02_devices/2_src/delqa.cpp:745-753 | a valid descriptor with an empty buffer exists |
| DelqaFaults.OrderBits | 10.02_devices/2_src/delqa.cpp:715-740 | the flag bits a receive descriptor goes by, and how far it is read |
| DelqaFaults.BufferBits | 10.02_devices/2_src/delqa.cpp:742-753 | where a buffer lies and how long it is |
| DelqaController.Delqa.ProcessXbdl | 10.02_devices/2_src/delqa.cpp:917-1106 | the transmit loop computes the walk the lemmas are about, always ends with XL set, and hands reflected packets to the receive list |
| DelqaTransmit.TxWalkEnds | 10.02_devices/2_src/delqa.cpp:933-953 | for any, even cyclic, guest memory at most 257 descriptors are fetched and XL is set |
| DelqaTransmit.TxWalkDisciplined | 10.02_devices/2_src/delqa.cpp:917-1106 | packets handed on are the concatenation of the buffers since the last end of message; a walk without timeout ends with one update that sets XL, with XI exactly when a message is unreported |
| DelqaTransmit.OneInterruptPerMessage | 10.02_devices/2_src/delqa.cpp:969-984 | every completed message gets an XI of its own |
| DelqaTransmitCsr.MessagesInterrupt | 10.02_devices/2_src/delqa.cpp:966-984 | a walk no timeout stops leaves XI standing exactly if it stood or a message was completed, CA exactly if it stood or a connector returned one, XL, and no other bit changed; the interrupt is requested exactly if enabled, with a vector, and XI or RI stands |
| DelqaTransmitCsr.XiAfterWalk | 10.02_devices/2_src/delqa.cpp:917-1106 | XI stands after any walk exactly if it stood, the walk reported it, or a timeout stopped the walk |
| DelqaTransmitCsr.TimeoutInterrupts | 10.02_devices/2_src/delqa.cpp:622-628 | a walk a timeout stops leaves its four bits, no other bit changed but CA, and the request if the interrupt is enabled and has a vector |
| DelqaTransmit.TxWalkKeepsGood | 10.02_devices/2_src/delqa.cpp:917-1106 | reflections keep the queue's limits |
| DelqaTransmit.WalkRoutes | 10.02_devices/2_src/delqa.cpp:1002-1069 | no walk changes the loopback mode it begins in, and its messages, setup packets apart, go to the wire if and only if that mode is no loopback |
| DelqaTransmitMessages.WalkDisposes | 10.02_devices/2_src/delqa.cpp:1002-1069 | each message takes the route of the modes the walk began in, and receive queue, loss count and filter are those its messages leave, in order: setups loaded and reflected, loops reflected or counted as lost, a connector's returns padded and queued |
| DelqaTransmitMessages.StatusTells | 10.02_devices/2_src/delqa.cpp:1024-1069 | the two status words of a message's last buffer |
| DelqaTransmitMessages.VisitFollows | 10.02_devices/2_src/delqa.cpp:951-1000 | what a transmit descriptor does by its flags: a chain followed, the list ended, or the bytes of its buffer in guest memory added to the message |
| DelqaTransmit.TxVisitInMemory | 10.02_devices/2_src/delqa.cpp:951-1092 | a descriptor visited changes its used mark and its status, all ones or that of the message it completes, and nothing else in memory |
| DelqaMemory.TxWalkFrame | 10.02_devices/2_src/delqa.cpp:933-1095 | a whole transmit walk, however it ends, changes only used marks and status words of the descriptors it visits |
| Dz11.RunKeepsOk | 10.02_devices/2_src/dzv11.cpp:263-337 | in every state any interleaving of register accesses and both workers reaches: TRDY only for a running scanner, an enabled line and an empty buffer; registers read the state; at most 64 entries; no transmit request while the receive condition stands |
| Dz11.StepKeepsOk | 10.02_devices/2_src/dzv11.cpp:568-616 | every single step keeps those invariants |
| Dz11Requests.RequestsExact | 10.02_devices/2_src/dzv11.cpp:294-308 | under every interleaving each of the two requests is outstanding exactly while its level stands and no grant has come since the level last rose |
| Dz11Requests.StepRequests | 10.02_devices/2_src/dzv11.cpp:294-308 | a step makes a request exactly when its level rises and withdraws it exactly when the level falls |
| Dz11Requests.WrapLoadSilent | 10.02_devices/2_src/dzv11.cpp:470-515 | a load wrapped in maintenance mode makes no new transmit request, because the level never falls |
| Dz11Silo.SiloFifo | 10.02_devices/2_src/dzv11.cpp:322-337 | under every interleaving the host reads the characters kept, in order and once: a clear takes back those waiting, an arrival on a full silo takes the place of the newest, marked |
| Dz11Silo.AllReceived | 10.02_devices/2_src/dzv11.cpp:322-337 | with room for all of them, the characters read and those waiting are exactly those that arrived |
| Dz11Silo.StepReceives | 10.02_devices/2_src/dzv11.cpp:322-337 | silo, alarm counter and alarm after every step, maintenance wrap included |
| Dz11Silo.CsrWritten | 10.02_devices/2_src/dzv11.cpp:380-431 | every control bit, the silo and the lines after a CSR write |
| Dz11Silo.LinesWritten | 10.02_devices/2_src/dzv11.cpp:433-521 | the line parameters after every other step |
| Dz11.ScanDecides | 10.02_devices/2_src/dzv11.cpp:524-563 | after every scan TRDY stands exactly when scan is on, nothing is pending and some line is enabled |
| Dz11.ScannerFair | 10.02_devices/2_src/dzv11.cpp:524-534 | with a fixed enable set, as many selections as enabled lines choose each exactly once |
| Dz11.ExactlyOnce | 10.02_devices/2_src/dzv11.cpp:470-521 | for a host that loads only while TRDY shows, outside maintenance and without clear or reset, the characters taken, then the one in flight, are those loaded, in order, each for the TLINE shown at its load |
| Dz11.StepConserves | 10.02_devices/2_src/dzv11.cpp:741-787 | a step conserves characters if and only if it does not load on top of one, clear or reset |
| Dz11.StepFlight | 10.02_devices/2_src/dzv11.cpp:470-521 | what is in flight after every kind of step |
| Dz11.ImpatientLoses | 10.02_devices/2_src/dzv11.cpp:470-521 | two loads without a wait between them always lose the first character |
| Dz11Device.Device.UpdateCsrAndIntr | 10.02_devices/2_src/dzv11.cpp:274-308 | CSR view, edge detectors and requests after an update |
| Dz11Device.Device.SiloPush | 10.02_devices/2_src/dzv11.cpp:322-337 | a push with overrun of the newest entry and the silo alarm |
| Dz11Device.Device.SelectNextTxLine | 10.02_devices/2_src/dzv11.cpp:524-534 | the loop finds the next enabled line, or leaves TLINE alone |
| Dz11Device.Device.ScanTxTrdy | 10.02_devices/2_src/dzv11.cpp:543-563 | the scan method is the scan of the state machine |
| Dz11Device.Device.CsrDato | 10.02_devices/2_src/dzv11.cpp:380-431 | a CSR write, master clear included, is one step |
| Dz11Device.Device.LprDato | 10.02_devices/2_src/dzv11.cpp:433-442 | a line parameter write is one step |
| Dz11Device.Device.TcrDato | 10.02_devices/2_src/dzv11.cpp:444-468 | a TCR write is one step |
| Dz11Device.Device.TdrDato | 10.02_devices/2_src/dzv11.cpp:470-521 | a TDR write, maintenance wrap and breaks included, is one step |
| Dz11Device.Device.RbufDati | 10.02_devices/2_src/dzv11.cpp:568-616 | an RBUF read is one step |
| Dz11Device.Device.WorkerXmtTurn | 10.02_devices/2_src/dzv11.cpp:741-787 | a turn of the transmit worker is one step and takes the character in flight |
| Dz11Device.Device.WorkerReceive | 10.02_devices/2_src/dzv11.cpp:708-738 | a character received is one step |
| Dz11Device.Device.ResetDevice | 10.02_devices/2_src/dzv11.cpp:631-665 | a bus reset is one step |
| Ke11.DivMeans | 10.02_devices/2_src/ke11.cpp:158-219 | overflow (N xor NXV) exactly when no 16-bit quotient exists, zero divisors and -2^31 by -1 included; otherwise signed MQ is the quotient and signed AC the remainder, smaller than the divisor and with the dividend's sign; AC is the remainder whenever the guard passes, quotients of 17 bits included |
| Ke11.DivFailedMeans | 10.02_devices/2_src/ke11.cpp:180-196 | a division refused leaves one step of the subtraction: the pair doubled, less the divisor in its upper half or plus it by the signs, and the flags of that step |
| Ke11.RefusedExactly | 10.02_devices/2_src/ke11.cpp:180-184 | the guard refuses exactly a zero divisor and quotients of more than 16 bits |
| Ke11.BytesExtend | 10.02_devices/2_src/ke11.cpp:160-166 | a byte write takes the byte's signed value |
| Ke11.RefusedNeverFits | 10.02_devices/2_src/ke11.cpp:180-196 | the guard refuses only divisions whose quotient has more than 16 bits |
| Ke11.DividesOnce | 10.02_devices/2_src/ke11.cpp:180-208 | quotient and remainder are unique |
| Ke11.MulMeans | 10.02_devices/2_src/ke11.cpp:273-308 | AC:MQ is the exact signed product, N its sign, no overflow |
| Ke11.MulThenDiv | 10.02_devices/2_src/ke11.cpp:158-308 | multiply by a non-zero word, then divide by it: MQ restored, AC zero, no overflow |
| Ke11.NorMeans | 10.02_devices/2_src/ke11.cpp:321-347 | the value is multiplied by 2^SC with no bit lost; SC is 31 exactly for zero; otherwise the result has reached half the 32-bit range |
| Ke11.LshMeans | 10.02_devices/2_src/ke11.cpp:349-399 | LSH for every count: times 2^k modulo 2^32, or unsigned division by 2^(64-k); overflow exactly when the signed product does not fit; C the last bit out |
| Ke11.AshMeans | 10.02_devices/2_src/ke11.cpp:401-453 | ASH for every count: times 2^k with the sign kept, or floor division by 2^(64-k); overflow exactly when the product does not fit; C the last bit out |
| Ke11.AshThereAndBack | 10.02_devices/2_src/ke11.cpp:401-453 | a left ASH without overflow is undone by the right ASH of the same distance, C clear |
| Ke11.DerivedBits | 10.02_devices/2_src/ke11.cpp:482-517 | Z is a zero pair, SXT a pair that fits 16 bits |
| Ke11.LoadMqExtends | 10.02_devices/2_src/ke11.cpp:245-271 | loading MQ sign-extends it through AC |
| Ke11.LoadAcReplaces | 10.02_devices/2_src/ke11.cpp:221-243 | loading AC replaces the upper half of the pair and nothing but what is derived from it |
| Ke11.Element.WriteDiv | 10.02_devices/2_src/ke11.cpp:158-219 | the register write updates AC, MQ, SR and SC as the divide function says, the failed divide included |
| Ke11.Element.WriteAc | 10.02_devices/2_src/ke11.cpp:221-243 | the register write is the load of AC |
| Ke11.Element.WriteMq | 10.02_devices/2_src/ke11.cpp:245-271 | the register write is the load of MQ |
| Ke11.Element.WriteMul | 10.02_devices/2_src/ke11.cpp:273-308 | the register write is the multiply function |
| Ke11.ScSrRoundTrip | 10.02_devices/2_src/ke11.cpp:310-319 | the SC/SR word saved and written back restores N, NXV, C, overflow and count, and all of the status once AC and MQ are as they were |
| Ke11.RunPublishes | 10.02_devices/2_src/ke11.cpp:151-455 | over any run of register writes the count fits its byte, and from every write but one of SC/SR on each derived bit says of AC and MQ what it is named for |
| Ke11.SavedStatus | 10.02_devices/2_src/ke11.cpp:310-319 | the SC/SR word saved at any point of a run and written back restores the status; byte writes of SC/SR do nothing |
| Ke11.Element.WriteRegister | 10.02_devices/2_src/ke11.cpp:151-455 | a write of any register, word or byte, is its operation; byte writes of SC/SR do nothing |
| Ke11.Element.WriteNor | 10.02_devices/2_src/ke11.cpp:321-347 | the shift loop is the normalise function |
| Ke11.Element.WriteLsh | 10.02_devices/2_src/ke11.cpp:349-399 | the register write is the LSH function |
| Ke11.Element.WriteAsh | 10.02_devices/2_src/ke11.cpp:401-453 | the register write is the ASH function |
| Ke11.Element.UpdateScSr | 10.02_devices/2_src/ke11.cpp:482-517 | the derived status bits |
| DisplayLog.QueueRefined | 10.02_devices/2_src/dispreg.cpp:68-103 | under every interleaving of atomic loads and stores, and any wrap of the counters: drained ++ copied ++ waiting = logged; at most 256 wait |
| DisplayLog.WriteCounts | 10.02_devices/2_src/dispreg.cpp:68-93 | nothing worth logging is passed over: under every interleaving a write that finds the producer ready and is on time ends logged after three of its steps or refused after two, and one not on time leaves no trace |
| DisplayLog.DrainReturns | 10.02_devices/2_src/dispreg.cpp:95-103 | under every interleaving a drain returns exactly the changes that waited when it looked, in as many steps and two more |
| DisplayLog.StepKeeps | 10.02_devices/2_src/dispreg.cpp:68-103 | every load or store of either thread keeps the ring invariant and the first-in first-out order |
| DisplayLog.NoOverwrite | 10.02_devices/2_src/dispreg.cpp:85-90 | the slot about to be stored is none the poll has still to read |
| DisplayLog.NoRace | 10.02_devices/2_src/dispreg.cpp:85-101 | while one thread stores, the other copies another slot |
| DisplayLog.LoggedSpaced | 10.02_devices/2_src/dispreg.cpp:74-92 | neighbouring logged changes differ and are at least 1000 us apart |
| DisplayLog.RefusalsModulo | 10.02_devices/2_src/dispreg.cpp:85-103 | drop counts returned plus pending equal the refusals modulo 2^32 |
| DisplayLog.RefusalsCounted | 10.02_devices/2_src/dispreg.cpp:85-103 | below 2^32 refusals they are equal |
| DisplayLog.RefusedOnlyFull | 10.02_devices/2_src/dispreg.cpp:84-88 | a change is refused exactly when 256 slots are unreleased |
| DisplayLog.Log.OnDato | 10.02_devices/2_src/dispreg.cpp:68-93 | the whole callback is the producer's steps in a row: a write on time is logged with its time, or counted as refused by a full log, and any other changes nothing |
| DisplayLog.Log.DrainChanges | 10.02_devices/2_src/dispreg.cpp:95-103 | the drain returns everything waiting, oldest first, and the drop count, and leaves both empty |
| Kw11p.TickingRefined | 10.02_devices/2_src/kw11p.cpp:125-150 | however often stopped and restarted without an event, the count is the loaded one ticked once per whole period run |
| Kw11p.CountAfterRun | 10.02_devices/2_src/kw11p.cpp:138-150 | the count computed at any later time is the loaded one ticked once per whole period of all intervals, the running one included |
| Kw11p.CtrReads | 10.02_devices/2_src/kw11p.cpp:259-301 | what CTR reads after any quiet run: the ticked count of the last turn or stop, unchanged since |
| Kw11p.ZeroShownEarly | 10.02_devices/2_src/kw11p.cpp:363-376 | a turn that finds nothing due reads the clock again for the count: when the event point lies between, CTR shows zero before DONE is up |
| Kw11p.CtrStep | 10.02_devices/2_src/kw11p.cpp:179-301 | CTR changes only with an event that stores it, and then holds the count of that moment |
| Kw11p.StoppedCtr | 10.02_devices/2_src/kw11p.cpp:179-301 | in every reachable state a stopped clock's CTR reads its count |
| Kw11p.CurrentTicks | 10.02_devices/2_src/kw11p.cpp:138-150 | the closed form equals single ticks modulo 2^16, for any elapsed time |
| Kw11p.EventIsFirstZero | 10.02_devices/2_src/kw11p.cpp:125-130 | the event point is the first tick that reaches zero; before it the distance shrinks by one per tick |
| Kw11p.NoWrapBeforeEvent | 10.02_devices/2_src/kw11p.cpp:125-150 | before its event a count up never wraps and a non-zero count down never reaches zero |
| Kw11p.EventsPaced | 10.02_devices/2_src/kw11p.cpp:179-200 | in repeat mode, left alone, events are never closer than the event period |
| Kw11p.RunFlags | 10.02_devices/2_src/kw11p.cpp:179-234 | in every reachable state a pending interrupt implies enable and DONE; ERROR implies repeat mode and a pending interrupt; the CSR reads the state |
| Kw11p.StepFlags | 10.02_devices/2_src/kw11p.cpp:179-311 | ERROR rises exactly with a second event before service, and every CSR access clears it |
| Kw11p.StepSignals | 10.02_devices/2_src/kw11p.cpp:179-280 | DONE and the request after every event: an event raises DONE, and the request if enabled; only a grant, a disabling write or a reset withdraws it |
| Kw11p.CsrPrograms | 10.02_devices/2_src/kw11p.cpp:245-280 | what a CSR write programs, when a run begins or goes on, and what a single step shows |
| Kw11p.FireSignals | 10.02_devices/2_src/kw11p.cpp:179-209 | an event goes on from the buffer in repeat mode and stops with all at zero otherwise |
| Kw11p.RatesPerSecond | 10.02_devices/2_src/kw11p.cpp:105-121 | the four rates in ticks of a second |
| Kw11p.StopLosesDueEvent | 10.02_devices/2_src/kw11p.cpp:259-264 | a stop raises nothing, and keeps the event if and only if it was not due: ticks run and ticks still to go add up to those started for |
| Kw11p.DropsExactly | 10.02_devices/2_src/kw11p.cpp:245-303 | a host access, single-stepping aside, drops an event if and only if the event is due and the access clears RUN, loads the buffer, or selects a rate and direction at which it would not be due |
| Kw11p.LoadDropsEvent | 10.02_devices/2_src/kw11p.cpp:290-303 | loading a running clock's buffer raises nothing and leaves nothing due |
| Kw11p.DueUntilTurn | 10.02_devices/2_src/kw11p.cpp:357-377 | an event due that no access drops is fired by the next turn, however late |
| Kw11p.DueIsTicks | 10.02_devices/2_src/kw11p.cpp:363-370 | the elapsed-time test is met exactly when the ticks to the event have passed |
| Kw11p.Clock.CsrWritten | 10.02_devices/2_src/kw11p.cpp:245-280 | a CSR write is one step |
| Kw11p.Clock.CsrRead | 10.02_devices/2_src/kw11p.cpp:281-288 | a CSR read is one step |
| Kw11p.Clock.BufWritten | 10.02_devices/2_src/kw11p.cpp:290-303 | a buffer write is one step |
| Kw11p.Clock.FireEvent | 10.02_devices/2_src/kw11p.cpp:179-209 | the event method is the event function |
| Kw11p.Clock.FixStep | 10.02_devices/2_src/kw11p.cpp:213-234 | FIX is the single-step function |
| Kw11p.Clock.WorkerTurn | 10.02_devices/2_src/kw11p.cpp:357-395 | a turn is one step, and the wait never runs past the next event |
| Kw11p.Clock.OnInit | 10.02_devices/2_src/kw11p.cpp:326-348 | a reset is one step |
| LineClock.Worker | 10.02_devices/2_src/dl11w.cpp:836-887 | every tick comes at its due time plus the lateness of the recurrence, for any delays and frequency changes |
| LineClock.NeverAhead | 10.02_devices/2_src/dl11w.cpp:836-887 | the clock is never ahead of real time, and late by at most the delays met |
| LineClock.TicksApart | 10.02_devices/2_src/dl11w.cpp:868-887 | two ticks are never closer than half a period |
| LineClock.CaughtUp | 10.02_devices/2_src/dl11w.cpp:862-887 | after a stall S it is on time within 2S/P turns, and exactly when the half periods gained cover it |
| LineClock.CatchUp | 10.02_devices/2_src/dl11w.cpp:862-887 | the lateness after k prompt turns |
| LineClock.LatenessSteady | 10.02_devices/2_src/dl11w.cpp:862-887 | while no turn is delayed by more than half a period, lateness never exceeds one turn's delay |
| DeunaRing.CommandKeeps | 10.02_devices/2_src/deuna.cpp:1517-1540 | state commands and the reset keep both indices in their rings, and the rings never change while the port stays running |
| DeunaCommand.ObeyKeeps | 10.02_devices/2_src/deuna.cpp:1392-1692 | a command block never moves a ring of a running port, and changes nothing of port and mode when it fails |
| DeunaCommand.BlockRefused | 10.02_devices/2_src/deuna.cpp:1392-1411 | which command blocks are refused outright, with nothing changed |
| DeunaCommand.RingsWritten | 10.02_devices/2_src/deuna.cpp:1517-1540 | the write function takes exactly the blocks with even 18-bit addresses and two receive entries or more, on a port that is not running; the read function then answers with the same block |
| DeunaEffects.AcceptedExactly | 10.02_devices/2_src/deuna.cpp:1517-1527 | exactly which ring formats are accepted |
| DeunaEffects.RingsSetUp | 10.02_devices/2_src/deuna.cpp:1528-1535 | the rings an accepted format sets up |
| DeunaCommand.RingsReadBack | 10.02_devices/2_src/deuna.cpp:1503-1516 | the read function leaves the ring format in the host's block, if that answers |
| DeunaCommand.FormatWritesBack | 10.02_devices/2_src/deuna.cpp:1503-1540 | a block read and written back sets the same rings |
| DeunaCommand.ModeReadBack | 10.02_devices/2_src/deuna.cpp:1589-1606 | the mode in force is found where the mode parameter was |
| DeunaCommand.AllArmedAt | 10.02_devices/2_src/deuna.cpp:1325-1337 | memory after a start, byte by byte: the ownership bit of every receive entry that answers, and nothing else |
| DeunaCommand.StartOwns | 10.02_devices/2_src/deuna.cpp:1325-1337 | so each such entry is the controller's |
| DeunaCommand.BootLoads | 10.02_devices/2_src/deuna.cpp:1161-1178 | the boot image arrives if and only if all of its words answer in range, and then whole |
| DeunaRing.EntryFits | 10.02_devices/2_src/deuna.cpp:1852-1853 | no entry address overflows 32 bits |
| DeunaController.StepKeeps | 10.02_devices/2_src/deuna.cpp:1271-1384 | every command, arrival, walk and host write keeps the indices in their rings |
| DeunaController.RingsFixed | 10.02_devices/2_src/deuna.cpp:1517-1540 | over any run that stays running the rings are fixed and the indices inside them |
| DeunaController.Deuna.PortCommand | 10.02_devices/2_src/deuna.cpp:1271-1384 | the command switch - polling demand, block address, command block, boot, state changes with the ownership a start hands out - is the command function |
| DeunaController.Deuna.ExecuteCommand | 10.02_devices/2_src/deuna.cpp:1392-1692 | reading the block and dispatching on its code is the block function |
| DeunaController.Deuna.ArmReceive | 10.02_devices/2_src/deuna.cpp:1325-1337 | the loop over the receive ring is the function the memory lemma is about |
| DeunaController.Deuna.ProcessBootrom | 10.02_devices/2_src/deuna.cpp:1161-1178 | the loop over the pieces is the function the boot lemma is about |
| DeunaController.CommandAnswered | 10.02_devices/2_src/deuna.cpp:1271-1384 | with PCEI newly up nothing but answer and guest memory changed; without it the command is done, the port in the state asked for, and rings change only by a block outside the running state or by a reset |
| DeunaEffects.StartEffect | 10.02_devices/2_src/deuna.cpp:1319-1340 | a start of a ready port runs it and takes every receive entry that answers; otherwise only the answer changes |
| DeunaEffects.ResetEffect | 10.02_devices/2_src/deuna.cpp:689-742 | what a reset leaves |
| DeunaEffects.StateEffect | 10.02_devices/2_src/deuna.cpp:1311-1358 | the port's state after stop, halt and self-test |
| DeunaEffects.AddressEffect | 10.02_devices/2_src/deuna.cpp:1305-1369 | the command block's address, and the boot image in guest memory with the answer that goes with it |
| DeunaEffects.AcknowledgeEffect | 10.02_devices/2_src/deuna.cpp:838-856 | the host clears exactly the bits it acknowledges |
| DeunaEffects.ModeBits | 10.02_devices/2_src/deuna.cpp:1897-2097 | which bits of the mode word the walks go by |
| DeunaController.ArrivalLoses | 10.02_devices/2_src/deuna.cpp:1720-1737 | a frame is lost, counted and reported exactly when one comes on top of a full queue, and it is the oldest |
| DeunaEffects.ArrivalQueues | 10.02_devices/2_src/deuna.cpp:1699-1737 | the queue after an arrival, byte by byte for the new frame: cut to 1514, zeros up to 60, four more for the check characters |
| DeunaController.Deuna.EnqueueReadq | 10.02_devices/2_src/deuna.cpp:1699-1738 | staging, padding, and the loss of the oldest frame with its count and RCBI |
| DeunaController.Deuna.ProcessReceive | 10.02_devices/2_src/deuna.cpp:1820-1955 | the receive method computes the walk the lemmas are about |
| DeunaController.Deuna.FillRing | 10.02_devices/2_src/deuna.cpp:1845-1950 | the ring loop terminates and is the walk |
| DeunaReceive.WalkDisciplined | 10.02_devices/2_src/deuna.cpp:1845-1950 | only entries read as owned are written back, with ownership cleared, one after the other round the ring and at most the limit |
| DeunaReceive.WalkConserves | 10.02_devices/2_src/deuna.cpp:1845-1950 | undelivered bytes before = bytes taken by the entries in order ++ undelivered after |
| DeunaReceive.ChainedLosesNothing | 10.02_devices/2_src/deuna.cpp:1897-1912 | with data chaining every byte taken went into a buffer |
| DeunaReceive.StatusDecodes | 10.02_devices/2_src/deuna.cpp:1878-1930 | start, end, length, truncation and loopback as the host reads them |
| DeunaReceive.HandedBackAt | 10.02_devices/2_src/deuna.cpp:1885-1935 | memory after an entry is handed back, byte by byte |
| DeunaReceive.WalkFrame | 10.02_devices/2_src/deuna.cpp:1845-1950 | a walk, however it ends, changes nothing outside the buffers it filled or was interrupted in and the entries it handed back |
| DeunaReceive.NthIs | 10.02_devices/2_src/deuna.cpp:1937-1939 | the entries filled are consecutive modulo the ring length |
| DeunaReceive.EnqueueKeeps | 10.02_devices/2_src/deuna.cpp:1699-1738 | the queue keeps its limit and its frames their lengths |
| DeunaController.Deuna.ProcessTransmit | 10.02_devices/2_src/deuna.cpp:1963-2183 | the transmit method computes the walk the lemmas are about |
| DeunaController.TransmitInterrupts | 10.02_devices/2_src/deuna.cpp:1963-2183 | TXI exactly if it stood or an entry was handed back, SERI exactly if it stood, something did not answer or the entries are too short |
| DeunaController.ReceiveInterrupts | 10.02_devices/2_src/deuna.cpp:1820-1955 | RXI exactly if it stood or an entry that ends a frame was handed back, SERI likewise |
| DeunaController.Deuna.SendRing | 10.02_devices/2_src/deuna.cpp:2007-2175 | the loop terminates despite its jumps, with at most two fetches per entry handled and two more |
| DeunaController.Deuna.FindOwnedDesc | 10.02_devices/2_src/deuna.cpp:1987-2001 | finds the first owned entry that answers, if there is one |
| DeunaTransmit.WalkDisciplined | 10.02_devices/2_src/deuna.cpp:2007-2175 | only owned entries are written back, with ownership cleared; the index stays in the ring; message lengths stay within 60 and 1514 |
| DeunaTransmit.WalkStops | 10.02_devices/2_src/deuna.cpp:2020-2046 | a walk that stops for want of work leaves no owned entry that answers |
| DeunaTransmit.StatusDecodes | 10.02_devices/2_src/deuna.cpp:2097-2139 | retry, match and error bits say what became of the frame |
| DeunaMessages.MessageReported | 10.02_devices/2_src/deuna.cpp:2053-2139 | the error bits of a message's last entry, from the lengths in all of its entries, the padding mode, the link and the match |
| DeunaMessages.LengthsJudged | 10.02_devices/2_src/deuna.cpp:2060-2087 | a message is a runt exactly if shorter than 60 with no padding allowed, and a giant exactly if longer than 1514 or filling that before its last entry |
| DeunaTransmit.WalkFrame | 10.02_devices/2_src/deuna.cpp:2007-2175 | a transmit walk changes only status words of entries it handed back |
| DeunaTransmit.OwnedAgree | 10.02_devices/2_src/deuna.cpp:1987-2020 | the four-word probe and the full read agree on the owner, so a jump is followed by an entry handled or an exit |
| DeunaTransmit.JumpsForever | 10.02_devices/2_src/deuna.cpp:2020-2046 | a host that writes meanwhile can make every turn a jump: two entries, taken back and handed over in turn |
| Dhv11.StepEnds | 10.02_devices/2_src/dhv11.cpp:447-523 | short of a bus reset a running test ends exactly at a CSR read that brings the polls to the target or at a tick that uses up the fallback; then the FIFO is exactly the eight codes and every channel at its defaults |
| Dhv11.RunKeepsOk | 10.02_devices/2_src/dhv11.cpp:380-523 | in every reachable state master reset, pending and diagnostic-fail are equal, the timers in range, the CSR reads the state |
| Dhv11.FifoFills | 10.02_devices/2_src/dhv11.cpp:488-571 | from the start of a test and while it runs, the FIFO stays empty if and only if no line character, report request or wrapped character comes |
| Dhv11.StepFills | 10.02_devices/2_src/dhv11.cpp:524-571 | during a test an event fills an empty FIFO if and only if it is one of those |
| Dhv11.FifoFillsDuringTest | 10.02_devices/2_src/dhv11.cpp:478-571 | a report request during the test puts a code into the FIFO |
| Dhv11Channels.HostReads | 10.02_devices/2_src/dhv11.cpp:293-304 | under every interleaving the host reads the FIFO entries kept, in order and once: a reset or the end of a test replaces those waiting, an arrival on a full FIFO takes the place of the newest, marked |
| Dhv11Channels.StepFills | 10.02_devices/2_src/dhv11.cpp:524-571 | the FIFO after every event: line characters, reports, programmed characters and transfers that loop back |
| Dhv11Channels.CharDecodes | 10.02_devices/2_src/dhv11.cpp:543-546 | an entry decodes to its line and character |
| Dhv11Channels.StepTells | 10.02_devices/2_src/dhv11.cpp:306-311 | TX.ACTION, the line it names and the control bits after every event |
| Dhv11Channels.StepWrites | 10.02_devices/2_src/dhv11.cpp:555-608 | every channel register after every event, the launch of a transfer included |
| Dhv11Channels.ReplacedChannels | 10.02_devices/2_src/dhv11.cpp:418-430 | every channel after a reset or the end of a test |
| Dhv11Channels.SkipTold | 10.02_devices/2_src/dhv11.cpp:467-476 | a running test is a short one exactly if the skip pattern was written to a register but the CSR since it began |
| Dhv11Channels.AccessHolds | 10.02_devices/2_src/dhv11.cpp:457-462 | every access holds the fallback off for four ticks |
| Dhv11.PollsAreReads | 10.02_devices/2_src/dhv11.cpp:507-517 | the polls are the CSR reads since the reset, so the test has ended by the 176000th |
| Dhv11.ReadEnds | 10.02_devices/2_src/dhv11.cpp:507-517 | once the target is reached, also by a late skip request, the next CSR read ends the test |
| Dhv11.SilenceEnds | 10.02_devices/2_src/dhv11.cpp:700-714 | in silence the test ends with exactly the last tick the hold-off and the fallback count |
| Dhv11.SilenceBound | 10.02_devices/2_src/dhv11.cpp:463-476 | that is 5000 ticks untouched, at most 5004 after an access, at most 44 once a skip was asked for |
| Dhv11.CodesDecode | 10.02_devices/2_src/dhv11.cpp:380-396 | each code word is valid, diagnostic and numbered, and the fillers tell a skipped test |
| Dhv11.Multiplexer.LoadSelftestCodes | 10.02_devices/2_src/dhv11.cpp:380-396 | the loop builds the eight words |
| Dhv11.Multiplexer.CompleteSelftest | 10.02_devices/2_src/dhv11.cpp:400-415 | completion as the function says |
| Dhv11.Multiplexer.RxFifoPush | 10.02_devices/2_src/dhv11.cpp:296-304 | a full FIFO gives up its newest entry for one marked overrun |
| Dhv11.Multiplexer.NoteWrite | 10.02_devices/2_src/dhv11.cpp:463-477 | the hold-off and the skip pattern |
| Dhv11.Multiplexer.CsrDato | 10.02_devices/2_src/dhv11.cpp:478-506 | a CSR write is one step |
| Dhv11.Multiplexer.CsrDati | 10.02_devices/2_src/dhv11.cpp:507-523 | a CSR read is one step |
| Dhv11.Multiplexer.WorkerTick | 10.02_devices/2_src/dhv11.cpp:700-714 | a tick is one step |
| Dhv11.Multiplexer.LprDato | 10.02_devices/2_src/dhv11.cpp:555-571 | an LPR write with its report request is one step; channels above 7 change nothing |
| Dhv11.Multiplexer.IndexedDato | 10.02_devices/2_src/dhv11.cpp:572-608 | a write of another indexed register is one step; channels above 7 change nothing |

## Left out

- DELQA: packets evicted while a receive walk is under way (a walk is one step, with the CSR fixed during it), the boot ROM contents, the PROM checksum, the carrier and sanity timers, the turn of the worker that takes up a pending delivery or boot request, and the frame a transmit length of four gigabytes would allocate.
- DEUNA: transmitted bytes, so padding, the source address put into a frame, and reading an odd address with an even length (one word short) do not appear; a frame looped back is an arrival of arbitrary bytes.
- DEUNA: statistics but the frames lost, the other bits of PCSR0, the command block's functions for addresses, counters, system identification and microcode (their outcome and the memory they leave are a parameter), the interrupt enable interlock, and the order of queued register writes.
- DEUNA: a start over receive entries of one or two words writes past the words read; the model leaves such a ring alone.
- DeunaController.Deuna.SendRing: the host does not write during the walk; one that does can keep the loop going, which `DeunaTransmit.JumpsForever` shows.
- DZ: modem control, line speeds, TCP lines and lamps; what a line does with a character once it is taken.
- DHV11: transmit output, transfer contents, interrupt requests, modem status.
- Dhv11.Multiplexer.LprDato: with a channel number above 7 the device writes past its eight channels; the model changes no channel there.
- Dhv11.Multiplexer.IndexedDato: the same holds for the other indexed registers.
- KE11: reads (always zero), the DATI copies of AC and MQ, and how a byte write fills the other half of a word.
- KW11-P: changes of the line frequency while running; rate, direction and FIX used on a running clock are modelled as the code does them and left out of the counting theorems, FIX also of `Kw11p.DropsExactly`.
- Display register: the switches, and the display parameter itself; the two threads' atomic operations are taken in one total order.
- KW11-L: the interrupt and monitor bits, and the switch that silences the clock.
- Bus INIT while an access is under way, device parameters, logging, GPIO, thread start and stop.
- Processors (`cpu*.cpp`, `cpuvax.cpp`), the bus adapter and the PRU programs are not part of this model.
