# Reliable transfer, CRC-32 and learning switches

A Dafny model, with proofs, of three parts of a set of computer-network programs.

**Reliable transfer (RTP over UDP).** `Crc32`, `Words`, `Rtp` and `Segments` describe checksums, packets and
file segments, and `Layout` every message byte by byte. `Sender` and `Receiver` say what one round of either
side's loop does, and `SenderRounds` what a sender's round comes to; `SenderProgram` and `ReceiverProgram` are
the C programs as classes whose loops work in place on their globals and arrays, proved against those functions.
`Transfer` puts a sender, a receiver and two channels together as a step system over datagrams, in both modes of
the protocol: `Basic` (`sendMessage`, `recvMessage`: cumulative ACKs, restart at `send_base`) and `Opt`
(`sendMessageOpt`, `recvMessageOpt`: selective ACKs, selective retransmission). A channel never forgets a message, so it may lose, delay,
reorder and repeat; a damaged message may be any bytes that the test at the other end rejects.
`TransferSafety`, `TransferBounds`, `TransferProgress`, `TransferRecovery`, `TransferRuns`, `TransferEnd` and
`TransferPrograms` prove what holds over every run and carry it back to the classes.

**CRC-32.** `Crc32` defines the checksum bit by bit as in section 3.2.9 of IEEE 802.3 (the same code as
section 8 of RFC 1952) and proves that the complemented, lazily filled table of `util.c` computes it and
which damage it detects.

**Learning switch.** `SwitchTable` is the behaviour on an address table, `Switch` the class over its array
(the learning process and filtering database of sections 7.8 and 7.9 of IEEE 802.1D), `SwitchHistory` what
the table means in terms of the frames received, and `Trees`, `SwitchedTree` and `TreeDelivery` a whole
tree of such switches with hosts at its leaves, in which frames, copies and ageing interleave freely.

Assumptions of the transfer model, each of them stated in its definitions:

- one session, with `send_base`, `next_seq_num` and `recv_base` starting at 0 and the handshake done, so no
  START and no ACK of a START is in flight (`Transfer.Start`);
- both sides use the same window, at least 1, and segments plus window fit the receiver's 80000 slots
  (`Transfer.Fits`); the promised 100 MB and window of 512 do (`TransferBounds.PromisedSizesFit`);
- END is sent once, after the sender's loop has ended; the sender's timer may expire at any time once the
  first packet has been sent; the receiver's ten-second abort is a run that goes no further;
- damaged datagrams keep a length field of at most 1461: the C code reads past its buffer otherwise.

Where documents and code differ, the model follows the code:

- `Lab2.md:32` asks for an END number equal to the next packet's, which for a finished file is `seg_len`.
  The code sends `send_base`, which can be larger, because the sender does not stop at the last segment and
  numbers empty packets after it. `TransferEnd.EndNumber` gives the exact condition: the two agree in every
  run if and only if the window is 1. The data is complete either way.
- `Lab2.md:32` also asks for an ACK of the END with the END's number. The receiver answers `recv_base`, which is
  larger when an empty packet with the END's number has arrived. `TransferEnd.EndAnswerIs` says when the two
  agree, and `TransferEnd.EndAckNumber` that they do in every run if and only if the window is 1.
- `Lab2.md:167` asks the Opt receiver to drop data at or past the end of its window. The code
  acknowledges every intact DATA packet without that test. `TransferBounds.DataBelowReceiverWindow` and
  `TransferBounds.SelectiveAcksSound` prove that no such packet can arrive and no acknowledged segment is lost.
- `types.h` is not part of this model. The data and control types are 0 and 1 as in `lab4.md:144-145`; the
  code calls the second one `ETHER_CONTROL_TYPE`.
- A full switch table silently learns no new address; `SwitchHistory.AgreesExactlyWithRoom` says for each
  history, and `SwitchHistory.CapacityIsEnough` for each set of addresses, exactly when this does not happen.

Calls of `compute_checksum` inside the two programs are written as the function `Crc32.Checksum`, which
`Crc32.Calculator.ComputeChecksum` is proved to return.

## Model

| member | source | states |
|---|---|---|
| Crc32.Crc32ForByte | Lab2/My Codes/util.c:4-8 | the eight-step loop returns the table entry for its argument |
| Crc32.EntryIsStandard | Lab2/My Codes/util.c:4-8 | the entry for i is the standard entry for i xor 0xFF, with the top byte complemented |
| Crc32.FilledTableIsNonzero | Lab2/My Codes/util.c:12-12 | the first entry of a filled table is 0xD202EF8D, so the test for an unfilled table is sound |
| Crc32.TableStep | Lab2/My Codes/util.c:15-16 | one table step on a register complements to eight bit steps of the standard register on the complement |
| Crc32.Calculator.Fill | Lab2/My Codes/util.c:13-14 | filling gives every entry and makes the first one nonzero |
| Crc32.Calculator.Update | Lab2/My Codes/util.c:10-17 | for every message and start value, with the table filled or not, the result is the complement of the standard register run from the complement |
| Crc32.Calculator.ComputeChecksum | Lab2/My Codes/util.c:19-23 | the checksum of every byte string is standard CRC-32: register all ones, one bit at a time, final complement |
| Crc32.RegisterInjective | Lab2/My Codes/util.c:15-16 | different registers stay different over any common message |
| Crc32.BurstDetected | Lab2/My Codes/util.c:4-23 | two equally long messages of any length that differ only within four consecutive bytes have different checksums |
| Rtp.HeaderRoundTrip | Lab2/My Codes/rtp.h:22-27 | reading the packed little-endian header back gives every field, for all fields in range |
| Rtp.HeaderBytesRoundTrip | Lab2/My Codes/rtp.h:22-27 | every eleven bytes are the layout of the header read from them |
| Rtp.HeaderLayout | Lab2/My Codes/rtp.h:22-27 | every byte of the header of any fields: type, two length bytes, four number bytes and four checksum bytes, the least significant first |
| Layout.DataOnWire | Lab2/My Codes/sender_def.c:101-113 | every byte of a DATA message: type 2, length, number, the checksum over the message with that field cleared, and the bytes of its segment |
| Layout.EndAndAckOnWire | Lab2/My Codes/rtp.h:15-18 | the same for END, type 1, and ACK, type 3, with nothing after the header |
| Layout.ReceivedPacket | Lab2/My Codes/receiver_def.c:177-184 | the fields, content and checksum test the receiver reads from any datagram, in terms of its bytes followed by zeros |
| Layout.AcksAre | Lab2/My Codes/sender_def.c:242-261 | the sender reads a number from any message exactly if one of its consecutive eleven-byte headers has type 3, that number and the right checksum |
| Rtp.PacketRoundTrip | Lab2/My Codes/sender_def.c:101-113 | for every number and payload of up to 1461 bytes the received structure equals the sent one and passes the checksum test |
| Rtp.HeaderAsPacket | Lab2/My Codes/sender_def.c:48-58 | a header sent alone reads back unchanged, passes its test, and is the packet with an empty payload |
| Rtp.DamagedPacketRejected | Lab2/My Codes/receiver_def.c:178-184 | a packet changed within four consecutive bytes of its type, number, checksum or payload fails the receiver's test |
| Rtp.DamagedHeaderRejected | Lab2/My Codes/sender_def.c:245-248 | an ACK changed within four consecutive bytes before or inside its checksum fails the sender's test |
| Segments.JoinedIsPrefix | Lab2/My Codes/sender_def.c:101-113 | the first k segments joined are the first 1461 * k bytes of the file, or all of it |
| Segments.SegmentLengths | Lab2/My Codes/sender_def.c:94-104 | all segments before the last are full, the last has the remaining bytes, later ones are empty |
| Segments.SegmentBytes | Lab2/My Codes/sender_def.c:94-104 | there are size / 1461 + 1 segments, and segment s is the bytes of the file from 1461 * s to 1461 * (s + 1) - 1, as far as they exist |
| Segments.RoundTrip | Lab2/My Codes/sender_def.c:94-113 | joining all size / 1461 + 1 segments gives the file; the last one is shorter than 1461 |
| SenderProgram.RtpSender.TransmitNext | Lab2/My Codes/sender_def.c:344-362 | the sending part of either loop: what is sent and the new counters, as the round function says |
| SenderProgram.RtpSender.ReceiveAcks | Lab2/My Codes/sender_def.c:239-261 | the ACK loop raises send_base to the accepted numbers of a message of any length |
| SenderProgram.RtpSender.ReceiveSelectiveAcks | Lab2/My Codes/sender_def.c:366-381 | the ACK loop marks exactly the accepted numbers in acked[] |
| SenderProgram.RtpSender.SlideBase | Lab2/My Codes/sender_def.c:384-388 | send_base moves to the first unmarked number and nothing else changes |
| SenderProgram.RtpSender.SendAgain | Lab2/My Codes/sender_def.c:115-129 | sends the messages of the unmarked numbers from send_base to next_seq_num - 1, in order |
| SenderProgram.RtpSender.RoundOpt | Lab2/My Codes/sender_def.c:339-406 | one round of the selective loop is one step of the round function, in bounds |
| SenderRounds.BasicRound | Lab2/My Codes/sender_def.c:216-280 | what a round of the cumulative loop sends and leaves, for every state and event: the segment at next_seq_num if it is in the window, the largest number read, and the restart at send_base after a timeout |
| SenderRounds.OptCounters | Lab2/My Codes/sender_def.c:339-388 | the counters and marks a round of the selective loop leaves, for every state and event |
| SenderRounds.OptRound | Lab2/My Codes/sender_def.c:339-406 | the messages of such a round: the new segment if the window is open, then after a timeout the unmarked segments from send_base to next_seq_num - 1, each once and in increasing order |
| SenderRounds.TimeoutSendsWindow | Lab2/My Codes/sender_def.c:395-405 | in every reachable state a timeout of the selective loop resends exactly those |
| SenderProgram.RtpSender.SendMessage | Lab2/My Codes/sender_def.c:197-287 | the cumulative loop over any events ends in the state, and has sent the messages, of the loop function |
| SenderProgram.RtpSender.SendMessageOpt | Lab2/My Codes/sender_def.c:321-410 | the same for the selective loop, after clearing acked[] |
| ReceiverProgram.RtpReceiver.StorePacket | Lab2/My Codes/receiver_def.c:187-195 | caches a packet inside the window and only there |
| ReceiverProgram.RtpReceiver.DrainCache | Lab2/My Codes/receiver_def.c:214-219 | the writing loop, on the arrays and the output |
| ReceiverProgram.RtpReceiver.HandlePacket | Lab2/My Codes/receiver_def.c:292-339 | what either loop does with one packet: new state, replies, and whether it stops |
| ReceiverProgram.RtpReceiver.RecvMessage | Lab2/My Codes/receiver_def.c:138-238 | the loop over any arrivals; returns the size written if an END was accepted and -1 otherwise |
| Receiver.DrainToFirstGap | Lab2/My Codes/receiver_def.c:334-339 | recv_base moves to the first number not cached and exactly the cached payloads before it are written, in order |
| Receiver.CachedOnlyInWindow | Lab2/My Codes/receiver_def.c:299-310 | only an intact DATA packet inside the window changes the cache, and only its own slot |
| Receiver.ClosingPacket | Lab2/My Codes/receiver_def.c:198-212 | an intact packet of type 1 numbered at most recv_base stops the loop and is answered with recv_base; nothing else stops it |
| Receiver.OtherPacket | Lab2/My Codes/receiver_def.c:178-226 | the cache, recv_base, output and answer after any other packet, in both modes |
| TransferSafety.RaiseBaseIsMax | Lab2/My Codes/sender_def.c:242-261 | cumulative ACKs leave send_base at the largest of its old value and all their numbers |
| TransferSafety.MarkIsUnion | Lab2/My Codes/sender_def.c:368-381 | selective ACKs leave marked exactly what was marked or is among their numbers |
| TransferSafety.AckOrderIrrelevant | Lab2/My Codes/sender_def.c:368-388 | two sequences with the same ACK numbers, in any order and repetition, give the same base and marks |
| TransferPrograms.MessageOrderIrrelevant | Lab2/My Codes/sender_def.c:366-388 | the same for whole messages read one after the other with a drain after each |
| TransferSafety.ResendIsOriginal | Lab2/My Codes/sender_def.c:115-129 | a message is retransmitted if and only if it is the segment message of an unmarked number of the window |
| TransferSafety.TickKeeps | Lab2/My Codes/sender_def.c:395-405 | a timeout keeps the invariant, and in Opt puts no message on the channel that was not sent before |
| TransferSafety.TransmitKeeps | Lab2/My Codes/sender_def.c:218-236 | sending keeps the invariant, also past the end of the file, and the timer is running afterwards |
| TransferSafety.AbsorbKeeps | Lab2/My Codes/sender_def.c:366-388 | reading any ACK message keeps the invariant; send_base never passes recv_base |
| TransferSafety.DeliverKeeps | Lab2/My Codes/receiver_def.c:287-342 | receiving any datagram in flight keeps the invariant, including the ACKs it causes |
| TransferSafety.StepKeeps | Lab2/My Codes/sender_def.c:216-280 | every step of the whole system keeps the invariant |
| TransferSafety.RunKeeps | Lab2/My Codes/receiver_def.c:162-229 | so does every run |
| TransferSafety.DamagedDataAllowed | Lab2/My Codes/receiver_def.c:181-184 | every burst the checksum detects is among the damage the runs allow towards the receiver |
| TransferSafety.DamagedAckAllowed | Lab2/My Codes/sender_def.c:245-248 | and towards the sender |
| TransferSafety.OutputIsPrefix | Lab2/My Codes/receiver_def.c:214-219 | over every run the bytes written are segments 0 to recv_base - 1, a prefix of the source file |
| TransferSafety.OutputIsFile | Lab2/My Codes/receiver_def.c:318-332 | when the receiver has stopped at an END, in either mode, it has written exactly the file |
| TransferSafety.FinishedMeansDelivered | Lab2/My Codes/sender_def.c:218-219 | when the sender's loop has ended the whole file is already written |
| TransferBounds.DataBelowReceiverWindow | Lab2/My Codes/receiver_def.c:299-310 | every intact segment in flight is numbered below recv_base + window, at every moment of every run |
| TransferBounds.SelectiveAcksSound | Lab2/My Codes/receiver_def.c:299-315 | Opt: a number marked at the sender is cached at the receiver with the right content |
| TransferBounds.OptWindow | Lab2/My Codes/sender_def.c:341-388 | Opt: send_base is the least unmarked number, is at most next_seq_num, which is at most send_base + window; the catch-up never acts |
| TransferBounds.TransmitsWithinWindow | Lab2/My Codes/sender_def.c:221-229 | a segment sent is within the window and at most window - 2 past seg_len |
| TransferBounds.BasesWithinWindow | Lab2/My Codes/receiver_def.c:214-219 | recv_base is never behind send_base and never more than a window ahead of it |
| TransferRuns.NeverBehindExactly | Lab2/My Codes/sender_def.c:263-278 | next_seq_num is at least send_base in every reachable state if and only if the mode is Opt or the window is 1; otherwise a run that takes it behind is given |
| TransferBounds.OutstandingFitsWindow | Lab2/My Codes/sender_def.c:221-278 | at most window different numbers at or above send_base have been sent, despite resets and jumps |
| TransferBounds.OverrunHarmless | Lab2/My Codes/sender_def.c:218-229 | intact segments in flight are numbered at most seg_len + window - 2, are empty from seg_len on, and both bases stay at most seg_len + window - 1 |
| TransferBounds.ProgramsInBounds | Lab2/My Codes/receiver_def.c:29-30 | in every reachable state every array access of either loop is in bounds and no 32-bit sum or product wraps |
| TransferBounds.NothingTakenBack | Lab2/My Codes/sender_def.c:253-257 | send_base, recv_base and the written bytes only grow, and an end is final |
| TransferRecovery.TimeoutResends | Lab2/My Codes/sender_def.c:263-278 | in every run, from a round with a timeout to any later round, whatever comes in between and also when next_seq_num was behind send_base, send_base moves or the segment it stands at is sent again |
| TransferRecovery.AnswerMovesBase | Lab2/My Codes/sender_def.c:239-261 | in every run, once the segment at send_base has been delivered, any later round that reads the ACK sent for it leaves send_base past it |
| TransferRecovery.RecoveriesMoveBase | Lab2/My Codes/sender_def.c:216-280 | in every run from every reachable state, each timeout followed by a round without loss, with any other steps in between, raises send_base by at least one |
| TransferRecovery.Completes | Lab2/My Codes/sender_def.c:216-280 | every run with as many of these as there are unacknowledged segments ends the sender's loop with the whole file written, and no run has more |
| TransferRecovery.CanRecover | Lab2/My Codes/sender_def.c:263-278 | in every unfinished reachable state the next four steps can be one |
| TransferRecovery.NeverStuck | Lab2/My Codes/sender_def.c:216-280 | every run can be continued to the END and the complete delivery of the file within four steps a segment and two more |
| TransferEnd.EndOvershoots | Lab2/My Codes/sender_def.c:293-297 | for every file and window of at least 2, in either mode, a run whose END number is larger than seg_len |
| TransferEnd.EndNumber | Lab2/My Codes/sender_def.c:293-297 | the END number is seg_len in every run if and only if the window is 1 |
| TransferEnd.EndAnswerIs | Lab2/My Codes/receiver_def.c:318-332 | the END is answered with recv_base, which is the END's number exactly when the segment of that number was not received |
| TransferEnd.EndAckNumber | Lab2/My Codes/receiver_def.c:326-326 | END and its ACK carry the same number in every run if and only if the window is 1 |
| TransferPrograms.SenderRunsItsLoop | Lab2/My Codes/sender_def.c:216-280 | after every run the sender is where its loop gets from the events of the run, in bounds throughout |
| TransferPrograms.ReceiverRunsItsLoop | Lab2/My Codes/receiver_def.c:277-346 | the same for the receiver and its arrivals |
| TransferPrograms.DataIsWhatWasSent | Lab2/My Codes/sender_def.c:216-280 | after every run the channel to the receiver holds exactly what the sender's loop has sent, the END, and the damaged messages |
| TransferPrograms.AcksAreWhatWasSent | Lab2/My Codes/receiver_def.c:277-346 | after every run the channel to the sender holds exactly the receiver's replies and the damaged messages |
| TransferPrograms.ReplaySender | Lab2/My Codes/sender_def.c:321-410 | the sender class fed the events of any run reaches that run's state and has sent the messages on its channel; when it has sent everything the file is delivered |
| TransferPrograms.ReplayReceiver | Lab2/My Codes/receiver_def.c:256-355 | the receiver class fed the arrivals of any run reaches that run's state, sends the ACKs on its channel, and writes a prefix of the file, and all of it, returning its size, exactly when the run has ended |
| SwitchTable.CapacityIsSlots | Lab4/My Codes/switch.cc:82-92 | the table has room for a row exactly when the array has a free entry |
| Switch.MySwitch.InitSwitch | Lab4/My Codes/switch.cc:25-36 | the table starts empty, with PortNum + 1000 slots |
| Switch.MySwitch.AgeEntries | Lab4/My Codes/switch.cc:49-57 | every lifetime falls by one, rows at one disappear, the array stays well formed |
| Switch.MySwitch.Refresh | Lab4/My Codes/switch.cc:69-79 | tells whether the source has a row and renews exactly that row, with its in-port and lifetime 10 |
| Switch.MySwitch.Insert | Lab4/My Codes/switch.cc:80-93 | adds a row of lifetime 10 when there is a free slot and changes nothing otherwise |
| Switch.MySwitch.Find | Lab4/My Codes/switch.cc:94-104 | the port of the destination's row, or 0 |
| Switch.MySwitch.ProcessFrame | Lab4/My Codes/switch.cc:38-113 | new table and returned port for every frame: a frame of the wrong type for its port returns -1 and changes nothing, a control frame ages the table and returns -1, a data frame learns its source and returns 0 for an unknown destination, -1 for one behind its own port, and the port otherwise; distinct addresses, lifetimes 1 to 10 and ports above 1 are kept, also when the table is full |
| SwitchHistory.RowsAreLatest | Lab4/My Codes/switch.cc:49-93 | after any frames, a row holds the in-port of the latest data frame from its address and lifetime 10 minus the ageings since |
| SwitchHistory.AgreesExactlyWithRoom | Lab4/My Codes/switch.cc:49-93 | for every frame sequence: the table holds exactly the addresses seen less than ten ageings ago, throughout, if and only if every address learned finds its row or a free slot, and if and only if there were never more such addresses than slots; slots freed by ageing count again |
| SwitchHistory.FreshHasRow | Lab4/My Codes/switch.cc:80-93 | if insertions have always found a slot, an address seen less than ten ageings ago has a row, however many addresses came before |
| SwitchHistory.LatestIsLast | Lab4/My Codes/switch.cc:73-78 | what the history says of an address is the in-port of its last data frame, by position, and the number of control frames after it |
| SwitchHistory.TenAgeings | Lab4/My Codes/switch.cc:49-57 | an address keeps its row, with the in-port of its last data frame, until the tenth control frame after that frame and never longer |
| SwitchHistory.OutIsExpected | Lab4/My Codes/switch.cc:94-110 | for every such sequence the returned port depends only on the latest data frame from the destination: its port, -1 if that is the in-port, 0 if none is recent; for any sequence it is that port or 0 |
| SwitchHistory.CapacityIsEnough | Lab4/My Codes/switch.cc:28-28 | the table agrees with all histories of frames from a set of addresses if and only if there is a slot for each address |
| SwitchHistory.RunSwitch | Lab4/My Codes/switch.cc:38-113 | the class fed any frames has the table of the history and returns the ports the history tells as long as at most PortNum + 1000 addresses were recent at a time; afterwards it may flood instead |
| Trees.Tree.OneSide | Lab4/Documents/lab4.md:404-404 | removing a link of a tree leaves every other node on exactly one side |
| TreeDelivery.OneSwitchIsSound | Lab4/Documents/lab4.md:367-372 | the documented one-switch network satisfies the assumptions about topologies |
| SwitchedTree.LearnKeepsRoutes | Lab4/My Codes/switch.cc:69-93 | learning from a frame keeps every row of the switch pointing along the tree to its host |
| SwitchedTree.RelayedIsNew | Lab4/My Codes/switch.cc:105-110 | a copy sent on is never one that was on that link before |
| SwitchedTree.RelaysOnward | Lab4/My Codes/switch.cc:94-110 | on the way to the destination the next node always gets a copy, known or flooded |
| SwitchedTree.RunKeeps | Lab4/My Codes/switch.cc:38-113 | the network invariant over every interleaving of sending, relaying, receiving and ageing |
| TreeDelivery.EntriesPointHome | Lab4/My Codes/switch.cc:75-76 | in every reachable state a row points to the neighbour on the unique way to its host |
| TreeDelivery.VisitsOnce | Lab4/My Codes/switch.cc:105-110 | each frame goes to each node at most once and never back to its sender |
| TreeDelivery.DeliveredOnce | Lab4/My Codes/switch.cc:63-111 | when no copy of a frame is left in flight its destination has received it exactly once, whatever was learned, missing or aged out meanwhile |
| TreeDelivery.KnownDestination | Lab4/My Codes/switch.cc:94-110 | a switch with a row for the destination relays to the next node of the way and nowhere else, and drops the frame off the way |
| TreeDelivery.ForwardingEnds | Lab4/My Codes/switch.cc:105-110 | the processing steps of a run are at most the frames sent times the nodes, and a copy in flight can always be processed |
| TreeDelivery.EveryFrameArrives | Lab4/My Codes/switch.cc:63-111 | every run can be continued without new frames, within that bound, until nothing is in flight, and then every frame sent to a host has been received there exactly once |

## Left out

- Sockets, timers, file handles and `stat`: datagrams, events and byte sequences stand for them; a datagram longer than the receive buffer, which `recvfrom` would cut, is not modelled.
- `initSender` and `initReceiver`: the handshake is short and linear and is kept as the initial state.
- The ACK that `terminateSender` waits for: its content changes nothing.
- Damage that changes the RTP length field of a packet, or that straddles the checksum field and its neighbours, is allowed in runs when the test rejects it, but is not proved to be rejected.
- Damage that leaves an intact-looking packet, which a 32-bit checksum cannot exclude.
- Several transfers in one process: the C globals are not reset, and the theorems are about one session.
- Time: the 100 ms and 10 s values, throughput, and how often timeouts happen.
- SenderProgram.RtpSender.TransmitNext: the file position and the stack buffers of `make_rtp_packet` are not state; the segment read is a function of the file and the offset.
- SwitchedTree.RunKeeps: port 1 carries only ageing, a link carries no other traffic, and hosts and links do not change during a run; frames with the sender's own address as destination get no delivery claim.
- Every finite tree can be numbered with parents before children; the model takes trees in this form.
- Lab1 (FTP client and server), Lab3 (only an assignment text), the stub `rtp*.c` files and the logging helpers.
