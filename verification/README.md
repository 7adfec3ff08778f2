# OBD-II stack: verification model

This project models the logic of a Go OBD-II library in Dafny and proves what it is for.
It follows the library's layers from the bottom up.

| file | models |
|---|---|
| can.dfy, obd.dfy, seqs.dfy, sorting.dfy | frames, responses, facts about sequences, stable sorting |
| isotp.dfy, segmentation.dfy, receiver.dfy | the ISO-TP (ISO 15765-2) receiver, the segmentation it inverts, and its behaviour over whole frame histories, with losses, repeats and reordering |
| endpoint.dfy, sender.dfy, conn.dfy | a bus endpoint with a clock, the sender as a state machine over events, and `Conn.Send` and `Conn.Receive` proved against both |
| protocol.dfy | sender and receiver over two queues: invariant, progress, delivery |
| demux.dfy, transport.dfy, broadcast.dfy, delivery.dfy | one receiver per ECU, the CAN transport's round trip, any number of ECUs answering one broadcast, and that this is what the service layer starts from |
| virtualbus.dfy | the in-memory bus as a concurrent object: total order, conservation, wakeups |
| pids.dfy, dtc.dfy, ecusim.dfy | PID sizes and parsing, bitmaps, trouble codes, the simulated ECU |
| vehicle.dfy, readings.dfy, queries.dfy, discovery.dfy, troublecodes.dfy, vin.dfy, client.dfy | a vehicle of simulated ECUs and the client's services on it: combined queries, supported PIDs, trouble codes over runs, the VIN |
| elm327.dfy, canlines.dfy | prompt framing and resynchronization of an ELM327 adapter, and the reassembly of the frames it prints |

Code that changes state is a class or a method with loops, proved against a function or a
relation; theorems about whole runs are lemmas about these. Time is an integer number of
nanoseconds. `context` cancellation and bus errors are events that may happen at any point.

Where the code and its comments disagree, the model follows the code:

* `Close` is documented to make a blocked Receive return. With one Receive on the port it does
  (`NoLostWakeup`); with two, one of them can be left waiting for ever
  (`TwoReceiversLoseWakeup`, `StrandedForEver`). Frames are no different: of two frames for
  two Receives, one can stay in the queue with a Receive waiting beside it
  (`TwoReceiversMissFrame`). The `Bus` interface only asks for one Receive beside Send
  (can/can.go:52-53), so this is a limit on its use.
* `STmin` is documented as rounded to 100 us steps below 1 ms. It is rounded down, and to
  whole milliseconds above, so the peer may leave a shorter gap (`STminHonoured`).
* A simulated ECU's count of trouble codes is one byte and wraps at 256 (`ReportRoundTrip`),
  and a report of more than 2046 codes is never sent. `ReportedInFull` is the exact condition
  for one list of codes, and `ReadingComplete` for what a client reads of a vehicle.
* `resync` takes a timeout to mean that the adapter was idle. It also gives up with the
  caller's own context, from which its timer derives (elm327/elm327.go:231). If output of an
  abandoned command is then still to come when the next command is written, that command
  returns it instead of its own answer, and otherwise everything stays in step
  (`PairingExact`, `OwnAnswers`). It takes a slow adapter (`TimeoutMispairs`) or two
  cancelled calls in a row (`TwoCancelsMispair`).
* The 29-bit ECU address 0xF1 is the tester's own, so an ECU there listens and answers on one
  identifier (`OnlyTesterAddressCollides`). Since a bus gives nobody its own frames
  (can/can.go:49-51), the broadcast theorems hold for it too.
* `Query` is documented to give one reading per PID and ECU. It does if and only if no PID that
  an ECU holds is asked for in two of its requests (`OneReadingExact`). A PID that is given
  twice is read once when both fall into one combined request, and twice otherwise
  (`ReadPerRequest`, `GivenTwice`, `CombiningExact`).

## Model

| member | source | states |
|---|---|---|
| `IsoTp.BuildFrame` | isotp/isotp.go:90-101 | The array loop that copies and pads gives, for every payload and padding mode, the frame that `FrameOf` describes. |
| `IsoTp.FramePayload` | isotp/isotp.go:90-101 | A frame carries its payload as a prefix, followed by padding only, and is full when padding is on. |
| `IsoTp.STminDecodeEncode` | isotp/isotp.go:104-129 | Decoding and encoding STmin is the identity on every byte that is not reserved, and sends reserved bytes to 127 ms. |
| `IsoTp.STminHonoured` | isotp/isotp.go:104-129 | The peer leaves at least the configured gap if and only if the duration is at most 100 us or not rounded down, and at most 127 ms. |
| `IsoTp.FeedStep` | isotp/isotp.go:138-237 | Reachable receiver states are either reset or strictly inside a message; after any error or message the state is the initial one; messages have 1..4095 bytes; the error kinds. |
| `IsoTp.Receiver.Reset` | isotp/isotp.go:157-163 | Resetting gives the initial state. |
| `IsoTp.Receiver.Feed` | isotp/isotp.go:171-237 | The imperative receiver computes exactly the step function, for its new state and all three results, and keeps its invariant. |
| `IsoTp.FeedsAppend` | isotp/isotp.go:171-237 | Feeding a list of frames in two parts is feeding it at once, for the state and for the results. |
| `Segmentation.SegmentsCarryMessage` | isotp/conn.go:32-69 | The data bytes of the first j segments are a prefix of the message, and those of all segments are the message. |
| `Segmentation.SegmentsReassemble` | isotp/isotp.go:171-237 | ISO-TP is the identity on messages: from any receiver state, the frames of any message of 1..4095 bytes, with any padding and block size, leave the receiver reset and return the message once, with flow control after the first frame and at each block end. |
| `Segmentation.OnlyLastIsMessage` | isotp/isotp.go:219-224 | Of the results for a message's frames, only the last is a message. |
| `ReceiverHistory.HistoryState` | isotp/isotp.go:138-145 | After any frame sequence, all five fields are functions of the latest starting frame and the consecutive frames since. |
| `ReceiverHistory.FeedByHistory` | isotp/isotp.go:171-237 | For every frame sequence: exactly when a message comes out and that it is the joined data cut at the announced length, exactly when flow control goes out, and the one cause of each error. |
| `ReceiverHistory.MoveStep` | isotp/isotp.go:209-232 | Inside the 16-frame window, an arriving frame advances the receiver if it is the expected one and resets it otherwise. |
| `ReceiverHistory.WindowSafe` | isotp/isotp.go:186-223 | With any losses, repetitions and reorderings inside the window of the sequence number, every message returned is the original. |
| `ReceiverHistory.WindowTight` | isotp/isotp.go:213-219 | One frame 16 ahead of its turn makes the receiver return a message that was never sent, so the window cannot be wider. |
| `ReceiverHistory.FullDelivery` | isotp/isotp.go:186-223 | An increasing list of frame numbers is at most as long as its range, and if as long, it is the whole range. |
| `ReceiverHistory.LossOnly` | isotp/isotp.go:186-223 | When frames are lost but keep their order, with gaps of any length, the receiver returns the original if nothing was lost and nothing otherwise. |
| `Sender.SenderEmitsPrefix` | isotp/conn.go:32-69 | Against any peer, the frames sent are at every moment a prefix of the pure segmentation, and all of it exactly when Send has finished. |
| `Sender.BlockSizeRespected` | isotp/conn.go:47-67 | Consecutive frames only follow a CONTINUE from the peer, and no more of them than its block size. |
| `Sender.PacedBySTmin` | isotp/conn.go:54-58 | Two consecutive frames of one block are exactly the decoded STmin of the granting flow control apart. |
| `Sender.WaitsCounted` | isotp/conn.go:74-93 | The counter is the number of WAIT frames since the last frame sent, and never above the limit while Send waits. |
| `Sender.FailureHasCause` | isotp/conn.go:77-97 | Each error has one cause in the last event: a failure of the bus, the deadline or one WAIT too many in a row, OVERFLOW, an unknown flow status. |
| `Sender.RunOnTime` | isotp/conn.go:47-100 | At every event of every run, the clock and the deadline are inside the budget of the waits and gaps so far. |
| `Sender.SendTimeBound` | isotp/conn.go:47-100 | A run with B waits for flow control and K consecutive frames takes at most B*(maxWaitFrames+1)*timeout + (K-B)*127 ms, and 1 <= B <= K. |
| `Sender.MessageTimeBound` | isotp/conn.go:32-100 | The same for a message of n bytes: K is ceil((n-6)/7) and at most 585. |
| `Conns.Conn.ReceiveFromPeer` | isotp/conn.go:137-152 | Skips exactly the frames that are not the peer's; reports a frame, the deadline or a failure. |
| `Conns.Conn.WaitFlowControl` | isotp/conn.go:73-100 | The loop over WAIT, junk and bad frames follows the sender's state machine, event by event, to its next state. |
| `Conns.Conn.SendBlock` | isotp/conn.go:53-66 | One block sends consecutive frames from the current offset and sequence number as the state machine does. |
| `Conns.Conn.SendSegmented` | isotp/conn.go:43-68 | The first frame and all blocks are a run of the state machine from its start to success or failure. |
| `Conns.Conn.Send` | isotp/conn.go:32-69 | What each call puts on the bus and returns: length errors without any frame, a single frame, or a run of the state machine that is finished exactly on success. |
| `Conns.Conn.Receive` | isotp/conn.go:105-133 | What Receive returns is what a Receiver makes of the peer's payloads alone; it sends exactly that Receiver's flow control frames; inside a message every frame came within the timeout after the one before, and a timeout is reported inside a message only, exactly the timeout after the peer's last frame in the log. |
| `Protocol.PartyKeeps` | isotp/conn.go:32-133 | Each step of either party keeps the invariant that ties both states and both queues together. |
| `Protocol.NoiseKeeps` | isotp/conn.go:137-152 | So does a frame on another identifier in either queue. |
| `Protocol.OnlyMineMatters` | isotp/conn.go:148-150 | The invariant depends on the queues only through the frames each party accepts. |
| `Protocol.NoDeadlock` | isotp/conn.go:32-133 | Until both sides have succeeded and both queues hold nothing of theirs, one of them can step. |
| `Protocol.PartyDecreases` | isotp/conn.go:32-133 | Each party step decreases a natural-number measure. |
| `Protocol.Delivery` | isotp/conn.go:32-152 | Over every run: neither side fails, nothing but the message is received, the number of party steps is bounded, and when neither can step both have succeeded with no frame of theirs left over. |
| `Addresses.BroadcastRoutesBack` | can_transport.go:85-108 | Answers to a broadcast are recognized for the ECU addresses of the standard, and flow control is routed back to the sender, in both schemes. |
| `Addresses.DirectedRoutesBack` | can_transport.go:85-108 | A directed request goes to its ECU, takes that ECU's answers only, and routes flow control back to it. |
| `Addresses.OnlyTesterAddressCollides` | ecusim/ecusim.go:59-65 | Different ECUs never share an identifier, no ECU's identifiers are the broadcast one, and listening and answering identifiers only coincide for the 29-bit address 0xF1 with itself. |
| `Demux.Independent` | can_transport.go:182-210 | While no Feed fails, the demultiplexed run gives each identifier the state, messages and flow controls of one Receiver on that identifier's own frames. |
| `Demux.FailsTogether` | can_transport.go:187-195 | The run fails exactly when some identifier's own run does. |
| `Demux.InterleavingsAgree` | can_transport.go:154-214 | Two interleavings with the same frames per identifier both fail, or give every identifier the same messages and flow controls. |
| `Demux.CompletionOrder` | can_transport.go:210-214 | The messages of a prefix of the frames are a prefix of the messages. |
| `Transport.HeardStep` | can_transport.go:182-214 | What one accepted frame changes: receiver, due time, responses, error and flow control sent. |
| `Transport.CANTransport.Latest` | can_transport.go:157-162 | The loop over the ECU map finds the end of the window or the latest due time, whichever is later. |
| `Transport.CANTransport.Hear` | can_transport.go:182-209 | The ECU's receiver and deadline after a frame are those of the log; the deadline is set anew by every frame. |
| `Transport.CANTransport.Listen` | can_transport.go:145-219 | Ends with exactly the responses of the demultiplexed run; every event came by the deadline in force then, or was queued already; the end is at the later of the deadline and the last event, or when directed at the first answer that is not pending; each flow control went to the identifier of the ECU that caused it. |
| `Transport.CANTransport.RoundTripOn` | can_transport.go:115-219 | Which requests are refused, exactly what is put on the bus for the others, and how listening after that ends. |
| `Transport.CANTransport.RoundTrip` | can_transport.go:63-80 | The bus sees one attempt, or two one after the other, each a whole round trip on its addressing; the second, with 29-bit identifiers, exactly when the first, with 11-bit ones, found nobody; the last one's result is returned, and an addressing that worked is kept. |
| `Broadcast.FlowControlReachesItsEcu` | can_transport.go:178-192 | The tester's flow control for a frame is accepted by the ECU that sent the frame and by no other. |
| `Broadcast.HeardBySender` | can_transport.go:182-214 | Seen from the ECU that sent it, the tester taking a frame is the receiver step of the two-party protocol. |
| `Broadcast.HeardByOther` | can_transport.go:182-214 | Seen from every other ECU, it is noise. |
| `Broadcast.PartyKeeps` | can_transport.go:154-214 | Every step of the tester or of any ECU keeps every pair's protocol invariant. |
| `Broadcast.NoDeadlock` | can_transport.go:154-214 | As long as an answer is missing, somebody can step. |
| `Broadcast.PartyDecreases` | can_transport.go:154-214 | Every such step decreases a measure over all ECUs and queues. |
| `Broadcast.BroadcastSafe` | can_transport.go:154-214 | Over every run with any number of ECUs and foreign frames: nothing fails, and the tester has from each ECU nothing or exactly its answer, and nothing from anybody else. |
| `Broadcast.BroadcastEnds` | can_transport.go:154-214 | The number of steps is bounded, apart from foreign frames. |
| `Broadcast.BroadcastDelivers` | can_transport.go:154-214 | When nobody can step, every answer has been delivered. |
| `Broadcast.CompleteResponses` | can_transport.go:210-219 | The responses of a complete broadcast are the ECUs' answers, each on its own identifier, and no others. |
| `Delivery.ConfigValid` | ecusim/ecusim.go:110-129 | A broadcast to simulated ECUs meets the conditions of the broadcast theorems. |
| `Delivery.CompleteIsReplies` | can_transport.go:210-219 | The responses of a complete broadcast to simulated ECUs are the vehicle's replies, each exactly once. |
| `Delivery.TesterIsTransport` | can_transport.go:154-214 | Over every run of a broadcast, the tester is the transport that listens: its state is the one that the log of the frames it took gives. |
| `Delivery.RunIsReplies` | can_transport.go:154-219 | So over every run that comes to rest, the responses that the transport makes of its log are the replies that the client's services are proved on. |
| `VirtualBus.ActionKeeps` | can/virtual.go:25-131 | Every critical section and channel operation of Connect, Send, Receive and Close keeps the invariant of the bus. |
| `VirtualBus.Conservation` | can/virtual.go:46-108 | In every reachable state, what an open port has received and queued is the log of Sends since it connected, in order, without its own, up to the delivery in progress; a closed port received a prefix. |
| `VirtualBus.SameOrder` | can/virtual.go:60-70 | In every reachable state, from the later connection on, two attached ports have seen the frames of all other senders in the same order: equally many, or during a delivery one of them one frame more. |
| `VirtualBus.HolderSteps` | can/virtual.go:62-69 | Whoever holds the bus lock can go on. |
| `VirtualBus.NoLostWakeup` | can/virtual.go:72-108 | With one receiver per port, a waiting Receive that has something to return can go on at once or after one step that nothing can hold up. |
| `VirtualBus.TwoReceiversLoseWakeup` | can/virtual.go:85-131 | One receiver per port is needed: from every reachable state with the lock free and two Receives waiting on a port, some run closes the port, returns from one and strands the other. |
| `VirtualBus.StrandedForEver` | can/virtual.go:102-131 | A stranded Receive waits on whatever else runs or starts, until its own context ends or the port is closed once more. |
| `VirtualBus.TwoReceiversWait` | can/virtual.go:25-108 | States with two waiting Receives on an open port can be reached. |
| `VirtualBus.TwoReceiversMissFrame` | can/virtual.go:50-108 | From every reachable state with two Receives waiting on an open port, two Sends and one returning Receive leave the other waiting beside a queued frame, with no token and none on its way. |
| `VirtualBus.UnwokenStays` | can/virtual.go:50-108 | It waits on, whatever runs or starts, until a further delivery, a Close of the port, or its own context ends it. |
| `VirtualBus.VirtualPort.Append` | can/virtual.go:72-77 | The locked part of deliver appends unless the port is closed. |
| `VirtualBus.VirtualPort.Look` | can/virtual.go:87-98 | The locked part of Receive takes the head, or reports whether the port is closed. |
| `VirtualBus.VirtualPort.Notify` | can/virtual.go:78-81 | Posting leaves one token, whether or not there was one. |
| `VirtualBus.VirtualPort.Shut` | can/virtual.go:122-125 | The locked part of Close marks the port and drops its queue. |
| `VirtualBus.PortList.Detach` | can/virtual.go:113-120 | Close's loop cuts out exactly the port's entry. |
| `Pids.InitTable` | pid.go:132-224 | The table literal and the two loops of init give every PID the size that `Size` says. |
| `Pids.ParseReadings` | pid.go:287-303 | The consuming loop computes `Parse`, including the readings before a failure. |
| `Pids.ParseLossless` | pid.go:287-303 | What is accepted is the encoding of the readings returned; what is not leaves a group of known size that is cut short. |
| `Pids.ParseEncode` | pid.go:287-303 | The encoding of any list of readings with table-sized data parses back to the list. |
| `Pids.AcceptsEncodings` | pid.go:287-303 | The accepted inputs are exactly these encodings, each of exactly one list. |
| `Pids.SupportedFromBitmap` | pid.go:307-315 | The loop over the bits computes the listed PIDs, in byte arithmetic. |
| `Pids.ListedMembers` | pid.go:307-315 | A PID is listed exactly when its bit is set. |
| `Simulator.ECU.PidData` | ecusim/ecusim.go:188-214 | Setting bits in any order of the configured PIDs gives the bitmap defined by membership, or nothing when nothing lies above. |
| `Simulator.BitmapBits` | ecusim/ecusim.go:193-213 | Bit n stands for PID base+n+1, and the last bit for anything beyond the range. |
| `Simulator.ECU.DtcResponse` | ecusim/ecusim.go:216-222 | The loop appends two bytes per code after service and count. |
| `Simulator.ECU.Answer` | ecusim/ecusim.go:137-184 | The answer and the new state for every request; only service 04 changes anything, and it clears stored and pending codes only. |
| `Simulator.HeldMembers` | ecusim/ecusim.go:142-153 | The readings in a service 01 answer are those of the requested PIDs that the ECU has. |
| `Simulator.AnswersItsRequest` | answer.go:12-32 | Every answer the simulator gives is recognized as an answer to its request, and none is taken for response pending. |
| `Simulator.HearFrame` | ecusim/ecusim.go:81-108 | What Serve makes of one frame: ignored, a functional request, or food for its receiver. |
| `Simulator.BroadcastHeard` | ecusim/ecusim.go:86-94 | A tester's broadcast frame is heard as its request by every ECU. |
| `Simulator.DirectedHeard` | ecusim/ecusim.go:95-105 | A directed request of any length, sent in segments, is heard once and in full. |
| `Vehicles.ArrivalOrderIrrelevant` | client.go:43-59 | In whatever order the answers of a broadcast arrive, Request returns every ECU's answer once, ordered by ECU. |
| `Vehicles.KeepPositive` | client.go:63-80 | The loop keeps the positive responses, or returns the first refusal. |
| `CurrentData.FirstAnswers` | client.go:152-179 | From any responses whatever, service01 returns exactly the first reading of each ECU and requested PID in the responses that parse. |
| `CurrentData.Service01Reads` | client.go:139-180 | One request for a single PID, or for up to six of known size, reads exactly what the ECUs hold, each PID once. |
| `CurrentData.BatchAlone` | client.go:120-137 | Combining PIDs changes nothing in what is read for each of them. |
| `CurrentData.GatherBatch` | client.go:94-107 | Each batch adds exactly its own columns to what Query has gathered. |
| `CurrentData.OneAtATime` | client.go:91-118 | The canonical result is what single requests read, one after the other. |
| `CurrentData.RepeatsMerge` | client.go:152-175 | With repeated PIDs, one combined request reads each once; it gives the readings of single requests if and only if no ECU holds a repeated PID. |
| `Queries.BatchesPartition` | client.go:94-97 | The requests of a Query partition its PIDs into single ones and up to six of known size. |
| `Queries.DistinctQuery` | client.go:91-118 | For distinct PIDs the result is the canonical one, however the PIDs are combined. |
| `Queries.CombiningExact` | client.go:91-118 | For any PIDs, combining never adds readings, fails exactly when single requests fail, and gives the same result if and only if no held PID is repeated inside one request. |
| `Queries.OneReadingExact` | client.go:80-118 | For any PIDs and any way of combining them, the result has at most one reading per PID and ECU if and only if no held PID is asked for in two requests. |
| `Queries.ReadPerRequest` | client.go:91-118 | A held reading is in the result once for every request that asks for its PID. |
| `Queries.GivenTwice` | client.go:91-118 | Without combining, every held PID that is given twice is read twice. |
| `Sorting.SortUnique` | client.go:111-116 | Sorting any arrangement of elements with distinct keys has one result. |
| `Clients.Client.Request` | client.go:43-59 | Returns the collected answers of what arrived, refuses only requests that do not fit a frame, and learns the protocol from a success. |
| `Clients.Client.BatchSize` | client.go:122-137 | One PID unless combining is possible on CAN, and then the leading PIDs of known size, up to six. |
| `Queries.LeadingKnown` | client.go:129-135 | All PIDs counted are of known size, and the next one is not. |
| `Clients.Client.Service01` | client.go:139-180 | Over a vehicle, returns what the ECUs hold, or NoResponse when that is nothing. |
| `Clients.Client.Extract` | client.go:148-179 | The nested loops with the seen map compute `ReadingsOf`. |
| `Clients.Client.Query` | client.go:91-118 | Over a reliable vehicle with table-sized data, the result for any PIDs, repeated or not, is `QueryResult`; for distinct ones the canonical result; no request is ever too long. |
| `Discovery.BitmapLists` | pid.go:307-315 | What the tester reads from an ECU's bitmap are that ECU's PIDs of the range, without wrapping. |
| `Discovery.ColumnLists` | client.go:194-202 | Over all ECUs, a base's bitmaps list exactly the supported PIDs of its range. |
| `Discovery.Link` | client.go:186-206 | One round extends what is found by one range, and the last bit tells whether anything lies beyond. |
| `Clients.Client.SupportedPids` | client.go:184-209 | For any PID maps: terminates with the strictly ascending list of exactly the supported PIDs; fails only when there is no ECU. |
| `Codes.TextRoundTrip` | dtc.go:14-66 | A text is parsed as a code if and only if it is the code's own text in upper or lower case. |
| `Codes.ParseDTCs` | dtc.go:75-98 | The loop computes the non-zero codes of the announced length, and refuses exactly the malformed messages. |
| `Codes.ReportRoundTrip` | ecusim/ecusim.go:216-222 | Parsing an ECU's report gives its non-zero codes if and only if every code past the wrapped count byte is 0000; always with at most 255 codes. |
| `TroubleCodes.ReportedInFull` | ecusim/ecusim.go:216-222 | An ECU's non-zero codes reach a client in full, in their order, if and only if there are none, or there are at most 2046 codes and every one past the wrapped count byte is 0000. |
| `TroubleCodes.ReadingComplete` | client.go:241-264 | A client's reading is the set of non-zero codes that the ECUs list if and only if each of them is shown by some report; always with at most 255 codes in each list. |
| `TroubleCodes.RepliesCarry` | client.go:241-264 | The reports of a vehicle are positive, well-formed, and carry exactly what the ECUs report; nobody answers exactly when every list has more than 2046 codes. |
| `TroubleCodes.AllReported` | client.go:252-261 | An ECU with at most 255 codes reports exactly those that are not 0000. |
| `TroubleCodes.ReadingUnique` | client.go:262 | There is only one strictly ascending list of the reported codes, so clients cannot disagree. |
| `TroubleCodes.RunEffect` | ecusim/ecusim.go:154-162 | Over any run, stored and pending codes are unchanged until the first clear and empty afterwards; nothing else ever changes. |
| `Clients.Client.Dtcs` | client.go:241-264 | Returns the strictly ascending list of exactly the reported codes. |
| `Clients.Client.ClearDtcs` | client.go:270-277 | Clears every ECU, and is acknowledged when there is one. |
| `Clients.Client.Session` | client.go:228-277 | Over any sequence of reads and clears, every read returns the sorted set of non-zero codes of the lists as the operations before left them. |
| `VinRecords.Decode` | client.go:287-320 | The loops compute `Number`, even with an unstable sort, when the sequence bytes differ. |
| `VinRecords.ArrivalIndependent` | client.go:282-321 | On the older protocols, every permutation of the messages gives the same number: the printable characters in sequence order. |
| `VinRecords.OlderNumber` | client.go:282-321 | On the older protocols, the number is the printable part of what the first ECU sends in its messages, in whatever order they arrive and whatever other ECUs answer in between. |
| `VinRecords.VehicleNumber` | client.go:291-320 | On CAN, the number is the printable part of what the first ECU with one is configured with. |
| `Clients.Client.Vin` | client.go:282-295 | The same for a whole call on CAN, with its failures. |
| `Elm327.Adapter.ReadPrompt` | elm327/elm327.go:252-272 | For any chunking, returns the text before the first prompt and keeps the rest; on giving up, loses nothing. |
| `Elm327.ChunkingIrrelevant` | elm327/elm327.go:252-272 | Two ways of cutting a stream into chunks give the same text and the same rest. |
| `Elm327.Adapter.Command` | elm327/elm327.go:205-225 | A call is: resynchronize if an earlier one was abandoned, drain, write this command and nothing else, read to the prompt, and mark itself abandoned on failure. |
| `Elm327.PairingExact` | elm327/elm327.go:205-250 | A command that starts in step ends in step if and only if nothing of an abandoned command was still to come when it was written, or the stream broke; if it succeeds, it returns its own answer in that case, and what was still to come otherwise; and that only happens after its resynchronization gave up. |
| `Elm327.TimeoutMispairs` | elm327/elm327.go:230-235 | On a fresh connection, whatever the commands and answers are: a cancelled command and a resynchronization that times out make the second command return the first answer. |
| `Elm327.TwoCancelsMispair` | elm327/elm327.go:230-235 | The same without a slow adapter: two cancelled commands make the third, whose resynchronization reads a prompt, return the second answer. |
| `Elm327.Adapter.Session` | elm327/elm327.go:205-272 | Commands one after the other form a run: each takes the steps of a command from where the one before ended, and returns its result. |
| `Elm327.OwnAnswers` | elm327/elm327.go:205-272 | Over every run of completed and abandoned commands, the adapter object is in step after each if and only if none was written too early; then every success returns its own answer; and it is so if no resynchronization gave up. |
| `Elm327.OnlyCommandsSent` | elm327/elm327.go:205-235 | Over every run, in step or not, exactly the commands are written, in their order: resynchronizing sends nothing. |
| `CanLines.ParseCAN` | elm327/elm327.go:379-417 | The loop with one receiver per identifier computes the demultiplexed run over the lines, and stops at the first bad line or failing receiver. |
| `CanLines.LineRoundTrip` | elm327/elm327.go:386-397 | A printed frame reads back as its identifier and payload, with 3 and 8 identifier digits. |
| `CanLines.RunInOrder` | elm327/elm327.go:398-412 | Any interleaving of several ECUs' messages is demultiplexed without error into exactly the messages, at the lines that complete them. |
| `CanLines.PrintParse` | elm327/elm327.go:379-417 | Printing any interleaving and parsing the lines gives exactly the messages in completion order, without response-pending ones. |
| `CanLines.ParseOlder` | elm327/elm327.go:351-374 | The loop for the other protocols cuts header and checksum off each line, or refuses the lines. |
| `CanLines.OlderRoundTrip` | elm327/elm327.go:351-374 | Printed messages of the older protocols, with three or four header bytes, read back as sender and data, in order. |

## Left out

- Sender.SendTimeBound: sending on the bus takes no time, and the clock only moves while Send waits or sleeps.
- Conns.Conn.Send: the nested loops of the source are three methods, one for each loop and one for a frame; contexts are failures that may happen at any wait.
- Transport.CANTransport.Listen: the map of mutable per-ECU receivers is a map of receiver states, fed by the step function that `Receiver.Feed` is proved equal to, so aliasing of receivers is not modelled.
- CanLines.ParseCAN: the same for its map of receivers.
- VirtualBus.Conservation: the ports of the concurrent model are values, since any number of goroutines change them between each other's steps; `VirtualPort` and `PortList` tie the critical sections to the same functions. The Go scheduler and fairness are not modelled.
- Broadcast.BroadcastDelivers: the tester's window does not expire and no timer fires; the tester's side of a round trip with its deadlines is `CANTransport.Listen`.
- Clients.Client.Query: the vehicle's transport returns the answers that `RunIsReplies` shows the broadcast to deliver, in any order; readings from vehicles with data of other sizes than the table's are not compared.
- Clients.Client.SupportedPids: when the bus fails after the first request, the source returns what it has so far without an error, and the model says nothing about it.
- Elm327.Adapter.Command: output that the adapter prints without a command is not modelled, nor a command that is only partly written; white space is ASCII.
- Clients.Client.Vin: a vehicle on CAN; on the older protocols the call is `Decode` on what `Request` collects, for which `OlderNumber` gives the number.
- VinRecords.ArrivalIndependent: messages with equal sequence bytes, where the result does depend on the order, and which of several refusals is returned.
- The loop of the simulated ECU's `Serve` around one frame: its delays, its response-pending messages, and requests that arrive while it sends.
- The adapter's `Open` and `detectProtocol`, and how its round trip tells data lines from messages: fixed scripts and string comparisons.
- `MILStatus`, `ReadDataByIdentifier`, `Readings.Get`: direct from the readings or responses modelled here.
- SocketCAN, the command-line tool, JSON and text formatting of frames, PID names, units and decode formulas, and error texts.
