# loop_charger: the data paths, proved

The daemon polls UPS units over Modbus TCP, keeps their registers in a shared pool, raises alarms on
them, and talks to the rest of the machine over a small text protocol (CMOS). This project models
those data paths in Dafny and proves what they do over every input, every run and every interleaving:

- `Bytes`, `Codec`, `Transport`, `Client`, `Session`: Modbus frames, reply framing over an arbitrary
  receive script, one transaction, and whole conversations with an in-order server built from the
  repository's own parser and reply builder, which may leave requests unanswered or answer too late. A
  reply is only believed by the request it answers.
- `DeviceMap`, `Segmentation`, `CmdQueue`, `UpsModule`, `EndToEndScan`: the register table and its
  search, the greedy segmentation, the ring of write commands, the poll cycle, and the theorem that over
  a whole run of the poll thread, any number of connections and cycles, each row's pool cell holds the
  device's register as of the last successful read of that row.
- `PollThread`, `Bridge`: the poll thread as a state machine interleaved with pushes and the stop
  request, the thread's code as a run of that machine, and what can reach the device through the bridge.
- `DeviceRun`: the thread's code from start to stop, against a device and fed by the bridge: what becomes of
  the pool, and every frame it ever sends.
- `AlarmConditions`, `AlarmEngine`: the alarm table over any number of passes with failing reads.
- `CStrings`, `LineBuffer`, `Publisher`, `Subscriber`, `PubSub`, `CmosParse`, `ConnTable`, `EventLoop`: the
  text protocol from `cmos_publish` to the callback, and the subscriber's connection table and event loop.

Code that changes state in place is a class or an array method proved against a specification
function; the theorems are lemmas about those functions, and further lemmas say what the functions come
to in terms of their arguments alone: bytes as arithmetic, text as concatenation, tables entry by entry.
The environment is an argument: what the
kernel delivers (`Transport.Event`), which sends succeed, what the device answers (`Session.World`),
what reading an alarm register gives. One `char` of a CMOS string stands for one byte.

## Where the code and its documentation differ

The model follows the code; each difference has a lemma with the exact condition.

- The access check on a range that runs past pool address 65535 lets the range through without looking
  (`DeviceMap.CheckAccessRange`); it answers correctly exactly for the ranges that do not.
- The alarm header says a CHANGE entry fires for a non-zero value only; the code also fires on a change
  to zero (`AlarmEngine.DocumentedChangesIff`).
- A refusal with exception code 0 would be returned as success (`Session.FalseSuccessIffCodeZero`,
  `Client.ReadSucceedsIff`, `Client.WriteVerdictMeans`).
- The client reads bytes of its reply buffer that may not have been received: the function and code of a
  frame of seven or eight bytes, and registers the frame announces but does not hold
  (`Client.DecodedFromReplyIff`).
- A write is confirmed by its function code alone; the address and value echoed are not compared
  (`Client.EchoNotCompared`).
- A peer that closes after a receive that timed out is reported as a timeout, since end of file leaves
  errno alone (`Transport.CloseTakenForTimeoutIff`).
- Replies of transactions 65535 apart carry the same id (`Session.ForeignReplyRejected`), and a reply can
  be that late on a connection with no other reply outstanding (`Session.LateReplyBelieved`).
- A reply that comes after its request timed out is taken for the next request's and rejected, and so are
  all the replies behind it, until the device leaves a request unanswered or the thread reconnects
  (`Session.LateReplyDooms`, `Session.SilenceRecovers`).
- After a stop request the published state stays "connected" (`PollThread.ConnectedAfterStop`).
- Before its first connection attempt a client's descriptor is 0, which passes for open and is what the
  disconnect of a thread stopped that early closes (`PollThread.ClearedUntilConnect`).
- A message is formatted within its 896-byte buffer exactly when all its fields but the last fit; the
  last is cut safely, an earlier overflow makes the next call write outside
  (`Publisher.FormatsWithinIff`, `Publisher.LongStateRunsWild`).
- Publisher names of 64 bytes and more are cut when stored but looked up whole, so the connection table
  can hold the same publisher twice (`ConnTable.OpenKeepsUniqueIff`, `ConnTable.LongNameDoubled`).
- A filter of 32 bytes and more is cut when stored and then means another one
  (`PubSub.FilterMeantIffFits`).

## Model

| member | source | states |
|---|---|---|
| Codec.BuildRequest | lib/modbus/modbus_tcp_client.c:140-178 | the twelve bytes of an FC03 or FC06 request, each spelled out from the arguments, and nothing past them |
| Codec.BuildMultipleRequest | lib/modbus/modbus_tcp_client.c:185-214 | every byte of an FC16 request of any size, spelled out from the arguments, the length returned for it, and nothing past it |
| Codec.MultipleRequestWholeIff | lib/modbus/modbus_tcp_client.c:190-192 | the length returned is the frame's own iff there are at most 127 registers |
| Codec.BuildReadReply | lib/modbus/modbus_tcp.c:627-662 | every byte of the reply frame and nothing past it, or -1 with the buffer untouched exactly when the quantity or the buffer is out of range |
| Codec.StandardRequestBytes | lib/modbus/modbus_tcp_client.c:140-178 | FC03 and FC06 requests: id, zero protocol id, length 6, unit, function, address and word, high byte first |
| Codec.MultipleRequestBytes | lib/modbus/modbus_tcp_client.c:185-214 | FC16 requests likewise, with the byte count and two bytes for each register |
| Codec.ReadReplyBytes | lib/modbus/modbus_tcp.c:627-662 | read replies likewise |
| Codec.ParseRequestMeans | lib/modbus/modbus_tcp.c:594-625 | which byte strings are requests, both ways, and what function, address and quantity they carry |
| Codec.DecodeInvertsRegisterBytes | lib/modbus/modbus_tcp_client.c:434-438 | big-endian register bytes decode to the registers they came from, whatever follows them |
| Codec.DecodeMeans | lib/modbus/modbus_tcp_client.c:434-438 | register i is byte 2i times 256 plus byte 2i+1 |
| Codec.StandardRequestRoundTrip | lib/modbus/modbus_tcp.c:594-625 | the server parses FC03 and FC06 requests back to the client's function, address and quantity (1 for FC06); id, unit and value are in place |
| Codec.MultipleRequestRoundTrip | lib/modbus/modbus_tcp.c:594-625 | the server parses FC16 requests back; the byte count is right, the frame fits 260 bytes and its payload decodes to the values written |
| Transport.Socket.RecvExactly | lib/modbus/modbus_tcp_client.c:96-110 | stores what arrived before success or failure, in order, for every chunking and failure; -2 iff errno then holds a timeout code |
| Transport.CloseTakenForTimeoutIff | lib/modbus/modbus_tcp_client.c:101-105 | a peer that closes is reported as a timeout iff the last call that failed before it had timed out |
| Transport.Socket.RecvAdu | lib/modbus/modbus_tcp_client.c:225-247 | one frame by its own length field, or the failure; malformed lengths are refused |
| Transport.ExactReadTakesPrefix | lib/modbus/modbus_tcp_client.c:96-110 | an exact read succeeds iff enough bytes precede the next failure, and consumes just those |
| Transport.ExactReadResult | lib/modbus/modbus_tcp_client.c:96-110 | 0 iff enough bytes come before the next failure, else -2 if that failure is a timeout and -1 if not |
| Transport.ReceiveResult | lib/modbus/modbus_tcp_client.c:225-247 | the whole result of a receive from the bytes before the next failure, however chunked: the frame, the failure, or a refused length |
| Transport.ReceiveTakesAdu | lib/modbus/modbus_tcp_client.c:225-247 | a whole frame at the front of the stream is what one receive returns and all it consumes |
| Transport.FramingStaysSynchronised | lib/modbus/modbus_tcp_client.c:225-247 | n receives yield exactly the first n frames of the stream, however it was chunked |
| Transport.FailedReceiveKeepsFramingIff | lib/modbus/modbus_tcp_client.c:225-247 | after a receive that failed the next one takes the frame, when the rest of it comes, iff none of its bytes had arrived |
| Client.NextTidCounts | lib/modbus/modbus_tcp_client.c:124-132 | the k-th id of a connection is ((k-1) mod 65535)+1 |
| Client.TidsAgree | lib/modbus/modbus_tcp_client.c:124-132 | two transactions share an id iff they are a multiple of 65535 apart |
| Client.ResultMeans | lib/modbus/modbus_tcp_client.c:367-516 | the result code of every transaction: arguments, connection, send; once the request is out, -4 iff the receive ended on a timeout, -3 iff on another failure or a refused length |
| Client.FrameDecides | lib/modbus/modbus_tcp_client.c:383-440 | otherwise the verdict on the frame received, against the id sent |
| Client.RequestSent | lib/modbus/modbus_tcp_client.c:367-516 | what every transaction sends, byte by byte, under which id, and when nothing |
| Client.ReadVerdictMeans | lib/modbus/modbus_tcp_client.c:402-440 | the code of a read from the bytes of its reply buffer |
| Client.ReadTakesRegisters | lib/modbus/modbus_tcp_client.c:434-438 | the registers taken from it, in place, and nothing else of the caller's buffer changed |
| Client.DecodedFromReplyIff | lib/modbus/modbus_tcp_client.c:402-438 | for every whole frame, a read's outcome comes from received bytes alone iff the id is foreign or the frame holds the code or the registers it announces |
| Client.ReadSucceedsIff | lib/modbus/modbus_tcp_client.c:402-440 | a read succeeds iff the id is its own and the frame is a normal reply of the right size or says refused with code 0 |
| Client.WriteVerdictMeans | lib/modbus/modbus_tcp_client.c:271-310 | for every whole frame, which verdict on a write means what, both ways: confirmed, refused with which code, foreign id, malformed |
| Client.EchoNotCompared | lib/modbus/modbus_tcp_client.c:271-310 | write replies that differ in unit, echoed address or echoed value only get the same verdict |
| Client.ModbusClient.Connect | lib/modbus/modbus_tcp_client.c:314-356 | a new connection counts ids from zero; a failed one has no open socket |
| Client.ModbusClient.ReadHoldingRegisters | lib/modbus/modbus_tcp_client.c:367-441 | result, output buffer, id, frame sent and stream consumed of one FC03 transaction, on every path |
| Client.ModbusClient.WriteSingleRegister | lib/modbus/modbus_tcp_client.c:443-478 | the same for FC06 |
| Client.ModbusClient.WriteMultipleRegisters | lib/modbus/modbus_tcp_client.c:480-516 | the same for FC16 |
| Session.ReplyIsFrame | lib/modbus/modbus_tcp.c:627-662 | every reply of the server is one whole frame with the id of its request |
| Session.OwnReplyIsGenuine | lib/modbus/modbus_tcp_client.c:402-440 | the client's verdict on the server's own reply is the device's: its registers, its refusal, or the address error |
| Session.FalseSuccessIffCodeZero | lib/modbus/modbus_tcp_client.c:413-419 | among the server's replies, the client takes a refusal for success iff the exception code is 0 |
| Session.ForeignReplyRejected | lib/modbus/modbus_tcp_client.c:402-410 | a reply to an earlier transaction is rejected for its id iff the distance is not a multiple of 65535 |
| Session.TransactionReads | lib/modbus/modbus_tcp_client.c:383-410 | a transaction reads the oldest reply still to come, or fails without touching a frame |
| Session.AdvanceKeepsValid | lib/modbus/modbus_tcp_client.c:383-400 | id counter, replies still to come and frames on the wire stay in step through lost sends, silence and timeouts |
| Session.FrameBelievedIff | lib/modbus/modbus_tcp_client.c:402-410 | the frame a transaction reads passes the id test iff it answers a request a multiple of 65535 transactions back, 0 being its own |
| Session.TransactionIsGenuine | lib/modbus/modbus_tcp_client.c:383-441 | fewer than 65535 transactions after the oldest one whose reply is still to come, a transaction fails or reports on its own request |
| Session.NoStaleReply | lib/modbus/modbus_tcp_client.c:383-441 | the same for every transaction of every conversation of reads and writes |
| Session.LateReplyBelieved | lib/modbus/modbus_tcp_client.c:124-132 | that bound is sharp: on a new connection with one reply outstanding, transaction 65536 is answered with the reply to the first |
| Session.AnsweredIff | lib/modbus/modbus_tcp_client.c:383-441 | a transaction is answered iff its request goes out, no earlier reply is still to come and one arrives in time; then none is outstanding |
| Session.LateReplyDooms | lib/modbus/modbus_tcp_client.c:402-410 | with one reply late, every transaction fails for as long as the device goes on answering |
| Session.SilenceRecovers | src/ups_module.c:367-370 | after a request that is never answered, one answered in time is believed |
| Session.FreshIsValid | lib/modbus/modbus_tcp_client.c:314-356 | what connecting leaves, with an in-order server, is a valid conversation with nothing outstanding |
| Session.ConversationArises | lib/modbus/modbus_tcp_client.c:96-110 | there is one for every sequence of turns, answered, refused or left in silence, every choice of lost requests and of late replies, and every broken end |
| Session.EveryPatternArises | lib/modbus/modbus_tcp_client.c:96-110 | every pattern of whole frames, failures between them and a frame broken at the end is an admissible wire behaviour |
| DeviceMap.FindSlot | lib/device_map/device_register_map.c:31-57 | finds the row with the address, or there is none |
| DeviceMap.ReadToPool | lib/device_map/device_register_map.c:59-96 | each value goes through the lookup of its own address, in order |
| DeviceMap.StoreRoutes | lib/device_map/device_register_map.c:69-95 | for any start, wrapping or not, every row's cell takes its own register's value and unowned cells keep theirs |
| DeviceMap.ExpectedDirect | lib/device_map/device_register_map.c:69-95 | in a range that does not wrap, that is the value at the address's distance from the start |
| DeviceMap.CachedMeans | src/ups_cmos_bridge.c:112-142 | nothing is cached iff no row has the address, or it is write-only or has no cell; else the cell of its row |
| DeviceMap.AccessCodeMeans | lib/device_map/device_register_map.c:195-222 | 2 iff unmapped, 1 iff a read of a write-only or a write of a read-only row, 0 iff permitted |
| DeviceMap.CheckAccessRange | lib/device_map/device_register_map.c:180-226 | terminates; 0 iff the whole range exists and permits the access, exactly when the range does not wrap; otherwise the code of the lowest offending address |
| DeviceMap.RegisteredProfilesWellFormed | devices/ups/ups_map.c:39-70 | the real table is sorted, owns its cells, and reads 1 to 125 registers at a time |
| DeviceMap.RegisteredAddresses | devices/ups/ups_map.c:39-70 | the real table is unit 1's, lets writes to 0x12..0x15 through, and caches 0x00..0x15 in cells from 0xBB00 on |
| Segmentation.SegmentsCoverExactly | src/ups_module.c:337-376 | each mapped address is requested once, in order, nothing else is, and every request is a run within the chunk |
| Segmentation.SegmentsApart | src/ups_module.c:340-376 | no two segments could have been read by one admissible request |
| Segmentation.SegmentationIsMinimal | src/ups_module.c:337-376 | no cover of the table by admissible requests uses fewer |
| CmdQueue.Queue.Push | src/ups_module.c:110-136 | the ring's new fields; 0 iff the command has 1 to 123 values and fewer than 16 are queued |
| CmdQueue.Queue.Pop | src/ups_module.c:142-157 | the oldest command, or none |
| CmdQueue.PushAppends | src/ups_module.c:110-136 | a push appends to the contents or changes nothing |
| CmdQueue.PopTakesFirst | src/ups_module.c:142-157 | a pop takes the first of the contents |
| CmdQueue.FirstInFirstOut | src/ups_module.c:110-157 | over every interleaving nothing is lost, doubled or reordered |
| CmdQueue.DrainTakesAll | src/ups_module.c:319-326 | a drain takes out what was queued, at most 16 commands, and what was accepted while it ran, in order |
| UpsModule.UpsUnit.InitCallback | src/ups_module.c:255-291 | connected with a zero failure counter, or unchanged and without a socket |
| UpsModule.UpsUnit.WriteRegisters | src/ups_module.c:202-245 | attempts the transaction the command's mode asks for; 0 iff that succeeded |
| UpsModule.CommandSent | src/ups_module.c:202-245 | what writing a command puts on the wire, byte by byte, for each mode and number of values, and when nothing |
| UpsModule.UpsUnit.DrainQueue | src/ups_module.c:319-326 | attempts each command popped once, in order, whatever fails, with pushes arriving before every pop |
| UpsModule.DrainSendsInOrder | src/ups_module.c:319-326 | what draining puts on the wire: each command's own frame once, in order, under consecutive ids |
| UpsModule.UpsUnit.ScanRegisters | src/ups_module.c:337-376 | the loop performs the segmentation's reads, with the failure counter and early return |
| UpsModule.ScanCountsFailures | src/ups_module.c:355-369 | the scan gives up iff the counter reaches five, and otherwise leaves it in 0..4 |
| UpsModule.UpsUnit.ProcessCallback | src/ups_module.c:308-380 | the whole cycle, pushes arriving while it drains: queue emptied, then the scan from the connection that leaves |
| UpsModule.UpsUnit.ErrorCallback | src/ups_module.c:389-412 | socket closed, counter cleared, state as given |
| PollThread.Thread | src/ups_module.c:454-485 | the thread's code is a run of the machine; the heads it returns are all the loop heads passed while running, connected with a counter in 0..4 at the inner ones, disconnected at the outer; closed at the end; pool and frames sent are what its cycles make of them |
| PollThread.RunKeepsInv | src/ups_module.c:454-485 | the invariant over every run of every interleaving |
| PollThread.CommandsInOrder | src/ups_module.c:110-157 | popped commands and ring together are the accepted pushes; each popped command is attempted once |
| PollThread.ConnectionAtHeads | src/ups_module.c:462-480 | state and counter at the loop heads; no request without a connected socket |
| PollThread.ClearedUntilConnect | src/ups_module.c:526 | the descriptor is the 0 of a cleared context exactly until the first connection attempt, at the outer loop head only |
| PollThread.FailsAfterFiveFailures | src/ups_module.c:355-369 | a cycle fails at a read iff the last five reads since connecting all failed |
| PollThread.ConnectedAfterStop | src/ups_module.c:462-484 | at the outer head and after the end the state is "connected" iff the inner loop was left on a stop request |
| PollThread.DrainEnds | src/ups_module.c:319-326 | draining ends after one pop and one attempt for each command queued or accepted meanwhile, and then the scan starts |
| PollThread.ScanIsMachineRun | src/ups_module.c:337-376 | the code's scan is the machine's run over the same read results |
| PollThread.CycleIsMachineRun | src/ups_module.c:308-380 | the code's poll cycle is a run of the machine, whatever arrives while it drains |
| Bridge.CmosBridge.CmdPush | src/ups_module.c:592-607 | succeeds iff the command has 1 to 123 values and the first unit with the uid has room; that queue gains the command, or nothing changes |
| Bridge.CmosBridge.OnWrite | src/ups_cmos_bridge.c:66-96 | succeeds iff the uid has a profile, some row has the address and is not read-only, and the first unit with the uid has room; that unit's queue then gains exactly the one value for the address; otherwise, and elsewhere, nothing changes |
| Bridge.WriteCommandMeans | src/ups_cmos_bridge.c:66-96 | the command is the single value for the address asked for, exactly when a row lets it through |
| Bridge.BridgeWriteSent | src/ups_module.c:319-326 | draining it sends one FC06 frame with that address and that value, byte by byte, unless the send fails |
| Bridge.CmosBridge.OnRead | src/ups_cmos_bridge.c:112-142 | the cell of the row with the address; none iff the uid is unknown, no row has it, or that row is write-only or has no cell |
| Bridge.AcceptedAreAllowed | src/ups_cmos_bridge.c:66-96 | in every run fed by the bridge every accepted command is a single-register write to a mapped, not read-only address |
| Bridge.OnlyAllowedWritesReachDevice | src/ups_cmos_bridge.c:66-96 | such commands are all that is queued or being written in any interleaving, and attempting one sends at most one FC06 frame to its own address |
| EndToEndScan.ReadSegmentFollows | src/ups_module.c:352-370 | one segment read, succeeding or not, and its effect on every cell of the pool |
| EndToEndScan.ScanFollowsDevice | src/ups_module.c:335-376 | after a scan, rows of successful segments hold the device's registers and every other cell is untouched, for every pattern of failures; the conversation can go on unless the scan gives up |
| EndToEndScan.CachedReadIsRegister | src/ups_cmos_bridge.c:112-142 | a cached read of such a row gives the device's register |
| EndToEndScan.DrainKeepsConversation | src/ups_module.c:319-326 | each write fails or reports what the device said to it, and draining leaves the connection in step |
| EndToEndScan.ReadPays | src/ups_module.c:352-370 | the backlog stays bounded by the failures in a row: a read that succeeds leaves nothing outstanding, the fifth failure ends the connection |
| EndToEndScan.PollCycleFollowsDevice | src/ups_module.c:308-380 | the scan theorem for the whole cycle, writes included, and a conversation for the next one |
| EndToEndScan.ConnectionFollowsDevice | src/ups_module.c:454-485 | over any number of cycles on one connection each row's cell holds the register as of its last successful read |
| EndToEndScan.ThreadFollowsDevice | src/ups_module.c:454-485 | the same from the thread's first connection on, over any number of connections, whichever requests are lost, refused, left in silence or answered too late; cells of no row never change |
| DeviceRun.PoolFollowsDevice | src/ups_module.c:454-485 | so the pool the thread's connections lead to follows the device, however they can be read as conversations with one |
| DeviceRun.OnlyProperFrames | src/ups_module.c:202-245 | with commands from the bridge, every frame ever sent reads consecutive mapped registers or writes one that is not read-only |
| DeviceRun.RunThread | src/ups_module.c:454-485 | both of these for the thread's code, from start to stop |
| AlarmEngine.Engine.ApplySticky | lib/alarm/alarm_engine.c:48-61 | the flag follows the condition; one event iff it changed |
| AlarmEngine.Engine.Run | lib/alarm/alarm_engine.c:65-115 | one pass, from the readings alone: every entry's new state, and in table order exactly the events due |
| AlarmConditions.BitmaskMeans | lib/alarm/alarm_engine.c:18-21 | the mask test holds iff each single bit of the mask is set in the value |
| AlarmConditions.RangeMeans | lib/alarm/alarm_engine.c:27-30 | the range test holds iff the value is not within the limits |
| AlarmEngine.HoldsMeans | lib/alarm/alarm_engine.c:83-92 | an entry's test is the condition its table line means |
| AlarmEngine.NoticesAreDue | lib/alarm/alarm_engine.c:48-114 | one reading causes a notice iff it is due, at most one, with the reading's own value; and the state it leaves |
| AlarmEngine.WholePassReports | lib/alarm/alarm_engine.c:72-114 | a pass reports exactly the notices due, in table order |
| AlarmEngine.EntriesIndependent | lib/alarm/alarm_engine.c:72-114 | over any number of passes each entry behaves as if alone with its own readings |
| AlarmEngine.StickyEntry | lib/alarm/alarm_engine.c:48-61 | events alternate; the flag is the alarm condition at the last successful read and equals triggers minus clears |
| AlarmEngine.ChangeEntry | lib/alarm/alarm_engine.c:94-108 | one trigger per change in the previous value followed by the successful reads |
| AlarmEngine.OnePassMore | lib/alarm/alarm_engine.c:65-115 | from startup, after any run: what the next pass reports for an entry, from its readings alone: trigger or clear iff the condition differs from that at the last successful read, with the new value |
| AlarmEngine.DocumentedChangesIff | lib/alarm/alarm_engine.h:36-38 | the header's non-zero rule and the code agree iff the register never falls to zero |
| AlarmEngine.AlarmsFromStartup | lib/alarm/alarm_engine.c:65-115 | every entry of a zeroed table, in every run: a RANGE entry is active iff its last successful reading is not within the limits, a BITMASK entry iff that reading has every bit of the mask; events alternate; change entries report each change |
| CStrings.TokensOfJoin | lib/cmos/cmos_sub.c:311-319 | tokenising at a separator undoes joining with it |
| CStrings.StrtokMeans | lib/cmos/cmos_sub.c:288-291 | one call takes the string apart: leading separators, a nonempty token without any, and what follows the one separator dropped; none iff there are only separators |
| LineBuffer.Receiver.Scan | lib/cmos/cmos_sub.c:476-486 | the lines found and the rest are those of the byte-at-a-time machine |
| LineBuffer.Receiver.Compact | lib/cmos/cmos_sub.c:488-492 | keeps the unfinished line, or drops it if it fills the buffer |
| LineBuffer.Receiver.Receive | lib/cmos/cmos_sub.c:463-492 | one receive refines the byte-at-a-time machine and leaves room for the next |
| LineBuffer.ChunkingIrrelevant | lib/cmos/cmos_sub.c:463-492 | the lines handed on do not depend on the chunking |
| LineBuffer.FeedLines | lib/cmos/cmos_sub.c:477-486 | each line up to 2047 bytes comes out once: its first 511 bytes |
| LineBuffer.FeedOverflow | lib/cmos/cmos_sub.c:488-492 | 2047 bytes without a newline are lost, and the next byte starts a new line |
| Publisher.FormatData | lib/cmos/cmos_pub.c:143-157 | the data part is the given fields, named and joined by single spaces, cut to the buffer; which messages run past it |
| Publisher.FormatsWithinIff | lib/cmos/cmos_pub.c:147-157 | formatting stays within the buffer iff all fields but the last come to at most 896 bytes |
| Publisher.LongStateRunsWild | lib/cmos/cmos_pub.c:147-149 | a state of 891 bytes and any type do not |
| Publisher.FormatLine | lib/cmos/cmos_pub.c:143-161 | the whole line, or none where what is sent is undefined |
| Publisher.DataText | lib/cmos/cmos_pub.c:147-157 | the data part as one concatenation, for every choice of fields |
| Publisher.FullMessageText | lib/cmos/cmos_pub.c:147-157 | with all four fields: "state=" S " type=" T " key=" K " value=" V |
| Publisher.SentText | lib/cmos/cmos_pub.c:143-161 | the line sent: "MSG ", the topic, a space, the first 895 bytes of the data part, a newline |
| Publisher.StaleText | lib/cmos/cmos_pub.c:143-161 | a message without fields sends what the data buffer held before, up to its first NUL |
| Publisher.Subscribers.Poll | lib/cmos/cmos_pub.c:119-138 | a new subscriber goes last, or is closed when the array is full |
| Publisher.Subscribers.Broadcast | lib/cmos/cmos_pub.c:163-177 | one attempt each, in order; survivors keep their order, failures are closed, free cells are -1 |
| Publisher.SurvivorsMean | lib/cmos/cmos_pub.c:163-177 | each socket whose send succeeds keeps its place among those that do, and likewise those that fail; no others are left |
| Publisher.AttemptsMean | lib/cmos/cmos_pub.c:163-169 | the i-th attempt is the line to the i-th subscriber |
| Publisher.Subscribers.Publish | lib/cmos/cmos_pub.c:140-179 | formatting and broadcast together, wherever the former is defined |
| Subscriber.ParseFields | lib/cmos/cmos_sub.c:311-319 | the loop collects, for each name, what LastFieldMeans says |
| Subscriber.LastFieldMeans | lib/cmos/cmos_sub.c:311-319 | the text after the name in the last token that starts with it, or none does |
| Subscriber.DispatchMeans | lib/cmos/cmos_sub.c:285-332 | when a line causes a call, both ways, and which: first token MSG, the slot's topic, a data part, a callback, and every filter met; the value for a slot that filters by key, else the data part |
| Subscriber.HandleLine | lib/cmos/cmos_sub.c:285-332 | the callback a line causes, if any |
| Subscriber.Subscriptions.Add | lib/cmos/cmos_sub.c:381-401 | the new slot, topic cut to 63 bytes and filters to 31, or -1 when 512 are registered |
| PubSub.FieldsRecovered | lib/cmos/cmos_sub.c:311-319 | the parse loop finds the fields a message was printed from |
| PubSub.CarriedIsSent | lib/cmos/cmos_pub.c:143-161 | a message the protocol can carry is formatted within its buffer and goes out whole |
| PubSub.MessageHeard | lib/cmos/cmos_sub.c:285-332 | one published message causes the callback its fields call for |
| PubSub.HandleLines | lib/cmos/cmos_sub.c:477-486 | lines are handled one by one, in order |
| PubSub.PublishedMessagesHeard | lib/cmos/cmos_sub.c:463-492 | for any messages and any chunking the callbacks are exactly those of the matching messages, in order |
| PubSub.FilterMeantIffFits | lib/cmos/cmos_sub.c:392-399 | a stored filter means the given one iff it is shorter than 32 bytes |
| PubSub.SubscriptionHears | lib/cmos/cmos_sub.c:381-401 | a subscription whose names fit hears what was asked for |
| CmosParse.GetField | lib/cmos/cmos_util.h:59-80 | the text after the first "name=" for at most 126 bytes of the name, cut to the output; -1 and nothing if it is not there |
| CmosParse.FieldTextMeans | lib/cmos/cmos_util.h:59-80 | not there, or what follows the first "name=" up to a separator or the end |
| CmosParse.Parse | lib/cmos/cmos_util.h:83-94 | type and key cut to 63 bytes, value to 255, and -1 iff there is no type |
| CmosParse.SearchFindsFields | lib/cmos/cmos_util.h:59-80 | substring search finds each field of a printed message |
| CmosParse.SearchAgreesWithTokens | lib/cmos/cmos_util.h:59-80 | first substring match and last matching token give the same field |
| CmosParse.ParseInvertsPublish | lib/cmos/cmos_util.h:83-94 | parsing inverts printing for fields that fit |
| ConnTable.Connections.Add | lib/cmos/cmos_sub.c:145-188 | when an entry is added, in which slot, all its fields, and when the table stays free of doubles |
| ConnTable.Connections.Close | lib/cmos/cmos_sub.c:112-127 | in range: the entry is the empty one, its watch is gone, the count is one less if it was active, all else unchanged; out of range nothing changes |
| ConnTable.Connections.Find | lib/cmos/cmos_sub.c:135-143 | an active entry for that publisher and subscription, or there is none |
| ConnTable.Connections.ActiveCount | lib/cmos/cmos_sub.c:190-196 | the number of active entries, which is the running count |
| ConnTable.Connections.HandleEvent | lib/cmos/cmos_sub.c:457-492 | what an event does, by the index it carries: data feeds the line with as much as 2047 bytes have room for, a hang-up empties the entry and removes its watch, an index of no connection changes nothing |
| ConnTable.HangUpCloses | lib/cmos/cmos_sub.c:465-470 | a hang-up frees the entry and nothing else; free of doubles, the publisher is then unknown and the next lookup connects again |
| ConnTable.TakenMeans | lib/cmos/cmos_sub.c:463-464 | recv takes from the front: all that fits, otherwise as much as there is room for, never nothing of something |
| ConnTable.DataFeeds | lib/cmos/cmos_sub.c:463-492 | what data does to the entry and which lines come of it |
| ConnTable.EventsReachTheirOwn | lib/cmos/cmos_sub.c:434-458 | each index taken when the wait returned still names the connection that raised the event, untouched, when its turn comes, whatever lookups and earlier events have done |
| ConnTable.Connections.HandleEvents | lib/cmos/cmos_sub.c:432-492 | the lines of each event of one wait are those of the connection that raised it; no doubles arise when all names fit |
| EventLoop.LinesAreTheirOwn | lib/cmos/cmos_sub.c:422-492 | over any number of waits, the lines of each open connection are what the line machine makes of all the bytes that came for its own socket since it was opened, but those still waiting for room |
| ConnTable.OpenKeepsSound | lib/cmos/cmos_sub.c:171-186 | a new entry keeps count, resets and watches right |
| ConnTable.CloseKeepsSound | lib/cmos/cmos_sub.c:112-127 | so does closing one |
| ConnTable.OpenKeepsUniqueIff | lib/cmos/cmos_sub.c:145-188 | adding keeps the table free of doubles iff the stored, cut name is new |
| ConnTable.RunKeepsSound | lib/cmos/cmos_sub.c:112-196 | over every run the table is sound, and free of doubles when all names fit |
| ConnTable.LongNameDoubled | lib/cmos/cmos_sub.c:145-188 | a name of 64 bytes or more added twice gives two indistinguishable entries |

## Left out

- Sockets, connect, keepalive, epoll and select: the environment of the model; sends are all or nothing.
- Session: replies come in the order of their requests, each after its request; on a connection where a receive fails inside a frame nothing more arrives, since the rest of the frame would be read as a header (Transport.FailedReceiveKeepsFramingIff).
- errno: only its value when a receive fails is modelled; Transport.CloseTakenForTimeoutIff takes it that nothing else sets it in between.
- Pushes that arrive outside a drain: they are the first arrivals of the next one, since nothing else looks at the queue.
- Mutexes and rwlocks: a locked region is one atomic step.
- Null pointers as arguments, and the argument checks of mb_tcp_client_connect before it touches the context.
- HandleEvent: feeds the byte-at-a-time machine instead of a buffer of its own; LineBuffer.Receiver.Receive proves the buffer refines that machine.
- ThreadFollowsDevice: asks of the environment that one drain takes out at most 13106 commands, of which 16 can be queued when it starts, and that no refusal carries the code 0, which section 7 of the MODBUS Application Protocol Specification does not define.
- The request builders of lib/modbus/modbus_tcp.c: the same layouts as the client's, behind an argument check.
- ctx_lookup_slot and ctx_reconnect_master: the same line loop over the master's socket, in front of ConnTable.Connections.Add.
- start_ups_modules and stop_ups_modules: Bridge takes as given that each unit runs the profile registered for its uid.
- Logging, configuration, the alarm manager and its database, the alarm bridge's timer, the periodic publishing thread, number parsing in callbacks, and the delays between reads.
