# A verification model of the game server core

A Dafny model of the parts of the game server whose correctness rests on state kept over many steps, with
proofs of what they promise. One module per component:

- **The message transport in use ("v2").** `NetProto2`, `BufferLists`, `DataHandler2`, `Endpoints`,
  `TcpConnections`, `Transport` and `TransportProgress`: frames with a 16-bit length, a send list that survives
  partial writes, a read loop that alternates head and body reads, a drain that dispatches. `TcpConnection` is a
  class proved step by step against an endpoint value; `Transport` composes two endpoints and two byte channels
  into a transition system and proves delivery end to end; `TransportProgress` proves that it never gets stuck and
  never runs in circles; `TransportTurns` carries both over to turns of the main loop, `TransportClosing` says what
  becomes of a graceful close.
- **The older framing ("v1").** `SessionBuffers`, `NetProto`, `DataHandler`, `DataStream`, `DataTurns`,
  `DataHandlerIo`: packets parsed in place from a fixed sliding buffer that is compacted in the middle of a parse,
  in a connector with a handler of its own. `SharedLoop`, `SharedConnections`: connections that share one handler,
  and with it one unpack record, and are parsed in every tick of the main loop besides.
- **The SQL formatter.** `SqlText`, `SqlRing`, `SqlAssignments`, `SqlStatements`: text accumulated while it rotates
  through three buffers, and queued with a 16-bit length. A pointer is a slot number, so aliasing is visible.
- **The write-behind record cache.** `RecordCache`, `ColumnHistory`, `RecordsManagers`: insert, update and delete
  coalesced per record, dirty columns, flushes in hash order, against executing every commit at once.
- **Registries.** `BiMaps`, `ClientRegistry`, `ClientLookups`, `ClientManagers`, `Agents`.
- **Queues, sessions, ids.** `ConnectorQueues`, `ConnectorAnswers`, `ConnectorPools`, `LoginSessions`, `RoleIds`.

Objects the program changes in place are classes; each method is proved against a step function on values, and
the claims over runs are lemmas about those functions. Histories (accepted requests, dispatched messages,
pushed commands) are ghost state.

`dafny verify dfyconfig.toml` checks everything.

## Where the code does less than it seems to

The model does what the code does. Each of these is a proved statement with its exact condition.

- An UPDATE statement is right exactly if every run of unchanged columns between two changed ones has a length
  divisible by three (`SqlRing.UpdateExact`, `RecordCache.UpdateStatementExact`). With two between, the second
  assignment is written twice and the first is lost (`SqlRing.TwoBetween`); with one, a buffer is printed into
  itself (`SqlRing.OneBetween`).
- A statement is queued as it was formatted exactly if it is shorter than 65536 characters: a command keeps its length
  in 16 bits (`SqlStatements.QueuedExactly`, `ConnectorQueues.PoolRun`). An UPDATE that is cut has lost its WHERE
  (`SqlStatements.CutLosesWhere`); if the cut falls behind a whole assignment it is an update of every row
  (`SqlStatements.CutFallsBehind`, `RecordCache.LongUpdateReachesEveryRow`).
- So a flushed update shorter than that keeps unchanged columns equal to the stored ones, and record and row equal, for
  exactly those dirty sets; for the others, if the statement has a text, the first dirty column keeps its old value in
  the row although the record counts it as written (`RecordCache.CleanColumns`, `RecordCache.CleanColumnsExact`,
  `RecordCache.TwoCleanBetween`).
- A delete and an insert of a stored record in one batch cancel. After such a batch a record that holds anything else
  agrees with its row exactly if the last commit is an update (`RecordCache.DeleteThenInsert`,
  `RecordCache.BatchFallsBehind`).
- v1: a heartbeat, whole or in part, at the very end of a buffer without room blocks it, because the unpacker asks
  for a sixth byte and only user packets make the parser compact (`DataStream.NeverWedges`,
  `DataStream.HeartbeatWedges`).
- v1, a connector: a packet that ends exactly at the end of a full buffer stops it for good. Nothing is unread, so
  nothing is compacted, so nothing can be received, and every further turn dispatches the last message once more
  (`DataTurns.DeliveredExactly`, `DataTurns.RepeatsForever`). A connector has a handler of its own, and its loop only
  sends (`jmy_game/servers/libjmy/jmy_tcp_connector.h:66`, `jmy_game/servers/libjmy/jmy_tcp_connector.cpp:269-284`).
- v1, connections on one handler: every parse that finds nothing unread while the record holds a message dispatches it
  again, and such parses are what ticks do. So each packet is dispatched once exactly if no parse finds that
  (`SharedLoop.SharedDispatch`, `SharedLoop.OnceExactly`, `SharedLoop.TickRepeats`).
- There a connection stopped by a full buffer is freed exactly by a parse of its own that finds an incomplete user packet
  of another connection in the record (`SharedLoop.StuckUntilRescued`, `SharedLoop.ArrivalRescuesExactly`).
- There a tick may also compact a buffer while a read is posted behind its unread bytes. The byte that arrives next is
  then read as itself exactly if it is what lay there before (`SharedLoop.SteadyExactly`,
  `SharedLoop.UnsteadyTickLoses`, `SharedLoop.UnsteadyIsReached`).
- v2: a plain send is accepted and carries only its length modulo 65536 exactly if it is longer than 65536 bytes and
  that remainder lies between 1 and 65530 (`DataHandler2.FrameBounds`, `DataHandler2.LongSendIsCut`). A v1 send is
  read back as sent exactly up to 65533 bytes (`DataHandlerIo.SendDecodes`).
- A closing connection posts no sends. The disconnect of an active one goes out exactly on the back of a send that is
  outstanding when it closes, if the batch of 100 callbacks has room for everything queued
  (`TransportClosing.CloseGoesOutExactly`); an idle one is silent until its time-out (`TransportClosing.SilentClose`).
- The limits of a buffer list count what it took in its whole life, not what it holds (`BufferLists.LifetimeLimits`);
  the connections set none.
- A graceful close of a passive connection lasts exactly until its next control packet or body
  (`Transport.PassiveCloseLasts`, `Transport.PassiveCloseIsUndone`); one that force-closes on an acknowledgement is
  CONNECTED again at once (`Transport.ReadUndoesPassiveClose`).
- A client slot in use can still become free exactly if its holder has not closed it (`ClientRegistry.FreedExactly`,
  `ClientRegistry.LeakIsReachable`). `newClient` hands out an unregistered slot exactly if it closes the live, mapped
  connection of that account (`ClientRegistry.NewClientRegisters`); binding an unbound connection to such a slot is
  exactly what breaks the registry (`ClientRegistry.BindExact`).
- The two agent managers agree without any condition on connection ids; a new agent keeps the maps inverse exactly if
  it is refused or its connection is unbound (`Agents.NewKeepsInverse`).

## Model

| member | source | states |
|---|---|---|
| `Transport.Delivery` | jmy_game/servers/libjmy/jmy_tcp_connection.cpp:127-467 | Over every run of two connected ends (sends, closes, aborts, partial sends of any size, head and body reads, drains, in any interleaving) the messages an end hands to its handlers are a prefix of those in the frames the other end accepted, in order and once each; all of them once queues, channel and receive list are empty. |
| `Transport.DeliveryOfIntents` | jmy_game/servers/libjmy/jmy_tcp_connection.cpp:223-263 | While no accepted plain send is longer than 65530 bytes, the dispatched messages are a prefix of the very messages (user id, message id, payload) the callers passed to `send`. |
| `Transport.SendEngine` | jmy_game/servers/libjmy/jmy_tcp_connection.cpp:377-420 | Over every run, at an end not force-closed: `sending_data_` holds exactly while one send is outstanding, that send covers the front of the queue, the batch count stays below 100, and bytes put in flight followed by queued bytes equal the frames of all accepted requests. |
| `Transport.CompletionShrinks` | jmy_game/servers/libjmy/jmy_tcp_connection.cpp:388-396 | A completion of n bytes takes exactly n bytes off the queued ones, so a positive one strictly shortens them. |
| `Transport.BatchEnds` | jmy_game/servers/libjmy/jmy_tcp_connection.cpp:389-396 | From any state of the engine, callbacks of at least one byte each release it within what is left of a batch of 100, and no later than the queued bytes last. |
| `TransportProgress.CanAlwaysDeliver` | jmy_game/servers/libjmy/jmy_tcp_connection.cpp:127-467 | No reachable state is stuck: from every one in which both ends are connected, in either direction, some continuation dispatches every message accepted so far, whatever was half sent or half read. |
| `TransportProgress.EveryScheduleDelivers` | jmy_game/servers/libjmy/jmy_tcp_connection.cpp:127-467 | From each such state, in either direction, every schedule of sends of at least one byte, reads and drains is no longer than the work left there, and has delivered every accepted message exactly if no step extends it: the transport cannot run in circles and cannot stop early. |
| `TransportProgress.CarryStep` | jmy_game/servers/libjmy/jmy_tcp_connection.cpp:377-467 | Each step of such a schedule leaves both ends connected, accepts nothing and strictly lessens the work left. |
| `TransportProgress.EndIsQuiet` | jmy_game/servers/libjmy/jmy_tcp_connection.cpp:341-354 | No step carries anything on exactly if nothing is queued, in flight or waiting to be dispatched. |
| `TransportProgress.SendStep` | jmy_game/servers/libjmy/jmy_tcp_connection.cpp:377-420 | With bytes queued at a connected end some step of the send engine is enabled, and it takes bytes off the queue or comes closer to it. |
| `TransportProgress.ReadEnabled` | jmy_game/servers/libjmy/jmy_tcp_connection.cpp:139-204 | Once the sender has nothing queued, the bytes in flight always complete the read in progress. |
| `TransportTurns.DeliveryOverTurns` | jmy_game/servers/libjmy/jmy_tcp_connection.cpp:442-467 | End-to-end delivery over every interleaving of whole main-loop turns (time-out, drain, post), completions, reads and calls. |
| `TransportTurns.TurnsDeliver` | jmy_game/servers/libjmy/jmy_tcp_connection.cpp:442-467 | The loop delivers: from every state turns reach in which both ends are connected, in either direction, every schedule of turns that find something to do, sends of at least one byte and reads ends within the work left, and has delivered every accepted message once none of them is left to do. |
| `TransportTurns.MovesEndExactly` | jmy_game/servers/libjmy/jmy_tcp_connection.cpp:442-467 | No turn or completion moves anything exactly if nothing is queued, in flight or waiting to be dispatched. |
| `TransportTurns.TurnIsItsActions` | jmy_game/servers/libjmy/jmy_tcp_connection.cpp:442-467 | A turn of either end is the run of its actions: an abort on the time-out of a closing end, otherwise its drain and then its post. |
| `TransportTurns.TurnDispatches` | jmy_game/servers/libjmy/jmy_tcp_connection.cpp:461-466 | A turn of a connected end whose handlers accept appends exactly the messages of its receive list to those dispatched, empties the list and leaves a send outstanding if one was or bytes are queued. |
| `TransportTurns.TurnRefused` | jmy_game/servers/libjmy/jmy_tcp_connection.cpp:461-465 | If a handler refuses, the messages up to and with that one are dispatched and the end is closed, both lists emptied. |
| `TransportTurns.TurnCloses` | jmy_game/servers/libjmy/jmy_tcp_connection.cpp:451-459 | A turn closes an end exactly if a handler refuses or a closing end has timed out; otherwise it leaves an end that is not connected as it is. |
| `TransportTurns.TurnSends` | jmy_game/servers/libjmy/jmy_tcp_connection.cpp:399-420 | After a turn of a connected end a send is outstanding exactly if bytes are queued. |
| `TransportTurns.AskTaken` | jmy_game/servers/libjmy/jmy_tcp_connection.cpp:223-263 | A request is queued last, as its frame, exactly if the end is connected and the lengths admit it; otherwise nothing changes. |
| `TransportClosing.CloseGoesOutExactly` | jmy_game/servers/libjmy/jmy_tcp_connection.cpp:399-401 | Some run sends what an active closing end has queued, the disconnect last, exactly if a send was outstanding and its batch of 100 callbacks has one for each queued buffer; otherwise the disconnect never goes out. |
| `TransportClosing.SilentClose` | jmy_game/servers/libjmy/jmy_tcp_connection.cpp:456-457 | An active end that closes while no send is outstanding puts no byte in flight any more, over every run. |
| `TransportClosing.ClosingRun` | jmy_game/servers/libjmy/jmy_tcp_connection.cpp:442-459 | Over every run a closing active end takes and dispatches nothing more, and stays closing until it is closed. |
| `TransportClosing.ClosingStarts` | jmy_game/servers/libjmy/jmy_tcp_connection.cpp:17-26 | A close queues the three bytes of its disconnect last; whether they can go out depends on the send outstanding and its batch alone. |
| `TransportClosing.AcksAnswer` | jmy_game/servers/libjmy/jmy_tcp_connection.cpp:321-328 | Over every run an end acknowledges each disconnect it reads while it is not closing itself, once, and nothing else. |
| `Transport.RunKeeps` | jmy_game/servers/libjmy/jmy_tcp_connection.cpp:127-467 | The invariant of both directions (conservation of bytes from queue to channel to reader, of messages from reader to log) holds after any sequence of events. |
| `Transport.SenderKeeps` | jmy_game/servers/libjmy/jmy_tcp_connection.cpp:17-40 | Every action of an end keeps its sender invariant and only appends to the accepted frames. |
| `Transport.ReceiverKeeps` | jmy_game/servers/libjmy/jmy_tcp_connection.cpp:127-221 | Every action of an end keeps its receiver invariant: the stream read so far is whole frames, plus the head of the one whose body is awaited, and delivered plus queued messages are their contents. |
| `Transport.HeadIsNext` | jmy_game/servers/libjmy/jmy_tcp_connection.cpp:140-160 | A completed three-byte read sees the head of the next frame of the peer, never bytes of another. |
| `Transport.BodyIsNext` | jmy_game/servers/libjmy/jmy_tcp_connection.cpp:184-204 | A completed body read sees exactly the body of the frame whose head was read. |
| `Transport.QuietDelivered` | jmy_game/servers/libjmy/jmy_tcp_connection.cpp:341-354 | With nothing queued, in flight or waiting, delivered equals accepted: a partly read frame would leave bytes in the channel. |
| `Transport.ReadUndoesPassiveClose` | jmy_game/servers/libjmy/jmy_tcp_connection.cpp:142-181 | A passive end is CONNECTED after every completed read of a control packet or a body, whatever it was before, even if that read force-closed it; an active end changes only by the acknowledgement it waits for. |
| `Transport.PassiveCloseLasts` | jmy_game/servers/libjmy/jmy_tcp_connection.cpp:17-26 | Over every run a passive end that has not force-closed is disconnecting exactly if it was closed after its last read of a control packet or body. |
| `Transport.PassiveCloseIsUndone` | jmy_game/servers/libjmy/jmy_tcp_connection.cpp:178-180 | A reachable run: a passive end closes, one message of its peer arrives, and the end is CONNECTED again, its disconnect sent or not. |
| `TcpConnections.TcpConnection.constructor` | jmy_game/servers/libjmy/jmy_tcp_connection.cpp:103-107 | A started connection is the initial endpoint of the transition system. |
| `TcpConnections.TcpConnection.SendUser` | jmy_game/servers/libjmy/jmy_tcp_connection.cpp:223-242 | Refines the send step: refused unless connected and the length fits, otherwise exactly the frame of the request is queued last. |
| `TcpConnections.TcpConnection.SendUserId` | jmy_game/servers/libjmy/jmy_tcp_connection.cpp:244-263 | Refines the send step for the user-id overload. |
| `TcpConnections.TcpConnection.SendControl` | jmy_game/servers/libjmy/jmy_tcp_connection.cpp:284-314 | Queues exactly the disconnect or acknowledge frame. |
| `TcpConnections.TcpConnection.CloseGracefully` | jmy_game/servers/libjmy/jmy_tcp_connection.cpp:17-26 | Refines the close step: only a connected end queues a disconnect and becomes disconnecting. |
| `TcpConnections.TcpConnection.ForceCloseNow` | jmy_game/servers/libjmy/jmy_tcp_connection.cpp:28-40 | Refines force_close: both lists emptied, no send or read outstanding. |
| `TcpConnections.TcpConnection.StartReceiving` | jmy_game/servers/libjmy/jmy_tcp_connection.cpp:127-181 | Refines the read restart: an active end stops unless connected, a passive one is connected afterwards. |
| `TcpConnections.TcpConnection.HandlePacketType` | jmy_game/servers/libjmy/jmy_tcp_connection.cpp:207-221 | Asks for a body exactly for the two user types; otherwise carries out the reaction to disconnect and acknowledge. |
| `TcpConnections.TcpConnection.HeadReceived` | jmy_game/servers/libjmy/jmy_tcp_connection.cpp:142-160 | Refines the head step, with the 16-bit narrowing of the body length. |
| `TcpConnections.TcpConnection.BodyReceived` | jmy_game/servers/libjmy/jmy_tcp_connection.cpp:184-204 | Refines the body step: the packet goes last in the receive list with its type, an empty one is dropped. |
| `TcpConnections.TcpConnection.StartSending` | jmy_game/servers/libjmy/jmy_tcp_connection.cpp:399-420 | Refines the post step and its three results. |
| `TcpConnections.TcpConnection.SendCompleted` | jmy_game/servers/libjmy/jmy_tcp_connection.cpp:377-397 | Refines the completion step with the batch limit. |
| `TcpConnections.TcpConnection.RunOnce` | jmy_game/servers/libjmy/jmy_tcp_connection.cpp:442-467 | Refines one turn of the loop, whose effect `TransportTurns` states; the result is -1 for a refused message, 1 for a send posted, 0 otherwise. |
| `NetProto2.StreamSplits` | jmy_game/servers/libjmy/jmy_net_proto2.cpp:53-59 | A stream that starts with a valid frame splits, by the length in its head, into that frame and what follows. |
| `NetProto2.UnpackBody` | jmy_game/servers/libjmy/jmy_net_proto2.cpp:134-168 | Unpacking the body of a user frame gives back exactly its user id, 16-bit message id and payload. |
| `NetProto2.HeadDecodes` | jmy_game/servers/libjmy/jmy_net_proto2.cpp:53-59 | Whatever follows, the head of a valid frame yields its type and length. |
| `NetProto2.EncodeUnambiguous` | jmy_game/servers/libjmy/jmy_net_proto2.cpp:85-116 | A byte stream starts with at most one valid frame: type, body, content and rest are determined. |
| `NetProto2.HeadThenPayload` | jmy_game/servers/libjmy/jmy_net_proto2.cpp:85-116 | The packed heads followed by the payload are the encodings of the user frames. |
| `NetProto2.PackUserDataHead` | jmy_game/servers/libjmy/jmy_net_proto2.cpp:85-97 | Writes the five head bytes and leaves the rest of the buffer, or nothing if they do not fit. |
| `NetProto2.PackUserIdDataHead` | jmy_game/servers/libjmy/jmy_net_proto2.cpp:99-116 | Writes the nine head bytes and leaves the rest of the buffer, or nothing if they do not fit. |
| `NetProto2.PackControl` | jmy_game/servers/libjmy/jmy_net_proto2.cpp:61-83 | Writes the encoding of the control frame, or nothing if it does not fit. |
| `NetProto2.FrameLayout` | jmy_game/servers/libjmy/jmy_net_proto2.cpp:53-116 | Byte by byte: the length without itself, the type, user id, message id and payload of every frame lie where the packers put them, high bytes first. |
| `Bytes.Unpack16Pack16` | jmy_game/servers/libjmy/jmy_net_proto2.cpp:5-13 | Two-byte packing and unpacking keeps exactly the low 16 bits. |
| `Bytes.Unpack32Pack32` | jmy_game/servers/libjmy/jmy_net_proto2.cpp:15-28 | Four-byte packing and unpacking returns every `int`, negative ones included. |
| `Bytes.Pack16Digits` | jmy_game/servers/libjmy/jmy_net_proto2.cpp:5-13 | Two packed bytes, the high one first, are the low 16 bits; every two bytes are packed from what they unpack to. |
| `Bytes.Pack32Digits` | jmy_game/servers/libjmy/jmy_net_proto2.cpp:15-28 | The same for four bytes and 32 bits, negative values included. |
| `DataHandler2.FrameBounds` | jmy_game/servers/libjmy/jmy_data_handler2.h:52-110 | A user-id send is accepted exactly up to 65526 bytes; a plain send of at most 65536 exactly up to 65530, a longer one exactly if its length modulo 65536 is between 1 and 65530; an accepted request carries the message its caller meant exactly if it is no plain send past 65530. |
| `DataHandler2.LongSendIsCut` | jmy_game/servers/libjmy/jmy_data_handler2.h:62-81 | A plain send of 65537 bytes is accepted and goes out as one byte. |
| `DataHandler2.AcceptedFrameValid` | jmy_game/servers/libjmy/jmy_data_handler2.h:52-158 | Every accepted request is a valid frame of 1 to 65535 bytes. |
| `DataHandler2.UserGathers` | jmy_game/servers/libjmy/jmy_session_buffer.cpp:430-469 | The 16-bit narrowings of the copy loop let a head and data through exactly for the accepted requests, as the frame. |
| `DataHandler2.UserIdGathers` | jmy_game/servers/libjmy/jmy_session_buffer.cpp:430-469 | The same for the user-id overload. |
| `DataHandler2.WriteUserData` | jmy_game/servers/libjmy/jmy_data_handler2.h:52-82 | The list gains exactly the frame of an accepted request within its limits, and nothing otherwise; the result tells which. |
| `DataHandler2.WriteUserIdAndData` | jmy_game/servers/libjmy/jmy_data_handler2.h:84-110 | The same for the user-id overload. |
| `DataHandler2.WriteControl` | jmy_game/servers/libjmy/jmy_data_handler2.h:128-158 | The list gains exactly the control frame if its limits admit it. |
| `DataHandler2.ProcessData` | jmy_game/servers/libjmy/jmy_data_handler2.cpp:38-58 | The messages of the list are dispatched in list order and the list is emptied; a failing handler ends the loop after its message, returns -1 and leaves the list. |
| `BufferLists.WriteTo` | jmy_game/servers/libjmy/jmy_session_buffer.h:160-169 | A write succeeds exactly if the narrowed length is positive and fits, and then appends those bytes. |
| `BufferLists.GatherBuffer` | jmy_game/servers/libjmy/jmy_session_buffer.cpp:451-460 | The copy loop yields the concatenation of the narrowed parts exactly if each is nonempty and all fit the narrowed total. |
| `BufferLists.GatherLength` | jmy_game/servers/libjmy/jmy_session_buffer.cpp:440-444 | What the parts keep after narrowing agrees with their total length in 16 bits. |
| `BufferLists.QueueConsumed` | jmy_game/servers/libjmy/jmy_session_buffer.cpp:502-518 | Advancing the read offset of the front buffer, or dropping it, is taking bytes off the front of the queue. |
| `BufferLists.ConsumedBytes` | jmy_game/servers/libjmy/jmy_session_buffer.cpp:502-518 | Reading from the front buffer takes exactly the first bytes of the concatenated queue. |
| `BufferLists.SessionBufferList.WriteData` | jmy_game/servers/libjmy/jmy_session_buffer.cpp:403-428 | One buffer holding the bytes is appended if there are bytes and room; otherwise the list is unchanged. |
| `BufferLists.SessionBufferList.WriteDatas` | jmy_game/servers/libjmy/jmy_session_buffer.cpp:430-469 | One buffer holding all parts is appended exactly if there is room and the parts survive the narrowing. |
| `BufferLists.SessionBufferList.WriteTyped` | jmy_game/servers/libjmy/jmy_session_buffer.cpp:471-483 | The packet is appended with its type in place of the write offset. |
| `BufferLists.SessionBufferList.GetReadLen` | jmy_game/servers/libjmy/jmy_session_buffer.cpp:493-500 | The unread length of the front, 0 exactly for an empty list. |
| `BufferLists.SessionBufferList.ReadLen` | jmy_game/servers/libjmy/jmy_session_buffer.cpp:502-518 | Takes the bytes off the front of the queue, or nothing if the front has fewer. |
| `BufferLists.SessionBufferList.Clear` | jmy_game/servers/libjmy/jmy_session_buffer.cpp:396-401 | Empties the list and its counters. |
| `BufferLists.LifetimeLimits` | jmy_game/servers/libjmy/jmy_session_buffer.cpp:403-469 | With limits a list takes a buffer exactly if the buffers and bytes taken in its whole life stay within them: what is read is never given back. |
| `SessionBuffers.BoundedFifo` | jmy_game/servers/libjmy/jmy_session_buffer.cpp:90-176 | Over any sequence of operations the offsets stay in the block, and what was unread plus what was written equals what was read plus what is unread. |
| `SessionBuffers.CheckIsExact` | jmy_game/servers/libjmy/jmy_session_buffer.cpp:105-113 | `checkWriteLen(n)` is true exactly if unread plus n is at most the capacity; it keeps the unread bytes and then leaves room for n. |
| `SessionBuffers.ApplyBalances` | jmy_game/servers/libjmy/jmy_session_buffer.cpp:90-176 | Each operation conserves bytes: unread plus gained is lost plus unread. |
| `SessionBuffers.ReadsWhatWasWritten` | jmy_game/servers/libjmy/jmy_session_buffer.cpp:90-176 | After any operations a read succeeds exactly if that much was written and not yet read, and takes the next bytes. |
| `SessionBuffers.OperationsExact` | jmy_game/servers/libjmy/jmy_session_buffer.cpp:90-176 | When each operation succeeds, and where the unread bytes then lie. |
| `SessionBuffers.SessionBuffer.MoveDataToFront` | jmy_game/servers/libjmy/jmy_session_buffer.cpp:136-142 | The unread bytes move to the start unchanged, blocks overlapping or not. |
| `SessionBuffers.SessionBuffer.CheckWriteLen` | jmy_game/servers/libjmy/jmy_session_buffer.cpp:105-113 | Refines the check operation, compaction included. |
| `SessionBuffers.SessionBuffer.ReadLen` | jmy_game/servers/libjmy/jmy_session_buffer.cpp:128-134 | Refines the read operation. |
| `SessionBuffers.SessionBuffer.WriteData` | jmy_game/servers/libjmy/jmy_session_buffer.cpp:144-153 | Refines the write operation. |
| `SessionBuffers.SessionBuffer.WriteTwo` | jmy_game/servers/libjmy/jmy_session_buffer.cpp:155-176 | Writing two parts is writing their concatenation, or nothing. |
| `NetProto.EncodeDecode` | jmy_game/servers/libjmy/jmy_net_proto.cpp:91-139 | A packet in front of any bytes is unpacked to its event and length, except a heartbeat with nothing behind it. |
| `NetProto.DecodeStable` | jmy_game/servers/libjmy/jmy_net_proto.cpp:189-347 | More bytes behind a recognised packet or an error do not change the decision. |
| `NetProto.PrefixDecode` | jmy_game/servers/libjmy/jmy_net_proto.cpp:249-340 | A proper prefix of a packet is never taken for a packet or an error, and a known length is the right one. |
| `NetProto.UserDataDecodes` | jmy_game/servers/libjmy/jmy_net_proto.cpp:103-109 | The user-data head and payload are unpacked to message id and payload. |
| `NetProto.UserIdDataDecodes` | jmy_game/servers/libjmy/jmy_net_proto.cpp:111-122 | The user-id-data head and payload are unpacked to user id, message id and payload. |
| `NetProto.GotExactly` | jmy_game/servers/libjmy/jmy_net_proto.cpp:189-347 | Bytes decode as a packet exactly if they start with one, and then as that one: event and length are those of the only packet they can start with. |
| `NetProto.BadExactly` | jmy_game/servers/libjmy/jmy_net_proto.cpp:189-347 | An error is reported exactly for bytes no continuation of which starts with a packet, except that an acknowledgement is waited for until its sixth byte. |
| `NetProto.PacketLayout` | jmy_game/servers/libjmy/jmy_net_proto.cpp:91-140 | Byte by byte: type, user id, length, message id and payload of every packet lie where the packers put them. |
| `DataHandler.UnpackUserData` | jmy_game/servers/libjmy/jmy_net_proto.cpp:249-298 | The branch for user packets fills the record as the decoding of the bytes says, the payload as a span of the block. |
| `DataHandler.UnpackDataHead` | jmy_game/servers/libjmy/jmy_net_proto.cpp:189-347 | Return value and record reflect the decoding of the bytes, in every case; without a byte the record keeps what it held. |
| `DataHandler.Handler.HandleOne` | jmy_game/servers/libjmy/jmy_data_handler.cpp:397-474 | One step: -1 for an error or a refused event, the length of a dispatched packet, 0 with the unread data moved to the front exactly if the incomplete packet needs it. Without bytes it judges by the record of the last call, and may dispatch its message again, from whichever buffer that lies in. |
| `DataHandler.Handler.ProcessData` | jmy_game/servers/libjmy/jmy_data_handler.cpp:101-127 | On unread bytes: dispatches what parsing them dispatches, keeps exactly the unparsed ones, counts the messages, and leaves the last event in the record. On none: the step without bytes, of a record that may be of another buffer, and nothing else. |
| `DataHandler.Handler.ParseAll` | jmy_game/servers/libjmy/jmy_data_handler.cpp:107-125 | The loop, over the real buffer it may compact on the way; it terminates since every continuing step consumes a byte. |
| `DataHandler.ParseSteps` | jmy_game/servers/libjmy/jmy_data_handler.cpp:116-120 | A dispatched packet moves the parse on by its length and never compacts. |
| `DataHandler.ParseStops` | jmy_game/servers/libjmy/jmy_data_handler.cpp:112-115 | Releasing the handled bytes after a compaction that came before leaves exactly the unparsed bytes. |
| `DataStream.ChunkInvariance` | jmy_game/servers/libjmy/jmy_data_handler.cpp:101-127 | For every byte stream, valid or not, and every way of cutting it, the events, the leftover and the verdict are those of one parse of the whole. |
| `DataStream.DrainAppend` | jmy_game/servers/libjmy/jmy_data_handler.cpp:101-127 | Parsing some bytes, then the rest behind the leftover, is parsing all of them. |
| `DataStream.StreamDispatch` | jmy_game/servers/libjmy/jmy_data_handler.cpp:101-127 | Every prefix of a packet stream dispatches the canonical packets in order, each once; what is left is nothing or an unfinished part of the next. |
| `DataStream.WholeStream` | jmy_game/servers/libjmy/jmy_net_proto.cpp:312-322 | A whole stream is complete except for a heartbeat at its very end, which waits for a sixth byte. |
| `DataStream.ChunkedStream` | jmy_game/servers/libjmy/jmy_data_handler.cpp:101-127 | A packet stream in any chunks is dispatched in order, each packet once; nothing is left but a final heartbeat. |
| `DataStream.RefusedStops` | jmy_game/servers/libjmy/jmy_data_handler.cpp:431-435 | Behind accepted packets a refused one is the last dispatched and ends the connection, whatever follows. |
| `DataStream.BadStops` | jmy_game/servers/libjmy/jmy_data_handler.cpp:405-411 | Bytes that are no packet end the connection, behind everything dispatched before them. |
| `DataStream.NeverWedges` | jmy_game/servers/libjmy/jmy_data_handler.cpp:417-428 | After two calls on unread data everything is consumed or there is room to receive, exactly unless what is left is a heartbeat, whole or in part, with no room behind it. There is room exactly unless, besides, a full block was consumed to its last byte. |
| `DataStream.NeverWedgesWithoutHeartbeats` | jmy_game/servers/libjmy/jmy_data_handler.cpp:417-428 | On streams without heartbeats two calls always make progress. |
| `DataStream.HeartbeatWedges` | jmy_game/servers/libjmy/jmy_net_proto.cpp:312-322 | A buffer filled by one heartbeat stays full however often it is processed. |
| `DataStream.CallMakesRoom` | jmy_game/servers/libjmy/jmy_data_handler.cpp:417-428 | A call that starts at an incomplete user packet leaves room for more of it. |
| `DataHandlerIo.WriteUser` | jmy_game/servers/libjmy/jmy_data_handler.cpp:187-197 | A send is taken exactly if its bytes fit beside the unread ones; then they come last. |
| `DataHandlerIo.SendDecodes` | jmy_game/servers/libjmy/jmy_data_handler.h:164-222 | A send is read back as the message that was sent exactly if its data is at most 65533 bytes. |
| `DataHandlerIo.LongSendWraps` | jmy_game/servers/libjmy/jmy_data_handler.h:164-194 | Past that, whatever is read back is shorter than what was sent. |
| `DataTurns.DeliveredExactly` | jmy_game/servers/libjmy/jmy_tcp_connector.cpp:140-182 | On a connector, whose record is its own and whose loop only sends: reading as much as there is room for in every turn, a stream without heartbeats, of packets no longer than the buffer, is dispatched completely, each packet once, in finitely many turns exactly if no full buffer on the way ends with the end of a packet. |
| `DataTurns.RepeatsForever` | jmy_game/servers/libjmy/jmy_tcp_connector.cpp:147-172 | Otherwise, after the packets up to that one, every further turn of the connector receives nothing and dispatches that packet again if it is a message. |
| `DataTurns.StreamSettles` | jmy_game/servers/libjmy/jmy_tcp_connector.cpp:140-182 | Fill by fill, from any buffer that starts with part of the next packet, finitely many turns lead to delivery or to the stuck state. |
| `DataTurns.StuckForever` | jmy_game/servers/libjmy/jmy_tcp_connector.cpp:147-172 | With nothing unread and no room, a turn changes nothing but dispatches the last message once more. |
| `DataTurns.EmptyTurn` | jmy_game/servers/libjmy/jmy_tcp_connector.cpp:147-172 | With no room and part of a packet unread, a turn reads nothing and moves that part to the front. |
| `DataTurns.OnePacketFills` | jmy_game/servers/libjmy/jmy_data_handler.cpp:121-124 | The smallest stuck stream: one packet as long as the buffer. |
| `DataHandlerIo.ChunkReceived` | jmy_game/servers/libjmy/jmy_tcp_connector.cpp:147-172 | One receive, of bytes or of none: what arrived lies behind the unread bytes and all are parsed; the record keeps the last event. |
| `DataHandlerIo.ReceiveAll` | jmy_game/servers/libjmy/jmy_tcp_connector.cpp:147-172 | A run of receives that fit the sliding buffer, empty ones on unread bytes included, shows the handlers exactly what one parse of all the bytes dispatches, and keeps exactly its leftover. |
| `DataHandlerIo.ReceiveTurns` | jmy_game/servers/libjmy/jmy_tcp_connector.cpp:140-182 | Any number of turns over the real buffer and handler show exactly what the turns of `DataTurns` say. |
| `SharedLoop.SharedDispatch` | jmy_game/servers/libjmy/jmy_tcp_connection.cpp:341-354 | Over every interleaving of reads and ticks of any number of connections that share one handler, up to the first failure and as long as no tick moves data a posted read is to be put behind: each connection gets exactly the events of one parse of all its bytes, in order, and the only other entries repeat the message right before them, one for each parse that finds nothing unread while the record holds a message. |
| `SharedLoop.SharedStreams` | jmy_game/servers/libjmy/jmy_tcp_connection.cpp:161-172 | On a stream of packets: each connection gets the first packets of its stream, in order, each once but for those repetitions. |
| `SharedLoop.OnceExactly` | jmy_game/servers/libjmy/jmy_tcp_connection.cpp:442-467 | No packet is dispatched twice exactly if no parse of the run finds nothing unread and a message in the record. |
| `SharedLoop.TickRepeats` | jmy_game/servers/libjmy/jmy_tcp_connection.cpp:461 | The shortest run with a repetition: a message arrives, and the loop ticks. |
| `SharedLoop.RunKeeps` | jmy_game/servers/libjmy/jmy_tcp_connection.cpp:127-467 | The invariant of all connections and their record over any such run, with the number of repetitions. |
| `SharedLoop.SteadyExactly` | jmy_game/servers/libjmy/jmy_data_handler.cpp:417-428 | A tick moves data under a posted read exactly if the unread bytes do not lie at the front and either start with an incomplete user packet that makes the parse compact, or are none while the record holds such a packet of another connection. |
| `SharedLoop.UnsteadyTickLoses` | jmy_game/servers/libjmy/jmy_tcp_connection.cpp:161-166 | After such a tick the next byte is read as itself exactly if it is the byte that already lay behind the unread ones. |
| `SharedLoop.PutShows` | jmy_game/servers/libjmy/jmy_tcp_connection.cpp:161-166 | A read that completes after its place was left behind shows what lies in between first, and of the new bytes the fewer. |
| `SharedLoop.UnsteadyIsReached` | jmy_game/servers/libjmy/jmy_tcp_connection.cpp:442-467 | A run to such a tick: a packet and the first byte of a user packet in one read. |
| `SharedLoop.StuckStep` | jmy_game/servers/libjmy/jmy_data_handler.cpp:412-428 | A full buffer read to its last byte starts over at the front exactly in a parse of its connection that finds an incomplete user packet in the record; every other step of any connection leaves it as it is. |
| `SharedLoop.StuckUntilRescued` | jmy_game/servers/libjmy/jmy_tcp_server.cpp:215 | Over every run it is stuck, and receives nothing, exactly until such a parse. |
| `SharedLoop.AloneIsStuckForever` | jmy_game/servers/libjmy/jmy_data_handler.cpp:412-435 | A connection alone on its handler is stuck for good. |
| `SharedLoop.FullReadSticks` | jmy_game/servers/libjmy/jmy_data_handler.cpp:121-124 | A first read that fills the buffer with whole packets leaves its connection stuck. |
| `SharedLoop.ArrivalRescuesExactly` | jmy_game/servers/libjmy/jmy_data_handler.cpp:412-428 | Bytes that arrive on another connection of the handler free a stuck one at its next tick exactly if they leave that connection with an incomplete user packet. |
| `SharedLoop.OneByteRescues` | jmy_game/servers/libjmy/jmy_data_handler.cpp:412-418 | One byte on another connection of the handler frees it: at its next tick it starts over at the front. |
| `SharedConnections.Connection.Received` | jmy_game/servers/libjmy/jmy_tcp_connection.cpp:162-166 | Refines the landing of a read: its bytes in the place it was posted for, the write offset advanced if there is room. |
| `SharedConnections.Connection.PostRead` | jmy_game/servers/libjmy/jmy_tcp_connection.cpp:161-163 | The next read is posted for all the room behind the unread bytes. |
| `SharedConnections.Server.ParseOne` | jmy_game/servers/libjmy/jmy_tcp_connection.cpp:341-354 | Refines one parse over the real buffers and the one record, unread bytes or none. |
| `SharedConnections.Server.ReadCompleted` | jmy_game/servers/libjmy/jmy_tcp_connection.cpp:161-172 | Refines the read step: the bytes land, all is parsed, the next read is posted. |
| `SharedConnections.Server.TickOne` | jmy_game/servers/libjmy/jmy_tcp_connection.cpp:442-467 | Refines the tick step. |
| `SharedConnections.Server.Serve` | jmy_game/servers/libjmy/jmy_tcp_connection.cpp:127-467 | Any interleaving of reads and ticks over the real objects is the run of `SharedLoop`, up to and including the first failure. |
| `SqlRing.Ring.InsertNames` | jmy_game/servers/mysql/mysql_db_manager.h:202-224 | From any starting slot and for any number of names the result is their comma join, cut once to the buffer: head and destination are always different slots. |
| `SqlRing.Ring.InsertValues` | jmy_game/servers/mysql/mysql_db_manager.h:226-263 | The same for values, formatted in one slot and joined in the next: accumulated text, item and destination are three different slots; null exactly if a value has no format. |
| `SqlRing.Ring.UpdateFields` | jmy_game/servers/mysql/mysql_db_manager.h:265-306 | The recursion over the three slots, at any starting distance, computes the text of `Update`, or prints a buffer into itself exactly where `Update` is undefined. |
| `SqlRing.Ring.UpdateField` | jmy_game/servers/mysql/mysql_db_manager.h:265-298 | One field: undefined exactly if the destination is the accumulated text; the accumulated text is overwritten exactly if it lies in the current slot. |
| `SqlRing.UpdateExact` | jmy_game/servers/mysql/mysql_db_manager.h:300-306 | With a changed field, the text is the comma join of the changed assignments exactly if each changed field has a value and each run of unchanged ones between two changed ones has a length divisible by three; otherwise it is undefined, missing, or has lost the first assignment. |
| `SqlRing.AlignedIsGaps` | jmy_game/servers/mysql/mysql_db_manager.h:151-189 | Following the slots modulo three along the fields amounts to that condition on gaps. |
| `SqlRing.UpdateFrom` | jmy_game/servers/mysql/mysql_db_manager.h:286-297 | In step the text grows by the plain join; out of step its first assignment is lost for good. |
| `SqlRing.NothingChanged` | jmy_game/servers/mysql/mysql_db_manager.h:265-269 | Without a changed field there is no text. |
| `SqlRing.TwoBetween` | jmy_game/servers/mysql/mysql_db_manager.h:286-297 | Two unchanged columns between two changed ones: the text is the second assignment twice. |
| `SqlRing.OneBetween` | jmy_game/servers/mysql/mysql_db_manager.h:286-297 | One unchanged column between two changed ones: a buffer is printed into itself. |
| `SqlAssignments.StatementExact` | jmy_game/servers/db_generator/db_config_parser.cpp:705-723 | Of the dirty columns the statement assigns all if their gaps divide by three; otherwise, if it has a text, some of them but never the first. |
| `SqlAssignments.StatementText` | jmy_game/servers/mysql/mysql_db_manager.h:265-306 | The text formatted for a dirty set is the join of exactly those assignments, or undefined exactly where they are. |
| `SqlAssignments.OutOfStepLoses` | jmy_game/servers/mysql/mysql_db_manager.h:286-297 | Once out of step with the ring, every assignment made before is lost. |
| `SqlText.FitJoin` | jmy_game/servers/mysql/mysql_db_manager.h:210-214 | Cutting at every step of a join is cutting the full join once. |
| `SqlStatements.QueuedExactly` | jmy_game/servers/mysql/mysql_connector_pool.h:49-53 | The text a command is made with is the formatted one exactly if that is shorter than 65536 characters; otherwise it is a proper beginning, shorter by at least 65536. |
| `SqlStatements.CutSeventyThousand` | jmy_game/servers/mysql/mysql_db_manager.cpp:164-172 | A statement of 70000 characters is queued as its first 4464. |
| `SqlStatements.ShortInsertIsWhole` | jmy_game/servers/mysql/mysql_db_manager.h:319-333 | An INSERT shorter than 65536 characters is queued with all its names and values: no buffer on the way cut any. |
| `SqlStatements.ShortUpdateIsWhole` | jmy_game/servers/mysql/mysql_db_manager.h:347-362 | An UPDATE shorter than 65536 characters is queued with all its assignments and its WHERE. |
| `SqlStatements.ShortDeleteIsWhole` | jmy_game/servers/mysql/mysql_db_manager.h:442-458 | A DELETE shorter than 65536 characters is queued as DELETE FROM table WHERE key=value, with all of its WHERE. |
| `SqlStatements.LongDeleteLosesWhere` | jmy_game/servers/mysql/mysql_db_manager.h:456-457 | A longer DELETE, whose WHERE is shorter than that, is queued without any of it: the text ends within the table name. |
| `SqlStatements.CutLosesWhere` | jmy_game/servers/mysql/mysql_db_manager.h:360-361 | A longer UPDATE is queued without any of its WHERE. |
| `SqlStatements.CutFallsBehind` | jmy_game/servers/mysql/mysql_connector_pool.h:49-53 | The cut falls right behind a given beginning of the SET clause exactly if what follows is a multiple of 65536 long; behind whole assignments what is queued updates every row. |
| `SqlStatements.UpdatesEveryRow` | jmy_game/servers/mysql/mysql_db_manager.h:360-361 | For every table and first assignment, a value of the second column with which the UPDATE queued is that of the first column alone, without WHERE. |
| `RecordCache.WriteBehindRefinesEager` | jmy_game/servers/mysql/mysql_records_manager.h:241-292 | For any number of batches of legal commits, loads and changes, any order of the hash map and whatever the update statements write, as long as each statement is shorter than 65536 characters: the rows present after each flush are those present had every commit been executed at once. |
| `RecordCache.CleanColumns` | jmy_game/servers/db_generator/db_config_parser.cpp:589-741 | Over every legal run whose flushed statements are shorter than 65536 characters and whose flushed updates have gaps that divide by three, each column of a cached, stored record that is not CHANGED equals the stored column. |
| `RecordCache.CleanColumnsExact` | jmy_game/servers/db_generator/db_config_parser.cpp:705-738 | After such a run, flushing such an update with a text, whose first dirty column differs from the stored one, keeps that exactly if its gaps divide by three as well. |
| `RecordCache.FlushUpdateExact` | jmy_game/servers/db_generator/db_config_parser.cpp:705-738 | The same for one record; without such gaps the stored first dirty column stays old although it is no longer CHANGED. |
| `RecordCache.ShortUpdateIsExecuted` | jmy_game/servers/mysql/mysql_db_manager.h:347-362 | What is queued for an update shorter than 65536 characters is exactly the assignments of the columns it writes, none cut, and its key. |
| `RecordCache.ShortRequestIsExecuted` | jmy_game/servers/mysql/mysql_records_manager.h:146-171 | What is queued for a pending delete is the DELETE of that key, whose row and record go; for a pending insert the INSERT of every column with its value, which the row then holds. |
| `RecordCache.LongUpdateLosesKey` | jmy_game/servers/mysql/mysql_db_manager.h:360-361 | What is queued for a longer one is a proper beginning of the text in front of its WHERE. |
| `RecordCache.LongUpdateReachesEveryRow` | jmy_game/servers/mysql/mysql_db_manager.cpp:164-172 | The input: two adjacent columns set, the second to a long value. The dirty set is one of those that are formatted correctly, and yet what is queued is the update of the first column for all rows of the table. |
| `RecordCache.TwoCleanBetween` | jmy_game/servers/db_generator/db_config_parser.cpp:705-738 | The input: the outer two of four columns dirty. The first keeps its old value in the row and counts as written. |
| `RecordCache.UpdateWritesAll` | jmy_game/servers/db_generator/db_config_parser.cpp:705-723 | With gaps that divide by three the updated row is the record. |
| `RecordCache.UpdateLosesFirst` | jmy_game/servers/db_generator/db_config_parser.cpp:705-723 | With other gaps a defined statement leaves the first dirty column of the row as it was. |
| `RecordCache.UpdateSaysWhatItWrites` | jmy_game/servers/db_generator/db_config_parser.cpp:705-724 | The row after an update is what the formatted text says: undefined exactly where the row is left open, else the join of the assignments that make the row. |
| `RecordCache.FlushStoresRecords` | jmy_game/servers/mysql/mysql_records_manager.h:146-171 | After a flush every record that was pending insert or update equals its stored row, over runs whose flushed statements are shorter than 65536 characters and whose flushed updates have gaps that divide by three. |
| `ColumnHistory.ColumnsHoldLastGiven` | jmy_game/servers/db_generator/db_config_parser.cpp:589-615 | Over every legal run, told from the operations alone, each column of a cached record holds the value last set since the record was made or loaded, else the stored one it was loaded with, else nothing. |
| `ColumnHistory.FlushStoresLastGiven` | jmy_game/servers/db_generator/db_config_parser.cpp:589-741 | After a flush the row of every record that was pending insert or update holds in each column the value last given to it, over runs whose flushed statements are shorter than 65536 characters and whose updates have gaps that divide by three. |
| `ColumnHistory.DirtyColumnsWereSet` | jmy_game/servers/db_generator/db_config_parser.cpp:603-741 | Over every legal run a column is CHANGED exactly if it was set since the record was made, loaded or last flushed pending insert or update. |
| `RecordCache.FlushSettles` | jmy_game/servers/mysql/mysql_records_manager.h:146-171 | Per record, with a statement shorter than 65536 characters: presence after the flush is the eager one, always; for an insert, and for an update with gaps that divide by three, clean columns stay equal to the row and record and row agree. |
| `RecordCache.FlushIsPointwise` | jmy_game/servers/mysql/mysql_records_manager.h:277-292 | A flush treats each pending record once and leaves the others, whatever the order. |
| `RecordCache.OrderIrrelevant` | jmy_game/servers/mysql/mysql_records_manager.h:277-292 | Any two orders of the hash map give the same result. |
| `RecordCache.RunInvariant` | jmy_game/servers/mysql/mysql_records_manager.h:55-171 | Pending states and eager presence agree over every legal run, and clean columns stay clean while flushed updates have gaps that divide by three. |
| `RecordCache.CommitKeepsCell` | jmy_game/servers/mysql/mysql_records_manager.h:55-126 | Each legal commit keeps pending state, row and eager presence consistent. |
| `RecordCache.DeleteThenInsert` | jmy_game/servers/mysql/mysql_records_manager.h:60-61 | For every record, a delete and an insert cancel: a stored row stays as it is; record and row agree afterwards exactly if they did before or there was no row. |
| `RecordCache.BatchStores` | jmy_game/servers/mysql/mysql_records_manager.h:55-171 | Over whole batches, case by case: a stored row keeps its old contents, whatever the record holds, if the last commit is an insert or there was none; after an update it gets what the statement assigns; without a stored row the record is written. |
| `RecordCache.BatchFallsBehind` | jmy_game/servers/mysql/mysql_records_manager.h:55-171 | After a batch and a flush, record and row agree exactly if no row was stored, or the batch ends in an update, or the two agreed before (updates with gaps that divide by three). |
| `RecordCache.BatchPends` | jmy_game/servers/mysql/mysql_records_manager.h:55-126 | After any legal batch the pending state is determined by the row and the last commit. |
| `RecordCache.UpdateStatementExact` | jmy_game/servers/db_generator/db_config_parser.cpp:705-738 | The SET clause an update request formats is the join of its dirty columns exactly for the dirty sets whose gaps divide by three. |
| `RecordsManagers.RecordsManager.CommitRecord` | jmy_game/servers/mysql/mysql_records_manager.h:55-126 | The three transitions change the pending state of that record alone, as `RecordCache.Pend` says. |
| `RecordsManagers.RecordsManager.CommitInsertRequest` | jmy_game/servers/mysql/mysql_records_manager.h:241-249 | Commits an insert on the record of the key, made if there is none; other keys are untouched. |
| `RecordsManagers.RecordsManager.CommitRequest` | jmy_game/servers/mysql/mysql_records_manager.h:251-275 | Refused exactly if there is no record of the key; otherwise commits on it alone. |
| `RecordsManagers.RecordsManager.GetNew` | jmy_game/servers/mysql/mysql_records_manager.h:214-218 | A fresh record, mapped exactly if its key was free; other keys are untouched. |
| `RecordsManagers.RecordsManager.FlushRecord` | jmy_game/servers/mysql/mysql_records_manager.h:146-171 | One pending record is flushed as its cell says and other keys are untouched; if its statement is cut the table is what the environment makes of it, and records and pending states are the same as if it were not. A deleted record leaves both maps. |
| `RecordsManagers.RecordsManager.UpdateOne` | jmy_game/servers/mysql/mysql_records_manager.h:146-171 | The request of one pending record and its three results; the record becomes what a whole statement would make it whether or not it is cut. |
| `RecordsManagers.RecordsManager.Remove` | jmy_game/servers/mysql/mysql_records_manager.h:232-239 | A record leaves both maps, exactly if it is mapped. |
| `RecordsManagers.Table.Execute` | jmy_game/servers/mysql/mysql_connector_pool.h:49-53 | What is executed is what was meant exactly if the text is shorter than 65536 characters. |
| `RecordsManagers.RecordsManager.UpdateAll` | jmy_game/servers/mysql/mysql_records_manager.h:277-292 | The flush loop settles the cell of every key at once, in whatever order it meets the records, and forgets the pending states; if a statement of it is cut, all but the rows are still as the cells say. |
| `RecordsManagers.TableRecord.InitAll` | jmy_game/servers/db_generator/db_config_parser.cpp:589-601 | Every column holds the stored value and is INITED. |
| `RecordsManagers.TableRecord.SetValue` | jmy_game/servers/db_generator/db_config_parser.cpp:603-615 | The column holds the value and is CHANGED; the others are untouched (`ColumnHistory.ColumnsHoldLastGiven` follows it over runs). |
| `RecordsManagers.TableRecord.InsertRequest` | jmy_game/servers/db_generator/db_config_parser.cpp:635-678 | Every column is COMMITTING. The row is the record if the statement is shorter than 65536 characters; if it is cut, the table is whatever the environment makes of it. |
| `RecordsManagers.TableRecord.DeleteRequest` | jmy_game/servers/db_generator/db_config_parser.cpp:680-692 | The row is gone and others are untouched, with the same condition; the text queued is the DELETE of that key (`RecordCache.ShortRequestIsExecuted`). |
| `RecordsManagers.TableRecord.UpdateRequest` | jmy_game/servers/db_generator/db_config_parser.cpp:694-741 | Fails exactly if no column is CHANGED; otherwise every such column becomes COMMITTING, and the row takes the columns the statement assigns, with the same condition. |
| `BiMaps.InverseIsBijection` | jmy_game/servers/common/bi_map.h:17-61 | Two inverse maps are a bijection: each domain is the other range, no value repeats, sizes agree. |
| `BiMaps.BiMap.Insert` | jmy_game/servers/common/bi_map.h:17-25 | Inserts on both sides exactly if neither is taken; the maps stay inverse. |
| `BiMaps.BiMap.Remove1` | jmy_game/servers/common/bi_map.h:45-52 | Removes the pair from both sides; the maps stay inverse. |
| `BiMaps.BiMap.Remove2` | jmy_game/servers/common/bi_map.h:54-61 | Removes the pair from both sides; the maps stay inverse. |
| `ClientRegistry.RegistryRun` | jmy_game/servers/gate_server/client_manager.cpp:66-139 | Over every run free and used ids split the id range without repetition, the ids accounts map to are exactly the used ones, those connections map to are among them, and both maps are bijections. |
| `ClientRegistry.SlotsConserved` | jmy_game/servers/gate_server/client_array.cpp:54-97 | Free ids plus used ids are as many as slots. |
| `ClientRegistry.RemoveIsAllOrNothing` | jmy_game/servers/gate_server/client_manager.cpp:123-139 | Slot, account and connection are unregistered together, or nothing changes. |
| `ClientRegistry.NewClientRegisters` | jmy_game/servers/gate_server/client_manager.cpp:66-87 | The slot handed out is registered under its account exactly unless the account was mapped and closing its old, live, mapped connection unregistered it on the way. |
| `ClientRegistry.BindExact` | jmy_game/servers/gate_server/client_manager.cpp:110-113 | Binding a connection to a slot keeps the registry intact exactly if the slot is in use or the connection is bound already. |
| `ClientRegistry.FreedExactly` | jmy_game/servers/gate_server/client_array.h:31-37 | Some continuation frees a slot in use exactly if its flag is still set. |
| `ClientRegistry.ClosedSlotLeaks` | jmy_game/servers/gate_server/client_array.h:31-37 | A slot closed by its holder stays taken, with its account, over every later run: freeing asks for the flag that closing cleared. |
| `ClientRegistry.LeakIsReachable` | jmy_game/servers/gate_server/client_handler.cpp:185-189 | Three steps from a new registry a slot is lost for good: a client gets it, is bound to it, and its holder leaves the game, which closes the slot and frees nothing. |
| `ClientRegistry.ApplyKeeps` | jmy_game/servers/gate_server/client_manager.cpp:66-139 | Every operation keeps the registry invariant. |
| `ClientLookups.NewAccountFinds` | jmy_game/servers/gate_server/client_manager.cpp:66-87 | A new account gets the first free slot, found by it, alive and under its name, or none if none is free; every other account, connection and id finds what it found. |
| `ClientLookups.KnownAccountFinds` | jmy_game/servers/gate_server/client_manager.cpp:66-87 | A known account gets its slot; the connection it had finds nothing any more exactly if it was dropped while registered; otherwise nobody else finds anything else. |
| `ClientLookups.RemovedFinds` | jmy_game/servers/gate_server/client_manager.cpp:123-139 | A removed connection, its account and the id of its slot find nothing; the slot is the first to be handed out; all others find what they found. |
| `ClientLookups.BoundFinds` | jmy_game/servers/gate_server/client_manager.cpp:110-113 | A bound connection finds the slot unless one of the two was bound before; the slot remembers the connection in any case. |
| `ClientLookups.ClosedFinds` | jmy_game/servers/gate_server/client_array.h:31-37 | Closing clears the flag exactly if the connection is found, and changes nothing else. |
| `ClientLookups.SlotsRemember` | jmy_game/servers/gate_server/client_manager.cpp:66-113 | Over every run each slot holds the connection bound to it last and the account it was handed out to last. |
| `ClientManagers.ClientInfo.CloseIt` | jmy_game/servers/gate_server/client_array.h:31-37 | Clears the flag exactly if the connection is found. |
| `ClientManagers.ClientArray.constructor` | jmy_game/servers/gate_server/client_array.cpp:13-31 | All ids of the range are free, in order, and every slot knows its id. |
| `ClientManagers.ClientArray.GetFree` | jmy_game/servers/gate_server/client_array.cpp:54-67 | Takes the first free id and marks its slot, touching no other slot; null exactly if none is free. |
| `ClientManagers.ClientArray.Get` | jmy_game/servers/gate_server/client_array.cpp:69-78 | The slot of a used id, null for any other. |
| `ClientManagers.ClientArray.Free` | jmy_game/servers/gate_server/client_array.cpp:80-97 | Frees exactly a used id whose flag is set; otherwise nothing changes. |
| `ClientManagers.ClientManager.constructor` | jmy_game/servers/gate_server/client_manager.cpp:12-18 | A fresh registry. |
| `ClientManagers.ClientManager.NewClientFor` | jmy_game/servers/gate_server/client_manager.cpp:66-87 | Array and maps together take the `NewClient` step and return its slot. |
| `ClientManagers.ClientManager.RemoveByConnId` | jmy_game/servers/gate_server/client_manager.cpp:123-139 | Array and maps together take the `RemoveConn` step; true exactly if it removed. |
| `ClientManagers.ClientManager.InsertConnIdId` | jmy_game/servers/gate_server/client_manager.cpp:110-113 | Binds exactly if neither side is taken; the slot remembers the connection either way; the registry stays intact exactly if the slot is in use or the connection was bound. |
| `Agents.Lockstep` | jmy_game/servers/common/agent.h:94-316 | Two new managers, asked the same sequence of operations with new keys in the range of the array, both give the answers of the one agent table, sizes included. |
| `Agents.AskBoth` | jmy_game/servers/common/agent.h:94-316 | The same for any two managers that hold the same table, which they still do afterwards. |
| `Agents.NewKeepsInverse` | jmy_game/servers/common/agent.h:120-130 | A new agent keeps connections and keys in bijection exactly if it is refused or its connection is unbound. |
| `Agents.InverseRun` | jmy_game/servers/common/agent.h:120-171 | Over every run that creates agents on unbound connections only, the two maps stay inverse and name the same agents. |
| `Agents.FoundIsLive` | jmy_game/servers/common/agent.h:94-316 | Over every run on unbound connections, told from the operations alone: a key finds exactly the agent made for it and not deleted since, a connection the agent made on it, and the size is the agents made less those deleted. |
| `Agents.AnswersFitHistory` | jmy_game/servers/common/agent.h:94-316 | Each answer of such a run, of either manager, is what the operations before it say. |
| `Agents.DeletedIsGone` | jmy_game/servers/common/agent.h:151-164 | A deleted agent is found neither by its key nor by its connection, the size is one less, and every other key and connection finds what it found. |
| `Agents.DeletedByConnIsGone` | jmy_game/servers/common/agent.h:166-171 | The same for a delete by connection; without an agent on it nothing changes. |
| `Agents.NewIsFound` | jmy_game/servers/common/agent.h:120-130 | A new agent is found by its key and connection unless its key was taken, and every other key and connection finds what it found. |
| `Agents.AgentManager.NewAgent` | jmy_game/servers/common/agent.h:120-130 | Takes the table step; refused exactly for a known key. |
| `Agents.AgentManager.GetAgentByConnId` | jmy_game/servers/common/agent.h:138-142 | The agent of the key of the connection, if any. |
| `Agents.AgentManager.DeleteAgent` | jmy_game/servers/common/agent.h:151-164 | Takes the table step; true exactly for a known key. |
| `Agents.AgentManager.DeleteAgentByConnId` | jmy_game/servers/common/agent.h:166-171 | Deletes the agent of the connection, if any. |
| `Agents.AgentManagerPerf.NewAgent` | jmy_game/servers/common/agent.h:230-245 | The same table step on the array; refused also outside its range. The count is the number of agents. |
| `Agents.AgentManagerPerf.GetAgent` | jmy_game/servers/common/agent.h:247-252 | The agent of the key, none outside the range. |
| `Agents.AgentManagerPerf.GetAgentByConnId` | jmy_game/servers/common/agent.h:254-259 | The agent of the key of the connection, if any. |
| `Agents.AgentManagerPerf.DeleteAgent` | jmy_game/servers/common/agent.h:268-286 | The same table step on the array; the count is never 0 when an agent is found. |
| `Agents.AgentManagerPerf.DeleteAgentByConnId` | jmy_game/servers/common/agent.h:288-293 | Deletes the agent of the connection, if any. |
| `ConnectorQueues.PoolRun` | jmy_game/servers/mysql/mysql_connector_pool.cpp:26-81 | Over every interleaving of main thread and workers: on each connector pushed is executed, then in hand, then waiting, answered is collected, then queued; callbacks fire in push order, at most once; all writes execute in push order; what is executed is the text passed to the manager exactly if that is shorter than 65536 characters; the next read index is in bounds. |
| `ConnectorQueues.ExecutesWhole` | jmy_game/servers/mysql/mysql_connector_pool.h:49-53 | Of the commands executed on a connector exactly those are executed with the text they were given that have fewer than 65536 characters. |
| `ConnectorQueues.InPushOrder` | jmy_game/servers/mysql/mysql_connector_pool.cpp:163-189 | Callbacks fire in push order, each at most once, and execution follows push order without gaps. |
| `ConnectorQueues.AnswersIncrease` | jmy_game/servers/mysql/mysql_connector_pool.cpp:37-47 | The results queued keep the order of the commands executed, and each answers one of them. |
| `ConnectorQueues.StepKeeps` | jmy_game/servers/mysql/mysql_connector_pool.cpp:140-160 | Every step keeps the pool invariant, and the index `push_read_cmd` moves on to is in bounds although `push_write_cmd` moves it too. |
| `ConnectorAnswers.PoolAnswersExactly` | jmy_game/servers/mysql/mysql_connector_pool.cpp:26-81 | Over every interleaving, on every connector: collected or queued are exactly the executed commands that are no writes and, on a read connector, whose result was not empty, in order and once each; callbacks have fired exactly for the collected ones that have one. |
| `ConnectorAnswers.PoolServes` | jmy_game/servers/mysql/mysql_connector_pool.cpp:26-81 | After any interleaving every schedule of workers and collections that find something ends within the work left, and then every command pushed was executed in order and every result due was collected. |
| `ConnectorAnswers.GivenIsAsked` | jmy_game/servers/mysql/mysql_connector_pool.cpp:140-160 | With one write connector, over every run, each read connector was given exactly the reads of its turns and the write connector every write, with text, callback and kind as asked. |
| `ConnectorAnswers.ReadsGoRound` | jmy_game/servers/mysql/mysql_connector_pool.cpp:140-160 | With one write connector reads go round the read connectors, and every write starts the round over. |
| `ConnectorAnswers.RunTakesOldest` | jmy_game/servers/mysql/mysql_connector_pool.cpp:163-189 | One call takes the oldest result of every connector that has one, and does nothing else. |
| `ConnectorAnswers.NothingToDoExactly` | jmy_game/servers/mysql/mysql_connector_pool.cpp:26-81 | Nobody finds anything to do exactly if no connector has a command waiting or in hand or a result. |
| `ConnectorPools.ConnectorInfo.PushCmd` | jmy_game/servers/mysql/mysql_connector_pool.h:49-53 | The command is made with the narrowed length and queued: refines the push step. |
| `ConnectorPools.ConnectorInfo.PopCmd` | jmy_game/servers/mysql/mysql_connector_pool.h:145-154 | Refines the pop step: the oldest command, if any. |
| `ConnectorPools.ConnectorInfo.PopRes` | jmy_game/servers/mysql/mysql_connector_pool.h:159-168 | Refines the collect step: the oldest result, if any. |
| `ConnectorPools.ConnectorInfo.ReadWork` | jmy_game/servers/mysql/mysql_connector_pool.cpp:26-52 | Refines the finish step of a read worker: an empty result or a write queues nothing, any other result is queued (`ConnectorAnswers.PoolAnswersExactly`). |
| `ConnectorPools.ConnectorInfo.WriteWork` | jmy_game/servers/mysql/mysql_connector_pool.cpp:54-81 | Refines the finish step of a write worker: a read queues its result even if empty. |
| `ConnectorPools.ConnectorPool.PushReadCmd` | jmy_game/servers/mysql/mysql_connector_pool.cpp:140-149 | The next connector of the round takes the command; the others are untouched. |
| `ConnectorPools.ConnectorPool.PushWriteCmd` | jmy_game/servers/mysql/mysql_connector_pool.cpp:151-160 | The first write connector takes the command, and the read index moves. |
| `ConnectorPools.ConnectorPool.RunOnce` | jmy_game/servers/mysql/mysql_connector_pool.cpp:163-189 | One call is the run of one collection per connector, readers first. |
| `ConnectorPools.ConnectorPool.Interleave` | jmy_game/servers/mysql/mysql_connector_pool.cpp:26-81 | Any interleaving of main thread and workers over the objects of a new pool: on every connector callbacks fire in push order and exactly the texts shorter than 65536 characters are executed as given, and writes execute in the order they were pushed. |
| `LoginSessions.SucceedsExactly` | jmy_game/servers/gate_server/client_manager.cpp:51-64 | A check succeeds exactly if the history holds a grant for it: the latest one of its account, with its code, not used before, at most 100 seconds old. |
| `LoginSessions.OneShot` | jmy_game/servers/gate_server/client_manager.cpp:51-64 | No two successful checks use the same grant. |
| `LoginSessions.TableIsHistory` | jmy_game/servers/gate_server/client_manager.cpp:36-64 | The table holds exactly the current sessions of the history of calls. |
| `LoginSessions.SessionTable.NewAccountSession` | jmy_game/servers/gate_server/client_manager.cpp:36-49 | Replaces the session of the account. |
| `LoginSessions.SessionTable.CheckSessionByAccount` | jmy_game/servers/gate_server/client_manager.cpp:51-64 | A matching code takes the session away, too old or not; a wrong one leaves it. |
| `RoleIds.SameIdExactly` | jmy_game/servers/db_server/game_handler.cpp:143-151 | Ids agree exactly if servers and clocks agree modulo 65536 and counters agree. |
| `RoleIds.ServersApart` | jmy_game/servers/db_server/game_handler.cpp:144-145 | Ids of different servers below 65536 never coincide. |
| `RoleIds.Fields` | jmy_game/servers/db_server/game_handler.cpp:143-151 | The four 16-bit fields of an id, highest first: server, zero, clock, counter. |
| `RoleIds.Generator.Next` | jmy_game/servers/db_server/game_handler.cpp:143-151 | The 64-bit shifts and masks yield the packing of server, clock and counter, which then advances modulo 65536. |
| `RoleIds.Generator.Many` | jmy_game/servers/db_server/game_handler.cpp:147-149 | Of any run of calls, ids fewer than 65536 calls apart differ. |

## Left out

- Sockets, timers, threads and callbacks as such: TCP is a reliable byte FIFO, completions and reads are events of
  any size in any order, clocks and handler results are parameters. Read and write errors are the `Abort` event.
- Protobuf, JSON, HTTP, the MySQL client, logging, memory allocation and the client programs.
- Executing SQL: a request is a row operation that succeeds; failing requests are not modelled.
- `Transport.Delivery`: an end takes no further step once it has force-closed, so what follows a `force_close` that a
  passive end undoes is not covered.
- v2 heartbeats: their four-byte body is never read, so they do not belong in a stream of frames, and nothing sends them.
- The v2 send buffer that is not a list, and `JmyDoubleSessionBuffer`.
- `TcpConnections.TcpConnection.RunOnce`: tick events are left out, received bodies hold their fixed part, and a handler
  does not close its own connection while the list is drained; sends from handlers are `Ask` events around the drain.
- `DataHandler2.ProcessData`: a body shorter than its fixed part is required not to occur; the code would read past it.
  No end sends such a body (`Transport.RunKeeps` proves it of every received packet).
- Null data pointers, for which the writers return 0 without writing.
- `BufferLists.WriteTo`: a buffer is a value that is replaced in the list, not an object with its own allocation.
- `DataHandler.Handler.ProcessData`: a handler does not touch the receive buffer. In the code the handler of a
  disconnect acknowledgement, on a closing connection, clears that buffer in the middle of the parse.
- `DataTurns.DeliveredExactly`: every turn reads all there is room for; how smaller reads move the buffer is covered by
  `DataHandlerIo.ReceiveAll` and `DataStream.NeverWedges`. The check whether an acknowledgement is due, which follows
  the parse of a connector, is assumed to pass.
- `SharedLoop.SharedDispatch`: the run ends with the first failure; what the record still says after it, and where its
  message points once a buffer is freed, is not covered. After a tick that is not steady only the next read is followed.
- `SharedConnections.Server.Serve`: connections have the single sliding buffer. The code gives them one that moves to a
  larger size for a packet that does not fit; while every packet fits the normal size it is the single one. Sessions,
  which have that buffer too, are not modelled separately.
- The `SessionBuffers.SessionBuffer` writers of more than two parts; the handlers never use them.
- `RecordCache.WriteBehindRefinesEager`: says which rows are present; `RecordCache.BatchStores` says what they hold. Both
  of flushes that format no statement of 65536 characters or more.
- `RecordsManagers.TableRecord.UpdateRequest`: where the text is undefined the row becomes whatever the environment
  says, of the same width, and the statement is taken to be shorter than 65536 characters.
- `RecordCache.CleanColumns`: runs in which a flush formats a statement of 65536 characters or more are not covered; what
  the server makes of its beginning, which may reach any row, is up to the environment
  (`RecordsManagers.RecordsManager.UpdateAll` says what still holds).
- `RecordCache.FlushStoresRecords`: likewise.
- The manager with two keys and the map of managers; `clear`, `remove` by key and `insert_new` of the record manager.
- `SqlRing.UpdateExact`: column names are distinct, fit a buffer and hold no `=`.
- The SELECT formatters, escaping and value formats by column type: a value is its formatted text.
- `BiMaps.BiMap.Remove1`: reads the partner before the pair is erased; the code reads it through the erased iterator.
  `Remove2` likewise.
- `ClientManagers.ClientArray.constructor`: only the successful `init`; `clear` and a repeated `init` are left out, and
  so are the role and session fields of a slot.
- `clear` and the state setters of both agent managers; agents are values.
- `ConnectorPools.ConnectorPool.constructor`: connecting and starting threads; a pool has at least one connector of each
  kind. Each locked queue operation is one step; the unlocked size checks before the locks are not modelled.
- Overflow of the read index of the pool after 2^31 writes in a row.
