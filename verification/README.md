# TinyIM: the stateful cores, proved

TinyIM is a chat backend: WebSocket gateways in front of a chat service and a relation service, MySQL
with read replicas, Redis for counters, sessions and service leases, and a web client with its own
protocol codec. This project models the parts of it whose behaviour is decided by state and
interleaving, and proves what they keep over every run.

**Timeline.** Sending stores a body, draws one number per recipient with `INCR`, then inserts the inbox
rows. Each statement is one event of `Store`, so any sequence of events is an interleaving of any number
of requests to the two services; a replica is a prefix of the commit log. `Timeline` adds one client
connection with overlapping syncs against lagging replicas. "No message is lost" is false there:
`INCR` and `INSERT` are two steps, so a row can commit after a higher-numbered one was read.
`LostMessages` builds that run and proves the exact condition: a connection can lose a row if and only if
a row of the same owner with a larger number committed before it. `Inbox` holds the paging
SQL, `ChatService` the request handlers as methods whose every statement extends a run of `Store`,
`SyncClient` the client's cursor.

**Bytes.** `JsBits` defines the 32-bit operators of ECMA-262 the client's codec uses (sections 6.1.6.1.9
to 6.1.6.1.11, 6.1.6.1.17 and 6.1.6.1.19), `Varint` its varint coder next to the canonical form of the Protocol Buffers encoding
specification ("Base 128 Varints"), `SyncCodec` the nested decoder of sync replies ("Length-Delimited
Records"), `SyncSchema` the encoding it reads against `protos/chat.proto`, `Requests` the request encoders read back by a schema-independent parser, and `Frames` the
9-byte framing with the gateway's consuming read loop. Where a round trip has a bound it is proved to be
the exact one.

**Machinery.** `DbPool` is the connection pool over all interleavings of acquiring, waiting, failing and
releasing; `WriteQueue` one session's strand, write queue and graceful kick; `ConnectionManager` the
registry of sessions; `Location` that registry and the shared `im:location` hash across gateways;
`Registry` leases, cached discovery and round robin.

Each stateful core has a `State` and its `Event`s with `Enabled` and `Apply`, an invariant shown to be
kept by every event, and theorems about every `Reachable` state; `Runs` holds what is common to them.
The classes `Tables`, `Pool`, `WebsocketSession`, `Cluster` and `ServiceRegistry` are always at a
reachable state, so every theorem holds of them, and their methods are the source's own steps, tied to
`Apply` by their postconditions. `ChatServer` and `RelationServer` work on `Tables`. The classes without
a step system of their own are tied to functions: `FrameReader` to `Feed`, `Connection` to the
timeline's receive step, `Manager` to what it posts to each session. `Cursor` is the theory of loops
that may move their cursor back, `Arith` holds two facts of arithmetic, `Prelude` shared definitions.

Decisions where the code leaves room or differs from its comments:

- The client sends `type` 1 and comments it as text; in `protos/chat.proto` 1 is IMAGE and 0 is TEXT.
  The model sends 1.
- The client decodes field 3 of a sync reply as `has_more`; the service writes `success` there. The
  round trip says so.
- The body of a single message is stored before friendship is checked, so a refused message leaves a
  body no index row points to.
- A group send replies with success when its batch insert failed, and when the member query failed.
- A frame's length and command are truncated to their header fields, as `htonl` and `htons` do.
- The decoders add signed lengths to their cursor, so a malformed field can move it back and the client
  may then never return; the model keeps the moves, and says exactly when.
- The lengths in nested messages bound a view of the underlying buffer, not of the enclosing message, as
  `new Uint8Array(view.buffer, ...)` does.

## Model

| member | source | states |
|---|---|---|
| Timeline.TimelineSafety | src/chat_server/chat_service_impl.cpp:181-200 | Over every interleaving of sends, lagging replica reads and overlapping syncs: a row at or below the client's cursor that was never delivered committed after a row of the same owner with a larger number |
| Timeline.NothingSkippedInOrder | web_client/src/services/connection_manager.js:182-205 | If the owner's rows committed in number order, every row the cursor has passed was delivered |
| Timeline.InvKept | src/chat_server/chat_service_impl.cpp:278-295 | No single event, of any request or of the client, breaks the safety invariant; in particular a sync answered from an older replica, or arriving late |
| LostMessages.LossExact | src/chat_server/chat_service_impl.cpp:181-200 | Row by row, in every reachable state of the tables: a new connection can lose a row if and only if a row of the same owner with a larger number committed before it |
| LostMessages.InboxLossExact | src/chat_server/chat_service_impl.cpp:181-200 | Hence a user can lose something if and only if two of the user's rows committed out of number order |
| LostMessages.LostForever | web_client/src/services/connection_manager.js:182-205 | A skipped row that no pending sync asks far enough back for is delivered by no continuation of the run |
| LostMessages.OutOfOrderLoses | src/chat_server/chat_service_impl.cpp:227-298 | An overtaken row is itself lost by nothing but ordinary syncs of 50 rows, all answered by one replica that does not hold it yet |
| LostMessages.DisorderIsReachable | src/chat_server/chat_service_impl.cpp:181-200 | Two concurrent sends to one user reach such a state from empty tables |
| Inbox.PageSpec | src/chat_server/chat_service_impl.cpp:257-263 | A forward page holds the lowest-numbered rows above the given number, ascending, at most `limit`; a row left out lies above a full page |
| Inbox.LatestSpec | src/chat_server/chat_service_impl.cpp:247-254 | The reverse page holds the highest-numbered rows, descending, at most `limit`; a row left out lies below a full page |
| Inbox.InboxContents | src/chat_server/chat_service_impl.cpp:257-263 | The selected inbox holds exactly the owner's rows |
| Inbox.InboxAscending | src/chat_server/chat_service_impl.cpp:257-263 | With the unique key on (owner, number), the inbox is strictly ascending |
| Inbox.NextPage | src/chat_server/chat_service_impl.cpp:278-295 | Continuing from a page's max_seq leaves exactly the rows that page did not return |
| Inbox.PagingDrains | src/chat_server/chat_service_impl.cpp:227-298 | Repeated forward sync on a fixed inbox returns every row above the start once, in order, in exactly ceil(m/limit) non-empty pages, and then an empty page with max_seq unchanged |
| Inbox.MaxSpec | src/chat_server/chat_service_impl.cpp:279-291 | The fold's result bounds the start and every row, and is one of them |
| Store.SeqIntegrity | src/chat_server/chat_service_impl.cpp:79-111 | In every run (owner, number) stays unique without help from the unique key, and no committed number exceeds its owner's counter |
| Store.ReferentialOnReplicas | src/chat_server/chat_service_impl.cpp:31-42 | On every replica prefix in every run, each index row finds its body |
| Store.OwnBody | src/chat_server/chat_service_impl.cpp:31-42 | The join finds the right one: on every replica holding it, each committed body is what its id leads to |
| Store.RowsContents | src/chat_server/chat_service_impl.cpp:107-111 | The index table holds exactly the rows of the committed batches |
| Store.StrangerRule | src/chat_server/chat_service_impl.cpp:155-179 | Over all runs of both services relations have status 1 and are symmetric, and every row whose body has no group and a type other than 3 and 4 has a status-1 relation from its sender to its owner |
| Store.FanOutMember | src/chat_server/chat_service_impl.cpp:79-111 | A successful batch insert, whatever ran in between, gives each member exactly one new row, with this message's id, the group (or the sender) as its other side, and the number it drew from that member's counter |
| Store.FanOutOther | src/chat_server/chat_service_impl.cpp:107-111 | It changes no other inbox |
| Store.InvKept | src/chat_server/chat_service_impl.cpp:31-200 | Every statement of every request keeps all of the tables' invariants |
| ChatService.Tables.InsertBody | src/chat_server/chat_service_impl.cpp:31-42 | One body row under the next auto-increment id; the tables stay those of a run |
| ChatService.Tables.Incr | src/chat_server/chat_service_impl.cpp:182-190 | The counter's next number, an absent key counting from 0 |
| ChatService.Tables.InsertIndex | src/chat_server/chat_service_impl.cpp:107-111 | All rows of the batch as one log entry, or none; nothing else changes |
| ChatService.Tables.InsertRelations | src/user_server/relation_service_impl.cpp:81-91 | Both directions in one statement, existing rows kept |
| ChatService.ChatServer.DrawNumbers | src/chat_server/chat_service_impl.cpp:79-105 | One INCR for each member and nobody else, and one tuple per member under that number |
| ChatService.ChatServer.FanOut | src/chat_server/chat_service_impl.cpp:72-111 | The batch is committed whole or, on failure, not at all, with the counters already moved |
| ChatService.ChatServer.SendGroup | src/chat_server/chat_service_impl.cpp:46-151 | Empty or unreadable member list, failed batch and success all reply success with the body's id; the log says which it was |
| ChatService.ChatServer.SendSingle | src/chat_server/chat_service_impl.cpp:152-224 | A message of a type other than 3 and 4 without a readable status-1 relation is refused without a number; any other moves the receiver's counter by one and gets one row, unless that insert fails, which leaves a gap |
| ChatService.ChatServer.SendMessage | src/chat_server/chat_service_impl.cpp:26-225 | The whole call over the old tables, path by path: reply, every log entry with its contents, and every counter; and the history of statements it adds to |
| ChatService.SyncMessages | src/chat_server/chat_service_impl.cpp:227-298 | Forward: the user's lowest-numbered rows above local_seq, ascending, at most limit (10 for limit <= 0), none left out but above a full page, as the timeline system answers. Reverse: the highest, descending, none left out but below a full page. Each with its own body; max_seq the largest of local_seq and the numbers returned; the error replies |
| ChatService.TimelineReply | src/chat_server/chat_service_impl.cpp:255-264 | What a forward query selects, and its max_seq, are the timeline system's reply |
| ChatService.FetchRows | src/chat_server/chat_service_impl.cpp:278-293 | The row loop builds one message per row, in order, each with its own body, and the running maximum |
| ChatService.SyncOnReplica | src/chat_server/chat_service_impl.cpp:248-263 | On any replica of tables the services produced, an answered sync meets no NULL body and is such a page, the unique key being proved and not assumed |
| ChatService.RelationServer.AcceptFriend | src/user_server/relation_service_impl.cpp:71-109 | Accepting leaves the two related both ways, touches no other relation, and sends the requester exactly one SYSTEM message, also when the insert failed; declining changes nothing |
| SyncClient.Connection.OnSyncResp | web_client/src/services/connection_manager.js:182-205 | Both branches are the timeline's receive step: show every message, move the cursor with max, never back |
| SyncClient.Connection.SyncMessages | web_client/src/services/connection_manager.js:271-279 | Online, one request for 50 from the current cursor; otherwise none |
| SyncClient.Connection.OnPushNotify | web_client/src/services/connection_manager.js:165-168 | A push only triggers a sync from the current cursor |
| Frames.ChunkingIndependence | src/gateway/websocket_session.cpp:121-324 | However a stream is cut into reads: same packets, same closed flag and, if open, same leftover as one read of the whole |
| Frames.DrainAppend | src/gateway/websocket_session.cpp:121-143 | Draining a buffer and then more input equals draining both together; a bad magic stays one |
| Frames.StreamRoundTrip | src/gateway/websocket_session.cpp:327-341 | Any list of frames followed by a proper prefix of one more parses to the list and leaves that prefix untouched |
| Frames.FrameExact | src/gateway/websocket_session.cpp:327-341 | One frame comes back as itself if and only if its command fits 16 bits and its length 32 |
| Frames.DrainConserves | src/gateway/websocket_session.cpp:320-322 | The buffer is, packet by packet, a header announcing the packet's command and length, then its body, and last what is left over, in which there is no complete frame: no byte is lost or made up |
| Frames.ClientAgrees | web_client/src/utils/im_protocol.js:69-84 | The client's parser reads every message that is one whole frame as the gateway does |
| Frames.HeaderOfFrame | src/gateway/websocket_session.cpp:327-333 | The packed header carries magic, version, and command and length modulo their field widths |
| Frames.FrameBytes | src/gateway/websocket_session.cpp:327-341 | Byte by byte: the magic, version 1, command and length most significant byte first, then the body |
| Frames.SendPacket | src/gateway/websocket_session.cpp:327-341 | The allocated packet is the frame of the command and body |
| Frames.BuildMessage | web_client/src/utils/im_protocol.js:47-67 | The client's buffer is the same bytes as the gateway's packet |
| Frames.ClientReadsFrame | web_client/src/utils/im_protocol.js:47-84 | For every command and body the client's parser gives back the body of a built message, magic and version, and command and length modulo their field widths |
| Frames.WrongMagicCloses | src/gateway/websocket_session.cpp:126-130 | Any frames followed by nine bytes that do not start with "IM": the frames are dispatched and the session closes |
| Frames.LeftOver | src/gateway/websocket_session.cpp:121-137 | The loop closes if and only if such bytes are left over, and otherwise stops for want of a header or a body |
| Frames.FrameReader.OnRead | src/gateway/websocket_session.cpp:118-324 | One completed read appends, dispatches every whole frame in order, and closes if and only if what is left over has nine bytes with a wrong magic |
| Frames.FrameReader.ReadAll | src/gateway/websocket_session.cpp:104-324 | A whole stream ends as if it had arrived at once, on a wrong magic after any frames too |
| Varint.EncoderExact | web_client/src/utils/im_protocol.js:88-96 | The encoder writes the canonical form of a non-negative integer if and only if it is below 2^32 |
| Varint.EncodeVarint | web_client/src/utils/im_protocol.js:88-96 | The loop with its 32-bit shifts yields the canonical form of every value below 2^32 |
| Varint.CanonicalPrefixFree | web_client/src/utils/im_protocol.js:88-96 | No canonical varint is a prefix of another |
| Varint.VarintRoundTrip | web_client/src/utils/im_protocol.js:273-286 | Before any bytes, decoding an encoded non-negative Number gives its low 32 bits signed and the encoded length; the Number itself if and only if it is below 2^31 |
| Varint.DecodeExact | web_client/src/utils/im_protocol.js:273-286 | A canonical varint of any size decodes to its value if and only if that is below 2^31 |
| Varint.DecodeCanonical | web_client/src/utils/im_protocol.js:273-286 | At any offset, a canonical varint below 2^32 is read as its signed 32-bit value with its exact length |
| Varint.DecodeVarint | web_client/src/utils/im_protocol.js:273-286 | The loop reads what the recursive specification reads, and throws where the view ends and before it begins |
| Varint.DecodeEnds | web_client/src/utils/im_protocol.js:273-286 | A read ends at the first byte below 128, and throws if and only if there is none or the offset lies before the view |
| Varint.SixthGroupWraps | web_client/src/utils/im_protocol.js:280-281 | Past 32 bits the shift count wraps: a sixth group lands on bit 3 |
| JsBits.MaskIsMod | web_client/src/utils/im_protocol.js:88-96 | Masking with k ones is the remainder modulo 2^k, so the codec's masks take the groups of the standard |
| JsBits.DisjointOrIsSum | web_client/src/utils/im_protocol.js:273-286 | Or-ing in a shifted group adds it |
| SyncCodec.SyncExact | web_client/src/utils/im_protocol.js:370-413 | A reply whose messages are shorter than 2^31 bytes survives encoding and nested decoding if and only if all its integers and string lengths are below 2^31 |
| SyncCodec.SyncRoundTrip | web_client/src/utils/im_protocol.js:370-452 | Within that bound: same max_seq, same messages in the same order, omitted defaults restored, at any place in the buffer |
| SyncCodec.ItemExact | web_client/src/utils/im_protocol.js:415-452 | One message survives if and only if its integers and string lengths are below 2^31 |
| SyncCodec.ItemRoundTrip | web_client/src/utils/im_protocol.js:415-452 | A message comes back field by field wherever its view lies |
| SyncCodec.ItemForward | web_client/src/utils/im_protocol.js:415-452 | Whatever fields of a later schema follow the known ones, the client reads the same message |
| SyncCodec.SyncForward | web_client/src/utils/im_protocol.js:396-407 | The outer decoder skips such fields anywhere |
| SyncCodec.SyncBreaks | web_client/src/utils/im_protocol.js:408-411 | At an unknown field of a wire type other than 0 and 2 the outer decoder stops with what it has |
| SyncCodec.ItemStepsOver | web_client/src/utils/im_protocol.js:425-450 | The nested decoder only steps over such a tag |
| SyncCodec.Truncated | web_client/src/utils/im_protocol.js:384-390 | A string or message that claims more bytes than the buffer has throws |
| SyncSchema.ItemSchema | protos/chat.proto:43-51 | A schema-independent parser finds each value of an encoded message at its field number, zeros and empty strings left out, and nothing else |
| SyncSchema.RespSchema | protos/chat.proto:53-57 | Likewise for the reply, with its messages in order |
| SyncCodec.DecodedFits | web_client/src/utils/im_protocol.js:415-452 | On all bytes on which the decoder returns, what it returns lies within signed 32 bits |
| SyncCodec.DecodeMessageData | web_client/src/utils/im_protocol.js:415-452 | On every view on which the loop ends at all, the cursor loop, backward moves included, computes the specification; on the others it has no result |
| SyncCodec.ItemLoopsExact | web_client/src/utils/im_protocol.js:425-450 | The loop never ends if and only if its cursor comes back to an offset, which shows within one iteration more than the view has bytes |
| SyncCodec.ItemAdvances | web_client/src/utils/im_protocol.js:437-447 | A step moves the cursor forward if and only if it does not skip a field whose decoded length is so negative that header plus length is at most 0 |
| SyncCodec.ItemReturns | web_client/src/utils/im_protocol.js:437-447 | Where no skipped length decodes negative, or none by as much as its header, the decoder returns or throws |
| SyncCodec.ItemLoopsForever | web_client/src/utils/im_protocol.js:437-447 | Six bytes, a field 8 of length -6, on which it never returns |
| SyncCodec.DecodeMsgSyncResp | web_client/src/utils/im_protocol.js:370-413 | Likewise for the outer message, with its break on an unknown wire type |
| SyncCodec.SyncLoopsExact | web_client/src/utils/im_protocol.js:376-411 | The outer loop never ends if and only if its cursor comes back to an offset or stays at a nested message that never ends |
| SyncCodec.SyncAdvances | web_client/src/utils/im_protocol.js:376-411 | A step moves forward unless it skips a field of negative length that outweighs its header, or enters a nested message that never ends |
| SyncCodec.SyncReturns | web_client/src/utils/im_protocol.js:376-411 | Without those two cases the outer decoder returns or throws |
| SyncCodec.NestedLoops | web_client/src/utils/im_protocol.js:384-391 | A reply starting with a message on which the nested decoder never returns never returns either |
| Cursor.EndlessExact | web_client/src/utils/im_protocol.js:425-450 | Of any table of next offsets: a walk is endless if and only if it revisits an offset, if and only if it outlasts the table's length |
| Requests.EncodeMsgSendReq | web_client/src/utils/im_protocol.js:129-151 | A generic parser finds sender, receiver, type and content at the schema's field numbers; ids modulo 2^32, so exactly below it |
| Requests.EncodeGroupMsgReq | web_client/src/utils/im_protocol.js:248-270 | The same with the group at its own field and no receiver |
| Requests.EncodeMsgSyncReq | web_client/src/utils/im_protocol.js:204-213 | User, cursor and limit at the schema's fields |
| Requests.EncodeFriendApplyReq | web_client/src/utils/im_protocol.js:153-171 | Applicant, target and remark at the schema's fields |
| Requests.EncodeFriendHandleReq | web_client/src/utils/im_protocol.js:173-193 | User, a zero apply_id, requester and the decision at the schema's fields |
| Requests.ParseJsVarint | web_client/src/utils/im_protocol.js:88-96 | A standard parser sees every non-negative Number as its low 32 bits, also where the encoder pads |
| Requests.ParseAll | web_client/src/utils/im_protocol.js:129-193 | Any list of pushed fields parses to those fields, in order, with nothing left over |
| DbPool.Conservation | src/common/db_pool.cpp:95-202 | In every run each active count is the number of queued plus handed-out connections, none is held twice, and master and slave share none |
| DbPool.BoundExact | src/common/db_pool.cpp:38-74 | No run exceeds max_conns on either side if and only if max_conns is at least 2 and at least the number of slave hosts |
| DbPool.Routing | src/common/db_pool.cpp:133-184 | Queued or handed out on the master side means connected to the master, on the slave side to a configured slave; fallback reads go back to the master's queue |
| DbPool.LockOrder | src/common/db_pool.cpp:133-184 | Mutual exclusion in every run; the owner of the master lock waits for no lock, the owner of the slave lock never for the slave lock |
| DbPool.NoLockCycle | src/common/db_pool.cpp:156-161 | No run has a circle of threads each waiting for a lock the next one owns; a chain of waits has at most three threads |
| DbPool.NoDeadlock | src/common/db_pool.cpp:95-202 | While any thread is inside a call, some thread inside can take its next step |
| DbPool.InvKept | src/common/db_pool.cpp:95-202 | Every taking of a lock and every critical section, with any answers of the network, keeps conservation, bounds, routing and lock ownership |
| DbPool.Pool.constructor | src/common/db_pool.cpp:38-74 | Two attempts on the master and one per slave host: exactly the successes are queued and counted |
| DbPool.Pool.GetWriteConnection | src/common/db_pool.cpp:95-131 | Called with the master lock free: a new connection if the queue is empty, the bound allows one and it can be made; the wait if and only if the queue is empty otherwise; else the front or its replacement; and the lock is given back |
| DbPool.Pool.GetReadConnection | src/common/db_pool.cpp:133-159 | The same on the slave side, and on the master side when no slaves are configured |
| DbPool.Pool.FallBack | src/common/db_pool.cpp:155-161 | A timed-out read gets a master connection under the slave lock, which is given back with the answer and kept through a further wait |
| DbPool.Pool.BeginWrite | src/common/db_pool.cpp:95-114 | With the lock: lazy creation happens if and only if the queue is empty, the count is below the bound and the network allows it; what is handed out goes to the master and was nobody's |
| DbPool.Pool.EndWrite | src/common/db_pool.cpp:108-131 | When wait_for has the lock again: nothing on a timeout, another wait if somebody was quicker, else the queue's front or its replacement |
| DbPool.Pool.BeginRead | src/common/db_pool.cpp:138-159 | The same on the slave side |
| DbPool.Pool.EndRead | src/common/db_pool.cpp:155-184 | On an empty queue a timed-out read goes on to wait for the master lock while it owns the slave lock, one that has time left waits again |
| DbPool.Pool.TakeMaster | src/common/db_pool.cpp:116-130 | The front if it answers the ping, a new connection in its place if not, and nothing but a slot less if that fails too |
| DbPool.Pool.TakeSlave | src/common/db_pool.cpp:163-183 | The same with a random slave host |
| DbPool.Pool.ReleaseMasterConnection | src/common/db_pool.cpp:190-195 | The deleter puts the connection back at the end of the master's queue |
| DbPool.Pool.ReleaseSlaveConnection | src/common/db_pool.cpp:197-202 | The deleter puts the connection back at the end of the slave queue |
| WriteQueue.QueueRefinement | src/gateway/websocket_session.cpp:343-375 | In every run what was posted is what completed, then the queue, then what the strand still holds, in order; at most one write is in flight and it is the queue's front; without errors a non-empty queue has one |
| WriteQueue.NoStall | src/gateway/websocket_session.cpp:355-375 | A queue stands still only after a failed write, and the next handler starts it again |
| WriteQueue.KickBeforeClose | src/gateway/websocket_session.cpp:355-398 | When Close has been issued, the kick packet and everything pushed before it had completed |
| WriteQueue.GracefulKick | src/gateway/websocket_session.cpp:377-398 | However any run goes on after a first kick: by the time of Close, all that was posted before it and then the kick packet have completed, in order |
| WriteQueue.KickPacketBytes | src/gateway/websocket_session.cpp:377-391 | The kick packet, byte for byte |
| WriteQueue.CloseAfterDrain | src/gateway/websocket_session.cpp:370-374 | With nothing more sent, Close comes with exactly as many completions as the queue was long |
| WriteQueue.WebsocketSession.DoWrite | src/gateway/websocket_session.cpp:343-353 | Starts the front unless a write is in flight or the queue is empty |
| WriteQueue.WebsocketSession.Send | src/gateway/websocket_session.cpp:400-405 | Only posts; the queue is untouched until the strand runs it |
| WriteQueue.WebsocketSession.SendPacket | src/gateway/websocket_session.cpp:327-341 | Posts the frame of the command and body |
| WriteQueue.WebsocketSession.Kick | src/gateway/websocket_session.cpp:377-398 | Posts a kick behind everything posted before |
| WriteQueue.WebsocketSession.RunHandler | src/gateway/websocket_session.cpp:377-405 | The oldest handler pushes its message, a kick also asks for the close, and a write is in flight afterwards |
| WriteQueue.WebsocketSession.OnWrite | src/gateway/websocket_session.cpp:355-375 | Pops the written message; the next one is started if and only if there is one and the write succeeded; Close if and only if the queue is empty and a kick ran |
| ConnectionManager.Manager.Join | src/gateway/connection_manager.cpp:12-16 | The session is added to this user's set and to no other |
| ConnectionManager.Manager.Leave | src/gateway/connection_manager.cpp:18-27 | The session is removed from this user's set only, and an empty set is dropped |
| ConnectionManager.Manager.SendToUser | src/gateway/connection_manager.cpp:29-36 | Every joined session of the user gets the message once |
| ConnectionManager.Manager.KickUser | src/gateway/connection_manager.cpp:38-53 | Exactly the user's joined sessions whose device is the given one, all of them for the empty device, get one kick; each other one is as before; each kicked one that was not being kicked already closes only after everything posted before and then the kick packet completed |
| Location.LocationSound | src/gateway/websocket_session.cpp:50-66 | In every interleaving across gateways, an entry (user, device) -> gateway means that the session that wrote it is still registered there for that user with that device |
| Location.EntryStands | src/gateway/websocket_session.cpp:105-116 | A located session's entry stands unless another session of the same user and device has itself written or closed |
| Location.FoundExact | src/gateway/websocket_session.cpp:50-116 | For any sessions with positive users that are going to connect, on any gateways: every interleaving keeps each located one's entry if and only if no two of them share a user and a device |
| Location.LocatedYetMissing | src/gateway/websocket_session.cpp:105-116 | The converse of soundness fails for every two sessions that share user and device: the close of the one erases the entry of the other, which stays registered |
| Location.Cluster.Join | src/gateway/connection_manager.cpp:12-16 | One registration, as one command of the run |
| Location.Cluster.HSet | src/gateway/websocket_session.cpp:59-62 | One hash write, as one command of the run, after the registration |
| Location.Cluster.HDel | src/gateway/websocket_session.cpp:105-108 | One hash deletion, of the key whoever wrote it |
| Location.Cluster.Leave | src/gateway/connection_manager.cpp:18-27 | One removal from the registry, after the deletion |
| Location.Cluster.OnAccept | src/gateway/websocket_session.cpp:50-72 | An authenticated session's commands are Join and then HSet, an anonymous one's none; registry and hash change at its own user only |
| Location.Cluster.OnLogin | src/gateway/websocket_session.cpp:271-297 | An anonymous session takes its id, joins and then writes; a second login runs no command |
| Location.Cluster.OnClosed | src/gateway/websocket_session.cpp:104-116 | The commands are HDel and then Leave, in that order |
| Registry.Staleness | src/common/service_registry.cpp:31-94 | In every run a cached address was registered for that service and, when refreshes complete within a gap P of their predecessor's start, renewed within the last T + P |
| Registry.StalenessTight | src/common/service_registry.cpp:66-94 | For every P a run meets T + P exactly |
| Registry.LiveIsPublished | src/common/service_registry.cpp:75-91 | An address whose lease, as it stood at KEYS, still runs at publication is in the published list |
| Registry.CachedOnce | src/common/service_registry.cpp:75-91 | A cached list never repeats an address |
| Registry.KeysOfService | src/common/service_registry.cpp:76-77 | The key pattern of a service matches that service's keys and no other's, when names hold no colon |
| Registry.IndexInRange | src/common/service_registry.cpp:126-137 | However the list changes between calls, each call leaves the index inside the list it used |
| Registry.FairRound | src/common/service_registry.cpp:126-137 | Of any n consecutive calls on n addresses exactly one picks a given position |
| Registry.EachServedOnce | src/common/service_registry.cpp:126-137 | While n distinct addresses stay listed, any n consecutive calls return each exactly once |
| Registry.RotationStep | src/common/service_registry.cpp:128-137 | The step `Discover` takes on an index is the step of the rotation these three are about |
| Registry.ServiceRegistry.Discover | src/common/service_registry.cpp:96-140 | The cached list or, where it is empty, exactly the addresses alive now; the address at this service's index, or the first when that is out of range, and the index one further round the list; no other index moves; nothing when nobody is alive |
| Registry.ServiceRegistry.GetNext | src/common/service_registry.cpp:80-85 | A key's address is kept if and only if its lease still runs at its own GET |
| Registry.ServiceRegistry.RefreshService | src/common/service_registry.cpp:75-91 | One service's KEYS, GETs and publication extend the run, with time and renewals in between: the list holds no address that was dead at KEYS or of another service, none twice, and misses none whose lease still runs |
| Registry.ServiceRegistry.RefreshCache | src/common/service_registry.cpp:66-94 | That for every observed service, and no other service's list changes |
| Registry.ServiceRegistry.SetEx | src/common/service_registry.cpp:31-57 | One renewal of the lease under the service's key, as one command of the run |
| Registry.ServiceRegistry.Observe | src/common/service_registry.cpp:23-29 | A service is observed once |

## Left out

- Registration, login and logout in the auth service; a kick arrives as an input. Strict one session per device does not hold and is not claimed.
- Exactly-once delivery and dense numbers: neither holds. Two overlapping syncs can return the same rows, and a failed insert leaves a gap.
- A failed `INCR` writes number 0, which forward sync never returns; the model takes every `INCR` to succeed.
- Push notifications to gateways: best effort with exceptions swallowed, so no delivery is claimed; only what the client does on receiving one.
- Group membership of the sender, group management, friend lists, and the request table of `ApplyFriend`; its FRIEND_REQ message is one of the sends of `Store`.
- Message text, `is_sender` and `created_at` in the tables; SQL text and escaping.
- `Timeline` models one connection; a new one starts at cursor 0. The heartbeat's extra sync is one more `Ask`.
- SyncClient.Connection.OnSyncResp: keeps every message shown; the source's log keeps the last 100 lines.
- The two services' 64-bit widths: ids and numbers are unbounded in `Store` and `Inbox`.
- UTF-8: contents are bytes, without the client's TextEncoder and TextDecoder.
- SyncCodec.DecodeMessageData: requires that the loop ends, since where it does not there is no result; ItemLoopsExact says when.
- SyncCodec.DecodeMsgSyncResp: the same, with SyncLoopsExact.
- SyncCodec.SyncExact: takes each message's encoding as shorter than 2^31 bytes; beyond that the length itself wraps.
- Requests.EncodeMsgSendReq: ids are non-negative integers; negative and fractional Numbers are outside the schema.
- The encoders for creating and joining groups: their field numbers differ from `protos/relation.proto`. The other decoders of the client repeat the modelled pattern.
- `WebsocketSession` is modelled in three parts, its reading (`Frames.FrameReader`), its writing (`WriteQueue.WebsocketSession`) and its registration (`Location.Cluster`); what the command handlers ask of other services is not modelled.
- ConnectionManager.Manager.KickUser: one call under its lock; a session joining afterwards is not kicked.
- Location.Cluster.OnClosed: sessions closed for a bad magic skip it in the source, so joined and open do not coincide; crashes of a gateway leave entries behind.
- Location.Cluster.OnLogin: takes positive ids; zero or negative ones let a session log in twice. Redis commands succeed.
- DbPool.Pool.BeginWrite: one critical section; other threads' events interleave between the sections in the step system, not inside the method. The same holds for the other methods of the pool.
- The three seconds of a wait: a flag says whether they are over. Fairness of the mutexes and condition variables.
- Ping and connect failures, random draws and timeouts are parameters of the pool's steps.
- Registry.ServiceRegistry.Discover: its direct query is one moment in time. Redis commands succeed, and service names hold no colon or glob character.
- Which of the listed addresses is meant by a position when the list changes between calls: only the index's range is claimed.
- HTTP handling, configuration, logging, the channel pool, the React interface, timers and scripts.
