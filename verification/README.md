# Lars: reactor, route service and load balancing, verified

A Dafny model of the network layer of the repository (`lars_reactor`), of the route service built on it
(`lars_dns`), and of the choice of hosts in the agent (`lars_agent`), with proofs about runs of the model.
`dafny verify dfyconfig.toml` checks everything.

## How the modules follow the program

| files | part of the program |
|---|---|
| `IoBuf`, `BufPool`, `ReactorBuf`, `OutBuf` | pooled buffers: linked free lists, allocation and return, growth by copying, compaction in place; `OutBuf` specifies the output buffer by array, head and length |
| `Bytes`, `Codec`, `Framing` | the frame format, the read loops of both sides, `send`, the flush loop |
| `EventLoop`, `Connection`, `Client`, `Crew` | the event table and dispatch; connections and their write interest; connecting; many connections of one pool |
| `Stream`, `Jam`, `Channel` | one direction of a connection from end to end; sending on after a failed message; the buffers behind it |
| `TaskQueue` | the queue and the eventfd through which threads hand tasks to a loop |
| `ConnLifecycle`, `ConnCycle`, `Server`, `LoopPool` | accepting, closing and destroying connections on several threads; spreading them over loops |
| `RouteKeys`, `RouteStore` | packed keys; the two route maps, their readers and the refresh |
| `ChangeLog`, `LostChange`, `Announce`, `RouteChecker` | the version and change-log protocol against any administrator; which changes are lost; what becomes of the others; the loop on the store |
| `Subscribe` | subscriptions and publication on one loop |
| `Rotation`, `LoadBalance` | turns; the choice of a host |

Objects that the program updates in place are classes over the heap, and their methods are proved against
functions of the abstract state. Behaviour of several threads is a state machine: a datatype of states, a
`Step` per lock region or system call (a step that is not enabled changes nothing), and `Run` over a list of
labels; the main results are about every run. The classes `Channel`, `TaskQueue`, `TcpServer` and `RouteChecker` tie
the methods to these machines: each method extends a trace, and the fields are always the state the trace leads to.
In `RouteStore` the steps of the other threads are a method that may run between any two statements.

## Where the code departs from its intent

The code is followed; each departure has its exact condition or an example.

- `lars_reactor/src/buf_pool.cc:174` tests the old pointer after allocating a new buffer, so growth always exits.
  The pool carries a constant `growthTest`: `AsWritten` is that test and `Intended` the test of the new pointer. All results hold for both.
- `lars_reactor/src/buf_pool.cc:148-151` never chooses the 16K class (`BufferPool.ClassFor`).
- The constructor enters less in the account than it allocates: 95572 KB (`BufferPool.MemoryAtStart`).
- `lars_reactor/src/tcp_conn.cc:95` fetches the data pointer once, before the loop. `Codec.StaleDrainExactly` says for which buffers that
  makes no difference, `Streams.ServerRunsAlike` and `Streams.ServerParts` for which runs.
- The length check lets 0 to 7 through, where the body length is negative: the decoder ends in `Undefined`. A sender of
  this program does not produce it unless a body fails below the largest array (`Streams.DeliveredIsPrefix`).
- When the body of a message finds no room, `send` removes the header from the wrong end of the output buffer
  (`lars_reactor/src/tcp_conn.cc:72`), and later sends go on. `Outputs.FramedAtStart` says what is left. If the array is the largest one, which it
  is for every message of acceptable size, the head stays where it is and the next flush ends at its assertion. In a smaller
  array a later message moves the damaged bytes to a larger one, and they are sent: `Jams.NeverSent` delivers a message
  that was never sent. `Jams.HarmlessExactly` and `Jams.SafeExactly` give the exact condition, `Streams.FailsBelowTopExactly` puts it in terms of the buffer before the call, `Jams.DeliveredIfConforming` the case of acceptable messages.
- With no amount announced, `read_data` reads up to 4096 bytes into whatever room is left: `ReactorBuffer.ReactorBuf.ReadData`, outcome `Overrun`, with its exact condition.
- Subscriptions are keyed by `int`, so services with the same command number are one (`Subscriptions.HeardByCommand`); responses for negative
  command numbers name the wrong module (`Subscriptions.ResponseNames`).
- A failed load of the table does not stop the publication, and a failed query for changes does not stop their deletion (`ChangeLog.FreshExactly`, `LostChanges.LostExactly`).
- A change recorded under a version already reached, between the query for changes and the delete of a round, is deleted unseen
  (`LostChanges.UndisciplinedExample`; `LostChanges.NoLostChange` has the exact condition for all administrators).
- Nothing removes subscriptions and pending changes when a connection closes; the next connection with its number gets them (`Subscriptions.Inherited`).
- The counter of `load_balance` is not initialised; the schedules are proved from any value.
- A `send` on a connection that has been closed registers it with its loop again, which keeps it alive (`ConnCycles.RearmedStays`).
- After a write error `tcp_client::handle_write` gives up the EPOLLOUT that its own reconnection has just registered
  (`Clients.StuckAfterWriteError`), and the answer zero of `connect` is not taken up (`Clients.TcpClient.DoConnect`).

## Model

| member | source | states |
|---|---|---|
| Bytes.AsInt32 | lars_dns/src/subscribe.cc:66-67 | conversion to `int` keeps the value modulo 2^32 and is the identity on the range of an `int` |
| Bytes.DecodeEncodeInt32 | lars_reactor/src/tcp_client.cc:105-107 | the four little-endian bytes of an `int` read back as that `int` |
| Bytes.EncodeDecodeInt32 | lars_reactor/src/tcp_client.cc:169-176 | any four bytes are the encoding of the `int` they read as |
| Codec.FrameLayout | lars_reactor/include/message.h:3-6 | the frame byte by byte: id and whole length, lowest byte first, then the body |
| Codec.LengthDecides | lars_reactor/src/tcp_client.cc:103-118 | what bytes 4 to 7 make of the front of the stream: out of range above 65527, undersized below 8, incomplete, or a whole frame |
| Codec.DrainEnds | lars_reactor/src/tcp_client.cc:102-135 | for all byte strings, how the loop ends by the first eight bytes of what it leaves: waiting, dropped, or undefined |
| Codec.FrameParses | lars_reactor/src/tcp_client.cc:103-122 | the front of an encoded message followed by anything parses to that message exactly if header and body fit MESSAGE_MAX_SIZE, and is refused otherwise |
| Codec.ParsedIsFrame | lars_reactor/src/tcp_client.cc:103-122 | the bytes consumed for a message are its encoding |
| Codec.FrontExtends | lars_reactor/src/tcp_client.cc:109-118 | a decision about the front of the stream is never changed by bytes that arrive later |
| Codec.DrainAppend | lars_reactor/src/tcp_client.cc:102-135 | feeding `a` and then `b` delivers and leaves what feeding `a + b` does, for all byte strings, malformed ones included |
| Codec.ChunkingInvariance | lars_reactor/src/tcp_client.cc:89-135 | the same for any number of chunks |
| Codec.LeftoverIsIncomplete | lars_reactor/src/tcp_client.cc:102-135 | what the loop leaves is less than one frame and shorter than MESSAGE_MAX_SIZE |
| Codec.DrainConserves | lars_reactor/src/tcp_client.cc:102-135 | the input is the encoding of the delivered messages followed by what is not consumed; only messages of acceptable size are delivered |
| Codec.DrainEncoded | lars_reactor/src/tcp_client.cc:102-135 | decoding an encoded list of acceptable messages gives the list, then goes on with what follows |
| Codec.DrainSent | lars_reactor/src/tcp_client.cc:102-135 | decoding any encoded list delivers exactly the messages before the first oversized one, and drops the connection there |
| Codec.RoundTripExactly | lars_reactor/src/tcp_client.cc:102-135 | the round trip holds if and only if all messages are of acceptable size |
| Codec.StaleRepeats | lars_reactor/src/tcp_conn.cc:95-128 | what the server loop computes with its data pointer fetched once: one copy of the first message per whole multiple of its length |
| Codec.StaleDrainExactly | lars_reactor/src/tcp_conn.cc:95-128 | the server loop reads a buffer as the client loop does if and only if no frame is complete, or all complete frames carry the same message, no length field is bad, and the rest is shorter than the first frame |
| Codec.StaleExample | lars_reactor/src/tcp_conn.cc:95-128 | two different messages arriving together: the first is handed out twice |
| IoBuffer.IoBuf.constructor | lars_reactor/src/io_buf.cc:6-9 | a new buffer is empty and its array is fresh |
| IoBuffer.IoBuf.Clear | lars_reactor/src/io_buf.cc:11-14 | head and length become 0 |
| IoBuffer.IoBuf.MoveDown | lars_reactor/src/io_buf.cc:19 | the overlapping move: the target region holds the old source bytes, all bytes behind it are unchanged |
| IoBuffer.IoBuf.Adjust | lars_reactor/src/io_buf.cc:16-23 | the head becomes 0 and the contents do not change |
| IoBuffer.IoBuf.Copy | lars_reactor/src/io_buf.cc:25-29 | the contents of the other buffer are taken over |
| IoBuffer.IoBuf.Append | lars_reactor/src/reactor_buf.cc:130-132 | bytes are stored `length` bytes from the start of the array, wherever the head is; that is behind the contents exactly if the head is 0 |
| IoBuffer.IoBuf.Pop | lars_reactor/src/io_buf.cc:31-34 | bytes leave the front |
| BufferPool.ClassFor | lars_reactor/src/buf_pool.cc:142-162 | the class chosen is the least one of at least N bytes among those a request can reach (16K cannot be reached); none for negative and too large requests |
| BufferPool.BufPool.constructor | lars_reactor/src/buf_pool.cc:7-136 | the census of the seven free lists (5001, 1001, 501, 201, 51, 21 and 21 buffers), the account of 334240 KB, and the pool invariant: lists linked, acyclic, disjoint and of one capacity; no array shared; true memory = account + 95572 KB; account within the limit |
| BufferPool.CountedTotal | lars_reactor/src/buf_pool.cc:27-135 | what the constructor enters in the account |
| BufferPool.MemoryAtStart | lars_reactor/src/buf_pool.cc:7-136 | what the constructor allocates is the account plus 95572 KB |
| BufferPool.BuildList | lars_reactor/src/buf_pool.cc:11-26 | the constructor's loop builds a linked list of the right length of fresh empty buffers |
| BufferPool.BufPool.FillClass | lars_reactor/src/buf_pool.cc:11-27 | one block of the constructor: its list, and its contribution to the account |
| BufferPool.BufPool.AllocBuf | lars_reactor/src/buf_pool.cc:142-185 | null exactly for sizes out of range; exit exactly when the list is empty and the account is full (or, with the test as written, always); otherwise an empty unowned buffer of the class, either the head of the list or, only then, a new one, recorded as held by the caller; nothing else changes; the pool invariant is kept |
| BufferPool.BufPool.Take | lars_reactor/src/buf_pool.cc:182-184 | the head of the list is unlinked |
| BufferPool.BufPool.Grow | lars_reactor/src/buf_pool.cc:173-179 | growth adds one buffer of the class and its size to the account |
| BufferPool.BufPool.Revert | lars_reactor/src/buf_pool.cc:187-196 | the buffer becomes the emptied head of the list of its class and is no longer held |
| BufferPool.BufPool.HeldApart | lars_reactor/src/buf_pool.cc:182-196 | a held buffer is in no free list and shares no array with one that is |
| BufferPool.PartitionTake | lars_reactor/src/buf_pool.cc:182-184 | taking the head keeps every buffer in exactly one place |
| BufferPool.PartitionPut | lars_reactor/src/buf_pool.cc:193-195 | returning a held buffer keeps every buffer in exactly one place |
| BufferPool.AccountGrowth | lars_reactor/src/buf_pool.cc:173-178 | true memory grows by what growth enters in the account |
| ReactorBuffer.Socket.Write | lars_reactor/src/reactor_buf.cc:142-153 | the kernel accepts any prefix of what it is offered, or none, or fails |
| ReactorBuffer.ReactorBuf.Clear | lars_reactor/src/reactor_buf.cc:31-36 | the pooled buffer is returned; only this owner's holding changes |
| ReactorBuffer.ReactorBuf.Pop | lars_reactor/src/reactor_buf.cc:21-29 | bytes leave the front; the pooled buffer is returned exactly when none are left; array, head and length afterwards |
| ReactorBuffer.ReactorBuf.Reserve | lars_reactor/src/reactor_buf.cc:109-128 | array, head and length after room has been made, exactly: allocation, copy and return; failure exactly beyond the largest class; a copy that reads behind the array exactly when the head has been left behind far enough |
| ReactorBuffer.ReactorBuf.Enlarge | lars_reactor/src/reactor_buf.cc:119-128 | the bytes move to a larger array and the head becomes 0 |
| ReactorBuffer.ReactorBuf.MoveTo | lars_reactor/src/reactor_buf.cc:125-127 | copy, return, replace |
| ReactorBuffer.ReactorBuf.WriteData | lars_reactor/src/reactor_buf.cc:108-135 | `write_data`, exactly, for every head: the array after a write at index `length`; a failed one changes nothing |
| ReactorBuffer.ReactorBuf.Write2Fd | lars_reactor/src/reactor_buf.cc:138-156 | what the kernel accepts leaves the front, in order, and the head is 0 again; with another head the assertion ends the process, and only then |
| ReactorBuffer.ReactorBuf.LocalKeeps | lars_reactor/src/reactor_buf.cc:21-135 | after an operation of one owner, the others hold exactly what they held |
| ReactorBuffer.ReactorBuf.ReadData | lars_reactor/src/reactor_buf.cc:40-96 | append of what the kernel delivers; the head is 0 afterwards; when it fails, exactly; the exact condition under which a read of unannounced size runs over the end of the buffer |
| ReactorBuffer.ReactorBuf.NoRoomExactly | lars_reactor/src/reactor_buf.cc:54-73 | which amounts fit no buffer of the pool, by capacity and length |
| ReactorBuffer.ReactorBuf.Adjust | lars_reactor/src/reactor_buf.cc:102-106 | the head becomes 0, the contents stay |
| ReactorBuffer.ReactorBuf.LocalFootprint | lars_reactor/src/reactor_buf.cc:21-135 | what an operation leaves in its footprint was there before or is fresh |
| ReactorBuffer.Separate | lars_reactor/src/reactor_buf.cc:21-36 | what two owners may touch never overlaps |
| ReactorBuffer.OwnershipKept | lars_reactor/src/reactor_buf.cc:21-135 | after any operation of one owner every buffer outside the pool still belongs to exactly one owner |
| ReactorBuffer.InExactlyOnePlace | lars_reactor/src/buf_pool.cc:182-196 | every buffer is in exactly one free list, once, or used by exactly one owner, and not both |
| Outputs.ReservedExactly | lars_reactor/src/reactor_buf.cc:109-128 | when the array stays, when it is replaced and by which size, when there is no room, and when the copy reads behind the old array, for any state of the buffer |
| Outputs.WrittenAtStart | lars_reactor/src/reactor_buf.cc:108-135 | with the head at the start, `write_data` is append at the tail; it fails exactly when the array for the sum would exceed the largest class |
| Outputs.FramedAtStart | lars_reactor/src/tcp_conn.cc:57-74 | what `send` leaves in a buffer that starts at its head, for messages of any size; when header and body fail, exactly; after a failed body the buffer is empty if it was, and otherwise lacks its first eight bytes, ends in a header without body, and has its head at 8 |
| Outputs.AcceptableRefused | lars_reactor/src/tcp_conn.cc:64-74 | a message of acceptable size is refused exactly if with what waits before it, it exceeds the largest array, and its body then fails in an array of that size |
| Outputs.SmallWrite | lars_reactor/src/reactor_buf.cc:119-124 | for small amounts an append fails exactly if the total exceeds the largest class, and only in the largest array |
| Outputs.StuckStays | lars_reactor/src/reactor_buf.cc:119-139 | a head left behind in the largest array stays, whatever is sent: the assertion in `write2fd` is not passed any more |
| Framing.AppendFrame | lars_reactor/src/tcp_conn.cc:57-74 | `send` on the real buffer, in any state: result, array, head and length are those of the specification, unless the pool ends the process, for which some class must be exhausted |
| Framing.AppendBody | lars_reactor/src/tcp_conn.cc:69-74 | the second write, and the removal of eight bytes from the front when it fails |
| Framing.ReadFront | lars_reactor/src/tcp_client.cc:103-122 | one pass of the loop decides as the specification does, from the array and the position it reads |
| Framing.TakeOne | lars_reactor/src/tcp_client.cc:103-133 | a complete frame, and nothing else, is popped |
| Framing.TakeFrames | lars_reactor/src/tcp_client.cc:102-135 | the client loop over the real buffer delivers and leaves what the specification says; it terminates, the buffered length being its measure |
| Framing.TakeFramesStale | lars_reactor/src/tcp_conn.cc:95-128 | the server loop over the real buffer, with its stale data pointer, likewise |
| Framing.ProgressStep | lars_reactor/src/tcp_client.cc:102-135 | every pass consumes at least a header |
| Framing.Receive | lars_reactor/src/tcp_client.cc:89-136 | read, loop and compaction together: what was buffered plus the chunk is decoded; a failed read changes nothing; the head is 0 afterwards; why an event ends otherwise |
| Framing.Flush | lars_reactor/src/tcp_conn.cc:132-143 | a loop of writes under any answers of the kernel: bytes on the wire plus bytes in the buffer are conserved, in order; it ends with everything sent, after an answer that takes nothing, after an error, or, exactly when there are bytes and the head is not at the start, at the assertion |
| EventLoops.InterestElsewhere | lars_reactor/src/event_loop.cc:74-147 | what is registered or given up for one descriptor leaves the write interest of the others as it was |
| EventLoops.EventLoop.AddIoEvent | lars_reactor/src/event_loop.cc:74-107 | the table entry after registration, and the kernel's interest set agreeing with the table |
| EventLoops.EventLoop.DelIoEvent | lars_reactor/src/event_loop.cc:109-124 | the entry disappears from the table and from the kernel |
| EventLoops.EventLoop.DelIoEventMask | lars_reactor/src/event_loop.cc:126-147 | the events are given up; an entry without events disappears |
| EventLoops.EventLoop.Dispatch | lars_reactor/src/event_loop.cc:43-69 | the callbacks run for one report, in order, are those of the entry found at its start, whatever the callbacks do to the table; an entry without callbacks is deleted by a hang-up |
| EventLoops.EventLoop.DispatchAll | lars_reactor/src/event_loop.cc:39-70 | a round of reports, each decided by the table of its moment |
| EventLoops.EachCallback | lars_reactor/src/event_loop.cc:43-69 | for every entry and every report: each callback the entry has runs once for its event and once for a hang-up, at which places, and nothing else runs |
| EventLoops.ReportsServed | lars_reactor/src/event_loop.cc:47-54 | a connection watched for input is read first when readable, whether or not it has anything to send; one waiting for output or for its connecting gets that |
| EventLoops.ReadBeforeWrite | lars_reactor/src/event_loop.cc:47-68 | reading comes before writing; a hang-up runs both once more; no callback of another descriptor is run |
| EventLoops.RegisterOutput | lars_reactor/src/event_loop.cc:74-107 | registering for output establishes the write interest |
| EventLoops.GiveUpOutput | lars_reactor/src/event_loop.cc:126-147 | giving up output ends it |
| EventLoops.RegisterInput | lars_reactor/src/event_loop.cc:74-107 | registering for input establishes the read interest and leaves the write interest as it is |
| EventLoops.WriteInterestRoundTrip | lars_reactor/src/event_loop.cc:74-147 | registering for output and giving it up restores a reading connection |
| Connections.CountAfter | lars_reactor/src/tcp_conn.cc:53-80 | a send that succeeds adds to the output, one that fails leaves as many bytes as there were |
| Connections.Endpoint.Read | lars_reactor/src/tcp_conn.cc:84-130 | `Framing.Receive`, seen from the connection: its output is untouched, and so is what others hold |
| Connections.Endpoint.SendFrame | lars_reactor/src/tcp_conn.cc:51-82 | both `send` functions: the write interest stays exact after every outcome that does not end the process; other descriptors and other owners are untouched |
| Connections.Endpoint.GiveUpWhenEmpty | lars_reactor/src/tcp_conn.cc:145-147 | an empty output gives up EPOLLOUT |
| Connections.Endpoint.Release | lars_reactor/src/tcp_conn.cc:42-44 | the descriptor is no longer watched and both buffers are returned |
| Connections.TcpConn.constructor | lars_reactor/src/tcp_conn.cc:12-19 | a new connection is connected, has empty output and no interest |
| Connections.TcpConn.ListenRead | lars_reactor/src/tcp_conn.cc:27-35 | registered for input, entered in the thread's table; the write interest stays exact; nothing of other connections changes |
| Connections.TcpConn.Close | lars_reactor/src/tcp_conn.cc:37-49 | the first close unregisters the descriptor, empties both buffers and runs the close callback once; later ones change nothing; nothing of other connections changes |
| Connections.TcpConn.Send | lars_reactor/src/tcp_conn.cc:51-82 | for any state of the buffer: array, head, length and result exactly; EPOLLOUT with `handle_write` in place exactly while there is output; nothing of other connections changes |
| Connections.TcpConn.FlushOrClose | lars_reactor/src/tcp_conn.cc:133-143 | the flush loop; a broken connection is closed |
| Connections.TcpConn.HandleWrite | lars_reactor/src/tcp_conn.cc:132-148 | the write interest stays exact through partial flushes, complete flushes and errors; nothing of other connections changes |
| Connections.TcpConn.HandleRead | lars_reactor/src/tcp_conn.cc:84-130 | the write interest stays exact; each way the event can end has its cause, and the messages handed out until then are those of the decoder; a drop closes once, also when the loop calls again in the same round; nothing of other connections changes |
| Crews.Perform | lars_reactor/src/event_loop.cc:39-70 | what each step does for its own connection: listening, closing, sending, flushing, reading |
| Crews.StaysInOrder | lars_reactor/src/event_loop.cc:74-147 | after a step of one connection, another one of the same pool, on the same loop or another, has its buffers, its entry and its exact write interest |
| Crews.AnyStep | lars_reactor/src/tcp_conn.cc:27-148 | any step of any connection of a set that shares the pool, on any loops, keeps buffers, event tables and exact write interest of all of them, and the output of the others |
| Clients.TcpClient.DoConnect | lars_reactor/src/tcp_client.cc:28-56 | which answer of `connect` leads to which registration: a made connection is read, one under way waits for its outcome; zero leads to none |
| Clients.TcpClient.HandleConnect | lars_reactor/src/tcp_client.cc:58-79 | a connection that is made is watched for input |
| Clients.TcpClient.CleanConn | lars_reactor/src/tcp_client.cc:196-213 | both buffers are emptied, the entry is replaced by that of the reconnection; nothing of other connections changes |
| Clients.TcpClient.HandleRead | lars_reactor/src/tcp_client.cc:81-136 | a readable event feeds the decoder; each way it can end has its cause, and the messages handed out until then are those of the decoder; a drop reconnects; called again in the same round, it ends at its assertion exactly if the client is not connected |
| Clients.TcpClient.Send | lars_reactor/src/tcp_client.cc:157-194 | nothing without a connection; otherwise as `Connections.Endpoint.SendFrame` |
| Clients.TcpClient.HandleWrite | lars_reactor/src/tcp_client.cc:138-155 | a flush conserves the bytes; the event table after a write error: reconnected, and then without EPOLLOUT |
| Clients.StuckAfterWriteError | lars_reactor/src/tcp_client.cc:143-153 | so a reconnection under way is not watched for anything any more |
| Streams.RunInv | lars_reactor/src/tcp_conn.cc:51-148 | in every run in which no body fails below the largest array, received bytes, wire and output are the encoding of what was accepted, or the next flush ends at the assertion |
| Streams.DeliveredIsPrefix | lars_reactor/src/tcp_client.cc:81-136 | in every such run the delivered messages are a prefix of those sent; a drop happens only at an oversized message, with everything before it delivered |
| Streams.Conservation | lars_reactor/src/tcp_client.cc:81-136 | encoded sent messages = encoded delivered messages, input leftover, bytes in flight, output buffer, in this order |
| Streams.AllDelivered | lars_reactor/src/tcp_client.cc:81-136 | once all is drained everything is delivered if and only if all sizes are acceptable |
| Streams.CanAlwaysFinish | lars_reactor/src/tcp_conn.cc:132-143 | from any point of such a run one complete flush and one complete read deliver the rest |
| Streams.FailsBelowTopExactly | lars_reactor/src/tcp_conn.cc:69-74 | when a send leaves such a header behind, by the array and the length before the call: bytes are waiting, the header fits an array that is not the largest, and the body neither fits beside it nor finds an array for the sum |
| Streams.ServerRunsAlike | lars_reactor/src/tcp_conn.cc:95-128 | a run of the server loop is the run of the client loop as long as each of its reads meets the exact condition |
| Streams.ServerParts | lars_reactor/src/tcp_conn.cc:95-128 | a read after which the two loops agree is exactly one that meets it |
| Jams.DeliveredIfConforming | lars_reactor/src/tcp_conn.cc:51-82 | in every run in which only messages of acceptable size fail, whatever is sent before and after, what is delivered is a prefix of what was sent |
| Jams.ConformingFailAtTop | lars_reactor/src/tcp_conn.cc:69-74 | such messages fail in the largest array only |
| Jams.HarmlessExactly | lars_reactor/src/tcp_conn.cc:69-74 | a failed body on a non-empty buffer keeps every later state safe if and only if it fails in the largest array |
| Jams.SafeExactly | lars_reactor/src/tcp_conn.cc:51-148 | a run has no body that fails below the largest array if and only if from each of its states on, what leaves is the beginning of what was accepted and no copy reads behind an array |
| Jams.DeliveredExactly | lars_reactor/src/tcp_client.cc:81-136 | in every run at all, failures below the largest array included, what is delivered is a prefix of what was sent if and only if the bytes it was decoded from are the beginning of the encoding of what was sent |
| Jams.BelowTopBreaks | lars_reactor/src/reactor_buf.cc:119-127 | the continuation that breaks it: one more message and a flush |
| Jams.NeverSent | lars_reactor/src/tcp_conn.cc:69-74 | three messages, the second too large: the receiver delivers one that was never sent |
| Channels.SendStep | lars_reactor/src/tcp_conn.cc:51-82 | every outcome of `send` is one step of a run |
| Channels.FlushRun | lars_reactor/src/tcp_conn.cc:132-143 | a flush is a series of steps |
| Channels.Channel.Send | lars_reactor/src/tcp_conn.cc:51-82 | a call on the real output buffer, whatever earlier calls have left in it, is one step of the run |
| Channels.Channel.Flush | lars_reactor/src/tcp_conn.cc:132-143 | likewise for the writes of a flush, and the assertion or the broken connection that ends it |
| Channels.Channel.Read | lars_reactor/src/tcp_client.cc:89-136 | likewise for a read of any part of the wire |
| Channels.Channel.Delivers | lars_reactor/src/tcp_client.cc:81-136 | so the client's loop has delivered a prefix of what was sent, and all of it once drained, unless a body has failed below the largest array |
| TaskQueues.NoLostWakeUp | lars_reactor/src/task_queue.cc:37-61 | in every interleaving, a non-empty queue means a positive counter, a producer between push and write, or the consumer between read and swap; so somebody can take a step that leads to it |
| TaskQueues.ExecutedInPushOrder | lars_reactor/src/task_queue.cc:19-28 | the tasks handed in, counted by the steps of the producers, run at most once each, in push order, one for each step of the loop; every one is executed, taken or queued |
| TaskQueues.Histories | lars_reactor/src/task_queue.cc:19-50 | what is recorded as pushed and as run is what the steps taken have pushed and run, one task each |
| TaskQueues.QuietMeansDone | lars_reactor/src/task_queue.cc:19-61 | when nothing but a push can happen, every task handed in has run |
| TaskQueues.EveryStepHelps | lars_reactor/src/task_queue.cc:19-61 | every step but a push brings that point nearer |
| TaskQueues.FinishesInTime | lars_reactor/src/task_queue.cc:19-61 | so it is reached within a number of steps known beforehand |
| TaskQueues.ExitTakesManyPushes | lars_reactor/src/task_queue.cc:45-49 | the exit in `add` needs more pushes than an eventfd can count |
| TaskQueues.TaskQueue.Add | lars_reactor/src/task_queue.cc:37-50 | push and write are two steps, with any steps of the others in between; of this producer exactly this one task comes in addition, behind what had been pushed |
| TaskQueues.TaskQueue.DealTask | lars_reactor/src/task_queue.cc:19-28 | when it returns, every task pushed before its call has run, whatever the producers did meanwhile, and also when the eventfd had not been written and its read failed |
| TaskQueues.TaskQueue.Push | lars_reactor/src/task_queue.cc:39-42 | the lock region of `add` as one step |
| TaskQueues.TaskQueue.Notify | lars_reactor/src/task_queue.cc:45-49 | the write, which exits when the counter is full |
| TaskQueues.TaskQueue.SwapOut | lars_reactor/src/task_queue.cc:59-60 | the lock region of `get` as one step |
| ConnLifecycle.StepInv | lars_reactor/src/tcp_server.cc:67-130 | every step of any thread keeps the invariant on descriptors, tables, delete tasks and counts |
| ConnLifecycle.DescriptorsNotReused | lars_reactor/src/tcp_server.cc:67-115 | a descriptor in `m_conns` is open and is not accepted again; no two connections alive share one |
| ConnLifecycle.OneDeleteEach | lars_reactor/src/tcp_server.cc:117-130 | no connection posts two delete tasks; they run in order; a connection has posted exactly if its close is through; each destroyed connection has posted and been erased |
| ConnLifecycle.DeletesOwnEntry | lars_reactor/src/tcp_server.cc:124-130 | a delete task finds under its descriptor the connection that posted it |
| ConnLifecycle.DestroyedWereClosed | lars_reactor/src/tcp_conn.cc:21-25 | the destructor never finds a connection still connected |
| ConnLifecycle.ConnectionBound | lars_reactor/src/tcp_server.cc:91-95 | the count is that of the connections alive and at most one above the maximum |
| ConnLifecycle.DestroyExactly | lars_reactor/src/tcp_server.cc:124-130 | a connection is destroyed exactly when its delete task has run and no callback in progress, no reference of the application and no registration is left |
| ConnLifecycle.UnreferencedIsDone | lars_reactor/src/tcp_server.cc:105-112 | a connection without references has been closed and erased |
| ConnCycles.OpenExactly | lars_reactor/src/tcp_server.cc:67-115 | in every run the open descriptors are exactly those of the connections alive and the one just accepted: none is lost |
| ConnCycles.ListedExactly | lars_reactor/src/tcp_conn.cc:34-46 | in every run the table of a loop has exactly the connections that listen there and are not closed; all but the one being made have been handed to their loop |
| ConnCycles.Opens | lars_reactor/src/tcp_server.cc:67-115 | the whole state after a connection has come in: open, made for the loop chosen, stored, listening and watched there |
| ConnCycles.Refuses | lars_reactor/src/tcp_server.cc:91-95 | a refused connection leaves no trace |
| ConnCycles.Closes | lars_reactor/src/tcp_conn.cc:37-49 | the whole state after a connection has been closed, its task run and the object destroyed: out of every table, its descriptor free |
| ConnCycles.ComesAndGoes | lars_reactor/src/tcp_server.cc:67-130 | a connection that comes and goes leaves everything as it was, except for its number and the records |
| ConnCycles.LimitReached | lars_reactor/src/tcp_server.cc:91-95 | any number of connections up to one above the maximum can be open at once |
| ConnCycles.WatchedStays | lars_reactor/src/event_loop.cc:74-147 | a watched connection stays watched, on its loop and under its descriptor, in every run in which it is neither closed nor given up |
| ConnCycles.ClosedStaysOut | lars_reactor/src/tcp_conn.cc:37-49 | a closed connection is in none of the tables of its loop and is not called back, in every run in which no later `send` registers it |
| ConnCycles.NothingElseKeepsIt | lars_reactor/src/tcp_server.cc:124-130 | in such a run, once its delete task has run, only a callback in progress or the application keeps it alive |
| ConnCycles.RearmedStays | lars_reactor/src/tcp_conn.cc:76-79 | a `send` on a closed connection that is still referenced does register it, and keeps it alive until that is given up |
| ConnCycles.HeldStays | lars_reactor/include/net_connection.h:7 | a reference kept by the application keeps the connection alive until it is dropped; dropping undoes it |
| ConnCycles.GivenUp | lars_reactor/src/event_loop.cc:109-124 | giving up the registration takes a connection from its loop, registering it again brings it back |
| Servers.TcpServer.AcceptCallback | lars_reactor/src/tcp_server.cc:67-115 | the first answer of the kernel that is not asked again decides: a connection is served or refused, there is none, or the process ends; served: a descriptor new to the table, stored after the hand-over to the loop chosen; refused: its descriptor is closed |
| Servers.TcpServer.Take | lars_reactor/src/tcp_server.cc:91-113 | the steps of one accepted connection, in order, among those of the other threads |
| Servers.TcpServer.Admit | lars_reactor/src/tcp_server.cc:91-95 | refused exactly when the count is above the maximum |
| Servers.TcpServer.DeleteConnInLoop | lars_reactor/src/tcp_server.cc:124-130 | the entry erased is that of the connection that posted the task |
| LoopPool.LoopThreadPool.constructor | lars_reactor/src/event_loop_thread_pool.cc:11-19 | as many distinct loops as threads |
| LoopPool.NextServed | lars_reactor/src/event_loop_thread_pool.cc:21-31 | the kept position, wrapped only when asked again, serves the number of the call modulo the number of loops |
| LoopPool.LoopThreadPool.GetNextLoop | lars_reactor/src/event_loop_thread_pool.cc:21-31 | call t gets loop t modulo the number of loops; without threads the main loop |
| LoopPool.LoopThreadPool.SpreadEvenly | lars_reactor/src/event_loop_thread_pool.cc:21-31 | no loop is ever more than one connection ahead of another |
| LoopPool.LoopThreadPool.SendTask | lars_reactor/src/tcp_server.cc:141-151 | the main loop and every other loop get the task exactly once |
| RouteKeys.UnpackKey | lars_dns/src/subscribe.cc:65-67 | unpacking returns the command always and the module if and only if the command is not negative; otherwise the module minus one, wrapped |
| RouteKeys.KeyInjective | lars_dns/src/dns_route.cc:169 | different pairs of signed 32-bit numbers have different keys |
| RouteKeys.KeyAsInt | lars_dns/include/subscribe.h:13 | as an `int`, a key is its command number |
| RouteKeys.RepackKey | lars_dns/src/subscribe.cc:65-73 | a key survives unpacking and packing exactly if its command is not negative |
| RouteKeys.UnpackHost | lars_dns/src/subscribe.cc:74-79 | address and port are recovered exactly for ports that are not negative |
| RouteStores.GroupedByService | lars_dns/src/dns_route.cc:162-173 | the map built row by row has, for every pair of numbers of any sign, exactly the hosts of the rows with that pair, and no key without rows |
| RouteStores.RouteStore.constructor | lars_dns/src/dns_route.cc:13-23 | after the initial load the current map is the grouping of the whole result |
| RouteStores.RouteStore.BuildMaps | lars_dns/src/dns_route.cc:47-80 | the initial loop over the rows |
| RouteStores.RouteStore.GetDataPointer | lars_dns/include/dns_route.h:47-50 | a reader gets the current map and a share in it |
| RouteStores.RouteStore.InsertRow | lars_dns/src/dns_route.cc:162-173 | one row goes into the second map; no reader's map changes |
| RouteStores.RouteStore.Swap | lars_dns/src/dns_route.cc:244-257 | the loaded result becomes current; the second map is held by no reader, and what readers hold is untouched |
| RouteStores.RouteStore.Meanwhile | lars_dns/src/dns_route.cc:141-257 | any number of steps of the other threads keep all of this |
| RouteStores.RouteStore.GetHosts | lars_dns/src/dns_route.cc:83-95 | with the refresh thread and other readers running freely, the answer is that of one complete result that was current at some moment of the call |
| RouteStores.RouteStore.LoadRouteData | lars_dns/src/dns_route.cc:141-186 | with readers running freely, a successful load fills the second map with the whole result; the current map is untouched |
| RouteStores.RouteStore.Reload | lars_dns/src/dns_route.cc:279-283 | a refresh installs the result; after a failed load everything is as before |
| ChangeLog.RunTiming | lars_dns/src/dns_route.cc:261-311 | in every run, whatever the administrator does: moments are ordered as the number of edits before them, what a round holds was queried when it says, and after a reload the current table is the later one |
| ChangeLog.RunBooks | lars_dns/src/dns_route.cc:189-242 | in every run, whatever the administrator does: rows are in the table or were deleted, what a round lists was there when its query ran, and what was there then has been found or missed |
| ChangeLog.RunDiscipline | lars_dns/src/dns_route.cc:261-311 | in every run with an administrator who records changes under coming versions, a change whose version has been reached was recorded before that version was observed |
| ChangeLog.HandedExactly | lars_dns/src/dns_route.cc:285-297 | between rounds, whatever the administrator does: a change whose version was reached has been published only if it had been recorded when the rows were last queried; if it had, it was published, or its query failed, or its row is deleted; otherwise its row is still there |
| ChangeLog.ReachedAreHanded | lars_dns/src/dns_route.cc:285-297 | with a disciplined administrator every such change had been recorded then |
| ChangeLog.PushesAreFresh | lars_dns/src/dns_route.cc:274-297 | whatever the administrator does, a push in a round whose load succeeded, made at once or kept for a later task, is answered from a table queried after the version was observed, and reflects every edit before that |
| ChangeLog.PushesReflect | lars_dns/src/dns_route.cc:274-297 | with a disciplined administrator it reflects every edit before its change was recorded |
| ChangeLog.FreshExactly | lars_dns/src/subscribe.cc:73 | any push reflects the edits that preceded the observation of its version, or the recording of its change, if and only if the table it is answered from was queried no earlier, or was not edited in between |
| ChangeLog.StaleExample | lars_dns/src/dns_route.cc:279-297 | a failed load: the subscriber is told the old hosts |
| LostChanges.LostStep | lars_dns/src/dns_route.cc:228-242 | every step, for every administrator: a change is lost, deleted without having been published, by a successful delete in whose round a change was recorded late, or whose query failed with a row not published before, and by nothing else |
| LostChanges.LostExactly | lars_dns/src/dns_route.cc:189-242 | a run loses no change if and only if it has no such delete, whatever the administrator does and whichever queries fail |
| LostChanges.NoLostChange | lars_dns/src/dns_route.cc:189-242 | if the queries for changes succeed, every row is published before it is deleted if and only if no delete follows, in its round, on a change recorded after the query under a version already reached; then every change is published or still in the table |
| LostChanges.PublishedExactly | lars_dns/src/dns_route.cc:285-297 | in such runs a change whose version was reached has been published, between rounds, if and only if it had been recorded when the rows were last queried |
| LostChanges.RemovesWhatWasLoaded | lars_dns/src/dns_route.cc:228-242 | a delete removes exactly the rows that its round's query found, all published, if and only if none was recorded after it |
| LostChanges.DisciplineLosesNothing | lars_dns/src/dns_route.cc:261-311 | an administrator who records changes under coming versions loses none when the queries succeed, and between rounds all that were reached are published |
| LostChanges.LostExample | lars_dns/src/dns_route.cc:196-200 | a failed query for changes: the delete loses one |
| LostChanges.UndisciplinedExample | lars_dns/src/dns_route.cc:287-297 | a change recorded under the current version between query and delete is lost although every query succeeds |
| Announcements.ExactlyOnce | lars_dns/src/dns_route.cc:285-297 | in every run, for every administrator and every change of every round: what the round has handed over is waiting, at work, kept for a subscriber or sent, in exactly one of these places, and nothing else is |
| Announcements.PublishedSomewhere | lars_dns/src/dns_route.cc:285-297 | a change is recorded as published exactly if it is in one of them |
| Announcements.AllSent | lars_dns/src/subscribe.cc:23-84 | a loop without tasks that keeps nothing has sent every change published; only published ones are sent |
| Announcements.Empties | lars_dns/src/subscribe.cc:23-84 | from every state a loop gets there by steps of its own |
| Announcements.ListedExactly | lars_dns/src/dns_route.cc:189-225 | between query and delete the list of a round is exactly the rows recorded before its query under a version reached; nothing if the query failed |
| Announcements.PurgeClears | lars_dns/src/dns_route.cc:228-242 | after a successful purge at the start no row from before it is ever announced; without one, rows leave by deletes only |
| Announcements.AdministratorActs | lars_dns/src/dns_route.cc:102-139 | what an administrator adds, raises and edits is there for the next query to find |
| Announcements.RoundExample | lars_dns/src/dns_route.cc:273-297 | a round in which all succeeds: the subscriber is told the hosts after the edit |
| RouteCheckers.RouteChecker.DoLoadVersion | lars_dns/src/dns_route.cc:102-139 | -1, 0 or 1, and the version kept |
| RouteCheckers.InRound | lars_dns/src/dns_route.cc:279-297 | each step of a round makes the next one possible, and only a failed query for changes misses any |
| RouteCheckers.MirrorsStep | lars_dns/src/dns_route.cc:141-257 | the store's current map is the table as it was when it was queried, and between load and swap its second map is the table as it was at the load, through every step |
| RouteCheckers.RouteChecker.Perform | lars_dns/src/dns_route.cc:261-311 | one step of anybody on the real store: a load fills the second map, a swap installs it, a push reads the hosts |
| RouteCheckers.RouteChecker.Reload | lars_dns/src/dns_route.cc:279-283 | load and swap in order, among the steps of the others |
| RouteCheckers.RouteChecker.Announce | lars_dns/src/dns_route.cc:285-297 | query for changes, publication and delete in order, among the steps of the others |
| RouteCheckers.RouteChecker.CheckRound | lars_dns/src/dns_route.cc:269-310 | the steps of any round, one by one; a new result is queried and installed exactly if the version has changed or the last load is ten seconds old, and the load succeeds; afterwards every change whose version was reached, and which had been recorded when the rows were queried, is published, deleted, or had its query fail |
| RouteCheckers.RouteChecker.Tells | lars_dns/src/subscribe.cc:65-80 | from the administrator to the subscriber: each response has the table's hosts of the changed service, or of the neighbouring module for negative commands, as they were after some number of edits; if the round's load succeeded, at least those before the version was observed and, with a disciplined administrator, before the change was recorded |
| Subscriptions.SubscribeList.Subscribe | lars_dns/src/subscribe.cc:11-13 | the descriptor is entered under the low half of the key; no key is left without subscribers |
| Subscriptions.SubscribeList.Unsubscribe | lars_dns/src/subscribe.cc:15-20 | the descriptor is removed, and the key with its last subscriber |
| Subscriptions.UnsubscribeUndoes | lars_dns/src/subscribe.cc:11-20 | each undoes the other |
| Subscriptions.SubscribeList.NoteAll | lars_dns/src/subscribe.cc:25-33 | every descriptor has pending what it had, and the changed services it is subscribed under |
| Subscriptions.SubscribeList.MakePublishMap | lars_dns/src/subscribe.cc:40-47 | what is pending for online descriptors moves out of the table, all else stays |
| Subscriptions.SubscribeList.PushAll | lars_dns/src/subscribe.cc:59-84 | each pending service is pushed once, and nothing else, with the hosts of the service it names in one complete result that was current at some moment of the task; null dereference exactly if a descriptor has no connection |
| Subscriptions.SubscribeList.Publish | lars_dns/src/subscribe.cc:23-38 | the whole task: each online descriptor is pushed exactly its earlier pending services and the changed ones it is subscribed under, each once; offline ones keep exactly theirs; each response has the hosts of one complete result current during the task |
| Subscriptions.WaitingAfter | lars_dns/src/subscribe.cc:23-47 | what is pending after a publish, descriptor by descriptor |
| Subscriptions.NothingLost | lars_dns/src/subscribe.cc:11-47 | over any sequence of operations, announced = sent or pending, and no key has an empty set |
| Subscriptions.Inherited | lars_dns/src/subscribe.cc:11-47 | pending changes and subscriptions belong to the number of a descriptor: a task in which it is online is sent exactly what waited for it, what was announced to it since and what the task announces, whatever operations on others came between and whichever connection has the number now |
| Subscriptions.HeardByCommand | lars_dns/include/subscribe.h:13 | whatever else is subscribed and changed, a subscription adds exactly the changes with its command number: modules are not told apart |
| Subscriptions.ResponseNames | lars_dns/src/subscribe.cc:65-71 | a response names the changed service exactly if its command is not negative |
| Subscriptions.PushedHosts | lars_dns/src/subscribe.cc:65-80 | the hosts pushed are the table's hosts of the changed service, or of the neighbouring module for negative commands |
| Rotation.RotatedOnce | lars_agent/src/load_balance.cc:7-19 | moving the front to the back k times shows member k modulo the length |
| Rotation.TurnsExactly | lars_agent/src/load_balance.cc:7-19 | how often each position comes up in k turns, in closed form |
| LoadBalancer.LoadBalance.FromList | lars_agent/src/load_balance.cc:7-19 | the front is copied out and moves to the back; an empty list leaves the result as it was |
| LoadBalancer.LoadBalance.ChoiceOneHost | lars_agent/src/load_balance.cc:30-54 | state, code and host after a call; both lists keep their hosts |
| LoadBalancer.AfterExactly | lars_agent/src/load_balance.cc:30-54 | lists and counter after any number of calls, in closed form, from any value of the uninitialised counter |
| LoadBalancer.Schedule | lars_agent/src/load_balance.cc:30-54 | which host call t picks, from any value of the counter |
| LoadBalancer.ScheduleFromZero | lars_agent/src/load_balance.cc:30-54 | from 0: busy[(t/11) % n] when t % 11 = 10, idle[(t - t/11) % m] otherwise |
| LoadBalancer.OverloadSchedule | lars_agent/src/load_balance.cc:32-43 | with only busy hosts: overload except at the probes, which rotate; the counter stays within 0..10 |
| LoadBalancer.TenBetweenProbes | lars_agent/src/load_balance.cc:32-49 | exactly ten other calls between probes |
| LoadBalancer.NoHostAtAll | lars_agent/src/load_balance.cc:32-43 | with no host a probe still reports success and fills in nothing |
| LoadBalancer.OnlyIdle | lars_agent/src/load_balance.cc:45-53 | with only idle hosts the counter grows with every call, and leaves the range of `int` exactly after 2^31 - 1 minus its first value |
| LoadBalancer.IdlePicksInTurn | lars_agent/src/load_balance.cc:51-53 | the idle hosts handed out are taken in turn, one for every call that is no probe |
| LoadBalancer.IdleShare | lars_agent/src/load_balance.cc:51-53 | over any number of calls two idle hosts differ by at most one pick |
| LoadBalancer.HostsKept | lars_agent/src/load_balance.cc:7-54 | the lists keep their hosts over any number of calls |

## Left out

- Channels.Channel: sender and receiver share one buffer pool, as two ends in one process do; the pools of two processes are independent and the proofs do not use what they share.
- ReactorBuffer: `input_buf` and `output_buf` are one class here; a failing `ioctl` is counted as a failed read, and retries after EINTR are part of the kernel's answer.
- Framing.Receive: relies on the kernel delivering the announced amount or nothing, as the assertion in `read_data` does.
- Streams.Step: a copy that reads behind the end of an array ends the run in a state of which nothing is promised.
- Connections.TcpConn.HandleRead: does not run handlers between two frames; a handler that sends is a call of `Send` after the event here, and the messages are returned in order.
- Clients.TcpClient.HandleRead: the same; the callbacks on building and losing a connection are not run, and a descriptor stays the same over reconnections, as it does in the program.
- Crews.AnyStep: says nothing of the connection's own interest when the process has ended or has left what C++ defines.
- EventLoops.EventLoop.Ctl: `epoll_ctl` fails only when the entry is, or is not, there already.
- TaskQueues.TaskQueue.DealTask: a task's effect is its entry in the history; a task that adds tasks acts as one more producer.
- ConnLifecycle.DestroyedWereClosed: reference counts are references by name, and destruction may come at any moment after the last one is gone, which allows more interleavings than the program has.
- ConnCycles.NothingElseKeepsIt: is about runs in which no later `send` registers the closed connection again; the program does not exclude that (`ConnCycles.RearmedStays`).
- ChangeLog.PushesAreFresh: follows one loop, any of those `send_task` reaches, and a change by the row that recorded it; edits are counted, and `RouteCheckers.RouteChecker.Tells` adds what the table holds after each; that pending changes of one service are sent once is in `Subscriptions`.
- Subscriptions.SubscribeList.PushAll: lists the responses with their hosts and does not look at the result of `send`.
- RouteStores.Row: columns are within the range of `int`, as `atoi` needs; addresses are read as unsigned.
- The generated protobuf code, MySQL and its queries, the UDP and reporter programs, the configuration file, `load_balance::pull` and `update` (empty), and `route_lb`.
- Locks are taken to work: a region under a lock is one step. Ordering of memory accesses outside locks is not modelled.
