# Verified model of the HelloSocket server library

A Dafny 4.11 model of a small C++ TCP server library: length-prefixed framing over
fixed send and receive buffers, three server back ends, worker threads with a task queue
and a home-made semaphore, pooled memory, and a typed message stream.

`dafny verify dfyconfig.toml` checks everything.

## How it is organised

| file | what it models |
|---|---|
| `Basics.dfy`, `Bytes.dfy` | shared arithmetic; little-endian words and the two uses of `memcpy`, the overlapping one as an ascending loop |
| `Framing.dfy` | the wire format and a one-shot parser, the reference for every receive loop |
| `CellBuffer.dfy` | `CellBuffer`, and the receive side of `CellClient` with its message loop |
| `Transport.dfy` | one direction of a connection as a state machine, and the two buffers that refine it |
| `Login.dfy`, `Session.dfy` | numbered logins and replies over two links, stop-and-wait, the send rate; the objects of both sides together |
| `Iocp.dfy` | the completion-port loop with operations outstanding on captured buffer regions |
| `Semaphore.dfy`, `CellThread.dfy`, `TaskServer.dfy` | the concurrency primitives as interleaved atomic steps |
| `Pool.dfy` | intrusive free lists, block layout, size classes, reference counts, heap fallback |
| `Accept.dfy` | the connection cap and least-loaded placement |
| `Stream.dfy`, `Logout.dfy` | the typed stream and the logout handler that decodes and re-encodes |
| `SelectServer.dfy` | the cached read set of the select back end |
| `Legacy.dfy` | the first version's spill loop and reassembly loop |

Each component that changes state is a class whose methods are proved equal to a function
on values (`Abs() == Step(old(Abs()), e)`), and the theorems are proved about every run of
that function. `Transport.Link.Play`, `Sessions.Session.Play`, `Semaphore.CellSemaphore.Play`,
`CellThreads.CellThread.Play`, `TaskServer.RunningServer.Play`, `Pools.MemoryMgr.Play`,
`CellBuffers.Receiver.ReceiveAll` and `SelectServer.CellSelectServer.OnRun` close the gap for
whole runs of the objects themselves.

Parameters stand for what is outside the code: how many bytes `send` and `recv` move, which
sockets select reports, when the kernel stores into a posted region, which waiter
`notify_one` picks, elapsed time, sizes of buffers and pools, `sizeof(void*)`.

## Where the code does not keep a promise

Each of these is proved with its exact condition, and nearly all with a concrete input that fails.

- A header announcing length 0 makes the `DoMsg` loop run forever, and only that does
  (`Framing.LoopsForeverIffSpins`, `Framing.ZeroHeaderSpins`).
- A message longer than the receive buffer can never be delivered; the link can finish, and
  `recv` always has room, exactly when every message fits (`Transport.FinishesIffMessagesFit`,
  `Transport.RoomAfterDoMsg`, `Transport.OversizeStalls`). With completion ports it leaves
  `_isPostRecv` set and nothing outstanding, for good (`Iocp.FlagMeansPostedIff`,
  `Iocp.NeverWedgesIffMessagesFit`, `Iocp.WedgedForever`, `Iocp.OversizeWedges`).
- A zero-length header also stops a completion-port client's sends: what is pushed behind the
  outstanding send is never sent (`Iocp.SendsAllIff`, `Iocp.ZeroHeaderBlocksSends`).
- `SendTest` counts a login as sent when the client is not connected
  (`Login.DisconnectedSendCounts`).
- `CellThread::Close` waits for the worker while holding the mutex that the worker's own
  `Exit` needs. A waiting close is safe in every continuation exactly when a permit is
  there already or the worker has left its work function; otherwise the worker can still enter
  `Exit` and block it for good (`CellThreads.CloseReturnsIff`, `CellThreads.SafeToCloseIff`,
  `CellThreads.ExitRacesClose`). A worker that never calls `Exit` is safe to close
  (`CellThreads.CloseReturnsWithoutExit`).
- A run that ends by itself leaves a semaphore permit behind, with which the next `Close`
  returns before its worker has finished (`CellThreads.NoStalePermitIff`,
  `CellThreads.SelfExitLeavesPermit`).
- `CellServer::OnRun` tests for clients before `CheckTime`, which may remove the last one;
  `CellSelectServer::DoNetEvent` then dereferences `begin()` of an empty map
  (`SelectServer.CellSelectServer.OneTurn`, `SelectServer.LastClientExpires`).
- The logout reply repeats the request exactly when the request is well formed; otherwise
  it contains default values, or for 32- and 64-bit scalars unset ones
  (`Logout.ReplyEchoesIff`, `Logout.BareHeaderNotEchoed`).
- The legacy spill loop does not look at a partial `send`, so its bytes survive exactly when
  every flush is taken whole; it also returns `SOCKET_ERROR` when nothing had to be flushed
  (`Legacy.SpillConservesIff`, `Legacy.ClientSocket.SendData`, `Legacy.PartialFlushLoses`).
  The later `write2socket` handles partial sends.

## Model

| member | source | states |
|---|---|---|
| Bytes.ToFromLE | HelloSocket/depends/include/CellStream.hpp:61-78 | copying bytes into a scalar and out again changes none of them |
| Bytes.FromToLE | HelloSocket/depends/include/CellStream.hpp:166-180 | a scalar that fits its width survives being copied into bytes and back |
| Bytes.ShiftLeft | HelloSocket/depends/include/CellBuffer.hpp:72-76 | the overlapping copy, done in ascending order, is the intended left shift for every overlap, and the bytes beyond it stay |
| Framing.DrainConserves | HelloSocket/depends/include/CellServer.hpp:135-147 | the message loop loses, invents and reorders no byte: messages taken followed by the rest are the buffer |
| Framing.DrainFlatten | HelloSocket/depends/include/CellServer.hpp:135-147 | parsing a concatenation of framed messages gives back those messages, whatever follows |
| Framing.DrainAppend | HelloSocket/depends/include/CellServer.hpp:135-161 | segmentation does not matter: draining, keeping the rest and draining again when more arrives is draining the whole stream once |
| Framing.LoopsForeverIffSpins | HelloSocket/depends/include/CellServer.hpp:140-145 | the loop runs forever on a buffer if and only if a header of length 0 comes to its front |
| Framing.ZeroHeaderSpins | HelloSocket/depends/include/CellBuffer.hpp:126-136 | four zero bytes are such a buffer |
| Framing.DrainReached | HelloSocket/depends/include/CellServer.hpp:140-145 | otherwise a finite number of rounds reaches exactly the parser's remainder |
| Framing.FullMeansOversize | HelloSocket/depends/include/CellBuffer.hpp:109-136 | a drained buffer that is full holds the start of a message longer than itself |
| Framing.AlwaysRoomIffMessagesFit | HelloSocket/depends/include/CellBuffer.hpp:109-136 | for a stream of framed messages: however much of it has arrived, the message loop ends and leaves room, if and only if no message is longer than the buffer |
| Framing.OversizeFills | HelloSocket/depends/include/CellBuffer.hpp:109-136 | for each message longer than the buffer, the prefix of the stream that delivers everything before it and fills the buffer with its start |
| Framing.PrefixOfStream | HelloSocket/depends/include/CellBuffer.hpp:126-136 | every prefix of a stream of framed messages within the capacity satisfies the well-formedness predicate used for receivers |
| Framing.PrefixedDrains | HelloSocket/depends/include/CellServer.hpp:135-147 | on such a prefix the loop ends, delivers only framed messages and leaves room in the buffer |
| CellBuffers.CellBuffer.constructor | HelloSocket/depends/include/CellBuffer.hpp:12-15 | a new buffer is empty and has the requested size |
| CellBuffers.CellBuffer.Push | HelloSocket/depends/include/CellBuffer.hpp:36-70 | appends all of the data or, exactly when it does not fit, changes nothing |
| CellBuffers.CellBuffer.Pop | HelloSocket/depends/include/CellBuffer.hpp:72-83 | removes exactly the first n bytes when there are as many; otherwise the position becomes negative and the bytes stay |
| CellBuffers.CellBuffer.WriteToSocket | HelloSocket/depends/include/CellBuffer.hpp:85-107 | what goes to the socket is the prefix it took, what stays is the rest; errors and an empty buffer change nothing |
| CellBuffers.CellBuffer.ReadFromSocket | HelloSocket/depends/include/CellBuffer.hpp:109-124 | appends exactly what arrived; a full buffer gives 0 and a failed recv SOCKET_ERROR, both without change |
| CellBuffers.CellBuffer.CheckMsg | HelloSocket/depends/include/CellBuffer.hpp:126-136 | true exactly when a header and the length it announces are there |
| CellBuffers.CellBuffer.MakeRecvIoData | HelloSocket/depends/include/CellBuffer.hpp:143-153 | the region offered to the kernel is the whole free part, or nothing when there is none |
| CellBuffers.CellBuffer.MakeSendIoData | HelloSocket/depends/include/CellBuffer.hpp:155-164 | the region offered for sending is all of the contents, or nothing when empty |
| CellBuffers.CellBuffer.ReadFromIocp | HelloSocket/depends/include/CellBuffer.hpp:166-174 | moves the position by a completed receive exactly when it fits, and never touches the bytes |
| CellBuffers.CellBuffer.WriteToIocp | HelloSocket/depends/include/CellBuffer.hpp:176-194 | drops exactly the bytes sent, or refuses without change when there are fewer |
| CellBuffers.Receiver.PopFrontMsg | HelloSocket/depends/include/CellClient.hpp:69-73 | removes exactly the front message, and nothing when it is incomplete |
| CellBuffers.Receiver.FrontMsg | HelloSocket/depends/include/CellClient.hpp:65-67 | the handler sees exactly the announced number of bytes from the front |
| CellBuffers.Receiver.DoMsg | HelloSocket/depends/include/CellServer.hpp:135-147 | the in-place loop terminates, delivers what the one-shot parser finds and leaves what it leaves |
| CellBuffers.Receiver.Feed | HelloSocket/depends/include/EasyTcpClient.hpp:88-108 | one receive and the message loop together parse the old contents followed by the new bytes; a failed receive delivers nothing |
| CellBuffers.Receiver.ReceiveAll | HelloSocket/depends/include/CellServer.hpp:135-161 | for every segmentation of a well-formed stream the buffer and loop deliver what the parser gives on the concatenation, no receive is refused and the buffer always has room |
| Transport.EndToEnd | HelloSocket/depends/include/CellClient.hpp:57-96 | over every interleaving, delivered messages followed by the parse of receive buffer, wire and send buffer are exactly the accepted messages, in order |
| Transport.BytesConserved | HelloSocket/depends/include/CellBuffer.hpp:36-124 | without any assumption on the messages, delivered and pending bytes are the accepted bytes and no buffer overflows |
| Transport.FrontIsNext | HelloSocket/depends/include/CellBuffer.hpp:126-136 | the message at the front of the receive buffer is the oldest accepted one not yet delivered, whole |
| Transport.FinishesIffMessagesFit | HelloSocket/depends/include/CellServer.hpp:135-161 | from any reachable state everything accepted can still be delivered if and only if every accepted message fits the receive buffer |
| Transport.OversizeStalls | HelloSocket/depends/include/CellBuffer.hpp:109-136 | a five-byte message is accepted and never gets through a receive buffer of four |
| Transport.RoomAfterDoMsg | HelloSocket/depends/include/CellBuffer.hpp:109-136 | from any reachable state, recv is offered room after the message loop in every continuation if and only if every accepted message fits the receive buffer |
| Transport.Fill | HelloSocket/depends/include/CellBuffer.hpp:109-136 | a schedule of transfers that fills the receive buffer with the start of a message too long for it |
| Transport.QuietRunsEnd | HelloSocket/depends/include/CellServer.hpp:135-161 | every run of transfers and deliveries is at most as long as the work there is, so no schedule goes on without end |
| Transport.StoppedMeansDelivered | HelloSocket/depends/include/CellServer.hpp:135-161 | when no transfer or delivery is possible any more and the messages fit, everything accepted has been delivered |
| Transport.NextEnabled | HelloSocket/depends/include/CellServer.hpp:135-161 | while a message that fits is undelivered some transfer or delivery is possible and brings it closer |
| Transport.PushAcceptedIff | HelloSocket/depends/include/CellBuffer.hpp:53-69 | a message is accepted if and only if it fits behind what is buffered, and is then put there; otherwise nothing changes |
| Transport.FlushMoves | HelloSocket/depends/include/CellBuffer.hpp:85-107 | exactly k bytes move from the front of the send buffer to the end of the wire, for every k up to what is buffered |
| Transport.ReceiveMoves | HelloSocket/depends/include/CellBuffer.hpp:109-124 | exactly k bytes move from the wire to the receive buffer, for every k that has arrived and fits |
| Transport.Link.SendData | HelloSocket/depends/include/CellClient.hpp:87-96 | returns the length and puts the whole message behind the buffered ones exactly when it fits, else SOCKET_ERROR and no change |
| Transport.Link.SendDataReal | HelloSocket/depends/include/CellClient.hpp:80-83 | the first k bytes leave the send buffer and join the wire; the return value in every case |
| Transport.Link.RecvData | HelloSocket/depends/include/CellClient.hpp:57-59 | moves from the wire to the end of the receive buffer exactly what the kernel yields; returns the count, SOCKET_ERROR when it yields nothing, and 0 for a full buffer |
| Transport.Link.DoOneMsg | HelloSocket/depends/include/CellServer.hpp:140-145 | one round delivers the front message and removes it, or does nothing |
| Transport.Link.Play | HelloSocket/depends/include/CellClient.hpp:57-96 | every interleaving of these calls on the real buffers is a run of the state machine, so its theorems hold of them |
| Login.Decodes | HelloSocket/depends/include/MessageHeader.hpp:26-46 | the command and message id stored in a login or reply are read back unchanged |
| Login.CounterWraps | HelloSocket/EasyTcpClient/client.cpp:52-92 | a counter incremented n times holds n modulo 2^32 |
| Login.MyClient.Send | HelloSocket/EasyTcpClient/client.cpp:83-97 | a login goes out only with sends left and no reply awaited; id, count and wait change exactly when it fits or there is no connection, and the result says which |
| Login.DisconnectedSendCounts | HelloSocket/depends/include/EasyTcpClient.hpp:115-120 | a login is counted as sent without having been accepted if and only if sending is due and the client is not connected |
| Login.MyClient.OnNetMsg | HelloSocket/EasyTcpClient/client.cpp:39-81 | any message ends the wait; only a login result, of any length, is compared with the expected number, which advances |
| Login.MyClient.CheckSendTime | HelloSocket/EasyTcpClient/client.cpp:99-109 | as soon as the interval is over the count is nMsg and one interval is subtracted; before that the count stays |
| Login.ServerPeer.OnNetMsg | HelloSocket/EasyTcpServer/server.cpp:40-71 | only a login, of any length, is compared and answered; the reply is put in the buffer and numbered exactly when it fits |
| Login.OnlyLoginsCount | HelloSocket/EasyTcpServer/server.cpp:38-71 | other messages leave the numbers and the link alone on both sides, and every number that does not match is noticed |
| Login.FrontNumbered | HelloSocket/EasyTcpServer/server.cpp:40-51 | the k-th message handed to a handler carries the number k |
| Login.NoMismatch | HelloSocket/EasyTcpClient/client.cpp:39-97 | over lossless links of any buffer sizes neither mismatch branch is ever reached, whatever pushes fail |
| Login.StopAndWait | HelloSocket/EasyTcpServer/server.cpp:56-71 | with both send buffers at least one message long, `_bSend` holds exactly while one request or reply is in transit, never more than one, and no push fails |
| Login.Advance | HelloSocket/depends/include/EasyTcpClient.hpp:88-108 | while a message is in transit some step other than a send brings the round trip closer to its end |
| Login.NoDeadlock | HelloSocket/EasyTcpClient/client.cpp:39-109 | from every reachable state the outstanding round trip can be completed without further sends, after which the client sends again, at once with sends left and at the latest after one interval |
| Login.SendAccepted | HelloSocket/EasyTcpClient/client.cpp:83-97 | a client with sends left that is not waiting sends a login with its next number |
| Login.RateBound | HelloSocket/EasyTcpClient/client.cpp:83-109 | logins accepted never exceed nMsg times the whole sleep intervals in the initial rest plus the elapsed time |
| Login.RunKeepsRate | HelloSocket/EasyTcpClient/client.cpp:99-109 | over every run, rest time plus refills times the interval equals initial rest plus elapsed time, and logins sent plus sends left never exceed nMsg times the refills |
| Sessions.Session.Serve | HelloSocket/EasyTcpServer/server.cpp:40-71 | the server's handler on the real link back changes the peer's numbers and that link only, as the protocol says |
| Sessions.Session.ServerHandles | HelloSocket/depends/include/CellServer.hpp:135-147 | one round of the server's loop hands over the front message and then removes it |
| Sessions.Session.ClientHandles | HelloSocket/depends/include/EasyTcpClient.hpp:100-108 | one round of the client's loop hands over the front message and then removes it |
| Sessions.Session.Play | HelloSocket/EasyTcpClient/client.cpp:39-109 | every interleaving of sends, transfers, both message loops and ticks on the objects is a run of the protocol machine, so its theorems hold of them |
| Iocp.CleanHasRoom | HelloSocket/depends/include/CellClient.hpp:128-135 | a drained buffer has room and is not wedged when the peer's stream is well formed and its messages fit |
| Iocp.PostKeepsInv | HelloSocket/depends/include/CellIOCPServer.hpp:19-53 | posting keeps the invariant, with any stream; a receive is then outstanding exactly when one was or there was room |
| Iocp.PostSends | HelloSocket/depends/include/CellIOCPServer.hpp:22-31 | posting leaves a send outstanding whenever there is something to send: the one there was, or else all of the contents |
| Iocp.PostsEach | HelloSocket/depends/include/CellIOCPServer.hpp:19-53 | the posting loop does so for every client in turn and touches no other |
| Iocp.IocpClient.PostAll | HelloSocket/depends/include/CellIOCPServer.hpp:22-50 | on the real buffers, the contents are posted when nothing was outstanding, and a receive is wanted |
| Iocp.StoreKeepsInv | HelloSocket/depends/include/CellBuffer.hpp:143-153 | the kernel's stores never touch bytes below `_nLast` |
| Iocp.RecvDoneAppends | HelloSocket/depends/include/CellIOCPServer.hpp:83-98 | a completion appends exactly the bytes that arrived, and no error branch is taken |
| Iocp.SendDoneRemoves | HelloSocket/depends/include/CellIOCPServer.hpp:100-114 | a send completion removes exactly the bytes sent, and no error branch is taken |
| Iocp.TakeKeepsInv | HelloSocket/depends/include/CellServer.hpp:135-147 | the message loop never shifts a buffer the kernel is writing into, and shortens it every round unless a zero-length header comes up |
| Iocp.StepKeepsInv | HelloSocket/depends/include/CellServer.hpp:45-81 | every step of the server loop, the kernel and the senders keeps the invariant of every client, whatever bytes the kernel stores |
| Iocp.RecvSafe | HelloSocket/depends/include/CellIOCPServer.hpp:17-120 | in every reachable state, for a client whose peer sent a prefix of well-formed messages that fit: the receive flag means an outstanding operation whose region still starts at `_nLast` and is not empty, over a buffer with no complete message, and deliveries continue with the parse of what is buffered and stored |
| Iocp.PostedIsSafe | HelloSocket/depends/include/CellIOCPServer.hpp:17-120 | with any bytes at all: an outstanding receive has the flag set, its region starts at `_nLast` over a buffer with no complete message, and no byte is lost or reordered |
| Iocp.SendSafe | HelloSocket/depends/include/CellClient.hpp:145-160 | in every reachable state the captured prefix of a posted send is unchanged and within the buffer, and sent plus buffered bytes are the accepted pushes |
| Iocp.SendsAllIff | HelloSocket/depends/include/CellIOCPServer.hpp:17-120 | at every reachable wait of a server with one client, loop, kernel and completions can get everything pushed sent if and only if no zero-length header lies in its receive buffer or the outstanding send is all there is |
| Iocp.ZeroHeaderBlocksSends | HelloSocket/depends/include/CellServer.hpp:135-147 | a byte pushed while four zero bytes wait in the receive buffer is never sent |
| Iocp.FlagMeansPostedIff | HelloSocket/depends/include/CellClient.hpp:128-135 | over every run with arbitrary bytes: a flag with nothing outstanding means a buffer filled by the start of a longer message; once completions are handled, the flag has nothing behind it if and only if what the peer sent parses to messages and a remainder as long as the buffer |
| Iocp.WedgedForever | HelloSocket/depends/include/CellClient.hpp:128-135 | such a client stays so in every continuation, and receives and delivers nothing more |
| Iocp.NeverWedgesIffMessagesFit | HelloSocket/depends/include/CellIOCPServer.hpp:17-120 | a peer's stream of framed messages can wedge its client in no run of the server if and only if every message fits the receive buffer |
| Iocp.BackToWaiting | HelloSocket/depends/include/CellServer.hpp:45-81 | for a single client, without a zero-length header: the loop thread always comes back to its wait, with the flag set and whatever there is to send outstanding |
| Iocp.OversizeWedges | HelloSocket/depends/include/CellClient.hpp:128-135 | a run that wedges a client: a four-byte buffer and a header announcing five |
| Iocp.FillRunWedges | HelloSocket/depends/include/CellClient.hpp:128-135 | that run for every buffer filled at once by bytes that hold no complete message |
| Iocp.IocpClient.PostRecvNow | HelloSocket/depends/include/CellClient.hpp:128-135 | sets the flag first and posts the free region if there is one |
| Iocp.IocpClient.PostSendNow | HelloSocket/depends/include/CellClient.hpp:145-152 | sets the flag first and posts the contents if there are any |
| Iocp.IocpClient.Recv4Iocp | HelloSocket/depends/include/CellClient.hpp:136-143 | ends the outstanding receive and moves the position by what arrived, on the real buffer |
| Iocp.IocpClient.Send2Iocp | HelloSocket/depends/include/CellClient.hpp:153-160 | ends the outstanding send and drops what was sent, on the real buffer |
| Iocp.IocpClient.PushData | HelloSocket/depends/include/CellClient.hpp:91-96 | puts the data behind the captured region exactly when it fits, else changes nothing |
| Iocp.IocpClient.TakeMsg | HelloSocket/depends/include/CellServer.hpp:140-145 | one message round on the real buffer is the machine's step |
| Semaphore.StepKeepsInv | HelloSocket/depends/include/CellSemaphore.hpp:13-31 | every critical section, spurious wakeup and recheck keeps both counters equal to what the threads are doing |
| Semaphore.Counts | HelloSocket/depends/include/CellSemaphore.hpp:13-31 | for any number of threads: blocked = max(0, -_wait) + _wakeup, completed = min(started, signals) - _wakeup, no wait overtakes the signals, and awake waiters cover the pending wakeups |
| Semaphore.NoWakeupLost | HelloSocket/depends/include/CellSemaphore.hpp:13-31 | from every reachable state the waiters already awake can complete as many waits as there are signals for |
| Semaphore.WaitTakesPermit | HelloSocket/depends/include/CellSemaphore.hpp:13-22 | the two counters amount to a number of permits: a wait returns at once exactly when one is left, and uses it |
| Semaphore.CellSemaphore.WaitSection | HelloSocket/depends/include/CellSemaphore.hpp:13-22 | blocks the caller exactly when no permit is left, and takes one otherwise |
| Semaphore.CellSemaphore.RecheckSection | HelloSocket/depends/include/CellSemaphore.hpp:16-19 | a woken waiter returns exactly when a permit is left, and takes it |
| Semaphore.CellSemaphore.WakeupSection | HelloSocket/depends/include/CellSemaphore.hpp:25-31 | adds one permit and never leaves all blocked threads asleep |
| Semaphore.CellSemaphore.Play | HelloSocket/depends/include/CellSemaphore.hpp:13-31 | every interleaving of the sections on the object is a run of the machine, so its theorems hold of the counters |
| CellThreads.CloseReturnsIff | HelloSocket/depends/include/CellThread.hpp:41-57 | a waiting Close can be blocked for good in no continuation if and only if a permit is there already or the worker has left its work function |
| CellThreads.SafeToCloseIff | HelloSocket/depends/include/CellThread.hpp:41-57 | before the call, after any history: Close is sure never to be blocked for good if and only if no worker is marked running or a permit is left over |
| CellThreads.CanReturnIff | HelloSocket/depends/include/CellThread.hpp:41-57 | at a given moment some continuation lets a waiting Close return if and only if it has not met Exit |
| CellThreads.CloseReturnsWithoutExit | HelloSocket/depends/include/CellThread.hpp:41-79 | with a worker that never calls Exit a waiting Close can return in every history |
| CellThreads.DeadlockIsForever | HelloSocket/depends/include/CellThread.hpp:41-57 | once Close holds the mutex its worker's Exit needs, nothing changes any more |
| CellThreads.ExitRacesClose | HelloSocket/depends/include/CellServer.hpp:73-76 | a start, a failing network event and a close reach that deadlock |
| CellThreads.NoStalePermitIff | HelloSocket/depends/include/CellThread.hpp:41-79 | the close returns only after its worker finished, in every continuation, if and only if no permit was left when it began to wait |
| CellThreads.SelfExitLeavesPermit | HelloSocket/depends/include/CellThread.hpp:52-79 | a run that exits by itself, a restart and a close reach a waiting close with such a permit |
| CellThreads.CellThread.WaitInClose | HelloSocket/depends/include/CellThread.hpp:41-47 | on the real semaphore, Close's wait returns at once exactly when the number of permits allows it, and otherwise changes nothing of what the machine sees |
| CellThreads.CellThread.RecheckInClose | HelloSocket/depends/include/CellThread.hpp:41-47 | and so does a waiter that has been woken |
| CellThreads.CellThread.WaiterReady | HelloSocket/depends/include/CellThread.hpp:41-79 | a Close blocked in the semaphore whose permit has come is awake |
| CellThreads.CellThread.Play | HelloSocket/depends/include/CellThread.hpp:19-79 | every interleaving of Start, Close, Exit, the worker and the semaphore's sections on the objects is, act by act, a run of the machine that knows only a number of permits |
| TaskServer.TasksConserved | HelloSocket/depends/include/CellTask.hpp:39-91 | at every moment of every interleaving, executed tasks, the rest of `_tasks` and the rest of `_tasksBuf` are all tasks added, in order |
| TaskServer.CloseMeansDone | HelloSocket/depends/include/CellThread.hpp:41-79 | when a close of a started server has returned, the worker is past its callbacks and every task added before the flag was cleared has run, once, in the order added |
| TaskServer.CloseRunsEarlierTasks | HelloSocket/depends/include/CellTask.hpp:52-91 | from the caller's side: whatever happens after the call, once Close has returned every task added before it has been executed |
| TaskServer.CloseCallCanReturn | HelloSocket/depends/include/CellThread.hpp:41-47 | from every reachable running state, calling Close can be brought to return |
| TaskServer.TasksRunWhileOpen | HelloSocket/depends/include/CellTask.hpp:60-83 | in every reachable state of a running server the worker's steps alone can execute everything that has been added |
| TaskServer.SwapsIn | HelloSocket/depends/include/CellTask.hpp:63-69 | a running worker that finds tasks buffered has all of them in its list two steps later |
| TaskServer.StartAndClose | HelloSocket/depends/include/CellThread.hpp:19-47 | Start starts the worker; Close stops a running one and waits, and returns at once from an ended one |
| TaskServer.WorkerAdvances | HelloSocket/depends/include/CellTask.hpp:60-91 | while a close is in progress every worker step gets nearer to the signal |
| TaskServer.CloseCanReturn | HelloSocket/depends/include/CellThread.hpp:41-47 | from every reachable state inside a close, worker and caller alone can bring it to return |
| TaskServer.WaitKeepsClose | HelloSocket/depends/include/CellSemaphore.hpp:13-22 | a close that waits after the worker has signalled does not block |
| TaskServer.OneWaiter | HelloSocket/depends/include/CellSemaphore.hpp:25-31 | once the worker has signalled, a close blocked in the semaphore is awake and finds its wakeup |
| TaskServer.AddConserves | HelloSocket/depends/include/CellTask.hpp:39-43 | adding a task at any moment keeps executed, remaining and buffered tasks equal to all tasks added |
| TaskServer.CellTaskServer.TakeBuffered | HelloSocket/depends/include/CellTask.hpp:63-69 | moves every buffered task behind `_tasks`, in order, leaving none |
| TaskServer.CellTaskServer.RunTasks | HelloSocket/depends/include/CellTask.hpp:78-82 | while callers add tasks before every iteration, exactly the tasks swapped in run, once and in order, and every arrival is buffered |
| TaskServer.CellTaskServer.DrainBuffered | HelloSocket/depends/include/CellTask.hpp:86-88 | while callers go on adding, everything added until the loop ends has been executed when it ends |
| TaskServer.RunningServer.Play | HelloSocket/depends/include/CellTask.hpp:39-91 | every interleaving of adding, the worker's steps and closing, on the lists and the semaphore's counters, is a run of the machine, so its theorems hold of the objects |
| FreeList.TakeHead | HelloSocket/HelloMemory/MemoryMgr.hpp:79-82 | the block at the head is unused, and taking it leaves an acyclic chain of exactly the unused blocks |
| FreeList.PutBack | HelloSocket/HelloMemory/MemoryMgr.hpp:95-100 | a block whose count drops to 0 goes in front of the chain, which stays acyclic and exact |
| FreeList.FreshChain | HelloSocket/HelloMemory/MemoryMgr.hpp:130-141 | the links made by initialisation visit every block once, in order |
| FreeList.FreePlusLive | HelloSocket/HelloMemory/MemoryMgr.hpp:63-105 | free blocks plus live blocks are all blocks |
| Layout.RoundUpIsLeast | HelloSocket/HelloMemory/MemoryMgr.hpp:160-166 | the rounded size is the least multiple of the alignment that is at least the request |
| Layout.BlocksApart | HelloSocket/HelloMemory/MemoryMgr.hpp:115-141 | carved blocks are pairwise disjoint and inside the buffer, and a header's distance before a payload is its block |
| Layout.BlocksAligned | HelloSocket/HelloMemory/MemoryMgr.hpp:115-141 | with an aligned buffer, header and size every block and payload is aligned |
| Pools.MemoryMgr.LivePayloadsApart | HelloSocket/HelloMemory/MemoryMgr.hpp:108-203 | the payloads of any two live pool blocks, of one class or two, do not overlap, and each is aligned |
| Pools.MemoryAlloc.constructor | HelloSocket/HelloMemory/MemoryMgr.hpp:157-167 | a pool with the rounded size and every block unused |
| Pools.MemoryAlloc.InitMemory | HelloSocket/HelloMemory/MemoryMgr.hpp:108-142 | the first allocation finds all blocks on the chain in order |
| Pools.MemoryAlloc.AllocMemory | HelloSocket/HelloMemory/MemoryMgr.hpp:63-87 | takes the head of the chain, a block nobody holds, changing no other count, and turns to the heap exactly when every block is live |
| Pools.MemoryAlloc.FreeMemory | HelloSocket/HelloMemory/MemoryMgr.hpp:90-105 | one reference less, and the block is at the head of the chain exactly when none is left |
| Pools.BuildTable | HelloSocket/HelloMemory/MemoryMgr.hpp:172-179 | every request size up to the largest class maps to the smallest class that holds it |
| Pools.MemoryMgr.constructor | HelloSocket/HelloMemory/MemoryMgr.hpp:172-238 | the pools and the table fit together and nothing is held |
| Pools.MemoryMgr.AllocMem | HelloSocket/HelloMemory/MemoryMgr.hpp:189-203 | the block was held by nobody, is large enough, disturbs no other count, and comes from the heap only for oversize requests or a class with every block live |
| Pools.MemoryMgr.FreeMem | HelloSocket/HelloMemory/MemoryMgr.hpp:205-217 | one reference less on that block alone, in the pool or on the heap |
| Pools.MemoryMgr.AddRef | HelloSocket/HelloMemory/MemoryMgr.hpp:220-223 | one reference more on that block alone |
| Pools.MemoryMgr.Play | HelloSocket/HelloMemory/MemoryMgr.hpp:189-223 | in any sequence of requests by owners of live blocks, the counts are those the history implies and no block is handed out while its count is positive |
| Pools.LogStep | HelloSocket/HelloMemory/MemoryMgr.hpp:189-223 | the history extended by one answered request is still lawful and its tally changes for that block only |
| Pools.CellObjectPool.constructor | HelloSocket/HelloMemory/CellObjectPool.hpp:91-120 | all blocks on the chain in order, no object alive |
| Pools.CellObjectPool.AllocObj | HelloSocket/HelloMemory/CellObjectPool.hpp:69-88 | the memory held no object, every other object stays, and the heap is used only when every block is live |
| Pools.CellObjectPool.FreeObj | HelloSocket/HelloMemory/CellObjectPool.hpp:48-67 | exactly that object ends, and a pool block returns to the head of the chain |
| Accept.MinServer | HelloSocket/depends/include/EasyTcpServer.hpp:159-168 | the first server with the least load |
| Accept.AcceptBound | HelloSocket/depends/include/EasyTcpServer.hpp:142-182 | in every run both counters equal what the lists hold, 0 <= join <= accept <= cap, and no server exceeds the rounded-up share, which is within the capacity Start gives it |
| Accept.LeastTimesCount | HelloSocket/depends/include/EasyTcpServer.hpp:159-168 | the least load times the number of servers is at most the total |
| Accept.StepKeepsInv | HelloSocket/depends/include/CellServer.hpp:47-62 | an accept, a transfer and a leave each keep the counters equal to the lists and every load within the share |
| Accept.InsertSize | HelloSocket/depends/include/CellServer.hpp:51-60 | transferring the buffered clients adds each of them once |
| Accept.EasyTcpServer.FindMin | HelloSocket/depends/include/EasyTcpServer.hpp:159-168 | the search loop finds that first least-loaded server |
| Accept.ConnectPlaces | HelloSocket/depends/include/EasyTcpServer.hpp:142-168 | below the cap a new client is counted and put behind those waiting at one least-loaded server; at the cap nothing changes |
| Accept.EasyTcpServer.Accept | HelloSocket/depends/include/EasyTcpServer.hpp:124-157 | kept exactly below the cap: the count grows by one, one least-loaded server's buffered list grows by the client, no other list changes |
| Accept.TransferAndLeave | HelloSocket/depends/include/CellServer.hpp:47-62 | a transfer makes clients of exactly those that waited and leaves none waiting; a leave takes exactly one client away |
| Accept.EasyTcpServer.TransferClients | HelloSocket/depends/include/CellServer.hpp:47-62 | the clients become the union with the buffered list, which is empty afterwards, and each is counted as joined |
| Accept.EasyTcpServer.ClientLeaves | HelloSocket/depends/include/EasyTcpServer.hpp:228-231 | both counters and the server's list lose that one client |
| Streams.ReadEncode | HelloSocket/depends/include/CellStream.hpp:60-199 | reading what was written gives the value back and consumes exactly its bytes, whatever follows |
| Streams.EncodeRead | HelloSocket/depends/include/CellStream.hpp:60-108 | a successful read found exactly the encoding of what it returns, within the caller's limit |
| Streams.ReadEncodeAll | HelloSocket/depends/include/CellStream.hpp:60-199 | the same for any sequence of scalars and arrays |
| Streams.EncodeReadAll | HelloSocket/depends/include/CellStream.hpp:60-108 | a successful sequence of reads consumed exactly the encoding of its results |
| Streams.MessageRoundTrip | HelloSocket/depends/include/CellMsgStream.hpp:10-66 | a finished message of at most 65535 bytes is read back entirely, and its length word is its length |
| Streams.CellStream.Write | HelloSocket/depends/include/CellStream.hpp:165-199 | all of the value or nothing; a failed write leaves position and bytes as they were |
| Streams.CellStream.ReadScalar | HelloSocket/depends/include/CellStream.hpp:60-83 | the word at the read position; the position moves only on success and only when asked |
| Streams.CellStream.ReadArray | HelloSocket/depends/include/CellStream.hpp:85-108 | the array when it fits the room and is all there, otherwise no move |
| Streams.OpenRead | HelloSocket/depends/include/CellMsgStream.hpp:10-30 | everything is readable and as many header words as are there are skipped |
| Streams.OpenWrite | HelloSocket/depends/include/CellMsgStream.hpp:32-44 | two zero bytes are kept for the length when the buffer has them |
| Streams.Finish | HelloSocket/depends/include/CellMsgStream.hpp:61-66 | only the first two bytes change, to the length modulo 2^16 |
| Streams.WriteMessage | HelloSocket/depends/include/CellMsgStream.hpp:32-66 | the buffer holds the length word and, of the command and the values, each one that still fitted, in order, for every buffer size; all do exactly when the message fits, and then it is the message |
| Streams.PackedWhole | HelloSocket/depends/include/CellStream.hpp:165-199 | a sequence of write calls loses a value exactly when their bytes together do not fit |
| Streams.PackedFirst | HelloSocket/depends/include/CellStream.hpp:165-199 | a value that does not fit is passed over and the later ones are still tried |
| Streams.ReadMessage | HelloSocket/depends/include/CellMsgStream.hpp:10-30 | a sequence of read calls on the real stream gives what reading the bytes after the header gives |
| Streams.WriteThenRead | HelloSocket/depends/include/CellMsgStream.hpp:10-66 | what a write stream of any size finished, a read stream over the same bytes returns, to the last byte, when its length is at most 65535 |
| Logout.ReplyEchoesIff | HelloSocket/EasyTcpServer/server.cpp:98-129 | the reply is the request with only the command replaced, length included, if and only if the request is a well-formed logout, whatever each unset variable holds |
| Logout.EveryLogoutEchoes | HelloSocket/EasyTcpServer/server.cpp:98-129 | any eight values with strings of at most 32 bytes and at most 10 integers make a well-formed request, and the reply carries the same values |
| Logout.FieldsInOrder | HelloSocket/EasyTcpServer/server.cpp:100-115 | the five scalars, the name, the password and the integers, written in this order, are read each into its own variable |
| Logout.BareHeaderNotEchoed | HelloSocket/EasyTcpServer/server.cpp:98-129 | a logout of a header alone is answered with something else than itself |
| Logout.FieldAdmitted | HelloSocket/depends/include/CellStream.hpp:110-162 | whatever is in the request, each variable holds a value its write call can encode within the field's limit |
| Logout.MaxReply | HelloSocket/EasyTcpServer/server.cpp:98-127 | the eight fields never take more than 135 bytes |
| Logout.HandleLogout | HelloSocket/EasyTcpServer/server.cpp:98-129 | the handler on real streams sends exactly that reply, at most 139 bytes, so no write in it fails |
| SelectServer.CellSelectServer.PrepareSets | HelloSocket/depends/include/CellSelectServer.hpp:20-49 | rebuilt or copied, the read set handed to select is the key set of the clients and `_maxSock` its maximum |
| SelectServer.CellSelectServer.CheckTime | HelloSocket/depends/include/CellServer.hpp:87-115 | exactly the clients silent for 60000 ms or more are removed, the others age, and any removal invalidates the cache |
| SelectServer.CellSelectServer.Join | HelloSocket/depends/include/CellServer.hpp:47-62 | new clients enter the map and invalidate the cache |
| SelectServer.CellSelectServer.RemoveFailing | HelloSocket/depends/include/CellSelectServer.hpp:96-134 | exactly the reported clients whose transfer fails are removed, and any removal invalidates the cache |
| SelectServer.CellSelectServer.DoNetEvent | HelloSocket/depends/include/CellSelectServer.hpp:20-80 | with any result of select, the set watched is the clients; afterwards exactly those are gone whose receive failed when readable or whose send failed when writable with something to write |
| SelectServer.AfterIs | HelloSocket/depends/include/CellServer.hpp:45-81 | after a turn exactly the clients remain that were not silent too long and whose transfers did not fail, with what their handlers made of them |
| SelectServer.CellSelectServer.OneTurn | HelloSocket/depends/include/CellServer.hpp:46-78 | one turn of the loop; it reaches the unguarded empty map if and only if there were clients and all of them expired |
| SelectServer.LastClientExpires | HelloSocket/depends/include/CellServer.hpp:65-73 | one client, silent for the whole heartbeat time, is enough to get there |
| SelectServer.CellSelectServer.OnRun | HelloSocket/depends/include/CellServer.hpp:45-81 | over any run of joins, timeouts, reads and writes the cached read sets and `_maxSock + 1` equal the ones computed from the clients every time |
| Legacy.ClientSocket.SendData | HelloSocket/EasyTcpServer/EasyTcpServer.hpp:76-114 | the wire gets of each full buffer what its send took, up to a failure; without one there are exactly (old + n) / size flushes, ending at (old + n) % size with the end of the data buffered; the return value in every case |
| Legacy.SpillConservesIff | HelloSocket/EasyTcpServer/EasyTcpServer.hpp:76-114 | flushed plus buffered bytes are everything submitted if and only if every flush was taken whole |
| Legacy.PartialFlushLoses | HelloSocket/EasyTcpServer/EasyTcpServer.hpp:85-103 | a send that takes nothing of a full one-byte buffer loses the byte |
| Legacy.ClientSocket.RecvData | HelloSocket/EasyTcpServer/EasyTcpServer.hpp:306-342 | the reassembly loop delivers what the one-shot parser finds in the old bytes followed by the new ones |

## Left out

- Sockets, accept, select, epoll and completion-port calls themselves: their results are parameters.
- Failed posts, and clients removed while completion-port operations are outstanding (`rmClient`, and the heartbeat branch that only destroys the socket).
- The epoll server and client, `EasyIOCPClient` and the Windows branches of `ReadData` and `WriteData`: variants of what is modelled.
- `CellFDSet`'s bit layout: a set of sockets; `_fdWrite` is likewise a set.
- `_fullCount`, logging, configuration, timestamps, `time4msg`, `_msgCount` and `_recvCount`: they affect no result modelled here; elapsed time is a parameter.
- Integer overflow of buffer positions: sizes are unbounded naturals in the buffers, and below 2^31 in the streams, where `canRead` and `canWrite` convert to int; the login counters wrap at 2^32.
- Floating-point values: 4- and 8-byte words.
- Data races: `_tasksBuf`, `_isRun` and `getClientCount` are read without a lock in the source, and `MemoryMgr::addRef` and the heap branch of `freeMem` change `_nRef` without the mutex; here each such access is atomic. The size test before the swap is a separate step.
- Iocp.BackToWaiting: this and Iocp.SendsAllIff are stated for one client; other clients' message loops come before it.
- Iocp.IocpClient.PostRecvNow: objects are modelled one client at a time; the loop over all clients and the completion queue are in the state machine.
- Login.ServerPeer.OnNetMsg: the id of a login or result shorter than its structure is a parameter, because the source reads it from whatever follows in the buffer. `-checkMsgID` and `-sendback` are on.
- Login.StopAndWait: in the runs the client stays connected; what a send without a connection does is stated of one call.
- CellThreads.CellThread.Play: a new Start waits for the old worker to end, so the old worker's late write of `_isRun` is not modelled.
- TaskServer.CloseMeansDone: one Start per object and tasks that do not call `Exit` or `Close`; any number of callers may add and close.
- Accept.AcceptBound: the transfer of `_clientsBuff` and each leave are single steps; shutdown (`Clearclients`) is not modelled.
- Pools.MemoryAlloc.InitMemory: block headers are two arrays allocated with the pool and addresses are in `Layout`; `malloc` does not fail. `MemoryAlloc::freeMemory`'s branch for heap blocks is not reachable through `MemoryMgr`, which frees those itself.
- Pools.MemoryMgr.constructor: all classes have the same number of blocks, as in the source.
- SelectServer.CellSelectServer.DoNetEvent: clients are read and written without their buffers; which transfers fail is a parameter, and what handlers do to a client between turns is one too.
- Thread creation, sleeping and `CppNet100`'s foreign-call wrappers.
