# EchoServer: a verified model of the non-blocking echo server

`EchoServer` (package `JavaNetworkProgramming.chapter11`) is a single-threaded
TCP echo server built on `java.nio`:
- One `Selector` watches a listening `ServerSocketChannel` and every accepted
  `SocketChannel`.
- Each accepted connection gets a 100-byte `ByteBuffer` as its key attachment:
  - a readable key reads into the buffer;
  - a writable key flips it, writes what the socket takes, and compacts the
    rest to the front.
- The port is `args[0]`; it defaults to 7.

This project models that core and proves:
- the buffer cursor invariant;
- what each handler does to the buffer;
- that over any interleaving of reads and writes, the bytes written out,
  followed by the bytes still buffered, are exactly the bytes read in;
- that each selected key is removed and then handled by exactly one branch,
  in the priority accept > read > write: every handler method is proved to
  produce exactly the state change of the branch `Choose` picks, and the
  inner and outer loops exactly the fold of those changes;
- that an I/O error closes only its own key's channel, and the loop goes on
  with the next key; the server stops only at a failed `select` or an
  `accept()` that returned null;
- the port rule.

Modules:
- `BufferModel`: the `java.nio.ByteBuffer` cursor semantics as functions on a
  `BufferState` value: allocate, channel read (Fill), flip, channel write
  (Written/Drain), compact.
- `ByteBuffers`: `ByteBuffer` as a class with a fixed backing `array<byte>`
  and `position`/`limit` fields. Each method changes them in place and is
  proved to leave exactly the state the matching `BufferModel` function gives.
- `EchoProtocol`: what a readable and a writable event do to a connection's
  buffer, the per-connection invariant `Echoes`, event runs (`Step`, `Run`),
  and the conservation theorems.
- `EchoConnection`: one connection's `ByteBuffer` driven in place through any
  event sequence, proved equal to `Run`.
- `Dispatch`: the `if / else if` chain over the ready operations.
- `ServerState`: the loop's state as a value (`Table`), and:
  - the effect of each branch on it, with its error outcomes (`AcceptEffect`,
    `ReadEffect`, `WriteEffect`, `CloseEffect`), and of one selected key
    (`KeyEffect`);
  - the inner loop as the fold `Pass` over the selected keys and the outer
    loop as the fold `Loop` over the wakeups;
  - the lemmas that these keep the echo invariant, isolate the other
    connections, and stop only where the code stops.
- `EventLoop`: the `EchoServer` class, each method proved equal to its
  `ServerState` function, with:
  - its registration table;
  - the selected-key set;
  - the per-key handlers with their `catch (IOException)`;
  - the inner `while (iterator.hasNext())` loop and the outer `while (true)`
    loop.
- `PortArgument`: `Integer.parseInt(args[0])` with the fallback to port 7.

Channel behaviour is input data:
- A read is given the bytes the socket holds and transfers as many as fit.
- A write is given how many bytes the socket accepts and sends at most that.
- A selector wakeup is given the keys it reports. Only keys still registered
  are kept.
- Each selected key carries the outcome its handler's channel call has:
  success, end of stream, `IOException`, or `accept()` returning null.

Where the code differs from what its design intends, the model follows the code:
- `client.read`'s result is ignored. End of stream (`-1`) leaves the buffer
  unchanged and does not close the connection.
- An `IOException` in the accept branch closes `key.channel()`. For that key
  that is the listening channel, so the server stops accepting connections; it
  is not a per-connection close.
- `accept()` returning null makes `client.configureBlocking` throw a
  `NullPointerException`, which `catch (IOException)` does not catch, so
  `main` ends.
- Write interest is never dropped, so an idle connection keeps being
  selected as writable and its writable event does nothing.
- A readable key always takes the read branch. A client whose buffer is full
  while bytes wait at the socket (`read` returns 0), or whose peer has closed
  (`read` returns -1 on every pass), stays readable, so its write branch
  never runs again and its pending bytes are never echoed
  (`ServerState.ReadableStalls`).

## Model

| member | source | states |
|---|---|---|
| BufferModel.Allocate | src/main/java/JavaNetworkProgramming/chapter11/EchoServer.java:68 | `ByteBuffer.allocate(capacity)` is in fill mode with position 0, the given capacity and all-zero content |
| BufferModel.ReadCount | src/main/java/JavaNetworkProgramming/chapter11/EchoServer.java:73 | the bytes one channel read transfers are at most what the socket holds and at most the room left, and either everything available or all the room |
| BufferModel.Fill | src/main/java/JavaNetworkProgramming/chapter11/EchoServer.java:73 | a read stores the transferred bytes at [position, position + n), advances position by n, keeps limit and capacity, and leaves every other byte as it was |
| BufferModel.Flip | src/main/java/JavaNetworkProgramming/chapter11/EchoServer.java:77 | flip makes limit the old position, sets position to 0 and keeps the content |
| BufferModel.WriteCount | src/main/java/JavaNetworkProgramming/chapter11/EchoServer.java:78 | a non-blocking write sends at most what the socket accepts and at most what remains, and either all it accepts or everything remaining |
| BufferModel.Written | src/main/java/JavaNetworkProgramming/chapter11/EchoServer.java:78 | the bytes sent are, in order, the bytes from position on, WriteCount of them |
| BufferModel.Drain | src/main/java/JavaNetworkProgramming/chapter11/EchoServer.java:78 | after a write the position has moved past exactly the bytes sent; content and limit are unchanged |
| BufferModel.Compact | src/main/java/JavaNetworkProgramming/chapter11/EchoServer.java:79 | compact moves [position, limit) to the front in order, sets position to their count and limit to the capacity, and keeps the bytes beyond them |
| ByteBuffers.ByteBuffer.constructor | src/main/java/JavaNetworkProgramming/chapter11/EchoServer.java:68 | the new buffer has a fresh backing array and exactly the state Allocate gives |
| ByteBuffers.ByteBuffer.Read | src/main/java/JavaNetworkProgramming/chapter11/EchoServer.java:73 | the in-place copy loop returns ReadCount and leaves array and cursors exactly as Fill describes |
| ByteBuffers.ByteBuffer.Flip | src/main/java/JavaNetworkProgramming/chapter11/EchoServer.java:77 | the in-place flip leaves the state Flip describes |
| ByteBuffers.ByteBuffer.Write | src/main/java/JavaNetworkProgramming/chapter11/EchoServer.java:78 | the in-place write returns the bytes Written describes and leaves the state Drain describes |
| ByteBuffers.ByteBuffer.Compact | src/main/java/JavaNetworkProgramming/chapter11/EchoServer.java:79 | the in-place move loop leaves array and cursors exactly as Compact describes |
| EchoProtocol.OnReadable | src/main/java/JavaNetworkProgramming/chapter11/EchoServer.java:73 | a readable event is a channel read into the buffer; FillAppends, ReadKeepsEchoing and StepConserves state what it does |
| EchoProtocol.Sent | src/main/java/JavaNetworkProgramming/chapter11/EchoServer.java:77-78 | the bytes a writable event sends; DrainCompact states they are the first min(accept, position) pending bytes, in order |
| EchoProtocol.OnWritable | src/main/java/JavaNetworkProgramming/chapter11/EchoServer.java:77-79 | a writable event is flip, write, compact; DrainCompact, IdleWritable and WriteKeepsEchoing state what it does |
| EchoProtocol.FreshBuffer | src/main/java/JavaNetworkProgramming/chapter11/EchoServer.java:68-69 | the buffer attached to a new connection has position 0 and limit = capacity = 100, and nothing is pending |
| EchoProtocol.FillAppends | src/main/java/JavaNetworkProgramming/chapter11/EchoServer.java:70-73 | a readable event appends the n = min(available, capacity − position) transferred bytes to the pending bytes, keeps fill mode and [0, position), and when the buffer is full takes nothing and changes nothing |
| EchoProtocol.DrainCompact | src/main/java/JavaNetworkProgramming/chapter11/EchoServer.java:74-79 | a writable event sends the first m = min(accept, position) pending bytes in order, and leaves the unsent rest in order at the front, with position − m and limit = capacity |
| EchoProtocol.IdleWritable | src/main/java/JavaNetworkProgramming/chapter11/EchoServer.java:74-79 | with nothing pending a writable event sends nothing and leaves the buffer as it was |
| EchoProtocol.FullDrain | src/main/java/JavaNetworkProgramming/chapter11/EchoServer.java:77-79 | a writable event whose socket accepts at least what is pending sends all of it and empties the buffer |
| EchoProtocol.AcceptEchoes | src/main/java/JavaNetworkProgramming/chapter11/EchoServer.java:68-69 | a new connection satisfies the echo invariant with nothing received and nothing echoed |
| EchoProtocol.ReadKeepsEchoing | src/main/java/JavaNetworkProgramming/chapter11/EchoServer.java:70-73 | a readable event keeps the echo invariant, with the transferred bytes added to the received ones |
| EchoProtocol.WriteKeepsEchoing | src/main/java/JavaNetworkProgramming/chapter11/EchoServer.java:74-79 | a writable event keeps the echo invariant, with the sent bytes added to the echoed ones |
| EchoProtocol.Step | src/main/java/JavaNetworkProgramming/chapter11/EchoServer.java:70-80 | every event, end of stream included, keeps the buffer in fill mode at the same capacity (the cursor invariant between events) |
| EchoProtocol.Run | src/main/java/JavaNetworkProgramming/chapter11/EchoServer.java:70-80 | any sequence of events keeps the buffer in fill mode at the same capacity |
| EchoProtocol.StepConserves | src/main/java/JavaNetworkProgramming/chapter11/EchoServer.java:70-80 | for one event, bytes written followed by bytes pending after it equal bytes pending before it followed by bytes read in |
| EchoProtocol.Conservation | src/main/java/JavaNetworkProgramming/chapter11/EchoServer.java:70-80 | over any interleaving of events, bytes written followed by bytes still pending equal bytes pending at the start followed by bytes read in |
| EchoProtocol.EchoFidelity | src/main/java/JavaNetworkProgramming/chapter11/EchoServer.java:68-80 | from the buffer a new connection gets, bytes written followed by bytes pending are exactly the bytes read, and at most 100 bytes are ever pending |
| EchoProtocol.EventualEcho | src/main/java/JavaNetworkProgramming/chapter11/EchoServer.java:68-80 | once a writable event's socket accepts at least 100 bytes, the client has been sent back exactly what the server has read from it, and nothing is pending |
| EchoProtocol.RunAppend | src/main/java/JavaNetworkProgramming/chapter11/EchoServer.java:57-89 | handling one more event extends a run by exactly one Step |
| EchoConnection.HandleEvent | src/main/java/JavaNetworkProgramming/chapter11/EchoServer.java:70-80 | the branch for one event, run on the ByteBuffer object, returns the bytes read and written and leaves the buffer as Step describes |
| EchoConnection.Serve | src/main/java/JavaNetworkProgramming/chapter11/EchoServer.java:47-90 | one connection's buffer, changed in place through any event sequence, ends as Run describes; from a fresh buffer, written followed by pending is what was read, and at most 100 bytes are pending |
| Dispatch.Choose | src/main/java/JavaNetworkProgramming/chapter11/EchoServer.java:61-80 | exactly one branch is taken: accept iff acceptable; read iff readable and not acceptable; write iff writable and neither of the others; none otherwise |
| ServerState.RegisteredAmong | src/main/java/JavaNetworkProgramming/chapter11/EchoServer.java:49-56 | the selected-key set holds exactly the reported keys that are still registered |
| ServerState.ReportableTail | src/main/java/JavaNetworkProgramming/chapter11/EchoServer.java:57-59 | after the first key is removed, the rest of the selected-key set is still a set of agreeing keys and does not contain the removed key |
| ServerState.RegisteredAmongReportable | src/main/java/JavaNetworkProgramming/chapter11/EchoServer.java:49-56 | a selected-key set drawn from a report repeats no key, and each key's ready operations agree with its interest set |
| ServerState.CloseEffect | src/main/java/JavaNetworkProgramming/chapter11/EchoServer.java:81-88 | `key.channel().close()` for a client; CloseConsistent states it keeps the invariant and every other client |
| ServerState.AcceptEffect | src/main/java/JavaNetworkProgramming/chapter11/EchoServer.java:61-69 | the accept branch with its three outcomes; AcceptConsistent and KeyEffect state its effect on the invariant, the clients, `running` and `listening` |
| ServerState.ReadEffect | src/main/java/JavaNetworkProgramming/chapter11/EchoServer.java:70-73 | the read branch with its three outcomes; ReadConsistent, ReadableOnlyReads and ReadableStalls state what it does |
| ServerState.WriteEffect | src/main/java/JavaNetworkProgramming/chapter11/EchoServer.java:74-88 | the write branch with its two outcomes; WriteConsistent states what it does |
| ServerState.Pass | src/main/java/JavaNetworkProgramming/chapter11/EchoServer.java:57-89 | the inner loop as a fold of KeyEffect in iteration order until `main` ends; PassConsistent, PassIsolates and PassStops state what it does |
| ServerState.Wake | src/main/java/JavaNetworkProgramming/chapter11/EchoServer.java:47-89 | one select: its failure ends the loop, otherwise a Pass over the reported keys still registered; LoopStops states where it stops |
| ServerState.Loop | src/main/java/JavaNetworkProgramming/chapter11/EchoServer.java:47-90 | the outer loop as a fold over the wakeups; LoopConsistent and LoopStops state what it does |
| ServerState.KeyEffect | src/main/java/JavaNetworkProgramming/chapter11/EchoServer.java:60-88 | one selected key gets exactly the branch Choose picks; only a null from accept() stops the loop and only an accept IOException closes the listening channel |
| ServerState.CloseConsistent | src/main/java/JavaNetworkProgramming/chapter11/EchoServer.java:81-88 | closing a client keeps the echo invariant and every other client's registration, buffer and traffic |
| ServerState.AcceptConsistent | src/main/java/JavaNetworkProgramming/chapter11/EchoServer.java:61-69 | every accept outcome keeps the echo invariant and every registered client |
| ServerState.ReadConsistent | src/main/java/JavaNetworkProgramming/chapter11/EchoServer.java:70-73 | every read outcome (bytes, end of stream, IOException) keeps the echo invariant and every other client |
| ServerState.WriteConsistent | src/main/java/JavaNetworkProgramming/chapter11/EchoServer.java:74-88 | every write outcome (partial write, IOException) keeps the echo invariant and every other client |
| ServerState.KeyEffectConsistent | src/main/java/JavaNetworkProgramming/chapter11/EchoServer.java:60-88 | handling any key keeps the echo invariant, and no client other than that key's changes registration, buffer or traffic |
| ServerState.ReadableOnlyReads | src/main/java/JavaNetworkProgramming/chapter11/EchoServer.java:70-80 | a readable client key, writable or not, gets the read branch only and nothing is written to it in that pass |
| ServerState.ReadableStalls | src/main/java/JavaNetworkProgramming/chapter11/EchoServer.java:70-73 | a readable key whose read takes nothing (full buffer, or end of stream) leaves the whole state unchanged, so its write branch does not run |
| ServerState.PassConsistent | src/main/java/JavaNetworkProgramming/chapter11/EchoServer.java:57-89 | the inner loop keeps the echo invariant |
| ServerState.PassIsolates | src/main/java/JavaNetworkProgramming/chapter11/EchoServer.java:57-89 | a client with no key in the selected set keeps registration, buffer and traffic through the whole inner loop, whatever failed on other keys |
| ServerState.PassStops | src/main/java/JavaNetworkProgramming/chapter11/EchoServer.java:57-89 | the inner loop stops the server only through a key whose accept() returned null |
| ServerState.LoopConsistent | src/main/java/JavaNetworkProgramming/chapter11/EchoServer.java:47-90 | the outer loop keeps the echo invariant for every open connection |
| ServerState.LoopStops | src/main/java/JavaNetworkProgramming/chapter11/EchoServer.java:47-90 | the server stops only at a failed select or a null accept, and once a select has failed it has stopped |
| EventLoop.EchoServer.constructor | src/main/java/JavaNetworkProgramming/chapter11/EchoServer.java:21-41 | the server listens on Port(args), has no clients, and satisfies the server invariant |
| EventLoop.EchoServer.Close | src/main/java/JavaNetworkProgramming/chapter11/EchoServer.java:81-88 | closing a client removes exactly that client's registration and buffer and changes nothing else |
| EventLoop.EchoServer.HandleAccept | src/main/java/JavaNetworkProgramming/chapter11/EchoServer.java:61-69 | a new connection is registered under a fresh id with a fresh 100-byte buffer; an IOException closes the listening channel; a null from accept ends `main`; no existing client changes |
| EventLoop.EchoServer.HandleRead | src/main/java/JavaNetworkProgramming/chapter11/EchoServer.java:70-73 | the client's buffer becomes OnReadable of it and its received bytes grow by what was transferred; end of stream changes nothing; an IOException closes only that client |
| EventLoop.EchoServer.HandleWrite | src/main/java/JavaNetworkProgramming/chapter11/EchoServer.java:74-88 | the client's buffer becomes OnWritable of it and its echoed bytes grow by what was sent; an IOException closes only that client |
| EventLoop.EchoServer.HandleKey | src/main/java/JavaNetworkProgramming/chapter11/EchoServer.java:60-88 | the new state is exactly KeyEffect of the old one (the branch Choose picks, with its error outcome); no other client changes and the keys still to be handled stay registered |
| EventLoop.EchoServer.HandleNext | src/main/java/JavaNetworkProgramming/chapter11/EchoServer.java:57-88 | the first selected key is removed before it is handled, and the new state is KeyEffect of that key |
| EventLoop.EchoServer.ProcessSelectedKeys | src/main/java/JavaNetworkProgramming/chapter11/EchoServer.java:57-89 | the new state is the Pass over the selected keys; all are handled unless an accept() returned null, and then that was the last key handled |
| EventLoop.EchoServer.HandleWakeup | src/main/java/JavaNetworkProgramming/chapter11/EchoServer.java:47-89 | one turn of the outer loop leaves exactly the state Wake gives: a failed select ends the loop, otherwise the inner loop runs over the reported keys still registered |
| EventLoop.EchoServer.Serve | src/main/java/JavaNetworkProgramming/chapter11/EchoServer.java:47-90 | the new state is the Loop over the wakeups; the echo invariant holds; the server stops only at a failed select or a null accept, and a failed select stops it |
| PortArgument.ParseInt | src/main/java/JavaNetworkProgramming/chapter11/EchoServer.java:25 | `Integer.parseInt` over ASCII; ParseIntRoundTrip and ParseIntAccepts state what it accepts and returns |
| PortArgument.Port | src/main/java/JavaNetworkProgramming/chapter11/EchoServer.java:19-28 | the port rule; PortOfNumeral, PortOfOverflow and PortExamples state it |
| PortArgument.DecimalValue | src/main/java/JavaNetworkProgramming/chapter11/EchoServer.java:25 | the decimal numeral of n is a non-empty digit string whose value, read as parseInt reads it, is n |
| PortArgument.ParseIntRoundTrip | src/main/java/JavaNetworkProgramming/chapter11/EchoServer.java:25 | parseInt reads back the numeral of every int, with or without a minus sign |
| PortArgument.ParseIntAccepts | src/main/java/JavaNetworkProgramming/chapter11/EchoServer.java:24-28 | parseInt succeeds only on an optional sign followed by decimal digits, and only with a value in the int range |
| PortArgument.PortOfNumeral | src/main/java/JavaNetworkProgramming/chapter11/EchoServer.java:23-28 | a first argument that is the numeral of an int in [0, 2^31 − 1] selects that port; later arguments are ignored |
| PortArgument.PortOfOverflow | src/main/java/JavaNetworkProgramming/chapter11/EchoServer.java:19-28 | a numeral beyond the int range falls back to the default port 7 |
| PortArgument.PortExamples | src/main/java/JavaNetworkProgramming/chapter11/EchoServer.java:19-28 | no argument gives 7, "9000" gives 9000, "notanumber" gives 7 |

## Left out

- Sockets, `Selector.open`, blocking `select()`, `bind`, `configureBlocking` and OS readiness reporting are not modelled. Their outcomes are inputs: byte counts, accepted counts, reported keys and I/O results.
- Console and stack-trace printing (lines 29, 43, 51, 64, 86) is left out. It has no effect on the state.
- The bind/register failure at lines 42-45 (`main` returns before the loop) is left out. The constructor models a successful start.
- A port outside 0-65535 makes `new InetSocketAddress` throw an uncaught `IllegalArgumentException` at line 37. This is left out; Port returns the parsed value as the code does.
- PortArgument.ParseInt: it accepts ASCII digits only, while `Integer.parseInt` also accepts other Unicode decimal digits. The model has no character database.
- `key.channel().close()` failing, and the printing in its inner catch, are left out; the close always succeeds.
- A client accepted before `configureBlocking` or `register` fails is never registered. The model records no such leaked channel.
- `close()` cancels the channel's key at once, and Java deregisters it at the next `select()`. The model removes the registration at once. No behaviour differs: the key has already left the selected-key set, and keys in the set are distinct.
- EventLoop.EchoServer: the registration table holds each client's attachment as its `BufferState` value, not as a `ByteBuffer` object. The in-place array and cursor updates are modelled per connection by `ByteBuffers.ByteBuffer` and `EchoConnection.Serve`. The server-level model therefore does not capture aliasing between attachments; the source has none, because each buffer is reachable only through its own key.
- EventLoop.EchoServer.Serve covers finite runs of wakeups. The source's `while (true)` does not terminate, and liveness is not stated.
- The buffer's mark is left out; the server never uses it.
- `ObjectStreamTest` (object serialization to a file) is not part of this model.
