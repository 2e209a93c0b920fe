/**
 * The per-connection echo buffer of EchoServer: what a readable event and a
 * writable event do to the connection's 100-byte ByteBuffer, and the
 * theorem that over any sequence of such events the bytes written out,
 * followed by the bytes still buffered, are exactly the bytes read in.
 */
module EchoProtocol {
  import opened BufferModel

  /** The size of the buffer attached to every accepted connection. */
  const EchoCapacity: nat := 100

  /** A readable event: `client.read(buffer)`, whose return value the server ignores. */
  function OnReadable(b: BufferState, available: seq<byte>): BufferState
    requires Wf(b)
  {
    Fill(b, available)
  }

  /** The bytes a writable event sends: `flip()` and then `client.write(buffer)`. */
  function Sent(b: BufferState, accept: nat): seq<byte>
    requires Wf(b)
  {
    Written(Flip(b), accept)
  }

  /** The buffer after a writable event: `flip()`, `client.write(buffer)`, `compact()`. */
  function OnWritable(b: BufferState, accept: nat): BufferState
    requires Wf(b)
  {
    Compact(Drain(Flip(b), accept))
  }

  /** A freshly attached buffer is empty and in fill mode with the full 100 bytes free. */
  lemma FreshBuffer()
    ensures var b := Allocate(EchoCapacity);
      FillMode(b) && b.position == 0 && b.limit == Capacity(b) == 100 && Pending(b) == []
  {
  }

  /**
   * Fill: a read appends the n transferred bytes to the pending bytes,
   * keeps the buffer in fill mode and leaves [0, position) untouched;
   * when the buffer is full it takes nothing and nothing changes.
   */
  lemma FillAppends(b: BufferState, available: seq<byte>)
    requires FillMode(b)
    ensures var r := OnReadable(b, available); var n := ReadCount(b, available);
      && FillMode(r)
      && r.position == b.position + n
      && n == Min(|available|, Capacity(b) - b.position)
      && Pending(r) == Pending(b) + available[..n]
      && r.content[..b.position] == b.content[..b.position]
      && (b.position == Capacity(b) ==> n == 0 && r == b)
  {
    var r := OnReadable(b, available);
    var n := ReadCount(b, available);
    assert Pending(r) == Pending(b) + available[..n] by {
      assert |Pending(r)| == |Pending(b) + available[..n]|;
      forall i | 0 <= i < |Pending(r)|
        ensures Pending(r)[i] == (Pending(b) + available[..n])[i]
      {
      }
    }
    if b.position == Capacity(b) {
      assert r.content == b.content;
    }
  }

  /**
   * Drain + compact: a writable event sends the first m = min(accept, position)
   * pending bytes, in order, and keeps the unsent rest, in order, at the front of
   * the buffer, with position = old position - m and limit = capacity.
   */
  lemma DrainCompact(b: BufferState, accept: nat)
    requires FillMode(b)
    ensures var m := Min(accept, b.position); var r := OnWritable(b, accept);
      && FillMode(r)
      && Capacity(r) == Capacity(b)
      && Sent(b, accept) == Pending(b)[..m]
      && r.position == b.position - m
      && Pending(r) == Pending(b)[m..]
  {
    var m := Min(accept, b.position);
    var d := Drain(Flip(b), accept);
    var r := Compact(d);
    assert Sent(b, accept) == Pending(b)[..m];
    assert Pending(r) == Pending(b)[m..] by {
      forall i | 0 <= i < |Pending(r)|
        ensures Pending(r)[i] == Pending(b)[m..][i]
      {
        assert r.content[i] == d.content[d.position + i];
      }
    }
  }

  /** Idle writable: with nothing pending a writable event sends nothing and changes nothing. */
  lemma IdleWritable(b: BufferState, accept: nat)
    requires FillMode(b) && b.position == 0
    ensures Sent(b, accept) == []
    ensures OnWritable(b, accept) == b
  {
    assert OnWritable(b, accept).content == b.content;
  }

  /** A writable event whose socket takes everything pending empties the buffer. */
  lemma FullDrain(b: BufferState, accept: nat)
    requires FillMode(b) && accept >= b.position
    ensures Sent(b, accept) == Pending(b)
    ensures Pending(OnWritable(b, accept)) == []
  {
    DrainCompact(b, accept);
  }

  /**
   * The invariant the server keeps for every open connection: its buffer is a
   * 100-byte buffer in fill mode, and the bytes echoed so far followed by the
   * pending ones are the bytes received so far.
   */
  predicate Echoes(b: BufferState, received: seq<byte>, echoed: seq<byte>)
  {
    FillMode(b) && Capacity(b) == EchoCapacity && echoed + Pending(b) == received
  }

  /** A freshly accepted connection echoes: nothing received, nothing echoed. */
  lemma AcceptEchoes()
    ensures Echoes(Allocate(EchoCapacity), [], [])
  {
    FreshBuffer();
  }

  /** A readable event keeps the invariant, the transferred bytes joining the received ones. */
  lemma ReadKeepsEchoing(b: BufferState, received: seq<byte>, echoed: seq<byte>, available: seq<byte>)
    requires Echoes(b, received, echoed)
    ensures Echoes(OnReadable(b, available), received + available[..ReadCount(b, available)], echoed)
  {
    FillAppends(b, available);
  }

  /** A writable event keeps the invariant, the sent bytes joining the echoed ones. */
  lemma WriteKeepsEchoing(b: BufferState, received: seq<byte>, echoed: seq<byte>, accept: nat)
    requires Echoes(b, received, echoed)
    ensures Echoes(OnWritable(b, accept), received, echoed + Sent(b, accept))
  {
    var m := Min(accept, b.position);
    DrainCompact(b, accept);
    assert Pending(b)[..m] + Pending(b)[m..] == Pending(b);
  }

  /** What one connection sees: a read (with the bytes the socket has), an end of stream, or a write. */
  datatype ConnEvent =
    | Readable(available: seq<byte>)
    | EndOfStream
    | Writable(accept: nat)

  /** The result of a run of events: the final buffer and the bytes read in and written out. */
  datatype Echo = Echo(buffer: BufferState, readIn: seq<byte>, written: seq<byte>)

  /**
   * One event. End of stream (`read` returning -1, ignored by the server)
   * leaves the buffer as it is and does not close the connection.
   */
  function Step(b: BufferState, e: ConnEvent): (r: Echo)
    requires FillMode(b)
    ensures FillMode(r.buffer) && Capacity(r.buffer) == Capacity(b)
  {
    match e
    case Readable(available) =>
      Echo(OnReadable(b, available), available[..ReadCount(b, available)], [])
    case EndOfStream =>
      Echo(b, [], [])
    case Writable(accept) =>
      Echo(OnWritable(b, accept), [], Sent(b, accept))
  }

  /** Any interleaving of events on one connection, from buffer `b`, handled in order. */
  function Run(b: BufferState, events: seq<ConnEvent>): (r: Echo)
    requires FillMode(b)
    ensures FillMode(r.buffer) && Capacity(r.buffer) == Capacity(b)
    decreases |events|
  {
    if events == [] then Echo(b, [], [])
    else
      var t := Run(b, events[..|events| - 1]);
      var s := Step(t.buffer, events[|events| - 1]);
      Echo(s.buffer, t.readIn + s.readIn, t.written + s.written)
  }

  /** Conservation for one event: written ++ still pending == previously pending ++ read in. */
  lemma StepConserves(b: BufferState, e: ConnEvent)
    requires FillMode(b)
    ensures var s := Step(b, e); s.written + Pending(s.buffer) == Pending(b) + s.readIn
  {
    match e
    case Readable(available) =>
      FillAppends(b, available);
    case EndOfStream =>
    case Writable(accept) =>
      var m := Min(accept, b.position);
      DrainCompact(b, accept);
      assert Pending(b)[..m] + Pending(b)[m..] == Pending(b);
  }

  /**
   * Echo fidelity: over any interleaving of read and write events the bytes
   * written out followed by the bytes still buffered are the bytes that were
   * buffered before followed by the bytes read in: nothing is lost,
   * duplicated or reordered.
   */
  lemma {:induction false} Conservation(b: BufferState, events: seq<ConnEvent>)
    requires FillMode(b)
    ensures var t := Run(b, events); t.written + Pending(t.buffer) == Pending(b) + t.readIn
    decreases |events|
  {
    if events != [] {
      var t := Run(b, events[..|events| - 1]);
      var s := Step(t.buffer, events[|events| - 1]);
      assert Run(b, events) == Echo(s.buffer, t.readIn + s.readIn, t.written + s.written);
      Conservation(b, events[..|events| - 1]);
      StepConserves(t.buffer, events[|events| - 1]);
      Chain(t.written, Pending(t.buffer), s.written, Pending(s.buffer), Pending(b), t.readIn, s.readIn);
    }
  }

  /** Two conservation steps compose: the written bytes of the second follow those of the first. */
  lemma Chain<T>(w1: seq<T>, p1: seq<T>, w2: seq<T>, p2: seq<T>, p0: seq<T>, r1: seq<T>, r2: seq<T>)
    requires w1 + p1 == p0 + r1 && w2 + p2 == p1 + r2
    ensures (w1 + w2) + p2 == p0 + (r1 + r2)
  {
    calc {
      (w1 + w2) + p2;
      w1 + (w2 + p2);
      (w1 + p1) + r2;
    }
  }

  /**
   * The main theorem for a connection as the server creates it: starting from
   * a fresh 100-byte buffer, bytes written ++ bytes pending == bytes read, and
   * the buffer never holds more than 100 bytes.
   */
  lemma EchoFidelity(events: seq<ConnEvent>)
    ensures var t := Run(Allocate(EchoCapacity), events);
      && t.written + Pending(t.buffer) == t.readIn
      && FillMode(t.buffer) && t.buffer.position <= EchoCapacity
  {
    Conservation(Allocate(EchoCapacity), events);
  }

  /** Once a write drains everything pending, the client has received exactly what it sent. */
  lemma EventualEcho(events: seq<ConnEvent>, accept: nat)
    requires accept >= EchoCapacity
    ensures var t := Run(Allocate(EchoCapacity), events + [Writable(accept)]);
      t.written == t.readIn && Pending(t.buffer) == []
  {
    var evs := events + [Writable(accept)];
    RunAppend(Allocate(EchoCapacity), events, Writable(accept));
    var t0 := Run(Allocate(EchoCapacity), events);
    EchoFidelity(events);
    FullDrain(t0.buffer, accept);
    EchoFidelity(evs);
  }

  /** Running one more event extends a run by one step. */
  lemma RunAppend(b: BufferState, events: seq<ConnEvent>, e: ConnEvent)
    requires FillMode(b)
    ensures var t := Run(b, events); var s := Step(t.buffer, e); var u := Run(b, events + [e]);
      u.buffer == s.buffer && u.readIn == t.readIn + s.readIn && u.written == t.written + s.written
  {
    assert (events + [e])[..|events|] == events;
  }
}
