/**
 * One client connection as the selector loop sees it over its lifetime:
 * its ByteBuffer object, changed in place by the handler code of the
 * readable and writable branches, for whatever sequence of events the
 * selector reports for that key.
 */
module EchoConnection {
  import opened BufferModel
  import opened EchoProtocol
  import opened ByteBuffers

  /**
   * The branch the selector loop runs for one event on this connection:
   * `read` for a readable event, nothing for end of stream, `flip` /
   * `write` / `compact` for a writable event. Returns the bytes read in and
   * the bytes written out, as Step describes.
   */
  method HandleEvent(buffer: ByteBuffer, e: ConnEvent) returns (inc: seq<byte>, out: seq<byte>)
    requires buffer.Valid() && FillMode(buffer.State())
    modifies buffer, buffer.data
    ensures buffer.Valid()
    ensures var s := Step(old(buffer.State()), e);
      buffer.State() == s.buffer && inc == s.readIn && out == s.written
  {
    inc, out := [], [];
    match e {
      case Readable(available) =>
        var n := buffer.Read(available);
        inc := available[..n];
      case EndOfStream =>
      case Writable(accept) =>
        buffer.Flip();
        out := buffer.Write(accept);
        buffer.Compact();
    }
  }

  /**
   * Handles `events` in order on `buffer`, one HandleEvent each. Returns all
   * the bytes read in and written out and leaves the buffer exactly as Run
   * describes; from a freshly allocated buffer,
   * the bytes written followed by those still pending are the bytes read.
   */
  method Serve(buffer: ByteBuffer, events: seq<ConnEvent>) returns (readIn: seq<byte>, written: seq<byte>)
    requires buffer.Valid() && FillMode(buffer.State())
    modifies buffer, buffer.data
    ensures buffer.Valid()
    ensures var t := Run(old(buffer.State()), events);
      buffer.State() == t.buffer && readIn == t.readIn && written == t.written
    ensures old(buffer.State()) == Allocate(EchoCapacity) ==>
      written + Pending(buffer.State()) == readIn && buffer.position <= EchoCapacity
  {
    ghost var start := buffer.State();
    readIn, written := [], [];
    var i := 0;
    while i < |events|
      invariant 0 <= i <= |events|
      invariant buffer.Valid()
      invariant var t := Run(start, events[..i]);
        buffer.State() == t.buffer && readIn == t.readIn && written == t.written
    {
      RunAppend(start, events[..i], events[i]);
      assert events[..i + 1] == events[..i] + [events[i]];
      var inc, out := HandleEvent(buffer, events[i]);
      readIn, written := readIn + inc, written + out;
      i := i + 1;
    }
    assert events[..i] == events;
    if start == Allocate(EchoCapacity) {
      EchoFidelity(events);
    }
  }
}
