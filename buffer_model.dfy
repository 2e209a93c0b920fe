/**
 * The cursor semantics of java.nio.ByteBuffer as used by the echo server:
 * a fixed backing store with a position and a limit, and the operations
 * allocate, channel read (fill), flip, channel write (drain) and compact.
 * The mark is never used by the server and is not modelled.
 */
module BufferModel {

  newtype byte = x: int | 0 <= x < 256

  /** A buffer's backing store (its length is the capacity) and its two cursors. */
  datatype BufferState = BufferState(content: seq<byte>, position: nat, limit: nat)

  function Capacity(b: BufferState): nat
  {
    |b.content|
  }

  /** The java.nio.ByteBuffer invariant (mark left out): position <= limit <= capacity. */
  predicate Wf(b: BufferState)
  {
    b.position <= b.limit <= |b.content|
  }

  /**
   * Between two events of the echo loop a buffer is in fill mode: its limit
   * is its capacity and content[..position] are the bytes not yet echoed.
   */
  predicate FillMode(b: BufferState)
  {
    Wf(b) && b.limit == |b.content|
  }

  function Remaining(b: BufferState): nat
    requires Wf(b)
  {
    b.limit - b.position
  }

  /** The bytes a buffer in fill mode holds that have not been written out yet. */
  function Pending(b: BufferState): seq<byte>
    requires Wf(b)
  {
    b.content[..b.position]
  }

  function Min(x: nat, y: nat): (m: nat)
    ensures m <= x && m <= y && (m == x || m == y)
  {
    if x <= y then x else y
  }

  function Zeros(n: nat): (z: seq<byte>)
    ensures |z| == n && forall i | 0 <= i < n :: z[i] == 0
  {
    if n == 0 then [] else Zeros(n - 1) + [0]
  }

  /** ByteBuffer.allocate: a zero-filled store, position 0, limit = capacity. */
  function Allocate(capacity: nat): (b: BufferState)
    ensures FillMode(b) && b.position == 0 && Capacity(b) == capacity
    ensures forall i | 0 <= i < capacity :: b.content[i] == 0
  {
    BufferState(Zeros(capacity), 0, capacity)
  }

  /**
   * How many bytes one channel read moves into the buffer when `available`
   * bytes are waiting at the socket: as many as fit in [position, limit).
   */
  function ReadCount(b: BufferState, available: seq<byte>): (n: nat)
    requires Wf(b)
    ensures n <= |available| && n <= Remaining(b)
    ensures n == |available| || b.position + n == b.limit
  {
    Min(|available|, Remaining(b))
  }

  /** SocketChannel.read(buffer): the transferred bytes land at [position, position + n). */
  function Fill(b: BufferState, available: seq<byte>): (r: BufferState)
    requires Wf(b)
    ensures Wf(r) && |r.content| == |b.content| && r.limit == b.limit
    ensures r.position == b.position + ReadCount(b, available)
    ensures forall i | 0 <= i < |r.content| ::
      r.content[i] == if b.position <= i < r.position then available[i - b.position] else b.content[i]
  {
    var n := ReadCount(b, available);
    b.(content := b.content[..b.position] + available[..n] + b.content[b.position + n..],
       position := b.position + n)
  }

  /** ByteBuffer.flip: the filled region [0, position) becomes the readable region. */
  function Flip(b: BufferState): (r: BufferState)
    requires Wf(b)
    ensures Wf(r) && r.content == b.content && r.position == 0 && r.limit == b.position
  {
    b.(position := 0, limit := b.position)
  }

  /** How many bytes a non-blocking channel write takes when the socket accepts up to `accept`. */
  function WriteCount(b: BufferState, accept: nat): (m: nat)
    requires Wf(b)
    ensures m <= accept && m <= Remaining(b)
    ensures m == accept || b.position + m == b.limit
  {
    Min(accept, Remaining(b))
  }

  /** The bytes SocketChannel.write(buffer) sends: the next WriteCount bytes from position on. */
  function Written(b: BufferState, accept: nat): (sent: seq<byte>)
    requires Wf(b)
    ensures |sent| == WriteCount(b, accept)
    ensures forall i | 0 <= i < |sent| :: sent[i] == b.content[b.position + i]
  {
    b.content[b.position..b.position + WriteCount(b, accept)]
  }

  /** The buffer after SocketChannel.write(buffer): the position moves past the bytes sent. */
  function Drain(b: BufferState, accept: nat): (r: BufferState)
    requires Wf(b)
    ensures Wf(r) && r.content == b.content && r.limit == b.limit
    ensures r.position == b.position + |Written(b, accept)|
  {
    b.(position := b.position + WriteCount(b, accept))
  }

  /**
   * ByteBuffer.compact: the bytes in [position, limit) move to the front,
   * position becomes their count and limit becomes the capacity; the bytes
   * beyond the moved ones keep their old values.
   */
  function Compact(b: BufferState): (r: BufferState)
    requires Wf(b)
    ensures FillMode(r) && |r.content| == |b.content| && r.position == b.limit - b.position
    ensures forall i | 0 <= i < |r.content| ::
      r.content[i] == if i < r.position then b.content[b.position + i] else b.content[i]
  {
    b.(content := b.content[b.position..b.limit] + b.content[b.limit - b.position..],
       position := b.limit - b.position,
       limit := |b.content|)
  }
}
