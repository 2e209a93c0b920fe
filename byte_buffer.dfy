/**
 * The connection's java.nio.ByteBuffer as a mutable object: a backing array
 * that never changes identity (ByteBuffer's heap array is final) and two
 * cursor fields. Each method changes the array and the cursors in place and
 * is proved to leave exactly the state the matching BufferModel function
 * describes.
 */
module ByteBuffers {
  import opened BufferModel

  class ByteBuffer {
    const data: array<byte>
    var position: nat
    var limit: nat

    ghost predicate Valid()
      reads this
    {
      position <= limit <= data.Length
    }

    /** The abstract value of the buffer. */
    ghost function State(): (s: BufferState)
      reads this, data
      ensures s.position == position && s.limit == limit && |s.content| == data.Length
      ensures Valid() ==> Wf(s)
    {
      BufferState(data[..], position, limit)
    }

    /** ByteBuffer.allocate(capacity). */
    constructor (capacity: nat)
      ensures Valid() && fresh(data)
      ensures State() == Allocate(capacity)
    {
      data := new byte[capacity](_ => 0);
      position := 0;
      limit := capacity;
      new;
      assert data[..] == Allocate(capacity).content;
    }

    /**
     * `channel.read(this)` when the socket holds `available`: copies as many
     * bytes as fit in [position, limit) and returns their count.
     */
    method Read(available: seq<byte>) returns (n: nat)
      requires Valid()
      modifies this, data
      ensures Valid()
      ensures n == ReadCount(old(State()), available)
      ensures State() == Fill(old(State()), available)
    {
      n := Min(|available|, limit - position);
      var i := 0;
      while i < n
        invariant 0 <= i <= n
        invariant position == old(position) && limit == old(limit)
        invariant forall j | 0 <= j < data.Length ::
          data[j] == if position <= j < position + i then available[j - position] else old(data[j])
      {
        data[position + i] := available[i];
        i := i + 1;
      }
      position := position + n;
      ghost var r := Fill(old(State()), available);
      assert data[..] == r.content by {
        forall j | 0 <= j < data.Length ensures data[..][j] == r.content[j] { }
      }
    }

    /** ByteBuffer.flip(): limit := position, position := 0. */
    method Flip()
      requires Valid()
      modifies this
      ensures Valid()
      ensures State() == BufferModel.Flip(old(State()))
    {
      limit := position;
      position := 0;
    }

    /**
     * `channel.write(this)` when the socket takes up to `accept` bytes: sends
     * the bytes from position on and moves position past them.
     */
    method Write(accept: nat) returns (sent: seq<byte>)
      requires Valid()
      modifies this
      ensures Valid()
      ensures sent == Written(old(State()), accept)
      ensures State() == Drain(old(State()), accept)
    {
      var m := Min(accept, limit - position);
      sent := data[position..position + m];
      position := position + m;
    }

    /** ByteBuffer.compact(): moves [position, limit) to the front; position := limit - position; limit := capacity. */
    method Compact()
      requires Valid()
      modifies this, data
      ensures Valid()
      ensures State() == BufferModel.Compact(old(State()))
    {
      var n := limit - position;
      var i := 0;
      while i < n
        invariant 0 <= i <= n
        invariant position == old(position) && limit == old(limit)
        invariant forall j | 0 <= j < data.Length ::
          data[j] == if j < i then old(data[position + j]) else old(data[j])
      {
        data[i] := data[position + i];
        i := i + 1;
      }
      position := n;
      limit := data.Length;
      ghost var r := BufferModel.Compact(old(State()));
      assert data[..] == r.content by {
        forall j | 0 <= j < data.Length ensures data[..][j] == r.content[j] { }
      }
    }
  }
}
