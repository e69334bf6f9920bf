/** The image writers' output: a 64-byte buffer in front of the user's write function. */
module WriteContexts {
  import opened Bits

  const BUFFER_SIZE: nat := 64

  class WriteContext {
    const buffer: array<byte>
    var used: nat
    /** Everything handed to the write function so far. */
    var sunk: seq<byte>

    ghost predicate Valid()
      reads this, buffer
    {
      buffer.Length == BUFFER_SIZE && used <= BUFFER_SIZE
    }

    /** Everything written, in order, whether or not it has left the buffer. */
    ghost function Written(): seq<byte>
      requires Valid()
      reads this, buffer
    {
      sunk + buffer[..used]
    }

    constructor ()
      ensures Valid() && fresh(buffer) && used == 0 && Written() == []
    {
      buffer, used, sunk := new byte[BUFFER_SIZE], 0, [];
    }

    /** A direct call of the write function: right only while the buffer is empty. */
    method Func(data: seq<byte>)
      requires Valid() && used == 0
      modifies this
      ensures Valid() && used == 0 && Written() == old(Written()) + data
    {
      sunk := sunk + data;
    }

    method Flush()
      requires Valid()
      modifies this
      ensures Valid() && used == 0 && Written() == old(Written()) && sunk == Written()
    {
      if used != 0 {
        sunk := sunk + buffer[..used];
        used := 0;
      }
    }

    method Write1(a: byte)
      requires Valid()
      modifies this, buffer
      ensures Valid() && Written() == old(Written()) + [a]
    {
      if used + 1 > BUFFER_SIZE {
        Flush();
      }
      ghost var before := buffer[..used];
      buffer[used] := a;
      used := used + 1;
      assert buffer[..used] == before + [a];
    }

    method Write3(a: byte, b: byte, c: byte)
      requires Valid()
      modifies this, buffer
      ensures Valid() && Written() == old(Written()) + [a, b, c]
    {
      if used + 3 > BUFFER_SIZE {
        Flush();
      }
      ghost var before := buffer[..used];
      var n := used;
      used := n + 3;
      buffer[n + 0] := a;
      buffer[n + 1] := b;
      buffer[n + 2] := c;
      assert buffer[..used] == before + [a, b, c];
    }
  }
}
