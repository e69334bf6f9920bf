/** The compressor's output side: a growable byte buffer with a bit accumulator in front of it. */
module BitSinks {
  import opened Sequences
  import opened Bits
  import opened DeflateTokens

  /** Reverses the low `codebits` bits of a code, so that writing the result least significant bit
      first writes the code most significant bit first. */
  method BitRev(code: nat, codebits: nat) returns (res: nat)
    ensures res < Pow2(codebits)
    ensures Lsb(res, codebits) == Msb(code, codebits)
  {
    var c: nat := code;
    var left := codebits;
    res := 0;
    while left > 0
      invariant 0 <= left <= codebits
      invariant res < Pow2(codebits - left)
      invariant Msb(c, left) + Lsb(res, codebits - left) == Msb(code, codebits)
    {
      left := left - 1;
      ghost var done := Lsb(res, codebits - left - 1);
      BitRevStep(c, left, res, codebits - left);
      Associative(Msb(c / 2, left), [c % 2 == 1], done);
      hide *;
      res := 2 * res + c % 2;
      c := c / 2;
    }
  }

  lemma BitRevStep(c: nat, left: nat, res: nat, done: nat)
    requires done > 0 && res < Pow2(done - 1)
    ensures Msb(c, left + 1) == Msb(c / 2, left) + [c % 2 == 1]
    ensures 2 * res + c % 2 < Pow2(done)
    ensures Lsb(2 * res + c % 2, done) == [c % 2 == 1] + Lsb(res, done - 1)
  {
  }

  class BitSink {
    var bytes: seq<byte>
    /** Bytes allocated for the buffer; 0 before the first push. */
    var cap: nat
    var bitbuf: nat
    var bitcount: nat

    /** Between additions fewer than eight bits wait in the accumulator. */
    ghost predicate Valid()
      reads this
    {
      |bytes| <= cap && bitcount < 8 && bitbuf < Pow2(bitcount)
    }

    /** Everything written so far. */
    ghost function Stream(): seq<bool>
      reads this
    {
      ByteBits(bytes) + Lsb(bitbuf, bitcount)
    }

    constructor ()
      ensures Valid() && bytes == [] && bitcount == 0 && Stream() == []
    {
      bytes, cap, bitbuf, bitcount := [], 0, 0, 0;
    }

    /** Appends one byte, growing the buffer first when it is about to be full. */
    method Push(v: byte)
      requires |bytes| <= cap
      modifies this`bytes, this`cap
      ensures bytes == old(bytes) + [v] && |bytes| < cap
      ensures cap >= old(cap) && (old(|bytes|) + 1 < old(cap) ==> cap == old(cap))
    {
      if cap == 0 || |bytes| + 1 >= cap {
        cap := if cap != 0 then 2 * cap + 1 else 2;
      }
      bytes := bytes + [v];
    }

    /** Moves whole bytes from the accumulator to the buffer. */
    method Flush()
      requires |bytes| <= cap && bitbuf < Pow2(bitcount)
      modifies this
      ensures Valid() && Stream() == old(Stream())
    {
      hide ByteBits, Lsb, Pow2;
      while bitcount >= 8
        invariant |bytes| <= cap && bitbuf < Pow2(bitcount)
        invariant Stream() == old(Stream())
      {
        ghost var s, low, high := bytes, bitbuf % 256, bitbuf / 256;
        FlushByte(s, bitbuf, bitcount);
        Push(bitbuf % 256);
        bitbuf := bitbuf / 256;
        bitcount := bitcount - 8;
      }
    }

    /** `bitbuf |= code << bitcount`, then a flush. At most 20 bits are ever in the accumulator, well
        inside its 32. */
    method Add(code: nat, codebits: nat)
      requires Valid() && code < Pow2(codebits) && codebits <= 13
      modifies this
      ensures Valid() && Stream() == old(Stream()) + Lsb(code, codebits)
    {
      hide Shl, Lsb, Pow2, ByteBits;
      Associative(ByteBits(bytes), Lsb(bitbuf, bitcount), Lsb(code, codebits));
      LsbJoin(bitbuf, code, bitcount, codebits);
      JoinBound(bitbuf, code, bitcount, codebits);
      Pow2Grows(bitcount + codebits, 20);
      bitbuf := bitbuf + Shl(code, bitcount);
      bitcount := bitcount + codebits;
      assert bitbuf < Pow2(20);
      Flush();
    }

    method HuffAdd(code: nat, codebits: nat)
      requires Valid() && codebits <= 13
      modifies this
      ensures Valid() && Stream() == old(Stream()) + Msb(code, codebits)
    {
      var r := BitRev(code, codebits);
      Add(r, codebits);
    }

    /** Any symbol of the fixed literal/length code. */
    method Huff(n: nat)
      requires Valid() && n <= 287
      modifies this
      ensures Valid() && Stream() == old(Stream()) + HuffBits(n)
    {
      hide Msb, Lsb, Pow2, ByteBits;
      if n <= 143 {
        HuffAdd(0x30 + n, 8);
      } else if n <= 255 {
        HuffAdd(0x190 + n - 144, 9);
      } else if n <= 279 {
        HuffAdd(0 + n - 256, 7);
      } else {
        HuffAdd(0xc0 + n - 280, 8);
      }
    }

    /** A literal byte. */
    method HuffB(n: byte)
      requires Valid()
      modifies this
      ensures Valid() && Stream() == old(Stream()) + HuffBits(n)
    {
      hide Msb, Lsb, Pow2, ByteBits;
      if n <= 143 {
        HuffAdd(0x30 + n, 8);
      } else {
        HuffAdd(0x190 + n - 144, 9);
      }
    }

    /** Pads with zero bits to a byte boundary. */
    method Pad() returns (ghost padding: seq<bool>)
      requires Valid()
      modifies this
      ensures Valid() && bitcount == 0 && |padding| < 8
      ensures Stream() == ByteBits(bytes) == old(Stream()) + padding
    {
      hide ByteBits, Lsb, Pow2;
      padding := [];
      ghost var start := bitcount;
      while bitcount != 0
        invariant Valid() && Stream() == old(Stream()) + padding
        invariant bitcount != 0 ==> bitcount == start + |padding|
        invariant bitcount == 0 && start != 0 ==> start + |padding| == 8
        invariant start == 0 ==> bitcount == 0 && padding == []
        decreases if bitcount == 0 then 0 else 8 - bitcount
      {
        ghost var before := Stream();
        label Before:
        Add(0, 1);
        LengthGrows(old@Before(bytes), old@Before(bitcount), bytes, bitcount, before, Stream());
        padding := padding + Lsb(0, 1);
        assert Stream() == before + Lsb(0, 1);
        assert old(Stream()) + padding == Stream();
      }
      assert Lsb(bitbuf, 0) == [];
      assert ByteBits(bytes) + [] == ByteBits(bytes);
    }

    /** Copies a stretch of bytes into the buffer as memcpy does: without growing it. */
    method AppendRaw(data: seq<byte>)
      requires |bytes| + |data| <= cap
      modifies this`bytes
      ensures bytes == old(bytes) + data
    {
      bytes := bytes + data;
    }

    method Truncate(n: nat)
      requires n <= |bytes|
      modifies this`bytes
      ensures bytes == old(bytes)[..n]
    {
      bytes := bytes[..n];
    }
  }

  /** Stream lengths decide how many whole bytes were moved. */
  lemma LengthGrows(b0: seq<byte>, c0: nat, b1: seq<byte>, c1: nat, s0: seq<bool>, s1: seq<bool>)
    requires c0 < 8 && c1 < 8 && |s0| == 8 * |b0| + c0 && |s1| == 8 * |b1| + c1 && |s1| == |s0| + 1
    ensures c1 == (c0 + 1) % 8
  {
  }

  lemma FlushByte(bytes: seq<byte>, bitbuf: nat, bitcount: nat)
    requires bitcount >= 8 && bitbuf < Pow2(bitcount)
    ensures bitbuf / 256 < Pow2(bitcount - 8)
    ensures ByteBits(bytes + [bitbuf % 256]) + Lsb(bitbuf / 256, bitcount - 8) == ByteBits(bytes) + Lsb(bitbuf, bitcount)
  {
    hide *;
    var low, high := Lsb(bitbuf % 256, 8), Lsb(bitbuf / 256, bitcount - 8);
    FlushBound(bitbuf, bitcount);
    LsbSplit(bitbuf, 8, bitcount - 8);
    ShrEight(bitbuf);
    LsbMod(bitbuf);
    ByteBitsConcat(bytes, [bitbuf % 256]);
    OneByte(bitbuf % 256);
    Associative(ByteBits(bytes), low, high);
  }

  lemma OneByte(b: byte)
    ensures ByteBits([b]) == Lsb(b, 8)
  {
    assert ByteBits([b][1..]) == [];
  }

  lemma FlushBound(bitbuf: nat, bitcount: nat)
    requires bitcount >= 8 && bitbuf < Pow2(bitcount)
    ensures bitbuf / 256 < Pow2(bitcount - 8)
  {
    var p := Pow2(bitcount - 8);
    Pow2Add(8, bitcount - 8);
    assert Pow2(8) == 256;
  }

  lemma ShrEight(v: nat)
    ensures Shr(v, 8) == v / 256
  {
    assert Shr(v, 8) == Shr(v / 2, 7);
    assert Shr(v / 2, 7) == Shr(v / 4, 6);
    assert Shr(v / 4, 6) == Shr(v / 8, 5);
    assert Shr(v / 8, 5) == Shr(v / 16, 4);
    assert Shr(v / 16, 4) == Shr(v / 32, 3);
    assert Shr(v / 32, 3) == Shr(v / 64, 2);
    assert Shr(v / 64, 2) == Shr(v / 128, 1);
    assert Shr(v / 128, 1) == Shr(v / 256, 0);
  }

  lemma LsbMod(v: nat)
    ensures Lsb(v % 256, 8) == Lsb(v, 8)
  {
    assert Pow2(8) == 256;
    LsbJoin(v % 256, v / 256, 8, 0);
    assert v == v % 256 + Shl(v / 256, 8);
  }
}
