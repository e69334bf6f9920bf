/** The compressor's fallback: stored blocks of at most 32767 bytes. */
module StoredFallback {
  import opened Sequences
  import opened Options
  import opened Bits
  import opened Inflate
  import opened BitSinks

  const STORED_MAX: nat := 32767

  function HeaderBytes(final: bool, n: nat): (h: seq<byte>)
    requires n <= STORED_MAX
    ensures |h| == 5
  {
    [if final then 1 else 0, n % 256, n / 256, 255 - n % 256, 255 - n / 256]
  }

  function BlockCount(n: nat): nat { (n + 32766) / STORED_MAX }

  /** Section 3.2.4 of RFC 1951; only the last block is marked final. */
  function StoredBlocks(data: seq<byte>): seq<byte> {
    if data == [] then []
    else if |data| <= STORED_MAX then HeaderBytes(true, |data|) + data
    else HeaderBytes(false, STORED_MAX) + data[..STORED_MAX] + StoredBlocks(data[STORED_MAX..])
  }

  lemma {:induction false} StoredLength(data: seq<byte>)
    ensures |StoredBlocks(data)| == |data| + 5 * BlockCount(|data|)
  {
    if |data| > STORED_MAX {
      StoredLength(data[STORED_MAX..]);
    }
  }

  /** One header byte: a final flag, block type 0 and five bits the decoder skips. */
  lemma FlagBits(final: bool)
    ensures ByteBits([if final then 1 else 0]) == [final, false, false] + Lsb(0, 5)
  {
    OneByte(if final then 1 else 0);
    LsbSplit(if final then 1 else 0, 3, 5);
    assert Lsb(1, 3) == [true] + Lsb(0, 2) && Lsb(0, 2) == [false] + Lsb(0, 1) && Lsb(0, 1) == [false] + Lsb(0, 0);
    assert Lsb(0, 3) == [false] + Lsb(0, 2);
    assert Shr(1, 3) == Shr(0, 2) == 0 && Shr(0, 3) == 0;
  }

  lemma TwoBytes(low: byte, high: byte)
    ensures ByteBits([low, high]) == Lsb(low + 256 * high, 16)
  {
    assert [low, high][1..] == [high];
    OneByte(high);
    assert Pow2(8) == 256;
    LsbJoin(low, high, 8, 8);
  }

  lemma LengthField(low: byte, high: byte)
    ensures LsbValue(ByteBits([low, high])) == low + 256 * high
  {
    TwoBytes(low, high);
    assert Pow2(16) == 65536 by { Pow2Add(8, 8); assert Pow2(8) == 256; }
    LsbRoundTrip(low + 256 * high, 16);
  }

  lemma SplitHeader(final: bool, n: nat, chunk: seq<byte>, rest: seq<bool>)
    requires n <= STORED_MAX
    ensures ByteBits(HeaderBytes(final, n) + chunk) + rest
         == [final, false, false] + (Lsb(0, 5) + (ByteBits([n % 256, n / 256]) + (ByteBits([255 - n % 256, 255 - n / 256]) + (ByteBits(chunk) + rest))))
  {
    var flag, len, nlen: seq<byte> := [if final then 1 else 0], [n % 256, n / 256], [255 - n % 256, 255 - n / 256];
    assert HeaderBytes(final, n) + chunk == flag + (len + (nlen + chunk));
    FlagBits(final);
    hide *;
    ByteBitsConcat(flag, len + (nlen + chunk));
    ByteBitsConcat(len, nlen + chunk);
    ByteBitsConcat(nlen, chunk);
    RegroupFields([final, false, false], Lsb(0, 5), ByteBits(len), ByteBits(nlen), ByteBits(chunk), rest);
  }

  lemma FieldsOf(a: seq<bool>, b: seq<bool>, c: seq<bool>, rest: seq<bool>)
    requires |a| == 16 && |b| == 16
    ensures (a + (b + (c + rest)))[..16] == a && (a + (b + (c + rest)))[16..32] == b
    ensures (a + (b + (c + rest)))[32..32 + |c|] == c && (a + (b + (c + rest)))[32 + |c|..] == rest
  {
  }

  lemma ReadStored(bits: seq<bool>, out: seq<byte>, a: seq<bool>, b: seq<bool>, c: seq<bool>, rest: seq<bool>)
    requires |a| == 16 && |b| == 16 && Align(bits) == a + (b + (c + rest))
    requires |c| % 8 == 0 && |c| == 8 * LsbValue(a) && LsbValue(a) + LsbValue(b) == 0xFFFF
    ensures InflateStored(bits, out) == Some((out + BytesOf(c), rest))
  {
    hide *;
    FieldsOf(a, b, c, rest);
    ReadFields(bits, out, c, LsbValue(a));
  }

  lemma ReadFields(bits: seq<bool>, out: seq<byte>, c: seq<bool>, n: nat)
    requires |c| % 8 == 0 && |c| == 8 * n && |Align(bits)| >= 32 + |c| && c == Align(bits)[32..32 + |c|]
    requires LsbValue(Align(bits)[..16]) == n && n + LsbValue(Align(bits)[16..32]) == 0xFFFF
    ensures InflateStored(bits, out) == Some((out + BytesOf(c), Align(bits)[32 + |c|..]))
  {
    hide LsbValue, BytesOf, Align;
  }

  lemma SkipFive(skipped: seq<bool>, a: seq<bool>, b: seq<bool>, c: seq<bool>, rest: seq<bool>)
    requires |skipped| == 5 && |a| == |b| == 16 && |c| % 8 == 0 && |rest| % 8 == 0
    ensures Align(skipped + (a + (b + (c + rest)))) == a + (b + (c + rest))
  {
    var s := a + (b + (c + rest));
    assert |s| == 32 + |c| + |rest|;
    assert (skipped + s)[5..] == s;
  }

  lemma InflateStoredBlock(low: byte, high: byte, skipped: seq<bool>, len: seq<bool>, nlen: seq<bool>,
                           chunk: seq<byte>, c: seq<bool>, rest: seq<bool>, out: seq<byte>)
    requires low + 256 * high == |chunk| && |skipped| == 5 && |rest| % 8 == 0
    requires len == ByteBits([low, high]) && nlen == ByteBits([255 - low, 255 - high]) && c == ByteBits(chunk)
    ensures InflateStored(skipped + (len + (nlen + (c + rest))), out) == Some((out + chunk, rest))
  {
    hide *;
    LengthField(low, high);
    LengthField(255 - low, 255 - high);
    BytesRoundTrip(chunk);
    SkipFive(skipped, len, nlen, c, rest);
    ReadStored(skipped + (len + (nlen + (c + rest))), out, len, nlen, c, rest);
  }

  lemma ReadHeader(final: bool, after: seq<bool>, out: seq<byte>)
    ensures var block := InflateStored(after, out);
      InflateBlocks([final, false, false] + after, out) == if block.None? || final then block else InflateBlocks(block.value.1, block.value.0)
  {
    hide InflateStored, InflateFixed;
    var bits := [final, false, false] + after;
    assert bits[1..3] == [false, false] && LsbValue([false, false]) == 0 by {
      assert [false, false][1..] == [false] && [false][1..] == [];
    }
    assert bits[3..] == after;
  }

  lemma OneBlock(final: bool, chunk: seq<byte>, rest: seq<bool>, out: seq<byte>)
    requires |chunk| <= STORED_MAX && |rest| % 8 == 0
    ensures InflateBlocks(ByteBits(HeaderBytes(final, |chunk|) + chunk) + rest, out)
         == if final then Some((out + chunk, rest)) else InflateBlocks(rest, out + chunk)
  {
    SplitHeader(final, |chunk|, chunk, rest);
    var low: byte, high: byte := |chunk| % 256, |chunk| / 256;
    hide *;
    var len, nlen, c := ByteBits([low, high]), ByteBits([255 - low, 255 - high]), ByteBits(chunk);
    InflateStoredBlock(low, high, Lsb(0, 5), len, nlen, chunk, c, rest, out);
    ReadHeader(final, Lsb(0, 5) + (len + (nlen + (c + rest))), out);
  }

  lemma SplitStored(data: seq<byte>)
    requires |data| > STORED_MAX
    ensures StoredBlocks(data) == HeaderBytes(false, STORED_MAX) + data[..STORED_MAX] + StoredBlocks(data[STORED_MAX..])
    ensures data == data[..STORED_MAX] + data[STORED_MAX..]
  {
  }

  lemma FirstOfMany(first: seq<byte>, chunk: seq<byte>, more: seq<byte>, rest: seq<bool>, out: seq<byte>)
    requires |chunk| == STORED_MAX && |rest| % 8 == 0 && first == HeaderBytes(false, STORED_MAX) + chunk
    ensures InflateBlocks(ByteBits(first + StoredBlocks(more)) + rest, out)
         == InflateBlocks(ByteBits(StoredBlocks(more)) + rest, out + chunk)
  {
    hide *;
    var tail := ByteBits(StoredBlocks(more));
    ByteBitsConcat(first, StoredBlocks(more));
    Associative(ByteBits(first), tail, rest);
    assert |tail + rest| % 8 == 0;
    OneBlock(false, chunk, tail + rest, out);
  }

  /** Main result on the fallback: the decoder reads the stored blocks back as the data and leaves
      what follows them. */
  lemma {:induction false} InflateStoredBlocks(data: seq<byte>, rest: seq<bool>, out: seq<byte>)
    requires data != [] && |rest| % 8 == 0
    ensures InflateBlocks(ByteBits(StoredBlocks(data)) + rest, out) == Some((out + data, rest))
    decreases |data|
  {
    hide InflateBlocks, ByteBits, HeaderBytes;
    if |data| <= STORED_MAX {
      OneBlock(true, data, rest, out);
    } else {
      SplitStored(data);
      hide StoredBlocks;
      var chunk, more := data[..STORED_MAX], data[STORED_MAX..];
      InflateStoredBlocks(more, rest, out + chunk);
      Associative(out, chunk, more);
      FirstOfMany(HeaderBytes(false, STORED_MAX) + chunk, chunk, more, rest, out);
    }
  }
}
