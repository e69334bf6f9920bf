/** `stbi_zlib_compress` from end to end: header, fixed-Huffman block or stored fallback, checksum. */
module Zlib {
  import opened Sequences
  import opened Options
  import opened Bits
  import opened Inflate
  import opened DeflateTokens
  import opened BitSinks
  import opened StoredFallback
  import ZlibCompress
  import Adler32

  const HEADER: seq<byte> := [0x78, 0x5e]

  /** The checksum as the compressor writes it. */
  function AdlerBytes(data: seq<byte>): (b: seq<byte>)
    ensures |b| == 4
  {
    var (s1, s2) := AdlerSums(data);
    [s2 / 256, s2 % 256, s1 / 256, s1 % 256]
  }

  /** Read most significant byte first, they are the number s2 * 65536 + s1. */
  lemma AdlerNumber(data: seq<byte>)
    ensures var (s1, s2) := AdlerSums(data); Number(AdlerBytes(data)) == s2 * 65536 + s1
    ensures ChecksumOk(ByteBits(AdlerBytes(data)), data)
  {
    var (s1, s2) := AdlerSums(data);
    BytesRoundTrip(AdlerBytes(data));
    SplitByte(s1);
    SplitByte(s2);
    hide AdlerSums, ByteBits, BytesOf;
  }

  lemma SplitByte(s: nat)
    ensures s / 256 * 256 + s % 256 == s
  {
  }

  // ---- The decoder on each kind of body ----

  lemma BytesPrefix(a: seq<byte>, bytes: seq<byte>, rest: seq<bool>)
    requires ByteBits(bytes) == ByteBits(a) + rest
    ensures |a| <= |bytes| && bytes == a + bytes[|a|..] && ByteBits(bytes[|a|..]) == rest
  {
    hide *;
    assert 8 * |bytes| == 8 * |a| + |rest|;
    var left, right := bytes[..|a|], bytes[|a|..];
    assert bytes == left + right;
    ByteBitsConcat(left, right);
    SameSplit(ByteBits(left), ByteBits(right), ByteBits(a), rest);
    BytesRoundTrip(left);
    BytesRoundTrip(a);
  }

  lemma AlignPadding(padding: seq<bool>, whole: seq<bool>)
    requires |padding| < 8 && |whole| % 8 == 0
    ensures Align(padding + whole) == whole
  {
  }

  lemma FixedHeader(bits: seq<bool>, rest: seq<bool>, out: seq<byte>)
    requires bits == Lsb(1, 1) + (Lsb(1, 2) + rest)
    ensures InflateBlocks(bits, out) == InflateFixed(rest, out)
  {
    assert Lsb(1, 1) == [true] + Lsb(0, 0);
    assert Lsb(1, 2) == [true] + Lsb(0, 1) && Lsb(0, 1) == [false] + Lsb(0, 0);
    hide InflateFixed, InflateStored, Lsb;
    assert bits[0] && bits[1..3] == [true, false] && bits[3..] == rest;
    assert [true, false][1..] == [false] && [false][1..] == [];
  }

  /** Reassembling the decoder from its parts. */
  lemma DecodeBody(body: seq<byte>, data: seq<byte>, padding: seq<bool>)
    requires InflateBlocks(ByteBits(body) + ByteBits(AdlerBytes(data)), []) == Some((data, padding + ByteBits(AdlerBytes(data))))
    requires |padding| < 8
    ensures ZlibDecode(HEADER + body + AdlerBytes(data)) == Some(data)
  {
    AdlerNumber(data);
    hide InflateBlocks, AdlerBytes, ByteBits, ChecksumOk;
    var stream := HEADER + body + AdlerBytes(data);
    assert HeaderOk(0x78, 0x5e);
    assert stream[2..] == body + AdlerBytes(data);
    ByteBitsConcat(body, AdlerBytes(data));
    AlignPadding(padding, ByteBits(AdlerBytes(data)));
  }

  lemma FixedDecodes(body: seq<byte>, ts: seq<Token>, padding: seq<bool>, data: seq<byte>)
    requires TokensOk(ts) && Expands(ts, [], data) && |padding| < 8
    requires ByteBits(body) == Lsb(1, 1) + Lsb(1, 2) + TokensBits(ts) + HuffBits(256) + padding
    ensures ZlibDecode(HEADER + body + AdlerBytes(data)) == Some(data)
  {
    hide *;
    var sum := ByteBits(AdlerBytes(data));
    Regroup(Lsb(1, 1), Lsb(1, 2), TokensBits(ts), HuffBits(256), padding, sum);
    FixedHeader(ByteBits(body) + sum, TokensBits(ts) + (HuffBits(256) + (padding + sum)), []);
    InflateTokens(ts, [], data, padding + sum);
    DecodeBody(body, data, padding);
  }

  lemma StoredDecodes(data: seq<byte>)
    requires data != []
    ensures ZlibDecode(HEADER + StoredBlocks(data) + AdlerBytes(data)) == Some(data)
  {
    hide *;
    var sum := ByteBits(AdlerBytes(data));
    InflateStoredBlocks(data, sum, []);
    assert [] + data == data && [] + sum == sum;
    DecodeBody(StoredBlocks(data), data, []);
  }

  lemma BadComplement(skipped: seq<bool>, low: seq<bool>, high: seq<bool>)
    requires |skipped| == 5 && |low| == 16 && |high| == 8
    ensures InflateStored(skipped + (low + high), []) == None
  {
  }

  lemma NoBlock(first: seq<byte>, low: seq<byte>, high: seq<byte>)
    requires first == [0] && |low| == 2 && |high| == 1
    ensures InflateBlocks(ByteBits(first + (low + high)), []) == None
  {
    FlagBits(false);
    hide *;
    ByteBitsConcat(first, low + high);
    ByteBitsConcat(low, high);
    BadComplement(Lsb(0, 5), ByteBits(low), ByteBits(high));
    Associative([false, false, false], Lsb(0, 5), ByteBits(low) + ByteBits(high));
    ReadHeader(false, Lsb(0, 5) + (ByteBits(low) + ByteBits(high)), []);
  }

  /** The one input that fails: the fallback writes no block at all, and the checksum is read as one. */
  lemma NothingStored()
    ensures StoredBlocks([]) == [] && AdlerBytes([]) == [0, 0, 0, 1]
    ensures ZlibDecode(HEADER + [0, 0, 0, 1]) == None
  {
    var stream: seq<byte> := HEADER + [0, 0, 0, 1];
    assert stream[2..] == [0] + ([0, 0] + [1]);
    NoBlock([0], [0, 0], [1]);
    hide InflateBlocks, ByteBits;
  }

  // ---- The compressor ----

  /** Copies the data in blocks. The buffer that held the rejected block is already large enough, so
      no push reallocates it and the raw copies stay inside. */
  method StoreBlocks(data: seq<byte>, sink: BitSink)
    requires |sink.bytes| + |data| + 5 * BlockCount(|data|) < sink.cap
    modifies sink`bytes, sink`cap
    ensures sink.bytes == old(sink.bytes) + StoredBlocks(data) && sink.cap == old(sink.cap)
  {
    var j: nat := 0;
    assert data[0..] == data && StoredBlocks([]) == [];
    hide StoredBlocks, BlockCount, HeaderBytes;
    while j < |data|
      invariant j <= |data| && sink.cap == old(sink.cap)
      invariant |sink.bytes| + (|data| - j) + 5 * BlockCount(|data| - j) < sink.cap
      invariant sink.bytes + StoredBlocks(data[j..]) == old(sink.bytes) + StoredBlocks(data)
    {
      var blocklen := |data| - j;
      if blocklen > STORED_MAX {
        blocklen := STORED_MAX;
      }
      StoreStep(data, j, blocklen, sink.bytes);
      BlockCountStep(|data| - j, blocklen);
      StoreBlock(|data| - j == blocklen, data[j..j + blocklen], sink);
      j := j + blocklen;
    }
    assert sink.bytes + StoredBlocks(data[j..]) == sink.bytes;
  }

  /** One stored block: header, length, complemented length, bytes. */
  method StoreBlock(final: bool, chunk: seq<byte>, sink: BitSink)
    requires |chunk| <= STORED_MAX && |sink.bytes| + 5 + |chunk| < sink.cap
    modifies sink`bytes, sink`cap
    ensures sink.bytes == old(sink.bytes) + HeaderBytes(final, |chunk|) + chunk && sink.cap == old(sink.cap)
  {
    var blocklen := |chunk|;
    HeaderPushed(final, blocklen, sink.bytes);
    hide HeaderBytes;
    sink.Push(if final then 1 else 0);
    sink.Push(blocklen % 256);
    sink.Push(blocklen / 256 % 256);
    sink.Push((-1 - blocklen) % 256);
    sink.Push((-1 - blocklen) / 256 % 256);
    sink.AppendRaw(chunk);
  }

  lemma StoreStep(data: seq<byte>, j: nat, blocklen: nat, bytes: seq<byte>)
    requires j < |data| && 0 < blocklen <= |data| - j
    requires blocklen == if |data| - j > STORED_MAX then STORED_MAX else |data| - j
    ensures bytes + HeaderBytes(|data| - j == blocklen, blocklen) + data[j..j + blocklen] + StoredBlocks(data[j + blocklen..])
         == bytes + StoredBlocks(data[j..])
  {
    var left, chunk := data[j..], data[j..j + blocklen];
    assert left[..blocklen] == chunk && left[blocklen..] == data[j + blocklen..];
    ShortBlock(left);
    if |left| > STORED_MAX {
      SplitStored(left);
    }
    hide *;
    if |left| == blocklen {
      assert chunk == left && data[j + blocklen..] == [];
    }
  }

  lemma ShortBlock(left: seq<byte>)
    requires left != []
    ensures |left| <= STORED_MAX ==> StoredBlocks(left) == HeaderBytes(true, |left|) + left
    ensures StoredBlocks([]) == []
  {
  }

  lemma HeaderPushed(final: bool, n: nat, bytes: seq<byte>)
    requires n <= STORED_MAX
    ensures bytes + [if final then 1 else 0] + [n % 256] + [n / 256 % 256] + [(-1 - n) % 256] + [(-1 - n) / 256 % 256]
         == bytes + HeaderBytes(final, n)
  {
    ComplementBytes(n);
  }

  /** `~blocklen` and its high byte, taken apart with truncation to eight bits. */
  lemma ComplementBytes(n: nat)
    requires n <= STORED_MAX
    ensures n / 256 % 256 == n / 256 && (-1 - n) % 256 == 255 - n % 256 && (-1 - n) / 256 % 256 == 255 - n / 256
  {
    var q, r := n / 256, n % 256;
    assert -1 - n == 256 * (-1 - q) + (255 - r);
    assert (-1 - n) / 256 == -1 - q;
  }

  lemma BlockCountStep(left: nat, blocklen: nat)
    requires left > 0 && blocklen == if left > STORED_MAX then STORED_MAX else left
    ensures BlockCount(left) == 1 + BlockCount(left - blocklen)
  {
  }

  lemma FixedBody(bytes: seq<byte>, ts: seq<Token>, padding: seq<bool>) returns (body: seq<byte>)
    requires TokensOk(ts)
    requires ByteBits(bytes) == ByteBits(HEADER) + Lsb(1, 1) + Lsb(1, 2) + TokensBits(ts) + HuffBits(256) + padding
    ensures bytes == HEADER + body && |body| >= 1
    ensures ByteBits(body) == Lsb(1, 1) + Lsb(1, 2) + TokensBits(ts) + HuffBits(256) + padding
  {
    var rest := Lsb(1, 1) + Lsb(1, 2) + TokensBits(ts) + HuffBits(256) + padding;
    Reassemble(ByteBits(HEADER), Lsb(1, 1), Lsb(1, 2), TokensBits(ts), HuffBits(256), padding);
    hide *;
    BytesPrefix(HEADER, bytes, rest);
    body := bytes[|HEADER|..];
  }

  /** The header and one fixed-Huffman block, padded to whole bytes. */
  method WriteFixed(data: seq<byte>, depth: nat, sink: BitSink) returns (ghost ts: seq<Token>, ghost padding: seq<bool>, ghost body: seq<byte>)
    requires sink.Valid() && sink.bytes == [] && sink.bitcount == 0 && depth >= 5
    modifies sink
    ensures sink.Valid() && sink.bytes == HEADER + body && |body| >= 1
    ensures TokensOk(ts) && Expands(ts, [], data) && |padding| < 8
    ensures ByteBits(body) == Lsb(1, 1) + Lsb(1, 2) + TokensBits(ts) + HuffBits(256) + padding
  {
    sink.Push(0x78);
    sink.Push(0x5e);
    assert sink.bytes == HEADER;
    assert Pow2(1) == 2 && Pow2(2) == 4;
    assert sink.Stream() == ByteBits(HEADER) by { assert ByteBits(HEADER) + [] == ByteBits(HEADER); }
    hide *;
    sink.Add(1, 1);
    sink.Add(1, 2);
    ts := ZlibCompress.DeflateFixed(data, depth, sink);
    padding := sink.Pad();
    body := FixedBody(sink.bytes, ts, padding);
  }

  lemma Decodes(data: seq<byte>, body: seq<byte>, ts: seq<Token>, padding: seq<bool>, stored: bool)
    requires if stored then body == StoredBlocks(data) else
      data != [] && TokensOk(ts) && Expands(ts, [], data) && |padding| < 8
      && ByteBits(body) == Lsb(1, 1) + Lsb(1, 2) + TokensBits(ts) + HuffBits(256) + padding
    ensures ZlibDecode(HEADER + body + AdlerBytes(data)) == Some(data) <==> data != []
  {
    NothingStored();
    hide *;
    if data != [] {
      if stored {
        StoredDecodes(data);
      } else {
        FixedDecodes(body, ts, padding, data);
      }
    } else {
      assert HEADER + [] == HEADER;
    }
  }

  /** Main result: whatever the quality, the standard decoder recovers exactly the input, for every
      non-empty input and for no other; and stored blocks bound the size of the result. */
  method Compress(data: seq<byte>, quality: int) returns (out: seq<byte>)
    ensures ZlibDecode(out) == Some(data) <==> data != []
    ensures |out| <= |data| + 2 + 5 * BlockCount(|data|) + 4
    ensures |out| >= 2 && out[..2] == [0x78, 0x5e] && EndsInChecksum(out, data)
  {
    hide *;
    var depth: nat := if quality < 5 then 5 else quality;
    var sink := new BitSink();
    ghost var ts, padding, body := WriteFixed(data, depth, sink);
    HeaderFirst(body, []);
    StoredLength(data);
    Blocks(|data|);
    SinkFits(sink);
    ghost var stored := false;
    if |sink.bytes| > |data| + 2 + (|data| + 32766) / 32767 * 5 {
      sink.Truncate(2);
      StoreBlocks(data, sink);
      body, stored := StoredBlocks(data), true;
    }
    assert sink.bytes == HEADER + body;
    Decodes(data, body, ts, padding, stored);
    HeaderFirst(body, AdlerBytes(data));
    out := PushChecksum(data, sink);
  }

  lemma FourPushed(bytes: seq<byte>, sum: seq<byte>)
    requires |sum| == 4
    ensures bytes + [sum[0]] + [sum[1]] + [sum[2]] + [sum[3]] == bytes + sum
    ensures |bytes + sum| == |bytes| + 4 && (bytes + sum)[|bytes + sum| - 4..] == sum
  {
  }

  lemma Blocks(n: nat)
    ensures (n + 32766) / 32767 == BlockCount(n)
  {
  }

  lemma SinkFits(sink: BitSink)
    ensures sink.Valid() ==> |sink.bytes| <= sink.cap
  {
  }

  lemma HeaderFirst(body: seq<byte>, sum: seq<byte>)
    ensures HEADER[..2] == HEADER && (HEADER + body)[..2] == HEADER
    ensures |HEADER| == 2 && (HEADER + body + sum)[..2] == [0x78, 0x5e]
  {
  }

  /** The last four bytes, most significant first, are the two sums of Adler-32 in closed form. */
  ghost predicate EndsInChecksum(out: seq<byte>, data: seq<byte>) {
    && |out| >= 4
    && Number(out[|out| - 4..]) == (|data| + Adler32.Weighted(data)) % 65521 * 65536 + (1 + Adler32.Total(data)) % 65521
  }

  method PushChecksum(data: seq<byte>, sink: BitSink) returns (out: seq<byte>)
    requires |sink.bytes| <= sink.cap
    modifies sink
    ensures out == old(sink.bytes) + AdlerBytes(data)
    ensures |out| == old(|sink.bytes|) + 4 && EndsInChecksum(out, data)
  {
    hide Number, Adler32.Total, Adler32.Weighted, AdlerSums, ChecksumOk, ByteBits;
    ghost var before := sink.bytes;
    var s1, s2 := Adler32.Checksum(data);
    AdlerNumber(data);
    sink.Push(s2 / 256);
    sink.Push(s2 % 256);
    sink.Push(s1 / 256);
    sink.Push(s1 % 256);
    out := sink.bytes;
    FourPushed(before, AdlerBytes(data));
  }
}
