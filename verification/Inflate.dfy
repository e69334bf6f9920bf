/** A decoder for the compressed format, written from the standards: the zlib wrapper of section 2.2
    of RFC 1950 and the stored and fixed-Huffman blocks of sections 3.2.3 to 3.2.6 of RFC 1951. It is
    the specification the compressor is proved against. Blocks with dynamic Huffman codes, which the
    compressor never emits, are rejected. */
module Inflate {
  import opened Options
  import opened Bits

  // ---- Section 3.2.6 of RFC 1951: the fixed literal/length code ----

  function DecodeSymbol(bits: seq<bool>): (r: Option<(nat, seq<bool>)>)
    ensures r.Some? ==> |r.value.1| < |bits| && r.value.0 <= 287
  {
    if |bits| < 7 then None
    else
      MsbValueBound(bits[..7]);
      var v7 := MsbValue(bits[..7]);
      if v7 <= 23 then Some((256 + v7, bits[7..]))
      else if |bits| < 8 then None
      else
        MsbValueBound(bits[..8]);
        var v8 := MsbValue(bits[..8]);
        if 48 <= v8 <= 191 then Some((v8 - 48, bits[8..]))
        else if 192 <= v8 <= 199 then Some((280 + v8 - 192, bits[8..]))
        else if |bits| < 9 then None
        else
          MsbValueBound(bits[..9]);
          var v9 := MsbValue(bits[..9]);
          if 400 <= v9 <= 511 then Some((144 + v9 - 400, bits[9..])) else None
  }

  lemma {:induction false} MsbValueBound(s: seq<bool>)
    ensures MsbValue(s) < Pow2(|s|)
  {
    if s != [] {
      MsbValueBound(s[..|s| - 1]);
    }
  }

  // ---- Section 3.2.5: the length and distance tables ----

  /** Extra bits of length code 257 + j. */
  function LengthExtra(j: nat): nat
    requires j <= 28
  {
    if j < 8 || j == 28 then 0 else (j - 4) / 4
  }

  /** Smallest length of code 257 + j: the ranges follow each other from 3 on, except that the last
      code is set apart for the maximal length. */
  function LengthBase(j: nat): (base: nat)
    requires j <= 28
    ensures base >= 3
  {
    if j == 28 then 258 else if j == 0 then 3 else LengthBase(j - 1) + Pow2(LengthExtra(j - 1))
  }

  function DistanceExtra(d: nat): nat
    requires d <= 29
  {
    if d < 4 then 0 else (d - 2) / 2
  }

  function DistanceBase(d: nat): (base: nat)
    requires d <= 29
    ensures base >= 1
  {
    if d == 0 then 1 else DistanceBase(d - 1) + Pow2(DistanceExtra(d - 1))
  }

  // ---- Section 3.2.3: blocks ----

  /** Appends `length` bytes, each copied from `distance` back; the ranges may overlap. */
  function CopyMatch(out: seq<byte>, length: nat, distance: nat): (r: seq<byte>)
    requires 0 < distance <= |out|
    ensures |r| == |out| + length
    decreases length
  {
    if length == 0 then out else CopyMatch(out + [out[|out| - distance]], length - 1, distance)
  }

  /** A length/distance pair after its length symbol 257 + j. */
  function DecodeMatch(j: nat, bits: seq<bool>): (r: Option<(nat, nat, seq<bool>)>)
    requires j <= 28
    ensures r.Some? ==> |r.value.2| <= |bits| && r.value.1 > 0
  {
    var le := LengthExtra(j);
    if |bits| < le + 5 then None
    else
      var length := LengthBase(j) + LsbValue(bits[..le]);
      var d := MsbValue(bits[le..le + 5]);
      if d > 29 then None
      else
        var rest := bits[le + 5..];
        var de := DistanceExtra(d);
        if |rest| < de then None
        else Some((length, DistanceBase(d) + LsbValue(rest[..de]), rest[de..]))
  }

  /** The symbols of a fixed-Huffman block, appended to `out`, up to its end-of-block symbol. */
  function InflateFixed(bits: seq<bool>, out: seq<byte>): (r: Option<(seq<byte>, seq<bool>)>)
    ensures r.Some? ==> |r.value.1| < |bits|
    decreases |bits|
  {
    var sym := DecodeSymbol(bits);
    if sym.None? then None
    else
      var (n, rest) := sym.value;
      if n < 256 then InflateFixed(rest, out + [n])
      else if n == 256 then Some((out, rest))
      else if n > 285 then None
      else
        var pair := DecodeMatch(n - 257, rest);
        if pair.None? then None
        else
          var (length, distance, after) := pair.value;
          if distance > |out| then None else InflateFixed(after, CopyMatch(out, length, distance))
  }

  /** Skips to the next byte boundary of a stream whose total length is whole bytes. */
  function Align(bits: seq<bool>): (r: seq<bool>)
    ensures |r| <= |bits| && |r| % 8 == 0
  {
    bits[|bits| % 8..]
  }

  function InflateStored(bits: seq<bool>, out: seq<byte>): (r: Option<(seq<byte>, seq<bool>)>)
    ensures r.Some? ==> |r.value.1| < |bits|
  {
    var s := Align(bits);
    if |s| < 32 then None
    else
      var len, nlen := LsbValue(s[..16]), LsbValue(s[16..32]);
      if len + nlen != 0xFFFF || |s| < 32 + 8 * len then None
      else Some((out + BytesOf(s[32..32 + 8 * len]), s[32 + 8 * len..]))
  }

  function InflateBlocks(bits: seq<bool>, out: seq<byte>): (r: Option<(seq<byte>, seq<bool>)>)
    decreases |bits|
  {
    if |bits| < 3 then None
    else
      var block := match LsbValue(bits[1..3])
        case 0 => InflateStored(bits[3..], out)
        case 1 => InflateFixed(bits[3..], out)
        case _ => None;
      if block.None? || bits[0] then block
      else InflateBlocks(block.value.1, block.value.0)
  }

  // ---- Section 2.2 of RFC 1950: the wrapper ----

  const ADLER_BASE: nat := 65521

  /** The two sums of Adler-32, each reduced after every byte. */
  function AdlerSums(data: seq<byte>): (s: (nat, nat))
    ensures s.0 < ADLER_BASE && s.1 < ADLER_BASE
  {
    if data == [] then (1, 0)
    else
      var (s1, s2) := AdlerSums(data[..|data| - 1]);
      var t1 := (s1 + data[|data| - 1]) % ADLER_BASE;
      (t1, (s2 + t1) % ADLER_BASE)
  }

  /** Four bytes as a number, most significant byte first. */
  function Number(b: seq<byte>): nat
    requires |b| == 4
  {
    ((b[0] as int * 256 + b[1]) * 256 + b[2]) * 256 + b[3]
  }

  /** The checksum that follows the blocks is s2 * 65536 + s1, and nothing follows it. */
  predicate ChecksumOk(tail: seq<bool>, data: seq<byte>) {
    var (s1, s2) := AdlerSums(data);
    |tail| == 32 && Number(BytesOf(tail)) == s2 * 65536 + s1
  }

  /** Deflate with a 32K window, no preset dictionary, header checksum right. */
  predicate HeaderOk(cmf: byte, flg: byte) {
    cmf % 16 == 8 && cmf / 16 <= 7 && (cmf * 256 + flg) % 31 == 0 && flg / 32 % 2 == 0
  }

  function ZlibDecode(stream: seq<byte>): Option<seq<byte>> {
    if |stream| < 2 || !HeaderOk(stream[0], stream[1]) then None
    else
      var blocks := InflateBlocks(ByteBits(stream[2..]), []);
      if blocks.None? then None
      else
        var (data, rest) := blocks.value;
        if ChecksumOk(Align(rest), data) then Some(data) else None
  }
}
