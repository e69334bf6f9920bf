/** The compressor's Adler-32 loop: it reduces its two 32-bit sums only once per 5552 bytes. */
module Adler32 {
  import opened Bits
  import opened Inflate

  const WORD: nat := 0x1_0000_0000
  const CHUNK: nat := 5552

  /** 1 + 2 + ... + n. */
  function Triangle(n: nat): nat {
    if n == 0 then 0 else n + Triangle(n - 1)
  }

  lemma {:induction false} TriangleGrows(n: nat, m: nat)
    requires n <= m
    ensures Triangle(n) <= Triangle(m)
  {
    if n < m {
      TriangleGrows(n, m - 1);
    }
  }

  lemma {:induction false} TriangleClosed(n: nat)
    ensures 2 * Triangle(n) == n * (n + 1)
  {
    if n > 0 {
      TriangleClosed(n - 1);
    }
  }

  /** How large the second sum can get within one chunk. */
  function Bound(i: nat): nat { 65520 * (i + 1) + 255 * Triangle(i) }

  /** The worst case of a full chunk still fits in 32 bits. */
  lemma ChunkFits(i: nat)
    requires i <= CHUNK
    ensures 65520 + 255 * i < WORD && Bound(i) < WORD
  {
    TriangleGrows(i, CHUNK);
    TriangleClosed(CHUNK);
  }

  lemma ReduceTwice(a: nat, b: nat)
    ensures (a % ADLER_BASE + b) % ADLER_BASE == (a + b) % ADLER_BASE
  {
  }

  lemma ReduceBoth(a: nat, b: nat)
    ensures (a % ADLER_BASE + b % ADLER_BASE) % ADLER_BASE == (a + b) % ADLER_BASE
  {
  }

  /** One byte of the unreduced loop, seen through the reduction. */
  lemma SumStep(data: seq<byte>, k: nat, s1: nat, s2: nat)
    requires k < |data|
    requires (s1 % ADLER_BASE, s2 % ADLER_BASE) == AdlerSums(data[..k])
    ensures var t1 := s1 + data[k]; (t1 % ADLER_BASE, (s2 + t1) % ADLER_BASE) == AdlerSums(data[..k + 1])
  {
    var prefix := data[..k + 1];
    assert prefix[..|prefix| - 1] == data[..k] && prefix[|prefix| - 1] == data[k];
    ReduceTwice(s1, data[k]);
    ReduceBoth(s2, s1 + data[k]);
    ReduceTwice(s2, (s1 + data[k]) % ADLER_BASE);
  }

  /** The sum of all bytes. */
  function Total(data: seq<byte>): nat {
    if data == [] then 0 else data[0] + Total(data[1..])
  }

  function Times(n: nat, b: byte): nat { n * b as int }

  /** The sum over all bytes, each times the number of bytes from it to the end. */
  function Weighted(data: seq<byte>): nat {
    if data == [] then 0 else Times(|data|, data[0]) + Weighted(data[1..])
  }

  lemma {:induction false} OneMore(data: seq<byte>, b: byte)
    ensures Total(data + [b]) == Total(data) + b
    ensures Weighted(data + [b]) == Weighted(data) + Total(data) + b
  {
    hide Times;
    if data == [] {
      TimesOneMore(1, b);
      assert data + [b] == [b] && [b][1..] == [];
    } else {
      OneMore(data[1..], b);
      FirstApart(data, b);
    }
  }

  lemma FirstApart(data: seq<byte>, b: byte)
    requires data != []
    ensures Total(data + [b]) == data[0] + Total(data[1..] + [b])
    ensures Weighted(data + [b]) == Times(|data|, data[0]) + data[0] + Weighted(data[1..] + [b])
  {
    var longer := data + [b];
    assert longer[1..] == data[1..] + [b] && longer[0] == data[0] && |longer| == |data| + 1;
    TimesOneMore(|data|, data[0]);
    hide Times;
  }

  lemma TimesOneMore(n: nat, b: byte)
    ensures Times(n + 1, b) == Times(n, b) + b && Times(1, b) == b
  {
  }

  /** The two sums in closed form: one more than the sum of the bytes, and the sum of all the values
      the first one went through, which counts a byte once for each byte from it on. */
  lemma {:induction false} SumsInClosedForm(data: seq<byte>)
    ensures AdlerSums(data) == ((1 + Total(data)) % 65521, (|data| + Weighted(data)) % 65521)
  {
    if data != [] {
      var n := |data| - 1;
      SumsInClosedForm(data[..n]);
      OneMore(data[..n], data[n]);
      assert data == data[..n] + [data[n]];
      hide Total, Weighted;
      ReduceTwice(1 + Total(data[..n]), data[n]);
      ReduceBoth(n + Weighted(data[..n]), 1 + Total(data));
    }
  }

  /** The loop never wraps around, and computes the per-byte definition. */
  method Checksum(data: seq<byte>) returns (s1: nat, s2: nat)
    ensures (s1, s2) == AdlerSums(data)
    ensures s1 == (1 + Total(data)) % 65521 && s2 == (|data| + Weighted(data)) % 65521
  {
    SumsInClosedForm(data);
    hide Total, Weighted;
    s1, s2 := 1, 0;
    var blocklen := |data| % CHUNK;
    var j := 0;
    while j < |data|
      invariant 0 <= j <= |data| && 0 <= blocklen <= CHUNK
      invariant (|data| - j) % CHUNK == blocklen % CHUNK && (blocklen == 0 ==> j == 0)
      invariant (s1, s2) == AdlerSums(data[..j])
      decreases |data| - j, if blocklen == 0 then 1 else 0
    {
      ChunkInside(|data| - j, blocklen);
      s1, s2 := SumChunk(data, j, blocklen, s1, s2);
      s1, s2 := s1 % ADLER_BASE, s2 % ADLER_BASE;
      RemainderShrinks(|data| - j, blocklen);
      j := j + blocklen;
      blocklen := CHUNK;
    }
    assert data[..j] == data;
  }

  lemma ChunkInside(left: nat, blocklen: nat)
    requires left > 0 && left % CHUNK == blocklen % CHUNK && blocklen <= CHUNK
    ensures blocklen <= left
  {
  }

  lemma RemainderShrinks(left: nat, blocklen: nat)
    requires blocklen <= left && left % CHUNK == blocklen % CHUNK
    ensures (left - blocklen) % CHUNK == 0
  {
  }

  lemma SumStart(data: seq<byte>)
    ensures var (a, b) := AdlerSums(data);
      a <= 65520 + 255 * 0 && b <= Bound(0) && (a % ADLER_BASE, b % ADLER_BASE) == (a, b)
  {
  }

  /** The inner loop: 32-bit additions, no reduction. */
  method SumChunk(data: seq<byte>, j: nat, blocklen: nat, a: nat, b: nat) returns (s1: nat, s2: nat)
    requires j + blocklen <= |data| && blocklen <= CHUNK && (a, b) == AdlerSums(data[..j])
    ensures s1 < WORD && s2 < WORD
    ensures (s1 % ADLER_BASE, s2 % ADLER_BASE) == AdlerSums(data[..j + blocklen])
  {
    hide Bound, AdlerSums;
    s1, s2 := a, b;
    SumStart(data[..j]);
    for i := 0 to blocklen
      invariant s1 <= 65520 + 255 * i && s2 <= Bound(i)
      invariant (s1 % ADLER_BASE, s2 % ADLER_BASE) == AdlerSums(data[..j + i])
    {
      ChunkStep(data, j + i, i, s1, s2);
      s1 := (s1 + data[j + i]) % WORD;
      s2 := (s2 + s1) % WORD;
    }
    ChunkFits(blocklen);
  }

  lemma ChunkStep(data: seq<byte>, k: nat, i: nat, s1: nat, s2: nat)
    requires k < |data| && i < CHUNK && s1 <= 65520 + 255 * i && s2 <= Bound(i)
    requires (s1 % ADLER_BASE, s2 % ADLER_BASE) == AdlerSums(data[..k])
    ensures var t1 := (s1 + data[k]) % WORD;
            var t2 := (s2 + t1) % WORD;
            && t1 == s1 + data[k] && t2 == s2 + t1
            && t1 <= 65520 + 255 * (i + 1) && t2 <= Bound(i + 1)
            && (t1 % ADLER_BASE, t2 % ADLER_BASE) == AdlerSums(data[..k + 1])
  {
    ChunkFits(i + 1);
    SumStep(data, k, s1, s2);
    assert Bound(i + 1) == Bound(i) + 65520 + 255 * (i + 1);
    hide AdlerSums, Bound, Triangle;
    NoWrap(s1 + data[k]);
    NoWrap(s2 + s1 + data[k]);
  }

  lemma NoWrap(x: nat)
    requires x < WORD
    ensures x % WORD == x
  {
  }
}
