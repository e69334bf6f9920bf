/** Bit sequences as DEFLATE packs them: bytes hold bits from the least significant up; extra-bit
    fields are written least significant bit first, Huffman codes most significant bit first. */
module Bits {

  type byte = b: int | 0 <= b < 256

  function Pow2(n: nat): (p: nat)
    ensures p >= 1
  {
    if n == 0 then 1 else 2 * Pow2(n - 1)
  }

  /** The low n bits of v, least significant first. */
  function Lsb(v: nat, n: nat): (s: seq<bool>)
    ensures |s| == n
  {
    if n == 0 then [] else [v % 2 == 1] + Lsb(v / 2, n - 1)
  }

  /** The low n bits of v, most significant first. */
  function Msb(v: nat, n: nat): (s: seq<bool>)
    ensures |s| == n
  {
    if n == 0 then [] else Msb(v / 2, n - 1) + [v % 2 == 1]
  }

  /** v shifted right by k bits. */
  function Shr(v: nat, k: nat): nat {
    if k == 0 then v else Shr(v / 2, k - 1)
  }

  /** v shifted left by k bits. */
  function Shl(v: nat, k: nat): nat { v * Pow2(k) }

  function Bit(b: bool): nat { if b then 1 else 0 }

  /** The number whose bits are s, least significant first. */
  function LsbValue(s: seq<bool>): nat {
    if s == [] then 0 else Bit(s[0]) + 2 * LsbValue(s[1..])
  }

  /** The number whose bits are s, most significant first. */
  function MsbValue(s: seq<bool>): nat {
    if s == [] then 0 else 2 * MsbValue(s[..|s| - 1]) + Bit(s[|s| - 1])
  }

  function ByteBits(bytes: seq<byte>): (s: seq<bool>)
    ensures |s| == 8 * |bytes|
  {
    if bytes == [] then [] else Lsb(bytes[0], 8) + ByteBits(bytes[1..])
  }

  function BytesOf(s: seq<bool>): (bytes: seq<byte>)
    requires |s| % 8 == 0
    ensures |bytes| == |s| / 8
  {
    if s == [] then []
    else
      LsbValueBound(s[..8]);
      [LsbValue(s[..8])] + BytesOf(s[8..])
  }

  lemma {:induction false} LsbValueBound(s: seq<bool>)
    ensures LsbValue(s) < Pow2(|s|)
    ensures |s| == 8 ==> LsbValue(s) < 256
  {
    if s != [] {
      LsbValueBound(s[1..]);
    }
    if |s| == 8 {
      assert Pow2(8) == 256;
    }
  }

  lemma {:induction false} LsbRoundTrip(v: nat, n: nat)
    requires v < Pow2(n)
    ensures LsbValue(Lsb(v, n)) == v
  {
    if n > 0 {
      LsbRoundTrip(v / 2, n - 1);
      assert Lsb(v, n)[1..] == Lsb(v / 2, n - 1);
    }
  }

  lemma {:induction false} ByteBitsConcat(a: seq<byte>, b: seq<byte>)
    ensures ByteBits(a + b) == ByteBits(a) + ByteBits(b)
  {
    if a == [] {
      assert a + b == b;
    } else {
      assert (a + b)[1..] == a[1..] + b;
      ByteBitsConcat(a[1..], b);
    }
  }

  lemma {:induction false} BytesRoundTrip(bytes: seq<byte>)
    ensures BytesOf(ByteBits(bytes)) == bytes
  {
    if bytes != [] {
      var s := ByteBits(bytes);
      assert s[..8] == Lsb(bytes[0], 8) && s[8..] == ByteBits(bytes[1..]);
      assert Pow2(8) == 256;
      LsbRoundTrip(bytes[0], 8);
      BytesRoundTrip(bytes[1..]);
    }
  }

  // ---- Where each bit lies ----

  /** Shifting right is dividing by the power of two, rounding down. */
  lemma {:induction false} ShrIsQuotient(v: nat, k: nat)
    ensures Pow2(k) * Shr(v, k) <= v < Pow2(k) * Shr(v, k) + Pow2(k)
  {
    if k > 0 {
      ShrIsQuotient(v / 2, k - 1);
      TwiceTimes(Pow2(k - 1), Shr(v, k));
    }
  }

  lemma TwiceTimes(a: nat, b: nat)
    ensures 2 * a * b == 2 * (a * b)
  {
  }

  lemma {:induction false} LsbAt(v: nat, n: nat, i: nat)
    requires i < n
    ensures Lsb(v, n)[i] <==> Shr(v, i) % 2 == 1
  {
    if i > 0 {
      LsbAt(v / 2, n - 1, i - 1);
    }
  }

  /** Huffman codes go out the other way round than every other field. */
  lemma {:induction false} MsbIsReversedLsb(v: nat, n: nat, i: nat)
    requires i < n
    ensures Msb(v, n)[i] == Lsb(v, n)[n - 1 - i]
  {
    LsbAt(v, n, n - 1 - i);
    if i < n - 1 {
      MsbIsReversedLsb(v / 2, n - 1, i);
    }
  }

  /** Bit j of byte i, counted from the least significant, is bit 8 * i + j of the stream. */
  lemma {:induction false} ByteBitsAt(bytes: seq<byte>, i: nat, j: nat)
    requires i < |bytes| && j < 8
    ensures ByteBits(bytes)[8 * i + j] <==> Shr(bytes[i], j) % 2 == 1
  {
    if i == 0 {
      LsbAt(bytes[0], 8, j);
    } else {
      ByteBitsAt(bytes[1..], i - 1, j);
    }
    hide Lsb;
  }

  // ---- Fields ----

  lemma {:induction false} LsbSplit(v: nat, k: nat, n: nat)
    ensures Lsb(v, k + n) == Lsb(v, k) + Lsb(Shr(v, k), n)
  {
    if k > 0 {
      LsbSplit(v / 2, k - 1, n);
    }
  }

  /** A field placed above k bits already in the buffer follows them in the stream. */
  lemma {:induction false} LsbJoin(a: nat, b: nat, k: nat, n: nat)
    requires a < Pow2(k)
    ensures Lsb(a + Shl(b, k), k + n) == Lsb(a, k) + Lsb(b, n)
    decreases k
  {
    ShlStep(b, k);
    hide Shl;
    if k > 0 {
      var v, rest := a + Shl(b, k), Shl(b, k - 1);
      assert v % 2 == a % 2 && v / 2 == a / 2 + rest;
      LsbJoin(a / 2, b, k - 1, n);
    }
  }

  lemma ShlStep(b: nat, k: nat)
    ensures Shl(b, 0) == b
    ensures k > 0 ==> Shl(b, k) == 2 * Shl(b, k - 1)
  {
  }

  /** ... and the two together still fit. */
  lemma JoinBound(a: nat, b: nat, k: nat, n: nat)
    requires a < Pow2(k) && b < Pow2(n)
    ensures a + Shl(b, k) < Pow2(k + n)
  {
    Pow2Add(n, k);
    TimesAtMost(Pow2(k), b + 1, Pow2(n));
    assert Shl(b, k) + Pow2(k) == Pow2(k) * (b + 1);
    assert Pow2(n) * Pow2(k) == Pow2(k) * Pow2(n);
  }

  lemma TimesAtMost(a: nat, x: int, y: int)
    requires x <= y
    ensures a * x <= a * y
  {
  }

  lemma {:induction false} Pow2Grows(j: nat, k: nat)
    requires j <= k
    ensures Pow2(j) <= Pow2(k)
  {
    if j < k {
      Pow2Grows(j, k - 1);
    }
  }

  lemma {:induction false} Pow2Add(j: nat, k: nat)
    ensures Pow2(j + k) == Pow2(j) * Pow2(k)
  {
    if j > 0 {
      Pow2Add(j - 1, k);
    }
  }

  /** The source's `bitbuf |= code << bitcount` is a sum that loses no bit: fewer than eight bits are
      pending, the buffer holds nothing above them, and a code has at most 13 bits. */
  lemma OrIsSum(buffer: bv32, code: bv32, bitcount: bv32)
    requires bitcount < 8 && buffer < 1 << bitcount && code < 8192
    ensures buffer | (code << bitcount) == buffer + (code << bitcount)
    ensures (code << bitcount) >> bitcount == code
  {
  }

  lemma {:induction false} MsbRoundTrip(v: nat, n: nat)
    requires v < Pow2(n)
    ensures MsbValue(Msb(v, n)) == v
  {
    if n > 0 {
      MsbRoundTrip(v / 2, n - 1);
      assert Msb(v, n)[..n - 1] == Msb(v / 2, n - 1);
    }
  }

  /** The first bits of a code are the code shifted down. */
  lemma {:induction false} MsbPrefix(v: nat, k: nat, n: nat)
    ensures Msb(v, k + n)[..k] == Msb(Shr(v, n), k)
  {
    if n > 0 {
      MsbPrefix(v / 2, k, n - 1);
      assert Msb(v, k + n) == Msb(v / 2, k + n - 1) + [v % 2 == 1];
    } else {
      assert Msb(v, k)[..k] == Msb(v, k);
    }
  }
}
