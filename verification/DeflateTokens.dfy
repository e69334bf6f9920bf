/** The compressor's output as a list of tokens: the bits of each token, the bytes it stands for, and
    the proof that the decoder of Inflate reads the bits back as those bytes. */
module DeflateTokens {
  import opened Sequences
  import opened Options
  import opened Bits
  import opened Inflate

  /** A literal byte, or a copy of `length` bytes from `distance` back with the codes chosen for it. */
  datatype Token = Literal(b: byte) | Match(length: nat, distance: nat, lengthCode: nat, distanceCode: nat)

  /** The code a match uses must be able to express it. */
  predicate TokenOk(t: Token) {
    t.Match? ==>
      && t.lengthCode <= 28 && t.distanceCode <= 29
      && LengthBase(t.lengthCode) <= t.length < LengthBase(t.lengthCode) + Pow2(LengthExtra(t.lengthCode))
      && DistanceBase(t.distanceCode) <= t.distance < DistanceBase(t.distanceCode) + Pow2(DistanceExtra(t.distanceCode))
  }

  /** The fixed code the encoder's macros compute: value and width. */
  function HuffCode(n: nat): (r: (nat, nat))
    requires n <= 287
    ensures r.0 < Pow2(r.1)
  {
    assert Pow2(7) == 128 && Pow2(8) == 256 && Pow2(9) == 512;
    if n <= 143 then (0x30 + n, 8)
    else if n <= 255 then (0x190 + n - 144, 9)
    else if n <= 279 then (n - 256, 7)
    else (0xc0 + n - 280, 8)
  }

  function HuffBits(n: nat): seq<bool>
    requires n <= 287
  {
    Msb(HuffCode(n).0, HuffCode(n).1)
  }

  function MatchBits(length: nat, distance: nat, j: nat, d: nat): seq<bool>
    requires j <= 28 && d <= 29 && LengthBase(j) <= length && DistanceBase(d) <= distance
  {
    HuffBits(257 + j) + Lsb(length - LengthBase(j), LengthExtra(j))
      + Msb(d, 5) + Lsb(distance - DistanceBase(d), DistanceExtra(d))
  }

  function TokenBits(t: Token): seq<bool>
    requires TokenOk(t)
  {
    match t
    case Literal(b) => HuffBits(b)
    case Match(length, distance, j, d) => MatchBits(length, distance, j, d)
  }

  predicate TokensOk(ts: seq<Token>) {
    forall i :: 0 <= i < |ts| ==> TokenOk(ts[i])
  }

  function TokensBits(ts: seq<Token>): seq<bool>
    requires TokensOk(ts)
  {
    if ts == [] then [] else TokenBits(ts[0]) + TokensBits(ts[1..])
  }

  /** The bytes after one token. */
  function Step(out: seq<byte>, t: Token): seq<byte>
    requires t.Match? ==> 0 < t.distance <= |out|
  {
    match t
    case Literal(b) => out + [b]
    case Match(length, distance, _, _) => CopyMatch(out, length, distance)
  }

  /** The tokens expand `out` to `result`: every copy reaches back no further than the output. */
  predicate Expands(ts: seq<Token>, out: seq<byte>, result: seq<byte>) {
    if ts == [] then out == result
    else
      && (ts[0].Match? ==> 0 < ts[0].distance <= |out|)
      && Expands(ts[1..], Step(out, ts[0]), result)
  }

  // ---- Appending a token ----

  lemma {:induction false} TokensBitsAppend(ts: seq<Token>, t: Token)
    requires TokensOk(ts) && TokenOk(t)
    ensures TokensOk(ts + [t]) && TokensBits(ts + [t]) == TokensBits(ts) + TokenBits(t)
  {
    hide TokenBits, TokenOk;
    if ts == [] {
      assert ts + [t] == [t];
      assert TokensBits([t][1..]) == [];
    } else {
      assert (ts + [t])[1..] == ts[1..] + [t];
      TokensBitsAppend(ts[1..], t);
    }
  }

  lemma {:induction false} ExpandsAppend(ts: seq<Token>, out: seq<byte>, result: seq<byte>, t: Token)
    requires Expands(ts, out, result) && (t.Match? ==> 0 < t.distance <= |result|)
    ensures Expands(ts + [t], out, Step(result, t))
  {
    if ts == [] {
      assert ts + [t] == [t];
      assert [t][1..] == [];
    } else {
      assert (ts + [t])[1..] == ts[1..] + [t];
      ExpandsAppend(ts[1..], Step(out, ts[0]), result, t);
    }
  }

  /** A copy reproduces the data when the two stretches agree, even where they overlap. */
  lemma {:induction false} CopyReproduces(data: seq<byte>, i: nat, length: nat, distance: nat)
    requires 0 < distance <= i && i + length <= |data|
    requires forall k :: i <= k < i + length ==> data[k - distance] == data[k]
    ensures CopyMatch(data[..i], length, distance) == data[..i + length]
    decreases length
  {
    if length > 0 {
      assert data[..i] + [data[i - distance]] == data[..i + 1];
      CopyReproduces(data, i + 1, length - 1, distance);
    }
  }

  // ---- Reading back ----

  /** Each of the 288 fixed codes decodes to its own symbol, whatever follows. */
  lemma DecodeHuff(n: nat, rest: seq<bool>)
    requires n <= 287
    ensures DecodeSymbol(HuffBits(n) + rest) == Some((n, rest))
  {
    hide Msb, MsbValue, Pow2, Shr;
    var (code, len) := HuffCode(n);
    CodePrefixes(code, len, rest);
  }

  /** The numbers the decoder reads off a code of 7 to 9 bits: its first 7 bits, its first 8, all of it. */
  lemma CodePrefixes(code: nat, len: nat, rest: seq<bool>)
    requires 7 <= len <= 9 && code < Pow2(len)
    ensures var bits := Msb(code, len) + rest;
      && |bits| >= len && bits[len..] == rest && MsbValue(bits[..len]) == code
      && (len == 8 ==> MsbValue(bits[..7]) == code / 2)
      && (len == 9 ==> MsbValue(bits[..7]) == code / 4 && MsbValue(bits[..8]) == code / 2)
  {
    hide Msb, MsbValue;
    var s := Msb(code, len);
    PrefixThenRest(s, rest, len);
    assert s[..len] == s;
    MsbRoundTrip(code, len);
    if len >= 8 {
      CodePrefix(code, 7, len, rest);
    }
    if len == 9 {
      CodePrefix(code, 8, 9, rest);
    }
  }

  lemma CodePrefix(code: nat, k: nat, len: nat, rest: seq<bool>)
    requires 7 <= k < len <= 9 && code < Pow2(len)
    ensures MsbValue((Msb(code, len) + rest)[..k]) == if len == k + 1 then code / 2 else code / 4
  {
    assert Pow2(7) == 128 && Pow2(8) == 256 && Pow2(9) == 512;
    hide Msb, MsbValue, Pow2;
    var s := Msb(code, len);
    PrefixThenRest(s, rest, k);
    MsbPrefix(code, k, len - k);
    ShrTwo(code);
    assert code / 2 / 2 == code / 4;
    MsbRoundTrip(Shr(code, len - k), k);
  }

  lemma ShrTwo(v: nat)
    ensures Shr(v, 0) == v && Shr(v, 1) == v / 2 && Shr(v, 2) == v / 2 / 2
  {
    assert Shr(v, 1) == Shr(v / 2, 0);
    assert Shr(v, 2) == Shr(v / 2, 1) == Shr(v / 2 / 2, 0);
  }

  lemma DecodeFields(length: nat, distance: nat, j: nat, d: nat, a: seq<bool>, b: seq<bool>, c: seq<bool>, rest: seq<bool>)
    requires TokenOk(Match(length, distance, j, d))
    requires a == Lsb(length - LengthBase(j), LengthExtra(j)) && b == Msb(d, 5)
    requires c == Lsb(distance - DistanceBase(d), DistanceExtra(d))
    ensures DecodeMatch(j, a + (b + (c + rest))) == Some((length, distance, rest))
  {
    hide LengthBase, LengthExtra, DistanceBase, DistanceExtra, Lsb, Msb, Pow2, LsbValue, MsbValue;
    FieldValues(length, distance, j, d);
    SplitFields(a, b, c, rest);
  }

  lemma FieldValues(length: nat, distance: nat, j: nat, d: nat)
    requires TokenOk(Match(length, distance, j, d))
    ensures j <= 28 && d <= 29 && LengthBase(j) <= length && DistanceBase(d) <= distance
    ensures LsbValue(Lsb(length - LengthBase(j), LengthExtra(j))) == length - LengthBase(j)
    ensures LsbValue(Lsb(distance - DistanceBase(d), DistanceExtra(d))) == distance - DistanceBase(d)
    ensures MsbValue(Msb(d, 5)) == d
  {
    hide LengthBase, LengthExtra, DistanceBase, DistanceExtra, Lsb, Msb, LsbValue, MsbValue;
    LsbRoundTrip(length - LengthBase(j), LengthExtra(j));
    LsbRoundTrip(distance - DistanceBase(d), DistanceExtra(d));
    assert Pow2(5) == 32;
    MsbRoundTrip(d, 5);
  }

  lemma DecodeMatchBits(t: Token, rest: seq<bool>)
    requires t.Match? && TokenOk(t)
    ensures DecodeSymbol(TokenBits(t) + rest).Some?
    ensures var (n, after) := DecodeSymbol(TokenBits(t) + rest).value;
            n == 257 + t.lengthCode && DecodeMatch(t.lengthCode, after) == Some((t.length, t.distance, rest))
  {
    hide HuffBits, HuffCode, Lsb, Msb, LengthBase, LengthExtra, DistanceBase, DistanceExtra, Pow2, DecodeSymbol, DecodeMatch;
    var j, d := t.lengthCode, t.distanceCode;
    var a, b, c := Lsb(t.length - LengthBase(j), LengthExtra(j)), Msb(d, 5), Lsb(t.distance - DistanceBase(d), DistanceExtra(d));
    assert TokenBits(t) == HuffBits(257 + j) + a + b + c;
    DecodeFields(t.length, t.distance, j, d, a, b, c, rest);
    Reassociate(HuffBits(257 + j), a, b, c, rest);
    DecodeHuff(257 + j, a + (b + (c + rest)));
  }

  /** Main result on the fixed block: the decoder reads any token list followed by end-of-block back
      as the bytes it expands to, and leaves exactly the rest of the stream. */
  lemma {:induction false} InflateTokens(ts: seq<Token>, out: seq<byte>, result: seq<byte>, rest: seq<bool>)
    requires TokensOk(ts) && Expands(ts, out, result)
    ensures InflateFixed(TokensBits(ts) + (HuffBits(256) + rest), out) == Some((result, rest))
    decreases |ts|
  {
    var tail := HuffBits(256) + rest;
    if ts == [] {
      assert TokensBits(ts) + tail == tail;
      DecodeHuff(256, rest);
    } else {
      var t, more := ts[0], TokensBits(ts[1..]) + tail;
      assert TokensBits(ts) + tail == TokenBits(t) + more;
      InflateTokens(ts[1..], Step(out, t), result, rest);
      match t
      case Literal(b) => DecodeHuff(b, more);
      case Match(_, _, _, _) => DecodeMatchBits(t, more);
    }
  }
}
