/** The built-in zlib compressor: LZ77 with a hash table of earlier positions and lazy matching, one
    fixed-Huffman block, and a fallback to stored blocks when that came out larger. */
module ZlibCompress {
  import opened Sequences
  import opened Options
  import opened Bits
  import opened Inflate
  import opened DeflateTokens
  import opened BitSinks
  import Adler32

  const ZHASH: nat := 16384

  // ---- The encoder's code tables, each with a sentinel ----

  function LengthC(): seq<nat> {
    [3, 4, 5, 6, 7, 8, 9, 10, 11, 13, 15, 17, 19, 23, 27, 31, 35, 43, 51, 59, 67, 83, 99, 115, 131, 163, 195, 227, 258, 259]
  }

  function LengthEb(): seq<nat> {
    [0, 0, 0, 0, 0, 0, 0, 0, 1, 1, 1, 1, 2, 2, 2, 2, 3, 3, 3, 3, 4, 4, 4, 4, 5, 5, 5, 5, 0]
  }

  function DistC(): seq<nat> {
    [1, 2, 3, 4, 5, 7, 9, 13, 17, 25, 33, 49, 65, 97, 129, 193, 257, 385, 513, 769, 1025, 1537, 2049, 3073, 4097, 6145,
     8193, 12289, 16385, 24577, 32768]
  }

  function DistEb(): seq<nat> {
    [0, 0, 0, 0, 1, 1, 2, 2, 3, 3, 4, 4, 5, 5, 6, 6, 7, 7, 8, 8, 9, 9, 10, 10, 11, 11, 12, 12, 13, 13]
  }

  /** The encoder's length table is the decoder's, and each range fits its extra bits. */
  lemma LengthTable(j: nat)
    requires j <= 28
    ensures |LengthC()| == 30 && |LengthEb()| == 29
    ensures LengthC()[j] == LengthBase(j) && LengthEb()[j] == LengthExtra(j) <= 5
    ensures LengthC()[j + 1] <= LengthC()[j] + Pow2(LengthExtra(j))
  {
    hide LengthBase, LengthExtra, Pow2, LengthC, LengthEb;
    if j <= 7 {
      ShortLengths(j);
    } else if j <= 15 {
      LowLengths(j);
    } else {
      HighLengths(j);
    }
  }

  /** The encoder's row for code j agrees with the decoder's. */
  predicate LengthRow(j: nat) {
    && j <= 28 && |LengthC()| == 30 && |LengthEb()| == 29
    && LengthC()[j] == LengthBase(j) && LengthEb()[j] == LengthExtra(j) <= 5
    && LengthC()[j + 1] <= LengthC()[j] + Pow2(LengthExtra(j))
  }

  lemma ShortLengths(j: nat)
    requires j <= 7
    ensures LengthRow(j)
  {
    hide Pow2, LengthBase;
    SmallPowers();
    LengthBases();
  }

  lemma LowLengths(j: nat)
    requires 8 <= j <= 15
    ensures LengthRow(j)
  {
    hide Pow2, LengthBase;
    SmallPowers();
    LengthBases();
  }

  lemma HighLengths(j: nat)
    requires 16 <= j <= 28
    ensures LengthRow(j)
  {
    hide Pow2, LengthBase;
    SmallPowers();
    LengthBases();
  }

  lemma SmallPowers()
    ensures Pow2(0) == 1 && Pow2(1) == 2 && Pow2(2) == 4 && Pow2(3) == 8 && Pow2(4) == 16 && Pow2(5) == 32
    ensures Pow2(6) == 64 && Pow2(7) == 128 && Pow2(8) == 256 && Pow2(9) == 512 && Pow2(10) == 1024
    ensures Pow2(11) == 2048 && Pow2(12) == 4096 && Pow2(13) == 8192
  {
  }

  lemma LengthBases()
    ensures LengthBase(0) == 3 && LengthBase(1) == 4 && LengthBase(2) == 5 && LengthBase(3) == 6
    ensures LengthBase(4) == 7 && LengthBase(5) == 8 && LengthBase(6) == 9 && LengthBase(7) == 10
    ensures LengthBase(8) == 11 && LengthBase(9) == 13 && LengthBase(10) == 15 && LengthBase(11) == 17
    ensures LengthBase(12) == 19 && LengthBase(13) == 23 && LengthBase(14) == 27 && LengthBase(15) == 31
    ensures LengthBase(16) == 35 && LengthBase(17) == 43 && LengthBase(18) == 51 && LengthBase(19) == 59
    ensures LengthBase(20) == 67 && LengthBase(21) == 83 && LengthBase(22) == 99 && LengthBase(23) == 115
    ensures LengthBase(24) == 131 && LengthBase(25) == 163 && LengthBase(26) == 195 && LengthBase(27) == 227
    ensures LengthBase(28) == 258
  {
  }

  /** The extra bits the standard lists for each length and distance code. */
  lemma ExtraBits(j: nat, d: nat)
    requires j <= 28 && d <= 29
    ensures LengthExtra(j) == [0, 0, 0, 0, 0, 0, 0, 0, 1, 1, 1, 1, 2, 2, 2, 2, 3, 3, 3, 3, 4, 4, 4, 4, 5, 5, 5, 5, 0][j]
    ensures DistanceExtra(d) == [0, 0, 0, 0, 1, 1, 2, 2, 3, 3, 4, 4, 5, 5, 6, 6, 7, 7, 8, 8, 9, 9, 10, 10, 11, 11, 12, 12, 13, 13][d]
  {
  }

  lemma DistanceTable(d: nat)
    requires d <= 29
    ensures |DistC()| == 31 && |DistEb()| == 30
    ensures DistC()[d] == DistanceBase(d) && DistEb()[d] == DistanceExtra(d) <= 13
    ensures DistC()[d + 1] <= DistC()[d] + Pow2(DistanceExtra(d))
  {
    hide DistanceBase, DistanceExtra, Pow2, DistC, DistEb;
    if d <= 9 {
      ShortDistances(d);
    } else if d <= 19 {
      MiddleDistances(d);
    } else {
      LongDistances(d);
    }
  }

  predicate DistanceRow(d: nat) {
    && d <= 29 && |DistC()| == 31 && |DistEb()| == 30
    && DistC()[d] == DistanceBase(d) && DistEb()[d] == DistanceExtra(d) <= 13
    && DistC()[d + 1] <= DistC()[d] + Pow2(DistanceExtra(d))
  }

  lemma ShortDistances(d: nat)
    requires d <= 9
    ensures DistanceRow(d)
  {
    hide Pow2, DistanceBase;
    SmallPowers();
    DistanceBases();
  }

  lemma MiddleDistances(d: nat)
    requires 10 <= d <= 19
    ensures DistanceRow(d)
  {
    hide Pow2, DistanceBase;
    SmallPowers();
    DistanceBases();
  }

  lemma LongDistances(d: nat)
    requires 20 <= d <= 29
    ensures DistanceRow(d)
  {
    hide Pow2, DistanceBase;
    SmallPowers();
    DistanceBases();
  }

  lemma DistanceBases()
    ensures DistanceBase(0) == 1 && DistanceBase(1) == 2 && DistanceBase(2) == 3 && DistanceBase(3) == 4
    ensures DistanceBase(4) == 5 && DistanceBase(5) == 7 && DistanceBase(6) == 9 && DistanceBase(7) == 13
    ensures DistanceBase(8) == 17 && DistanceBase(9) == 25 && DistanceBase(10) == 33 && DistanceBase(11) == 49
    ensures DistanceBase(12) == 65 && DistanceBase(13) == 97 && DistanceBase(14) == 129 && DistanceBase(15) == 193
    ensures DistanceBase(16) == 257 && DistanceBase(17) == 385 && DistanceBase(18) == 513 && DistanceBase(19) == 769
    ensures DistanceBase(20) == 1025 && DistanceBase(21) == 1537 && DistanceBase(22) == 2049 && DistanceBase(23) == 3073
    ensures DistanceBase(24) == 4097 && DistanceBase(25) == 6145 && DistanceBase(26) == 8193 && DistanceBase(27) == 12289
    ensures DistanceBase(28) == 16385 && DistanceBase(29) == 24577
  {
    SmallPowers();
    hide Pow2;
  }

  // ---- Matching ----

  /** The hash of three bytes, in 32-bit arithmetic, reduced to a table index. */
  function Zhash(a: byte, b: byte, c: byte): (h: nat)
    ensures h < ZHASH
  {
    var h0 := (a as bv32) + ((b as bv32) << 8) + ((c as bv32) << 16);
    var h1 := h0 ^ (h0 << 3);
    var h2 := h1 + (h1 >> 5);
    var h3 := h2 ^ (h2 << 4);
    var h4 := h3 + (h3 >> 17);
    var h5 := h4 ^ (h4 << 25);
    var h6 := h5 + (h5 >> 6);
    LowBits(h6)
  }

  function LowBits(x: bv32): (h: nat)
    ensures h < ZHASH
  {
    ((x & 0x3FFF) as bv14) as nat
  }

  /** The stretches at p and i agree for `length` bytes. */
  ghost predicate Agree(data: seq<byte>, p: nat, i: nat, length: nat) {
    p < i && i + length <= |data| && forall k :: i <= k < i + length ==> data[k - (i - p)] == data[k]
  }

  /** A match the encoder may emit at i. */
  ghost predicate UsableMatch(data: seq<byte>, p: nat, i: nat, length: nat) {
    3 <= length <= 258 && p < i && i - p <= 32767 && Agree(data, p, i, length)
  }

  /** A position of a hash list the encoder looks at from i: inside the 32K window. */
  ghost predicate InWindow(p: nat, i: nat) { p < i && i - p <= 32767 }

  /** No candidate agrees with i for `length` bytes. */
  ghost predicate NoneAgrees(data: seq<byte>, i: nat, list: seq<nat>, length: nat) {
    forall j :: 0 <= j < |list| && InWindow(list[j], i) ==> !Agree(data, list[j], i, length)
  }

  /** The longest match (up to 258 bytes) among the candidates of a list, the latest one on ties; none
      if nothing agrees for three bytes. */
  ghost predicate IsLongest(data: seq<byte>, i: nat, list: seq<nat>, best: nat, bestloc: Option<nat>) {
    match bestloc
    case None => best == 3 && NoneAgrees(data, i, list, 3)
    case Some(p) =>
      && UsableMatch(data, p, i, best)
      && (best < 258 ==> NoneAgrees(data, i, list, best + 1))
      && exists j :: 0 <= j < |list| && list[j] == p && NoneAgrees(data, i, list[j + 1..], best)
  }

  /** Something in the list agrees with i for more than `best` bytes. */
  ghost predicate Improves(data: seq<byte>, i: nat, list: seq<nat>, best: nat) {
    best < 258 && !NoneAgrees(data, i, list, best + 1)
  }

  /** A hash list holds positions before i only. */
  ghost predicate Earlier(list: seq<nat>, i: nat) {
    forall j :: 0 <= j < |list| ==> list[j] < i
  }

  /** Length of the common prefix of two stretches, at most `limit` and 258. */
  method CountMatch(data: seq<byte>, p: nat, i: nat, limit: nat) returns (n: nat)
    requires p < i && i + limit == |data|
    ensures n <= limit && n <= 258 && Agree(data, p, i, n)
    ensures n < limit && n < 258 ==> data[p + n] != data[i + n]
  {
    n := 0;
    while n < limit && n < 258
      invariant n <= limit && n <= 258 && Agree(data, p, i, n)
    {
      if data[p + n] != data[i + n] {
        break;
      }
      n := n + 1;
    }
  }

  /** The longest match among the candidates inside the window; the latest one on ties. */
  method FindMatch(data: seq<byte>, i: nat, hlist: seq<nat>) returns (best: nat, bestloc: Option<nat>)
    requires i + 3 < |data| && Earlier(hlist, i)
    ensures IsLongest(data, i, hlist, best, bestloc)
    ensures forall j :: 0 <= j < |hlist| && i - hlist[j] <= 32767 && best < 258 ==>
              !Agree(data, hlist[j], i, if bestloc.Some? then best + 1 else 3)
  {
    best, bestloc := 3, None;
    assert hlist[..0] == [];
    for j := 0 to |hlist|
      invariant IsLongest(data, i, hlist[..j], best, bestloc)
    {
      assert hlist[..j + 1] == hlist[..j] + [hlist[j]];
      if hlist[j] > i - 32768 {
        var d := CountMatch(data, hlist[j], i, |data| - i);
        NextCandidate(data, i, hlist[..j], best, bestloc, hlist[j], d);
        if d >= best {
          best, bestloc := d, Some(hlist[j]);
        }
      } else {
        OutsideWindow(data, i, hlist[..j], best, bestloc, hlist[j]);
      }
    }
    assert hlist[..|hlist|] == hlist;
  }

  lemma Shorter(data: seq<byte>, i: nat, list: seq<nat>, length: nat, longer: nat)
    requires NoneAgrees(data, i, list, length) && length <= longer
    ensures NoneAgrees(data, i, list, longer)
  {
  }

  lemma NoneAgreesAppend(data: seq<byte>, i: nat, list: seq<nat>, p: nat, length: nat)
    ensures NoneAgrees(data, i, list + [p], length) <==> NoneAgrees(data, i, list, length) && !(InWindow(p, i) && Agree(data, p, i, length))
  {
    assert forall j :: 0 <= j < |list| ==> (list + [p])[j] == list[j];
    assert (list + [p])[|list|] == p;
    hide Agree;
  }

  /** A candidate that agrees with i for exactly d bytes takes over unless it is shorter. */
  lemma NextCandidate(data: seq<byte>, i: nat, list: seq<nat>, best: nat, bestloc: Option<nat>, p: nat, d: nat)
    requires IsLongest(data, i, list, best, bestloc) && InWindow(p, i) && i <= |data|
    requires i + d <= |data| && d <= 258 && Agree(data, p, i, d) && (i + d < |data| && d < 258 ==> data[p + d] != data[i + d])
    ensures IsLongest(data, i, list + [p], if d >= best then d else best, if d >= best then Some(p) else bestloc)
  {
    BestSoFar(data, i, list, best, bestloc);
    if d < 258 {
      ExactlyAgrees(data, p, i, d, if d < best then best else d + 1);
    }
    hide Agree, UsableMatch;
    if d >= best {
      TakesOver(data, i, list, best, bestloc, p, d);
    } else {
      LaterCandidate(data, i, list, best, bestloc, p);
    }
  }

  lemma ExactlyAgrees(data: seq<byte>, p: nat, i: nat, d: nat, n: nat)
    requires p < i && i + d <= |data| && (i + d < |data| ==> data[p + d] != data[i + d]) && d < n
    ensures !Agree(data, p, i, n)
  {
    assert i + d < |data| ==> p + d == i + d - (i - p);
  }

  lemma BestSoFar(data: seq<byte>, i: nat, list: seq<nat>, best: nat, bestloc: Option<nat>)
    requires IsLongest(data, i, list, best, bestloc)
    ensures 3 <= best <= 258 && (best < 258 ==> NoneAgrees(data, i, list, best + 1))
  {
    if bestloc.None? {
      Shorter(data, i, list, 3, 4);
    }
  }

  lemma TakesOver(data: seq<byte>, i: nat, list: seq<nat>, best: nat, bestloc: Option<nat>, p: nat, d: nat)
    requires IsLongest(data, i, list, best, bestloc) && InWindow(p, i) && best <= d <= 258
    requires Agree(data, p, i, d) && (d < 258 ==> !Agree(data, p, i, d + 1))
    ensures IsLongest(data, i, list + [p], d, Some(p))
  {
    BestSoFar(data, i, list, best, bestloc);
    hide Agree, IsLongest;
    if d < 258 {
      Shorter(data, i, list, best + 1, d + 1);
      NoneAgreesAppend(data, i, list, p, d + 1);
    }
    LatestIsLongest(data, i, list, p, d);
  }

  lemma LatestIsLongest(data: seq<byte>, i: nat, list: seq<nat>, p: nat, d: nat)
    requires InWindow(p, i) && 3 <= d <= 258 && Agree(data, p, i, d) && (d < 258 ==> NoneAgrees(data, i, list + [p], d + 1))
    ensures IsLongest(data, i, list + [p], d, Some(p))
  {
    assert (list + [p])[|list|] == p && (list + [p])[|list| + 1..] == [];
    hide Agree;
  }

  lemma LaterCandidate(data: seq<byte>, i: nat, list: seq<nat>, best: nat, bestloc: Option<nat>, p: nat)
    requires IsLongest(data, i, list, best, bestloc) && !(InWindow(p, i) && Agree(data, p, i, best))
    ensures IsLongest(data, i, list + [p], best, bestloc)
  {
    NoneAgreesAppend(data, i, list, p, 3);
    if bestloc.Some? {
      NoneAgreesAppend(data, i, list, p, best + 1);
      var j :| 0 <= j < |list| && list[j] == bestloc.value && NoneAgrees(data, i, list[j + 1..], best);
      assert (list + [p])[j] == list[j] && (list + [p])[j + 1..] == list[j + 1..] + [p];
      NoneAgreesAppend(data, i, list[j + 1..], p, best);
    }
  }

  lemma OutsideWindow(data: seq<byte>, i: nat, list: seq<nat>, best: nat, bestloc: Option<nat>, p: nat)
    requires IsLongest(data, i, list, best, bestloc) && !InWindow(p, i)
    ensures IsLongest(data, i, list + [p], best, bestloc)
  {
    LaterCandidate(data, i, list, best, bestloc, p);
  }

  /** Lazy matching: is there something longer one byte further on? */
  method BetterAtNext(data: seq<byte>, i: nat, hlist: seq<nat>, best: nat) returns (better: bool)
    requires i + 3 < |data| && Earlier(hlist, i + 1)
    ensures better <==> Improves(data, i + 1, hlist, best)
    ensures better <==> best < 258 && exists j :: 0 <= j < |hlist| && i + 1 - hlist[j] <= 32767 && Agree(data, hlist[j], i + 1, best + 1)
  {
    better := false;
    for j := 0 to |hlist|
      invariant best < 258 ==> forall k :: 0 <= k < j && InWindow(hlist[k], i + 1) ==> !Agree(data, hlist[k], i + 1, best + 1)
    {
      if hlist[j] > i - 32767 {
        var e := CountMatch(data, hlist[j], i + 1, |data| - i - 1);
        if e > best {
          assert Agree(data, hlist[j], i + 1, best + 1) && InWindow(hlist[j], i + 1);
          return true;
        }
        assert e < 258 ==> !Agree(data, hlist[j], i + 1, e + 1);
        assert best < 258 ==> !Agree(data, hlist[j], i + 1, best + 1);
      }
    }
  }

  // ---- Emission ----

  method EmitMatch(sink: BitSink, best: nat, d: nat) returns (ghost t: Token)
    requires sink.Valid() && 3 <= best <= 258 && 1 <= d <= 32767
    modifies sink
    ensures sink.Valid() && t.Match? && t.length == best && t.distance == d && TokenOk(t)
    ensures sink.Stream() == old(sink.Stream()) + TokenBits(t)
  {
    hide *;
    var j := LengthCode(best);
    LengthTable(j);
    var k := DistanceCode(d);
    DistanceTable(k);
    t := Match(best, d, j, k);
    MatchTokenBits(sink.Stream(), best, d, j, k);
    sink.Huff(j + 257);
    if LengthEb()[j] != 0 {
      sink.Add(best - LengthC()[j], LengthEb()[j]);
    } else {
      NoBits(sink.Stream(), best - LengthC()[j]);
    }
    sink.HuffAdd(k, 5);
    if DistEb()[k] != 0 {
      sink.Add(d - DistC()[k], DistEb()[k]);
    } else {
      NoBits(sink.Stream(), d - DistC()[k]);
    }
  }

  /** A field of no bits may be skipped. */
  lemma NoBits(s: seq<bool>, v: nat)
    ensures s + Lsb(v, 0) == s
  {
  }

  /** The fields of a match one after the other. */
  lemma MatchTokenBits(s: seq<bool>, length: nat, distance: nat, j: nat, k: nat)
    requires j <= 28 && LengthBase(j) <= length < LengthBase(j) + Pow2(LengthExtra(j))
    requires k <= 29 && DistanceBase(k) <= distance < DistanceBase(k) + Pow2(DistanceExtra(k))
    ensures TokenOk(Match(length, distance, j, k))
    ensures s + TokenBits(Match(length, distance, j, k)) ==
            s + HuffBits(257 + j) + Lsb(length - LengthBase(j), LengthExtra(j)) + Msb(k, 5)
              + Lsb(distance - DistanceBase(k), DistanceExtra(k))
  {
    hide HuffBits, HuffCode, Lsb, Msb, LengthBase, LengthExtra, DistanceBase, DistanceExtra, Pow2;
    var a, b, c, d := HuffBits(257 + j), Lsb(length - LengthBase(j), LengthExtra(j)), Msb(k, 5), Lsb(distance - DistanceBase(k), DistanceExtra(k));
    assert TokenBits(Match(length, distance, j, k)) == a + b + c + d;
    assert s + (a + b + c + d) == s + a + b + c + d;
  }

  lemma Sentinels()
    ensures |LengthC()| == 30 && LengthC()[29] == 259
    ensures |DistC()| == 31 && DistC()[30] == 32768
  {
  }

  /** The search loop of the source: first code whose successor is already too long. */
  method LengthCode(best: nat) returns (j: nat)
    requires 3 <= best <= 258
    ensures j <= 28 && LengthBase(j) <= best < LengthBase(j) + Pow2(LengthExtra(j))
  {
    j := 0;
    LengthTable(0);
    assert LengthBase(0) == 3;
    Sentinels();
    hide *;
    while best > LengthC()[j + 1] - 1
      invariant j <= 28 && LengthC()[j] <= best
      decreases 28 - j
    {
      LengthTable(j + 1);
      j := j + 1;
    }
    LengthTable(j);
  }

  method DistanceCode(d: nat) returns (j: nat)
    requires 1 <= d <= 32767
    ensures j <= 29 && DistanceBase(j) <= d < DistanceBase(j) + Pow2(DistanceExtra(j))
  {
    j := 0;
    DistanceTable(0);
    assert DistanceBase(0) == 1;
    Sentinels();
    hide *;
    while d > DistC()[j + 1] - 1
      invariant j <= 29 && DistC()[j] <= d
      decreases 29 - j
    {
      DistanceTable(j + 1);
      j := j + 1;
    }
    DistanceTable(j);
  }

  // ---- The fixed-Huffman block ----

  /** `ts` written after `before` stands for the first i bytes. */
  ghost predicate Written(ts: seq<Token>, data: seq<byte>, i: nat, before: seq<bool>, stream: seq<bool>) {
    i <= |data| && TokensOk(ts) && Expands(ts, [], data[..i]) && stream == before + TokensBits(ts)
  }

  lemma WriteToken(ts: seq<Token>, data: seq<byte>, i: nat, i': nat, t: Token, before: seq<bool>, stream: seq<bool>)
    requires Written(ts, data, i, before, stream) && TokenOk(t) && i <= i' <= |data|
    requires t.Match? ==> 0 < t.distance <= i
    requires Step(data[..i], t) == data[..i']
    ensures Written(ts + [t], data, i', before, stream + TokenBits(t))
  {
    hide TokenBits, TokensBits, TokenOk, Step;
    TokensBitsAppend(ts, t);
    ExpandsAppend(ts, [], data[..i], t);
    Associative(before, TokensBits(ts), TokenBits(t));
  }

  lemma WriteLiteral(ts: seq<Token>, data: seq<byte>, i: nat, before: seq<bool>, stream: seq<bool>)
    requires Written(ts, data, i, before, stream) && i < |data|
    ensures Written(ts + [Literal(data[i])], data, i + 1, before, stream + HuffBits(data[i]))
  {
    assert data[..i] + [data[i]] == data[..i + 1];
    WriteToken(ts, data, i, i + 1, Literal(data[i]), before, stream);
  }

  lemma WriteMatch(ts: seq<Token>, data: seq<byte>, i: nat, t: Token, p: nat, before: seq<bool>, stream: seq<bool>)
    requires Written(ts, data, i, before, stream) && t.Match? && TokenOk(t)
    requires UsableMatch(data, p, i, t.length) && t.distance == i - p
    ensures i + t.length <= |data|
    ensures Written(ts + [t], data, i + t.length, before, stream + TokenBits(t))
  {
    hide TokenOk;
    CopyReproduces(data, i, t.length, i - p);
    WriteToken(ts, data, i, i + t.length, t, before, stream);
  }

  /** A hash list after position i has been recorded in it. */
  function Recorded(list: seq<nat>, i: nat, quality: nat): seq<nat> {
    (if |list| == 2 * quality then list[quality..] else list) + [i]
  }

  lemma RecordedCases(list: seq<nat>, i: nat, quality: nat)
    ensures Recorded(list, i, quality) == (if |list| == 2 * quality then list[quality..] else list) + [i]
  {
  }

  lemma FoundIsUsable(data: seq<byte>, i: nat, list: seq<nat>, best: nat, bestloc: Option<nat>)
    requires IsLongest(data, i, list, best, bestloc) && bestloc.Some?
    ensures UsableMatch(data, bestloc.value, i, best)
    ensures 3 <= best <= 258 && 1 <= i - bestloc.value <= 32767
  {
  }

  /** Looks position i up in the hash table, records it there, and decides between a match and a
      literal. A list that has grown to twice the quality loses its older half. */
  method ChooseMatch(data: seq<byte>, i: nat, table: array<seq<nat>>, quality: nat) returns (best: nat, bestloc: Option<nat>)
    requires i + 3 < |data| && quality >= 5 && table.Length == ZHASH
    requires forall h :: 0 <= h < ZHASH ==> Earlier(table[h], i)
    modifies table
    ensures forall h :: 0 <= h < ZHASH ==> Earlier(table[h], i + 1)
    ensures var h, next := Zhash(data[i], data[i + 1], data[i + 2]), Zhash(data[i + 1], data[i + 2], data[i + 3]);
      && table[..] == old(table[..])[h := Recorded(old(table[h]), i, quality)]
      && exists found :: IsLongest(data, i, old(table[h]), best, found)
           && bestloc == if found.Some? && Improves(data, i + 1, table[next], best) then None else found
  {
    hide *;
    var h := Zhash(data[i], data[i + 1], data[i + 2]);
    best, bestloc := FindMatch(data, i, table[h]);
    ghost var found := bestloc;
    EarlierLists(table[..], h, i, quality);
    RecordedCases(table[h], i, quality);
    var list := table[h];
    if |list| == 2 * quality {
      list := list[quality..];
    }
    table[h] := list + [i];
    if bestloc.Some? {
      var next := Zhash(data[i + 1], data[i + 2], data[i + 3]);
      var better := BetterAtNext(data, i, table[next], best);
      if better {
        bestloc := None;
      }
    }
  }

  /** Recording i in one list keeps every list to earlier positions. */
  lemma EarlierLists(lists: seq<seq<nat>>, h: nat, i: nat, quality: nat)
    requires h < |lists| && forall k :: 0 <= k < |lists| ==> Earlier(lists[k], i)
    ensures forall k :: 0 <= k < |lists| ==> Earlier(lists[k], i + 1)
    ensures Earlier(lists[h] + [i], i + 1)
    ensures |lists[h]| >= quality ==> Earlier(lists[h][quality..] + [i], i + 1)
  {
  }

  /** One round of the main loop: a match, or one literal. */
  method DeflateOne(data: seq<byte>, i: nat, table: array<seq<nat>>, quality: nat, sink: BitSink, ghost ts0: seq<Token>, ghost before: seq<bool>)
    returns (next: nat, ghost ts: seq<Token>)
    requires sink.Valid() && i + 3 < |data| && quality >= 5 && table.Length == ZHASH
    requires Written(ts0, data, i, before, sink.Stream())
    requires forall h :: 0 <= h < ZHASH ==> Earlier(table[h], i)
    modifies table, sink
    ensures sink.Valid() && i < next <= |data| && Written(ts, data, next, before, sink.Stream())
    ensures forall h :: 0 <= h < ZHASH ==> Earlier(table[h], next)
  {
    hide *;
    var best, bestloc := ChooseMatch(data, i, table, quality);
    ghost var s := sink.Stream();
    if bestloc.Some? {
      FoundIsUsable(data, i, old(table[Zhash(data[i], data[i + 1], data[i + 2])]), best, bestloc);
      ghost var t := EmitMatch(sink, best, i - bestloc.value);
      WriteMatch(ts0, data, i, t, bestloc.value, before, s);
      next, ts := i + best, ts0 + [t];
    } else {
      WriteLiteral(ts0, data, i, before, s);
      sink.HuffB(data[i]);
      next, ts := i + 1, ts0 + [Literal(data[i])];
    }
    StillEarlier(table[..], i + 1, next);
  }

  lemma StillEarlier(lists: seq<seq<nat>>, i: nat, next: nat)
    requires i <= next && forall h :: 0 <= h < |lists| ==> Earlier(lists[h], i)
    ensures forall h :: 0 <= h < |lists| ==> Earlier(lists[h], next)
  {
  }

  /** The main loop: every byte of the input ends up in exactly one token. */
  method DeflateFixed(data: seq<byte>, quality: nat, sink: BitSink) returns (ghost ts: seq<Token>)
    requires sink.Valid() && quality >= 5
    modifies sink
    ensures sink.Valid() && TokensOk(ts) && Expands(ts, [], data)
    ensures sink.Stream() == old(sink.Stream()) + TokensBits(ts) + HuffBits(256)
  {
    ghost var before := sink.Stream();
    var table := new seq<nat>[ZHASH](_ => []);
    var i: nat := 0;
    ts := [];
    WrittenNothing(data, before);
    assert Earlier([], 0);
    hide *;
    while i < |data| - 3
      invariant sink.Valid() && i <= |data| && Written(ts, data, i, before, sink.Stream())
      invariant forall h :: 0 <= h < ZHASH ==> Earlier(table[h], i)
      decreases |data| - i
    {
      i, ts := DeflateOne(data, i, table, quality, sink, ts, before);
    }
    ts := WriteRest(data, i, sink, ts, before);
    WrittenAll(ts, data, before, sink.Stream());
    sink.Huff(256);
  }

  /** The final bytes, too few to hash, as literals. */
  method WriteRest(data: seq<byte>, start: nat, sink: BitSink, ghost ts0: seq<Token>, ghost before: seq<bool>) returns (ghost ts: seq<Token>)
    requires sink.Valid() && start <= |data| && Written(ts0, data, start, before, sink.Stream())
    modifies sink
    ensures sink.Valid() && Written(ts, data, |data|, before, sink.Stream())
  {
    hide *;
    ts := ts0;
    for i := start to |data|
      invariant sink.Valid() && Written(ts, data, i, before, sink.Stream())
    {
      WriteLiteral(ts, data, i, before, sink.Stream());
      sink.HuffB(data[i]);
      ts := ts + [Literal(data[i])];
    }
  }

  lemma WrittenNothing(data: seq<byte>, before: seq<bool>)
    ensures Written([], data, 0, before, before)
  {
    assert before + TokensBits([]) == before;
  }

  lemma WrittenAll(ts: seq<Token>, data: seq<byte>, before: seq<bool>, stream: seq<bool>)
    requires Written(ts, data, |data|, before, stream)
    ensures TokensOk(ts) && Expands(ts, [], data) && stream == before + TokensBits(ts)
  {
    assert data[..|data|] == data;
  }
}
