/** PNG row filtering as the image writer does it, proved against the decoding side of section 6 of
    RFC 2083, and the filtered image carried through the zlib compressor. */
module PngFilter {
  import opened Sequences
  import opened Options
  import opened Bits
  import opened Layout
  import Inflate
  import Zlib

  // ---- Section 6 of RFC 2083 ----

  function Distance(x: int, y: int): nat { if x < y then y - x else x - y }

  /** The neighbour nearest to left + above - upperLeft; ties go to left, then above. */
  function Paeth(a: byte, b: byte, c: byte): (r: byte)
    ensures r == a || r == b || r == c
    ensures var p := a + b - c;
      && Distance(p, r) <= Distance(p, a) && Distance(p, r) <= Distance(p, b) && Distance(p, r) <= Distance(p, c)
      && (Distance(p, r) == Distance(p, a) ==> r == a) && (Distance(p, r) == Distance(p, b) && r != a ==> r == b)
  {
    var p := a + b - c;
    var pa, pb, pc := Distance(p, a), Distance(p, b), Distance(p, c);
    if pa <= pb && pa <= pc then a else if pb <= pc then b else c
  }

  /** What filter type `ft` predicts from the bytes to the left, above and above left. */
  function Predict(ft: nat, a: byte, b: byte, c: byte): byte {
    match ft
    case 1 => a
    case 2 => b
    case 3 => Average(a, b)
    case 4 => Paeth(a, b, c)
    case _ => 0
  }

  /** The corresponding byte of the pixel to the left, zero left of the image. */
  function Left(s: seq<byte>, n: nat, k: nat): byte
    requires k <= |s| && n > 0
  {
    if k < n then 0 else s[k - n]
  }

  /** Sum and difference in eight bits. The source's signed characters are taken as unsigned here. */
  function Plus(a: int, b: int): byte { (a + b) % 256 }

  function Minus(a: int, b: int): byte { (a - b) % 256 }

  /** The mean of two bytes, rounded down. */
  function Average(a: int, b: int): (r: int)
    ensures 2 * r <= a + b <= 2 * r + 1
  {
    (a + b) / 2
  }

  /** Undoes one filter, byte after byte: each prediction uses bytes already reconstructed. */
  function Reconstruct(ft: nat, n: nat, prior: seq<byte>, line: seq<byte>): (row: seq<byte>)
    requires |prior| == |line| && n > 0
    ensures |row| == |line|
  {
    if line == [] then []
    else
      var k := |line| - 1;
      var before := Reconstruct(ft, n, prior[..k], line[..k]);
      before + [Plus(line[k], Predict(ft, Left(before, n, k), prior[k], Left(prior, n, k)))]
  }

  /** Undoes a filtered image of rows of m bytes, each behind its filter type. */
  function Unfilter(data: seq<byte>, m: nat, n: nat, prior: seq<byte>): (r: Option<seq<seq<byte>>>)
    requires |prior| == m && n > 0
    decreases |data|
  {
    if data == [] then Some([])
    else if |data| < m + 1 || data[0] > 4 then None
    else
      var row := Reconstruct(data[0], n, prior, data[1..m + 1]);
      match Unfilter(data[m + 1..], m, n, row)
      case None => None
      case Some(rows) => Some([row] + rows)
  }

  function Zeros(m: nat): (z: seq<byte>)
    ensures |z| == m && forall k :: 0 <= k < m ==> z[k] == 0
  {
    seq(m, _ => 0)
  }

  // ---- Filtering is undone ----

  function Residual(ft: nat, n: nat, prior: seq<byte>, row: seq<byte>, k: nat): byte
    requires k < |row| == |prior| && n > 0
  {
    Minus(row[k], Predict(ft, Left(row, n, k), prior[k], Left(prior, n, k)))
  }

  ghost predicate IsFiltered(ft: nat, n: nat, prior: seq<byte>, row: seq<byte>, line: seq<byte>)
    requires n > 0
  {
    |line| == |row| == |prior| && forall k :: 0 <= k < |row| ==> line[k] == Residual(ft, n, prior, row, k)
  }

  /** What the five filter types write for a byte, given the bytes to its left, above and above left:
      itself, or its difference in eight bits from the left byte, the one above, their mean rounded
      down, or the one that Paeth picks. */
  ghost predicate WrittenFor(ft: nat, raw: byte, a: byte, b: byte, c: byte, written: byte) {
    && (ft == 0 ==> written == raw)
    && (ft == 1 ==> written as int == (raw as int - a as int) % 256)
    && (ft == 2 ==> written as int == (raw as int - b as int) % 256)
    && (ft == 3 ==> written as int == (raw as int - (a as int + b as int) / 2) % 256)
    && (ft == 4 ==> written as int == (raw as int - Paeth(a, b, c) as int) % 256)
  }

  /** Byte k of a line is written by the rules of section 6 of RFC 2083. */
  ghost predicate WrittenAt(ft: nat, n: nat, prior: seq<byte>, row: seq<byte>, line: seq<byte>, k: nat)
    requires k < |line| == |row| == |prior|
  {
    WrittenFor(ft, row[k], if k < n then 0 else row[k - n], prior[k], if k < n then 0 else prior[k - n], line[k])
  }

  ghost predicate FollowsRules(ft: nat, n: nat, prior: seq<byte>, row: seq<byte>, line: seq<byte>) {
    |line| == |row| == |prior| && forall k :: 0 <= k < |row| ==> WrittenAt(ft, n, prior, row, line, k)
  }

  /** What the decoder undoes is filtering by those rules. */
  lemma FilteredByRules(ft: nat, n: nat, prior: seq<byte>, row: seq<byte>, line: seq<byte>)
    requires n > 0 && IsFiltered(ft, n, prior, row, line)
    ensures FollowsRules(ft, n, prior, row, line)
  {
    forall k | 0 <= k < |row| ensures WrittenAt(ft, n, prior, row, line, k) {
      ResidualByRules(ft, n, prior, row, k);
      assert line[k] == Residual(ft, n, prior, row, k);
    }
    hide Residual, WrittenAt;
  }

  lemma ResidualByRules(ft: nat, n: nat, prior: seq<byte>, row: seq<byte>, k: nat)
    requires n > 0 && k < |row| == |prior|
    ensures WrittenFor(ft, row[k], if k < n then 0 else row[k - n], prior[k], if k < n then 0 else prior[k - n], Residual(ft, n, prior, row, k))
  {
    hide Paeth;
  }

  lemma AddBack(raw: byte, p: byte)
    ensures Plus(Minus(raw, p), p) == raw
  {
  }

  /** Whatever the prediction is, adding it back modulo 256 restores the row. */
  lemma {:induction false} ReconstructUndoes(ft: nat, n: nat, prior: seq<byte>, row: seq<byte>, line: seq<byte>)
    requires n > 0 && IsFiltered(ft, n, prior, row, line)
    ensures Reconstruct(ft, n, prior, line) == row
    decreases |row|
  {
    if row != [] {
      var k := |row| - 1;
      forall i | 0 <= i < k ensures Residual(ft, n, prior[..k], row[..k], i) == Residual(ft, n, prior, row, i) {
      }
      hide Predict;
      ReconstructUndoes(ft, n, prior[..k], row[..k], line[..k]);
      AddBack(row[k], Predict(ft, Left(row, n, k), prior[k], Left(prior, n, k)));
      assert row == row[..k] + [row[k]];
    }
  }

  lemma UnfilterFirst(data: seq<byte>, first: seq<byte>, more: seq<byte>, m: nat, n: nat, prior: seq<byte>)
    requires data == first + more && |first| == m + 1 && first[0] <= 4 && |prior| == m && n > 0
    ensures var row := Reconstruct(first[0], n, prior, first[1..]);
      Unfilter(data, m, n, prior) == match Unfilter(more, m, n, row) case None => None case Some(rows) => Some([row] + rows)
  {
    hide Reconstruct;
    assert data[1..m + 1] == first[1..] && data[m + 1..] == more;
  }

  lemma {:induction false} UnfilterAppend(data: seq<byte>, m: nat, n: nat, prior: seq<byte>, rows: seq<seq<byte>>, last: seq<byte>)
    requires |prior| == m && |last| == m + 1 && n > 0 && last[0] <= 4
    requires forall r :: 0 <= r < |rows| ==> |rows[r]| == m
    requires Unfilter(data, m, n, prior) == Some(rows)
    ensures Unfilter(data + last, m, n, prior)
         == Some(rows + [Reconstruct(last[0], n, if rows == [] then prior else rows[|rows| - 1], last[1..])])
    decreases |data|
  {
    hide Reconstruct;
    if data == [] {
      UnfilterFirst(data + last, last, [], m, n, prior);
      hide Unfilter;
      var only := Reconstruct(last[0], n, prior, last[1..]);
      assert rows == [] && rows + [only] == [only] + rows;
    } else {
      var first, more := data[..m + 1], data[m + 1..];
      var row := Reconstruct(first[0], n, prior, first[1..]);
      UnfilterFirst(data, first, more, m, n, prior);
      Associative(first, more, last);
      UnfilterFirst(data + last, first, more + last, m, n, prior);
      hide Unfilter;
      assert rows[0] == row && Unfilter(more, m, n, row) == Some(rows[1..]);
      UnfilterAppend(more, m, n, row, rows[1..], last);
      var added := Reconstruct(last[0], n, rows[|rows| - 1], last[1..]);
      assert [row] + (rows[1..] + [added]) == rows + [added];
    }
  }

  // ---- The writer ----

  /** An interleaved image in memory: row r starts `stride` bytes after row r - 1. */
  datatype Image = Image(pixels: seq<byte>, stride: nat, x: nat, y: nat, n: nat, flip: bool)
  {
    predicate Valid() {
      1 <= n <= 4 && x >= 1 && forall r :: 0 <= r < y ==> stride * r + x * n <= |pixels|
    }

    /** Bytes in a row. */
    function M(): nat { x * n }

    /** Offset of the row written as row j: bottom up when flipped. */
    function Start(j: nat): nat
      requires j < y
    {
      stride * (if flip then y - 1 - j else j)
    }

    function Row(j: nat): (row: seq<byte>)
      requires Valid() && j < y
      ensures |row| == M() == x * n
      ensures forall k :: 0 <= k < x * n ==> row[k] == pixels[stride * (if flip then y - 1 - j else j) + k]
    {
      pixels[Start(j)..Start(j) + M()]
    }

    function Rows(j: nat): (rows: seq<seq<byte>>)
      requires Valid() && j <= y
      ensures |rows| == j && forall r :: 0 <= r < j ==> |rows[r]| == M()
    {
      seq(j, r requires 0 <= r < j => Row(r))
    }

    /** The row above, all zero for the first. */
    function Prior(j: nat): (row: seq<byte>)
      requires Valid() && j < y
      ensures |row| == M()
    {
      if j == 0 then Zeros(M()) else Row(j - 1)
    }
  }

  /** The row above lies one signed stride back from the row itself. */
  lemma PriorOffset(img: Image, j: nat)
    requires img.Valid() && 0 < j < img.y
    ensures img.Start(j - 1) == img.Start(j) - (if img.flip then 0 - img.stride else img.stride)
  {
    if img.flip {
      assert img.stride * (img.y - j) == img.stride * (img.y - 1 - j) + img.stride;
    } else {
      assert img.stride * j == img.stride * (j - 1) + img.stride;
    }
  }

  function MapFilter(first: bool, ft: nat): (t: nat)
    requires ft <= 4
  {
    if first then [0, 1, 0, 5, 6][ft] else [0, 1, 2, 3, 4][ft]
  }

  /** The variant `t` that filters a row as type `ft` does, given what is above it. */
  ghost predicate Variant(t: nat, ft: nat, prior: seq<byte>) {
    || (t == ft <= 4)
    || ((forall k :: 0 <= k < |prior| ==> prior[k] == 0) && ((ft == 2 && t == 0) || (ft == 3 && t == 5) || (ft == 4 && t == 6)))
  }

  predicate LooksAbove(t: nat) { 2 <= t <= 4 }

  /** Where a row and the row above it lie in memory. */
  ghost predicate Placed(p: seq<byte>, z: int, s: seq<byte>) {
    0 <= z && z + |s| <= |p| && s == p[z..z + |s|]
  }

  lemma Locate(p: seq<byte>, z: int, up: int, t: nat, row: seq<byte>, prior: seq<byte>, k: nat)
    requires Placed(p, z, row) && (LooksAbove(t) ==> Placed(p, up, prior)) && k < |row| == |prior|
    ensures 0 <= z + k < |p| && row[k] == p[z + k]
    ensures LooksAbove(t) ==> 0 <= up + k < |p| && prior[k] == p[up + k]
  {
  }

  method FilterFirstPixel(p: seq<byte>, z: int, up: int, n: nat, t: nat, ghost ft: nat, ghost row: seq<byte>, ghost prior: seq<byte>, line: array<byte>)
    requires 1 <= n <= |row| == |prior| == line.Length
    requires Placed(p, z, row) && (LooksAbove(t) ==> Placed(p, up, prior)) && Variant(t, ft, prior) && t != 0
    modifies line
    ensures forall k :: 0 <= k < n ==> line[k] == Residual(ft, n, prior, row, k)
  {
    for i := 0 to n
      invariant forall k :: 0 <= k < i ==> line[k] == Residual(ft, n, prior, row, k)
    {
      Locate(p, z, up, t, row, prior, i);
      match t {
        case 1 => line[i] := p[z + i];
        case 2 => line[i] := Minus(p[z + i], p[up + i]);
        case 3 => line[i] := Minus(p[z + i], p[up + i] / 2);
        case 4 => line[i] := Minus(p[z + i], Paeth(0, p[up + i], 0));
        case _ => line[i] := p[z + i];
      }
    }
  }

  method FilterRest(p: seq<byte>, z: int, up: int, n: nat, t: nat, ghost ft: nat, ghost row: seq<byte>, ghost prior: seq<byte>, line: array<byte>)
    requires 1 <= n <= |row| == |prior| == line.Length
    requires Placed(p, z, row) && (LooksAbove(t) ==> Placed(p, up, prior)) && Variant(t, ft, prior) && t != 0
    requires forall k :: 0 <= k < n ==> line[k] == Residual(ft, n, prior, row, k)
    modifies line
    ensures forall k :: 0 <= k < |row| ==> line[k] == Residual(ft, n, prior, row, k)
  {
    for i := n to line.Length
      invariant forall k :: 0 <= k < i ==> line[k] == Residual(ft, n, prior, row, k)
    {
      hide Paeth;
      Locate(p, z, up, t, row, prior, i);
      Locate(p, z, up, t, row, prior, i - n);
      match t {
        case 1 => line[i] := Minus(p[z + i], p[z + i - n]);
        case 2 => line[i] := Minus(p[z + i], p[up + i]);
        case 3 => line[i] := Minus(p[z + i], Average(p[z + i - n], p[up + i]));
        case 4 => line[i] := Minus(p[z + i], Paeth(p[z + i - n], p[up + i], p[up + i - n]));
        case 5 => line[i] := Minus(p[z + i], p[z + i - n] / 2);
        case _ => line[i] := Minus(p[z + i], Paeth(p[z + i - n], 0, 0));
      }
    }
  }

  /** One row with one filter. The first row has variants that do not look above; the decoder still
      sees the plain filter type and recovers the row. */
  method EncodePngLine(img: Image, j: nat, ft: nat, line: array<byte>)
    requires img.Valid() && j < img.y && ft <= 4 && line.Length == img.M()
    modifies line
    ensures IsFiltered(ft, img.n, img.Prior(j), img.Row(j), line[..])
    ensures FollowsRules(ft, img.n, img.Prior(j), img.Row(j), line[..])
  {
    var t := MapFilter(j == 0, ft);
    var z, n := img.Start(j), img.n;
    var signedStride := if img.flip then 0 - img.stride else img.stride;
    ghost var row, prior := img.Row(j), img.Prior(j);
    RowsPlaced(img, j);
    VariantOfMap(j == 0, ft, prior);
    assert n <= img.M();
    hide *;
    if t == 0 {
      CopyRow(img.pixels, z, n, ft, row, prior, line);
    } else {
      FilterFirstPixel(img.pixels, z, z - signedStride, n, t, ft, row, prior, line);
      FilterRest(img.pixels, z, z - signedStride, n, t, ft, row, prior, line);
    }
    AllFiltered(ft, n, prior, row, line[..]);
    FilteredByRules(ft, n, prior, row, line[..]);
  }

  /** `memcpy` of the row. */
  method CopyRow(p: seq<byte>, z: int, n: nat, ghost ft: nat, ghost row: seq<byte>, ghost prior: seq<byte>, line: array<byte>)
    requires 1 <= n <= |row| == |prior| == line.Length && Placed(p, z, row) && Variant(0, ft, prior)
    modifies line
    ensures forall k :: 0 <= k < |row| ==> line[k] == Residual(ft, n, prior, row, k)
  {
    for i := 0 to line.Length
      invariant forall k :: 0 <= k < i ==> line[k] == Residual(ft, n, prior, row, k)
    {
      Locate(p, z, z, 0, row, prior, i);
      line[i] := p[z + i];
    }
  }

  lemma AllFiltered(ft: nat, n: nat, prior: seq<byte>, row: seq<byte>, line: seq<byte>)
    requires n > 0 && |line| == |row| == |prior| && forall k :: 0 <= k < |row| ==> line[k] == Residual(ft, n, prior, row, k)
    ensures IsFiltered(ft, n, prior, row, line)
  {
  }

  lemma VariantOfMap(first: bool, ft: nat, prior: seq<byte>)
    requires ft <= 4 && (first ==> forall k :: 0 <= k < |prior| ==> prior[k] == 0)
    ensures Variant(MapFilter(first, ft), ft, prior)
    ensures first ==> !LooksAbove(MapFilter(first, ft))
  {
  }

  lemma RowsPlaced(img: Image, j: nat)
    requires img.Valid() && j < img.y
    ensures Placed(img.pixels, img.Start(j), img.Row(j))
    ensures j > 0 ==> Placed(img.pixels, img.Start(j) - (if img.flip then 0 - img.stride else img.stride), img.Prior(j))
    ensures j == 0 ==> forall k :: 0 <= k < |img.Prior(j)| ==> img.Prior(j)[k] == 0
    ensures |img.Row(j)| == |img.Prior(j)| == img.M() && img.n <= img.M()
  {
    if j > 0 {
      PriorOffset(img, j);
    }
    assert img.x * img.n >= 1 * img.n;
  }

  // ---- Choosing a filter ----

  function FilteredRow(img: Image, j: nat, ft: nat): (line: seq<byte>)
    requires img.Valid() && j < img.y
    ensures |line| == img.M() && IsFiltered(ft, img.n, img.Prior(j), img.Row(j), line)
    ensures FollowsRules(ft, img.n, img.Prior(j), img.Row(j), line)
  {
    var line := seq(img.M(), k requires 0 <= k < img.M() => Residual(ft, img.n, img.Prior(j), img.Row(j), k));
    FilteredByRules(ft, img.n, img.Prior(j), img.Row(j), line);
    line
  }

  lemma FilteredIsUnique(img: Image, j: nat, ft: nat, line: seq<byte>)
    requires img.Valid() && j < img.y && IsFiltered(ft, img.n, img.Prior(j), img.Row(j), line)
    ensures line == FilteredRow(img, j, ft)
  {
    hide Residual;
    var other := FilteredRow(img, j, ft);
    assert forall k :: 0 <= k < |line| ==> line[k] == other[k];
  }

  /** Absolute value of a byte read as a signed character. */
  function Magnitude(b: byte): (r: nat)
    ensures r <= 128 && (r == b || r + b == 256)
  {
    if b < 128 then b else 256 - b
  }

  function SumAbs(s: seq<byte>): nat {
    if s == [] then 0 else SumAbs(s[..|s| - 1]) + Magnitude(s[|s| - 1])
  }

  /** The sum is taken over all bytes, each once. */
  lemma {:induction false} SumAbsSplits(s: seq<byte>, t: seq<byte>)
    ensures SumAbs(s + t) == SumAbs(s) + SumAbs(t)
    ensures |s| == 1 ==> SumAbs(s) == Magnitude(s[0])
  {
    if |s| == 1 {
      assert s[..0] == [];
    }
    if t == [] {
      assert s + t == s;
    } else {
      assert (s + t)[..|s + t| - 1] == s + t[..|t| - 1];
      SumAbsSplits(s, t[..|t| - 1]);
    }
  }

  function Cost(img: Image, j: nat, ft: nat): nat
    requires img.Valid() && j < img.y
  {
    SumAbs(FilteredRow(img, j, ft))
  }

  const UNKNOWN_COST: nat := 0x7fffffff

  /** The first filter of least cost; a cost of 2^31 - 1 or more is never preferred. */
  ghost predicate IsBest(img: Image, j: nat, best: nat, tried: nat)
    requires img.Valid() && j < img.y
  {
    && (forall ft :: 0 <= ft < tried ==> (Cost(img, j, best) <= Cost(img, j, ft) || 0x7fffffff <= Cost(img, j, ft)))
    && (forall ft :: 0 <= ft < best ==> Cost(img, j, best) < Cost(img, j, ft))
  }

  method Estimate(line: array<byte>) returns (est: nat)
    ensures est == SumAbs(line[..])
  {
    est := 0;
    for i := 0 to line.Length
      invariant est == SumAbs(line[..i])
    {
      assert line[..i + 1][..i] == line[..i];
      est := est + Magnitude(line[i]);
    }
    assert line[..line.Length] == line[..];
  }

  /** Tries all five filters and leaves the line filtered with the best. */
  method EstimateFilter(img: Image, j: nat, line: array<byte>) returns (best: nat)
    requires img.Valid() && j < img.y && line.Length == img.M()
    modifies line
    ensures best <= 4 && line[..] == FilteredRow(img, j, best) && IsBest(img, j, best, 5)
  {
    hide FilteredRow, SumAbs, IsFiltered, Image.Valid, Image.M;
    var bestVal := UNKNOWN_COST;
    best := 0;
    for ft := 0 to 5
      invariant best <= 4 && (bestVal < UNKNOWN_COST ==> bestVal == Cost(img, j, best))
      invariant bestVal <= UNKNOWN_COST && (bestVal == UNKNOWN_COST ==> best == 0)
      invariant forall t :: 0 <= t < ft ==> bestVal <= Cost(img, j, t)
      invariant forall t :: 0 <= t < best ==> bestVal < Cost(img, j, t)
    {
      EncodePngLine(img, j, ft, line);
      FilteredIsUnique(img, j, ft, line[..]);
      var est := Estimate(line);
      if est < bestVal {
        bestVal, best := est, ft;
      }
    }
    EncodePngLine(img, j, best, line);
    FilteredIsUnique(img, j, best, line[..]);
  }

  // ---- The whole image ----

  /** The filtered rows, each behind its type. */
  function Lines(img: Image, types: seq<byte>, j: nat): (data: seq<byte>)
    requires img.Valid() && j <= img.y && j <= |types|
    ensures |data| == Flat(j, img.M() + 1)
  {
    FlatStep(if j == 0 then 0 else j - 1, img.M() + 1);
    if j == 0 then [] else Lines(img, types, j - 1) + ([types[j - 1]] + FilteredRow(img, j - 1, types[j - 1]))
  }

  lemma LinesStep(img: Image, types: seq<byte>, j: nat)
    requires img.Valid() && j <= img.y && j <= |types|
    ensures Lines(img, types, 0) == []
    ensures j > 0 ==> Lines(img, types, j) == Lines(img, types, j - 1) + ([types[j - 1]] + FilteredRow(img, j - 1, types[j - 1]))
  {
    hide FilteredRow, Image.M, Flat, Image.Valid;
  }

  lemma RowsStep(img: Image, j: nat)
    requires img.Valid() && j <= img.y
    ensures img.n >= 1 && img.Rows(0) == []
    ensures j > 0 ==> img.Rows(j) == img.Rows(j - 1) + [img.Row(j - 1)]
    ensures j > 0 ==> (if img.Rows(j - 1) == [] then Zeros(img.M()) else img.Rows(j - 1)[|img.Rows(j - 1)| - 1]) == img.Prior(j - 1)
  {
    hide Image.Row, Image.Start, Image.M, Zeros;
  }

  /** Main result on filtering: for any choice of filters, undoing them gives back the rows. */
  lemma {:induction false} UnfilterLines(img: Image, types: seq<byte>, j: nat)
    requires img.Valid() && j <= img.y && j <= |types| && forall r :: 0 <= r < j ==> types[r] <= 4
    ensures Unfilter(Lines(img, types, j), img.M(), img.n, Zeros(img.M())) == Some(img.Rows(j))
  {
    hide *;
    LinesStep(img, types, j);
    RowsStep(img, j);
    if j == 0 {
      UnfilterNothing(img.M(), img.n, Zeros(img.M()));
    } else {
      UnfilterLines(img, types, j - 1);
      var ft, line := types[j - 1], FilteredRow(img, j - 1, types[j - 1]);
      ReconstructUndoes(ft, img.n, img.Prior(j - 1), img.Row(j - 1), line);
      UnfilterAppend(Lines(img, types, j - 1), img.M(), img.n, Zeros(img.M()), img.Rows(j - 1), [ft] + line);
      assert ([ft] + line)[1..] == line;
    }
  }

  lemma UnfilterNothing(m: nat, n: nat, prior: seq<byte>)
    requires |prior| == m && n > 0
    ensures Unfilter([], m, n, prior) == Some([])
  {
  }

  /** What the writer promises about the type of row j. */
  ghost predicate Chosen(img: Image, j: nat, ft: byte, forceFilter: int)
    requires img.Valid() && j < img.y
  {
    ft <= 4 && if 0 <= forceFilter < 5 then ft == forceFilter else IsBest(img, j, ft, 5)
  }

  method FilterRow(img: Image, j: nat, forceFilter: int, line: array<byte>) returns (ft: byte)
    requires img.Valid() && j < img.y && line.Length == img.M()
    modifies line
    ensures Chosen(img, j, ft, forceFilter) && line[..] == FilteredRow(img, j, ft)
  {
    if 0 <= forceFilter < 5 {
      ft := forceFilter;
      EncodePngLine(img, j, ft, line);
      FilteredIsUnique(img, j, ft, line[..]);
    } else {
      ft := EstimateFilter(img, j, line);
    }
  }

  /** The filtering loop of the image writer. A forced filter of 5 or more, like a negative one, asks
      for the estimate. */
  method FilterImage(img: Image, forceFilter: int) returns (filt: seq<byte>, ghost types: seq<byte>)
    requires img.Valid()
    ensures Unfilter(filt, img.M(), img.n, Zeros(img.M())) == Some(img.Rows(img.y))
    ensures |types| == img.y && filt == Lines(img, types, img.y)
    ensures forall j :: 0 <= j < img.y ==> Chosen(img, j, types[j], forceFilter)
  {
    hide *;
    var w, y := img.M() + 1, img.y;
    var buffer := new byte[Flat(y, w)];
    var line := new byte[img.M()];
    types := [];
    FlatStep(0, w);
    LinesStep(img, types, 0);
    for j := 0 to y
      invariant |types| == j && Flat(j, w) <= buffer.Length && buffer[..Flat(j, w)] == Lines(img, types, j)
      invariant forall r :: 0 <= r < j ==> Chosen(img, r, types[r], forceFilter)
    {
      var ft := FilterRow(img, j, forceFilter, line);
      FlatInside(j, y, w);
      StoreLine(buffer, Flat(j, w), ft, line);
      AddLine(img, types, ft, j);
      types := types + [ft];
    }
    assert buffer[..Flat(y, w)] == buffer[..];
    filt := buffer[..];
    AllChosen(img, types, forceFilter);
    UnfilterLines(img, types, y);
  }

  lemma AllChosen(img: Image, types: seq<byte>, forceFilter: int)
    requires img.Valid() && |types| == img.y && forall j :: 0 <= j < img.y ==> Chosen(img, j, types[j], forceFilter)
    ensures forall j :: 0 <= j < img.y ==> types[j] <= 4
  {
    hide IsBest;
  }

  lemma AddLine(img: Image, types: seq<byte>, ft: byte, j: nat)
    requires img.Valid() && j < img.y && j == |types|
    ensures Lines(img, types + [ft], j + 1) == Lines(img, types, j) + ([ft] + FilteredRow(img, j, ft))
  {
    LinesPrefix(img, types, [ft], j);
    hide FilteredRow;
  }

  method StoreLine(buffer: array<byte>, at: nat, ft: byte, line: array<byte>)
    requires at + 1 + line.Length <= buffer.Length && buffer != line
    modifies buffer
    ensures buffer[..at + 1 + line.Length] == old(buffer[..at]) + ([ft] + line[..])
  {
    buffer[at] := ft;
    for i := 0 to line.Length
      invariant buffer[..at] == old(buffer[..at]) && buffer[at] == ft
      invariant forall k :: 0 <= k < i ==> buffer[at + 1 + k] == line[k]
    {
      buffer[at + 1 + i] := line[i];
    }
    assert buffer[at + 1..at + 1 + line.Length] == line[..];
    assert buffer[..at + 1 + line.Length] == buffer[..at] + ([ft] + buffer[at + 1..at + 1 + line.Length]);
  }

  lemma {:induction false} LinesPrefix(img: Image, types: seq<byte>, more: seq<byte>, j: nat)
    requires img.Valid() && j <= img.y && j <= |types|
    ensures Lines(img, types + more, j) == Lines(img, types, j)
  {
    hide *;
    LinesStep(img, types, j);
    LinesStep(img, types + more, j);
    if j > 0 {
      LinesPrefix(img, types, more, j - 1);
    }
  }

  /** The compressed image data of a PNG: inflating it and undoing the filters gives the rows, in the
      order written, for every image that has any. */
  method ImageData(img: Image, forceFilter: int, quality: int) returns (zlib: seq<byte>)
    requires img.Valid() && img.y > 0
    ensures Inflate.ZlibDecode(zlib).Some?
    ensures Unfilter(Inflate.ZlibDecode(zlib).value, img.M(), img.n, Zeros(img.M())) == Some(img.Rows(img.y))
  {
    var filt;
    ghost var types;
    filt, types := FilterImage(img, forceFilter);
    hide *;
    zlib := Zlib.Compress(filt, quality);
  }
}
