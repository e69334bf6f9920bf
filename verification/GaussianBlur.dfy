/** The blur of one encrypted tile: a separable kernel applied by cyclic slot rotations, against the
    convolution with clamped borders that the same file has as its reference. */
module GaussianBlur {
  import opened Layout
  import opened Slots

  /** Odd size, symmetric about its centre. */
  ghost predicate Symmetric(kernel: seq<real>) {
    |kernel| % 2 == 1 && forall k :: 0 <= k < |kernel| ==> kernel[k] == kernel[|kernel| - 1 - k]
  }

  function Half(kernel: seq<real>): (h: nat)
    ensures |kernel| % 2 == 1 ==> |kernel| == 2 * h + 1
  {
    |kernel| / 2
  }

  function Products(p: seq<real>, w: seq<real>): (t: seq<real>)
    requires |p| == |w|
    ensures |t| == |p|
  {
    seq(|p|, k requires 0 <= k < |p| => p[k] * w[k])
  }

  function Weighted(p: seq<real>, w: seq<real>): real
    requires |p| == |w|
  {
    Sum(Products(p, w))
  }

  /** The folded sum: the centre, then pairs at distance 1 to m with one weight each. */
  function Folded(p: seq<real>, w: seq<real>, h: nat, m: nat): real
    requires |p| == |w| == 2 * h + 1 && m <= h
  {
    if m == 0 then p[h] * w[h] else Folded(p, w, h, m - 1) + (p[h + m] + p[h - m]) * w[h - m]
  }

  lemma SumEnds(x: real, mid: seq<real>, y: real)
    ensures Sum([x] + mid + [y]) == x + Sum(mid) + y
  {
    SumConcat([x] + mid, [y]);
    SumConcat([x], mid);
    SumOne(x);
    SumOne(y);
  }

  lemma SumOne(x: real)
    ensures Sum([x]) == x
  {
    assert [x][..0] == [];
  }

  /** Folding a symmetric kernel changes nothing. */
  lemma {:induction false} FoldedIsWeighted(p: seq<real>, w: seq<real>, h: nat, m: nat)
    requires |p| == |w| == 2 * h + 1 && m <= h && Symmetric(w)
    ensures Folded(p, w, h, m) == Sum(Products(p, w)[h - m..h + m + 1])
  {
    var t := Products(p, w);
    if m == 0 {
      assert t[h..h + 1] == [t[h]];
      hide Sum;
      SumOne(t[h]);
    } else {
      FoldedIsWeighted(p, w, h, m - 1);
      PairOfProducts(p, w, h, m);
      hide Products, Symmetric, Sum;
      FoldOut(t, h, m);
    }
  }

  lemma PairOfProducts(p: seq<real>, w: seq<real>, h: nat, m: nat)
    requires |p| == |w| == 2 * h + 1 && m <= h && Symmetric(w)
    ensures (p[h + m] + p[h - m]) * w[h - m] == Products(p, w)[h + m] + Products(p, w)[h - m]
  {
    Opposite(w, h, m);
    TwoWeights(p[h + m], p[h - m], w[h - m]);
    hide Symmetric;
  }

  lemma FoldOut(t: seq<real>, h: nat, m: nat)
    requires |t| == 2 * h + 1 && 1 <= m <= h
    ensures Sum(t[h - m..h + m + 1]) == Sum(t[h - (m - 1)..h + (m - 1) + 1]) + (t[h + m] + t[h - m])
  {
    hide Sum;
    var mid := t[h - (m - 1)..h + (m - 1) + 1];
    assert t[h - m..h + m + 1] == [t[h - m]] + mid + [t[h + m]];
    SumEnds(t[h - m], mid, t[h + m]);
  }

  lemma Opposite(w: seq<real>, h: nat, m: nat)
    requires |w| == 2 * h + 1 && m <= h && Symmetric(w)
    ensures w[h - m] == w[h + m]
  {
    assert w[h - m] == w[|w| - 1 - (h - m)];
  }

  lemma TwoWeights(x: real, y: real, w: real)
    ensures (x + y) * w == x * w + y * w
  {
  }

  lemma FoldedAll(p: seq<real>, w: seq<real>)
    requires |p| == |w| && Symmetric(w)
    ensures Folded(p, w, Half(w), Half(w)) == Weighted(p, w)
  {
    var h := Half(w);
    FoldedIsWeighted(p, w, h, h);
    assert Products(p, w)[0..2 * h + 1] == Products(p, w);
  }

  // ---- Passes by rotation ----

  function Stride(k: int, w: nat): int { k * w }

  function CyclicAt(v: Slots, q: int): real
    requires |v| > 0
  {
    v[q % |v|]
  }

  /** What the slots at distances -h .. h, in steps of w, hold around slot i, cyclically. */
  function Around(v: Slots, h: nat, w: nat, i: nat): (p: seq<real>)
    requires |v| > 0
    ensures |p| == 2 * h + 1
  {
    seq(2 * h + 1, k requires 0 <= k < 2 * h + 1 => CyclicAt(v, i + Stride(k - h, w)))
  }

  /** One pass of the blur on every slot. */
  function Pass(v: Slots, kernel: seq<real>, w: nat): (r: Slots)
    requires |v| > 0 && |kernel| % 2 == 1
    ensures |r| == |v| && forall i :: 0 <= i < |v| ==> r[i] == Weighted(Around(v, Half(kernel), w, i), kernel)
  {
    seq(|v|, i requires 0 <= i < |v| => Weighted(Around(v, Half(kernel), w, i), kernel))
  }

  /** Distance of rotation t: 1, -1, 2, -2, ... */
  function Distance(t: nat): int { if t % 2 == 0 then t / 2 + 1 else 0 - (t / 2 + 1) }

  ghost predicate RotationIndices(indices: seq<int>, h: nat, w: nat) {
    |indices| == 2 * h && forall t :: 0 <= t < |indices| ==> indices[t] == Stride(Distance(t), w)
  }

  method GenerateRotationIndices(kernelSize: nat, tileWidth: nat) returns (horizontal: seq<int>, vertical: seq<int>)
    ensures RotationIndices(horizontal, kernelSize / 2, 1) && RotationIndices(vertical, kernelSize / 2, tileWidth)
    ensures |horizontal| == |vertical| == kernelSize / 2 * 2
    ensures forall k :: 0 <= k < |horizontal| ==> horizontal[k] == if k % 2 == 0 then k / 2 + 1 else -1 - k / 2
    ensures forall k :: 0 <= k < |vertical| ==> vertical[k] == (if k % 2 == 0 then k / 2 + 1 else -1 - k / 2) * tileWidth
  {
    var halfKernel := kernelSize / 2;
    horizontal := [];
    assert RotationIndices([], 0, 1) && RotationIndices([], 0, tileWidth);
    hide RotationIndices;
    for k := 1 to halfKernel + 1
      invariant RotationIndices(horizontal, k - 1, 1)
    {
      RotationPair(horizontal, k, 1);
      horizontal := horizontal + [k];
      horizontal := horizontal + [0 - k];
    }
    vertical := [];
    hide Stride;
    for k := 1 to halfKernel + 1
      invariant RotationIndices(vertical, k - 1, tileWidth)
    {
      RotationPair(vertical, k, tileWidth);
      vertical := vertical + [Stride(k, tileWidth)];
      vertical := vertical + [Stride(0 - k, tileWidth)];
    }
    IndicesInNumbers(horizontal, halfKernel, 1);
    IndicesInNumbers(vertical, halfKernel, tileWidth);
  }

  lemma IndicesInNumbers(indices: seq<int>, h: nat, w: nat)
    requires RotationIndices(indices, h, w)
    ensures |indices| == h * 2
    ensures forall k :: 0 <= k < |indices| ==> indices[k] == (if k % 2 == 0 then k / 2 + 1 else -1 - k / 2) * w
  {
  }

  /** One more distance, in both directions. */
  lemma RotationPair(indices: seq<int>, k: nat, w: nat)
    requires k >= 1 && RotationIndices(indices, k - 1, w)
    ensures RotationIndices(indices + [Stride(k, w)] + [Stride(0 - k, w)], k, w)
  {
    assert Distance(2 * k - 2) == k && Distance(2 * k - 1) == 0 - k;
    hide Stride, Distance;
    var r := indices + [Stride(k, w)] + [Stride(0 - k, w)];
    forall t | 0 <= t < 2 * k ensures r[t] == Stride(Distance(t), w) {
      if t < 2 * k - 2 {
        assert r[t] == indices[t];
      }
    }
  }

  function Scaled(v: Slots, c: real): (r: Slots)
    ensures |r| == |v| && forall i :: 0 <= i < |v| ==> r[i] == v[i] * c
  {
    seq(|v|, i requires 0 <= i < |v| => v[i] * c)
  }

  ghost predicate FoldedUpTo(acc: Slots, v: Slots, kernel: seq<real>, w: nat, m: nat) {
    |acc| == |v| > 0 && |kernel| % 2 == 1 && m <= Half(kernel)
    && forall i :: 0 <= i < |v| ==> acc[i] == Folded(Around(v, Half(kernel), w, i), kernel, Half(kernel), m)
  }

  lemma CyclicSelf(v: Slots, w: nat, i: nat)
    requires i < |v|
    ensures CyclicAt(v, i + Stride(0, w)) == v[i]
  {
    assert Stride(0, w) == 0 && i % |v| == i;
  }

  lemma RotatedAt(v: Slots, r: int, i: nat)
    requires i < |v|
    ensures Rotate(v, r)[i] == CyclicAt(v, i + r)
  {
  }

  lemma StartFolding(v: Slots, kernel: seq<real>, w: nat)
    requires |v| > 0 && |kernel| % 2 == 1
    ensures FoldedUpTo(Scaled(v, kernel[Half(kernel)]), v, kernel, w, 0)
  {
    hide CyclicAt, Stride;
    forall i | 0 <= i < |v| ensures Around(v, Half(kernel), w, i)[Half(kernel)] == v[i] {
      CyclicSelf(v, w, i);
    }
  }

  lemma FoldPair(acc: Slots, v: Slots, kernel: seq<real>, w: nat, m: nat, left: Slots, right: Slots)
    requires FoldedUpTo(acc, v, kernel, w, m) && m + 1 <= Half(kernel)
    requires left == Rotate(v, Stride(m + 1, w)) && right == Rotate(v, Stride(0 - (m + 1), w))
    ensures FoldedUpTo(Plus(acc, Scaled(Plus(left, right), kernel[Half(kernel) - (m + 1)])), v, kernel, w, m + 1)
  {
    var h, k := Half(kernel), m + 1;
    hide Stride, CyclicAt, Rotate;
    forall i | 0 <= i < |v|
      ensures Plus(acc, Scaled(Plus(left, right), kernel[h - k]))[i] == Folded(Around(v, h, w, i), kernel, h, k)
    {
      RotatedAt(v, Stride(k, w), i);
      RotatedAt(v, Stride(0 - k, w), i);
      AddPair(Around(v, h, w, i), kernel, h, k, acc[i], left[i], right[i]);
    }
  }

  lemma AddPair(p: seq<real>, w: seq<real>, h: nat, k: nat, acc: real, left: real, right: real)
    requires |p| == |w| == 2 * h + 1 && 1 <= k <= h && acc == Folded(p, w, h, k - 1) && left == p[h + k] && right == p[h - k]
    ensures acc + (left + right) * w[h - k] == Folded(p, w, h, k)
  {
  }

  /** One pass as the source writes it, with the rotations hoisted. */
  method RotationPass(v: Slots, kernel: seq<real>, w: nat, indices: seq<int>) returns (acc: Slots)
    requires |v| > 0 && Symmetric(kernel) && RotationIndices(indices, Half(kernel), w)
    ensures acc == Pass(v, kernel, w)
  {
    hide FoldedUpTo, Stride, CyclicAt, Folded, Around, Rotate;
    var halfKernel := |kernel| / 2;
    var rotations := seq(|indices|, k requires 0 <= k < |indices| => Rotate(v, indices[k]));
    acc := Scaled(v, kernel[halfKernel]);
    StartFolding(v, kernel, w);
    for k := 1 to halfKernel + 1
      invariant |acc| == |v| && FoldedUpTo(acc, v, kernel, w, k - 1)
    {
      var left, right := (k - 1) * 2, (k - 1) * 2 + 1;
      assert indices[left] == Stride(k, w) && indices[right] == Stride(0 - k, w);
      FoldPair(acc, v, kernel, w, k - 1, rotations[left], rotations[right]);
      var sum := Plus(rotations[left], rotations[right]);
      var weighted := Scaled(sum, kernel[halfKernel - k]);
      acc := Plus(acc, weighted);
    }
    AllFolded(acc, v, kernel, w);
  }

  lemma AllFolded(acc: Slots, v: Slots, kernel: seq<real>, w: nat)
    requires FoldedUpTo(acc, v, kernel, w, Half(kernel)) && Symmetric(kernel)
    ensures acc == Pass(v, kernel, w)
  {
    hide Folded, Weighted;
    forall i | 0 <= i < |v| ensures acc[i] == Weighted(Around(v, Half(kernel), w, i), kernel) {
      FoldedAll(Around(v, Half(kernel), w, i), kernel);
    }
  }

  /** Both passes. */
  method FheGaussianBlur(tile: Slots, tileWidth: nat, kernel: seq<real>, horizontal: seq<int>, vertical: seq<int>) returns (blurred: Slots)
    requires |tile| > 0 && Symmetric(kernel)
    requires RotationIndices(horizontal, Half(kernel), 1) && RotationIndices(vertical, Half(kernel), tileWidth)
    ensures blurred == Pass(Pass(tile, kernel, 1), kernel, tileWidth)
  {
    var ctHorizontal := RotationPass(tile, kernel, 1, horizontal);
    blurred := RotationPass(ctHorizontal, kernel, tileWidth, vertical);
  }

  // ---- The reference ----

  /** A coordinate inside stays; one outside becomes the first or the last, whichever is on its side. */
  function Clamp(x: int, size: nat): (c: nat)
    requires size > 0
    ensures c < size
    ensures c == x || x < c == 0 || x > c == size - 1
  {
    if x < 0 then 0 else if x < size then x else size - 1
  }

  function Apart(x: int, y: int): nat { if x < y then y - x else x - y }

  /** No coordinate of the image is nearer to x than the one it is clamped to. */
  lemma ClampIsNearest(x: int, size: nat, c: nat)
    requires c < size
    ensures Apart(Clamp(x, size), x) <= Apart(c, x)
    ensures Apart(c, x) == Apart(Clamp(x, size), x) ==> c == Clamp(x, size)
  {
    hide Clamp;
  }

  function PixelOf(v: seq<real>, width: nat, height: nat, y: nat, x: nat): real
    requires |v| == Flat(height, width) && y < height && x < width
  {
    PosInside(y, x, height, width);
    v[Pos(y, x, width)]
  }

  /** The pixels under a kernel of n weights laid along the row at (x, y), clamped at the borders. */
  function RowUnder(v: seq<real>, width: nat, height: nat, n: nat, y: nat, x: nat): (p: seq<real>)
    requires |v| == Flat(height, width) && y < height && x < width
    ensures |p| == n
  {
    seq(n, k requires 0 <= k < n => PixelOf(v, width, height, y, Clamp(x + k - n / 2, width)))
  }

  function ColumnUnder(v: seq<real>, width: nat, height: nat, n: nat, y: nat, x: nat): (p: seq<real>)
    requires |v| == Flat(height, width) && y < height && x < width
    ensures |p| == n
  {
    seq(n, k requires 0 <= k < n => PixelOf(v, width, height, Clamp(y + k - n / 2, height), x))
  }

  function HorizontalConv(v: seq<real>, width: nat, height: nat, kernel: seq<real>): (r: seq<real>)
    requires |v| == Flat(height, width) && width > 0
    ensures |r| == |v|
  {
    seq(|v|, i requires 0 <= i < |v| =>
      PosOf(i, height, width);
      Weighted(RowUnder(v, width, height, |kernel|, i / width, i % width), kernel))
  }

  function VerticalConv(v: seq<real>, width: nat, height: nat, kernel: seq<real>): (r: seq<real>)
    requires |v| == Flat(height, width) && width > 0
    ensures |r| == |v|
  {
    seq(|v|, i requires 0 <= i < |v| =>
      PosOf(i, height, width);
      Weighted(ColumnUnder(v, width, height, |kernel|, i / width, i % width), kernel))
  }

  lemma ConvAt(v: seq<real>, width: nat, height: nat, kernel: seq<real>, y: nat, x: nat)
    requires |v| == Flat(height, width) && y < height && x < width
    ensures PixelOf(HorizontalConv(v, width, height, kernel), width, height, y, x) == Weighted(RowUnder(v, width, height, |kernel|, y, x), kernel)
    ensures PixelOf(VerticalConv(v, width, height, kernel), width, height, y, x) == Weighted(ColumnUnder(v, width, height, |kernel|, y, x), kernel)
  {
    PosInside(y, x, height, width);
    PosDivMod(y, x, width);
    hide Pos, Flat, Weighted, RowUnder, ColumnUnder;
  }

  /** Rows before y, and in row y the first x pixels, hold the convolution. */
  ghost predicate ConvUpTo(r: array<real>, conv: seq<real>, width: nat, y: nat, x: nat)
    reads r
  {
    r.Length == |conv| && Flat(y, width) + x <= |conv| && forall i :: 0 <= i < Flat(y, width) + x ==> r[i] == conv[i]
  }

  lemma RowTerm(v: seq<real>, width: nat, height: nat, kernel: seq<real>, y: nat, x: nat, k: nat)
    requires |v| == Flat(height, width) && y < height && x < width && k < |kernel|
    ensures Products(RowUnder(v, width, height, |kernel|, y, x), kernel)[k]
         == PixelOf(v, width, height, y, Clamp(x + k - |kernel| / 2, width)) * kernel[k]
  {
    hide Flat, PixelOf, Clamp;
  }

  lemma ColumnTerm(v: seq<real>, width: nat, height: nat, kernel: seq<real>, y: nat, x: nat, k: nat)
    requires |v| == Flat(height, width) && y < height && x < width && k < |kernel|
    ensures Products(ColumnUnder(v, width, height, |kernel|, y, x), kernel)[k]
         == PixelOf(v, width, height, Clamp(y + k - |kernel| / 2, height), x) * kernel[k]
  {
    hide Flat, PixelOf, Clamp;
  }

  /** The innermost loop at one pixel. */
  method SumAlongRow(v: seq<real>, width: nat, height: nat, kernel: seq<real>, y: nat, x: nat) returns (sum: real)
    requires |v| == Flat(height, width) && y < height && x < width
    ensures sum == PixelOf(HorizontalConv(v, width, height, kernel), width, height, y, x)
  {
    sum := 0.0;
    ghost var terms := Products(RowUnder(v, width, height, |kernel|, y, x), kernel);
    for k := 0 to |kernel|
      invariant sum == Sum(terms[..k])
    {
      SumNext(terms, k);
      RowTerm(v, width, height, kernel, y, x, k);
      hide *;
      sum := sum + PixelOf(v, width, height, y, Clamp(x + k - |kernel| / 2, width)) * kernel[k];
    }
    assert terms[..|kernel|] == terms;
    ConvAt(v, width, height, kernel, y, x);
  }

  method ApplyHorizontalConv(v: seq<real>, width: nat, height: nat, kernel: seq<real>) returns (result: seq<real>)
    requires |v| == Flat(height, width) && width > 0
    ensures result == HorizontalConv(v, width, height, kernel)
  {
    var r := new real[Flat(height, width)];
    ghost var conv := HorizontalConv(v, width, height, kernel);
    FlatStep(0, width);
    hide Flat, HorizontalConv;
    for y := 0 to height
      invariant ConvUpTo(r, conv, width, y, 0)
    {
      FlatInside(y, height, width);
      for x := 0 to width
        invariant ConvUpTo(r, conv, width, y, x)
      {
        var sum := SumAlongRow(v, width, height, kernel, y, x);
        PosInside(y, x, height, width);
        r[Pos(y, x, width)] := sum;
      }
    }
    result := r[..];
  }

  /** The innermost loop at one pixel. */
  method SumAlongColumn(v: seq<real>, width: nat, height: nat, kernel: seq<real>, y: nat, x: nat) returns (sum: real)
    requires |v| == Flat(height, width) && y < height && x < width
    ensures sum == PixelOf(VerticalConv(v, width, height, kernel), width, height, y, x)
  {
    sum := 0.0;
    ghost var terms := Products(ColumnUnder(v, width, height, |kernel|, y, x), kernel);
    for k := 0 to |kernel|
      invariant sum == Sum(terms[..k])
    {
      SumNext(terms, k);
      ColumnTerm(v, width, height, kernel, y, x, k);
      hide *;
      sum := sum + PixelOf(v, width, height, Clamp(y + k - |kernel| / 2, height), x) * kernel[k];
    }
    assert terms[..|kernel|] == terms;
    ConvAt(v, width, height, kernel, y, x);
  }

  method ApplyVerticalConv(v: seq<real>, width: nat, height: nat, kernel: seq<real>) returns (result: seq<real>)
    requires |v| == Flat(height, width) && width > 0
    ensures result == VerticalConv(v, width, height, kernel)
  {
    var r := new real[Flat(height, width)];
    ghost var conv := VerticalConv(v, width, height, kernel);
    FlatStep(0, width);
    hide Flat, VerticalConv;
    for y := 0 to height
      invariant ConvUpTo(r, conv, width, y, 0)
    {
      FlatInside(y, height, width);
      for x := 0 to width
        invariant ConvUpTo(r, conv, width, y, x)
      {
        var sum := SumAlongColumn(v, width, height, kernel, y, x);
        PosInside(y, x, height, width);
        r[Pos(y, x, width)] := sum;
      }
    }
    result := r[..];
  }

  // ---- Inside a tile ----

  /** tile is a cut of the image, w wide and t high, with its corner at (startY, startX), clamped. */
  ghost predicate IsCut(tile: Slots, w: nat, t: nat, image: seq<real>, width: nat, height: nat, startY: int, startX: int) {
    width > 0 && height > 0 && |image| == Flat(height, width) && |tile| == Flat(t, w)
    && forall r, c :: 0 <= r < t && 0 <= c < w ==>
         PixelOf(tile, w, t, r, c) == PixelOf(image, width, height, Clamp(startY + r, height), Clamp(startX + c, width))
  }

  /** Rotation by columns does not leave the row for the slots inside the border. */
  lemma AlongRow(v: Slots, w: nat, t: nat, h: nat, r: nat, c: nat, k: nat)
    requires |v| == Flat(t, w) && r < t && h <= c && c + h < w && k < 2 * h + 1
    ensures Pos(r, c, w) < |v| && |v| > 0
    ensures Around(v, h, 1, Pos(r, c, w))[k] == PixelOf(v, w, t, r, c + k - h)
  {
    PosInside(r, c, t, w);
    PosInside(r, c + k - h, t, w);
    Cyclic(Pos(r, c, w) + (k - h), |v|);
    assert Stride(k - h, 1) == k - h;
    hide Flat;
  }

  /** Nor does rotation by rows leave the tile. */
  lemma AlongColumn(v: Slots, w: nat, t: nat, h: nat, r: nat, c: nat, k: nat)
    requires |v| == Flat(t, w) && c < w && h <= r && r + h < t && k < 2 * h + 1
    ensures Pos(r, c, w) < |v| && |v| > 0
    ensures Around(v, h, w, Pos(r, c, w))[k] == PixelOf(v, w, t, r + k - h, c)
  {
    PosInside(r, c, t, w);
    PosInside(r + k - h, c, t, w);
    StrideRows(r, k - h, w);
    Cyclic(Pos(r + k - h, c, w), |v|);
    hide Flat, Stride;
    assert Pos(r, c, w) + Stride(k - h, w) == Pos(r + k - h, c, w);
  }

  lemma StrideRows(r: nat, k: int, w: nat)
    requires r + k >= 0
    ensures Flat(r, w) + Stride(k, w) == Flat(r + k, w)
  {
  }

  /** After the first pass, slots in inner columns hold the horizontal convolution of the image. */
  lemma FirstPass(tile: Slots, w: nat, t: nat, image: seq<real>, width: nat, height: nat, startY: int, startX: int, kernel: seq<real>, r: nat, c: nat)
    requires IsCut(tile, w, t, image, width, height, startY, startX) && |kernel| % 2 == 1
    requires r < t && Half(kernel) <= c && c + Half(kernel) < w && 0 <= startX + c < width
    ensures |tile| > 0
    ensures PixelOf(Pass(tile, kernel, 1), w, t, r, c)
         == PixelOf(HorizontalConv(image, width, height, kernel), width, height, Clamp(startY + r, height), startX + c)
  {
    var h, y, x := Half(kernel), Clamp(startY + r, height), startX + c;
    AlongRow(tile, w, t, h, r, c, 0);
    ConvAt(image, width, height, kernel, y, x);
    var p, q := Around(tile, h, 1, Pos(r, c, w)), RowUnder(image, width, height, |kernel|, y, x);
    forall k | 0 <= k < |kernel| ensures p[k] == q[k] {
      AlongRow(tile, w, t, h, r, c, k);
      assert PixelOf(tile, w, t, r, c + k - h) == PixelOf(image, width, height, y, Clamp(startX + (c + k - h), width));
    }
    assert p == q;
    hide Flat, Weighted, Around, RowUnder, HorizontalConv, CyclicAt;
  }

  /** Main result on a tile: inside its border the two passes by rotation give the clamped
      horizontal-then-vertical convolution of the whole image. */
  lemma InnerPixels(tile: Slots, w: nat, t: nat, image: seq<real>, width: nat, height: nat, startY: int, startX: int, kernel: seq<real>, r: nat, c: nat)
    requires IsCut(tile, w, t, image, width, height, startY, startX) && |kernel| % 2 == 1
    requires Half(kernel) <= r && r + Half(kernel) < t && Half(kernel) <= c && c + Half(kernel) < w
    requires 0 <= startX + c < width && 0 <= startY + r < height
    ensures |tile| > 0
    ensures PixelOf(Pass(Pass(tile, kernel, 1), kernel, w), w, t, r, c)
         == PixelOf(VerticalConv(HorizontalConv(image, width, height, kernel), width, height, kernel), width, height, startY + r, startX + c)
  {
    hide Flat, Weighted, Around, ColumnUnder, VerticalConv, CyclicAt, HorizontalConv;
    var h, y, x := Half(kernel), startY + r, startX + c;
    AlongRow(tile, w, t, h, r, c, 0);
    var first, conv := Pass(tile, kernel, 1), HorizontalConv(image, width, height, kernel);
    AlongColumn(first, w, t, h, r, c, 0);
    ConvAt(conv, width, height, kernel, y, x);
    SameUnderKernel(tile, w, t, image, width, height, startY, startX, kernel, r, c);
  }

  /** Around an inner slot the first pass left what the reference has in that column. */
  lemma SameUnderKernel(tile: Slots, w: nat, t: nat, image: seq<real>, width: nat, height: nat, startY: int, startX: int, kernel: seq<real>, r: nat, c: nat)
    requires IsCut(tile, w, t, image, width, height, startY, startX) && |kernel| % 2 == 1 && |tile| > 0
    requires Half(kernel) <= r && r + Half(kernel) < t && Half(kernel) <= c && c + Half(kernel) < w
    requires 0 <= startX + c < width && 0 <= startY + r < height
    ensures Around(Pass(tile, kernel, 1), Half(kernel), w, Pos(r, c, w))
         == ColumnUnder(HorizontalConv(image, width, height, kernel), width, height, |kernel|, startY + r, startX + c)
  {
    hide Flat, Weighted, Around, CyclicAt, HorizontalConv, Pos, Pass;
    var h := Half(kernel);
    var first, conv := Pass(tile, kernel, 1), HorizontalConv(image, width, height, kernel);
    var p, q := Around(first, h, w, Pos(r, c, w)), ColumnUnder(conv, width, height, |kernel|, startY + r, startX + c);
    forall k | 0 <= k < |kernel| ensures p[k] == q[k] {
      AlongColumn(first, w, t, h, r, c, k);
      FirstPass(tile, w, t, image, width, height, startY, startX, kernel, r + k - h, c);
    }
  }
}
