/** Images that the reference blur leaves as they are: any image under the kernel of one weight 1, and an
    evenly coloured one under weights that add up to one, clamped borders included. */
module StillImages {
  import opened Layout
  import opened Slots
  import opened GaussianBlur

  lemma {:induction false} SumAllAlike(p: seq<real>, w: seq<real>, c: real)
    requires |p| == |w| && forall k :: 0 <= k < |p| ==> p[k] == c
    ensures Weighted(p, w) == c * Sum(w)
    decreases |p|
  {
    if p != [] {
      var n := |p| - 1;
      SumAllAlike(p[..n], w[..n], c);
      LastProduct(p, w);
      TimesSum(c, Sum(w[..n]), w[n]);
      hide Products;
    }
  }

  lemma LastProduct(p: seq<real>, w: seq<real>)
    requires |p| == |w| > 0
    ensures var n := |p| - 1;
      Products(p, w)[..n] == Products(p[..n], w[..n]) && Products(p, w)[n] == p[n] * w[n]
  {
    var n := |p| - 1;
    var all, front := Products(p, w), Products(p[..n], w[..n]);
    forall k | 0 <= k < n ensures all[k] == front[k] {
      assert p[..n][k] == p[k] && w[..n][k] == w[k];
    }
    assert all[..n] == front;
  }

  lemma TimesSum(c: real, x: real, y: real)
    ensures c * (x + y) == c * x + c * y
  {
  }

  lemma PixelAtIndex(v: seq<real>, width: nat, height: nat, y: nat, x: nat)
    requires |v| == Flat(height, width) && y < height && x < width
    ensures Pos(y, x, width) < |v| && PixelOf(v, width, height, y, x) == v[Pos(y, x, width)]
  {
    PosInside(y, x, height, width);
    hide Flat, Pos;
  }

  lemma EvenUnder(v: seq<real>, width: nat, height: nat, n: nat, y: nat, x: nat, c: real)
    requires |v| == Flat(height, width) && y < height && x < width && forall j :: 0 <= j < |v| ==> v[j] == c
    ensures forall k :: 0 <= k < n ==> RowUnder(v, width, height, n, y, x)[k] == c && ColumnUnder(v, width, height, n, y, x)[k] == c
  {
    hide Flat, Clamp, PixelOf, Pos;
    forall k | 0 <= k < n
      ensures RowUnder(v, width, height, n, y, x)[k] == c && ColumnUnder(v, width, height, n, y, x)[k] == c
    {
      PixelAtIndex(v, width, height, y, Clamp(x + k - n / 2, width));
      PixelAtIndex(v, width, height, Clamp(y + k - n / 2, height), x);
    }
  }

  /** What both convolutions hold at an index. */
  lemma ConvAtIndex(v: seq<real>, width: nat, height: nat, kernel: seq<real>, i: nat)
    requires |v| == Flat(height, width) && width > 0 && i < |v|
    ensures i / width < height && i % width < width
    ensures HorizontalConv(v, width, height, kernel)[i] == Weighted(RowUnder(v, width, height, |kernel|, i / width, i % width), kernel)
    ensures VerticalConv(v, width, height, kernel)[i] == Weighted(ColumnUnder(v, width, height, |kernel|, i / width, i % width), kernel)
  {
    PosOf(i, height, width);
    hide Flat, Pos, Weighted, RowUnder, ColumnUnder;
  }

  /** Weights that add up to one leave an evenly coloured image alone. */
  lemma EvenImage(v: seq<real>, width: nat, height: nat, kernel: seq<real>, c: real)
    requires |v| == Flat(height, width) && width > 0 && Sum(kernel) == 1.0 && forall j :: 0 <= j < |v| ==> v[j] == c
    ensures HorizontalConv(v, width, height, kernel) == v && VerticalConv(v, width, height, kernel) == v
  {
    hide *;
    forall i | 0 <= i < |v|
      ensures HorizontalConv(v, width, height, kernel)[i] == v[i] && VerticalConv(v, width, height, kernel)[i] == v[i]
    {
      ConvAtIndex(v, width, height, kernel, i);
      var y, x := i / width, i % width;
      EvenUnder(v, width, height, |kernel|, y, x, c);
      SumAllAlike(RowUnder(v, width, height, |kernel|, y, x), kernel, c);
      SumAllAlike(ColumnUnder(v, width, height, |kernel|, y, x), kernel, c);
    }
  }

  /** Under a single weight lies only the pixel itself. */
  lemma OnlyItself(v: seq<real>, width: nat, height: nat, i: nat)
    requires |v| == Flat(height, width) && width > 0 && i < |v| && i / width < height && i % width < width
    ensures RowUnder(v, width, height, 1, i / width, i % width) == [v[i]] == ColumnUnder(v, width, height, 1, i / width, i % width)
  {
    var y, x := i / width, i % width;
    PosOf(i, height, width);
    PixelAtIndex(v, width, height, y, x);
    hide Flat, Pos, PixelOf;
    assert Clamp(x + 0 - 1 / 2, width) == x && Clamp(y + 0 - 1 / 2, height) == y;
  }

  /** A kernel of the one weight 1 leaves every image alone. */
  lemma UnitKernel(v: seq<real>, width: nat, height: nat)
    requires |v| == Flat(height, width) && width > 0
    ensures HorizontalConv(v, width, height, [1.0]) == v && VerticalConv(v, width, height, [1.0]) == v
  {
    hide *;
    forall i | 0 <= i < |v|
      ensures HorizontalConv(v, width, height, [1.0])[i] == v[i] && VerticalConv(v, width, height, [1.0])[i] == v[i]
    {
      ConvAtIndex(v, width, height, [1.0], i);
      OnlyItself(v, width, height, i);
      SumAllAlike([v[i]], [1.0], v[i]);
      SumOne(1.0);
    }
  }
}
