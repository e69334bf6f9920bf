/** Blurring an image tile by tile: bordered tiles are cut out, blurred under encryption and their
    inner parts put back. The result is the clamped convolution of the whole image, and every pixel
    is written exactly once. */
module TiledBlur {
  import opened Bits
  import opened Layout
  import opened Slots
  import opened GaussianBlur
  import opened StillImages

  function Pixels(data: seq<byte>): (v: seq<real>)
    ensures |v| == |data|
  {
    seq(|data|, i requires 0 <= i < |data| => data[i] as real / 255.0)
  }

  /** Between 0 and 1 the whole part of 255 times the value, outside the nearer end. */
  ghost predicate IsLevel(v: real, b: byte) {
    && (v < 0.0 ==> b == 0)
    && (0.0 <= v <= 1.0 ==> b as real <= v * 255.0 < b as real + 1.0)
    && (v > 1.0 ==> b == 255)
  }

  /** Clipped to [0, 1], scaled and truncated to eight bits. */
  function Quantised(v: real): (b: byte)
    ensures IsLevel(v, b)
  {
    var clipped := if v < 0.0 then 0.0 else if v > 1.0 then 1.0 else v;
    (clipped * 255.0).Floor
  }

  /** A pixel comes back from the scale of reals as it went in. */
  lemma QuantisedPixel(data: seq<byte>, i: nat)
    requires i < |data|
    ensures Pixels(data)[i] * 255.0 == data[i] as real
    ensures Quantised(Pixels(data)[i]) == data[i]
  {
    var v := Pixels(data)[i];
    assert v * 255.0 == data[i] as real && 0.0 <= v <= 1.0;
    assert IsLevel(v, Quantised(v));
    hide Quantised;
  }

  function Start(tile: nat, size: nat, border: nat): int { Flat(tile, size) - border }

  // ---- Cutting ----

  ghost predicate CutUpTo(a: array<real>, w: nat, t: nat, image: seq<real>, width: nat, height: nat, startY: int, startX: int, rows: nat, done: nat)
    reads a
  {
    width > 0 && height > 0 && |image| == Flat(height, width) && a.Length == Flat(t, w)
    && forall r, c :: 0 <= r < t && 0 <= c < w && (r < rows || (r == rows && c < done)) ==>
         PixelOf(a[..], w, t, r, c) == PixelOf(image, width, height, Clamp(startY + r, height), Clamp(startX + c, width))
  }

  lemma CutOne(before: seq<real>, after: seq<real>, w: nat, t: nat, r: nat, c: nat, r': nat, c': nat)
    requires |before| == |after| == Flat(t, w) && r < t && c < w && r' < t && c' < w && (r != r' || c != c')
    requires Pos(r, c, w) < |before| && after == before[Pos(r, c, w) := after[Pos(r, c, w)]]
    ensures PixelOf(after, w, t, r', c') == PixelOf(before, w, t, r', c')
  {
    PosDivMod(r, c, w);
    PosDivMod(r', c', w);
    PosInside(r', c', t, w);
    hide Flat, Pos;
  }

  method ExtractTile(data: seq<byte>, width: nat, height: nat, tileX: nat, tileY: nat, tileWidth: nat, tileHeight: nat, border: nat)
    returns (tile: Slots)
    requires |data| == Flat(height, width) && width > 0 && height > 0
    ensures IsCut(tile, tileWidth + 2 * border, tileHeight + 2 * border, Pixels(data), width, height,
                  Start(tileY, tileHeight, border), Start(tileX, tileWidth, border))
  {
    var totalWidth, totalHeight := tileWidth + 2 * border, tileHeight + 2 * border;
    var a := new real[Flat(totalHeight, totalWidth)];
    var startX, startY := Start(tileX, tileWidth, border), Start(tileY, tileHeight, border);
    hide Flat, Start, PixelOf;
    for y := 0 to totalHeight
      invariant CutUpTo(a, totalWidth, totalHeight, Pixels(data), width, height, startY, startX, y, 0)
    {
      for x := 0 to totalWidth
        invariant CutUpTo(a, totalWidth, totalHeight, Pixels(data), width, height, startY, startX, y, x)
      {
        var imgX, imgY := Clamp(startX + x, width), Clamp(startY + y, height);
        PosInside(imgY, imgX, height, width);
        PosInside(y, x, totalHeight, totalWidth);
        ghost var before := a[..];
        a[Pos(y, x, totalWidth)] := data[Pos(imgY, imgX, width)] as real / 255.0;
        CutStep(before, a[..], totalWidth, totalHeight, Pixels(data), width, height, startY, startX, y, x);
      }
    }
    tile := a[..];
  }

  lemma CutStep(before: seq<real>, after: seq<real>, w: nat, t: nat, image: seq<real>, width: nat, height: nat, startY: int, startX: int, r: nat, c: nat)
    requires width > 0 && height > 0 && |image| == Flat(height, width) && |before| == |after| == Flat(t, w) && r < t && c < w
    requires Pos(r, c, w) < |before| && after == before[Pos(r, c, w) := after[Pos(r, c, w)]]
    requires Pos(Clamp(startY + r, height), Clamp(startX + c, width), width) < |image|
    requires after[Pos(r, c, w)] == image[Pos(Clamp(startY + r, height), Clamp(startX + c, width), width)]
    requires forall r', c' :: 0 <= r' < t && 0 <= c' < w && (r' < r || (r' == r && c' < c)) ==>
      PixelOf(before, w, t, r', c') == PixelOf(image, width, height, Clamp(startY + r', height), Clamp(startX + c', width))
    ensures forall r', c' :: 0 <= r' < t && 0 <= c' < w && (r' < r || (r' == r && c' < c + 1)) ==>
      PixelOf(after, w, t, r', c') == PixelOf(image, width, height, Clamp(startY + r', height), Clamp(startX + c', width))
  {
    hide Flat, Pos;
    forall r', c' | 0 <= r' < t && 0 <= c' < w && (r' < r || (r' == r && c' < c + 1))
      ensures PixelOf(after, w, t, r', c') == PixelOf(image, width, height, Clamp(startY + r', height), Clamp(startX + c', width))
    {
      if r' != r || c' != c {
        CutOne(before, after, w, t, r, c, r', c');
      }
    }
  }
  // ---- Putting back ----

  /** Where a tile goes and how large it is. */
  datatype Place = Place(tileX: nat, tileY: nat, tileWidth: nat, tileHeight: nat, border: nat)

  /** Pixel (y, x) lies in the tile's inner part. */
  predicate InPlace(p: Place, y: nat, x: nat) {
    Flat(p.tileY, p.tileHeight) <= y < Flat(p.tileY, p.tileHeight) + p.tileHeight
    && Flat(p.tileX, p.tileWidth) <= x < Flat(p.tileX, p.tileWidth) + p.tileWidth
  }

  function Width(p: Place): nat { p.tileWidth + 2 * p.border }

  function Height(p: Place): nat { p.tileHeight + 2 * p.border }

  /** What the tile has for pixel (y, x), past its border. */
  function Inner(tile: Slots, p: Place, y: nat, x: nat): byte
    requires |tile| == Flat(Height(p), Width(p)) && InPlace(p, y, x)
  {
    Quantised(PixelOf(tile, Width(p), Height(p), y - Flat(p.tileY, p.tileHeight) + p.border, x - Flat(p.tileX, p.tileWidth) + p.border))
  }

  /** The loops over the tile have come to row r, column c of it. */
  predicate Reached(p: Place, y: nat, x: nat, r: nat, c: nat)
    requires InPlace(p, y, x)
  {
    y - Flat(p.tileY, p.tileHeight) < r || (y - Flat(p.tileY, p.tileHeight) == r && x - Flat(p.tileX, p.tileWidth) < c)
  }

  /** The output and how often each of its pixels has been written. */
  ghost predicate InsertedUpTo(now: seq<byte>, count: seq<nat>, was: seq<byte>, count0: seq<nat>, width: nat, height: nat, tile: Slots, p: Place, r: nat, c: nat) {
    && |now| == |was| == |count| == |count0| == Flat(height, width) && |tile| == Flat(Height(p), Width(p))
    && forall y, x :: 0 <= y < height && 0 <= x < width ==>
         InsertedAt(now, count, was, count0, width, height, tile, p, r, c, y, x)
  }

  ghost predicate InsertedAt(now: seq<byte>, count: seq<nat>, was: seq<byte>, count0: seq<nat>, width: nat, height: nat, tile: Slots, p: Place, r: nat, c: nat, y: nat, x: nat)
    requires |now| == |was| == |count| == |count0| == Flat(height, width) && |tile| == Flat(Height(p), Width(p)) && y < height && x < width
  {
    PosInside(y, x, height, width);
    var i := Pos(y, x, width);
    if InPlace(p, y, x) && Reached(p, y, x, r, c) then now[i] == Inner(tile, p, y, x) && count[i] == count0[i] + 1
    else now[i] == was[i] && count[i] == count0[i]
  }

  lemma InsertOne(now: seq<byte>, count: seq<nat>, was: seq<byte>, count0: seq<nat>, width: nat, height: nat, tile: Slots, p: Place, r: nat, c: nat, y: nat, x: nat)
    requires InsertedUpTo(now, count, was, count0, width, height, tile, p, r, c) && r < p.tileHeight && c < p.tileWidth
    requires y == Flat(p.tileY, p.tileHeight) + r && x == Flat(p.tileX, p.tileWidth) + c && y < height && x < width
    ensures Pos(y, x, width) < |now| == |count| && InPlace(p, y, x)
    ensures InsertedUpTo(now[Pos(y, x, width) := Inner(tile, p, y, x)], count[Pos(y, x, width) := count[Pos(y, x, width)] + 1],
                         was, count0, width, height, tile, p, r, c + 1)
  {
    PosInside(y, x, height, width);
    var next, more := now[Pos(y, x, width) := Inner(tile, p, y, x)], count[Pos(y, x, width) := count[Pos(y, x, width)] + 1];
    hide Flat, Pos, Inner;
    var c1 := c + 1;
    forall y', x' | 0 <= y' < height && 0 <= x' < width
      ensures InsertedAt(next, more, was, count0, width, height, tile, p, r, c1, y', x')
    {
      assert InsertedAt(now, count, was, count0, width, height, tile, p, r, c, y', x');
      PosInside(y', x', height, width);
      if y' != y || x' != x {
        PosDivMod(y, x, width);
        PosDivMod(y', x', width);
      }
    }
  }

  /** Pixels beyond the image are skipped. */
  lemma SkipOne(now: seq<byte>, count: seq<nat>, was: seq<byte>, count0: seq<nat>, width: nat, height: nat, tile: Slots, p: Place, r: nat, c: nat)
    requires InsertedUpTo(now, count, was, count0, width, height, tile, p, r, c)
    requires Flat(p.tileY, p.tileHeight) + r >= height || Flat(p.tileX, p.tileWidth) + c >= width
    ensures InsertedUpTo(now, count, was, count0, width, height, tile, p, r, c + 1)
  {
    hide Flat, Pos, Inner;
    var c1 := c + 1;
    forall y, x | 0 <= y < height && 0 <= x < width
      ensures InsertedAt(now, count, was, count0, width, height, tile, p, r, c1, y, x)
    {
      assert InsertedAt(now, count, was, count0, width, height, tile, p, r, c, y, x);
      PosInside(y, x, height, width);
    }
  }

  lemma NextRow(now: seq<byte>, count: seq<nat>, was: seq<byte>, count0: seq<nat>, width: nat, height: nat, tile: Slots, p: Place, r: nat)
    requires InsertedUpTo(now, count, was, count0, width, height, tile, p, r, p.tileWidth)
    ensures InsertedUpTo(now, count, was, count0, width, height, tile, p, r + 1, 0)
  {
    hide Flat, Pos, Inner;
    var r1 := r + 1;
    forall y, x | 0 <= y < height && 0 <= x < width
      ensures InsertedAt(now, count, was, count0, width, height, tile, p, r1, 0, y, x)
    {
      assert InsertedAt(now, count, was, count0, width, height, tile, p, r, p.tileWidth, y, x);
      PosInside(y, x, height, width);
    }
  }

  lemma StartInserting(was: seq<byte>, count: seq<nat>, width: nat, height: nat, tile: Slots, p: Place)
    requires |was| == |count| == Flat(height, width) && |tile| == Flat(Height(p), Width(p))
    ensures InsertedUpTo(was, count, was, count, width, height, tile, p, 0, 0)
  {
    hide Flat, Pos, Inner;
    forall y, x | 0 <= y < height && 0 <= x < width
      ensures InsertedAt(was, count, was, count, width, height, tile, p, 0, 0, y, x)
    {
      PosInside(y, x, height, width);
    }
  }

  /** Writes the tile's inner part into the image, as far as it lies inside, and nothing else. */
  method InsertTile(img: array<byte>, width: nat, height: nat, tile: Slots, p: Place, ghost count0: seq<nat>) returns (ghost count: seq<nat>)
    requires img.Length == |count0| == Flat(height, width) && |tile| == Flat(Height(p), Width(p))
    modifies img
    ensures InsertedUpTo(img[..], count, old(img[..]), count0, width, height, tile, p, p.tileHeight, 0)
  {
    var totalWidth := Width(p);
    var startX, startY := Flat(p.tileX, p.tileWidth), Flat(p.tileY, p.tileHeight);
    count := count0;
    ghost var was := img[..];
    StartInserting(was, count, width, height, tile, p);
    hide InsertedAt, Flat, Pos;
    for y := 0 to p.tileHeight
      invariant |count| == img.Length && InsertedUpTo(img[..], count, was, count0, width, height, tile, p, y, 0)
    {
      for x := 0 to p.tileWidth
        invariant |count| == img.Length && InsertedUpTo(img[..], count, was, count0, width, height, tile, p, y, x)
      {
        var imgX, imgY := startX + x, startY + y;
        if imgX < width && imgY < height {
          InsertOne(img[..], count, was, count0, width, height, tile, p, y, x, imgY, imgX);
          PosInside(y + p.border, x + p.border, Height(p), totalWidth);
          hide InsertedUpTo;
          var val := tile[Pos(y + p.border, x + p.border, totalWidth)];
          ghost var before := img[..];
          img[Pos(imgY, imgX, width)] := Quantised(val);
          count := count[Pos(imgY, imgX, width) := count[Pos(imgY, imgX, width)] + 1];
          assert img[..] == before[Pos(imgY, imgX, width) := Inner(tile, p, imgY, imgX)];
        } else {
          SkipOne(img[..], count, was, count0, width, height, tile, p, y, x);
        }
      }
      NextRow(img[..], count, was, count0, width, height, tile, p, y);
    }
  }
  // ---- The whole image ----

  /** The pixel's tile. */
  lemma TileOfPixel(x: nat, t: nat, size: nat)
    requires size > 0
    ensures Flat(t, size) <= x < Flat(t, size) + size <==> t == x / size
  {
    PosOf(x, x + 1, size) by { Wide(x, size); }
    assert x == Flat(x / size, size) + x % size;
    if t < x / size {
      FlatInside(t, x / size, size);
    } else if x / size < t {
      FlatInside(x / size, t, size);
    }
    hide Flat;
  }

  lemma {:induction false} Wide(x: nat, size: nat)
    requires size > 0
    ensures x < Flat(x + 1, size)
  {
    FlatStep(x, size);
    hide Flat;
    if x > 0 {
      Wide(x - 1, size);
    }
  }

  lemma TileInGrid(x: nat, width: nat, size: nat)
    requires size > 0 && x < width
    ensures x / size < BlocksFor(width, size)
  {
    var n := BlocksFor(width, size);
    PosOf(x, n, size);
    hide Flat, BlocksFor;
  }

  /** The tiles before (tileY, tileX), in the order of the loops, have been put back. */
  ghost predicate Done(size: nat, tileY: nat, tileX: nat, y: nat, x: nat)
    requires size > 0
  {
    y / size < tileY || (y / size == tileY && x / size < tileX)
  }

  lemma DoneSteps(size: nat, tileY: nat, tileX: nat, y: nat, x: nat)
    requires size > 0
    ensures !Done(size, 0, 0, y, x)
    ensures Done(size, tileY, tileX + 1, y, x) <==> Done(size, tileY, tileX, y, x) || (tileY == y / size && tileX == x / size)
    ensures x / size < tileX ==> (Done(size, tileY, tileX, y, x) <==> Done(size, tileY + 1, 0, y, x))
    ensures y / size < tileY ==> Done(size, tileY, 0, y, x)
  {
    Quotient(y, size);
    Quotient(x, size);
    hide Flat;
  }

  lemma Quotient(x: nat, size: nat)
    requires size > 0
    ensures x / size >= 0
  {
  }

  /** Pixels of finished tiles have their final value and one write, the others none. */
  ghost predicate FinishedUpTo(now: seq<byte>, count: seq<nat>, final: seq<real>, width: nat, height: nat, size: nat, tileY: nat, tileX: nat) {
    && |now| == |count| == |final| == Flat(height, width) && size > 0
    && forall y, x :: 0 <= y < height && 0 <= x < width ==> FinishedAt(now, count, final, width, height, size, tileY, tileX, y, x)
  }

  ghost predicate FinishedAt(now: seq<byte>, count: seq<nat>, final: seq<real>, width: nat, height: nat, size: nat, tileY: nat, tileX: nat, y: nat, x: nat)
    requires |now| == |count| == |final| == Flat(height, width) && size > 0 && y < height && x < width
  {
    PosInside(y, x, height, width);
    var i := Pos(y, x, width);
    if Done(size, tileY, tileX, y, x) then now[i] == Quantised(final[i]) && count[i] == 1 else count[i] == 0
  }

  function Blurred(image: seq<real>, width: nat, height: nat, kernel: seq<real>): (r: seq<real>)
    requires |image| == Flat(height, width) && width > 0
    ensures |r| == |image|
  {
    VerticalConv(HorizontalConv(image, width, height, kernel), width, height, kernel)
  }

  function PlaceOf(tileY: nat, tileX: nat, size: nat, border: nat): Place { Place(tileX, tileY, size, size, border) }

  /** One blurred tile as it comes back from decryption. */
  ghost predicate IsBlurredTile(tile: Slots, image: seq<real>, width: nat, height: nat, kernel: seq<real>, size: nat, tileY: nat, tileX: nat) {
    var border, w := Half(kernel), size + 2 * Half(kernel);
    exists cut :: |cut| > 0 && |kernel| % 2 == 1
      && IsCut(cut, w, w, image, width, height, Start(tileY, size, border), Start(tileX, size, border))
      && tile == Pass(Pass(cut, kernel, 1), kernel, w)
  }

  lemma TileHasFinal(tile: Slots, image: seq<real>, width: nat, height: nat, kernel: seq<real>, size: nat, tileY: nat, tileX: nat, y: nat, x: nat)
    requires IsBlurredTile(tile, image, width, height, kernel, size, tileY, tileX) && width > 0 && |image| == Flat(height, width) && size > 0
    requires InPlace(PlaceOf(tileY, tileX, size, Half(kernel)), y, x) && y < height && x < width
    ensures |tile| == Flat(size + 2 * Half(kernel), size + 2 * Half(kernel))
    ensures Inner(tile, PlaceOf(tileY, tileX, size, Half(kernel)), y, x) == Quantised(PixelOf(Blurred(image, width, height, kernel), width, height, y, x))
  {
    hide Flat, Quantised, Pass, VerticalConv, HorizontalConv, PixelOf, IsCut;
    var border, w := Half(kernel), size + 2 * Half(kernel);
    var cut :| |cut| > 0 && |kernel| % 2 == 1
      && IsCut(cut, w, w, image, width, height, Start(tileY, size, border), Start(tileX, size, border))
      && tile == Pass(Pass(cut, kernel, 1), kernel, w);
    CutLength(cut, w, image, width, height, Start(tileY, size, border), Start(tileX, size, border));
    InnerPixels(cut, w, w, image, width, height, Start(tileY, size, border), Start(tileX, size, border), kernel,
                y - Flat(tileY, size) + border, x - Flat(tileX, size) + border);
  }

  lemma CutLength(tile: Slots, w: nat, image: seq<real>, width: nat, height: nat, startY: int, startX: int)
    requires IsCut(tile, w, w, image, width, height, startY, startX)
    ensures |tile| == Flat(w, w) && height > 0
  {
    hide Flat, PixelOf;
  }

  lemma FinishTile(before: seq<byte>, count0: seq<nat>, now: seq<byte>, count: seq<nat>, image: seq<real>, width: nat, height: nat, kernel: seq<real>,
                   tile: Slots, size: nat, tileY: nat, tileX: nat)
    requires size > 0 && width > 0 && |image| == Flat(height, width) && |tile| == Flat(size + 2 * Half(kernel), size + 2 * Half(kernel))
    requires FinishedUpTo(before, count0, Blurred(image, width, height, kernel), width, height, size, tileY, tileX)
    requires IsBlurredTile(tile, image, width, height, kernel, size, tileY, tileX)
    requires InsertedUpTo(now, count, before, count0, width, height, tile, PlaceOf(tileY, tileX, size, Half(kernel)), size, 0)
    ensures FinishedUpTo(now, count, Blurred(image, width, height, kernel), width, height, size, tileY, tileX + 1)
  {
    var final, p := Blurred(image, width, height, kernel), PlaceOf(tileY, tileX, size, Half(kernel));
    var next := tileX + 1;
    hide Flat, Blurred, Quantised, IsBlurredTile, Inner, BlocksFor, Done;
    forall y, x | 0 <= y < height && 0 <= x < width
      ensures FinishedAt(now, count, final, width, height, size, tileY, next, y, x)
    {
      assert FinishedAt(before, count0, final, width, height, size, tileY, tileX, y, x);
      assert InsertedAt(now, count, before, count0, width, height, tile, p, size, 0, y, x);
      PosInside(y, x, height, width);
      TileOfPixel(y, tileY, size);
      TileOfPixel(x, tileX, size);
      DoneSteps(size, tileY, tileX, y, x);
      if InPlace(p, y, x) {
        TileHasFinal(tile, image, width, height, kernel, size, tileY, tileX, y, x);
      }
    }
  }

  lemma FinishRow(now: seq<byte>, count: seq<nat>, final: seq<real>, width: nat, height: nat, size: nat, tileY: nat, tilesX: nat)
    requires FinishedUpTo(now, count, final, width, height, size, tileY, tilesX) && tilesX == BlocksFor(width, size)
    ensures FinishedUpTo(now, count, final, width, height, size, tileY + 1, 0)
  {
    hide Flat, Quantised, BlocksFor, Done;
    var next := tileY + 1;
    forall y, x | 0 <= y < height && 0 <= x < width
      ensures FinishedAt(now, count, final, width, height, size, next, 0, y, x)
    {
      assert FinishedAt(now, count, final, width, height, size, tileY, tilesX, y, x);
      TileInGrid(x, width, size);
      DoneSteps(size, tileY, tilesX, y, x);
    }
  }

  lemma NothingFinished(now: seq<byte>, count: seq<nat>, final: seq<real>, width: nat, height: nat, size: nat)
    requires |now| == |count| == |final| == Flat(height, width) && size > 0 && forall i :: 0 <= i < |count| ==> count[i] == 0
    ensures FinishedUpTo(now, count, final, width, height, size, 0, 0)
  {
    hide Flat, Done;
    forall y, x | 0 <= y < height && 0 <= x < width
      ensures FinishedAt(now, count, final, width, height, size, 0, 0, y, x)
    {
      DoneSteps(size, 0, 0, y, x);
      PosInside(y, x, height, width);
    }
  }

  lemma AllFinished(now: seq<byte>, count: seq<nat>, final: seq<real>, width: nat, height: nat, size: nat, tilesY: nat)
    requires FinishedUpTo(now, count, final, width, height, size, tilesY, 0) && tilesY == BlocksFor(height, size) && width > 0
    ensures forall i :: 0 <= i < |now| ==> now[i] == Quantised(final[i]) && count[i] == 1
  {
    forall i | 0 <= i < |now| ensures now[i] == Quantised(final[i]) && count[i] == 1 {
      PosOf(i, height, width);
      var y, x := i / width, i % width;
      hide Flat, Pos, Quantised, BlocksFor, Done;
      assert FinishedAt(now, count, final, width, height, size, tilesY, 0, y, x);
      TileInGrid(y, height, size);
      DoneSteps(size, tilesY, 0, y, x);
    }
  }

  /** Where in the grid the t-th tile is. */
  function TileRow(t: nat, tilesX: nat): nat
    requires tilesX > 0
  {
    t / tilesX
  }

  function TileColumn(t: nat, tilesX: nat): nat
    requires tilesX > 0
  {
    t % tilesX
  }

  lemma GridPlace(tileY: nat, tileX: nat, tilesX: nat)
    requires tileX < tilesX
    ensures TileRow(Pos(tileY, tileX, tilesX), tilesX) == tileY && TileColumn(Pos(tileY, tileX, tilesX), tilesX) == tileX
  {
    PosDivMod(tileY, tileX, tilesX);
    hide Pos, Flat;
  }

  /** Extracted tiles, in row order. */
  ghost predicate AreTiles(tiles: seq<Slots>, image: seq<real>, width: nat, height: nat, kernel: seq<real>, size: nat, tilesX: nat) {
    |kernel| % 2 == 1 && tilesX > 0
    && forall t :: 0 <= t < |tiles| ==> TileAt(tiles[t], image, width, height, kernel, size, TileRow(t, tilesX), TileColumn(t, tilesX))
  }

  ghost predicate TileAt(tile: Slots, image: seq<real>, width: nat, height: nat, kernel: seq<real>, size: nat, tileY: nat, tileX: nat) {
    |tile| > 0 && IsCut(tile, size + 2 * Half(kernel), size + 2 * Half(kernel), image, width, height, Start(tileY, size, Half(kernel)), Start(tileX, size, Half(kernel)))
  }

  lemma CutNotEmpty(tile: Slots, w: nat, image: seq<real>, width: nat, height: nat, startY: int, startX: int)
    requires IsCut(tile, w, w, image, width, height, startY, startX) && w > 0
    ensures |tile| > 0
  {
    PosInside(0, 0, w, w);
    hide PixelOf, Flat;
  }

  method ExtractTiles(data: seq<byte>, width: nat, height: nat, kernel: seq<real>, size: nat, tilesY: nat, tilesX: nat) returns (tiles: seq<Slots>)
    requires |data| == Flat(height, width) && width > 0 && height > 0 && size > 0 && tilesX > 0 && |kernel| % 2 == 1
    ensures |tiles| == Flat(tilesY, tilesX) && AreTiles(tiles, Pixels(data), width, height, kernel, size, tilesX)
  {
    tiles := [];
    FlatStep(0, tilesX);
    hide Flat, TileAt;
    for ty := 0 to tilesY
      invariant |tiles| == Flat(ty, tilesX) && AreTiles(tiles, Pixels(data), width, height, kernel, size, tilesX)
    {
      for tx := 0 to tilesX
        invariant |tiles| == Flat(ty, tilesX) + tx && AreTiles(tiles, Pixels(data), width, height, kernel, size, tilesX)
      {
        var tile := ExtractTile(data, width, height, tx, ty, size, size, Half(kernel));
        CutNotEmpty(tile, size + 2 * Half(kernel), Pixels(data), width, height, Start(ty, size, Half(kernel)), Start(tx, size, Half(kernel)));
        DivMod(|tiles|, tilesX, ty, tx);
        assert TileAt(tile, Pixels(data), width, height, kernel, size, ty, tx) by { MakeTileAt(tile, Pixels(data), width, height, kernel, size, ty, tx); }
        tiles := tiles + [tile];
      }
      FlatStep(ty, tilesX);
    }
  }

  lemma MakeTileAt(tile: Slots, image: seq<real>, width: nat, height: nat, kernel: seq<real>, size: nat, tileY: nat, tileX: nat)
    requires |tile| > 0 && IsCut(tile, size + 2 * Half(kernel), size + 2 * Half(kernel), image, width, height, Start(tileY, size, Half(kernel)), Start(tileX, size, Half(kernel)))
    ensures TileAt(tile, image, width, height, kernel, size, tileY, tileX)
  {
  }

  method BlurTiles(tiles: seq<Slots>, ghost image: seq<real>, ghost width: nat, ghost height: nat, kernel: seq<real>, size: nat, ghost tilesX: nat) returns (blurred: seq<Slots>)
    requires Symmetric(kernel) && AreTiles(tiles, image, width, height, kernel, size, tilesX)
    ensures |blurred| == |tiles| && AreBlurred(blurred, image, width, height, kernel, size, tilesX)
  {
    var horizontal, vertical := GenerateRotationIndices(|kernel|, size + 2 * Half(kernel));
    hide TileAt, IsBlurredTile, TileRow, TileColumn, Pass, RotationIndices, Symmetric;
    blurred := [];
    for t := 0 to |tiles|
      invariant |blurred| == t
      invariant forall k :: 0 <= k < t ==> IsBlurredTile(blurred[k], image, width, height, kernel, size, TileRow(k, tilesX), TileColumn(k, tilesX))
    {
      assert TileAt(tiles[t], image, width, height, kernel, size, TileRow(t, tilesX), TileColumn(t, tilesX));
      TileNotEmpty(tiles[t], image, width, height, kernel, size, TileRow(t, tilesX), TileColumn(t, tilesX));
      var b := FheGaussianBlur(tiles[t], size + 2 * Half(kernel), kernel, horizontal, vertical);
      MakeBlurred(tiles[t], b, image, width, height, kernel, size, TileRow(t, tilesX), TileColumn(t, tilesX));
      blurred := blurred + [b];
    }
  }

  lemma TileNotEmpty(tile: Slots, image: seq<real>, width: nat, height: nat, kernel: seq<real>, size: nat, tileY: nat, tileX: nat)
    requires TileAt(tile, image, width, height, kernel, size, tileY, tileX)
    ensures |tile| > 0
  {
  }

  lemma MakeBlurred(cut: Slots, tile: Slots, image: seq<real>, width: nat, height: nat, kernel: seq<real>, size: nat, tileY: nat, tileX: nat)
    requires TileAt(cut, image, width, height, kernel, size, tileY, tileX) && |kernel| % 2 == 1
    requires tile == Pass(Pass(cut, kernel, 1), kernel, size + 2 * Half(kernel))
    ensures IsBlurredTile(tile, image, width, height, kernel, size, tileY, tileX)
  {
    hide Pass, IsCut;
  }

  lemma BlurredLength(tile: Slots, image: seq<real>, width: nat, height: nat, kernel: seq<real>, size: nat, tileY: nat, tileX: nat)
    requires IsBlurredTile(tile, image, width, height, kernel, size, tileY, tileX)
    ensures |tile| == Flat(size + 2 * Half(kernel), size + 2 * Half(kernel))
  {
    hide Flat;
  }

  method InsertBlurred(out: array<byte>, ghost image: seq<real>, width: nat, height: nat, kernel: seq<real>, tile: Slots, size: nat, ty: nat, tx: nat, ghost count0: seq<nat>)
    returns (ghost count: seq<nat>)
    requires size > 0 && width > 0 && |image| == Flat(height, width) && IsBlurredTile(tile, image, width, height, kernel, size, ty, tx)
    requires out.Length == |count0| && FinishedUpTo(out[..], count0, Blurred(image, width, height, kernel), width, height, size, ty, tx)
    modifies out
    ensures |count| == out.Length && FinishedUpTo(out[..], count, Blurred(image, width, height, kernel), width, height, size, ty, tx + 1)
  {
    BlurredLength(tile, image, width, height, kernel, size, ty, tx);
    FinishedLength(out[..], count0, Blurred(image, width, height, kernel), width, height, size, ty, tx);
    hide Flat, FinishedUpTo, Blurred, IsBlurredTile, Quantised, InsertedUpTo;
    ghost var before := out[..];
    count := InsertTile(out, width, height, tile, PlaceOf(ty, tx, size, Half(kernel)), count0);
    FinishTile(before, count0, out[..], count, image, width, height, kernel, tile, size, ty, tx);
    FinishedLength(out[..], count, Blurred(image, width, height, kernel), width, height, size, ty, tx + 1);
  }

  ghost predicate AreBlurred(blurred: seq<Slots>, image: seq<real>, width: nat, height: nat, kernel: seq<real>, size: nat, tilesX: nat) {
    tilesX > 0 && forall t :: 0 <= t < |blurred| ==> IsBlurredTile(blurred[t], image, width, height, kernel, size, TileRow(t, tilesX), TileColumn(t, tilesX))
  }

  lemma BlurredTileAt(blurred: seq<Slots>, image: seq<real>, width: nat, height: nat, kernel: seq<real>, size: nat, tilesY: nat, tilesX: nat, ty: nat, tx: nat)
    requires AreBlurred(blurred, image, width, height, kernel, size, tilesX) && |blurred| == Flat(tilesY, tilesX) && ty < tilesY && tx < tilesX
    ensures Pos(ty, tx, tilesX) < |blurred| && IsBlurredTile(blurred[Pos(ty, tx, tilesX)], image, width, height, kernel, size, ty, tx)
  {
    PosInside(ty, tx, tilesY, tilesX);
    GridPlace(ty, tx, tilesX);
    hide Flat, Pos, IsBlurredTile, TileRow, TileColumn;
  }

  function NoWrites(n: nat): (count: seq<nat>)
    ensures |count| == n && forall i :: 0 <= i < n ==> count[i] == 0
  {
    seq(n, _ => 0)
  }

  /** All tiles put back. */
  method InsertTiles(out: array<byte>, ghost image: seq<real>, width: nat, height: nat, kernel: seq<real>, blurred: seq<Slots>, size: nat, tilesY: nat, tilesX: nat)
    returns (ghost writes: seq<nat>)
    requires size > 0 && width > 0 && |image| == Flat(height, width) == out.Length && |blurred| == Flat(tilesY, tilesX)
    requires AreBlurred(blurred, image, width, height, kernel, size, tilesX) && tilesX == BlocksFor(width, size) && tilesY == BlocksFor(height, size)
    modifies out
    ensures |writes| == out.Length
    ensures forall i :: 0 <= i < out.Length ==> out[..][i] == Quantised(Blurred(image, width, height, kernel)[i]) && writes[i] == 1
  {
    hide *;
    writes := NoWrites(out.Length);
    ghost var final := Blurred(image, width, height, kernel);
    NothingFinished(out[..], writes, final, width, height, size);
    for ty := 0 to tilesY
      invariant |writes| == out.Length && FinishedUpTo(out[..], writes, final, width, height, size, ty, 0)
    {
      for tx := 0 to tilesX
        invariant |writes| == out.Length && FinishedUpTo(out[..], writes, final, width, height, size, ty, tx)
      {
        BlurredTileAt(blurred, image, width, height, kernel, size, tilesY, tilesX, ty, tx);
        writes := InsertBlurred(out, image, width, height, kernel, blurred[Pos(ty, tx, tilesX)], size, ty, tx, writes);
      }
      FinishRow(out[..], writes, final, width, height, size, ty, tilesX);
    }
    AllFinished(out[..], writes, final, width, height, size, tilesY);
  }

  /** A kernel of the one weight 1 gives the image back, and so does any kernel whose weights add up to
      one when the image has one colour only. */
  lemma BlurKeeps(data: seq<byte>, width: nat, height: nat, kernel: seq<real>, i: nat)
    requires |data| == Flat(height, width) && width > 0 && i < |data|
    requires kernel == [1.0] || (Sum(kernel) == 1.0 && forall j :: 0 <= j < |data| ==> data[j] == data[0])
    ensures Quantised(Blurred(Pixels(data), width, height, kernel)[i]) == data[i]
  {
    QuantisedPixel(data, i);
    var v := Pixels(data);
    if kernel == [1.0] {
      UnitKernel(v, width, height);
    } else {
      forall j | 0 <= j < |v| ensures v[j] == v[0] {
        assert data[j] == data[0];
      }
      EvenImage(v, width, height, kernel, v[0]);
    }
    hide HorizontalConv, VerticalConv, Quantised, Flat, Sum, Pixels;
  }

  lemma BlurKeepsAll(img: seq<byte>, data: seq<byte>, width: nat, height: nat, kernel: seq<real>)
    requires |img| == |data| == Flat(height, width) && width > 0
    requires forall i :: 0 <= i < |img| ==> img[i] == Quantised(Blurred(Pixels(data), width, height, kernel)[i])
    ensures kernel == [1.0] || (Sum(kernel) == 1.0 && forall j :: 0 <= j < |data| ==> data[j] == data[0]) ==> img == data
  {
    hide *;
    if kernel == [1.0] || (Sum(kernel) == 1.0 && forall j :: 0 <= j < |data| ==> data[j] == data[0]) {
      forall i | 0 <= i < |data| ensures img[i] == data[i] {
        BlurKeeps(data, width, height, kernel, i);
      }
    }
  }

  /** Main result: for every image, odd symmetric kernel and positive inner tile size, every pixel is
      written exactly once, with what the clamped horizontal-then-vertical convolution of the whole
      image gives, quantised. */
  method BlurImage(data: seq<byte>, width: nat, height: nat, kernel: seq<real>, tileSize: nat) returns (img: seq<byte>, ghost writes: seq<nat>)
    requires |data| == Flat(height, width) && width > 0 && height > 0 && Symmetric(kernel) && tileSize > 0
    ensures |img| == |data| && forall i :: 0 <= i < |img| ==> img[i] == Quantised(Blurred(Pixels(data), width, height, kernel)[i])
    ensures |writes| == |img| && forall i :: 0 <= i < |writes| ==> writes[i] == 1
    ensures kernel == [1.0] || (Sum(kernel) == 1.0 && forall i :: 0 <= i < |data| ==> data[i] == data[0]) ==> img == data
  {
    assert |kernel| % 2 == 1;
    hide *;
    var tilesX, tilesY := BlocksFor(width, tileSize), BlocksFor(height, tileSize);
    var tiles := ExtractTiles(data, width, height, kernel, tileSize, tilesY, tilesX);
    var blurred := BlurTiles(tiles, Pixels(data), width, height, kernel, tileSize, tilesX);
    var out := new byte[Flat(height, width)];
    writes := InsertTiles(out, Pixels(data), width, height, kernel, blurred, tileSize, tilesY, tilesX);
    img := out[..];
    BlurKeepsAll(img, data, width, height, kernel);
  }

  lemma FinishedLength(now: seq<byte>, count: seq<nat>, final: seq<real>, width: nat, height: nat, size: nat, tileY: nat, tileX: nat)
    requires FinishedUpTo(now, count, final, width, height, size, tileY, tileX)
    ensures |count| == |now| == Flat(height, width)
  {
  }
}
