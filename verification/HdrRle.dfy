/** Scan lines of the Radiance HDR writer, proved against a decoder of the format. The four bytes of
    a pixel (three mantissas and a shared exponent) are the input; their computation from floating
    point is not part of this model. */
module HdrRle {
  import opened Sequences
  import opened Options
  import opened Bits
  import opened WriteContexts

  // ---- Decoder ----

  /** One component of a scan line: counts above 128 are runs, others are literal stretches. A stretch
      that crosses the end of the line, or an empty one, is an error. */
  function DecodeComponent(bytes: seq<byte>, width: nat): (r: Option<(seq<byte>, seq<byte>)>)
    ensures r.Some? ==> |r.value.0| == width
    decreases |bytes|
  {
    if width == 0 then Some(([], bytes))
    else if |bytes| < 2 then None
    else if bytes[0] > 128 then
      var n := bytes[0] - 128;
      if n > width then None
      else
        match DecodeComponent(bytes[2..], width - n)
        case None => None
        case Some(r) => Some((Repeat(bytes[1], n) + r.0, r.1))
    else
      var n := bytes[0];
      if n == 0 || n > width || |bytes| < 1 + n then None
      else
        match DecodeComponent(bytes[1 + n..], width - n)
        case None => None
        case Some(r) => Some((bytes[1..1 + n] + r.0, r.1))
  }

  function DecodePlanes(bytes: seq<byte>, width: nat, count: nat): (r: Option<(seq<seq<byte>>, seq<byte>)>)
    ensures r.Some? ==> |r.value.0| == count && forall c :: 0 <= c < count ==> |r.value.0[c]| == width
    decreases count
  {
    if count == 0 then Some(([], bytes))
    else
      match DecodeComponent(bytes, width)
      case None => None
      case Some(plane) =>
        match DecodePlanes(plane.1, width, count - 1)
        case None => None
        case Some(r) => Some(([plane.0] + r.0, r.1))
  }

  datatype Rgbe = Rgbe(r: byte, g: byte, b: byte, e: byte)

  function Bytes4(p: Rgbe): seq<byte> { [p.r, p.g, p.b, p.e] }

  function DecodeFlat(bytes: seq<byte>, width: nat): (r: Option<(seq<Rgbe>, seq<byte>)>)
    decreases width
  {
    if width == 0 then Some(([], bytes))
    else if |bytes| < 4 then None
    else
      match DecodeFlat(bytes[4..], width - 1)
      case None => None
      case Some(r) => Some(([Rgbe(bytes[0], bytes[1], bytes[2], bytes[3])] + r.0, r.1))
  }

  predicate RunLengthWidth(width: nat) { 8 <= width < 32768 }

  function HighLow(high: int, low: int): int { 256 * high + low }

  function Joined(planes: seq<seq<byte>>, width: nat): seq<Rgbe>
    requires |planes| == 4 && forall c :: 0 <= c < 4 ==> |planes[c]| == width
  {
    seq(width, x requires 0 <= x < width => Rgbe(planes[0][x], planes[1][x], planes[2][x], planes[3][x]))
  }

  function DecodeScanline(bytes: seq<byte>, width: nat): (r: Option<(seq<Rgbe>, seq<byte>)>) {
    if !RunLengthWidth(width) then DecodeFlat(bytes, width)
    else if |bytes| < 4 || bytes[0] != 2 || bytes[1] != 2 || HighLow(bytes[2], bytes[3]) != width then None
    else
      match DecodePlanes(bytes[4..], width, 4)
      case None => None
      case Some(r) => Some((Joined(r.0, width), r.1))
  }

  // ---- Stretches ----

  datatype Stretch = Run(b: byte, n: nat) | Dump(data: seq<byte>)

  predicate StretchOk(s: Stretch) {
    match s
    case Run(_, n) => 1 <= n <= 127
    case Dump(data) => 1 <= |data| <= 128
  }

  function StretchBytes(s: Stretch): seq<byte>
    requires StretchOk(s)
  {
    match s
    case Run(b, n) => [128 + n, b]
    case Dump(data) => [|data|] + data
  }

  function StretchData(s: Stretch): seq<byte> {
    match s
    case Run(b, n) => Repeat(b, n)
    case Dump(data) => data
  }

  predicate AllOk(ss: seq<Stretch>) {
    forall k :: 0 <= k < |ss| ==> StretchOk(ss[k])
  }

  function AllBytes(ss: seq<Stretch>): seq<byte>
    requires AllOk(ss)
  {
    if ss == [] then [] else AllBytes(ss[..|ss| - 1]) + StretchBytes(ss[|ss| - 1])
  }

  function AllData(ss: seq<Stretch>): seq<byte> {
    if ss == [] then [] else AllData(ss[..|ss| - 1]) + StretchData(ss[|ss| - 1])
  }

  lemma DecodeStretch(s: Stretch, width: nat, after: seq<byte>)
    requires StretchOk(s) && |StretchData(s)| <= width
    ensures DecodeComponent(StretchBytes(s) + after, width) ==
      match DecodeComponent(after, width - |StretchData(s)|)
      case None => None
      case Some(r) => Some((StretchData(s) + r.0, r.1))
  {
    var bytes := StretchBytes(s) + after;
    match s
    case Run(b, n) =>
      assert bytes[2..] == after;
    case Dump(data) =>
      assert bytes[1..1 + |data|] == data && bytes[1 + |data|..] == after;
  }

  lemma {:induction false} DecodeAll(ss: seq<Stretch>, width: nat, after: seq<byte>)
    requires AllOk(ss) && |AllData(ss)| <= width
    ensures DecodeComponent(AllBytes(ss) + after, width) ==
      match DecodeComponent(after, width - |AllData(ss)|)
      case None => None
      case Some(r) => Some((AllData(ss) + r.0, r.1))
    decreases |ss|
  {
    hide DecodeComponent, StretchBytes, StretchData, StretchOk;
    var rest := DecodeComponent(after, width - |AllData(ss)|);
    if ss == [] {
      assert AllBytes(ss) + after == after;
      if rest.Some? {
        assert AllData(ss) + rest.value.0 == rest.value.0;
      }
    } else {
      var init, last := ss[..|ss| - 1], ss[|ss| - 1];
      Associative(AllBytes(init), StretchBytes(last), after);
      DecodeAll(init, width, StretchBytes(last) + after);
      DecodeStretch(last, width - |AllData(init)|, after);
      hide *;
      if rest.Some? {
        Associative(AllData(init), StretchData(last), rest.value.0);
      }
    }
  }

  lemma DecodeWhole(ss: seq<Stretch>, comp: seq<byte>, after: seq<byte>)
    requires AllOk(ss) && AllData(ss) == comp
    ensures DecodeComponent(AllBytes(ss) + after, |comp|) == Some((comp, after))
  {
    DecodeAll(ss, |comp|, after);
    assert comp + [] == comp;
  }

  // ---- The run-length loop ----

  ghost predicate Covered(ss: seq<Stretch>, comp: seq<byte>, x: nat, before: seq<byte>, written: seq<byte>) {
    x <= |comp| && AllOk(ss) && AllData(ss) == comp[..x] && written == before + AllBytes(ss)
  }

  lemma CoverMore(ss: seq<Stretch>, s: Stretch, comp: seq<byte>, x: nat, before: seq<byte>, written: seq<byte>)
    requires Covered(ss, comp, x, before, written) && StretchOk(s) && x + |StretchData(s)| <= |comp|
    requires StretchData(s) == comp[x..x + |StretchData(s)|]
    ensures Covered(ss + [s], comp, x + |StretchData(s)|, before, written + StretchBytes(s))
  {
    hide StretchBytes, StretchOk, StretchData;
    assert (ss + [s])[..|ss|] == ss;
    assert comp[..x] + comp[x..x + |StretchData(s)|] == comp[..x + |StretchData(s)|];
    Associative(before, AllBytes(ss), StretchBytes(s));
  }

  method WriteRunData(ctx: WriteContext, length: nat, b: byte)
    requires ctx.Valid() && ctx.used == 0 && 1 <= length <= 127
    modifies ctx
    ensures ctx.Valid() && ctx.used == 0 && ctx.Written() == old(ctx.Written()) + StretchBytes(Run(b, length))
  {
    hide WriteContext.Written, WriteContext.Valid;
    ctx.Func([length + 128]);
    ctx.Func([b]);
  }

  method WriteDumpData(ctx: WriteContext, data: seq<byte>)
    requires ctx.Valid() && ctx.used == 0 && 1 <= |data| <= 128
    modifies ctx
    ensures ctx.Valid() && ctx.used == 0 && ctx.Written() == old(ctx.Written()) + StretchBytes(Dump(data))
  {
    hide WriteContext.Written, WriteContext.Valid;
    ctx.Func([|data|]);
    ctx.Func(data);
  }

  /** First position from x on where three equal bytes start, or the end. */
  method FindRun(comp: seq<byte>, x: nat) returns (r: nat)
    requires x < |comp|
    ensures x <= r <= |comp|
    ensures r + 2 < |comp| || r == |comp|
    ensures r + 2 < |comp| ==> comp[r] == comp[r + 1] == comp[r + 2]
    ensures forall k :: x <= k < r && k + 2 < |comp| ==> !(comp[k] == comp[k + 1] == comp[k + 2])
  {
    r := x;
    while r + 2 < |comp|
      invariant x <= r <= |comp|
      invariant forall k :: x <= k < r && k + 2 < |comp| ==> !(comp[k] == comp[k + 1] == comp[k + 2])
    {
      if comp[r] == comp[r + 1] && comp[r] == comp[r + 2] {
        break;
      }
      r := r + 1;
    }
    if r + 2 >= |comp| {
      r := |comp|;
    }
  }

  method DumpUpTo(ctx: WriteContext, comp: seq<byte>, start: nat, r: nat, ghost ss0: seq<Stretch>, ghost before: seq<byte>) returns (ghost ss: seq<Stretch>)
    requires ctx.Valid() && ctx.used == 0 && start <= r <= |comp| && Covered(ss0, comp, start, before, ctx.Written())
    modifies ctx
    ensures ctx.Valid() && ctx.used == 0 && Covered(ss, comp, r, before, ctx.Written())
  {
    hide Covered, StretchBytes, WriteContext.Written, WriteContext.Valid;
    var x := start;
    ss := ss0;
    while x < r
      invariant start <= x <= r && ctx.Valid() && ctx.used == 0
      invariant Covered(ss, comp, x, before, ctx.Written())
    {
      var len := r - x;
      if len > 128 {
        len := 128;
      }
      CoverMore(ss, Dump(comp[x..x + len]), comp, x, before, ctx.Written());
      WriteDumpData(ctx, comp[x..x + len]);
      ss := ss + [Dump(comp[x..x + len])];
      x := x + len;
    }
  }

  method RunUpTo(ctx: WriteContext, comp: seq<byte>, start: nat, r: nat, ghost ss0: seq<Stretch>, ghost before: seq<byte>) returns (ghost ss: seq<Stretch>)
    requires ctx.Valid() && ctx.used == 0 && start <= r <= |comp| && Covered(ss0, comp, start, before, ctx.Written())
    requires forall k :: start <= k < r ==> comp[k] == comp[start]
    modifies ctx
    ensures ctx.Valid() && ctx.used == 0 && Covered(ss, comp, r, before, ctx.Written())
  {
    hide Covered, StretchBytes, WriteContext.Written, WriteContext.Valid;
    var x := start;
    ss := ss0;
    while x < r
      invariant start <= x <= r && ctx.Valid() && ctx.used == 0
      invariant Covered(ss, comp, x, before, ctx.Written())
    {
      var len := r - x;
      if len > 127 {
        len := 127;
      }
      assert Repeat(comp[x], len) == comp[x..x + len];
      CoverMore(ss, Run(comp[x], len), comp, x, before, ctx.Written());
      WriteRunData(ctx, len, comp[x]);
      ss := ss + [Run(comp[x], len)];
      x := x + len;
    }
  }

  /** One component: literal stretches up to each run of three or more, then the run. Every round
      makes progress. */
  method WriteComponent(ctx: WriteContext, comp: seq<byte>) returns (ghost ss: seq<Stretch>)
    requires ctx.Valid() && ctx.used == 0
    modifies ctx
    ensures ctx.Valid() && ctx.used == 0 && AllOk(ss) && AllData(ss) == comp
    ensures ctx.Written() == old(ctx.Written()) + AllBytes(ss)
  {
    hide *;
    ghost var before := ctx.Written();
    var x: nat := 0;
    ss := [];
    CoveredNothing(comp, before);
    while x < |comp|
      invariant x <= |comp| && ctx.Valid() && ctx.used == 0
      invariant Covered(ss, comp, x, before, ctx.Written())
      decreases |comp| - x
    {
      var r := FindRun(comp, x);
      ss := DumpUpTo(ctx, comp, x, r, ss, before);
      ghost var start := x;
      x := r;
      if r + 2 < |comp| {
        r := EndOfRun(comp, x);
        ss := RunUpTo(ctx, comp, x, r, ss, before);
        x := r;
      }
    }
    CoveredAll(ss, comp, before, ctx.Written());
  }

  /** The next byte after a run, or the end. */
  method EndOfRun(comp: seq<byte>, x: nat) returns (r: nat)
    requires x < |comp|
    ensures x < r <= |comp| && forall k :: x <= k < r ==> comp[k] == comp[x]
    ensures r < |comp| ==> comp[r] != comp[x]
  {
    r := x;
    while r < |comp| && comp[r] == comp[x]
      invariant x <= r <= |comp| && forall k :: x <= k < r ==> comp[k] == comp[x]
    {
      r := r + 1;
    }
  }

  lemma CoveredNothing(comp: seq<byte>, before: seq<byte>)
    ensures Covered([], comp, 0, before, before)
  {
    assert before + [] == before;
  }

  lemma CoveredAll(ss: seq<Stretch>, comp: seq<byte>, before: seq<byte>, written: seq<byte>)
    requires Covered(ss, comp, |comp|, before, written)
    ensures AllOk(ss) && AllData(ss) == comp && written == before + AllBytes(ss)
  {
    assert comp[..|comp|] == comp;
  }

  // ---- The scan line ----

  function Component(p: Rgbe, c: nat): byte
    requires c < 4
  {
    Bytes4(p)[c]
  }

  function Plane(pixels: seq<Rgbe>, c: nat): (plane: seq<byte>)
    requires c < 4
    ensures |plane| == |pixels|
  {
    seq(|pixels|, x requires 0 <= x < |pixels| => Component(pixels[x], c))
  }

  function FlatBytes(pixels: seq<Rgbe>): seq<byte> {
    if pixels == [] then [] else FlatBytes(pixels[..|pixels| - 1]) + Bytes4(pixels[|pixels| - 1])
  }

  /** Pixel k takes four bytes: red, green, blue, exponent. */
  lemma {:induction false} FlatAt(pixels: seq<Rgbe>, k: nat)
    requires k < |pixels|
    ensures |FlatBytes(pixels)| == 4 * |pixels|
    ensures FlatBytes(pixels)[4 * k..4 * k + 4] == [pixels[k].r, pixels[k].g, pixels[k].b, pixels[k].e]
  {
    var last := |pixels| - 1;
    if last > 0 {
      FlatAt(pixels[..last], if k < last then k else 0);
    }
    if k < last {
      PrefixKept(FlatBytes(pixels[..last]), Bytes4(pixels[last]), 4 * k);
    }
  }

  lemma PrefixKept(s: seq<byte>, t: seq<byte>, k: nat)
    requires k + 4 <= |s|
    ensures (s + t)[k..k + 4] == s[k..k + 4]
  {
  }

  lemma {:induction false} FlatFront(pixels: seq<Rgbe>)
    requires pixels != []
    ensures FlatBytes(pixels) == Bytes4(pixels[0]) + FlatBytes(pixels[1..])
  {
    hide Bytes4;
    var last := |pixels| - 1;
    if last > 0 {
      FlatFront(pixels[..last]);
      assert pixels[..last][1..] == pixels[1..][..last - 1];
      Associative(Bytes4(pixels[0]), FlatBytes(pixels[1..][..last - 1]), Bytes4(pixels[last]));
    } else {
      assert pixels[1..] == [] && pixels[..0] == [];
    }
  }

  lemma {:induction false} DecodeFlatBytes(pixels: seq<Rgbe>, rest: seq<byte>)
    ensures DecodeFlat(FlatBytes(pixels) + rest, |pixels|) == Some((pixels, rest))
    decreases |pixels|
  {
    if pixels == [] {
      assert FlatBytes(pixels) + rest == rest;
    } else {
      FlatFront(pixels);
      hide FlatBytes;
      var more := FlatBytes(pixels[1..]);
      Associative(Bytes4(pixels[0]), more, rest);
      assert (Bytes4(pixels[0]) + (more + rest))[4..] == more + rest;
      DecodeFlatBytes(pixels[1..], rest);
      assert pixels == [pixels[0]] + pixels[1..];
    }
  }

  lemma OnePlane(bytes: seq<byte>, width: nat, plane: seq<byte>, after: seq<byte>, planes: seq<seq<byte>>, rest: seq<byte>)
    requires DecodeComponent(bytes, width) == Some((plane, after)) && DecodePlanes(after, width, |planes|) == Some((planes, rest))
    ensures DecodePlanes(bytes, width, |planes| + 1) == Some(([plane] + planes, rest))
  {
    hide DecodeComponent;
  }

  lemma {:induction false} DecodeAllPlanes(codes: seq<seq<Stretch>>, planes: seq<seq<byte>>, width: nat, rest: seq<byte>)
    requires PlanesOk(codes, planes, width)
    ensures DecodePlanes(PlanesBytes(codes) + rest, width, |planes|) == Some((planes, rest))
    decreases |planes|
  {
    hide *;
    if planes == [] {
      NoPlanes(codes, width, rest);
    } else {
      FirstPlane(codes, planes, width);
      var more := PlanesBytes(codes[1..]);
      Associative(AllBytes(codes[0]), more, rest);
      DecodeWhole(codes[0], planes[0], more + rest);
      DecodeAllPlanes(codes[1..], planes[1..], width, rest);
      OnePlane(AllBytes(codes[0]) + (more + rest), width, planes[0], more + rest, planes[1..], rest);
      assert planes == [planes[0]] + planes[1..];
    }
  }

  lemma NoPlanes(codes: seq<seq<Stretch>>, width: nat, rest: seq<byte>)
    requires PlanesOk(codes, [], width)
    ensures DecodePlanes(PlanesBytes(codes) + rest, width, 0) == Some(([], rest))
  {
    assert PlanesBytes(codes) + rest == rest;
  }

  ghost predicate PlanesOk(codes: seq<seq<Stretch>>, planes: seq<seq<byte>>, width: nat) {
    |codes| == |planes| && forall c :: 0 <= c < |codes| ==> AllOk(codes[c]) && AllData(codes[c]) == planes[c] && |planes[c]| == width
  }

  function PlanesBytes(codes: seq<seq<Stretch>>): seq<byte> {
    if codes == [] then [] else (if AllOk(codes[0]) then AllBytes(codes[0]) else []) + PlanesBytes(codes[1..])
  }

  lemma FirstPlane(codes: seq<seq<Stretch>>, planes: seq<seq<byte>>, width: nat)
    requires PlanesOk(codes, planes, width) && planes != []
    ensures codes != [] && PlanesOk(codes[1..], planes[1..], width)
    ensures AllOk(codes[0]) && AllData(codes[0]) == planes[0] && |planes[0]| == width
    ensures PlanesBytes(codes) == AllBytes(codes[0]) + PlanesBytes(codes[1..])
  {
    hide AllBytes, AllOk, AllData;
  }

  lemma {:induction false} AddPlane(codes: seq<seq<Stretch>>, ss: seq<Stretch>)
    requires AllOk(ss)
    ensures PlanesBytes(codes + [ss]) == PlanesBytes(codes) + AllBytes(ss)
  {
    hide AllBytes, AllOk;
    if codes == [] {
      assert [ss][1..] == [];
    } else {
      assert (codes + [ss])[1..] == codes[1..] + [ss];
      AddPlane(codes[1..], ss);
    }
  }

  function ScanlineHeader(width: nat): seq<byte> { [2, 2, width / 256 % 256, width % 256] }

  lemma HeaderBytes(width: nat)
    requires width < 65536
    ensures ScanlineHeader(width) == [2, 2, width / 256, width % 256]
  {
  }

  function Planes(pixels: seq<Rgbe>): (planes: seq<seq<byte>>)
    ensures |planes| == 4 && forall c :: 0 <= c < 4 ==> |planes[c]| == |pixels|
  {
    [Plane(pixels, 0), Plane(pixels, 1), Plane(pixels, 2), Plane(pixels, 3)]
  }

  lemma JoinedPlanes(pixels: seq<Rgbe>)
    ensures Joined(Planes(pixels), |pixels|) == pixels
  {
  }

  lemma HeaderWidth(width: nat)
    requires RunLengthWidth(width)
    ensures HighLow(width / 256 % 256, width % 256) == width
  {
  }

  lemma ReadScanline(bytes: seq<byte>, body: seq<byte>, width: nat, planes: seq<seq<byte>>, rest: seq<byte>)
    requires RunLengthWidth(width) && bytes == ScanlineHeader(width) + body
    requires DecodePlanes(body, width, 4) == Some((planes, rest))
    ensures DecodeScanline(bytes, width) == Some((Joined(planes, width), rest))
  {
    HeaderWidth(width);
    hide HighLow, DecodePlanes, Joined, DecodeFlat;
    assert bytes[4..] == body;
  }

  /** What the writer puts out for a scan line. */
  ghost predicate IsScanline(line: seq<byte>, pixels: seq<Rgbe>, codes: seq<seq<Stretch>>) {
    if RunLengthWidth(|pixels|) then
      PlanesOk(codes, Planes(pixels), |pixels|) && line == ScanlineHeader(|pixels|) + PlanesBytes(codes)
    else line == FlatBytes(pixels)
  }

  /** Main result: at every width the decoder recovers the scan line and leaves what follows it. */
  lemma DecodeLine(line: seq<byte>, pixels: seq<Rgbe>, codes: seq<seq<Stretch>>, rest: seq<byte>)
    requires IsScanline(line, pixels, codes)
    ensures DecodeScanline(line + rest, |pixels|) == Some((pixels, rest))
  {
    hide DecodePlanes, DecodeFlat, PlanesOk, PlanesBytes, Planes, ScanlineHeader, FlatBytes, HighLow, Joined;
    if RunLengthWidth(|pixels|) {
      DecodeAllPlanes(codes, Planes(pixels), |pixels|, rest);
      Associative(ScanlineHeader(|pixels|), PlanesBytes(codes), rest);
      JoinedPlanes(pixels);
      ReadScanline(line + rest, PlanesBytes(codes) + rest, |pixels|, Planes(pixels), rest);
    } else {
      DecodeFlatBytes(pixels, rest);
    }
  }

  method WriteFlat(ctx: WriteContext, pixels: seq<Rgbe>)
    requires ctx.Valid() && ctx.used == 0
    modifies ctx
    ensures ctx.Valid() && ctx.used == 0 && ctx.Written() == old(ctx.Written()) + FlatBytes(pixels)
  {
    hide Bytes4, WriteContext.Written, WriteContext.Valid;
    ghost var before := ctx.Written();
    for x := 0 to |pixels|
      invariant ctx.Valid() && ctx.used == 0 && ctx.Written() == before + FlatBytes(pixels[..x])
    {
      assert pixels[..x + 1][..x] == pixels[..x];
      Associative(before, FlatBytes(pixels[..x]), Bytes4(pixels[x]));
      ctx.Func(Bytes4(pixels[x]));
    }
    assert pixels[..|pixels|] == pixels;
  }

  ghost predicate Filled(s: seq<byte>, pixels: seq<Rgbe>, x: nat) {
    var w := |pixels|;
    x <= w && |s| == 4 * w
    && forall k :: 0 <= k < x ==> s[k] == pixels[k].r && s[k + w] == pixels[k].g && s[k + 2 * w] == pixels[k].b && s[k + 3 * w] == pixels[k].e
  }

  lemma FillStep(s: seq<byte>, t: seq<byte>, pixels: seq<Rgbe>, x: nat)
    requires Filled(s, pixels, x) && x < |pixels| && |t| == |s|
    requires var w, p := |pixels|, pixels[x]; t[x] == p.r && t[x + w] == p.g && t[x + w * 2] == p.b && t[x + w * 3] == p.e
    requires var w := |pixels|; forall k :: 0 <= k < |s| && k != x && k != x + w && k != x + w * 2 && k != x + w * 3 ==> t[k] == s[k]
    ensures Filled(t, pixels, x + 1)
  {
    var w := |pixels|;
    forall k | 0 <= k < x + 1
      ensures t[k] == pixels[k].r && t[k + w] == pixels[k].g && t[k + 2 * w] == pixels[k].b && t[k + 3 * w] == pixels[k].e
    {
      if k < x {
        assert s[k] == pixels[k].r;
      }
    }
  }

  /** Plane c of the scratch buffer. */
  function ScratchPlane(s: seq<byte>, width: nat, c: nat): seq<byte>
    requires |s| == 4 * width && c < 4
  {
    s[width * c..width * c + width]
  }

  lemma FilledPlane(s: seq<byte>, pixels: seq<Rgbe>, c: nat)
    requires Filled(s, pixels, |pixels|) && c < 4
    ensures ScratchPlane(s, |pixels|, c) == Plane(pixels, c)
  {
    var w := |pixels|;
    forall k | 0 <= k < w ensures s[w * c + k] == Component(pixels[k], c) {
      assert s[k] == pixels[k].r;
    }
  }

  lemma FilledPlanes(s: seq<byte>, pixels: seq<Rgbe>)
    requires Filled(s, pixels, |pixels|)
    ensures forall c :: 0 <= c < 4 ==> ScratchPlane(s, |pixels|, c) == Planes(pixels)[c]
  {
    forall c | 0 <= c < 4 ensures ScratchPlane(s, |pixels|, c) == Planes(pixels)[c] {
      FilledPlane(s, pixels, c);
      hide Filled, ScratchPlane, Plane;
    }
  }

  /** The pixels taken apart into the four planes of the scratch buffer. */
  method FillScratch(pixels: seq<Rgbe>, scratch: array<byte>)
    requires scratch.Length == 4 * |pixels|
    modifies scratch
    ensures forall c :: 0 <= c < 4 ==> ScratchPlane(scratch[..], |pixels|, c) == Planes(pixels)[c]
  {
    var width := |pixels|;
    assert Filled(scratch[..], pixels, 0);
    hide *;
    for x := 0 to width
      invariant Filled(scratch[..], pixels, x)
    {
      ghost var s := scratch[..];
      scratch[x] := pixels[x].r;
      scratch[x + width] := pixels[x].g;
      scratch[x + width * 2] := pixels[x].b;
      scratch[x + width * 3] := pixels[x].e;
      FillStep(s, scratch[..], pixels, x);
    }
    FilledPlanes(scratch[..], pixels);
  }

  /** The four planes, one after the other. */
  method WritePlanes(ctx: WriteContext, planes: seq<seq<byte>>, width: nat, scratch: array<byte>) returns (ghost codes: seq<seq<Stretch>>)
    requires ctx.Valid() && ctx.used == 0 && scratch.Length == 4 * width
    requires |planes| == 4 && forall c :: 0 <= c < 4 ==> ScratchPlane(scratch[..], width, c) == planes[c] && |planes[c]| == width
    modifies ctx
    ensures ctx.Valid() && ctx.used == 0 && PlanesOk(codes, planes, width)
    ensures ctx.Written() == old(ctx.Written()) + PlanesBytes(codes)
  {
    ghost var before := ctx.Written();
    codes := [];
    assert PlanesOk(codes, planes[..0], width) && before + PlanesBytes(codes) == before;
    hide *;
    for c := 0 to 4
      invariant ctx.Valid() && ctx.used == 0 && PlanesOk(codes, planes[..c], width)
      invariant ctx.Written() == before + PlanesBytes(codes)
    {
      ghost var ss := WriteComponent(ctx, ScratchPlane(scratch[..], width, c));
      AddPlane(codes, ss);
      MorePlanes(codes, ss, planes, c, width);
      Associative(before, PlanesBytes(codes), AllBytes(ss));
      codes := codes + [ss];
    }
    assert planes[..4] == planes;
  }

  lemma MorePlanes(codes: seq<seq<Stretch>>, ss: seq<Stretch>, planes: seq<seq<byte>>, c: nat, width: nat)
    requires c < |planes| && PlanesOk(codes, planes[..c], width) && AllOk(ss) && AllData(ss) == planes[c] && |planes[c]| == width
    ensures PlanesOk(codes + [ss], planes[..c + 1], width)
  {
    hide AllOk, AllData;
  }

  method WriteScanline(ctx: WriteContext, pixels: seq<Rgbe>, scratch: array<byte>)
    returns (ghost line: seq<byte>, ghost codes: seq<seq<Stretch>>)
    requires ctx.Valid() && ctx.used == 0 && scratch.Length == 4 * |pixels| && scratch != ctx.buffer
    modifies ctx, scratch
    ensures ctx.Valid() && ctx.used == 0 && ctx.Written() == old(ctx.Written()) + line && IsScanline(line, pixels, codes)
    ensures |pixels| < 8 || 32768 <= |pixels| ==> line == FlatBytes(pixels)
    ensures 8 <= |pixels| < 32768 ==> |line| >= 4 && line[..4] == [2, 2, |pixels| / 256, |pixels| % 256]
  {
    var width := |pixels|;
    codes := [];
    if width < 32768 {
      HeaderBytes(width);
    }
    hide PlanesOk, PlanesBytes, Planes, ScanlineHeader, FlatBytes, ScratchPlane, WriteContext.Written;
    if width < 8 || width >= 32768 {
      WriteFlat(ctx, pixels);
      line := FlatBytes(pixels);
    } else {
      ghost var before := ctx.Written();
      FillScratch(pixels, scratch);
      assert ctx.Written() == before;
      ctx.Func(ScanlineHeader(width));
      codes := WritePlanes(ctx, Planes(pixels), width, scratch);
      line := ScanlineHeader(width) + PlanesBytes(codes);
      Split(ScanlineHeader(width), PlanesBytes(codes));
      Associative(before, ScanlineHeader(width), PlanesBytes(codes));
    }
  }
}
