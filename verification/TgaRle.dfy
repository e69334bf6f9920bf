/** The run-length encoded TGA writer, proved against a decoder of the file format: every scan line
    decodes on its own to exactly its pixels. */
module TgaRle {
  import opened Sequences
  import opened Options
  import opened Bits
  import opened Layout
  import opened WriteContexts

  type Pixel = seq<byte>

  // ---- Decoder ----

  /** Order of a pixel's bytes in the file: blue, green, red, then alpha; mono pixels as they are.
      The same exchange takes them back. */
  function FileOrder(px: Pixel): (r: Pixel)
    requires 1 <= |px| <= 4
    ensures |r| == |px|
  {
    if |px| <= 2 then px
    else if |px| == 3 then [px[2], px[1], px[0]]
    else [px[2], px[1], px[0], px[3]]
  }

  function DecodeRaw(bytes: seq<byte>, count: nat, comp: nat): (r: Option<(seq<Pixel>, seq<byte>)>)
    requires 1 <= comp <= 4
    ensures r.Some? ==> |r.value.0| == count && |r.value.1| <= |bytes|
    decreases count
  {
    if count == 0 then Some(([], bytes))
    else if |bytes| < comp then None
    else
      match DecodeRaw(bytes[comp..], count - 1, comp)
      case None => None
      case Some(r) => Some(([FileOrder(bytes[..comp])] + r.0, r.1))
  }

  /** Packets until exactly x pixels are read: a packet that crosses the end of the line is an error. */
  function DecodeRow(bytes: seq<byte>, x: nat, comp: nat): (r: Option<(seq<Pixel>, seq<byte>)>)
    requires 1 <= comp <= 4
    ensures r.Some? ==> |r.value.0| == x && |r.value.1| <= |bytes|
    decreases |bytes|
  {
    if x == 0 then Some(([], bytes))
    else if bytes == [] then None
    else
      var count := bytes[0] % 128 + 1;
      if count > x then None
      else if bytes[0] >= 128 then
        if |bytes| < 1 + comp then None
        else
          match DecodeRow(bytes[1 + comp..], x - count, comp)
          case None => None
          case Some(r) => Some((Repeat(FileOrder(bytes[1..1 + comp]), count) + r.0, r.1))
      else
        match DecodeRaw(bytes[1..], count, comp)
        case None => None
        case Some(raw) =>
          match DecodeRow(raw.1, x - count, comp)
          case None => None
          case Some(r) => Some((raw.0 + r.0, r.1))
  }

  function DecodeRows(bytes: seq<byte>, x: nat, y: nat, comp: nat): (r: Option<(seq<seq<Pixel>>, seq<byte>)>)
    requires 1 <= comp <= 4
    ensures r.Some? ==> |r.value.0| == y
    decreases y
  {
    if y == 0 then Some(([], bytes))
    else
      match DecodeRow(bytes, x, comp)
      case None => None
      case Some(row) =>
        match DecodeRows(row.1, x, y - 1, comp)
        case None => None
        case Some(r) => Some(([row.0] + r.0, r.1))
  }

  /** A decoded picture, rows from top to bottom. */
  datatype Picture = Picture(x: nat, y: nat, comp: nat, rows: seq<seq<Pixel>>)

  function Reversed<T>(s: seq<T>): (r: seq<T>)
    ensures |r| == |s| && forall k :: 0 <= k < |s| ==> r[k] == s[|s| - 1 - k]
  {
    seq(|s|, k requires 0 <= k < |s| => s[|s| - 1 - k])
  }

  function Word(low: int, high: int): int { low + 256 * high }

  /** Run-length encoded true-colour (10) or grey (11) files with the origin at the bottom left. */
  function DecodeTga(file: seq<byte>): Option<Picture> {
    if |file| < 18 || file[0] != 0 || file[1] != 0 then None
    else
      var x, y := Word(file[12], file[13]), Word(file[14], file[15]);
      var comp := file[16] / 8;
      if file[16] % 8 != 0 || !(1 <= comp <= 4) then None
      else if file[2] != (if comp <= 2 then 11 else 10) || file[17] != (if comp == 2 || comp == 4 then 8 else 0) then None
      else
        match DecodeRows(file[18..], x, y, comp)
        case None => None
        case Some(r) => if r.1 == [] then Some(Picture(x, y, comp, Reversed(r.0))) else None
  }

  // ---- Packets ----

  datatype Packet = Run(px: Pixel, count: nat) | Raw(pixels: seq<Pixel>)

  predicate PacketOk(p: Packet, comp: nat) {
    match p
    case Run(px, count) => |px| == comp && 1 <= count <= 128
    case Raw(pixels) => 1 <= |pixels| <= 128 && forall k :: 0 <= k < |pixels| ==> |pixels[k]| == comp
  }

  function RawBytes(pixels: seq<Pixel>): seq<byte>
    requires forall k :: 0 <= k < |pixels| ==> 1 <= |pixels[k]| <= 4
  {
    if pixels == [] then [] else RawBytes(pixels[..|pixels| - 1]) + FileOrder(pixels[|pixels| - 1])
  }

  function PacketBytes(p: Packet, comp: nat): seq<byte>
    requires PacketOk(p, comp) && 1 <= comp <= 4
  {
    match p
    case Run(px, count) => [127 + count] + FileOrder(px)
    case Raw(pixels) => [|pixels| - 1] + RawBytes(pixels)
  }

  function PacketPixels(p: Packet): seq<Pixel> {
    match p
    case Run(px, count) => Repeat(px, count)
    case Raw(pixels) => pixels
  }

  ghost predicate PacketsOk(ps: seq<Packet>, comp: nat) {
    forall k :: 0 <= k < |ps| ==> PacketOk(ps[k], comp)
  }

  function PacketsBytes(ps: seq<Packet>, comp: nat): seq<byte>
    requires PacketsOk(ps, comp) && 1 <= comp <= 4
  {
    if ps == [] then [] else PacketsBytes(ps[..|ps| - 1], comp) + PacketBytes(ps[|ps| - 1], comp)
  }

  function PacketsPixels(ps: seq<Packet>): seq<Pixel> {
    if ps == [] then [] else PacketsPixels(ps[..|ps| - 1]) + PacketPixels(ps[|ps| - 1])
  }

  /** Bytes of a raw packet, from the front. */
  lemma {:induction false} RawFront(pixels: seq<Pixel>)
    requires pixels != [] && forall k :: 0 <= k < |pixels| ==> 1 <= |pixels[k]| <= 4
    ensures RawBytes(pixels) == FileOrder(pixels[0]) + RawBytes(pixels[1..])
  {
    hide FileOrder;
    var last := |pixels| - 1;
    if last > 0 {
      RawFront(pixels[..last]);
      assert pixels[..last][1..] == pixels[1..][..last - 1];
      Associative(FileOrder(pixels[0]), RawBytes(pixels[1..][..last - 1]), FileOrder(pixels[last]));
    } else {
      assert pixels[1..] == [] && pixels[..0] == [];
    }
  }

  lemma Involution(px: Pixel)
    requires 1 <= |px| <= 4
    ensures FileOrder(FileOrder(px)) == px
  {
  }

  lemma {:induction false} DecodeRawBytes(pixels: seq<Pixel>, comp: nat, rest: seq<byte>)
    requires 1 <= comp <= 4 && forall k :: 0 <= k < |pixels| ==> |pixels[k]| == comp
    ensures DecodeRaw(RawBytes(pixels) + rest, |pixels|, comp) == Some((pixels, rest))
  {
    hide FileOrder;
    if pixels == [] {
      assert RawBytes(pixels) + rest == rest;
    } else {
      RawFront(pixels);
      DecodeRawBytes(pixels[1..], comp, rest);
      var f, more := FileOrder(pixels[0]), RawBytes(pixels[1..]);
      hide RawBytes;
      Associative(f, more, rest);
      Split(f, more + rest);
      Involution(pixels[0]);
      assert pixels == [pixels[0]] + pixels[1..];
    }
  }

  lemma ReadRun(header: byte, f: seq<byte>, after: seq<byte>, comp: nat, x: nat)
    requires header >= 128 && header - 127 <= x && |f| == comp && 1 <= comp <= 4
    ensures DecodeRow([header] + f + after, x, comp) ==
      match DecodeRow(after, x - (header - 127), comp)
      case None => None
      case Some(r) => Some((Repeat(FileOrder(f), header - 127) + r.0, r.1))
  {
    hide FileOrder, Repeat, DecodeRaw;
    var bytes := [header] + f + after;
    assert bytes[1..1 + comp] == f && bytes[1 + comp..] == after;
  }

  lemma ReadRaw(bytes: seq<byte>, after: seq<byte>, pixels: seq<Pixel>, comp: nat, x: nat)
    requires bytes != [] && bytes[0] < 128 && bytes[0] + 1 == |pixels| <= x && 1 <= comp <= 4
    requires DecodeRaw(bytes[1..], |pixels|, comp) == Some((pixels, after))
    ensures DecodeRow(bytes, x, comp) ==
      match DecodeRow(after, x - |pixels|, comp)
      case None => None
      case Some(r) => Some((pixels + r.0, r.1))
  {
    hide FileOrder, Repeat, DecodeRaw;
  }

  lemma DecodePacket(p: Packet, comp: nat, x: nat, after: seq<byte>)
    requires PacketOk(p, comp) && 1 <= comp <= 4 && |PacketPixels(p)| <= x
    ensures DecodeRow(PacketBytes(p, comp) + after, x, comp) ==
      match DecodeRow(after, x - |PacketPixels(p)|, comp)
      case None => None
      case Some(r) => Some((PacketPixels(p) + r.0, r.1))
  {
    hide DecodeRow, DecodeRaw, FileOrder, RawBytes;
    match p
    case Run(px, count) =>
      Involution(px);
      ReadRun(127 + count, FileOrder(px), after, comp, x);
    case Raw(pixels) =>
      DecodeRawBytes(pixels, comp, after);
      var bytes := PacketBytes(p, comp) + after;
      assert bytes[1..] == RawBytes(pixels) + after;
      ReadRaw(bytes, after, pixels, comp, x);
  }

  lemma {:induction false} DecodePackets(ps: seq<Packet>, comp: nat, x: nat, after: seq<byte>)
    requires PacketsOk(ps, comp) && 1 <= comp <= 4 && |PacketsPixels(ps)| <= x
    ensures DecodeRow(PacketsBytes(ps, comp) + after, x, comp) ==
      match DecodeRow(after, x - |PacketsPixels(ps)|, comp)
      case None => None
      case Some(r) => Some((PacketsPixels(ps) + r.0, r.1))
    decreases |ps|
  {
    hide DecodeRow, PacketBytes, PacketPixels, PacketOk;
    if ps == [] {
      assert PacketsBytes(ps, comp) + after == after;
      var rest := DecodeRow(after, x, comp);
      if rest.Some? {
        assert PacketsPixels(ps) + rest.value.0 == rest.value.0;
      }
    } else {
      var init, last := ps[..|ps| - 1], ps[|ps| - 1];
      Associative(PacketsBytes(init, comp), PacketBytes(last, comp), after);
      DecodePackets(init, comp, x, PacketBytes(last, comp) + after);
      DecodePacket(last, comp, x - |PacketsPixels(init)|, after);
      hide *;
      var rest := DecodeRow(after, x - |PacketsPixels(ps)|, comp);
      if rest.Some? {
        Associative(PacketsPixels(init), PacketPixels(last), rest.value.0);
      }
    }
  }

  /** Main result on one line: its packets decode to its pixels and leave what follows. */
  lemma DecodeLine(ps: seq<Packet>, comp: nat, row: seq<Pixel>, after: seq<byte>)
    requires PacketsOk(ps, comp) && 1 <= comp <= 4 && PacketsPixels(ps) == row
    ensures DecodeRow(PacketsBytes(ps, comp) + after, |row|, comp) == Some((row, after))
  {
    hide DecodeRow, PacketsOk, PacketsBytes, PacketsPixels;
    DecodePackets(ps, comp, |row|, after);
    NothingLeft(after, comp);
    assert row + [] == row;
  }

  lemma NothingLeft(after: seq<byte>, comp: nat)
    requires 1 <= comp <= 4
    ensures DecodeRow(after, 0, comp) == Some(([], after))
  {
  }

  // ---- Scan lines ----

  ghost predicate LineOk(line: seq<Packet>, row: seq<Pixel>, comp: nat) {
    PacketsOk(line, comp) && PacketsPixels(line) == row
  }

  ghost predicate LinesOk(lines: seq<seq<Packet>>, rows: seq<seq<Pixel>>, x: nat, comp: nat) {
    |lines| == |rows| && forall r :: 0 <= r < |rows| ==> LineOk(lines[r], rows[r], comp) && |rows[r]| == x
  }

  function LinesBytes(lines: seq<seq<Packet>>, comp: nat): seq<byte>
    requires 1 <= comp <= 4 && forall r :: 0 <= r < |lines| ==> PacketsOk(lines[r], comp)
  {
    if lines == [] then [] else PacketsBytes(lines[0], comp) + LinesBytes(lines[1..], comp)
  }

  lemma {:induction false} LinesAppend(lines: seq<seq<Packet>>, line: seq<Packet>, comp: nat)
    requires 1 <= comp <= 4 && PacketsOk(line, comp) && forall r :: 0 <= r < |lines| ==> PacketsOk(lines[r], comp)
    ensures LinesBytes(lines + [line], comp) == LinesBytes(lines, comp) + PacketsBytes(line, comp)
    decreases |lines|
  {
    hide PacketsBytes, PacketsOk;
    if lines == [] {
      assert [line][1..] == [];
    } else {
      assert (lines + [line])[1..] == lines[1..] + [line];
      LinesAppend(lines[1..], line, comp);
    }
  }

  lemma DecodeRowsStep(bytes: seq<byte>, x: nat, y: nat, comp: nat, row: seq<Pixel>, rest: seq<byte>, rows: seq<seq<Pixel>>)
    requires 1 <= comp <= 4 && DecodeRow(bytes, x, comp) == Some((row, rest))
    requires DecodeRows(rest, x, y, comp) == Some((rows, []))
    ensures DecodeRows(bytes, x, y + 1, comp) == Some(([row] + rows, []))
  {
    hide DecodeRow;
  }

  lemma AllPacketsOk(lines: seq<seq<Packet>>, rows: seq<seq<Pixel>>, x: nat, comp: nat)
    requires LinesOk(lines, rows, x, comp)
    ensures forall r :: 0 <= r < |lines| ==> PacketsOk(lines[r], comp)
  {
    hide PacketsOk;
  }

  lemma FirstLine(lines: seq<seq<Packet>>, rows: seq<seq<Pixel>>, x: nat, comp: nat)
    requires 1 <= comp <= 4 && LinesOk(lines, rows, x, comp) && rows != []
    ensures lines != [] && LinesOk(lines[1..], rows[1..], x, comp) && PacketsOk(lines[0], comp) && PacketsPixels(lines[0]) == rows[0] && |rows[0]| == x
    ensures LinesBytes(lines, comp) == PacketsBytes(lines[0], comp) + LinesBytes(lines[1..], comp)
  {
    assert LineOk(lines[0], rows[0], comp);
    hide PacketsBytes, PacketsPixels, PacketsOk;
  }

  lemma NoLines(lines: seq<seq<Packet>>, x: nat, comp: nat)
    requires 1 <= comp <= 4 && LinesOk(lines, [], x, comp)
    ensures DecodeRows(LinesBytes(lines, comp), x, 0, comp) == Some(([], []))
  {
  }

  /** Main result on the body: every scan line is decoded on its own, in file order. */
  lemma {:induction false} DecodeLines(lines: seq<seq<Packet>>, rows: seq<seq<Pixel>>, x: nat, comp: nat)
    requires 1 <= comp <= 4 && LinesOk(lines, rows, x, comp)
    ensures DecodeRows(LinesBytes(lines, comp), x, |rows|, comp) == Some((rows, []))
    decreases |rows|
  {
    hide *;
    if rows == [] {
      NoLines(lines, x, comp);
    } else {
      FirstLine(lines, rows, x, comp);
      AllPacketsOk(lines[1..], rows[1..], x, comp);
      var rest := LinesBytes(lines[1..], comp);
      DecodeLine(lines[0], comp, rows[0], rest);
      DecodeLines(lines[1..], rows[1..], x, comp);
      DecodeRowsStep(PacketsBytes(lines[0], comp) + rest, x, |rows| - 1, comp, rows[0], rest, rows[1..]);
      assert rows == [rows[0]] + rows[1..];
    }
  }

  // ---- The writer ----

  /** The scan at position i: how many pixels the next packet covers, and whether they differ. */
  method ScanPacket(row: seq<Pixel>, i: nat) returns (len: nat, diff: bool)
    requires i < |row|
    ensures 1 <= len <= 128 && i + len <= |row|
    ensures !diff ==> len >= 2 && forall k :: i <= k < i + len ==> row[k] == row[i]
    ensures !diff ==> len == 128 || i + len == |row| || row[i + len] != row[i]
  {
    diff, len := true, 1;
    if i < |row| - 1 {
      len := 2;
      diff := row[i] != row[i + 1];
      var k := i + 2;
      if diff {
        var prev := i;
        while k < |row| && len < 128
          invariant i + 2 <= k <= |row| && prev == k - 2 && len == k - i && len <= 128
        {
          if row[prev] != row[k] {
            prev := prev + 1;
            len := len + 1;
          } else {
            len := len - 1;
            break;
          }
          k := k + 1;
        }
      } else {
        while k < |row| && len < 128
          invariant i + 2 <= k <= |row| && len == k - i && len <= 128
          invariant forall m :: i <= m < k ==> row[m] == row[i]
        {
          if row[i] == row[k] {
            len := len + 1;
          } else {
            break;
          }
          k := k + 1;
        }
      }
    }
  }

  /** A pixel as TGA asks for it: colour bytes reversed, alpha last. */
  method WritePixel(ctx: WriteContext, comp: nat, writeAlpha: bool, d: Pixel)
    requires ctx.Valid() && |d| == comp && 1 <= comp <= 4 && (writeAlpha <==> comp == 2 || comp == 4)
    modifies ctx, ctx.buffer
    ensures ctx.Valid() && ctx.Written() == old(ctx.Written()) + FileOrder(d)
  {
    hide *;
    FileOrderCases(d);
    if comp <= 2 {
      ctx.Write1(d[0]);
    } else {
      ctx.Write3(d[2], d[1], d[0]);
    }
    if writeAlpha {
      ctx.Write1(d[comp - 1]);
    }
  }

  lemma FileOrderCases(d: Pixel)
    requires 1 <= |d| <= 4
    ensures |d| == 1 ==> FileOrder(d) == [d[0]]
    ensures |d| == 2 ==> FileOrder(d) == [d[0]] + [d[1]]
    ensures |d| == 3 ==> FileOrder(d) == [d[2], d[1], d[0]]
    ensures |d| == 4 ==> FileOrder(d) == [d[2], d[1], d[0]] + [d[3]]
  {
  }

  /** The loop over one scan line: its packets cover it exactly. */
  method WriteRow(ctx: WriteContext, row: seq<Pixel>, comp: nat, hasAlpha: bool) returns (ghost line: seq<Packet>)
    requires ctx.Valid() && 1 <= comp <= 4 && (hasAlpha <==> comp == 2 || comp == 4)
    requires forall k :: 0 <= k < |row| ==> |row[k]| == comp
    modifies ctx, ctx.buffer
    ensures ctx.Valid() && LineOk(line, row, comp)
    ensures ctx.Written() == old(ctx.Written()) + PacketsBytes(line, comp)
  {
    var i := 0;
    line := [];
    ghost var before := ctx.Written();
    StartLine(row, comp, before);
    hide *;
    while i < |row|
      invariant ctx.Valid() && 0 <= i <= |row|
      invariant LineOk(line, row[..i], comp)
      invariant ctx.Written() == before + PacketsBytes(line, comp)
      decreases |row| - i
    {
      var len, diff := ScanPacket(row, i);
      ghost var p := if diff then Raw(row[i..i + len]) else Run(row[i], len);
      AddPacket(line, p, row, i, len, comp);
      if diff {
        WriteRaw(ctx, row[i..i + len], comp, hasAlpha);
      } else {
        WriteRun(ctx, row[i], len, comp, hasAlpha);
      }
      Associative(before, PacketsBytes(line, comp), PacketBytes(p, comp));
      line := line + [p];
      i := i + len;
    }
    assert row[..|row|] == row;
  }

  lemma StartLine(row: seq<Pixel>, comp: nat, before: seq<byte>)
    requires 1 <= comp <= 4
    ensures LineOk([], row[..0], comp) && before + PacketsBytes([], comp) == before
  {
  }

  lemma AddPacket(line: seq<Packet>, p: Packet, row: seq<Pixel>, i: nat, len: nat, comp: nat)
    requires i + len <= |row| && 1 <= len <= 128 && 1 <= comp <= 4 && LineOk(line, row[..i], comp)
    requires forall k :: 0 <= k < |row| ==> |row[k]| == comp
    requires p == Raw(row[i..i + len]) || (p == Run(row[i], len) && forall k :: i <= k < i + len ==> row[k] == row[i])
    ensures PacketOk(p, comp) && LineOk(line + [p], row[..i + len], comp)
    ensures PacketsBytes(line + [p], comp) == PacketsBytes(line, comp) + PacketBytes(p, comp)
  {
    hide PacketBytes;
    assert (line + [p])[..|line|] == line;
    assert PacketPixels(p) == row[i..i + len];
    assert row[..i] + row[i..i + len] == row[..i + len];
  }

  method WriteRun(ctx: WriteContext, px: Pixel, len: nat, comp: nat, hasAlpha: bool)
    requires ctx.Valid() && 1 <= comp <= 4 && (hasAlpha <==> comp == 2 || comp == 4) && PacketOk(Run(px, len), comp)
    modifies ctx, ctx.buffer
    ensures ctx.Valid() && ctx.Written() == old(ctx.Written()) + PacketBytes(Run(px, len), comp)
  {
    hide WriteContext.Written, WriteContext.Valid, FileOrder;
    ctx.Write1((len - 129) % 256);
    WritePixel(ctx, comp, hasAlpha, px);
  }

  lemma RawStep(pixels: seq<Pixel>, k: nat)
    requires k < |pixels| && forall m :: 0 <= m < |pixels| ==> 1 <= |pixels[m]| <= 4
    ensures RawBytes(pixels[..k + 1]) == RawBytes(pixels[..k]) + FileOrder(pixels[k])
  {
    hide FileOrder;
    assert pixels[..k + 1][..k] == pixels[..k];
  }

  method WriteRaw(ctx: WriteContext, pixels: seq<Pixel>, comp: nat, hasAlpha: bool)
    requires ctx.Valid() && 1 <= comp <= 4 && (hasAlpha <==> comp == 2 || comp == 4) && PacketOk(Raw(pixels), comp)
    modifies ctx, ctx.buffer
    ensures ctx.Valid() && ctx.Written() == old(ctx.Written()) + PacketBytes(Raw(pixels), comp)
  {
    hide *;
    ghost var start := ctx.Written();
    RawUnfold(pixels, comp);
    ctx.Write1((|pixels| - 1) % 256);
    ghost var before := ctx.Written();
    assert before + [] == before;
    for k := 0 to |pixels|
      invariant ctx.Valid() && ctx.Written() == before + RawBytes(pixels[..k])
    {
      RawStep(pixels, k);
      Associative(before, RawBytes(pixels[..k]), FileOrder(pixels[k]));
      WritePixel(ctx, comp, hasAlpha, pixels[k]);
    }
    assert pixels[..|pixels|] == pixels;
    Associative(start, [|pixels| - 1], RawBytes(pixels));
  }

  lemma RawUnfold(pixels: seq<Pixel>, comp: nat)
    requires PacketOk(Raw(pixels), comp) && 1 <= comp <= 4
    ensures PacketBytes(Raw(pixels), comp) == [|pixels| - 1] + RawBytes(pixels)
    ensures RawBytes(pixels[..0]) == [] && 1 <= |pixels| <= 128
    ensures forall k :: 0 <= k < |pixels| ==> |pixels[k]| == comp
  {
  }

  // ---- The file ----

  /** Offset of pixel i of row j. */
  function PixelOffset(x: nat, comp: nat, j: nat, i: nat): nat { Flat(Flat(j, x) + i, comp) }

  lemma PixelInside(x: nat, y: nat, comp: nat, j: nat, i: nat)
    requires j < y && i < x
    ensures PixelOffset(x, comp, j, i) + comp <= PixelOffset(x, comp, y, 0)
  {
    hide Flat;
    FlatInside(j, y, x);
    FlatInside(Flat(j, x) + i, Flat(y, x), comp);
  }

  function PixelAt(data: seq<byte>, x: nat, y: nat, comp: nat, j: nat, i: nat): (px: Pixel)
    requires j < y && i < x && PixelOffset(x, comp, y, 0) <= |data|
    ensures |px| == comp
  {
    hide PixelOffset;
    PixelInside(x, y, comp, j, i);
    data[PixelOffset(x, comp, j, i)..PixelOffset(x, comp, j, i) + comp]
  }

  /** Row j of an image in memory. */
  function Row(data: seq<byte>, x: nat, y: nat, comp: nat, j: nat): (row: seq<Pixel>)
    requires j < y && PixelOffset(x, comp, y, 0) <= |data|
    ensures |row| == x && forall i :: 0 <= i < x ==> |row[i]| == comp
  {
    hide PixelOffset, PixelAt;
    seq(x, i requires 0 <= i < x => PixelAt(data, x, y, comp, j, i))
  }

  /** The image as a viewer shows it, upside down when the writer was asked to flip. */
  function Shown(data: seq<byte>, x: nat, y: nat, comp: nat, flip: bool): (p: Picture)
    requires PixelOffset(x, comp, y, 0) <= |data|
    ensures p.x == x && p.y == y
  {
    Picture(x, y, comp, seq(y, r requires 0 <= r < y => Row(data, x, y, comp, if flip then y - 1 - r else r)))
  }

  /** Where the writer finds what a viewer shows at column i of row r: component c of that pixel is byte
      (row * x + i) * comp + c of the data, and the rows run the other way when flipped. */
  lemma ShownAt(data: seq<byte>, x: nat, y: nat, comp: nat, flip: bool, r: nat, i: nat, c: nat)
    requires r < y && i < x && c < comp && PixelOffset(x, comp, y, 0) <= |data|
    ensures var shown, row := Shown(data, x, y, comp, flip).rows, if flip then y - 1 - r else r;
      && |shown| == y && |shown[r]| == x && |shown[r][i]| == comp
      && 0 <= (row * x + i) * comp + c < |data|
      && shown[r][i][c] == data[(row * x + i) * comp + c]
  {
    var row := if flip then y - 1 - r else r;
    PixelInside(x, y, comp, row, i);
    OffsetInNumbers(x, comp, row, i);
    hide PixelOffset;
  }

  lemma OffsetInNumbers(x: nat, comp: nat, j: nat, i: nat)
    ensures PixelOffset(x, comp, j, i) == (j * x + i) * comp
  {
  }

  function Header(x: nat, y: nat, comp: nat): (h: seq<byte>)
    requires 1 <= comp <= 4
    ensures |h| == 18
  {
    var hasAlpha := comp == 2 || comp == 4;
    var colorbytes := if hasAlpha then comp - 1 else comp;
    var format := if colorbytes < 2 then 3 else 2;
    [0, 0, format + 8, 0, 0, 0, 0, 0, 0, 0, 0, 0, x % 256, x / 256 % 256, y % 256, y / 256 % 256,
     (colorbytes + if hasAlpha then 1 else 0) * 8, if hasAlpha then 8 else 0]
  }

  lemma HeaderFields(x: nat, y: nat, comp: nat)
    requires 1 <= comp <= 4
    ensures var h := Header(x, y, comp);
      && h[0] == 0 && h[1] == 0 && h[2] == (if comp <= 2 then 11 else 10)
      && Word(h[12], h[13]) == x % 65536 && Word(h[14], h[15]) == y % 65536
      && h[16] == 8 * comp && h[17] == if comp == 2 || comp == 4 then 8 else 0
  {
    WordOf(x);
    WordOf(y);
    hide Word;
  }

  lemma ParseHeader(h: seq<byte>, body: seq<byte>, width: nat, height: nat, comp: nat)
    requires |h| == 18 && 1 <= comp <= 4 && h[0] == 0 && h[1] == 0 && h[2] == (if comp <= 2 then 11 else 10)
    requires Word(h[12], h[13]) == width && Word(h[14], h[15]) == height
    requires h[16] == 8 * comp && h[17] == if comp == 2 || comp == 4 then 8 else 0
    ensures DecodeTga(h + body) ==
      match DecodeRows(body, width, height, comp)
      case None => None
      case Some(r) => if r.1 == [] then Some(Picture(width, height, comp, Reversed(r.0))) else None
  {
    hide DecodeRows, Reversed, Word;
    Split(h, body);
    var file := h + body;
    assert file[2] == h[2] && file[12] == h[12] && file[13] == h[13] && file[14] == h[14] && file[15] == h[15];
    assert file[16] == 8 * comp && file[17] == h[17];
  }

  lemma DecodeHeader(x: nat, y: nat, comp: nat, body: seq<byte>)
    requires 1 <= comp <= 4
    ensures DecodeTga(Header(x, y, comp) + body) ==
      match DecodeRows(body, x % 65536, y % 65536, comp)
      case None => None
      case Some(r) => if r.1 == [] then Some(Picture(x % 65536, y % 65536, comp, Reversed(r.0))) else None
  {
    hide *;
    HeaderFields(x, y, comp);
    ParseHeader(Header(x, y, comp), body, x % 65536, y % 65536, comp);
  }

  lemma WordOf(v: nat)
    ensures Word(v % 256, v / 256 % 256) == v % 65536
  {
  }

  /** The row written n-th, and one past the last. */
  function Cursor(y: nat, flip: bool, n: nat): int { if flip then n else y - 1 - n }

  lemma CursorMoves(y: nat, flip: bool, n: nat)
    ensures Cursor(y, flip, 0) == (if flip then 0 else y - 1) && Cursor(y, flip, y) == (if flip then y else -1)
    ensures Cursor(y, flip, n + 1) == Cursor(y, flip, n) + (if flip then 1 else -1)
    ensures n < y ==> 0 <= Cursor(y, flip, n) < y
    ensures Cursor(y, flip, n) == Cursor(y, flip, y) ==> n == y
  {
  }

  ghost predicate InOrder(rows: seq<seq<Pixel>>, data: seq<byte>, x: nat, y: nat, comp: nat, flip: bool)
    requires |rows| <= y && PixelOffset(x, comp, y, 0) <= |data|
  {
    forall n :: 0 <= n < |rows| ==> rows[n] == Row(data, x, y, comp, Cursor(y, flip, n))
  }

  method WriteBody(ctx: WriteContext, data: seq<byte>, x: nat, y: nat, comp: nat, flip: bool)
    returns (ghost lines: seq<seq<Packet>>, ghost rows: seq<seq<Pixel>>)
    requires ctx.Valid() && 1 <= comp <= 4 && PixelOffset(x, comp, y, 0) <= |data|
    modifies ctx, ctx.buffer
    ensures ctx.Valid() && |rows| == y && LinesOk(lines, rows, x, comp) && InOrder(rows, data, x, y, comp, flip)
    ensures ctx.Written() == old(ctx.Written()) + LinesBytes(lines, comp)
  {
    lines, rows := [], [];
    ghost var before := ctx.Written();
    assert InOrder(rows, data, x, y, comp, flip) && LinesOk(lines, rows, x, comp) && before + LinesBytes(lines, comp) == before;
    CursorMoves(y, flip, 0);
    hide *;
    var hasAlpha := comp == 2 || comp == 4;
    var j, jend, jdir := if flip then 0 else y - 1, if flip then y as int else -1, if flip then 1 else -1;
    while j != jend
      invariant |rows| <= y && j == Cursor(y, flip, |rows|) && jend == Cursor(y, flip, y)
      invariant ctx.Valid() && LinesOk(lines, rows, x, comp) && InOrder(rows, data, x, y, comp, flip)
      invariant ctx.Written() == before + LinesBytes(lines, comp)
      decreases y - |rows|
    {
      CursorMoves(y, flip, |rows|);
      var row := Row(data, x, y, comp, j);
      ghost var line := WriteRow(ctx, row, comp, hasAlpha);
      AddRow(lines, rows, line, row, x, comp);
      NextInOrder(rows, data, x, y, comp, flip);
      Associative(before, LinesBytes(lines, comp), PacketsBytes(line, comp));
      lines, rows := lines + [line], rows + [row];
      j := j + jdir;
    }
    CursorMoves(y, flip, |rows|);
  }

  lemma NextInOrder(rows: seq<seq<Pixel>>, data: seq<byte>, x: nat, y: nat, comp: nat, flip: bool)
    requires |rows| < y && PixelOffset(x, comp, y, 0) <= |data| && InOrder(rows, data, x, y, comp, flip)
    ensures 0 <= Cursor(y, flip, |rows|) < y
    ensures InOrder(rows + [Row(data, x, y, comp, Cursor(y, flip, |rows|))], data, x, y, comp, flip)
  {
    hide Row, PixelOffset;
  }

  lemma AddRow(lines: seq<seq<Packet>>, rows: seq<seq<Pixel>>, line: seq<Packet>, row: seq<Pixel>, x: nat, comp: nat)
    requires 1 <= comp <= 4 && LinesOk(lines, rows, x, comp) && LineOk(line, row, comp) && |row| == x
    ensures LinesOk(lines + [line], rows + [row], x, comp)
    ensures LinesBytes(lines + [line], comp) == LinesBytes(lines, comp) + PacketsBytes(line, comp)
  {
    LinesAppend(lines, line, comp);
  }

  lemma ShownRows(data: seq<byte>, x: nat, y: nat, comp: nat, flip: bool, rows: seq<seq<Pixel>>)
    requires PixelOffset(x, comp, y, 0) <= |data| && |rows| == y && InOrder(rows, data, x, y, comp, flip)
    ensures Shown(data, x, y, comp, flip) == Picture(x, y, comp, Reversed(rows))
  {
    hide Row, PixelOffset;
    var shown := Shown(data, x, y, comp, flip).rows;
    forall r | 0 <= r < y ensures Reversed(rows)[r] == shown[r] {
      assert rows[y - 1 - r] == Row(data, x, y, comp, Cursor(y, flip, y - 1 - r));
    }
  }

  lemma FileDecodes(data: seq<byte>, x: nat, y: nat, comp: nat, flip: bool, lines: seq<seq<Packet>>, rows: seq<seq<Pixel>>)
    requires 1 <= comp <= 4 && PixelOffset(x, comp, y, 0) <= |data|
    requires |rows| == y && LinesOk(lines, rows, x, comp) && InOrder(rows, data, x, y, comp, flip)
    ensures DecodeTga(Header(x, y, comp) + LinesBytes(lines, comp)) == Some(Shown(data, x, y, comp, flip)) <==> x < 65536 && y < 65536
  {
    hide *;
    AllPacketsOk(lines, rows, x, comp);
    DecodeHeader(x, y, comp, LinesBytes(lines, comp));
    if x < 65536 && y < 65536 {
      DecodeLines(lines, rows, x, comp);
      ShownRows(data, x, y, comp, flip, rows);
    }
  }

  /** The header byte by byte: run-length encoded colour or grey, sides with the low byte first, bits in
      a pixel and in its alpha, everything else zero. */
  ghost predicate HeaderIs(h: seq<byte>, x: nat, y: nat, comp: nat) {
    && |h| == 18 && h[0] == h[1] == 0 && h[2] == (if comp <= 2 then 11 else 10)
    && (forall k :: 3 <= k < 12 ==> h[k] == 0)
    && h[12] == x % 256 && h[13] == x / 256 % 256 && h[14] == y % 256 && h[15] == y / 256 % 256
    && h[16] == 8 * comp && h[17] == if comp == 2 || comp == 4 then 8 else 0
  }

  lemma HeaderByByte(x: nat, y: nat, comp: nat)
    requires 1 <= comp <= 4
    ensures HeaderIs(Header(x, y, comp), x, y, comp)
  {
  }

  /** Main result: the file decodes to the image, whatever its pixels, exactly when its sides fit the
      header's 16-bit fields. */
  method WriteTga(data: seq<byte>, x: nat, y: nat, comp: nat, flip: bool) returns (file: seq<byte>)
    requires 1 <= comp <= 4 && PixelOffset(x, comp, y, 0) <= |data|
    ensures DecodeTga(file) == Some(Shown(data, x, y, comp, flip)) <==> x < 65536 && y < 65536
    ensures |file| >= 18 && HeaderIs(file[..18], x, y, comp)
  {
    hide *;
    HeaderByByte(x, y, comp);
    var ctx := new WriteContext();
    ctx.Func(Header(x, y, comp));
    assert [] + Header(x, y, comp) == Header(x, y, comp);
    ghost var lines, rows := WriteBody(ctx, data, x, y, comp, flip);
    ctx.Flush();
    file := ctx.sunk;
    AllPacketsOk(lines, rows, x, comp);
    Split(Header(x, y, comp), LinesBytes(lines, comp));
    FileDecodes(data, x, y, comp, flip, lines, rows);
  }
}
