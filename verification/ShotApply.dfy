/** The whole transform: check the capture, plan, resample, and repack to 8 bits. */
module ShotApply {
  import opened Congruence
  import opened LittleEndian
  import opened ShotPlan
  import opened ShotImage
  import opened ShotBmp
  import opened ShotResample
  import opened ShotPalette
  import opened ShotIndex
  import opened ShotRle8
  import opened Wrappers

  datatype Status = Ok | BadSource | BadOptions | NoRoom

  /** The captures the agent accepts: bottom-up 24-bit BI_RGB, at most 4096 a side. */
  predicate SourceOk(s: seq<u8>) {
    && |s| >= HEADER && s[0] == 0x42 && s[1] == 0x4D
    && Get16(s, 28) == 24 && Get32(s, 30) == 0
    && 1 <= Get32(s, 18) <= 4096 && 1 <= Get32(s, 22) <= 4096
    && HEADER <= Get32(s, 10) <= |s|
    && |s| - Get32(s, 10) >= Stride24(Get32(s, 18)) * Get32(s, 22)
  }

  function CaptureOf(s: seq<u8>): (c: Capture)
    requires SourceOk(s)
    ensures c.Valid()
  {
    Capture(s, Get32(s, 10), Get32(s, 18), Get32(s, 22))
  }

  /** An accepted capture is a picture to the host too. */
  lemma SourceDecodes(s: seq<u8>)
    requires SourceOk(s)
    ensures DecodeBmp(s) == Some(CaptureOf(s).Picture())
  {
    hide Get16, Get32;
  }

  predicate WantsGray(o: Options) {
    o.flags / 2 % 2 == 1
  }

  predicate Wants8(o: Options) {
    o.flags % 4 != 0
  }

  /** The request as the host resolves it. */
  function Planned(s: seq<u8>, o: Options): Option<Plan>
    requires SourceOk(s)
  {
    var c := CaptureOf(s);
    if KnownRequest(o, c.width, c.height) then PlanShot(c.width, c.height, RegionOf(o), ScaleOf(o)) else None
  }

  /** What the host would have shaped from the capture itself. */
  function Wanted(s: seq<u8>, o: Options): Image
    requires SourceOk(s) && Planned(s, o).Some?
  {
    var c := CaptureOf(s);
    PlannedFits(o, c.width, c.height);
    ShapeRgb(c.Picture(), Planned(s, o).value, WantsGray(o))
  }

  /** Room for the 24-bit form, a palette, and an index per pixel. */
  predicate Room(p: Plan, output: nat, indices: nat)
    requires p.outW >= 1 && p.outH >= 1
  {
    output >= HEADER + 1024 + Stride24(p.outW) * p.outH && indices >= p.outW * p.outH
  }

  lemma GrayLast(img: Image, p: Plan)
    requires Rectangular(img) && PlanFits(p, img.width, |img.rows|)
    ensures ShapeRgb(img, p, true) == Grayed(ShapeRgb(img, p, false))
  {
    var a, b := ShapeRgb(img, p, true), Grayed(ShapeRgb(img, p, false));
    forall y | 0 <= y < p.outH
      ensures a.rows[y] == b.rows[y]
    {
      forall x | 0 <= x < p.outW
        ensures a.rows[y][x] == b.rows[y][x]
      {
        GrayPixel(img, p, x, y);
      }
    }
    assert a.rows == b.rows;
  }

  lemma GrayPixel(img: Image, p: Plan, x: nat, y: nat)
    requires Rectangular(img) && PlanFits(p, img.width, |img.rows|) && x < p.outW && y < p.outH
    ensures var c := ShapedPixel(img, p, false, x, y);
            ShapedPixel(img, p, true, x, y) == Rgb(GrayOf(c), GrayOf(c), GrayOf(c))
  {
  }

  lemma Stride8Fits(w: nat, h: nat)
    requires 1 <= w <= 4096 && 1 <= h <= 4096
    ensures 0 <= Stride8(w) * h <= Stride24(w) * h
    ensures Stride8(w) * h <= 4100 * 4096
  {
    assert Stride8(w) <= Stride24(w) by { assert w >= 1; }
    MulBound(Stride8(w), h, Stride24(w), h);
    MulBound(Stride8(w), h, 4100, 4096);
  }

  /** The palette bytes as they stand in the file. */
  ghost predicate PaletteCopied(s: seq<u8>, palette: seq<u8>, colours: nat) {
    && HEADER + 4 * colours <= |s| && 4 * colours <= |palette|
    && forall k :: 0 <= k < 4 * colours ==> s[HEADER + k] == palette[k]
  }

  lemma CopiedEntry(s: seq<u8>, palette: seq<u8>, colours: nat, i: nat, c: Rgb)
    requires PaletteCopied(s, palette, colours) && i < colours && EntryHolds(palette, c, i)
    ensures PaletteEntry(s, i) == c
  {
    assert s[HEADER + 4 * i] == palette[4 * i];
    assert s[HEADER + (4 * i + 1)] == palette[4 * i + 1];
    assert s[HEADER + (4 * i + 2)] == palette[4 * i + 2];
  }

  /** A file with the picture's palette and index rows decodes to the picture. */
  lemma Packed(data: seq<u8>, img: Image, palette: seq<u8>, indices: seq<u8>, colours: nat, compression: int, image: int)
    requires Rectangular(img) && 1 <= img.width <= 4096 && 1 <= |img.rows| <= 4096
    requires 1 <= colours <= MAX_COLOURS && 0 <= compression <= 1 && 0 <= image && |data| == HEADER + colours * 4 + image
    requires HeaderHolds(data, img.width, |img.rows|, 8, compression, colours, image)
    requires PaletteCopied(data, palette, colours)
    requires img.width * |img.rows| <= |indices|
    requires AllIndexed(palette, indices, colours, img, |img.rows|, 0)
    requires IndexRows(data, HEADER + colours * 4, img.width, |img.rows|, compression)
      == Some(IndexGrid(indices, img.width, |img.rows|))
    ensures DecodeBmp(data) == Some(img)
  {
    hide HeaderHolds, PaletteCopied, IndexRows, DecodeBmp, EntryHolds, PaletteEntry;
    var grid := IndexGrid(indices, img.width, |img.rows|);
    forall y, x | 0 <= y < |img.rows| && 0 <= x < img.width
      ensures grid[y][x] < colours && PaletteCopied(data, palette, colours)
      ensures var i: nat := grid[y][x]; HEADER + 4 * i + 4 <= |data|
      ensures PaletteEntry(data, grid[y][x]) == img.rows[|img.rows| - 1 - y][x]
    {
      assert grid[y] == ShotRle8.IndexRow(indices, img.width, |img.rows|, y);
      assert PixelIndexed(palette, indices, colours, img, y, x);
      RowInside(img.width, |img.rows|, y);
      CopiedEntry(data, palette, colours, grid[y][x], img.rows[|img.rows| - 1 - y][x]);
    }
    Decode8Is(data, img, grid, compression, colours, image);
  }

  /** Raw 8-bit rows, padded to the stride. */
  method RawRows(indices: seq<u8>, width: nat, height: nat, out: array<u8>, base: nat)
    requires 1 <= width && width * height <= |indices| && base + Stride8(width) * height <= out.Length
    modifies out
    ensures Rows8(out[..], base, width, height) == IndexGrid(indices, width, height)
    ensures forall k :: 0 <= k < out.Length && !(base <= k < base + Stride8(width) * height) ==> out[k] == old(out[k])
  {
    hide Stride8;
    var stride := Stride8(width);
    for y := 0 to height
      invariant forall z: nat :: z < y ==> RowWritten(out[..], indices, width, height, base, z)
      invariant forall k :: 0 <= k < out.Length && !(base <= k < base + stride * height) ==> out[k] == old(out[k])
    {
      RowInside(stride, height, y);
      ghost var before := out[..];
      RawRow(ShotRle8.IndexRow(indices, width, height, y), out, base + stride * y, stride);
      forall z: nat | z < y + 1
        ensures RowWritten(out[..], indices, width, height, base, z)
      {
        RowInside(stride, height, z);
        if z < y {
          RowInside(stride, y, z);
          assert RowWritten(before, indices, width, height, base, z);
        }
      }
    }
    forall y | 0 <= y < height
      ensures Rows8(out[..], base, width, height)[y] == IndexGrid(indices, width, height)[y]
    {
      assert RowWritten(out[..], indices, width, height, base, y);
    }
  }

  ghost predicate RowWritten(s: seq<u8>, indices: seq<u8>, width: nat, height: nat, base: nat, y: nat)
    requires y < height && width * height <= |indices| && base + Stride8(width) * height <= |s|
  {
    StoredRow8(s, base, width, height, y) == ShotRle8.IndexRow(indices, width, height, y)
  }

  method RawRow(row: seq<u8>, out: array<u8>, at: nat, stride: nat)
    requires |row| <= stride && at + stride <= out.Length
    modifies out
    ensures out[at..at + |row|] == row
    ensures forall k :: at + |row| <= k < at + stride ==> out[k] == 0
    ensures forall k :: 0 <= k < out.Length && !(at <= k < at + stride) ==> out[k] == old(out[k])
  {
    for x := 0 to |row|
      invariant out[at..at + x] == row[..x]
      invariant forall k :: 0 <= k < out.Length && !(at <= k < at + stride) ==> out[k] == old(out[k])
    {
      out[at + x] := row[x];
    }
    for x := |row| to stride
      invariant out[at..at + |row|] == row
      invariant forall k :: at + |row| <= k < at + x ==> out[k] == 0
      invariant forall k :: 0 <= k < out.Length && !(at <= k < at + stride) ==> out[k] == old(out[k])
    {
      out[at + x] := 0;
    }
  }

  method CopyPalette(work: Work, colours: nat, out: array<u8>)
    requires work.Shape() && colours <= MAX_COLOURS && HEADER + 4 * colours <= out.Length && out != work.palette
    modifies out
    ensures PaletteCopied(out[..], work.palette[..], colours)
    ensures forall k :: HEADER + 4 * colours <= k < out.Length ==> out[k] == old(out[k])
  {
    for y := 0 to 4 * colours
      invariant forall k :: 0 <= k < y ==> out[HEADER + k] == work.palette[k]
      invariant forall k :: HEADER + 4 * colours <= k < out.Length ==> out[k] == old(out[k])
    {
      out[HEADER + y] := work.palette[y];
    }
  }

  lemma PaletteKept(s: seq<u8>, t: seq<u8>, palette: seq<u8>, colours: nat)
    requires PaletteCopied(s, palette, colours) && HEADER + 4 * colours <= |t|
    requires forall k :: HEADER <= k < HEADER + 4 * colours ==> t[k] == s[k]
    ensures PaletteCopied(t, palette, colours)
  {
  }

  /** The RLE8 stretch of a file reads back as the index rows. */
  lemma RleRows(data: seq<u8>, at: nat, indices: seq<u8>, width: nat, height: nat)
    requires height >= 1 && width * height <= |indices|
    requires Holds(data, at, Encode(IndexGrid(indices, width, height), 0))
    ensures IndexRows(data, at, width, height, 1) == Some(IndexGrid(indices, width, height))
  {
    Rle8RoundTrip(data, at, IndexGrid(indices, width, height), width);
  }

  lemma RawRowsRead(s: seq<u8>, data: seq<u8>, at: nat, indices: seq<u8>, width: nat, height: nat)
    requires width * height <= |indices| && at + Stride8(width) * height <= |data| <= |s|
    requires forall k :: at <= k < |data| ==> data[k] == s[k]
    requires Rows8(s, at, width, height) == IndexGrid(indices, width, height)
    ensures IndexRows(data, at, width, height, 0) == Some(IndexGrid(indices, width, height))
  {
    hide Stride8;
    forall y | 0 <= y < height
      ensures Rows8(data, at, width, height)[y] == IndexGrid(indices, width, height)[y]
    {
      RowInside(Stride8(width), height, y);
      assert Rows8(s, at, width, height)[y] == StoredRow8(s, at, width, height, y);
      assert Rows8(data, at, width, height)[y] == StoredRow8(data, at, width, height, y);
    }
    assert Rows8(data, at, width, height) == IndexGrid(indices, width, height);
  }

  /** Write the 8-bit form over the 24-bit one: RLE8 when that is smaller than the raw rows. */
  method Pack(work: Work, width: nat, height: nat, colours: nat, out: array<u8>, ghost img: Image) returns (length: nat)
    requires Rectangular(img) && width == img.width && height == |img.rows| && 1 <= width <= 4096 && 1 <= height <= 4096
    requires work.Shape() && work.indices.Length >= width * height && 1 <= colours <= MAX_COLOURS
    requires AllIndexed(work.palette[..], work.indices[..], colours, img, height, 0)
    requires HEADER + 1024 + Stride24(width) * height <= out.Length
    requires out != work.palette && out != work.values && out != work.indices
    modifies out
    ensures HEADER < length <= out.Length && DecodeBmp(out[..length]) == Some(img)
    ensures var encoded := |Encode(IndexGrid(work.indices[..], width, height), 0)|;
            length == HEADER + 4 * colours + if encoded < Stride8(width) * height then encoded else Stride8(width) * height
  {
    hide AllIndexed, DecodeBmp, Encode, IndexGrid, PaletteCopied, HeaderHolds, Stride24;
    Stride8Fits(width, height);
    var header8 := HEADER + 4 * colours;
    var raw8 := Stride8(width) * height;
    ghost var indices, palette := work.indices[..], work.palette[..];
    CopyPalette(work, colours, out);
    ghost var copied := out[..];
    var encoded := Rle8(work.indices[..], width, height, out, header8, raw8);
    PaletteKept(copied, out[..], palette, colours);
    if encoded != 0 && encoded < raw8 {
      length := header8 + encoded;
      FinishRle(indices, palette, width, height, colours, out, encoded, img);
    } else {
      FinishRaw(work.indices[..], palette, width, height, colours, out, raw8, img);
      length := header8 + raw8;
    }
  }

  method FinishRle(ghost indices: seq<u8>, ghost palette: seq<u8>, width: nat, height: nat, colours: nat,
                   out: array<u8>, encoded: nat, ghost img: Image)
    requires Rectangular(img) && width == img.width && height == |img.rows| && 1 <= width <= 4096 && 1 <= height <= 4096
    requires 1 <= colours <= MAX_COLOURS && width * height <= |indices|
    requires AllIndexed(palette, indices, colours, img, height, 0)
    requires HEADER + 4 * colours + encoded <= out.Length && encoded <= 4100 * 4096
    requires PaletteCopied(out[..], palette, colours)
    requires out[HEADER + 4 * colours..HEADER + 4 * colours + encoded] == Encode(IndexGrid(indices, width, height), 0)
    modifies out
    ensures DecodeBmp(out[..HEADER + 4 * colours + encoded]) == Some(img)
  {
    hide AllIndexed, DecodeBmp, Encode, IndexGrid, PaletteCopied, HeaderHolds, Stride8, IndexRows;
    ghost var before := out[..];
    BmpHeader(out, width, height, 8, 1, colours, encoded);
    ghost var data := out[..HEADER + 4 * colours + encoded];
    TailKept(before, out[..]);
    assert data[..HEADER] == out[..][..HEADER];
    HeaderPrefix(out[..], data, width, height, 8, 1, colours, encoded);
    PaletteKept(before, data, palette, colours);
    assert Holds(data, HEADER + 4 * colours, Encode(IndexGrid(indices, width, height), 0)) by {
      assert data[HEADER + 4 * colours..HEADER + 4 * colours + encoded]
        == before[HEADER + 4 * colours..HEADER + 4 * colours + encoded];
    }
    RleRows(data, HEADER + 4 * colours, indices, width, height);
    Packed(data, img, palette, indices, colours, 1, encoded);
  }

  lemma TailKept(s: seq<u8>, t: seq<u8>)
    requires |s| == |t| >= HEADER && t[HEADER..] == s[HEADER..]
    ensures forall k :: HEADER <= k < |s| ==> t[k] == s[k]
  {
    forall k | HEADER <= k < |s|
      ensures t[k] == s[k]
    {
      assert t[HEADER..][k - HEADER] == s[HEADER..][k - HEADER];
    }
  }

  method FinishRaw(indices: seq<u8>, ghost palette: seq<u8>, width: nat, height: nat, colours: nat,
                   out: array<u8>, raw8: nat, ghost img: Image)
    requires Rectangular(img) && width == img.width && height == |img.rows| && 1 <= width <= 4096 && 1 <= height <= 4096
    requires 1 <= colours <= MAX_COLOURS && width * height <= |indices| && raw8 == Stride8(width) * height <= 4100 * 4096
    requires AllIndexed(palette, indices, colours, img, height, 0)
    requires HEADER + 4 * colours + raw8 <= out.Length && PaletteCopied(out[..], palette, colours)
    modifies out
    ensures DecodeBmp(out[..HEADER + 4 * colours + raw8]) == Some(img)
  {
    hide AllIndexed, DecodeBmp, IndexGrid, PaletteCopied, HeaderHolds, Stride8, IndexRows, Rows8;
    ghost var first := out[..];
    RawRows(indices, width, height, out, HEADER + 4 * colours);
    ghost var before := out[..];
    PaletteKept(first, before, palette, colours);
    BmpHeader(out, width, height, 8, 0, colours, raw8);
    ghost var data := out[..HEADER + 4 * colours + raw8];
    TailKept(before, out[..]);
    assert data[..HEADER] == out[..][..HEADER];
    HeaderPrefix(out[..], data, width, height, 8, 0, colours, raw8);
    PaletteKept(before, data, palette, colours);
    RawRowsRead(before, data, HEADER + 4 * colours, indices, width, height);
    Packed(data, img, palette, indices, colours, 0, raw8);
  }

  /**
    Shape a capture. On success the host decodes the result to exactly what it would have shaped
    from the decoded capture itself, whichever form was written.
   */
  method Apply(source: seq<u8>, o: Options, output: array<u8>, work: Work)
    returns (status: Status, length: nat, outW: nat, outH: nat, bits: nat)
    requires work.Shape() && output != work.palette && output != work.values && output != work.indices
    modifies output, work, work.palette, work.keys, work.values, work.indices
    ensures status == BadSource <==> !SourceOk(source)
    ensures status == BadOptions <==> SourceOk(source) && Planned(source, o).None?
    ensures status == BadOptions <==>
              SourceOk(source) && !Servable(o, CaptureOf(source).width, CaptureOf(source).height)
    ensures status == NoRoom <==>
              && SourceOk(source) && Planned(source, o).Some?
              && !Room(Planned(source, o).value, output.Length, work.indices.Length)
    ensures status == Ok ==>
              && SourceOk(source) && Planned(source, o).Some?
              && length <= output.Length && DecodeBmp(output[..length]) == Some(Wanted(source, o))
              && outW == Planned(source, o).value.outW && outH == Planned(source, o).value.outH
              && Serves(Planned(source, o).value, o, CaptureOf(source).width, CaptureOf(source).height)
              && (bits == 24 || bits == 8)
              && (bits == 24 <==> !Wants8(o) || (!WantsGray(o) && |Colours(Wanted(source, o))| > MAX_COLOURS))
  {
    hide DecodeBmp, Capture.Picture, ShapeRgb, Colours, Stride24, PlanShot, Serves, Servable;
    if !SourceOk(source) {
      return BadSource, 0, 0, 0, 0;
    }
    var c := CaptureOf(source);
    var ok, p := ResolvePlan(o, c.width, c.height);
    if !ok {
      return BadOptions, 0, 0, 0, 0;
    }
    PlannedFits(o, c.width, c.height);
    if output.Length < HEADER + 1024 + Stride24(p.outW) * p.outH || work.indices.Length < p.outW * p.outH {
      return NoRoom, 0, 0, 0, 0;
    }
    length, bits := Render(c, p, o, output, work);
    return Ok, length, p.outW, p.outH, bits;
  }

  /** Resample, then repack when asked. */
  method Render(c: Capture, p: Plan, o: Options, output: array<u8>, work: Work) returns (length: nat, bits: nat)
    requires c.Valid() && PlanFits(p, c.width, c.height) && Room(p, output.Length, work.indices.Length)
    requires work.Shape() && output != work.palette && output != work.values && output != work.indices
    modifies output, work, work.palette, work.keys, work.values, work.indices
    ensures length <= output.Length && (bits == 24 || bits == 8)
    ensures DecodeBmp(output[..length]) == Some(ShapeRgb(c.Picture(), p, WantsGray(o)))
    ensures bits == 24 <==>
              !Wants8(o) || (!WantsGray(o) && |Colours(ShapeRgb(c.Picture(), p, WantsGray(o)))| > MAX_COLOURS)
  {
    hide DecodeBmp, Capture.Picture, ShapeRgb, RowsDone, Colours, Stride24, PlanShot;
    Resample(c, p, output);
    length := HEADER + Stride24(p.outW) * p.outH;
    GrayLast(c.Picture(), p);
    if !Wants8(o) {
      return length, 24;
    }
    length, bits := Repack(o, p, length, output, work, ShapeRgb(c.Picture(), p, false));
  }

  /** The 8-bit form if asked for and possible, otherwise the 24-bit image stays. */
  method Repack(o: Options, p: Plan, length24: nat, output: array<u8>, work: Work, ghost img: Image)
    returns (length: nat, bits: nat)
    requires Rectangular(img) && img.width == p.outW && |img.rows| == p.outH && 1 <= p.outW <= 4096 && 1 <= p.outH <= 4096
    requires work.Shape() && output != work.palette && output != work.values && output != work.indices
    requires HEADER + 1024 + Stride24(p.outW) * p.outH <= output.Length && p.outW * p.outH <= work.indices.Length
    requires length24 == HEADER + Stride24(p.outW) * p.outH
    requires RowsDone(output[..], img, p.outH) && DecodeBmp(output[..length24]) == Some(img)
    modifies output, work, work.palette, work.keys, work.values, work.indices
    ensures length <= output.Length && (bits == 24 || bits == 8)
    ensures DecodeBmp(output[..length]) == Some(if WantsGray(o) then Grayed(img) else img)
    ensures bits == 24 <==> !WantsGray(o) && |Colours(img)| > MAX_COLOURS
  {
    hide DecodeBmp, RowsDone, Colours, AllIndexed, Grayed, Stride24;
    if WantsGray(o) {
      IndexGray(output, work, p.outW, p.outH, img);
      length := Pack(work, p.outW, p.outH, 256, output, Grayed(img));
      return length, 8;
    }
    ghost var before := output[..];
    var colours := IndexCompact(output, work, p.outW, p.outH, img);
    if colours == 0 {
      assert output[..length24] == before[..length24];
      return length24, 24;
    }
    ColoursBound(img, colours);
    length := Pack(work, p.outW, p.outH, colours, output, img);
    return length, 8;
  }

  lemma ColoursBound(img: Image, colours: nat)
    requires colours == |Colours(img)| && !(|Colours(img)| > MAX_COLOURS)
    ensures colours <= MAX_COLOURS
  {
  }
}
