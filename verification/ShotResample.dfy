/** Cropping and box-scaling a bottom-up 24-bit capture into another one. */
module ShotResample {
  import opened Congruence
  import opened LittleEndian
  import opened ShotPlan
  import opened ShotImage
  import opened ShotBmp
  import opened Wrappers

  /** A source capture: its bytes, where its pixels start and its size. */
  datatype Capture = Capture(data: seq<u8>, offset: nat, width: nat, height: nat) {
    predicate Valid() {
      1 <= width <= 4096 && 1 <= height <= 4096 && offset + Stride24(width) * height <= |data|
    }

    /** The picture the host would decode it to. */
    function Picture(): (img: Image)
      requires Valid()
      ensures img.width == width && |img.rows| == height && Rectangular(img)
    {
      Image(width, Reversed(Rows24(data, offset, width, height)))
    }
  }

  /** Where the capture keeps the pixel of column x and top-down row y. */
  function PixelAt(c: Capture, x: nat, y: nat): (at: nat)
    requires c.Valid() && x < c.width && y < c.height
    ensures at + 3 <= |c.data|
  {
    RowInside(Stride24(c.width), c.height, c.height - 1 - y);
    c.offset + Stride24(c.width) * (c.height - 1 - y) + 3 * x
  }

  lemma PixelIs(c: Capture, x: nat, y: nat)
    requires c.Valid() && x < c.width && y < c.height
    ensures c.Picture().rows[y][x] == Rgb(c.data[PixelAt(c, x, y) + 2], c.data[PixelAt(c, x, y) + 1], c.data[PixelAt(c, x, y)])
  {
    var stored := Rows24(c.data, c.offset, c.width, c.height);
    assert stored[c.height - 1 - y] == StoredRow24(c.data, c.offset, c.width, c.height, c.height - 1 - y);
  }

  lemma SumFits(w: nat, h: nat, s: nat)
    requires w <= 4096 && h <= 4096 && s <= 255 * (w * h)
    ensures w * h <= 0x100_0000 && s + (w * h) / 2 < 0x1_0000_0000
  {
    MulBound(w, h, 4096, 4096);
  }

  lemma RowBound(w: nat, h: nat, k: nat)
    requires k < h
    ensures w * k + w <= w * h && 0 <= w * k
  {
    RowInside(w, h, k);
  }

  /** Add one source row's part of the box to the running sums; no sum leaves 32 bits. */
  method RowSums(c: Capture, x0: nat, x1: nat, y: nat, b: u32, g: u32, r: u32) returns (b': u32, g': u32, r': u32)
    requires c.Valid() && x0 <= x1 <= c.width && y < c.height
    requires b + 255 * (x1 - x0) < 0x1_0000_0000 && g + 255 * (x1 - x0) < 0x1_0000_0000
    requires r + 255 * (x1 - x0) < 0x1_0000_0000
    ensures r' == r + RowSum(c.Picture().rows[y], x0, x1, 0)
    ensures g' == g + RowSum(c.Picture().rows[y], x0, x1, 1)
    ensures b' == b + RowSum(c.Picture().rows[y], x0, x1, 2)
  {
    b', g', r' := b, g, r;
    ghost var row := c.Picture().rows[y];
    for x := x0 to x1
      invariant r' == r + RowSum(row, x0, x, 0) && g' == g + RowSum(row, x0, x, 1)
      invariant b' == b + RowSum(row, x0, x, 2)
    {
      PixelIs(c, x, y);
      var at := PixelAt(c, x, y);
      b' := b' + c.data[at];
      g' := g' + c.data[at + 1];
      r' := r' + c.data[at + 2];
    }
  }

  /** The three channel sums of a box. */
  method BoxSums(c: Capture, x0: nat, x1: nat, y0: nat, y1: nat) returns (b: u32, g: u32, r: u32)
    requires c.Valid() && x0 <= x1 <= c.width && y0 <= y1 <= c.height
    ensures r == BoxSum(c.Picture(), x0, x1, y0, y1, 0)
    ensures g == BoxSum(c.Picture(), x0, x1, y0, y1, 1)
    ensures b == BoxSum(c.Picture(), x0, x1, y0, y1, 2)
  {
    hide RowSum, Capture.Picture;
    b, g, r := 0, 0, 0;
    ghost var img := c.Picture();
    for y := y0 to y1
      invariant r == BoxSum(img, x0, x1, y0, y, 0) && g == BoxSum(img, x0, x1, y0, y, 1)
      invariant b == BoxSum(img, x0, x1, y0, y, 2)
    {
      ghost var w, h := x1 - x0, y1 - y0;
      RowBound(w, h, y - y0);
      MulBound(w, h, 4096, 4096);
      b, g, r := RowSums(c, x0, x1, y, b, g, r);
    }
  }

  /** The rounded means of one output pixel's box. */
  method PixelMeans(c: Capture, p: Plan, ox: nat, y0: nat, y1: nat, ghost oy: nat) returns (b: u8, g: u8, r: u8)
    requires c.Valid() && PlanFits(p, c.width, c.height) && ox < p.outW && oy < p.outH
    requires y0 == p.y + BoxStart(oy, p.h, p.outH) && y1 == RangeEnd(oy, p.y, p.h, p.outH)
    ensures Rgb(r, g, b) == ShapedPixel(c.Picture(), p, false, ox, oy)
  {
    hide BoxSum, Capture.Picture;
    BoxNonEmpty(ox, p.w, p.outW);
    BoxNonEmpty(oy, p.h, p.outH);
    MulBound(ox, p.w, 4096, 4096);
    MulBound(ox + 1, p.w, 4096, 4096);
    var left: u32 := ox * p.w;
    var right: u32 := (ox + 1) * p.w;
    var x0, x1 := p.x + left / p.outW, Max(p.x + left / p.outW + 1, p.x + right / p.outW);
    AreaPositive(x1 - x0, y1 - y0);
    var sumB, sumG, sumR := BoxSums(c, x0, x1, y0, y1);
    SumFits(x1 - x0, y1 - y0, sumB);
    SumFits(x1 - x0, y1 - y0, sumG);
    SumFits(x1 - x0, y1 - y0, sumR);
    var count: u32 := (x1 - x0) * (y1 - y0);
    b := Mean(sumB, count);
    g := Mean(sumG, count);
    r := Mean(sumR, count);
  }

  /** Where output row oy of a bottom-up image starts. */
  function RowStart(outW: nat, outH: nat, oy: nat): (at: nat)
    requires oy < outH
    ensures at + Stride24(outW) <= HEADER + Stride24(outW) * outH
  {
    RowInside(Stride24(outW), outH, outH - 1 - oy);
    HEADER + Stride24(outW) * (outH - 1 - oy)
  }

  /** Earlier output rows lie above later ones in the file. */
  lemma RowsApart(outW: nat, outH: nat, k: nat, oy: nat)
    requires k < oy < outH
    ensures RowStart(outW, outH, oy) + Stride24(outW) <= RowStart(outW, outH, k)
  {
    RowInside(Stride24(outW), outH - 1 - k, outH - 1 - oy);
  }

  /** One output row: its pixels, then zeros up to the stride. */
  method ShapeRow(c: Capture, p: Plan, out: array<u8>, oy: nat, at: nat)
    requires c.Valid() && PlanFits(p, c.width, c.height) && oy < p.outH && at + Stride24(p.outW) <= out.Length
    modifies out
    ensures Row24(out[..], at, p.outW) == ShapeRgb(c.Picture(), p, false).rows[oy]
    ensures forall k :: at + 3 * p.outW <= k < at + Stride24(p.outW) ==> out[k] == 0
    ensures forall k :: 0 <= k < out.Length && !(at <= k < at + Stride24(p.outW)) ==> out[k] == old(out[k])
  {
    hide Capture.Picture, ShapedPixel, Capture.Valid;
    BoxNonEmpty(oy, p.h, p.outH);
    MulBound(oy, p.h, 4096, 4096);
    MulBound(oy + 1, p.h, 4096, 4096);
    var low: u32 := oy * p.h;
    var high: u32 := (oy + 1) * p.h;
    var y0, y1 := p.y + low / p.outH, Max(p.y + low / p.outH + 1, p.y + high / p.outH);
    ghost var shaped := ShapeRgb(c.Picture(), p, false).rows[oy];
    for ox := 0 to p.outW
      invariant forall k :: 0 <= k < ox ==> Rgb(out[at + 3 * k + 2], out[at + 3 * k + 1], out[at + 3 * k]) == shaped[k]
      invariant forall k :: 0 <= k < out.Length && !(at <= k < at + Stride24(p.outW)) ==> out[k] == old(out[k])
    {
      var b, g, r := PixelMeans(c, p, ox, y0, y1, oy);
      out[at + 3 * ox] := b;
      out[at + 3 * ox + 1] := g;
      out[at + 3 * ox + 2] := r;
    }
    for index := 3 * p.outW to Stride24(p.outW)
      invariant forall k :: 0 <= k < p.outW ==> Rgb(out[at + 3 * k + 2], out[at + 3 * k + 1], out[at + 3 * k]) == shaped[k]
      invariant forall k :: at + 3 * p.outW <= k < at + index ==> out[k] == 0
      invariant forall k :: 0 <= k < out.Length && !(at <= k < at + Stride24(p.outW)) ==> out[k] == old(out[k])
    {
      out[at + index] := 0;
    }
  }

  /** A row read back is unaffected by writes outside it. */
  lemma RowKept(s: seq<u8>, t: seq<u8>, at: nat, width: nat, lo: nat, hi: nat)
    requires |s| == |t| && at + 3 * width <= |s| && (at + 3 * width <= lo || hi <= at)
    requires forall k :: 0 <= k < |s| && !(lo <= k < hi) ==> t[k] == s[k]
    ensures Row24(t, at, width) == Row24(s, at, width)
  {
  }

  /** The rows of s are the shaped picture's, from the top down to row n. */
  ghost predicate RowsDone(s: seq<u8>, shaped: Image, n: nat)
    requires n <= |shaped.rows| && HEADER + Stride24(shaped.width) * |shaped.rows| <= |s|
  {
    forall k: nat :: k < n ==> Row24(s, RowStart(shaped.width, |shaped.rows|, k), shaped.width) == shaped.rows[k]
  }

  lemma RowsDoneStep(s: seq<u8>, t: seq<u8>, shaped: Image, oy: nat)
    requires |s| == |t| && oy < |shaped.rows| && HEADER + Stride24(shaped.width) * |shaped.rows| <= |s|
    requires RowsDone(s, shaped, oy)
    requires var at := RowStart(shaped.width, |shaped.rows|, oy);
             && Row24(t, at, shaped.width) == shaped.rows[oy]
             && forall k :: 0 <= k < |s| && !(at <= k < at + Stride24(shaped.width)) ==> t[k] == s[k]
    ensures RowsDone(t, shaped, oy + 1)
  {
    hide Row24;
    var at := RowStart(shaped.width, |shaped.rows|, oy);
    forall k: nat | k < oy
      ensures Row24(t, RowStart(shaped.width, |shaped.rows|, k), shaped.width) == shaped.rows[k]
    {
      RowsApart(shaped.width, |shaped.rows|, k, oy);
      RowKept(s, t, RowStart(shaped.width, |shaped.rows|, k), shaped.width, at, at + Stride24(shaped.width));
    }
  }

  /** All output rows, top-down. */
  method ResampleRows(c: Capture, p: Plan, out: array<u8>)
    requires c.Valid() && PlanFits(p, c.width, c.height)
    requires HEADER + Stride24(p.outW) * p.outH <= out.Length
    modifies out
    ensures out[..HEADER] == old(out[..HEADER])
    ensures RowsDone(out[..], ShapeRgb(c.Picture(), p, false), p.outH)
  {
    hide Capture.Picture, Capture.Valid, ShapeRgb, Row24, RowsDone, Stride24, RowStart;
    ghost var shaped := ShapeRgb(c.Picture(), p, false);
    ghost var header := out[..HEADER];
    NoRows(out[..], shaped);
    for oy := 0 to p.outH
      invariant out[..HEADER] == header
      invariant RowsDone(out[..], shaped, oy)
    {
      ghost var before := out[..];
      var at := RowStart(p.outW, p.outH, oy);
      AfterHeader(p.outW, p.outH, oy);
      ShapeRow(c, p, out, oy, at);
      RowsDoneStep(before, out[..], shaped, oy);
      assert out[..HEADER] == before[..HEADER];
    }
  }

  lemma AfterHeader(outW: nat, outH: nat, oy: nat)
    requires oy < outH
    ensures HEADER <= RowStart(outW, outH, oy)
  {
    RowInside(Stride24(outW), outH, outH - 1 - oy);
  }

  /** Crop and box-scale the capture into a 24-bit file that decodes to the shaped picture. */
  method Resample(c: Capture, p: Plan, out: array<u8>)
    requires c.Valid() && PlanFits(p, c.width, c.height)
    requires HEADER + Stride24(p.outW) * p.outH <= out.Length
    modifies out
    ensures RowsDone(out[..], ShapeRgb(c.Picture(), p, false), p.outH)
    ensures DecodeBmp(out[..HEADER + Stride24(p.outW) * p.outH]) == Some(ShapeRgb(c.Picture(), p, false))
  {
    hide Capture.Picture, ShapeRgb, Row24, RowsDone, HeaderHolds, Capture.Valid, DecodeBmp;
    var stride := Stride24(p.outW);
    StrideRoom(p.outW, p.outH);
    BmpHeader(out, p.outW, p.outH, 24, 0, 0, stride * p.outH);
    ghost var full := out[..];
    assert full[..HEADER] == out[..HEADER];
    ResampleRows(c, p, out);
    assert out[..][..HEADER] == out[..HEADER];
    HeaderPrefix(full, out[..], p.outW, p.outH, 24, 0, 0, stride * p.outH);
    Decodes(out[..], ShapeRgb(c.Picture(), p, false));
    assert out[..][..HEADER + stride * p.outH] == out[..HEADER + stride * p.outH];
  }

  lemma StrideRoom(w: nat, h: nat)
    requires w <= 4096 && h <= 4096
    ensures 0 <= Stride24(w) * h <= 12288 * 4096
  {
    MulBound(Stride24(w), h, 12288, 4096);
  }

  lemma NoRows(s: seq<u8>, shaped: Image)
    requires HEADER + Stride24(shaped.width) * |shaped.rows| <= |s|
    ensures RowsDone(s, shaped, 0)
  {
  }

  /** The header is read from the first 54 bytes only. */
  lemma HeaderPrefix(s: seq<u8>, t: seq<u8>, w: int, h: int, bits: int, compression: int, colours: int, image: int)
    requires |s| >= HEADER && |t| >= HEADER && s[..HEADER] == t[..HEADER]
    requires HeaderHolds(s, w, h, bits, compression, colours, image)
    ensures HeaderHolds(t, w, h, bits, compression, colours, image)
  {
    hide Get16, Get32;
    FieldKept(s, t, 2);
    FieldKept(s, t, 6);
    FieldKept(s, t, 10);
    FieldKept(s, t, 14);
    FieldKept(s, t, 18);
    FieldKept(s, t, 22);
    FieldKept(s, t, 26);
    FieldKept(s, t, 28);
    FieldKept(s, t, 30);
    FieldKept(s, t, 34);
    FieldKept(s, t, 38);
    FieldKept(s, t, 42);
    FieldKept(s, t, 46);
    FieldKept(s, t, 50);
  }

  lemma FieldKept(s: seq<u8>, t: seq<u8>, i: nat)
    requires |s| >= HEADER && |t| >= HEADER && s[..HEADER] == t[..HEADER] && 2 <= i <= HEADER - 4
    ensures Get32(t, i) == Get32(s, i) && Get16(t, i) == Get16(s, i) && t[0] == s[0] && t[1] == s[1]
  {
    forall k | 0 <= k < HEADER
      ensures t[k] == s[k]
    {
      assert t[..HEADER][k] == s[..HEADER][k];
    }
  }

  lemma Decodes(s: seq<u8>, shaped: Image)
    requires Rectangular(shaped) && 1 <= shaped.width <= 4096 && 1 <= |shaped.rows| <= 4096
    requires HEADER + Stride24(shaped.width) * |shaped.rows| <= |s|
    requires HeaderHolds(s, shaped.width, |shaped.rows|, 24, 0, 0, Stride24(shaped.width) * |shaped.rows|)
    requires RowsDone(s, shaped, |shaped.rows|)
    ensures DecodeBmp(s[..HEADER + Stride24(shaped.width) * |shaped.rows|]) == Some(shaped)
  {
    hide HeaderHolds, DecodeBmp;
    var n := HEADER + Stride24(shaped.width) * |shaped.rows|;
    var data := s[..n];
    assert data[..HEADER] == s[..HEADER];
    HeaderPrefix(s, data, shaped.width, |shaped.rows|, 24, 0, 0, Stride24(shaped.width) * |shaped.rows|);
    forall y | 0 <= y < |shaped.rows|
      ensures StoredRow24(data, HEADER, shaped.width, |shaped.rows|, y) == shaped.rows[|shaped.rows| - 1 - y]
    {
      var k := |shaped.rows| - 1 - y;
      assert Row24(s, RowStart(shaped.width, |shaped.rows|, k), shaped.width) == shaped.rows[k];
      RowInside(Stride24(shaped.width), |shaped.rows|, y);
      assert Row24(data, RowStart(shaped.width, |shaped.rows|, k), shaped.width)
        == Row24(s, RowStart(shaped.width, |shaped.rows|, k), shaped.width);
    }
    Decode24Is(data, shaped);
  }
}
