/** The host's side: decoding the agent's BMP forms, and shaping an image itself. */
module ShotImage {
  import opened Congruence
  import opened LittleEndian
  import opened ShotPlan
  import opened Wrappers

  datatype Rgb = Rgb(r: u8, g: u8, b: u8)

  /** Rows are top-down. */
  datatype Image = Image(width: nat, rows: seq<seq<Rgb>>)

  /** A 32-bit field read as signed. */
  function Signed(v: int): int {
    if v < 0x8000_0000 then v else v - 0x1_0000_0000
  }

  function Stride24(width: nat): (n: nat)
    ensures 3 * width <= n < 3 * width + 4
  {
    (3 * width + 3) / 4 * 4
  }

  function Stride8(width: nat): (n: nat)
    ensures width <= n < width + 4
  {
    (width + 3) / 4 * 4
  }

  /** One stored 24-bit row, blue first. */
  function Row24(data: seq<u8>, at: nat, width: nat): (row: seq<Rgb>)
    requires at + 3 * width <= |data|
    ensures |row| == width
  {
    seq(width, x requires 0 <= x < width => Rgb(data[at + 3 * x + 2], data[at + 3 * x + 1], data[at + 3 * x]))
  }

  /** Row y of rows of one stride ends where the rows end or before. */
  lemma RowInside(stride: nat, rows: nat, y: nat)
    requires y < rows
    ensures 0 <= stride * y && stride * y + stride <= stride * rows
  {
    assert stride * (y + 1) == stride * y + stride;
    assert stride * (y + 1) <= stride * rows;
  }

  function StoredRow24(data: seq<u8>, at: nat, width: nat, rows: nat, y: nat): (row: seq<Rgb>)
    requires at + Stride24(width) * rows <= |data| && y < rows
    ensures |row| == width
  {
    RowInside(Stride24(width), rows, y);
    Row24(data, at + Stride24(width) * y, width)
  }

  function Rows24(data: seq<u8>, at: nat, width: nat, rows: nat): (stored: seq<seq<Rgb>>)
    requires at + Stride24(width) * rows <= |data|
    ensures |stored| == rows
  {
    seq(rows, y requires 0 <= y < rows => StoredRow24(data, at, width, rows, y))
  }

  function StoredRow8(data: seq<u8>, at: nat, width: nat, rows: nat, y: nat): (row: seq<u8>)
    requires at + Stride8(width) * rows <= |data| && y < rows
    ensures |row| == width
  {
    RowInside(Stride8(width), rows, y);
    var start := at + Stride8(width) * y;
    data[start..start + width]
  }

  function Rows8(data: seq<u8>, at: nat, width: nat, rows: nat): (stored: seq<seq<u8>>)
    requires at + Stride8(width) * rows <= |data|
    ensures |stored| == rows
    ensures Grid(stored, width, rows)
  {
    seq(rows, y requires 0 <= y < rows => StoredRow8(data, at, width, rows, y))
  }

  function Reversed<T>(s: seq<T>): (r: seq<T>)
    ensures |r| == |s| && forall i :: 0 <= i < |s| ==> r[i] == s[|s| - 1 - i]
  {
    if s == [] then [] else Reversed(s[1..]) + [s[0]]
  }

  /** A grid with part of row y replaced. */
  function Paint(grid: seq<seq<u8>>, y: nat, x: nat, bytes: seq<u8>): (g: seq<seq<u8>>)
    requires y < |grid| && x + |bytes| <= |grid[y]|
    ensures |g| == |grid| && |g[y]| == |grid[y]|
  {
    grid[y := grid[y][..x] + bytes + grid[y][x + |bytes|..]]
  }

  function Fill(value: u8, n: nat): (s: seq<u8>)
    ensures |s| == n && forall i :: 0 <= i < n ==> s[i] == value
  {
    seq(n, (i: nat) => value)
  }

  predicate Grid(grid: seq<seq<u8>>, width: nat, rows: nat) {
    |grid| == rows && forall y :: 0 <= y < rows ==> |grid[y]| == width
  }

  /** The RLE8 loop from byte at, pen at (x, y). */
  function RleFrom(data: seq<u8>, at: nat, x: nat, y: nat, grid: seq<seq<u8>>, width: nat): (g: Option<seq<seq<u8>>>)
    requires Grid(grid, width, |grid|)
    ensures g.Some? ==> Grid(g.value, width, |grid|)
    decreases |data| - at
  {
    if at + 2 > |data| then None
    else
      var count, value := data[at], data[at + 1];
      if count != 0 then
        if y >= |grid| || x + count > width then None
        else RleFrom(data, at + 2, x + count, y, Paint(grid, y, x, Fill(value, count)), width)
      else if value == 0 then RleFrom(data, at + 2, 0, y + 1, grid, width)
      else if value == 1 then Some(grid)
      else if value == 2 then
        if at + 4 > |data| then None
        else RleFrom(data, at + 4, x + data[at + 2], y + data[at + 3], grid, width)
      else
        if y >= |grid| || x + value > width || at + 2 + value > |data| then None
        else
          RleFrom(data, at + 2 + value + value % 2, x + value, y,
                  Paint(grid, y, x, data[at + 2..at + 2 + value]), width)
  }

  function BlankGrid(width: nat, rows: nat): (g: seq<seq<u8>>)
    ensures Grid(g, width, rows)
    ensures forall y :: 0 <= y < rows ==> g[y] == Fill(0, width)
  {
    seq(rows, (y: nat) => Fill(0, width))
  }

  function PaletteEntry(data: seq<u8>, i: nat): Rgb
    requires 54 + 4 * i + 4 <= |data|
  {
    Rgb(data[54 + 4 * i + 2], data[54 + 4 * i + 1], data[54 + 4 * i])
  }

  predicate Indexed(grid: seq<seq<u8>>, colours: nat) {
    forall y, x :: 0 <= y < |grid| && 0 <= x < |grid[y]| ==> grid[y][x] < colours
  }

  function Coloured(data: seq<u8>, row: seq<u8>, colours: nat): (r: seq<Rgb>)
    requires 54 + 4 * colours <= |data| && forall x :: 0 <= x < |row| ==> row[x] < colours
    ensures |r| == |row| && forall x :: 0 <= x < |row| ==> r[x] == PaletteEntry(data, row[x])
  {
    seq(|row|, x requires 0 <= x < |row| => PaletteEntry(data, row[x]))
  }

  function ColouredRows(data: seq<u8>, grid: seq<seq<u8>>, colours: nat): (r: seq<seq<Rgb>>)
    requires 54 + 4 * colours <= |data| && Indexed(grid, colours)
    ensures |r| == |grid| && forall y :: 0 <= y < |grid| ==> r[y] == Coloured(data, grid[y], colours)
  {
    seq(|grid|, y requires 0 <= y < |grid| => Coloured(data, grid[y], colours))
  }

  function Ordered(stored: seq<seq<Rgb>>, bottomUp: bool): seq<seq<Rgb>> {
    if bottomUp then Reversed(stored) else stored
  }

  /** The index rows of an 8-bit image, raw or RLE8. */
  function IndexRows(data: seq<u8>, offset: nat, width: nat, rows: nat, compression: int): (g: Option<seq<seq<u8>>>)
    ensures g.Some? ==> Grid(g.value, width, rows)
  {
    if compression == 0 then
      if offset + Stride8(width) * rows > |data| then None else Some(Rows8(data, offset, width, rows))
    else RleFrom(data, offset, 0, 0, BlankGrid(width, rows), width)
  }

  /** The host's decoder: the image, or None where it raises. */
  function DecodeBmp(data: seq<u8>): Option<Image> {
    if |data| < 54 || data[0] != 0x42 || data[1] != 0x4D then None
    else
      var offset := Get32(data, 10);
      var width, height := Signed(Get32(data, 18)), Signed(Get32(data, 22));
      var bpp, compression := Get16(data, 28), Get32(data, 30);
      if width <= 0 || height == 0 then None
      else
        var rows := if height > 0 then height else -height;
        if bpp == 24 && compression == 0 then
          if offset + Stride24(width) * rows > |data| then None
          else Some(Image(width, Ordered(Rows24(data, offset, width, rows), height > 0)))
        else if bpp != 8 || compression > 1 then None
        else Decode8(data, offset, width, rows, compression, height > 0)
  }

  function Decode8(data: seq<u8>, offset: nat, width: nat, rows: nat, compression: int, bottomUp: bool): Option<Image>
    requires |data| >= 54
  {
    var declared := Get32(data, 46);
    var colours := if declared == 0 then 256 else declared;
    if colours > 256 || 54 + colours * 4 > offset || offset > |data| then None
    else
      match IndexRows(data, offset, width, rows, compression)
      case None => None
      case Some(grid) =>
        if !Indexed(grid, colours) then None
        else Some(Image(width, Ordered(ColouredRows(data, grid, colours), bottomUp)))
  }

  /** Sums of one channel over source columns [x0, x1) of a row and rows [y0, y1). */
  function Channel(p: Rgb, c: nat): (v: u8) {
    if c == 0 then p.r else if c == 1 then p.g else p.b
  }

  function RowSum(row: seq<Rgb>, x0: nat, x1: nat, c: nat): (s: nat)
    requires x0 <= x1 <= |row|
    ensures s <= 255 * (x1 - x0)
  {
    if x0 == x1 then 0 else RowSum(row, x0, x1 - 1, c) + Channel(row[x1 - 1], c)
  }

  predicate Rectangular(img: Image) {
    forall y :: 0 <= y < |img.rows| ==> |img.rows[y]| == img.width
  }

  function BoxSum(img: Image, x0: nat, x1: nat, y0: nat, y1: nat, c: nat): (s: nat)
    requires Rectangular(img) && x0 <= x1 <= img.width && y0 <= y1 <= |img.rows|
    ensures s <= 255 * ((x1 - x0) * (y1 - y0))
  {
    if y0 == y1 then 0
    else
      AreaStep(x1 - x0, y1 - y0);
      BoxSum(img, x0, x1, y0, y1 - 1, c) + RowSum(img.rows[y1 - 1], x0, x1, c)
  }

  lemma AreaStep(w: nat, h: nat)
    requires h >= 1
    ensures w * h == w * (h - 1) + w
    ensures 0 <= w * (h - 1)
  {
  }

  /** A rounded mean of byte values is a byte. */
  function Mean(sum: nat, count: nat): (v: u8)
    requires count >= 1 && sum <= 255 * count
  {
    MeanBound(sum, count);
    (sum + count / 2) / count
  }

  lemma MeanBound(sum: nat, count: nat)
    requires count >= 1 && sum <= 255 * count
    ensures 0 <= (sum + count / 2) / count <= 255
  {
    QuotientMonotone(0, sum + count / 2, count);
    QuotientMonotone(sum + count / 2, 255 * count + count / 2, count);
    QuotientUnique(255 * count + count / 2, count, 255, count / 2);
  }

  /** The mean is the byte nearest to the exact mean. */
  lemma MeanNearest(sum: nat, count: nat)
    requires count >= 1 && sum <= 255 * count
    ensures 2 * (count * Mean(sum, count)) <= 2 * sum + count && 2 * sum <= 2 * (count * Mean(sum, count)) + count
  {
    var m := Mean(sum, count);
    DivMod(sum + count / 2, count);
    assert m * count == count * m;
  }

  function GrayOf(p: Rgb): (v: u8) {
    (p.r * 77 + p.g * 150 + p.b * 29 + 128) / 256
  }

  /** Grey is the luma of ITU-R BT.601 to within 1.2 levels, and a neutral colour keeps its level. */
  lemma GrayIsLuma(p: Rgb)
    ensures -1200 <= 1000 * GrayOf(p) - (299 * p.r + 587 * p.g + 114 * p.b) <= 1200
    ensures p.r == p.g == p.b ==> GrayOf(p) == p.r
  {
  }

  /** The source range of output position k, widened if it were empty. */
  function RangeEnd(k: int, origin: int, size: int, out: int): int
    requires out > 0
  {
    Max(origin + BoxStart(k, size, out) + 1, origin + BoxStart(k + 1, size, out))
  }

  /** One output pixel: the rounded mean of its box, greyed if asked. */
  function ShapedPixel(img: Image, p: Plan, gray: bool, ox: nat, oy: nat): Rgb
    requires Rectangular(img) && PlanFits(p, img.width, |img.rows|) && ox < p.outW && oy < p.outH
  {
    BoxNonEmpty(ox, p.w, p.outW);
    BoxNonEmpty(oy, p.h, p.outH);
    var x0, x1 := p.x + BoxStart(ox, p.w, p.outW), RangeEnd(ox, p.x, p.w, p.outW);
    var y0, y1 := p.y + BoxStart(oy, p.h, p.outH), RangeEnd(oy, p.y, p.h, p.outH);
    AreaPositive(x1 - x0, y1 - y0);
    var count := (x1 - x0) * (y1 - y0);
    var rgb := Rgb(Mean(BoxSum(img, x0, x1, y0, y1, 0), count), Mean(BoxSum(img, x0, x1, y0, y1, 1), count),
                   Mean(BoxSum(img, x0, x1, y0, y1, 2), count));
    if gray then Rgb(GrayOf(rgb), GrayOf(rgb), GrayOf(rgb)) else rgb
  }

  lemma AreaPositive(w: int, h: int)
    requires w >= 1 && h >= 1
    ensures w * h >= 1
  {
  }

  /** The host's own crop, box-scale and grey. */
  function ShapeRgb(img: Image, p: Plan, gray: bool): (shaped: Image)
    requires Rectangular(img) && PlanFits(p, img.width, |img.rows|)
    ensures shaped.width == p.outW && |shaped.rows| == p.outH && Rectangular(shaped)
    ensures forall oy, ox :: 0 <= oy < p.outH && 0 <= ox < p.outW ==>
              shaped.rows[oy][ox] == ShapedPixel(img, p, gray, ox, oy)
  {
    Image(p.outW, seq(p.outH, oy requires 0 <= oy < p.outH =>
      seq(p.outW, ox requires 0 <= ox < p.outW => ShapedPixel(img, p, gray, ox, oy))))
  }

  /** Without scaling or greying, shaping is a crop. */
  lemma FullScaleIsCrop(img: Image, p: Plan, ox: nat, oy: nat)
    requires Rectangular(img) && PlanFits(p, img.width, |img.rows|) && p.outW == p.w && p.outH == p.h
    requires ox < p.outW && oy < p.outH
    ensures ShapedPixel(img, p, false, ox, oy) == img.rows[p.y + oy][p.x + ox]
  {
    BoxUnit(ox, p.w);
    BoxUnit(ox + 1, p.w);
    BoxUnit(oy, p.h);
    BoxUnit(oy + 1, p.h);
    var x, y := p.x + ox, p.y + oy;
    OneSum(img, x, y, 0);
    OneSum(img, x, y, 1);
    OneSum(img, x, y, 2);
  }

  lemma OneSum(img: Image, x: nat, y: nat, c: nat)
    requires Rectangular(img) && x < img.width && y < |img.rows|
    ensures BoxSum(img, x, x + 1, y, y + 1, c) == Channel(img.rows[y][x], c)
  {
    assert RowSum(img.rows[y], x, x, c) == 0;
    assert RowSum(img.rows[y], x, x + 1, c) == Channel(img.rows[y][x], c);
    assert BoxSum(img, x, x + 1, y, y, c) == 0;
  }
}
