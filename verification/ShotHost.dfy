/** The host's loops: reading RLE8 into rows, and shaping an image row by row. */
module ShotHost {
  import opened LittleEndian
  import opened ShotPlan
  import opened ShotImage
  import opened ShotResample
  import opened ShotApply
  import opened Wrappers

  /** The RLE8 loop of the host's decoder. */
  method DecodeRle8(data: seq<u8>, offset: nat, width: nat, rows: nat) returns (g: Option<seq<seq<u8>>>)
    ensures g == RleFrom(data, offset, 0, 0, BlankGrid(width, rows), width)
  {
    var grid := BlankGrid(width, rows);
    var at: nat, x: nat, y: nat := offset, 0, 0;
    while true
      invariant Grid(grid, width, rows)
      invariant RleFrom(data, at, x, y, grid, width) == RleFrom(data, offset, 0, 0, BlankGrid(width, rows), width)
      decreases |data| - at
    {
      if at + 2 > |data| {
        return None;
      }
      var count, value := data[at], data[at + 1];
      if count != 0 {
        if y >= rows || x + count > width {
          return None;
        }
        grid := Paint(grid, y, x, Fill(value, count));
        at, x := at + 2, x + count;
      } else if value == 0 {
        at, x, y := at + 2, 0, y + 1;
      } else if value == 1 {
        return Some(grid);
      } else if value == 2 {
        if at + 4 > |data| {
          return None;
        }
        at, x, y := at + 4, x + data[at + 2], y + data[at + 3];
      } else {
        if y >= rows || x + value > width || at + 2 + value > |data| {
          return None;
        }
        grid := Paint(grid, y, x, data[at + 2..at + 2 + value]);
        at, x := at + 2 + value + value % 2, x + value;
      }
    }
  }

  /** One channel of a box, summed row by row. */
  method SumBox(img: Image, x0: nat, x1: nat, y0: nat, y1: nat, c: nat) returns (s: nat)
    requires Rectangular(img) && x0 <= x1 <= img.width && y0 <= y1 <= |img.rows|
    ensures s == BoxSum(img, x0, x1, y0, y1, c)
  {
    s := 0;
    for y := y0 to y1
      invariant s == BoxSum(img, x0, x1, y0, y, c)
    {
      var row := 0;
      for x := x0 to x1
        invariant row == RowSum(img.rows[y], x0, x, c)
      {
        row := row + Channel(img.rows[y][x], c);
      }
      s := s + row;
    }
  }

  /** One output pixel. */
  method ShapePixel(img: Image, p: Plan, gray: bool, ox: nat, oy: nat) returns (rgb: Rgb)
    requires Rectangular(img) && PlanFits(p, img.width, |img.rows|) && ox < p.outW && oy < p.outH
    ensures rgb == ShapedPixel(img, p, gray, ox, oy)
  {
    hide BoxSum;
    BoxNonEmpty(ox, p.w, p.outW);
    BoxNonEmpty(oy, p.h, p.outH);
    var x0, x1 := p.x + BoxStart(ox, p.w, p.outW), RangeEnd(ox, p.x, p.w, p.outW);
    var y0, y1 := p.y + BoxStart(oy, p.h, p.outH), RangeEnd(oy, p.y, p.h, p.outH);
    AreaPositive(x1 - x0, y1 - y0);
    var count := (x1 - x0) * (y1 - y0);
    var r := SumBox(img, x0, x1, y0, y1, 0);
    var g := SumBox(img, x0, x1, y0, y1, 1);
    var b := SumBox(img, x0, x1, y0, y1, 2);
    rgb := Rgb(Mean(r, count), Mean(g, count), Mean(b, count));
    if gray {
      rgb := Rgb(GrayOf(rgb), GrayOf(rgb), GrayOf(rgb));
    }
  }

  /** The host's crop, box-scale and grey of a whole image. */
  method Shape(img: Image, p: Plan, gray: bool) returns (shaped: Image)
    requires Rectangular(img) && PlanFits(p, img.width, |img.rows|)
    ensures shaped == ShapeRgb(img, p, gray)
  {
    hide ShapedPixel;
    var rows: seq<seq<Rgb>> := [];
    for oy := 0 to p.outH
      invariant |rows| == oy
      invariant forall y: nat :: y < oy ==> rows[y] == ShapeRgb(img, p, gray).rows[y]
    {
      var line: seq<Rgb> := [];
      for ox := 0 to p.outW
        invariant |line| == ox
        invariant forall x: nat :: x < ox ==> line[x] == ShapedPixel(img, p, gray, x, oy)
      {
        var rgb := ShapePixel(img, p, gray, ox, oy);
        line := line + [rgb];
      }
      assert line == ShapeRgb(img, p, gray).rows[oy];
      rows := rows + [line];
    }
    assert rows == ShapeRgb(img, p, gray).rows;
    shaped := Image(p.outW, rows);
  }

  /**
    At full scale and without grey, the result is exactly what was asked for: every screen position of
    the request, and nothing else, is shown as it was, the top left one in the top left corner.
   */
  lemma FullScaleIsLossless(source: seq<u8>, o: Options, vx: int, vy: int)
    requires SourceOk(source) && Planned(source, o).Some? && ScaleOf(o) == 100 && !WantsGray(o)
    ensures var c, img := CaptureOf(source), Wanted(source, o);
            var x, y := if HasRegion(o) then o.x else 0, if HasRegion(o) then o.y else 0;
            && (Asked(o, c.width, c.height, vx, vy) <==> 0 <= vx - x < img.width && 0 <= vy - y < |img.rows|)
            && (Asked(o, c.width, c.height, vx, vy) ==> img.rows[vy - y][vx - x] == c.Picture().rows[vy][vx])
  {
    hide Capture.Picture, ShapedPixel;
    var c, p := CaptureOf(source), Planned(source, o).value;
    PlannedFits(o, c.width, c.height);
    PlanServes(o, c.width, c.height);
    ScaleFull(p.w);
    ScaleFull(p.h);
    assert InRegion(p, vx, vy) <==> Asked(o, c.width, c.height, vx, vy);
    if InRegion(p, vx, vy) {
      FullScaleIsCrop(c.Picture(), p, vx - p.x, vy - p.y);
    }
  }
}
