/** Turning the 24-bit image into palette indices, exactly or in grey. */
module ShotIndex {
  import opened LittleEndian
  import opened ShotImage
  import opened ShotBmp
  import opened ShotResample
  import opened ShotPalette

  /** The distinct colours of a picture. */
  ghost function Colours(img: Image): set<Rgb> {
    set y, x | 0 <= y < |img.rows| && 0 <= x < |img.rows[y]| :: img.rows[y][x]
  }

  ghost function RowColours(row: seq<Rgb>, n: nat): set<Rgb>
    requires n <= |row|
  {
    set x | 0 <= x < n :: row[x]
  }

  /** The colours of the lowest n rows. */
  ghost function SeenColours(img: Image, n: nat): set<Rgb>
    requires n <= |img.rows|
  {
    if n == 0 then {} else SeenColours(img, n - 1) + RowColours(img.rows[|img.rows| - n], |img.rows[|img.rows| - n]|)
  }

  lemma {:induction false} SeenIs(img: Image, n: nat)
    requires n <= |img.rows|
    ensures SeenColours(img, n)
      == set y, x | |img.rows| - n <= y < |img.rows| && 0 <= x < |img.rows[y]| :: img.rows[y][x]
  {
    if n > 0 {
      SeenIs(img, n - 1);
      var last := |img.rows| - n;
      forall c | c in set y, x | last <= y < |img.rows| && 0 <= x < |img.rows[y]| :: img.rows[y][x]
        ensures c in SeenColours(img, n)
      {
        var y, x :| last <= y < |img.rows| && 0 <= x < |img.rows[y]| && img.rows[y][x] == c;
        if y == last {
          assert c in RowColours(img.rows[last], |img.rows[last]|);
        }
      }
    }
  }

  /** A list without repetitions has as many elements as its set. */
  lemma {:induction false} DistinctSize(pal: seq<Rgb>)
    requires forall i, j :: 0 <= i < j < |pal| ==> pal[i] != pal[j]
    ensures |set c | c in pal| == |pal|
  {
    if pal == [] {
      assert (set c | c in pal) == {};
    } else {
      var n := |pal| - 1;
      DistinctSize(pal[..n]);
      assert (set c | c in pal) == (set c | c in pal[..n]) + {pal[n]};
      assert pal[n] !in pal[..n];
    }
  }

  ghost function AsSet(pal: seq<Rgb>): set<Rgb> {
    set c | c in pal
  }

  lemma AsSetAppend(pal: seq<Rgb>, c: Rgb)
    ensures AsSet(pal + [c]) == AsSet(pal) + {c}
  {
  }

  lemma RowColoursNext(row: seq<Rgb>, x: nat)
    requires x < |row|
    ensures RowColours(row, x + 1) == RowColours(row, x) + {row[x]}
  {
  }

  /** Index y * width + x carries a palette entry with the picture's colour there, rows bottom-up. */
  ghost predicate PixelIndexed(palette: seq<u8>, indices: seq<u8>, colours: nat, img: Image, y: nat, x: nat)
    requires y < |img.rows| && |img.rows[|img.rows| - 1 - y]| == img.width && x < img.width
  {
    && img.width * y + x < |indices| && indices[img.width * y + x] < colours
    && 4 * indices[img.width * y + x] + 4 <= |palette|
    && EntryHolds(palette, img.rows[|img.rows| - 1 - y][x], indices[img.width * y + x])
  }

  /** The first n indices are done. */
  ghost predicate AllIndexed(palette: seq<u8>, indices: seq<u8>, colours: nat, img: Image, rows: nat, extra: nat)
    requires Rectangular(img) && rows <= |img.rows| && (extra > 0 ==> rows < |img.rows| && extra <= img.width)
  {
    && (forall y: nat, x: nat :: y < rows && x < img.width ==> PixelIndexed(palette, indices, colours, img, y, x))
    && (forall x: nat :: x < extra ==> PixelIndexed(palette, indices, colours, img, rows, x))
  }

  /** The bytes of a pixel in the 24-bit image. */
  lemma ImagePixel(s: seq<u8>, img: Image, y: nat, x: nat)
    requires Rectangular(img) && y < |img.rows| && x < img.width
    requires HEADER + Stride24(img.width) * |img.rows| <= |s| && RowsDone(s, img, |img.rows|)
    ensures var at := HEADER + Stride24(img.width) * y + 3 * x;
            0 <= at && at + 3 <= |s| && img.rows[|img.rows| - 1 - y][x] == Rgb(s[at + 2], s[at + 1], s[at])
  {
    RowInside(Stride24(img.width), |img.rows|, y);
    var k := |img.rows| - 1 - y;
    assert Row24(s, RowStart(img.width, |img.rows|, k), img.width) == img.rows[k];
  }

  lemma IndexInside(w: nat, h: nat, y: nat, x: nat, y': nat, x': nat)
    requires y < h && x < w && y' <= y && x' < w && (y' < y || x' < x)
    ensures w * y' + x' < w * y + x < w * h
  {
    RowInside(w, h, y);
    if y' < y {
      RowInside(w, y, y');
    }
  }

  lemma IndexedStart(palette: seq<u8>, indices: seq<u8>, colours: nat, img: Image)
    requires Rectangular(img)
    ensures AllIndexed(palette, indices, colours, img, 0, 0)
  {
  }

  lemma IndexedRow(palette: seq<u8>, indices: seq<u8>, colours: nat, img: Image, y: nat)
    requires Rectangular(img) && y < |img.rows|
    requires AllIndexed(palette, indices, colours, img, y, img.width)
    ensures AllIndexed(palette, indices, colours, img, y + 1, 0)
  {
  }

  /** Writing one more index, after the palette may have grown, keeps the earlier ones. */
  lemma IndexedStep(palette: seq<u8>, palette': seq<u8>, indices: seq<u8>, index: u8, colours: nat, colours': nat,
                    img: Image, y: nat, x: nat)
    requires Rectangular(img) && y < |img.rows| && x < img.width && |indices| >= img.width * |img.rows|
    requires AllIndexed(palette, indices, colours, img, y, x) && colours <= colours' && |palette| == |palette'|
    requires forall i: nat, c :: i < colours && 4 * i + 4 <= |palette| && EntryHolds(palette, c, i) ==> EntryHolds(palette', c, i)
    requires index < colours' && 4 * index + 4 <= |palette'| && EntryHolds(palette', img.rows[|img.rows| - 1 - y][x], index)
    ensures img.width * y + x < |indices|
    ensures AllIndexed(palette', indices[img.width * y + x := index], colours', img, y, x + 1)
  {
    hide EntryHolds;
    RowInside(img.width, |img.rows|, y);
    var at := img.width * y + x;
    var done := indices[at := index];
    forall y': nat, x': nat | y' < y && x' < img.width
      ensures PixelIndexed(palette', done, colours', img, y', x')
    {
      assert PixelIndexed(palette, indices, colours, img, y', x');
      IndexInside(img.width, |img.rows|, y, x, y', x');
      PixelStays(palette, palette', indices, done, colours, colours', img, y', x');
    }
    forall x': nat | x' < x + 1
      ensures PixelIndexed(palette', done, colours', img, y, x')
    {
      if x' < x {
        assert PixelIndexed(palette, indices, colours, img, y, x');
        PixelStays(palette, palette', indices, done, colours, colours', img, y, x');
      }
    }
  }

  lemma PixelStays(palette: seq<u8>, palette': seq<u8>, indices: seq<u8>, done: seq<u8>, colours: nat, colours': nat,
                   img: Image, y: nat, x: nat)
    requires Rectangular(img) && y < |img.rows| && x < img.width && colours <= colours' && |palette| == |palette'|
    requires PixelIndexed(palette, indices, colours, img, y, x)
    requires |done| == |indices| && done[img.width * y + x] == indices[img.width * y + x]
    requires forall i: nat, c :: i < colours && 4 * i + 4 <= |palette| && EntryHolds(palette, c, i) ==> EntryHolds(palette', c, i)
    ensures PixelIndexed(palette', done, colours', img, y, x)
  {
    hide EntryHolds;
  }

  /** Entries the palette already had stay where they were. */
  lemma EntriesKept(palette: seq<u8>, palette': seq<u8>, pal: seq<Rgb>, pal': seq<Rgb>)
    requires PaletteHolds(palette, pal) && PaletteHolds(palette', pal') && pal <= pal'
    ensures forall i: nat, c :: i < |pal| && 4 * i + 4 <= |palette| && EntryHolds(palette, c, i) ==> EntryHolds(palette', c, i)
  {
    forall i: nat, c | i < |pal| && 4 * i + 4 <= |palette| && EntryHolds(palette, c, i)
      ensures EntryHolds(palette', c, i)
    {
      assert EntryHolds(palette, pal[i], i);
      assert EntryHolds(palette', pal'[i], i);
    }
  }

  /** What interning a pixel's colour and writing its index achieve. */
  lemma AfterIntern(palette: seq<u8>, palette': seq<u8>, pal: seq<Rgb>, pal': seq<Rgb>, indices: seq<u8>, index: u8,
                    img: Image, y: nat, x: nat)
    requires Rectangular(img) && y < |img.rows| && x < img.width && |indices| >= img.width * |img.rows|
    requires |palette| == |palette'| && PaletteHolds(palette, pal) && PaletteHolds(palette', pal')
    requires AllIndexed(palette, indices, |pal|, img, y, x)
    requires var c := img.rows[|img.rows| - 1 - y][x];
             pal' == (if c in pal then pal else pal + [c]) && index < |pal'| && pal'[index] == c
    ensures img.width * y + x < |indices|
    ensures AllIndexed(palette', indices[img.width * y + x := index], |pal'|, img, y, x + 1)
    ensures AsSet(pal') == AsSet(pal) + {img.rows[|img.rows| - 1 - y][x]}
  {
    hide AllIndexed, EntryHolds, PaletteHolds;
    AsSetAppend(pal, pal'[index]);
    EntriesKept(palette, palette', pal, pal');
    EntryIs(palette', pal', index);
    IndexedStep(palette, palette', indices, index, |pal|, |pal'|, img, y, x);
  }

  lemma TableFacts(work: Work)
    requires work.Valid()
    ensures work.Shape() && PaletteHolds(work.palette[..], work.pal)
  {
  }

  /** One pixel through the palette hash. */
  method IndexPixel(image: array<u8>, work: Work, width: nat, ghost img: Image, y: nat, x: nat) returns (ok: bool)
    requires Rectangular(img) && width == img.width && y < |img.rows| && x < width && work.Valid()
    requires work.indices.Length >= img.width * |img.rows|
    requires HEADER + Stride24(img.width) * |img.rows| <= image.Length && RowsDone(image[..], img, |img.rows|)
    requires image != work.palette && image != work.values && image != work.indices
    requires AllIndexed(work.palette[..], work.indices[..], |work.pal|, img, y, x)
    modifies work, work.palette, work.keys, work.values, work.indices
    ensures work.Valid() && image[..] == old(image[..])
    ensures ok <==> img.rows[|img.rows| - 1 - y][x] in old(work.pal) || |old(work.pal)| < MAX_COLOURS
    ensures ok ==> AsSet(work.pal) == AsSet(old(work.pal)) + {img.rows[|img.rows| - 1 - y][x]}
    ensures !ok ==> work.pal == old(work.pal)
    ensures ok ==> AllIndexed(work.palette[..], work.indices[..], |work.pal|, img, y, x + 1)
  {
    hide AllIndexed, PixelIndexed, EntryHolds, Work.Valid, RowsDone, Stride24, AsSet;
    ghost var palette, pal, indices := work.palette[..], work.pal, work.indices[..];
    TableFacts(work);
    ImagePixel(image[..], img, y, x);
    var at := HEADER + Stride24(width) * y + 3 * x;
    var index;
    ok, index := work.Intern(image[at], image[at + 1], image[at + 2]);
    TableFacts(work);
    if ok {
      AfterIntern(palette, work.palette[..], pal, work.pal, indices, index, img, y, x);
      work.indices[width * y + x] := index;
      assert work.indices[..] == indices[width * y + x := index];
    }
  }

  lemma EntryIs(palette: seq<u8>, pal: seq<Rgb>, i: nat)
    requires PaletteHolds(palette, pal) && i < |pal|
    ensures 4 * i + 4 <= |palette| && EntryHolds(palette, pal[i], i)
  {
  }

  /** The colours seen up to pixel x of row y, rows bottom-up. */
  ghost function SeenUpTo(img: Image, y: nat, x: nat): set<Rgb>
    requires Rectangular(img) && y <= |img.rows| && (x > 0 ==> y < |img.rows| && x <= img.width)
  {
    SeenColours(img, y) + if x == 0 then {} else RowColours(img.rows[|img.rows| - 1 - y], x)
  }

  lemma SeenNext(img: Image, y: nat, x: nat)
    requires Rectangular(img) && y < |img.rows| && x < img.width
    ensures SeenUpTo(img, y, x + 1) == SeenUpTo(img, y, x) + {img.rows[|img.rows| - 1 - y][x]}
  {
    RowColoursNext(img.rows[|img.rows| - 1 - y], x);
    assert RowColours(img.rows[|img.rows| - 1 - y], 0) == {};
  }

  lemma SeenRow(img: Image, y: nat)
    requires Rectangular(img) && y < |img.rows|
    ensures SeenUpTo(img, y + 1, 0) == SeenUpTo(img, y, img.width)
  {
    if img.width == 0 {
      assert RowColours(img.rows[|img.rows| - 1 - y], 0) == {};
    }
  }

  /** More than 256 colours: 256 already listed, and one that is not. */
  lemma TooMany(img: Image, pal: seq<Rgb>, y: nat, x: nat)
    requires Rectangular(img) && y < |img.rows| && x < img.width
    requires |pal| == MAX_COLOURS && forall i, j :: 0 <= i < j < |pal| ==> pal[i] != pal[j]
    requires AsSet(pal) == SeenUpTo(img, y, x) && img.rows[|img.rows| - 1 - y][x] !in pal
    ensures |Colours(img)| > MAX_COLOURS
  {
    var c := img.rows[|img.rows| - 1 - y][x];
    DistinctSize(pal);
    SeenIs(img, y);
    assert AsSet(pal) + {c} <= Colours(img);
    SetSizes(AsSet(pal) + {c}, Colours(img));
    assert |AsSet(pal) + {c}| == |AsSet(pal)| + 1;
  }

  lemma SetSizes(a: set<Rgb>, b: set<Rgb>)
    requires a <= b
    ensures |a| <= |b|
  {
    assert b == a + (b - a);
  }

  /** Everything listed: the list is the picture's colours, each once. */
  lemma AllListed(img: Image, pal: seq<Rgb>)
    requires Rectangular(img) && AsSet(pal) == SeenUpTo(img, |img.rows|, 0)
    requires forall i, j :: 0 <= i < j < |pal| ==> pal[i] != pal[j]
    ensures AsSet(pal) == Colours(img) && |pal| == |Colours(img)|
  {
    SeenIs(img, |img.rows|);
    DistinctSize(pal);
    assert SeenColours(img, |img.rows|) == Colours(img);
  }

  lemma TableDistinct(work: Work)
    requires work.Valid()
    ensures |work.pal| <= MAX_COLOURS && forall i, j :: 0 <= i < j < |work.pal| ==> work.pal[i] != work.pal[j]
  {
  }

  /** COMPACT: every pixel's index leads to exactly its colour, or there are more than 256 colours. */
  method IndexCompact(image: array<u8>, work: Work, width: nat, height: nat, ghost img: Image) returns (colours: nat)
    requires Rectangular(img) && width == img.width >= 1 && height == |img.rows| >= 1
    requires work.Shape() && work.indices.Length >= width * height
    requires HEADER + Stride24(width) * height <= image.Length && RowsDone(image[..], img, height)
    requires image != work.palette && image != work.values && image != work.indices
    modifies work, work.palette, work.keys, work.values, work.indices
    ensures image[..] == old(image[..])
    ensures colours == 0 <==> |Colours(img)| > MAX_COLOURS
    ensures colours != 0 ==> colours == |Colours(img)| && AllIndexed(work.palette[..], work.indices[..], colours, img, height, 0)
  {
    hide AllIndexed, RowsDone, Stride24, AsSet, SeenUpTo, Colours, Work.Valid;
    work.Clear();
    StartsEmpty(img, work.pal);
    IndexedStart(work.palette[..], work.indices[..], 0, img);
    for y := 0 to height
      invariant work.Valid() && image[..] == old(image[..])
      invariant AllIndexed(work.palette[..], work.indices[..], |work.pal|, img, y, 0)
      invariant AsSet(work.pal) == SeenUpTo(img, y, 0)
    {
      var ok := IndexRow(image, work, width, img, y);
      if !ok {
        return 0;
      }
    }
    TableDistinct(work);
    AllListed(img, work.pal);
    ColoursPositive(img);
    colours := Listed(work);
  }

  lemma StartsEmpty(img: Image, pal: seq<Rgb>)
    requires Rectangular(img) && pal == []
    ensures AsSet(pal) == SeenUpTo(img, 0, 0)
  {
  }

  lemma ColoursPositive(img: Image)
    requires Rectangular(img) && img.width >= 1 && |img.rows| >= 1
    ensures |Colours(img)| >= 1
  {
    assert img.rows[0][0] in Colours(img);
  }

  function Listed(work: Work): (n: nat)
    reads work, work.palette, work.keys, work.values
    requires work.Valid()
    ensures n == |work.pal|
  {
    work.colours
  }

  method IndexRow(image: array<u8>, work: Work, width: nat, ghost img: Image, y: nat) returns (ok: bool)
    requires Rectangular(img) && width == img.width && y < |img.rows| && work.Valid()
    requires work.indices.Length >= img.width * |img.rows|
    requires HEADER + Stride24(img.width) * |img.rows| <= image.Length && RowsDone(image[..], img, |img.rows|)
    requires image != work.palette && image != work.values && image != work.indices
    requires AllIndexed(work.palette[..], work.indices[..], |work.pal|, img, y, 0)
    requires AsSet(work.pal) == SeenUpTo(img, y, 0)
    modifies work, work.palette, work.keys, work.values, work.indices
    ensures image[..] == old(image[..])
    ensures !ok ==> |Colours(img)| > MAX_COLOURS
    ensures ok ==> work.Valid() && AllIndexed(work.palette[..], work.indices[..], |work.pal|, img, y + 1, 0)
                   && AsSet(work.pal) == SeenUpTo(img, y + 1, 0)
  {
    hide AllIndexed, RowsDone, Stride24, AsSet, SeenUpTo, Colours, Work.Valid;
    for x := 0 to width
      invariant work.Valid() && image[..] == old(image[..])
      invariant AllIndexed(work.palette[..], work.indices[..], |work.pal|, img, y, x)
      invariant AsSet(work.pal) == SeenUpTo(img, y, x)
    {
      TableDistinct(work);
      ghost var pal := work.pal;
      ok := IndexPixel(image, work, width, img, y, x);
      if !ok {
        TooMany(img, pal, y, x);
        return false;
      }
      SeenNext(img, y, x);
    }
    IndexedRow(work.palette[..], work.indices[..], |work.pal|, img, y);
    SeenRow(img, y);
    return true;
  }

  /** The picture in grey. */
  function Grayed(img: Image): (g: Image)
    requires Rectangular(img)
    ensures g.width == img.width && |g.rows| == |img.rows| && Rectangular(g)
    ensures forall y, x :: 0 <= y < |img.rows| && 0 <= x < img.width ==>
              g.rows[y][x] == Rgb(GrayOf(img.rows[y][x]), GrayOf(img.rows[y][x]), GrayOf(img.rows[y][x]))
  {
    Image(img.width, seq(|img.rows|, y requires 0 <= y < |img.rows| =>
      seq(img.width, x requires 0 <= x < img.width =>
        Rgb(GrayOf(img.rows[y][x]), GrayOf(img.rows[y][x]), GrayOf(img.rows[y][x])))))
  }

  predicate GrayPalette(palette: seq<u8>) {
    && |palette| == 4 * MAX_COLOURS
    && forall i :: 0 <= i < MAX_COLOURS ==> palette[4 * i] == palette[4 * i + 1] == palette[4 * i + 2] == i && palette[4 * i + 3] == 0
  }

  method FillGray(work: Work)
    requires work.Shape()
    modifies work.palette
    ensures GrayPalette(work.palette[..])
  {
    for x := 0 to MAX_COLOURS
      invariant forall i :: 0 <= i < x ==>
        work.palette[4 * i] == work.palette[4 * i + 1] == work.palette[4 * i + 2] == i && work.palette[4 * i + 3] == 0
    {
      work.palette[4 * x] := x;
      work.palette[4 * x + 1] := x;
      work.palette[4 * x + 2] := x;
      work.palette[4 * x + 3] := 0;
    }
  }

  lemma GrayEntry(palette: seq<u8>, img: Image, y: nat, x: nat)
    requires GrayPalette(palette) && Rectangular(img) && y < |img.rows| && x < img.width
    ensures var v := GrayOf(img.rows[y][x]);
            4 * v + 4 <= |palette| && EntryHolds(palette, Grayed(img).rows[y][x], v)
  {
  }

  /** GRAY: every pixel's index is its own grey level. */
  method IndexGray(image: array<u8>, work: Work, width: nat, height: nat, ghost img: Image)
    requires Rectangular(img) && width == img.width && height == |img.rows|
    requires work.Shape() && work.indices.Length >= width * height
    requires HEADER + Stride24(width) * height <= image.Length && RowsDone(image[..], img, height)
    requires image != work.palette && image != work.values && image != work.indices
    modifies work.palette, work.indices
    ensures image[..] == old(image[..])
    ensures AllIndexed(work.palette[..], work.indices[..], MAX_COLOURS, Grayed(img), height, 0)
  {
    hide AllIndexed, RowsDone, Stride24, GrayPalette, Grayed;
    FillGray(work);
    ghost var palette := work.palette[..];
    IndexedStart(palette, work.indices[..], MAX_COLOURS, Grayed(img));
    for y := 0 to height
      invariant work.palette[..] == palette && image[..] == old(image[..])
      invariant AllIndexed(palette, work.indices[..], MAX_COLOURS, Grayed(img), y, 0)
    {
      GrayRow(image, work, width, img, y);
    }
  }

  method GrayRow(image: array<u8>, work: Work, width: nat, ghost img: Image, y: nat)
    requires Rectangular(img) && width == img.width && y < |img.rows|
    requires work.Shape() && work.indices.Length >= img.width * |img.rows|
    requires HEADER + Stride24(img.width) * |img.rows| <= image.Length && RowsDone(image[..], img, |img.rows|)
    requires image != work.palette && image != work.values && image != work.indices
    requires GrayPalette(work.palette[..])
    requires AllIndexed(work.palette[..], work.indices[..], MAX_COLOURS, Grayed(img), y, 0)
    modifies work.indices
    ensures AllIndexed(work.palette[..], work.indices[..], MAX_COLOURS, Grayed(img), y + 1, 0)
  {
    hide AllIndexed, RowsDone, Stride24, GrayPalette, Grayed, EntryHolds;
    ghost var palette := work.palette[..];
    for x := 0 to width
      invariant work.palette[..] == palette
      invariant AllIndexed(palette, work.indices[..], MAX_COLOURS, Grayed(img), y, x)
    {
      ImagePixel(image[..], img, y, x);
      var at := HEADER + Stride24(width) * y + 3 * x;
      var v := GrayOf(Rgb(image[at + 2], image[at + 1], image[at]));
      GrayEntry(palette, img, |img.rows| - 1 - y, x);
      IndexedStep(palette, palette, work.indices[..], v, MAX_COLOURS, MAX_COLOURS, Grayed(img), y, x);
      work.indices[width * y + x] := v;
    }
    IndexedRow(palette, work.indices[..], MAX_COLOURS, Grayed(img), y);
  }
}
