/** The BMP container: header fields in and out, and what the host decodes. */
module ShotBmp {
  import opened LittleEndian
  import opened ShotImage
  import opened Wrappers

  const HEADER := 54

  /** Every field of the 54-byte header. */
  ghost predicate HeaderHolds(s: seq<u8>, width: int, height: int, bits: int, compression: int, colours: int, image: int)
    requires |s| >= HEADER
  {
    && s[0] == 0x42 && s[1] == 0x4D && Get32(s, 2) == HEADER + colours * 4 + image
    && Get32(s, 6) == 0 && Get32(s, 10) == HEADER + colours * 4 && Get32(s, 14) == 40
    && Get32(s, 18) == width && Get32(s, 22) == height && Get16(s, 26) == 1 && Get16(s, 28) == bits
    && Get32(s, 30) == compression && Get32(s, 34) == image && Get32(s, 38) == 2835 && Get32(s, 42) == 2835
    && Get32(s, 46) == colours && Get32(s, 50) == colours
  }

  method Put32(out: array<u8>, at: nat, value: u32)
    requires at + 4 <= out.Length
    modifies out
    ensures Get32(out[..], at) == value
    ensures forall k :: 0 <= k < out.Length && !(at <= k < at + 4) ==> out[k] == old(out[k])
  {
    var field := Write32(value);
    out[at] := field[0];
    out[at + 1] := field[1];
    out[at + 2] := field[2];
    out[at + 3] := field[3];
  }

  method Put16(out: array<u8>, at: nat, value: u32)
    requires at + 2 <= out.Length && value < 0x1_0000
    modifies out
    ensures Get16(out[..], at) == value
    ensures forall k :: 0 <= k < out.Length && !(at <= k < at + 2) ==> out[k] == old(out[k])
  {
    out[at] := value % 256;
    out[at + 1] := (value / 0x100) % 256;
  }

  /** Fields outside a written range keep their values. */
  lemma Kept(s: seq<u8>, t: seq<u8>, lo: nat, hi: nat)
    requires |s| == |t| && forall k :: 0 <= k < |s| && !(lo <= k < hi) ==> t[k] == s[k]
    ensures forall i: nat :: i + 4 <= |s| && (i + 4 <= lo || hi <= i) ==> Get32(t, i) == Get32(s, i)
    ensures forall i: nat :: i + 2 <= |s| && (i + 2 <= lo || hi <= i) ==> Get16(t, i) == Get16(s, i)
  {
  }

  method BmpHeader(out: array<u8>, width: u32, height: u32, bits: u32, compression: u32, colours: u32, image: u32)
    requires out.Length >= HEADER && bits < 0x1_0000
    requires colours <= 256 && HEADER + colours * 4 + image < 0x1_0000_0000
    modifies out
    ensures HeaderHolds(out[..], width, height, bits, compression, colours, image)
    ensures out[HEADER..] == old(out[HEADER..])
  {
    hide Get32, Get16;
    var offset: u32 := HEADER + colours * 4;
    ZeroHeader(out);
    out[0], out[1] := 0x42, 0x4D;
    Front(out, offset, image, width, height);
    ghost var s := out[..];
    Back(out, bits, compression, image, colours);
    Kept(s, out[..], 26, HEADER);
  }

  method ZeroHeader(out: array<u8>)
    requires out.Length >= HEADER
    modifies out
    ensures forall k :: 0 <= k < HEADER ==> out[k] == 0
    ensures out[HEADER..] == old(out[HEADER..])
  {
    for i := 0 to HEADER
      invariant forall k :: 0 <= k < i ==> out[k] == 0
      invariant out[HEADER..] == old(out[HEADER..])
    {
      out[i] := 0;
    }
  }

  /** Size, offset, header size, width and height: bytes 2 to 25. */
  method Front(out: array<u8>, offset: u32, image: u32, width: u32, height: u32)
    requires out.Length >= HEADER && offset + image < 0x1_0000_0000
    requires forall k :: 6 <= k < 10 ==> out[k] == 0
    modifies out
    ensures Get32(out[..], 2) == offset + image && Get32(out[..], 6) == 0 && Get32(out[..], 10) == offset
    ensures Get32(out[..], 14) == 40 && Get32(out[..], 18) == width && Get32(out[..], 22) == height
    ensures out[0] == old(out[0]) && out[1] == old(out[1])
    ensures out[HEADER..] == old(out[HEADER..])
  {
    ZeroField(out[..]);
    hide Get32;
    ghost var s := out[..];
    Put32(out, 2, offset + image);
    Kept(s, out[..], 2, 6);
    s := out[..];
    Put32(out, 10, offset);
    Kept(s, out[..], 10, 14);
    s := out[..];
    Put32(out, 14, 40);
    Kept(s, out[..], 14, 18);
    s := out[..];
    Put32(out, 18, width);
    Kept(s, out[..], 18, 22);
    s := out[..];
    Put32(out, 22, height);
    Kept(s, out[..], 22, 26);
  }

  lemma ZeroField(s: seq<u8>)
    requires |s| >= 10 && forall k :: 6 <= k < 10 ==> s[k] == 0
    ensures Get32(s, 6) == 0
  {
  }

  /** Planes, depth, compression, sizes, resolution and colour counts: bytes 26 to 53. */
  method Back(out: array<u8>, bits: u32, compression: u32, image: u32, colours: u32)
    requires out.Length >= HEADER && bits < 0x1_0000
    modifies out
    ensures Get16(out[..], 26) == 1 && Get16(out[..], 28) == bits && Get32(out[..], 30) == compression
    ensures Get32(out[..], 34) == image && Get32(out[..], 38) == 2835 && Get32(out[..], 42) == 2835
    ensures Get32(out[..], 46) == colours && Get32(out[..], 50) == colours
    ensures forall k :: 0 <= k < out.Length && !(26 <= k < HEADER) ==> out[k] == old(out[k])
  {
    hide Get32, Get16;
    ghost var s := out[..];
    Put16(out, 26, 1);
    Kept(s, out[..], 26, 28);
    s := out[..];
    Put16(out, 28, bits);
    Kept(s, out[..], 28, 30);
    s := out[..];
    Put32(out, 30, compression);
    Kept(s, out[..], 30, 34);
    s := out[..];
    Put32(out, 34, image);
    Kept(s, out[..], 34, 38);
    s := out[..];
    Put32(out, 38, 2835);
    Kept(s, out[..], 38, 42);
    s := out[..];
    Put32(out, 42, 2835);
    Kept(s, out[..], 42, 46);
    s := out[..];
    Put32(out, 46, colours);
    Kept(s, out[..], 46, 50);
    s := out[..];
    Put32(out, 50, colours);
    Kept(s, out[..], 50, 54);
  }

  /** A 24-bit file decodes to its rows when every stored row reads as the picture's. */
  lemma Decode24Is(data: seq<u8>, img: Image)
    requires |data| == HEADER + Stride24(img.width) * |img.rows| && Rectangular(img)
    requires 1 <= img.width <= 4096 && 1 <= |img.rows| <= 4096
    requires HeaderHolds(data, img.width, |img.rows|, 24, 0, 0, Stride24(img.width) * |img.rows|)
    requires forall y :: 0 <= y < |img.rows| ==>
      StoredRow24(data, HEADER, img.width, |img.rows|, y) == img.rows[|img.rows| - 1 - y]
    ensures DecodeBmp(data) == Some(img)
  {
    hide HeaderHolds, DecodeBmp, Stride24;
    var stored := Rows24(data, HEADER, img.width, |img.rows|);
    forall y | 0 <= y < |img.rows|
      ensures Reversed(stored)[y] == img.rows[y]
    {
      var z := |img.rows| - 1 - y;
      assert stored[z] == StoredRow24(data, HEADER, img.width, |img.rows|, z);
    }
    assert Reversed(stored) == img.rows;
    Branch24(data, img.width, |img.rows|);
  }

  /** With a 24-bit header the decoder takes the rows bottom-up. */
  lemma Branch24(data: seq<u8>, width: nat, rows: nat)
    requires |data| == HEADER + Stride24(width) * rows && 1 <= width <= 4096 && 1 <= rows <= 4096
    requires HeaderHolds(data, width, rows, 24, 0, 0, Stride24(width) * rows)
    ensures DecodeBmp(data) == Some(Image(width, Reversed(Rows24(data, HEADER, width, rows))))
  {
    hide Get32, Get16, Rows24, Stride24, Reversed;
  }

  /** An 8-bit file decodes to the palette colours of its index rows, stored bottom-up. */
  lemma Decode8Is(data: seq<u8>, img: Image, grid: seq<seq<u8>>, compression: int, colours: int, image: int)
    requires Rectangular(img) && 1 <= img.width <= 4096 && 1 <= |img.rows| <= 4096
    requires 1 <= colours <= 256 && 0 <= compression <= 1 && 0 <= image && |data| == HEADER + colours * 4 + image
    requires HeaderHolds(data, img.width, |img.rows|, 8, compression, colours, image)
    requires Grid(grid, img.width, |img.rows|) && Indexed(grid, colours)
    requires IndexRows(data, HEADER + colours * 4, img.width, |img.rows|, compression) == Some(grid)
    requires forall y, x :: 0 <= y < |img.rows| && 0 <= x < img.width ==>
      PaletteEntry(data, grid[y][x]) == img.rows[|img.rows| - 1 - y][x]
    ensures DecodeBmp(data) == Some(img)
  {
    hide Get32, Get16, IndexRows, PaletteEntry;
    var stored := ColouredRows(data, grid, colours);
    forall y | 0 <= y < |img.rows|
      ensures Reversed(stored)[y] == img.rows[y]
    {
      var z := |img.rows| - 1 - y;
      assert stored[z] == Coloured(data, grid[z], colours);
      forall x | 0 <= x < img.width
        ensures stored[z][x] == img.rows[y][x]
      {
        assert PaletteEntry(data, grid[z][x]) == img.rows[|img.rows| - 1 - z][x];
      }
    }
    assert Reversed(stored) == img.rows;
  }
}
