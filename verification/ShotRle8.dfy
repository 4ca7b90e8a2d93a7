/** The RLE8 encoder, and that the host's decoder undoes it. */
module ShotRle8 {
  import opened LittleEndian
  import opened ShotImage
  import opened Wrappers

  /** A run of equal bytes from i, at least n long, cut at 255. */
  function RunFrom(row: seq<u8>, i: nat, n: nat): (r: nat)
    requires i < |row| && 1 <= n <= 255 && i + n <= |row|
    requires forall k :: i <= k < i + n ==> row[k] == row[i]
    ensures n <= r <= 255 && i + r <= |row|
    ensures forall k :: i <= k < i + r ==> row[k] == row[i]
    ensures r < 255 && i + r < |row| ==> row[i + r] != row[i]
    decreases |row| - n
  {
    if i + n < |row| && n < 255 && row[i + n] == row[i] then RunFrom(row, i, n + 1) else n
  }

  predicate ThreeAt(row: seq<u8>, j: nat) {
    j + 2 < |row| && row[j] == row[j + 1] && row[j] == row[j + 2]
  }

  /** The end of a literal stretch: the next run of three, 255 bytes, or the row's end. */
  function LiteralEnd(row: seq<u8>, i: nat, j: nat): (e: nat)
    requires i <= j <= |row| && j - i <= 255
    ensures j <= e <= |row| && e - i <= 255
    ensures j < |row| && j - i < 255 && !ThreeAt(row, j) ==> e > j
    decreases |row| - j
  {
    if j < |row| && j - i < 255 && !ThreeAt(row, j) then LiteralEnd(row, i, j + 1) else j
  }

  /** Single-pixel runs, for stretches too short for absolute mode. */
  function Singles(row: seq<u8>, i: nat, j: nat): (s: seq<u8>)
    requires i <= j <= |row|
    ensures |s| == 2 * (j - i)
    decreases j - i
  {
    if i == j then [] else [1, row[i]] + Singles(row, i + 1, j)
  }

  /** The token at i and the position it leaves the row at. */
  function NextAt(row: seq<u8>, i: nat): (next: nat)
    requires i < |row|
    ensures i < next <= |row|
  {
    var run := RunFrom(row, i, 1);
    if run >= 2 then i + run
    else LiteralEnd(row, i, i)
  }

  function TokenAt(row: seq<u8>, i: nat): (t: seq<u8>)
    requires i < |row|
    ensures |t| >= 2
  {
    var run := RunFrom(row, i, 1);
    var j := NextAt(row, i);
    if run >= 2 then [run, row[i]]
    else if j - i < 3 then Singles(row, i, j)
    else [0, j - i] + row[i..j] + if (j - i) % 2 == 1 then [0] else []
  }

  function RowTokens(row: seq<u8>, i: nat): (s: seq<u8>)
    requires i <= |row|
    decreases |row| - i
  {
    if i == |row| then [] else TokenAt(row, i) + RowTokens(row, NextAt(row, i))
  }

  /** All rows from y on, each closed by end of line, the last by end of bitmap. */
  function Encode(rows: seq<seq<u8>>, y: nat): (s: seq<u8>)
    requires y <= |rows|
    ensures |s| >= 2 * (|rows| - y)
    decreases |rows| - y
  {
    if y == |rows| then []
    else RowTokens(rows[y], 0) + [0, if y + 1 == |rows| then 1 else 0] + Encode(rows, y + 1)
  }

  /** The data at byte at starts with these bytes. */
  ghost predicate Holds(data: seq<u8>, at: nat, bytes: seq<u8>) {
    at + |bytes| <= |data| && data[at..at + |bytes|] == bytes
  }

  lemma HoldsSplit(data: seq<u8>, at: nat, a: seq<u8>, b: seq<u8>)
    requires Holds(data, at, a + b)
    ensures Holds(data, at, a) && Holds(data, at + |a|, b)
  {
    assert data[at..at + |a|] == (a + b)[..|a|];
    assert data[at + |a|..at + |a| + |b|] == (a + b)[|a|..];
  }

  lemma HoldsByte(data: seq<u8>, at: nat, bytes: seq<u8>, k: nat)
    requires Holds(data, at, bytes) && k < |bytes|
    ensures data[at + k] == bytes[k]
  {
    assert data[at..at + |bytes|][k] == bytes[k];
  }

  lemma HoldsWithin(data: seq<u8>, at: nat, bytes: seq<u8>)
    requires Holds(data, at, bytes)
    ensures at + |bytes| <= |data|
  {
  }

  /** Row y of the grid agrees with the row up to i. */
  ghost predicate DoneTo(grid: seq<seq<u8>>, y: nat, row: seq<u8>, i: nat) {
    y < |grid| && |grid[y]| == |row| && i <= |row| && forall k :: 0 <= k < i ==> grid[y][k] == row[k]
  }

  lemma PaintDone(grid: seq<seq<u8>>, y: nat, row: seq<u8>, i: nat, bytes: seq<u8>)
    requires DoneTo(grid, y, row, i) && i + |bytes| <= |row|
    requires forall k :: 0 <= k < |bytes| ==> bytes[k] == row[i + k]
    ensures DoneTo(Paint(grid, y, i, bytes), y, row, i + |bytes|)
    ensures forall z :: 0 <= z < |grid| && z != y ==> Paint(grid, y, i, bytes)[z] == grid[z]
  {
  }

  /** One-pixel runs decode back to the pixels. */
  lemma {:induction false} SinglesDecode(data: seq<u8>, at: nat, row: seq<u8>, i: nat, j: nat, y: nat, grid: seq<seq<u8>>)
    returns (grid': seq<seq<u8>>)
    requires i <= j <= |row| && Grid(grid, |row|, |grid|) && DoneTo(grid, y, row, i)
    requires Holds(data, at, Singles(row, i, j))
    ensures Grid(grid', |row|, |grid|) && DoneTo(grid', y, row, j)
    ensures forall z :: 0 <= z < |grid| && z != y ==> grid'[z] == grid[z]
    ensures RleFrom(data, at, i, y, grid, |row|) == RleFrom(data, at + 2 * (j - i), j, y, grid', |row|)
    decreases j - i
  {
    if i == j {
      grid' := grid;
    } else {
      var bytes := Singles(row, i, j);
      HoldsByte(data, at, bytes, 0);
      HoldsByte(data, at, bytes, 1);
      HoldsSplit(data, at, [1, row[i]], Singles(row, i + 1, j));
      PaintDone(grid, y, row, i, Fill(row[i], 1));
      grid' := SinglesDecode(data, at + 2, row, i + 1, j, y, Paint(grid, y, i, Fill(row[i], 1)));
    }
  }

  /** A token decodes to the pixels it stands for: its count never reads as an escape. */
  lemma TokenDecodes(data: seq<u8>, at: nat, row: seq<u8>, i: nat, y: nat, grid: seq<seq<u8>>)
    returns (grid': seq<seq<u8>>)
    requires i < |row| && Grid(grid, |row|, |grid|) && DoneTo(grid, y, row, i)
    requires Holds(data, at, TokenAt(row, i))
    ensures Grid(grid', |row|, |grid|) && DoneTo(grid', y, row, NextAt(row, i))
    ensures forall z :: 0 <= z < |grid| && z != y ==> grid'[z] == grid[z]
    ensures RleFrom(data, at, i, y, grid, |row|)
      == RleFrom(data, at + |TokenAt(row, i)|, NextAt(row, i), y, grid', |row|)
  {
    hide RleFrom, RunFrom, LiteralEnd, Holds, DoneTo, Paint;
    var run := RunFrom(row, i, 1);
    var j := NextAt(row, i);
    var t := TokenAt(row, i);
    HoldsWithin(data, at, t);
    if run >= 2 {
      HoldsByte(data, at, t, 0);
      HoldsByte(data, at, t, 1);
      grid' := RunDecodes(data, at, row, i, run, y, grid);
    } else if j - i < 3 {
      grid' := SinglesDecode(data, at, row, i, j, y, grid);
    } else {
      HoldsByte(data, at, t, 0);
      HoldsByte(data, at, t, 1);
      LiteralBytes(data, at, row, i, j);
      grid' := LiteralDecodes(data, at, row, i, j, y, grid);
    }
  }

  /** Encoded mode: a count of 1 to 255 and a value. */
  lemma RunDecodes(data: seq<u8>, at: nat, row: seq<u8>, i: nat, run: nat, y: nat, grid: seq<seq<u8>>)
    returns (grid': seq<seq<u8>>)
    requires 1 <= run <= 255 && i + run <= |row| && Grid(grid, |row|, |grid|) && DoneTo(grid, y, row, i)
    requires forall k :: i <= k < i + run ==> row[k] == row[i]
    requires at + 2 <= |data| && data[at] == run && data[at + 1] == row[i]
    ensures Grid(grid', |row|, |grid|) && DoneTo(grid', y, row, i + run)
    ensures forall z :: 0 <= z < |grid| && z != y ==> grid'[z] == grid[z]
    ensures RleFrom(data, at, i, y, grid, |row|) == RleFrom(data, at + 2, i + run, y, grid', |row|)
  {
    hide Paint;
    PaintDone(grid, y, row, i, Fill(row[i], run));
    grid' := Paint(grid, y, i, Fill(row[i], run));
  }

  /** Absolute mode: a count of 3 to 255, never an escape, then the bytes and their padding. */
  lemma LiteralDecodes(data: seq<u8>, at: nat, row: seq<u8>, i: nat, j: nat, y: nat, grid: seq<seq<u8>>)
    returns (grid': seq<seq<u8>>)
    requires i + 3 <= j <= |row| && j - i <= 255 && Grid(grid, |row|, |grid|) && DoneTo(grid, y, row, i)
    requires at + 2 + (j - i) <= |data| && data[at] == 0 && data[at + 1] == j - i
    requires data[at + 2..at + 2 + (j - i)] == row[i..j]
    ensures Grid(grid', |row|, |grid|) && DoneTo(grid', y, row, j)
    ensures forall z :: 0 <= z < |grid| && z != y ==> grid'[z] == grid[z]
    ensures RleFrom(data, at, i, y, grid, |row|) == RleFrom(data, at + 2 + (j - i) + (j - i) % 2, j, y, grid', |row|)
  {
    hide Paint;
    PaintDone(grid, y, row, i, row[i..j]);
    grid' := Paint(grid, y, i, row[i..j]);
  }

  /** End of line moves the pen down, end of bitmap stops. */
  lemma CloseDecodes(data: seq<u8>, at: nat, x: nat, y: nat, grid: seq<seq<u8>>, width: nat)
    requires Grid(grid, width, |grid|) && at + 2 <= |data| && data[at] == 0 && data[at + 1] <= 1
    ensures RleFrom(data, at, x, y, grid, width)
      == if data[at + 1] == 1 then Some(grid) else RleFrom(data, at + 2, 0, y + 1, grid, width)
  {
  }

  lemma LiteralBytes(data: seq<u8>, at: nat, row: seq<u8>, i: nat, j: nat)
    requires i < j <= |row| && j - i <= 255
    requires Holds(data, at, [0, j - i] + row[i..j] + if (j - i) % 2 == 1 then [0] else [])
    ensures at + 2 + (j - i) <= |data| && data[at + 2..at + 2 + (j - i)] == row[i..j]
  {
    var head: seq<u8> := [0, j - i];
    var pad: seq<u8> := if (j - i) % 2 == 1 then [0] else [];
    HoldsSplit(data, at, head + row[i..j], pad);
    HoldsSplit(data, at, head, row[i..j]);
  }

  /** A row's tokens decode to the row. */
  lemma {:induction false} RowDecodes(data: seq<u8>, at: nat, row: seq<u8>, i: nat, y: nat, grid: seq<seq<u8>>)
    returns (grid': seq<seq<u8>>)
    requires i <= |row| && Grid(grid, |row|, |grid|) && DoneTo(grid, y, row, i)
    requires Holds(data, at, RowTokens(row, i))
    ensures Grid(grid', |row|, |grid|) && DoneTo(grid', y, row, |row|)
    ensures forall z :: 0 <= z < |grid| && z != y ==> grid'[z] == grid[z]
    ensures RleFrom(data, at, i, y, grid, |row|) == RleFrom(data, at + |RowTokens(row, i)|, |row|, y, grid', |row|)
    decreases |row| - i
  {
    hide TokenAt, NextAt, RleFrom, DoneTo, Holds;
    if i == |row| {
      grid' := grid;
    } else {
      HoldsSplit(data, at, TokenAt(row, i), RowTokens(row, NextAt(row, i)));
      var mid := TokenDecodes(data, at, row, i, y, grid);
      grid' := RowDecodes(data, at + |TokenAt(row, i)|, row, NextAt(row, i), y, mid);
    }
  }

  /** The encoding of all rows decodes to exactly the rows. */
  lemma {:induction false} RowsDecode(data: seq<u8>, at: nat, rows: seq<seq<u8>>, y: nat, grid: seq<seq<u8>>, width: nat)
    requires y < |rows| && Grid(rows, width, |rows|) && Grid(grid, width, |rows|)
    requires forall z :: 0 <= z < y ==> grid[z] == rows[z]
    requires Holds(data, at, Encode(rows, y))
    ensures RleFrom(data, at, 0, y, grid, width) == Some(rows)
    decreases |rows| - y
  {
    hide RleFrom, RowTokens, Holds;
    var row := rows[y];
    var close: seq<u8> := [0, if y + 1 == |rows| then 1 else 0];
    HoldsSplit(data, at, RowTokens(row, 0) + close, Encode(rows, y + 1));
    HoldsSplit(data, at, RowTokens(row, 0), close);
    var grid' := RowDecodes(data, at, row, 0, y, grid);
    assert grid'[y] == row;
    var at' := at + |RowTokens(row, 0)|;
    assert at' + 2 <= |data| by { HoldsWithin(data, at', close); }
    HoldsByte(data, at', close, 0);
    HoldsByte(data, at', close, 1);
    CloseDecodes(data, at', width, y, grid', width);
    if y + 1 == |rows| {
      assert grid' == rows;
    } else {
      RowsDecode(data, at' + 2, rows, y + 1, grid', width);
    }
  }

  /** The round trip: whatever the encoder writes, the host's loop reads back as the same rows. */
  lemma Rle8RoundTrip(data: seq<u8>, at: nat, rows: seq<seq<u8>>, width: nat)
    requires |rows| >= 1 && Grid(rows, width, |rows|) && Holds(data, at, Encode(rows, 0))
    ensures RleFrom(data, at, 0, 0, BlankGrid(width, |rows|), width) == Some(rows)
  {
    RowsDecode(data, at, rows, 0, BlankGrid(width, |rows|), width);
  }

  /** Row y of a flat index image. */
  function IndexRow(indices: seq<u8>, width: nat, height: nat, y: nat): (row: seq<u8>)
    requires width * height <= |indices| && y < height
    ensures |row| == width
  {
    RowInside(width, height, y);
    indices[width * y..width * y + width]
  }

  function IndexGrid(indices: seq<u8>, width: nat, height: nat): (rows: seq<seq<u8>>)
    requires width * height <= |indices|
    ensures Grid(rows, width, height)
    ensures forall y :: 0 <= y < height ==> rows[y] == IndexRow(indices, width, height, y)
  {
    seq(height, y requires 0 <= y < height => IndexRow(indices, width, height, y))
  }

  /** What is still to be written from pixel i of row y on. */
  ghost function Rest(rows: seq<seq<u8>>, y: nat, i: nat): (s: seq<u8>)
    requires y < |rows| && i <= |rows[y]|
    ensures |s| >= 2
  {
    RowTokens(rows[y], i) + [0, if y + 1 == |rows| then 1 else 0] + Encode(rows, y + 1)
  }

  lemma RestToken(rows: seq<seq<u8>>, y: nat, i: nat)
    requires y < |rows| && i < |rows[y]|
    ensures Rest(rows, y, i) == TokenAt(rows[y], i) + Rest(rows, y, NextAt(rows[y], i))
  {
  }

  lemma RestClose(rows: seq<seq<u8>>, y: nat)
    requires y < |rows|
    ensures Rest(rows, y, |rows[y]|) == [0, if y + 1 == |rows| then 1 else 0] + Encode(rows, y + 1)
  {
    assert RowTokens(rows[y], |rows[y]|) == [];
  }

  /** Append bytes to a bounded stretch of the output, or report that they do not fit. */
  method Emit(out: array<u8>, base: nat, at: nat, capacity: nat, bytes: seq<u8>) returns (at': nat)
    requires base + capacity <= out.Length && at + |bytes| <= capacity
    modifies out
    ensures at' == at + |bytes| && out[base..base + at'] == old(out[base..base + at]) + bytes
    ensures forall k :: 0 <= k < out.Length && !(base <= k < base + capacity) ==> out[k] == old(out[k])
  {
    ghost var before := out[base..base + at];
    for k := 0 to |bytes|
      invariant out[base..base + at + k] == before + bytes[..k]
      invariant forall k :: 0 <= k < out.Length && !(base <= k < base + capacity) ==> out[k] == old(out[k])
    {
      out[base + at + k] := bytes[k];
    }
    at' := at + |bytes|;
  }

  /** The length of the run at i of a row, counted as the encoder does. */
  method CountRun(row: seq<u8>, i: nat) returns (run: nat)
    requires i < |row|
    ensures run == RunFrom(row, i, 1)
  {
    run := 1;
    while i + run < |row| && run < 255 && row[i + run] == row[i]
      invariant 1 <= run <= 255 && i + run <= |row|
      invariant forall k :: i <= k < i + run ==> row[k] == row[i]
      invariant RunFrom(row, i, run) == RunFrom(row, i, 1)
    {
      run := run + 1;
    }
  }

  method FindLiteralEnd(row: seq<u8>, i: nat) returns (j: nat)
    requires i < |row|
    ensures j == LiteralEnd(row, i, i)
  {
    j := i;
    while j < |row| && j - i < 255
      invariant i <= j <= |row| && j - i <= 255
      invariant LiteralEnd(row, i, j) == LiteralEnd(row, i, i)
    {
      if j + 2 < |row| && row[j] == row[j + 1] && row[j] == row[j + 2] {
        break;
      }
      j := j + 1;
    }
  }

  /** One-pixel runs, checked against the capacity one by one. */
  method EncodeSingles(row: seq<u8>, i: nat, j: nat, out: array<u8>, base: nat, at: nat, capacity: nat)
    returns (ok: bool, at': nat)
    requires i <= j <= |row| && base + capacity <= out.Length && at <= capacity
    modifies out
    ensures ok <==> at + 2 * (j - i) <= capacity
    ensures ok ==> at' == at + 2 * (j - i) && out[base..base + at'] == old(out[base..base + at]) + Singles(row, i, j)
    ensures forall k :: 0 <= k < out.Length && !(base <= k < base + capacity) ==> out[k] == old(out[k])
  {
    at' := at;
    for k := i to j
      invariant at' == at + 2 * (k - i) <= capacity
      invariant out[base..base + at'] + Singles(row, k, j) == old(out[base..base + at]) + Singles(row, i, j)
      invariant forall n :: 0 <= n < out.Length && !(base <= n < base + capacity) ==> out[n] == old(out[n])
    {
      if at' + 2 > capacity {
        return false, at';
      }
      ghost var before := out[base..base + at'];
      at' := Emit(out, base, at', capacity, [1, row[k]]);
      assert before + Singles(row, k, j) == before + [1, row[k]] + Singles(row, k + 1, j);
    }
    assert out[base..base + at'] + [] == out[base..base + at'];
    ok := true;
  }

  /** An absolute-mode stretch, padded to an even position. */
  method EncodeLiteral(row: seq<u8>, i: nat, j: nat, out: array<u8>, base: nat, at: nat, capacity: nat)
    returns (at': nat)
    requires i + 3 <= j <= |row| && j - i <= 255 && base + capacity <= out.Length && at % 2 == 0
    requires at + 2 + (j - i) + 1 <= capacity
    modifies out
    ensures at' == at + 2 + (j - i) + (j - i) % 2
    ensures out[base..base + at'] == old(out[base..base + at]) + ([0, j - i] + row[i..j] + if (j - i) % 2 == 1 then [0] else [])
    ensures forall k :: 0 <= k < out.Length && !(base <= k < base + capacity) ==> out[k] == old(out[k])
  {
    ghost var before := out[base..base + at];
    var head: seq<u8> := [0, j - i];
    at' := Emit(out, base, at, capacity, head + row[i..j]);
    assert out[base..base + at'] == before + ([0, j - i] + row[i..j] + []);
    if at' % 2 != 0 {
      at' := Emit(out, base, at', capacity, [0]);
      assert out[base..base + at'] == before + ([0, j - i] + row[i..j] + [0]);
    }
  }

  lemma TokenCases(row: seq<u8>, i: nat)
    requires i < |row|
    ensures var run, j := RunFrom(row, i, 1), LiteralEnd(row, i, i);
            if run >= 2 then NextAt(row, i) == i + run && TokenAt(row, i) == [run, row[i]]
            else if j - i < 3 then NextAt(row, i) == j && TokenAt(row, i) == Singles(row, i, j)
            else NextAt(row, i) == j && TokenAt(row, i) == [0, j - i] + row[i..j] + if (j - i) % 2 == 1 then [0] else []
  {
  }

  /** One token of a row; ok is false only when the whole encoding cannot fit. */
  method EncodeToken(row: seq<u8>, i: nat, out: array<u8>, base: nat, at: nat, capacity: nat)
    returns (ok: bool, next: nat, at': nat)
    requires i < |row| && base + capacity <= out.Length && at <= capacity && at % 2 == 0
    modifies out
    ensures !ok ==> at + |TokenAt(row, i)| + 2 > capacity
    ensures ok ==> next == NextAt(row, i) && at' == at + |TokenAt(row, i)| <= capacity && at' % 2 == 0
                   && out[base..base + at'] == old(out[base..base + at]) + TokenAt(row, i)
    ensures forall k :: 0 <= k < out.Length && !(base <= k < base + capacity) ==> out[k] == old(out[k])
  {
    hide RunFrom, LiteralEnd, TokenAt, NextAt, Singles;
    TokenCases(row, i);
    var run := CountRun(row, i);
    if run >= 2 {
      if at + 2 > capacity {
        return false, i, at;
      }
      at' := Emit(out, base, at, capacity, [run, row[i]]);
      return true, i + run, at';
    }
    var j := FindLiteralEnd(row, i);
    if j - i < 3 {
      ok, at' := EncodeSingles(row, i, j, out, base, at, capacity);
      return ok, j, at';
    }
    if at + 2 + (j - i) + 1 > capacity {
      return false, i, at;
    }
    at' := EncodeLiteral(row, i, j, out, base, at, capacity);
    return true, j, at';
  }

  /** One row and the bytes that close it. */
  method EncodeRow(row: seq<u8>, ghost rows: seq<seq<u8>>, y: nat, last: bool, out: array<u8>, base: nat, at: nat, capacity: nat)
    returns (ok: bool, at': nat)
    requires y < |rows| && row == rows[y] && (last <==> y + 1 == |rows|)
    requires base + capacity <= out.Length && at <= capacity && at % 2 == 0
    requires out[base..base + at] + Encode(rows, y) == Encode(rows, 0)
    modifies out
    ensures !ok ==> |Encode(rows, 0)| > capacity
    ensures ok ==> at' <= capacity && at' % 2 == 0 && out[base..base + at'] + Encode(rows, y + 1) == Encode(rows, 0)
    ensures forall k :: 0 <= k < out.Length && !(base <= k < base + capacity) ==> out[k] == old(out[k])
  {
    hide TokenAt, NextAt, Rest, Encode;
    at' := at;
    var i := 0;
    RestStart(rows, y);
    while i < |row|
      invariant i <= |row| && at' <= capacity && at' % 2 == 0
      invariant out[base..base + at'] + Rest(rows, y, i) == Encode(rows, 0)
      invariant forall k :: 0 <= k < out.Length && !(base <= k < base + capacity) ==> out[k] == old(out[k])
    {
      RestToken(rows, y, i);
      ghost var before := out[base..base + at'];
      var next;
      ok, next, at' := EncodeToken(row, i, out, base, at', capacity);
      if !ok {
        return;
      }
      assert before + (TokenAt(row, i) + Rest(rows, y, next)) == before + TokenAt(row, i) + Rest(rows, y, next);
      i := next;
    }
    RestClose(rows, y);
    if at' + 2 > capacity {
      return false, at';
    }
    ghost var before := out[base..base + at'];
    var close: seq<u8> := [0, if last then 1 else 0];
    at' := Emit(out, base, at', capacity, close);
    assert before + (close + Encode(rows, y + 1)) == before + close + Encode(rows, y + 1);
    return true, at';
  }

  lemma RestStart(rows: seq<seq<u8>>, y: nat)
    requires y < |rows|
    ensures Rest(rows, y, 0) == Encode(rows, y)
  {
  }

  /** RLE8 into a bounded stretch: the whole encoding if it fits, otherwise 0. */
  method Rle8(indices: seq<u8>, width: nat, height: nat, out: array<u8>, base: nat, capacity: nat) returns (length: nat)
    requires width * height <= |indices| && height >= 1 && base + capacity <= out.Length
    modifies out
    ensures var all := Encode(IndexGrid(indices, width, height), 0);
            && length == (if |all| <= capacity then |all| else 0)
            && (length != 0 ==> out[base..base + length] == all)
    ensures forall k :: 0 <= k < out.Length && !(base <= k < base + capacity) ==> out[k] == old(out[k])
  {
    hide Encode;
    ghost var rows := IndexGrid(indices, width, height);
    length := 0;
    assert out[base..base + 0] == [];
    for y := 0 to height
      invariant length <= capacity && length % 2 == 0
      invariant out[base..base + length] + Encode(rows, y) == Encode(rows, 0)
      invariant forall k :: 0 <= k < out.Length && !(base <= k < base + capacity) ==> out[k] == old(out[k])
    {
      var ok;
      ok, length := EncodeRow(IndexRow(indices, width, height, y), rows, y, y + 1 == height, out, base, length, capacity);
      if !ok {
        return 0;
      }
    }
    EncodeEnd(rows);
  }

  lemma EncodeEnd(rows: seq<seq<u8>>)
    ensures Encode(rows, |rows|) == []
  {
  }
}
