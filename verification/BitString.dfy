/** The bits of a little-endian byte string, read from the top down as the ladders of the original do. */
module BitString {
  import opened Congruence
  import opened LittleEndian

  function Pow2(n: nat): (r: nat)
    ensures r >= 1
  {
    if n == 0 then 1 else 2 * Pow2(n - 1)
  }

  /** Bit k of the string: byte k / 8 shifted down by k % 8. */
  function BitOf(s: seq<int>, k: nat): (b: int)
    requires k < 8 * |s|
    ensures b == 0 || b == 1
  {
    (s[k / 8] / Pow2(k % 8)) % 2
  }

  /** The number formed by bits k and above. */
  function Top(s: seq<int>, k: nat): int
    requires k <= 8 * |s|
    decreases 8 * |s| - k
  {
    if k == 8 * |s| then 0 else 2 * Top(s, k + 1) + BitOf(s, k)
  }

  lemma TopStep(s: seq<int>, k: nat)
    requires k < 8 * |s|
    ensures Top(s, k) == 2 * Top(s, k + 1) + BitOf(s, k)
  {
  }

  method ReadBit(e: array<u8>, k: nat) returns (b: u8)
    requires k < 8 * e.Length
    ensures b == BitOf(e[..], k)
  {
    b := (e[k / 8] / Pow2(k % 8)) % 2;
  }

  lemma HalfQuotient(x: int, w: int)
    requires w > 0
    ensures x / w == 2 * (x / (2 * w)) + (x / w) % 2
  {
    var q, h := x / w, (x / w) / 2;
    DivMod(x, w);
    var b := q - 2 * h;
    var r := if b == 0 then x % w else w + x % w;
    Doubled(h, w, b);
    QuotientUnique(x, 2 * w, h, r);
  }

  lemma Doubled(h: int, w: int, b: int)
    requires b == 0 || b == 1
    ensures (2 * h + b) * w == h * (2 * w) + if b == 0 then 0 else w
  {
  }

  /** Reading byte i from bit j up. */
  lemma {:induction false} ByteTop(s: seq<int>, i: nat, j: nat)
    requires i < |s| && 0 <= s[i] <= 255 && j <= 8
    ensures Top(s, 8 * i + j) == Pow2(8 - j) * Top(s, 8 * i + 8) + s[i] / Pow2(j)
    decreases 8 - j
  {
    if j == 8 {
      assert Pow2(8) == 2 * Pow2(7) == 4 * Pow2(6) == 8 * Pow2(5) == 16 * Pow2(4);
      assert Pow2(4) == 16;
    } else {
      ByteTop(s, i, j + 1);
      HalfQuotient(s[i], Pow2(j));
      assert (8 * i + j) / 8 == i && (8 * i + j) % 8 == j;
      DoublePart(Pow2(7 - j), Top(s, 8 * i + 8));
    }
  }

  lemma DoublePart(w: int, t: int)
    ensures 2 * (w * t) == (2 * w) * t
  {
  }

  /** All the bits together are the number itself. */
  lemma {:induction false} TopIsValue(s: seq<int>, i: nat)
    requires i <= |s| && Bytes(s)
    ensures Top(s, 8 * i) == Value(s[i..])
    decreases |s| - i
  {
    if i < |s| {
      ByteTop(s, i, 0);
      assert Pow2(8) == 256 by { assert Pow2(4) == 16; }
      TopIsValue(s, i + 1);
      assert s[i..][1..] == s[i + 1..];
    }
  }
}
