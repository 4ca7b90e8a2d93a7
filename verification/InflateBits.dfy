/** Facts about reading bits through a small buffer. */
module InflateBits {
  import opened Congruence
  import opened BitString
  import opened InflateSpec

  /** Reading m bits and then n bits is reading m + n bits. */
  lemma {:induction false} TakeSplit(s: seq<int>, pos: nat, m: nat, n: nat)
    requires pos + m + n <= 8 * |s|
    ensures Take(s, pos, m + n) == Take(s, pos, m) + Pow2(m) * Take(s, pos + m, n)
    decreases m
  {
    hide Take, BitOf, Pow2;
    if m == 0 {
      TakeNone(s, pos);
    } else {
      TakeSplit(s, pos + 1, m - 1, n);
      TakeNext(s, pos, m + n);
      TakeNext(s, pos, m);
      Pow2Next(m);
      DoublePart(Pow2(m - 1), Take(s, pos + m, n));
    }
  }

  lemma TakeNone(s: seq<int>, pos: nat)
    requires pos <= 8 * |s|
    ensures Take(s, pos, 0) == 0 && Pow2(0) == 1
  {
  }

  lemma TakeNext(s: seq<int>, pos: nat, n: nat)
    requires n > 0 && pos + n <= 8 * |s|
    ensures Take(s, pos, n) == BitOf(s, pos) + 2 * Take(s, pos + 1, n - 1)
  {
  }

  lemma Pow2Next(n: nat)
    requires n > 0
    ensures Pow2(n) == 2 * Pow2(n - 1)
  {
  }

  /** The bits of byte i from bit j up. */
  lemma {:induction false} TakeHigh(s: seq<int>, i: nat, j: nat)
    requires i < |s| && 0 <= s[i] <= 255 && j <= 8
    ensures Take(s, 8 * i + j, 8 - j) == s[i] / Pow2(j)
    decreases 8 - j
  {
    if j == 8 {
      assert Pow2(8) == 256 by { assert Pow2(4) == 16; }
    } else {
      TakeHigh(s, i, j + 1);
      HalfQuotient(s[i], Pow2(j));
      assert (8 * i + j) / 8 == i && (8 * i + j) % 8 == j;
    }
  }

  lemma TakeByte(s: seq<int>, i: nat)
    requires i < |s| && 0 <= s[i] <= 255
    ensures Take(s, 8 * i, 8) == s[i]
  {
    hide Take;
    TakeHigh(s, i, 0);
    assert Pow2(0) == 1;
  }

  /** A byte fetched on top of a partial buffer. */
  lemma FetchByte(s: seq<int>, pos: nat, held: nat, i: nat)
    requires pos + held == 8 * i && i < |s| && 0 <= s[i] <= 255
    ensures Take(s, pos, held + 8) == Take(s, pos, held) + s[i] * Pow2(held)
  {
    hide Take;
    TakeSplit(s, pos, held, 8);
    TakeByte(s, i);
    assert s[i] * Pow2(held) == Pow2(held) * s[i];
  }

  /** Splitting off the low count bits of the buffer. */
  lemma DropBits(s: seq<int>, pos: nat, held: nat, count: nat)
    requires count <= held && pos + held <= 8 * |s|
    ensures Take(s, pos, held) % Pow2(count) == Take(s, pos, count)
    ensures Take(s, pos, held) / Pow2(count) == Take(s, pos + count, held - count)
  {
    hide Take;
    TakeSplit(s, pos, count, held - count);
    var q, r, w := Take(s, pos + count, held - count), Take(s, pos, count), Pow2(count);
    assert Take(s, pos, held) == q * w + r by { assert w * q == q * w; }
    QuotientUnique(Take(s, pos, held), w, q, r);
    RemainderIs(Take(s, pos, held), w, q, r);
  }

  lemma RemainderIs(x: int, m: int, q: int, r: int)
    requires m > 0 && x == q * m + r && x / m == q
    ensures x % m == r
  {
    assert x == m * (x / m) + x % m;
    assert m * q == q * m;
  }

  lemma Pow2Monotone(a: nat, b: nat)
    requires a <= b
    ensures Pow2(a) <= Pow2(b)
  {
  }

  lemma SmallPowers()
    ensures Pow2(8) == 256 && Pow2(16) == 0x1_0000 && Pow2(24) == 0x100_0000
  {
    assert Pow2(4) == 16 && Pow2(8) == 256;
    assert Pow2(12) == 4096 && Pow2(16) == 0x1_0000;
    assert Pow2(20) == 0x10_0000 && Pow2(24) == 0x100_0000;
  }
}
