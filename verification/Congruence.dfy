/** Congruence of integers to a modulus, as an equivalence that the ring operations respect, and residues. */
module Congruence {

  function Times(k: int, m: int): int {
    k * m
  }

  ghost predicate Cong(a: int, b: int, m: int) {
    exists k: int :: a - b == Times(k, m)
  }

  lemma CongBy(a: int, b: int, m: int, k: int)
    requires a == b + k * m
    ensures Cong(a, b, m)
  {
    assert a - b == Times(k, m);
  }

  lemma CongRefl(a: int, m: int)
    ensures Cong(a, a, m)
  {
    CongBy(a, a, m, 0);
  }

  lemma CongSym(a: int, b: int, m: int)
    requires Cong(a, b, m)
    ensures Cong(b, a, m)
  {
    var k :| a - b == Times(k, m);
    CongBy(b, a, m, -k);
  }

  lemma CongTrans(a: int, b: int, c: int, m: int)
    requires Cong(a, b, m) && Cong(b, c, m)
    ensures Cong(a, c, m)
  {
    var k :| a - b == Times(k, m);
    var l :| b - c == Times(l, m);
    CongBy(a, c, m, k + l);
  }

  lemma CongAdd(a: int, b: int, c: int, d: int, m: int)
    requires Cong(a, b, m) && Cong(c, d, m)
    ensures Cong(a + c, b + d, m)
  {
    var k :| a - b == Times(k, m);
    var l :| c - d == Times(l, m);
    CongBy(a + c, b + d, m, k + l);
  }

  lemma CongSub(a: int, b: int, c: int, d: int, m: int)
    requires Cong(a, b, m) && Cong(c, d, m)
    ensures Cong(a - c, b - d, m)
  {
    var k :| a - b == Times(k, m);
    var l :| c - d == Times(l, m);
    CongBy(a - c, b - d, m, k - l);
  }

  lemma CongMul(a: int, b: int, c: int, d: int, m: int)
    requires Cong(a, b, m) && Cong(c, d, m)
    ensures Cong(a * c, b * d, m)
  {
    var k :| a - b == Times(k, m);
    var l :| c - d == Times(l, m);
    var q := k * c + b * l;
    assert a * c - b * d == q * m by {
      calc {
        a * c - b * d;
        (a - b) * c + b * (c - d);
        (k * m) * c + b * (l * m);
        { MulRearrange(k, m, c); MulRearrange(l, m, b); }
        (k * c) * m + (b * l) * m;
        q * m;
      }
    }
    CongBy(a * c, b * d, m, q);
  }

  lemma MulRearrange(k: int, m: int, c: int)
    ensures (k * m) * c == (k * c) * m
    ensures c * (k * m) == (c * k) * m
  {
  }

  /** Congruence is equality of remainders. */
  lemma CongIffMod(a: int, b: int, m: int)
    requires m > 0
    ensures Cong(a, b, m) <==> a % m == b % m
  {
    DivMod(a, m);
    DivMod(b, m);
    if Cong(a, b, m) {
      var k :| a - b == Times(k, m);
      RemainderUnique(k + b / m - a / m, a % m, b % m, m);
    }
    if a % m == b % m {
      CongBy(a, b, m, a / m - b / m);
    }
  }

  lemma CongMod(a: int, m: int)
    requires m > 0
    ensures Cong(a, a % m, m)
    ensures 0 <= a % m < m
  {
    DivMod(a, m);
    CongBy(a, a % m, m, a / m);
  }

  /** Two congruent values below the modulus are the same value. */
  lemma CongSmall(a: int, b: int, m: int)
    requires 0 <= a < m && 0 <= b < m && Cong(a, b, m)
    ensures a == b
  {
    var k :| a - b == Times(k, m);
    RemainderUnique(k, a, b, m);
  }

  lemma DivMod(a: int, m: int)
    requires m > 0
    ensures a == (a / m) * m + a % m
    ensures 0 <= a % m < m
  {
  }

  lemma MulAtLeast(k: int, m: int)
    requires m > 0
    ensures k >= 1 ==> k * m >= m
    ensures k <= -1 ==> k * m <= -m
  {
  }

  lemma RemainderUnique(k: int, r: int, s: int, m: int)
    requires m > 0 && 0 <= r < m && 0 <= s < m
    requires r - s == k * m
    ensures r == s
  {
    MulAtLeast(k, m);
  }

  lemma QuotientUnique(x: int, m: int, q: int, r: int)
    requires m > 0 && 0 <= r < m && x == q * m + r
    ensures x / m == q
  {
    var q', r' := x / m, x % m;
    assert (q - q') * m == r' - r;
    MulAtLeast(q - q', m);
  }

  lemma QuotientMonotone(a: int, b: int, m: int)
    requires m > 0 && a <= b
    ensures a / m <= b / m
  {
    DivMod(a, m);
    DivMod(b, m);
    assert (a / m - b / m) * m == a - a % m - b + b % m;
    MulAtLeast(a / m - b / m, m);
  }

  lemma QuotientStep(a: int, m: int)
    requires m > 0
    ensures (a + m) / m == a / m + 1
  {
    DivMod(a, m);
    assert (a / m + 1) * m == (a / m) * m + m;
    QuotientUnique(a + m, m, a / m + 1, a % m);
  }

  lemma MulBound(x: int, y: int, m: int, n: int)
    requires 0 <= x <= m && 0 <= y <= n
    ensures 0 <= x * y <= m * n
  {
    assert x * y <= m * y;
    assert m * y <= m * n;
  }

  /** Quotient and remainder of a number given in that form. */
  lemma DivideBy(v: int, low: int, high: int, m: int)
    requires m > 0 && v == low + m * high && 0 <= low < m
    ensures v / m == high && v % m == low
  {
    assert high * m == m * high;
    QuotientUnique(v, m, high, low);
    DivMod(v, m);
  }

  type Modulus = m: int | m > 0 witness 1

  /** The ring of residues modulo m, each below m. */
  function AddM(a: int, b: int, m: Modulus): (r: int)
    ensures 0 <= r < m
  {
    (a + b) % m
  }

  function SubM(a: int, b: int, m: Modulus): (r: int)
    ensures 0 <= r < m
  {
    (a - b) % m
  }

  function MulM(a: int, b: int, m: Modulus): (r: int)
    ensures 0 <= r < m
  {
    (a * b) % m
  }

  lemma AddResidue(v: int, a: int, b: int, m: Modulus)
    requires Cong(v, a + b, m)
    ensures v % m == AddM(a % m, b % m, m)
  {
    CongMod(a, m);
    CongMod(b, m);
    CongAdd(a, a % m, b, b % m, m);
    CongTrans(v, a + b, a % m + b % m, m);
    CongIffMod(v, a % m + b % m, m);
  }

  lemma SubResidue(v: int, a: int, b: int, m: Modulus)
    requires Cong(v, a - b, m)
    ensures v % m == SubM(a % m, b % m, m)
  {
    CongMod(a, m);
    CongMod(b, m);
    CongSub(a, a % m, b, b % m, m);
    CongTrans(v, a - b, a % m - b % m, m);
    CongIffMod(v, a % m - b % m, m);
  }

  lemma MulResidue(v: int, a: int, b: int, m: Modulus)
    requires Cong(v, a * b, m)
    ensures v % m == MulM(a % m, b % m, m)
  {
    CongMod(a, m);
    CongMod(b, m);
    CongMul(a, a % m, b, b % m, m);
    CongTrans(v, a * b, (a % m) * (b % m), m);
    CongIffMod(v, (a % m) * (b % m), m);
  }

  /** Residue sums, differences and products stand for the integer ones. */
  lemma AddClass(r: int, x: int, s: int, y: int, m: Modulus)
    requires Cong(r, x, m) && Cong(s, y, m)
    ensures Cong(AddM(r, s, m), x + y, m)
  {
    CongAdd(r, x, s, y, m);
    CongMod(r + s, m);
    CongSym(r + s, AddM(r, s, m), m);
    CongTrans(AddM(r, s, m), r + s, x + y, m);
  }

  lemma SubClass(r: int, x: int, s: int, y: int, m: Modulus)
    requires Cong(r, x, m) && Cong(s, y, m)
    ensures Cong(SubM(r, s, m), x - y, m)
  {
    CongSub(r, x, s, y, m);
    CongMod(r - s, m);
    CongSym(r - s, SubM(r, s, m), m);
    CongTrans(SubM(r, s, m), r - s, x - y, m);
  }

  lemma MulClass(r: int, x: int, s: int, y: int, m: Modulus)
    requires Cong(r, x, m) && Cong(s, y, m)
    ensures Cong(MulM(r, s, m), x * y, m)
  {
    CongMul(r, x, s, y, m);
    CongMod(r * s, m);
    CongSym(r * s, MulM(r, s, m), m);
    CongTrans(MulM(r, s, m), r * s, x * y, m);
  }
}
