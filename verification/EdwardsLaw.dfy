/** The polynomial facts behind the a = -1 twisted Edwards addition, over any modulus m and any d. */
module EdwardsLaw {
  import opened Congruence

  /** Adding multiples of congruences: a - b is a combination of differences that vanish modulo m. */
  lemma Combine1(a: int, b: int, c: int, r: int, s: int, m: int)
    requires Cong(r, s, m) && a - b == c * (r - s)
    ensures Cong(a, b, m)
  {
    var k :| r - s == Times(k, m);
    assert c * (k * m) == (c * k) * m;
    CongBy(a, b, m, c * k);
  }

  lemma Combine2(a: int, b: int, c: int, r: int, s: int, c': int, r': int, s': int, m: int)
    requires Cong(r, s, m) && Cong(r', s', m) && a - b == c * (r - s) + c' * (r' - s')
    ensures Cong(a, b, m)
  {
    hide Cong;
    var mid := b + c' * (r' - s');
    Combine1(a, mid, c, r, s, m);
    Combine1(mid, b, c', r', s', m);
    CongTrans(a, mid, b, m);
  }

  lemma Combine3(a: int, b: int, c: int, r: int, s: int, c': int, r': int, s': int,
                 c'': int, r'': int, s'': int, m: int)
    requires Cong(r, s, m) && Cong(r', s', m) && Cong(r'', s'', m)
    requires a - b == c * (r - s) + c' * (r' - s') + c'' * (r'' - s'')
    ensures Cong(a, b, m)
  {
    hide Cong;
    var mid := b + c'' * (r'' - s'');
    Combine2(a, mid, c, r, s, c', r', s', m);
    Combine1(mid, b, c'', r'', s'', m);
    CongTrans(a, mid, b, m);
  }

  /** The curve equation in extended coordinates, with the auxiliary coordinate tied to xy. */
  ghost predicate OnCurve(x: int, y: int, z: int, t: int, d: int, m: int) {
    Cong(y * y - x * x, z * z + d * (t * t), m) && Cong(x * y, z * t, m)
  }

  /**
    The quantities of one addition, abstracted: p = x^2, q = y^2, a = z^2, u = dt^2 for each
    operand, w = x1 y1 x2 y2 and k = z1 z2 d t1 t2.
   */
  ghost predicate Operands(p1: int, q1: int, a1: int, u1: int, p2: int, q2: int, a2: int, u2: int,
                           w: int, k: int, d: int, m: int)
  {
    && Cong(q1 - p1, a1 + u1, m) && Cong(q2 - p2, a2 + u2, m)
    && Cong(d * (p1 * q1), a1 * u1, m) && Cong(d * (p2 * q2), a2 * u2, m)
    && Cong(d * w, k, m)
    && w * w == (p1 * q1) * (p2 * q2)
    && k * k == (a1 * u1) * (a2 * u2)
  }

  lemma DeltaStep(g2: int, f2: int, e2: int, r: int, s: int, k: int, m: int)
    requires g2 - f2 == 4 * k && Cong(r, s, m)
    ensures Cong(g2 * (e2 + r) - e2 * f2, g2 * s + 4 * k * e2, m)
  {
    calc {
      g2 * (e2 + r) - e2 * f2 - (g2 * s + 4 * k * e2);
      { Expand(g2, e2, r); Expand(e2, g2 - f2, 0); }
      g2 * r + e2 * (g2 - f2) - g2 * s - 4 * k * e2;
      g2 * r - g2 * s;
      g2 * (r - s);
    }
    Combine1(g2 * (e2 + r) - e2 * f2, g2 * s + 4 * k * e2, g2, r, s, m);
  }

  lemma Expand(a: int, b: int, c: int)
    ensures a * (b + c) == a * b + a * c
  {
  }

  /** e2 (e2 - 4w) is the square of the difference of cross terms. */
  lemma CrossSquare(p1: int, q1: int, p2: int, q2: int, w: int, e2: int)
    requires w * w == (p1 * q1) * (p2 * q2)
    requires e2 == p1 * q2 + q1 * p2 + 2 * w
    ensures e2 * e2 == (p1 * q2 - q1 * p2) * (p1 * q2 - q1 * p2) + 4 * (w * e2)
  {
    var i, j := p1 * q2, q1 * p2;
    assert i * j == (p1 * q1) * (p2 * q2) by { Regroup(p1, q2, q1, p2); }
    calc {
      e2 * e2 - 4 * (w * e2);
      (i + j + 2 * w) * (i + j + 2 * w) - 4 * (w * (i + j + 2 * w));
      { SquareOfSum(i, j, w); }
      (i - j) * (i - j) + 4 * (i * j) - 4 * (w * w);
      (i - j) * (i - j);
    }
  }

  lemma Regroup(a: int, b: int, c: int, e: int)
    ensures (a * b) * (c * e) == (a * c) * (e * b)
  {
  }

  lemma SquareOfSum(i: int, j: int, w: int)
    ensures (i + j + 2 * w) * (i + j + 2 * w) - 4 * (w * (i + j + 2 * w))
      == (i - j) * (i - j) + 4 * (i * j) - 4 * (w * w)
  {
  }

  /** d e2 h2, with h2 = e2 + r, in terms of r's partner s and of k. */
  lemma ProductStep(d: int, e2: int, x2: int, w: int, k: int, r: int, s: int, m: int)
    requires e2 * e2 == x2 + 4 * (w * e2) && Cong(r, s, m) && Cong(d * w, k, m)
    ensures Cong(d * (e2 * (e2 + r)), (d * e2) * s + d * x2 + 4 * k * e2, m)
  {
    calc {
      d * (e2 * (e2 + r)) - ((d * e2) * s + d * x2 + 4 * k * e2);
      { Expand(e2, e2, r); Expand(d, e2 * e2, e2 * r); }
      d * (e2 * e2) + d * (e2 * r) - (d * e2) * s - d * x2 - 4 * k * e2;
      { Expand(d, x2, 4 * (w * e2)); }
      d * (4 * (w * e2)) + d * (e2 * r) - (d * e2) * s - 4 * k * e2;
      { Associate(d, e2, r); Associate(d, w, e2); }
      (d * e2) * r - (d * e2) * s + 4 * ((d * w) * e2) - 4 * (k * e2);
      (d * e2) * (r - s) + (4 * e2) * (d * w - k);
    }
    Combine2(d * (e2 * (e2 + r)), (d * e2) * s + d * x2 + 4 * k * e2, d * e2, r, s, 4 * e2, d * w, k, m);
  }

  lemma Associate(a: int, b: int, c: int)
    ensures a * (b * c) == (a * b) * c
  {
  }

  /** d e2 with each q replaced by p plus its curve sum. */
  lemma SumStep(p1: int, q1: int, s1: int, p2: int, q2: int, s2: int, w: int, k: int, d: int, m: int)
    requires Cong(q1 - p1, s1, m) && Cong(q2 - p2, s2, m) && Cong(d * w, k, m)
    ensures Cong(d * (p1 * q2 + q1 * p2 + 2 * w), 2 * k + (d * p1) * s2 + (d * p2) * s1 + 2 * (d * (p1 * p2)), m)
  {
    var left := d * (p1 * q2 + q1 * p2 + 2 * w);
    var right := 2 * k + (d * p1) * s2 + (d * p2) * s1 + 2 * (d * (p1 * p2));
    assert left - right == (d * p1) * (q2 - p2 - s2) + (d * p2) * (q1 - p1 - s1) + 2 * (d * w - k) by {
      SumIdentity(p1, q1, s1, p2, q2, s2, w, k, d);
    }
    Combine3(left, right, d * p1, q2 - p2, s2, d * p2, q1 - p1, s1, 2, d * w, k, m);
  }

  lemma SumIdentity(p1: int, q1: int, s1: int, p2: int, q2: int, s2: int, w: int, k: int, d: int)
    ensures d * (p1 * q2 + q1 * p2 + 2 * w) - (2 * k + (d * p1) * s2 + (d * p2) * s1 + 2 * (d * (p1 * p2)))
      == (d * p1) * (q2 - p2 - s2) + (d * p2) * (q1 - p1 - s1) + 2 * (d * w - k)
  {
  }

  /** d p^2 from the product relation of one operand. */
  lemma SquareStep(p: int, q: int, s: int, au: int, d: int, m: int)
    requires Cong(q - p, s, m) && Cong(d * (p * q), au, m)
    ensures Cong(d * (p * p), au - (d * p) * s, m)
  {
    assert d * (p * p) - (au - (d * p) * s) == 1 * (d * (p * q) - au) + (-(d * p)) * (q - p - s) by {
      SquareIdentity(p, q, s, au, d);
    }
    Combine2(d * (p * p), au - (d * p) * s, 1, d * (p * q), au, -(d * p), q - p, s, m);
  }

  lemma SquareIdentity(p: int, q: int, s: int, au: int, d: int)
    ensures d * (p * p) - (au - (d * p) * s) == 1 * (d * (p * q) - au) + (-(d * p)) * (q - p - s)
  {
  }

  /** d times the squared cross difference. */
  lemma CrossStep(p1: int, q1: int, s1: int, v1: int, p2: int, q2: int, s2: int, v2: int, d: int, m: int)
    requires Cong(q1 - p1, s1, m) && Cong(d * (p1 * q1), v1, m)
    requires Cong(q2 - p2, s2, m) && Cong(d * (p2 * q2), v2, m)
    ensures Cong(d * ((p1 * q2 - q1 * p2) * (p1 * q2 - q1 * p2)),
                 (v1 - (d * p1) * s1) * (s2 * s2) + (v2 - (d * p2) * s2) * (s1 * s1)
                 - 2 * ((d * (p1 * p2)) * (s1 * s2)), m)
  {
    hide Cong;
    var c, c' := p1 * q2 - q1 * p2, p1 * s2 - p2 * s1;
    assert c - c' == p1 * (q2 - p2 - s2) + (-p2) * (q1 - p1 - s1);
    Combine2(c, c', p1, q2 - p2, s2, -p2, q1 - p1, s1, m);
    CongMul(c, c', c, c', m);
    CongRefl(d, m);
    CongMul(d, d, c * c, c' * c', m);
    SquareStep(p1, q1, s1, v1, d, m);
    SquareStep(p2, q2, s2, v2, d, m);
    var right := (v1 - (d * p1) * s1) * (s2 * s2) + (v2 - (d * p2) * s2) * (s1 * s1)
      - 2 * ((d * (p1 * p2)) * (s1 * s2));
    assert d * (c' * c') == (d * (p1 * p1)) * (s2 * s2) + (d * (p2 * p2)) * (s1 * s1)
      - 2 * ((d * (p1 * p2)) * (s1 * s2)) by {
      DifferenceSquare(p1, s2, p2, s1, d);
    }
    CrossRest(d * (c' * c'), right, d * (p1 * p1), v1 - (d * p1) * s1, s2 * s2,
              d * (p2 * p2), v2 - (d * p2) * s2, s1 * s1, m);
    CongTrans(d * (c * c), d * (c' * c'), right, m);
  }

  lemma CrossRest(left: int, right: int, i: int, i': int, c: int, j: int, j': int, c': int, m: int)
    requires Cong(i, i', m) && Cong(j, j', m)
    requires left - right == i * c + j * c' - i' * c - j' * c'
    ensures Cong(left, right, m)
  {
    assert left - right == c * (i - i') + c' * (j - j');
    Combine2(left, right, c, i, i', c', j, j', m);
  }

  lemma DifferenceSquare(p1: int, s2: int, p2: int, s1: int, d: int)
    ensures d * ((p1 * s2 - p2 * s1) * (p1 * s2 - p2 * s1))
      == (d * (p1 * p1)) * (s2 * s2) + (d * (p2 * p2)) * (s1 * s1) - 2 * ((d * (p1 * p2)) * (s1 * s2))
  {
    var i, j := p1 * s2, p2 * s1;
    calc {
      d * ((i - j) * (i - j));
      { SquareOfDifference(i, j, d); }
      d * (i * i) + d * (j * j) - 2 * (d * (i * j));
      { Regroup(p1, s2, p1, s2); Regroup(p2, s1, p2, s1); Regroup(p1, s2, p2, s1); }
      d * ((p1 * p1) * (s2 * s2)) + d * ((p2 * p2) * (s1 * s1)) - 2 * (d * ((p1 * p2) * (s1 * s2)));
      { Associate(d, p1 * p1, s2 * s2); Associate(d, p2 * p2, s1 * s1); Associate(d, p1 * p2, s1 * s2); }
      (d * (p1 * p1)) * (s2 * s2) + (d * (p2 * p2)) * (s1 * s1) - 2 * ((d * (p1 * p2)) * (s1 * s2));
    }
  }

  lemma SquareOfDifference(i: int, j: int, d: int)
    ensures d * ((i - j) * (i - j)) == d * (i * i) + d * (j * j) - 2 * (d * (i * j))
  {
  }

  /** (ab + uv)(a + u)(b + v) = (ab - uv)^2 + au (b + v)^2 + bv (a + u)^2. */
  lemma FinalIdentity(a: int, u: int, b: int, v: int)
    ensures (a * b + u * v) * ((a + u) * (b + v))
      == (a * b - u * v) * (a * b - u * v) + (a * u) * ((b + v) * (b + v)) + (b * v) * ((a + u) * (a + u))
  {
  }

  lemma GatherIdentity(k: int, dp1: int, dp2: int, dp: int, s1: int, s2: int, v1: int, v2: int)
    ensures (2 * k + dp1 * s2 + dp2 * s1 + 2 * dp) * (s1 * s2)
      + ((v1 - dp1 * s1) * (s2 * s2) + (v2 - dp2 * s2) * (s1 * s1) - 2 * (dp * (s1 * s2)))
      == 2 * k * (s1 * s2) + v1 * (s2 * s2) + v2 * (s1 * s1)
  {
  }

  lemma SumTimesDifference(a: int, u: int, k: int)
    ensures (a + u - 2 * k) * (a + u + 2 * k) == (a - u) * (a - u) + 4 * (a * u) - 4 * (k * k)
  {
  }

  /**
    The heart of the addition: with h2 - e2 = (q1 - p1)(q2 - p2), g2 = a1 a2 + u1 u2 + 2k and
    f2 = a1 a2 + u1 u2 - 2k, the sum again satisfies the curve equation.
   */
  lemma AdditionCore(p1: int, q1: int, a1: int, u1: int, p2: int, q2: int, a2: int, u2: int,
                     w: int, k: int, d: int, m: int)
    requires Operands(p1, q1, a1, u1, p2, q2, a2, u2, w, k, d, m)
    ensures var e2 := p1 * q2 + q1 * p2 + 2 * w;
            var h2 := q1 * q2 + p1 * p2 + 2 * w;
            var g2 := a1 * a2 + u1 * u2 + 2 * k;
            var f2 := a1 * a2 + u1 * u2 - 2 * k;
            Cong(g2 * h2 - e2 * f2, f2 * g2 + d * (e2 * h2), m)
  {
    hide Cong;
    var s1, s2, v1, v2 := a1 + u1, a2 + u2, a1 * u1, a2 * u2;
    var e2 := p1 * q2 + q1 * p2 + 2 * w;
    var h2 := q1 * q2 + p1 * p2 + 2 * w;
    var g2 := a1 * a2 + u1 * u2 + 2 * k;
    var f2 := a1 * a2 + u1 * u2 - 2 * k;
    var r, s := (q1 - p1) * (q2 - p2), s1 * s2;
    assert h2 == e2 + r by { DeltaIdentity(p1, q1, p2, q2); }
    CongMul(q1 - p1, s1, q2 - p2, s2, m);
    DeltaStep(g2, f2, e2, r, s, k, m);
    var x2 := (p1 * q2 - q1 * p2) * (p1 * q2 - q1 * p2);
    CrossSquare(p1, q1, p2, q2, w, e2);
    ProductStep(d, e2, x2, w, k, r, s, m);
    SumStep(p1, q1, s1, p2, q2, s2, w, k, d, m);
    CrossStep(p1, q1, s1, v1, p2, q2, s2, v2, d, m);
    Gather(d * (e2 * h2), d * e2, d * x2, d * p1, d * p2, d * (p1 * p2), s1, s2, v1, v2, k, e2, m);
    Conclude(a1, u1, a2, u2, k, g2 * h2 - e2 * f2, d * (e2 * h2), e2, m);
  }

  lemma DeltaIdentity(p1: int, q1: int, p2: int, q2: int)
    ensures q1 * q2 + p1 * p2 == p1 * q2 + q1 * p2 + (q1 - p1) * (q2 - p2)
  {
  }

  lemma Gather(product: int, de2: int, dx2: int, dp1: int, dp2: int, dp: int,
               s1: int, s2: int, v1: int, v2: int, k: int, e2: int, m: int)
    requires Cong(product, de2 * (s1 * s2) + dx2 + 4 * k * e2, m)
    requires Cong(de2, 2 * k + dp1 * s2 + dp2 * s1 + 2 * dp, m)
    requires Cong(dx2, (v1 - dp1 * s1) * (s2 * s2) + (v2 - dp2 * s2) * (s1 * s1) - 2 * (dp * (s1 * s2)), m)
    ensures Cong(product, 2 * k * (s1 * s2) + v1 * (s2 * s2) + v2 * (s1 * s1) + 4 * k * e2, m)
  {
    hide Cong;
    var i := 2 * k + dp1 * s2 + dp2 * s1 + 2 * dp;
    var j := (v1 - dp1 * s1) * (s2 * s2) + (v2 - dp2 * s2) * (s1 * s1) - 2 * (dp * (s1 * s2));
    GatherIdentity(k, dp1, dp2, dp, s1, s2, v1, v2);
    var mid := de2 * (s1 * s2) + dx2 + 4 * k * e2;
    var end := i * (s1 * s2) + j + 4 * k * e2;
    assert mid - end == (s1 * s2) * (de2 - i) + 1 * (dx2 - j);
    Combine2(mid, end, s1 * s2, de2, i, 1, dx2, j, m);
    CongTrans(product, mid, end, m);
  }

  lemma Conclude(a1: int, u1: int, a2: int, u2: int, k: int, left: int, product: int, e2: int, m: int)
    requires k * k == (a1 * u1) * (a2 * u2)
    requires Cong(left, (a1 * a2 + u1 * u2 + 2 * k) * ((a1 + u1) * (a2 + u2)) + 4 * k * e2, m)
    requires Cong(product, 2 * k * ((a1 + u1) * (a2 + u2)) + (a1 * u1) * ((a2 + u2) * (a2 + u2))
                  + (a2 * u2) * ((a1 + u1) * (a1 + u1)) + 4 * k * e2, m)
    ensures Cong(left, (a1 * a2 + u1 * u2 - 2 * k) * (a1 * a2 + u1 * u2 + 2 * k) + product, m)
  {
    hide Cong;
    var a, u, s := a1 * a2, u1 * u2, (a1 + u1) * (a2 + u2);
    var end := 2 * k * s + (a1 * u1) * ((a2 + u2) * (a2 + u2))
      + (a2 * u2) * ((a1 + u1) * (a1 + u1)) + 4 * k * e2;
    FinalIdentity(a1, u1, a2, u2);
    SumTimesDifference(a, u, k);
    assert a * u == (a1 * u1) * (a2 * u2) by { Regroup(a1, a2, u1, u2); }
    DistributeK(a + u, k, s);
    var fg := (a + u - 2 * k) * (a + u + 2 * k);
    CongSym(product, end, m);
    CongRefl(fg, m);
    CongAdd(fg, fg, end, product, m);
    CongTrans(left, fg + end, fg + product, m);
  }

  lemma DistributeK(a: int, k: int, s: int)
    ensures (a + 2 * k) * s == a * s + 2 * k * s
  {
  }
}
