/** Points of -x^2 + y^2 = 1 + d x^2 y^2 modulo m, extended coordinates. */
module EdwardsPoints {
  import opened BitString
  import opened Congruence
  import opened EdwardsLaw
  import opened LittleEndian

  /** The coefficient d and the modulus m. */
  datatype Curve = Curve(d: int, m: Modulus) {
    function Add(a: int, b: int): int {
      AddM(a, b, m)
    }

    function Sub(a: int, b: int): int {
      SubM(a, b, m)
    }

    function Mul(a: int, b: int): int {
      MulM(a, b, m)
    }
  }

  /** The four residues (X:Y:Z:T) of a point: x = X/Z, y = Y/Z, xy = T/Z. */
  datatype Ext = Ext(x: int, y: int, z: int, t: int)

  const IDENTITY := Ext(0, 1, 1, 0)

  /** X3 = EF, Y3 = GH, T3 = EH, Z3 = FG. */
  function Finish(curve: Curve, e: int, f: int, g: int, h: int): Ext {
    Ext(curve.Mul(e, f), curve.Mul(g, h), curve.Mul(f, g), curve.Mul(e, h))
  }

  /** The addition formulas of section 5.1.4 of RFC 8032. */
  function AddPoint(curve: Curve, p: Ext, q: Ext): Ext {
    var a := curve.Mul(curve.Sub(p.y, p.x), curve.Sub(q.y, q.x));
    var b := curve.Mul(curve.Add(p.y, p.x), curve.Add(q.y, q.x));
    var c := curve.Mul(curve.Mul(p.t, curve.Add(curve.d, curve.d)), q.t);
    var d := curve.Mul(curve.Add(p.z, p.z), q.z);
    Finish(curve, curve.Sub(b, a), curve.Sub(d, c), curve.Add(d, c), curve.Add(b, a))
  }

  /** The doubling formulas of section 5.1.4 of RFC 8032. */
  function DoublePoint(curve: Curve, p: Ext): Ext {
    var a := curve.Mul(p.x, p.x);
    var b := curve.Mul(p.y, p.y);
    var c := curve.Add(curve.Mul(p.z, p.z), curve.Mul(p.z, p.z));
    var h := curve.Add(a, b);
    var s := curve.Add(p.x, p.y);
    var e := curve.Sub(h, curve.Mul(s, s));
    var g := curve.Sub(a, b);
    var f := curve.Add(c, g);
    Finish(curve, e, f, g, h)
  }

  ghost predicate PointOnCurve(curve: Curve, p: Ext) {
    OnCurve(p.x, p.y, p.z, p.t, curve.d, curve.m)
  }

  /** The integer polynomials the addition computes, up to a factor 4. */
  ghost predicate FinishClass(curve: Curve, r: Ext, c: int, e: int, f: int, g: int, h: int) {
    && Cong(r.x, c * (e * f), curve.m) && Cong(r.y, c * (g * h), curve.m)
    && Cong(r.z, c * (f * g), curve.m) && Cong(r.t, c * (e * h), curve.m)
  }

  lemma FinishScales(curve: Curve, c: int, e: int, e': int, f: int, f': int, g: int, g': int, h: int, h': int)
    requires Cong(e, c * e', curve.m) && Cong(f, c * f', curve.m)
    requires Cong(g, c * g', curve.m) && Cong(h, c * h', curve.m)
    ensures FinishClass(curve, Finish(curve, e, f, g, h), c * c, e', f', g', h')
  {
    hide Cong, MulM;
    MulClass(e, c * e', f, c * f', curve.m);
    MulClass(g, c * g', h, c * h', curve.m);
    MulClass(f, c * f', g, c * g', curve.m);
    MulClass(e, c * e', h, c * h', curve.m);
    Regroup(c, e', c, f');
    Regroup(c, g', c, h');
    Regroup(c, f', c, g');
    Regroup(c, e', c, h');
  }

  /** The difference and the sum of the two cross products of an addition. */
  lemma CrossClasses(curve: Curve, x1: int, y1: int, x2: int, y2: int)
    ensures var a := curve.Mul(curve.Sub(y1, x1), curve.Sub(y2, x2));
            var b := curve.Mul(curve.Add(y1, x1), curve.Add(y2, x2));
            && Cong(curve.Sub(b, a), 2 * (x1 * y2 + y1 * x2), curve.m)
            && Cong(curve.Add(b, a), 2 * (y1 * y2 + x1 * x2), curve.m)
  {
    hide Cong, MulM, AddM, SubM;
    CongRefl(x1, curve.m);
    CongRefl(y1, curve.m);
    CongRefl(x2, curve.m);
    CongRefl(y2, curve.m);
    SubClass(y1, y1, x1, x1, curve.m);
    SubClass(y2, y2, x2, x2, curve.m);
    AddClass(y1, y1, x1, x1, curve.m);
    AddClass(y2, y2, x2, x2, curve.m);
    var a, a' := curve.Mul(curve.Sub(y1, x1), curve.Sub(y2, x2)), (y1 - x1) * (y2 - x2);
    var b, b' := curve.Mul(curve.Add(y1, x1), curve.Add(y2, x2)), (y1 + x1) * (y2 + x2);
    MulClass(curve.Sub(y1, x1), y1 - x1, curve.Sub(y2, x2), y2 - x2, curve.m);
    MulClass(curve.Add(y1, x1), y1 + x1, curve.Add(y2, x2), y2 + x2, curve.m);
    SubClass(b, b', a, a', curve.m);
    AddClass(b, b', a, a', curve.m);
    AddIdentities(x1, y1, x2, y2);
  }

  /** The difference and the sum of the two scaled products of an addition. */
  lemma ScaleClasses(curve: Curve, z1: int, z2: int, t1: int, t2: int, k: int)
    ensures var c := curve.Mul(curve.Mul(t1, curve.Add(k, k)), t2);
            var d := curve.Mul(curve.Add(z1, z1), z2);
            && Cong(curve.Sub(d, c), 2 * (z1 * z2 - k * (t1 * t2)), curve.m)
            && Cong(curve.Add(d, c), 2 * (z1 * z2 + k * (t1 * t2)), curve.m)
  {
    hide Cong, MulM, AddM, SubM;
    CongRefl(z1, curve.m);
    CongRefl(z2, curve.m);
    CongRefl(t1, curve.m);
    CongRefl(t2, curve.m);
    CongRefl(k, curve.m);
    AddClass(k, k, k, k, curve.m);
    AddClass(z1, z1, z1, z1, curve.m);
    var c, c' := curve.Mul(curve.Mul(t1, curve.Add(k, k)), t2), (t1 * (k + k)) * t2;
    var d, d' := curve.Mul(curve.Add(z1, z1), z2), (z1 + z1) * z2;
    MulClass(t1, t1, curve.Add(k, k), k + k, curve.m);
    MulClass(curve.Mul(t1, curve.Add(k, k)), t1 * (k + k), t2, t2, curve.m);
    MulClass(curve.Add(z1, z1), z1 + z1, z2, z2, curve.m);
    SubClass(d, d', c, c', curve.m);
    AddClass(d, d', c, c', curve.m);
    ScaleIdentities(z1, z2, t1, t2, k);
  }

  /** What the four intermediate values of an addition stand for. */
  lemma AddClasses(curve: Curve, p: Ext, q: Ext)
    ensures var m := p.z * q.z;
            var n := curve.d * (p.t * q.t);
            FinishClass(curve, AddPoint(curve, p, q), 4, p.x * q.y + p.y * q.x, m - n, m + n, p.y * q.y + p.x * q.x)
  {
    hide Cong, MulM, AddM, SubM, Finish, FinishClass;
    CrossClasses(curve, p.x, p.y, q.x, q.y);
    ScaleClasses(curve, p.z, q.z, p.t, q.t, curve.d);
    var a := curve.Mul(curve.Sub(p.y, p.x), curve.Sub(q.y, q.x));
    var b := curve.Mul(curve.Add(p.y, p.x), curve.Add(q.y, q.x));
    var c := curve.Mul(curve.Mul(p.t, curve.Add(curve.d, curve.d)), q.t);
    var d := curve.Mul(curve.Add(p.z, p.z), q.z);
    var m, n := p.z * q.z, curve.d * (p.t * q.t);
    FinishScales(curve, 2, curve.Sub(b, a), p.x * q.y + p.y * q.x, curve.Sub(d, c), m - n, curve.Add(d, c), m + n,
                 curve.Add(b, a), p.y * q.y + p.x * q.x);
  }

  lemma Reflexive(curve: Curve, p: Ext)
    ensures Cong(p.x, p.x, curve.m) && Cong(p.y, p.y, curve.m) && Cong(p.z, p.z, curve.m) && Cong(p.t, p.t, curve.m)
  {
    CongRefl(p.x, curve.m);
    CongRefl(p.y, curve.m);
    CongRefl(p.z, curve.m);
    CongRefl(p.t, curve.m);
  }

  lemma AddIdentities(x1: int, y1: int, x2: int, y2: int)
    ensures (y1 + x1) * (y2 + x2) - (y1 - x1) * (y2 - x2) == 2 * (x1 * y2 + y1 * x2)
    ensures (y1 + x1) * (y2 + x2) + (y1 - x1) * (y2 - x2) == 2 * (y1 * y2 + x1 * x2)
  {
  }

  lemma ScaleIdentities(z1: int, z2: int, t1: int, t2: int, d: int)
    ensures (z1 + z1) * z2 == 2 * (z1 * z2)
    ensures (t1 * (d + d)) * t2 == 2 * (d * (t1 * t2))
  {
  }

  /** Every quantity of an addition meets the relations the core lemma asks for. */
  lemma OperandsOf(curve: Curve, p: Ext, q: Ext)
    requires PointOnCurve(curve, p) && PointOnCurve(curve, q)
    ensures Operands(p.x * p.x, p.y * p.y, p.z * p.z, curve.d * (p.t * p.t),
                     q.x * q.x, q.y * q.y, q.z * q.z, curve.d * (q.t * q.t),
                     (p.x * p.y) * (q.x * q.y), (p.z * q.z) * (curve.d * (p.t * q.t)), curve.d, curve.m)
  {
    hide Cong;
    ProductRelation(curve, p);
    ProductRelation(curve, q);
    var w, k := (p.x * p.y) * (q.x * q.y), (p.z * q.z) * (curve.d * (p.t * q.t));
    CongMul(p.x * p.y, p.z * p.t, q.x * q.y, q.z * q.t, curve.m);
    CongRefl(curve.d, curve.m);
    CongMul(curve.d, curve.d, w, (p.z * p.t) * (q.z * q.t), curve.m);
    Rotate(curve.d, p.z, p.t, q.z, q.t);
    SquareOfProduct(p.x, p.y, q.x, q.y);
    SquareOfScaled(p.z, q.z, p.t, q.t, curve.d);
  }

  lemma ProductRelation(curve: Curve, p: Ext)
    requires PointOnCurve(curve, p)
    ensures Cong(curve.d * ((p.x * p.x) * (p.y * p.y)), (p.z * p.z) * (curve.d * (p.t * p.t)), curve.m)
  {
    hide Cong;
    CongMul(p.x * p.y, p.z * p.t, p.x * p.y, p.z * p.t, curve.m);
    CongRefl(curve.d, curve.m);
    CongMul(curve.d, curve.d, (p.x * p.y) * (p.x * p.y), (p.z * p.t) * (p.z * p.t), curve.m);
    Regroup(p.x, p.y, p.x, p.y);
    Regroup(p.z, p.t, p.z, p.t);
    MoveFactor(curve.d, p.z * p.z, p.t * p.t);
  }

  lemma MoveFactor(d: int, a: int, b: int)
    ensures d * (a * b) == a * (d * b)
  {
  }

  lemma Rotate(d: int, z1: int, t1: int, z2: int, t2: int)
    ensures d * ((z1 * t1) * (z2 * t2)) == (z1 * z2) * (d * (t1 * t2))
  {
    Regroup(z1, t1, z2, t2);
    MoveFactor(d, z1 * z2, t2 * t1);
  }

  lemma SquareOfProduct(x1: int, y1: int, x2: int, y2: int)
    ensures ((x1 * y1) * (x2 * y2)) * ((x1 * y1) * (x2 * y2)) == ((x1 * x1) * (y1 * y1)) * ((x2 * x2) * (y2 * y2))
  {
    Regroup(x1 * y1, x2 * y2, x1 * y1, x2 * y2);
    Regroup(x1, y1, x1, y1);
    Regroup(x2, y2, x2, y2);
  }

  lemma SquareOfScaled(z1: int, z2: int, t1: int, t2: int, d: int)
    ensures ((z1 * z2) * (d * (t1 * t2))) * ((z1 * z2) * (d * (t1 * t2)))
      == ((z1 * z1) * (d * (t1 * t1))) * ((z2 * z2) * (d * (t2 * t2)))
  {
    var i, j := z1 * z2, d * (t1 * t2);
    calc {
      (i * j) * (i * j);
      { Regroup(i, j, i, j); }
      (i * i) * (j * j);
      { Regroup(z1, z2, z1, z2); ScaledSquare(d, t1, t2); }
      ((z1 * z1) * (z2 * z2)) * ((d * (t1 * t1)) * (d * (t2 * t2)));
      { Regroup(z1 * z1, z2 * z2, d * (t1 * t1), d * (t2 * t2)); }
      ((z1 * z1) * (d * (t1 * t1))) * ((z2 * z2) * (d * (t2 * t2)));
    }
  }

  lemma ScaledSquare(d: int, t1: int, t2: int)
    ensures (d * (t1 * t2)) * (d * (t1 * t2)) == (d * (t1 * t1)) * (d * (t2 * t2))
  {
    Regroup(d, t1 * t2, d, t1 * t2);
    Regroup(t1, t2, t1, t2);
    Regroup(d, t1 * t1, d, t2 * t2);
  }

  /** A finished point is on the curve when its four factors satisfy the factored equation. */
  lemma FinishOnCurve(curve: Curve, r: Ext, c: int, e: int, f: int, g: int, h: int)
    requires FinishClass(curve, r, c, e, f, g, h)
    requires Cong((g * g) * (h * h) - (e * e) * (f * f), (f * f) * (g * g) + curve.d * ((e * e) * (h * h)), curve.m)
    ensures PointOnCurve(curve, r)
  {
    hide Cong;
    SquareClass(curve, r.x, c, e, f);
    SquareClass(curve, r.y, c, g, h);
    SquareClass(curve, r.z, c, f, g);
    SquareClass(curve, r.t, c, e, h);
    var cc := c * c;
    var x2, y2, z2, t2 := (e * e) * (f * f), (g * g) * (h * h), (f * f) * (g * g), (e * e) * (h * h);
    CongSub(r.y * r.y, cc * y2, r.x * r.x, cc * x2, curve.m);
    CongRefl(curve.d, curve.m);
    CongMul(curve.d, curve.d, r.t * r.t, cc * t2, curve.m);
    CongAdd(r.z * r.z, cc * z2, curve.d * (r.t * r.t), curve.d * (cc * t2), curve.m);
    CongSym(r.z * r.z + curve.d * (r.t * r.t), cc * z2 + curve.d * (cc * t2), curve.m);
    CongRefl(cc, curve.m);
    CongMul(cc, cc, y2 - x2, z2 + curve.d * t2, curve.m);
    Expand(cc, y2, -x2);
    Expand(cc, z2, curve.d * t2);
    MoveFactor(cc, curve.d, t2);
    CongTrans(r.y * r.y - r.x * r.x, cc * (y2 - x2), cc * (z2 + curve.d * t2), curve.m);
    CongTrans(r.y * r.y - r.x * r.x, cc * (z2 + curve.d * t2), r.z * r.z + curve.d * (r.t * r.t), curve.m);
    CongMul(r.x, c * (e * f), r.y, c * (g * h), curve.m);
    CongMul(r.z, c * (f * g), r.t, c * (e * h), curve.m);
    CongSym(r.z * r.t, (c * (f * g)) * (c * (e * h)), curve.m);
    SegreIdentity(c, e, f, g, h);
    CongTrans(r.x * r.y, (c * (e * f)) * (c * (g * h)), r.z * r.t, curve.m);
  }

  lemma SquareClass(curve: Curve, r: int, c: int, a: int, b: int)
    requires Cong(r, c * (a * b), curve.m)
    ensures Cong(r * r, (c * c) * ((a * a) * (b * b)), curve.m)
  {
    CongMul(r, c * (a * b), r, c * (a * b), curve.m);
    Regroup(c, a * b, c, a * b);
    Regroup(a, b, a, b);
  }

  lemma SegreIdentity(c: int, e: int, f: int, g: int, h: int)
    ensures (c * (e * f)) * (c * (g * h)) == (c * (f * g)) * (c * (e * h))
  {
    Regroup(c, e * f, c, g * h);
    Regroup(c, f * g, c, e * h);
    Regroup(e, f, g, h);
    Regroup(e, h, f, g);
    Regroup(f, g, e, h);
    assert (e * f) * (g * h) == (f * g) * (e * h) by {
      Regroup(f, e, g, h);
    }
  }

  /** Points on the curve add to a point on the curve, whatever the operands. */
  lemma AddKeepsCurve(curve: Curve, p: Ext, q: Ext)
    requires PointOnCurve(curve, p) && PointOnCurve(curve, q)
    ensures PointOnCurve(curve, AddPoint(curve, p, q))
  {
    hide Cong, AddPoint, PointOnCurve, Operands, FinishClass;
    AddClasses(curve, p, q);
    OperandsOf(curve, p, q);
    var w, k := (p.x * p.y) * (q.x * q.y), (p.z * q.z) * (curve.d * (p.t * q.t));
    AdditionCore(p.x * p.x, p.y * p.y, p.z * p.z, curve.d * (p.t * p.t),
                 q.x * q.x, q.y * q.y, q.z * q.z, curve.d * (q.t * q.t), w, k, curve.d, curve.m);
    AddSquares(curve, p, q);
    var m, n := p.z * q.z, curve.d * (p.t * q.t);
    FinishOnCurve(curve, AddPoint(curve, p, q), 4, p.x * q.y + p.y * q.x, m - n, m + n, p.y * q.y + p.x * q.x);
  }

  lemma AddSquares(curve: Curve, p: Ext, q: Ext)
    ensures var e := p.x * q.y + p.y * q.x;
            var h := p.y * q.y + p.x * q.x;
            var m := p.z * q.z;
            var n := curve.d * (p.t * q.t);
            var w := (p.x * p.y) * (q.x * q.y);
            && e * e == (p.x * p.x) * (q.y * q.y) + (p.y * p.y) * (q.x * q.x) + 2 * w
            && h * h == (p.y * p.y) * (q.y * q.y) + (p.x * p.x) * (q.x * q.x) + 2 * w
            && (m + n) * (m + n)
              == (p.z * p.z) * (q.z * q.z) + (curve.d * (p.t * p.t)) * (curve.d * (q.t * q.t)) + 2 * (m * n)
            && (m - n) * (m - n)
              == (p.z * p.z) * (q.z * q.z) + (curve.d * (p.t * p.t)) * (curve.d * (q.t * q.t)) - 2 * (m * n)
  {
    SumSquare(p.x * q.y, p.y * q.x);
    SumSquare(p.y * q.y, p.x * q.x);
    SumSquare(p.z * q.z, curve.d * (p.t * q.t));
    Regroup(p.x, q.y, p.x, q.y);
    Regroup(p.y, q.x, p.y, q.x);
    Regroup(p.y, q.y, p.y, q.y);
    Regroup(p.x, q.x, p.x, q.x);
    Regroup(p.z, q.z, p.z, q.z);
    ScaledSquare(curve.d, p.t, q.t);
    Regroup(p.x, q.y, p.y, q.x);
    Regroup(p.x, q.x, p.y, q.y);
  }

  lemma SumSquare(a: int, b: int)
    ensures (a + b) * (a + b) == a * a + b * b + 2 * (a * b)
    ensures (a - b) * (a - b) == a * a + b * b - 2 * (a * b)
  {
  }

  /**
    The affine Edwards law with denominators cleared: with x = X/Z and y = Y/Z on both operands,
    x3 (1 + d x1 x2 y1 y2) = x1 y2 + y1 x2 and y3 (1 - d x1 x2 y1 y2) = y1 y2 + x1 x2.
   */
  lemma AddMeetsAffineLaw(curve: Curve, p: Ext, q: Ext)
    requires PointOnCurve(curve, p) && PointOnCurve(curve, q)
    ensures var r := AddPoint(curve, p, q);
            var m := p.z * q.z;
            var dw := curve.d * ((p.x * p.y) * (q.x * q.y));
            && Cong(r.x * (m * m + dw), r.z * (m * (p.x * q.y + p.y * q.x)), curve.m)
            && Cong(r.y * (m * m - dw), r.z * (m * (p.y * q.y + p.x * q.x)), curve.m)
  {
    hide *;
    AddClasses(curve, p, q);
    CoordinateTie(curve, p, q);
    LawOf(curve, AddPoint(curve, p, q), p.x * q.y + p.y * q.x, p.y * q.y + p.x * q.x, p.z * q.z, curve.d * (p.t * q.t),
          curve.d * ((p.x * p.y) * (q.x * q.y)));
  }

  lemma CoordinateTie(curve: Curve, p: Ext, q: Ext)
    requires PointOnCurve(curve, p) && PointOnCurve(curve, q)
    ensures Cong(curve.d * ((p.x * p.y) * (q.x * q.y)), (p.z * q.z) * (curve.d * (p.t * q.t)), curve.m)
  {
    hide Cong;
    OperandsOf(curve, p, q);
  }

  lemma LawOf(curve: Curve, r: Ext, e: int, h: int, m: int, n: int, dw: int)
    requires FinishClass(curve, r, 4, e, m - n, m + n, h) && Cong(dw, m * n, curve.m)
    ensures Cong(r.x * (m * m + dw), r.z * (m * e), curve.m)
    ensures Cong(r.y * (m * m - dw), r.z * (m * h), curve.m)
  {
    hide Cong;
    CongRefl(m * m, curve.m);
    CongAdd(m * m, m * m, dw, m * n, curve.m);
    CongSub(m * m, m * m, dw, m * n, curve.m);
    Expand(m, m, n);
    Expand(m, m, -n);
    var f, g := m - n, m + n;
    LawStep(curve, r.x, r.z, m * m + dw, m, e, f, g);
    assert g * h == h * g && f * g == g * f;
    LawStep(curve, r.y, r.z, m * m - dw, m, h, g, f);
  }

  lemma LawStep(curve: Curve, x: int, z: int, den: int, m: int, e: int, f: int, g: int)
    requires Cong(den, m * g, curve.m)
    requires Cong(x, 4 * (e * f), curve.m)
    requires Cong(z, 4 * (f * g), curve.m)
    ensures Cong(x * den, z * (m * e), curve.m)
  {
    hide Cong;
    CongMul(x, 4 * (e * f), den, m * g, curve.m);
    CongRefl(m * e, curve.m);
    CongMul(z, 4 * (f * g), m * e, m * e, curve.m);
    LawIdentity(e, f, g, m);
    CongSym(z * (m * e), (4 * (f * g)) * (m * e), curve.m);
    CongTrans(x * den, (4 * (e * f)) * (m * g), z * (m * e), curve.m);
  }

  lemma LawIdentity(e: int, f: int, g: int, m: int)
    ensures (4 * (e * f)) * (m * g) == (4 * (f * g)) * (m * e)
  {
  }

  /** The doubling computes the addition of a point to itself, scaled by -1/4. */
  lemma DoubleClasses(curve: Curve, p: Ext)
    requires PointOnCurve(curve, p)
    ensures var m, n := p.z * p.z, curve.d * (p.t * p.t);
            FinishClass(curve, DoublePoint(curve, p),
                        1, -(p.x * p.y + p.y * p.x), m - n, -(m + n), p.y * p.y + p.x * p.x)
  {
    hide Cong, MulM, AddM, SubM;
    Reflexive(curve, p);
    MulClass(p.x, p.x, p.x, p.x, curve.m);
    MulClass(p.y, p.y, p.y, p.y, curve.m);
    MulClass(p.z, p.z, p.z, p.z, curve.m);
    var xx, yy, m, n := p.x * p.x, p.y * p.y, p.z * p.z, curve.d * (p.t * p.t);
    var a, b, zz := curve.Mul(p.x, p.x), curve.Mul(p.y, p.y), curve.Mul(p.z, p.z);
    AddClass(zz, m, zz, m, curve.m);
    var c := curve.Add(zz, zz);
    AddClass(a, xx, b, yy, curve.m);
    var h := curve.Add(a, b);
    AddClass(p.x, p.x, p.y, p.y, curve.m);
    var s, s' := curve.Add(p.x, p.y), p.x + p.y;
    MulClass(s, s', s, s', curve.m);
    SubClass(h, xx + yy, curve.Mul(s, s), s' * s', curve.m);
    var e := curve.Sub(h, curve.Mul(s, s));
    assert xx + yy - s' * s' == -(p.x * p.y + p.y * p.x) by { SumSquare(p.x, p.y); }
    SubClass(a, xx, b, yy, curve.m);
    var g := curve.Sub(a, b);
    CongSub(0, 0, yy - xx, m + n, curve.m) by { CongRefl(0, curve.m); }
    CongTrans(g, xx - yy, -(m + n), curve.m);
    AddClass(c, m + m, g, -(m + n), curve.m);
    FinishScales(curve, 1, e, -(p.x * p.y + p.y * p.x), curve.Add(c, g), m - n, g, -(m + n), h, yy + xx);
  }

  lemma DoubleKeepsCurve(curve: Curve, p: Ext)
    requires PointOnCurve(curve, p)
    ensures PointOnCurve(curve, DoublePoint(curve, p))
  {
    hide Cong, DoublePoint, PointOnCurve, Operands, FinishClass;
    DoubleClasses(curve, p);
    OperandsOf(curve, p, p);
    var w, k := (p.x * p.y) * (p.x * p.y), (p.z * p.z) * (curve.d * (p.t * p.t));
    AdditionCore(p.x * p.x, p.y * p.y, p.z * p.z, curve.d * (p.t * p.t),
                 p.x * p.x, p.y * p.y, p.z * p.z, curve.d * (p.t * p.t), w, k, curve.d, curve.m);
    AddSquares(curve, p, p);
    var m, n := p.z * p.z, curve.d * (p.t * p.t);
    var e := p.x * p.y + p.y * p.x;
    assert (-e) * (-e) == e * e && (-(m + n)) * (-(m + n)) == (m + n) * (m + n);
    FinishOnCurve(curve, DoublePoint(curve, p), 1, -e, m - n, -(m + n), p.y * p.y + p.x * p.x);
  }

  /** Doubling agrees with adding a point to itself: same projective point, scaled by -4. */
  lemma DoubleIsAdd(curve: Curve, p: Ext)
    requires PointOnCurve(curve, p)
    ensures var a, b := AddPoint(curve, p, p), DoublePoint(curve, p);
            && Cong(a.x, -4 * b.x, curve.m) && Cong(a.y, -4 * b.y, curve.m)
            && Cong(a.z, -4 * b.z, curve.m) && Cong(a.t, -4 * b.t, curve.m)
  {
    hide Cong, AddPoint, DoublePoint;
    AddClasses(curve, p, p);
    DoubleClasses(curve, p);
    var a, b := AddPoint(curve, p, p), DoublePoint(curve, p);
    var m, n := p.z * p.z, curve.d * (p.t * p.t);
    var e, f, g, h := p.x * p.y + p.y * p.x, m - n, m + n, p.y * p.y + p.x * p.x;
    MinusFour(curve, a.x, b.x, e * f, (-e) * f);
    MinusFour(curve, a.y, b.y, g * h, (-g) * h);
    MinusFour(curve, a.z, b.z, f * g, f * (-g));
    MinusFour(curve, a.t, b.t, e * h, (-e) * h);
  }

  lemma MinusFour(curve: Curve, a: int, b: int, v: int, u: int)
    requires Cong(a, 4 * v, curve.m) && Cong(b, 1 * u, curve.m) && u == -v
    ensures Cong(a, -4 * b, curve.m)
  {
    hide Cong;
    CongRefl(-4, curve.m);
    CongMul(-4, -4, b, u, curve.m);
    CongSym(-4 * b, 4 * v, curve.m);
    CongTrans(a, 4 * v, -4 * b, curve.m);
  }

  /** Adding the neutral element gives the same point, scaled by 4 Z. */
  lemma IdentityIsNeutral(curve: Curve, p: Ext)
    requires PointOnCurve(curve, p)
    ensures var r := AddPoint(curve, p, IDENTITY);
            && Cong(r.x, 4 * p.z * p.x, curve.m) && Cong(r.y, 4 * p.z * p.y, curve.m)
            && Cong(r.z, 4 * p.z * p.z, curve.m) && Cong(r.t, 4 * p.z * p.t, curve.m)
  {
    hide Cong, AddPoint;
    AddClasses(curve, p, IDENTITY);
    var r := AddPoint(curve, p, IDENTITY);
    assert 4 * (p.x * p.z) == 4 * p.z * p.x && 4 * (p.z * p.y) == 4 * p.z * p.y;
    CongRefl(4, curve.m);
    CongMul(4, 4, p.x * p.y, p.z * p.t, curve.m);
    CongTrans(r.t, 4 * (p.x * p.y), 4 * (p.z * p.t), curve.m);
    assert 4 * (p.z * p.t) == 4 * p.z * p.t;
  }

  lemma IdentityOnCurve(curve: Curve)
    ensures PointOnCurve(curve, IDENTITY)
  {
    CongRefl(1, curve.m);
    CongRefl(0, curve.m);
  }

  /** Double-and-add over the bits of s from the top down to bit k. */
  function Ladder(curve: Curve, p: Ext, s: seq<int>, k: nat): Ext
    requires k <= 8 * |s|
    decreases 8 * |s| - k
  {
    if k == 8 * |s| then IDENTITY
    else
      var r := DoublePoint(curve, Ladder(curve, p, s, k + 1));
      if BitOf(s, k) == 1 then AddPoint(curve, r, p) else r
  }

  /** Every intermediate result of a scalar multiplication is on the curve. */
  lemma {:induction false} LadderOnCurve(curve: Curve, p: Ext, s: seq<int>, k: nat)
    requires PointOnCurve(curve, p) && k <= 8 * |s|
    ensures PointOnCurve(curve, Ladder(curve, p, s, k))
    decreases 8 * |s| - k
  {
    hide PointOnCurve, AddPoint, DoublePoint;
    if k == 8 * |s| {
      IdentityOnCurve(curve);
    } else {
      LadderOnCurve(curve, p, s, k + 1);
      DoubleKeepsCurve(curve, Ladder(curve, p, s, k + 1));
      AddKeepsCurve(curve, DoublePoint(curve, Ladder(curve, p, s, k + 1)), p);
    }
  }

  /** At q, doubling stays within the set and doubles g, and adding p stays within it and adds g of p. */
  ghost predicate CountsAt(curve: Curve, p: Ext, within: Ext -> bool, g: Ext -> int, n: int, q: Ext) {
    within(q) ==>
      && within(DoublePoint(curve, q)) && Cong(g(DoublePoint(curve, q)), 2 * g(q), n)
      && within(AddPoint(curve, q, p)) && Cong(g(AddPoint(curve, q, p)), g(q) + g(p), n)
  }

  /** g counts multiples of p modulo n on a set of points that holds the neutral element. */
  ghost predicate Counts(curve: Curve, p: Ext, within: Ext -> bool, g: Ext -> int, n: int) {
    within(IDENTITY) && Cong(g(IDENTITY), 0, n) && forall q :: CountsAt(curve, p, within, g, n, q)
  }

  lemma DoubledCount(t: int, c: int, gq: int, gr: int, n: int)
    requires Cong(gq, t * c, n) && Cong(gr, 2 * gq, n)
    ensures Cong(gr, (2 * t) * c, n)
  {
    hide Cong;
    CongRefl(2, n);
    CongMul(2, 2, gq, t * c, n);
    MultipleStep(t, c);
    CongTrans(gr, 2 * gq, 2 * (t * c), n);
  }

  lemma AddedCount(t: int, c: int, gr: int, ga: int, n: int)
    requires Cong(gr, t * c, n) && Cong(ga, gr + c, n)
    ensures Cong(ga, (t + 1) * c, n)
  {
    hide Cong;
    CongRefl(c, n);
    CongAdd(gr, t * c, c, c, n);
    MultipleStep(t, c);
    CongTrans(ga, gr + c, t * c + c, n);
  }

  lemma {:induction false} LadderCounts(curve: Curve, p: Ext, s: seq<int>, k: nat,
                                        within: Ext -> bool, g: Ext -> int, n: int)
    requires Counts(curve, p, within, g, n) && k <= 8 * |s|
    ensures within(Ladder(curve, p, s, k)) && Cong(g(Ladder(curve, p, s, k)), Top(s, k) * g(p), n)
    decreases 8 * |s| - k
  {
    hide AddPoint, DoublePoint, Cong, BitOf;
    if k < 8 * |s| {
      LadderCounts(curve, p, s, k + 1, within, g, n);
      var q, t := Ladder(curve, p, s, k + 1), Top(s, k + 1);
      var r := DoublePoint(curve, q);
      assert CountsAt(curve, p, within, g, n, q) && CountsAt(curve, p, within, g, n, r);
      DoubledCount(t, g(p), g(q), g(r), n);
      if BitOf(s, k) == 1 {
        AddedCount(2 * t, g(p), g(r), g(AddPoint(curve, r, p)), n);
      }
    }
  }

  lemma MultipleStep(t: int, c: int)
    ensures 2 * (t * c) == (2 * t) * c && t * c + c == (t + 1) * c
  {
  }

  /**
    The ladder computes the multiple by the number its bits stand for: whatever turns doubling into
    twice and adding p into plus one count of p sees that number of counts of p.
   */
  lemma LadderIsMultiple(curve: Curve, p: Ext, s: seq<int>, within: Ext -> bool, g: Ext -> int, n: int)
    requires Bytes(s) && Counts(curve, p, within, g, n)
    ensures Cong(g(Ladder(curve, p, s, 0)), Value(s) * g(p), n)
  {
    hide Ladder, Counts, Cong, Value, Top, Bytes;
    LadderCounts(curve, p, s, 0, within, g, n);
    TopIsValue(s, 0);
    assert s[0..] == s;
  }

  /** The neutral element, up to its sign. */
  ghost predicate Neutral(curve: Curve, q: Ext, c: int) {
    c * c == 1 && Cong(q.x, c * 0, curve.m) && Cong(q.y, c * 1, curve.m) && Cong(q.z, c * 1, curve.m)
    && Cong(q.t, c * 0, curve.m)
  }

  /** A product of two values known up to the sign c. */
  lemma SignedProduct(v: int, k: int, e: int, e': int, f: int, f': int, c: int, m: int)
    requires Cong(v, k * (e * f), m) && Cong(e, c * e', m) && Cong(f, c * f', m) && c * c == 1
    ensures Cong(v, k * (e' * f'), m)
  {
    hide Cong;
    CongMul(e, c * e', f, c * f', m);
    Regroup(c, e', c, f');
    SignSquared(c, e' * f');
    CongRefl(k, m);
    CongMul(k, k, e * f, e' * f', m);
    CongTrans(v, k * (e * f), k * (e' * f'), m);
  }

  lemma SignSquared(c: int, v: int)
    requires c * c == 1
    ensures (c * c) * v == v
  {
  }

  /** A sum of two products, each of one value known up to the sign c and an exact one. */
  lemma SignedSum(a: int, a': int, b: int, b': int, x: int, y: int, c: int, m: int)
    requires Cong(a, c * a', m) && Cong(b, c * b', m)
    ensures Cong(a * x + b * y, c * (a' * x + b' * y), m)
  {
    hide Cong;
    CongRefl(x, m);
    CongRefl(y, m);
    CongMul(a, c * a', x, x, m);
    CongMul(b, c * b', y, y, m);
    CongAdd(a * x, (c * a') * x, b * y, (c * b') * y, m);
    SignedSumIdentity(a', b', x, y, c);
  }

  lemma SignedSumIdentity(a: int, b: int, x: int, y: int, c: int)
    ensures (c * a) * x + (c * b) * y == c * (a * x + b * y)
  {
  }

  /** Adding the neutral element on the left, whatever its sign. */
  lemma NeutralLeft(curve: Curve, q: Ext, c: int, p: Ext)
    requires PointOnCurve(curve, p) && Neutral(curve, q, c)
    ensures var r := AddPoint(curve, q, p);
            && Cong(r.x, 4 * p.z * p.x, curve.m) && Cong(r.y, 4 * p.z * p.y, curve.m)
            && Cong(r.z, 4 * p.z * p.z, curve.m) && Cong(r.t, 4 * p.z * p.t, curve.m)
  {
    hide Cong, AddPoint;
    AddClasses(curve, q, p);
    var r, d, m := AddPoint(curve, q, p), curve.d, curve.m;
    var e, h := q.x * p.y + q.y * p.x, q.y * p.y + q.x * p.x;
    SignedSum(q.x, 0, q.y, 1, p.y, p.x, c, m);
    SignedSum(q.y, 1, q.x, 0, p.y, p.x, c, m);
    assert 0 * p.y + 1 * p.x == p.x && 1 * p.y + 0 * p.x == p.y;
    SignedSum(q.z, 1, q.t, 0, p.z, -(d * p.t), c, m);
    SignedSum(q.z, 1, q.t, 0, p.z, d * p.t, c, m);
    assert 1 * p.z + 0 * (-(d * p.t)) == p.z && 1 * p.z + 0 * (d * p.t) == p.z;
    MoveFactor(d, q.t, p.t);
    var n := d * (q.t * p.t);
    var f, g := q.z * p.z - n, q.z * p.z + n;
    assert q.t * (-(d * p.t)) == -n;
    SignedProduct(r.x, 4, e, p.x, f, p.z, c, m);
    SignedProduct(r.y, 4, g, p.z, h, p.y, c, m);
    SignedProduct(r.z, 4, f, p.z, g, p.z, c, m);
    SignedProduct(r.t, 4, e, p.x, h, p.y, c, m);
    CongRefl(4, m);
    CongMul(4, 4, p.x * p.y, p.z * p.t, m);
    CongTrans(r.t, 4 * (p.x * p.y), 4 * (p.z * p.t), m);
    assert 4 * (p.x * p.z) == 4 * p.z * p.x && 4 * (p.z * p.y) == 4 * p.z * p.y;
    assert 4 * (p.z * p.z) == 4 * p.z * p.z && 4 * (p.z * p.t) == 4 * p.z * p.t;
  }

  /** Doubling the neutral element. */
  lemma NeutralDoubled(curve: Curve, q: Ext, c: int)
    requires PointOnCurve(curve, q) && Neutral(curve, q, c)
    ensures Neutral(curve, DoublePoint(curve, q), -1)
  {
    hide Cong, DoublePoint, PointOnCurve;
    DoubleClasses(curve, q);
    var r, d, m := DoublePoint(curve, q), curve.d, curve.m;
    var e, h := -(q.x * q.y + q.y * q.x), q.y * q.y + q.x * q.x;
    var zz, n := q.z * q.z, d * (q.t * q.t);
    SignedPair(q.x, 0, q.y, 1, c, m);
    SignedPair(q.y, 1, q.x, 0, c, m);
    SignedPair(q.y, 1, q.y, 1, c, m);
    SignedPair(q.x, 0, q.x, 0, c, m);
    SignedPair(q.z, 1, q.z, 1, c, m);
    SignedPair(q.t, 0, q.t, 0, c, m);
    CongAdd(q.x * q.y, 0, q.y * q.x, 0, m);
    CongRefl(0, m);
    CongSub(0, 0, q.x * q.y + q.y * q.x, 0, m);
    CongAdd(q.y * q.y, 1, q.x * q.x, 0, m);
    CongRefl(d, m);
    CongMul(d, d, q.t * q.t, 0, m);
    CongSub(zz, 1, n, 0, m);
    CongAdd(zz, 1, n, 0, m);
    CongSub(0, 0, zz + n, 1, m);
    UnitProduct(r.x, e, 0, zz - n, 1, m);
    UnitProduct(r.y, -(zz + n), -1, h, 1, m);
    UnitProduct(r.z, zz - n, 1, -(zz + n), -1, m);
    UnitProduct(r.t, e, 0, h, 1, m);
  }

  lemma SignedPair(a: int, a': int, b: int, b': int, c: int, m: int)
    requires Cong(a, c * a', m) && Cong(b, c * b', m) && c * c == 1
    ensures Cong(a * b, a' * b', m)
  {
    hide Cong;
    CongMul(a, c * a', b, c * b', m);
    Regroup(c, a', c, b');
    SignSquared(c, a' * b');
  }

  lemma UnitProduct(v: int, a: int, a': int, b: int, b': int, m: int)
    requires Cong(v, 1 * (a * b), m) && Cong(a, a', m) && Cong(b, b', m)
    ensures Cong(v, a' * b', m)
  {
    hide Cong;
    CongMul(a, a', b, b', m);
    CongTrans(v, a * b, a' * b', m);
  }

  /** While only zero bits have been read, the ladder stays at the neutral element. */
  lemma {:induction false} LeadingZeros(curve: Curve, p: Ext, s: seq<int>, k: nat)
    requires PointOnCurve(curve, p) && k <= 8 * |s| && Top(s, k) == 0
    ensures Neutral(curve, Ladder(curve, p, s, k), 1) || Neutral(curve, Ladder(curve, p, s, k), -1)
    decreases 8 * |s| - k
  {
    hide PointOnCurve, AddPoint, DoublePoint, Neutral, BitOf;
    if k == 8 * |s| {
      IdentityIsItself(curve);
    } else {
      TopSign(s, k + 1);
      LeadingZeros(curve, p, s, k + 1);
      LadderOnCurve(curve, p, s, k + 1);
      var q := Ladder(curve, p, s, k + 1);
      NeutralDoubled(curve, q, if Neutral(curve, q, 1) then 1 else -1);
    }
  }

  lemma IdentityIsItself(curve: Curve)
    ensures Neutral(curve, IDENTITY, 1)
  {
    CongRefl(0, curve.m);
    CongRefl(1, curve.m);
  }

  lemma {:induction false} TopSign(s: seq<int>, k: nat)
    requires k <= 8 * |s|
    ensures Top(s, k) >= 0
    decreases 8 * |s| - k
  {
    hide BitOf;
    if k < 8 * |s| {
      TopSign(s, k + 1);
    }
  }

  /** One times a point is the point: the same coordinates, scaled by 4 Z. */
  lemma LadderOfOne(curve: Curve, p: Ext, s: seq<int>)
    requires PointOnCurve(curve, p) && Bytes(s) && Value(s) == 1
    ensures var r := Ladder(curve, p, s, 0);
            && Cong(r.x, 4 * p.z * p.x, curve.m) && Cong(r.y, 4 * p.z * p.y, curve.m)
            && Cong(r.z, 4 * p.z * p.z, curve.m) && Cong(r.t, 4 * p.z * p.t, curve.m)
  {
    hide Cong, PointOnCurve, AddPoint, DoublePoint, Neutral, BitOf, Value;
    assert Top(s, 0) == 1 by {
      TopIsValue(s, 0);
      assert s[0..] == s;
    }
    assert s != [] by { hide Top; NothingIsZero(); }
    TopSign(s, 1);
    assert BitOf(s, 0) == 1 && Top(s, 1) == 0;
    LeadingZeros(curve, p, s, 1);
    LadderOnCurve(curve, p, s, 1);
    var q := Ladder(curve, p, s, 1);
    NeutralDoubled(curve, q, if Neutral(curve, q, 1) then 1 else -1);
    NeutralLeft(curve, DoublePoint(curve, q), -1, p);
  }

  lemma NothingIsZero()
    ensures Value([]) == 0
  {
  }

  lemma CurveFromRoot(curve: Curve, x: int, y: int, u: int, v: int)
    requires Cong((x * x) * v, u, curve.m) && Cong(u, y * y - 1, curve.m) && Cong(v, curve.d * (y * y) + 1, curve.m)
    ensures PointOnCurve(curve, Ext(x, y, 1, curve.Mul(x, y)))
  {
    hide Cong;
    var t := curve.Mul(x, y);
    CongRefl(x, curve.m);
    CongRefl(y, curve.m);
    CongRefl(curve.d, curve.m);
    CongRefl(1, curve.m);
    MulClass(x, x, y, y, curve.m);
    CongSym(t, x * y, curve.m);
    CongMul(t, x * y, t, x * y, curve.m);
    CongMul(curve.d, curve.d, t * t, (x * y) * (x * y), curve.m);
    CongAdd(1, 1, curve.d * (t * t), curve.d * ((x * y) * (x * y)), curve.m);
    CongSym(1 + curve.d * (t * t), 1 + curve.d * ((x * y) * (x * y)), curve.m);
    CongRefl(x * x, curve.m);
    CongMul(x * x, x * x, v, curve.d * (y * y) + 1, curve.m);
    CongSym((x * x) * v, (x * x) * (curve.d * (y * y) + 1), curve.m);
    CongTrans((x * x) * (curve.d * (y * y) + 1), (x * x) * v, u, curve.m);
    CongTrans((x * x) * (curve.d * (y * y) + 1), u, y * y - 1, curve.m);
    CurveArrange(x, y, curve.d);
    CongSym((x * x) * (curve.d * (y * y) + 1), y * y - 1, curve.m);
    CongRefl(1 - x * x, curve.m);
    CongAdd(y * y - 1, (x * x) * (curve.d * (y * y) + 1), 1 - x * x, 1 - x * x, curve.m);
    CongTrans(y * y - x * x, 1 + curve.d * ((x * y) * (x * y)), 1 + curve.d * (t * t), curve.m);
  }

  lemma CurveArrange(x: int, y: int, d: int)
    ensures (x * x) * (d * (y * y) + 1) + (1 - x * x) == 1 + d * ((x * y) * (x * y))
  {
    Regroup(x, y, x, y);
    MoveFactor(x * x, d, y * y);
    Expand(x * x, d * (y * y), 1);
  }

  lemma RootForm(x: int, y: int, d: int)
    ensures (x * x) * (d * (y * y) + 1) == (1 + d * (x * x) * (y * y)) + (x * x - 1)
  {
    Expand(x * x, d * (y * y), 1);
    MoveFactor(x * x, d, y * y);
    Associate(d, x * x, y * y);
  }

  /** An affine point of the curve in extended coordinates. */
  lemma AffineOnCurve(curve: Curve, x: int, y: int)
    requires Cong(y * y - x * x, 1 + curve.d * (x * x) * (y * y), curve.m)
    ensures PointOnCurve(curve, Ext(x, y, 1, curve.Mul(x, y)))
  {
    hide Cong, MulM, PointOnCurve;
    var u, v := y * y - 1, curve.d * (y * y) + 1;
    CongSym(y * y - x * x, 1 + curve.d * (x * x) * (y * y), curve.m);
    CongRefl(x * x - 1, curve.m);
    CongAdd(1 + curve.d * (x * x) * (y * y), y * y - x * x, x * x - 1, x * x - 1, curve.m);
    RootForm(x, y, curve.d);
    assert y * y - x * x + (x * x - 1) == u;
    CongRefl(u, curve.m);
    CongRefl(v, curve.m);
    CurveFromRoot(curve, x, y, u, v);
  }
}
