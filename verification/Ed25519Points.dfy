/** The point operations as the original runs them, on limb arrays. */
module Ed25519Points {
  import opened Congruence
  import opened LittleEndian
  import opened BitString
  import opened Ed25519Field
  import opened Ed25519Curve
  import opened EdwardsPoints

  /** A point in extended coordinates: four limb arrays of its own. */
  class Point {
    const x: array<u32>
    const y: array<u32>
    const z: array<u32>
    const t: array<u32>

    ghost predicate Shape() {
      && x.Length == y.Length == z.Length == t.Length == 32
      && x != y && x != z && x != t && y != z && y != t && z != t
    }

    ghost predicate Valid()
      reads x, y, z, t
    {
      Shape() && Carried(x[..]) && Carried(y[..]) && Carried(z[..]) && Carried(t[..])
    }

    /** The residues the limbs stand for. */
    ghost function Abs(): Ext
      reads x, y, z, t
    {
      Ext(F(x), F(y), F(z), F(t))
    }

    constructor ()
      ensures Shape() && fresh(x) && fresh(y) && fresh(z) && fresh(t)
    {
      x := new u32[32](i => 0);
      y := new u32[32](i => 0);
      z := new u32[32](i => 0);
      t := new u32[32](i => 0);
    }
  }

  method PointCopy(out: Point, a: Point)
    requires out.Shape() && a.Valid()
    requires {out.x, out.y, out.z, out.t} !! {a.x, a.y, a.z, a.t}
    modifies out.x, out.y, out.z, out.t
    ensures out.Valid() && out.Abs() == old(a.Abs())
  {
    hide Carried, F, Value;
    FeCopy(out.x, a.x);
    FeCopy(out.y, a.y);
    FeCopy(out.z, a.z);
    FeCopy(out.t, a.t);
  }

  method PointIdentity(out: Point)
    requires out.Shape()
    modifies out.x, out.y, out.z, out.t
    ensures out.Valid() && out.Abs() == IDENTITY
  {
    hide Carried, F, Value;
    FeSetSmall(out.x, 0);
    FeSetSmall(out.y, 1);
    FeSetSmall(out.z, 1);
    FeSetSmall(out.t, 0);
  }

  /** The last four products, shared by addition and doubling. */
  method FinishInto(out: Point, e: array<u32>, f: array<u32>, g: array<u32>, h: array<u32>)
    requires out.Shape() && e.Length == f.Length == g.Length == h.Length == 32
    requires {out.x, out.y, out.z, out.t} !! {e, f, g, h}
    requires Carried(e[..]) && Carried(f[..]) && Carried(g[..]) && Carried(h[..])
    modifies out.x, out.y, out.z, out.t
    ensures out.Valid() && out.Abs() == Finish(ED25519, old(F(e)), old(F(f)), old(F(g)), old(F(h)))
  {
    hide Carried, F, Value, MulM;
    FeMul(out.x, e, f);
    FeMul(out.y, g, h);
    FeMul(out.t, e, h);
    FeMul(out.z, f, g);
  }

  /** out = (Y1 - X1)(Y2 - X2), the A of an addition. */
  method FactorA(out: array<u32>, p: Point, q: Point)
    requires out.Length == 32 && p.Valid() && q.Valid()
    requires out !in {p.x, p.y, p.z, p.t, q.x, q.y, q.z, q.t}
    modifies out
    ensures Carried(out[..])
    ensures F(out) == MulP(SubP(F(p.y), F(p.x)), SubP(F(q.y), F(q.x)))
  {
    hide Carried, F, Value, MulM, SubM;
    var t := new u32[32](i => 0);
    FeSub(out, p.y, p.x);
    FeSub(t, q.y, q.x);
    FeMul(out, out, t);
  }

  /** out = (Y1 + X1)(Y2 + X2), the B of an addition. */
  method FactorB(out: array<u32>, p: Point, q: Point)
    requires out.Length == 32 && p.Valid() && q.Valid()
    requires out !in {p.x, p.y, p.z, p.t, q.x, q.y, q.z, q.t}
    modifies out
    ensures Carried(out[..])
    ensures F(out) == MulP(AddP(F(p.y), F(p.x)), AddP(F(q.y), F(q.x)))
  {
    hide Carried, F, Value, MulM, AddM;
    var t := new u32[32](i => 0);
    FeAdd(out, p.y, p.x);
    FeAdd(t, q.y, q.x);
    FeMul(out, out, t);
  }

  /** out = T1 * 2d * T2, the C of an addition. */
  method FactorC(out: array<u32>, p: Point, q: Point)
    requires out.Length == 32 && p.Valid() && q.Valid()
    requires out !in {p.x, p.y, p.z, p.t, q.x, q.y, q.z, q.t}
    modifies out
    ensures Carried(out[..])
    ensures F(out) == MulP(MulP(F(p.t), AddP(D, D)), F(q.t))
  {
    hide Carried, F, Value, MulM, AddM;
    var d2 := new u32[32](i => 0);
    TwoD(d2);
    FeMul(out, p.t, d2);
    FeMul(out, out, q.t);
  }

  /** out = p + q, computed into locals, so out may alias either input. */
  method PointAdd(out: Point, p: Point, q: Point)
    requires out.Shape() && p.Valid() && q.Valid()
    modifies out.x, out.y, out.z, out.t
    ensures out.Valid() && out.Abs() == AddPoint(ED25519, old(p.Abs()), old(q.Abs()))
  {
    hide Carried, F, Value, MulM, AddM, SubM, Finish;
    var a := new u32[32](i => 0);
    FactorA(a, p, q);
    var b := new u32[32](i => 0);
    FactorB(b, p, q);
    var c := new u32[32](i => 0);
    FactorC(c, p, q);
    var d := new u32[32](i => 0);
    FeAdd(d, p.z, p.z);
    FeMul(d, d, q.z);
    SumsAndFinish(out, a, b, c, d);
  }

  /** E = B - A, F = D - C, G = D + C, H = B + A, then the four products. */
  method SumsAndFinish(out: Point, a: array<u32>, b: array<u32>, c: array<u32>, d: array<u32>)
    requires out.Shape() && a.Length == b.Length == c.Length == d.Length == 32
    requires Carried(a[..]) && Carried(b[..]) && Carried(c[..]) && Carried(d[..])
    modifies out.x, out.y, out.z, out.t
    ensures out.Valid()
    ensures out.Abs() == old(Finish(ED25519, SubP(F(b), F(a)), SubP(F(d), F(c)), AddP(F(d), F(c)), AddP(F(b), F(a))))
  {
    hide Carried, F, Value, MulM, AddM, SubM, Finish;
    var e := new u32[32](i => 0);
    FeSub(e, b, a);
    var f := new u32[32](i => 0);
    FeSub(f, d, c);
    var g := new u32[32](i => 0);
    FeAdd(g, d, c);
    var h := new u32[32](i => 0);
    FeAdd(h, b, a);
    FinishInto(out, e, f, g, h);
  }

  method TwoD(d2: array<u32>)
    requires d2.Length == 32
    modifies d2
    ensures Carried(d2[..]) && F(d2) == AddP(D, D)
  {
    FeFromBytes(d2, D_BYTES);
    DTable();
    FeAdd(d2, d2, d2);
  }

  /** out = (X + Y)^2. */
  method SumSquared(out: array<u32>, p: Point)
    requires out.Length == 32 && p.Valid() && out !in {p.x, p.y, p.z, p.t}
    modifies out
    ensures Carried(out[..])
    ensures F(out) == MulP(AddP(F(p.x), F(p.y)), AddP(F(p.x), F(p.y)))
  {
    hide Carried, F, Value, MulM, AddM;
    FeAdd(out, p.x, p.y);
    FeMul(out, out, out);
  }

  /** out = 2p; out may alias p. */
  method PointDouble(out: Point, p: Point)
    requires out.Shape() && p.Valid()
    modifies out.x, out.y, out.z, out.t
    ensures out.Valid() && out.Abs() == DoublePoint(ED25519, old(p.Abs()))
  {
    hide Carried, F, Value, MulM, AddM, SubM, Finish;
    var a := new u32[32](i => 0);
    FeMul(a, p.x, p.x);
    var b := new u32[32](i => 0);
    FeMul(b, p.y, p.y);
    var c := new u32[32](i => 0);
    FeMul(c, p.z, p.z);
    FeAdd(c, c, c);
    var s := new u32[32](i => 0);
    SumSquared(s, p);
    DoubleRest(out, a, b, c, s);
  }

  /** H = A + B, E = H - S, G = A - B, F = C + G, then the four products. */
  method DoubleRest(out: Point, a: array<u32>, b: array<u32>, c: array<u32>, s: array<u32>)
    requires out.Shape() && a.Length == b.Length == c.Length == s.Length == 32
    requires Carried(a[..]) && Carried(b[..]) && Carried(c[..]) && Carried(s[..])
    modifies out.x, out.y, out.z, out.t
    ensures out.Valid()
    ensures out.Abs() == old(var h := AddP(F(a), F(b));
                             var g := SubP(F(a), F(b));
                             Finish(ED25519, SubP(h, F(s)), AddP(F(c), g), g, h))
  {
    hide Carried, F, Value, MulM, AddM, SubM, Finish;
    var h := new u32[32](i => 0);
    FeAdd(h, a, b);
    var e := new u32[32](i => 0);
    FeSub(e, h, s);
    var g := new u32[32](i => 0);
    FeSub(g, a, b);
    var f := new u32[32](i => 0);
    FeAdd(f, c, g);
    FinishInto(out, e, f, g, h);
  }

  /** The base point B. */
  method PointBase(out: Point)
    requires out.Shape()
    modifies out.x, out.y, out.z, out.t
    ensures out.Valid() && out.Abs() == Ext(BASE_X, BASE_Y, 1, MulP(BASE_X, BASE_Y))
  {
    hide Carried, MulM, Value;
    FeFromBytes(out.x, BASE_X_BYTES);
    FeFromBytes(out.y, BASE_Y_BYTES);
    BaseTables();
    BaseMeetsItsDefinition();
    FeSetSmall(out.z, 1);
    FeMul(out.t, out.x, out.y);
  }

  /** out = [scalar]p by double-and-add from bit 255 down; out may alias p. */
  method PointScalarMul(out: Point, p: Point, scalar: array<u8>)
    requires out.Shape() && p.Valid() && scalar.Length == 32
    modifies out.x, out.y, out.z, out.t
    ensures out.Valid() && out.Abs() == Ladder(ED25519, old(p.Abs()), old(scalar[..]), 0)
  {
    hide Carried, F, Value, Ladder;
    var base := NewCopy(p);
    var result := NewIdentity();
    LadderStart(base.Abs(), scalar[..]);
    RunLadder(result, base, scalar);
    PointCopy(out, result);
  }

  method NewCopy(p: Point) returns (a: Point)
    requires p.Valid()
    ensures a.Valid() && a.Abs() == p.Abs()
    ensures fresh(a.x) && fresh(a.y) && fresh(a.z) && fresh(a.t)
  {
    hide Carried, F, Value;
    a := new Point();
    PointCopy(a, p);
  }

  method NewIdentity() returns (a: Point)
    ensures a.Valid() && a.Abs() == IDENTITY
    ensures fresh(a.x) && fresh(a.y) && fresh(a.z) && fresh(a.t)
  {
    hide Carried, F, Value;
    a := new Point();
    PointIdentity(a);
  }

  lemma LadderStart(p: Ext, s: seq<int>)
    requires |s| == 32
    ensures Ladder(ED25519, p, s, 256) == IDENTITY
  {
  }

  method RunLadder(result: Point, base: Point, scalar: array<u8>)
    requires result.Valid() && base.Valid() && scalar.Length == 32
    requires {result.x, result.y, result.z, result.t} !! {base.x, base.y, base.z, base.t}
    requires result.Abs() == Ladder(ED25519, base.Abs(), scalar[..], 256)
    modifies result.x, result.y, result.z, result.t
    ensures result.Valid() && result.Abs() == Ladder(ED25519, old(base.Abs()), old(scalar[..]), 0)
  {
    hide Carried, F, Value, Ladder;
    ghost var s: seq<u8>, b := scalar[..], base.Abs();
    var bit := 256;
    while bit > 0
      invariant 0 <= bit <= 256 && scalar[..] == s
      invariant result.Valid() && base.Valid() && base.Abs() == b
      invariant result.Abs() == Ladder(ED25519, b, s, bit)
    {
      LadderBit(result, base, scalar, bit - 1);
      bit := bit - 1;
    }
  }

  /** One bit of the ladder. */
  method LadderBit(result: Point, base: Point, scalar: array<u8>, k: nat)
    requires result.Valid() && base.Valid() && scalar.Length == 32 && k < 256
    requires {result.x, result.y, result.z, result.t} !! {base.x, base.y, base.z, base.t}
    requires result.Abs() == Ladder(ED25519, base.Abs(), scalar[..], k + 1)
    modifies result.x, result.y, result.z, result.t
    ensures result.Valid() && base.Valid() && base.Abs() == old(base.Abs())
    ensures scalar[..] == old(scalar[..])
    ensures result.Abs() == Ladder(ED25519, base.Abs(), scalar[..], k)
  {
    hide Carried, F, Value, AddPoint, DoublePoint, BitOf;
    ghost var s: seq<u8>, b := scalar[..], base.Abs();
    PointDouble(result, result);
    var bit := ReadBit(scalar, k);
    if bit == 1 {
      PointAdd(result, result, base);
    }
  }

  /** The canonical y with the low bit of x in the top bit. */
  method PointEncode(out: array<u8>, p: Point)
    requires out.Length == 32 && p.Valid()
    modifies out
    ensures Value(out[..]) == EncodedValue(old(p.Abs()))
  {
    hide Carried, F, Value, MulM, PowP;
    var zInverse := new u32[32](i => 0);
    var x := new u32[32](i => 0);
    var y := new u32[32](i => 0);
    FeInvert(zInverse, p.z);
    FeMul(x, p.x, zInverse);
    FeMul(y, p.y, zInverse);
    FeBytes(out, y);
    var odd := FeIsOdd(x);
    if odd == 1 {
      SetTopBit(out);
    }
  }

  /** Set bit 255 of a number below p. */
  method SetTopBit(out: array<u8>)
    requires out.Length == 32 && Value(out[..]) < P
    modifies out
    ensures Value(out[..]) == old(Value(out[..])) + TWO_256 / 2
  {
    hide Value;
    ghost var s := out[..];
    TopBitFree(s);
    out[31] := out[31] + 0x80;
    assert out[..] == s[31 := s[31] + 128];
    TopUpdate(s, s[31] + 128);
  }

  /** FeToBytes for a carried element. */
  method FeBytes(out: array<u8>, a: array<u32>)
    requires out.Length == a.Length == 32 && Carried(a[..])
    modifies out
    ensures Value(out[..]) == old(F(a))
  {
    CarriedLimbs(a[..]);
    assert forall i :: 0 <= i < 32 ==> a[i] == a[..][i];
    FeToBytes(out, a);
  }

  /** A 32-byte number below p leaves its top bit free. */
  lemma TopBitFree(s: seq<int>)
    requires |s| == 32 && Bytes(s) && Value(s) < P
    ensures s[31] < 128
  {
    var low := s[31 := 0];
    TopUpdate(s, 0);
    BytesBound(low);
    Pow32();
  }

  /** x = u v^3 (u v^7)^((p-5)/8). */
  method RootInto(x: array<u32>, u: array<u32>, v: array<u32>)
    requires x.Length == u.Length == v.Length == 32 && x != u && x != v
    requires Carried(u[..]) && Carried(v[..])
    modifies x
    ensures Carried(x[..]) && F(x) == CandidateRoot(F(u), F(v))
  {
    hide Carried, F, Value, MulM, PowP;
    var v3 := new u32[32](i => 0);
    var t := new u32[32](i => 0);
    var e := new u8[32](i => 0);
    FeMul(v3, v, v);
    FeMul(v3, v3, v);
    FeMul(t, v3, v3);
    FeMul(t, t, v);
    FeMul(t, t, u);
    Exponent(e, 0xFD, 0x0F);
    assert Value(e[..]) == (P - 5) / 8;
    FePow(t, t, e);
    FeMul(x, u, v3);
    FeMul(x, x, t);
  }

  /** Step 3 of section 5.1.3: keep x, turn it by sqrt(-1), or refuse. */
  method RootTest(x: array<u32>, u: array<u32>, v: array<u32>) returns (ok: bool)
    requires x.Length == u.Length == v.Length == 32 && x != u && x != v
    requires Carried(x[..]) && Carried(u[..]) && Carried(v[..])
    requires F(x) == CandidateRoot(F(u), F(v))
    modifies x
    ensures Carried(x[..])
    ensures ok <==> RootOf(F(u), F(v)).Some?
    ensures ok ==> F(x) == RootOf(F(u), F(v)).value
  {
    hide Carried, F, Value, MulM, SubM, CandidateRoot;
    var vx2 := new u32[32](i => 0);
    FeMul(vx2, x, x);
    FeMul(vx2, vx2, v);
    ok := FeEqual(vx2, u);
    if !ok {
      var negU := new u32[32](i => 0);
      FeSetSmall(negU, 0);
      FeSub(negU, negU, u);
      ok := FeEqual(vx2, negU);
      if ok {
        var t := new u32[32](i => 0);
        RootMinusOne(t);
        FeMul(x, x, t);
      }
    }
  }

  method RootMinusOne(t: array<u32>)
    requires t.Length == 32
    modifies t
    ensures Carried(t[..]) && F(t) == SQRTM1
  {
    FeFromBytes(t, SQRTM1_BYTES);
    Sqrtm1Table();
  }

  /** u = y^2 - 1 and v = d y^2 + 1. */
  method QuotientInto(u: array<u32>, v: array<u32>, y: array<u32>)
    requires u.Length == v.Length == y.Length == 32 && u != v && u != y && v != y
    requires Carried(y[..])
    modifies u, v
    ensures Carried(u[..]) && Carried(v[..])
    ensures F(u) == NumeratorU(F(y)) && F(v) == DenominatorV(F(y))
  {
    hide Carried, F, Value, MulM, SubM, AddM;
    var one := new u32[32](i => 0);
    FeSetSmall(one, 1);
    var d := new u32[32](i => 0);
    LoadD(d);
    var y2 := new u32[32](i => 0);
    FeMul(y2, y, y);
    FeSub(u, y2, one);
    FeMul(v, d, y2);
    FeAdd(v, v, one);
  }

  method LoadD(d: array<u32>)
    requires d.Length == 32
    modifies d
    ensures Carried(d[..]) && F(d) == D
  {
    FeFromBytes(d, D_BYTES);
    DTable();
  }

  /** Decode a point exactly when the specification accepts the string, to exactly its point. */
  method PointDecode(out: Point, s: seq<u8>) returns (ok: bool)
    requires out.Shape() && |s| == 32
    modifies out.x, out.y, out.z, out.t
    ensures ok <==> DecodeSpec(s).Some?
    ensures ok ==> out.Valid()
    ensures ok ==> var (x, y) := DecodeSpec(s).value; out.Abs() == Ext(x, y, 1, MulP(x, y))
  {
    hide Carried, F, Value, MulM, SubM, RootOf, NumeratorU, DenominatorV, CandidateRoot;
    var sign := (s[31] / 128) % 2;
    var low: seq<u8> := s[31 := s[31] % 128];
    var y := new u32[32](i => 0);
    var canonical := LoadCanonical(y, low);
    if !canonical {
      return false;
    }
    var u := new u32[32](i => 0);
    var v := new u32[32](i => 0);
    QuotientInto(u, v, y);
    var x := new u32[32](i => 0);
    RootInto(x, u, v);
    ok := RootTest(x, u, v);
    if !ok {
      return false;
    }
    ok := FixSign(x, sign);
    if ok {
      SetAffine(out, x, y);
    }
  }

  /** Step 1: y as given, and whether it is below p. */
  method LoadCanonical(y: array<u32>, low: seq<u8>) returns (canonical: bool)
    requires y.Length == |low| == 32
    modifies y
    ensures Carried(y[..])
    ensures canonical <==> Value(low) < P
    ensures canonical ==> F(y) == Value(low)
  {
    hide Carried, Value;
    FeFromBytes(y, low);
    var bytes := new u8[32](i => 0);
    FeBytes(bytes, y);
    var given := Given(low);
    canonical := BytesEqual(bytes, given);
    Canonical(bytes[..], low);
  }

  method Given(s: seq<u8>) returns (a: array<u8>)
    requires |s| == 32
    ensures fresh(a) && a[..] == s
  {
    a := new u8[32](i requires 0 <= i < 32 => s[i]);
  }

  /** A string is the canonical one of its class exactly when it is below p. */
  lemma Canonical(bytes: seq<int>, low: seq<int>)
    requires |bytes| == |low| == 32 && Bytes(bytes) && Bytes(low)
    requires Value(bytes) == Value(low) % P
    ensures bytes == low <==> Value(low) < P
    ensures bytes == low ==> Value(low) % P == Value(low)
  {
    hide Value;
    BytesBound(low);
    if Value(low) < P {
      ValueInjective(bytes, low);
    }
  }

  /** Step 4: refuse a negative zero, otherwise give x the encoded parity. */
  method FixSign(x: array<u32>, sign: u8) returns (ok: bool)
    requires x.Length == 32 && Carried(x[..]) && sign <= 1
    modifies x
    ensures Carried(x[..])
    ensures ok <==> !(old(F(x)) == 0 && sign == 1)
    ensures ok ==> F(x) == if old(F(x)) % 2 != sign then SubP(0, old(F(x))) else old(F(x))
  {
    hide Carried, F, Value, SubM;
    var zero := FeIsZero(x);
    if zero && sign == 1 {
      return false;
    }
    var odd := FeIsOdd(x);
    if odd != sign {
      var t := new u32[32](i => 0);
      FeSetSmall(t, 0);
      FeSub(x, t, x);
    }
    return true;
  }

  method SetAffine(out: Point, x: array<u32>, y: array<u32>)
    requires out.Shape() && x.Length == y.Length == 32 && Carried(x[..]) && Carried(y[..])
    requires {out.x, out.y, out.z, out.t} !! {x, y}
    modifies out.x, out.y, out.z, out.t
    ensures out.Valid() && out.Abs() == Ext(old(F(x)), old(F(y)), 1, MulP(old(F(x)), old(F(y))))
  {
    hide Carried, F, Value, MulM;
    FeCopy(out.x, x);
    FeCopy(out.y, y);
    FeSetSmall(out.z, 1);
    FeMul(out.t, x, y);
  }

  /** Every string that decodes is what its point encodes to. */
  method Reencode(out: array<u8>, s: seq<u8>) returns (ok: bool)
    requires out.Length == |s| == 32
    modifies out
    ensures ok <==> DecodeSpec(s).Some?
    ensures ok ==> out[..] == s
  {
    hide Value, MulM, DecodeSpec, EncodedValue;
    var p := new Point();
    ok := PointDecode(p, s);
    if ok {
      PointEncode(out, p);
      EncodeReproduces(s, out[..]);
    }
  }
}
