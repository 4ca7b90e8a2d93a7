/** Which strings decode: every point of the curve has its string, and no other string is taken. */
module Ed25519Roots {
  import opened Congruence
  import opened LittleEndian
  import opened Ed25519Field
  import opened EdwardsLaw
  import opened Ed25519Curve
  import opened EdwardsPoints
  import opened Wrappers

  lemma {:induction false} PowerMul(a: int, b: int, n: nat)
    ensures Power(a * b, n) == Power(a, n) * Power(b, n)
  {
    if n > 0 {
      PowerMul(a, b, n - 1);
      Regroup(a, b, Power(a, n - 1), Power(b, n - 1));
    }
  }

  lemma SquarePower(a: int, n: nat)
    ensures Power(a * a, n) == Power(a, 2 * n)
  {
    hide Power;
    PowerMul(a, a, n);
    PowerAdd(a, n, n);
  }

  lemma {:induction false} CongPower(a: int, b: int, n: nat, m: int)
    requires Cong(a, b, m)
    ensures Cong(Power(a, n), Power(b, n), m)
  {
    hide Cong;
    if n == 0 {
      CongRefl(1, m);
    } else {
      CongPower(a, b, n - 1, m);
      CongMul(a, b, Power(a, n - 1), Power(b, n - 1), m);
    }
  }

  lemma SmallPowers(a: int)
    ensures Power(a, 1) == a && Power(a, 2) == a * a && Power(a, 4) == (a * a) * (a * a)
  {
    assert Power(a, 0) == 1;
    assert Power(a, 1) == a * Power(a, 0);
    assert Power(a, 2) == a * Power(a, 1);
    hide Power;
    PowerAdd(a, 2, 2);
  }

  /** The base of the candidate's power is the square of x v^4. */
  lemma BaseOfPower(x: int, u: int, v: int, m: int)
    requires Cong(u, (x * x) * v, m)
    ensures var v3 := (v * v) * v;
            var b := x * ((v * v) * (v * v));
            Cong(((v3 * v3) * v) * u, b * b, m) && Cong(u * v3, (x * x) * ((v * v) * (v * v)), m)
  {
    hide Cong;
    var v3 := (v * v) * v;
    var v7 := (v3 * v3) * v;
    CongRefl(v7, m);
    CongMul(v7, v7, u, (x * x) * v, m);
    CongRefl(v3, m);
    CongMul(u, (x * x) * v, v3, v3, m);
    SeventhPower(x, v);
  }

  lemma SeventhPower(x: int, v: int)
    ensures var v3, v4 := (v * v) * v, (v * v) * (v * v);
            && ((v3 * v3) * v) * ((x * x) * v) == (x * v4) * (x * v4)
            && ((x * x) * v) * v3 == (x * x) * v4
  {
    var w := v * v;
    var v3, v4 := w * v, w * w;
    assert v3 * v == v4 by { Regroup(w, v, v, 1); Associate(w, v, v); }
    assert v * v3 == v4;
    Associate(x * x, v, v3);
    Regroup(v3 * v3, v, x * x, v);
    Regroup(x, v4, x, v4);
    Associate(v3 * v3, v, v);
    assert (v3 * v3) * (v * v) == (v3 * v) * (v3 * v) by { Regroup(v3, v3, v, v); }
  }

  lemma FourTimes(v: int, e: nat)
    ensures Power((v * v) * (v * v), 2 * e) == Power(v, 8 * e)
  {
    hide Power;
    SquarePower(v * v, 2 * e);
    SquarePower(v, 4 * e);
  }

  lemma PowerOfBase(x: int, v4: int, v: int, e: nat)
    requires v4 == (v * v) * (v * v)
    ensures Power((x * v4) * (x * v4), e) == Power(x, 2 * e) * Power(v, 8 * e)
  {
    hide Power;
    SquarePower(x * v4, e);
    PowerMul(x, v4, 2 * e);
    FourTimes(v, e);
  }

  lemma PowersJoin(x: int, v: int, x2: int, v4: int, e: nat)
    requires x2 == x * x && v4 == (v * v) * (v * v)
    ensures (x2 * v4) * (Power(x, 2 * e) * Power(v, 8 * e)) == Power(x, 2 * e + 2) * Power(v, 8 * e + 4)
  {
    hide Power;
    SmallPowers(x);
    SmallPowers(v);
    PowerAdd(x, 2, 2 * e);
    PowerAdd(v, 4, 8 * e);
    Regroup(x2, v4, Power(x, 2 * e), Power(v, 8 * e));
    assert Power(v, 8 * e) * v4 == v4 * Power(v, 8 * e);
  }

  /** first base^e where first stands for x^2 v^4 and base for (x v^4)^2. */
  lemma CandidateForm(x: int, v: int, v4: int, first: int, base: int, e: nat, m: int)
    requires v4 == (v * v) * (v * v) && Cong(first, (x * x) * v4, m) && Cong(base, (x * v4) * (x * v4), m)
    ensures Cong(first * Power(base, e), Power(x, 2 * e + 2) * Power(v, 8 * e + 4), m)
  {
    hide Cong, Power;
    PowerOfBase(x, v4, v, e);
    PowersJoin(x, v, x * x, v4, e);
    CandidatePowers(first, (x * x) * v4, base, (x * v4) * (x * v4), e, m);
  }

  lemma CandidatePowers(a: int, b: int, base: int, square: int, e: nat, m: int)
    requires Cong(a, b, m) && Cong(base, square, m)
    ensures Cong(a * Power(base, e), b * Power(square, e), m)
  {
    hide Cong, Power;
    CongPower(base, square, e, m);
    CongMul(a, b, Power(base, e), Power(square, e), m);
  }

  lemma CubeClass(v: int)
    ensures Cong(MulP(MulP(v, v), v), (v * v) * v, P)
  {
    hide Cong, MulM;
    CongRefl(v, P);
    MulClass(v, v, v, v, P);
    MulClass(MulP(v, v), v * v, v, v, P);
  }

  lemma PowerTimes(a: int, a': int, t: int, t': int, n: nat)
    requires Cong(a, a', P) && Cong(t, t', P)
    ensures Cong(MulP(a, PowP(t, n)), a' * Power(t', n), P)
  {
    hide Cong, MulM, Power, PowP;
    CongPower(t, t', n, P);
    PowClass(t, n);
    CongTrans(PowP(t, n), Power(t, n), Power(t', n), P);
    MulClass(a, a', PowP(t, n), Power(t', n), P);
  }

  /** The candidate as the code computes it, reduced after every step; v3 is the cube of v. */
  lemma CandidateClass(u: int, v: int, v3: int)
    requires Cong(MulP(MulP(v, v), v), v3, P)
    ensures Cong(CandidateRoot(u, v), (u * v3) * Power(((v3 * v3) * v) * u, (P - 5) / 8), P)
  {
    hide Cong, MulM, Power, PowP;
    var w3 := MulP(MulP(v, v), v);
    CongRefl(u, P);
    CongRefl(v, P);
    MulClass(w3, v3, w3, v3, P);
    MulClass(MulP(w3, w3), v3 * v3, v, v, P);
    MulClass(MulP(MulP(w3, w3), v), (v3 * v3) * v, u, u, P);
    MulClass(u, u, w3, v3, P);
    PowerTimes(MulP(u, w3), u * v3, MulP(MulP(MulP(w3, w3), v), u), ((v3 * v3) * v) * u, (P - 5) / 8);
  }

  lemma PowClass(a: int, n: nat)
    ensures Cong(PowP(a, n), Power(a, n), P) && 0 <= PowP(a, n) < P
  {
    hide Cong, Power;
    CongMod(Power(a, n), P);
    CongSym(Power(a, n), PowP(a, n), P);
  }

  /** For u = x^2 v and v^(p-1) = 1 the candidate is x times its own power of (p-1)/4. */
  lemma CandidateIs(x: int, u: int, v: int)
    requires Cong(u, (x * x) * v, P) && Cong(Power(v, P - 1), 1, P)
    ensures Cong(CandidateRoot(u, v), x * Power(x, (P - 1) / 4), P)
  {
    hide Cong, Power, CandidateRoot;
    CubeClass(v);
    CandidateClass(u, v, (v * v) * v);
    BaseOfPower(x, u, v, P);
    var v3, v4 := (v * v) * v, (v * v) * (v * v);
    CandidateForm(x, v, v4, u * v3, ((v3 * v3) * v) * u, (P - 5) / 8, P);
    var c := (u * v3) * Power(((v3 * v3) * v) * u, (P - 5) / 8);
    var q := (P - 1) / 4;
    assert 2 * ((P - 5) / 8) + 2 == q + 1 && 8 * ((P - 5) / 8) + 4 == P - 1;
    CongTrans(CandidateRoot(u, v), c, Power(x, q + 1) * Power(v, P - 1), P);
    CongRefl(Power(x, q + 1), P);
    CongMul(Power(x, q + 1), Power(x, q + 1), Power(v, P - 1), 1, P);
    CongTrans(CandidateRoot(u, v), Power(x, q + 1) * Power(v, P - 1), Power(x, q + 1) * 1, P);
    PowerAdd(x, 1, q);
    SmallPowers(x);
  }

  /** k is one of 1, -1 and the two roots of -1. */
  predicate FourthRootOfOne(k: int) {
    k == 1 || k == -1 || k == SQRTM1 || k == -SQRTM1
  }

  /** x or its power of (p-1)/4 is what Fermat's theorem makes of it. */
  ghost predicate Rooted(x: int) {
    x == 0 || exists k :: FourthRootOfOne(k) && Cong(Power(x, (P - 1) / 4), k, P)
  }

  /** r is x or its negative. */
  ghost predicate UpToSign(r: int, x: int) {
    Cong(r, x, P) || Cong(r, -x, P)
  }

  lemma NegCong(a: int, b: int)
    requires Cong(a, b, P)
    ensures Cong(-a, -b, P)
  {
    hide Cong;
    CongRefl(0, P);
    CongSub(0, 0, a, b, P);
  }

  lemma SquareOfRoot(c: int, x: int, k: int, u: int, v: int, k2: int)
    requires Cong(c, x * k, P) && Cong(k * k, k2, P) && Cong(u, (x * x) * v, P)
    ensures Cong(MulP(MulP(c, c), v), k2 * u, P)
  {
    hide Cong, MulM;
    CongRefl(c, P);
    CongRefl(v, P);
    MulClass(c, c, c, c, P);
    MulClass(MulP(c, c), c * c, v, v, P);
    CongMul(c, x * k, c, x * k, P);
    CongMul(c * c, (x * k) * (x * k), v, v, P);
    RootRearrange(x, k, v);
    CongSym(u, (x * x) * v, P);
    CongMul((x * x) * v, u, k * k, k2, P);
    CongTrans(MulP(MulP(c, c), v), (c * c) * v, ((x * x) * v) * (k * k), P);
    CongTrans(MulP(MulP(c, c), v), ((x * x) * v) * (k * k), u * k2, P);
    assert u * k2 == k2 * u;
  }

  lemma SquaresOfRoots(k: int)
    requires FourthRootOfOne(k)
    ensures k == 1 || k == -1 ==> Cong(k * k, 1, P)
    ensures k == SQRTM1 || k == -SQRTM1 ==> Cong(k * k, -1, P)
  {
    hide Cong;
    if k == 1 || k == -1 {
      CongRefl(1, P);
    } else {
      Sqrtm1MeetsItsDefinition();
      SignsCancel(SQRTM1);
    }
  }

  lemma SignsCancel(k: int)
    ensures (-k) * (-k) == k * k
  {
  }

  lemma UnitSign(c: int, x: int, k: int)
    requires (k == 1 || k == -1) && Cong(c, x * k, P)
    ensures UpToSign(c, x)
  {
    assert x * k == x || x * k == -x;
  }

  lemma NegatedSquare(w: int, u: int)
    requires 0 < u < P && 0 <= w < P && Cong(w, -1 * u, P)
    ensures w == SubP(0, u) != u
  {
    hide Cong;
    NegativeResidue(u);
    CongSym(SubP(0, u), -u, P);
    CongTrans(w, -1 * u, SubP(0, u), P);
    CongSmall(w, SubP(0, u), P);
  }

  lemma NegativeResidue(u: int)
    requires 0 < u < P
    ensures SubP(0, u) == P - u && SubP(0, u) != u && Cong(SubP(0, u), -u, P)
  {
    CongBy(0 - u, P - u, P, -1);
    CongIffMod(0 - u, P - u, P);
    CongBy(P - u, -u, P, 1);
  }

  lemma TurnedClass(c: int, x: int, k: int)
    requires (k == SQRTM1 || k == -SQRTM1) && Cong(c, x * k, P)
    ensures UpToSign(MulP(c, SQRTM1), x)
  {
    hide Cong, MulM;
    CongRefl(SQRTM1, P);
    MulClass(c, x * k, SQRTM1, SQRTM1, P);
    Associate(x, k, SQRTM1);
    CongRefl(x, P);
    Sqrtm1MeetsItsDefinition();
    if k == SQRTM1 {
      CongMul(x, x, k * SQRTM1, -1, P);
      CongTrans(MulP(c, SQRTM1), x * (k * SQRTM1), x * -1, P);
      assert x * -1 == -x;
    } else {
      NegCong(SQRTM1 * SQRTM1, -1);
      NegatedFactor(SQRTM1);
      CongMul(x, x, k * SQRTM1, 1, P);
      CongTrans(MulP(c, SQRTM1), x * (k * SQRTM1), x * 1, P);
      assert x * 1 == x;
    }
  }

  lemma NegatedFactor(k: int)
    ensures (-k) * k == -(k * k)
  {
  }

  /** u is not zero unless x is: v is invertible. */
  lemma NonzeroSquare(x: int, v: int, k: int, u: int)
    requires Cong(u, (x * x) * v, P) && Cong(Power(v, P - 1), 1, P)
    requires FourthRootOfOne(k) && Cong(Power(x, (P - 1) / 4), k, P)
    ensures u != 0
  {
    hide Cong, Power;
    if u == 0 {
      SquareVanishes(x, v);
      PowerVanishes(x, (P - 1) / 4);
      CongSym(Power(x, (P - 1) / 4), k, P);
      CongTrans(k, Power(x, (P - 1) / 4), 0, P);
      RootsAreNotZero(k);
    }
  }

  lemma SquareVanishes(x: int, v: int)
    requires Cong(0, (x * x) * v, P) && Cong(Power(v, P - 1), 1, P)
    ensures Cong(x * x, 0, P)
  {
    hide Cong, Power;
    var w := Power(v, P - 2);
    PowerAdd(v, 1, P - 2);
    SmallPowers(v);
    CongRefl(x * x, P);
    CongMul(x * x, x * x, v * w, 1, P);
    CongSym((x * x) * (v * w), (x * x) * 1, P);
    Associate(x * x, v, w);
    CongRefl(w, P);
    CongMul(0, (x * x) * v, w, w, P);
    CongSym(0 * w, ((x * x) * v) * w, P);
    CongTrans(x * x, ((x * x) * v) * w, 0, P);
  }

  lemma PowerVanishes(x: int, n: nat)
    requires Cong(x * x, 0, P) && n >= 2
    ensures Cong(Power(x, n), 0, P)
  {
    hide Cong, Power;
    PowerAdd(x, 2, n - 2);
    SmallPowers(x);
    CongRefl(Power(x, n - 2), P);
    CongMul(x * x, 0, Power(x, n - 2), Power(x, n - 2), P);
  }

  lemma RootsAreNotZero(k: int)
    requires FourthRootOfOne(k)
    ensures !Cong(k, 0, P)
  {
    hide Cong;
    if Cong(k, 0, P) {
      if k < 0 {
        NegCong(k, 0);
        CongSmall(-k, 0, P);
      } else {
        CongSmall(k, 0, P);
      }
    }
  }

  /**
    The root test finds x or its negative: the candidate squares to u and is kept, or to -u, which is not
    u, and is turned by the root of -1.
   */
  lemma RootFound(x: int, u: int, v: int)
    requires 0 <= u < P && Cong(u, (x * x) * v, P) && Cong(Power(v, P - 1), 1, P) && Rooted(x)
    ensures RootOf(u, v).Some? && UpToSign(RootOf(u, v).value, x)
  {
    hide Cong, Power, CandidateRoot, MulM, SubM, UpToSign;
    CandidateIs(x, u, v);
    var c, q := CandidateRoot(u, v), Power(x, (P - 1) / 4);
    CongRefl(x, P);
    var k := 1;
    if x != 0 {
      k :| FourthRootOfOne(k) && Cong(q, k, P);
      CongMul(x, x, q, k, P);
      CongTrans(c, x * q, x * k, P);
    }
    var square := MulP(MulP(c, c), v);
    SquaresOfRoots(k);
    if k == 1 || k == -1 {
      SquareOfRoot(c, x, k, u, v, 1);
      CongSmall(square, u, P);
      UnitSign(c, x, k);
    } else {
      NonzeroSquare(x, v, k, u);
      SquareOfRoot(c, x, k, u, v, -1);
      NegatedSquare(square, u);
      TurnedClass(c, x, k);
    }
  }

  /** The root and the wanted sign give x. */
  lemma SignGives(r: int, x: int, sign: int)
    requires 0 <= r < P && 0 <= x < P && UpToSign(r, x) && sign == x % 2
    ensures !(r == 0 && sign == 1) && (if r % 2 != sign then SubP(0, r) else r) == x
  {
    hide Cong;
    if Cong(r, x, P) {
      CongSmall(r, x, P);
    } else if x == 0 {
      CongSmall(r, 0, P);
    } else {
      NegativeResidue(x);
      CongSym(SubP(0, x), -x, P);
      CongTrans(r, -x, SubP(0, x), P);
      CongSmall(r, SubP(0, x), P);
      NegativeResidue(r);
    }
  }

  lemma CurveTurned(x2: int, u: int, v: int, w: int, n: int)
    requires Cong(v, w, P) && Cong(u, n, P) && Cong(x2 * w, n, P)
    ensures Cong(u, x2 * v, P)
  {
    hide Cong;
    CongRefl(x2, P);
    CongMul(x2, x2, v, w, P);
    CongTrans(x2 * v, x2 * w, n, P);
    CongSym(x2 * v, n, P);
    CongTrans(u, n, x2 * v, P);
  }

  /**
    Every point of the curve is decoded from its string: the low 255 bits y, the top bit x's parity.
    Fermat's theorem enters only as what it says of v and of x.
   */
  lemma PointDecodes(s: seq<int>, x: int, y: int)
    requires |s| == 32 && Bytes(s) && 0 <= x < P && 0 <= y < P
    requires y == Value(s[31 := s[31] % 128]) && s[31] / 128 == x % 2
    requires Cong((x * x) * (D * (y * y) + 1), y * y - 1, P)
    requires Cong(Power(DenominatorV(y), P - 1), 1, P) && Rooted(x)
    ensures DecodeSpec(s) == Some((x, y))
  {
    hide Cong, Power, Value, Bytes, NumeratorU, DenominatorV, RootOf, Rooted, UpToSign, SubM;
    var u, v := NumeratorU(y), DenominatorV(y);
    NumeratorClass(y);
    CurveTurned(x * x, u, v, D * (y * y) + 1, y * y - 1);
    RootFound(x, u, v);
    RootIsRoot(u, v);
    SignGives(RootOf(u, v).value, x, s[31] / 128);
  }

  /** Fermat's theorem for p, the one fact about primes that is taken for granted where it is named. */
  ghost predicate Fermat() {
    forall a :: FermatAt(a)
  }

  ghost predicate FermatAt(a: int) {
    Cong(a, 0, P) || Cong(Power(a, P - 1), 1, P)
  }

  lemma NoZeroDivisors(a: int, b: int)
    requires Fermat() && Cong(a * b, 0, P)
    ensures Cong(a, 0, P) || Cong(b, 0, P)
  {
    hide Cong, Power;
    assert FermatAt(a);
    if !Cong(a, 0, P) {
      var w := Power(a, P - 2);
      PowerAdd(a, 1, P - 2);
      SmallPowers(a);
      CongRefl(b, P);
      CongMul(a * w, 1, b, b, P);
      CongSym((a * w) * b, 1 * b, P);
      CongRefl(w, P);
      CongMul(a * b, 0, w, w, P);
      SwapFactors(a, w, b);
      CongTrans(b, (a * b) * w, 0, P);
    }
  }

  lemma SwapFactors(a: int, w: int, b: int)
    ensures (a * w) * b == (a * b) * w
  {
  }

  /** A difference that vanishes is a congruence. */
  lemma FromDifference(a: int, b: int)
    requires Cong(a - b, 0, P)
    ensures Cong(a, b, P)
  {
    hide Cong;
    CongRefl(b, P);
    CongAdd(a - b, 0, b, b, P);
  }

  lemma ToDifference(a: int, b: int)
    requires Cong(a, b, P)
    ensures Cong(a - b, 0, P)
  {
    hide Cong;
    CongRefl(b, P);
    CongSub(a, b, b, b, P);
  }

  /** Only two numbers square to the square of c. */
  lemma TwoRoots(j: int, c: int, c2: int)
    requires Fermat() && Cong(j * j, c2, P) && Cong(c * c, c2, P)
    ensures Cong(j, c, P) || Cong(j, -c, P)
  {
    hide Cong, Fermat;
    CongSub(j * j, c2, c * c, c2, P);
    DifferenceOfSquares(j, c);
    NoZeroDivisors(j - c, j + c);
    if Cong(j - c, 0, P) {
      FromDifference(j, c);
    } else {
      FromDifference(j, -c);
    }
  }

  lemma DifferenceOfSquares(j: int, c: int)
    ensures j * j - c * c == (j - c) * (j + c)
  {
  }

  lemma FermatRoots(x: int)
    requires Fermat() && 0 <= x < P
    ensures Rooted(x)
  {
    hide Cong, Power, Fermat;
    if x != 0 {
      var q := (P - 1) / 4;
      var j := Power(x, q);
      NonzeroAt(x);
      PowerAdd(x, q, q);
      PowerAdd(x, 2 * q, 2 * q);
      CongRefl(1, P);
      TwoRoots(j * j, 1, 1);
      if Cong(j * j, 1, P) {
        TwoRoots(j, 1, 1);
        assert FourthRootOfOne(1) && FourthRootOfOne(-1);
      } else {
        Sqrtm1MeetsItsDefinition();
        TwoRoots(j, SQRTM1, -1);
        assert FourthRootOfOne(SQRTM1) && FourthRootOfOne(-SQRTM1);
      }
    }
  }

  lemma NonzeroAt(x: int)
    requires Fermat() && 0 < x < P
    ensures Cong(Power(x, P - 1), 1, P)
  {
    hide Cong, Power;
    assert FermatAt(x);
    if Cong(x, 0, P) {
      CongSmall(x, 0, P);
    }
  }

  /** The denominator of a point's x never vanishes. */
  lemma DenominatorNonzero(x: int, y: int)
    requires Cong((x * x) * (D * (y * y) + 1), y * y - 1, P)
    ensures !Cong(DenominatorV(y), 0, P)
  {
    hide Cong, NumeratorU, DenominatorV;
    NumeratorClass(y);
    if Cong(DenominatorV(y), 0, P) {
      var w := D * (y * y) + 1;
      CongSym(DenominatorV(y), w, P);
      CongTrans(w, DenominatorV(y), 0, P);
      CongRefl(x * x, P);
      CongMul(x * x, x * x, w, 0, P);
      CongSym((x * x) * w, y * y - 1, P);
      CongTrans(y * y - 1, (x * x) * w, 0, P);
      FromDifference(y * y, 1);
      CongRefl(D, P);
      CongMul(D, D, y * y, 1, P);
      CongRefl(1, P);
      CongAdd(D * (y * y), D, 1, 1, P);
      CongSym(w, D + 1, P);
      CongTrans(D + 1, w, 0, P);
      CongSmall(D + 1, 0, P);
    }
  }

  /**
    Given Fermat's theorem for p: a string decodes to (x, y) exactly when y is its low 255 bits, below p,
    x is below p with the parity of the top bit, and (x, y) is on the curve.
   */
  lemma DecodesIff(s: seq<int>, x: int, y: int)
    requires Fermat() && |s| == 32 && Bytes(s)
    ensures DecodeSpec(s) == Some((x, y)) <==>
              && 0 <= x < P && 0 <= y < P && y == Value(s[31 := s[31] % 128]) && s[31] / 128 == x % 2
              && Cong((x * x) * (D * (y * y) + 1), y * y - 1, P)
  {
    hide Cong, Power, Value, Bytes, Fermat, DecodeSpec, NumeratorU, DenominatorV, RootOf, SubM;
    if DecodeSpec(s) == Some((x, y)) {
      DecodeParts(s);
      DecodedOnCurve(s);
      AcceptedOnCurve(s, x, y);
    } else if && 0 <= x < P && 0 <= y < P && y == Value(s[31 := s[31] % 128]) && s[31] / 128 == x % 2
              && Cong((x * x) * (D * (y * y) + 1), y * y - 1, P) {
      FermatRoots(x);
      DenominatorNonzero(x, y);
      assert Cong(Power(DenominatorV(y), P - 1), 1, P) by { FermatHere(DenominatorV(y)); }
      PointDecodes(s, x, y);
    }
  }

  lemma FermatHere(a: int)
    requires Fermat() && !Cong(a, 0, P)
    ensures Cong(Power(a, P - 1), 1, P)
  {
    hide Cong, Power;
    assert FermatAt(a);
  }

  lemma AcceptedOnCurve(s: seq<int>, x: int, y: int)
    requires |s| == 32 && Bytes(s) && DecodeSpec(s) == Some((x, y))
    ensures Cong((x * x) * (D * (y * y) + 1), y * y - 1, P)
  {
    hide Cong, Value, Bytes, DecodeSpec, RootOf, NumeratorU, DenominatorV, SubM;
    DecodeParts(s);
    var u, v := NumeratorU(y), DenominatorV(y);
    NumeratorClass(y);
    RootIsRoot(u, v);
    NegatedRoot(RootOf(u, v).value, x, v, u);
    CongRefl(x * x, P);
    CongMul(x * x, x * x, v, D * (y * y) + 1, P);
    CongSym((x * x) * v, (x * x) * (D * (y * y) + 1), P);
    CongTrans((x * x) * (D * (y * y) + 1), (x * x) * v, u, P);
    CongTrans((x * x) * (D * (y * y) + 1), u, y * y - 1, P);
  }

  /** However a point is scaled, what is written is its y and the parity of its x. */
  lemma EncodedScaled(p: Ext, x: int, y: int)
    requires 0 <= x < P && 0 <= y < P && Cong(Power(p.z, P - 1), 1, P)
    requires Cong(p.x, x * p.z, P) && Cong(p.y, y * p.z, P)
    ensures EncodedValue(p) == y + (x % 2) * (TWO_256 / 2)
  {
    hide Cong, Power, MulM, PowP;
    Unscaled(p.x, x, p.z);
    Unscaled(p.y, y, p.z);
  }

  lemma Unscaled(a: int, x: int, z: int)
    requires 0 <= x < P && Cong(a, x * z, P) && Cong(Power(z, P - 1), 1, P)
    ensures MulP(a, PowP(z, P - 2)) == x
  {
    hide Cong, Power, MulM, PowP;
    var w := Power(z, P - 2);
    PowClass(z, P - 2);
    PowerAdd(z, 1, P - 2);
    SmallPowers(z);
    MulClass(a, x * z, PowP(z, P - 2), w, P);
    Associate(x, z, w);
    CongRefl(x, P);
    CongMul(x, x, z * w, 1, P);
    CongTrans(MulP(a, PowP(z, P - 2)), x * (z * w), x * 1, P);
    CongSmall(MulP(a, PowP(z, P - 2)), x, P);
  }
}
