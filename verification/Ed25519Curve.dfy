/** The curve of section 5.1 of RFC 8032 and the encoding of its points. */
module Ed25519Curve {
  import opened Congruence
  import opened LittleEndian
  import opened Ed25519Field
  import opened EdwardsLaw
  import opened EdwardsPoints
  import opened Wrappers

  const D: int := 0x52036CEE2B6FFE73_8CC740797779E898_00700A4D4141D8AB_75EB4DCA135978A3
  const SQRTM1: int := 0x2B8324804FC1DF0B_2B4D00993DFBD7A7_2F431806AD2FE478_C4EE1B274A0EA0B0
  const BASE_X: int := 0x216936D3CD6E53FE_C0A4E231FDD6DC5C_692CC7609525A7B2_C9562D608F25D51A
  const BASE_Y: int := 0x6666666666666666_6666666666666666_6666666666666666_6666666666666658

  const ED25519 := Curve(D, P)

  const D_BYTES: seq<u8> := [
    0xA3, 0x78, 0x59, 0x13, 0xCA, 0x4D, 0xEB, 0x75,
    0xAB, 0xD8, 0x41, 0x41, 0x4D, 0x0A, 0x70, 0x00,
    0x98, 0xE8, 0x79, 0x77, 0x79, 0x40, 0xC7, 0x8C,
    0x73, 0xFE, 0x6F, 0x2B, 0xEE, 0x6C, 0x03, 0x52]

  const SQRTM1_BYTES: seq<u8> := [
    0xB0, 0xA0, 0x0E, 0x4A, 0x27, 0x1B, 0xEE, 0xC4,
    0x78, 0xE4, 0x2F, 0xAD, 0x06, 0x18, 0x43, 0x2F,
    0xA7, 0xD7, 0xFB, 0x3D, 0x99, 0x00, 0x4D, 0x2B,
    0x0B, 0xDF, 0xC1, 0x4F, 0x80, 0x24, 0x83, 0x2B]

  const BASE_X_BYTES: seq<u8> := [
    0x1A, 0xD5, 0x25, 0x8F, 0x60, 0x2D, 0x56, 0xC9,
    0xB2, 0xA7, 0x25, 0x95, 0x60, 0xC7, 0x2C, 0x69,
    0x5C, 0xDC, 0xD6, 0xFD, 0x31, 0xE2, 0xA4, 0xC0,
    0xFE, 0x53, 0x6E, 0xCD, 0xD3, 0x36, 0x69, 0x21]

  const BASE_Y_BYTES: seq<u8> := [
    0x58, 0x66, 0x66, 0x66, 0x66, 0x66, 0x66, 0x66,
    0x66, 0x66, 0x66, 0x66, 0x66, 0x66, 0x66, 0x66,
    0x66, 0x66, 0x66, 0x66, 0x66, 0x66, 0x66, 0x66,
    0x66, 0x66, 0x66, 0x66, 0x66, 0x66, 0x66, 0x66]

  /** A table of 32 bytes, read as four 64-bit words. */
  lemma TableValue(s: seq<int>, v: int)
    requires |s| == 32
    requires v == Eight(s, 0) + 0x1_0000000000000000 * Eight(s, 8)
      + 0x1_0000000000000000_0000000000000000 * Eight(s, 16)
      + 0x1_0000000000000000_0000000000000000_0000000000000000 * Eight(s, 24)
    ensures Value(s) == v
  {
    EightDigits(s, 0);
    EightDigits(s, 8);
    EightDigits(s, 16);
    EightDigits(s, 24);
    assert s[0..] == s && s[32..] == [];
  }

  function Eight(s: seq<int>, i: nat): int
    requires i + 8 <= |s|
  {
    s[i] + 0x100 * s[i + 1] + 0x1_0000 * s[i + 2] + 0x100_0000 * s[i + 3]
      + 0x1_0000_0000 * s[i + 4] + 0x100_0000_0000 * s[i + 5]
      + 0x1_0000_0000_0000 * s[i + 6] + 0x100_0000_0000_0000 * s[i + 7]
  }

  lemma EightDigits(s: seq<int>, i: nat)
    requires i + 8 <= |s|
    ensures Value(s[i..]) == Eight(s, i) + 0x1_0000000000000000 * Value(s[i + 8..])
  {
    OneDigit(s, i);
    OneDigit(s, i + 1);
    OneDigit(s, i + 2);
    OneDigit(s, i + 3);
    OneDigit(s, i + 4);
    OneDigit(s, i + 5);
    OneDigit(s, i + 6);
    OneDigit(s, i + 7);
  }

  lemma OneDigit(s: seq<int>, i: nat)
    requires i < |s|
    ensures Value(s[i..]) == s[i] + 256 * Value(s[i + 1..])
  {
    assert s[i..][1..] == s[i + 1..];
  }

  /** The tables hold the constants of section 5.1 of RFC 8032. */
  lemma DTable()
    ensures Value(D_BYTES) == D
  {
    hide Value;
    TableValue(D_BYTES, D);
  }

  lemma Sqrtm1Table()
    ensures Value(SQRTM1_BYTES) == SQRTM1
  {
    hide Value;
    TableValue(SQRTM1_BYTES, SQRTM1);
  }

  lemma BaseTables()
    ensures Value(BASE_X_BYTES) == BASE_X && Value(BASE_Y_BYTES) == BASE_Y
  {
    hide Value;
    TableValue(BASE_X_BYTES, BASE_X);
    TableValue(BASE_Y_BYTES, BASE_Y);
  }

  /** d = -121665/121666. */
  lemma DMeetsItsDefinition()
    ensures Cong(121666 * D, -121665, P)
  {
    hide Cong;
    CongBy(121666 * D, -121665, P, 0x0000000000013083);
  }

  /** The stored root squares to -1. */
  lemma Sqrtm1MeetsItsDefinition()
    ensures Cong(SQRTM1 * SQRTM1, -1, P)
  {
    hide Cong;
    CongBy(SQRTM1 * SQRTM1, -1, P,
      0x0ECAA2E2F6A2302C_CEDB31AC05720688_238CED2078F3EB0E_C9F22E8F621972E5);
  }

  /** The base point has y = 4/5 and x even, both below p. */
  lemma BaseMeetsItsDefinition()
    ensures Cong(5 * BASE_Y, 4, P) && BASE_X % 2 == 0
    ensures 0 < BASE_X < P && 0 < BASE_Y < P
  {
    hide Cong;
    CongBy(5 * BASE_Y, 4, P, 0x0000000000000004);
  }

  lemma BaseOnCurve()
    ensures Cong(BASE_Y * BASE_Y - BASE_X * BASE_X, 1 + D * (BASE_X * BASE_X) * (BASE_Y * BASE_Y), P)
  {
    hide Cong;
    var q := -0x0072705895B7FD68_A9FA7924F5DBF66A_83342931BFA505F5_C01A65246A2283B5_BDEFAC6A6F236898_302E8ED7C7DF6836_05C40A4C5BAD89DC_F0C8E913ECC5B282_A35CFC55550DB4BE_5E6BD6246E4A4EA2_054904F5E4438FA4_2B0E56E116EA5951_CFEB87ECFC5B5507_44D2C0FCA4A89EC7_07DE8B3C9A756EB8_0E7EC260DC2FDA59;
    CongBy(BASE_Y * BASE_Y - BASE_X * BASE_X, 1 + D * (BASE_X * BASE_X) * (BASE_Y * BASE_Y), P, q);
  }

  /** x^2 = u/v on the curve with this y. */
  function NumeratorU(y: int): int {
    SubP(MulP(y, y), 1)
  }

  function DenominatorV(y: int): int {
    AddP(MulP(D, MulP(y, y)), 1)
  }

  /** u v^3 (u v^7)^((p-5)/8), section 5.1.3 step 3 of RFC 8032. */
  function CandidateRoot(u: int, v: int): (x: int)
    ensures 0 <= x < P
  {
    var v3 := MulP(MulP(v, v), v);
    var v7u := MulP(MulP(MulP(v3, v3), v), u);
    MulP(MulP(u, v3), PowP(v7u, (P - 5) / 8))
  }

  function RootOf(u: int, v: int): Option<int> {
    var x := CandidateRoot(u, v);
    var vx2 := MulP(MulP(x, x), v);
    if vx2 == u then Some(x)
    else if vx2 == SubP(0, u) then Some(MulP(x, SQRTM1))
    else None
  }

  /** The affine point a 32-byte string decodes to, or a refusal. */
  function DecodeSpec(s: seq<int>): Option<(int, int)>
    requires |s| == 32
  {
    var y := Value(s[31 := s[31] % 128]);
    var sign := s[31] / 128;
    if y >= P then None
    else
      match RootOf(NumeratorU(y), DenominatorV(y))
      case None => None
      case Some(x) =>
        if x == 0 && sign == 1 then None
        else if x % 2 != sign then Some((SubP(0, x), y))
        else Some((x, y))
  }

  /** The number the encoding of a point is: y, with the low bit of x at bit 255. */
  function EncodedValue(p: Ext): int {
    var zi := PowP(p.z, P - 2);
    MulP(p.y, zi) + (MulP(p.x, zi) % 2) * (TWO_256 / 2)
  }

  /** Both branches of the root test give a root of u/v. */
  lemma RootIsRoot(u: int, v: int)
    requires RootOf(u, v).Some? && 0 <= u < P
    ensures 0 <= RootOf(u, v).value < P
    ensures Cong((RootOf(u, v).value * RootOf(u, v).value) * v, u, P)
  {
    var x := CandidateRoot(u, v);
    hide Cong, CandidateRoot;
    CongRefl(x, P);
    CongRefl(v, P);
    MulClass(x, x, x, x, P);
    MulClass(MulP(x, x), x * x, v, v, P);
    var vx2 := MulP(MulP(x, x), v);
    CongSym(vx2, (x * x) * v, P);
    if vx2 != u {
      CongRefl(0, P);
      CongRefl(u, P);
      CongRefl(SQRTM1, P);
      SubClass(0, 0, u, u, P);
      CongTrans((x * x) * v, vx2, 0 - u, P);
      var r := MulP(x, SQRTM1);
      MulClass(x, x, SQRTM1, SQRTM1, P);
      CongMul(r, x * SQRTM1, r, x * SQRTM1, P);
      CongMul(r * r, (x * SQRTM1) * (x * SQRTM1), v, v, P);
      Sqrtm1MeetsItsDefinition();
      CongMul((x * x) * v, -u, SQRTM1 * SQRTM1, -1, P);
      RootRearrange(x, SQRTM1, v);
      CongTrans((r * r) * v, ((x * x) * v) * (SQRTM1 * SQRTM1), (-u) * -1, P);
    }
  }

  lemma RootRearrange(x: int, i: int, v: int)
    ensures ((x * i) * (x * i)) * v == ((x * x) * v) * (i * i)
  {
    Regroup(x, i, x, i);
    Regroup(x * x, v, i * i, 1);
    Regroup(x * x, i * i, v, 1);
    Regroup(x * x, i * i, 1, v);
  }

  /** p is odd, so negating a nonzero residue changes its parity. */
  lemma ParityFlip(r: int)
    requires 0 <= r < P
    ensures r != 0 ==> SubP(0, r) % 2 != r % 2
  {
    if r != 0 {
      CongBy(0 - r, P - r, P, -1);
      CongIffMod(0 - r, P - r, P);
      assert SubP(0, r) == P - r;
    }
  }

  lemma SignMatches(root: int, sign: int)
    requires 0 <= root < P && 0 <= sign <= 1 && !(root == 0 && sign == 1)
    ensures (if root % 2 != sign then SubP(0, root) else root) % 2 == sign
  {
    hide SubP;
    ParityFlip(root);
  }

  lemma LowHalf(s: seq<int>)
    requires |s| == 32 && Bytes(s)
    ensures 0 <= Value(s[31 := s[31] % 128]) && 0 <= s[31] / 128 <= 1
  {
    hide Value;
    BytesBound(s[31 := s[31] % 128]);
  }

  /** What an accepted string says: y below p, a root of u/v, and its sign made to match. */
  lemma DecodeParts(s: seq<int>)
    requires |s| == 32 && Bytes(s) && DecodeSpec(s).Some?
    ensures var (x, y) := DecodeSpec(s).value;
            var root := RootOf(NumeratorU(y), DenominatorV(y));
            && y == Value(s[31 := s[31] % 128]) && 0 <= y < P && x % 2 == s[31] / 128
            && root.Some? && (x == root.value || x == SubP(0, root.value))
  {
    hide Value, Bytes, RootOf, NumeratorU, DenominatorV, Cong, SubP;
    LowHalf(s);
    var y := Value(s[31 := s[31] % 128]);
    NumeratorClass(y);
    RootIsRoot(NumeratorU(y), DenominatorV(y));
    SignMatches(RootOf(NumeratorU(y), DenominatorV(y)).value, s[31] / 128);
  }

  /** Whatever decodes is a point of the curve with y below p and x of the encoded parity. */
  lemma DecodedOnCurve(s: seq<int>)
    requires |s| == 32 && Bytes(s) && DecodeSpec(s).Some?
    ensures var (x, y) := DecodeSpec(s).value;
            && 0 <= x < P && 0 <= y < P && x % 2 == s[31] / 128
            && PointOnCurve(ED25519, Ext(x, y, 1, MulP(x, y)))
  {
    hide Value, Bytes, Cong, MulM, SubM, PointOnCurve, DecodeSpec, RootOf, NumeratorU, DenominatorV;
    var (x, y) := DecodeSpec(s).value;
    DecodeParts(s);
    var u, v := NumeratorU(y), DenominatorV(y);
    NumeratorClass(y);
    RootIsRoot(u, v);
    NegatedRoot(RootOf(u, v).value, x, v, u);
    CurveFromRoot(ED25519, x, y, u, v);
  }

  lemma NumeratorClass(y: int)
    ensures 0 <= NumeratorU(y) < P
    ensures Cong(NumeratorU(y), y * y - 1, P)
    ensures Cong(DenominatorV(y), D * (y * y) + 1, P)
  {
    hide Cong;
    CongRefl(y, P);
    CongRefl(1, P);
    CongRefl(D, P);
    MulClass(y, y, y, y, P);
    SubClass(MulP(y, y), y * y, 1, 1, P);
    MulClass(D, D, MulP(y, y), y * y, P);
    AddClass(MulP(D, MulP(y, y)), D * (y * y), 1, 1, P);
  }

  lemma NegatedRoot(r: int, x: int, v: int, u: int)
    requires x == r || x == SubP(0, r)
    requires Cong((r * r) * v, u, P)
    ensures Cong((x * x) * v, u, P)
  {
    hide Cong;
    if x != r {
      CongRefl(0, P);
      CongRefl(r, P);
      CongRefl(v, P);
      SubClass(0, 0, r, r, P);
      CongMul(x, -r, x, -r, P);
      assert (-r) * (-r) == r * r;
      CongMul(x * x, r * r, v, v, P);
      CongTrans((x * x) * v, (r * r) * v, u, P);
    }
  }

  /** The base point as the code loads it is on the curve. */
  lemma BasePointOnCurve()
    ensures PointOnCurve(ED25519, Ext(BASE_X, BASE_Y, 1, MulP(BASE_X, BASE_Y)))
  {
    hide Cong, MulM, PointOnCurve;
    BaseOnCurve();
    AffineOnCurve(ED25519, BASE_X, BASE_Y);
  }

  /** Encoding what a string decoded to gives the string's own number back. */
  lemma EncodeOfDecode(s: seq<int>)
    requires |s| == 32 && Bytes(s) && DecodeSpec(s).Some?
    ensures var (x, y) := DecodeSpec(s).value;
            EncodedValue(Ext(x, y, 1, MulP(x, y))) == Value(s)
  {
    hide *;
    DecodeParts(s);
    DecodedOnCurve(s);
    var (x, y) := DecodeSpec(s).value;
    EncodedUnit(x, y, MulP(x, y));
    SplitTop(s);
  }

  lemma EncodedUnit(x: int, y: int, t: int)
    requires 0 <= x < P && 0 <= y < P
    ensures EncodedValue(Ext(x, y, 1, t)) == y + (x % 2) * (TWO_256 / 2)
  {
    hide Power;
    PowerOne(P - 2);
    assert PowP(1, P - 2) == 1;
  }

  lemma SplitTop(s: seq<int>)
    requires |s| == 32 && Bytes(s)
    ensures Value(s) == Value(s[31 := s[31] % 128]) + (s[31] / 128) * (TWO_256 / 2)
  {
    hide Value;
    TopUpdate(s, s[31] % 128);
  }

  /** What the encoder writes for a decoded point is the string itself, byte for byte. */
  lemma EncodeReproduces(s: seq<int>, out: seq<int>)
    requires |s| == |out| == 32 && Bytes(s) && Bytes(out) && DecodeSpec(s).Some?
    requires var (x, y) := DecodeSpec(s).value; Value(out) == EncodedValue(Ext(x, y, 1, MulP(x, y)))
    ensures out == s
  {
    hide DecodeSpec, EncodedValue, MulM;
    EncodeOfDecode(s);
    ValueInjective(out, s);
  }

  /** Each point has at most one accepted encoding. */
  lemma DecodeInjective(s: seq<int>, t: seq<int>)
    requires |s| == |t| == 32 && Bytes(s) && Bytes(t)
    requires DecodeSpec(s).Some? && DecodeSpec(s) == DecodeSpec(t)
    ensures s == t
  {
    hide Value;
    EncodeOfDecode(s);
    EncodeOfDecode(t);
    ValueInjective(s, t);
  }
}
