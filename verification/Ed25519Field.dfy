/** Field arithmetic modulo p = 2^255 - 19 on 32 limbs of radix 256 held in 32-bit words, in place. */
module Ed25519Field {
  import opened Congruence
  import opened LittleEndian
  import opened BitString

  const P: int := 0x7FFFFFFFFFFFFFFF_FFFFFFFFFFFFFFFF_FFFFFFFFFFFFFFFF_FFFFFFFFFFFFFFED

  /** The ring of residues modulo p, each below p. */
  function AddP(a: int, b: int): (r: int)
    ensures 0 <= r < P
  {
    AddM(a, b, P)
  }

  function SubP(a: int, b: int): (r: int)
    ensures 0 <= r < P
  {
    SubM(a, b, P)
  }

  function MulP(a: int, b: int): (r: int)
    ensures 0 <= r < P
  {
    MulM(a, b, P)
  }

  /** The field element an array of limbs stands for. */
  ghost function F(a: array<u32>): (r: int)
    reads a
    ensures 0 <= r < P
  {
    Value(a[..]) % P
  }

  /** The form every operation leaves an element in and relies on. */
  predicate Carried(s: seq<int>) {
    |s| == 32 && 0 <= s[0] <= 293 && forall i :: 1 <= i < 32 ==> 0 <= s[i] <= 255
  }

  /** What one carry pass leaves in limb 0 and in the whole element. */
  ghost predicate PassResult(v: int, s: seq<int>) {
    && |s| == 32
    && Value(s) == v % TWO_256 + 38 * (v / TWO_256)
    && s[0] == v % 256 + 38 * (v / TWO_256)
    && forall i :: 1 <= i < 32 ==> 0 <= s[i] <= 255
  }

  lemma RippleDone(r: seq<int>, v: int, carry: int)
    requires |r| == 32 && Bytes(r)
    requires v == Value(r) + carry * TWO_256
    ensures carry == v / TWO_256 && Value(r) == v % TWO_256 && r[0] == v % 256
  {
    hide Value;
    BytesBound(r);
    Pow32();
    FirstByte(r);
    DivideBy(v, Value(r), carry, TWO_256);
    DivideBy(v, r[0], Value(r[1..]) + carry * (TWO_256 / 256), 256);
  }

  lemma FirstByte(r: seq<int>)
    requires |r| > 0
    ensures Value(r) == r[0] + 256 * Value(r[1..])
  {
  }

  lemma TopUpdate(s: seq<int>, v: int)
    requires |s| == 32
    ensures Value(s[31 := v]) == Value(s) + (v - s[31]) * (TWO_256 / 256)
  {
    Pow32();
    ValueUpdate(s, 31, v);
  }

  /** One carry pass: ripple each limb's excess upwards, fold the top carry back at 38 a unit. */
  method CarryPass(a: array<u32>)
    requires a.Length == 32
    requires forall i :: 0 <= i < 32 ==> a[i] < 0x8000_0000
    modifies a
    ensures PassResult(old(Value(a[..])), a[..])
  {
    ghost var v := Value(a[..]);
    for i := 0 to 31
      invariant forall j :: 0 <= j < i ==> a[j] <= 255
      invariant a[i] < 0x8100_0000
      invariant forall j :: i < j < 32 ==> a[j] < 0x8000_0000
      invariant Value(a[..]) == v
    {
      ghost var before := a[..];
      var carry := a[i] / 256;
      a[i] := a[i] % 256;
      a[i + 1] := a[i + 1] + carry;
      ValueMove(before, i, carry);
      assert a[..] == before[i := before[i] - 256 * carry][i + 1 := before[i + 1] + carry];
    }
    ghost var before := a[..];
    var carry := a[31] / 256;
    a[31] := a[31] % 256;
    ghost var rippled := a[..];
    assert rippled == before[31 := before[31] - 256 * carry];
    TopUpdate(before, before[31] - 256 * carry);
    RippleDone(rippled, v, carry);
    a[0] := a[0] + carry * 38;
    assert a[..] == rippled[0 := rippled[0] + carry * 38];
    ValueUpdate(rippled, 0, rippled[0] + carry * 38);
  }

  /** A pass changes the value by a multiple of P only. */
  lemma PassKeepsClass(v: int, w: int)
    requires w == v % TWO_256 + 38 * (v / TWO_256)
    ensures Cong(w, v, P)
  {
    CongBy(w, v, P, -2 * (v / TWO_256));
  }

  /** Top carry and whole value after a pass over limbs below 2^31. */
  lemma FirstPass(s: seq<int>, t: seq<int>)
    requires |s| == 32 && forall i :: 0 <= i < 32 ==> 0 <= s[i] < 0x8000_0000
    requires PassResult(Value(s), t)
    ensures forall i :: 0 <= i < 32 ==> 0 <= t[i] < 0x8000_0000
    ensures 0 <= Value(t) < TWO_256 + 0x4000_0000
  {
    ValueBound(s, 0x7FFF_FFFF);
    Pow32();
    assert 0 <= Value(s) / TWO_256 < 0x100_0000;
  }

  lemma SecondPass(v: int, u: seq<int>)
    requires 0 <= v < TWO_256 + 0x4000_0000 && PassResult(v, u)
    ensures Carried(u)
  {
    assert 0 <= v / TWO_256 <= 1;
  }

  /** Two passes bring any limbs below 2^31 to the carried form, in the same residue class. */
  lemma TwoPassesSuffice(s: seq<int>, t: seq<int>, u: seq<int>)
    requires |s| == 32 && forall i :: 0 <= i < 32 ==> 0 <= s[i] < 0x8000_0000
    requires PassResult(Value(s), t) && PassResult(Value(t), u)
    ensures forall i :: 0 <= i < 32 ==> 0 <= t[i] < 0x8000_0000
    ensures Carried(u) && Cong(Value(u), Value(s), P)
  {
    hide Value, Cong, Carried;
    FirstPass(s, t);
    SecondPass(Value(t), u);
    PassKeepsClass(Value(s), Value(t));
    PassKeepsClass(Value(t), Value(u));
    CongTrans(Value(u), Value(t), Value(s), P);
  }

  /** Any limbs below 2^31 come out carried, in the same residue class. */
  method Carry(a: array<u32>)
    requires a.Length == 32
    requires forall i :: 0 <= i < 32 ==> a[i] < 0x8000_0000
    modifies a
    ensures Carried(a[..])
    ensures Cong(Value(a[..]), old(Value(a[..])), P)
  {
    ghost var s := a[..];
    CarryPass(a);
    ghost var t := a[..];
    FirstPass(s, t);
    assert forall i :: 0 <= i < 32 ==> a[i] == t[i];
    CarryPass(a);
    TwoPassesSuffice(s, t, a[..]);
  }

  /** out = a + b; out may alias an input. */
  method FeAdd(out: array<u32>, a: array<u32>, b: array<u32>)
    requires out.Length == a.Length == b.Length == 32
    requires Carried(a[..]) && Carried(b[..])
    modifies out
    ensures Carried(out[..])
    ensures F(out) == AddP(old(F(a)), old(F(b)))
  {
    ghost var s, t := a[..], b[..];
    for i := 0 to 32
      invariant forall j :: 0 <= j < i ==> out[j] == s[j] + 1 * t[j]
      invariant forall j :: i <= j < 32 ==> a[j] == s[j] && b[j] == t[j]
    {
      out[i] := a[i] + b[i];
    }
    ValueLinear(out[..], s, t, 1);
    Carry(out);
    AddResidue(Value(out[..]), Value(s), Value(t), P);
  }

  /** The limbs of 8p, each at least as large as any carried limb. */
  function EightP(i: nat): u32 {
    if i == 0 then 0x768 else if i == 31 then 0x3F8 else 0x7F8
  }

  lemma {:induction false} Repeated(s: seq<int>, b: int)
    requires forall i :: 0 <= i < |s| ==> s[i] == b
    ensures 255 * Value(s) == b * (Pow256(|s|) - 1)
  {
    if s != [] {
      Repeated(s[1..], b);
      BoundStep(b, Pow256(|s| - 1));
    }
  }

  /** Thirty equal limbs between a low and a high one. */
  lemma FramedValue(s: seq<int>, low: int, mid: int, high: int)
    requires |s| == 32 && s[0] == low && s[31] == high
    requires forall i :: 1 <= i < 31 ==> s[i] == mid
    ensures 255 * Value(s) == 255 * low + mid * (TWO_256 / 256 - 256) + 255 * high * (TWO_256 / 256)
  {
    var m := s[1..31];
    assert s == [low] + (m + [high]);
    ValueConcat([low], m + [high]);
    ValueConcat(m, [high]);
    Repeated(m, mid);
    PowAdd(1, 30);
    PowAdd(1, 31);
    Pow32();
    assert Value([low]) == low && Value([high]) == high;
    assert Pow256(1) == 256;
    FrameArithmetic(Value(m), Pow256(30), mid, high);
  }

  lemma FrameArithmetic(v: int, w: int, mid: int, high: int)
    requires 255 * v == mid * (w - 1)
    ensures 255 * (256 * (v + w * high)) == mid * (256 * w - 256) + 255 * high * (256 * w)
  {
    calc {
      255 * (256 * (v + w * high));
      256 * (255 * v) + 255 * 256 * (w * high);
      256 * (mid * (w - 1)) + 255 * 256 * (w * high);
    }
  }

  lemma EightPValue(s: seq<int>)
    requires |s| == 32 && forall i :: 0 <= i < 32 ==> s[i] == EightP(i)
    ensures Value(s) == 8 * P
  {
    FramedValue(s, 0x768, 0x7F8, 0x3F8);
  }

  /** out = a - b, computed as a + 8p - b limb by limb; out may alias an input. */
  method FeSub(out: array<u32>, a: array<u32>, b: array<u32>)
    requires out.Length == a.Length == b.Length == 32
    requires Carried(a[..]) && Carried(b[..])
    modifies out
    ensures Carried(out[..])
    ensures F(out) == SubP(old(F(a)), old(F(b)))
  {
    ghost var s, t := a[..], b[..];
    ghost var bias: seq<int> := seq(32, i requires 0 <= i < 32 => EightP(i));
    for i := 0 to 32
      invariant forall j :: 0 <= j < i ==> out[j] == s[j] + EightP(j) - t[j]
      invariant forall j :: i <= j < 32 ==> a[j] == s[j] && b[j] == t[j]
    {
      out[i] := a[i] + EightP(i) - b[i];
    }
    ghost var sum: seq<int> := seq(32, i requires 0 <= i < 32 => s[i] + 1 * bias[i]);
    ValueLinear(sum, s, bias, 1);
    ValueLinear(out[..], sum, t, -1);
    EightPValue(bias);
    ghost var raw := Value(out[..]);
    assert raw == Value(s) + 8 * P - Value(t);
    CongBy(raw, Value(s) - Value(t), P, 8);
    Carry(out);
    CongTrans(Value(out[..]), raw, Value(s) - Value(t), P);
    SubResidue(Value(out[..]), Value(s), Value(t), P);
  }

  const LIMB_PRODUCT := 293 * 293

  lemma CarriedBound(s: seq<int>, i: nat)
    requires Carried(s) && i < 32
    ensures 0 <= s[i] <= 293
  {
  }

  lemma ProductBound(x: int, y: int)
    requires 0 <= x <= 293 && 0 <= y <= 293
    ensures 0 <= x * y <= LIMB_PRODUCT
  {
    MulBound(x, y, 293, 293);
  }

  lemma ValueEmpty(s: seq<int>)
    requires s == []
    ensures Value(s) == 0
  {
  }

  lemma ValueSnoc(s: seq<int>, j: nat)
    requires j < |s|
    ensures Value(s[..j + 1]) == Value(s[..j]) + Pow256(j) * s[j]
  {
    assert s[..j + 1] == s[..j] + [s[j]];
    ValueConcat(s[..j], [s[j]]);
    assert Value([s[j]]) == s[j];
  }

  /** One more product in row i of the schoolbook multiplication. */
  lemma ProductStep(col: seq<int>, a: int, b: seq<int>, i: nat, j: nat, base: int)
    requires |col| == 64 && |b| == 32 && i < 32 && j < 32
    requires Value(col) == base + (a * Pow256(i)) * Value(b[..j])
    ensures Value(col[i + j := col[i + j] + a * b[j]]) == base + (a * Pow256(i)) * Value(b[..j + 1])
  {
    ValueUpdate(col, i + j, col[i + j] + a * b[j]);
    ValueSnoc(b, j);
    PowAdd(i, j);
    ProductRearrange(a, b[j], Pow256(i), Pow256(j), Value(b[..j]));
  }

  lemma ProductRearrange(a: int, b: int, w: int, x: int, v: int)
    ensures (a * w) * v + (a * b) * (w * x) == (a * w) * (v + x * b)
  {
    calc {
      (a * w) * (v + x * b);
      (a * w) * v + (a * w) * (x * b);
      { assert (a * w) * (x * b) == (a * b) * (w * x) by { Shuffle(a, w, x, b); } }
      (a * w) * v + (a * b) * (w * x);
    }
  }

  lemma Shuffle(a: int, w: int, x: int, b: int)
    ensures (a * w) * (x * b) == (a * b) * (w * x)
  {
  }

  lemma RowDone(a: seq<int>, i: nat, v: int)
    requires |a| == 32 && i < 32
    ensures Value(a[..i]) * v + (a[i] * Pow256(i)) * v == Value(a[..i + 1]) * v
  {
    ValueSnoc(a, i);
    DistributeRight(Value(a[..i]), Pow256(i) * a[i], v);
  }

  lemma DistributeRight(a: int, b: int, v: int)
    ensures (a + b) * v == a * v + b * v
  {
  }

  /** Folding columns 32..63 onto 0..31 at weight 38 keeps the residue class. */
  lemma FoldClass(col: seq<int>, out: seq<int>)
    requires |col| == 64 && |out| == 32
    requires forall i :: 0 <= i < 32 ==> out[i] == col[i] + 38 * col[i + 32]
    ensures Cong(Value(out), Value(col), P)
  {
    var low, high := col[..32], col[32..];
    assert col == low + high;
    ValueConcat(low, high);
    Pow32();
    ValueLinear(out, low, high, 38);
    CongBy(Value(out), Value(col), P, -2 * Value(high));
  }

  /** The 63 columns of the schoolbook product, column k the sum of a[i] * b[j] over i + j = k. */
  method MulColumns(a: array<u32>, b: array<u32>) returns (column: array<u32>)
    requires a.Length == b.Length == 32
    requires Carried(a[..]) && Carried(b[..])
    ensures fresh(column) && column.Length == 64
    ensures Value(column[..]) == Value(a[..]) * Value(b[..])
    ensures forall k :: 0 <= k < 64 ==> column[k] <= 32 * LIMB_PRODUCT
  {
    hide Value, Pow256, Carried;
    ghost var s, t := a[..], b[..];
    column := new u32[64](i => 0);
    ValueZeros(column[..]);
    ValueEmpty(s[..0]);
    for i := 0 to 32
      invariant Value(column[..]) == Value(s[..i]) * Value(t)
      invariant forall k :: 0 <= k < 64 ==> column[k] <= i * LIMB_PRODUCT
    {
      ghost var base := Value(column[..]);
      ValueEmpty(t[..0]);
      for j := 0 to 32
        invariant Value(column[..]) == base + (s[i] * Pow256(i)) * Value(t[..j])
        invariant forall k :: 0 <= k < i + j ==> column[k] <= (i + 1) * LIMB_PRODUCT
        invariant forall k :: i + j <= k < 64 ==> column[k] <= i * LIMB_PRODUCT
      {
        ghost var before := column[..];
        CarriedBound(s, i);
        CarriedBound(t, j);
        ProductBound(s[i], t[j]);
        ProductStep(before, s[i], t, i, j, base);
        column[i + j] := column[i + j] + a[i] * b[j];
        assert column[..] == before[i + j := before[i + j] + s[i] * t[j]];
      }
      assert t[..32] == t;
      RowDone(s, i, Value(t));
    }
    assert s[..32] == s;
  }

  /** out = a * b: schoolbook columns, folded and carried; out may alias an input. */
  method FeMul(out: array<u32>, a: array<u32>, b: array<u32>)
    requires out.Length == a.Length == b.Length == 32
    requires Carried(a[..]) && Carried(b[..])
    modifies out
    ensures Carried(out[..])
    ensures F(out) == MulP(old(F(a)), old(F(b)))
  {
    hide Value, Cong, Pow256, Carried;
    ghost var s, t := a[..], b[..];
    var column := MulColumns(a, b);
    ghost var col := column[..];
    for i := 0 to 32
      invariant column[..] == col
      invariant forall k :: 0 <= k < i ==> out[k] == col[k] + 38 * col[k + 32]
      invariant forall k :: 0 <= k < i ==> out[k] <= 39 * 32 * LIMB_PRODUCT
    {
      assert col[i] <= 32 * LIMB_PRODUCT && col[i + 32] <= 32 * LIMB_PRODUCT;
      out[i] := column[i] + 38 * column[i + 32];
    }
    FoldClass(col, out[..]);
    ghost var raw := Value(out[..]);
    Carry(out);
    CongTrans(Value(out[..]), raw, Value(col), P);
    MulResidue(Value(out[..]), Value(s), Value(t), P);
  }

  /** a >= b for 32-byte little-endian numbers, compared from the top byte down. */
  method BytesGe(a: array<u8>, b: seq<u8>) returns (ge: bool)
    requires a.Length == |b| == 32
    ensures ge <==> Value(a[..]) >= Value(b)
  {
    var i := 32;
    while i > 0
      invariant 0 <= i <= 32
      invariant forall k :: i <= k < 32 ==> a[k] == b[k]
    {
      if a[i - 1] != b[i - 1] {
        TopDifference(a[..], b, i - 1);
        return a[i - 1] > b[i - 1];
      }
      i := i - 1;
    }
    assert a[..] == b;
    return true;
  }

  /** The highest digit in which two byte strings differ decides their order. */
  lemma {:induction false} TopDifference(a: seq<int>, b: seq<int>, i: nat)
    requires |a| == |b| && i < |a| && Bytes(a) && Bytes(b)
    requires a[i] != b[i] && forall k :: i < k < |a| ==> a[k] == b[k]
    ensures Value(a) >= Value(b) <==> a[i] > b[i]
    ensures Value(a) != Value(b)
  {
    if i == 0 {
      assert a[1..] == b[1..];
    } else {
      TopDifference(a[1..], b[1..], i - 1);
    }
  }

  /** a -= b for 32-byte numbers with a >= b. */
  method BytesSub(a: array<u8>, b: seq<u8>)
    requires a.Length == |b| == 32
    requires Value(a[..]) >= Value(b)
    modifies a
    ensures Value(a[..]) == old(Value(a[..])) - Value(b)
  {
    ghost var s := a[..];
    var borrow: u32 := 0;
    for i := 0 to 32
      invariant borrow <= 1
      invariant a[i..] == s[i..]
      invariant Value(a[..i]) == Value(s[..i]) - Value(b[..i]) + borrow * Pow256(i)
    {
      ghost var before := a[..];
      var diff: u32 := a[i] + 0x100 - b[i] - borrow;
      ghost var oldBorrow := borrow;
      a[i] := diff % 256;
      borrow := if diff / 256 != 0 then 0 else 1;
      assert before[i] == s[i] && before[..i] == a[..i];
      assert a[i + 1..] == s[i + 1..];
      ValueSnoc(a[..], i);
      assert a[..][..i] == before[..i] && a[..][..i + 1] == a[..i + 1];
      ValueSnoc(s, i);
      ValueSnoc(b, i);
      BorrowStep(Pow256(i), a[i], s[i], b[i], oldBorrow, borrow);
    }
    assert a[..32] == a[..] && s[..32] == s && b[..32] == b;
    Pow32();
    BytesBound(a[..]);
    BytesBound(s);
    BytesBound(b);
  }

  lemma BorrowStep(w: int, d: int, s: int, b: int, before: int, after: int)
    requires d == s - b - before + 256 * after
    ensures before * w + w * d == w * s - w * b + after * (256 * w)
  {
    calc {
      w * d;
      w * (s - b - before + 256 * after);
      w * s - w * b - w * before + w * (256 * after);
    }
  }

  lemma ThirdPass(s: seq<int>, u: seq<int>)
    requires Carried(s) && PassResult(Value(s), u)
    ensures Bytes(u)
  {
    BytesBound(s[1..]);
    Pow32();
    var v := Value(s);
    assert v == s[0] + 256 * Value(s[1..]);
    assert 0 <= v <= TWO_256 + 37;
  }

  method FeCopy(out: array<u32>, a: array<u32>)
    requires out.Length == a.Length == 32
    modifies out
    ensures out[..] == old(a[..]) && F(out) == old(F(a))
  {
    ghost var s := a[..];
    for i := 0 to 32
      invariant forall j :: 0 <= j < i ==> out[j] == s[j]
      invariant forall j :: i <= j < 32 ==> a[j] == s[j]
    {
      out[i] := a[i];
    }
    assert out[..] == s;
  }

  method FeSetSmall(out: array<u32>, n: u32)
    requires out.Length == 32 && n <= 293
    modifies out
    ensures Carried(out[..]) && F(out) == n
  {
    for i := 0 to 32
      invariant forall j :: 0 <= j < i ==> out[j] == 0
    {
      out[i] := 0;
    }
    out[0] := n;
    ValueSmall(out[..]);
  }

  method FeFromBytes(out: array<u32>, s: seq<u8>)
    requires out.Length == |s| == 32
    modifies out
    ensures Carried(out[..]) && out[..] == s
  {
    for i := 0 to 32
      invariant forall j :: 0 <= j < i ==> out[j] == s[j]
    {
      out[i] := s[i];
    }
  }

  /** p as the byte table the final reduction compares with. */
  const P_BYTES: seq<u8> := [
    0xED, 0xFF, 0xFF, 0xFF, 0xFF, 0xFF, 0xFF, 0xFF,
    0xFF, 0xFF, 0xFF, 0xFF, 0xFF, 0xFF, 0xFF, 0xFF,
    0xFF, 0xFF, 0xFF, 0xFF, 0xFF, 0xFF, 0xFF, 0xFF,
    0xFF, 0xFF, 0xFF, 0xFF, 0xFF, 0xFF, 0xFF, 0x7F]

  lemma PBytesValue()
    ensures Value(P_BYTES) == P
  {
    hide Value;
    FramedValue(P_BYTES, 0xED, 0xFF, 0x7F);
  }

  /** The canonical encoding: the one byte string below p in the element's class. */
  method FeToBytes(out: array<u8>, a: array<u32>)
    requires out.Length == a.Length == 32
    requires forall i :: 0 <= i < 32 ==> a[i] < 0x8000_0000
    modifies out
    ensures Value(out[..]) == old(F(a))
  {
    hide Value, Cong, Carried, PassResult;
    ghost var v := Value(a[..]);
    var t := new u32[32](i => 0);
    FeCopy(t, a);
    Carry(t);
    ghost var s := t[..];
    CarriedLimbs(s);
    assert forall i :: 0 <= i < 32 ==> t[i] == s[i];
    CarryPass(t);
    ThirdPass(s, t[..]);
    PassKeepsClass(Value(s), Value(t[..]));
    CongTrans(Value(t[..]), Value(s), v, P);
    ghost var u := t[..];
    for i := 0 to 32
      invariant t[..] == u
      invariant forall j :: 0 <= j < i ==> out[j] == u[j]
    {
      out[i] := t[i];
    }
    assert out[..] == u;
    SubtractTwice(out);
    CongTrans(Value(out[..]), Value(u), v, P);
    CongMod(v, P);
    CongTrans(Value(out[..]), v, v % P, P);
    CongSmall(Value(out[..]), v % P, P);
  }

  /** Two conditional subtractions bring any 32-byte number below p, in its class. */
  method SubtractTwice(out: array<u8>)
    requires out.Length == 32
    modifies out
    ensures 0 <= Value(out[..]) < P
    ensures Cong(Value(out[..]), old(Value(out[..])), P)
  {
    hide Value, Cong;
    ghost var v := Value(out[..]);
    BytesBound(out[..]);
    Pow32();
    PBytesValue();
    CongRefl(v, P);
    for i := 0 to 2
      invariant 0 <= Value(out[..]) < (3 - i) * P
      invariant Cong(Value(out[..]), v, P)
    {
      var ge := BytesGe(out, P_BYTES);
      if ge {
        ghost var before := Value(out[..]);
        BytesSub(out, P_BYTES);
        CongBy(before - P, before, P, -1);
        CongTrans(before - P, before, v, P);
      }
    }
  }

  lemma CarriedLimbs(s: seq<int>)
    requires Carried(s)
    ensures forall i :: 0 <= i < 32 ==> 0 <= s[i] < 0x8000_0000
  {
  }

  method BytesEqual(a: array<u8>, b: array<u8>) returns (equal: bool)
    requires a.Length == b.Length
    ensures equal <==> a[..] == b[..]
  {
    for i := 0 to a.Length
      invariant a[..i] == b[..i]
    {
      if a[i] != b[i] {
        assert a[..][i] != b[..][i];
        return false;
      }
    }
    assert a[..] == a[..a.Length] && b[..] == b[..b.Length];
    return true;
  }

  /** Equal exactly when congruent. */
  method FeEqual(a: array<u32>, b: array<u32>) returns (equal: bool)
    requires a.Length == b.Length == 32 && Carried(a[..]) && Carried(b[..])
    ensures equal <==> F(a) == F(b)
  {
    var aBytes := new u8[32](i => 0);
    var bBytes := new u8[32](i => 0);
    CarriedLimbs(a[..]);
    CarriedLimbs(b[..]);
    assert forall i :: 0 <= i < 32 ==> a[i] == a[..][i] && b[i] == b[..][i];
    FeToBytes(aBytes, a);
    FeToBytes(bBytes, b);
    equal := BytesEqual(aBytes, bBytes);
    if Value(aBytes[..]) == Value(bBytes[..]) {
      ValueInjective(aBytes[..], bBytes[..]);
    }
  }

  lemma LowBit(s: seq<int>)
    requires s != []
    ensures Value(s) % 2 == s[0] % 2
  {
    var rest := Value(s[1..]);
    assert Value(s) == s[0] + 2 * (128 * rest);
  }

  /** The low bit of the canonical value. */
  method FeIsOdd(a: array<u32>) returns (odd: u8)
    requires a.Length == 32 && Carried(a[..])
    ensures odd == F(a) % 2
  {
    var bytes := new u8[32](i => 0);
    CarriedLimbs(a[..]);
    assert forall i :: 0 <= i < 32 ==> a[i] == a[..][i];
    FeToBytes(bytes, a);
    odd := bytes[0] % 2;
    LowBit(bytes[..]);
  }

  method FeIsZero(a: array<u32>) returns (zero: bool)
    requires a.Length == 32 && Carried(a[..])
    ensures zero <==> F(a) == 0
  {
    var z := new u32[32](i => 0);
    FeSetSmall(z, 0);
    zero := FeEqual(a, z);
  }

  /** a to the power n over the integers. */
  function Power(a: int, n: nat): int {
    if n == 0 then 1 else a * Power(a, n - 1)
  }

  lemma PowerAdd(a: int, m: nat, n: nat)
    ensures Power(a, m + n) == Power(a, m) * Power(a, n)
  {
    if m > 0 {
      PowerAdd(a, m - 1, n);
      calc {
        Power(a, m + n);
        a * Power(a, m - 1 + n);
        a * (Power(a, m - 1) * Power(a, n));
        (a * Power(a, m - 1)) * Power(a, n);
      }
    }
  }

  lemma PowerOne(n: nat)
    ensures Power(1, n) == 1
  {
  }

  /** The square-and-multiply step for one exponent bit. */
  lemma LadderBit(a: int, r: int, n: nat, bit: int)
    requires Cong(r, Power(a, n), P) && 0 <= bit <= 1 && 0 <= a < P
    ensures Cong(if bit == 1 then MulP(MulP(r, r), a) else MulP(r, r), Power(a, 2 * n + bit), P)
  {
    hide Cong, MulM;
    PowerAdd(a, n, n);
    MulClass(r, Power(a, n), r, Power(a, n), P);
    if bit == 1 {
      CongRefl(a, P);
      MulClass(MulP(r, r), Power(a, 2 * n), a, a, P);
      assert Power(a, 2 * n + 1) == a * Power(a, 2 * n);
    }
  }

  /** a to the n as a residue. */
  function PowP(a: int, n: nat): int {
    Power(a, n) % P
  }

  lemma PowResidue(v: int, a: int, n: nat)
    requires 0 <= v < P && Cong(v, Power(a, n), P)
    ensures v == PowP(a, n)
  {
    CongIffMod(v, Power(a, n), P);
  }

  /** The exponents in use: a low byte, thirty 0xFF, a high byte. */
  method Exponent(e: array<u8>, low: u8, high: u8)
    requires e.Length == 32
    modifies e
    ensures 255 * Value(e[..]) == 255 * low + 255 * (TWO_256 / 256 - 256) + 255 * high * (TWO_256 / 256)
  {
    e[0] := low;
    for i := 1 to 31
      invariant e[0] == low
      invariant forall j :: 1 <= j < i ==> e[j] == 0xFF
    {
      e[i] := 0xFF;
    }
    e[31] := high;
    FramedValue(e[..], low, 0xFF, high);
  }

  /** out = a to the power e, left to right over all 256 bits of e; out may alias a. */
  method FePow(out: array<u32>, a: array<u32>, e: array<u8>)
    requires out.Length == a.Length == e.Length == 32 && Carried(a[..])
    modifies out
    ensures Carried(out[..])
    ensures 0 <= Value(e[..]) && F(out) == PowP(old(F(a)), Value(e[..]))
  {
    hide *;
    var base := new u32[32](i => 0);
    var result := new u32[32](i => 0);
    FeCopy(base, a);
    FeSetSmall(result, 1);
    ghost var s: seq<u8>, x := e[..], F(a);
    LadderStart(s, x);
    var bit := 256;
    while bit > 0
      invariant 0 <= bit <= 256
      invariant Carried(result[..]) && Carried(base[..]) && F(base) == x
      invariant 0 <= Top(s, bit) && Cong(F(result), Power(x, Top(s, bit)), P)
    {
      TopStep(s, bit - 1);
      LadderBit(x, F(result), Top(s, bit), BitOf(s, bit - 1));
      var b := ReadBit(e, bit - 1);
      FeMul(result, result, result);
      if b == 1 {
        FeMul(result, result, base);
      }
      bit := bit - 1;
    }
    TopIsValue(s, 0);
    assert s[0..] == s;
    FeCopy(out, result);
    PowResidue(F(result), x, Value(s));
  }

  lemma LadderStart(s: seq<u8>, x: int)
    requires |s| == 32
    ensures Bytes(s) && Top(s, 256) == 0 && Cong(1, Power(x, Top(s, 256)), P)
  {
    CongRefl(1, P);
  }

  /** out = a to the power p - 2. */
  method FeInvert(out: array<u32>, a: array<u32>)
    requires out.Length == a.Length == 32 && Carried(a[..])
    modifies out
    ensures Carried(out[..]) && F(out) == PowP(old(F(a)), P - 2)
  {
    var e := new u8[32](i => 0);
    Exponent(e, 0xEB, 0x7F);
    assert Value(e[..]) == P - 2;
    FePow(out, a, e);
  }
}
