/** Scalars modulo the group order L, reduced by binary long division. */
module Ed25519Scalars {
  import opened Congruence
  import opened LittleEndian
  import opened BitString
  import opened Ed25519Field
  import Ed25519Curve

  /** 2^252 + 27742317777372353535851937790883648493. */
  const L: int := 0x1000000000000000_0000000000000000_14DEF9DEA2F79CD6_5812631A5CF5D3ED

  const L_BYTES: seq<u8> := [
    0xED, 0xD3, 0xF5, 0x5C, 0x1A, 0x63, 0x12, 0x58,
    0xD6, 0x9C, 0xF7, 0xA2, 0xDE, 0xF9, 0xDE, 0x14,
    0x00, 0x00, 0x00, 0x00, 0x00, 0x00, 0x00, 0x00,
    0x00, 0x00, 0x00, 0x00, 0x00, 0x00, 0x00, 0x10]

  lemma LTable()
    ensures Value(L_BYTES) == L
    ensures L == TWO_256 / 16 + 27742317777372353535851937790883648493
  {
    hide Value;
    Ed25519Curve.TableValue(L_BYTES, L);
  }

  lemma ShiftStep(w: int, r: int, incoming: int, outgoing: int, d: int)
    requires d == 2 * r + incoming - 256 * outgoing
    ensures w * d + outgoing * (256 * w) == 2 * (w * r) + incoming * w
  {
    calc {
      w * d + outgoing * (256 * w);
      w * (2 * r + incoming - 256 * outgoing) + outgoing * (256 * w);
      w * (2 * r) + w * incoming - w * (256 * outgoing) + outgoing * (256 * w);
      2 * (w * r) + incoming * w;
    }
  }

  lemma PowZero()
    ensures Pow256(0) == 1
  {
  }

  lemma ByteShift(r: int, b: int)
    requires 0 <= r <= 255 && 0 <= b <= 1
    ensures (2 * r + b) % 256 == 2 * r + b - 256 * (r / 128)
  {
  }

  /** remainder = 2 * remainder + incoming, byte by byte from the bottom. */
  method ShiftIn(remainder: array<u8>, bit: u8) returns (outgoing: u8)
    requires remainder.Length == 32 && bit <= 1
    modifies remainder
    ensures outgoing <= 1
    ensures Value(remainder[..]) + outgoing * TWO_256 == 2 * old(Value(remainder[..])) + bit
  {
    hide Value, Pow256;
    ghost var s: seq<u8> := remainder[..];
    PowZero();
    var incoming: u8 := bit;
    Ed25519Field.ValueEmpty(s[..0]);
    for i := 0 to 32
      invariant incoming <= 1
      invariant remainder[i..] == s[i..]
      invariant Value(remainder[..i]) + incoming * Pow256(i) == 2 * Value(s[..i]) + bit
    {
      ghost var before: seq<u8> := remainder[..];
      ghost var old' := incoming;
      NextPower(i);
      outgoing := remainder[i] / 128;
      assert before[i] == s[i];
      remainder[i] := (2 * remainder[i] + incoming) % 256;
      incoming := outgoing;
      assert remainder[..][..i] == before[..i] && remainder[..][..i + 1] == remainder[..i + 1];
      ValueSnoc(remainder[..], i);
      ValueSnoc(s, i);
      ByteShift(s[i], old');
      ShiftStep(Pow256(i), s[i], old', incoming, remainder[i]);
    }
    outgoing := incoming;
    assert remainder[..32] == remainder[..] && s[..32] == s;
    Pow32();
  }

  /** The remainder after one more bit, below L again. */
  lemma DivisionStep(n: int, bit: int, r: int)
    requires r == n % L && 0 <= bit <= 1
    ensures 0 <= 2 * r + bit < 2 * L
    ensures (2 * n + bit) % L == if 2 * r + bit >= L then 2 * r + bit - L else 2 * r + bit
  {
    var v := if 2 * r + bit >= L then 2 * r + bit - L else 2 * r + bit;
    CongMod(n, L);
    CongBy(2 * n + bit, v, L, 2 * (n / L) + if 2 * r + bit >= L then 1 else 0);
    CongIffMod(2 * n + bit, v, L);
  }

  /** One step of the long division. */
  method DivideBit(remainder: array<u8>, bit: u8, ghost n: int)
    requires remainder.Length == 32 && bit <= 1
    requires Value(remainder[..]) == n % L
    modifies remainder
    ensures Value(remainder[..]) == (2 * n + bit) % L
  {
    hide Value;
    LTable();
    DivisionStep(n, bit, n % L);
    var outgoing := ShiftIn(remainder, bit);
    BytesBound(remainder[..]);
    assert outgoing == 0;
    var ge := BytesGe(remainder, L_BYTES);
    if ge {
      BytesSub(remainder, L_BYTES);
    }
  }

  /** out = s mod L for a 64-byte s: the remainder never leaves 32 bytes, one subtraction a bit. */
  method ScalarReduce(out: array<u8>, s: seq<u8>)
    requires out.Length == 32 && |s| == 64
    modifies out
    ensures Value(out[..]) == Value(s) % L
  {
    hide Value, Top;
    var remainder := new u8[32](i => 0);
    ValueZeros(remainder[..]);
    TopStart(s);
    var bit := 512;
    while bit > 0
      invariant 0 <= bit <= 512
      invariant Value(remainder[..]) == Top(s, bit) % L
    {
      TopStep(s, bit - 1);
      var b := (s[(bit - 1) / 8] / Pow2((bit - 1) % 8)) % 2;
      DivideBit(remainder, b, Top(s, bit));
      bit := bit - 1;
    }
    TopIsValue(s, 0);
    assert s[0..] == s;
    for i := 0 to 32
      invariant forall j :: 0 <= j < i ==> out[j] == remainder[j]
      invariant Value(remainder[..]) == Value(s) % L
    {
      out[i] := remainder[i];
    }
    assert out[..] == remainder[..];
  }

  lemma TopStart(s: seq<int>)
    ensures Top(s, 8 * |s|) == 0
  {
  }

  const BYTE_PRODUCT := 255 * 255

  /** The columns of a * b + c. */
  method MuladdColumns(a: seq<u8>, b: seq<u8>, c: seq<u8>) returns (column: array<u32>)
    requires |a| == |b| == |c| == 32
    ensures fresh(column) && column.Length == 64
    ensures Value(column[..]) == Value(a) * Value(b) + Value(c)
    ensures forall k :: 0 <= k < 64 ==> column[k] <= 32 * BYTE_PRODUCT + 255
  {
    hide Value, Pow256;
    column := new u32[64](i => 0);
    ValueZeros(column[..]);
    Ed25519Field.ValueEmpty(a[..0]);
    Ed25519Field.ValueEmpty(c[..0]);
    for i := 0 to 32
      invariant Value(column[..]) == Value(a[..i]) * Value(b) + Value(c[..i])
      invariant forall k :: 0 <= k < i ==> column[k] <= i * BYTE_PRODUCT + 255
      invariant forall k :: i <= k < 64 ==> column[k] <= i * BYTE_PRODUCT
    {
      MuladdRow(column, a[i], b, i);
      RowDone(a, i, Value(b));
      ValueSnoc(c, i);
      ghost var before: seq<u32> := column[..];
      ValueUpdate(before, i, before[i] + c[i]);
      column[i] := column[i] + c[i];
      assert column[..] == before[i := before[i] + c[i]];
      assert c[i] * Pow256(i) == Pow256(i) * c[i];
    }
    assert a[..32] == a && c[..32] == c;
  }

  /** Row i of the product: a_i * b added at column i. */
  method MuladdRow(column: array<u32>, ai: u8, b: seq<u8>, i: nat)
    requires column.Length == 64 && |b| == 32 && i < 32
    requires forall k :: 0 <= k < i ==> column[k] <= i * BYTE_PRODUCT + 255
    requires forall k :: i <= k < 64 ==> column[k] <= i * BYTE_PRODUCT
    modifies column
    ensures Value(column[..]) == old(Value(column[..])) + (ai * Pow256(i)) * Value(b)
    ensures forall k :: 0 <= k < i ==> column[k] <= i * BYTE_PRODUCT + 255
    ensures forall k :: i <= k < 64 ==> column[k] <= (i + 1) * BYTE_PRODUCT
  {
    hide Value, Pow256;
    ghost var base := Value(column[..]);
    Ed25519Field.ValueEmpty(b[..0]);
    for j := 0 to 32
      invariant Value(column[..]) == base + (ai * Pow256(i)) * Value(b[..j])
      invariant forall k :: 0 <= k < i ==> column[k] <= i * BYTE_PRODUCT + 255
      invariant forall k :: i <= k < i + j ==> column[k] <= (i + 1) * BYTE_PRODUCT
      invariant forall k :: i + j <= k < 64 ==> column[k] <= i * BYTE_PRODUCT
    {
      ghost var before: seq<u32> := column[..];
      MulBound(ai, b[j], 255, 255);
      ProductStep(before, ai, b, i, j, base);
      column[i + j] := column[i + j] + ai * b[j];
      assert column[..] == before[i + j := before[i + j] + ai * b[j]];
    }
    assert b[..32] == b;
  }

  /** Ripple the columns into 64 bytes; nothing is left over. */
  method RippleWide(column: array<u32>) returns (wide: seq<u8>)
    requires column.Length == 64
    requires forall k :: 0 <= k < 64 ==> column[k] <= 32 * BYTE_PRODUCT + 255
    requires Value(column[..]) < Pow256(64)
    ensures |wide| == 64 && Value(wide) == Value(column[..])
  {
    hide Value, Pow256;
    wide := [];
    var carry: u32 := 0;
    ghost var s: seq<u32> := column[..];
    Ed25519Field.ValueEmpty(s[..0]);
    Ed25519Field.ValueEmpty([]);
    for i := 0 to 64
      invariant |wide| == i && carry < 0x4000
      invariant Value(wide) + carry * Pow256(i) == Value(s[..i])
    {
      ghost var before, c := wide, carry;
      carry := carry + column[i];
      var digit: u8 := carry % 256;
      wide := wide + [digit];
      carry := carry / 256;
      ValueSnoc(s, i);
      assert wide[..i] == before && wide[..i + 1] == wide;
      ValueSnoc(wide, i);
      RippleStep(Pow256(i), c, s[i], digit, carry);
      NextPower(i);
    }
    assert s[..64] == s;
    BytesBound(wide);
    NothingLeft(Value(wide), carry, Pow256(64), Value(s));
  }

  lemma NextPower(i: nat)
    ensures Pow256(i + 1) == 256 * Pow256(i)
  {
  }

  lemma RippleStep(w: int, c: int, d: int, digit: int, carry: int)
    requires c + d == digit + 256 * carry
    ensures w * digit + carry * (256 * w) == c * w + w * d
  {
    calc {
      w * digit + carry * (256 * w);
      w * (digit + 256 * carry);
      w * (c + d);
    }
  }

  lemma NothingLeft(v: int, carry: int, w: int, total: int)
    requires 0 <= v && 0 <= carry && w >= 1 && v + carry * w == total < w
    ensures carry == 0
  {
    if carry >= 1 {
      MulAtLeast(carry, w);
    }
  }

  lemma SumFits(a: int, b: int, c: int, w: int)
    requires 0 <= a < w && 0 <= b < w && 0 <= c < w
    ensures a * b + c < w * w
  {
    MulBound(a, b, w - 1, w - 1);
    assert (w - 1) * (w - 1) + w <= w * w by {
      assert (w - 1) * (w - 1) == w * w - 2 * w + 1;
    }
  }

  /** out = (a * b + c) mod L; the whole sum fits 64 bytes. */
  method ScalarMuladd(out: array<u8>, a: seq<u8>, b: seq<u8>, c: seq<u8>)
    requires out.Length == 32 && |a| == |b| == |c| == 32
    modifies out
    ensures Value(out[..]) == (Value(a) * Value(b) + Value(c)) % L
  {
    hide Value, Pow256;
    var column := MuladdColumns(a, b, c);
    BytesBound(a);
    BytesBound(b);
    BytesBound(c);
    PowAdd(32, 32);
    SumFits(Value(a), Value(b), Value(c), Pow256(32));
    var wide := RippleWide(column);
    ScalarReduce(out, wide);
  }
}
