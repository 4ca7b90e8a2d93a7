/** Words as bit strings (FIPS 180-4 section 3.1), and 64-bit operations on pairs of 32-bit halves. */
module Sha512Words {
  import opened Congruence
  import opened BitString

  /** Bit i has weight 2^i. */
  type Bits = seq<bool>

  function FromInt(v: nat, w: nat): (b: Bits)
    ensures |b| == w
    decreases w
  {
    if w == 0 then [] else [v % 2 == 1] + FromInt(v / 2, w - 1)
  }

  function ToInt(b: Bits): nat {
    if b == [] then 0 else (if b[0] then 1 else 0) + 2 * ToInt(b[1..])
  }

  type U32 = b: Bits | |b| == 32 witness FromInt(0, 32)
  type U64 = b: Bits | |b| == 64 witness FromInt(0, 64)

  lemma {:induction false} FromToInt(b: Bits)
    ensures FromInt(ToInt(b), |b|) == b
  {
    if b != [] {
      FromToInt(b[1..]);
      assert b == [b[0]] + b[1..];
    }
  }

  lemma {:induction false} ToIntBound(b: Bits)
    ensures ToInt(b) < Pow2(|b|)
  {
    if b != [] {
      ToIntBound(b[1..]);
    }
  }

  lemma {:induction false} ToIntJoin(a: Bits, b: Bits)
    ensures ToInt(a + b) == ToInt(a) + Pow2(|a|) * ToInt(b)
  {
    if a == [] {
      assert a + b == b;
    } else {
      ToIntJoin(a[1..], b);
      assert (a + b)[1..] == a[1..] + b;
      TwiceTimes(Pow2(|a| - 1), ToInt(b));
    }
  }

  lemma TwiceTimes(x: int, y: int)
    ensures (2 * x) * y == 2 * (x * y)
  {
  }

  function Quotient(v: nat, w: nat): nat
    requires w > 0
  {
    v / w
  }

  lemma HalfThen(v: nat, w: nat)
    requires w > 0
    ensures (v / 2) / w == v / (2 * w)
  {
    var q, r := (v / 2) / w, (v / 2) % w;
    DivMod(v / 2, w);
    TwiceTimes(w, q);
    assert q * (2 * w) == 2 * (q * w);
    QuotientUnique(v, 2 * w, q, 2 * r + v % 2);
  }

  /** The low bits of a number, then the rest of it. */
  lemma {:induction false} FromIntSplit(v: nat, m: nat, n: nat)
    ensures FromInt(v, m + n) == FromInt(v, m) + FromInt(Quotient(v, Pow2(m)), n)
    decreases m
  {
    if m == 0 {
      assert FromInt(v, 0) + FromInt(v, n) == FromInt(v, n);
    } else {
      FromIntSplit(v / 2, m - 1, n);
      HalfThen(v, Pow2(m - 1));
      var rest := FromInt(Quotient(v, Pow2(m)), n);
      assert [v % 2 == 1] + (FromInt(v / 2, m - 1) + rest) == ([v % 2 == 1] + FromInt(v / 2, m - 1)) + rest;
    }
  }

  /** Truncating to w bits loses what lies above them. */
  lemma {:induction false} FromIntLow(low: nat, high: nat, w: nat)
    ensures FromInt(low + Pow2(w) * high, w) == FromInt(low, w)
    decreases w
  {
    if w > 0 {
      TwiceTimes(Pow2(w - 1), high);
      var x := low + Pow2(w) * high;
      HalfOf(low, Pow2(w - 1) * high);
      FromIntLow(low / 2, high, w - 1);
    }
  }

  lemma HalfOf(low: nat, k: nat)
    ensures (low + 2 * k) / 2 == low / 2 + k && (low + 2 * k) % 2 == low % 2
  {
  }

  function Zeros(n: nat): (b: Bits)
    ensures |b| == n && forall i :: 0 <= i < n ==> !b[i]
  {
    seq(n, (i: nat) => false)
  }

  lemma {:induction false} ZerosValue(n: nat)
    ensures ToInt(Zeros(n)) == 0
  {
    if n > 0 {
      ZerosValue(n - 1);
      assert Zeros(n)[1..] == Zeros(n - 1);
    }
  }

  lemma {:induction false} FromZero(n: nat)
    ensures FromInt(0, n) == Zeros(n)
  {
    if n > 0 {
      FromZero(n - 1);
      assert Zeros(n) == [false] + Zeros(n - 1);
    }
  }

  function Xor(a: Bits, b: Bits): (r: Bits)
    requires |a| == |b|
    ensures |r| == |a|
  {
    seq(|a|, i requires 0 <= i < |a| => a[i] != b[i])
  }

  function And(a: Bits, b: Bits): (r: Bits)
    requires |a| == |b|
    ensures |r| == |a|
  {
    seq(|a|, i requires 0 <= i < |a| => a[i] && b[i])
  }

  function Or(a: Bits, b: Bits): (r: Bits)
    requires |a| == |b|
    ensures |r| == |a|
  {
    seq(|a|, i requires 0 <= i < |a| => a[i] || b[i])
  }

  function Not(a: Bits): (r: Bits)
    ensures |r| == |a|
  {
    seq(|a|, i requires 0 <= i < |a| => !a[i])
  }

  /** Shifts within the width: what moves out is lost, zeros move in. */
  function Shr(a: Bits, n: nat): (r: Bits)
    requires n <= |a|
    ensures |r| == |a|
  {
    a[n..] + Zeros(n)
  }

  function Shl(a: Bits, n: nat): (r: Bits)
    requires n <= |a|
    ensures |r| == |a|
  {
    Zeros(n) + a[..|a| - n]
  }

  /** Addition modulo 2^w. */
  function Plus(a: Bits, b: Bits): (r: Bits)
    requires |a| == |b|
    ensures |r| == |a|
  {
    FromInt(ToInt(a) + ToInt(b), |a|)
  }

  /** Sections 3.2 and 4.1.3 of FIPS 180-4 on words of any width. */
  function Rotr(x: Bits, n: nat): (r: Bits)
    requires n <= |x|
    ensures |r| == |x|
  {
    Or(Shr(x, n), Shl(x, |x| - n))
  }

  function Xor3(x: Bits, y: Bits, z: Bits): (r: Bits)
    requires |x| == |y| == |z|
    ensures |r| == |x|
  {
    Xor(Xor(x, y), z)
  }

  function Ch(x: Bits, y: Bits, z: Bits): (r: Bits)
    requires |x| == |y| == |z|
    ensures |r| == |x|
  {
    Xor(And(x, y), And(Not(x), z))
  }

  function Maj(x: Bits, y: Bits, z: Bits): (r: Bits)
    requires |x| == |y| == |z|
    ensures |r| == |x|
  {
    Xor3(And(x, y), And(x, z), And(y, z))
  }

  function BigSigma0(x: U64): U64 {
    Xor3(Rotr(x, 28), Rotr(x, 34), Rotr(x, 39))
  }

  function BigSigma1(x: U64): U64 {
    Xor3(Rotr(x, 14), Rotr(x, 18), Rotr(x, 41))
  }

  function SmallSigma0(x: U64): U64 {
    Xor3(Rotr(x, 1), Rotr(x, 8), Shr(x, 7))
  }

  function SmallSigma1(x: U64): U64 {
    Xor3(Rotr(x, 19), Rotr(x, 61), Shr(x, 6))
  }

  /** A word as two halves of 32 bits. */
  datatype Word = Word(hi: U32, lo: U32)

  /** The 64-bit word a pair of halves stands for. */
  function Join(w: Word): U64 {
    w.lo + w.hi
  }

  /** The low sum wrapped exactly when it is below an addend, and that is the carry. */
  function WordAdd(x: Word, y: Word): Word {
    var lo: U32 := Plus(x.lo, y.lo);
    var hi: U32 := Plus(x.hi, y.hi);
    Word(if ToInt(lo) < ToInt(x.lo) then Plus(hi, FromInt(1, 32)) else hi, lo)
  }

  /** Rotation by bits: above 32 the halves change places first. */
  function WordRotr(x: Word, bits: nat): Word
    requires 0 < bits < 64 && bits != 32
  {
    var y := if bits > 32 then Word(x.lo, x.hi) else x;
    var n := if bits > 32 then bits - 32 else bits;
    Word(Or(Shr(y.hi, n), Shl(y.lo, 32 - n)), Or(Shr(y.lo, n), Shl(y.hi, 32 - n)))
  }

  function WordShr(x: Word, bits: nat): Word
    requires 0 < bits < 32
  {
    Word(Shr(x.hi, bits), Or(Shr(x.lo, bits), Shl(x.hi, 32 - bits)))
  }

  function WordXor3(x: Word, y: Word, z: Word): Word {
    Word(Xor3(x.hi, y.hi, z.hi), Xor3(x.lo, y.lo, z.lo))
  }

  function WordCh(x: Word, y: Word, z: Word): Word {
    Word(Ch(x.hi, y.hi, z.hi), Ch(x.lo, y.lo, z.lo))
  }

  function WordMaj(x: Word, y: Word, z: Word): Word {
    Word(Maj(x.hi, y.hi, z.hi), Maj(x.lo, y.lo, z.lo))
  }

  function WordBigSigma0(x: Word): Word {
    WordXor3(WordRotr(x, 28), WordRotr(x, 34), WordRotr(x, 39))
  }

  function WordBigSigma1(x: Word): Word {
    WordXor3(WordRotr(x, 14), WordRotr(x, 18), WordRotr(x, 41))
  }

  function WordSmallSigma0(x: Word): Word {
    WordXor3(WordRotr(x, 1), WordRotr(x, 8), WordShr(x, 7))
  }

  function WordSmallSigma1(x: Word): Word {
    WordXor3(WordRotr(x, 19), WordRotr(x, 61), WordShr(x, 6))
  }

  /** Addition with the hand-made carry is addition modulo 2^64. */
  lemma AddJoin(x: Word, y: Word)
    ensures Join(WordAdd(x, y)) == Plus(Join(x), Join(y))
  {
    hide FromInt, ToInt, Pow2;
    var low, high := ToInt(x.lo) + ToInt(y.lo), ToInt(x.hi) + ToInt(y.hi);
    var m := Pow2(32);
    ToIntJoin(x.lo, x.hi);
    ToIntJoin(y.lo, y.hi);
    assert m * ToInt(x.hi) + m * ToInt(y.hi) == m * high;
    var total := low + m * high;
    assert Plus(Join(x), Join(y)) == FromInt(total, 64);
    FromIntSplit(total, 32, 32);
    FromIntLow(low, high, 32);
    QuotientOfSum(low, high, m);
    ToIntBound(x.lo);
    ToIntBound(y.lo);
    CarryIs(x.lo, y.lo);
    HighSum(x.hi, y.hi, low / m);
  }

  lemma QuotientOfSum(low: nat, high: nat, m: nat)
    requires m > 0
    ensures (low + m * high) / m == low / m + high
  {
    DivMod(low, m);
    assert low + m * high == (low / m + high) * m + low % m by {
      assert (low / m + high) * m == (low / m) * m + high * m;
      assert m * high == high * m;
    }
    QuotientUnique(low + m * high, m, low / m + high, low % m);
  }

  /** A 32-bit sum is below its first addend exactly when it wrapped, and it wraps at most once. */
  lemma CarryIs(a: U32, b: U32)
    ensures var s := ToInt(a) + ToInt(b);
            && s / Pow2(32) == (if ToInt(Plus(a, b)) < ToInt(a) then 1 else 0)
  {
    hide FromInt, ToInt, Pow2;
    var s, m := ToInt(a) + ToInt(b), Pow2(32);
    ToIntBound(a);
    ToIntBound(b);
    if s < m {
      QuotientUnique(s, m, 0, s);
      SmallRoundTrip(s, 32);
    } else {
      QuotientUnique(s, m, 1, s - m);
      FromIntLow(s - m, 1, 32);
      SmallRoundTrip(s - m, 32);
    }
  }

  lemma {:induction false} SmallRoundTrip(v: nat, w: nat)
    requires v < Pow2(w)
    ensures ToInt(FromInt(v, w)) == v
    decreases w
  {
    if w > 0 {
      SmallRoundTrip(v / 2, w - 1);
      assert FromInt(v, w)[1..] == FromInt(v / 2, w - 1);
    }
  }

  lemma HighSum(a: U32, b: U32, carry: nat)
    requires carry <= 1
    ensures FromInt(carry + (ToInt(a) + ToInt(b)), 32)
      == if carry == 1 then Plus(Plus(a, b), FromInt(1, 32)) else Plus(a, b)
  {
    hide FromInt, ToInt, Pow2;
    if carry == 1 {
      var s, m := ToInt(a) + ToInt(b), Pow2(32);
      ToIntBound(a);
      ToIntBound(b);
      One();
      if s < m {
        SmallRoundTrip(s, 32);
      } else {
        FromIntLow(s - m, 1, 32);
        SmallRoundTrip(s - m, 32);
        FromIntLow(s - m + 1, 1, 32);
      }
    }
  }

  lemma One()
    ensures ToInt(FromInt(1, 32)) == 1
  {
    hide ToInt, FromInt;
    Pow2AtLeast(32);
    SmallRoundTrip(1, 32);
  }

  lemma {:induction false} Pow2AtLeast(n: nat)
    requires n >= 1
    ensures Pow2(n) >= 2
  {
  }

  /** Rotation on halves is rotation of the word, for every amount but 0 and 32. */
  lemma RotrJoin(x: Word, n: nat)
    requires 0 < n < 64 && n != 32
    ensures Join(WordRotr(x, n)) == Rotr(Join(x), n)
  {
    var a, b := Join(WordRotr(x, n)), Rotr(Join(x), n);
    forall i | 0 <= i < 64
      ensures a[i] == b[i]
    {
    }
  }

  lemma ShrJoin(x: Word, n: nat)
    requires 0 < n < 32
    ensures Join(WordShr(x, n)) == Shr(Join(x), n)
  {
    var a, b := Join(WordShr(x, n)), Shr(Join(x), n);
    forall i | 0 <= i < 64
      ensures a[i] == b[i]
    {
    }
  }

  lemma Xor3Join(x: Word, y: Word, z: Word)
    ensures Join(WordXor3(x, y, z)) == Xor3(Join(x), Join(y), Join(z))
  {
  }

  lemma ChJoin(x: Word, y: Word, z: Word)
    ensures Join(WordCh(x, y, z)) == Ch(Join(x), Join(y), Join(z))
  {
  }

  lemma MajJoin(x: Word, y: Word, z: Word)
    ensures Join(WordMaj(x, y, z)) == Maj(Join(x), Join(y), Join(z))
  {
  }

  /** The four sigma functions on halves are those of the standard. */
  lemma SigmaJoin(x: Word)
    ensures Join(WordBigSigma0(x)) == BigSigma0(Join(x)) && Join(WordBigSigma1(x)) == BigSigma1(Join(x))
    ensures Join(WordSmallSigma0(x)) == SmallSigma0(Join(x)) && Join(WordSmallSigma1(x)) == SmallSigma1(Join(x))
  {
    hide Join, WordRotr, WordShr, WordXor3, Rotr, Shr, Xor3;
    RotrJoin(x, 28);
    RotrJoin(x, 34);
    RotrJoin(x, 39);
    RotrJoin(x, 14);
    RotrJoin(x, 18);
    RotrJoin(x, 41);
    RotrJoin(x, 1);
    RotrJoin(x, 8);
    RotrJoin(x, 19);
    RotrJoin(x, 61);
    ShrJoin(x, 7);
    ShrJoin(x, 6);
    Xor3Join(WordRotr(x, 28), WordRotr(x, 34), WordRotr(x, 39));
    Xor3Join(WordRotr(x, 14), WordRotr(x, 18), WordRotr(x, 41));
    Xor3Join(WordRotr(x, 1), WordRotr(x, 8), WordShr(x, 7));
    Xor3Join(WordRotr(x, 19), WordRotr(x, 61), WordShr(x, 6));
  }

  /** The eight bits above position n, as a number. */
  lemma ByteOfBits(x: Bits, n: nat)
    requires n + 8 <= |x|
    ensures ToInt(x) / Pow2(n) % 256 == ToInt(x[n..n + 8])
  {
    hide ToInt, Pow2;
    var low, mid, high := x[..n], x[n..n + 8], x[n + 8..];
    assert x == low + (mid + high);
    ToIntJoin(low, mid + high);
    ToIntJoin(mid, high);
    ToIntBound(low);
    ToIntBound(mid);
    EightBits();
    var rest := ToInt(mid + high);
    assert Pow2(n) * rest == rest * Pow2(n);
    QuotientUnique(ToInt(x), Pow2(n), rest, ToInt(low));
    assert rest == ToInt(mid) + 256 * ToInt(high);
  }

  lemma EightBits()
    ensures Pow2(8) == 256
  {
  }
}
