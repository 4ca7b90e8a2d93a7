/** Numbers written as little-endian digits of radix 256, the form every limb and byte array has. */
module LittleEndian {

  /** Unsigned words of the original's two widths. */
  type u8 = x: int | 0 <= x < 0x100
  type u32 = x: int | 0 <= x < 0x1_0000_0000

  const TWO_256: int := 0x1_0000000000000000_0000000000000000_0000000000000000_0000000000000000

  /** 256 to the power n. */
  function Pow256(n: nat): (r: nat)
    ensures r >= 1
  {
    if n == 0 then 1 else 256 * Pow256(n - 1)
  }

  /** The number a digit sequence stands for; digits need not be reduced. */
  function Value(s: seq<int>): int {
    if s == [] then 0 else s[0] + 256 * Value(s[1..])
  }

  predicate Bytes(s: seq<int>) {
    forall i :: 0 <= i < |s| ==> 0 <= s[i] <= 255
  }

  lemma PowAdd(a: nat, b: nat)
    ensures Pow256(a + b) == Pow256(a) * Pow256(b)
  {
    if a > 0 {
      PowAdd(a - 1, b);
      calc {
        Pow256(a + b);
        256 * Pow256(a - 1 + b);
        256 * (Pow256(a - 1) * Pow256(b));
        (256 * Pow256(a - 1)) * Pow256(b);
      }
    }
  }

  lemma Pow32()
    ensures Pow256(32) == TWO_256
    ensures Pow256(31) == TWO_256 / 256
  {
    assert Pow256(4) == 0x1_0000_0000;
    PowAdd(4, 4);
    PowAdd(8, 8);
    PowAdd(16, 16);
  }

  /** Appending: the tail weighs 256 to the length of the head. */
  lemma {:induction false} ValueConcat(s: seq<int>, t: seq<int>)
    ensures Value(s + t) == Value(s) + Pow256(|s|) * Value(t)
  {
    if s == [] {
      assert s + t == t;
    } else {
      assert (s + t)[1..] == s[1..] + t;
      ValueConcat(s[1..], t);
      calc {
        Value(s + t);
        s[0] + 256 * Value(s[1..] + t);
        s[0] + 256 * (Value(s[1..]) + Pow256(|s| - 1) * Value(t));
        { Distribute(256, Value(s[1..]), Pow256(|s| - 1), Value(t)); }
        s[0] + 256 * Value(s[1..]) + (256 * Pow256(|s| - 1)) * Value(t);
        Value(s) + Pow256(|s|) * Value(t);
      }
    }
  }

  lemma Distribute(c: int, a: int, b: int, d: int)
    ensures c * (a + b * d) == c * a + (c * b) * d
  {
  }

  /** Changing one digit changes the value by the difference at that digit's weight. */
  lemma {:induction false} ValueUpdate(s: seq<int>, i: nat, v: int)
    requires i < |s|
    ensures Value(s[i := v]) == Value(s) + (v - s[i]) * Pow256(i)
  {
    var t := s[i := v];
    if i == 0 {
      assert t[1..] == s[1..];
    } else {
      assert t[1..] == s[1..][i - 1 := v];
      ValueUpdate(s[1..], i - 1, v);
      calc {
        Value(t);
        s[0] + 256 * Value(t[1..]);
        s[0] + 256 * (Value(s[1..]) + (v - s[i]) * Pow256(i - 1));
        { Distribute(256, Value(s[1..]), v - s[i], Pow256(i - 1)); Swap(256, v - s[i], Pow256(i - 1)); }
        s[0] + 256 * Value(s[1..]) + (v - s[i]) * (256 * Pow256(i - 1));
        Value(s) + (v - s[i]) * Pow256(i);
      }
    }
  }

  lemma Swap(c: int, a: int, b: int)
    ensures (c * a) * b == a * (c * b)
  {
  }

  /** Moving what exceeds a digit into the next one keeps the value. */
  lemma ValueMove(s: seq<int>, i: nat, carry: int)
    requires i + 1 < |s|
    ensures Value(s[i := s[i] - 256 * carry][i + 1 := s[i + 1] + carry]) == Value(s)
  {
    var t := s[i := s[i] - 256 * carry];
    ValueUpdate(s, i, s[i] - 256 * carry);
    ValueUpdate(t, i + 1, s[i + 1] + carry);
    calc {
      Value(t[i + 1 := s[i + 1] + carry]);
      Value(t) + carry * Pow256(i + 1);
      Value(s) + (-256 * carry) * Pow256(i) + carry * (256 * Pow256(i));
      { Cancel(carry, Pow256(i)); }
      Value(s);
    }
  }

  lemma Cancel(c: int, w: int)
    ensures (-256 * c) * w + c * (256 * w) == 0
  {
  }

  /** Digits at most b bound the value. */
  lemma {:induction false} ValueBound(s: seq<int>, b: int)
    requires forall i :: 0 <= i < |s| ==> 0 <= s[i] <= b
    ensures 0 <= Value(s)
    ensures 255 * Value(s) <= b * (Pow256(|s|) - 1)
  {
    if s != [] {
      ValueBound(s[1..], b);
      calc {
        255 * Value(s);
        255 * s[0] + 256 * (255 * Value(s[1..]));
      <= 255 * b + 256 * (b * (Pow256(|s| - 1) - 1));
        { BoundStep(b, Pow256(|s| - 1)); }
        b * (256 * Pow256(|s| - 1) - 1);
      }
    }
  }

  lemma BoundStep(b: int, w: int)
    ensures 255 * b + 256 * (b * (w - 1)) == b * (256 * w - 1)
  {
  }

  lemma BytesBound(s: seq<int>)
    requires Bytes(s)
    ensures 0 <= Value(s) < Pow256(|s|)
  {
    ValueBound(s, 255);
  }

  /** Byte sequences of one length are determined by their value. */
  lemma {:induction false} ValueInjective(s: seq<int>, t: seq<int>)
    requires |s| == |t| && Bytes(s) && Bytes(t) && Value(s) == Value(t)
    ensures s == t
  {
    if s != [] {
      assert s[0] == t[0];
      ValueInjective(s[1..], t[1..]);
      assert s == [s[0]] + s[1..];
      assert t == [t[0]] + t[1..];
    }
  }

  /** Digit-wise sums and multiples. */
  lemma {:induction false} ValueLinear(r: seq<int>, s: seq<int>, t: seq<int>, c: int)
    requires |r| == |s| == |t|
    requires forall i :: 0 <= i < |r| ==> r[i] == s[i] + c * t[i]
    ensures Value(r) == Value(s) + c * Value(t)
  {
    if r != [] {
      assert r[0] == s[0] + c * t[0];
      ValueLinear(r[1..], s[1..], t[1..], c);
      calc {
        Value(r);
        s[0] + c * t[0] + 256 * (Value(s[1..]) + c * Value(t[1..]));
        { LinearStep(c, t[0], Value(t[1..])); }
        s[0] + 256 * Value(s[1..]) + c * (t[0] + 256 * Value(t[1..]));
      }
    }
  }

  lemma LinearStep(c: int, a: int, b: int)
    ensures c * a + 256 * (c * b) == c * (a + 256 * b)
  {
  }

  lemma {:induction false} ValueZeros(s: seq<int>)
    requires forall i :: 0 <= i < |s| ==> s[i] == 0
    ensures Value(s) == 0
  {
    if s != [] {
      ValueZeros(s[1..]);
    }
  }

  /** A number in the first digit and zeros above it. */
  lemma ValueSmall(s: seq<int>)
    requires s != [] && forall i :: 1 <= i < |s| ==> s[i] == 0
    ensures Value(s) == s[0]
  {
    ValueZeros(s[1..]);
  }

  /** The 16-bit field at byte i. */
  function Get16(s: seq<u8>, i: nat): (v: int)
    requires i + 2 <= |s|
    ensures 0 <= v < 0x1_0000
  {
    var a: int, b: int := s[i], s[i + 1];
    a + 0x100 * b
  }

  /** The 32-bit field at byte i. */
  function Get32(s: seq<u8>, i: nat): (v: int)
    requires i + 4 <= |s|
    ensures 0 <= v < 0x1_0000_0000
  {
    var a: int, b: int, c: int, d: int := s[i], s[i + 1], s[i + 2], s[i + 3];
    a + 0x100 * b + 0x1_0000 * c + 0x100_0000 * d
  }

  /** A 32-bit field as four bytes: the only four it can be read from. */
  ghost function Field32(v: u32): (s: seq<u8>)
    ensures |s| == 4 && Get32(s, 0) == v
  {
    WriteReads(v);
    var f: seq<u8> :| |f| == 4 && Get32(f, 0) == v;
    f
  }

  function Write32(v: u32): seq<u8> {
    [v % 256, v / 0x100 % 256, v / 0x1_0000 % 256, v / 0x100_0000]
  }

  lemma WriteReads(v: u32)
    ensures |Write32(v)| == 4 && Get32(Write32(v), 0) == v
  {
    var n: int := v;
    assert n / 0x1_0000 == n / 0x100 / 0x100;
    assert n / 0x100_0000 == n / 0x1_0000 / 0x100;
    assert n == n % 0x100 + 0x100 * (n / 0x100);
  }

  lemma DigitSplit(a: int, b: int, high: int, high': int)
    requires 0 <= a < 256 && 0 <= b < 256 && a + 0x100 * high == b + 0x100 * high'
    ensures a == b && high == high'
  {
  }

  lemma Get32Injective(f: seq<u8>, g: seq<u8>)
    requires |f| == |g| == 4 && Get32(f, 0) == Get32(g, 0)
    ensures f == g
  {
    var x: seq<int>, y: seq<int> := f, g;
    DigitSplit(x[0], y[0], x[1] + 0x100 * x[2] + 0x1_0000 * x[3], y[1] + 0x100 * y[2] + 0x1_0000 * y[3]);
    DigitSplit(x[1], y[1], x[2] + 0x100 * x[3], y[2] + 0x100 * y[3]);
    DigitSplit(x[2], y[2], x[3], y[3]);
  }

  /** The four bytes a writer puts down are the field. */
  lemma WriteIsField(v: u32)
    ensures Write32(v) == Field32(v)
  {
    hide Write32;
    WriteReads(v);
    Get32Injective(Write32(v), Field32(v));
  }
}
