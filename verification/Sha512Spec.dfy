/** SHA-512 on native 64-bit words as FIPS 180-4 defines it. */
module Sha512Spec {
  import opened LittleEndian
  import opened BitString
  import opened Sha512Words
  import opened Sha512Constants

  const BLOCK := 128

  /** The working variables, or a hash value. */
  datatype Vars = Vars(a: U64, b: U64, c: U64, d: U64, e: U64, f: U64, g: U64, h: U64)

  function BigEndian(bytes: seq<u8>): nat {
    if bytes == [] then 0 else 256 * BigEndian(bytes[..|bytes| - 1]) + bytes[|bytes| - 1]
  }

  /** Section 5.2.2: word t of a block. */
  function MessageWord(m: seq<u8>, t: nat): U64
    requires |m| == BLOCK && t < 16
  {
    FromInt(BigEndian(m[8 * t..8 * t + 8]), 64)
  }

  /** Addition of several words, reduced once. */
  function Sum4(a: U64, b: U64, c: U64, d: U64): U64 {
    FromInt(ToInt(a) + ToInt(b) + ToInt(c) + ToInt(d), 64)
  }

  function Sum5(a: U64, b: U64, c: U64, d: U64, e: U64): U64 {
    FromInt(ToInt(a) + ToInt(b) + ToInt(c) + ToInt(d) + ToInt(e), 64)
  }

  /** Section 6.4.2 step 1. */
  function Schedule(m: seq<u8>, t: nat): U64
    requires |m| == BLOCK && t < 80
  {
    if t < 16 then MessageWord(m, t)
    else Sum4(SmallSigma1(Schedule(m, t - 2)), Schedule(m, t - 7), SmallSigma0(Schedule(m, t - 15)), Schedule(m, t - 16))
  }

  function K(t: nat): U64
    requires t < 80
  {
    FromInt(EntryValue(KTable(t)), 64)
  }

  function T1(v: Vars, k: U64, w: U64): U64 {
    Sum5(v.h, BigSigma1(v.e), Ch(v.e, v.f, v.g), k, w)
  }

  function T2(v: Vars): U64 {
    Plus(BigSigma0(v.a), Maj(v.a, v.b, v.c))
  }

  /** One turn of step 3. */
  function Round(v: Vars, k: U64, w: U64): Vars {
    Vars(Plus(T1(v, k, w), T2(v)), v.a, v.b, v.c, Plus(v.d, T1(v, k, w)), v.e, v.f, v.g)
  }

  function Rounds(v: Vars, m: seq<u8>, t: nat): Vars
    requires |m| == BLOCK && t <= 80
  {
    if t == 0 then v else Round(Rounds(v, m, t - 1), K(t - 1), Schedule(m, t - 1))
  }

  /** Step 4. */
  function AddVars(x: Vars, y: Vars): Vars {
    Vars(Plus(x.a, y.a), Plus(x.b, y.b), Plus(x.c, y.c), Plus(x.d, y.d),
         Plus(x.e, y.e), Plus(x.f, y.f), Plus(x.g, y.g), Plus(x.h, y.h))
  }

  function Compress(h: Vars, m: seq<u8>): Vars
    requires |m| == BLOCK
  {
    AddVars(h, Rounds(h, m, 80))
  }

  function InitialWord(i: nat): U64
    requires i < 8
  {
    FromInt(EntryValue(H0Table(i)), 64)
  }

  function InitialHash(): Vars {
    Vars(InitialWord(0), InitialWord(1), InitialWord(2), InitialWord(3),
         InitialWord(4), InitialWord(5), InitialWord(6), InitialWord(7))
  }

  lemma BlocksShrink(n: nat)
    requires n % BLOCK == 0
    ensures n > 0 ==> n >= BLOCK && (n - BLOCK) % BLOCK == 0
  {
  }

  /** The hash value after the whole blocks of s. */
  function HashBlocks(s: seq<u8>): Vars
    requires |s| % BLOCK == 0
  {
    BlocksShrink(|s|);
    if s == [] then InitialHash() else Compress(HashBlocks(s[..|s| - BLOCK]), s[|s| - BLOCK..])
  }

  /** The number of zero bytes between the 0x80 and the length. */
  function PadZeros(n: nat): (k: nat)
    ensures k < BLOCK && (n + 1 + k) % BLOCK == 112
  {
    (111 - n) % BLOCK
  }

  function ZeroBytes(n: nat): (s: seq<u8>)
    ensures |s| == n && forall i :: 0 <= i < n ==> s[i] == 0
  {
    seq(n, (i: nat) => 0)
  }

  /** Byte i, most significant first, of a number of 8 * n bits. */
  function ByteOfInt(v: nat, n: nat, i: nat): u8
    requires i < n
  {
    v / Pow2(8 * (n - 1 - i)) % 256
  }

  /** Section 5.1.2: the length in bits as a 128-bit number. */
  function LengthField(n: nat): (s: seq<u8>)
    ensures |s| == 16
  {
    seq(16, i requires 0 <= i < 16 => ByteOfInt(8 * n, 16, i))
  }

  /** A message closed for a length of n bytes. */
  function PadAs(message: seq<u8>, n: nat): (s: seq<u8>)
    ensures |s| % BLOCK == 0
  {
    message + [0x80] + ZeroBytes(PadZeros(|message|)) + LengthField(n)
  }

  function HashWord(h: Vars, j: nat): U64
    requires j < 8
  {
    match j
    case 0 => h.a
    case 1 => h.b
    case 2 => h.c
    case 3 => h.d
    case 4 => h.e
    case 5 => h.f
    case 6 => h.g
    case _ => h.h
  }

  /** The digest: eight words, most significant byte first. */
  function DigestOf(h: Vars): (s: seq<u8>)
    ensures |s| == 64
  {
    seq(64, i requires 0 <= i < 64 => ByteOfInt(ToInt(HashWord(h, i / 8)), 8, i % 8))
  }

  function Sha512As(message: seq<u8>, n: nat): seq<u8> {
    DigestOf(HashBlocks(PadAs(message, n)))
  }

  /** The digest of section 6.4. */
  function Sha512(message: seq<u8>): seq<u8> {
    Sha512As(message, |message|)
  }
}
