/** SHA-512 as the original runs it: halves in 32-bit words, one block buffer, bytes absorbed one at a time. */
module Sha512 {
  import opened Congruence
  import opened LittleEndian
  import opened BitString
  import opened Sequences
  import opened Sha512Words
  import opened Sha512Constants
  import opened Sha512Spec

  lemma PlusOf(u: nat, v: nat)
    ensures Plus(FromInt(u, 64), FromInt(v, 64)) == FromInt(u + v, 64)
  {
    hide FromInt, ToInt, Pow2;
    var m := Pow2(64);
    Truncated(u, 64);
    Truncated(v, 64);
    var high := u / m + v / m;
    assert u + v == (u % m + v % m) + m * high by {
      DivMod(u, m);
      DivMod(v, m);
      assert m * (u / m) + m * (v / m) == m * high;
      assert (u / m) * m == m * (u / m) && (v / m) * m == m * (v / m);
    }
    FromIntLow(u % m + v % m, high, 64);
  }

  lemma Truncated(v: nat, w: nat)
    ensures ToInt(FromInt(v, w)) == v % Pow2(w)
  {
    hide FromInt, ToInt, Pow2;
    var m := Pow2(w);
    DivMod(v, m);
    assert (v / m) * m == m * (v / m);
    FromIntLow(v % m, v / m, w);
    SmallRoundTrip(v % m, w);
  }

  lemma PlusPlus(a: U64, b: U64, c: U64, d: U64)
    ensures Plus(Plus(a, b), Plus(c, d)) == Sum4(a, b, c, d)
  {
    hide FromInt, ToInt;
    PlusOf(ToInt(a) + ToInt(b), ToInt(c) + ToInt(d));
  }

  lemma PlusFive(a: U64, b: U64, c: U64, d: U64, e: U64)
    ensures Plus(Plus(a, b), Plus(c, Plus(d, e))) == Sum5(a, b, c, d, e)
  {
    hide FromInt, ToInt;
    FromToInt(c);
    PlusOf(ToInt(c), ToInt(d) + ToInt(e));
    PlusOf(ToInt(a) + ToInt(b), ToInt(c) + (ToInt(d) + ToInt(e)));
  }

  /** A big-endian load: each byte shifted into its place. */
  function Load32(bytes: seq<u8>, at: nat): U32
    requires at + 4 <= |bytes|
  {
    Or(Or(Or(Shl(FromInt(bytes[at], 32), 24), Shl(FromInt(bytes[at + 1], 32), 16)), Shl(FromInt(bytes[at + 2], 32), 8)),
       FromInt(bytes[at + 3], 32))
  }

  /** The bits of a byte string, its last byte lowest. */
  function ByteBits(bytes: seq<u8>): (b: Bits)
    ensures |b| == 8 * |bytes|
  {
    if bytes == [] then [] else FromInt(bytes[|bytes| - 1], 8) + ByteBits(bytes[..|bytes| - 1])
  }

  lemma {:induction false} ByteBitsJoin(a: seq<u8>, b: seq<u8>)
    ensures ByteBits(a + b) == ByteBits(b) + ByteBits(a)
    decreases |b|
  {
    if b == [] {
      assert a + b == a;
    } else {
      var n := |b| - 1;
      assert (a + b)[..|a + b| - 1] == a + b[..n];
      ByteBitsJoin(a, b[..n]);
    }
  }

  lemma {:induction false} BigEndianBits(bytes: seq<u8>)
    ensures FromInt(BigEndian(bytes), 8 * |bytes|) == ByteBits(bytes)
  {
    hide FromInt, Pow2;
    if bytes == [] {
      assert FromInt(BigEndian(bytes), 0) == [];
    } else {
      var n := |bytes| - 1;
      var last: nat, high := bytes[n], BigEndian(bytes[..n]);
      BigEndianBits(bytes[..n]);
      FromIntSplit(256 * high + last, 8, 8 * n);
      EightBits();
      QuotientUnique(256 * high + last, 256, high, last);
      FromIntLow(last, high, 8);
    }
  }

  /** A byte in a 32-bit word leaves the upper 24 bits clear. */
  lemma ByteWide(v: u8)
    ensures FromInt(v, 32) == FromInt(v, 8) + Zeros(24)
  {
    hide FromInt;
    FromIntSplit(v, 8, 24);
    EightBits();
    FromZero(24);
  }

  lemma OrShifted(a: Bits, b: Bits, c: Bits, d: Bits)
    requires |a| == |b| == |c| == |d| == 8
    ensures Or(Or(Or(Shl(a + Zeros(24), 24), Shl(b + Zeros(24), 16)), Shl(c + Zeros(24), 8)), d + Zeros(24))
      == d + c + b + a
  {
    var x := Or(Or(Or(Shl(a + Zeros(24), 24), Shl(b + Zeros(24), 16)), Shl(c + Zeros(24), 8)), d + Zeros(24));
    var y := d + c + b + a;
    forall i | 0 <= i < 32
      ensures x[i] == y[i]
    {
    }
  }

  lemma FourBytes(bytes: seq<u8>, at: nat)
    requires at + 4 <= |bytes|
    ensures ByteBits(bytes[at..at + 4])
      == FromInt(bytes[at + 3], 8) + FromInt(bytes[at + 2], 8) + FromInt(bytes[at + 1], 8) + FromInt(bytes[at], 8)
  {
    hide FromInt;
    var s := bytes[at..at + 4];
    assert s[..3][..2] == s[..2] && s[..2][..1] == s[..1] && s[..1][..0] == [];
    assert ByteBits(s) == FromInt(s[3], 8) + ByteBits(s[..3]);
    assert ByteBits(s[..3]) == FromInt(s[2], 8) + ByteBits(s[..2]);
    assert ByteBits(s[..2]) == FromInt(s[1], 8) + ByteBits(s[..1]);
    assert ByteBits(s[..1]) == FromInt(s[0], 8) + ByteBits(s[..0]);
  }

  lemma LoadIs(bytes: seq<u8>, at: nat)
    requires at + 4 <= |bytes|
    ensures Load32(bytes, at) == ByteBits(bytes[at..at + 4])
  {
    hide FromInt, Or, Shl, Zeros, ByteBits;
    ByteWide(bytes[at]);
    ByteWide(bytes[at + 1]);
    ByteWide(bytes[at + 2]);
    ByteWide(bytes[at + 3]);
    OrShifted(FromInt(bytes[at], 8), FromInt(bytes[at + 1], 8), FromInt(bytes[at + 2], 8), FromInt(bytes[at + 3], 8));
    FourBytes(bytes, at);
  }

  /** Two loads make the message word of the standard. */
  lemma LoadJoin(m: seq<u8>, t: nat)
    requires |m| == BLOCK && t < 16
    ensures Join(Word(Load32(m, 8 * t), Load32(m, 8 * t + 4))) == MessageWord(m, t)
  {
    hide FromInt, Load32, ByteBits, BigEndian;
    LoadIs(m, 8 * t);
    LoadIs(m, 8 * t + 4);
    var s := m[8 * t..8 * t + 8];
    assert s == m[8 * t..8 * t + 4] + m[8 * t + 4..8 * t + 8];
    ByteBitsJoin(m[8 * t..8 * t + 4], m[8 * t + 4..8 * t + 8]);
    BigEndianBits(s);
  }

  function VarsOf(v: seq<Word>): Vars
    requires |v| == 8
  {
    Vars(Join(v[0]), Join(v[1]), Join(v[2]), Join(v[3]), Join(v[4]), Join(v[5]), Join(v[6]), Join(v[7]))
  }

  function StateWord(s: seq<U32>, j: nat): Word
    requires |s| == 16 && j < 8
  {
    Word(s[2 * j], s[2 * j + 1])
  }

  /** The hash value a state of sixteen halves stands for. */
  function StateVars(s: seq<U32>): Vars
    requires |s| == 16
  {
    Vars(Join(StateWord(s, 0)), Join(StateWord(s, 1)), Join(StateWord(s, 2)), Join(StateWord(s, 3)),
         Join(StateWord(s, 4)), Join(StateWord(s, 5)), Join(StateWord(s, 6)), Join(StateWord(s, 7)))
  }

  function ScheduleWord(a: Word, b: Word, c: Word, d: Word): Word {
    WordAdd(WordAdd(WordSmallSigma1(a), b), WordAdd(WordSmallSigma0(c), d))
  }

  lemma ScheduleJoin(a: Word, b: Word, c: Word, d: Word)
    ensures Join(ScheduleWord(a, b, c, d)) == Sum4(SmallSigma1(Join(a)), Join(b), SmallSigma0(Join(c)), Join(d))
  {
    hide Join, WordAdd, Plus, Sum4, WordSmallSigma0, WordSmallSigma1, SmallSigma0, SmallSigma1;
    SigmaJoin(a);
    SigmaJoin(c);
    AddJoin(WordSmallSigma1(a), b);
    AddJoin(WordSmallSigma0(c), d);
    AddJoin(WordAdd(WordSmallSigma1(a), b), WordAdd(WordSmallSigma0(c), d));
    PlusPlus(SmallSigma1(Join(a)), Join(b), SmallSigma0(Join(c)), Join(d));
  }

  /** Step 1: the message schedule. */
  method MakeSchedule(block: seq<u8>) returns (w: array<Word>)
    requires |block| == BLOCK
    ensures fresh(w) && w.Length == 80 && forall t :: 0 <= t < 80 ==> Join(w[t]) == Schedule(block, t)
  {
    hide Join, Load32, MessageWord, Sum4, SmallSigma0, SmallSigma1, ScheduleWord;
    w := new Word[80](i => Word(FromInt(0, 32), FromInt(0, 32)));
    for t := 0 to 16
      invariant forall k :: 0 <= k < t ==> Join(w[k]) == Schedule(block, k)
    {
      LoadJoin(block, t);
      w[t] := Word(Load32(block, 8 * t), Load32(block, 8 * t + 4));
    }
    for t := 16 to 80
      invariant forall k :: 0 <= k < t ==> Join(w[k]) == Schedule(block, k)
    {
      ScheduleJoin(w[t - 2], w[t - 7], w[t - 15], w[t - 16]);
      w[t] := ScheduleWord(w[t - 2], w[t - 7], w[t - 15], w[t - 16]);
    }
  }

  function WordT1(h: Word, e: Word, f: Word, g: Word, k: Word, w: Word): Word {
    WordAdd(WordAdd(h, WordBigSigma1(e)), WordAdd(WordCh(e, f, g), WordAdd(k, w)))
  }

  function WordT2(a: Word, b: Word, c: Word): Word {
    WordAdd(WordBigSigma0(a), WordMaj(a, b, c))
  }

  lemma T1Join(h: Word, e: Word, f: Word, g: Word, k: Word, w: Word)
    ensures Join(WordT1(h, e, f, g, k, w))
      == Sum5(Join(h), BigSigma1(Join(e)), Ch(Join(e), Join(f), Join(g)), Join(k), Join(w))
  {
    hide Join, WordAdd, Plus, Sum5, WordBigSigma1, WordCh, BigSigma1, Ch;
    SigmaJoin(e);
    ChJoin(e, f, g);
    AddJoin(k, w);
    AddJoin(h, WordBigSigma1(e));
    AddJoin(WordCh(e, f, g), WordAdd(k, w));
    AddJoin(WordAdd(h, WordBigSigma1(e)), WordAdd(WordCh(e, f, g), WordAdd(k, w)));
    PlusFive(Join(h), BigSigma1(Join(e)), Ch(Join(e), Join(f), Join(g)), Join(k), Join(w));
  }

  lemma T2Join(a: Word, b: Word, c: Word)
    ensures Join(WordT2(a, b, c)) == Plus(BigSigma0(Join(a)), Maj(Join(a), Join(b), Join(c)))
  {
    hide Join, WordAdd, Plus, WordBigSigma0, WordMaj, BigSigma0, Maj;
    SigmaJoin(a);
    MajJoin(a, b, c);
    AddJoin(WordBigSigma0(a), WordMaj(a, b, c));
  }

  /** One round on the eight working variables in place. */
  method RoundStep(v: array<Word>, k: Word, w: Word)
    requires v.Length == 8
    modifies v
    ensures VarsOf(v[..]) == Round(old(VarsOf(v[..])), Join(k), Join(w))
  {
    hide Join, WordT1, WordT2, WordAdd, Plus, Sum5, BigSigma0, BigSigma1, Ch, Maj;
    var t1 := WordT1(v[7], v[4], v[5], v[6], k, w);
    T1Join(v[7], v[4], v[5], v[6], k, w);
    var t2 := WordT2(v[0], v[1], v[2]);
    T2Join(v[0], v[1], v[2]);
    AddJoin(v[3], t1);
    AddJoin(t1, t2);
    v[7] := v[6];
    v[6] := v[5];
    v[5] := v[4];
    v[4] := WordAdd(v[3], t1);
    v[3] := v[2];
    v[2] := v[1];
    v[1] := v[0];
    v[0] := WordAdd(t1, t2);
  }

  function TableWord(e: Halves): Word {
    Word(FromInt(e.hi, 32), FromInt(e.lo, 32))
  }

  lemma TableJoin(e: Halves)
    ensures Join(TableWord(e)) == FromInt(EntryValue(e), 64)
  {
    hide FromInt, Pow2;
    Pow32Value();
    FromIntSplit(EntryValue(e), 32, 32);
    QuotientUnique(EntryValue(e), TWO_32, e.hi, e.lo);
    FromIntLow(e.lo, e.hi, 32);
  }

  lemma Pow32Value()
    ensures Pow2(32) == TWO_32
  {
    assert Pow2(8) == 256;
    assert Pow2(16) == 65536;
    assert Pow2(24) == 16777216;
  }

  /** Step 3: the rounds. */
  method RunRounds(v: array<Word>, w: array<Word>, ghost block: seq<u8>)
    requires v.Length == 8 && w.Length == 80 && v != w && |block| == BLOCK
    requires forall t :: 0 <= t < 80 ==> Join(w[t]) == Schedule(block, t)
    modifies v
    ensures VarsOf(v[..]) == Rounds(old(VarsOf(v[..])), block, 80)
  {
    hide Join, Schedule, VarsOf, Round, TableWord, KTable, FromInt;
    ghost var start := VarsOf(v[..]);
    for t := 0 to 80
      invariant VarsOf(v[..]) == Rounds(start, block, t)
      invariant forall k :: 0 <= k < 80 ==> Join(w[k]) == Schedule(block, k)
    {
      TableJoin(KTable(t));
      RoundStep(v, TableWord(KTable(t)), w[t]);
    }
  }

  /** Absorb one block into the state. */
  method Block(state: array<U32>, block: seq<u8>)
    requires state.Length == 16 && |block| == BLOCK
    modifies state
    ensures StateVars(state[..]) == Compress(old(StateVars(state[..])), block)
  {
    hide Join, Schedule, Rounds, WordAdd, Plus;
    var w := MakeSchedule(block);
    var v := new Word[8](j requires 0 <= j < 8 reads state => StateWord(state[..], j));
    assert VarsOf(v[..]) == StateVars(state[..]);
    RunRounds(v, w, block);
    AddState(state, v);
  }

  /** Step 4: add the working variables into the state. */
  method AddState(state: array<U32>, v: array<Word>)
    requires state.Length == 16 && v.Length == 8
    modifies state
    ensures StateVars(state[..]) == AddVars(old(StateVars(state[..])), VarsOf(v[..]))
  {
    hide Join, WordAdd, Plus;
    ghost var s, x := state[..], v[..];
    for j := 0 to 8
      invariant v[..] == x
      invariant forall i: nat :: j <= i < 8 ==> StateWord(state[..], i) == StateWord(s, i)
      invariant forall i: nat :: i < j ==> StateWord(state[..], i) == WordAdd(StateWord(s, i), x[i])
    {
      var k := WordAdd(StateWord(state[..], j), v[j]);
      state[2 * j] := k.hi;
      state[2 * j + 1] := k.lo;
    }
    AddedState(s, state[..], x);
  }

  lemma AddedState(s: seq<U32>, t: seq<U32>, x: seq<Word>)
    requires |s| == |t| == 16 && |x| == 8
    requires forall i: nat :: i < 8 ==> StateWord(t, i) == WordAdd(StateWord(s, i), x[i])
    ensures StateVars(t) == AddVars(StateVars(s), VarsOf(x))
  {
    hide Join, WordAdd, Plus, StateWord;
    AddJoin(StateWord(s, 0), x[0]);
    AddJoin(StateWord(s, 1), x[1]);
    AddJoin(StateWord(s, 2), x[2]);
    AddJoin(StateWord(s, 3), x[3]);
    AddJoin(StateWord(s, 4), x[4]);
    AddJoin(StateWord(s, 5), x[5]);
    AddJoin(StateWord(s, 6), x[6]);
    AddJoin(StateWord(s, 7), x[7]);
  }

  /** The state holds the hash of all of s but its last n bytes, and the buffer those n bytes. */
  ghost predicate Held(state: seq<U32>, buffer: seq<u8>, s: seq<u8>, n: nat)
    requires |state| == 16 && |buffer| == BLOCK
  {
    && n <= BLOCK && n <= |s| && (|s| - n) % BLOCK == 0
    && StateVars(state) == HashBlocks(s[..|s| - n])
    && buffer[..n] == s[|s| - n..]
  }

  /** One more byte in the buffer is one more byte held. */
  lemma HeldByte(state: seq<U32>, before: seq<u8>, after: seq<u8>, s: seq<u8>, n: nat, b: u8)
    requires |state| == 16 && |before| == |after| == BLOCK && n < BLOCK && Held(state, before, s, n)
    requires after == before[n := b]
    ensures Held(state, after, s + [b], n + 1)
  {
    hide StateVars, HashBlocks;
    var t := s + [b];
    assert t[..|t| - (n + 1)] == s[..|s| - n];
    assert after[..n + 1] == before[..n] + [b];
    assert t[|t| - (n + 1)..] == s[|s| - n..] + [b];
  }

  /** A full buffer, once compressed, leaves nothing held back. */
  lemma HeldBlock(before: seq<U32>, after: seq<U32>, buffer: seq<u8>, s: seq<u8>)
    requires |before| == |after| == 16 && |buffer| == BLOCK && Held(before, buffer, s, BLOCK)
    requires StateVars(after) == Compress(StateVars(before), buffer)
    ensures Held(after, buffer, s, 0)
  {
    hide StateVars, Compress;
    assert buffer[..BLOCK] == buffer;
    assert s[..|s| - 0] == s;
  }

  class Context {
    const state: array<U32>
    const buffer: array<u8>
    var countLo: U32
    var countHi: U32
    var buffered: nat

    ghost predicate Shape() {
      state.Length == 16 && buffer.Length == BLOCK
    }

    /** The context after absorbing exactly these bytes. */
    ghost predicate Absorbed(message: seq<u8>)
      reads this, state, buffer
    {
      && Shape() && buffered < BLOCK && Held(state[..], buffer[..], message, buffered)
      && ToInt(countLo + countHi) == |message| % TWO_64
    }

    constructor ()
      ensures Shape() && fresh(state) && fresh(buffer)
    {
      var zero: U32 := FromInt(0, 32);
      state := new U32[16](i => zero);
      buffer := new u8[BLOCK](i => 0);
      countLo, countHi := zero, zero;
      buffered := 0;
    }

    /** Start a new hash. */
    method Init()
      requires Shape()
      modifies this, state
      ensures Absorbed([])
    {
      hide FromInt, ToInt, H0Table;
      for i := 0 to 16
        invariant forall k: nat :: k < i ==> state[k] == InitialHalf(k)
      {
        state[i] := InitialHalf(i);
      }
      countLo, countHi := FromInt(0, 32), FromInt(0, 32);
      buffered := 0;
      StartHeld(state[..], buffer[..]);
      EmptyCount();
    }

    /** Put one byte in the buffer, compressing it when it is full. */
    method Absorb(b: u8, ghost s: seq<u8>)
      requires Shape() && buffered < BLOCK && Held(state[..], buffer[..], s, buffered)
      modifies state, buffer, `buffered
      ensures buffered < BLOCK && Held(state[..], buffer[..], s + [b], buffered)
    {
      hide Held, Compress, StateVars;
      ghost var before, start := buffer[..], state[..];
      buffer[buffered] := b;
      HeldByte(start, before, buffer[..], s, buffered, b);
      buffered := buffered + 1;
      if buffered == BLOCK {
        Block(state, buffer[..]);
        HeldBlock(start, state[..], buffer[..], s + [b]);
        buffered := 0;
      }
    }

    /** Absorb more bytes; any number of calls of any sizes absorb their concatenation. */
    method Update(data: seq<u8>, ghost message: seq<u8>)
      requires Absorbed(message) && |data| < TWO_32
      modifies this, state, buffer
      ensures Absorbed(message + data)
    {
      hide Held, FromInt, ToInt, Plus;
      CountStep(countLo, countHi, |message|, |data|);
      countLo := Plus(countLo, FromInt(|data|, 32));
      if ToInt(countLo) < ToInt(FromInt(|data|, 32)) {
        countHi := Plus(countHi, FromInt(1, 32));
      }
      assert message + data[..0] == message;
      for i := 0 to |data|
        invariant Shape() && buffered < BLOCK && Held(state[..], buffer[..], message + data[..i], buffered)
        invariant ToInt(countLo + countHi) == (|message| + |data|) % TWO_64
      {
        Absorb(data[i], message + data[..i]);
        assert message + data[..i + 1] == message + data[..i] + [data[i]];
      }
      assert data[..|data|] == data;
    }

    /** Zero the buffer from where it stands up to a position. */
    method ZeroTo(end: nat, ghost s: seq<u8>)
      requires Shape() && buffered <= end <= BLOCK && Held(state[..], buffer[..], s, buffered)
      modifies buffer, `buffered
      ensures buffered == end && Held(state[..], buffer[..], s + ZeroBytes(end - old(buffered)), end)
    {
      hide Held;
      ghost var from := buffered;
      assert s + ZeroBytes(0) == s;
      while buffered < end
        invariant from <= buffered <= end && Held(state[..], buffer[..], s + ZeroBytes(buffered - from), buffered)
      {
        ghost var before := buffer[..];
        buffer[buffered] := 0;
        HeldByte(state[..], before, buffer[..], s + ZeroBytes(buffered - from), buffered, 0);
        assert s + ZeroBytes(buffered + 1 - from) == s + ZeroBytes(buffered - from) + [0];
        buffered := buffered + 1;
      }
    }

    /** Write the three words of the bit count, most significant byte first, behind 116 bytes. */
    method PutCount(top: U32, hi: U32, lo: U32, ghost s: seq<u8>)
      requires Shape() && Held(state[..], buffer[..], s, 116)
      modifies buffer
      ensures Held(state[..], buffer[..], s + CountBytes(top, hi, lo), BLOCK)
    {
      hide StateVars, HashBlocks, WordByte;
      ghost var before := buffer[..];
      for i := 0 to 4
        invariant buffer[..116] == before[..116]
        invariant forall k: nat :: k < i ==> buffer[116 + k] == WordByte(top, k)
        invariant forall k: nat :: k < i ==> buffer[120 + k] == WordByte(hi, k)
        invariant forall k: nat :: k < i ==> buffer[124 + k] == WordByte(lo, k)
      {
        buffer[116 + i] := WordByte(top, i);
        buffer[120 + i] := WordByte(hi, i);
        buffer[124 + i] := WordByte(lo, i);
      }
      var t := s + CountBytes(top, hi, lo);
      assert t[..|t| - BLOCK] == s[..|s| - 116];
      assert buffer[..] == before[..116] + CountBytes(top, hi, lo);
      assert t[|t| - BLOCK..] == s[|s| - 116..] + CountBytes(top, hi, lo);
    }

    /** Pad, finish and write the digest: the standard's for every message of fewer than 2^64 bytes. */
    method Final(digest: array<u8>, ghost message: seq<u8>)
      requires Absorbed(message) && digest.Length == 64 && digest != buffer
      modifies this, state, buffer, digest
      ensures digest[..] == Sha512As(message, |message| % TWO_64)
      ensures |message| < TWO_64 ==> digest[..] == Sha512(message)
    {
      hide Held, FromInt, ToInt, Pow2, Compress, StateVars, HashBlocks, LengthField, CountBytes, DigestOf;
      var top: U32 := Shr(countHi, 29);
      var hi: U32 := Or(Shl(countHi, 3), Shr(countLo, 29));
      var lo: U32 := Shl(countLo, 3);
      ghost var n := |message| % TWO_64;
      CountField(countHi, countLo, n);
      Room(message, buffered);
      PadTail(message, n, CountBytes(top, hi, lo));
      ghost var padded := PadAs(message, n);
      PutCount(top, hi, lo, message + [0x80] + ZeroBytes(PadZeros(|message|) + 4));
      ghost var full := state[..];
      Block(state, buffer[..]);
      HeldBlock(full, state[..], buffer[..], padded);
      FinalState(state[..], buffer[..], padded);
      WriteDigest(digest);
    }

    /** The 0x80 and the zeros, spilling into another block when the count would not fit. */
    method Room(ghost message: seq<u8>, n: nat)
      requires Shape() && n == buffered < BLOCK && Held(state[..], buffer[..], message, buffered)
      modifies state, buffer, `buffered
      ensures Held(state[..], buffer[..], message + [0x80] + ZeroBytes(PadZeros(|message|) + 4), 116)
    {
      hide Held, Compress, StateVars;
      TailLength(state[..], buffer[..], message, n);
      ghost var before := buffer[..];
      buffer[buffered] := 0x80;
      HeldByte(state[..], before, buffer[..], message, buffered, 0x80);
      buffered := buffered + 1;
      ghost var s := message + [0x80];
      if buffered > 112 {
        ZeroTo(BLOCK, s);
        ghost var full := state[..];
        Block(state, buffer[..]);
        HeldBlock(full, state[..], buffer[..], s + ZeroBytes(BLOCK - n - 1));
        buffered := 0;
        ZeroTo(116, s + ZeroBytes(BLOCK - n - 1));
        assert s + ZeroBytes(BLOCK - n - 1) + ZeroBytes(116) == s + ZeroBytes(PadZeros(|message|) + 4);
      } else {
        ZeroTo(116, s);
      }
    }

    method WriteDigest(digest: array<u8>)
      requires Shape() && digest.Length == 64
      modifies digest
      ensures digest[..] == DigestOf(StateVars(old(state[..])))
    {
      hide WordByte;
      ghost var s := state[..];
      for i := 0 to 64
        invariant state[..] == s
        invariant forall k: nat :: k < i ==> digest[k] == WordByte(s[k / 4], k % 4)
      {
        digest[i] := WordByte(state[i / 4], i % 4);
      }
      DigestBytes(s, digest[..]);
    }
  }

  /** Hash a message given in parts: the digest is that of the whole, however it was cut. */
  method HashParts(parts: seq<seq<u8>>) returns (digest: array<u8>)
    requires forall p :: p in parts ==> |p| < TWO_32
    ensures fresh(digest) && digest[..] == Sha512As(Joined(parts), |Joined(parts)| % TWO_64)
    ensures |Joined(parts)| < TWO_64 ==> digest[..] == Sha512(Joined(parts))
  {
    hide Sha512As, Sha512, Held, ToInt, FromInt, Context.Absorbed;
    var ctx := new Context();
    ctx.Init();
    for i := 0 to |parts|
      invariant ctx.Shape() && ctx.Absorbed(Joined(parts[..i])) && fresh(ctx) && fresh(ctx.state) && fresh(ctx.buffer)
    {
      JoinedLast(parts, i);
      ctx.Update(parts[i], Joined(parts[..i]));
    }
    assert parts[..|parts|] == parts;
    ghost var message := Joined(parts);
    digest := new u8[64](i => 0);
    ctx.Final(digest, message);
  }

  function InitialHalf(i: nat): U32
    requires i < 16
  {
    if i % 2 == 0 then FromInt(H0Table(i / 2).hi, 32) else FromInt(H0Table(i / 2).lo, 32)
  }

  lemma InitialState(s: seq<U32>)
    requires |s| == 16 && forall i: nat :: i < 16 ==> s[i] == InitialHalf(i)
    ensures StateVars(s) == InitialHash()
  {
    hide FromInt, Join, H0Table, EntryValue;
    forall j: nat | j < 8
      ensures Join(StateWord(s, j)) == InitialWord(j)
    {
      assert s[2 * j] == InitialHalf(2 * j) && s[2 * j + 1] == InitialHalf(2 * j + 1);
      TableJoin(H0Table(j));
    }
  }

  lemma StartHeld(state: seq<U32>, buffer: seq<u8>)
    requires |state| == 16 && |buffer| == BLOCK && forall i: nat :: i < 16 ==> state[i] == InitialHalf(i)
    ensures Held(state, buffer, [], 0)
  {
    hide InitialHalf, StateVars, InitialHash;
    InitialState(state);
  }

  lemma EmptyCount()
    ensures ToInt(FromInt(0, 32) + FromInt(0, 32)) == 0
  {
    hide ToInt, FromInt;
    FromZero(32);
    ZerosValue(64);
    assert Zeros(32) + Zeros(32) == Zeros(64);
  }

  lemma Pow64Value()
    ensures Pow2(64) == TWO_64
  {
    hide Pow2;
    Pow32Value();
    Pow2Sum(32, 32);
  }

  lemma {:induction false} Pow2Sum(m: nat, n: nat)
    ensures Pow2(m + n) == Pow2(m) * Pow2(n)
    decreases m
  {
    if m > 0 {
      Pow2Sum(m - 1, n);
      TwiceTimes(Pow2(m - 1), Pow2(n));
    }
  }

  /** Adding a length to the byte count carries into its high half exactly when the low half wrapped. */
  lemma CountStep(lo: U32, hi: U32, n: nat, length: nat)
    requires ToInt(lo + hi) == n % TWO_64 && length < TWO_32
    ensures var lo' := Plus(lo, FromInt(length, 32));
            var hi' := if ToInt(lo') < ToInt(FromInt(length, 32)) then Plus(hi, FromInt(1, 32)) else hi;
            ToInt(lo' + hi') == (n + length) % TWO_64
  {
    hide FromInt, ToInt, Pow2, Plus;
    var more := Word(FromInt(0, 32), FromInt(length, 32));
    var x := Word(hi, lo);
    CountAdd(x, length);
    CarrySymmetric(lo, FromInt(length, 32), hi);
    CountMod(ToInt(lo + hi), length, n);
  }

  lemma CountMod(c: nat, length: nat, n: nat)
    requires c == n % TWO_64
    ensures (c + length) % TWO_64 == (n + length) % TWO_64
  {
  }

  /** The count as a 64-bit word plus a length. */
  lemma CountAdd(x: Word, length: nat)
    requires length < TWO_32
    ensures ToInt(Join(WordAdd(x, Word(FromInt(0, 32), FromInt(length, 32))))) == (ToInt(Join(x)) + length) % TWO_64
  {
    hide FromInt, ToInt, Pow2, WordAdd;
    var y := Word(FromInt(0, 32), FromInt(length, 32));
    AddJoin(x, y);
    FromZero(32);
    ZerosValue(32);
    ToIntJoin(y.lo, y.hi);
    Pow32Value();
    SmallRoundTrip(length, 32);
    Pow64Value();
    Truncated(ToInt(Join(x)) + length, 64);
  }

  /** The wrap can be seen from either addend; adding a zero high half changes nothing. */
  lemma CarrySymmetric(lo: U32, more: U32, hi: U32)
    ensures var s := Plus(lo, more);
            WordAdd(Word(hi, lo), Word(FromInt(0, 32), more))
              == Word(if ToInt(s) < ToInt(more) then Plus(hi, FromInt(1, 32)) else hi, s)
  {
    hide FromInt, ToInt, Pow2;
    CarryIs(lo, more);
    CarryIs(more, lo);
    FromZero(32);
    ZerosValue(32);
    FromToInt(hi);
  }

  /** Byte i, most significant first, of a 32-bit word. */
  function WordByte(x: U32, i: nat): u8
    requires i < 4
  {
    ByteRange(x, 24 - 8 * i);
    ToInt(And(Shr(x, 24 - 8 * i), FromInt(0xFF, 32)))
  }

  function CountBytes(top: U32, hi: U32, lo: U32): (s: seq<u8>)
    ensures |s| == 12
  {
    seq(12, i requires 0 <= i < 12 => WordByte(if i < 4 then top else if i < 8 then hi else lo, i % 4))
  }

  /** Shifting down and masking picks out eight bits. */
  lemma ByteRange(x: U32, n: nat)
    requires n <= 24
    ensures ToInt(And(Shr(x, n), FromInt(0xFF, 32))) == ToInt(x[n..n + 8]) < 256
  {
    hide FromInt, ToInt, Pow2;
    FromIntSplit(0xFF, 8, 24);
    EightBits();
    FromZero(24);
    EightOnes();
    var masked := And(Shr(x, n), FromInt(0xFF, 32));
    MaskedBits(x, n, FromInt(0xFF, 32));
    ToIntJoin(x[n..n + 8], Zeros(24));
    ZerosValue(24);
    ToIntBound(x[n..n + 8]);
  }

  lemma MaskedBits(x: U32, n: nat, mask: U32)
    requires n <= 24 && mask[8..] == Zeros(24) && forall i :: 0 <= i < 8 ==> mask[i]
    ensures And(Shr(x, n), mask) == x[n..n + 8] + Zeros(24)
  {
    var a, b := And(Shr(x, n), mask), x[n..n + 8] + Zeros(24);
    forall i | 0 <= i < 32
      ensures a[i] == b[i]
    {
      if i >= 8 {
        assert mask[8..][i - 8] == mask[i];
      }
    }
  }

  lemma EightOnes()
    ensures forall i :: 0 <= i < 8 ==> FromInt(0xFF, 8)[i]
  {
    assert FromInt(0xFF, 8) == [true, true, true, true, true, true, true, true];
  }

  /** A byte of a word is the byte of the number the word is part of. */
  lemma ByteInWord(x: Bits, j: nat, w: U32, i: nat, n: nat)
    requires |x| == 8 * n && n % 4 == 0 && 4 * j + 4 <= n && i < 4
    requires w == x[|x| - 32 * j - 32..|x| - 32 * j]
    ensures WordByte(w, i) == ByteOfInt(ToInt(x), n, 4 * j + i)
  {
    hide FromInt, ToInt, Pow2;
    ByteRange(w, 24 - 8 * i);
    var at := 8 * (n - 1 - (4 * j + i));
    ByteOfBits(x, at);
    var low := |x| - 32 * j - 32;
    assert at == low + (24 - 8 * i);
    SliceOfSlice(x, low, low + 32, 24 - 8 * i, 24 - 8 * i + 8);
  }

  /** The three count words, behind four zero bytes, are the 128-bit length in bits. */
  lemma CountField(hi: U32, lo: U32, n: nat)
    requires ToInt(lo + hi) == n
    ensures ZeroBytes(4) + CountBytes(Shr(hi, 29), Or(Shl(hi, 3), Shr(lo, 29)), Shl(lo, 3)) == LengthField(n)
  {
    hide FromInt, ToInt, Pow2, WordByte, ByteOfInt;
    var top: U32, mid: U32, low: U32 := Shr(hi, 29), Or(Shl(hi, 3), Shr(lo, 29)), Shl(lo, 3);
    var a, b := ZeroBytes(4) + CountBytes(top, mid, low), LengthField(n);
    forall i | 0 <= i < 16
      ensures a[i] == b[i]
    {
      CountByte(top, mid, low, n, i) by {
        CountBits(hi, lo);
        CountValue(hi, lo, n);
      }
    }
  }

  /** One byte of the length field. */
  lemma CountByte(top: U32, mid: U32, low: U32, n: nat, i: nat)
    requires i < 16 && ToInt(low + mid + top + Zeros(32)) == 8 * n
    ensures (ZeroBytes(4) + CountBytes(top, mid, low))[i] == ByteOfInt(8 * n, 16, i)
  {
    hide FromInt, ToInt, Pow2, WordByte, ByteOfInt;
    var j, k := i / 4, i % 4;
    FourWords(low, mid, top, Zeros(32));
    var w: U32 := if j == 0 then Zeros(32) else if j == 1 then top else if j == 2 then mid else low;
    ByteInWord(low + mid + top + Zeros(32), j, w, k, 16);
    if j == 0 {
      ZeroWordByte(k);
    } else {
      CountByteIs(top, mid, low, i - 4);
    }
  }

  lemma CountByteIs(top: U32, mid: U32, low: U32, i: nat)
    requires i < 12
    ensures CountBytes(top, mid, low)[i] == WordByte(if i < 4 then top else if i < 8 then mid else low, i % 4)
  {
    hide WordByte;
  }

  /** Where four words stand in their concatenation. */
  lemma FourWords(a: U32, b: U32, c: U32, d: U32)
    ensures var x := a + b + c + d; x[0..32] == a && x[32..64] == b && x[64..96] == c && x[96..128] == d
  {
  }

  lemma ZeroWordByte(i: nat)
    requires i < 4
    ensures WordByte(Zeros(32), i) == 0
  {
    hide FromInt, ToInt;
    ByteRange(Zeros(32), 24 - 8 * i);
    ZerosValue(8);
    assert Zeros(32)[24 - 8 * i..24 - 8 * i + 8] == Zeros(8);
  }

  lemma CountBits(hi: U32, lo: U32)
    ensures Shl(lo, 3) + Or(Shl(hi, 3), Shr(lo, 29)) + Shr(hi, 29) + Zeros(32) == Zeros(3) + (lo + hi) + Zeros(61)
  {
    var a := Shl(lo, 3) + Or(Shl(hi, 3), Shr(lo, 29)) + Shr(hi, 29) + Zeros(32);
    var b := Zeros(3) + (lo + hi) + Zeros(61);
    forall i | 0 <= i < 128
      ensures a[i] == b[i]
    {
    }
  }

  lemma CountValue(hi: U32, lo: U32, n: nat)
    requires ToInt(lo + hi) == n
    ensures ToInt(Zeros(3) + (lo + hi) + Zeros(61)) == 8 * n
  {
    hide ToInt, Pow2;
    ToIntJoin(Zeros(3), lo + hi);
    ToIntJoin(Zeros(3) + (lo + hi), Zeros(61));
    ZerosValue(3);
    ZerosValue(61);
    EightIsCube();
  }

  lemma EightIsCube()
    ensures Pow2(3) == 8
  {
  }

  lemma PadTail(message: seq<u8>, n: nat, count: seq<u8>)
    requires ZeroBytes(4) + count == LengthField(n)
    ensures PadAs(message, n) == message + [0x80] + ZeroBytes(PadZeros(|message|) + 4) + count
  {
    hide LengthField, PadZeros;
    assert ZeroBytes(PadZeros(|message|)) + ZeroBytes(4) == ZeroBytes(PadZeros(|message|) + 4);
  }

  lemma TailLength(state: seq<U32>, buffer: seq<u8>, s: seq<u8>, n: nat)
    requires |state| == 16 && |buffer| == BLOCK && n < BLOCK && Held(state, buffer, s, n)
    ensures PadZeros(|s|) == if n + 1 > 112 then BLOCK - n - 1 + 112 else 111 - n
  {
    hide StateVars, HashBlocks, PadZeros;
    var k := if n + 1 > 112 then BLOCK - n - 1 + 112 else 111 - n;
    SameResidue(|s| + 1, PadZeros(|s|), k, |s| - n);
  }

  lemma SameResidue(base: nat, k: nat, c: nat, blocks: nat)
    requires k < BLOCK && c < BLOCK && (base + k) % BLOCK == 112 && blocks % BLOCK == 0
    requires base + c == blocks + 112 || base + c == blocks + 112 + BLOCK
    ensures k == c
  {
  }

  lemma FinalState(state: seq<U32>, buffer: seq<u8>, s: seq<u8>)
    requires |state| == 16 && |buffer| == BLOCK && Held(state, buffer, s, 0) && |s| % BLOCK == 0
    ensures StateVars(state) == HashBlocks(s)
  {
    assert s[..|s|] == s;
  }

  lemma DigestBytes(s: seq<U32>, digest: seq<u8>)
    requires |s| == 16 && |digest| == 64 && forall k: nat :: k < 64 ==> digest[k] == WordByte(s[k / 4], k % 4)
    ensures digest == DigestOf(StateVars(s))
  {
    hide WordByte, ByteOfInt, ToInt, StateVars;
    var want := DigestOf(StateVars(s));
    forall k | 0 <= k < 64
      ensures digest[k] == want[k]
    {
      DigestByte(s, k);
    }
  }

  lemma DigestByte(s: seq<U32>, k: nat)
    requires |s| == 16 && k < 64
    ensures WordByte(s[k / 4], k % 4) == ByteOfInt(ToInt(HashWord(StateVars(s), k / 8)), 8, k % 8)
  {
    hide WordByte, ByteOfInt, ToInt, StateVars, HashWord;
    WordOfState(s, k / 8);
    var x := Join(StateWord(s, k / 8));
    var j := k / 4 % 2;
    assert s[k / 4] == x[64 - 32 * j - 32..64 - 32 * j];
    ByteInWord(x, j, s[k / 4], k % 4, 8);
  }

  lemma WordOfState(s: seq<U32>, j: nat)
    requires |s| == 16 && j < 8
    ensures HashWord(StateVars(s), j) == Join(StateWord(s, j))
  {
    hide Join, StateWord;
  }
}
