/** The decoder's code tables: counts per length and symbols in canonical order, built in place. */
module InflateCode {
  import opened LittleEndian
  import opened BitString
  import opened Huffman

  type u16 = x: int | 0 <= x < 0x1_0000

  const LITLEN_SYMBOLS := 288

  class Code {
    const count: array<u16>
    const symbol: array<u16>

    ghost predicate Shape() {
      count.Length == MAX_BITS + 1 && symbol.Length == LITLEN_SYMBOLS && count != symbol
    }

    /** The tables describe the canonical code of these lengths. */
    ghost predicate Holds(lengths: seq<int>)
      reads count, symbol
    {
      && Shape() && |lengths| <= LITLEN_SYMBOLS && ValidLengths(lengths)
      && (forall l: nat :: l <= MAX_BITS ==> count[l] == Count(lengths, l))
      && Placed(lengths, |lengths|, symbol[..])
    }

    constructor ()
      ensures Shape() && fresh(count) && fresh(symbol)
    {
      count := new u16[MAX_BITS + 1](i => 0);
      symbol := new u16[LITLEN_SYMBOLS](i => 0);
    }
  }

  /** The first n symbols stand at their places. */
  ghost predicate Placed(lengths: seq<int>, n: nat, table: seq<int>)
    requires n <= |lengths|
  {
    forall sym: nat :: sym < n && lengths[sym] >= 1 ==>
      Place(lengths, sym) < |table| && table[Place(lengths, sym)] == sym
  }

  lemma PlaceNext(lengths: seq<int>, n: nat, table: seq<int>)
    requires n < |lengths| && ValidLengths(lengths) && lengths[n] >= 1
    requires |lengths| <= |table| && Placed(lengths, n, table)
    ensures Place(lengths, n) < |table|
    ensures Placed(lengths, n + 1, table[Place(lengths, n) := n])
  {
    PlaceBound(lengths, n);
    forall sym: nat | sym < n && lengths[sym] >= 1
      ensures Place(lengths, sym) < |table| && table[Place(lengths, n) := n][Place(lengths, sym)] == sym
    {
      if Place(lengths, sym) == Place(lengths, n) {
        PlaceInjective(lengths, sym, n);
      }
    }
  }

  /** Step 1 of section 3.2.2: how many codes of each length; false for a length over 15. */
  method CountLengths(code: Code, lengths: array<u8>, start: nat, symbols: nat) returns (ok: bool)
    requires code.Shape() && start + symbols <= lengths.Length && symbols <= LITLEN_SYMBOLS
    modifies code.count
    ensures ok <==> ValidLengths(lengths[start..start + symbols])
    ensures ok ==> forall l: nat :: l <= MAX_BITS ==> code.count[l] == Count(lengths[start..start + symbols], l)
  {
    hide Count;
    ghost var s: seq<u8> := lengths[start..start + symbols];
    for length := 0 to MAX_BITS + 1
      invariant forall l: nat :: l < length ==> code.count[l] == 0
    {
      code.count[length] := 0;
    }
    CountNone(s);
    for symbol := 0 to symbols
      invariant ValidLengths(s[..symbol])
      invariant forall l: nat :: l <= MAX_BITS ==> code.count[l] == Count(s[..symbol], l)
    {
      var l := lengths[start + symbol];
      assert l == s[symbol];
      if l > MAX_BITS {
        return false;
      }
      forall k: nat | k <= MAX_BITS
        ensures Count(s[..symbol + 1], k) == Count(s[..symbol], k) + if l == k then 1 else 0
        ensures Count(s[..symbol], k) <= symbol
      {
        CountPrefix(s, symbol, k);
      }
      code.count[l] := code.count[l] + 1;
    }
    assert s[..symbols] == s;
    return true;
  }

  lemma CountNone(s: seq<int>)
    ensures forall l: nat :: Count(s[..0], l) == 0
  {
  }

  /** Walk the code space: over-subscribed, exhausted or left over. */
  method CheckSpace(code: Code, ghost lengths: seq<int>) returns (left: int)
    requires code.Shape() && ValidLengths(lengths)
    requires forall l: nat :: l <= MAX_BITS ==> code.count[l] == Count(lengths, l)
    ensures left < 0 <==> Kraft(lengths) > Pow2(MAX_BITS)
    ensures left == 0 <==> Kraft(lengths) == Pow2(MAX_BITS)
  {
    hide Count, Pow2, Kraft, Left;
    left := 1;
    LeftStart(lengths);
    KraftByLength(lengths);
    LeftIsRest(lengths, MAX_BITS);
    for length := 1 to MAX_BITS + 1
      invariant left == Left(lengths, length - 1) && left >= 0
    {
      LeftStep(lengths, length);
      left := left * 2 - code.count[length];
      if left < 0 {
        Overdrawn(lengths, length, MAX_BITS);
        return;
      }
    }
  }

  lemma LeftStart(lengths: seq<int>)
    ensures Left(lengths, 0) == 1
  {
  }

  /** Step 3 of section 3.2.2: symbols sorted by length, then by value. */
  method PlaceSymbols(code: Code, lengths: array<u8>, start: nat, symbols: nat)
    requires code.Shape() && start + symbols <= lengths.Length && symbols <= LITLEN_SYMBOLS
    requires ValidLengths(lengths[start..start + symbols])
    requires forall l: nat :: l <= MAX_BITS ==> code.count[l] == Count(lengths[start..start + symbols], l)
    modifies code.symbol
    ensures code.Holds(lengths[start..start + symbols])
  {
    hide Count, Rank, Place;
    ghost var s: seq<u8> := lengths[start..start + symbols];
    var offset := Offsets(code, s);
    CountNone(s);
    for symbol := 0 to symbols
      invariant forall l: nat :: 1 <= l <= MAX_BITS ==> offset[l] == Offset(s, l) + Count(s[..symbol], l)
      invariant Placed(s, symbol, code.symbol[..])
    {
      var length := lengths[start + symbol];
      assert length == s[symbol];
      forall k: nat | k <= MAX_BITS
        ensures Count(s[..symbol + 1], k) == Count(s[..symbol], k) + if length == k then 1 else 0
      {
        CountPrefix(s, symbol, k);
      }
      if length != 0 {
        PlaceIs(s, symbol);
        PlaceNext(s, symbol, code.symbol[..]);
        code.symbol[offset[length]] := symbol;
        offset[length] := offset[length] + 1;
      }
    }
  }

  lemma PlaceIs(lengths: seq<int>, sym: nat)
    requires sym < |lengths| <= LITLEN_SYMBOLS && ValidLengths(lengths) && lengths[sym] >= 1
    ensures Place(lengths, sym) == Offset(lengths, lengths[sym]) + Count(lengths[..sym], lengths[sym])
    ensures Place(lengths, sym) < |lengths|
  {
    PlaceBound(lengths, sym);
  }

  /** The start of each length's run of symbols. */
  method Offsets(code: Code, ghost lengths: seq<int>) returns (offset: array<u16>)
    requires code.Shape() && ValidLengths(lengths) && |lengths| <= LITLEN_SYMBOLS
    requires forall l: nat :: l <= MAX_BITS ==> code.count[l] == Count(lengths, l)
    ensures fresh(offset) && offset.Length == MAX_BITS + 1
    ensures forall l: nat :: 1 <= l <= MAX_BITS ==> offset[l] == Offset(lengths, l)
  {
    hide Count;
    offset := new u16[MAX_BITS + 1](i => 0);
    for length := 1 to MAX_BITS
      invariant forall l: nat :: 1 <= l <= length ==> offset[l] == Offset(lengths, l)
    {
      OffsetMonotone(lengths, length, MAX_BITS + 1);
      OffsetTotal(lengths);
      offset[length + 1] := offset[length] + code.count[length];
    }
  }

  /** Build a code; refuses exactly the length sets that are neither complete nor the allowed exception. */
  method Build(code: Code, lengths: array<u8>, start: nat, symbols: nat, allowSingle: bool) returns (ok: bool)
    requires code.Shape() && start + symbols <= lengths.Length && symbols <= LITLEN_SYMBOLS
    modifies code.count, code.symbol
    ensures ok <==> Accepted(lengths[start..start + symbols], allowSingle)
    ensures ok ==> code.Holds(lengths[start..start + symbols])
  {
    hide Count, Kraft, Pow2, Place, Placed;
    ghost var s: seq<u8> := lengths[start..start + symbols];
    ok := CountLengths(code, lengths, start, symbols);
    if !ok {
      return false;
    }
    SingleByCount(s);
    var left := CheckSpace(code, s);
    if left < 0 {
      return false;
    }
    var used := symbols - code.count[0];
    if left > 0 {
      if !allowSingle {
        return false;
      }
      if used > 1 || (used == 1 && code.count[1] != 1) {
        return false;
      }
    }
    PlaceSymbols(code, lengths, start, symbols);
    return true;
  }
}
