/** Raw Deflate (RFC 1951) on the bits of the input, with no output limit. */
module InflateSpec {
  import opened LittleEndian
  import opened BitString
  import opened Huffman

  datatype Status = Ok | Truncated | BadBlock | BadStored | BadLengths | BadCode | BadDistance | OutputFull

  /** Why decoding stopped, the bit position it reached and everything it decoded. */
  datatype Result = Result(status: Status, pos: nat, out: seq<u8>)

  const END_OF_BLOCK := 256
  const LENGTH_CODES := 29
  const DISTANCE_CODES := 30

  const LENGTH_BASE: seq<nat> := [
    3, 4, 5, 6, 7, 8, 9, 10, 11, 13, 15, 17, 19, 23, 27, 31,
    35, 43, 51, 59, 67, 83, 99, 115, 131, 163, 195, 227, 258]
  const LENGTH_EXTRA: seq<nat> := [
    0, 0, 0, 0, 0, 0, 0, 0, 1, 1, 1, 1, 2, 2, 2, 2,
    3, 3, 3, 3, 4, 4, 4, 4, 5, 5, 5, 5, 0]
  const DISTANCE_BASE: seq<nat> := [
    1, 2, 3, 4, 5, 7, 9, 13, 17, 25, 33, 49, 65, 97, 129,
    193, 257, 385, 513, 769, 1025, 1537, 2049, 3073, 4097, 6145,
    8193, 12289, 16385, 24577]
  const DISTANCE_EXTRA: seq<nat> := [
    0, 0, 0, 0, 1, 1, 2, 2, 3, 3, 4, 4, 5, 5, 6,
    6, 7, 7, 8, 8, 9, 9, 10, 10, 11, 11, 12, 12, 13, 13]
  const CLEN_ORDER: seq<nat> := [16, 17, 18, 0, 8, 7, 9, 6, 10, 5, 11, 4, 12, 3, 13, 2, 14, 1, 15]

  /** n bits from pos as a number, the first one least significant (section 3.1.1). */
  function Take(s: seq<int>, pos: nat, n: nat): (v: nat)
    requires pos + n <= 8 * |s|
    ensures v < Pow2(n)
    decreases n
  {
    if n == 0 then 0 else BitOf(s, pos) + 2 * Take(s, pos + 1, n - 1)
  }

  predicate Has(s: seq<int>, pos: nat, n: nat) {
    pos + n <= 8 * |s|
  }

  /** A match repeats the last distance bytes for as long as it needs. */
  function Periodic(out: seq<u8>, distance: nat, length: nat): (copy: seq<u8>)
    requires 1 <= distance <= |out|
    ensures |copy| == length
  {
    seq(length, i requires 0 <= i < length => out[|out| - distance + i % distance])
  }

  /** One step of a compressed block (section 3.2.5). */
  datatype Token =
    | Literal(byte: u8, pos: nat)
    | EndOfBlock(pos: nat)
    | Match(length: nat, distance: nat, pos: nat)
    | Stop(status: Status, pos: nat)

  ghost function NextToken(lit: seq<int>, dist: seq<int>, s: seq<int>, pos: nat): (t: Token)
    requires pos <= 8 * |s|
    ensures !t.Stop? ==> pos < t.pos <= 8 * |s|
    ensures t.Stop? ==> t.pos == pos && t.status != Ok && t.status != OutputFull
    ensures t.Match? ==> t.distance >= 1
  {
    match DecodeSym(lit, s, pos)
    case RanOut => Stop(Truncated, pos)
    case NoCode => Stop(BadCode, pos)
    case Symbol(sym, at) =>
      if sym < END_OF_BLOCK then Literal(sym, at)
      else if sym == END_OF_BLOCK then EndOfBlock(at)
      else MatchToken(sym - 257, dist, s, at, pos)
  }

  ghost function MatchToken(sym: nat, dist: seq<int>, s: seq<int>, at: nat, pos: nat): (t: Token)
    requires pos < at <= 8 * |s|
    ensures t.Match? || t.Stop?
    ensures !t.Stop? ==> at < t.pos <= 8 * |s|
    ensures t.Stop? ==> t.pos == pos && t.status != Ok && t.status != OutputFull
    ensures t.Match? ==> t.distance >= 1
  {
    if sym >= LENGTH_CODES then Stop(BadCode, pos)
    else
      var lx := LENGTH_EXTRA[sym];
      if !Has(s, at, lx) then Stop(Truncated, pos)
      else
        var length := LENGTH_BASE[sym] + Take(s, at, lx);
        DistanceToken(length, dist, s, at + lx, pos)
  }

  ghost function DistanceToken(length: nat, dist: seq<int>, s: seq<int>, at: nat, pos: nat): (t: Token)
    requires pos < at <= 8 * |s|
    ensures t.Match? || t.Stop?
    ensures !t.Stop? ==> at < t.pos <= 8 * |s|
    ensures t.Stop? ==> t.pos == pos && t.status != Ok && t.status != OutputFull
    ensures t.Match? ==> t.distance >= 1
  {
    match DecodeSym(dist, s, at)
    case RanOut => Stop(Truncated, pos)
    case NoCode => Stop(BadCode, pos)
    case Symbol(d, after) =>
      if d >= DISTANCE_CODES then Stop(BadDistance, pos)
      else
        var dx := DISTANCE_EXTRA[d];
        if !Has(s, after, dx) then Stop(Truncated, pos)
        else Match(length, DISTANCE_BASE[d] + Take(s, after, dx), after + dx)
  }

  /** The data of a block up to its end-of-block symbol. */
  ghost function CodesSpec(lit: seq<int>, dist: seq<int>, s: seq<int>, pos: nat, out: seq<u8>): (r: Result)
    requires pos <= 8 * |s|
    ensures out <= r.out
    ensures r.status.Ok? ==> pos < r.pos <= 8 * |s|
    ensures r.status != OutputFull
    decreases 8 * |s| - pos
  {
    match NextToken(lit, dist, s, pos)
    case Stop(status, _) => Result(status, pos, out)
    case EndOfBlock(at) => Result(Ok, at, out)
    case Literal(byte, at) => CodesSpec(lit, dist, s, at, out + [byte])
    case Match(length, distance, at) =>
      if distance > |out| then Result(BadDistance, pos, out)
      else CodesSpec(lit, dist, s, at, out + Periodic(out, distance, length))
  }

  /** A stored block (section 3.2.4): byte aligned, LEN, its complement, LEN bytes as they are. */
  function StoredSpec(s: seq<u8>, pos: nat, out: seq<u8>): (r: Result)
    requires pos <= 8 * |s|
    ensures out <= r.out
    ensures r.status.Ok? ==> pos < r.pos <= 8 * |s|
    ensures r.status != OutputFull
  {
    var at := (pos + 7) / 8;
    if |s| - at < 4 then Result(Truncated, pos, out)
    else
      var length: nat := Get16(s, at);
      var complement: nat := Get16(s, at + 2);
      if length != 0xFFFF - complement then Result(BadStored, pos, out)
      else if |s| - at - 4 < length then Result(Truncated, pos, out)
      else Result(Ok, 8 * (at + 4 + length), out + s[at + 4..at + 4 + length])
  }

  /** The fixed codes of section 3.2.6. */
  function FixedLength(sym: nat): u8 {
    if sym < 144 then 8 else if sym < 256 then 9 else if sym < 280 then 7 else 8
  }

  function FixedLitlen(): (l: seq<u8>)
    ensures |l| == 288 && forall i :: 0 <= i < 288 ==> l[i] == FixedLength(i)
  {
    seq(288, (i: nat) => FixedLength(i))
  }

  function Run(value: u8, n: nat): (r: seq<u8>)
    ensures |r| == n && forall i :: 0 <= i < n ==> r[i] == value
  {
    seq(n, (i: nat) => value)
  }

  /** The code length code's lengths, three bits each, in their own order (section 3.2.7). */
  function ClenLengths(s: seq<int>, pos: nat, n: nat): (l: seq<u8>)
    requires n <= 19 && Has(s, pos, 3 * n)
    ensures |l| == 19
  {
    if n == 0 then Run(0, 19)
    else
      assert Pow2(3) == 8;
      ClenLengths(s, pos, n - 1)[CLEN_ORDER[n - 1] := Take(s, pos + 3 * (n - 1), 3)]
  }

  datatype Lengths = Lengths(lengths: seq<u8>, pos: nat) | LengthsStop(status: Status)

  /** Extra bits and base of a repeat symbol. */
  function RepeatExtra(sym: nat): nat {
    if sym == 16 then 2 else if sym == 17 then 3 else 7
  }

  function RepeatBase(sym: nat): nat {
    if sym == 18 then 11 else 3
  }

  /** One symbol of the length sequence: a length, or a repeat of the previous one or of zero. */
  ghost function LengthsNext(clen: seq<int>, s: seq<int>, pos: nat, total: nat, acc: seq<u8>): (r: Lengths)
    requires pos <= 8 * |s| && |acc| < total && |clen| == 19
    ensures r.Lengths? ==> |acc| < |r.lengths| <= total && pos < r.pos <= 8 * |s|
    ensures r.LengthsStop? ==> r.status != Ok && r.status != OutputFull
  {
    match DecodeSym(clen, s, pos)
    case RanOut => LengthsStop(Truncated)
    case NoCode => LengthsStop(BadCode)
    case Symbol(sym, at) =>
      if sym < 16 then Lengths(acc + [sym], at)
      else if sym == 16 && |acc| == 0 then LengthsStop(BadLengths)
      else RepeatNext(sym, s, at, total, acc)
  }

  function RepeatNext(sym: nat, s: seq<int>, at: nat, total: nat, acc: seq<u8>): (r: Lengths)
    requires at <= 8 * |s| && |acc| < total && 16 <= sym <= 18 && (sym == 16 ==> |acc| > 0)
    ensures r.Lengths? ==> |acc| < |r.lengths| <= total && at <= r.pos <= 8 * |s|
    ensures r.LengthsStop? ==> r.status != Ok && r.status != OutputFull
  {
    if !Has(s, at, RepeatExtra(sym)) then LengthsStop(Truncated)
    else
      var repeat := Take(s, at, RepeatExtra(sym)) + RepeatBase(sym);
      var value := if sym == 16 then acc[|acc| - 1] else 0;
      if repeat > total - |acc| then LengthsStop(BadLengths)
      else Lengths(acc + Run(value, repeat), at + RepeatExtra(sym))
  }

  /** The literal/length and distance lengths, one sequence. */
  ghost function LengthsSpec(clen: seq<int>, s: seq<int>, pos: nat, total: nat, acc: seq<u8>): (r: Lengths)
    requires pos <= 8 * |s| && |acc| <= total && |clen| == 19
    ensures r.Lengths? ==> |r.lengths| == total && pos <= r.pos <= 8 * |s|
    ensures r.LengthsStop? ==> r.status != Ok && r.status != OutputFull
    decreases total - |acc|
  {
    if |acc| == total then Lengths(acc, pos)
    else
      match LengthsNext(clen, s, pos, total, acc)
      case LengthsStop(status) => LengthsStop(status)
      case Lengths(next, at) => LengthsSpec(clen, s, at, total, next)
  }

  /** A dynamic block's header and data (section 3.2.7). */
  ghost function DynamicSpec(s: seq<u8>, pos: nat, out: seq<u8>): (r: Result)
    requires pos <= 8 * |s|
    ensures out <= r.out
    ensures r.status.Ok? ==> pos < r.pos <= 8 * |s|
    ensures r.status != OutputFull
  {
    if !Has(s, pos, 14) then Result(Truncated, pos, out)
    else
      var hlit := Take(s, pos, 5) + 257;
      var hdist := Take(s, pos + 5, 5) + 1;
      var hclen := Take(s, pos + 10, 4) + 4;
      if hlit > 286 then Result(BadBlock, pos, out)
      else if !Has(s, pos + 14, 3 * hclen) then Result(Truncated, pos, out)
      else
        assert Pow2(4) == 16;
        TablesSpec(ClenLengths(s, pos + 14, hclen), hlit, hdist, s, pos + 14 + 3 * hclen, out)
  }

  ghost function TablesSpec(clen: seq<u8>, hlit: nat, hdist: nat, s: seq<u8>, pos: nat, out: seq<u8>): (r: Result)
    requires pos <= 8 * |s| && |clen| == 19 && 257 <= hlit
    ensures out <= r.out
    ensures r.status.Ok? ==> pos < r.pos <= 8 * |s|
    ensures r.status != OutputFull
  {
    if !Accepted(clen, false) then Result(BadLengths, pos, out)
    else
      match LengthsSpec(clen, s, pos, hlit + hdist, [])
      case LengthsStop(status) => Result(status, pos, out)
      case Lengths(lengths, at) =>
        if lengths[END_OF_BLOCK] == 0 then Result(BadLengths, pos, out)
        else if !Accepted(lengths[..hlit], false) then Result(BadLengths, pos, out)
        else if !Accepted(lengths[hlit..], true) then Result(BadLengths, pos, out)
        else CodesSpec(lengths[..hlit], lengths[hlit..], s, at, out)
  }

  /** One block after its three header bits. */
  ghost function BlockSpec(kind: nat, s: seq<u8>, pos: nat, out: seq<u8>): (r: Result)
    requires pos <= 8 * |s|
    ensures out <= r.out
    ensures r.status.Ok? ==> pos < r.pos <= 8 * |s|
    ensures r.status != OutputFull
  {
    if kind == 0 then StoredSpec(s, pos, out)
    else if kind == 1 then CodesSpec(FixedLitlen(), Run(5, 32), s, pos, out)
    else if kind == 2 then DynamicSpec(s, pos, out)
    else Result(BadBlock, pos, out)
  }

  /** Blocks until one with BFINAL set (section 3.2.3). */
  ghost function BlocksSpec(s: seq<u8>, pos: nat, out: seq<u8>): (r: Result)
    requires pos <= 8 * |s|
    ensures out <= r.out
    ensures r.status != OutputFull
    decreases 8 * |s| - pos
  {
    if !Has(s, pos, 3) then Result(Truncated, pos, out)
    else
      var r := BlockSpec(Take(s, pos + 1, 2), s, pos + 3, out);
      if r.status != Ok || Take(s, pos, 1) == 1 then r
      else BlocksSpec(s, r.pos, r.out)
  }

  /** What a whole stream decodes to. */
  ghost function StreamSpec(s: seq<u8>): Result {
    BlocksSpec(s, 0, [])
  }

  lemma {:induction false} KraftRun(s: seq<u8>, l: u8, n: nat)
    requires 1 <= l <= MAX_BITS
    ensures Kraft(s + Run(l, n)) == Kraft(s) + n * Pow2(MAX_BITS - l)
  {
    if n == 0 {
      assert s + Run(l, 0) == s;
    } else {
      KraftRun(s, l, n - 1);
      var t := s + Run(l, n);
      assert t[..|t| - 1] == s + Run(l, n - 1);
      hide Pow2;
      assert (n - 1) * Pow2(MAX_BITS - l) + Pow2(MAX_BITS - l) == n * Pow2(MAX_BITS - l);
    }
  }

  /** Both fixed codes are complete, so a fixed block is never refused for its codes. */
  lemma FixedCodesComplete()
    ensures Complete(FixedLitlen()) && Complete(Run(5, 32))
  {
    var a, b, c := Run(8, 144), Run(9, 112), Run(7, 24);
    assert FixedLitlen() == [] + a + b + c + Run(8, 8);
    assert Run(5, 32) == [] + Run(5, 32);
    hide Kraft;
    KraftRun([], 8, 144);
    KraftRun([] + a, 9, 112);
    KraftRun([] + a + b, 7, 24);
    KraftRun([] + a + b + c, 8, 8);
    KraftRun([], 5, 32);
    KraftNone();
    assert Pow2(6) == 64 && Pow2(7) == 128 && Pow2(8) == 256 && Pow2(10) == 1024 && Pow2(15) == 32768 by {
      assert Pow2(4) == 16 && Pow2(8) == 256 && Pow2(12) == 4096;
    }
  }

  lemma KraftNone()
    ensures Kraft([]) == 0
  {
  }
}
