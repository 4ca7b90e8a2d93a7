/** The decoder as one mutable state: bit buffer, positions, code tables and the output buffer. */
module InflateMachine {
  import opened Congruence
  import opened LittleEndian
  import opened BitString
  import opened Huffman
  import opened InflateCode
  import opened InflateSpec
  import opened InflateBits

  const LENGTHS_SIZE := 320

  /** What a bounded run may report of an unbounded result. */
  ghost predicate Bounded(r: Result, capacity: nat, status: Status, out: seq<u8>) {
    if |r.out| <= capacity then status == r.status && out == r.out
    else status == OutputFull && out <= r.out
  }

  class State {
    var input: seq<u8>
    var inputPosition: nat
    var bitBuffer: u32
    var bitCount: nat
    var output: array<u8>
    var outputPosition: nat
    const litlen: Code
    const distance: Code
    const lengths: array<u8>

    ghost predicate Shape() {
      && litlen.Shape() && distance.Shape() && lengths.Length == LENGTHS_SIZE
      && {litlen.count, litlen.symbol} !! {distance.count, distance.symbol}
    }

    /** Fewer than eight bits are held, the unread high bits of the last byte fetched. */
    ghost predicate Valid()
      reads this
    {
      && Shape() && lengths != output
      && inputPosition <= |input| && bitCount < 8 && bitCount <= 8 * inputPosition
      && bitBuffer == Take(input, 8 * inputPosition - bitCount, bitCount)
      && outputPosition <= output.Length
    }

    /** The bit position reached. */
    ghost function Pos(): nat
      reads this
      requires bitCount <= 8 * inputPosition
    {
      8 * inputPosition - bitCount
    }

    /** What has been written. */
    ghost function Out(): seq<u8>
      reads this, output
      requires outputPosition <= output.Length
    {
      output[..outputPosition]
    }

    constructor ()
      ensures Shape() && fresh(litlen.count) && fresh(litlen.symbol)
      ensures fresh(distance.count) && fresh(distance.symbol) && fresh(lengths)
    {
      input := [];
      inputPosition := 0;
      bitBuffer := 0;
      bitCount := 0;
      outputPosition := 0;
      output := new u8[0];
      litlen := new Code();
      distance := new Code();
      lengths := new u8[LENGTHS_SIZE](i => 0);
    }

    /** Take count bits, or report that the input ended. */
    method Bits(count: nat) returns (ok: bool, value: u32)
      requires Valid() && count <= 16
      modifies `inputPosition, `bitBuffer, `bitCount
      ensures ok <==> Has(input, old(Pos()), count)
      ensures ok ==> Valid() && Pos() == old(Pos()) + count && value == Take(input, old(Pos()), count)
    {
      hide Take, Pow2;
      ghost var pos := Pos();
      SmallPowers();
      Pow2Monotone(bitCount, 8);
      while bitCount < count
        invariant inputPosition <= |input| && bitCount <= 8 * inputPosition && bitCount < count + 8
        invariant Pos() == pos && bitBuffer == Take(input, pos, bitCount)
      {
        if inputPosition >= |input| {
          return false, 0;
        }
        FetchByte(input, pos, bitCount, inputPosition);
        Pow2Monotone(bitCount + 8, 24);
        bitBuffer := bitBuffer + input[inputPosition] * Pow2(bitCount);
        inputPosition := inputPosition + 1;
        bitCount := bitCount + 8;
      }
      DropBits(input, pos, bitCount, count);
      value := bitBuffer % Pow2(count);
      bitBuffer := bitBuffer / Pow2(count);
      bitCount := bitCount - count;
      return true, value;
    }

    /** Read one symbol of a canonical code, one bit at a time, shortest codes first. */
    method DecodeSymbol(code: Code, ghost lens: seq<int>) returns (status: Status, symbol: nat)
      requires Valid() && code.Holds(lens)
      modifies `inputPosition, `bitBuffer, `bitCount
      ensures match DecodeSym(lens, input, old(Pos()))
              case Symbol(sym, at) => status == Ok && symbol == sym && Valid() && Pos() == at
              case RanOut => status == Truncated
              case NoCode => status == BadCode
    {
      hide Take, FirstCode, Offset, Count, CodeBits, Matches, Beyond, Placed, NoneShorter;
      ghost var pos := Pos();
      var value: int, first: int, index: int := 0, 0, 0;
      StartOfCode(lens, input, pos);
      for length := 1 to MAX_BITS + 1
        invariant Valid() && Pos() == pos + length - 1
        invariant value == 2 * CodeBits(input, pos, length - 1)
        invariant first == FirstCode(lens, length) && index == Offset(lens, length)
        invariant Beyond(lens, input, pos, length - 1)
        invariant NoneShorter(lens, input, pos, length)
      {
        var ok, bit := Bits(1);
        if !ok {
          NoRoom(lens, input, pos, length);
          return Truncated, 0;
        }
        NextBit(input, pos, length);
        value := value + bit;
        var count: int := code.count[length];
        BeyondStep(lens, input, pos, length);
        if value >= first && value - first < count {
          ghost var sym := HitIs(lens, input, pos, length, code.symbol[..]);
          DecodeSymIs(lens, input, pos, sym);
          return Ok, code.symbol[index + (value - first)];
        }
        MissIs(lens, input, pos, length);
        NextLength(lens, length);
        index := index + count;
        first := (first + count) * 2;
        value := value * 2;
      }
      NothingMatches(lens, input, pos);
      return BadCode, 0;
    }

    /** A stored block: drop the padding bits, check LEN against its complement, copy LEN bytes. */
    method Stored() returns (status: Status)
      requires Valid()
      modifies `inputPosition, `bitBuffer, `bitCount, `outputPosition, output
      ensures outputPosition <= output.Length
      ensures var r := StoredSpec(input, old(Pos()), old(Out()));
              Bounded(r, output.Length, status, Out()) && (status == Ok ==> Valid() && Pos() == r.pos)
    {
      hide Get16, Take;
      AlignedPosition(inputPosition, bitCount);
      TakeNothing(input, inputPosition);
      bitBuffer := 0;
      bitCount := 0;
      var position := inputPosition;
      if |input| - position < 4 {
        return Truncated;
      }
      var length := Get16(input, position);
      var complement := Get16(input, position + 2);
      position := position + 4;
      if length != 0xFFFF - complement {
        return BadStored;
      }
      if |input| - position < length {
        return Truncated;
      }
      if output.Length - outputPosition < length {
        return OutputFull;
      }
      CopyBytes(position, length);
      inputPosition := position + length;
      return Ok;
    }

    /** Append input[from .. from + length) to the output. */
    method CopyBytes(from: nat, length: nat)
      requires from + length <= |input| && outputPosition + length <= output.Length
      modifies `outputPosition, output
      ensures outputPosition == old(outputPosition) + length
      ensures Out() == old(Out()) + input[from..from + length]
    {
      ghost var out := Out();
      for i := 0 to length
        invariant outputPosition == |out|
        invariant output[..outputPosition + i] == out + input[from..from + i]
      {
        output[outputPosition + i] := input[from + i];
      }
      outputPosition := outputPosition + length;
    }

    /** The extra bits of a length symbol, the distance symbol and its extra bits. */
    method ReadMatch(sym: nat, ghost dist: seq<int>, ghost start: nat)
      returns (status: Status, length: nat, distanceBack: nat)
      requires Valid() && distance.Holds(dist) && start < Pos()
      modifies `inputPosition, `bitBuffer, `bitCount
      ensures match MatchToken(sym, dist, input, old(Pos()), start)
              case Match(l, d, at) => status == Ok && length == l && distanceBack == d && Valid() && Pos() == at
              case Stop(st, _) => status == st
              case _ => false
    {
      hide Take, DistanceToken, Code.Holds;
      if sym >= LENGTH_CODES {
        return BadCode, 0, 0;
      }
      var ok, extra := Bits(LengthExtraAt(sym));
      if !ok {
        return Truncated, 0, 0;
      }
      length := LENGTH_BASE[sym] + extra;
      status, distanceBack := ReadDistance(length, dist, start);
    }

    /** The distance symbol of a match and its extra bits. */
    method ReadDistance(ghost length: nat, ghost dist: seq<int>, ghost start: nat)
      returns (status: Status, distanceBack: nat)
      requires Valid() && distance.Holds(dist) && start < Pos()
      modifies `inputPosition, `bitBuffer, `bitCount
      ensures match DistanceToken(length, dist, input, old(Pos()), start)
              case Match(l, d, at) => status == Ok && l == length && distanceBack == d && Valid() && Pos() == at
              case Stop(st, _) => status == st
              case _ => false
    {
      hide Take, DecodeSym, Code.Holds;
      distanceBack := 0;
      var d: nat;
      status, d := DecodeSymbol(distance, dist);
      if status != Ok {
        return status, 0;
      }
      if d >= DISTANCE_CODES {
        return BadDistance, 0;
      }
      var ok, extra := Bits(DistanceExtraAt(d));
      if !ok {
        return Truncated, 0;
      }
      distanceBack := DISTANCE_BASE[d] + extra;
    }

    /** The byte-by-byte copy of a match, which may overlap its own output. */
    method CopyMatch(length: nat, distanceBack: nat)
      requires Valid() && 1 <= distanceBack <= outputPosition && length <= output.Length - outputPosition
      modifies `outputPosition, output
      ensures Valid() && Pos() == old(Pos())
      ensures Out() == old(Out()) + Periodic(old(Out()), distanceBack, length)
    {
      hide Take, Periodic;
      ghost var out := Out();
      var source := outputPosition - distanceBack;
      PeriodicEmpty(out, distanceBack);
      for i := 0 to length
        invariant outputPosition == |out|
        invariant output[..outputPosition + i] == out + Periodic(out, distanceBack, i)
      {
        PeriodicNext(out, distanceBack, i);
        assert output[source + i] == output[..outputPosition + i][source + i];
        output[outputPosition + i] := output[source + i];
      }
      outputPosition := outputPosition + length;
    }

    method AppendByte(byte: u8)
      requires Valid() && outputPosition < output.Length
      modifies `outputPosition, output
      ensures Valid() && Pos() == old(Pos()) && Out() == old(Out()) + [byte]
    {
      hide Take;
      output[outputPosition] := byte;
      outputPosition := outputPosition + 1;
    }

    /** One literal, match or end of block. */
    method ReadToken(ghost lit: seq<int>, ghost dist: seq<int>) returns (t: Token)
      requires Valid() && litlen.Holds(lit) && distance.Holds(dist)
      modifies `inputPosition, `bitBuffer, `bitCount
      ensures var spec := NextToken(lit, dist, input, old(Pos()));
              if spec.Stop? then t.Stop? && t.status == spec.status else t == spec && Valid() && Pos() == t.pos
    {
      hide Take, DecodeSym, MatchToken;
      ghost var start := Pos();
      var status, symbol := DecodeSymbol(litlen, lit);
      if status != Ok {
        return Stop(status, 0);
      }
      if symbol < END_OF_BLOCK {
        return Literal(symbol, Position());
      }
      if symbol == END_OF_BLOCK {
        return EndOfBlock(Position());
      }
      var length, distanceBack;
      status, length, distanceBack := ReadMatch(symbol - 257, dist, start);
      if status != Ok {
        return Stop(status, 0);
      }
      return Match(length, distanceBack, Position());
    }

    /** The bit position, as a number the machine can report. */
    function Position(): (p: nat)
      reads this
      requires Valid()
      ensures p == Pos()
    {
      8 * inputPosition - bitCount
    }

    /** The data of a Huffman block, with the block's two codes already built. */
    method Codes(ghost lit: seq<int>, ghost dist: seq<int>) returns (status: Status)
      requires Valid() && litlen.Holds(lit) && distance.Holds(dist)
      modifies `inputPosition, `bitBuffer, `bitCount, `outputPosition, output
      ensures outputPosition <= output.Length
      ensures var r := CodesSpec(lit, dist, input, old(Pos()), old(Out()));
              Bounded(r, output.Length, status, Out()) && (status == Ok ==> Valid() && Pos() == r.pos)
    {
      hide Take, NextToken, Periodic, Code.Holds;
      ghost var r := CodesSpec(lit, dist, input, Pos(), Out());
      while true
        invariant Valid() && litlen.Holds(lit) && distance.Holds(dist)
        invariant CodesSpec(lit, dist, input, Pos(), Out()) == r
        decreases 8 * |input| - Pos()
      {
        var t := ReadToken(lit, dist);
        match t {
          case Stop(st, _) =>
            return st;
          case EndOfBlock(_) =>
            return Ok;
          case Literal(byte, _) =>
            if outputPosition >= output.Length {
              return OutputFull;
            }
            AppendByte(byte);
          case Match(length, distanceBack, _) =>
            if distanceBack > outputPosition {
              return BadDistance;
            }
            if output.Length - outputPosition < length {
              return OutputFull;
            }
            CopyMatch(length, distanceBack);
        }
      }
    }

    /** The fixed literal/length code, rebuilt for every fixed block. */
    method FixedLitlenTable()
      requires Shape()
      modifies lengths, litlen.count, litlen.symbol
      ensures litlen.Holds(FixedLitlen())
    {
      for symbol := 0 to LITLEN_SYMBOLS
        invariant forall k :: 0 <= k < symbol ==> lengths[k] == FixedLength(k)
      {
        lengths[symbol] := FixedLength(symbol);
      }
      assert lengths[0..0 + 288] == FixedLitlen();
      FixedCodesComplete();
      var ok := Build(litlen, lengths, 0, LITLEN_SYMBOLS, false);
    }

    method FixedDistanceTable()
      requires Shape()
      modifies lengths, distance.count, distance.symbol
      ensures distance.Holds(Run(5, 32))
    {
      for symbol := 0 to 32
        invariant forall k :: 0 <= k < symbol ==> lengths[k] == 5
      {
        lengths[symbol] := 5;
      }
      assert lengths[0..0 + 32] == Run(5, 32);
      FixedCodesComplete();
      var ok := Build(distance, lengths, 0, 32, false);
    }

    /** A block under the fixed codes; building them never fails. */
    method Fixed() returns (status: Status)
      requires Valid()
      modifies `inputPosition, `bitBuffer, `bitCount, `outputPosition, output
      modifies lengths, litlen.count, litlen.symbol, distance.count, distance.symbol
      ensures outputPosition <= output.Length
      ensures var r := CodesSpec(FixedLitlen(), Run(5, 32), input, old(Pos()), old(Out()));
              Bounded(r, output.Length, status, Out()) && (status == Ok ==> Valid() && Pos() == r.pos)
    {
      hide Take, CodesSpec, Code.Holds;
      FixedLitlenTable();
      FixedDistanceTable();
      status := Codes(FixedLitlen(), Run(5, 32));
    }

    /** The code length code's lengths, in transmission order. */
    method ReadClen(hclen: nat) returns (ok: bool, clen: array<u8>)
      requires Valid() && hclen <= 19
      modifies `inputPosition, `bitBuffer, `bitCount
      ensures fresh(clen) && clen.Length == 19
      ensures ok <==> Has(input, old(Pos()), 3 * hclen)
      ensures ok ==> Valid() && Pos() == old(Pos()) + 3 * hclen && clen[..] == ClenLengths(input, old(Pos()), hclen)
    {
      hide Take;
      ghost var pos := Pos();
      clen := new u8[19](i => 0);
      assert clen[..] == ClenLengths(input, pos, 0);
      for index := 0 to hclen
        invariant Valid() && Pos() == pos + 3 * index
        invariant clen[..] == ClenLengths(input, pos, index)
      {
        var value;
        ok, value := Bits(3);
        if !ok {
          return false, clen;
        }
        ClenNext(input, pos, index);
        clen[CLEN_ORDER[index]] := value;
      }
      ok := true;
    }

    /** Decode the literal/length and distance lengths into one array, repeats included. */
    method ReadLengths(ghost clen: seq<int>, total: nat) returns (status: Status)
      requires Valid() && distance.Holds(clen) && |clen| == 19 && total <= LENGTHS_SIZE
      modifies `inputPosition, `bitBuffer, `bitCount, lengths
      ensures match LengthsSpec(clen, input, old(Pos()), total, [])
              case Lengths(l, at) => status == Ok && lengths[..total] == l && Valid() && Pos() == at
              case LengthsStop(st) => status == st
    {
      hide Take, LengthsNext, Code.Holds;
      ghost var r := LengthsSpec(clen, input, Pos(), total, []);
      var index := 0;
      assert lengths[..0] == [];
      while index < total
        invariant index <= total && Valid() && distance.Holds(clen)
        invariant LengthsSpec(clen, input, Pos(), total, lengths[..index]) == r
      {
        status, index := ReadLength(clen, index, total);
        if status != Ok {
          return;
        }
      }
      status := Ok;
    }

    /** One symbol of the length sequence. */
    method ReadLength(ghost clen: seq<int>, index: nat, total: nat) returns (status: Status, next: nat)
      requires Valid() && distance.Holds(clen) && |clen| == 19 && index < total <= LENGTHS_SIZE
      modifies `inputPosition, `bitBuffer, `bitCount, lengths
      ensures match LengthsNext(clen, input, old(Pos()), total, old(lengths[..index]))
              case Lengths(l, at) => status == Ok && next == |l| && lengths[..next] == l && Valid() && Pos() == at
              case LengthsStop(st) => status == st
    {
      hide Take, DecodeSym, RepeatNext, Code.Holds;
      ghost var acc := lengths[..index];
      var symbol;
      status, symbol := DecodeSymbol(distance, clen);
      if status != Ok {
        return status, index;
      }
      if symbol < 16 {
        lengths[index] := symbol;
        assert lengths[..index + 1] == acc + [symbol];
        return Ok, index + 1;
      }
      if symbol == 16 && index == 0 {
        return BadLengths, index;
      }
      status, next := RepeatLengths(symbol, index, total);
    }

    /** Symbols 16 to 18: the extra bits, then the previous length or zero several times. */
    method RepeatLengths(symbol: nat, index: nat, total: nat) returns (status: Status, next: nat)
      requires Valid() && 16 <= symbol <= 18 && index < total <= LENGTHS_SIZE && (symbol == 16 ==> index > 0)
      modifies `inputPosition, `bitBuffer, `bitCount, lengths
      ensures match RepeatNext(symbol, input, old(Pos()), total, old(lengths[..index]))
              case Lengths(l, at) => status == Ok && next == |l| && lengths[..next] == l && Valid() && Pos() == at
              case LengthsStop(st) => status == st
    {
      hide Take;
      ghost var acc := lengths[..index];
      var ok, extra := Bits(RepeatExtra(symbol));
      if !ok {
        return Truncated, index;
      }
      var repeatValue := if symbol == 16 then lengths[index - 1] else 0;
      var repeat := extra + RepeatBase(symbol);
      if repeat > total - index {
        return BadLengths, index;
      }
      FillLengths(index, repeatValue, repeat);
      next := index + repeat;
      assert lengths[..next] == lengths[..index] + lengths[index..next];
      return Ok, next;
    }

    method FillLengths(index: nat, value: u8, repeat: nat)
      requires index + repeat <= lengths.Length
      modifies lengths
      ensures lengths[..index] == old(lengths[..index])
      ensures lengths[index..index + repeat] == Run(value, repeat)
    {
      ghost var s := lengths[..index];
      for i := 0 to repeat
        invariant lengths[..index] == s
        invariant forall k :: index <= k < index + i ==> lengths[k] == value
      {
        lengths[index + i] := value;
      }
    }

    /** The three counts a dynamic block starts with, or that the input ended among them. */
    method ReadCounts() returns (ok: bool, hlit: nat, hdist: nat, hclen: nat)
      requires Valid()
      modifies `inputPosition, `bitBuffer, `bitCount
      ensures ok <==> Has(input, old(Pos()), 14)
      ensures ok ==> Valid() && Pos() == old(Pos()) + 14
      ensures ok ==>
                && hlit == Take(input, old(Pos()), 5) + 257 && 257 <= hlit <= 288
                && hdist == Take(input, old(Pos()) + 5, 5) + 1 && 1 <= hdist <= 32
                && hclen == Take(input, old(Pos()) + 10, 4) + 4 && hclen <= 19
    {
      hide Take;
      HeaderRange(input, Pos());
      hlit, hdist, hclen := 0, 0, 0;
      var value;
      ok, value := Bits(5);
      if !ok {
        return;
      }
      hlit := value + 257;
      ok, value := Bits(5);
      if !ok {
        return;
      }
      hdist := value + 1;
      ok, value := Bits(4);
      if ok {
        hclen := value + 4;
      }
    }

    /** A dynamic block's header, then its data. */
    method Dynamic() returns (status: Status)
      requires Valid()
      modifies `inputPosition, `bitBuffer, `bitCount, `outputPosition, output
      modifies lengths, litlen.count, litlen.symbol, distance.count, distance.symbol
      ensures outputPosition <= output.Length
      ensures var r := DynamicSpec(input, old(Pos()), old(Out()));
              Bounded(r, output.Length, status, Out()) && (status == Ok ==> Valid() && Pos() == r.pos)
    {
      hide Take, TablesSpec, ClenLengths, Pow2, Code.Holds;
      var ok, hlit, hdist, hclen := ReadCounts();
      if !ok {
        return Truncated;
      }
      if hlit > 286 {
        return BadBlock;
      }
      var clen;
      ok, clen := ReadClen(hclen);
      if !ok {
        return Truncated;
      }
      status := Tables(clen, hlit, hdist);
    }

    /** The rest of a dynamic block once the code length code's lengths are read. */
    method Tables(clen: array<u8>, hlit: nat, hdist: nat) returns (status: Status)
      requires Valid() && clen.Length == 19 && 257 <= hlit <= 286 && 1 <= hdist <= 32
      requires clen != lengths && clen != output
      modifies `inputPosition, `bitBuffer, `bitCount, `outputPosition, output
      modifies lengths, litlen.count, litlen.symbol, distance.count, distance.symbol
      ensures outputPosition <= output.Length
      ensures var r := TablesSpec(clen[..], hlit, hdist, input, old(Pos()), old(Out()));
              Bounded(r, output.Length, status, Out()) && (status == Ok ==> Valid() && Pos() == r.pos)
    {
      hide Take, LengthsSpec, CodesSpec, Accepted, Code.Holds;
      ghost var c := clen[..];
      assert clen[0..0 + 19] == c;
      var ok := Build(distance, clen, 0, 19, false);
      if !ok {
        return BadLengths;
      }
      status := ReadLengths(c, hlit + hdist);
      if status != Ok {
        return;
      }
      ghost var l := lengths[..hlit + hdist];
      if lengths[END_OF_BLOCK] == 0 {
        return BadLengths;
      }
      assert lengths[0..0 + hlit] == l[..hlit] && lengths[hlit..hlit + hdist] == l[hlit..];
      ok := Build(litlen, lengths, 0, hlit, false);
      if !ok {
        return BadLengths;
      }
      ok := Build(distance, lengths, hlit, hdist, true);
      if !ok {
        return BadLengths;
      }
      status := Codes(l[..hlit], l[hlit..]);
    }
  }

  /** The next byte boundary, when fewer than eight bits are held, is where the input stands. */
  lemma AlignedPosition(position: nat, held: nat)
    requires held < 8 && held <= 8 * position
    ensures (8 * position - held + 7) / 8 == position
  {
  }

  lemma HeaderRange(s: seq<int>, pos: nat)
    requires pos <= 8 * |s|
    ensures Has(s, pos, 5) ==> Take(s, pos, 5) < 32
    ensures Has(s, pos + 5, 5) ==> Take(s, pos + 5, 5) < 32
    ensures Has(s, pos + 10, 4) ==> Take(s, pos + 10, 4) < 16
  {
    assert Pow2(5) == 32 && Pow2(4) == 16;
  }

  lemma ClenNext(s: seq<int>, pos: nat, n: nat)
    requires n < 19 && Has(s, pos, 3 * (n + 1))
    ensures CLEN_ORDER[n] < 19 && Take(s, pos + 3 * n, 3) <= 255
    ensures ClenLengths(s, pos, n + 1) == ClenLengths(s, pos, n)[CLEN_ORDER[n] := Take(s, pos + 3 * n, 3)]
  {
    assert Pow2(3) == 8;
  }

  lemma PeriodicEmpty(out: seq<u8>, d: nat)
    requires 1 <= d <= |out|
    ensures out + Periodic(out, d, 0) == out
  {
  }

  /** The next byte of a periodic extension is the one d places back, which is already written. */
  lemma PeriodicNext(out: seq<u8>, d: nat, i: nat)
    requires 1 <= d <= |out|
    ensures var all := out + Periodic(out, d, i);
            out + Periodic(out, d, i + 1) == all + [all[|out| - d + i]]
  {
    if i >= d {
      PeriodShift(i, d);
    }
  }

  /** Extra bits never exceed what one read may take. */
  function LengthExtraAt(sym: nat): (n: nat)
    requires sym < LENGTH_CODES
    ensures n == LENGTH_EXTRA[sym] && n <= 16
  {
    LENGTH_EXTRA[sym]
  }

  function DistanceExtraAt(d: nat): (n: nat)
    requires d < DISTANCE_CODES
    ensures n == DISTANCE_EXTRA[d] && n <= 16
  {
    DISTANCE_EXTRA[d]
  }

  lemma PeriodShift(i: nat, d: nat)
    requires 1 <= d <= i
    ensures (i - d) % d == i % d
  {
    RemainderUnique(i / d - (i - d) / d - 1, (i - d) % d, i % d, d) by {
      assert i == d * (i / d) + i % d && i - d == d * ((i - d) / d) + (i - d) % d;
      assert (i / d - (i - d) / d - 1) * d == d * (i / d) - d * ((i - d) / d) - d;
    }
  }

  /** No code the stream starts with is shorter than this. */
  ghost predicate NoneShorter(lens: seq<int>, s: seq<int>, pos: nat, length: nat) {
    forall sym: nat :: Matches(lens, s, pos, sym) ==> lens[sym] >= length
  }

  lemma StartOfCode(lens: seq<int>, s: seq<int>, pos: nat)
    requires pos <= 8 * |s|
    ensures CodeBits(s, pos, 0) == 0 && FirstCode(lens, 1) == 0 && Offset(lens, 1) == 0
    ensures Beyond(lens, s, pos, 0)
    ensures NoneShorter(lens, s, pos, 1)
  {
  }

  lemma NextBit(s: seq<int>, pos: nat, length: nat)
    requires length >= 1 && pos + length <= 8 * |s|
    ensures CodeBits(s, pos, length) == 2 * CodeBits(s, pos, length - 1) + Take(s, pos + length - 1, 1)
  {
    assert Take(s, pos + length, 0) == 0;
  }

  lemma NextLength(lens: seq<int>, length: nat)
    requires length >= 1
    ensures FirstCode(lens, length + 1) == 2 * (FirstCode(lens, length) + Count(lens, length))
    ensures Offset(lens, length + 1) == Offset(lens, length) + Count(lens, length)
  {
  }

  /** The input ended before a code of this length: nothing longer can match either. */
  lemma NoRoom(lens: seq<int>, s: seq<int>, pos: nat, length: nat)
    requires length <= MAX_BITS && pos + length > 8 * |s|
    requires NoneShorter(lens, s, pos, length)
    ensures DecodeSym(lens, s, pos) == RanOut
  {
  }

  lemma NothingMatches(lens: seq<int>, s: seq<int>, pos: nat)
    requires pos + MAX_BITS <= 8 * |s|
    requires NoneShorter(lens, s, pos, MAX_BITS + 1)
    ensures DecodeSym(lens, s, pos) == NoCode
  {
  }

  /** A reading inside the run of codes of this length is the code of the symbol in the table. */
  lemma HitIs(lens: seq<int>, s: seq<int>, pos: nat, length: nat, table: seq<int>) returns (sym: nat)
    requires 1 <= length <= MAX_BITS && pos + length <= 8 * |s| && Placed(lens, |lens|, table)
    requires FirstCode(lens, length) <= CodeBits(s, pos, length) < FirstCode(lens, length) + Count(lens, length)
    ensures Matches(lens, s, pos, sym) && lens[sym] == length
    ensures var at := Offset(lens, length) + CodeBits(s, pos, length) - FirstCode(lens, length);
            at < |table| && table[at] == sym
  {
    assert lens[..|lens|] == lens;
    sym := RankSurjective(lens, |lens|, length, CodeBits(s, pos, length) - FirstCode(lens, length));
    assert Place(lens, sym) == Offset(lens, length) + CodeBits(s, pos, length) - FirstCode(lens, length);
  }

  /** A reading past the run: no code of this length matches, and the reading is beyond them all. */
  lemma MissIs(lens: seq<int>, s: seq<int>, pos: nat, length: nat)
    requires 1 <= length && pos + length <= 8 * |s|
    requires CodeBits(s, pos, length) >= FirstCode(lens, length) + Count(lens, length)
    requires NoneShorter(lens, s, pos, length)
    ensures Beyond(lens, s, pos, length)
    ensures NoneShorter(lens, s, pos, length + 1)
  {
    forall sym: nat | Matches(lens, s, pos, sym)
      ensures lens[sym] >= length + 1
    {
      RankBound(lens, sym);
    }
  }

  /**
    Decode a whole stream into a bounded buffer. With room for everything the stream decodes to,
    status and bytes are exactly the specification's; otherwise OutputFull, with a prefix of them.
   */
  method InflateWithState(state: State, input: seq<u8>, output: array<u8>) returns (status: Status, outputLength: nat)
    requires state.Shape() && output != state.lengths
    modifies state, output, state.lengths, state.litlen.count, state.litlen.symbol
    modifies state.distance.count, state.distance.symbol
    ensures outputLength <= output.Length
    ensures Bounded(StreamSpec(input), output.Length, status, output[..outputLength])
  {
    hide Take, BlockSpec;
    state.input := input;
    state.inputPosition := 0;
    state.bitBuffer := 0;
    state.bitCount := 0;
    state.output := output;
    state.outputPosition := 0;
    TakeNothing(input, 0);
    assert state.Out() == [];
    while true
      invariant state.Valid() && state.input == input && state.output == output
      invariant BlocksSpec(input, state.Pos(), state.Out()) == StreamSpec(input)
      decreases 8 * |input| - state.Pos()
    {
      HeaderBits(input, state.Pos());
      var finalBlock, kind;
      var ok;
      ok, finalBlock := state.Bits(1);
      if ok {
        ok, kind := state.Bits(2);
      }
      if !ok {
        return Truncated, state.outputPosition;
      }
      status := RunBlock(state, kind);
      if status != Ok || finalBlock != 0 {
        return status, state.outputPosition;
      }
    }
  }

  lemma TakeNothing(s: seq<int>, byte: nat)
    requires byte <= |s|
    ensures Take(s, 8 * byte, 0) == 0
  {
  }

  lemma HeaderBits(s: seq<int>, pos: nat)
    ensures Has(s, pos, 1) ==> Take(s, pos, 1) == 0 || Take(s, pos, 1) == 1
    ensures Has(s, pos, 3) ==> Take(s, pos + 1, 2) <= 3
  {
    assert Pow2(1) == 2 && Pow2(2) == 4;
  }

  /** One block by its type. */
  method RunBlock(state: State, kind: nat) returns (status: Status)
    requires state.Valid()
    modifies state`inputPosition, state`bitBuffer, state`bitCount, state`outputPosition, state.output
    modifies state.lengths, state.litlen.count, state.litlen.symbol
    modifies state.distance.count, state.distance.symbol
    ensures state.outputPosition <= state.output.Length
    ensures var r := BlockSpec(kind, state.input, old(state.Pos()), old(state.Out()));
            Bounded(r, state.output.Length, status, state.Out()) && (status == Ok ==> state.Valid() && state.Pos() == r.pos)
  {
    hide Take, StoredSpec, CodesSpec, DynamicSpec;
    if kind == 0 {
      status := state.Stored();
    } else if kind == 1 {
      status := state.Fixed();
    } else if kind == 2 {
      status := state.Dynamic();
    } else {
      status := BadBlock;
    }
  }
}
