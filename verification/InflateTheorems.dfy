/** Properties of what a stream decodes to. */
module InflateTheorems {
  import opened LittleEndian
  import opened BitString
  import opened Huffman
  import opened InflateSpec

  lemma BitStable(s: seq<int>, t: seq<int>, k: nat)
    requires k < 8 * |s|
    ensures BitOf(s + t, k) == BitOf(s, k)
  {
  }

  lemma {:induction false} TakeStable(s: seq<int>, t: seq<int>, pos: nat, n: nat)
    requires Has(s, pos, n)
    ensures Take(s + t, pos, n) == Take(s, pos, n)
    decreases n
  {
    if n > 0 {
      BitStable(s, t, pos);
      TakeStable(s, t, pos + 1, n - 1);
    }
  }

  lemma {:induction false} CodeBitsStable(s: seq<int>, t: seq<int>, pos: nat, len: nat)
    requires pos + len <= 8 * |s|
    ensures CodeBits(s + t, pos, len) == CodeBits(s, pos, len)
  {
    if len > 0 {
      BitStable(s, t, pos + len - 1);
      CodeBitsStable(s, t, pos, len - 1);
    }
  }

  lemma DecodeStable(lengths: seq<int>, s: seq<int>, t: seq<int>, pos: nat)
    requires DecodeSym(lengths, s, pos).Symbol?
    ensures DecodeSym(lengths, s + t, pos) == DecodeSym(lengths, s, pos)
  {
    var sym := DecodeSym(lengths, s, pos).sym;
    CodeBitsStable(s, t, pos, lengths[sym]);
    DecodeSymIs(lengths, s + t, pos, sym);
  }

  lemma DistanceStable(length: nat, dist: seq<int>, s: seq<int>, t: seq<int>, at: nat, pos: nat)
    requires pos < at <= 8 * |s| && DistanceToken(length, dist, s, at, pos).Match?
    ensures DistanceToken(length, dist, s + t, at, pos) == DistanceToken(length, dist, s, at, pos)
  {
    hide DecodeSym, Take;
    DecodeStable(dist, s, t, at);
    var d := DecodeSym(dist, s, at);
    TakeStable(s, t, d.pos, DISTANCE_EXTRA[d.sym]);
  }

  lemma MatchStable(sym: nat, dist: seq<int>, s: seq<int>, t: seq<int>, at: nat, pos: nat)
    requires pos < at <= 8 * |s| && MatchToken(sym, dist, s, at, pos).Match?
    ensures MatchToken(sym, dist, s + t, at, pos) == MatchToken(sym, dist, s, at, pos)
  {
    hide Take, DistanceToken;
    var lx := LENGTH_EXTRA[sym];
    TakeStable(s, t, at, lx);
    DistanceStable(LENGTH_BASE[sym] + Take(s, at, lx), dist, s, t, at + lx, pos);
  }

  lemma TokenStable(lit: seq<int>, dist: seq<int>, s: seq<int>, t: seq<int>, pos: nat)
    requires pos <= 8 * |s| && !NextToken(lit, dist, s, pos).Stop?
    ensures NextToken(lit, dist, s + t, pos) == NextToken(lit, dist, s, pos)
  {
    hide DecodeSym, MatchToken;
    DecodeStable(lit, s, t, pos);
    var d := DecodeSym(lit, s, pos);
    if d.sym > END_OF_BLOCK {
      MatchStable(d.sym - 257, dist, s, t, d.pos, pos);
    }
  }

  lemma {:induction false} CodesStable(lit: seq<int>, dist: seq<int>, s: seq<int>, t: seq<int>, pos: nat, out: seq<u8>)
    requires pos <= 8 * |s| && CodesSpec(lit, dist, s, pos, out).status.Ok?
    ensures CodesSpec(lit, dist, s + t, pos, out) == CodesSpec(lit, dist, s, pos, out)
    decreases 8 * |s| - pos
  {
    hide NextToken, Periodic;
    TokenStable(lit, dist, s, t, pos);
    match NextToken(lit, dist, s, pos)
    case Literal(byte, at) => CodesStable(lit, dist, s, t, at, out + [byte]);
    case Match(length, distance, at) => CodesStable(lit, dist, s, t, at, out + Periodic(out, distance, length));
    case EndOfBlock(_) =>
  }

  lemma {:induction false} ClenStable(s: seq<int>, t: seq<int>, pos: nat, n: nat)
    requires n <= 19 && Has(s, pos, 3 * n)
    ensures ClenLengths(s + t, pos, n) == ClenLengths(s, pos, n)
  {
    hide Take;
    if n > 0 {
      ClenStable(s, t, pos, n - 1);
      TakeStable(s, t, pos + 3 * (n - 1), 3);
    }
  }

  lemma LengthsNextStable(clen: seq<int>, s: seq<int>, t: seq<int>, pos: nat, total: nat, acc: seq<u8>)
    requires pos <= 8 * |s| && |acc| < total && |clen| == 19
    requires LengthsNext(clen, s, pos, total, acc).Lengths?
    ensures LengthsNext(clen, s + t, pos, total, acc) == LengthsNext(clen, s, pos, total, acc)
  {
    hide DecodeSym, Take;
    DecodeStable(clen, s, t, pos);
    var d := DecodeSym(clen, s, pos);
    if d.sym >= 16 {
      TakeStable(s, t, d.pos, RepeatExtra(d.sym));
    }
  }

  lemma {:induction false} LengthsStable(clen: seq<int>, s: seq<int>, t: seq<int>, pos: nat, total: nat, acc: seq<u8>)
    requires pos <= 8 * |s| && |acc| <= total && |clen| == 19
    requires LengthsSpec(clen, s, pos, total, acc).Lengths?
    ensures LengthsSpec(clen, s + t, pos, total, acc) == LengthsSpec(clen, s, pos, total, acc)
    decreases total - |acc|
  {
    hide LengthsNext;
    if |acc| < total {
      LengthsNextStable(clen, s, t, pos, total, acc);
      var r := LengthsNext(clen, s, pos, total, acc);
      LengthsStable(clen, s, t, r.pos, total, r.lengths);
    }
  }

  lemma DynamicStable(s: seq<u8>, t: seq<u8>, pos: nat, out: seq<u8>)
    requires pos <= 8 * |s| && DynamicSpec(s, pos, out).status.Ok?
    ensures DynamicSpec(s + t, pos, out) == DynamicSpec(s, pos, out)
  {
    hide Take, ClenLengths, LengthsSpec, CodesSpec, Accepted;
    TakeStable(s, t, pos, 5);
    TakeStable(s, t, pos + 5, 5);
    TakeStable(s, t, pos + 10, 4);
    assert Pow2(4) == 16;
    var hlit, hdist, hclen := Take(s, pos, 5) + 257, Take(s, pos + 5, 5) + 1, Take(s, pos + 10, 4) + 4;
    ClenStable(s, t, pos + 14, hclen);
    var clen, at := ClenLengths(s, pos + 14, hclen), pos + 14 + 3 * hclen;
    LengthsStable(clen, s, t, at, hlit + hdist, []);
    var r := LengthsSpec(clen, s, at, hlit + hdist, []);
    CodesStable(r.lengths[..hlit], r.lengths[hlit..], s, t, r.pos, out);
  }

  lemma StoredStable(s: seq<u8>, t: seq<u8>, pos: nat, out: seq<u8>)
    requires pos <= 8 * |s| && StoredSpec(s, pos, out).status.Ok?
    ensures StoredSpec(s + t, pos, out) == StoredSpec(s, pos, out)
  {
    var at := (pos + 7) / 8;
    var length := Get16(s, at);
    assert (s + t)[at + 4..at + 4 + length] == s[at + 4..at + 4 + length];
  }

  lemma BlockStable(kind: nat, s: seq<u8>, t: seq<u8>, pos: nat, out: seq<u8>)
    requires pos <= 8 * |s| && BlockSpec(kind, s, pos, out).status.Ok?
    ensures BlockSpec(kind, s + t, pos, out) == BlockSpec(kind, s, pos, out)
  {
    hide StoredSpec, DynamicSpec, CodesSpec;
    if kind == 0 {
      StoredStable(s, t, pos, out);
    } else if kind == 1 {
      CodesStable(FixedLitlen(), Run(5, 32), s, t, pos, out);
    } else {
      DynamicStable(s, t, pos, out);
    }
  }

  lemma {:induction false} BlocksStable(s: seq<u8>, t: seq<u8>, pos: nat, out: seq<u8>)
    requires pos <= 8 * |s| && BlocksSpec(s, pos, out).status.Ok?
    ensures BlocksSpec(s + t, pos, out) == BlocksSpec(s, pos, out)
    decreases 8 * |s| - pos
  {
    hide BlockSpec, Take;
    TakeStable(s, t, pos, 1);
    TakeStable(s, t, pos + 1, 2);
    var kind := Take(s, pos + 1, 2);
    BlockStable(kind, s, t, pos + 3, out);
    var r := BlockSpec(kind, s, pos + 3, out);
    if Take(s, pos, 1) != 1 {
      BlocksStable(s, t, r.pos, r.out);
    }
  }

  /** Bytes after the final block change nothing: a complete stream may be padded. */
  lemma TrailingBytesIgnored(s: seq<u8>, t: seq<u8>)
    requires StreamSpec(s).status.Ok?
    ensures StreamSpec(s + t) == StreamSpec(s)
  {
    BlocksStable(s, t, 0, []);
  }

  /** The bits of a number of len bits, most significant first. */
  function NumberBits(v: nat, len: nat): (b: seq<int>)
    ensures |b| == len && forall i :: 0 <= i < len ==> b[i] == 0 || b[i] == 1
  {
    if len == 0 then [] else NumberBits(v / 2, len - 1) + [v % 2]
  }

  /** A symbol's code as it goes into the stream. */
  function EncodeSym(lengths: seq<int>, sym: nat): (b: seq<int>)
    requires sym < |lengths| && lengths[sym] >= 1
    ensures |b| == lengths[sym]
  {
    NumberBits(CodeOf(lengths, sym), lengths[sym])
  }

  /** The stream holds these bits from pos on. */
  ghost predicate Spells(s: seq<int>, pos: nat, bits: seq<int>) {
    pos + |bits| <= 8 * |s| && forall i :: 0 <= i < |bits| ==> BitOf(s, pos + i) == bits[i]
  }

  lemma {:induction false} SpelledNumber(s: seq<int>, pos: nat, v: nat, len: nat)
    requires Spells(s, pos, NumberBits(v, len)) && v < Pow2(len)
    ensures CodeBits(s, pos, len) == v
  {
    if len > 0 {
      SpellsSplit(s, pos, NumberBits(v / 2, len - 1), [v % 2]);
      SpelledNumber(s, pos, v / 2, len - 1);
      assert BitOf(s, pos + len - 1 + 0) == [v % 2][0];
    }
  }

  /** An accepted length set never asks for more code space than there is. */
  lemma AcceptedFits(lengths: seq<int>)
    requires Accepted(lengths, true)
    ensures ValidLengths(lengths) && Kraft(lengths) <= Pow2(MAX_BITS)
  {
    hide Kraft, Pow2;
    if SingleOrNone(lengths) {
      SingleByCount(lengths);
    }
  }

  /** An accepted code's symbols have codes that fit their lengths. */
  lemma CodeFits(lengths: seq<int>, sym: nat)
    requires Accepted(lengths, true) && sym < |lengths| && lengths[sym] >= 1
    ensures CodeOf(lengths, sym) < Pow2(lengths[sym]) && lengths[sym] <= MAX_BITS
  {
    hide Kraft, KraftUpTo, Pow2, FirstCode, Count, Complete, SingleOrNone;
    AcceptedFits(lengths);
    RankBound(lengths, sym);
    KraftByLength(lengths);
    LeftIsRest(lengths, MAX_BITS);
    if Left(lengths, lengths[sym]) < 0 {
      Overdrawn(lengths, lengths[sym], MAX_BITS);
    }
  }

  /** Writing a symbol's code and decoding it returns the symbol and uses exactly its bits. */
  lemma SymbolRoundTrip(lengths: seq<int>, s: seq<int>, pos: nat, sym: nat)
    requires Accepted(lengths, true) && sym < |lengths| && lengths[sym] >= 1
    requires Spells(s, pos, EncodeSym(lengths, sym))
    ensures DecodeSym(lengths, s, pos) == Symbol(sym, pos + lengths[sym])
  {
    hide Complete, SingleOrNone;
    CodeFits(lengths, sym);
    SpelledNumber(s, pos, CodeOf(lengths, sym), lengths[sym]);
    DecodeSymIs(lengths, s, pos, sym);
  }

  lemma SpellsSplit(s: seq<int>, pos: nat, a: seq<int>, b: seq<int>)
    requires Spells(s, pos, a + b)
    ensures Spells(s, pos, a) && Spells(s, pos + |a|, b)
  {
    forall i | 0 <= i < |a|
      ensures BitOf(s, pos + i) == a[i]
    {
      assert (a + b)[i] == a[i];
    }
    forall i | 0 <= i < |b|
      ensures BitOf(s, pos + |a| + i) == b[i]
    {
      assert (a + b)[|a| + i] == b[i];
    }
  }

  lemma SpellsWithin(s: seq<int>, pos: nat, bits: seq<int>)
    requires Spells(s, pos, bits)
    ensures pos + |bits| <= 8 * |s|
  {
  }

  /** A plain field, low bit first. */
  function FieldBits(v: nat, n: nat): (b: seq<int>)
    ensures |b| == n
  {
    if n == 0 then [] else [v % 2] + FieldBits(v / 2, n - 1)
  }

  lemma {:induction false} SpelledField(s: seq<int>, pos: nat, v: nat, n: nat)
    requires Spells(s, pos, FieldBits(v, n)) && v < Pow2(n)
    ensures Has(s, pos, n) && Take(s, pos, n) == v
    decreases n
  {
    if n > 0 {
      SpellsSplit(s, pos, [v % 2], FieldBits(v / 2, n - 1));
      SpelledField(s, pos + 1, v / 2, n - 1);
      assert BitOf(s, pos + 0) == [v % 2][0];
    }
  }

  /** What an encoder emits: a byte, or a copy given by its two symbols and their extra bits. */
  datatype Item = Byte(byte: u8) | Copy(sym: nat, extra: nat, dsym: nat, dextra: nat)

  function CopyLength(i: Item): nat
    requires i.Copy? && i.sym < LENGTH_CODES
  {
    LENGTH_BASE[i.sym] + i.extra
  }

  function CopyDistance(i: Item): (d: nat)
    requires i.Copy? && i.dsym < DISTANCE_CODES
    ensures d >= 1
  {
    DISTANCE_BASE[i.dsym] + i.dextra
  }

  /** Both codes have the symbols the item needs, and a copy reaches back into what is there. */
  predicate ItemOk(lit: seq<int>, dist: seq<int>, i: Item, have: nat) {
    match i
    case Byte(b) => b < |lit| && lit[b] >= 1
    case Copy(sym, extra, dsym, dextra) =>
      && sym < LENGTH_CODES && 257 + sym < |lit| && lit[257 + sym] >= 1 && extra < Pow2(LENGTH_EXTRA[sym])
      && dsym < DISTANCE_CODES && dsym < |dist| && dist[dsym] >= 1 && dextra < Pow2(DISTANCE_EXTRA[dsym])
      && CopyDistance(i) <= have
  }

  function Apply(lit: seq<int>, dist: seq<int>, i: Item, out: seq<u8>): seq<u8>
    requires ItemOk(lit, dist, i, |out|)
  {
    match i
    case Byte(b) => out + [b]
    case Copy(_, _, _, _) => out + Periodic(out, CopyDistance(i), CopyLength(i))
  }

  /** The bits of a copy behind those of its length symbol. */
  function CopyTail(dist: seq<int>, i: Item): (b: seq<int>)
    requires i.Copy? && i.sym < LENGTH_CODES && i.dsym < DISTANCE_CODES && i.dsym < |dist| && dist[i.dsym] >= 1
    ensures |b| == LENGTH_EXTRA[i.sym] + dist[i.dsym] + DISTANCE_EXTRA[i.dsym]
  {
    FieldBits(i.extra, LENGTH_EXTRA[i.sym]) + (EncodeSym(dist, i.dsym) + FieldBits(i.dextra, DISTANCE_EXTRA[i.dsym]))
  }

  function EncodeItem(lit: seq<int>, dist: seq<int>, i: Item, have: nat): seq<int>
    requires ItemOk(lit, dist, i, have)
  {
    match i
    case Byte(b) => EncodeSym(lit, b)
    case Copy(sym, _, _, _) => EncodeSym(lit, 257 + sym) + CopyTail(dist, i)
  }

  predicate ItemsOk(lit: seq<int>, dist: seq<int>, items: seq<Item>, out: seq<u8>) {
    items == [] ||
    (ItemOk(lit, dist, items[0], |out|) && ItemsOk(lit, dist, items[1..], Apply(lit, dist, items[0], out)))
  }

  /** The bytes the items stand for, after out. */
  function Expand(lit: seq<int>, dist: seq<int>, items: seq<Item>, out: seq<u8>): seq<u8>
    requires ItemsOk(lit, dist, items, out)
  {
    if items == [] then out else Expand(lit, dist, items[1..], Apply(lit, dist, items[0], out))
  }

  predicate Ends(lit: seq<int>) {
    END_OF_BLOCK < |lit| && lit[END_OF_BLOCK] >= 1
  }

  /** The data of a block: the items and the end-of-block symbol. */
  function EncodeItems(lit: seq<int>, dist: seq<int>, items: seq<Item>, out: seq<u8>): seq<int>
    requires Ends(lit) && ItemsOk(lit, dist, items, out)
  {
    if items == [] then EncodeSym(lit, END_OF_BLOCK)
    else
      EncodeItem(lit, dist, items[0], |out|)
      + EncodeItems(lit, dist, items[1..], Apply(lit, dist, items[0], out))
  }

  lemma DistanceRoundTrip(length: nat, dist: seq<int>, s: seq<int>, at: nat, pos: nat, dsym: nat, dextra: nat)
    requires Accepted(dist, true) && pos < at && dsym < DISTANCE_CODES && dsym < |dist| && dist[dsym] >= 1
    requires dextra < Pow2(DISTANCE_EXTRA[dsym])
    requires Spells(s, at, EncodeSym(dist, dsym) + FieldBits(dextra, DISTANCE_EXTRA[dsym]))
    ensures at <= 8 * |s|
    ensures DistanceToken(length, dist, s, at, pos)
      == Match(length, DISTANCE_BASE[dsym] + dextra, at + dist[dsym] + DISTANCE_EXTRA[dsym])
  {
    hide DecodeSym, Spells, EncodeSym, FieldBits, Take, Pow2, Accepted;
    SpellsSplit(s, at, EncodeSym(dist, dsym), FieldBits(dextra, DISTANCE_EXTRA[dsym]));
    SpellsWithin(s, at, EncodeSym(dist, dsym));
    SymbolRoundTrip(dist, s, at, dsym);
    SpelledField(s, at + dist[dsym], dextra, DISTANCE_EXTRA[dsym]);
  }

  lemma CopyRoundTrip(dist: seq<int>, s: seq<int>, at: nat, pos: nat, i: Item)
    requires Accepted(dist, true) && pos < at && i.Copy? && i.sym < LENGTH_CODES && i.extra < Pow2(LENGTH_EXTRA[i.sym])
    requires i.dsym < DISTANCE_CODES && i.dsym < |dist| && dist[i.dsym] >= 1 && i.dextra < Pow2(DISTANCE_EXTRA[i.dsym])
    requires Spells(s, at, CopyTail(dist, i))
    ensures at <= 8 * |s|
    ensures MatchToken(i.sym, dist, s, at, pos)
      == Match(CopyLength(i), CopyDistance(i), at + LENGTH_EXTRA[i.sym] + dist[i.dsym] + DISTANCE_EXTRA[i.dsym])
  {
    hide Spells, EncodeSym, FieldBits, Take, Pow2, Accepted, DistanceToken;
    var field := FieldBits(i.extra, LENGTH_EXTRA[i.sym]);
    var tail := EncodeSym(dist, i.dsym) + FieldBits(i.dextra, DISTANCE_EXTRA[i.dsym]);
    SpellsSplit(s, at, field, tail);
    SpellsWithin(s, at, field);
    SpelledField(s, at, i.extra, LENGTH_EXTRA[i.sym]);
    DistanceRoundTrip(CopyLength(i), dist, s, at + LENGTH_EXTRA[i.sym], pos, i.dsym, i.dextra);
  }

  lemma ByteRoundTrip(lit: seq<int>, dist: seq<int>, s: seq<int>, pos: nat, b: nat)
    requires Accepted(lit, true) && b < END_OF_BLOCK && b < |lit| && lit[b] >= 1 && Spells(s, pos, EncodeSym(lit, b))
    ensures pos <= 8 * |s| && NextToken(lit, dist, s, pos) == Literal(b, pos + lit[b])
  {
    hide DecodeSym, Spells, EncodeSym, Accepted, MatchToken;
    SpellsWithin(s, pos, EncodeSym(lit, b));
    SymbolRoundTrip(lit, s, pos, b);
  }

  lemma CopyItemRoundTrip(lit: seq<int>, dist: seq<int>, s: seq<int>, pos: nat, i: Item, have: nat)
    requires Accepted(lit, true) && Accepted(dist, true) && i.Copy? && ItemOk(lit, dist, i, have)
    requires Spells(s, pos, EncodeSym(lit, 257 + i.sym) + CopyTail(dist, i))
    ensures pos <= 8 * |s|
    ensures NextToken(lit, dist, s, pos)
      == Match(CopyLength(i), CopyDistance(i), pos + lit[257 + i.sym] + |CopyTail(dist, i)|)
  {
    hide DecodeSym, Spells, EncodeSym, CopyTail, Pow2, Accepted, MatchToken;
    SpellsSplit(s, pos, EncodeSym(lit, 257 + i.sym), CopyTail(dist, i));
    SpellsWithin(s, pos, EncodeSym(lit, 257 + i.sym));
    SymbolRoundTrip(lit, s, pos, 257 + i.sym);
    CopyRoundTrip(dist, s, pos + lit[257 + i.sym], pos, i);
  }

  /** One encoded item reads back as the token it is. */
  lemma ItemRoundTrip(lit: seq<int>, dist: seq<int>, s: seq<int>, pos: nat, i: Item, have: nat)
    requires Accepted(lit, true) && Accepted(dist, true) && ItemOk(lit, dist, i, have)
    requires Spells(s, pos, EncodeItem(lit, dist, i, have))
    ensures pos <= 8 * |s|
    ensures var at := pos + |EncodeItem(lit, dist, i, have)|;
            NextToken(lit, dist, s, pos)
              == if i.Byte? then Literal(i.byte, at) else Match(CopyLength(i), CopyDistance(i), at)
  {
    hide NextToken, Spells, EncodeSym, CopyTail, CopyLength, CopyDistance, Pow2, Accepted;
    match i
    case Byte(b) => ByteRoundTrip(lit, dist, s, pos, b);
    case Copy(_, _, _, _) => CopyItemRoundTrip(lit, dist, s, pos, i, have);
  }

  /** Decoding the token of an item applies the item. */
  lemma ItemStep(lit: seq<int>, dist: seq<int>, s: seq<int>, pos: nat, i: Item, out: seq<u8>, at: nat)
    requires pos <= 8 * |s| && ItemOk(lit, dist, i, |out|)
    requires NextToken(lit, dist, s, pos)
      == if i.Byte? then Literal(i.byte, at) else Match(CopyLength(i), CopyDistance(i), at)
    ensures at <= 8 * |s| && CodesSpec(lit, dist, s, pos, out) == CodesSpec(lit, dist, s, at, Apply(lit, dist, i, out))
  {
    hide NextToken, Periodic;
  }

  lemma EndStep(lit: seq<int>, dist: seq<int>, s: seq<int>, pos: nat, out: seq<u8>, at: nat)
    requires pos <= 8 * |s| && NextToken(lit, dist, s, pos) == EndOfBlock(at)
    ensures CodesSpec(lit, dist, s, pos, out) == Result(Ok, at, out)
  {
    hide NextToken;
  }

  /** Everything an encoder can write with two accepted codes decodes to the bytes it stands for. */
  lemma {:induction false} ItemsRoundTrip(lit: seq<int>, dist: seq<int>, s: seq<int>, pos: nat, items: seq<Item>, out: seq<u8>)
    requires Accepted(lit, true) && Accepted(dist, true) && Ends(lit) && ItemsOk(lit, dist, items, out)
    requires Spells(s, pos, EncodeItems(lit, dist, items, out))
    ensures pos <= 8 * |s|
    ensures CodesSpec(lit, dist, s, pos, out)
      == Result(Ok, pos + |EncodeItems(lit, dist, items, out)|, Expand(lit, dist, items, out))
    decreases |items|
  {
    hide Accepted, EncodeSym, EncodeItem, Spells, NextToken, Apply, CodesSpec, ItemOk;
    SpellsWithin(s, pos, EncodeItems(lit, dist, items, out));
    if items == [] {
      EndRoundTrip(lit, dist, s, pos);
      EndStep(lit, dist, s, pos, out, pos + lit[END_OF_BLOCK]);
    } else {
      var next := Apply(lit, dist, items[0], out);
      var bits := EncodeItem(lit, dist, items[0], |out|);
      SpellsSplit(s, pos, bits, EncodeItems(lit, dist, items[1..], next));
      ItemRoundTrip(lit, dist, s, pos, items[0], |out|);
      ItemStep(lit, dist, s, pos, items[0], out, pos + |bits|);
      ItemsRoundTrip(lit, dist, s, pos + |bits|, items[1..], next);
    }
  }

  lemma EndRoundTrip(lit: seq<int>, dist: seq<int>, s: seq<int>, pos: nat)
    requires Accepted(lit, true) && Ends(lit) && Spells(s, pos, EncodeSym(lit, END_OF_BLOCK))
    ensures pos <= 8 * |s| && NextToken(lit, dist, s, pos) == EndOfBlock(pos + lit[END_OF_BLOCK])
  {
    hide DecodeSym, Accepted;
    SpellsWithin(s, pos, EncodeSym(lit, END_OF_BLOCK));
    SymbolRoundTrip(lit, s, pos, END_OF_BLOCK);
  }

  /** A whole stream of one final block under the fixed codes. */
  lemma FixedStreamRoundTrip(s: seq<u8>, items: seq<Item>)
    requires Ends(FixedLitlen()) && ItemsOk(FixedLitlen(), Run(5, 32), items, [])
    requires Spells(s, 0, [1, 1, 0] + EncodeItems(FixedLitlen(), Run(5, 32), items, []))
    ensures StreamSpec(s).status == Ok && StreamSpec(s).out == Expand(FixedLitlen(), Run(5, 32), items, [])
  {
    hide Accepted, EncodeItems, Expand, ItemsOk, CodesSpec, FixedLitlen, Run;
    var bits := EncodeItems(FixedLitlen(), Run(5, 32), items, []);
    SpellsSplit(s, 0, [1, 1, 0], bits);
    FixedAccepted();
    ItemsRoundTrip(FixedLitlen(), Run(5, 32), s, 3, items, []);
    FinalFixedHeader(s);
    SpellsWithin(s, 3, bits);
  }

  lemma FixedAccepted()
    ensures Accepted(FixedLitlen(), true) && Accepted(Run(5, 32), true)
  {
    hide FixedLitlen, Run, Complete;
    FixedCodesComplete();
  }

  lemma FinalFixedHeader(s: seq<int>)
    requires Spells(s, 0, [1, 1, 0])
    ensures Has(s, 0, 3) && Take(s, 0, 1) == 1 && Take(s, 1, 2) == 1
  {
    hide BitOf;
    var bits: seq<int> := [1, 1, 0];
    assert BitOf(s, 0 + 0) == bits[0] && BitOf(s, 0 + 1) == bits[1] && BitOf(s, 0 + 2) == bits[2];
    assert Take(s, 1, 0) == 0 && Take(s, 3, 0) == 0;
    assert Take(s, 2, 1) == 0;
  }
}
