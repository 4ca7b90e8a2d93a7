/** Whole streams of stored, fixed and dynamic blocks, as an encoder of RFC 1951 writes them. */
module InflateStreams {
  import opened LittleEndian
  import opened BitString
  import opened Huffman
  import opened InflateSpec
  import opened InflateBits
  import opened InflateTheorems

  /** Extra bits of a length code: none for the first four, then one more for every four; none for 258. */
  function LengthExtra(sym: nat): nat {
    if sym < 4 || sym == 28 then 0 else sym / 4 - 1
  }

  /** The ranges of the length codes follow one another from 3 on to 258, which the last code has alone. */
  lemma LengthRanges(sym: nat)
    requires sym < LENGTH_CODES
    ensures LENGTH_EXTRA[sym] == LengthExtra(sym)
    ensures sym == 0 ==> LENGTH_BASE[sym] == 3
    ensures sym < 27 ==> LENGTH_BASE[sym] + Pow2(LENGTH_EXTRA[sym]) == LENGTH_BASE[sym + 1]
    ensures sym == 27 ==> LENGTH_BASE[sym] + Pow2(LENGTH_EXTRA[sym]) == 259
    ensures sym == 28 ==> LENGTH_BASE[sym] == 258
  {
    hide Pow2;
    Powers();
    if sym < 14 {
    } else {
    }
  }

  /** Extra bits of a distance code: none for the first two, then one more for every two. */
  function DistanceExtra(sym: nat): nat {
    if sym < 2 then 0 else sym / 2 - 1
  }

  /** The ranges of the distance codes follow one another through 1 to 32768. */
  lemma DistanceRanges(sym: nat)
    requires sym < DISTANCE_CODES
    ensures DISTANCE_EXTRA[sym] == DistanceExtra(sym)
    ensures sym == 0 ==> DISTANCE_BASE[sym] == 1
    ensures sym < 29 ==> DISTANCE_BASE[sym] + Pow2(DISTANCE_EXTRA[sym]) == DISTANCE_BASE[sym + 1]
    ensures sym == 29 ==> DISTANCE_BASE[sym] + Pow2(DISTANCE_EXTRA[sym]) == 32769
  {
    hide Pow2;
    DistanceExtras(sym);
    Powers();
    if sym < 10 {
    } else if sym < 20 {
    } else {
    }
  }

  lemma DistanceExtras(sym: nat)
    requires sym < DISTANCE_CODES
    ensures DISTANCE_EXTRA[sym] == DistanceExtra(sym)
  {
  }

  lemma Powers()
    ensures Pow2(0) == 1 && Pow2(1) == 2 && Pow2(2) == 4 && Pow2(3) == 8 && Pow2(4) == 16 && Pow2(5) == 32
    ensures Pow2(6) == 64 && Pow2(7) == 128 && Pow2(8) == 256 && Pow2(9) == 512 && Pow2(10) == 1024
    ensures Pow2(11) == 2048 && Pow2(12) == 4096 && Pow2(13) == 8192 && Pow2(16) == 65536
  {
    assert Pow2(4) == 16;
    assert Pow2(8) == 256;
    assert Pow2(12) == 4096;
  }

  /** Which length comes k-th: the repeats, none at all, then from eight outwards. */
  function OrderAt(k: nat): (sym: nat)
    requires k < 19
    ensures sym < 19
  {
    if k < 3 then 16 + k else if k == 3 then 0 else if k % 2 == 0 then 8 + (k - 4) / 2 else 7 - (k - 5) / 2
  }

  /** Where a length stands in that order. */
  function OrderOf(sym: nat): (k: nat)
    requires sym < 19
    ensures k < 19
  {
    if sym >= 16 then sym - 16 else if sym == 0 then 3 else if sym >= 8 then 4 + 2 * (sym - 8) else 5 + 2 * (7 - sym)
  }

  /** The order has every length once, and it is the order the decoder reads in. */
  lemma OrderIs(k: nat)
    requires k < 19
    ensures CLEN_ORDER[k] == OrderAt(k) && OrderOf(OrderAt(k)) == k && OrderAt(OrderOf(k)) == k
  {
  }

  /** The lengths of the code length code, three bits each, the first n of the order. */
  function ClenBits(clen: seq<u8>, n: nat): (b: seq<int>)
    requires |clen| == 19 && n <= 19
    ensures |b| == 3 * n
  {
    if n == 0 then [] else ClenBits(clen, n - 1) + FieldBits(clen[OrderAt(n - 1)], 3)
  }

  /** Each length sent reads back, and the others are zero. */
  lemma {:induction false} ClenReads(s: seq<int>, pos: nat, clen: seq<u8>, n: nat, sym: nat)
    requires |clen| == 19 && n <= 19 && sym < 19 && forall l :: 0 <= l < 19 ==> clen[l] <= 7
    requires Spells(s, pos, ClenBits(clen, n))
    ensures Has(s, pos, 3 * n)
    ensures ClenLengths(s, pos, n)[sym] == if OrderOf(sym) < n then clen[sym] else 0
  {
    hide Spells, FieldBits, Take, OrderAt, OrderOf, ClenLengths, Pow2;
    SpellsWithin(s, pos, ClenBits(clen, n));
    if n == 0 {
      NoClen(s, pos);
    } else {
      SpellsSplit(s, pos, ClenBits(clen, n - 1), FieldBits(clen[OrderAt(n - 1)], 3));
      ClenReads(s, pos, clen, n - 1, sym);
      Powers();
      SpelledField(s, pos + 3 * (n - 1), clen[OrderAt(n - 1)], 3);
      OrderMeets(n - 1, sym);
      ClenSet(s, pos, n);
    }
  }

  lemma NoClen(s: seq<int>, pos: nat)
    requires Has(s, pos, 0)
    ensures ClenLengths(s, pos, 0) == Run(0, 19)
  {
  }

  lemma OrderMeets(k: nat, sym: nat)
    requires k < 19 && sym < 19
    ensures OrderOf(sym) == k <==> sym == OrderAt(k)
  {
    OrderIs(k);
    OrderIs(sym);
  }

  lemma ClenSet(s: seq<int>, pos: nat, n: nat)
    requires 1 <= n <= 19 && Has(s, pos, 3 * n)
    ensures Take(s, pos + 3 * (n - 1), 3) < 0x100
    ensures ClenLengths(s, pos, n)
      == ClenLengths(s, pos, n - 1)[OrderAt(n - 1) := Take(s, pos + 3 * (n - 1), 3)]
  {
    hide Take, OrderAt, OrderOf;
    Powers();
    OrderIs(n - 1);
  }

  /** How lengths are spelled: one of them, the one before again, or no code for some symbols. */
  datatype Spelled = One(len: u8) | Again(count: nat) | Nothing(count: nat)

  predicate SpelledOk(clen: seq<u8>, i: Spelled, acc: seq<u8>)
    requires |clen| == 19
  {
    match i
    case One(len) => len <= 15 && clen[len] >= 1
    case Again(count) => 3 <= count <= 6 && acc != [] && clen[16] >= 1
    case Nothing(count) => 3 <= count <= 138 && clen[if count <= 10 then 17 else 18] >= 1
  }

  function SpelledBits(clen: seq<u8>, i: Spelled, acc: seq<u8>): seq<int>
    requires |clen| == 19 && SpelledOk(clen, i, acc)
  {
    match i
    case One(len) => EncodeSym(clen, len)
    case Again(count) => EncodeSym(clen, 16) + FieldBits(count - 3, 2)
    case Nothing(count) =>
      if count <= 10 then EncodeSym(clen, 17) + FieldBits(count - 3, 3)
      else EncodeSym(clen, 18) + FieldBits(count - 11, 7)
  }

  function SpelledNext(clen: seq<u8>, i: Spelled, acc: seq<u8>): (next: seq<u8>)
    requires |clen| == 19 && SpelledOk(clen, i, acc)
    ensures |next| > |acc|
  {
    match i
    case One(len) => acc + [len]
    case Again(count) => acc + seq(count, (k: nat) => acc[|acc| - 1])
    case Nothing(count) => acc + seq(count, (k: nat) => 0)
  }

  lemma RepeatReads(clen: seq<u8>, s: seq<int>, pos: nat, total: nat, acc: seq<u8>, sym: nat, extra: nat)
    requires Complete(clen) && |clen| == 19 && 16 <= sym <= 18 && clen[sym] >= 1 && extra < Pow2(RepeatExtra(sym))
    requires (sym == 16 ==> acc != []) && |acc| + extra + RepeatBase(sym) <= total
    requires Spells(s, pos, EncodeSym(clen, sym) + FieldBits(extra, RepeatExtra(sym)))
    ensures pos <= 8 * |s|
    ensures LengthsNext(clen, s, pos, total, acc)
      == Lengths(acc + Run(if sym == 16 then acc[|acc| - 1] else 0, extra + RepeatBase(sym)),
                 pos + clen[sym] + RepeatExtra(sym))
  {
    hide DecodeSym, Spells, EncodeSym, FieldBits, Take, Pow2, Complete, Run;
    SpellsSplit(s, pos, EncodeSym(clen, sym), FieldBits(extra, RepeatExtra(sym)));
    SpellsWithin(s, pos, EncodeSym(clen, sym));
    SymbolRoundTrip(clen, s, pos, sym);
    SpelledField(s, pos + clen[sym], extra, RepeatExtra(sym));
  }

  lemma OneReads(clen: seq<u8>, s: seq<int>, pos: nat, total: nat, acc: seq<u8>, len: u8)
    requires Complete(clen) && |clen| == 19 && len <= 15 && clen[len] >= 1 && |acc| < total
    requires Spells(s, pos, EncodeSym(clen, len))
    ensures pos <= 8 * |s| && LengthsNext(clen, s, pos, total, acc) == Lengths(acc + [len], pos + clen[len])
  {
    hide DecodeSym, Spells, EncodeSym, Complete;
    SpellsWithin(s, pos, EncodeSym(clen, len));
    SymbolRoundTrip(clen, s, pos, len);
  }

  /** One spelled item reads back as what it stands for. */
  lemma SpelledReads(clen: seq<u8>, s: seq<int>, pos: nat, total: nat, acc: seq<u8>, i: Spelled)
    requires Complete(clen) && |clen| == 19 && SpelledOk(clen, i, acc) && |SpelledNext(clen, i, acc)| <= total
    requires Spells(s, pos, SpelledBits(clen, i, acc))
    ensures pos <= 8 * |s|
    ensures LengthsNext(clen, s, pos, total, acc)
      == Lengths(SpelledNext(clen, i, acc), pos + |SpelledBits(clen, i, acc)|)
  {
    hide DecodeSym, Spells, EncodeSym, FieldBits, Take, Pow2, Complete, LengthsNext;
    Powers();
    match i
    case One(len) =>
      OneReads(clen, s, pos, total, acc, len);
    case Again(count) =>
      RepeatReads(clen, s, pos, total, acc, 16, count - 3);
      assert Run(acc[|acc| - 1], count) == seq(count, (k: nat) => acc[|acc| - 1]);
    case Nothing(count) =>
      if count <= 10 {
        RepeatReads(clen, s, pos, total, acc, 17, count - 3);
      } else {
        RepeatReads(clen, s, pos, total, acc, 18, count - 11);
      }
      assert Run(0, count) == seq(count, (k: nat) => 0);
  }

  predicate AllOk(clen: seq<u8>, items: seq<Spelled>, acc: seq<u8>)
    requires |clen| == 19
  {
    items == [] || (SpelledOk(clen, items[0], acc) && AllOk(clen, items[1..], SpelledNext(clen, items[0], acc)))
  }

  function AllBits(clen: seq<u8>, items: seq<Spelled>, acc: seq<u8>): seq<int>
    requires |clen| == 19 && AllOk(clen, items, acc)
  {
    if items == [] then []
    else SpelledBits(clen, items[0], acc) + AllBits(clen, items[1..], SpelledNext(clen, items[0], acc))
  }

  function AllSpelled(clen: seq<u8>, items: seq<Spelled>, acc: seq<u8>): (all: seq<u8>)
    requires |clen| == 19 && AllOk(clen, items, acc)
    ensures |all| >= |acc|
    decreases |items|
  {
    if items == [] then acc else AllSpelled(clen, items[1..], SpelledNext(clen, items[0], acc))
  }

  /** Spelled lengths read back as the lengths they spell. */
  lemma {:induction false} LengthsRead(clen: seq<u8>, s: seq<int>, pos: nat, items: seq<Spelled>, acc: seq<u8>)
    requires Complete(clen) && |clen| == 19 && AllOk(clen, items, acc) && Spells(s, pos, AllBits(clen, items, acc))
    ensures pos <= 8 * |s|
    ensures LengthsSpec(clen, s, pos, |AllSpelled(clen, items, acc)|, acc)
      == Lengths(AllSpelled(clen, items, acc), pos + |AllBits(clen, items, acc)|)
    decreases |items|
  {
    hide Complete, Spells, SpelledBits, SpelledNext, SpelledOk, LengthsNext;
    SpellsWithin(s, pos, AllBits(clen, items, acc));
    if items != [] {
      var next := SpelledNext(clen, items[0], acc);
      var bits := SpelledBits(clen, items[0], acc);
      SpellsSplit(s, pos, bits, AllBits(clen, items[1..], next));
      SpelledReads(clen, s, pos, |AllSpelled(clen, items, acc)|, acc, items[0]);
      LengthsRead(clen, s, pos + |bits|, items[1..], next);
    }
  }

  /** A dynamic block's two codes, and how its header spells their lengths. */
  datatype Tables = Tables(lit: seq<u8>, dist: seq<u8>, clen: seq<u8>, sent: nat, spelled: seq<Spelled>)

  predicate TablesOk(t: Tables) {
    && 257 <= |t.lit| <= 286 && 1 <= |t.dist| <= 32 && Complete(t.lit) && Ends(t.lit) && Accepted(t.dist, true)
    && |t.clen| == 19 && Complete(t.clen) && 4 <= t.sent <= 19
    && (forall sym :: 0 <= sym < 19 ==> t.clen[sym] <= 7 && (OrderOf(sym) >= t.sent ==> t.clen[sym] == 0))
    && AllOk(t.clen, t.spelled, []) && AllSpelled(t.clen, t.spelled, []) == t.lit + t.dist
  }

  function TablesBits(t: Tables): seq<int>
    requires TablesOk(t)
  {
    FieldBits(|t.lit| - 257, 5) + FieldBits(|t.dist| - 1, 5) + FieldBits(t.sent - 4, 4) + ClenBits(t.clen, t.sent)
    + AllBits(t.clen, t.spelled, [])
  }

  /** Every pair of codes a block may have can be spelled, one length after the other at the least. */
  function OneByOne(lit: seq<u8>, dist: seq<u8>): Tables {
    Tables(lit, dist, Run(4, 16) + Run(0, 3), 19, Ones(lit + dist))
  }

  function Ones(lengths: seq<u8>): (items: seq<Spelled>)
    ensures |items| == |lengths| && forall i :: 0 <= i < |items| ==> items[i] == One(lengths[i])
  {
    seq(|lengths|, i requires 0 <= i < |lengths| => One(lengths[i]))
  }

  lemma {:induction false} OnesSpell(clen: seq<u8>, lengths: seq<u8>, acc: seq<u8>)
    requires |clen| == 19 && (forall l :: 0 <= l < 16 ==> clen[l] == 4) && ValidLengths(lengths)
    ensures AllOk(clen, Ones(lengths), acc) && AllSpelled(clen, Ones(lengths), acc) == acc + lengths
  {
    if lengths == [] {
      assert Ones(lengths) == [];
    } else {
      assert Ones(lengths)[1..] == Ones(lengths[1..]);
      OnesSpell(clen, lengths[1..], acc + [lengths[0]]);
      assert acc + [lengths[0]] + lengths[1..] == acc + lengths;
    }
  }

  lemma OneByOneOk(lit: seq<u8>, dist: seq<u8>)
    requires 257 <= |lit| <= 286 && 1 <= |dist| <= 32 && Complete(lit) && Ends(lit) && Accepted(dist, true)
    ensures TablesOk(OneByOne(lit, dist))
  {
    hide Complete, AllOk, AllSpelled, Accepted, ValidLengths, OrderOf, Ones;
    FoursComplete();
    BothValid(lit, dist);
    OnesSpell(Run(4, 16) + Run(0, 3), lit + dist, []);
    assert [] + (lit + dist) == lit + dist;
  }

  lemma BothValid(lit: seq<u8>, dist: seq<u8>)
    requires Complete(lit) && Accepted(dist, true)
    ensures ValidLengths(lit + dist)
  {
    hide Kraft, Pow2;
  }

  lemma FoursComplete()
    ensures Complete(Run(4, 16) + Run(0, 3))
  {
    hide Kraft, Pow2;
    assert [] + Run(4, 16) == Run(4, 16);
    KraftRun([], 4, 16);
    KraftNone();
    KraftZeros(Run(4, 16), 3);
    SixteenTimes();
  }

  lemma SixteenTimes()
    ensures Pow2(MAX_BITS) == 16 * Pow2(MAX_BITS - 4)
  {
    assert Pow2(15) == 2 * Pow2(14) && Pow2(13) == 2 * Pow2(12);
  }

  lemma {:induction false} KraftZeros(s: seq<u8>, n: nat)
    ensures Kraft(s + Run(0, n)) == Kraft(s)
  {
    if n == 0 {
      assert s + Run(0, 0) == s;
    } else {
      KraftZeros(s, n - 1);
      var t := s + Run(0, n);
      assert t[..|t| - 1] == s + Run(0, n - 1);
    }
  }

  /** A block's tables read back, and its data with them. */
  lemma DynamicReads(t: Tables, s: seq<u8>, pos: nat, items: seq<Item>, out: seq<u8>)
    requires TablesOk(t) && ItemsOk(t.lit, t.dist, items, out)
    requires Spells(s, pos, TablesBits(t) + EncodeItems(t.lit, t.dist, items, out))
    ensures pos <= 8 * |s|
    ensures DynamicSpec(s, pos, out)
      == Result(Ok, pos + |TablesBits(t)| + |EncodeItems(t.lit, t.dist, items, out)|, Expand(t.lit, t.dist, items, out))
  {
    hide Take, ClenBits, ClenLengths, OrderOf, AllOk, AllBits, AllSpelled, FieldBits, Spells, Pow2, Complete;
    hide SingleOrNone, EncodeItems, Expand, ItemsOk, CodesSpec, LengthsSpec;
    var data := EncodeItems(t.lit, t.dist, items, out);
    var clen, all := ClenBits(t.clen, t.sent), AllBits(t.clen, t.spelled, []);
    SpellsWithin(s, pos, TablesBits(t) + data);
    SpellsSplit(s, pos, TablesBits(t), data);
    var head := FieldBits(|t.lit| - 257, 5) + FieldBits(|t.dist| - 1, 5) + FieldBits(t.sent - 4, 4);
    SpellsSplit(s, pos, head + clen, all);
    SpellsSplit(s, pos, head, clen);
    CountsRead(t, s, pos);
    assert ClenLengths(s, pos + 14, t.sent) == t.clen by {
      forall sym | 0 <= sym < 19
        ensures ClenLengths(s, pos + 14, t.sent)[sym] == t.clen[sym]
      {
        ClenReads(s, pos + 14, t.clen, t.sent, sym);
      }
    }
    LengthsRead(t.clen, s, pos + 14 + 3 * t.sent, t.spelled, []);
    assert (t.lit + t.dist)[..|t.lit|] == t.lit && (t.lit + t.dist)[|t.lit|..] == t.dist;
    ItemsRoundTrip(t.lit, t.dist, s, pos + |TablesBits(t)|, items, out);
  }

  lemma CountsRead(t: Tables, s: seq<int>, pos: nat)
    requires TablesOk(t)
    requires Spells(s, pos, FieldBits(|t.lit| - 257, 5) + FieldBits(|t.dist| - 1, 5) + FieldBits(t.sent - 4, 4))
    ensures Has(s, pos, 14)
    ensures Take(s, pos, 5) == |t.lit| - 257 && Take(s, pos + 5, 5) == |t.dist| - 1
    ensures Take(s, pos + 10, 4) == t.sent - 4
  {
    hide Spells, FieldBits, Take, Pow2, Complete, Accepted, AllOk, AllSpelled;
    SpellsSplit(s, pos, FieldBits(|t.lit| - 257, 5) + FieldBits(|t.dist| - 1, 5), FieldBits(t.sent - 4, 4));
    SpellsSplit(s, pos, FieldBits(|t.lit| - 257, 5), FieldBits(|t.dist| - 1, 5));
    Powers();
    SpelledField(s, pos, |t.lit| - 257, 5);
    SpelledField(s, pos + 5, |t.dist| - 1, 5);
    SpelledField(s, pos + 10, t.sent - 4, 4);
  }

  /** Bytes as they go into a stored block. */
  function ByteBits(data: seq<u8>): (b: seq<int>)
    ensures |b| == 8 * |data|
  {
    if data == [] then [] else FieldBits(data[0], 8) + ByteBits(data[1..])
  }

  lemma {:induction false} BytesRead(s: seq<u8>, i: nat, data: seq<u8>)
    requires Spells(s, 8 * i, ByteBits(data))
    ensures i + |data| <= |s| && s[i..i + |data|] == data
    decreases |data|
  {
    hide Spells, FieldBits, Take, Pow2, BitOf;
    SpellsWithin(s, 8 * i, ByteBits(data));
    if data != [] {
      SpellsSplit(s, 8 * i, FieldBits(data[0], 8), ByteBits(data[1..]));
      Powers();
      SpelledField(s, 8 * i, data[0], 8);
      TakeByte(s, i);
      BytesRead(s, i + 1, data[1..]);
      assert s[i..i + |data|] == [s[i]] + s[i + 1..i + 1 + |data[1..]|];
    }
  }

  lemma FieldReads(s: seq<u8>, i: nat, v: nat)
    requires v < 0x1_0000 && Spells(s, 8 * i, FieldBits(v, 16))
    ensures i + 2 <= |s| && Get16(s, i) == v
  {
    hide Spells, FieldBits, Take;
    Powers();
    SpelledField(s, 8 * i, v, 16);
    TakeSplit(s, 8 * i, 8, 8);
    TakeByte(s, i);
    TakeByte(s, i + 1);
  }

  /** A stored block behind its header bits: padding to the byte, the count twice, the bytes. */
  function StoredBits(pad: seq<int>, data: seq<u8>): (b: seq<int>)
    requires |data| <= 0xFFFF
    ensures |b| == |pad| + 32 + 8 * |data|
  {
    pad + FieldBits(|data|, 16) + FieldBits(0xFFFF - |data|, 16) + ByteBits(data)
  }

  predicate Aligns(pad: seq<int>, pos: nat) {
    |pad| < 8 && (pos + |pad|) % 8 == 0
  }

  lemma StoredReads(s: seq<u8>, pos: nat, pad: seq<int>, data: seq<u8>, out: seq<u8>)
    requires |data| <= 0xFFFF && Aligns(pad, pos) && Spells(s, pos, StoredBits(pad, data))
    ensures pos <= 8 * |s| && StoredSpec(s, pos, out) == Result(Ok, pos + |StoredBits(pad, data)|, out + data)
  {
    hide Spells, FieldBits, ByteBits, Get16;
    var at := (pos + 7) / 8;
    assert 8 * at == pos + |pad|;
    var count, check := FieldBits(|data|, 16), FieldBits(0xFFFF - |data|, 16);
    SpellsWithin(s, pos, StoredBits(pad, data));
    SpellsSplit(s, pos, pad + count + check, ByteBits(data));
    SpellsSplit(s, pos, pad + count, check);
    SpellsSplit(s, pos, pad, count);
    FieldReads(s, at, |data|);
    FieldReads(s, at + 2, 0xFFFF - |data|);
    BytesRead(s, at + 4, data);
  }

  /** A block as an encoder chooses it. */
  datatype Block =
    | Stored(pad: seq<int>, data: seq<u8>)
    | Fixed(items: seq<Item>)
    | Dynamic(tables: Tables, items: seq<Item>)

  /** The block may stand where its three header bits end at pos, after the bytes in out. */
  predicate BlockOk(b: Block, pos: nat, out: seq<u8>) {
    match b
    case Stored(pad, data) => Aligns(pad, pos) && |data| <= 0xFFFF
    case Fixed(items) => ItemsOk(FixedLitlen(), Run(5, 32), items, out)
    case Dynamic(t, items) => TablesOk(t) && ItemsOk(t.lit, t.dist, items, out)
  }

  function Kind(b: Block): (k: nat)
    ensures k < 3
  {
    match b
    case Stored(_, _) => 0
    case Fixed(_) => 1
    case Dynamic(_, _) => 2
  }

  function BlockBits(b: Block, pos: nat, out: seq<u8>): seq<int>
    requires BlockOk(b, pos, out)
  {
    match b
    case Stored(pad, data) => StoredBits(pad, data)
    case Fixed(items) => EncodeItems(FixedLitlen(), Run(5, 32), items, out)
    case Dynamic(t, items) => TablesBits(t) + EncodeItems(t.lit, t.dist, items, out)
  }

  function BlockBytes(b: Block, pos: nat, out: seq<u8>): seq<u8>
    requires BlockOk(b, pos, out)
  {
    match b
    case Stored(_, data) => out + data
    case Fixed(items) => Expand(FixedLitlen(), Run(5, 32), items, out)
    case Dynamic(t, items) => Expand(t.lit, t.dist, items, out)
  }

  lemma BlockReads(b: Block, s: seq<u8>, pos: nat, out: seq<u8>)
    requires BlockOk(b, pos, out) && Spells(s, pos, BlockBits(b, pos, out))
    ensures pos <= 8 * |s|
    ensures BlockSpec(Kind(b), s, pos, out) == Result(Ok, pos + |BlockBits(b, pos, out)|, BlockBytes(b, pos, out))
  {
    hide Spells, StoredSpec, DynamicSpec, CodesSpec, Expand, ItemsOk, EncodeItems, TablesOk, TablesBits, StoredBits;
    hide Aligns, FixedLitlen, Run, Accepted, Ends;
    SpellsWithin(s, pos, BlockBits(b, pos, out));
    match b
    case Stored(pad, data) => StoredReads(s, pos, pad, data, out);
    case Fixed(items) =>
      FixedAccepted();
      FixedEnds();
      ItemsRoundTrip(FixedLitlen(), Run(5, 32), s, pos, items, out);
    case Dynamic(t, items) => DynamicReads(t, s, pos, items, out);
  }

  lemma FixedEnds()
    ensures Ends(FixedLitlen())
  {
  }

  /** BFINAL, the two bits of BTYPE, the block. */
  function HeadedBits(last: bool, b: Block, pos: nat, out: seq<u8>): seq<int>
    requires BlockOk(b, pos + 3, out)
  {
    [if last then 1 else 0] + FieldBits(Kind(b), 2) + BlockBits(b, pos + 3, out)
  }

  /** Any number of blocks, at least one, from bit pos on. */
  predicate BlocksOk(blocks: seq<Block>, pos: nat, out: seq<u8>) {
    && blocks != [] && BlockOk(blocks[0], pos + 3, out)
    && (|blocks| == 1
        || BlocksOk(blocks[1..], pos + |HeadedBits(false, blocks[0], pos, out)|, BlockBytes(blocks[0], pos + 3, out)))
  }

  /** BFINAL is set on the last block alone. */
  function BlocksBits(blocks: seq<Block>, pos: nat, out: seq<u8>): seq<int>
    requires BlocksOk(blocks, pos, out)
  {
    hide BlockOk, BlockBits, BlockBytes, HeadedBits;
    if |blocks| == 1 then HeadedBits(true, blocks[0], pos, out)
    else
      var bits := HeadedBits(false, blocks[0], pos, out);
      bits + BlocksBits(blocks[1..], pos + |bits|, BlockBytes(blocks[0], pos + 3, out))
  }

  function BlocksBytes(blocks: seq<Block>, pos: nat, out: seq<u8>): seq<u8>
    requires BlocksOk(blocks, pos, out)
  {
    hide BlockOk, BlockBits, BlockBytes, HeadedBits;
    var next := BlockBytes(blocks[0], pos + 3, out);
    if |blocks| == 1 then next
    else BlocksBytes(blocks[1..], pos + |HeadedBits(false, blocks[0], pos, out)|, next)
  }

  lemma HeaderReads(s: seq<int>, pos: nat, last: bool, kind: nat)
    requires kind < 3 && Spells(s, pos, [if last then 1 else 0] + FieldBits(kind, 2))
    ensures Has(s, pos, 3) && (Take(s, pos, 1) == 1 <==> last) && Take(s, pos + 1, 2) == kind
  {
    hide Spells;
    var flag := if last then 1 else 0;
    assert FieldBits(flag, 1) == [flag];
    SpellsSplit(s, pos, FieldBits(flag, 1), FieldBits(kind, 2));
    Powers();
    SpelledField(s, pos, flag, 1);
    SpelledField(s, pos + 1, kind, 2);
  }

  /** Blocks of every kind, in any order and number, decode to the bytes they stand for. */
  lemma {:induction false} BlocksRead(blocks: seq<Block>, s: seq<u8>, pos: nat, out: seq<u8>)
    requires BlocksOk(blocks, pos, out) && Spells(s, pos, BlocksBits(blocks, pos, out))
    ensures pos <= 8 * |s|
    ensures BlocksSpec(s, pos, out) == Result(Ok, pos + |BlocksBits(blocks, pos, out)|, BlocksBytes(blocks, pos, out))
    decreases |blocks|
  {
    hide BlockOk, BlockBits, BlockBytes, BlockSpec, Kind, FieldBits, Take, Spells, Pow2;
    SpellsWithin(s, pos, BlocksBits(blocks, pos, out));
    var b, last := blocks[0], |blocks| == 1;
    var bits, next := HeadedBits(last, b, pos, out), BlockBytes(b, pos + 3, out);
    if !last {
      var rest := BlocksBits(blocks[1..], pos + |bits|, next);
      SpellsSplit(s, pos, bits, rest);
      BlocksRead(blocks[1..], s, pos + |bits|, next);
    }
    var head := [if last then 1 else 0] + FieldBits(Kind(b), 2);
    assert bits == head + BlockBits(b, pos + 3, out) && |head| == 3;
    SpellsSplit(s, pos, head, BlockBits(b, pos + 3, out));
    HeaderReads(s, pos, last, Kind(b));
    BlockReads(b, s, pos + 3, out);
  }

  /** A whole stream decodes to the bytes of its blocks. */
  lemma StreamRoundTrip(blocks: seq<Block>, s: seq<u8>)
    requires BlocksOk(blocks, 0, []) && Spells(s, 0, BlocksBits(blocks, 0, []))
    ensures StreamSpec(s) == Result(Ok, |BlocksBits(blocks, 0, [])|, BlocksBytes(blocks, 0, []))
  {
    hide BlocksOk, BlocksBits, BlocksBytes, BlocksSpec, Spells;
    BlocksRead(blocks, s, 0, []);
  }

  /** One final dynamic block, with any two codes in any spelling. */
  lemma DynamicStreamRoundTrip(t: Tables, items: seq<Item>, s: seq<u8>)
    requires TablesOk(t) && ItemsOk(t.lit, t.dist, items, [])
    requires Spells(s, 0, [1, 0, 1] + (TablesBits(t) + EncodeItems(t.lit, t.dist, items, [])))
    ensures StreamSpec(s).status == Ok && StreamSpec(s).out == Expand(t.lit, t.dist, items, [])
  {
    hide Spells, StreamSpec, FieldBits, EncodeItems, Expand, ItemsOk, TablesBits;
    hide Complete, Accepted, AllOk, AllSpelled, OrderOf;
    var blocks := [Dynamic(t, items)];
    DynamicKind();
    assert BlocksBits(blocks, 0, []) == [1, 0, 1] + (TablesBits(t) + EncodeItems(t.lit, t.dist, items, []));
    StreamRoundTrip(blocks, s);
  }

  lemma DynamicKind()
    ensures FieldBits(2, 2) == [0, 1]
  {
  }

  /** How many of the first n symbols have a fixed code of this length (section 3.2.6). */
  function FixedCount(n: nat, len: nat): int {
    if len == 8 then (if n < 144 then n else 144) + (if n > 280 then n - 280 else 0)
    else if len == 9 then if n < 144 then 0 else if n < 256 then n - 144 else 112
    else if len == 7 then if n < 256 then 0 else if n < 280 then n - 256 else 24
    else 0
  }

  lemma {:induction false} FixedCounted(n: nat, len: nat)
    requires n <= 288
    ensures Count(FixedLitlen()[..n], len) == FixedCount(n, len)
  {
    if n > 0 {
      FixedCounted(n - 1, len);
      CountPrefix(FixedLitlen(), n - 1, len);
    }
  }

  lemma {:induction false} NoShortCodes(lengths: seq<int>, len: nat)
    requires forall l :: 0 < l < len ==> Count(lengths, l) == 0
    ensures FirstCode(lengths, len) == 0
  {
    if len > 1 {
      NoShortCodes(lengths, len - 1);
    }
  }

  /** The fixed codes are the ones the standard tabulates. */
  lemma FixedCodes(sym: nat)
    requires sym < 288
    ensures CodeOf(FixedLitlen(), sym)
      == if sym < 144 then 0x30 + sym else if sym < 256 then 0x190 + (sym - 144)
         else if sym < 280 then sym - 256 else 0xC0 + (sym - 280)
  {
    hide Count, FixedLitlen;
    var l := FixedLitlen();
    assert l[..288] == l;
    forall len | 0 < len <= 9
      ensures Count(l, len) == FixedCount(288, len)
    {
      FixedCounted(288, len);
    }
    FixedCounted(sym, l[sym]);
    NoShortCodes(l, 7);
    assert FirstCode(l, 8) == 2 * (FirstCode(l, 7) + Count(l, 7)) == 0x30;
    assert FirstCode(l, 9) == 2 * (FirstCode(l, 8) + Count(l, 8)) == 0x190;
  }

  lemma {:induction false} RunCounted(value: u8, n: nat, k: nat, len: nat)
    requires k <= n
    ensures Count(Run(value, n)[..k], len) == if len == value then k else 0
  {
    if k > 0 {
      RunCounted(value, n, k - 1, len);
      CountPrefix(Run(value, n), k - 1, len);
    }
  }

  lemma FixedDistances(sym: nat)
    requires sym < 32
    ensures CodeOf(Run(5, 32), sym) == sym
  {
    hide Count;
    var l := Run(5, 32);
    assert l[..32] == l;
    forall len | 0 < len < 5
      ensures Count(l, len) == 0
    {
      RunCounted(5, 32, 32, len);
    }
    RunCounted(5, 32, sym, 5);
    NoShortCodes(l, 5);
  }

  /** Every length from 3 to 258 has a code and extra bits for it. */
  lemma {:induction false} LengthWritten(length: nat, from: nat) returns (sym: nat)
    requires from < LENGTH_CODES && LENGTH_BASE[from] <= length <= 258
    ensures from <= sym < LENGTH_CODES && LENGTH_BASE[sym] <= length < LENGTH_BASE[sym] + Pow2(LENGTH_EXTRA[sym])
    decreases LENGTH_CODES - from
  {
    hide Pow2;
    LengthRanges(from);
    if length < LENGTH_BASE[from] + Pow2(LENGTH_EXTRA[from]) {
      sym := from;
    } else {
      sym := LengthWritten(length, from + 1);
    }
  }

  /** Every distance from 1 to 32768 has a code and extra bits for it. */
  lemma {:induction false} DistanceWritten(distance: nat, from: nat) returns (sym: nat)
    requires from < DISTANCE_CODES && DISTANCE_BASE[from] <= distance <= 32768
    ensures from <= sym < DISTANCE_CODES
    ensures DISTANCE_BASE[sym] <= distance < DISTANCE_BASE[sym] + Pow2(DISTANCE_EXTRA[sym])
    decreases DISTANCE_CODES - from
  {
    hide Pow2;
    DistanceRanges(from);
    if distance < DISTANCE_BASE[from] + Pow2(DISTANCE_EXTRA[from]) {
      sym := from;
    } else {
      sym := DistanceWritten(distance, from + 1);
    }
  }
}
