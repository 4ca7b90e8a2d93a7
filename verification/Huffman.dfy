/** Canonical Huffman codes as section 3.2.2 of RFC 1951 defines them. */
module Huffman {
  import opened BitString

  const MAX_BITS := 15

  /** bl_count: how many symbols have this code length. */
  function Count(lengths: seq<int>, len: int): (n: nat)
    ensures n <= |lengths|
  {
    if lengths == [] then 0
    else Count(lengths[..|lengths| - 1], len) + if lengths[|lengths| - 1] == len then 1 else 0
  }

  /** next_code: the smallest code of a length, zero-length symbols taking no code space. */
  function FirstCode(lengths: seq<int>, len: nat): (c: nat) {
    if len <= 1 then 0 else 2 * (FirstCode(lengths, len - 1) + Count(lengths, len - 1))
  }

  /** Position of a symbol among the earlier symbols of its own length. */
  function Rank(lengths: seq<int>, sym: nat): (r: nat)
    requires sym < |lengths|
  {
    Count(lengths[..sym], lengths[sym])
  }

  /** The canonical code of a symbol, as a number of lengths[sym] bits. */
  function CodeOf(lengths: seq<int>, sym: nat): (c: nat)
    requires sym < |lengths| && lengths[sym] >= 1
  {
    FirstCode(lengths, lengths[sym]) + Rank(lengths, sym)
  }

  /** len bits of the stream from pos, the first one most significant. */
  function CodeBits(s: seq<int>, pos: nat, len: nat): (v: nat)
    requires pos + len <= 8 * |s|
    ensures v < Pow2(len)
  {
    if len == 0 then 0 else 2 * CodeBits(s, pos, len - 1) + BitOf(s, pos + len - 1)
  }

  /** The stream at pos starts with the symbol's code. */
  predicate Matches(lengths: seq<int>, s: seq<int>, pos: nat, sym: nat) {
    && sym < |lengths| && 1 <= lengths[sym] <= MAX_BITS
    && pos + lengths[sym] <= 8 * |s|
    && CodeBits(s, pos, lengths[sym]) == CodeOf(lengths, sym)
  }

  /** Code space used, in units of the longest code. */
  function Kraft(lengths: seq<int>): (k: nat) {
    if lengths == [] then 0
    else
      var l := lengths[|lengths| - 1];
      Kraft(lengths[..|lengths| - 1]) + if 1 <= l <= MAX_BITS then Pow2(MAX_BITS - l) else 0
  }

  predicate ValidLengths(lengths: seq<int>) {
    forall i :: 0 <= i < |lengths| ==> 0 <= lengths[i] <= MAX_BITS
  }

  /** A complete code: every bit pattern decodes, and only one way. */
  predicate Complete(lengths: seq<int>) {
    ValidLengths(lengths) && Kraft(lengths) == Pow2(MAX_BITS)
  }

  /** The exception for distances: no code at all, or one code of length one. */
  predicate SingleOrNone(lengths: seq<int>) {
    && ValidLengths(lengths)
    && (forall i, j :: 0 <= i < |lengths| && 0 <= j < |lengths| && lengths[i] != 0 && lengths[j] != 0 ==> i == j)
    && (forall i :: 0 <= i < |lengths| && lengths[i] != 0 ==> lengths[i] == 1)
  }

  predicate Accepted(lengths: seq<int>, allowSingle: bool) {
    Complete(lengths) || (allowSingle && SingleOrNone(lengths))
  }

  /** Code space left after the codes of up to len bits, in codes of len bits. */
  function Left(lengths: seq<int>, len: nat): int {
    Pow2(len) - FirstCode(lengths, len) - if len == 0 then 0 else Count(lengths, len)
  }

  lemma LeftStep(lengths: seq<int>, len: nat)
    requires len >= 1
    ensures Left(lengths, len) == 2 * Left(lengths, len - 1) - Count(lengths, len)
  {
  }

  /** Kraft's sum restricted to lengths up to len, in codes of len bits. */
  function KraftUpTo(lengths: seq<int>, len: nat): (k: nat) {
    if len == 0 then 0 else 2 * KraftUpTo(lengths, len - 1) + Count(lengths, len)
  }

  lemma LeftIsRest(lengths: seq<int>, len: nat)
    ensures Left(lengths, len) == Pow2(len) - KraftUpTo(lengths, len)
  {
    if len > 0 {
      LeftIsRest(lengths, len - 1);
    }
  }

  /** Appending one symbol of length l adds its weight. */
  lemma {:induction false} KraftUpToAppend(lengths: seq<int>, l: nat, len: nat)
    ensures KraftUpTo(lengths + [l], len) == KraftUpTo(lengths, len) + if 1 <= l <= len then Pow2(len - l) else 0
  {
    if len > 0 {
      KraftUpToAppend(lengths, l, len - 1);
      assert (lengths + [l])[..|lengths|] == lengths;
    }
  }

  /** The per-symbol and the per-length sums agree. */
  lemma {:induction false} KraftByLength(lengths: seq<int>)
    requires ValidLengths(lengths)
    ensures Kraft(lengths) == KraftUpTo(lengths, MAX_BITS)
  {
    if lengths == [] {
      NoWeight(MAX_BITS);
    } else {
      var n := |lengths| - 1;
      KraftByLength(lengths[..n]);
      KraftUpToAppend(lengths[..n], lengths[n], MAX_BITS);
      assert lengths[..n] + [lengths[n]] == lengths;
    }
  }

  lemma NoWeight(len: nat)
    ensures KraftUpTo([], len) == 0
  {
  }

  /** A length that overdraws the code space leaves it overdrawn. */
  lemma {:induction false} Overdrawn(lengths: seq<int>, len: nat, end: nat)
    requires len <= end && Left(lengths, len) < 0
    ensures Left(lengths, end) < 0
    decreases end - len
  {
    if len < end {
      LeftStep(lengths, len + 1);
      Overdrawn(lengths, len + 1, end);
    }
  }

  lemma CountPrefix(lengths: seq<int>, i: nat, len: int)
    requires i < |lengths|
    ensures Count(lengths[..i + 1], len) == Count(lengths[..i], len) + if lengths[i] == len then 1 else 0
  {
    assert lengths[..i + 1][..i] == lengths[..i];
  }

  lemma {:induction false} CountMonotone(lengths: seq<int>, i: nat, j: nat, len: int)
    requires i <= j <= |lengths|
    ensures Count(lengths[..i], len) <= Count(lengths[..j], len)
    decreases j - i
  {
    if i < j {
      CountPrefix(lengths, j - 1, len);
      CountMonotone(lengths, i, j - 1, len);
    }
  }

  lemma RankBound(lengths: seq<int>, sym: nat)
    requires sym < |lengths|
    ensures Rank(lengths, sym) < Count(lengths, lengths[sym])
  {
    CountPrefix(lengths, sym, lengths[sym]);
    CountMonotone(lengths, sym + 1, |lengths|, lengths[sym]);
    assert lengths[..|lengths|] == lengths;
  }

  /** Two symbols of one length and one rank are the same symbol. */
  lemma RankInjective(lengths: seq<int>, i: nat, j: nat)
    requires i < |lengths| && j < |lengths| && lengths[i] == lengths[j]
    requires Rank(lengths, i) == Rank(lengths, j)
    ensures i == j
  {
    if i < j {
      CountPrefix(lengths, i, lengths[i]);
      CountMonotone(lengths, i + 1, j, lengths[i]);
    } else if j < i {
      CountPrefix(lengths, j, lengths[j]);
      CountMonotone(lengths, j + 1, i, lengths[j]);
    }
  }

  /** Every rank below the count belongs to some symbol. */
  lemma {:induction false} RankSurjective(lengths: seq<int>, n: nat, len: int, r: nat) returns (sym: nat)
    requires n <= |lengths| && r < Count(lengths[..n], len)
    ensures sym < n && lengths[sym] == len && Rank(lengths, sym) == r
  {
    CountPrefix(lengths, n - 1, len);
    if lengths[n - 1] == len && r == Count(lengths[..n - 1], len) {
      sym := n - 1;
    } else {
      sym := RankSurjective(lengths, n - 1, len, r);
    }
  }

  /** Past the codes of len bits: the stream's len bits are beyond all of them. */
  ghost predicate Beyond(lengths: seq<int>, s: seq<int>, pos: nat, len: nat) {
    pos + len <= 8 * |s| && (len == 0 || CodeBits(s, pos, len) >= FirstCode(lengths, len) + Count(lengths, len))
  }

  lemma BeyondStep(lengths: seq<int>, s: seq<int>, pos: nat, len: nat)
    requires len >= 1 && pos + len <= 8 * |s| && Beyond(lengths, s, pos, len - 1)
    ensures CodeBits(s, pos, len) >= FirstCode(lengths, len)
  {
  }

  /** A match of len bits keeps every longer reading below the longer codes. */
  lemma {:induction false} MatchedStaysBelow(lengths: seq<int>, s: seq<int>, pos: nat, len: nat, end: nat)
    requires 1 <= len < end && pos + end <= 8 * |s|
    requires CodeBits(s, pos, len) < FirstCode(lengths, len) + Count(lengths, len)
    ensures CodeBits(s, pos, end) < FirstCode(lengths, end)
    decreases end
  {
    if len + 1 < end {
      MatchedStaysBelow(lengths, s, pos, len, end - 1);
    }
  }

  /** Canonical codes are prefix free: the stream starts with at most one of them. */
  lemma MatchUnique(lengths: seq<int>, s: seq<int>, pos: nat, i: nat, j: nat)
    requires Matches(lengths, s, pos, i) && Matches(lengths, s, pos, j)
    ensures i == j
  {
    RankBound(lengths, i);
    RankBound(lengths, j);
    if lengths[i] == lengths[j] {
      RankInjective(lengths, i, j);
    } else if lengths[i] < lengths[j] {
      MatchedStaysBelow(lengths, s, pos, lengths[i], lengths[j]);
    } else {
      MatchedStaysBelow(lengths, s, pos, lengths[j], lengths[i]);
    }
  }

  datatype Decoded = Symbol(sym: nat, pos: nat) | RanOut | NoCode

  /**
    One symbol by definition: the symbol whose code the stream starts with. With none, fifteen
    bits decide whether the stream ended or the pattern is not in the code.
   */
  ghost function DecodeSym(lengths: seq<int>, s: seq<int>, pos: nat): (d: Decoded)
    ensures d.Symbol? ==> Matches(lengths, s, pos, d.sym) && d.pos == pos + lengths[d.sym]
  {
    if exists sym: nat :: Matches(lengths, s, pos, sym) then
      var sym: nat :| Matches(lengths, s, pos, sym);
      Symbol(sym, pos + lengths[sym])
    else if pos + MAX_BITS > 8 * |s| then RanOut
    else NoCode
  }

  lemma DecodeSymIs(lengths: seq<int>, s: seq<int>, pos: nat, sym: nat)
    requires Matches(lengths, s, pos, sym)
    ensures DecodeSym(lengths, s, pos) == Symbol(sym, pos + lengths[sym])
  {
    MatchUnique(lengths, s, pos, sym, DecodeSym(lengths, s, pos).sym);
  }

  /** With no match up to len bits, the reading is beyond every code of up to len bits. */
  lemma {:induction false} NoMatchBeyond(lengths: seq<int>, s: seq<int>, pos: nat, len: nat)
    requires len <= MAX_BITS && pos + len <= 8 * |s|
    requires forall sym: nat :: Matches(lengths, s, pos, sym) ==> lengths[sym] > len
    ensures Beyond(lengths, s, pos, len)
  {
    if len > 0 {
      NoMatchBeyond(lengths, s, pos, len - 1);
      BeyondStep(lengths, s, pos, len);
      var v := CodeBits(s, pos, len);
      if v < FirstCode(lengths, len) + Count(lengths, len) {
        assert lengths[..|lengths|] == lengths;
        var sym := RankSurjective(lengths, |lengths|, len, v - FirstCode(lengths, len));
        assert Matches(lengths, s, pos, sym);
      }
    }
  }

  /** A complete code decodes every pattern: it never yields NoCode. */
  lemma CompleteNeverBad(lengths: seq<int>, s: seq<int>, pos: nat)
    requires Complete(lengths)
    ensures !DecodeSym(lengths, s, pos).NoCode?
  {
    hide Kraft, KraftUpTo, Pow2, FirstCode, Count, CodeBits;
    if DecodeSym(lengths, s, pos).NoCode? {
      NoMatchBeyond(lengths, s, pos, MAX_BITS);
      KraftByLength(lengths);
      LeftIsRest(lengths, MAX_BITS);
    }
  }

  /** Where the symbols of a length start in canonical order. */
  function Offset(lengths: seq<int>, len: nat): (o: nat) {
    if len <= 1 then 0 else Offset(lengths, len - 1) + Count(lengths, len - 1)
  }

  /** A symbol's place in canonical order. */
  function Place(lengths: seq<int>, sym: nat): (p: nat)
    requires sym < |lengths| && lengths[sym] >= 1
  {
    Offset(lengths, lengths[sym]) + Rank(lengths, sym)
  }

  lemma {:induction false} OffsetAppend(lengths: seq<int>, l: nat, len: nat)
    ensures Offset(lengths + [l], len) == Offset(lengths, len) + if 1 <= l < len then 1 else 0
  {
    if len > 1 {
      OffsetAppend(lengths, l, len - 1);
      assert (lengths + [l])[..|lengths|] == lengths;
    }
  }

  lemma NoOffset(len: nat)
    ensures Offset([], len) == 0
  {
  }

  /** Every symbol is either unused or has one place. */
  lemma {:induction false} OffsetTotal(lengths: seq<int>)
    requires ValidLengths(lengths)
    ensures Offset(lengths, MAX_BITS + 1) + Count(lengths, 0) == |lengths|
  {
    if lengths == [] {
      NoOffset(MAX_BITS + 1);
    } else {
      var n := |lengths| - 1;
      OffsetTotal(lengths[..n]);
      OffsetAppend(lengths[..n], lengths[n], MAX_BITS + 1);
      assert lengths[..n] + [lengths[n]] == lengths;
    }
  }

  lemma {:induction false} OffsetMonotone(lengths: seq<int>, i: nat, j: nat)
    requires 1 <= i < j
    ensures Offset(lengths, i) + Count(lengths, i) <= Offset(lengths, j)
    decreases j
  {
    if i + 1 < j {
      OffsetMonotone(lengths, i, j - 1);
    }
  }

  lemma PlaceBound(lengths: seq<int>, sym: nat)
    requires ValidLengths(lengths) && sym < |lengths| && lengths[sym] >= 1
    ensures Place(lengths, sym) < Offset(lengths, lengths[sym]) + Count(lengths, lengths[sym]) <= |lengths|
  {
    RankBound(lengths, sym);
    OffsetMonotone(lengths, lengths[sym], MAX_BITS + 1);
    OffsetTotal(lengths);
  }

  lemma PlaceInjective(lengths: seq<int>, i: nat, j: nat)
    requires ValidLengths(lengths) && i < |lengths| && j < |lengths| && lengths[i] >= 1 && lengths[j] >= 1
    requires Place(lengths, i) == Place(lengths, j)
    ensures i == j
  {
    RankBound(lengths, i);
    RankBound(lengths, j);
    if lengths[i] < lengths[j] {
      OffsetMonotone(lengths, lengths[i], lengths[j]);
    } else if lengths[j] < lengths[i] {
      OffsetMonotone(lengths, lengths[j], lengths[i]);
    } else {
      RankInjective(lengths, i, j);
    }
  }

  /** The exception, told from the counts the decoder keeps. */
  lemma SingleByCount(lengths: seq<int>)
    requires ValidLengths(lengths)
    ensures SingleOrNone(lengths) <==>
            var used := |lengths| - Count(lengths, 0); used == 0 || (used == 1 && Count(lengths, 1) == 1)
    ensures SingleOrNone(lengths) ==> Kraft(lengths) < Pow2(MAX_BITS)
  {
    SingleInduct(lengths);
  }

  /** The position of the one used symbol, or the length for none; only meaningful when SingleOrNone. */
  lemma {:induction false} SingleInduct(lengths: seq<int>)
    requires ValidLengths(lengths)
    ensures |lengths| == Count(lengths, 0) <==> forall i :: 0 <= i < |lengths| ==> lengths[i] == 0
    ensures |lengths| == Count(lengths, 0) ==> Kraft(lengths) == 0
    ensures Count(lengths, 1) + Count(lengths, 0) <= |lengths|
    ensures SingleOrNone(lengths) <==>
            var used := |lengths| - Count(lengths, 0); used == 0 || (used == 1 && Count(lengths, 1) == 1)
    ensures SingleOrNone(lengths) ==> Kraft(lengths) <= Pow2(MAX_BITS - 1)
  {
    if lengths != [] {
      var n := |lengths| - 1;
      var init := lengths[..n];
      SingleInduct(init);
      hide Pow2;
      assert lengths == init + [lengths[n]];
      assert forall i :: 0 <= i < n ==> lengths[i] == init[i];
    }
  }
}
