/** Sequences of pieces. */
module Sequences {
  /** The pieces one after another. */
  function Joined<T>(cs: seq<seq<T>>): seq<T> {
    if cs == [] then [] else cs[0] + Joined(cs[1..])
  }

  lemma {:induction false} JoinedJoin<T>(a: seq<seq<T>>, b: seq<seq<T>>)
    ensures Joined(a + b) == Joined(a) + Joined(b)
  {
    if a == [] {
      assert a + b == b;
    } else {
      assert (a + b)[1..] == a[1..] + b;
      JoinedJoin(a[1..], b);
    }
  }

  lemma JoinedLast<T>(parts: seq<seq<T>>, i: nat)
    requires i < |parts|
    ensures Joined(parts[..i + 1]) == Joined(parts[..i]) + parts[i]
  {
    var one := [parts[i]];
    assert parts[..i + 1] == parts[..i] + one;
    JoinedJoin(parts[..i], one);
    assert one[1..] == [];
  }

  /** The first k elements, or all of a shorter sequence; and what is left behind them. */
  function First<T>(s: seq<T>, k: nat): seq<T> {
    if |s| <= k then s else s[..k]
  }

  function After<T>(s: seq<T>, k: nat): seq<T> {
    if |s| <= k then [] else s[k..]
  }

  lemma JoinedPrefix<T>(parts: seq<seq<T>>, k: nat)
    requires k <= |parts|
    ensures Joined(parts[..k]) <= Joined(parts)
  {
    assert parts == parts[..k] + parts[k..];
    JoinedJoin(parts[..k], parts[k..]);
  }

  lemma PrefixAfter<T>(base: seq<T>, x: seq<T>, y: seq<T>)
    ensures base + x <= base + y <==> x <= y
  {
    if base + x <= base + y {
      assert (base + x)[|base|..] == x && (base + y)[|base|..] == y;
      assert (base + y)[|base|..|base| + |x|] == x;
    }
  }

  /** A slice of a slice is a slice. */
  lemma SliceOfSlice<T>(s: seq<T>, a: nat, b: nat, i: nat, j: nat)
    requires a <= b <= |s| && i <= j <= b - a
    ensures s[a..b][i..j] == s[a + i..a + j]
  {
    var x, y := s[a..b][i..j], s[a + i..a + j];
    forall k | 0 <= k < j - i
      ensures x[k] == y[k]
    {
      assert x[k] == s[a..b][i + k] == s[a + (i + k)];
    }
  }
}
