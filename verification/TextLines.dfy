/** Lines of a byte stream, and a filtered tail of them in a bounded buffer. */
module TextLines {
  import opened LittleEndian
  import opened Sequences

  const LF: u8 := 10
  const CR: u8 := 13
  const LINE_MAX := 1024

  /** The lines ended by LF, without it. */
  function Complete(s: seq<u8>): seq<seq<u8>> {
    if s == [] then []
    else
      var front := s[..|s| - 1];
      if s[|s| - 1] == LF then Complete(front) + [Partial(front)] else Complete(front)
  }

  /** The bytes after the last LF. */
  function Partial(s: seq<u8>): seq<u8> {
    if s == [] || s[|s| - 1] == LF then [] else Partial(s[..|s| - 1]) + [s[|s| - 1]]
  }

  /** All lines: a last one without LF counts if it holds anything. */
  function Lines(s: seq<u8>): seq<seq<u8>> {
    Complete(s) + if Partial(s) != [] then [Partial(s)] else []
  }

  predicate NoLf(s: seq<u8>) {
    LF !in s
  }

  function Ended(lines: seq<seq<u8>>): (e: seq<seq<u8>>)
    ensures |e| == |lines| && forall i :: 0 <= i < |lines| ==> e[i] == lines[i] + [LF]
  {
    seq(|lines|, i requires 0 <= i < |lines| => lines[i] + [LF])
  }

  lemma EndedLast(lines: seq<seq<u8>>, line: seq<u8>)
    ensures Joined(Ended(lines + [line])) == Joined(Ended(lines)) + line + [LF]
  {
    var one: seq<seq<u8>> := [line + [LF]];
    assert Ended(lines + [line]) == Ended(lines) + one;
    JoinedJoin(Ended(lines), one);
    assert one[1..] == [];
  }

  /** Splitting loses nothing: the lines, each with its LF, and the rest are the stream. */
  lemma {:induction false} SplitJoins(s: seq<u8>)
    ensures Joined(Ended(Complete(s))) + Partial(s) == s
    ensures NoLf(Partial(s)) && forall l :: l in Complete(s) ==> NoLf(l)
  {
    if s != [] {
      var front := s[..|s| - 1];
      SplitJoins(front);
      assert s == front + [s[|s| - 1]];
      if s[|s| - 1] == LF {
        EndedLast(Complete(front), Partial(front));
      }
    }
  }

  /** One more byte of the stream. */
  lemma ByteStep(s: seq<u8>, ch: u8)
    ensures ch == LF ==> Complete(s + [ch]) == Complete(s) + [Partial(s)] && Partial(s + [ch]) == []
    ensures ch != LF ==> Complete(s + [ch]) == Complete(s) && Partial(s + [ch]) == Partial(s) + [ch]
  {
    assert (s + [ch])[..|s|] == s;
  }

  /** And it is the only way to cut the stream at its LFs. */
  lemma {:induction false} SplitUnique(lines: seq<seq<u8>>, rest: seq<u8>)
    requires NoLf(rest) && forall l :: l in lines ==> NoLf(l)
    ensures var s := Joined(Ended(lines)) + rest; Complete(s) == lines && Partial(s) == rest
    decreases |lines|, |rest|
  {
    hide Complete, Partial, Joined, Ended;
    var joined := Joined(Ended(lines));
    if rest != [] {
      var short, last := rest[..|rest| - 1], rest[|rest| - 1];
      assert rest == short + [last] && last in rest;
      assert joined + rest == joined + short + [last];
      SplitUnique(lines, short);
      ByteStep(joined + short, last);
    } else if lines != [] {
      var front, last := lines[..|lines| - 1], lines[|lines| - 1];
      assert lines == front + [last];
      EndedLast(front, last);
      assert joined + rest == (Joined(Ended(front)) + last) + [LF];
      SplitUnique(front, last);
      ByteStep(Joined(Ended(front)) + last, LF);
    } else {
      NothingSplit();
    }
  }

  lemma NothingSplit()
    ensures var s := Joined(Ended([])) + []; Complete(s) == [] && Partial(s) == []
  {
    assert Ended([]) == [];
  }

  /** A line as it is matched and emitted: cut at the limit, then without a CR at its end. */
  function Kept(line: seq<u8>): (k: seq<u8>)
    ensures |k| <= LINE_MAX
  {
    var cut := if |line| > LINE_MAX then line[..LINE_MAX] else line;
    if cut != [] && cut[|cut| - 1] == CR then cut[..|cut| - 1] else cut
  }

  /** Nothing is kept but the start of the line, and only the limit or a CR ends it early. */
  lemma KeptPrefix(line: seq<u8>)
    ensures Kept(line) <= line
    ensures |Kept(line)| < |line| ==> line[|Kept(line)|] == CR || |Kept(line)| == LINE_MAX
    ensures |line| <= |Kept(line)| + 1 || |Kept(line)| >= LINE_MAX - 1
  {
    assert |line| > LINE_MAX ==> line[..LINE_MAX][LINE_MAX - 1] == line[LINE_MAX - 1];
  }

  /** The text of a line: what stands before its LF, without a CR at its end. */
  function Text(line: seq<u8>): seq<u8> {
    if line != [] && line[|line| - 1] == CR then line[..|line| - 1] else line
  }

  /** The one byte too many is the CR, and it does not follow another. */
  predicate OnlyCrOver(line: seq<u8>) {
    |line| == LINE_MAX + 1 && line[LINE_MAX] == CR && line[LINE_MAX - 1] != CR
  }

  /** Which lines keep their whole text. */
  lemma KeptWhole(line: seq<u8>)
    ensures Kept(line) == Text(line) <==> |line| <= LINE_MAX || OnlyCrOver(line)
  {
    if |line| > LINE_MAX {
      var cut := line[..LINE_MAX];
      assert cut[LINE_MAX - 1] == line[LINE_MAX - 1];
      assert |Text(line)| >= |line| - 1;
    }
  }

  function Lower(ch: u8): u8 {
    if 65 <= ch <= 90 then ch + 32 else ch
  }

  /** Letters compare alike in either case, and nothing else does. */
  lemma LowerMeans(a: u8, b: u8)
    ensures Lower(a) == Lower(b) <==> a == b || (a + 32 == b && 65 <= a <= 90) || (b + 32 == a && 65 <= b <= 90)
  {
  }

  predicate MatchAt(line: seq<u8>, text: seq<u8>, start: nat) {
    start + |text| <= |line| && forall i :: 0 <= i < |text| ==> Lower(line[start + i]) == Lower(text[i])
  }

  /** The line holds the text somewhere, letters of either case alike. */
  ghost predicate Holds(line: seq<u8>, text: seq<u8>) {
    exists start: nat :: MatchAt(line, text, start)
  }

  /** The lines that match, as they are emitted. */
  ghost function Matching(lines: seq<seq<u8>>, text: seq<u8>): seq<seq<u8>> {
    if lines == [] then []
    else
      var front, last := Matching(lines[..|lines| - 1], text), Kept(lines[|lines| - 1]);
      if Holds(last, text) then front + [last] else front
  }

  predicate AnyCut(lines: seq<seq<u8>>) {
    exists l :: l in lines && |l| > LINE_MAX
  }

  /** No line loses text. */
  predicate Lossless(lines: seq<seq<u8>>) {
    forall l :: l in lines ==> Kept(l) == Text(l)
  }

  /**
    Text lost is always flagged; the flag is raised with nothing lost exactly when every line over the
    limit is over it by its CR alone.
   */
  lemma FlagWithoutLoss(lines: seq<seq<u8>>)
    ensures !Lossless(lines) ==> AnyCut(lines)
    ensures AnyCut(lines) && Lossless(lines)
      <==> AnyCut(lines) && forall l :: l in lines && |l| > LINE_MAX ==> OnlyCrOver(l)
  {
    hide Kept, Text, OnlyCrOver;
    forall l | l in lines
      ensures Kept(l) == Text(l) <==> |l| <= LINE_MAX || OnlyCrOver(l)
    {
      KeptWhole(l);
    }
  }

  /** 1024 letters and CR LF: flagged as cut, and whole. */
  lemma FlaggedWhole()
    ensures var l: seq<u8> := seq(LINE_MAX, (i: nat) => 65) + [CR]; AnyCut([l]) && Lossless([l])
  {
    var l: seq<u8> := seq(LINE_MAX, (i: nat) => 65) + [CR];
    assert l in [l] && OnlyCrOver(l);
    KeptWhole(l);
  }

  /** The last n of a list. */
  function Last<T>(s: seq<T>, n: nat): seq<T> {
    if |s| <= n then s else s[|s| - n..]
  }

  /** How many of the lines fit a buffer, each with an LF, up to the first that does not. */
  function Fitting(lines: seq<seq<u8>>, room: nat): (k: nat)
    ensures k <= |lines|
  {
    if lines == [] || |lines[0]| + 1 > room then 0
    else 1 + Fitting(lines[1..], room - |lines[0]| - 1)
  }

  /** What Fitting means: the first k fit together, and the next one no longer does. */
  lemma {:induction false} FittingIs(lines: seq<seq<u8>>, room: nat)
    ensures var k := Fitting(lines, room);
            && |Joined(Ended(lines[..k]))| <= room
            && (k < |lines| ==> |Joined(Ended(lines[..k]))| + |lines[k]| + 1 > room)
    decreases |lines|
  {
    var k := Fitting(lines, room);
    if k == 0 {
      assert Ended(lines[..0]) == [];
    } else {
      FittingIs(lines[1..], room - |lines[0]| - 1);
      assert Ended(lines[..k])[1..] == Ended(lines[1..][..k - 1]);
    }
  }

  /** Only one number has that meaning. */
  lemma FittingUnique(lines: seq<seq<u8>>, room: nat, k: nat)
    requires k <= |lines| && |Joined(Ended(lines[..k]))| <= room
    requires k < |lines| ==> |Joined(Ended(lines[..k]))| + |lines[k]| + 1 > room
    ensures k == Fitting(lines, room)
  {
    var f := Fitting(lines, room);
    FittingIs(lines, room);
    if k < f {
      PrefixGrows(lines, k, f);
    } else if f < k {
      PrefixGrows(lines, f, k);
    }
  }

  lemma {:induction false} PrefixGrows(lines: seq<seq<u8>>, i: nat, k: nat)
    requires i < k <= |lines|
    ensures |Joined(Ended(lines[..i]))| + |lines[i]| + 1 <= |Joined(Ended(lines[..k]))|
    decreases k
  {
    assert lines[..k] == lines[..k - 1] + [lines[k - 1]];
    EndedLast(lines[..k - 1], lines[k - 1]);
    if i + 1 < k {
      PrefixGrows(lines, i, k - 1);
    }
  }
}
