/** The scanner, and the two passes of a tail request. */
module TextScan {
  import opened LittleEndian
  import opened Sequences
  import opened TextLines

  const TRUNCATED := 1
  const LONG_LINE := 2

  class Scan {
    var skip: nat
    var emit: bool
    var text: seq<u8>
    var output: array<u8>
    var capacity: nat
    var used: nat
    var lines: nat
    var matched: nat
    var emitted: nat
    var truncated: bool
    var longLine: bool
    const line: array<u8>
    var lineLength: nat
    var lineCut: bool

    ghost predicate Shape()
      reads this
    {
      line.Length == LINE_MAX && lineLength <= LINE_MAX && used <= capacity <= output.Length && output != line
    }

    /** The line under assembly is the bytes since the last LF, as far as they are kept. */
    ghost predicate Holding(partial: seq<u8>)
      reads this, line
    {
      && Shape()
      && (lineCut <==> |partial| > LINE_MAX)
      && line[..lineLength] == if |partial| > LINE_MAX then partial[..LINE_MAX] else partial
    }

    /** Counters and output after these whole lines. */
    ghost predicate Counted(all: seq<seq<u8>>)
      reads this, output
    {
      var ms := Matching(all, text);
      && used <= capacity <= output.Length
      && lines == |all| && matched == |ms| && (longLine <==> AnyCut(all))
      && (!emit ==> used == 0 && emitted == 0 && !truncated)
      && (emit ==> Emitted(ms))
    }

    /** What an emitting scan has written of the matching lines past the first skip. */
    ghost predicate Emitted(ms: seq<seq<u8>>)
      reads `skip, `output, `capacity, `used, `emitted, `truncated, output
      requires used <= output.Length
    {
      var wanted := if |ms| <= skip then [] else ms[skip..];
      && emitted <= |wanted|
      && output[..used] == Joined(Ended(wanted[..emitted]))
      && (truncated <==> emitted < |wanted|)
      && (truncated ==> used + |wanted[emitted]| + 1 > capacity)
    }

    constructor ()
      ensures line.Length == LINE_MAX && fresh(line)
    {
      line := new u8[LINE_MAX](i => 0);
      output := new u8[0];
      skip, capacity, used, lines, matched, emitted, lineLength := 0, 0, 0, 0, 0, 0, 0;
      emit, truncated, longLine, lineCut := false, false, false, false;
      text := [];
    }

    method Begin(emit: bool, skip: nat, text: seq<u8>, output: array<u8>, capacity: nat)
      requires line.Length == LINE_MAX && output != line && capacity <= output.Length
      modifies this
      ensures Holding([]) && Counted([])
      ensures this.emit == emit && this.skip == skip && this.text == text && this.output == output
      ensures this.capacity == capacity
    {
      hide Matching, AnyCut, Joined, Ended, Emitted, Counted, Holding;
      this.skip := skip;
      this.emit := emit;
      this.text := text;
      this.output := output;
      this.capacity := capacity;
      used, lines, matched, emitted := 0, 0, 0, 0;
      truncated, longLine := false, false;
      lineLength := 0;
      lineCut := false;
      FreshScan();
    }

    /** All counters at zero is the state after nothing. */
    lemma FreshScan()
      requires line.Length == LINE_MAX && output != line && capacity <= output.Length
      requires used == lines == matched == emitted == lineLength == 0 && !truncated && !longLine && !lineCut
      ensures Holding([]) && Counted([])
    {
      hide Matching, AnyCut, Joined, Ended;
      NoLines(text);
      ghost var none: seq<seq<u8>> := [];
      assert none[..0] == none;
      assert Emitted(none);
    }

    /** Search for the text in the line, letters of either case alike. */
    method Matches() returns (found: bool)
      requires Shape()
      ensures found <==> Holds(line[..lineLength], text)
    {
      ghost var s := line[..lineLength];
      if text == [] {
        assert MatchAt(s, text, 0);
        return true;
      }
      if |text| > lineLength {
        return false;
      }
      var start := 0;
      while start + |text| <= lineLength
        invariant forall k: nat :: k < start ==> !MatchAt(s, text, k)
        decreases lineLength - start
      {
        var index := 0;
        while index < |text| && Lower(line[start + index]) == Lower(text[index])
          invariant index <= |text|
          invariant forall i :: 0 <= i < index ==> Lower(s[start + i]) == Lower(text[i])
        {
          index := index + 1;
        }
        if index == |text| {
          assert MatchAt(s, text, start);
          return true;
        }
        assert Lower(s[start + index]) != Lower(text[index]);
        start := start + 1;
      }
      return false;
    }

    /** Append the line and an LF to the output. */
    method EmitLine()
      requires Shape() && used + lineLength + 1 <= capacity
      modifies output, `used, `emitted
      ensures Shape() && used == old(used) + lineLength + 1 && emitted == old(emitted) + 1
      ensures output[..used] == old(output[..used]) + old(line[..lineLength]) + [LF]
      ensures line[..lineLength] == old(line[..lineLength])
    {
      ghost var before, l := output[..used], line[..lineLength];
      ghost var from := used;
      for index := 0 to lineLength
        invariant Shape() && emitted == old(emitted) && used == from + index && from + lineLength + 1 <= capacity
        invariant line[..lineLength] == l && output[..used] == before + l[..index]
      {
        output[used] := line[index];
        used := used + 1;
      }
      output[used] := LF;
      used := used + 1;
      emitted := emitted + 1;
    }

    /** A line is complete. */
    method LineDone(ghost all: seq<seq<u8>>, ghost partial: seq<u8>)
      requires Holding(partial) && Counted(all)
      modifies this, output
      ensures Holding([]) && Counted(all + [partial])
      ensures emit == old(emit) && skip == old(skip) && text == old(text) && output == old(output)
      ensures capacity == old(capacity)
    {
      hide Matching, AnyCut, Kept, TextLines.Holds, Joined, Ended, Emitted;
      StripCr(partial);
      lines := lines + 1;
      if lineCut {
        longLine := true;
      }
      CutStep(all, partial);
      MatchingStep(all, partial, text);
      Consider(Matching(all, text));
      lineLength := 0;
      lineCut := false;
    }

    /** Count the line, and emit it, if it matches. */
    method Consider(ghost ms: seq<seq<u8>>)
      requires Shape() && matched == |ms| && (!emit ==> used == 0 && emitted == 0 && !truncated)
      requires emit ==> Emitted(ms)
      modifies `used, `emitted, `truncated, `matched, output
      ensures Shape() && (!emit ==> used == 0 && emitted == 0 && !truncated)
      ensures var l := old(line[..lineLength]);
              var ms' := if TextLines.Holds(l, text) then ms + [l] else ms;
              matched == |ms'| && (emit ==> Emitted(ms'))
    {
      hide TextLines.Holds, Emitted;
      var found := Matches();
      if found {
        CountMatch(ms);
      }
    }

    /** Drop a CR at the end of the line. */
    method StripCr(ghost partial: seq<u8>)
      requires Holding(partial)
      modifies `lineLength
      ensures Shape() && line[..lineLength] == Kept(partial)
    {
      if lineLength != 0 && line[lineLength - 1] == CR {
        lineLength := lineLength - 1;
      }
    }

    /** The line matches: count it, and emit it if it is wanted and fits. */
    method CountMatch(ghost ms: seq<seq<u8>>)
      requires Shape() && matched == |ms| && (!emit ==> used == 0 && emitted == 0 && !truncated)
      requires emit ==> Emitted(ms)
      modifies `used, `emitted, `truncated, `matched, output
      ensures Shape() && matched == |ms| + 1 && (!emit ==> used == 0 && emitted == 0 && !truncated)
      ensures emit ==> Emitted(ms + [old(line[..lineLength])])
    {
      ghost var l := line[..lineLength];
      matched := matched + 1;
      ghost var wanted := if |ms| <= skip then [] else ms[skip..];
      ghost var wanted' := if |ms| + 1 <= skip then [] else (ms + [l])[skip..];
      assert matched > skip ==> wanted' == wanted + [l];
      if emit && matched > skip && !truncated {
        assert wanted[..emitted] == wanted;
        assert wanted'[..emitted] == wanted;
        if used + lineLength + 1 > capacity {
          truncated := true;
        } else {
          EmitLine();
          EndedLast(wanted, l);
          assert wanted'[..emitted] == wanted';
        }
      } else if emit && matched > skip {
        assert wanted'[..emitted] == wanted[..emitted];
      }
    }

    /** Feed a piece of the stream; how the stream is cut into pieces does not matter. */
    method Feed(data: seq<u8>, ghost s: seq<u8>)
      requires Holding(Partial(s)) && Counted(Complete(s))
      modifies this, output, line
      ensures Holding(Partial(s + data)) && Counted(Complete(s + data))
      ensures emit == old(emit) && skip == old(skip) && text == old(text) && output == old(output)
      ensures capacity == old(capacity)
    {
      hide Counted, Partial, Complete;
      assert s + data[..0] == s;
      for index := 0 to |data|
        invariant Holding(Partial(s + data[..index])) && Counted(Complete(s + data[..index]))
        invariant emit == old(emit) && skip == old(skip) && text == old(text) && output == old(output)
        invariant capacity == old(capacity)
      {
        FeedByte(data[index], s + data[..index]);
        assert s + data[..index + 1] == s + data[..index] + [data[index]];
      }
      assert data[..|data|] == data;
    }

    method FeedByte(ch: u8, ghost s: seq<u8>)
      requires Holding(Partial(s)) && Counted(Complete(s))
      modifies this, output, line
      ensures Holding(Partial(s + [ch])) && Counted(Complete(s + [ch]))
      ensures emit == old(emit) && skip == old(skip) && text == old(text) && output == old(output)
      ensures capacity == old(capacity)
    {
      hide Matching, Partial, Complete, AnyCut;
      ByteStep(s, ch);
      if ch == LF {
        LineDone(Complete(s), Partial(s));
      } else if lineLength < LINE_MAX {
        ghost var before := line[..lineLength];
        line[lineLength] := ch;
        lineLength := lineLength + 1;
        assert line[..lineLength] == before + [ch];
      } else {
        lineCut := true;
      }
    }

    /** Flush a last line without LF. */
    method End(ghost s: seq<u8>)
      requires Holding(Partial(s)) && Counted(Complete(s))
      modifies this, output
      ensures Counted(Lines(s))
      ensures emit == old(emit) && skip == old(skip) && text == old(text) && output == old(output)
      ensures capacity == old(capacity) && line.Length == LINE_MAX && output != line
    {
      hide Counted, Partial, Complete;
      if lineLength != 0 || lineCut {
        LineDone(Complete(s), Partial(s));
      } else {
        assert Complete(s) + [] == Complete(s);
      }
    }
  }

  lemma NoLines(text: seq<u8>)
    ensures Matching([], text) == [] && !AnyCut([]) && Joined(Ended([])) == []
  {
    assert Ended([]) == [];
  }

  lemma CutStep(all: seq<seq<u8>>, line: seq<u8>)
    ensures AnyCut(all + [line]) <==> AnyCut(all) || |line| > LINE_MAX
  {
    if AnyCut(all) {
      var l :| l in all && |l| > LINE_MAX;
      assert l in all + [line];
    }
    if |line| > LINE_MAX {
      assert line in all + [line];
    }
  }

  lemma MatchingStep(all: seq<seq<u8>>, line: seq<u8>, text: seq<u8>)
    ensures Matching(all + [line], text)
      == if Holds(Kept(line), text) then Matching(all, text) + [Kept(line)] else Matching(all, text)
  {
    assert (all + [line])[..|all|] == all;
  }

  const HEADER := 24
  const CAPACITY := 65536 - HEADER

  const FILE_MAX := 0x7FFF_FFFF

  /** One reading of the file: its size, the pieces the system returns, and whether every call succeeded. */
  datatype Reading = Reading(size: nat, pieces: seq<seq<u8>>, ok: bool) {
    predicate Succeeds() {
      size <= FILE_MAX && ok
    }
  }

  /** A pass over the file. */
  method TextPass(scan: Scan, file: Reading) returns (ok: bool)
    requires scan.Holding([]) && scan.Counted([])
    modifies scan, scan.output, scan.line
    ensures ok == file.Succeeds() && scan.line.Length == LINE_MAX
    ensures ok ==> scan.Counted(Lines(Joined(file.pieces)))
    ensures scan.emit == old(scan.emit) && scan.skip == old(scan.skip) && scan.text == old(scan.text)
    ensures scan.output == old(scan.output) && scan.capacity == old(scan.capacity)
  {
    hide Scan.Counted, Scan.Holding, Lines;
    assert scan.line.Length == LINE_MAX by { HoldingShape(scan, []); }
    if file.size > FILE_MAX {
      return false;
    }
    for i := 0 to |file.pieces|
      invariant scan.Holding(Partial(Joined(file.pieces[..i]))) && scan.Counted(Complete(Joined(file.pieces[..i])))
      invariant scan.emit == old(scan.emit) && scan.skip == old(scan.skip) && scan.text == old(scan.text)
      invariant scan.output == old(scan.output) && scan.capacity == old(scan.capacity)
    {
      scan.Feed(file.pieces[i], Joined(file.pieces[..i]));
      JoinedLast(file.pieces, i);
    }
    if !file.ok {
      return false;
    }
    assert file.pieces[..|file.pieces|] == file.pieces;
    scan.End(Joined(file.pieces));
    return true;
  }

  lemma HoldingShape(scan: Scan, partial: seq<u8>)
    requires scan.Holding(partial)
    ensures scan.line.Length == LINE_MAX
  {
  }

  /** The answer to a request. */
  datatype Answer = Failed | Answer(size: nat, lines: nat, matched: nat, emitted: nat, flags: nat, body: seq<u8>)

  /** The matching lines of a stream. */
  ghost function MatchingLines(s: seq<u8>, text: seq<u8>): seq<seq<u8>> {
    Matching(Lines(s), text)
  }

  /** The buffer size a request gets. */
  function Granted(capacity: nat): (c: nat)
    ensures 1 <= c <= CAPACITY
  {
    if capacity == 0 || capacity > CAPACITY then CAPACITY else capacity
  }

  /** The answer is the last lines that match, as many of them from the first on as fit whole. */
  ghost predicate IsTail(a: Answer, s: seq<u8>, text: seq<u8>, tail: nat, capacity: nat)
    requires a.Answer?
  {
    var ms := MatchingLines(s, text);
    var wanted := if tail == 0 then ms else Last(ms, tail);
    var k := Fitting(wanted, Granted(capacity));
    && a.lines == |Lines(s)| && a.matched == |ms| && a.emitted == k
    && a.body == Joined(Ended(wanted[..k])) && |a.body| <= Granted(capacity)
    && a.flags == (if k < |wanted| then TRUNCATED else 0) + (if AnyCut(Lines(s)) then LONG_LINE else 0)
  }

  predicate LongLineFlag(a: Answer)
    requires a.Answer?
  {
    a.flags / LONG_LINE % 2 == 1
  }

  /**
    What the flag of an answer means: raised whenever a line lost text, and raised without loss exactly
    when there are lines over the limit and all of them are over it by their CR alone.
   */
  lemma FlagMeans(a: Answer, s: seq<u8>, text: seq<u8>, tail: nat, capacity: nat)
    requires a.Answer? && IsTail(a, s, text, tail, capacity)
    ensures !Lossless(Lines(s)) ==> LongLineFlag(a)
    ensures LongLineFlag(a) && Lossless(Lines(s))
      <==> AnyCut(Lines(s)) && forall l :: l in Lines(s) && |l| > LINE_MAX ==> OnlyCrOver(l)
  {
    hide Lines, Fitting, Joined, Ended, AnyCut, Lossless, OnlyCrOver, MatchingLines, Last;
    FlagWithoutLoss(Lines(s));
  }

  /** The counting pass: how many matching lines to pass over so that the last tail of them remain. */
  method CountPass(scan: Scan, text: seq<u8>, tail: nat, file: Reading) returns (ok: bool, skip: nat)
    requires scan.line.Length == LINE_MAX
    modifies scan, scan.line
    ensures ok == file.Succeeds() && scan.line.Length == LINE_MAX
    ensures ok ==> var n := |MatchingLines(Joined(file.pieces), text)|; skip == if n > tail then n - tail else 0
  {
    hide Scan.Holding, Matching, Lines, Joined, Ended, AnyCut;
    var nowhere := new u8[0];
    scan.Begin(false, 0, text, nowhere, 0);
    ok := TextPass(scan, file);
    skip := if ok && scan.matched > tail then scan.matched - tail else 0;
  }

  /** The emitting pass over a buffer. */
  method EmitPass(scan: Scan, text: seq<u8>, skip: nat, payload: array<u8>, size: nat, file: Reading) returns (a: Answer)
    requires scan.line.Length == LINE_MAX && payload != scan.line && size <= payload.Length
    modifies scan, payload, scan.line
    ensures a.Answer? <==> file.Succeeds()
    ensures a.Answer? ==> a.size == file.size && AnswerIs(a, Joined(file.pieces), text, skip, size)
  {
    hide Scan.Holding, Matching, Lines, Fitting, Joined, Ended, AnyCut;
    scan.Begin(true, skip, text, payload, size);
    var ok := TextPass(scan, file);
    if !ok {
      return Failed;
    }
    ghost var wanted := After(MatchingLines(Joined(file.pieces), text), skip);
    assert payload[..scan.used] == Joined(Ended(wanted[..scan.emitted]));
    FittingUnique(wanted, size, scan.emitted);
    a := Answer(file.size, scan.lines, scan.matched, scan.emitted,
                (if scan.truncated then TRUNCATED else 0) + (if scan.longLine then LONG_LINE else 0),
                payload[..scan.used]);
  }

  /** The answer holds the matching lines past the first skip, as many of them as fit whole. */
  ghost predicate AnswerIs(a: Answer, s: seq<u8>, text: seq<u8>, skip: nat, size: nat)
    requires a.Answer?
  {
    var ms := MatchingLines(s, text);
    var wanted := After(ms, skip);
    var k := Fitting(wanted, size);
    && a.lines == |Lines(s)| && a.matched == |ms| && a.emitted == k
    && a.body == Joined(Ended(wanted[..k])) && |a.body| <= size
    && a.flags == (if k < |wanted| then TRUNCATED else 0) + (if AnyCut(Lines(s)) then LONG_LINE else 0)
  }

  /** Serve a request: when a tail is asked for, a first pass counts and a second one emits. */
  method HandleReadText(scan: Scan, tail: nat, capacity: nat, text: seq<u8>, payload: array<u8>,
                        counting: Reading, emitting: Reading) returns (a: Answer)
    requires scan.line.Length == LINE_MAX && payload.Length == CAPACITY && payload != scan.line
    modifies scan, payload, scan.line
    ensures a.Answer? <==> (tail != 0 ==> counting.Succeeds()) && emitting.Succeeds()
    ensures a.Answer? ==> a.size == emitting.size
    ensures a.Answer? && (tail != 0 ==> Joined(counting.pieces) == Joined(emitting.pieces)) ==>
              IsTail(a, Joined(emitting.pieces), text, tail, capacity)
  {
    hide MatchingLines, Lines, Fitting, Joined, Ended, AnyCut;
    var skip := 0;
    if tail != 0 {
      var ok;
      ok, skip := CountPass(scan, text, tail, counting);
      if !ok {
        return Failed;
      }
    }
    a := EmitPass(scan, text, skip, payload, Granted(capacity), emitting);
    ghost var ms := MatchingLines(Joined(emitting.pieces), text);
    assert After(ms, 0) == ms;
  }
}
