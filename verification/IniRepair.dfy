/** The repair of an INI image: line ends, blank runs and repeated keys. */
module IniRepair {
  import opened Wrappers

  const CRLF := "\r\n"

  predicate Breaks(c: char) {
    c == '\r' || c == '\n'
  }

  predicate Plain(line: string) {
    forall i :: 0 <= i < |line| ==> !Breaks(line[i])
  }

  /** Where the first line of a text ends. */
  function LineEnd(text: string): (e: nat)
    ensures e <= |text| && Plain(text[..e]) && (e < |text| ==> Breaks(text[e]))
  {
    if text == "" || Breaks(text[0]) then 0
    else
      var e := LineEnd(text[1..]);
      assert text[..e + 1] == [text[0]] + text[1..][..e];
      e + 1
  }

  /** Where the next line starts: CRLF, a bare CR and a bare LF each end one line. */
  function NextLine(text: string, e: nat): (n: nat)
    requires e <= |text| && (e < |text| ==> Breaks(text[e]))
    ensures e <= n <= |text| && (e < |text| ==> e < n)
  {
    if e == |text| then e
    else if text[e] == '\r' && e + 1 < |text| && text[e + 1] == '\n' then e + 2
    else e + 1
  }

  /** The lines of a text, without their ends. */
  function Split(text: string): seq<string>
    decreases |text|
  {
    if text == "" then []
    else
      var e := LineEnd(text);
      [text[..e]] + Split(text[NextLine(text, e)..])
  }

  function Render(lines: seq<string>): string {
    if lines == [] then "" else Render(lines[..|lines| - 1]) + lines[|lines| - 1] + CRLF
  }

  predicate Blank(c: char) {
    c == ' ' || c == '\t'
  }

  function Lower(c: char): char {
    if 'A' <= c <= 'Z' then (c as int + 32) as char else c
  }

  function SkipBlanks(line: string, i: nat): (j: nat)
    requires i <= |line|
    ensures i <= j <= |line| && (forall k :: i <= k < j ==> Blank(line[k])) && (j < |line| ==> !Blank(line[j]))
    decreases |line| - i
  {
    if i < |line| && Blank(line[i]) then SkipBlanks(line, i + 1) else i
  }

  predicate SpelledAt(line: string, i: nat, key: string) {
    i + |key| <= |line| && forall k :: 0 <= k < |key| ==> Lower(line[i + k]) == key[k]
  }

  /** The line sets this key: the key in either case between blanks, then an equals sign. */
  predicate IsKey(line: string, key: string) {
    var i := SkipBlanks(line, 0);
    SpelledAt(line, i, key) && var j := SkipBlanks(line, i + |key|); j < |line| && line[j] == '='
  }

  method IniIsKey(line: string, key: string) returns (found: bool)
    ensures found <==> IsKey(line, key)
  {
    var index: nat := 0;
    while index < |line| && Blank(line[index])
      invariant index <= |line| && SkipBlanks(line, index) == SkipBlanks(line, 0)
    {
      index := index + 1;
    }
    var start := index;
    var k := 0;
    while k < |key|
      invariant k <= |key| && index == start + k <= |line|
      invariant forall m :: 0 <= m < k ==> Lower(line[start + m]) == key[m]
    {
      if index >= |line| || Lower(line[index]) != key[k] {
        return false;
      }
      index := index + 1;
      k := k + 1;
    }
    while index < |line| && Blank(line[index])
      invariant start + |key| <= index <= |line| && SkipBlanks(line, index) == SkipBlanks(line, start + |key|)
    {
      index := index + 1;
    }
    return index < |line| && line[index] == '=';
  }

  /** A line that opens a section. */
  predicate Opens(line: string) {
    line != "" && line[0] == '['
  }

  predicate SetsKey(line: string, key: Option<string>) {
    line != "" && !Opens(line) && key.Some? && IsKey(line, key.value)
  }

  /** The section the lines end in already sets the key. */
  predicate Seen(lines: seq<string>, key: Option<string>) {
    lines != [] &&
    var last := lines[|lines| - 1];
    !Opens(last) && (SetsKey(last, key) || Seen(lines[..|lines| - 1], key))
  }

  /** The lines that stay: all that are not empty, but for a key its section has set before. */
  function Kept(lines: seq<string>, key: Option<string>): seq<string> {
    if lines == [] then []
    else
      var front, last := lines[..|lines| - 1], lines[|lines| - 1];
      Kept(front, key) + if last == "" || (SetsKey(last, key) && Seen(front, key)) then [] else [last]
  }

  function NonBlank(lines: seq<string>): seq<string> {
    if lines == [] then []
    else NonBlank(lines[..|lines| - 1]) + if lines[|lines| - 1] == "" then [] else [lines[|lines| - 1]]
  }

  /** No section sets the key twice. */
  predicate Unique(lines: seq<string>, key: Option<string>) {
    lines == [] ||
    var front, last := lines[..|lines| - 1], lines[|lines| - 1];
    Unique(front, key) && (SetsKey(last, key) ==> !Seen(front, key))
  }

  /** A repaired image: no blank line at either end, no two in a row, and no key twice in a section. */
  predicate Clean(lines: seq<string>, key: Option<string>) {
    && (lines != [] ==> lines[0] != "" && lines[|lines| - 1] != "")
    && (forall i :: 0 < i < |lines| ==> lines[i - 1] != "" || lines[i] != "")
    && Unique(lines, key)
  }

  /** The loop's state: the lines written, whether the section has set the key, and whether a blank is due. */
  datatype State = State(out: seq<string>, seen: bool, blank: bool)

  function Step(s: State, line: string, key: Option<string>): State {
    if line == "" then s.(blank := s.blank || s.out != [])
    else if SetsKey(line, key) && s.seen then s
    else
      State(s.out + (if s.blank then [""] else []) + [line],
            if Opens(line) then false else s.seen || SetsKey(line, key), false)
  }

  function Fold(lines: seq<string>, key: Option<string>): State {
    if lines == [] then State([], false, false)
    else Step(Fold(lines[..|lines| - 1], key), lines[|lines| - 1], key)
  }

  /** The repaired text. */
  function Repaired(text: string, key: Option<string>): string {
    Render(Fold(Split(text), key).out)
  }

  lemma RenderLast(lines: seq<string>, line: string)
    ensures Render(lines + [line]) == Render(lines) + line + CRLF
  {
    assert (lines + [line])[..|lines|] == lines;
  }

  lemma FoldLast(lines: seq<string>, line: string, key: Option<string>)
    ensures Fold(lines + [line], key) == Step(Fold(lines, key), line, key)
  {
    assert (lines + [line])[..|lines|] == lines;
  }

  lemma {:induction false} RenderJoin(a: seq<string>, b: seq<string>)
    ensures Render(a + b) == Render(a) + Render(b)
    decreases |b|
  {
    if b == [] {
      assert a + b == a;
    } else {
      var front, last := b[..|b| - 1], b[|b| - 1];
      assert a + b == (a + front) + [last] && b == front + [last];
      RenderJoin(a, front);
      RenderLast(a + front, last);
    }
  }

  /** Every line split off is plain. */
  lemma {:induction false} SplitPlain(text: string)
    ensures forall l :: l in Split(text) ==> Plain(l)
    decreases |text|
  {
    if text != "" {
      SplitPlain(text[NextLine(text, LineEnd(text))..]);
    }
  }

  /** Splitting what was rendered gives back the lines. */
  lemma {:induction false} SplitRender(lines: seq<string>)
    requires forall l :: l in lines ==> Plain(l)
    ensures Split(Render(lines)) == lines
    decreases |lines|
  {
    if lines != [] {
      var first, rest := lines[0], lines[1..];
      assert lines == [first] + rest;
      RenderJoin([first], rest);
      assert Render([first]) == first + CRLF by {
        RenderLast([], first);
        assert [] + [first] == [first];
      }
      var text := first + CRLF + Render(rest);
      FirstEnds(first, Render(rest));
      assert text[|first| + 2..] == Render(rest);
      assert text[..|first|] == first;
      SplitRender(rest);
    }
  }

  lemma {:induction false} FirstEnds(line: string, rest: string)
    requires Plain(line)
    ensures var text := line + CRLF + rest; LineEnd(text) == |line| && NextLine(text, |line|) == |line| + 2
    decreases |line|
  {
    var text := line + CRLF + rest;
    if line != "" {
      FirstEnds(line[1..], rest);
      assert text[1..] == line[1..] + CRLF + rest;
    }
  }

  /** What the state holds after any lines. */
  lemma {:induction false} FoldState(lines: seq<string>, key: Option<string>)
    ensures var s := Fold(lines, key);
            && Clean(s.out, key) && (s.blank ==> s.out != [])
            && s.seen == Seen(lines, key) == Seen(s.out, key)
            && NonBlank(s.out) == Kept(lines, key)
            && forall l :: l in s.out ==> l == "" || l in lines
  {
    hide IsKey;
    if lines != [] {
      var front, last := lines[..|lines| - 1], lines[|lines| - 1];
      FoldState(front, key);
      var s := Fold(front, key);
      var t := Fold(lines, key);
      if last != "" && !(SetsKey(last, key) && s.seen) {
        LineWritten(s, last, key);
        assert last in lines;
      } else {
        assert Kept(front, key) + [] == Kept(front, key);
      }
      assert forall l :: l in front ==> l in lines;
    }
  }

  /** Writing one line, after a blank if one is due, keeps the image clean. */
  lemma LineWritten(s: State, line: string, key: Option<string>)
    requires line != "" && !(SetsKey(line, key) && s.seen)
    requires Clean(s.out, key) && (s.blank ==> s.out != []) && s.seen == Seen(s.out, key)
    ensures var t := Step(s, line, key);
            && Clean(t.out, key) && t.seen == Seen(t.out, key)
            && NonBlank(t.out) == NonBlank(s.out) + [line]
            && forall l :: l in t.out ==> l == "" || l == line || l in s.out
  {
    hide SetsKey, Clean;
    var gap: seq<string> := if s.blank then [""] else [];
    var mid := s.out + gap;
    if s.blank {
      GapWritten(s.out, key);
    } else {
      assert mid == s.out;
      CleanFacts(s.out, key);
    }
    var out := mid + [line];
    assert out[..|out| - 1] == mid;
    SpacedOut(s.out, gap, line, key);
  }

  lemma CleanFacts(lines: seq<string>, key: Option<string>)
    requires Clean(lines, key)
    ensures Unique(lines, key) && (lines != [] ==> lines[0] != "")
    ensures forall i :: 0 < i < |lines| ==> lines[i - 1] != "" || lines[i] != ""
  {
  }

  lemma BlankIsNeutral(key: Option<string>)
    ensures !Opens("") && !SetsKey("", key)
  {
  }

  /** A blank line sets nothing and opens nothing. */
  lemma GapWritten(lines: seq<string>, key: Option<string>)
    requires Clean(lines, key)
    ensures var mid := lines + [""];
            Unique(mid, key) && Seen(mid, key) == Seen(lines, key) && NonBlank(mid) == NonBlank(lines)
  {
    hide IsKey;
    assert (lines + [""])[..|lines|] == lines;
  }

  lemma SpacedOut(lines: seq<string>, gap: seq<string>, line: string, key: Option<string>)
    requires Clean(lines, key) && line != "" && (gap == [] || (gap == [""] && lines != []))
    requires Unique(lines + gap + [line], key)
    ensures Clean(lines + gap + [line], key)
  {
    hide Unique;
    var out := lines + gap + [line];
    assert out[0] == if lines == [] then line else lines[0];
    forall i | 0 < i < |out|
      ensures out[i - 1] != "" || out[i] != ""
    {
      if i < |lines| {
        assert out[i - 1] == lines[i - 1] && out[i] == lines[i];
      }
    }
  }

  /** Lines already clean are written as they are. */
  lemma {:induction false} FoldOfClean(lines: seq<string>, key: Option<string>, n: nat)
    requires Clean(lines, key) && n <= |lines|
    ensures var s := Fold(lines[..n], key);
            && s.blank == (n > 0 && lines[n - 1] == "")
            && s.out == lines[..if s.blank then n - 1 else n]
            && s.seen == Seen(lines[..n], key)
    decreases n
  {
    hide SetsKey, Opens, Clean, Fold, Seen, Unique;
    BlankIsNeutral(key);
    CleanFacts(lines, key);
    if n == 0 {
      assert lines[..0] == [];
      StartState(key);
      NoneSeen(key);
    } else {
      FoldOfClean(lines, key, n - 1);
      UniquePrefix(lines, key, n);
      assert lines[..n] == lines[..n - 1] + [lines[n - 1]];
      LastFacts(lines[..n - 1], lines[n - 1], key);
      FoldLast(lines[..n - 1], lines[n - 1], key);
      var s := Fold(lines[..n - 1], key);
      if lines[n - 1] != "" && s.blank {
        assert lines[..n - 2] + [""] + [lines[n - 1]] == lines[..n];
      }
      if lines[n - 1] != "" && !s.blank {
        assert lines[..n - 1] + [] + [lines[n - 1]] == lines[..n];
      }
    }
  }

  lemma NoneSeen(key: Option<string>)
    ensures !Seen([], key)
  {
  }

  lemma LastFacts(front: seq<string>, last: string, key: Option<string>)
    ensures Seen(front + [last], key) <==> !Opens(last) && (SetsKey(last, key) || Seen(front, key))
    ensures Unique(front + [last], key) <==> Unique(front, key) && (SetsKey(last, key) ==> !Seen(front, key))
  {
    hide SetsKey, Opens;
    assert (front + [last])[..|front|] == front;
  }

  lemma {:induction false} UniquePrefix(lines: seq<string>, key: Option<string>, n: nat)
    requires Unique(lines, key) && n <= |lines|
    ensures Unique(lines[..n], key)
    decreases |lines|
  {
    if n < |lines| {
      UniquePrefix(lines[..|lines| - 1], key, n);
      assert lines[..|lines| - 1][..n] == lines[..n];
    } else {
      assert lines[..n] == lines;
    }
  }

  /** The lines of a repaired text are clean, plain, and exactly the kept ones in order, blanks aside. */
  lemma RepairedLines(text: string, key: Option<string>)
    ensures var ls := Split(Repaired(text, key));
            Clean(ls, key) && NonBlank(ls) == Kept(Split(text), key) && Render(ls) == Repaired(text, key)
  {
    hide Clean, Kept, Fold, Seen, Split;
    var s := Fold(Split(text), key);
    FoldState(Split(text), key);
    SplitPlain(text);
    SplitRender(s.out);
  }

  /** An image that is already clean comes out byte for byte the same. */
  lemma CleanUnchanged(lines: seq<string>, key: Option<string>)
    requires Clean(lines, key) && forall l :: l in lines ==> Plain(l)
    ensures Repaired(Render(lines), key) == Render(lines)
  {
    SplitRender(lines);
    FoldOfClean(lines, key, |lines|);
    assert lines[..|lines|] == lines;
  }

  /** Repairing twice is repairing once. */
  lemma RepairIdempotent(text: string, key: Option<string>)
    ensures Repaired(Repaired(text, key), key) == Repaired(text, key)
  {
    hide Clean, Repaired, Split;
    RepairedLines(text, key);
    SplitPlain(Repaired(text, key));
    CleanUnchanged(Split(Repaired(text, key)), key);
  }

  /** Unique, said with positions: between two lines that set the key a section opens. */
  lemma {:induction false} UniqueMeans(lines: seq<string>, key: Option<string>)
    ensures Unique(lines, key) <==>
              forall j, i :: 0 <= j < i < |lines| && SetsKey(lines[j], key) && SetsKey(lines[i], key) ==>
                exists k :: j < k < i && Opens(lines[k])
    decreases |lines|
  {
    hide SetsKey, Opens;
    if lines != [] {
      var n := |lines| - 1;
      var front := lines[..n];
      UniqueMeans(front, key);
      SeenMeans(front, key);
      assert Unique(lines, key) <==> Unique(front, key) && (SetsKey(lines[n], key) ==> !Seen(front, key));
      assert forall i :: 0 <= i < n ==> front[i] == lines[i];
    }
  }

  /** Seen, said with positions: some line sets the key and no section opens after it. */
  lemma {:induction false} SeenMeans(lines: seq<string>, key: Option<string>)
    ensures Seen(lines, key) <==>
              exists j :: 0 <= j < |lines| && SetsKey(lines[j], key) && forall k :: j < k < |lines| ==> !Opens(lines[k])
    decreases |lines|
  {
    if lines != [] {
      hide IsKey;
      var n := |lines| - 1;
      var front := lines[..n];
      SeenMeans(front, key);
      assert forall i :: 0 <= i < n ==> front[i] == lines[i];
    }
  }

  /** What the output can be charged to: two bytes for each byte of input, and one line end more. */
  function Cost(s: State): nat {
    |Render(s.out)| + if s.blank then 2 else 0
  }

  lemma StepCost(s: State, line: string, key: Option<string>)
    ensures Cost(Step(s, line, key)) <= Cost(s) + |line| + 2
    ensures line == "" && Step(s, line, key) != s ==> Cost(Step(s, line, key)) == Cost(s) + 2
  {
    hide IsKey;
    if line != "" && !(SetsKey(line, key) && s.seen) {
      var gap: seq<string> := if s.blank then [""] else [];
      RenderLast(s.out + gap, line);
      if s.blank {
        RenderLast(s.out, "");
      } else {
        assert s.out + gap == s.out;
      }
    }
  }

  /** The output of any text fits twice its length and two bytes. */
  lemma {:induction false} FitsTwice(done: seq<string>, text: string, key: Option<string>)
    ensures Cost(Fold(done + Split(text), key)) <= Cost(Fold(done, key)) + 2 * |text| + 1
    decreases |text|
  {
    hide Fold, Step;
    if text == "" {
      assert done + Split(text) == done;
    } else {
      var e := LineEnd(text);
      var n := NextLine(text, e);
      var line := text[..e];
      assert done + Split(text) == (done + [line]) + Split(text[n..]);
      FoldLast(done, line, key);
      StepCost(Fold(done, key), line, key);
      if n == |text| {
        assert text[n..] == "";
        assert (done + [line]) + Split(text[n..]) == done + [line];
      } else {
        FitsTwice(done + [line], text[n..], key);
      }
    }
  }

  /** The documented bound. */
  lemma RepairFits(text: string, key: Option<string>)
    ensures |Repaired(text, key)| <= 2 * |text| + 2
  {
    hide Fold, Split;
    FitsTwice([], text, key);
    assert [] + Split(text) == Split(text);
    assert Cost(Fold([], key)) == 0 by { NothingWritten(key); }
  }

  lemma NothingWritten(key: Option<string>)
    ensures Cost(Fold([], key)) == 0
  {
  }

  /** Later lines never shrink what is written. */
  lemma {:induction false} RenderGrows(done: seq<string>, more: seq<string>, key: Option<string>)
    ensures |Render(Fold(done, key).out)| <= |Render(Fold(done + more, key).out)|
    decreases |more|
  {
    hide IsKey, Render;
    if more == [] {
      assert done + more == done;
    } else {
      var front, last := more[..|more| - 1], more[|more| - 1];
      RenderGrows(done, front, key);
      assert done + more == (done + front) + [last];
      FoldLast(done + front, last, key);
      OutGrows(Fold(done + front, key), last, key);
    }
  }

  lemma OutGrows(s: State, line: string, key: Option<string>)
    ensures |Render(s.out)| <= |Render(Step(s, line, key).out)|
  {
    hide IsKey, Render;
    var t := Step(s, line, key);
    if t.out != s.out {
      var added := (if s.blank then [""] else []) + [line];
      assert t.out == s.out + added;
      RenderJoin(s.out, added);
    }
  }

  /** Repair an image into a bounded buffer: it fails exactly when the repaired text does not fit. */
  method Repair(text: string, out: array<char>, capacity: nat, key: Option<string>) returns (ok: bool, length: nat)
    requires capacity <= out.Length
    modifies out
    ensures ok <==> |Repaired(text, key)| <= capacity
    ensures ok ==> length == |Repaired(text, key)| && out[..length] == Repaired(text, key)
  {
    hide Fold, Split, Render, LineEnd;
    var at: nat, used: nat, seen, blank := 0, 0, false, false;
    ghost var done: seq<string> := [];
    StartState(key);
    assert text[0..] == text && [] + Split(text) == Split(text);
    while at < |text|
      invariant at <= |text| && used <= capacity && done + Split(text[at..]) == Split(text)
      invariant out[..used] == Render(Fold(done, key).out)
      invariant seen == Fold(done, key).seen && blank == Fold(done, key).blank
      invariant used != 0 <==> Fold(done, key).out != []
    {
      var start := at;
      at := ScanLine(text, at);
      var end := at;
      at := SkipEnd(text, at);
      ghost var s := Fold(done, key);
      var line := text[start..end];
      SplitNext(text, start, end, at);
      assert done + ([line] + Split(text[at..])) == (done + [line]) + Split(text[at..]);
      FoldLast(done, line, key);
      done := done + [line];
      if end == start {
        if used != 0 {
          blank := true;
        }
        continue;
      }
      var sets := false;
      if text[start] == '[' {
        seen := false;
      } else if key.Some? {
        sets := IniIsKey(line, key.value);
        if sets && seen {
          continue;
        }
        if sets {
          seen := true;
        }
      }
      WrittenLine(s, line, key);
      var need := (end - start) + 2 + if blank then 2 else 0;
      if need > capacity - used {
        RenderGrows(done, Split(text[at..]), key);
        return false, 0;
      }
      used := WriteLine(out, used, line, blank);
      blank := false;
    }
    assert text[at..] == "";
    NothingSplit();
    assert done + [] == done;
    return true, used;
  }

  lemma StartState(key: Option<string>)
    ensures Fold([], key) == State([], false, false) && Render([]) == ""
  {
  }

  lemma NothingSplit()
    ensures Split("") == []
  {
  }

  /** What a written line adds to the text. */
  lemma WrittenLine(s: State, line: string, key: Option<string>)
    requires line != "" && !(SetsKey(line, key) && s.seen)
    ensures Render(Step(s, line, key).out) == Render(s.out) + (if s.blank then CRLF else "") + line + CRLF
  {
    hide IsKey;
    var gap: seq<string> := if s.blank then [""] else [];
    RenderLast(s.out + gap, line);
    if s.blank {
      RenderLast(s.out, "");
      assert Render(s.out) + "" + CRLF == Render(s.out) + CRLF;
    } else {
      assert s.out + gap == s.out;
    }
  }

  lemma SplitNext(text: string, start: nat, end: nat, next: nat)
    requires start < |text| && end == start + LineEnd(text[start..])
    requires next == start + NextLine(text[start..], LineEnd(text[start..]))
    ensures Split(text[start..]) == [text[start..end]] + Split(text[next..])
  {
    var rest := text[start..];
    assert rest[..LineEnd(rest)] == text[start..end];
    assert rest[NextLine(rest, LineEnd(rest))..] == text[next..];
  }

  method ScanLine(text: string, from: nat) returns (at: nat)
    requires from < |text|
    ensures at <= |text| && at == from + LineEnd(text[from..])
  {
    at := from;
    while at < |text| && !Breaks(text[at])
      invariant from <= at <= |text|
      invariant from + LineEnd(text[from..]) == at + LineEnd(text[at..])
    {
      assert text[at..][1..] == text[at + 1..];
      at := at + 1;
    }
  }

  method SkipEnd(text: string, end: nat) returns (at: nat)
    requires end <= |text| && (end < |text| ==> Breaks(text[end]))
    ensures forall from :: 0 <= from <= end ==> at == from + NextLine(text[from..], end - from)
  {
    at := end;
    if at < |text| {
      if text[at] == '\r' && at + 1 < |text| && text[at + 1] == '\n' {
        at := at + 2;
      } else {
        at := at + 1;
      }
    }
  }

  method WriteLine(out: array<char>, used: nat, line: string, blank: bool) returns (used': nat)
    requires used + |line| + 2 + (if blank then 2 else 0) <= out.Length
    modifies out
    ensures used' == used + |line| + 2 + if blank then 2 else 0
    ensures out[..used'] == old(out[..used]) + (if blank then CRLF else "") + line + CRLF
  {
    ghost var before := out[..used];
    used' := used;
    if blank {
      out[used'] := '\r';
      out[used' + 1] := '\n';
      used' := used' + 2;
    }
    ghost var from, head := used', out[..used'];
    assert head == before + if blank then CRLF else "";
    for index := 0 to |line|
      invariant used' == from + index && out[..used'] == head + line[..index]
    {
      out[used'] := line[index];
      used' := used' + 1;
    }
    out[used'] := '\r';
    out[used' + 1] := '\n';
    used' := used' + 2;
  }
}
