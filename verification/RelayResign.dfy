/** What a server can do when the operator signs on after a failed flush. */
module RelayResign {
  import opened LittleEndian
  import opened RelayText
  import opened RelayRecord
  import opened RelayAgent
  import opened RelayRuns
  import opened Sequences

  /** The bytes behind the first n chunks of z. */
  function Beyond(z: seq<u8>, n: nat): seq<u8> {
    if |z| <= n * CHUNK_MAX then [] else z[n * CHUNK_MAX..]
  }

  /** A flush of what is pending fails, the caller writes y, and a second flush gets as far as posting. */
  function Resigned(s: Setting, w: World, o: Outcome, y: seq<u8>, o': Outcome): World {
    Run(s, w, [Flush(o), Write(y), Flush(o')])
  }

  /** Events that are the server's alone. */
  predicate FromServer(es: seq<Event>) {
    forall e :: e in es ==> e.Deliver? || e.Hangup?
  }

  /** The server makes the agent feed what the operator never wrote in that order, with nothing forged. */
  ghost predicate Breaks(s: Setting, w: World, es: seq<Event>) {
    var w' := Run(s, w, es);
    FromServer(es) && !w'.suspect && !(w'.agent.tunnel <= w'.stream)
  }

  /** The hash tells the released chunks apart. */
  predicate HashTells(s: Setting, signed: seq<Chunk>) {
    forall i, j :: 0 <= i < |signed| && 0 <= j < |signed| && s.c.hash(signed[i].data) == s.c.hash(signed[j].data)
      ==> signed[i].data == signed[j].data
  }

  /**
    When the stream survives: the server holds the chunks of y and, if they were posted, those of the
    lost bytes, and where one batch is the longer it can go on with the longer one's chunks.
   */
  predicate Survives(lost: seq<u8>, posted: bool, y: seq<u8>) {
    var kept := if posted then lost else [];
    && y + Beyond(kept, |Chunks(y)|) <= lost + y
    && kept + Beyond(y, |Chunks(kept)|) <= lost + y
  }

  /** The chunks of a, and behind as many of b those of b. */
  function Splice(a: seq<seq<u8>>, b: seq<seq<u8>>): seq<seq<u8>> {
    a + After(b, |a|)
  }

  lemma {:induction false} BeyondJoin(z: seq<u8>, n: nat)
    ensures Joined(After(Chunks(z), n)) == Beyond(z, n)
    decreases n
  {
    if n == 0 {
      ChunksJoin(z);
      assert After(Chunks(z), 0) == Chunks(z);
    } else if |z| > CHUNK_MAX {
      var rest := z[CHUNK_MAX..];
      assert Chunks(z)[1..] == Chunks(rest);
      assert After(Chunks(z), n) == After(Chunks(rest), n - 1);
      BeyondJoin(rest, n - 1);
      if |z| > n * CHUNK_MAX {
        assert rest[(n - 1) * CHUNK_MAX..] == z[n * CHUNK_MAX..];
      }
    }
  }

  lemma SpliceBytes(a: seq<u8>, b: seq<u8>)
    ensures Joined(Splice(Chunks(a), Chunks(b))) == a + Beyond(b, |Chunks(a)|)
  {
    hide Chunks;
    ChunksJoin(a);
    BeyondJoin(b, |Chunks(a)|);
    JoinedJoin(Chunks(a), After(Chunks(b), |Chunks(a)|));
  }

  lemma ChunksTail(z: seq<u8>)
    requires |Chunks(z)| > 1
    ensures |z| > CHUNK_MAX && Chunks(z) == [z[..CHUNK_MAX]] + Chunks(z[CHUNK_MAX..])
  {
  }

  /** Every chunk but the last is full. */
  lemma {:induction false} ChunkAt(z: seq<u8>, i: nat)
    requires i + 1 < |Chunks(z)|
    ensures (i + 1) * CHUNK_MAX < |z| && Chunks(z)[i] == z[i * CHUNK_MAX..(i + 1) * CHUNK_MAX]
    decreases i
  {
    hide Chunks;
    ChunksTail(z);
    var rest := z[CHUNK_MAX..];
    if i > 0 {
      ChunkAt(rest, i - 1);
      SliceOfSlice(z, CHUNK_MAX, |z|, (i - 1) * CHUNK_MAX, i * CHUNK_MAX);
      assert z[CHUNK_MAX..|z|] == rest;
    }
  }

  predicate At(la: seq<seq<u8>>, lb: seq<seq<u8>>, k: nat, x: seq<u8>)
    requires k < |la| == |lb|
  {
    x == la[k] || x == lb[k]
  }

  predicate Start(la: seq<seq<u8>>, lb: seq<seq<u8>>, k: nat, x: seq<u8>)
    requires k <= |la| == |lb|
  {
    x == Joined(la[..k]) || x == Joined(lb[..k])
  }

  /**
    Two lists of chunks a server can feed: la and lb agree up to the one place, if any, where they
    differ, and every released chunk stands in one of them under its number.
   */
  predicate Menu(signed: seq<Chunk>, la: seq<seq<u8>>, lb: seq<seq<u8>>) {
    && |la| == |lb|
    && (forall k :: 0 <= k < |la| && la[k] != lb[k] ==> la[..k] == lb[..k])
    && (forall i :: 0 <= i < |signed| ==>
          1 <= signed[i].seqNo <= |la| && At(la, lb, signed[i].seqNo - 1, signed[i].data))
  }

  /** What the agent has fed is the start of one of the two lists. */
  predicate FedOk(la: seq<seq<u8>>, lb: seq<seq<u8>>, a: Agent, stream: seq<u8>)
    requires |la| == |lb|
  {
    && a.tunnel <= stream
    && (!a.ended ==> 1 <= a.expected <= |la| + 1 && Start(la, lb, a.expected - 1, a.tunnel))
  }

  lemma StartGrows(la: seq<seq<u8>>, lb: seq<seq<u8>>, k: nat, x: seq<u8>, data: seq<u8>, stream: seq<u8>)
    requires k < |la| == |lb| && Start(la, lb, k, x) && At(la, lb, k, data)
    requires la[k] != lb[k] ==> la[..k] == lb[..k]
    requires Joined(la) <= stream && Joined(lb) <= stream
    ensures Start(la, lb, k + 1, x + data) && x + data <= stream
  {
    hide Joined;
    JoinedLast(la, k);
    JoinedLast(lb, k);
    JoinedPrefix(la, k + 1);
    JoinedPrefix(lb, k + 1);
  }

  lemma PartFits(x: seq<u8>, data: seq<u8>, room: nat, stream: seq<u8>)
    requires x + data <= stream && room < |data|
    ensures x + data[..room] <= stream
  {
    assert data == data[..room] + data[room..];
    assert x + data == (x + data[..room]) + data[room..];
  }

  lemma FeedFed(la: seq<seq<u8>>, lb: seq<seq<u8>>, a: Agent, r: Record, room: nat, stream: seq<u8>)
    requires |la| == |lb| < 0xFFFF_FFFF && !a.ended && FedOk(la, lb, a, stream) && a.expected <= |la|
    requires var k := a.expected - 1; At(la, lb, k, r.data) && (la[k] != lb[k] ==> la[..k] == lb[..k])
    requires Joined(la) <= stream && Joined(lb) <= stream
    ensures FedOk(la, lb, Feed(a, r, room), stream)
  {
    hide Joined, At, Start;
    StartGrows(la, lb, a.expected - 1, a.tunnel, r.data, stream);
    if |r.data| > room {
      PartFits(a.tunnel, r.data, room, stream);
    } else {
      assert Feed(a, r, room) == Agent(a.expected + 1, a.tunnel + r.data, false);
    }
  }

  lemma {:induction false} DownFed(s: Setting, signed: seq<Chunk>, la: seq<seq<u8>>, lb: seq<seq<u8>>, a: Agent,
                                   batch: seq<u8>, offset: nat, room: nat, stream: seq<u8>)
    requires Fresh(s) && Menu(signed, la, lb) && |la| < 0xFFFF_FFFF && !a.ended && FedOk(la, lb, a, stream)
    requires Joined(la) <= stream && Joined(lb) <= stream
    requires !AnySuspect(s, signed, Accepted(s.c, s.n, a, batch, offset, room))
    ensures FedOk(la, lb, Down(s.c, s.n, a, batch, offset, room), stream)
    decreases |batch| - offset
  {
    hide Fresh, Suspect, Accepts, Feed, RelayRecord.Next, Joined, Start;
    var step := RelayRecord.Next(batch, offset);
    var all := Accepted(s.c, s.n, a, batch, offset, room);
    if step.Found? && Accepts(s.c, s.n, a, step.record) {
      assert all[0] == step.record && step.record in all;
      AcceptedIsSigned(s, signed, a, step.record);
      FeedFed(la, lb, a, step.record, room, stream);
      if |step.record.data| <= room {
        var a' := Feed(a, step.record, room);
        FeedGoesOn(a, step.record, room);
        var rest := Accepted(s.c, s.n, a', batch, step.next, room - |step.record.data|);
        assert all == [step.record] + rest;
        assert forall r :: r in rest ==> r in all;
        DownFed(s, signed, la, lb, a', batch, step.next, room - |step.record.data|, stream);
      }
    }
  }

  /** Whatever the server does, the agent stays in one of the two lists. */
  lemma {:induction false} ServerFed(s: Setting, w: World, es: seq<Event>, la: seq<seq<u8>>, lb: seq<seq<u8>>)
    requires Fresh(s) && Menu(w.signed, la, lb) && |la| < 0xFFFF_FFFF && FedOk(la, lb, w.agent, w.stream)
    requires Joined(la) <= w.stream && Joined(lb) <= w.stream
    requires FromServer(es) && !Run(s, w, es).suspect
    ensures Run(s, w, es).agent.tunnel <= Run(s, w, es).stream
    decreases |es|
  {
    hide Fresh, Menu, Joined, AnySuspect, Down, Accepted;
    if es != [] {
      var w' := RelayRuns.Next(s, w, es[0]);
      if w'.suspect {
        SuspectStays(s, w', es[1..]);
      }
      if es[0].Deliver? && !w.agent.ended {
        DownFed(s, w.signed, la, lb, w.agent, es[0].batch, 0, es[0].room, w.stream);
      }
      ServerFed(s, w', es[1..], la, lb);
    }
  }

  lemma {:induction false} SuspectStays(s: Setting, w: World, es: seq<Event>)
    requires w.suspect
    ensures Run(s, w, es).suspect
    decreases |es|
  {
    if es != [] {
      SuspectStays(s, RelayRuns.Next(s, w, es[0]), es[1..]);
    }
  }

  lemma {:induction false} EndedStays(s: Setting, w: World, es: seq<Event>)
    requires FromServer(es) && w.agent.ended
    ensures Run(s, w, es).agent == w.agent && Run(s, w, es).stream == w.stream
    decreases |es|
  {
    hide Down, Accepted, AnySuspect;
    if es != [] {
      assert es[0] in es;
      EndedStays(s, RelayRuns.Next(s, w, es[0]), es[1..]);
    }
  }

  function DataOf(signed: seq<Chunk>): seq<seq<u8>> {
    seq(|signed|, i requires 0 <= i < |signed| => signed[i].data)
  }

  lemma {:induction false} SumIsJoined(signed: seq<Chunk>, k: nat)
    requires k <= |signed|
    ensures Sum(signed, k) == Joined(DataOf(signed)[..k])
  {
    if k > 0 {
      SumIsJoined(signed, k - 1);
      JoinedLast(DataOf(signed), k - 1);
    }
  }

  /** The lost bytes a server can have seen. */
  function Kept(lost: seq<u8>, o: Outcome): seq<u8> {
    if o == PostFailed then lost else []
  }

  function List(signed: seq<Chunk>, a: seq<u8>, b: seq<u8>): seq<seq<u8>> {
    DataOf(signed) + Splice(Chunks(a), Chunks(b))
  }

  lemma ListBytes(signed: seq<Chunk>, a: seq<u8>, b: seq<u8>)
    ensures Joined(List(signed, a, b)) == Sum(signed, |signed|) + (a + Beyond(b, |Chunks(a)|))
  {
    hide Chunks, Splice, Beyond;
    SumIsJoined(signed, |signed|);
    assert DataOf(signed)[..|signed|] == DataOf(signed);
    SpliceBytes(a, b);
    JoinedJoin(DataOf(signed), Splice(Chunks(a), Chunks(b)));
  }

  /** Where both batches have a further chunk, their chunks so far are the same. */
  lemma SameChunk(lost: seq<u8>, y: seq<u8>, i: nat)
    requires y <= lost + y && i + 1 < |Chunks(lost)| && i + 1 < |Chunks(y)|
    ensures Chunks(lost)[i] == Chunks(y)[i]
  {
    hide Chunks;
    ChunkAt(lost, i);
    ChunkAt(y, i);
    var n := (i + 1) * CHUNK_MAX;
    assert y[..n] == (lost + y)[..n] == lost[..n];
    assert lost[..n][i * CHUNK_MAX..n] == y[..n][i * CHUNK_MAX..n];
  }

  lemma Forks(signed: seq<Chunk>, kept: seq<u8>, lost: seq<u8>, y: seq<u8>, k: nat)
    requires y <= lost + y && (kept == lost || kept == [])
    requires k < |List(signed, kept, y)| == |List(signed, y, kept)|
    requires List(signed, kept, y)[k] != List(signed, y, kept)[k]
    ensures List(signed, kept, y)[..k] == List(signed, y, kept)[..k]
  {
    hide Chunks;
    var x, z, n := Chunks(kept), Chunks(y), |signed|;
    assert n <= k < n + |x| && k < n + |z|;
    forall i | 0 <= i < k - n
      ensures x[i] == z[i]
    {
      SameChunk(lost, y, i);
    }
  }

  lemma ListLengths(signed: seq<Chunk>, a: seq<u8>, b: seq<u8>)
    ensures |List(signed, a, b)| == |List(signed, b, a)|
  {
    hide Chunks;
  }

  lemma ListMenu(signed: seq<Chunk>, kept: seq<u8>, lost: seq<u8>, y: seq<u8>, all: seq<Chunk>)
    requires forall i :: 0 <= i < |signed| ==> signed[i].seqNo == i + 1
    requires all == signed + Numbered(|signed| + 1, Chunks(kept)) + Numbered(|signed| + 1, Chunks(y))
    requires y <= lost + y && (kept == lost || kept == [])
    ensures Menu(all, List(signed, kept, y), List(signed, y, kept))
  {
    ListLengths(signed, kept, y);
    var la, lb := List(signed, kept, y), List(signed, y, kept);
    forall k | 0 <= k < |la| && la[k] != lb[k]
      ensures la[..k] == lb[..k]
    {
      Forks(signed, kept, lost, y, k);
    }
    forall i | 0 <= i < |all|
      ensures 1 <= all[i].seqNo <= |la| && At(la, lb, all[i].seqNo - 1, all[i].data)
    {
      OnMenu(signed, kept, y, all, i);
    }
  }

  lemma ListAt(signed: seq<Chunk>, a: seq<u8>, b: seq<u8>)
    ensures var l, x := List(signed, a, b), Chunks(a);
            && |l| >= |signed| + |x|
            && (forall i :: 0 <= i < |signed| ==> l[i] == signed[i].data)
            && (forall j :: 0 <= j < |x| ==> l[|signed| + j] == x[j])
  {
    hide Chunks, After;
  }

  /** A released chunk's place in the two lists. */
  lemma OnMenu(signed: seq<Chunk>, kept: seq<u8>, y: seq<u8>, all: seq<Chunk>, i: nat)
    requires forall i :: 0 <= i < |signed| ==> signed[i].seqNo == i + 1
    requires all == signed + Numbered(|signed| + 1, Chunks(kept)) + Numbered(|signed| + 1, Chunks(y)) && i < |all|
    ensures |List(signed, kept, y)| == |List(signed, y, kept)|
    ensures 1 <= all[i].seqNo <= |List(signed, kept, y)|
    ensures At(List(signed, kept, y), List(signed, y, kept), all[i].seqNo - 1, all[i].data)
  {
    hide Chunks, List;
    ListLengths(signed, kept, y);
    ListAt(signed, kept, y);
    ListAt(signed, y, kept);
    var n, p := |signed|, |Chunks(kept)|;
    if n <= i < n + p {
      assert all[i] == Numbered(n + 1, Chunks(kept))[i - n];
    } else if n + p <= i {
      assert all[i] == Numbered(n + 1, Chunks(y))[i - n - p];
    }
  }

  /** Every place of a list is a released chunk under that number. */
  lemma ListReleased(signed: seq<Chunk>, a: seq<u8>, b: seq<u8>, all: seq<Chunk>, k: nat)
    requires forall i :: 0 <= i < |signed| ==> signed[i].seqNo == i + 1
    requires (forall c :: c in signed ==> c in all)
    requires (forall c :: c in Numbered(|signed| + 1, Chunks(a)) ==> c in all)
    requires (forall c :: c in Numbered(|signed| + 1, Chunks(b)) ==> c in all)
    requires k < |List(signed, a, b)|
    ensures Chunk(k + 1, List(signed, a, b)[k]) in all
  {
    hide Chunks;
    var n, p := |signed|, |Chunks(a)|;
    if k < n {
      assert signed[k] in signed;
    } else if k < n + p {
      assert Numbered(n + 1, Chunks(a))[k - n] in Numbered(n + 1, Chunks(a));
    } else {
      assert Numbered(n + 1, Chunks(b))[k - n] in Numbered(n + 1, Chunks(b));
    }
  }

  /** What the agent accepts of a batch stands in the batch. */
  lemma {:induction false} AcceptedAreRead(c: Crypto, n: Names, a: Agent, batch: seq<u8>, offset: nat, room: nat)
    requires ReadAll(batch, offset).Some?
    ensures forall r :: r in Accepted(c, n, a, batch, offset, room) ==> r in ReadAll(batch, offset).value
    decreases |batch| - offset
  {
    hide RelayRecord.Next, Accepts, Feed;
    var step := RelayRecord.Next(batch, offset);
    if step.Found? && Accepts(c, n, a, step.record) && |step.record.data| <= room {
      AcceptedAreRead(c, n, Feed(a, step.record, room), batch, step.next, room - |step.record.data|);
    }
  }

  /** A record made from a released chunk is not suspect. */
  lemma ReleasedIsClean(s: Setting, signed: seq<Chunk>, seqNo: nat, data: seq<u8>)
    requires HashTells(s, signed) && Chunk(seqNo, data) in signed && 1 <= |data| <= CHUNK_MAX
    ensures !Suspect(s, signed, Signed(s.c, s.n, seqNo, data))
  {
    hide Text, Cast32;
    var i :| 0 <= i < |signed| && signed[i] == Chunk(seqNo, data);
  }

  /** The batch that takes the agent to the end of a list. */
  ghost function Rest(s: Setting, l: seq<seq<u8>>, a: Agent): (e: Event)
    requires 1 <= a.expected <= |l| + 1 && forall x :: x in l ==> 1 <= |x| <= CHUNK_MAX
    ensures e.Deliver?
  {
    var cs := l[a.expected - 1..];
    Deliver(EncodeAll(SignAll(s.c, s.n, a.expected, cs)), |Joined(cs)|)
  }

  lemma RestFeeds(s: Setting, l: seq<seq<u8>>, a: Agent)
    requires NamesValid(s.n) && forall t :: s.c.verify(s.c.sign(t), t)
    requires 1 <= a.expected <= |l| + 1 && |l| < 0xFFFF_FFFF && forall x :: x in l ==> 1 <= |x| <= CHUNK_MAX
    requires !a.ended && a.tunnel == Joined(l[..a.expected - 1])
    ensures var e := Rest(s, l, a); Down(s.c, s.n, a, e.batch, 0, e.room).tunnel == Joined(l)
  {
    hide NamesValid, EncodeAll, SignAll, Down;
    var cs := l[a.expected - 1..];
    var batch := EncodeAll(SignAll(s.c, s.n, a.expected, cs));
    assert [] + batch == batch;
    HonestDelivery(s.c, s.n, a, [], cs, |Joined(cs)|);
    assert l == l[..a.expected - 1] + cs;
    JoinedJoin(l[..a.expected - 1], cs);
  }

  lemma SignedAreClean(s: Setting, l: seq<seq<u8>>, first: nat, signed: seq<Chunk>)
    requires 1 <= first <= |l| + 1 && forall x :: x in l ==> 1 <= |x| <= CHUNK_MAX
    requires HashTells(s, signed) && forall k :: 0 <= k < |l| ==> Chunk(k + 1, l[k]) in signed
    ensures forall r :: r in SignAll(s.c, s.n, first, l[first - 1..]) ==> !Suspect(s, signed, r)
  {
    hide Signed, HashTells, Suspect;
    var cs := l[first - 1..];
    var rs := SignAll(s.c, s.n, first, cs);
    forall r | r in rs
      ensures !Suspect(s, signed, r)
    {
      var i :| 0 <= i < |rs| && r == rs[i];
      assert cs[i] == l[first - 1 + i];
      ReleasedIsClean(s, signed, first + i, cs[i]);
    }
  }

  lemma RestIsClean(s: Setting, l: seq<seq<u8>>, a: Agent, signed: seq<Chunk>)
    requires 1 <= a.expected <= |l| + 1 && forall x :: x in l ==> 1 <= |x| <= CHUNK_MAX
    requires HashTells(s, signed) && forall k :: 0 <= k < |l| ==> Chunk(k + 1, l[k]) in signed
    ensures var e := Rest(s, l, a); !AnySuspect(s, signed, Accepted(s.c, s.n, a, e.batch, 0, e.room))
  {
    hide EncodeAll, SignAll, HashTells, Suspect, Accepted, ReadAll;
    var cs := l[a.expected - 1..];
    var rs := SignAll(s.c, s.n, a.expected, cs);
    var batch := EncodeAll(rs);
    assert [] + batch == batch;
    ReadOfEncode([], rs);
    AcceptedAreRead(s.c, s.n, a, batch, 0, |Joined(cs)|);
    SignedAreClean(s, l, a.expected, signed);
  }

  /** The flush that failed before its number moved on, and the one that lets the next bytes out. */
  predicate Resigning(w: World, o: Outcome, y: seq<u8>, o': Outcome) {
    && !w.broken && !w.suspect && w.op.pending != [] && y != []
    && (o == SignerFailed || o == PostFailed) && o' != SignerFailed
  }

  lemma RunThree(s: Setting, w: World, a: Event, b: Event, c: Event)
    ensures Run(s, w, [a, b, c]) == RelayRuns.Next(s, RelayRuns.Next(s, RelayRuns.Next(s, w, a), b), c)
  {
    hide RelayRuns.Next;
    var w1 := RelayRuns.Next(s, w, a);
    var w2 := RelayRuns.Next(s, w1, b);
    assert [a, b, c][1..] == [b, c] && [b, c][1..] == [c] && [c][1..] == [];
    assert Run(s, w2, [c]) == RelayRuns.Next(s, w2, c);
    assert Run(s, w1, [b, c]) == Run(s, w2, [c]);
  }

  lemma ResignedState(s: Setting, w: World, o: Outcome, y: seq<u8>, o': Outcome)
    requires Inv(w) && Resigning(w, o, y, o')
    ensures var w', n := Resigned(s, w, o, y, o'), |w.signed|;
            && w'.agent == w.agent && !w'.suspect
            && w'.stream == Sum(w.signed, n) + (w.op.pending + y)
            && w'.signed == w.signed + Numbered(n + 1, Chunks(Kept(w.op.pending, o))) + Numbered(n + 1, Chunks(y))
  {
    hide Chunks, Sum, AgentOk, Run, Numbered;
    RunThree(s, w, Flush(o), Write(y), Flush(o'));
    var n, lost := |w.signed|, w.op.pending;
    var w1 := RelayRuns.Next(s, w, Flush(o));
    FirstReleased(w, o);
    var w2 := RelayRuns.Next(s, w1, Write(y));
    assert w2.op == Operator(y, n + 1) by { assert [] + y == y; }
    assert w2.stream == Sum(w.signed, n) + (lost + y);
  }

  lemma FirstReleased(w: World, o: Outcome)
    requires o == SignerFailed || o == PostFailed
    ensures Released(w.op, o) == Numbered(w.op.downSeq, Chunks(Kept(w.op.pending, o)))
  {
    hide Numbered;
    assert Chunks([]) == [];
    assert Numbered(w.op.downSeq, []) == [];
  }

  /** The two lists end inside the stream exactly when the stream survives. */
  lemma SurvivesMeans(signed: seq<Chunk>, lost: seq<u8>, o: Outcome, y: seq<u8>)
    requires o == SignerFailed || o == PostFailed
    ensures var stream, kept := Sum(signed, |signed|) + (lost + y), Kept(lost, o);
            Survives(lost, o == PostFailed, y)
            <==> (Joined(List(signed, y, kept)) <= stream && Joined(List(signed, kept, y)) <= stream)
  {
    hide Sum, Chunks, Beyond, List, Joined;
    var kept, base := Kept(lost, o), Sum(signed, |signed|);
    ListBytes(signed, y, kept);
    ListBytes(signed, kept, y);
    PrefixAfter(base, y + Beyond(kept, |Chunks(y)|), lost + y);
    PrefixAfter(base, kept + Beyond(y, |Chunks(kept)|), lost + y);
  }

  lemma StartsTrue(signed: seq<Chunk>, a: Agent, x: seq<u8>, z: seq<u8>)
    requires AgentOk(signed, a) && !a.ended
    ensures a.expected - 1 <= |signed| <= |List(signed, x, z)|
    ensures a.tunnel == Joined(List(signed, x, z)[..a.expected - 1])
  {
    hide Sum, Chunks, Joined, Splice;
    SumIsJoined(signed, a.expected - 1);
    assert List(signed, x, z)[..a.expected - 1] == DataOf(signed)[..a.expected - 1];
  }

  lemma ListSizes(signed: seq<Chunk>, a: seq<u8>, b: seq<u8>)
    requires forall i :: 0 <= i < |signed| ==> 1 <= |signed[i].data| <= CHUNK_MAX
    ensures forall x :: x in List(signed, a, b) ==> 1 <= |x| <= CHUNK_MAX
  {
    hide Chunks;
  }

  /** When the stream does not survive, the server has a batch that breaks it. */
  lemma Breakable(s: Setting, w: World, o: Outcome, y: seq<u8>, o': Outcome)
    requires Fresh(s) && (forall t :: s.c.verify(s.c.sign(t), t))
    requires Inv(w) && Resigning(w, o, y, o') && !w.agent.ended
    requires |Resigned(s, w, o, y, o').signed| < 0xFFFF_FFFF && HashTells(s, Resigned(s, w, o, y, o').signed)
    requires !Survives(w.op.pending, o == PostFailed, y)
    ensures exists es :: Breaks(s, Resigned(s, w, o, y, o'), es)
  {
    hide Fresh, Sum, Chunks, Survives, HashTells, List, Joined, Resigned;
    var kept := Kept(w.op.pending, o);
    ResignedState(s, w, o, y, o');
    SurvivesMeans(w.signed, w.op.pending, o, y);
    if Joined(List(w.signed, y, kept)) <= Resigned(s, w, o, y, o').stream {
      ListBreaks(s, w, Resigned(s, w, o, y, o'), kept, y, kept, y);
    } else {
      ListBreaks(s, w, Resigned(s, w, o, y, o'), y, kept, kept, y);
    }
  }

  lemma ListBreaks(s: Setting, w: World, w': World, a: seq<u8>, b: seq<u8>, kept: seq<u8>, y: seq<u8>)
    requires Fresh(s) && (forall t :: s.c.verify(s.c.sign(t), t))
    requires Inv(w) && !w.suspect && !w'.suspect && w'.agent == w.agent && !w.agent.ended
    requires w'.signed == w.signed + Numbered(|w.signed| + 1, Chunks(kept)) + Numbered(|w.signed| + 1, Chunks(y))
    requires (a == kept && b == y) || (a == y && b == kept)
    requires |w'.signed| < 0xFFFF_FFFF && HashTells(s, w'.signed)
    requires !(Joined(List(w.signed, a, b)) <= w'.stream)
    ensures exists es :: Breaks(s, w', es)
  {
    hide Fresh, Sum, Chunks, HashTells, Joined, Numbered, List, Accepted, Down, Rest;
    var l := List(w.signed, a, b);
    ListSizes(w.signed, a, b);
    StartsTrue(w.signed, w.agent, a, b);
    ListLength(w.signed, a, b);
    forall k | 0 <= k < |l|
      ensures Chunk(k + 1, l[k]) in w'.signed
    {
      ListReleased(w.signed, a, b, w'.signed, k);
    }
    FreshIsValid(s);
    RestFeeds(s, l, w.agent);
    RestIsClean(s, l, w.agent, w'.signed);
    OneEvent(s, w', Rest(s, l, w.agent));
    assert Breaks(s, w', [Rest(s, l, w.agent)]);
  }

  lemma ListLength(signed: seq<Chunk>, a: seq<u8>, b: seq<u8>)
    ensures |List(signed, a, b)| <= |signed| + |Chunks(a)| + |Chunks(b)|
  {
    hide Chunks;
  }

  lemma FreshIsValid(s: Setting)
    requires Fresh(s)
    ensures NamesValid(s.n)
  {
  }

  lemma OneEvent(s: Setting, w: World, e: Event)
    ensures Run(s, w, [e]) == RelayRuns.Next(s, w, e)
  {
    hide RelayRuns.Next;
    assert [e][1..] == [];
  }

  /** When it survives, nothing the server does breaks it. */
  lemma Unbreakable(s: Setting, w: World, o: Outcome, y: seq<u8>, o': Outcome, es: seq<Event>)
    requires Fresh(s) && Inv(w) && Resigning(w, o, y, o')
    requires |Resigned(s, w, o, y, o').signed| < 0xFFFF_FFFF
    requires w.agent.ended || Survives(w.op.pending, o == PostFailed, y)
    ensures !Breaks(s, Resigned(s, w, o, y, o'), es)
  {
    hide Fresh, Sum, Chunks, Survives, List, Joined, Resigned, Run, Menu;
    var w', kept, base := Resigned(s, w, o, y, o'), Kept(w.op.pending, o), Sum(w.signed, |w.signed|);
    ResignedState(s, w, o, y, o');
    if FromServer(es) && !Run(s, w', es).suspect {
      if w.agent.ended {
        EndedStays(s, w', es);
      } else {
        SurvivesMeans(w.signed, w.op.pending, o, y);
        Begins(w.op.pending, o, y);
        ListMenu(w.signed, kept, w.op.pending, y, w'.signed);
        StartsTrue(w.signed, w.agent, kept, y);
        ListLength(w.signed, kept, y);
        ServerFed(s, w', es, List(w.signed, kept, y), List(w.signed, y, kept));
      }
    }
  }

  lemma Begins(lost: seq<u8>, o: Outcome, y: seq<u8>)
    requires Survives(lost, o == PostFailed, y)
    ensures y <= lost + y
  {
    hide Chunks, Beyond;
  }

  /**
    Signing on after a flush that raised before its number moved on: some course the server can take makes
    the agent feed what is not a start of the stream, with nothing forged, exactly when the session is
    still open and the stream does not survive.
   */
  lemma BreaksIff(s: Setting, w: World, o: Outcome, y: seq<u8>, o': Outcome)
    requires Fresh(s) && (forall t :: s.c.verify(s.c.sign(t), t))
    requires Inv(w) && Resigning(w, o, y, o')
    requires |Resigned(s, w, o, y, o').signed| < 0xFFFF_FFFF && HashTells(s, Resigned(s, w, o, y, o').signed)
    ensures (exists es :: Breaks(s, Resigned(s, w, o, y, o'), es))
      <==> !w.agent.ended && !Survives(w.op.pending, o == PostFailed, y)
  {
    hide Fresh, Inv, Resigning, HashTells, Resigned, Survives, Breaks;
    if !w.agent.ended && !Survives(w.op.pending, o == PostFailed, y) {
      Breakable(s, w, o, y, o');
    } else {
      forall es
        ensures !Breaks(s, Resigned(s, w, o, y, o'), es)
      {
        Unbreakable(s, w, o, y, o', es);
      }
    }
  }

  /** After a failed signer, and for batches of one chunk, all that counts is how the new bytes begin. */
  lemma SurvivesShort(lost: seq<u8>, posted: bool, y: seq<u8>)
    requires y != [] && (!posted || (0 < |lost| <= CHUNK_MAX && |y| <= CHUNK_MAX))
    ensures Survives(lost, posted, y) <==> y <= lost + y
  {
  }

  /** Longer batches ask for more: "ABC" lost, then "ABCABC..." over a chunk long, fed from its second chunk on. */
  lemma LongBatch(y: seq<u8>)
    requires |y| == CHUNK_MAX + 1 && forall i :: 0 <= i < |y| ==> y[i] == 65 + i % 3
    ensures y <= [65, 66, 67] + y && !Survives([65, 66, 67], true, y)
  {
    var lost: seq<u8> := [65, 66, 67];
    var all := lost + y;
    forall i | 0 <= i < |y|
      ensures y[i] == all[i]
    {
      if i >= 3 {
        assert all[i] == y[i - 3];
      }
    }
    assert Beyond(y, 1) == [y[CHUNK_MAX]] && Chunks(lost) == [lost];
    assert (lost + Beyond(y, 1))[3] == 66 && all[3] == 65;
  }

  /** A toy hash that tells one-byte strings apart, and a scheme that accepts every signature. */
  function ToyHash(data: seq<u8>): Digest {
    [if data == [] then 0 else data[0]] + seq(31, (i: nat) => 0)
  }

  function ToySign(text: string): Signature {
    seq(64, (i: nat) => 0)
  }

  function ToyVerify(g: Signature, text: string): bool {
    true
  }

  function ToyInstall(): string {
    seq(INSTALL_LENGTH, (i: nat) => if i == 8 || i == 13 || i == 18 || i == 23 then '-' else '0')
  }

  function ToyId(c: char): string {
    seq(HEX_ID_LENGTH, (i: nat) => c)
  }

  function Toy(): Setting {
    Setting(Crypto(ToyHash, ToySign, ToyVerify), Names("M-ABC123", ToyInstall(), ToyId('0'), ToyId('1')), {})
  }

  lemma ToyIsFresh()
    ensures Fresh(Toy())
  {
  }

  /** Signing on after a failed signer or a failed post: "A" is lost and "B" fed in its place. */
  lemma ReuseBreaksThePrefix(o: Outcome)
    requires o == SignerFailed || o == PostFailed
    ensures var s := Toy();
            var w := RelayRuns.Next(s, START, Write([65]));
            Fresh(s) && exists es :: Breaks(s, Resigned(s, w, o, [66], Sent), es)
  {
    hide Fresh, Toy, Survives, Breaks, Resigned, Chunks, NamesValid;
    var s := Toy();
    var w := RelayRuns.Next(s, START, Write([65]));
    ToyIsFresh();
    ToyAccepts();
    assert w.op.pending == [65];
    ResignedState(s, w, o, [66], Sent);
    SmallChunk([65]);
    SmallChunk([66]);
    NothingToChunk();
    ToyTells(Resigned(s, w, o, [66], Sent).signed);
    SurvivesShort([65], o == PostFailed, [66]);
    assert ([65] + [66])[0] != 66;
    BreaksIff(s, w, o, [66], Sent);
  }

  lemma ToyAccepts()
    ensures forall t :: Toy().c.verify(Toy().c.sign(t), t)
  {
  }

  lemma SmallChunk(x: seq<u8>)
    requires 1 <= |x| <= CHUNK_MAX
    ensures Chunks(x) == [x]
  {
  }

  lemma NothingToChunk()
    ensures Chunks([]) == []
  {
  }

  lemma ToyTells(signed: seq<Chunk>)
    requires forall c :: c in signed ==> c.data in [[65], [66]]
    ensures HashTells(Toy(), signed)
  {
    assert ToyHash([65])[0] == 65 && ToyHash([66])[0] == 66;
  }
}
