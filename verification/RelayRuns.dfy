/** Whole runs of a relay session against a server that may do anything. */
module RelayRuns {
  import opened LittleEndian
  import opened RelayText
  import opened RelayRecord
  import opened Sequences
  import opened RelayAgent

  /** A chunk the operator's key has signed in this session, and under which number. */
  datatype Chunk = Chunk(seqNo: nat, data: seq<u8>)

  /** A statement the key signed in some other session. */
  datatype Foreign = Foreign(names: Names, seqNo: nat, digest: Digest)

  /** How a flush ends: accepted, or raised at the signer, at a post, or at the server's answer. */
  datatype Outcome = Sent | SignerFailed | PostFailed | BadAnswer

  /** What the operator's session object holds for the way down. */
  datatype Operator = Operator(pending: seq<u8>, downSeq: nat)

  /** The operator after a flush: the number moves on only once everything was posted. */
  function FlushOp(op: Operator, o: Outcome): Operator {
    if op.pending == [] then op
    else if o == Sent || o == BadAnswer then Operator([], op.downSeq + |Chunks(op.pending)|)
    else Operator([], op.downSeq)
  }

  /** The chunks of one flush under their numbers. */
  function Numbered(first: nat, cs: seq<seq<u8>>): (ks: seq<Chunk>)
    ensures |ks| == |cs| && forall i :: 0 <= i < |cs| ==> ks[i] == Chunk(first + i, cs[i])
  {
    seq(|cs|, i requires 0 <= i < |cs| => Chunk(first + i, cs[i]))
  }

  /**
    stream is every byte the caller has written; signed is every chunk whose record may have left the
    operator, also in a flush that failed afterwards; broken is set when a flush raised before the number
    moved on; suspect when the agent fed a record that was never signed for it or whose data collides
    with another chunk's hash.
   */
  datatype World = World(
    op: Operator, stream: seq<u8>, signed: seq<Chunk>, broken: bool, agent: Agent, suspect: bool)

  const START := World(Operator([], 1), [], [], false, Agent(1, [], false), false)

  /** Hangup is a reply that reports the session closed. */
  datatype Event = Write(data: seq<u8>) | Flush(outcome: Outcome) | Deliver(batch: seq<u8>, room: nat) | Hangup

  /** What a flush lets out: nothing when the signer failed. */
  function Released(op: Operator, o: Outcome): seq<Chunk> {
    if o == SignerFailed then [] else Numbered(op.downSeq, Chunks(op.pending))
  }

  /** The session at large: the crypto in use, its names, and what else the key has signed. */
  datatype Setting = Setting(c: Crypto, n: Names, others: set<Foreign>)

  /** The agent's nonce was never signed for before. */
  predicate Fresh(s: Setting) {
    NamesValid(s.n) && forall o :: o in s.others ==> NamesValid(o.names) && o.names.nonce != s.n.nonce
  }

  /** The text of a record was signed, here or elsewhere. */
  predicate TextSigned(s: Setting, signed: seq<Chunk>, text: string) {
    || (exists i :: 0 <= i < |signed| && text == Statement(s.c, s.n, Cast32(signed[i].seqNo), signed[i].data))
    || (exists o :: o in s.others && text == Text(o.names, o.seqNo, o.digest))
  }

  /** The data of a record has the hash of a signed chunk without being it. */
  predicate Collides(s: Setting, signed: seq<Chunk>, data: seq<u8>) {
    exists i :: 0 <= i < |signed| && s.c.hash(signed[i].data) == s.c.hash(data) && signed[i].data != data
  }

  predicate Suspect(s: Setting, signed: seq<Chunk>, r: Record) {
    !TextSigned(s, signed, Statement(s.c, s.n, r.seqNo, r.data)) || Collides(s, signed, r.data)
  }

  predicate AnySuspect(s: Setting, signed: seq<Chunk>, rs: seq<Record>) {
    exists r :: r in rs && Suspect(s, signed, r)
  }

  function Next(s: Setting, w: World, e: Event): World {
    match e
    case Write(data) => w.(op := Operator(w.op.pending + data, w.op.downSeq), stream := w.stream + data)
    case Flush(o) =>
      w.(op := FlushOp(w.op, o),
         signed := w.signed + Released(w.op, o),
         broken := w.broken || (w.op.pending != [] && (o == SignerFailed || o == PostFailed)))
    case Deliver(batch, room) =>
      if w.agent.ended then w
      else
        w.(agent := Down(s.c, s.n, w.agent, batch, 0, room),
           suspect := w.suspect || AnySuspect(s, w.signed, Accepted(s.c, s.n, w.agent, batch, 0, room)))
    case Hangup => w.(agent := w.agent.(ended := true))
  }

  function Run(s: Setting, w: World, events: seq<Event>): World
    decreases |events|
  {
    if events == [] then w else Run(s, Next(s, w, events[0]), events[1..])
  }

  /** The operator signs nothing more once a flush has raised before the number moved on. */
  predicate Abandons(s: Setting, w: World, events: seq<Event>)
    decreases |events|
  {
    events == [] ||
    ((events[0].Flush? ==> !w.broken || w.op.pending == []) && Abandons(s, Next(s, w, events[0]), events[1..]))
  }

  /** The data of the first k signed chunks. */
  function Sum(signed: seq<Chunk>, k: nat): seq<u8>
    requires k <= |signed|
  {
    if k == 0 then [] else Sum(signed, k - 1) + signed[k - 1].data
  }

  lemma {:induction false} SumPrefix(signed: seq<Chunk>, j: nat, k: nat)
    requires j <= k <= |signed|
    ensures Sum(signed, j) <= Sum(signed, k)
    decreases k
  {
    if j < k {
      SumPrefix(signed, j, k - 1);
    }
  }

  lemma {:induction false} SumKept(signed: seq<Chunk>, more: seq<Chunk>, k: nat)
    requires k <= |signed|
    ensures Sum(signed + more, k) == Sum(signed, k)
    decreases k
  {
    if k > 0 {
      SumKept(signed, more, k - 1);
    }
  }

  lemma {:induction false} SumNumbered(signed: seq<Chunk>, first: nat, cs: seq<seq<u8>>)
    ensures var all := signed + Numbered(first, cs); Sum(all, |all|) == Sum(signed, |signed|) + Joined(cs)
    decreases |cs|
  {
    var all := signed + Numbered(first, cs);
    if cs == [] {
      assert all == signed;
    } else {
      var one := [Chunk(first, cs[0])];
      var head := signed + one;
      assert all == head + Numbered(first + 1, cs[1..]);
      SumNumbered(head, first + 1, cs[1..]);
      SumKept(signed, one, |signed|);
      assert Sum(head, |head|) == Sum(head, |signed|) + cs[0];
      assert Sum(signed, |signed|) + cs[0] + Joined(cs[1..]) == Sum(signed, |signed|) + Joined(cs);
    }
  }

  /** The agent has fed exactly the chunks numbered below the one it expects. */
  predicate AgentOk(signed: seq<Chunk>, a: Agent) {
    && a.tunnel <= Sum(signed, |signed|)
    && (!a.ended ==> 1 <= a.expected <= |signed| + 1 && a.tunnel == Sum(signed, a.expected - 1))
  }

  /** What every step keeps. */
  predicate Inv(w: World) {
    && (forall i :: 0 <= i < |w.signed| ==> w.signed[i].seqNo == i + 1 && 1 <= |w.signed[i].data| <= CHUNK_MAX)
    && Sum(w.signed, |w.signed|) <= w.stream
    && (w.broken || (w.op.downSeq == |w.signed| + 1 && Sum(w.signed, |w.signed|) + w.op.pending == w.stream))
    && (w.suspect || AgentOk(w.signed, w.agent))
  }

  /** An accepted record that is not suspect is a chunk signed under the number wanted. */
  lemma AcceptedIsSigned(s: Setting, signed: seq<Chunk>, a: Agent, r: Record)
    requires Fresh(s) && Accepts(s.c, s.n, a, r) && !Suspect(s, signed, r)
    ensures exists i :: 0 <= i < |signed| && Cast32(signed[i].seqNo) == a.expected && signed[i].data == r.data
  {
    hide NamesValid, Text;
    var text := Statement(s.c, s.n, r.seqNo, r.data);
    if o :| o in s.others && text == Text(o.names, o.seqNo, o.digest) {
      TextInjective(s.n, o.names, r.seqNo, o.seqNo, s.c.hash(r.data), o.digest);
    } else {
      var i :| 0 <= i < |signed| && text == Statement(s.c, s.n, Cast32(signed[i].seqNo), signed[i].data);
      TextInjective(s.n, s.n, r.seqNo, Cast32(signed[i].seqNo), s.c.hash(r.data), s.c.hash(signed[i].data));
    }
  }

  /** While every number was used once, it is the only one. */
  lemma AcceptedIsNext(s: Setting, signed: seq<Chunk>, a: Agent, r: Record)
    requires Fresh(s) && |signed| < 0xFFFF_FFFF && forall i :: 0 <= i < |signed| ==> signed[i].seqNo == i + 1
    requires !a.ended && AgentOk(signed, a) && Accepts(s.c, s.n, a, r) && !Suspect(s, signed, r)
    ensures a.expected <= |signed| && r.data == signed[a.expected - 1].data
  {
    hide Accepts, Fresh, Suspect, AgentOk;
    AcceptedIsSigned(s, signed, a, r);
  }

  lemma FeedKeeps(signed: seq<Chunk>, a: Agent, r: Record, room: nat)
    requires |signed| < 0xFFFF_FFFF && !a.ended && AgentOk(signed, a)
    requires a.expected <= |signed| && r.data == signed[a.expected - 1].data
    ensures AgentOk(signed, Feed(a, r, room))
  {
    SumPrefix(signed, a.expected, |signed|);
    assert Sum(signed, a.expected) == a.tunnel + r.data;
  }

  lemma {:induction false} DownKeeps(s: Setting, signed: seq<Chunk>, a: Agent, batch: seq<u8>, offset: nat, room: nat)
    requires Fresh(s) && |signed| < 0xFFFF_FFFF && forall i :: 0 <= i < |signed| ==> signed[i].seqNo == i + 1
    requires !a.ended && AgentOk(signed, a)
    requires !AnySuspect(s, signed, Accepted(s.c, s.n, a, batch, offset, room))
    ensures AgentOk(signed, Down(s.c, s.n, a, batch, offset, room))
    decreases |batch| - offset
  {
    hide Fresh, Suspect, Accepts, Feed, RelayRecord.Next;
    var step := RelayRecord.Next(batch, offset);
    var all := Accepted(s.c, s.n, a, batch, offset, room);
    if step.Found? && Accepts(s.c, s.n, a, step.record) {
      assert all[0] == step.record && step.record in all;
      AcceptedIsNext(s, signed, a, step.record);
      FeedKeeps(signed, a, step.record, room);
      if |step.record.data| <= room {
        var a' := Feed(a, step.record, room);
        assert !a'.ended by { FeedGoesOn(a, step.record, room); }
        var rest := Accepted(s.c, s.n, a', batch, step.next, room - |step.record.data|);
        assert all == [step.record] + rest;
        assert forall r :: r in rest ==> r in all;
        DownKeeps(s, signed, a', batch, step.next, room - |step.record.data|);
      }
    }
  }

  lemma FeedGoesOn(a: Agent, r: Record, room: nat)
    requires |r.data| <= room
    ensures !Feed(a, r, room).ended
  {
  }

  /** More signed chunks change nothing for what was fed. */
  lemma AgentKept(signed: seq<Chunk>, added: seq<Chunk>, a: Agent)
    requires AgentOk(signed, a)
    ensures AgentOk(signed + added, a)
  {
    SumKept(signed, added, |signed|);
    SumPrefix(signed + added, |signed|, |signed + added|);
    if !a.ended {
      SumKept(signed, added, a.expected - 1);
    }
  }

  /** A flush moves the pending bytes into the signed chunks. */
  lemma FlushSum(signed: seq<Chunk>, first: nat, pending: seq<u8>)
    ensures var all := signed + Numbered(first, Chunks(pending));
            Sum(all, |all|) + [] == Sum(signed, |signed|) + pending
  {
    hide Chunks;
    SumNumbered(signed, first, Chunks(pending));
    ChunksJoin(pending);
  }

  lemma FlushKeeps(s: Setting, w: World, o: Outcome)
    requires Inv(w) && (!w.broken || w.op.pending == [])
    ensures Inv(Next(s, w, Flush(o)))
  {
    hide Chunks, Sum, AgentOk;
    var added := Released(w.op, o);
    FlushSum(w.signed, w.op.downSeq, w.op.pending);
    if !w.suspect {
      AgentKept(w.signed, added, w.agent);
    }
    if w.op.pending == [] || o == SignerFailed {
      assert w.signed + added == w.signed;
    }
  }

  lemma HangupKeeps(signed: seq<Chunk>, a: Agent)
    requires AgentOk(signed, a)
    ensures AgentOk(signed, a.(ended := true))
  {
  }

  lemma StepKeeps(s: Setting, w: World, e: Event)
    requires Fresh(s) && Inv(w) && |w.signed| < 0xFFFF_FFFF
    requires e.Flush? ==> !w.broken || w.op.pending == []
    ensures Inv(Next(s, w, e))
  {
    hide Fresh, Sum, AgentOk, AnySuspect, Down;
    match e
    case Write(data) =>
      if !w.broken {
        assert Sum(w.signed, |w.signed|) + (w.op.pending + data) == w.stream + data;
      }
    case Flush(o) =>
      FlushKeeps(s, w, o);
    case Deliver(batch, room) =>
      if !w.agent.ended && !Next(s, w, e).suspect {
        DownKeeps(s, w.signed, w.agent, batch, 0, room);
      }
    case Hangup =>
      if !w.suspect {
        HangupKeeps(w.signed, w.agent);
      }
  }

  lemma {:induction false} SignedGrows(s: Setting, w: World, events: seq<Event>)
    ensures |w.signed| <= |Run(s, w, events).signed|
    decreases |events|
  {
    hide Next;
    if events != [] {
      SignedStep(s, w, events[0]);
      SignedGrows(s, Next(s, w, events[0]), events[1..]);
    }
  }

  lemma SignedStep(s: Setting, w: World, e: Event)
    ensures |w.signed| <= |Next(s, w, e).signed|
  {
  }

  lemma {:induction false} RunKeeps(s: Setting, w: World, events: seq<Event>)
    requires Fresh(s) && Inv(w) && Abandons(s, w, events) && |Run(s, w, events).signed| < 0xFFFF_FFFF
    ensures Inv(Run(s, w, events))
    decreases |events|
  {
    hide Next, Inv, Fresh;
    if events != [] {
      SignedGrows(s, w, events);
      StepKeeps(s, w, events[0]);
      RunKeeps(s, Next(s, w, events[0]), events[1..]);
    }
  }

  /**
    In every run, whatever the server does: unless a signature was forged or the hash collided, the
    bytes fed to the handlers are a prefix of what the operator wrote.
   */
  lemma FedIsPrefix(s: Setting, events: seq<Event>)
    requires Fresh(s) && Abandons(s, START, events) && |Run(s, START, events).signed| < 0xFFFF_FFFF
    ensures var w := Run(s, START, events); w.suspect || w.agent.tunnel <= w.stream
  {
    hide Next, Fresh, Abandons, Run;
    var w := Run(s, START, events);
    RunKeeps(s, START, events);
    if !w.suspect {
      assert Sum(w.signed, |w.signed|) <= w.stream;
    }
  }
}
