/** The operator's session object: buffered writes, signed posts, and the replies. */
module RelaySession {
  import opened LittleEndian
  import opened RelayText
  import opened RelayRecord
  import opened RelayAgent
  import opened Sequences
  import opened RelayRuns

  const POST_RECORDS := 4
  const UP_MAGIC: seq<u8> := [0x56, 0x39, 0x58, 0x55]
  const UP_HEADER := 12

  /** The bodies a batch is posted in: four records each, the last one fewer. */
  ghost function Posts(rs: seq<Record>): seq<seq<u8>>
    requires forall r :: r in rs ==> WellFormed(r)
    decreases |rs|
  {
    if rs == [] then [] else [EncodeAll(First(rs, POST_RECORDS))] + Posts(After(rs, POST_RECORDS))
  }

  /** The posts together are the whole batch: no record is split, lost or repeated. */
  lemma {:induction false} PostsJoin(rs: seq<Record>)
    requires forall r :: r in rs ==> WellFormed(r)
    ensures Joined(Posts(rs)) == EncodeAll(rs)
    decreases |rs|
  {
    if rs != [] {
      PostsJoin(After(rs, POST_RECORDS));
      assert rs == First(rs, POST_RECORDS) + After(rs, POST_RECORDS);
      EncodeAllJoin(First(rs, POST_RECORDS), After(rs, POST_RECORDS));
      assert Posts(rs)[1..] == Posts(After(rs, POST_RECORDS));
    }
  }

  /** The posts of one flush, delivered whole, feed the agent exactly what was pending. */
  lemma PostsDeliver(c: Crypto, n: Names, a: Agent, pending: seq<u8>, room: nat)
    requires NamesValid(n) && forall t :: c.verify(c.sign(t), t)
    requires !a.ended && a.expected + |Chunks(pending)| < 0x1_0000_0000 && |pending| <= room
    ensures Down(c, n, a, Joined(Posts(SignAll(c, n, a.expected, Chunks(pending)))), 0, room)
      == Agent(a.expected + |Chunks(pending)|, a.tunnel + pending, false)
  {
    hide NamesValid, Chunks, SignAll, Posts, Joined, EncodeAll, Down;
    var rs := SignAll(c, n, a.expected, Chunks(pending));
    PostsJoin(rs);
    ChunksJoin(pending);
    assert [] + EncodeAll(rs) == EncodeAll(rs);
    HonestDelivery(c, n, a, [], Chunks(pending), room);
  }

  /** Where the next post ends: the lengths in the batch are followed for up to four records. */
  method PostEnd(batch: seq<u8>, offset: nat, ghost rs: seq<Record>) returns (end: nat)
    requires (forall r :: r in rs ==> WellFormed(r)) && offset < |batch| && batch[offset..] == EncodeAll(rs)
    ensures offset < end <= |batch| && batch[offset..end] == EncodeAll(First(rs, POST_RECORDS))
    ensures batch[end..] == EncodeAll(After(rs, POST_RECORDS))
  {
    hide EncodeAll, Encode, Get32;
    end := offset;
    var count := 0;
    NothingRead(batch, offset, rs);
    while end < |batch| && count < POST_RECORDS
      invariant count <= POST_RECORDS && ReadTo(batch, offset, end, rs, count)
      invariant count > 0 ==> end > offset
      decreases |batch| - end
    {
      RecordRead(batch, offset, end, rs, count);
      var length := Get32(batch, end + 8);
      end := end + 76 + length;
      count := count + 1;
    }
    PostRead(batch, offset, end, rs, count);
  }

  /** The first count records of rs have been followed, from offset up to end. */
  ghost predicate ReadTo(batch: seq<u8>, offset: nat, end: nat, rs: seq<Record>, count: nat)
    requires forall r :: r in rs ==> WellFormed(r)
  {
    && count <= |rs| && offset <= end <= |batch|
    && batch[offset..end] == EncodeAll(rs[..count]) && batch[end..] == EncodeAll(rs[count..])
  }

  lemma NothingRead(batch: seq<u8>, offset: nat, rs: seq<Record>)
    requires (forall r :: r in rs ==> WellFormed(r)) && offset <= |batch| && batch[offset..] == EncodeAll(rs)
    ensures ReadTo(batch, offset, offset, rs, 0)
  {
    assert rs[0..] == rs;
  }

  lemma RecordRead(batch: seq<u8>, offset: nat, end: nat, rs: seq<Record>, count: nat)
    requires (forall r :: r in rs ==> WellFormed(r)) && ReadTo(batch, offset, end, rs, count) && end < |batch|
    ensures end + 12 <= |batch| && ReadTo(batch, offset, end + 76 + Get32(batch, end + 8), rs, count + 1)
  {
    hide Encode, Get32;
    var rest := rs[count..];
    assert rest != [];
    LengthField(batch, end, rest);
    var n := |rest[0].data|;
    LastEncoded(rs[..count], rest[0]);
    assert rs[..count + 1] == rs[..count] + [rest[0]] && rest[1..] == rs[count + 1..];
    assert batch[offset..end + 76 + n] == batch[offset..end] + batch[end..end + 76 + n];
  }

  lemma PostRead(batch: seq<u8>, offset: nat, end: nat, rs: seq<Record>, count: nat)
    requires (forall r :: r in rs ==> WellFormed(r)) && ReadTo(batch, offset, end, rs, count)
    requires count == POST_RECORDS || (count < POST_RECORDS && end == |batch|)
    ensures batch[offset..end] == EncodeAll(First(rs, POST_RECORDS))
    ensures batch[end..] == EncodeAll(After(rs, POST_RECORDS))
  {
    hide EncodeAll, Encode;
    if count < POST_RECORDS {
      NothingLeft(rs[count..]);
    }
    assert rs[..count] == First(rs, POST_RECORDS) && rs[count..] == After(rs, POST_RECORDS);
  }

  lemma NothingLeft(rs: seq<Record>)
    requires (forall r :: r in rs ==> WellFormed(r)) && EncodeAll(rs) == []
    ensures rs == []
  {
  }

  lemma LengthField(batch: seq<u8>, at: nat, rs: seq<Record>)
    requires rs != [] && (forall r :: r in rs ==> WellFormed(r)) && at < |batch| && batch[at..] == EncodeAll(rs)
    ensures var n := |rs[0].data|;
            && at + 76 + n <= |batch| && Get32(batch, at + 8) == n
            && batch[at..at + 76 + n] == Encode(rs[0]) && batch[at + 76 + n..] == EncodeAll(rs[1..])
  {
    hide Encode, Get32, Field32;
    var e, n := Encode(rs[0]), 76 + |rs[0].data|;
    assert batch[at..][..n] == e && batch[at..][n..] == EncodeAll(rs[1..]);
    assert batch[at..at + n] == e;
    EncodeParts(rs[0]);
    SliceOfSlice(batch, at, at + n, 8, 12);
    FieldAt(batch, at + 8, |rs[0].data|);
  }

  /** How the signer and the server behave during one flush. */
  datatype Wire = Wire(signerOk: bool, postsOk: nat, nextSeq: int)

  datatype FlushResult = Idle | Closed | Done(outcome: Outcome)

  /** How a flush of count posts ends, when the batch was signed up to the number next. */
  function OutcomeOf(signed: bool, wire: Wire, count: nat, next: nat): Outcome {
    if !signed then SignerFailed
    else if wire.postsOk < count then PostFailed
    else if wire.nextSeq != next then BadAnswer
    else Sent
  }

  /** One reply to the "up" request. */
  datatype Reply = Reply(status: int, over: bool, data: seq<u8>)

  /** Where reading a reply left off, and whether it was well formed. */
  datatype Pulled = Pulled(ok: bool, upAfter: nat, inbox: seq<u8>)

  /** A reply's records in order: the next number is taken, every other number is passed over. */
  function PullFrom(data: seq<u8>, offset: nat, upAfter: nat, inbox: seq<u8>): Pulled
    decreases |data| - offset
  {
    if offset + UP_HEADER > |data| then Pulled(true, upAfter, inbox)
    else if data[offset..offset + 4] != UP_MAGIC then Pulled(false, upAfter, inbox)
    else
      var seqNo, length := Get32(data, offset + 4), Get32(data, offset + 8);
      if offset + UP_HEADER + length > |data| then Pulled(false, upAfter, inbox)
      else
        var chunk := data[offset + UP_HEADER..offset + UP_HEADER + length];
        if seqNo == upAfter + 1 then PullFrom(data, offset + UP_HEADER + length, seqNo, inbox + chunk)
        else PullFrom(data, offset + UP_HEADER + length, upAfter, inbox)
  }

  /** Every complete record of a reply carries, under its number, what the agent posted under it. */
  predicate Genuine(data: seq<u8>, offset: nat, up: seq<seq<u8>>)
    decreases |data| - offset
  {
    if offset + UP_HEADER > |data| || data[offset..offset + 4] != UP_MAGIC then true
    else
      var seqNo, length := Get32(data, offset + 4), Get32(data, offset + 8);
      if offset + UP_HEADER + length > |data| then true
      else
        && 1 <= seqNo <= |up| && up[seqNo - 1] == data[offset + UP_HEADER..offset + UP_HEADER + length]
        && Genuine(data, offset + UP_HEADER + length, up)
  }

  /** Records repeated, reordered or missing, the inbox grows by the agent's next posts and nothing else. */
  lemma {:induction false} PullFaithful(data: seq<u8>, offset: nat, upAfter: nat, inbox: seq<u8>, up: seq<seq<u8>>)
    requires upAfter <= |up| && Genuine(data, offset, up)
    ensures var p := PullFrom(data, offset, upAfter, inbox);
            upAfter <= p.upAfter <= |up| && p.inbox == inbox + Joined(up[upAfter..p.upAfter])
    decreases |data| - offset
  {
    hide Get32;
    assert up[upAfter..upAfter] == [];
    if offset + UP_HEADER > |data| || data[offset..offset + 4] != UP_MAGIC {
      assert inbox + [] == inbox;
    } else {
      var seqNo, length := Get32(data, offset + 4), Get32(data, offset + 8);
      if offset + UP_HEADER + length > |data| {
        assert inbox + [] == inbox;
      } else if seqNo == upAfter + 1 {
        var chunk := data[offset + UP_HEADER..offset + UP_HEADER + length];
        PullFaithful(data, offset + UP_HEADER + length, seqNo, inbox + chunk, up);
        var q := PullFrom(data, offset + UP_HEADER + length, seqNo, inbox + chunk);
        assert up[upAfter..q.upAfter][0] == chunk && up[upAfter..q.upAfter][1..] == up[seqNo..q.upAfter];
        assert inbox + chunk + Joined(up[seqNo..q.upAfter]) == inbox + (chunk + Joined(up[seqNo..q.upAfter]));
      } else {
        PullFaithful(data, offset + UP_HEADER + length, upAfter, inbox, up);
      }
    }
  }

  predicate UpOk(first: nat, cs: seq<seq<u8>>) {
    first + |cs| <= 0x1_0000_0000 && forall c :: c in cs ==> |c| < 0x1_0000_0000
  }

  /** A record of the way up: magic, number, length, bytes. */
  ghost function UpRecord(seqNo: u32, chunk: seq<u8>): (s: seq<u8>)
    requires |chunk| < 0x1_0000_0000
    ensures |s| == UP_HEADER + |chunk|
  {
    UP_MAGIC + Field32(seqNo) + Field32(|chunk|) + chunk
  }

  /** The agent's posts cs under the numbers from first on, as a reply carries them. */
  ghost function UpAll(first: nat, cs: seq<seq<u8>>): seq<u8>
    requires UpOk(first, cs)
    decreases |cs|
  {
    if cs == [] then [] else UpRecord(first, cs[0]) + UpAll(first + 1, cs[1..])
  }

  lemma UpFields(before: seq<u8>, seqNo: u32, chunk: seq<u8>, after: seq<u8>)
    requires |chunk| < 0x1_0000_0000
    ensures var data, at := before + UpRecord(seqNo, chunk) + after, |before|;
            && data[at..at + 4] == UP_MAGIC && Get32(data, at + 4) == seqNo && Get32(data, at + 8) == |chunk|
            && data[at + UP_HEADER..at + UP_HEADER + |chunk|] == chunk
  {
    hide Get32;
    var r := UpRecord(seqNo, chunk);
    var data, at, n := before + r + after, |before|, |r|;
    assert data[at..at + n] == r;
    SliceOfSlice(data, at, at + n, 0, 4);
    SliceOfSlice(data, at, at + n, 4, 8);
    SliceOfSlice(data, at, at + n, 8, 12);
    SliceOfSlice(data, at, at + n, 12, n);
    assert r[0..4] == UP_MAGIC && r[4..8] == Field32(seqNo) && r[8..12] == Field32(|chunk|) && r[12..n] == chunk;
    FieldAt(data, at + 4, seqNo);
    FieldAt(data, at + 8, |chunk|);
  }

  /**
    What the agent posted arrives: records under consecutive numbers, the first of them possibly received
    before, are read to the end, and every one not received yet is taken in order.
   */
  lemma {:induction false} UpArrives(before: seq<u8>, first: nat, cs: seq<seq<u8>>, upAfter: nat, inbox: seq<u8>)
    requires UpOk(first, cs) && first <= upAfter + 1
    ensures PullFrom(before + UpAll(first, cs), |before|, upAfter, inbox)
      == if first + |cs| <= upAfter + 1 then Pulled(true, upAfter, inbox)
         else Pulled(true, first + |cs| - 1, inbox + Joined(After(cs, upAfter + 1 - first)))
    decreases |cs|
  {
    hide Get32, UpRecord, Joined;
    var data := before + UpAll(first, cs);
    if cs != [] {
      var r, c, rest := UpRecord(first, cs[0]), cs[0], cs[1..];
      assert c in cs;
      assert data == (before + r) + UpAll(first + 1, rest);
      UpFields(before, first, c, UpAll(first + 1, rest));
      if first == upAfter + 1 {
        UpArrives(before + r, first + 1, rest, first, inbox + c);
        JoinedRest(cs, inbox);
      } else {
        UpArrives(before + r, first + 1, rest, upAfter, inbox);
        assert After(cs, upAfter + 1 - first) == After(rest, upAfter - first);
      }
    }
  }

  lemma JoinedRest(cs: seq<seq<u8>>, inbox: seq<u8>)
    requires cs != []
    ensures inbox + Joined(After(cs, 0)) == (inbox + cs[0]) + Joined(After(cs[1..], 0))
    ensures |cs| == 1 ==> inbox + Joined(After(cs, 0)) == inbox + cs[0]
  {
    assert After(cs, 0) == cs;
    assert After(cs[1..], 0) == cs[1..];
    assert (inbox + cs[0]) + Joined(cs[1..]) == inbox + (cs[0] + Joined(cs[1..]));
  }

  /** Where waiting for bytes ends: with some, or with the deadline or a failure; over when a reply closed the session. */
  datatype Waited = Waited(ok: bool, upAfter: nat, inbox: seq<u8>, over: bool)

  function WaitFor(replies: seq<Reply>, upAfter: nat, inbox: seq<u8>): (w: Waited)
    ensures w.ok ==> w.inbox != []
    decreases |replies|
  {
    if inbox != [] then Waited(true, upAfter, inbox, false)
    else if replies == [] || replies[0].status != 200 then Waited(false, upAfter, inbox, false)
    else
      var p := PullFrom(replies[0].data, 0, upAfter, inbox);
      if !p.ok || (replies[0].over && p.inbox == []) then Waited(false, p.upAfter, p.inbox, p.ok)
      else WaitFor(replies[1..], p.upAfter, p.inbox)
  }

  /** A reply with nothing in it. */
  predicate Quiet(r: Reply) {
    r.status == 200 && !r.over && r.data == []
  }

  /**
    The caller gets what was posted: after any number of quiet replies, one that carries consecutive
    posts, some of them not received yet and not all empty, ends the wait with exactly those.
   */
  lemma {:induction false} WaitBrings(quiet: seq<Reply>, r: Reply, later: seq<Reply>, first: nat, cs: seq<seq<u8>>, upAfter: nat)
    requires (forall q :: q in quiet ==> Quiet(q)) && r.status == 200
    requires UpOk(first, cs) && r.data == UpAll(first, cs) && first <= upAfter + 1 < first + |cs|
    requires Joined(After(cs, upAfter + 1 - first)) != []
    ensures WaitFor(quiet + [r] + later, upAfter, [])
      == Waited(true, first + |cs| - 1, Joined(After(cs, upAfter + 1 - first)), false)
    decreases |quiet|
  {
    hide UpAll, Joined;
    var replies := quiet + [r] + later;
    if quiet == [] {
      UpArrives([], first, cs, upAfter, []);
      assert [] + r.data == r.data;
      assert [] + Joined(After(cs, upAfter + 1 - first)) == Joined(After(cs, upAfter + 1 - first));
    } else {
      assert quiet[0] in quiet;
      assert replies[1..] == quiet[1..] + [r] + later;
      WaitBrings(quiet[1..], r, later, first, cs, upAfter);
    }
  }

  class RelaySession {
    const c: Crypto
    const names: Names
    var pending: seq<u8>
    var inbox: seq<u8>
    var downSeq: nat
    var upAfter: nat
    var closed: bool

    ghost function Op(): Operator
      reads this
    {
      Operator(pending, downSeq)
    }

    /** What the signer's command line can carry: names without a NUL and a number above zero. */
    ghost predicate ArgumentsOk()
      reads `downSeq
    {
      downSeq > 0 && NoNul(names.machine) && NoNul(names.install) && NoNul(names.nonce) && NoNul(names.session)
    }

    constructor (c: Crypto, names: Names)
      ensures Op() == START.op && inbox == [] && upAfter == 0 && !closed && this.c == c && this.names == names
    {
      this.c := c;
      this.names := names;
      pending, inbox := [], [];
      downSeq, upAfter := 1, 0;
      closed := false;
    }

    /** Buffer bytes for the next flush. */
    method SendAll(data: seq<u8>) returns (ok: bool)
      modifies `pending
      ensures ok <==> !closed
      ensures pending == if ok then old(pending) + data else old(pending)
    {
      if closed {
        return false;
      }
      pending := pending + data;
      return true;
    }

    /** Sign everything pending and post it a few records at a time. */
    method Flush(wire: Wire) returns (result: FlushResult, posts: seq<seq<u8>>)
      requires ArgumentsOk()
      modifies `pending, `downSeq
      ensures result.Idle? <==> old(pending) == []
      ensures result.Closed? <==> old(pending) != [] && closed
      ensures !result.Done? ==> Op() == old(Op()) && posts == []
      ensures result.Done? ==>
                var all := Posts(SignAll(c, names, old(downSeq), Chunks(old(pending))));
                var signed := wire.signerOk && NamesValid(names);
                && result.outcome == OutcomeOf(signed, wire, |all|, old(downSeq) + |Chunks(old(pending))|)
                && posts == (if signed then First(all, wire.postsOk) else [])
                && Op() == FlushOp(old(Op()), result.outcome)
    {
      hide Chunks, SignAll, Posts, NamesValid, NoNul, OutcomeOf, First;
      if pending == [] {
        return Idle, [];
      }
      if closed {
        return Closed, [];
      }
      var data := pending;
      pending := [];
      var outcome;
      outcome, posts := SignAndPost(data, wire);
      return Done(outcome), posts;
    }

    /** Run the signer, post the batch, and only then move the number on and look at the answer. */
    method SignAndPost(data: seq<u8>, wire: Wire) returns (outcome: Outcome, posts: seq<seq<u8>>)
      requires ArgumentsOk() && data != []
      modifies `downSeq
      ensures var all := Posts(SignAll(c, names, old(downSeq), Chunks(data)));
              var signed := wire.signerOk && NamesValid(names);
              var next := old(downSeq) + |Chunks(data)|;
              && outcome == OutcomeOf(signed, wire, |all|, next)
              && posts == (if signed then First(all, wire.postsOk) else [])
              && downSeq == (if outcome == Sent || outcome == BadAnswer then next else old(downSeq))
    {
      hide Chunks, SignAll, Posts, NamesValid, NoNul, First;
      if !wire.signerOk {
        return SignerFailed, [];
      }
      var ok, batch, next := SignRelay(c, names, downSeq, data);
      if !ok {
        return SignerFailed, [];
      }
      var posted;
      posted, posts := PostAll(batch, wire.postsOk, SignAll(c, names, downSeq, Chunks(data)));
      if !posted {
        return PostFailed, posts;
      }
      downSeq := next;
      return if wire.nextSeq != next then BadAnswer else Sent, posts;
    }

    /** Post a batch; the server takes postsOk bodies and then fails. */
    method PostAll(batch: seq<u8>, postsOk: nat, ghost rs: seq<Record>) returns (ok: bool, posts: seq<seq<u8>>)
      requires (forall r :: r in rs ==> WellFormed(r)) && batch == EncodeAll(rs)
      ensures ok <==> |Posts(rs)| <= postsOk
      ensures posts == First(Posts(rs), postsOk)
    {
      hide EncodeAll;
      posts := [];
      var offset := 0;
      ghost var rest := rs;
      assert batch[0..] == batch;
      while offset < |batch|
        invariant offset <= |batch| && |posts| <= postsOk
        invariant (forall r :: r in rest ==> WellFormed(r)) && batch[offset..] == EncodeAll(rest)
        invariant posts + Posts(rest) == Posts(rs)
      {
        var end := PostEnd(batch, offset, rest);
        NonEmptyPosts(batch[offset..], rest);
        if |posts| >= postsOk {
          return false, posts;
        }
        ghost var one := EncodeAll(First(rest, POST_RECORDS));
        assert posts + ([one] + Posts(After(rest, POST_RECORDS))) == (posts + [one]) + Posts(After(rest, POST_RECORDS));
        posts := posts + [batch[offset..end]];
        rest := After(rest, POST_RECORDS);
        offset := end;
      }
      NothingLeft(rest);
      return true, posts;
    }

    /** Read one reply of the server into the inbox. */
    method Pull(reply: Reply) returns (ok: bool)
      modifies `inbox, `upAfter, `closed
      ensures reply.status != 200 ==> !ok && inbox == old(inbox) && upAfter == old(upAfter) && closed == old(closed)
      ensures reply.status == 200 ==>
                var p := PullFrom(reply.data, 0, old(upAfter), old(inbox));
                && inbox == p.inbox && upAfter == p.upAfter
                && (ok <==> p.ok && !(reply.over && inbox == []))
                && (closed <==> old(closed) || (p.ok && reply.over && inbox == []))
    {
      hide Get32;
      if reply.status != 200 {
        return false;
      }
      var data := reply.data;
      var offset := 0;
      while offset + UP_HEADER <= |data|
        invariant PullFrom(data, offset, upAfter, inbox) == PullFrom(data, 0, old(upAfter), old(inbox))
        invariant closed == old(closed)
        decreases |data| - offset
      {
        if data[offset..offset + 4] != UP_MAGIC {
          return false;
        }
        var seqNo, length: nat := Get32(data, offset + 4), Get32(data, offset + 8);
        var end := if offset + UP_HEADER + length <= |data| then offset + UP_HEADER + length else |data|;
        var chunk := data[offset + UP_HEADER..end];
        if |chunk| != length {
          return false;
        }
        if seqNo == upAfter + 1 {
          inbox := inbox + chunk;
          upAfter := seqNo;
        }
        offset := offset + UP_HEADER + length;
      }
      if reply.over && inbox == [] {
        closed := true;
        return false;
      }
      return true;
    }

    /**
      Flush, then wait for bytes and hand out at most count of them; replies are the server's answers
      until the deadline. taken is everything handed out before: with genuine replies the caller reads
      exactly the agent's posts, in order, and nothing at all when the flush raises.
     */
    method Recv(wire: Wire, count: nat, replies: seq<Reply>, ghost taken: seq<u8>, ghost up: seq<seq<u8>>)
      returns (result: FlushResult, posts: seq<seq<u8>>, ok: bool, piece: seq<u8>)
      requires ArgumentsOk() && upAfter <= |up| && taken + inbox == Joined(up[..upAfter])
      requires forall r :: r in replies ==> Genuine(r.data, 0, up)
      modifies `pending, `downSeq, `inbox, `upAfter, `closed
      ensures result.Idle? <==> old(pending) == []
      ensures Op() == if result.Done? then FlushOp(old(Op()), result.outcome) else old(Op())
      ensures result != Idle && result != Done(Sent) ==>
                !ok && piece == [] && inbox == old(inbox) && upAfter == old(upAfter) && closed == old(closed)
      ensures result == Idle || result == Done(Sent) ==>
                var w := WaitFor(replies, old(upAfter), old(inbox));
                && ok == w.ok && upAfter == w.upAfter && (closed <==> old(closed) || w.over)
                && piece == (if ok then First(w.inbox, count) else [])
                && inbox == (if ok then After(w.inbox, count) else w.inbox)
      ensures old(upAfter) <= upAfter <= |up| && taken + piece + inbox == Joined(up[..upAfter])
    {
      hide Joined, Genuine, Posts, SignAll, Chunks, OutcomeOf, First, After, FlushOp, NoNul, WaitFor;
      result, posts := Flush(wire);
      assert taken + [] + inbox == taken + inbox;
      if result != Idle && result != Done(Sent) {
        return result, posts, false, [];
      }
      WaitFaithful(replies, upAfter, inbox, taken, up);
      ghost var w := WaitFor(replies, upAfter, inbox);
      ok, piece := Receive(count, replies);
      HandedOut(taken, w.inbox, count);
      assert taken + [] + w.inbox == taken + w.inbox;
    }

    method Receive(count: nat, replies: seq<Reply>) returns (ok: bool, piece: seq<u8>)
      modifies `inbox, `upAfter, `closed
      ensures var w := WaitFor(replies, old(upAfter), old(inbox));
              && ok == w.ok && upAfter == w.upAfter && (closed <==> old(closed) || w.over)
              && piece == (if ok then First(w.inbox, count) else [])
              && inbox == (if ok then After(w.inbox, count) else w.inbox)
    {
      hide PullFrom;
      var k := 0;
      assert replies[0..] == replies;
      while inbox == []
        invariant 0 <= k <= |replies| && closed == old(closed)
        invariant WaitFor(replies[k..], upAfter, inbox) == WaitFor(replies, old(upAfter), old(inbox))
        decreases |replies| - k
      {
        if k == |replies| {
          return false, [];
        }
        assert replies[k..][0] == replies[k] && replies[k..][1..] == replies[k + 1..];
        ok := Pull(replies[k]);
        if !ok {
          return false, [];
        }
        k := k + 1;
      }
      piece := First(inbox, count);
      inbox := After(inbox, count);
      return true, piece;
    }
  }

  lemma HandedOut(taken: seq<u8>, inbox: seq<u8>, count: nat)
    ensures taken + First(inbox, count) + After(inbox, count) == taken + inbox
  {
    assert First(inbox, count) + After(inbox, count) == inbox;
  }

  /** Genuine replies keep the bytes received equal to the agent's posts so far. */
  lemma {:induction false} WaitFaithful(replies: seq<Reply>, upAfter: nat, inbox: seq<u8>, taken: seq<u8>, up: seq<seq<u8>>)
    requires upAfter <= |up| && taken + inbox == Joined(up[..upAfter])
    requires forall r :: r in replies ==> Genuine(r.data, 0, up)
    ensures var w := WaitFor(replies, upAfter, inbox);
            upAfter <= w.upAfter <= |up| && taken + w.inbox == Joined(up[..w.upAfter])
    decreases |replies|
  {
    hide PullFrom, Joined, Genuine;
    if inbox == [] && replies != [] && replies[0].status == 200 {
      var p := PullFrom(replies[0].data, 0, upAfter, inbox);
      PullFaithful(replies[0].data, 0, upAfter, inbox, up);
      assert up[..p.upAfter] == up[..upAfter] + up[upAfter..p.upAfter];
      JoinedJoin(up[..upAfter], up[upAfter..p.upAfter]);
      assert taken + p.inbox == (taken + inbox) + Joined(up[upAfter..p.upAfter]);
      WaitFaithful(replies[1..], p.upAfter, p.inbox, taken, up);
    }
  }

  lemma NonEmptyPosts(rest: seq<u8>, rs: seq<Record>)
    requires (forall r :: r in rs ==> WellFormed(r)) && rest == EncodeAll(rs) && rest != []
    ensures rs != [] && |Posts(rs)| >= 1
  {
  }
}
