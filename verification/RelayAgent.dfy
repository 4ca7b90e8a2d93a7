/** The agent's side of the tunnel: verify each record, and only then feed it. */
module RelayAgent {
  import opened LittleEndian
  import opened RelayText
  import opened RelayRecord
  import opened Sequences

  /** The next sequence number wanted, the bytes fed so far, and whether the session is over. */
  datatype Agent = Agent(expected: u32, tunnel: seq<u8>, ended: bool)

  predicate Verified(c: Crypto, n: Names, r: Record) {
    NamesValid(n) && c.verify(r.signature, Statement(c, n, r.seqNo, r.data))
  }

  predicate Accepts(c: Crypto, n: Names, a: Agent, r: Record) {
    r.seqNo == a.expected && Verified(c, n, r)
  }

  /** The next 32-bit sequence number. */
  function Successor(seqNo: u32): u32 {
    if seqNo == 0xFFFF_FFFF then 0 else seqNo + 1
  }

  /** Feed one accepted record to a tunnel that takes room more bytes before it fails. */
  function Feed(a: Agent, r: Record, room: nat): Agent {
    if |r.data| <= room then Agent(Successor(a.expected), a.tunnel + r.data, false)
    else Agent(a.expected, a.tunnel + r.data[..room], true)
  }

  /** The agent after one reply of the server. */
  function Down(c: Crypto, n: Names, a: Agent, batch: seq<u8>, offset: nat, room: nat): Agent
    decreases |batch| - offset
  {
    match Next(batch, offset)
    case End => a
    case Bad => a.(ended := true)
    case Found(r, next) =>
      if !Accepts(c, n, a, r) then a.(ended := true)
      else if |r.data| > room then Feed(a, r, room)
      else Down(c, n, Feed(a, r, room), batch, next, room - |r.data|)
  }

  /** The records of a reply that the agent feeds, whole or in part. */
  function Accepted(c: Crypto, n: Names, a: Agent, batch: seq<u8>, offset: nat, room: nat): seq<Record>
    decreases |batch| - offset
  {
    match Next(batch, offset)
    case End => []
    case Bad => []
    case Found(r, next) =>
      if !Accepts(c, n, a, r) then []
      else if |r.data| > room then [r]
      else [r] + Accepted(c, n, Feed(a, r, room), batch, next, room - |r.data|)
  }

  /** The answer to a "down" request; a call that failed has no status 200. */
  datatype Answer = Answer(status: int, over: bool, batch: seq<u8>)

  /** The agent after one answer: nothing new, the session over, or a batch to feed. */
  function Handled(c: Crypto, n: Names, a: Agent, answer: Answer, room: nat): Agent {
    if answer.status != 200 then a
    else if answer.over then a.(ended := true)
    else Down(c, n, a, answer.batch, 0, room)
  }

  method RelayVerify(c: Crypto, n: Names, r: Record) returns (ok: bool)
    requires NoNul(n.machine) && NoNul(n.install) && NoNul(n.nonce) && NoNul(n.session)
    ensures ok <==> Verified(c, n, r)
  {
    hide NamesValid, Text;
    var message := new char[MESSAGE_MAX](i => '\0');
    var length;
    ok, length := Message(n, r.seqNo, c.hash(r.data), message);
    if !ok {
      return false;
    }
    return c.verify(r.signature, message[..length]);
  }

  /** One session of the agent. */
  class AgentSession {
    const c: Crypto
    const names: Names
    var expected: u32
    var tunnel: seq<u8>
    var ended: bool

    ghost function Abs(): Agent
      reads this
    {
      Agent(expected, tunnel, ended)
    }

    constructor (c: Crypto, names: Names)
      ensures Abs() == Agent(1, [], false) && this.c == c && this.names == names
    {
      this.c := c;
      this.names := names;
      expected := 1;
      tunnel := [];
      ended := false;
    }

    /** Hand bytes to the loopback, which may close after room of them. */
    method SendAll(data: seq<u8>, room: nat) returns (ok: bool)
      modifies `tunnel
      ensures ok <==> |data| <= room
      ensures tunnel == old(tunnel) + if ok then data else data[..room]
    {
      ok := |data| <= room;
      if ok {
        tunnel := tunnel + data;
      } else {
        tunnel := tunnel + data[..room];
      }
    }

    /** One answer of the server to the "down" request. */
    method HandleDown(answer: Answer, room: nat)
      requires !ended && NoNul(names.machine) && NoNul(names.install) && NoNul(names.nonce) && NoNul(names.session)
      modifies `expected, `tunnel, `ended
      ensures Abs() == Handled(c, names, old(Abs()), answer, room)
    {
      hide Next, Verified;
      if answer.status != 200 {
        return;
      }
      if answer.over {
        ended := true;
        return;
      }
      var offset: nat, left: nat := 0, room;
      while true
        invariant !ended
        invariant Down(c, names, Abs(), answer.batch, offset, left) == Down(c, names, old(Abs()), answer.batch, 0, room)
        decreases |answer.batch| - offset
      {
        var step := RelayNext(answer.batch, offset);
        if step.End? {
          return;
        }
        var ok := false;
        if step.Found? && step.record.seqNo == expected {
          ok := RelayVerify(c, names, step.record);
        }
        if !ok {
          ended := true;
          return;
        }
        var sent := SendAll(step.record.data, left);
        if !sent {
          ended := true;
          return;
        }
        expected := Successor(expected);
        offset, left := step.next, left - |step.record.data|;
      }
    }
  }

  /** Whatever the server sends, what was fed before stays fed. */
  lemma {:induction false} DownExtends(c: Crypto, n: Names, a: Agent, batch: seq<u8>, offset: nat, room: nat)
    ensures a.tunnel <= Down(c, n, a, batch, offset, room).tunnel
    decreases |batch| - offset
  {
    hide Next, Accepts;
    var s := Next(batch, offset);
    if s.Found? && Accepts(c, n, a, s.record) && |s.record.data| <= room {
      DownExtends(c, n, Feed(a, s.record, room), batch, s.next, room - |s.record.data|);
    }
  }

  /** Records of an honest operator, delivered whole, feed exactly the data they carry. */
  lemma {:induction false} HonestDelivery(c: Crypto, n: Names, a: Agent, before: seq<u8>, cs: seq<seq<u8>>, room: nat)
    requires NamesValid(n) && forall t :: c.verify(c.sign(t), t)
    requires !a.ended && a.expected + |cs| < 0x1_0000_0000 && |Joined(cs)| <= room
    requires forall x :: x in cs ==> 1 <= |x| <= CHUNK_MAX
    ensures Down(c, n, a, before + EncodeAll(SignAll(c, n, a.expected, cs)), |before|, room)
      == Agent(a.expected + |cs|, a.tunnel + Joined(cs), false)
    decreases |cs|
  {
    hide Next, Encode, EncodeAll, NamesValid, SignAll, Signed, Accepts, Down;
    var rs := SignAll(c, n, a.expected, cs);
    var batch := before + EncodeAll(rs);
    if cs == [] {
      assert EncodeAll(rs) == [] by { NothingSigned(c, n, a.expected); }
      assert batch == before;
      AtEnd(batch);
      EndOfBatch(c, n, a, batch, room);
      assert a.tunnel + [] == a.tunnel;
    } else {
      var r := rs[0];
      SignRest(c, n, a.expected, cs);
      FirstRecord(before, rs);
      SignedIsAccepted(c, n, a, cs[0]);
      FedRecord(c, n, a, batch, |before|, room);
      var a' := Agent(a.expected + 1, a.tunnel + cs[0], false);
      HonestDelivery(c, n, a', before + Encode(r), cs[1..], room - |cs[0]|);
      assert a.tunnel + cs[0] + Joined(cs[1..]) == a.tunnel + Joined(cs);
    }
  }

  lemma EndOfBatch(c: Crypto, n: Names, a: Agent, batch: seq<u8>, room: nat)
    requires Next(batch, |batch|) == End
    ensures Down(c, n, a, batch, |batch|, room) == a
  {
  }

  lemma FedRecord(c: Crypto, n: Names, a: Agent, batch: seq<u8>, offset: nat, room: nat)
    requires Next(batch, offset).Found? && a.expected < 0xFFFF_FFFF
    requires var r := Next(batch, offset).record; Accepts(c, n, a, r) && |r.data| <= room
    ensures var s := Next(batch, offset);
            Down(c, n, a, batch, offset, room)
              == Down(c, n, Agent(a.expected + 1, a.tunnel + s.record.data, false), batch, s.next,
                      room - |s.record.data|)
  {
    hide Next, Accepts;
  }

  lemma SignedIsAccepted(c: Crypto, n: Names, a: Agent, x: seq<u8>)
    requires NamesValid(n) && (forall t :: c.verify(c.sign(t), t)) && 1 <= |x| <= CHUNK_MAX
    ensures Accepts(c, n, a, Signed(c, n, a.expected, x)) && Signed(c, n, a.expected, x).data == x
  {
    hide NamesValid;
  }

  lemma SignRest(c: Crypto, n: Names, first: nat, cs: seq<seq<u8>>)
    requires cs != [] && forall x :: x in cs ==> 1 <= |x| <= CHUNK_MAX
    ensures SignAll(c, n, first, cs)[0] == Signed(c, n, first, cs[0])
    ensures SignAll(c, n, first, cs)[1..] == SignAll(c, n, first + 1, cs[1..])
  {
    hide Signed;
    var a, b := SignAll(c, n, first, cs)[1..], SignAll(c, n, first + 1, cs[1..]);
    forall i | 0 <= i < |b|
      ensures a[i] == b[i]
    {
      assert b[i] == Signed(c, n, (first + 1) + i, cs[1..][i]);
    }
  }

  lemma FirstRecord(before: seq<u8>, rs: seq<Record>)
    requires rs != [] && forall r :: r in rs ==> WellFormed(r)
    ensures Next(before + EncodeAll(rs), |before|) == Found(rs[0], |before| + |Encode(rs[0])|)
    ensures before + EncodeAll(rs) == (before + Encode(rs[0])) + EncodeAll(rs[1..])
  {
    hide Next, Encode;
    var batch, e := before + EncodeAll(rs), Encode(rs[0]);
    assert batch == before + e + EncodeAll(rs[1..]);
    assert batch[|before|..|before| + |e|] == e;
    NextIff(batch, |before|, rs[0]);
  }
}
