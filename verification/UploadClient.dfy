/** The host's half of an upload: chunks in flight up to a window. */
module UploadClient {
  import opened LittleEndian
  import opened UploadAgent
  import opened Wrappers

  /** data is what the second pass reads; crc is what the first pass computed. */
  datatype Job = Job(data: seq<u8>, crc: u32, path: string, window: nat)

  datatype Phase = Start | AwaitReady | LoopHead | Filling | AwaitAck | AwaitDone | Done | Failed

  datatype Client = Client(phase: Phase, offset: nat, acked: nat, inFlight: seq<nat>)

  const BEGIN := Client(Start, 0, 0, [])

  /** One thing that happens to the client: it goes on, a local read returning at most count bytes, or a reply arrives. */
  datatype Input = Move(count: nat) | Got(reply: Reply)

  datatype Turn = Turn(client: Client, sent: seq<Request>)

  function Waits(p: Phase): bool {
    p == AwaitReady || p == AwaitAck || p == AwaitDone
  }

  function Reads(j: Job, offset: nat, count: nat): (n: nat)
    requires offset <= |j.data|
    ensures n <= |j.data| - offset && n <= CHUNK_SIZE
  {
    Min(count, Min(CHUNK_SIZE, |j.data| - offset))
  }

  function Go(j: Job, c: Client, count: nat): Turn
    requires c.offset <= |j.data|
  {
    match c.phase
    case Start =>
      if |j.data| > MAX_FILE then Turn(c.(phase := Failed), [])
      else Turn(c.(phase := AwaitReady), [Open(j.path, |j.data|, j.crc)])
    case LoopHead =>
      if c.acked >= |j.data| then Turn(c.(phase := AwaitDone), [Commit])
      else Turn(c.(phase := if |c.inFlight| <= j.window / 2 then Filling else AwaitAck), [])
    case Filling =>
      if c.offset < |j.data| && |c.inFlight| < j.window then
        var n := Reads(j, c.offset, count);
        if n == 0 then Turn(c.(phase := Failed), [])
        else
          Turn(Client(Filling, c.offset + n, c.acked, c.inFlight + [c.offset + n]),
               [Chunk(c.offset, j.data[c.offset..c.offset + n])])
      else Turn(c.(phase := AwaitAck), [])
    case _ => Turn(c, [])
  }

  function Take(j: Job, c: Client, r: Reply): Client {
    match c.phase
    case AwaitReady => c.(phase := if r == Ready(|j.data|, j.crc) then LoopHead else Failed)
    case AwaitAck =>
      if c.inFlight == [] || !r.Ack? then c.(phase := Failed)
      else
        Client(if r == Ack(c.inFlight[0]) then LoopHead else Failed, c.offset, c.inFlight[0], c.inFlight[1..])
    case AwaitDone => c.(phase := if r == Complete(|j.data|, j.crc) then Done else Failed)
    case _ => c
  }

  /** The ends of the chunks in flight: increasing, from the last one acknowledged to the last one sent. */
  predicate Outstanding(c: Client) {
    && (forall i :: 0 <= i < |c.inFlight| ==> c.acked < c.inFlight[i] <= c.offset)
    && (forall i, k :: 0 <= i < k < |c.inFlight| ==> c.inFlight[i] < c.inFlight[k])
    && c.offset == if c.inFlight == [] then c.acked else c.inFlight[|c.inFlight| - 1]
  }

  /** What every client step keeps; in particular an acknowledgement is only awaited with a chunk in flight. */
  predicate ClientInv(j: Job, c: Client) {
    && c.offset <= |j.data| && |c.inFlight| <= j.window && Outstanding(c)
    && (c.phase.Start? || c.phase.AwaitReady? ==> c.offset == 0 && c.inFlight == [])
    && (c.phase.Filling? ==> c.acked < |j.data|)
    && (c.phase.AwaitAck? ==> c.inFlight != [] && c.acked < |j.data|)
    && (c.phase.AwaitDone? || c.phase.Done? ==> c.offset == c.acked == |j.data| && c.inFlight == [])
  }

  lemma GoKeeps(j: Job, c: Client, count: nat)
    requires j.window >= 1 && ClientInv(j, c)
    ensures ClientInv(j, Go(j, c, count).client)
  {
  }

  lemma TakeKeeps(j: Job, c: Client, r: Reply)
    requires j.window >= 1 && ClientInv(j, c)
    ensures ClientInv(j, Take(j, c, r))
  {
  }

  /** The client after a sequence of inputs, and all it has sent. */
  function Session(j: Job, inputs: seq<Input>): (t: Turn)
    requires j.window >= 1
    ensures ClientInv(j, t.client)
  {
    if inputs == [] then Turn(BEGIN, [])
    else
      var t := Session(j, inputs[..|inputs| - 1]);
      match inputs[|inputs| - 1]
      case Move(count) =>
        GoKeeps(j, t.client, count);
        var u := Go(j, t.client, count);
        Turn(u.client, t.sent + u.sent)
      case Got(r) =>
        TakeKeeps(j, t.client, r);
        Turn(Take(j, t.client, r), t.sent)
  }

  /** The replies among the inputs. */
  function Replies(inputs: seq<Input>): seq<Reply> {
    if inputs == [] then []
    else
      Replies(inputs[..|inputs| - 1]) + if inputs[|inputs| - 1].Got? then [inputs[|inputs| - 1].reply] else []
  }

  /** The whole upload as one run of the client's code, against whatever replies arrive. */
  class PutStream {
    const j: Job
    var offset: nat
    var acked: nat
    var inFlight: seq<nat>
    var sent: seq<Request>
    var taken: nat
    ghost var inputs: seq<Input>

    ghost predicate At(phase: Phase, replies: seq<Reply>)
      reads this
    {
      && j.window >= 1 && taken <= |replies| && Replies(inputs) == replies[..taken]
      && Session(j, inputs) == Turn(Client(phase, offset, acked, inFlight), sent)
    }

    constructor (j: Job)
      requires j.window >= 1
      ensures this.j == j && At(Start, [])
    {
      this.j := j;
      offset, acked, inFlight, sent, taken := 0, 0, [], [], 0;
      inputs := [];
    }

    /** Wait for a reply; none means the connection is gone. */
    method Expect(replies: seq<Reply>, ghost phase: Phase) returns (r: Option<Reply>)
      requires At(phase, replies) && Waits(phase)
      modifies `taken, `inputs
      ensures r.None? ==> At(phase, replies) && taken == |replies|
      ensures r.Some? ==> old(taken) < |replies| && taken == old(taken) + 1 && r.value == replies[old(taken)]
      ensures r.Some? ==> inputs == old(inputs) + [Got(r.value)] && Replies(inputs) == replies[..taken]
    {
      if taken == |replies| {
        return None;
      }
      r := Some(replies[taken]);
      inputs := inputs + [Got(r.value)];
      assert inputs[..|inputs| - 1] == old(inputs);
      taken := taken + 1;
    }

    /** Send chunks while there is room in the window; available says how much a local read returns at most. */
    method Fill(available: nat -> nat, replies: seq<Reply>) returns (phase: Phase)
      requires At(Filling, replies)
      modifies `offset, `inFlight, `sent, `inputs
      ensures At(phase, replies) && (phase == AwaitAck || phase == Failed)
    {
      hide Session, ClientInv, Replies, Reads;
      SessionMove(j, inputs, 0);
      while offset < |j.data| && |inFlight| < j.window
        invariant At(Filling, replies) && offset <= |j.data|
        decreases |j.data| - offset
      {
        var n := Reads(j, offset, available(offset));
        SessionMove(j, inputs, available(offset));
        inputs := inputs + [Move(available(offset))];
        if n == 0 {
          return Failed;
        }
        sent := sent + [Chunk(offset, j.data[offset..offset + n])];
        offset := offset + n;
        inFlight := inFlight + [offset];
      }
      SessionMove(j, inputs, 0);
      inputs := inputs + [Move(0)];
      return AwaitAck;
    }

    /** The whole of one upload: it ends done, refused, or with the connection gone while waiting. */
    method Run(available: nat -> nat, replies: seq<Reply>) returns (phase: Phase)
      requires At(Start, []) && taken == 0
      modifies this
      ensures At(phase, replies)
      ensures phase == Done || phase == Failed || (Waits(phase) && taken == |replies|)
    {
      hide Session, ClientInv;
      phase := Greet(replies);
      if phase != LoopHead {
        return;
      }
      while acked < |j.data|
        invariant At(LoopHead, replies)
        decreases |replies| - taken
      {
        var refill := |inFlight| <= j.window / 2;
        SessionMove(j, inputs, 0);
        inputs := inputs + [Move(0)];
        if refill {
          phase := Fill(available, replies);
          if phase == Failed {
            return;
          }
        }
        phase := TakeAck(replies);
        if phase != LoopHead {
          return;
        }
      }
      phase := Finish(replies);
    }

    /** Ask for the upload and wait for the echo of size and CRC. */
    method Greet(replies: seq<Reply>) returns (phase: Phase)
      requires At(Start, []) && taken == 0
      modifies `sent, `taken, `inputs
      ensures At(phase, replies)
      ensures phase == LoopHead || phase == Failed || (Waits(phase) && taken == |replies|)
    {
      hide Session, ClientInv;
      SessionMove(j, inputs, 0);
      inputs := inputs + [Move(0)];
      if |j.data| > MAX_FILE {
        return Failed;
      }
      sent := sent + [Open(j.path, |j.data|, j.crc)];
      assert replies[..0] == [];
      ghost var before := inputs;
      var r := Expect(replies, AwaitReady);
      if r.None? {
        return AwaitReady;
      }
      SessionGot(j, before, r.value);
      return if r.value == Ready(|j.data|, j.crc) then LoopHead else Failed;
    }

    /** Wait for the oldest chunk's acknowledgement. */
    method TakeAck(replies: seq<Reply>) returns (phase: Phase)
      requires At(AwaitAck, replies)
      modifies `acked, `inFlight, `taken, `inputs
      ensures At(phase, replies)
      ensures phase == LoopHead || phase == Failed || (Waits(phase) && taken == |replies|)
      ensures phase == LoopHead ==> taken > old(taken)
    {
      hide Session;
      ghost var before := inputs;
      var r := Expect(replies, AwaitAck);
      if r.None? {
        return AwaitAck;
      }
      SessionGot(j, before, r.value);
      if !r.value.Ack? {
        return Failed;
      }
      acked, inFlight := inFlight[0], inFlight[1..];
      return if r.value == Ack(acked) then LoopHead else Failed;
    }

    /** Commit, and wait for the confirmation of size and CRC. */
    method Finish(replies: seq<Reply>) returns (phase: Phase)
      requires At(LoopHead, replies) && acked >= |j.data|
      modifies `sent, `taken, `inputs
      ensures At(phase, replies)
      ensures phase == Done || phase == Failed || (Waits(phase) && taken == |replies|)
    {
      hide Session, ClientInv;
      SessionMove(j, inputs, 0);
      inputs := inputs + [Move(0)];
      sent := sent + [Commit];
      ghost var before := inputs;
      var r := Expect(replies, AwaitDone);
      if r.None? {
        return AwaitDone;
      }
      SessionGot(j, before, r.value);
      return if r.value == Complete(|j.data|, j.crc) then Done else Failed;
    }
  }

  lemma SessionMove(j: Job, inputs: seq<Input>, count: nat)
    requires j.window >= 1
    ensures var t := Session(j, inputs);
            && t.client.offset <= |j.data| && Replies(inputs + [Move(count)]) == Replies(inputs)
            && Session(j, inputs + [Move(count)])
              == Turn(Go(j, t.client, count).client, t.sent + Go(j, t.client, count).sent)
  {
    hide Go;
    assert (inputs + [Move(count)])[..|inputs|] == inputs;
  }

  lemma SessionGot(j: Job, inputs: seq<Input>, r: Reply)
    requires j.window >= 1
    ensures var t := Session(j, inputs);
            && Session(j, inputs + [Got(r)]) == Turn(Take(j, t.client, r), t.sent)
  {
    hide Take;
    assert (inputs + [Got(r)])[..|inputs|] == inputs;
  }
}
