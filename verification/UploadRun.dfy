/** Client and agent joined by two first-in first-out channels. */
module UploadRun {
  import opened LittleEndian
  import opened FileStore
  import opened UploadAgent
  import opened UploadClient
  import opened Wrappers

  /** One upload: its CRC, its job, where the agent stages it, and what the agent's disk held before. */
  datatype Setting = Setting(c: Crc, j: Job, temp: string, before: Store)

  predicate SettingOk(s: Setting) {
    && s.j.window >= 1 && s.temp != s.j.path && s.temp != BackupPath(s.j.path)
  }

  /** up carries requests to the agent, down its replies. */
  datatype World = World(client: Client, agent: Tracked, up: seq<Request>, down: seq<Reply>)

  function Initial(s: Setting): World {
    World(BEGIN, Tracked(Agent(s.before, None), [], 0), [], [])
  }

  datatype Event = ClientGoes(count: nat) | ClientTakes | AgentServes(io: Io)

  /** The agent handles one request. */
  function Serve(s: Setting, t: Tracked, r: Request, io: Io): (Tracked, Reply)
    requires Consistent(s.c, t)
  {
    match r
    case Open(path, size, crc) =>
      var (a, reply) := OnOpen(s.c, t.agent, path, s.temp, size, crc, io);
      (if reply.Ready? then Tracked(a, [], 0) else Tracked(a, t.accepted, t.junk), reply)
    case Chunk(offset, piece) => (TrackChunk(s.c, t, offset, piece, io), OnChunk(s.c, t.agent, offset, piece, io).1)
    case Commit =>
      var (a, reply) := OnCommit(s.c, t.agent, io);
      (Tracked(a, t.accepted, t.junk), reply)
  }

  predicate Enabled(w: World, e: Event) {
    match e
    case ClientGoes(_) => !Waits(w.client.phase) && w.client.phase != Done && w.client.phase != Failed
    case ClientTakes => Waits(w.client.phase) && w.down != []
    case AgentServes(_) => w.up != []
  }

  function Next(s: Setting, w: World, e: Event): World
    requires Enabled(w, e) && Consistent(s.c, w.agent) && w.client.offset <= |s.j.data|
  {
    match e
    case ClientGoes(count) =>
      var t := Go(s.j, w.client, count);
      World(t.client, w.agent, w.up + t.sent, w.down)
    case ClientTakes => World(Take(s.j, w.client, w.down[0]), w.agent, w.up, w.down[1..])
    case AgentServes(io) =>
      var (t, reply) := Serve(s, w.agent, w.up[0], io);
      World(w.client, t, w.up[1..], w.down + [reply])
  }

  /** The end of the k-th chunk from the last acknowledged one. */
  function EndOf(c: Client, k: nat): nat
    requires k <= |c.inFlight|
  {
    if k == 0 then c.acked else c.inFlight[k - 1]
  }

  /** The request that is the k-th chunk in flight. */
  predicate IsChunk(s: Setting, c: Client, k: nat, r: Request)
    requires k < |c.inFlight|
  {
    && EndOf(c, k) <= c.inFlight[k] <= |s.j.data|
    && r == Chunk(EndOf(c, k), s.j.data[EndOf(c, k)..c.inFlight[k]])
  }

  /** The upload the agent is running is this one, and what it acknowledged is the start of the data. */
  predicate Running(s: Setting, t: Tracked) {
    && t.agent.upload.Some?
    && (var u := t.agent.upload.value; u.final == s.j.path && u.temp == s.temp && u.size == |s.j.data| && u.crc == s.j.crc)
    && |t.accepted| <= |s.j.data| && t.accepted == s.j.data[..|t.accepted|]
  }

  /** Nothing but the temp file has been touched. */
  predicate Untouched(s: Setting, store: Store) {
    && (forall p :: p in s.before && p != s.temp ==> p in store && store[p] == s.before[p])
    && (forall p :: p in store ==> p in s.before || p == s.temp)
  }

  /**
    Replies and requests match the chunks in flight in order. good of the replies are the right
    acknowledgements; any after those are errors, and then the agent accepts nothing more.
   */
  predicate Streaming(s: Setting, w: World, good: nat) {
    && Running(s, w.agent) && Untouched(s, w.agent.agent.store)
    && |w.down| + |w.up| == |w.client.inFlight| && good <= |w.down|
    && (forall i :: 0 <= i < good ==> w.down[i] == Ack(w.client.inFlight[i]))
    && (forall i :: good <= i < |w.down| ==> w.down[i].Error?)
    && (forall i :: 0 <= i < |w.up| ==> IsChunk(s, w.client, |w.down| + i, w.up[i]))
    && |w.agent.accepted| == EndOf(w.client, good)
    && (good == |w.down| ==> w.agent.junk == 0)
  }

  predicate Greeting(s: Setting, w: World) {
    || (w.down == [] && w.up == [Open(s.j.path, |s.j.data|, s.j.crc)] && w.agent == Initial(s).agent)
    || (w.up == [] && w.down == [Ready(|s.j.data|, s.j.crc)] && Running(s, w.agent) && w.agent.accepted == []
        && w.agent.junk == 0 && Untouched(s, w.agent.agent.store))
    || (w.up == [] && |w.down| == 1 && w.down[0].Error? && w.agent.agent.upload.None? && Untouched(s, w.agent.agent.store))
  }

  /** The upload is in place: the target is the data, and the CRC is the data's. */
  predicate InPlace(s: Setting, t: Tracked) {
    && t.agent.upload.None? && s.j.path in t.agent.store && t.agent.store[s.j.path] == File(s.j.data)
    && s.temp !in t.agent.store && CrcOf(s.c, s.j.data) == s.j.crc
  }

  predicate Finishing(s: Setting, w: World) {
    || (w.down == [] && w.up == [Commit] && Running(s, w.agent) && w.agent.accepted == s.j.data && w.agent.junk == 0
        && Untouched(s, w.agent.agent.store))
    || (w.up == [] && w.down == [Complete(|s.j.data|, s.j.crc)] && InPlace(s, w.agent))
    || (w.up == [] && |w.down| == 1 && w.down[0].Error? && w.agent.agent.upload.None?)
  }

  /** What a failed upload leaves behind in the channel: nothing that could still commit. */
  predicate Abandoned(s: Setting, w: World) {
    && (forall r :: r in w.up ==>
          r.Chunk? && r.offset + |r.piece| <= |s.j.data| && r.piece == s.j.data[r.offset..r.offset + |r.piece|])
    && (w.agent.agent.upload.Some? ==> Running(s, w.agent))
  }

  ghost predicate Inv(s: Setting, w: World) {
    && Consistent(s.c, w.agent) && ClientInv(s.j, w.client)
    && match w.client.phase
       case Start => w == Initial(s)
       case AwaitReady => Greeting(s, w)
       case LoopHead => exists good :: Streaming(s, w, good)
       case Filling => exists good :: Streaming(s, w, good)
       case AwaitAck => exists good :: Streaming(s, w, good)
       case AwaitDone => Finishing(s, w)
       case Done => w.up == [] && w.down == [] && InPlace(s, w.agent)
       case Failed => Abandoned(s, w)
  }

  lemma StreamingAbandons(s: Setting, w: World, good: nat)
    requires SettingOk(s) && ClientInv(s.j, w.client) && Streaming(s, w, good)
    ensures Abandoned(s, w)
  {
    forall r | r in w.up
      ensures r.Chunk? && r.offset + |r.piece| <= |s.j.data| && r.piece == s.j.data[r.offset..r.offset + |r.piece|]
    {
      var i :| 0 <= i < |w.up| && w.up[i] == r;
      assert IsChunk(s, w.client, |w.down| + i, r);
    }
  }

  lemma GoInv(s: Setting, w: World, count: nat)
    requires SettingOk(s) && Inv(s, w) && Enabled(w, ClientGoes(count))
    ensures Inv(s, Next(s, w, ClientGoes(count)))
  {
    hide Consistent, ClientInv, Streaming, Greeting, Finishing, Abandoned, Go;
    assert w.client.offset <= |s.j.data| by { ClientFacts(s.j, w.client); }
    GoKeeps(s.j, w.client, count);
    GoPhases(s.j, w.client, count);
    if w.client.phase.Start? {
      GoGreets(s, w, count);
    }
    if w.client.phase.Filling? || w.client.phase.LoopHead? {
      var good :| Streaming(s, w, good);
      GoStreaming(s, w, count, good);
    }
  }

  /** Where a step of the client's own leads. */
  lemma GoPhases(j: Job, c: Client, count: nat)
    requires c.offset <= |j.data| && !Waits(c.phase) && c.phase != Done && c.phase != Failed
    ensures var p := Go(j, c, count).client.phase;
            if c.phase.Start? then p.Failed? || p.AwaitReady? else p.Filling? || p.AwaitAck? || p.AwaitDone? || p.Failed?
  {
  }

  lemma GoGreets(s: Setting, w: World, count: nat)
    requires SettingOk(s) && w == Initial(s)
    ensures var t := Go(s.j, w.client, count);
            var v := World(t.client, w.agent, w.up + t.sent, w.down);
            if t.client.phase.Failed? then Abandoned(s, v) else Greeting(s, v)
  {
  }

  lemma ClientFacts(j: Job, c: Client)
    requires ClientInv(j, c)
    ensures c.offset <= |j.data| && Outstanding(c)
    ensures c.phase.LoopHead? && c.acked >= |j.data| ==> c.offset == c.acked == |j.data| && c.inFlight == []
  {
  }

  lemma GoStreaming(s: Setting, w: World, count: nat, good: nat)
    requires SettingOk(s) && ClientInv(s.j, w.client) && Streaming(s, w, good) && w.client.offset <= |s.j.data|
    requires Consistent(s.c, w.agent) && (w.client.phase.Filling? || w.client.phase.LoopHead?)
    ensures var v := Next(s, w, ClientGoes(count));
            match v.client.phase
            case Failed => Abandoned(s, v)
            case AwaitDone => Finishing(s, v)
            case _ => Streaming(s, v, good)
  {
    hide Consistent, Untouched, Running, Streaming, ClientInv, Abandoned, Finishing;
    var c := w.client;
    var t := Go(s.j, c, count);
    assert w.up + [] == w.up;
    ClientFacts(s.j, c);
    if t.client.phase.Failed? {
      StreamingAbandons(s, w, good);
      AbandonedKept(s, w, t.client);
    } else if t.client.phase.AwaitDone? {
      StreamEnds(s, w, good);
    } else if t.sent == [] {
      StreamKept(s, w, t.client, good);
    } else {
      SendStreaming(s, w, Reads(s.j, c.offset, count), good);
    }
  }

  lemma AbandonedKept(s: Setting, w: World, c: Client)
    requires Abandoned(s, w)
    ensures Abandoned(s, World(c, w.agent, w.up, w.down))
  {
    hide Running;
  }

  /** The client only changed its place in the loop. */
  lemma StreamKept(s: Setting, w: World, c: Client, good: nat)
    requires Streaming(s, w, good) && c.inFlight == w.client.inFlight && c.acked == w.client.acked
    ensures Streaming(s, World(c, w.agent, w.up, w.down), good)
  {
    hide Running, Untouched;
    forall i | 0 <= i < |w.up|
      ensures IsChunk(s, c, |w.down| + i, w.up[i])
    {
      assert IsChunk(s, w.client, |w.down| + i, w.up[i]);
    }
  }

  /** Everything is acknowledged: the commit is alone in the channel. */
  lemma StreamEnds(s: Setting, w: World, good: nat)
    requires Streaming(s, w, good) && ClientInv(s.j, w.client) && w.client.phase.LoopHead? && w.client.acked >= |s.j.data|
    ensures Finishing(s, World(w.client.(phase := AwaitDone), w.agent, w.up + [Commit], w.down))
  {
    hide Running, Untouched, ClientInv;
    ClientFacts(s.j, w.client);
    AllAccepted(s, w.agent);
    assert w.up + [Commit] == [Commit];
  }

  /** One more chunk in flight. */
  lemma SendStreaming(s: Setting, w: World, n: nat, good: nat)
    requires Streaming(s, w, good) && Outstanding(w.client) && n >= 1 && w.client.offset + n <= |s.j.data|
    ensures var c := w.client;
            Streaming(s, World(Client(Filling, c.offset + n, c.acked, c.inFlight + [c.offset + n]), w.agent,
                               w.up + [Chunk(c.offset, s.j.data[c.offset..c.offset + n])], w.down), good)
  {
    hide Running, Untouched, IsChunk;
    var c := w.client;
    var d := Client(Filling, c.offset + n, c.acked, c.inFlight + [c.offset + n]);
    var up := w.up + [Chunk(c.offset, s.j.data[c.offset..c.offset + n])];
    forall i | 0 <= i < |up|
      ensures IsChunk(s, d, |w.down| + i, up[i])
    {
      if i < |w.up| {
        assert IsChunk(s, c, |w.down| + i, w.up[i]);
        ChunkKept(s, c, d, |w.down| + i, w.up[i]);
      } else {
        LastChunk(s, c, d, n);
      }
    }
    assert EndOf(d, good) == EndOf(c, good);
  }

  lemma ChunkKept(s: Setting, c: Client, d: Client, k: nat, r: Request)
    requires k < |c.inFlight| && c.inFlight <= d.inFlight && c.acked == d.acked && IsChunk(s, c, k, r)
    ensures IsChunk(s, d, k, r)
  {
  }

  lemma LastChunk(s: Setting, c: Client, d: Client, n: nat)
    requires Outstanding(c) && n >= 1 && c.offset + n <= |s.j.data|
    requires d.acked == c.acked && d.inFlight == c.inFlight + [c.offset + n]
    ensures IsChunk(s, d, |c.inFlight|, Chunk(c.offset, s.j.data[c.offset..c.offset + n]))
  {
  }

  lemma AllAccepted(s: Setting, t: Tracked)
    requires Running(s, t) && |t.accepted| >= |s.j.data|
    ensures t.accepted == s.j.data
  {
  }

  lemma TakeInv(s: Setting, w: World)
    requires SettingOk(s) && Inv(s, w) && Enabled(w, ClientTakes)
    ensures Inv(s, Next(s, w, ClientTakes))
  {
    hide Consistent, ClientInv, Streaming, Abandoned;
    ClientFacts(s.j, w.client);
    TakeKeeps(s.j, w.client, w.down[0]);
    var v := Next(s, w, ClientTakes);
    match w.client.phase
    case AwaitReady =>
      if v.client.phase.LoopHead? {
        assert Streaming(s, v, 0) by { GreetedStreams(s, w); }
      } else {
        GreetingRefused(s, w);
      }
    case AwaitAck =>
      var good :| Streaming(s, w, good);
      TakeStreaming(s, w, good);
    case AwaitDone =>
      if !v.client.phase.Done? {
        CommitRefused(s, w);
      }
    case _ =>
  }

  lemma GreetedStreams(s: Setting, w: World)
    requires ClientInv(s.j, w.client) && w.client.phase.AwaitReady? && Greeting(s, w) && w.down != []
    requires w.down[0] == Ready(|s.j.data|, s.j.crc) && Consistent(s.c, w.agent)
    ensures Streaming(s, Next(s, w, ClientTakes), 0)
  {
    hide Consistent, Untouched, Running;
  }

  lemma GreetingRefused(s: Setting, w: World)
    requires ClientInv(s.j, w.client) && w.client.phase.AwaitReady? && Greeting(s, w) && w.down != []
    requires w.down[0] != Ready(|s.j.data|, s.j.crc) && Consistent(s.c, w.agent)
    ensures Abandoned(s, Next(s, w, ClientTakes))
  {
    hide Consistent, ClientInv, Untouched, Running;
  }

  lemma CommitRefused(s: Setting, w: World)
    requires ClientInv(s.j, w.client) && w.client.phase.AwaitDone? && Finishing(s, w) && w.down != []
    requires w.down[0] != Complete(|s.j.data|, s.j.crc) && Consistent(s.c, w.agent)
    ensures Abandoned(s, Next(s, w, ClientTakes))
  {
    hide Consistent, ClientInv, Untouched, Running;
  }

  /** The chunk after the one acknowledged. */
  lemma ChunkTaken(s: Setting, c: Client, d: Client, k: nat, r: Request)
    requires k + 1 < |c.inFlight| && d.inFlight == c.inFlight[1..] && d.acked == c.inFlight[0] && IsChunk(s, c, k + 1, r)
    ensures IsChunk(s, d, k, r)
  {
  }

  lemma TakeStreaming(s: Setting, w: World, good: nat)
    requires SettingOk(s) && ClientInv(s.j, w.client) && Streaming(s, w, good) && w.client.phase.AwaitAck? && w.down != []
    requires Consistent(s.c, w.agent)
    ensures var v := Next(s, w, ClientTakes);
            if good == 0 then v.client.phase.Failed? && Abandoned(s, v)
            else v.client.phase.LoopHead? && Streaming(s, v, good - 1)
  {
    hide Consistent, Untouched, Running, IsChunk;
    var v := Next(s, w, ClientTakes);
    if good == 0 {
      assert w.down[0].Error?;
      StreamingAbandons(s, w, good);
    } else {
      assert w.down[0] == Ack(w.client.inFlight[0]);
      forall i | 0 <= i < |v.up|
        ensures IsChunk(s, v.client, |v.down| + i, v.up[i])
      {
        ChunkTaken(s, w.client, v.client, |v.down| + i, w.up[i]);
      }
      assert EndOf(v.client, good - 1) == EndOf(w.client, good);
    }
  }

  lemma ServeConsistent(s: Setting, t: Tracked, r: Request, io: Io)
    requires SettingOk(s) && Consistent(s.c, t)
    requires r.Open? ==> r.path == s.j.path && t.agent.upload.None?
    ensures Consistent(s.c, Serve(s, t, r, io).0)
  {
    hide CrcUpdate;
    match r
    case Open(path, size, crc) =>
      CrcNothing(s.c);
    case Chunk(offset, piece) =>
      ChunkKeeps(s.c, t, offset, piece, io);
    case Commit =>
  }

  /** A chunk that continues what was accepted is accepted, unless the disk refuses it. */
  lemma ServeNextChunk(s: Setting, t: Tracked, end: nat, io: Io)
    requires SettingOk(s) && Consistent(s.c, t) && Running(s, t) && Untouched(s, t.agent.store)
    requires |t.accepted| <= end <= |s.j.data|
    ensures var piece := s.j.data[|t.accepted|..end];
            var (v, r) := Serve(s, t, Chunk(|t.accepted|, piece), io);
            && Running(s, v) && Untouched(s, v.agent.store) && Consistent(s.c, v)
            && (r.Error? || (r == Ack(end) && |v.accepted| == end && v.junk == t.junk))
            && (r.Error? ==> v.accepted == t.accepted)
            && (r.Error? <==> |piece| > CHUNK_SIZE || (piece != [] && !io.write))
  {
    hide CrcUpdate;
    var piece := s.j.data[|t.accepted|..end];
    ChunkKeeps(s.c, t, |t.accepted|, piece, io);
    assert s.j.data[..|t.accepted|] + piece == s.j.data[..end];
  }

  /** A chunk from anywhere else is refused and changes nothing. */
  lemma ServeStaleChunk(s: Setting, t: Tracked, offset: nat, piece: seq<u8>, io: Io)
    requires Consistent(s.c, t) && t.agent.upload.Some? && offset != |t.accepted|
    ensures Serve(s, t, Chunk(offset, piece), io) == (t, Error(InvalidPayload))
  {
  }

  lemma EndsIncrease(c: Client, i: nat, k: nat)
    requires Outstanding(c) && i < k <= |c.inFlight|
    ensures EndOf(c, i) < EndOf(c, k)
  {
  }

  lemma ServeStreaming(s: Setting, w: World, good: nat, io: Io)
    requires SettingOk(s) && Consistent(s.c, w.agent) && Streaming(s, w, good) && Outstanding(w.client) && w.up != []
    ensures var (t, reply) := Serve(s, w.agent, w.up[0], io);
            var v := World(w.client, t, w.up[1..], w.down + [reply]);
            Consistent(s.c, t) && (Streaming(s, v, good) || Streaming(s, v, good + 1))
  {
    hide Consistent, Running, Untouched, EndOf, Serve;
    var k := |w.down|;
    assert IsChunk(s, w.client, k + 0, w.up[0]);
    if good == k {
      assert EndOf(w.client, k + 1) == w.client.inFlight[k] by { EndAfter(w.client, k); }
      ServeNextChunk(s, w.agent, w.client.inFlight[k], io);
    } else {
      EndsIncrease(w.client, good, k);
      RunningSome(s, w.agent);
      ServeStaleChunk(s, w.agent, w.up[0].offset, w.up[0].piece, io);
    }
    var (t, reply) := Serve(s, w.agent, w.up[0], io);
    var next := if reply.Error? then good else good + 1;
    assert forall i :: 0 <= i < good ==> (w.down + [reply])[i] == w.down[i];
    ShiftedChunks(s, w);
    assert Streaming(s, World(w.client, t, w.up[1..], w.down + [reply]), next);
  }

  lemma EndAfter(c: Client, k: nat)
    requires k < |c.inFlight|
    ensures EndOf(c, k + 1) == c.inFlight[k]
  {
  }

  /** The requests left are still the chunks that follow. */
  lemma ShiftedChunks(s: Setting, w: World)
    requires w.up != [] && |w.down| + |w.up| == |w.client.inFlight|
    requires forall i :: 0 <= i < |w.up| ==> IsChunk(s, w.client, |w.down| + i, w.up[i])
    ensures forall i :: 0 <= i < |w.up| - 1 ==> IsChunk(s, w.client, |w.down| + 1 + i, w.up[1..][i])
  {
    hide IsChunk;
    forall i | 0 <= i < |w.up| - 1
      ensures IsChunk(s, w.client, |w.down| + 1 + i, w.up[1..][i])
    {
      assert IsChunk(s, w.client, |w.down| + (i + 1), w.up[i + 1]);
    }
  }

  lemma RunningSome(s: Setting, t: Tracked)
    requires Running(s, t)
    ensures t.agent.upload.Some?
  {
  }

  lemma ServeGreeting(s: Setting, w: World, io: Io)
    requires SettingOk(s) && Consistent(s.c, w.agent) && Greeting(s, w) && w.up != []
    ensures var (t, reply) := Serve(s, w.agent, w.up[0], io);
            Consistent(s.c, t) && Greeting(s, World(w.client, t, w.up[1..], w.down + [reply]))
  {
    hide CrcUpdate;
    ServeConsistent(s, w.agent, w.up[0], io);
  }

  lemma ServeFinishing(s: Setting, w: World, io: Io)
    requires SettingOk(s) && Consistent(s.c, w.agent) && Finishing(s, w) && w.up != []
    ensures var (t, reply) := Serve(s, w.agent, w.up[0], io);
            Consistent(s.c, t) && Finishing(s, World(w.client, t, w.up[1..], w.down + [reply]))
  {
    hide CrcUpdate, Promoted, Promotes;
    ServeConsistent(s, w.agent, w.up[0], io);
    CommitConfirms(s.c, w.agent, io);
  }

  lemma ServeAbandoned(s: Setting, w: World, io: Io)
    requires SettingOk(s) && Consistent(s.c, w.agent) && Abandoned(s, w) && w.up != []
    ensures var (t, reply) := Serve(s, w.agent, w.up[0], io);
            Consistent(s.c, t) && Abandoned(s, World(w.client, t, w.up[1..], w.down + [reply]))
  {
    hide CrcUpdate;
    var r := w.up[0];
    assert r in w.up;
    ServeConsistent(s, w.agent, r, io);
    if w.agent.agent.upload.Some? && OnChunk(s.c, w.agent.agent, r.offset, r.piece, io).1.Ack? {
      assert s.j.data[..|w.agent.accepted|] + r.piece == s.j.data[..|w.agent.accepted| + |r.piece|];
    }
  }

  lemma ServeInv(s: Setting, w: World, io: Io)
    requires SettingOk(s) && Inv(s, w) && Enabled(w, AgentServes(io))
    ensures Inv(s, Next(s, w, AgentServes(io)))
  {
    hide Consistent, ClientInv, Greeting, Finishing, Abandoned, Streaming, Serve;
    ClientFacts(s.j, w.client);
    match w.client.phase
    case Start =>
    case AwaitReady =>
      ServeGreeting(s, w, io);
    case AwaitDone =>
      ServeFinishing(s, w, io);
    case Done =>
    case Failed =>
      ServeAbandoned(s, w, io);
    case _ =>
      var good :| Streaming(s, w, good);
      ServeStreaming(s, w, good, io);
  }

  lemma InvFacts(s: Setting, w: World)
    requires Inv(s, w)
    ensures Consistent(s.c, w.agent) && w.client.offset <= |s.j.data|
  {
    hide Consistent;
  }

  /** Every step of either side keeps the invariant. */
  lemma StepKeeps(s: Setting, w: World, e: Event)
    requires SettingOk(s) && Inv(s, w) && Enabled(w, e)
    ensures InvFactsHold(s, w) && Inv(s, Next(s, w, e))
  {
    hide Inv, Next;
    InvFacts(s, w);
    match e
    case ClientGoes(count) => GoInv(s, w, count);
    case ClientTakes => TakeInv(s, w);
    case AgentServes(io) => ServeInv(s, w, io);
  }

  predicate InvFactsHold(s: Setting, w: World) {
    Consistent(s.c, w.agent) && w.client.offset <= |s.j.data|
  }

  /** The worlds reachable by a sequence of enabled events. */
  ghost predicate Reached(s: Setting, events: seq<Event>, w: World)
    decreases |events|
  {
    if events == [] then w == Initial(s)
    else
      exists v ::
        && Reached(s, events[..|events| - 1], v) && InvFactsHold(s, v) && Enabled(v, events[|events| - 1])
        && w == Next(s, v, events[|events| - 1])
  }

  lemma {:induction false} ReachedKeeps(s: Setting, events: seq<Event>, w: World)
    requires SettingOk(s) && Reached(s, events, w)
    ensures Inv(s, w)
    decreases |events|
  {
    hide Next;
    if events == [] {
      InitialInv(s);
    } else {
      hide Inv;
      var v :| Reached(s, events[..|events| - 1], v) && InvFactsHold(s, v) && Enabled(v, events[|events| - 1])
               && w == Next(s, v, events[|events| - 1]);
      ReachedKeeps(s, events[..|events| - 1], v);
      StepKeeps(s, v, events[|events| - 1]);
    }
  }

  lemma InitialInv(s: Setting)
    requires SettingOk(s)
    ensures Inv(s, Initial(s))
  {
  }
}
