/** What holds of every interleaving of an upload. */
module UploadTheorems {
  import opened FileStore
  import opened UploadAgent
  import opened UploadClient
  import opened UploadRun

  /** When the client reports success, the target holds the data and the CRC is the data's. */
  lemma DoneMeansInPlace(s: Setting, events: seq<Event>, w: World)
    requires SettingOk(s) && Reached(s, events, w) && w.client.phase.Done?
    ensures InPlace(s, w.agent) && w.up == [] && w.down == []
  {
    hide Reached, InPlace;
    ReachedKeeps(s, events, w);
  }

  /** In every reachable state what was acknowledged is the start of the data, and so is the temp file. */
  lemma TempIsPrefix(s: Setting, events: seq<Event>, w: World)
    requires SettingOk(s) && Reached(s, events, w) && w.agent.agent.upload.Some?
    ensures var u := w.agent.agent.upload.value;
            && u.temp == s.temp && u.received <= |s.j.data| && IsFile(w.agent.agent.store, s.temp)
            && (w.agent.agent.store[s.temp].data == s.j.data[..u.received] <==> w.agent.junk == 0)
  {
    hide Reached, CrcUpdate;
    ReachedKeeps(s, events, w);
    assert Running(s, w.agent) by {
      if w.client.phase.LoopHead? || w.client.phase.Filling? || w.client.phase.AwaitAck? {
        var good :| Streaming(s, w, good);
      }
    }
  }

  /** While chunks are in flight, replies and requests match them in order and never exceed the window. */
  lemma InFlightMatches(s: Setting, events: seq<Event>, w: World)
    requires SettingOk(s) && Reached(s, events, w)
    requires w.client.phase.LoopHead? || w.client.phase.Filling? || w.client.phase.AwaitAck?
    ensures |w.client.inFlight| <= s.j.window && |w.down| + |w.up| == |w.client.inFlight|
    ensures w.client.phase.AwaitAck? ==> w.client.inFlight != []
    ensures forall i :: 0 <= i < |w.down| ==> w.down[i] == Ack(w.client.inFlight[i]) || w.down[i].Error?
    ensures forall i :: 0 <= i < |w.up| ==> IsChunk(s, w.client, |w.down| + i, w.up[i])
    ensures Untouched(s, w.agent.agent.store)
  {
    hide Reached, Consistent, Untouched, IsChunk, Running;
    ReachedKeeps(s, events, w);
    var good :| Streaming(s, w, good);
  }

  /** No reachable state is stuck: until the client is done or refused, somebody can move. */
  lemma NeverStuck(s: Setting, events: seq<Event>, w: World)
    requires SettingOk(s) && Reached(s, events, w)
    ensures w.client.phase.Done? || w.client.phase.Failed? || exists e :: Enabled(w, e)
  {
    hide Reached, Consistent, Untouched, Running;
    ReachedKeeps(s, events, w);
    if w.client.phase.AwaitAck? {
      var good :| Streaming(s, w, good);
      assert w.down != [] || w.up != [];
    }
    if !w.client.phase.Done? && !w.client.phase.Failed? {
      if !Waits(w.client.phase) {
        assert Enabled(w, ClientGoes(1));
      } else if w.down != [] {
        assert Enabled(w, ClientTakes);
      } else {
        assert Enabled(w, AgentServes(GOOD_IO));
      }
    }
  }

  function Weight(p: Phase): nat {
    match p
    case Start => 30
    case AwaitReady => 20
    case LoopHead => 12
    case Filling => 11
    case AwaitAck => 10
    case AwaitDone => 5
    case _ => 0
  }

  function Measure(s: Setting, w: World): nat
    requires w.client.offset <= |s.j.data|
  {
    10 * (|s.j.data| - w.client.offset) + 4 * |w.up| + 3 * |w.down| + Weight(w.client.phase)
  }

  /** Every step brings the upload closer to its end, so every run is finite. */
  lemma StepShrinks(s: Setting, w: World, e: Event)
    requires SettingOk(s) && Inv(s, w) && Enabled(w, e)
    ensures InvFactsHold(s, w) && Next(s, w, e).client.offset <= |s.j.data|
    ensures Measure(s, Next(s, w, e)) < Measure(s, w)
  {
    hide Consistent, Serve, Streaming, Greeting, Finishing, Abandoned;
    InvFacts(s, w);
  }

  /** Local reads bring something, and the agent's file operations succeed. */
  predicate GoodEvent(e: Event) {
    match e
    case ClientGoes(count) => count >= 1
    case ClientTakes => true
    case AgentServes(io) => io.create && io.write && io.flush && io.promote == GOOD_IO.promote
  }

  /** A file the protocol can carry, read the same twice, onto a target that can be replaced. */
  predicate GoodSetting(s: Setting) {
    && SettingOk(s) && PathOk(s.j.path) && |s.j.data| <= MAX_FILE && s.j.crc == CrcOf(s.c, s.j.data)
    && (s.temp in s.before ==> s.before[s.temp].File?)
    && (s.j.path in s.before ==> s.before[s.j.path].File?)
    && (BackupPath(s.j.path) in s.before ==> s.before[BackupPath(s.j.path)].File?)
  }

  predicate AllWell(w: World) {
    && !w.client.phase.Failed? && (forall r :: r in w.down ==> !r.Error?)
    && (forall r :: r in w.up ==> r.Chunk? ==> |r.piece| <= CHUNK_SIZE)
  }

  lemma WellGoes(s: Setting, w: World, count: nat)
    requires GoodSetting(s) && Inv(s, w) && AllWell(w) && Enabled(w, ClientGoes(count)) && count >= 1
    ensures InvFactsHold(s, w) && AllWell(Next(s, w, ClientGoes(count)))
  {
    hide Consistent, Streaming, Greeting, Finishing, Abandoned, CrcOf;
    InvFacts(s, w);
    var t := Go(s.j, w.client, count);
    forall r | r in t.sent
      ensures r.Chunk? ==> |r.piece| <= CHUNK_SIZE
    {
    }
  }

  lemma WellTakes(s: Setting, w: World)
    requires GoodSetting(s) && Inv(s, w) && AllWell(w) && Enabled(w, ClientTakes)
    ensures InvFactsHold(s, w) && AllWell(Next(s, w, ClientTakes))
  {
    hide Consistent, Running, Untouched, CrcOf, InPlace;
    InvFacts(s, w);
    assert w.down[0] in w.down;
    if w.client.phase.AwaitAck? {
      var good :| Streaming(s, w, good);
      assert good >= 1;
    }
  }

  lemma NoErrorAt(w: World, i: nat)
    requires AllWell(w) && i < |w.down|
    ensures !w.down[i].Error?
  {
    assert w.down[i] in w.down;
  }

  lemma WellServesChunk(s: Setting, w: World, io: Io, good: nat)
    requires GoodSetting(s) && Consistent(s.c, w.agent) && AllWell(w) && w.up != [] && io.write && Streaming(s, w, good)
    ensures !Serve(s, w.agent, w.up[0], io).1.Error?
  {
    hide Consistent, Running, Untouched, CrcOf, Serve;
    if good < |w.down| {
      NoErrorAt(w, good);
    }
    assert IsChunk(s, w.client, |w.down| + 0, w.up[0]);
    assert w.up[0] in w.up;
    ServeNextChunk(s, w.agent, w.client.inFlight[good], io);
  }

  lemma WellCommits(s: Setting, w: World, io: Io)
    requires GoodSetting(s) && Consistent(s.c, w.agent) && Finishing(s, w) && w.up != [] && GoodEvent(AgentServes(io))
    ensures !Serve(s, w.agent, w.up[0], io).1.Error?
  {
    hide CrcOf, CrcUpdate;
    CommitIff(s.c, w.agent, io);
    BackupDiffers(s.j.path);
  }

  lemma WellServes(s: Setting, w: World, io: Io)
    requires GoodSetting(s) && Inv(s, w) && AllWell(w) && Enabled(w, AgentServes(io)) && GoodEvent(AgentServes(io))
    ensures InvFactsHold(s, w) && AllWell(Next(s, w, AgentServes(io)))
  {
    hide Consistent, Streaming, Finishing, CrcOf, InPlace, Serve, Untouched, Running;
    InvFacts(s, w);
    match w.client.phase
    case AwaitReady =>
      WellOpens(s, w, io);
    case AwaitDone =>
      WellCommits(s, w, io);
    case Start =>
    case Done =>
    case Failed =>
    case _ =>
      var good :| Streaming(s, w, good);
      WellServesChunk(s, w, io, good);
  }

  lemma WellOpens(s: Setting, w: World, io: Io)
    requires GoodSetting(s) && Consistent(s.c, w.agent) && Greeting(s, w) && w.up != [] && GoodEvent(AgentServes(io))
    ensures !Serve(s, w.agent, w.up[0], io).1.Error?
  {
    hide CrcOf, CrcUpdate;
  }

  predicate AllGood(events: seq<Event>) {
    forall e :: e in events ==> GoodEvent(e)
  }

  /** With nothing failing on either machine no upload is refused; by NeverStuck and StepShrinks it ends done. */
  lemma {:induction false} GoodRunSucceeds(s: Setting, events: seq<Event>, w: World)
    requires GoodSetting(s) && Reached(s, events, w) && AllGood(events)
    ensures AllWell(w)
    ensures (forall e :: !Enabled(w, e)) ==> w.client.phase.Done? && InPlace(s, w.agent)
    decreases |events|
  {
    hide Next, Inv, GoodSetting, InPlace, Enabled;
    SettingIsOk(s);
    if events != [] {
      var e := events[|events| - 1];
      var v :| Reached(s, events[..|events| - 1], v) && InvFactsHold(s, v) && Enabled(v, e) && w == Next(s, v, e);
      GoodRunSucceeds(s, events[..|events| - 1], v);
      ReachedKeeps(s, events[..|events| - 1], v);
      assert e in events;
      match e
      case ClientGoes(count) => WellGoes(s, v, count);
      case ClientTakes => WellTakes(s, v);
      case AgentServes(io) => WellServes(s, v, io);
    }
    if forall e :: !Enabled(w, e) {
      NeverStuck(s, events, w);
      DoneMeansInPlace(s, events, w);
    }
  }

  lemma SettingIsOk(s: Setting)
    requires GoodSetting(s)
    ensures SettingOk(s)
  {
  }
}
