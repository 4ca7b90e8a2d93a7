/** The agent's half of an upload: open a temp file, append, verify, promote. */
module UploadAgent {
  import opened LittleEndian
  import opened FileStore
  import opened Wrappers

  const MAX_FILE := 0x7FFF_FFFF
  const CHUNK_SIZE := 32768

  /** CRC-32 as a fold over bytes. */
  datatype Crc = Crc(begin: u32, step: (u32, u8) -> u32, end: u32 -> u32)

  function CrcUpdate(c: Crc, state: u32, bytes: seq<u8>): u32 {
    if bytes == [] then state else c.step(CrcUpdate(c, state, bytes[..|bytes| - 1]), bytes[|bytes| - 1])
  }

  function CrcOf(c: Crc, data: seq<u8>): u32 {
    c.end(CrcUpdate(c, c.begin, data))
  }

  lemma {:induction false} CrcJoin(c: Crc, state: u32, a: seq<u8>, b: seq<u8>)
    ensures CrcUpdate(c, CrcUpdate(c, state, a), b) == CrcUpdate(c, state, a + b)
    decreases |b|
  {
    if b == [] {
      assert a + b == a;
    } else {
      assert (a + b)[..|a + b| - 1] == a + b[..|b| - 1];
      CrcJoin(c, state, a, b[..|b| - 1]);
    }
  }

  datatype Request = Open(path: string, size: nat, crc: u32) | Chunk(offset: nat, piece: seq<u8>) | Commit

  datatype Reply = Ready(size: nat, crc: u32) | Ack(offset: nat) | Complete(size: nat, crc: u32) | Error(status: Status)

  /** What the system does with the file operations of one request; a failed write may leave some bytes. */
  datatype Io = Io(create: bool, write: bool, written: nat, flush: bool, promote: PromoteIo)

  datatype Upload = Upload(final: string, temp: string, size: nat, crc: u32, received: nat, running: u32)

  datatype Agent = Agent(store: Store, upload: Option<Upload>)

  /** The staging name: connection slot and request id keep two uploads apart. */
  function TempPath(path: string, slot: string, id: string): (t: string)
    ensures t != path && t != BackupPath(path)
  {
    var t := path + "." + slot + "." + id + ".PART";
    assert |t| > |path| && t[|t| - 1] == 'T';
    assert BackupPath(path)[|BackupPath(path)| - 1] == 'K';
    t
  }

  /** A path the request can carry: not empty, not too long, ASCII without a NUL. */
  predicate PathOk(path: string) {
    1 <= |path| <= PATH_MAX && forall i :: 0 <= i < |path| ==> '\0' < path[i] <= '\U{7F}'
  }

  function OnOpen(c: Crc, a: Agent, path: string, temp: string, size: nat, crc: u32, io: Io): (Agent, Reply) {
    if a.upload.Some? then (a, Error(Busy))
    else if !PathOk(path) then (a, Error(InvalidPayload))
    else if size > MAX_FILE then (a, Error(LimitExceeded))
    else if !io.create || (temp in a.store && a.store[temp].Directory?) then (a, Error(IoFailed))
    else
      (Agent(a.store[temp := File([])], Some(Upload(path, temp, size, crc, 0, c.begin))), Ready(size, crc))
  }

  function Min(a: nat, b: nat): nat {
    if a < b then a else b
  }

  function OnChunk(c: Crc, a: Agent, offset: nat, piece: seq<u8>, io: Io): (Agent, Reply)
    requires a.upload.Some? ==> IsFile(a.store, a.upload.value.temp)
  {
    if a.upload.None? then (a, Error(InvalidPayload))
    else
      var u := a.upload.value;
      var held := a.store[u.temp].data;
      if |piece| > CHUNK_SIZE || offset != u.received then (a, Error(InvalidPayload))
      else if |piece| > u.size - u.received then (a, Error(LimitExceeded))
      else if piece != [] && !io.write then
        (a.(store := a.store[u.temp := File(held + piece[..Min(io.written, |piece|)])]), Error(IoFailed))
      else
        (Agent(a.store[u.temp := File(held + piece)],
               Some(u.(received := u.received + |piece|, running := CrcUpdate(c, u.running, piece)))),
         Ack(u.received + |piece|))
  }

  function OnCommit(c: Crc, a: Agent, io: Io): (Agent, Reply)
    requires a.upload.Some? ==> IsFile(a.store, a.upload.value.temp)
  {
    if a.upload.None? then (a, Error(InvalidPayload))
    else
      var u := a.upload.value;
      if !io.flush then (Agent(Deleted(a.store, u.temp, io.promote.deleteTemp), None), Error(IoFailed))
      else if u.received != u.size || c.end(u.running) != u.crc then
        (Agent(Deleted(a.store, u.temp, io.promote.deleteTemp), None), Error(CrcMismatch))
      else
        var s := Promoted(a.store, u.final, u.temp, io.promote);
        if Promotes(a.store, u.final, io.promote) then (Agent(s, None), Complete(u.received, c.end(u.running)))
        else (Agent(s, None), Error(PromoteStatus(a.store, u.final, io.promote)))
  }

  /** The upload of one connection. */
  class WriteState {
    const c: Crc
    const disk: Disk
    var upload: Option<Upload>

    ghost function Abs(): Agent
      reads this, disk
    {
      Agent(disk.store, upload)
    }

    ghost predicate Valid()
      reads this, disk
    {
      && disk.Valid()
      && (upload.Some? ==>
            && IsFile(disk.store, upload.value.temp) && upload.value.temp != upload.value.final
            && upload.value.temp != BackupPath(upload.value.final) && upload.value.received <= upload.value.size)
    }

    constructor (c: Crc, disk: Disk)
      requires disk.Valid()
      ensures Valid() && Abs() == Agent(disk.store, None) && this.c == c && this.disk == disk
    {
      this.c := c;
      this.disk := disk;
      upload := None;
    }

    method HandleOpenWrite(path: string, slot: string, id: string, size: nat, crc: u32, io: Io) returns (r: Reply)
      requires Valid()
      modifies this, disk
      ensures Valid()
      ensures (Abs(), r) == OnOpen(c, old(Abs()), path, TempPath(path, slot, id), size, crc, io)
    {
      if upload.Some? {
        return Error(Busy);
      }
      if !PathOk(path) {
        return Error(InvalidPayload);
      }
      var temp := TempPath(path, slot, id);
      if size > MAX_FILE {
        return Error(LimitExceeded);
      }
      if !io.create || (temp in disk.store && disk.store[temp].Directory?) {
        return Error(IoFailed);
      }
      disk.Put(temp, []);
      upload := Some(Upload(path, temp, size, crc, 0, c.begin));
      return Ready(size, crc);
    }

    method HandleWriteChunk(offset: nat, piece: seq<u8>, io: Io) returns (r: Reply)
      requires Valid()
      modifies this, disk
      ensures Valid()
      ensures (Abs(), r) == OnChunk(c, old(Abs()), offset, piece, io)
    {
      if upload.None? {
        return Error(InvalidPayload);
      }
      var u := upload.value;
      if |piece| > CHUNK_SIZE || offset != u.received {
        return Error(InvalidPayload);
      }
      if |piece| > u.size - u.received {
        return Error(LimitExceeded);
      }
      var held := disk.store[u.temp].data;
      if piece != [] && !io.write {
        disk.Put(u.temp, held + piece[..Min(io.written, |piece|)]);
        return Error(IoFailed);
      }
      disk.Put(u.temp, held + piece);
      upload := Some(u.(received := u.received + |piece|, running := CrcUpdate(c, u.running, piece)));
      return Ack(u.received + |piece|);
    }

    /** A commit carries no payload. */
    method HandleCommit(length: nat, io: Io) returns (r: Reply)
      requires Valid()
      modifies this, disk
      ensures Valid()
      ensures (Abs(), r) == if length != 0 then (old(Abs()), Error(InvalidPayload)) else OnCommit(c, old(Abs()), io)
    {
      if length != 0 || upload.None? {
        return Error(InvalidPayload);
      }
      var u := upload.value;
      upload := None;
      if !io.flush {
        disk.Delete(u.temp, io.promote.deleteTemp);
        return Error(IoFailed);
      }
      if u.received != u.size || c.end(u.running) != u.crc {
        disk.Delete(u.temp, io.promote.deleteTemp);
        return Error(CrcMismatch);
      }
      var status := disk.PromoteTemp(u.final, u.temp, io.promote);
      if status != Ok {
        return Error(status);
      }
      return Complete(u.received, c.end(u.running));
    }
  }

  /** An upload with what it has acknowledged and how many bytes failed writes left behind. */
  datatype Tracked = Tracked(agent: Agent, accepted: seq<u8>, junk: nat)

  /** What holds of an upload in progress under any client. */
  predicate Consistent(c: Crc, t: Tracked) {
    t.agent.upload.Some? ==>
      var u := t.agent.upload.value;
      && IsFile(t.agent.store, u.temp) && u.temp != u.final && u.temp != BackupPath(u.final)
      && u.received == |t.accepted| <= u.size && u.running == CrcUpdate(c, c.begin, t.accepted)
      && |t.agent.store[u.temp].data| == |t.accepted| + t.junk
      && (t.junk == 0 ==> t.agent.store[u.temp].data == t.accepted)
  }

  /** A chunk, with the bookkeeping of what was acknowledged. */
  function TrackChunk(c: Crc, t: Tracked, offset: nat, piece: seq<u8>, io: Io): Tracked
    requires Consistent(c, t)
  {
    var (a, r) := OnChunk(c, t.agent, offset, piece, io);
    if r.Ack? then Tracked(a, t.accepted + piece, t.junk)
    else if r == Error(IoFailed) then Tracked(a, t.accepted, t.junk + Min(io.written, |piece|))
    else Tracked(a, t.accepted, t.junk)
  }

  lemma ChunkKeeps(c: Crc, t: Tracked, offset: nat, piece: seq<u8>, io: Io)
    requires Consistent(c, t)
    ensures Consistent(c, TrackChunk(c, t, offset, piece, io))
    ensures TrackChunk(c, t, offset, piece, io).accepted
      == t.accepted + if OnChunk(c, t.agent, offset, piece, io).1.Ack? then piece else []
  {
    if t.agent.upload.Some? {
      CrcJoin(c, c.begin, t.accepted, piece);
    }
  }

  /**
    Completion is confirmed only for the declared size and CRC of the bytes acknowledged; the file
    now at the target is those bytes exactly when no failed write had left bytes in it.
   */
  lemma CommitConfirms(c: Crc, t: Tracked, io: Io)
    requires Consistent(c, t)
    ensures var (a, r) := OnCommit(c, t.agent, io);
            r.Complete? ==>
              && t.agent.upload.Some? && a.upload.None?
              && |t.accepted| == t.agent.upload.value.size == r.size
              && CrcOf(c, t.accepted) == t.agent.upload.value.crc == r.crc
              && IsFile(a.store, t.agent.upload.value.final)
              && (a.store[t.agent.upload.value.final].data == t.accepted <==> t.junk == 0)
              && t.agent.upload.value.temp !in a.store
  {
    hide CrcUpdate;
    if t.agent.upload.Some? {
      var u := t.agent.upload.value;
      PromotedOutcome(t.agent.store, u.final, u.temp, io.promote);
      TempLeftBehind(t.agent.store, u.final, u.temp, io.promote);
    }
  }

  /** Completion is confirmed exactly when size and CRC match and the file system lets the rename through. */
  lemma CommitIff(c: Crc, t: Tracked, io: Io)
    requires Consistent(c, t) && t.agent.upload.Some?
    ensures var u := t.agent.upload.value;
            OnCommit(c, t.agent, io).1.Complete? <==>
              && io.flush && |t.accepted| == u.size && CrcOf(c, t.accepted) == u.crc
              && Promotes(t.agent.store, u.final, io.promote)
  {
    hide CrcUpdate, Promotes, Promoted;
  }

  const GOOD_IO := Io(true, true, 0, true, PromoteIo(true, true, true, true, true, true))

  /**
    Why a client must not repeat a chunk whose write failed: the second copy lands behind what the
    first one left, the counters match, and the confirmed file is not what was sent.
   */
  lemma RetryAfterShortWriteCorrupts(c: Crc)
    ensures var t0 := Tracked(OnOpen(c, Agent(map[], None), "A", "A.0.1.PART", 1, CrcOf(c, [7]), GOOD_IO).0, [], 0);
            Consistent(c, t0) &&
            var t1 := TrackChunk(c, t0, 0, [7], GOOD_IO.(write := false, written := 1));
            Consistent(c, t1) &&
            var t2 := TrackChunk(c, t1, 0, [7], GOOD_IO);
            Consistent(c, t2) &&
            var (a, r) := OnCommit(c, t2.agent, GOOD_IO);
            t2.accepted == [7] && r == Complete(1, CrcOf(c, [7])) && a.store["A"] == File([7, 7])
  {
    hide CrcUpdate, BackupPath;
    var t0 := Tracked(OnOpen(c, Agent(map[], None), "A", "A.0.1.PART", 1, CrcOf(c, [7]), GOOD_IO).0, [], 0);
    NamesDiffer();
    assert CrcUpdate(c, c.begin, []) == c.begin by { CrcNothing(c); }
    ChunkKeeps(c, t0, 0, [7], GOOD_IO.(write := false, written := 1));
    var t1 := TrackChunk(c, t0, 0, [7], GOOD_IO.(write := false, written := 1));
    ChunkKeeps(c, t1, 0, [7], GOOD_IO);
    assert [7][..1] == [7] && [] + [7] == [7] && [7] + [7] == [7, 7];
  }

  lemma CrcNothing(c: Crc)
    ensures CrcUpdate(c, c.begin, []) == c.begin
  {
  }

  lemma NamesDiffer()
    ensures "A.0.1.PART" != "A" && "A.0.1.PART" != BackupPath("A") && BackupPath("A") != "A"
  {
    assert |"A.0.1.PART"| == 10 && |BackupPath("A")| == 9;
  }
}
