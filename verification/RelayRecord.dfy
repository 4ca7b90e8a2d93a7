/** Signed records: their layout, the agent's reader and the operator's signer. */
module RelayRecord {
  import opened LittleEndian
  import opened RelayText
  import opened Sequences
  import opened Wrappers

  const RECORD_HEADER := 76
  const CHUNK_MAX := 1048576
  const MAGIC: seq<u8> := [0x56, 0x39, 0x58, 0x44]

  type Signature = s: seq<u8> | |s| == 64
    witness [0, 0, 0, 0, 0, 0, 0, 0, 0, 0, 0, 0, 0, 0, 0, 0, 0, 0, 0, 0, 0, 0, 0, 0, 0, 0, 0, 0, 0, 0, 0, 0,
             0, 0, 0, 0, 0, 0, 0, 0, 0, 0, 0, 0, 0, 0, 0, 0, 0, 0, 0, 0, 0, 0, 0, 0, 0, 0, 0, 0, 0, 0, 0, 0]

  /** The hash and the signature scheme, about which nothing is assumed. */
  datatype Crypto = Crypto(hash: seq<u8> -> Digest, sign: string -> Signature, verify: (Signature, string) -> bool)

  datatype Record = Record(seqNo: u32, signature: Signature, data: seq<u8>)

  predicate WellFormed(r: Record) {
    1 <= |r.data| <= CHUNK_MAX
  }

  /** A record as it travels. */
  ghost function Encode(r: Record): (s: seq<u8>)
    requires WellFormed(r)
    ensures |s| == RECORD_HEADER + |r.data|
  {
    MAGIC + Field32(r.seqNo) + Field32(|r.data|) + r.signature + r.data
  }

  datatype Step = Found(record: Record, next: nat) | End | Bad

  /** The record at an offset of a batch. */
  function Next(batch: seq<u8>, offset: nat): (s: Step)
    ensures s.Found? ==> WellFormed(s.record) && offset < s.next <= |batch|
  {
    if offset > |batch| then Bad
    else if offset == |batch| then End
    else if |batch| - offset < RECORD_HEADER || batch[offset..offset + 4] != MAGIC then Bad
    else
      var length := Get32(batch, offset + 8);
      if length == 0 || length > CHUNK_MAX || length > |batch| - offset - RECORD_HEADER then Bad
      else
        Found(Record(Get32(batch, offset + 4), batch[offset + 12..offset + 76],
                     batch[offset + 76..offset + 76 + length]),
              offset + RECORD_HEADER + length)
  }

  /** Fields read at a place are those of the four bytes there. */
  lemma FieldAt(s: seq<u8>, i: nat, v: u32)
    requires i + 4 <= |s|
    ensures s[i..i + 4] == Field32(v) <==> Get32(s, i) == v
  {
    var f := s[i..i + 4];
    assert Get32(f, 0) == Get32(s, i);
    if Get32(s, i) == v {
      Get32Injective(f, Field32(v));
    }
  }

  lemma EncodeParts(r: Record)
    requires WellFormed(r)
    ensures var e := Encode(r);
            && e[..4] == MAGIC && e[4..8] == Field32(r.seqNo) && e[8..12] == Field32(|r.data|)
            && e[12..76] == r.signature && e[76..] == r.data
  {
    hide Field32;
  }

  /** The reader finds a record exactly where an encoded one stands, and that very one. */
  lemma NextIff(batch: seq<u8>, offset: nat, r: Record)
    requires WellFormed(r) && offset <= |batch|
    ensures Next(batch, offset) == Found(r, offset + RECORD_HEADER + |r.data|)
      <==> offset + |Encode(r)| <= |batch| && batch[offset..offset + |Encode(r)|] == Encode(r)
  {
    hide Get32, Field32, Encode;
    EncodeParts(r);
    var n := |Encode(r)|;
    if offset + n <= |batch| {
      FieldAt(batch, offset + 4, r.seqNo);
      FieldAt(batch, offset + 8, |r.data|);
      var here := batch[offset..offset + n];
      SliceOfSlice(batch, offset, offset + n, 0, 4);
      SliceOfSlice(batch, offset, offset + n, 4, 8);
      SliceOfSlice(batch, offset, offset + n, 8, 12);
      SliceOfSlice(batch, offset, offset + n, 12, 76);
      SliceOfSlice(batch, offset, offset + n, 76, n);
      if Next(batch, offset) == Found(r, offset + RECORD_HEADER + |r.data|) {
        SameParts(here, Encode(r));
      }
    }
  }

  lemma SameParts(a: seq<u8>, b: seq<u8>)
    requires |a| == |b| >= 76 && a[..4] == b[..4] && a[4..8] == b[4..8] && a[8..12] == b[8..12]
    requires a[12..76] == b[12..76] && a[76..] == b[76..]
    ensures a == b
  {
    assert a == a[..4] + a[4..8] + a[8..12] + a[12..76] + a[76..];
    assert b == b[..4] + b[4..8] + b[8..12] + b[12..76] + b[76..];
  }

  /** The agent's reader: the fields are only looked at once the length is known to be inside the batch. */
  method RelayNext(batch: seq<u8>, offset: nat) returns (step: Step)
    ensures step == Next(batch, offset)
  {
    if offset > |batch| {
      return Bad;
    }
    if offset == |batch| {
      return End;
    }
    if |batch| - offset < RECORD_HEADER
       || batch[offset] != 0x56 || batch[offset + 1] != 0x39 || batch[offset + 2] != 0x58 || batch[offset + 3] != 0x44 {
      return Bad;
    }
    assert batch[offset..offset + 4] == MAGIC;
    var length := Get32(batch, offset + 8);
    if length == 0 || length > CHUNK_MAX || length > |batch| - offset - RECORD_HEADER {
      return Bad;
    }
    var record := Record(Get32(batch, offset + 4), batch[offset + 12..offset + 76],
                         batch[offset + 76..offset + 76 + length]);
    return Found(record, offset + RECORD_HEADER + length);
  }

  ghost function EncodeAll(rs: seq<Record>): seq<u8>
    requires forall r :: r in rs ==> WellFormed(r)
  {
    if rs == [] then [] else Encode(rs[0]) + EncodeAll(rs[1..])
  }

  lemma {:induction false} EncodeAllJoin(a: seq<Record>, b: seq<Record>)
    requires forall r :: r in a + b ==> WellFormed(r)
    ensures forall r :: r in a ==> r in a + b
    ensures forall r :: r in b ==> r in a + b
    ensures EncodeAll(a + b) == EncodeAll(a) + EncodeAll(b)
  {
    if a == [] {
      assert a + b == b;
    } else {
      assert (a + b)[1..] == a[1..] + b;
      EncodeAllJoin(a[1..], b);
    }
  }

  /** Every record of a batch, or None when the reader would stop at something malformed. */
  function ReadAll(batch: seq<u8>, offset: nat): (rs: Option<seq<Record>>)
    ensures rs.Some? ==> forall r :: r in rs.value ==> WellFormed(r)
    decreases |batch| - offset
  {
    match Next(batch, offset)
    case End => Some([])
    case Bad => None
    case Found(r, next) =>
      match ReadAll(batch, next)
      case None => None
      case Some(rest) => Some([r] + rest)
  }

  lemma AtEnd(batch: seq<u8>)
    ensures Next(batch, |batch|) == End
  {
  }

  /** Reading what was written gives back the records. */
  lemma {:induction false} ReadOfEncode(before: seq<u8>, rs: seq<Record>)
    requires forall r :: r in rs ==> WellFormed(r)
    ensures ReadAll(before + EncodeAll(rs), |before|) == Some(rs)
    decreases |rs|
  {
    hide Next, Encode, ReadAll;
    var batch := before + EncodeAll(rs);
    if rs == [] {
      AtEnd(batch);
      ReadStep(batch, |before|);
    } else {
      var e := Encode(rs[0]);
      assert batch == before + e + EncodeAll(rs[1..]);
      assert batch[|before|..|before| + |e|] == e;
      NextIff(batch, |before|, rs[0]);
      ReadOfEncode(before + e, rs[1..]);
      ReadStep(batch, |before|);
      assert rs == [rs[0]] + rs[1..];
    }
  }

  lemma ReadStep(batch: seq<u8>, offset: nat)
    ensures var s := Next(batch, offset);
            && (s.End? ==> ReadAll(batch, offset) == Some([]))
            && (s.Found? && ReadAll(batch, s.next).Some? ==>
                  ReadAll(batch, offset) == Some([s.record] + ReadAll(batch, s.next).value))
  {
    hide Next;
  }

  /** Only the encoding of a record list reads as that list: nothing in a batch is ignored. */
  lemma {:induction false} EncodeOfRead(batch: seq<u8>, offset: nat)
    requires ReadAll(batch, offset).Some?
    ensures offset <= |batch| && EncodeAll(ReadAll(batch, offset).value) == batch[offset..]
    decreases |batch| - offset
  {
    var step := Next(batch, offset);
    if step.Found? {
      EncodeOfRead(batch, step.next);
      FoundIs(batch, offset);
      NextIff(batch, offset, step.record);
      var rest := ReadAll(batch, step.next).value;
      assert ReadAll(batch, offset).value == [step.record] + rest;
      assert ([step.record] + rest)[1..] == rest;
      assert batch[offset..] == batch[offset..step.next] + batch[step.next..];
    }
  }

  lemma FoundIs(batch: seq<u8>, offset: nat)
    requires Next(batch, offset).Found?
    ensures var step := Next(batch, offset); step.next == offset + RECORD_HEADER + |step.record.data|
  {
  }

  /** The operator's data cut into chunks. */
  function Chunks(data: seq<u8>): (cs: seq<seq<u8>>)
    ensures forall c :: c in cs ==> 1 <= |c| <= CHUNK_MAX
    ensures cs == [] <==> data == []
    decreases |data|
  {
    if data == [] then []
    else if |data| <= CHUNK_MAX then [data]
    else [data[..CHUNK_MAX]] + Chunks(data[CHUNK_MAX..])
  }

  lemma {:induction false} ChunksJoin(data: seq<u8>)
    ensures Joined(Chunks(data)) == data
    decreases |data|
  {
    if |data| > CHUNK_MAX {
      ChunksJoin(data[CHUNK_MAX..]);
      assert ([data[..CHUNK_MAX]] + Chunks(data[CHUNK_MAX..]))[1..] == Chunks(data[CHUNK_MAX..]);
    } else if data != [] {
      assert Chunks(data)[1..] == [];
    }
  }

  /** A sequence number as the 32-bit field of the record and of the signed text. */
  function Cast32(n: nat): u32 {
    n % 0x1_0000_0000
  }

  /** The statement a signature makes about a chunk. */
  function Statement(c: Crypto, n: Names, seqNo: u32, data: seq<u8>): string {
    Text(n, seqNo, c.hash(data))
  }

  function Signed(c: Crypto, n: Names, seqNo: nat, data: seq<u8>): (r: Record)
    requires 1 <= |data| <= CHUNK_MAX
    ensures WellFormed(r)
  {
    Record(Cast32(seqNo), c.sign(Statement(c, n, Cast32(seqNo), data)), data)
  }

  function SignAll(c: Crypto, n: Names, first: nat, cs: seq<seq<u8>>): (rs: seq<Record>)
    requires forall x :: x in cs ==> 1 <= |x| <= CHUNK_MAX
    ensures |rs| == |cs|
    ensures forall r :: r in rs ==> WellFormed(r)
    ensures forall i :: 0 <= i < |cs| ==> rs[i] == Signed(c, n, first + i, cs[i])
  {
    seq(|cs|, i requires 0 <= i < |cs| => Signed(c, n, first + i, cs[i]))
  }

  lemma SignNext(c: Crypto, n: Names, first: nat, cs: seq<seq<u8>>, x: seq<u8>)
    requires (forall y :: y in cs ==> 1 <= |y| <= CHUNK_MAX) && 1 <= |x| <= CHUNK_MAX
    ensures SignAll(c, n, first, cs + [x]) == SignAll(c, n, first, cs) + [Signed(c, n, first + |cs|, x)]
  {
    hide Signed;
    var a, b := SignAll(c, n, first, cs + [x]), SignAll(c, n, first, cs) + [Signed(c, n, first + |cs|, x)];
    forall i | 0 <= i < |a|
      ensures a[i] == b[i]
    {
      assert a[i] == Signed(c, n, first + i, (cs + [x])[i]);
    }
  }

  /** The records of a chunked file, one header and one signature a chunk; numbers start above zero. */
  method SignRelay(c: Crypto, n: Names, first: nat, data: seq<u8>) returns (ok: bool, out: seq<u8>, next: nat)
    requires NoNul(n.machine) && NoNul(n.install) && NoNul(n.nonce) && NoNul(n.session)
    ensures ok <==> first > 0 && (data == [] || NamesValid(n))
    ensures ok ==> out == EncodeAll(SignAll(c, n, first, Chunks(data))) && next == first + |Chunks(data)|
  {
    hide NamesValid, Text, Encode, SignAll, Signed, EncodeAll, Chunks, NoNul, Cast32;
    assert EncodeAll(SignAll(c, n, first, [])) == [] by { NothingSigned(c, n, first); }
    assert data[0..] == data;
    ChunksEnd(data);
    out, next := [], first;
    if first == 0 {
      return false, [], 0;
    }
    var offset := 0;
    ghost var done: seq<seq<u8>> := [];
    while offset < |data|
      invariant offset <= |data| && (offset > 0 ==> NamesValid(n))
      invariant forall x :: x in done ==> 1 <= |x| <= CHUNK_MAX
      invariant done + Chunks(data[offset..]) == Chunks(data)
      invariant next == first + |done|
      invariant out == EncodeAll(SignAll(c, n, first, done))
    {
      var piece := |data| - offset;
      if piece > CHUNK_MAX {
        piece := CHUNK_MAX;
      }
      var chunk := data[offset..offset + piece];
      var record;
      ok, record := SignOne(c, n, next, chunk);
      if !ok {
        return;
      }
      SignStep(c, n, first, data, done, offset, piece);
      done := done + [chunk];
      out := out + record;
      offset := offset + piece;
      next := next + 1;
    }
    assert done == Chunks(data);
    ok := true;
  }

  lemma NothingSigned(c: Crypto, n: Names, first: nat)
    ensures EncodeAll(SignAll(c, n, first, [])) == []
  {
  }

  lemma ChunksEnd(data: seq<u8>)
    ensures Chunks(data[|data|..]) == []
  {
  }

  lemma ChunkStep(data: seq<u8>, offset: nat, piece: nat)
    requires offset < |data| && piece == (if |data| - offset > CHUNK_MAX then CHUNK_MAX else |data| - offset)
    ensures Chunks(data[offset..]) == [data[offset..offset + piece]] + Chunks(data[offset + piece..])
  {
    var rest := data[offset..];
    assert rest[piece..] == data[offset + piece..];
    if |rest| <= CHUNK_MAX {
      assert rest == data[offset..offset + piece];
      assert data[offset + piece..] == [];
    } else {
      assert rest[..CHUNK_MAX] == data[offset..offset + piece];
    }
  }

  /** What one turn of the signing loop adds. */
  lemma SignStep(c: Crypto, n: Names, first: nat, data: seq<u8>, done: seq<seq<u8>>, offset: nat, piece: nat)
    requires offset < |data| && piece == (if |data| - offset > CHUNK_MAX then CHUNK_MAX else |data| - offset)
    requires forall x :: x in done ==> 1 <= |x| <= CHUNK_MAX
    ensures var chunk := data[offset..offset + piece];
            && (done + [chunk]) + Chunks(data[offset + piece..]) == done + Chunks(data[offset..])
            && EncodeAll(SignAll(c, n, first, done + [chunk]))
              == EncodeAll(SignAll(c, n, first, done)) + Encode(Signed(c, n, first + |done|, chunk))
  {
    hide Encode, SignAll, Signed, EncodeAll, Chunks;
    var chunk := data[offset..offset + piece];
    ChunkStep(data, offset, piece);
    SignNext(c, n, first, done, chunk);
    LastEncoded(SignAll(c, n, first, done), Signed(c, n, first + |done|, chunk));
  }

  lemma LastEncoded(rs: seq<Record>, r: Record)
    requires (forall x :: x in rs ==> WellFormed(x)) && WellFormed(r)
    ensures forall x :: x in rs + [r] ==> WellFormed(x)
    ensures EncodeAll(rs + [r]) == EncodeAll(rs) + Encode(r)
  {
    EncodeAllJoin(rs, [r]);
    assert [r][1..] == [];
  }

  /** One chunk: its text, its header and its signature. */
  method SignOne(c: Crypto, n: Names, seqNo: nat, chunk: seq<u8>) returns (ok: bool, record: seq<u8>)
    requires NoNul(n.machine) && NoNul(n.install) && NoNul(n.nonce) && NoNul(n.session)
    requires 1 <= |chunk| <= CHUNK_MAX
    ensures ok <==> NamesValid(n)
    ensures ok ==> record == Encode(Signed(c, n, seqNo, chunk))
  {
    hide NamesValid, Text;
    var message := new char[MESSAGE_MAX](i => '\0');
    var length;
    ok, length := Message(n, Cast32(seqNo), c.hash(chunk), message);
    if !ok {
      return false, [];
    }
    var signature := c.sign(message[..length]);
    WriteIsField(Cast32(seqNo));
    WriteIsField(|chunk|);
    record := MAGIC + Write32(Cast32(seqNo)) + Write32(|chunk|) + signature + chunk;
  }
}
