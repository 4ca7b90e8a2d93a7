/** Reading DNS names and packets: the agent's name reader and the host's parser. */
module MdnsReader {
  import opened LittleEndian
  import opened MdnsWire
  import opened Wrappers

  const NAME_MAX := 256
  const JUMPS_MAX := 16

  /** A decoded name and where the text after it starts. */
  datatype Named = Named(labels: Labels, end: nat)

  function Or(end: Option<nat>, at: nat): nat {
    if end.Some? then end.value else at
  }

  /** A possibly compressed name (section 4.1.4 of RFC 1035); at most sixteen pointers are followed. */
  function NameFrom(p: seq<u8>, at: nat, jumps: nat, labels: Labels, end: Option<nat>): Option<Named>
    requires jumps <= JUMPS_MAX
    decreases JUMPS_MAX - jumps, |p| - at
  {
    if at >= |p| then None
    else
      var size := p[at];
      if size == 0 then Some(Named(labels, Or(end, at + 1)))
      else if size >= 0xC0 then
        if at + 1 >= |p| || jumps + 1 > JUMPS_MAX then None
        else NameFrom(p, Target(size, p[at + 1]), jumps + 1, labels, Some(Or(end, at + 2)))
      else if size >= 0x40 || at + 1 + size > |p| then None
      else NameFrom(p, at + 1 + size, jumps, labels + [p[at + 1..at + 1 + size]], end)
  }

  /** Where a compression pointer leads. */
  function Target(high: int, low: int): nat
    requires 0xC0 <= high && 0 <= low
  {
    (high - 0xC0) * 0x100 + low
  }

  /** The dotted text of labels, one size more. */
  lemma DottedLast(ls: Labels, l: seq<u8>)
    ensures Dotted(ls + [l], DOT) == if ls == [] then l else Dotted(ls, DOT) + [DOT] + l
  {
    assert (ls + [l])[..|ls|] == ls;
  }

  lemma {:induction false} DottedGrows(p: seq<u8>, at: nat, jumps: nat, labels: Labels, end: Option<nat>)
    requires jumps <= JUMPS_MAX && NameFrom(p, at, jumps, labels, end).Some?
    ensures |Dotted(labels, DOT)| <= |Dotted(NameFrom(p, at, jumps, labels, end).value.labels, DOT)|
    decreases JUMPS_MAX - jumps, |p| - at
  {
    hide Dotted;
    var size := p[at];
    if size >= 0xC0 {
      DottedGrows(p, Target(size, p[at + 1]), jumps + 1, labels, Some(Or(end, at + 2)));
    } else if size != 0 {
      var l := p[at + 1..at + 1 + size];
      DottedLast(labels, l);
      if labels == [] {
        NoDots();
      }
      DottedGrows(p, at + 1 + size, jumps, labels + [l], end);
    }
  }

  lemma NoDots()
    ensures Dotted<u8>([], DOT) == []
  {
  }

  /** The agent's reader: the same names, as long as the dotted text fits its buffer. */
  method ReadName(p: seq<u8>, offset: nat, name: array<u8>) returns (ok: bool, next: nat, out: nat)
    requires name.Length == NAME_MAX
    modifies name
    ensures ok <==> NameFrom(p, offset, 0, [], None).Some?
                    && |Dotted(NameFrom(p, offset, 0, [], None).value.labels, DOT)| < NAME_MAX
    ensures ok ==> var n := NameFrom(p, offset, 0, [], None).value;
                   next == n.end && out < NAME_MAX && name[out] == 0 && name[..out] == Dotted(n.labels, DOT)
  {
    hide Dotted;
    ghost var spec := NameFrom(p, offset, 0, [], None);
    ghost var labels: Labels := [];
    NoDots();
    var at: nat, jumps: nat := offset, 0;
    next, out := offset, 0;
    var end: Option<nat> := None;
    while true
      invariant 0 <= jumps <= JUMPS_MAX && NameFrom(p, at, jumps, labels, end) == spec
      invariant out < NAME_MAX && name[..out] == Dotted(labels, DOT) && (out == 0 <==> labels == [])
      decreases JUMPS_MAX - jumps, |p| - at
    {
      if at >= |p| {
        return false, next, out;
      }
      var size := p[at];
      if size == 0 {
        next := Or(end, at + 1);
        break;
      }
      if size >= 0xC0 {
        if at + 1 >= |p| || jumps + 1 > JUMPS_MAX {
          return false, next, out;
        }
        end := Some(Or(end, at + 2));
        jumps := jumps + 1;
        at := Target(size, p[at + 1]);
        continue;
      }
      if size >= 0x40 || at + 1 + size > |p| {
        return false, next, out;
      }
      ghost var l := p[at + 1..at + 1 + size];
      DottedLast(labels, l);
      if out + size + 1 >= NAME_MAX {
        if spec.Some? {
          DottedGrows(p, at + 1 + size, jumps, labels + [l], end);
        }
        return false, next, out;
      }
      out := AppendLabel(name, out, p, at, labels);
      labels := labels + [l];
      at := at + 1 + size;
    }
    name[out] := 0;
    ok := true;
  }

  /** A dot if needed, then the size's bytes. */
  method AppendLabel(name: array<u8>, out: nat, p: seq<u8>, at: nat, ghost labels: Labels) returns (out': nat)
    requires name.Length == NAME_MAX && at < |p| && 1 <= p[at] < 0x40 && at + 1 + p[at] <= |p|
    requires out + p[at] + 1 < NAME_MAX && name[..out] == Dotted(labels, DOT) && (out == 0 <==> labels == [])
    modifies name
    ensures out' < NAME_MAX && out' != 0
    ensures name[..out'] == Dotted(labels + [p[at + 1..at + 1 + p[at]]], DOT)
  {
    hide Dotted;
    ghost var l := p[at + 1..at + 1 + p[at]];
    DottedLast(labels, l);
    var length: nat := p[at];
    out' := out;
    if out != 0 {
      name[out] := DOT;
      out' := out + 1;
    }
    ghost var before := name[..out'];
    var from := out';
    for i := 0 to length
      invariant out' == from + i && name[..out'] == before + l[..i]
    {
      name[out'] := p[at + 1 + i];
      out' := out' + 1;
    }
  }

  /** Text as the host keeps it: bytes beyond ASCII become the replacement character. */
  function Decode(b: seq<u8>): (t: seq<int>)
    ensures |t| == |b|
  {
    seq(|b|, i requires 0 <= i < |b| => if b[i] < 128 then b[i] as int else 0xFFFD)
  }

  function DecodeAll(ls: Labels): (t: seq<seq<int>>)
    ensures |t| == |ls| && forall i :: 0 <= i < |ls| ==> t[i] == Decode(ls[i])
  {
    seq(|ls|, i requires 0 <= i < |ls| => Decode(ls[i]))
  }

  function TextOf(ls: Labels): seq<int> {
    Dotted(DecodeAll(ls), 46)
  }

  /** The host's reader. */
  method MdnsReadName(p: seq<u8>, offset: nat) returns (r: Option<Named>)
    ensures r == NameFrom(p, offset, 0, [], None)
  {
    var labels: Labels := [];
    var end: Option<nat> := None;
    var at: nat, jumps: nat := offset, 0;
    while true
      invariant 0 <= jumps <= JUMPS_MAX && NameFrom(p, at, jumps, labels, end) == NameFrom(p, offset, 0, [], None)
      decreases JUMPS_MAX - jumps, |p| - at
    {
      if at >= |p| {
        return None;
      }
      var length := p[at];
      if length == 0 {
        return Some(Named(labels, Or(end, at + 1)));
      }
      if length >= 0xC0 {
        if at + 1 >= |p| || jumps + 1 > JUMPS_MAX {
          return None;
        }
        jumps := jumps + 1;
        end := Some(Or(end, at + 2));
        at := Target(length, p[at + 1]);
      } else {
        if length >= 0x40 || at + 1 + length > |p| {
          return None;
        }
        labels := labels + [p[at + 1..at + 1 + length]];
        at := at + 1 + length;
      }
    }
  }

  function Big16(p: seq<u8>, at: nat): nat
    requires at + 2 <= |p|
  {
    var high: int, low: int := p[at], p[at + 1];
    low + 0x100 * high
  }

  function Big32(p: seq<u8>, at: nat): nat
    requires at + 4 <= |p|
  {
    Big16(p, at) * 0x1_0000 + Big16(p, at + 2)
  }

  datatype Data =
    | Address(address: seq<u8>)
    | Pointer(name: seq<int>)
    | Server(priority: nat, weight: nat, port: nat, target: seq<int>)
    | Texts(texts: seq<seq<int>>)
    | Other(raw: seq<u8>)

  datatype Parsed = Parsed(name: seq<int>, rtype: nat, klass: nat, cacheFlush: bool, ttl: nat, data: Data)

  datatype Packet = Packet(id: nat, isResponse: bool, records: seq<Parsed>)

  /** The non-empty strings of TXT data. */
  function TextsFrom(rdata: seq<u8>, at: nat, acc: seq<seq<int>>): Option<seq<seq<int>>>
    decreases |rdata| - at
  {
    if at >= |rdata| then Some(acc)
    else
      var size := rdata[at];
      if at + 1 + size > |rdata| then None
      else
        TextsFrom(rdata, at + 1 + size,
                  if size != 0 then acc + [Decode(rdata[at + 1..at + 1 + size])] else acc)
  }

  function NameData(p: seq<u8>, at: nat): Option<seq<int>> {
    match NameFrom(p, at, 0, [], None)
    case None => None
    case Some(n) => Some(TextOf(n.labels))
  }

  /** The data of a record by its type. */
  function DataFrom(p: seq<u8>, at: nat, length: nat, rtype: nat): Option<Data>
    requires at + length <= |p|
  {
    if rtype == TYPE_A then if length != 4 then None else Some(Address(p[at..at + 4]))
    else if rtype == TYPE_PTR then
      match NameData(p, at)
      case None => None
      case Some(t) => Some(Pointer(t))
    else if rtype == TYPE_SRV then
      if length < 7 then None
      else
        match NameData(p, at + 6)
        case None => None
        case Some(t) => Some(Server(Big16(p, at), Big16(p, at + 2), Big16(p, at + 4), t))
    else if rtype == TYPE_TXT then
      match TextsFrom(p[at..at + length], 0, [])
      case None => None
      case Some(t) => Some(Texts(t))
    else Some(Other(p[at..at + length]))
  }

  /** One record and where the next one starts. */
  function RecordFrom(p: seq<u8>, offset: nat): Option<(Parsed, nat)> {
    match NameFrom(p, offset, 0, [], None)
    case None => None
    case Some(n) =>
      if n.end + 10 > |p| then None
      else
        var rtype, klass := Big16(p, n.end), Big16(p, n.end + 2);
        var ttl, length := Big32(p, n.end + 4), Big16(p, n.end + 8);
        var at := n.end + 10;
        if at + length > |p| then None
        else
          match DataFrom(p, at, length, rtype)
          case None => None
          case Some(d) =>
            Some((Parsed(TextOf(n.labels), rtype, klass % 0x8000, klass >= 0x8000, ttl, d), at + length))
  }

  function RecordsFrom(p: seq<u8>, offset: nat, count: nat, acc: seq<Parsed>): Option<seq<Parsed>>
    decreases count
  {
    if count == 0 then Some(acc)
    else
      match RecordFrom(p, offset)
      case None => None
      case Some(r) => RecordsFrom(p, r.1, count - 1, acc + [r.0])
  }

  function QuestionsFrom(p: seq<u8>, offset: nat, count: nat): Option<nat>
    decreases count
  {
    if count == 0 then Some(offset)
    else
      match NameFrom(p, offset, 0, [], None)
      case None => None
      case Some(n) => QuestionsFrom(p, n.end + 4, count - 1)
  }

  /** The host's parser; None where it raises. */
  function ParsePacket(p: seq<u8>): Option<Packet> {
    if |p| < 12 then None
    else
      match QuestionsFrom(p, 12, Big16(p, 4))
      case None => None
      case Some(offset) =>
        match RecordsFrom(p, offset, Big16(p, 6) + Big16(p, 8) + Big16(p, 10), [])
        case None => None
        case Some(rs) => Some(Packet(Big16(p, 0), Big16(p, 2) >= 0x8000, rs))
  }

  /** The strings of TXT data, one length byte at a time. */
  method ReadTexts(rdata: seq<u8>) returns (r: Option<seq<seq<int>>>)
    ensures r == TextsFrom(rdata, 0, [])
  {
    var data: seq<seq<int>> := [];
    var at := 0;
    while at < |rdata|
      invariant 0 <= at && TextsFrom(rdata, at, data) == TextsFrom(rdata, 0, [])
      decreases |rdata| - at
    {
      var size := rdata[at];
      if at + 1 + size > |rdata| {
        return None;
      }
      if size != 0 {
        data := data + [Decode(rdata[at + 1..at + 1 + size])];
      }
      at := at + 1 + size;
    }
    return Some(data);
  }

  method ReadData(p: seq<u8>, at: nat, length: nat, rtype: nat) returns (r: Option<Data>)
    requires at + length <= |p|
    ensures r == DataFrom(p, at, length, rtype)
  {
    hide NameFrom, TextsFrom, TextOf;
    if rtype == TYPE_A {
      return if length != 4 then None else Some(Address(p[at..at + 4]));
    }
    if rtype == TYPE_PTR {
      var n := MdnsReadName(p, at);
      return if n.None? then None else Some(Pointer(TextOf(n.value.labels)));
    }
    if rtype == TYPE_SRV {
      if length < 7 {
        return None;
      }
      var n := MdnsReadName(p, at + 6);
      return if n.None? then None
             else Some(Server(Big16(p, at), Big16(p, at + 2), Big16(p, at + 4), TextOf(n.value.labels)));
    }
    if rtype == TYPE_TXT {
      var t := ReadTexts(p[at..at + length]);
      return if t.None? then None else Some(Texts(t.value));
    }
    return Some(Other(p[at..at + length]));
  }

  method ReadRecord(p: seq<u8>, offset: nat) returns (r: Option<(Parsed, nat)>)
    ensures r == RecordFrom(p, offset)
  {
    hide NameFrom, DataFrom, TextOf;
    var n := MdnsReadName(p, offset);
    if n.None? || n.value.end + 10 > |p| {
      return None;
    }
    var end := n.value.end;
    var rtype, klass := Big16(p, end), Big16(p, end + 2);
    var ttl, length := Big32(p, end + 4), Big16(p, end + 8);
    if end + 10 + length > |p| {
      return None;
    }
    var d := ReadData(p, end + 10, length, rtype);
    if d.None? {
      return None;
    }
    return Some((Parsed(TextOf(n.value.labels), rtype, klass % 0x8000, klass >= 0x8000, ttl, d.value), end + 10 + length));
  }

  /** Parse a packet record by record. */
  method ParseMdnsPacket(p: seq<u8>) returns (r: Option<Packet>)
    ensures r == ParsePacket(p)
  {
    hide NameFrom, RecordFrom;
    if |p| < 12 {
      return None;
    }
    var offset: nat := 12;
    var questions, total := Big16(p, 4), Big16(p, 6) + Big16(p, 8) + Big16(p, 10);
    for i := 0 to questions
      invariant QuestionsFrom(p, offset, questions - i) == QuestionsFrom(p, 12, questions)
    {
      var n := MdnsReadName(p, offset);
      if n.None? {
        return None;
      }
      offset := n.value.end + 4;
    }
    var records: seq<Parsed> := [];
    ghost var start := offset;
    for i := 0 to total
      invariant RecordsFrom(p, offset, total - i, records) == RecordsFrom(p, start, total, [])
    {
      var record := ReadRecord(p, offset);
      if record.None? {
        return None;
      }
      records := records + [record.value.0];
      offset := record.value.1;
    }
    return Some(Packet(Big16(p, 0), Big16(p, 2) >= 0x8000, records));
  }
}
