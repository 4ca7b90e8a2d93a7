/** The records a service advertises and their bytes (RFC 1035 section 4.1). */
module MdnsWire {
  import opened LittleEndian

  const DOT: u8 := 46
  const MAX_TXT := 8
  const TTL_HOST := 120
  const TTL_OTHER := 4500
  const TTL_LEGACY := 10

  const TYPE_A := 1
  const TYPE_PTR := 12
  const TYPE_TXT := 16
  const TYPE_SRV := 33

  type Labels = seq<seq<u8>>

  datatype Which = Service | Enum | Srv | Txt | Addr

  /** One advertised instance; instance and host are single labels. */
  datatype Instance = Instance(instance: seq<u8>, host: seq<u8>, port: nat, address: seq<u8>, txt: seq<seq<u8>>)

  predicate InstanceOk(v: Instance) {
    v.port < 0x1_0000 && |v.address| == 4
  }

  /** A resource record before it is written. */
  datatype Rec = Rec(name: Labels, rtype: nat, klass: nat, ttl: nat, rdata: seq<u8>)

  function Ascii(s: string): (b: seq<u8>)
    requires forall i :: 0 <= i < |s| ==> s[i] < 128 as char
    ensures |b| == |s|
  {
    seq(|s|, i requires 0 <= i < |s| => s[i] as int)
  }

  /** The labels of a dotted name. */
  function Split(dotted: seq<u8>): (ls: Labels)
    ensures |ls| >= 1
  {
    if dotted == [] then [[]]
    else
      var front, last := Split(dotted[..|dotted| - 1]), dotted[|dotted| - 1];
      if last == DOT then front + [[]] else front[..|front| - 1] + [front[|front| - 1] + [last]]
  }

  /** The dotted form of labels. */
  function Dotted<T>(ls: seq<seq<T>>, dot: T): seq<T> {
    if ls == [] then []
    else if |ls| == 1 then ls[0]
    else Dotted(ls[..|ls| - 1], dot) + [dot] + ls[|ls| - 1]
  }

  /** Splitting and joining are inverse. */
  lemma {:induction false} DottedSplit(dotted: seq<u8>)
    ensures Dotted(Split(dotted), DOT) == dotted
  {
    hide Dotted, Split;
    if dotted == [] {
      SplitNothing();
      OneLabel([]);
    } else {
      var rest, last := dotted[..|dotted| - 1], dotted[|dotted| - 1];
      assert dotted == rest + [last];
      DottedSplit(rest);
      SplitStep(rest, last);
      var front := Split(rest);
      if last == DOT {
        JoinedLabel(front, []);
      } else {
        LastGrows(front[..|front| - 1], front[|front| - 1], last);
        assert front == front[..|front| - 1] + [front[|front| - 1]];
      }
    }
  }

  lemma SplitNothing()
    ensures Split([]) == [[]]
  {
  }

  lemma SplitStep(rest: seq<u8>, last: u8)
    ensures var ls := Split(rest);
            Split(rest + [last])
              == if last == DOT then ls + [[]] else ls[..|ls| - 1] + [ls[|ls| - 1] + [last]]
  {
    assert (rest + [last])[..|rest|] == rest;
  }

  /** A byte more in the last label is a byte more in the dotted text. */
  lemma LastGrows(head: Labels, tail: seq<u8>, last: u8)
    ensures Dotted(head + [tail + [last]], DOT) == Dotted(head + [tail], DOT) + [last]
  {
    hide Dotted;
    if head == [] {
      assert head + [tail] == [tail] && head + [tail + [last]] == [tail + [last]];
      OneLabel(tail);
      OneLabel(tail + [last]);
    } else {
      JoinedLabel(head, tail);
      JoinedLabel(head, tail + [last]);
      assert Dotted(head, DOT) + [DOT] + (tail + [last]) == Dotted(head, DOT) + [DOT] + tail + [last];
    }
  }

  lemma OneLabel(l: seq<u8>)
    ensures Dotted([l], DOT) == l
  {
  }

  lemma JoinedLabel(ls: Labels, l: seq<u8>)
    requires ls != []
    ensures Dotted(ls + [l], DOT) == Dotted(ls, DOT) + [DOT] + l
  {
    assert (ls + [l])[..|ls|] == ls;
  }

  function ServiceName(): Labels {
    Split(Ascii("_v9xremote._tcp.local"))
  }

  function EnumName(): Labels {
    Split(Ascii("_services._dns-sd._udp.local"))
  }

  function InstanceName(v: Instance): Labels {
    [v.instance] + ServiceName()
  }

  function HostName(v: Instance): Labels {
    [v.host] + Split(Ascii("local"))
  }

  predicate LabelOk(l: seq<u8>) {
    1 <= |l| <= 63
  }

  predicate NameOk(ls: Labels) {
    forall l :: l in ls ==> LabelOk(l)
  }

  function U16(v: nat): (s: seq<u8>)
    requires v < 0x1_0000
    ensures |s| == 2
  {
    [v / 0x100, v % 0x100]
  }

  function U32(v: nat): (s: seq<u8>)
    requires v < 0x1_0000_0000
    ensures |s| == 4
  {
    U16(v / 0x1_0000) + U16(v % 0x1_0000)
  }

  /** One label; a length that cannot be written contributes nothing. */
  function WireLabel(l: seq<u8>): seq<u8> {
    if LabelOk(l) then [|l|] + l else []
  }

  function WireLabels(ls: Labels): seq<u8> {
    if ls == [] then [] else WireLabels(ls[..|ls| - 1]) + WireLabel(ls[|ls| - 1])
  }

  function WireName(ls: Labels): seq<u8> {
    WireLabels(ls) + [0]
  }

  /** A TXT string as kept: at most 255 bytes. */
  function KeptTxt(t: seq<u8>): (k: seq<u8>)
    ensures |k| <= 255
  {
    if |t| > 255 then t[..255] else t
  }

  function WireTxts(txt: seq<seq<u8>>): seq<u8> {
    if txt == [] then [] else WireTxts(txt[..|txt| - 1]) + [|KeptTxt(txt[|txt| - 1])|] + KeptTxt(txt[|txt| - 1])
  }

  function FirstTxts(txt: seq<seq<u8>>): seq<seq<u8>> {
    if |txt| > MAX_TXT then txt[..MAX_TXT] else txt
  }

  function TxtData(txt: seq<seq<u8>>): seq<u8> {
    if txt == [] then [0] else WireTxts(FirstTxts(txt))
  }

  function Ttl(ttl: nat, legacy: bool, goodbye: bool): nat {
    if goodbye then 0 else if legacy && ttl > TTL_LEGACY then TTL_LEGACY else ttl
  }

  /** The class: records only this service holds ask for a cache flush, except towards legacy resolvers. */
  function Class(unique: bool, legacy: bool): nat {
    if unique && !legacy then 0x8001 else 1
  }

  function RecName(v: Instance, which: Which): Labels {
    match which
    case Service => ServiceName()
    case Enum => EnumName()
    case Srv => InstanceName(v)
    case Txt => InstanceName(v)
    case Addr => HostName(v)
  }

  function RecType(which: Which): nat {
    match which
    case Service => TYPE_PTR
    case Enum => TYPE_PTR
    case Srv => TYPE_SRV
    case Txt => TYPE_TXT
    case Addr => TYPE_A
  }

  /** The names inside the data of a record. */
  function DataNames(v: Instance, which: Which): Labels {
    match which
    case Service => InstanceName(v)
    case Enum => ServiceName()
    case Srv => HostName(v)
    case _ => []
  }

  function RecData(v: Instance, which: Which): seq<u8>
    requires InstanceOk(v)
  {
    match which
    case Service => WireName(InstanceName(v))
    case Enum => WireName(ServiceName())
    case Srv => [0, 0, 0, 0] + U16(v.port) + WireName(HostName(v))
    case Txt => TxtData(v.txt)
    case Addr => v.address
  }

  /** The record of one kind. */
  function RecordOf(v: Instance, which: Which, legacy: bool, goodbye: bool): Rec
    requires InstanceOk(v)
  {
    var unique := which == Srv || which == Txt || which == Addr;
    var ttl := if which == Srv || which == Addr then TTL_HOST else TTL_OTHER;
    Rec(RecName(v, which), RecType(which), Class(unique, legacy), Ttl(ttl, legacy, goodbye), RecData(v, which))
  }

  predicate RecOk(v: Instance, which: Which) {
    NameOk(RecName(v, which)) && NameOk(DataNames(v, which))
  }

  predicate RecFits(r: Rec) {
    r.rtype < 0x1_0000 && r.klass < 0x1_0000 && r.ttl < 0x1_0000_0000 && |r.rdata| < 0x1_0000
  }

  /** A record's bytes. */
  function WireRec(r: Rec): seq<u8>
    requires RecFits(r)
  {
    WireName(r.name) + U16(r.rtype) + U16(r.klass) + U32(r.ttl) + U16(|r.rdata|) + r.rdata
  }

  const ORDER: seq<Which> := [Service, Enum, Srv, Txt, Addr]

  /** The kinds of a set among the first k, in writing order. */
  function Picked(wanted: set<Which>, k: nat): seq<Which>
    requires k <= 5
  {
    if k == 0 then []
    else Picked(wanted, k - 1) + if ORDER[k - 1] in wanted then [ORDER[k - 1]] else []
  }

  /** What a response adds to what was asked for. */
  function Additionals(wants: set<Which>): set<Which> {
    if Service in wants || Srv in wants || Txt in wants then {Srv, Txt, Addr} - wants else {}
  }

  lemma WireLabelsLast(ls: Labels, l: seq<u8>)
    ensures WireLabels(ls + [l]) == WireLabels(ls) + WireLabel(l)
  {
    assert (ls + [l])[..|ls|] == ls;
  }

  lemma {:induction false} WireLabelsJoin(a: Labels, b: Labels)
    ensures WireLabels(a + b) == WireLabels(a) + WireLabels(b)
    decreases |b|
  {
    hide WireLabel;
    if b == [] {
      assert a + b == a;
    } else {
      var front, last := b[..|b| - 1], b[|b| - 1];
      assert a + b == (a + front) + [last];
      WireLabelsJoin(a, front);
      WireLabelsLast(a + front, last);
    }
  }

  lemma {:induction false} WireLabelsLength(ls: Labels)
    ensures |WireLabels(ls)| <= 64 * |ls|
  {
    if ls != [] {
      WireLabelsLength(ls[..|ls| - 1]);
    }
  }

  lemma {:induction false} WireTxtsLength(txt: seq<seq<u8>>)
    ensures |WireTxts(txt)| <= 256 * |txt|
  {
    if txt != [] {
      WireTxtsLength(txt[..|txt| - 1]);
    }
  }

  lemma {:induction false} SplitLength(dotted: seq<u8>)
    ensures |Split(dotted)| <= |dotted| + 1
  {
    if dotted != [] {
      SplitLength(dotted[..|dotted| - 1]);
    }
  }

  /** Every record's data fits its length field. */
  lemma DataFits(v: Instance, which: Which, legacy: bool, goodbye: bool)
    requires InstanceOk(v)
    ensures RecFits(RecordOf(v, which, legacy, goodbye))
  {
    hide Split, Ascii, WireLabels, WireTxts;
    SplitLength(Ascii("_v9xremote._tcp.local"));
    SplitLength(Ascii("local"));
    assert |Ascii("_v9xremote._tcp.local")| == 21 && |Ascii("local")| == 5;
    WireLabelsLength(InstanceName(v));
    WireLabelsLength(ServiceName());
    WireLabelsLength(HostName(v));
    WireTxtsLength(FirstTxts(v.txt));
  }

  /** The bytes of several records. */
  function WireAll(v: Instance, kinds: seq<Which>, legacy: bool, goodbye: bool): seq<u8>
    requires InstanceOk(v)
  {
    if kinds == [] then []
    else
      var last := kinds[|kinds| - 1];
      DataFits(v, last, legacy, goodbye);
      WireAll(v, kinds[..|kinds| - 1], legacy, goodbye) + WireRec(RecordOf(v, last, legacy, goodbye))
  }

  predicate AllOk(v: Instance, kinds: seq<Which>) {
    forall k :: k in kinds ==> RecOk(v, k)
  }

  /** A response: header, then the answers, then the additionals. */
  function Response(v: Instance, wants: set<Which>, id: nat, legacy: bool, goodbye: bool): seq<u8>
    requires InstanceOk(v) && id < 0x1_0000
  {
    var answers, more := Picked(wants, 5), Picked(Additionals(wants), 5);
    PickedBound(wants, 5);
    PickedBound(Additionals(wants), 5);
    U16(if legacy then id else 0) + U16(0x8400) + U16(0) + U16(|answers|) + U16(0) + U16(|more|)
    + WireAll(v, answers, legacy, goodbye) + WireAll(v, more, legacy, goodbye)
  }

  lemma {:induction false} PickedBound(wanted: set<Which>, k: nat)
    requires k <= 5
    ensures |Picked(wanted, k)| <= k
  {
    if k > 0 {
      PickedBound(wanted, k - 1);
    }
  }
}
