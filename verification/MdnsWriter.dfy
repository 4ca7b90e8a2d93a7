/** The response writer: bytes go out one at a time into a bounded buffer, and a failure is remembered. */
module MdnsWriter {
  import opened LittleEndian
  import opened MdnsWire

  class Writer {
    const out: array<u8>
    const capacity: nat
    var offset: nat
    var failed: bool

    /** What was asked to be written so far, and whether every label of it could be. */
    ghost predicate Holds(s: seq<u8>, valid: bool)
      reads this, out
    {
      && capacity <= out.Length && offset <= capacity
      && (failed <==> !valid || |s| > capacity)
      && (!failed ==> out[..offset] == s)
    }

    constructor (out: array<u8>, capacity: nat)
      requires capacity <= out.Length
      ensures Holds([], true) && this.out == out && this.capacity == capacity
    {
      this.out := out;
      this.capacity := capacity;
      offset := 0;
      failed := false;
    }

    method Put8(b: u8, ghost s: seq<u8>, ghost valid: bool)
      requires Holds(s, valid)
      modifies this, out
      ensures Holds(s + [b], valid)
    {
      if offset >= capacity {
        failed := true;
        return;
      }
      out[offset] := b;
      offset := offset + 1;
    }

    method Put16(v: nat, ghost s: seq<u8>, ghost valid: bool)
      requires Holds(s, valid) && v < 0x1_0000
      modifies this, out
      ensures Holds(s + U16(v), valid)
    {
      Put8(v / 0x100, s, valid);
      Put8(v % 0x100, s + [v / 0x100], valid);
      assert s + U16(v) == s + [v / 0x100] + [v % 0x100];
    }

    method Put32(v: nat, ghost s: seq<u8>, ghost valid: bool)
      requires Holds(s, valid) && v < 0x1_0000_0000
      modifies this, out
      ensures Holds(s + U32(v), valid)
    {
      hide U16;
      Put16(v / 0x1_0000, s, valid);
      Put16(v % 0x1_0000, s + U16(v / 0x1_0000), valid);
      assert s + U32(v) == s + U16(v / 0x1_0000) + U16(v % 0x1_0000);
    }

    method PutBytes(t: seq<u8>, ghost s: seq<u8>, ghost valid: bool)
      requires Holds(s, valid)
      modifies this, out
      ensures Holds(s + t, valid)
    {
      hide Holds;
      assert s + t[..0] == s;
      for i := 0 to |t|
        invariant Holds(s + t[..i], valid)
      {
        Put8(t[i], s + t[..i], valid);
        assert s + t[..i + 1] == s + t[..i] + [t[i]];
      }
      assert t[..|t|] == t;
    }

    /** A label: one that cannot be written fails the whole response. */
    method PutLabel(l: seq<u8>, ghost s: seq<u8>, ghost valid: bool)
      requires Holds(s, valid)
      modifies this, out
      ensures Holds(s + WireLabel(l), valid && LabelOk(l))
    {
      if |l| == 0 || |l| > 63 {
        failed := true;
        assert s + [] == s;
        return;
      }
      Put8(|l|, s, valid);
      PutBytes(l, s + [|l|], valid);
      assert s + WireLabel(l) == s + [|l|] + l;
    }

    /** An optional literal label, then a dotted name cut at its dots, then the root. */
    method PutName(first: seq<seq<u8>>, dotted: seq<u8>, ghost s: seq<u8>, ghost valid: bool)
      requires Holds(s, valid) && |first| <= 1
      modifies this, out
      ensures Holds(s + WireName(first + Split(dotted)), valid && NameOk(first + Split(dotted)))
    {
      hide Holds, WireLabel, LabelOk, Split, NameOk, WireLabels;
      ghost var ls: Labels := [];
      NoLabels(s);
      if first != [] {
        PutLabel(first[0], s, valid);
        ls := [first[0]];
        LabelAdded([], first[0], s);
      }
      assert ls == first && [] + ls == ls && first + [] == first;
      var start, at := 0, 0;
      SplitNothing();
      ghost var splitDone: Labels := [];
      while true
        invariant start <= at <= |dotted|
        invariant Split(dotted[..at]) == splitDone + [dotted[start..at]]
        invariant Holds(s + WireLabels(first + splitDone), valid && NameOk(first + splitDone))
        decreases |dotted| - at
      {
        if at == |dotted| || dotted[at] == DOT {
          PutLabel(dotted[start..at], s + WireLabels(first + splitDone), valid && NameOk(first + splitDone));
          LabelAdded(first + splitDone, dotted[start..at], s);
          assert first + splitDone + [dotted[start..at]] == first + (splitDone + [dotted[start..at]]);
          if at == |dotted| {
            break;
          }
          SplitByte(dotted, at);
          splitDone := splitDone + [dotted[start..at]];
          start := at + 1;
          assert dotted[start..at + 1] == [];
        } else {
          SplitByte(dotted, at);
          assert dotted[start..at + 1] == dotted[start..at] + [dotted[at]];
          assert (splitDone + [dotted[start..at]])[..|splitDone|] == splitDone;
        }
        at := at + 1;
      }
      assert dotted[..at] == dotted;
      ghost var all := first + Split(dotted);
      Put8(0, s + WireLabels(all), valid && NameOk(all));
      assert s + WireName(all) == s + WireLabels(all) + [0];
    }

    /** The strings of a TXT record. */
    method PutTxt(txt: seq<seq<u8>>, ghost s: seq<u8>, ghost valid: bool)
      requires Holds(s, valid)
      modifies this, out
      ensures Holds(s + TxtData(txt), valid)
    {
      hide Holds;
      if txt == [] {
        Put8(0, s, valid);
        return;
      }
      var index := 0;
      assert s + WireTxts(txt[..0]) == s;
      while index < |txt| && index < MAX_TXT
        invariant index <= |txt| && index <= MAX_TXT && Holds(s + WireTxts(txt[..index]), valid)
      {
        var t := KeptTxt(txt[index]);
        Put8(|t|, s + WireTxts(txt[..index]), valid);
        PutBytes(t, s + WireTxts(txt[..index]) + [|t|], valid);
        assert txt[..index + 1][..index] == txt[..index];
        assert s + WireTxts(txt[..index + 1]) == s + WireTxts(txt[..index]) + [|t|] + t;
        index := index + 1;
      }
      assert txt[..index] == FirstTxts(txt);
    }

    /** The owner name of a record. */
    method PutRecName(v: Instance, which: Which, ghost s: seq<u8>, ghost valid: bool)
      requires Holds(s, valid)
      modifies this, out
      ensures Holds(s + WireName(RecName(v, which)), valid && NameOk(RecName(v, which)))
    {
      hide Holds, Split, Ascii, WireName, NameOk;
      assert [] + ServiceName() == ServiceName() && [] + EnumName() == EnumName();
      match which
      case Service => PutName([], Ascii("_v9xremote._tcp.local"), s, valid);
      case Enum => PutName([], Ascii("_services._dns-sd._udp.local"), s, valid);
      case Srv => PutName([v.instance], Ascii("_v9xremote._tcp.local"), s, valid);
      case Txt => PutName([v.instance], Ascii("_v9xremote._tcp.local"), s, valid);
      case Addr => PutName([v.host], Ascii("local"), s, valid);
    }

    method PutRecData(v: Instance, which: Which, ghost s: seq<u8>, ghost valid: bool)
      requires Holds(s, valid) && InstanceOk(v)
      modifies this, out
      ensures Holds(s + RecData(v, which), valid && NameOk(DataNames(v, which)))
    {
      hide Holds, Split, Ascii, WireName, U16, TxtData;
      match which
      case Service => PutName([v.instance], Ascii("_v9xremote._tcp.local"), s, valid);
      case Enum =>
        assert [] + ServiceName() == ServiceName();
        PutName([], Ascii("_v9xremote._tcp.local"), s, valid);
      case Srv =>
        Put16(0, s, valid);
        Put16(0, s + U16(0), valid);
        Put16(v.port, s + U16(0) + U16(0), valid);
        PutName([v.host], Ascii("local"), s + U16(0) + U16(0) + U16(v.port), valid);
        ZeroPair();
        assert s + RecData(v, which) == s + U16(0) + U16(0) + U16(v.port) + WireName(HostName(v));
      case Txt => PutTxt(v.txt, s, valid);
      case Addr => PutBytes(v.address, s, valid);
    }

    /** One record; the data length is patched in once the data is written. */
    method PutRecord(v: Instance, which: Which, legacy: bool, goodbye: bool, ghost s: seq<u8>, ghost valid: bool)
      requires Holds(s, valid) && InstanceOk(v)
      modifies this, out
      ensures RecFits(RecordOf(v, which, legacy, goodbye))
      ensures Holds(s + WireRec(RecordOf(v, which, legacy, goodbye)), valid && RecOk(v, which))
    {
      hide Holds, RecName, RecData, DataNames, WireName, NameOk, U16, U32;
      DataFits(v, which, legacy, goodbye);
      var unique := which == Srv || which == Txt || which == Addr;
      var ttl := if which == Srv || which == Addr then TTL_HOST else TTL_OTHER;
      PutRecName(v, which, s, valid);
      ghost var ok := valid && NameOk(RecName(v, which));
      ghost var t := s + WireName(RecName(v, which));
      Put16(RecType(which), t, ok);
      t := t + U16(RecType(which));
      Put16(Class(unique, legacy), t, ok);
      t := t + U16(Class(unique, legacy));
      Put32(Ttl(ttl, legacy, goodbye), t, ok);
      t := t + U32(Ttl(ttl, legacy, goodbye));
      PutSized(v, which, t, ok);
      ghost var r := RecordOf(v, which, legacy, goodbye);
      assert t + (U16(|r.rdata|) + r.rdata) == s + WireRec(r);
    }

    /** The data behind its length. */
    method PutSized(v: Instance, which: Which, ghost t: seq<u8>, ghost ok: bool)
      requires Holds(t, ok) && InstanceOk(v) && |RecData(v, which)| < 0x1_0000
      modifies this, out
      ensures Holds(t + (U16(|RecData(v, which)|) + RecData(v, which)), ok && NameOk(DataNames(v, which)))
    {
      hide RecData, DataNames, NameOk;
      var lengthAt := offset;
      assert ok && |t| <= capacity ==> lengthAt == |t|;
      Put16(0, t, ok);
      var start := offset;
      assert ok && |t| + 2 <= capacity ==> start == |t| + 2;
      PutRecData(v, which, t + U16(0), ok);
      ghost var data := RecData(v, which);
      ghost var before := t + U16(0) + data;
      if !failed {
        var n := offset - start;
        out[lengthAt] := n / 0x100;
        out[lengthAt + 1] := n % 0x100;
        assert out[..offset] == t + (U16(|data|) + data);
      }
    }

    /** The records of a set, in the fixed order. */
    method Emit(v: Instance, wanted: set<Which>, legacy: bool, goodbye: bool, ghost s: seq<u8>, ghost valid: bool)
      returns (count: nat)
      requires Holds(s, valid) && InstanceOk(v)
      modifies this, out
      ensures count == |Picked(wanted, 5)|
      ensures Holds(s + WireAll(v, Picked(wanted, 5), legacy, goodbye), valid && AllOk(v, Picked(wanted, 5)))
    {
      hide Holds, WireRec, RecordOf, RecOk;
      count := 0;
      assert s + WireAll(v, [], legacy, goodbye) == s;
      for index := 0 to 5
        invariant count == |Picked(wanted, index)|
        invariant Holds(s + WireAll(v, Picked(wanted, index), legacy, goodbye), valid && AllOk(v, Picked(wanted, index)))
      {
        if ORDER[index] in wanted {
          ghost var before := Picked(wanted, index);
          PutRecord(v, ORDER[index], legacy, goodbye, s + WireAll(v, before, legacy, goodbye), valid && AllOk(v, before));
          RecordAdded(v, before, ORDER[index], legacy, goodbye, s);
          count := count + 1;
        } else {
          assert Picked(wanted, index + 1) == Picked(wanted, index);
        }
      }
    }
  }

  lemma LabelAdded(ls: Labels, l: seq<u8>, s: seq<u8>)
    ensures s + WireLabels(ls) + WireLabel(l) == s + WireLabels(ls + [l])
    ensures NameOk(ls + [l]) <==> NameOk(ls) && LabelOk(l)
  {
    WireLabelsLast(ls, l);
    if NameOk(ls + [l]) {
      assert l in ls + [l];
      assert forall k :: k in ls ==> k in ls + [l];
    }
  }

  lemma NoLabels(s: seq<u8>)
    ensures s + WireLabels([]) == s && NameOk([])
  {
  }

  lemma SplitByte(dotted: seq<u8>, at: nat)
    requires at < |dotted|
    ensures var ls := Split(dotted[..at]);
            Split(dotted[..at + 1])
              == if dotted[at] == DOT then ls + [[]] else ls[..|ls| - 1] + [ls[|ls| - 1] + [dotted[at]]]
  {
    assert dotted[..at + 1] == dotted[..at] + [dotted[at]];
    SplitStep(dotted[..at], dotted[at]);
  }

  lemma ZeroPair()
    ensures U16(0) + U16(0) == [0, 0, 0, 0]
  {
  }

  lemma RecordAdded(v: Instance, kinds: seq<Which>, k: Which, legacy: bool, goodbye: bool, s: seq<u8>)
    requires InstanceOk(v)
    ensures RecFits(RecordOf(v, k, legacy, goodbye))
    ensures s + WireAll(v, kinds + [k], legacy, goodbye)
      == s + WireAll(v, kinds, legacy, goodbye) + WireRec(RecordOf(v, k, legacy, goodbye))
    ensures AllOk(v, kinds + [k]) <==> AllOk(v, kinds) && RecOk(v, k)
  {
    hide RecordOf, RecOk;
    DataFits(v, k, legacy, goodbye);
    assert (kinds + [k])[..|kinds|] == kinds;
    if AllOk(v, kinds + [k]) {
      assert k in kinds + [k];
      assert forall j :: j in kinds ==> j in kinds + [k];
    }
  }

  /** Every name a response to these wants would hold can be written. */
  predicate Writable(v: Instance, wants: set<Which>) {
    AllOk(v, Picked(wants, 5)) && AllOk(v, Picked(Additionals(wants), 5))
  }

  /**
    Build a response: its length, or 0 exactly when nothing is wanted, a label cannot be written or
    the response does not fit.
   */
  method BuildResponse(v: Instance, wants: set<Which>, id: nat, legacy: bool, goodbye: bool, out: array<u8>, capacity: nat)
    returns (length: nat)
    requires InstanceOk(v) && id < 0x1_0000 && capacity <= out.Length
    modifies out
    ensures length == 0 <==> wants == {} || !Writable(v, wants) || |Response(v, wants, id, legacy, goodbye)| > capacity
    ensures length != 0 ==> length <= capacity && out[..length] == Response(v, wants, id, legacy, goodbye)
  {
    hide Response, WireAll, AllOk, Picked, U16;
    if wants == {} {
      return 0;
    }
    var w := new Writer(out, capacity);
    PutHeader(w, if legacy then id else 0);
    ghost var h := Header(if legacy then id else 0, 0, 0);
    var answers := w.Emit(v, wants, legacy, goodbye, h, true);
    ghost var a := WireAll(v, Picked(wants, 5), legacy, goodbye);
    var more := w.Emit(v, Additionals(wants), legacy, goodbye, h + a, AllOk(v, Picked(wants, 5)));
    ghost var b := WireAll(v, Picked(Additionals(wants), 5), legacy, goodbye);
    PickedBound(wants, 5);
    PickedBound(Additionals(wants), 5);
    ResponseParts(v, wants, id, legacy, goodbye);
    if w.failed {
      return 0;
    }
    out[6], out[7] := answers / 0x100, answers % 0x100;
    out[10], out[11] := more / 0x100, more % 0x100;
    CountsPatched(out[..w.offset], h, a + b, if legacy then id else 0, answers, more);
    return w.offset;
  }

  /** The header with its two counts. */
  function Header(id: nat, answers: nat, more: nat): (h: seq<u8>)
    requires id < 0x1_0000 && answers < 0x1_0000 && more < 0x1_0000
    ensures |h| == 12
  {
    U16(id) + U16(0x8400) + U16(0) + U16(answers) + U16(0) + U16(more)
  }

  method PutHeader(w: Writer, id: nat)
    requires w.Holds([], true) && id < 0x1_0000
    modifies w, w.out
    ensures w.Holds(Header(id, 0, 0), true)
  {
    hide Writer.Holds, U16;
    w.Put16(id, [], true);
    w.Put16(0x8400, [] + U16(id), true);
    ghost var s := [] + U16(id) + U16(0x8400);
    w.Put16(0, s, true);
    w.Put16(0, s + U16(0), true);
    w.Put16(0, s + U16(0) + U16(0), true);
    w.Put16(0, s + U16(0) + U16(0) + U16(0), true);
    assert s + U16(0) + U16(0) + U16(0) + U16(0) == Header(id, 0, 0);
  }

  lemma ResponseParts(v: Instance, wants: set<Which>, id: nat, legacy: bool, goodbye: bool)
    requires InstanceOk(v) && id < 0x1_0000
    requires |Picked(wants, 5)| <= 5 && |Picked(Additionals(wants), 5)| <= 5
    ensures Response(v, wants, id, legacy, goodbye)
      == Header(if legacy then id else 0, |Picked(wants, 5)|, |Picked(Additionals(wants), 5)|)
         + (WireAll(v, Picked(wants, 5), legacy, goodbye) + WireAll(v, Picked(Additionals(wants), 5), legacy, goodbye))
  {
    hide WireAll, Picked, U16;
  }

  lemma CountsPatched(s: seq<u8>, h: seq<u8>, rest: seq<u8>, id: nat, answers: nat, more: nat)
    requires id < 0x1_0000 && answers < 0x1_0000 && more < 0x1_0000 && h == Header(id, 0, 0)
    requires s == (h + rest)[6 := answers / 0x100][7 := answers % 0x100][10 := more / 0x100][11 := more % 0x100]
    ensures s == Header(id, answers, more) + rest
  {
  }
}
