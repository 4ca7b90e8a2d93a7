/** What the responder writes is what the host's parser reads. */
module MdnsTheorems {
  import opened LittleEndian
  import opened MdnsWire
  import opened MdnsWriter
  import opened MdnsReader
  import opened Wrappers

  /** The bytes of s stand in p at a position. */
  predicate At(p: seq<u8>, at: nat, s: seq<u8>) {
    at + |s| <= |p| && p[at..at + |s|] == s
  }

  lemma AtParts(p: seq<u8>, at: nat, a: seq<u8>, b: seq<u8>)
    ensures At(p, at, a + b) <==> At(p, at, a) && At(p, at + |a|, b)
  {
    if At(p, at, a + b) {
      assert p[at..at + |a|] == p[at..at + |a + b|][..|a|];
      assert p[at + |a|..at + |a| + |b|] == p[at..at + |a + b|][|a|..];
    }
    if At(p, at, a) && At(p, at + |a|, b) {
      assert p[at..at + |a + b|] == p[at..at + |a|] + p[at + |a|..at + |a| + |b|];
    }
  }

  lemma AtBytes(p: seq<u8>, at: nat, s: seq<u8>)
    requires At(p, at, s)
    ensures forall i :: 0 <= i < |s| ==> p[at + i] == s[i]
  {
    forall i | 0 <= i < |s|
      ensures p[at + i] == s[i]
    {
      assert p[at..at + |s|][i] == p[at + i];
    }
  }

  lemma WireNameFirst(ls: Labels)
    requires ls != []
    ensures WireName(ls) == WireLabel(ls[0]) + WireName(ls[1..])
  {
    var one: Labels := [ls[0]];
    assert ls == one + ls[1..];
    WireLabelsJoin(one, ls[1..]);
    WireLabelsLast([], ls[0]);
    assert [] + one == one;
  }

  /** A written name reads back as its labels. */
  lemma {:induction false} NameReads(p: seq<u8>, at: nat, ls: Labels, acc: Labels)
    requires NameOk(ls) && At(p, at, WireName(ls))
    ensures NameFrom(p, at, 0, acc, None) == Some(Named(acc + ls, at + |WireName(ls)|))
    decreases |ls|
  {
    hide WireName, WireLabels, WireLabel, At, NameOk;
    if ls == [] {
      EmptyName();
      AtBytes(p, at, WireName(ls));
      AtInside(p, at, WireName(ls));
      assert p[at] == WireName(ls)[0];
      assert acc + ls == acc;
    } else {
      WireNameFirst(ls);
      var l := ls[0];
      NameParts(ls);
      AtParts(p, at, WireLabel(l), WireName(ls[1..]));
      LabelHere(p, at, l);
      NameReads(p, at + 1 + |l|, ls[1..], acc + [l]);
      assert acc + [l] + ls[1..] == acc + ls;
    }
  }

  lemma NameParts(ls: Labels)
    requires NameOk(ls) && ls != []
    ensures LabelOk(ls[0]) && NameOk(ls[1..])
  {
  }

  lemma LabelHere(p: seq<u8>, at: nat, l: seq<u8>)
    requires LabelOk(l) && At(p, at, WireLabel(l))
    ensures at + 1 + |l| <= |p| && p[at] == |l| && p[at + 1..at + 1 + |l|] == l && |WireLabel(l)| == 1 + |l|
  {
    AtBytes(p, at, WireLabel(l));
    assert p[at..at + 1 + |l|] == [|l|] + l;
    assert p[at + 1..at + 1 + |l|] == p[at..at + 1 + |l|][1..];
  }

  lemma EmptyName()
    ensures WireName([]) == [0]
  {
  }

  /** Labels are taken one after another, wherever the reader has come from. */
  lemma {:induction false} LabelsRead(p: seq<u8>, at: nat, ls: Labels, jumps: nat, acc: Labels, end: Option<nat>)
    requires NameOk(ls) && At(p, at, WireLabels(ls)) && jumps <= JUMPS_MAX
    ensures NameFrom(p, at, jumps, acc, end) == NameFrom(p, at + |WireLabels(ls)|, jumps, acc + ls, end)
    decreases |ls|
  {
    hide WireLabel, WireLabels, At, NameOk, NameFrom;
    if ls == [] {
      assert acc + ls == acc;
      NoLabels();
    } else {
      var l, rest := ls[0], ls[1..];
      WireLabelsFirst(ls);
      NameParts(ls);
      AtParts(p, at, WireLabel(l), WireLabels(rest));
      LabelHere(p, at, l);
      LabelStep(p, at, l, jumps, acc, end);
      LabelsRead(p, at + 1 + |l|, rest, jumps, acc + [l], end);
      assert acc + [l] + rest == acc + ls;
    }
  }

  lemma NoLabels()
    ensures WireLabels([]) == []
  {
  }

  lemma WireLabelsFirst(ls: Labels)
    requires ls != []
    ensures WireLabels(ls) == WireLabel(ls[0]) + WireLabels(ls[1..])
  {
    hide WireLabel, WireLabels;
    var one: Labels := [ls[0]];
    assert ls == one + ls[1..];
    WireLabelsJoin(one, ls[1..]);
    OneWireLabel(ls[0]);
  }

  lemma OneWireLabel(l: seq<u8>)
    ensures WireLabels([l]) == WireLabel(l)
  {
    hide WireLabel;
    WireLabelsLast([], l);
    assert [] + [l] == [l];
    assert WireLabels([]) == [];
  }

  lemma LabelStep(p: seq<u8>, at: nat, l: seq<u8>, jumps: nat, acc: Labels, end: Option<nat>)
    requires LabelOk(l) && jumps <= JUMPS_MAX && at + 1 + |l| <= |p| && p[at] == |l| && p[at + 1..at + 1 + |l|] == l
    ensures NameFrom(p, at, jumps, acc, end) == NameFrom(p, at + 1 + |l|, jumps, acc + [l], end)
  {
  }

  /** Labels in one place; all but the last piece of a name end with a pointer to the next. */
  datatype Piece = Piece(at: nat, labels: Labels)

  /** A compressed name as section 4.1.4 of RFC 1035 has it: two bits set, fourteen of the next piece's offset. */
  predicate Compressed(p: seq<u8>, pieces: seq<Piece>)
    requires pieces != []
    decreases |pieces|
  {
    var first, after := pieces[0], pieces[0].at + |WireLabels(pieces[0].labels)|;
    && NameOk(first.labels) && At(p, first.at, WireLabels(first.labels))
    && if |pieces| == 1 then At(p, after, [0])
       else
         && pieces[1].at < 0x4000 && At(p, after, [0xC0 + pieces[1].at / 0x100, pieces[1].at % 0x100])
         && Compressed(p, pieces[1..])
  }

  function AllLabels(pieces: seq<Piece>): Labels {
    if pieces == [] then [] else pieces[0].labels + AllLabels(pieces[1..])
  }

  /** Where a name ends in place: behind its zero or its first pointer. */
  function EndInPlace(pieces: seq<Piece>): nat
    requires pieces != []
  {
    pieces[0].at + |WireLabels(pieces[0].labels)| + if |pieces| == 1 then 1 else 2
  }

  lemma PointerStep(p: seq<u8>, at: nat, to: nat, jumps: nat, acc: Labels, end: Option<nat>)
    requires to < 0x4000 && At(p, at, [0xC0 + to / 0x100, to % 0x100]) && jumps <= JUMPS_MAX
    ensures NameFrom(p, at, jumps, acc, end)
      == if jumps == JUMPS_MAX then None else NameFrom(p, to, jumps + 1, acc, Some(Or(end, at + 2)))
  {
    AtBytes(p, at, [0xC0 + to / 0x100, to % 0x100]);
    assert p[at + 0] == 0xC0 + to / 0x100 && p[at + 1] == to % 0x100;
  }

  lemma ZeroStep(p: seq<u8>, at: nat, jumps: nat, acc: Labels, end: Option<nat>)
    requires At(p, at, [0]) && jumps <= JUMPS_MAX
    ensures NameFrom(p, at, jumps, acc, end) == Some(Named(acc, Or(end, at + 1)))
  {
    AtBytes(p, at, [0]);
    assert p[at + 0] == 0;
  }

  /** What a name of several pieces starts with. */
  lemma FirstPiece(p: seq<u8>, pieces: seq<Piece>)
    requires pieces != [] && Compressed(p, pieces)
    ensures var first, after := pieces[0], pieces[0].at + |WireLabels(pieces[0].labels)|;
            && NameOk(first.labels) && At(p, first.at, WireLabels(first.labels))
            && (|pieces| == 1 ==> At(p, after, [0]) && AllLabels(pieces) == first.labels)
            && (|pieces| > 1 ==>
                  && pieces[1].at < 0x4000 && At(p, after, [0xC0 + pieces[1].at / 0x100, pieces[1].at % 0x100])
                  && Compressed(p, pieces[1..]) && AllLabels(pieces) == first.labels + AllLabels(pieces[1..]))
  {
    hide NameOk, At, WireLabels;
    if |pieces| == 1 {
      assert pieces[1..] == [];
      assert pieces[0].labels + [] == pieces[0].labels;
    }
  }

  lemma {:induction false} PiecesRead(p: seq<u8>, pieces: seq<Piece>, jumps: nat, acc: Labels, end: Option<nat>)
    requires pieces != [] && Compressed(p, pieces) && jumps <= JUMPS_MAX
    ensures NameFrom(p, pieces[0].at, jumps, acc, end)
      == if jumps + |pieces| - 1 > JUMPS_MAX then None
         else Some(Named(acc + AllLabels(pieces), Or(end, EndInPlace(pieces))))
    decreases |pieces|
  {
    hide NameFrom, NameOk, At, Compressed, AllLabels, WireLabels;
    FirstPiece(p, pieces);
    var first := pieces[0];
    var after := first.at + |WireLabels(first.labels)|;
    LabelsRead(p, first.at, first.labels, jumps, acc, end);
    if |pieces| == 1 {
      ZeroStep(p, after, jumps, acc + first.labels, end);
    } else {
      PointerStep(p, after, pieces[1].at, jumps, acc + first.labels, end);
      if jumps < JUMPS_MAX {
        PiecesRead(p, pieces[1..], jumps + 1, acc + first.labels, Some(Or(end, after + 2)));
        assert acc + first.labels + AllLabels(pieces[1..]) == acc + (first.labels + AllLabels(pieces[1..]));
      }
    }
  }

  /**
    A compressed name reads back as all its labels and ends in place, if it follows sixteen pointers at
    most; one that follows more is refused.
   */
  lemma CompressedReads(p: seq<u8>, pieces: seq<Piece>)
    requires pieces != [] && Compressed(p, pieces)
    ensures NameFrom(p, pieces[0].at, 0, [], None)
      == if |pieces| > 17 then None else Some(Named(AllLabels(pieces), EndInPlace(pieces)))
  {
    hide NameFrom, Compressed;
    PiecesRead(p, pieces, 0, [], None);
    assert [] + AllLabels(pieces) == AllLabels(pieces);
  }

  lemma NameDataReads(p: seq<u8>, at: nat, ls: Labels)
    requires NameOk(ls) && At(p, at, WireName(ls))
    ensures NameData(p, at) == Some(TextOf(ls))
  {
    hide WireName, NameFrom, TextOf;
    NameReads(p, at, ls, []);
    assert [] + ls == ls;
  }

  /** The strings a TXT record gives back: the first eight, cut at 255 bytes, the empty ones dropped. */
  function TextsOf(txt: seq<seq<u8>>): seq<seq<int>> {
    if txt == [] then []
    else
      var front, last := TextsOf(txt[..|txt| - 1]), KeptTxt(txt[|txt| - 1]);
      if last == [] then front else front + [Decode(last)]
  }

  lemma {:induction false} WireTxtsJoin(a: seq<seq<u8>>, b: seq<seq<u8>>)
    ensures WireTxts(a + b) == WireTxts(a) + WireTxts(b) && TextsOf(a + b) == TextsOf(a) + TextsOf(b)
    decreases |b|
  {
    hide KeptTxt, Decode;
    if b == [] {
      assert a + b == a;
    } else {
      assert (a + b)[..|a + b| - 1] == a + b[..|b| - 1];
      WireTxtsJoin(a, b[..|b| - 1]);
    }
  }

  lemma TxtFirst(txt: seq<seq<u8>>)
    requires txt != []
    ensures WireTxts(txt) == [|KeptTxt(txt[0])|] + KeptTxt(txt[0]) + WireTxts(txt[1..])
    ensures TextsOf(txt) == (if KeptTxt(txt[0]) == [] then [] else [Decode(KeptTxt(txt[0]))]) + TextsOf(txt[1..])
  {
    hide KeptTxt, Decode;
    var one: seq<seq<u8>> := [txt[0]];
    assert txt == one + txt[1..];
    WireTxtsJoin(one, txt[1..]);
    assert one[..0] == [];
  }

  /** Written strings read back, one length byte at a time. */
  lemma {:induction false} TextsRead(p: seq<u8>, at: nat, txt: seq<seq<u8>>, acc: seq<seq<int>>)
    requires At(p, at, WireTxts(txt)) && at + |WireTxts(txt)| == |p|
    ensures TextsFrom(p, at, acc) == Some(acc + TextsOf(txt))
    decreases |txt|
  {
    hide KeptTxt, Decode, WireTxts, TextsOf;
    if txt == [] {
      NoTexts();
      assert acc + TextsOf(txt) == acc;
    } else {
      TxtFirst(txt);
      var t := KeptTxt(txt[0]);
      AtParts(p, at, [|t|] + t, WireTxts(txt[1..]));
      AtBytes(p, at, [|t|] + t);
      assert p[at] == |t| && p[at + 1..at + 1 + |t|] == t by {
        assert p[at..at + 1 + |t|] == [|t|] + t;
        assert p[at + 1..at + 1 + |t|] == p[at..at + 1 + |t|][1..];
      }
      var more := if t != [] then acc + [Decode(t)] else acc;
      TextsRead(p, at + 1 + |t|, txt[1..], more);
      assert acc + TextsOf(txt) == more + TextsOf(txt[1..]);
    }
  }

  lemma NoTexts()
    ensures WireTxts([]) == [] && TextsOf([]) == []
  {
  }

  /** The value of a record as the host sees it. */
  function DataOf(v: Instance, which: Which): Data {
    match which
    case Service => Pointer(TextOf(InstanceName(v)))
    case Enum => Pointer(TextOf(ServiceName()))
    case Srv => Server(0, 0, v.port, TextOf(HostName(v)))
    case Txt => Texts(TextsOf(FirstTxts(v.txt)))
    case Addr => Address(v.address)
  }

  /** The record the host should read: every field of the one written. */
  function ParsedOf(v: Instance, which: Which, legacy: bool, goodbye: bool): Parsed
    requires InstanceOk(v)
  {
    var r := RecordOf(v, which, legacy, goodbye);
    Parsed(TextOf(r.name), r.rtype, 1, !legacy && (which == Srv || which == Txt || which == Addr), r.ttl, DataOf(v, which))
  }

  lemma TxtDataReads(s: seq<u8>, txt: seq<seq<u8>>)
    requires s == TxtData(txt)
    ensures TextsFrom(s, 0, []) == Some(TextsOf(FirstTxts(txt)))
  {
    hide WireTxts, Decode;
    if txt == [] {
      assert FirstTxts(txt) == [] && TextsOf([]) == [];
    } else {
      assert s[0..|s|] == s;
      TextsRead(s, 0, FirstTxts(txt), []);
      assert [] + TextsOf(FirstTxts(txt)) == TextsOf(FirstTxts(txt));
    }
  }

  lemma Big16At(p: seq<u8>, at: nat, v: nat)
    requires v < 0x1_0000 && At(p, at, U16(v))
    ensures Big16(p, at) == v
  {
    AtBytes(p, at, U16(v));
  }

  lemma Big32At(p: seq<u8>, at: nat, v: nat)
    requires v < 0x1_0000_0000 && At(p, at, U32(v))
    ensures Big32(p, at) == v
  {
    hide U16, Big16, At;
    AtParts(p, at, U16(v / 0x1_0000), U16(v % 0x1_0000));
    Big16At(p, at, v / 0x1_0000);
    Big16At(p, at + 2, v % 0x1_0000);
  }

  lemma SrvReads(p: seq<u8>, at: nat, v: Instance)
    requires InstanceOk(v) && NameOk(HostName(v)) && At(p, at, RecData(v, Srv))
    ensures DataFrom(p, at, |RecData(v, Srv)|, TYPE_SRV) == Some(DataOf(v, Srv))
  {
    hide WireName, NameFrom, TextOf, HostName, U16;
    ZeroPair();
    assert RecData(v, Srv) == U16(0) + (U16(0) + (U16(v.port) + WireName(HostName(v))));
    AtParts(p, at, U16(0), U16(0) + (U16(v.port) + WireName(HostName(v))));
    AtParts(p, at + 2, U16(0), U16(v.port) + WireName(HostName(v)));
    AtParts(p, at + 4, U16(v.port), WireName(HostName(v)));
    Big16At(p, at, 0);
    Big16At(p, at + 2, 0);
    Big16At(p, at + 4, v.port);
    NameDataReads(p, at + 6, HostName(v));
    assert |WireName(HostName(v))| >= 1 by { NameNotEmpty(HostName(v)); }
  }

  lemma NameNotEmpty(ls: Labels)
    ensures |WireName(ls)| >= 1
  {
  }

  lemma DataReads(p: seq<u8>, at: nat, v: Instance, which: Which)
    requires InstanceOk(v) && NameOk(DataNames(v, which)) && At(p, at, RecData(v, which))
    ensures DataFrom(p, at, |RecData(v, which)|, RecType(which)) == Some(DataOf(v, which))
  {
    hide WireName, NameFrom, TextsFrom, TextOf, InstanceName, ServiceName, HostName, TxtData;
    match which
    case Service => NameDataReads(p, at, InstanceName(v));
    case Enum => NameDataReads(p, at, ServiceName());
    case Srv => SrvReads(p, at, v);
    case Txt => TxtDataReads(p[at..at + |RecData(v, Txt)|], v.txt);
    case Addr =>
  }

  /** One written record reads back with every field. */
  lemma RecordReads(p: seq<u8>, at: nat, v: Instance, which: Which, legacy: bool, goodbye: bool)
    requires InstanceOk(v) && RecOk(v, which) && RecFits(RecordOf(v, which, legacy, goodbye))
    requires At(p, at, WireRec(RecordOf(v, which, legacy, goodbye)))
    ensures RecordFrom(p, at)
      == Some((ParsedOf(v, which, legacy, goodbye), at + |WireRec(RecordOf(v, which, legacy, goodbye))|))
  {
    hide WireName, NameFrom, DataFrom, TextOf, RecName, RecData, DataNames, U16, U32, Big16, Big32, At, NameOk, DataOf;
    var r := RecordOf(v, which, legacy, goodbye);
    var name := WireName(r.name);
    FieldsAt(p, at, r);
    NameReads(p, at, r.name, []);
    assert [] + r.name == r.name;
    var end := at + |name|;
    Big16At(p, end, r.rtype);
    Big16At(p, end + 2, r.klass);
    Big32At(p, end + 4, r.ttl);
    Big16At(p, end + 8, |r.rdata|);
    DataReads(p, end + 10, v, which);
    assert end + 10 + |r.rdata| <= |p| by { AtInside(p, end + 10, r.rdata); }
    assert |WireRec(r)| == |name| + 10 + |r.rdata|;
  }

  lemma AtInside(p: seq<u8>, at: nat, s: seq<u8>)
    requires At(p, at, s)
    ensures at + |s| <= |p|
  {
  }

  /** Where the fields of a written record stand. */
  lemma FieldsAt(p: seq<u8>, at: nat, r: Rec)
    requires RecFits(r) && At(p, at, WireRec(r))
    ensures At(p, at, WireName(r.name))
    ensures var end := at + |WireName(r.name)|;
            && At(p, end, U16(r.rtype)) && At(p, end + 2, U16(r.klass)) && At(p, end + 4, U32(r.ttl))
            && At(p, end + 8, U16(|r.rdata|)) && At(p, end + 10, r.rdata)
  {
    hide WireName, U16, U32, At;
    var n, t, c, l, d := WireName(r.name), U16(r.rtype), U16(r.klass), U32(r.ttl), U16(|r.rdata|);
    assert WireRec(r) == n + (t + (c + (l + (d + r.rdata))));
    var end := at + |n|;
    AtParts(p, at, n, t + (c + (l + (d + r.rdata))));
    AtParts(p, end, t, c + (l + (d + r.rdata)));
    AtParts(p, end + 2, c, l + (d + r.rdata));
    AtParts(p, end + 4, l, d + r.rdata);
    AtParts(p, end + 8, d, r.rdata);
  }

  /** The records the host should read for a list of kinds. */
  function ParsedAll(v: Instance, kinds: seq<Which>, legacy: bool, goodbye: bool): (ps: seq<Parsed>)
    requires InstanceOk(v)
    ensures |ps| == |kinds|
  {
    seq(|kinds|, i requires 0 <= i < |kinds| => ParsedOf(v, kinds[i], legacy, goodbye))
  }

  lemma WireAllLast(v: Instance, kinds: seq<Which>, k: Which, legacy: bool, goodbye: bool)
    requires InstanceOk(v)
    ensures RecFits(RecordOf(v, k, legacy, goodbye))
    ensures WireAll(v, kinds + [k], legacy, goodbye)
      == WireAll(v, kinds, legacy, goodbye) + WireRec(RecordOf(v, k, legacy, goodbye))
  {
    hide RecordOf, WireRec;
    DataFits(v, k, legacy, goodbye);
    assert (kinds + [k])[..|kinds|] == kinds;
  }

  lemma {:induction false} WireAllJoin(v: Instance, a: seq<Which>, b: seq<Which>, legacy: bool, goodbye: bool)
    requires InstanceOk(v)
    ensures WireAll(v, a + b, legacy, goodbye) == WireAll(v, a, legacy, goodbye) + WireAll(v, b, legacy, goodbye)
    decreases |b|
  {
    hide WireRec, RecordOf;
    if b == [] {
      assert a + b == a;
    } else {
      hide WireAll;
      var front, last := b[..|b| - 1], b[|b| - 1];
      WireAllJoin(v, a, front, legacy, goodbye);
      assert a + b == (a + front) + [last] && b == front + [last];
      WireAllLast(v, a + front, last, legacy, goodbye);
      WireAllLast(v, front, last, legacy, goodbye);
    }
  }

  /** Written records read back in order. */
  lemma {:induction false} RecordsRead(p: seq<u8>, at: nat, v: Instance, kinds: seq<Which>, legacy: bool, goodbye: bool,
                                       acc: seq<Parsed>)
    requires InstanceOk(v) && AllOk(v, kinds) && At(p, at, WireAll(v, kinds, legacy, goodbye))
    ensures RecordsFrom(p, at, |kinds|, acc) == Some(acc + ParsedAll(v, kinds, legacy, goodbye))
    decreases |kinds|
  {
    hide WireRec, RecordOf, RecOk, RecordFrom, ParsedOf, At, WireAll;
    if kinds == [] {
      assert acc + ParsedAll(v, kinds, legacy, goodbye) == acc;
    } else {
      var k, rest := kinds[0], kinds[1..];
      FirstRecord(v, kinds, legacy, goodbye);
      var bytes := WireRec(RecordOf(v, k, legacy, goodbye));
      AtParts(p, at, bytes, WireAll(v, rest, legacy, goodbye));
      RecordReads(p, at, v, k, legacy, goodbye);
      var one := ParsedOf(v, k, legacy, goodbye);
      RecordsRead(p, at + |bytes|, v, rest, legacy, goodbye, acc + [one]);
      assert acc + [one] + ParsedAll(v, rest, legacy, goodbye) == acc + ParsedAll(v, kinds, legacy, goodbye);
    }
  }

  lemma FirstRecord(v: Instance, kinds: seq<Which>, legacy: bool, goodbye: bool)
    requires InstanceOk(v) && AllOk(v, kinds) && kinds != []
    ensures RecFits(RecordOf(v, kinds[0], legacy, goodbye)) && RecOk(v, kinds[0]) && AllOk(v, kinds[1..])
    ensures WireAll(v, kinds, legacy, goodbye)
      == WireRec(RecordOf(v, kinds[0], legacy, goodbye)) + WireAll(v, kinds[1..], legacy, goodbye)
  {
    hide WireRec, RecordOf, RecOk;
    DataFits(v, kinds[0], legacy, goodbye);
    assert kinds == [kinds[0]] + kinds[1..];
    WireAllJoin(v, [kinds[0]], kinds[1..], legacy, goodbye);
    RecordAdded(v, [], kinds[0], legacy, goodbye, []);
    assert [] + [kinds[0]] == [kinds[0]];
    assert WireAll(v, [kinds[0]], legacy, goodbye) == WireRec(RecordOf(v, kinds[0], legacy, goodbye)) by {
      assert WireAll(v, [], legacy, goodbye) == [];
      assert [] + WireAll(v, [kinds[0]], legacy, goodbye) == WireAll(v, [kinds[0]], legacy, goodbye);
    }
    assert forall k :: k in kinds[1..] ==> k in kinds;
  }

  /** Every response the responder builds parses into exactly its answers and additionals, in order. */
  lemma ResponseParses(v: Instance, wants: set<Which>, id: nat, legacy: bool, goodbye: bool)
    requires InstanceOk(v) && id < 0x1_0000 && Writable(v, wants)
    ensures ParsePacket(Response(v, wants, id, legacy, goodbye))
      == Some(Packet(if legacy then id else 0, true,
                     ParsedAll(v, Picked(wants, 5), legacy, goodbye)
                     + ParsedAll(v, Picked(Additionals(wants), 5), legacy, goodbye)))
  {
    hide WireAll, Picked, ParsedAll, RecordsFrom, AllOk, Header, Big16;
    var answers, more := Picked(wants, 5), Picked(Additionals(wants), 5);
    PickedBound(wants, 5);
    PickedBound(Additionals(wants), 5);
    ResponseParts(v, wants, id, legacy, goodbye);
    var all := answers + more;
    WireAllJoin(v, answers, more, legacy, goodbye);
    var h := Header(if legacy then id else 0, |answers|, |more|);
    var p := h + WireAll(v, all, legacy, goodbye);
    assert p == Response(v, wants, id, legacy, goodbye);
    HeaderReads(p, if legacy then id else 0, |answers|, |more|);
    assert p[12..12 + |WireAll(v, all, legacy, goodbye)|] == WireAll(v, all, legacy, goodbye);
    BothOk(v, answers, more);
    RecordsRead(p, 12, v, all, legacy, goodbye, []);
    assert [] + ParsedAll(v, all, legacy, goodbye)
      == ParsedAll(v, answers, legacy, goodbye) + ParsedAll(v, more, legacy, goodbye) by {
      ParsedJoin(v, answers, more, legacy, goodbye);
    }
  }

  lemma ParsedJoin(v: Instance, a: seq<Which>, b: seq<Which>, legacy: bool, goodbye: bool)
    requires InstanceOk(v)
    ensures [] + ParsedAll(v, a + b, legacy, goodbye)
      == ParsedAll(v, a, legacy, goodbye) + ParsedAll(v, b, legacy, goodbye)
  {
    hide ParsedOf;
  }

  lemma BothOk(v: Instance, a: seq<Which>, b: seq<Which>)
    requires AllOk(v, a) && AllOk(v, b)
    ensures AllOk(v, a + b)
  {
    hide RecOk;
  }

  lemma HeaderReads(p: seq<u8>, id: nat, answers: nat, more: nat)
    requires id < 0x1_0000 && answers < 0x1_0000 && more < 0x1_0000 && Header(id, answers, more) <= p
    ensures Big16(p, 0) == id && Big16(p, 2) == 0x8400 && Big16(p, 4) == 0
    ensures Big16(p, 6) == answers && Big16(p, 8) == 0 && Big16(p, 10) == more
  {
    hide U16, Big16, At;
    var a, f, z, n, m := U16(id), U16(0x8400), U16(0), U16(answers), U16(more);
    var h := a + (f + (z + (n + (z + m))));
    assert Header(id, answers, more) == h;
    assert At(p, 0, h) by { AtStart(p, h); }
    AtParts(p, 0, a, f + (z + (n + (z + m))));
    AtParts(p, 2, f, z + (n + (z + m)));
    AtParts(p, 4, z, n + (z + m));
    AtParts(p, 6, n, z + m);
    AtParts(p, 8, z, m);
    Big16At(p, 0, id);
    Big16At(p, 2, 0x8400);
    Big16At(p, 4, 0);
    Big16At(p, 6, answers);
    Big16At(p, 8, 0);
    Big16At(p, 10, more);
  }

  lemma AtStart(p: seq<u8>, h: seq<u8>)
    requires h <= p
    ensures At(p, 0, h)
  {
  }

  predicate Distinct(ks: seq<Which>) {
    forall i, j :: 0 <= i < j < |ks| ==> ks[i] != ks[j]
  }

  /** The answers are the wanted kinds, and answers and additionals together hold each kind at most once. */
  lemma NothingTwice(wants: set<Which>)
    ensures forall k :: k in Picked(wants, 5) <==> k in wants
    ensures Distinct(Picked(wants, 5) + Picked(Additionals(wants), 5))
  {
    hide Picked;
    PickedIs(wants);
    PickedIs(Additionals(wants));
    PickedOnce(wants, 5);
    PickedOnce(Additionals(wants), 5);
    var a, b := Picked(wants, 5), Picked(Additionals(wants), 5);
    forall i, j | 0 <= i < |a| && 0 <= j < |b|
      ensures a[i] != b[j]
    {
      assert a[i] in a && b[j] in b;
    }
  }

  /** The service in a response brings its host, port and text, and a host and port bring the address. */
  predicate Resolves(v: Instance, kinds: seq<Which>) {
    && (Service in kinds ==>
          Srv in kinds && Txt in kinds && RecName(v, Srv) == RecName(v, Txt) == DataNames(v, Service))
    && (Srv in kinds ==> Addr in kinds && RecName(v, Addr) == DataNames(v, Srv))
  }

  /** Every response resolves by itself, and adds nothing but what that takes. */
  lemma ResolvesItself(v: Instance, wants: set<Which>)
    ensures var more := Picked(Additionals(wants), 5);
            && Resolves(v, Picked(wants, 5) + more)
            && (wants <= {Enum, Addr} ==> more == []) && forall k :: k in more ==> k in {Srv, Txt, Addr}
  {
    hide Picked;
    PickedIs(wants);
    PickedIs(Additionals(wants));
    var more := Picked(Additionals(wants), 5);
    assert more == [] || more[0] in more;
  }

  lemma {:induction false} PickedOnce(wanted: set<Which>, n: nat)
    requires n <= 5
    ensures Distinct(Picked(wanted, n))
  {
    if n > 0 {
      var front, last := Picked(wanted, n - 1), ORDER[n - 1];
      PickedOnce(wanted, n - 1);
      PickedUpTo(wanted, n - 1, last);
      assert forall i :: 0 <= i < n - 1 ==> ORDER[i] != last;
      assert last !in front;
    }
  }

  lemma PickedIs(wanted: set<Which>)
    ensures forall k :: k in Picked(wanted, 5) <==> k in wanted
  {
    forall k: Which
      ensures k in Picked(wanted, 5) <==> k in wanted
    {
      PickedUpTo(wanted, 5, k);
      assert ORDER[..5] == ORDER;
      match k
      case Service => assert ORDER[0] == k;
      case Enum => assert ORDER[1] == k;
      case Srv => assert ORDER[2] == k;
      case Txt => assert ORDER[3] == k;
      case Addr => assert ORDER[4] == k;
    }
  }

  lemma {:induction false} PickedUpTo(wanted: set<Which>, n: nat, k: Which)
    requires n <= 5
    ensures k in Picked(wanted, n) <==> k in wanted && k in ORDER[..n]
  {
    if n > 0 {
      PickedUpTo(wanted, n - 1, k);
      assert ORDER[..n] == ORDER[..n - 1] + [ORDER[n - 1]];
    }
  }
}
