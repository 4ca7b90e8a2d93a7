/** The identifiers of a relay session and the canonical text one signature covers. */
module RelayText {
  import opened LittleEndian

  const CROCKFORD := "0123456789ABCDEFGHJKMNPQRSTVWXYZ"
  const HEX_DIGITS := "0123456789abcdef"
  const DIGITS := "0123456789"
  const MACHINE_LENGTH := 8
  const HEX_ID_LENGTH := 32
  const INSTALL_LENGTH := 36
  const MESSAGE_MAX := 256

  const HEAD_MACHINE := "V9XRELAY1\nmachine="
  const HEAD_INSTALL := "\ninstall="
  const HEAD_NONCE := "\nnonce="
  const HEAD_SESSION := "\nsession="
  const HEAD_SEQ := "\nseq="
  const HEAD_DIGEST := "\nsha256="

  type Digest = d: seq<u8> | |d| == 32
    witness [0, 0, 0, 0, 0, 0, 0, 0, 0, 0, 0, 0, 0, 0, 0, 0, 0, 0, 0, 0, 0, 0, 0, 0, 0, 0, 0, 0, 0, 0, 0, 0]

  /** Whom a session is between: the agent's identity, its nonce and the server's session id. */
  datatype Names = Names(machine: string, install: string, nonce: string, session: string)

  predicate IsMachine(s: string) {
    |s| == MACHINE_LENGTH && s[0] == 'M' && s[1] == '-' && forall i :: 2 <= i < MACHINE_LENGTH ==> Crockford(s[i])
  }

  /** The digits and the letters but I, L, O and U. */
  predicate Crockford(c: char) {
    '0' <= c <= '9' || ('A' <= c <= 'Z' && c != 'I' && c != 'L' && c != 'O' && c != 'U')
  }

  lemma TableEntry(i: nat)
    requires i < |CROCKFORD|
    ensures Crockford(CROCKFORD[i])
  {
  }

  lemma TableIndex(c: char)
    requires Crockford(c)
    ensures exists i :: 0 <= i < |CROCKFORD| && CROCKFORD[i] == c
  {
    var i := c as int - (if c <= '9' then 48 else if c < 'I' then 55 else if c < 'L' then 56
                         else if c < 'O' then 57 else if c < 'U' then 58 else 59);
    assert CROCKFORD[i] == c;
  }

  predicate IsHexId(s: string) {
    |s| == HEX_ID_LENGTH && forall i :: 0 <= i < HEX_ID_LENGTH ==> LowerHex(s[i])
  }

  predicate LowerHex(c: char) {
    '0' <= c <= '9' || 'a' <= c <= 'f'
  }

  predicate InstallChar(i: nat, c: char) {
    if i == 8 || i == 13 || i == 18 || i == 23 then c == '-' else LowerHex(c) || 'A' <= c <= 'F'
  }

  predicate IsInstall(s: string) {
    |s| == INSTALL_LENGTH && forall i :: 0 <= i < INSTALL_LENGTH ==> InstallChar(i, s[i])
  }

  predicate NamesValid(n: Names) {
    IsMachine(n.machine) && IsInstall(n.install) && IsHexId(n.nonce) && IsHexId(n.session)
  }

  /** The character a C reader of the string sees at index i. */
  function CharAt(s: string, i: nat): char
    requires i <= |s|
  {
    if i < |s| then s[i] else '\0'
  }

  /** A string as C holds it: no NUL before its end. */
  predicate NoNul(s: string) {
    forall i :: 0 <= i < |s| ==> s[i] != '\0'
  }

  method InTable(c: char) returns (found: bool)
    ensures found <==> Crockford(c)
  {
    hide Crockford, CROCKFORD;
    found := false;
    for table := 0 to |CROCKFORD|
      invariant forall k :: 0 <= k < table ==> c != CROCKFORD[k]
    {
      if c == CROCKFORD[table] {
        TableEntry(table);
        return true;
      }
    }
    if Crockford(c) {
      TableIndex(c);
    }
  }

  /** The machine validator; it stops at the terminator of a string that is too short. */
  method MachineValid(s: string) returns (ok: bool)
    requires NoNul(s)
    ensures ok <==> IsMachine(s)
  {
    if CharAt(s, 0) != 'M' || CharAt(s, 1) != '-' {
      return false;
    }
    for index := 2 to MACHINE_LENGTH
      invariant index <= |s| && s[0] == 'M' && s[1] == '-'
      invariant forall i :: 2 <= i < index ==> Crockford(s[i])
    {
      var found := InTable(CharAt(s, index));
      if !found {
        return false;
      }
    }
    return CharAt(s, MACHINE_LENGTH) == '\0';
  }

  /** The session id and nonce validator. */
  method HexIdValid(s: string) returns (ok: bool)
    requires NoNul(s)
    ensures ok <==> IsHexId(s)
  {
    for index := 0 to HEX_ID_LENGTH
      invariant index <= |s| && forall i :: 0 <= i < index ==> LowerHex(s[i])
    {
      if !LowerHex(CharAt(s, index)) {
        return false;
      }
    }
    return CharAt(s, HEX_ID_LENGTH) == '\0';
  }

  /** The install id validator: 8-4-4-4-12 hex digits of either case. */
  method InstallValid(s: string) returns (ok: bool)
    requires NoNul(s)
    ensures ok <==> IsInstall(s)
  {
    for index := 0 to INSTALL_LENGTH
      invariant index <= |s| && forall i :: 0 <= i < index ==> InstallChar(i, s[i])
    {
      if !InstallChar(index, CharAt(s, index)) {
        return false;
      }
    }
    return CharAt(s, INSTALL_LENGTH) == '\0';
  }

  function Decimal(n: nat): (s: string)
    ensures |s| >= 1
  {
    if n < 10 then [DIGITS[n]] else Decimal(n / 10) + [DIGITS[n % 10]]
  }

  /** The number a digit string stands for. */
  function DecimalValue(s: string): int {
    if s == [] then 0 else 10 * DecimalValue(s[..|s| - 1]) + DigitOf(s[|s| - 1])
  }

  function DigitOf(c: char): int {
    c as int - '0' as int
  }

  lemma {:induction false} DecimalRoundTrip(n: nat)
    ensures DecimalValue(Decimal(n)) == n
  {
    if n >= 10 {
      DecimalRoundTrip(n / 10);
      assert Decimal(n)[..|Decimal(n)| - 1] == Decimal(n / 10);
    } else {
      assert Decimal(n)[..0] == [];
    }
  }

  lemma {:induction false} DecimalNoNul(n: nat)
    ensures NoNul(Decimal(n))
  {
    if n >= 10 {
      DecimalNoNul(n / 10);
    }
  }

  lemma {:induction false} DecimalLength(n: nat, digits: nat, bound: nat)
    requires n < bound && digits >= 1 && bound == Power10(digits)
    ensures |Decimal(n)| <= digits
  {
    if n >= 10 {
      if digits == 1 {
        assert false;
      }
      DecimalLength(n / 10, digits - 1, Power10(digits - 1));
    }
  }

  function Power10(k: nat): nat {
    if k == 0 then 1 else 10 * Power10(k - 1)
  }

  /** A 32-bit sequence number has at most ten digits. */
  lemma SeqDigits(seqNo: u32)
    ensures |Decimal(seqNo)| <= 10
  {
    assert Power10(10) == 10_000_000_000 by {
      assert Power10(4) == 10_000;
      assert Power10(7) == 10_000_000;
    }
    DecimalLength(seqNo, 10, Power10(10));
  }

  function Hex(bytes: seq<u8>): (s: string)
    ensures |s| == 2 * |bytes|
  {
    if bytes == [] then ""
    else Hex(bytes[..|bytes| - 1]) + [HEX_DIGITS[bytes[|bytes| - 1] / 16], HEX_DIGITS[bytes[|bytes| - 1] % 16]]
  }

  lemma {:induction false} HexAt(bytes: seq<u8>, i: nat)
    requires i < |bytes|
    ensures Hex(bytes)[2 * i] == HEX_DIGITS[bytes[i] / 16] && Hex(bytes)[2 * i + 1] == HEX_DIGITS[bytes[i] % 16]
    decreases |bytes|
  {
    if i + 1 < |bytes| {
      HexAt(bytes[..|bytes| - 1], i);
    }
  }

  lemma {:induction false} HexNoNul(bytes: seq<u8>)
    ensures NoNul(Hex(bytes))
  {
    if bytes != [] {
      HexNoNul(bytes[..|bytes| - 1]);
      assert HEX_DIGITS[bytes[|bytes| - 1] / 16] != '\0' && HEX_DIGITS[bytes[|bytes| - 1] % 16] != '\0';
    }
  }

  lemma HexDigitsDiffer(i: nat, j: nat)
    requires i < 16 && j < 16 && HEX_DIGITS[i] == HEX_DIGITS[j]
    ensures i == j
  {
  }

  lemma HexInjective(a: seq<u8>, b: seq<u8>)
    requires |a| == |b| && Hex(a) == Hex(b)
    ensures a == b
  {
    hide Hex;
    forall i | 0 <= i < |a|
      ensures a[i] == b[i]
    {
      HexAt(a, i);
      HexAt(b, i);
      HexDigitsDiffer(a[i] / 16, b[i] / 16);
      HexDigitsDiffer(a[i] % 16, b[i] % 16);
    }
  }

  /** The five lines that name the session. */
  function Preamble(n: Names): string {
    HEAD_MACHINE + n.machine + HEAD_INSTALL + n.install + HEAD_NONCE + n.nonce + HEAD_SESSION + n.session + HEAD_SEQ
  }

  /** The canonical text of one chunk. */
  function Text(n: Names, seqNo: nat, digest: Digest): string {
    Preamble(n) + Decimal(seqNo) + HEAD_DIGEST + Hex(digest) + "\n"
  }

  lemma PreambleLength(n: Names)
    requires NamesValid(n)
    ensures |Preamble(n)| == 156
  {
  }

  /** Where the names stand in the text: every one has a fixed width. */
  lemma PreambleInjective(a: Names, b: Names)
    requires NamesValid(a) && NamesValid(b) && Preamble(a) == Preamble(b)
    ensures a == b
  {
    hide Preamble, NamesValid;
    PreambleParts(a);
    PreambleParts(b);
  }

  lemma PreambleParts(n: Names)
    requires NamesValid(n)
    ensures |Preamble(n)| == 156 && Preamble(n)[18..26] == n.machine && Preamble(n)[35..71] == n.install
    ensures Preamble(n)[78..110] == n.nonce && Preamble(n)[119..151] == n.session
  {
    hide IsMachine, IsInstall, IsHexId, Preamble;
    NameLengths(n);
    PreambleLength(n);
    MachinePart(n);
    InstallPart(n);
    NoncePart(n);
    SessionPart(n);
  }

  lemma MachinePart(n: Names)
    requires |n.machine| == 8
    ensures |Preamble(n)| >= 26 && Preamble(n)[18..26] == n.machine
  {
    var rest := HEAD_INSTALL + n.install + HEAD_NONCE + n.nonce + HEAD_SESSION + n.session + HEAD_SEQ;
    assert Preamble(n) == HEAD_MACHINE + n.machine + rest;
    Middle(HEAD_MACHINE, n.machine, rest);
  }

  lemma InstallPart(n: Names)
    requires |n.machine| == 8 && |n.install| == 36
    ensures |Preamble(n)| >= 71 && Preamble(n)[35..71] == n.install
  {
    var front := HEAD_MACHINE + n.machine + HEAD_INSTALL;
    var rest := HEAD_NONCE + n.nonce + HEAD_SESSION + n.session + HEAD_SEQ;
    assert Preamble(n) == front + n.install + rest;
    Middle(front, n.install, rest);
  }

  lemma NoncePart(n: Names)
    requires |n.machine| == 8 && |n.install| == 36 && |n.nonce| == 32
    ensures |Preamble(n)| >= 110 && Preamble(n)[78..110] == n.nonce
  {
    var front := HEAD_MACHINE + n.machine + HEAD_INSTALL + n.install + HEAD_NONCE;
    var rest := HEAD_SESSION + n.session + HEAD_SEQ;
    assert Preamble(n) == front + n.nonce + rest;
    Middle(front, n.nonce, rest);
  }

  lemma SessionPart(n: Names)
    requires |n.machine| == 8 && |n.install| == 36 && |n.nonce| == 32 && |n.session| == 32
    ensures |Preamble(n)| >= 151 && Preamble(n)[119..151] == n.session
  {
    var front := HEAD_MACHINE + n.machine + HEAD_INSTALL + n.install + HEAD_NONCE + n.nonce + HEAD_SESSION;
    assert Preamble(n) == front + n.session + HEAD_SEQ;
    Middle(front, n.session, HEAD_SEQ);
  }

  lemma NameLengths(n: Names)
    requires NamesValid(n)
    ensures |n.machine| == 8 && |n.install| == 36 && |n.nonce| == 32 && |n.session| == 32
  {
  }

  lemma Middle(a: string, b: string, c: string)
    ensures (a + b + c)[|a|..|a| + |b|] == b
  {
  }

  /** No two statements share a canonical text. */
  lemma TextInjective(a: Names, b: Names, i: nat, j: nat, d: Digest, e: Digest)
    requires NamesValid(a) && NamesValid(b) && Text(a, i, d) == Text(b, j, e)
    ensures a == b && i == j && d == e
  {
    hide Hex, Decimal, Preamble, NamesValid;
    PreambleLength(a);
    PreambleLength(b);
    TextParts(a, i, d);
    TextParts(b, j, e);
    assert |Decimal(i)| == |Decimal(j)|;
    PreambleInjective(a, b);
    DecimalRoundTrip(i);
    DecimalRoundTrip(j);
    HexInjective(d, e);
  }

  lemma TextParts(n: Names, seqNo: nat, digest: Digest)
    requires |Preamble(n)| == 156
    ensures var t, k := Text(n, seqNo, digest), |Decimal(seqNo)|;
            && |t| == 229 + k && t[..156] == Preamble(n) && t[156..156 + k] == Decimal(seqNo)
            && t[164 + k..228 + k] == Hex(digest)
  {
    hide Hex, Decimal, Preamble;
  }

  lemma PartsNoNul(n: Names, seqNo: nat, digest: Digest)
    requires NamesValid(n)
    ensures NoNul(Text(n, seqNo, digest))
  {
    hide Hex, Decimal;
    DecimalNoNul(seqNo);
    HexNoNul(digest);
    NamesNoNul(n);
  }

  lemma NamesNoNul(n: Names)
    requires NamesValid(n)
    ensures NoNul(n.machine) && NoNul(n.install) && NoNul(n.nonce) && NoNul(n.session)
  {
  }

  method Append(out: array<char>, used: nat, text: string) returns (used': nat)
    requires used + |text| <= out.Length
    modifies out
    ensures used' == used + |text| && out[..used'] == old(out[..used]) + text
  {
    ghost var before := out[..used];
    for i := 0 to |text|
      invariant out[..used + i] == before + text[..i]
    {
      out[used + i] := text[i];
    }
    used' := used + |text|;
  }

  /** Lower-case hex, two digits a byte. */
  method WriteHex(bytes: seq<u8>, out: array<char>)
    requires out.Length >= 2 * |bytes| + 1
    modifies out
    ensures out[..2 * |bytes|] == Hex(bytes) && out[2 * |bytes|] == '\0'
  {
    for index := 0 to |bytes|
      invariant out[..2 * index] == Hex(bytes[..index])
    {
      out[2 * index] := HEX_DIGITS[bytes[index] / 16];
      out[2 * index + 1] := HEX_DIGITS[bytes[index] % 16];
      assert bytes[..index + 1][..index] == bytes[..index];
    }
    out[2 * |bytes|] := '\0';
    assert bytes[..|bytes|] == bytes;
  }

  /** seq in decimal, filled from the back of an eleven-byte buffer. */
  method WriteNumber(seqNo: u32) returns (number: array<char>, digits: nat)
    ensures fresh(number) && number.Length == 11 && 1 <= digits <= 10
    ensures number[10 - digits..10] == Decimal(seqNo)
  {
    hide Decimal, Leading;
    SeqDigits(seqNo);
    number := new char[11](i => '\0');
    var value: nat := seqNo;
    digits := 1;
    number[9] := DIGITS[value % 10];
    value := value / 10;
    LastDigit(seqNo);
    assert number[9..10] == [DIGITS[seqNo % 10]];
    while value != 0
      invariant 1 <= digits && digits + |Leading(value)| <= 10
      invariant Decimal(seqNo) == Leading(value) + number[10 - digits..10]
      decreases value
    {
      ghost var tail := number[10 - digits..10];
      DigitStep(value, tail);
      number[10 - digits - 1] := DIGITS[value % 10];
      assert number[10 - digits - 1..10] == [DIGITS[value % 10]] + tail;
      value := value / 10;
      digits := digits + 1;
    }
    NothingLeads(number[10 - digits..10]);
  }

  /** The digits still to be written. */
  function Leading(value: nat): string {
    if value == 0 then "" else Decimal(value)
  }

  lemma NothingLeads(tail: string)
    ensures Leading(0) + tail == tail
  {
  }

  lemma LastDigit(n: nat)
    ensures Decimal(n) == Leading(n / 10) + [DIGITS[n % 10]]
  {
  }

  /** Writing a digit moves it from what is left to what is written. */
  lemma DigitStep(value: nat, tail: string)
    requires value != 0
    ensures Leading(value) + tail == Leading(value / 10) + ([DIGITS[value % 10]] + tail)
    ensures |Leading(value)| == |Leading(value / 10)| + 1
  {
    hide Decimal;
    LastDigit(value);
  }

  /** The length of a C string. */
  method TextLength(out: array<char>, ghost end: nat) returns (length: nat)
    requires end < out.Length && out[end] == '\0' && NoNul(out[..end])
    ensures length == end
  {
    length := 0;
    while out[length] != '\0'
      invariant length <= end
      decreases end - length
    {
      length := length + 1;
    }
  }

  /** Build the canonical text, or refuse malformed names; it always fits its 256 characters. */
  method Message(n: Names, seqNo: u32, digest: Digest, out: array<char>) returns (ok: bool, length: nat)
    requires NoNul(n.machine) && NoNul(n.install) && NoNul(n.nonce) && NoNul(n.session) && out.Length >= MESSAGE_MAX
    modifies out
    ensures ok <==> NamesValid(n)
    ensures ok ==> length < MESSAGE_MAX && out[..length] == Text(n, seqNo, digest) && out[length] == '\0'
  {
    hide IsMachine, IsInstall, IsHexId, Hex, Decimal, NoNul, Preamble;
    var a := MachineValid(n.machine);
    var b := InstallValid(n.install);
    var c := HexIdValid(n.nonce);
    var d := HexIdValid(n.session);
    if !a || !b || !c || !d {
      return false, 0;
    }
    PreambleLength(n);
    TextParts(n, seqNo, digest);
    SeqDigits(seqNo);
    var used := WritePreamble(n, out);
    used := WriteRest(n, seqNo, digest, out, used);
    out[used] := '\0';
    assert out[..used] == Text(n, seqNo, digest);
    PartsNoNul(n, seqNo, digest);
    var measured := TextLength(out, used);
    return used < MESSAGE_MAX && used == measured, used;
  }

  method WriteIdentity(n: Names, out: array<char>) returns (used: nat)
    requires |n.machine| == 8 && |n.install| == 36 && out.Length >= MESSAGE_MAX
    modifies out
    ensures used == 71 && out[..used] == HEAD_MACHINE + n.machine + HEAD_INSTALL + n.install
  {
    assert out[..0] == "";
    used := Append(out, 0, HEAD_MACHINE);
    used := Append(out, used, n.machine);
    used := Append(out, used, HEAD_INSTALL);
    used := Append(out, used, n.install);
  }

  method WritePreamble(n: Names, out: array<char>) returns (used: nat)
    requires NamesValid(n) && out.Length >= MESSAGE_MAX
    modifies out
    ensures used == 156 && out[..used] == Preamble(n)
  {
    hide NamesValid, HEAD_MACHINE, HEAD_INSTALL;
    NameLengths(n);
    used := WriteIdentity(n, out);
    used := Append(out, used, HEAD_NONCE);
    used := Append(out, used, n.nonce);
    used := Append(out, used, HEAD_SESSION);
    used := Append(out, used, n.session);
    used := Append(out, used, HEAD_SEQ);
  }

  method WriteRest(n: Names, seqNo: u32, digest: Digest, out: array<char>, at: nat) returns (used: nat)
    requires at == 156 && out.Length >= MESSAGE_MAX && |Decimal(seqNo)| <= 10 && out[..at] == Preamble(n)
    modifies out
    ensures used <= 239 && out[..used] == Text(n, seqNo, digest)
  {
    hide Hex, Decimal, Preamble;
    var hex := new char[65](i => '\0');
    WriteHex(digest, hex);
    var number, digits := WriteNumber(seqNo);
    used := Append(out, at, number[10 - digits..10]);
    used := Append(out, used, HEAD_DIGEST);
    used := Append(out, used, hex[..64]);
    used := Append(out, used, "\n");
  }
}
