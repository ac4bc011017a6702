/** Database requests of the capability daemon: packed into a buffer through a moving pointer, and
    unpacked in the buffer they came in. */
module CspWire {
  import opened Bytes
  import opened Options

  const CS_VER := 1
  const CS_HELLO := 1
  const CS_REQ := 2
  const CS_CAP := 3
  const CS_SET := 1

  /** strlen, as it is stored in an unsigned short. */
  function Len16(s: seq<Byte>): U16 {
    |s| % 0x1_0000
  }

  function ValueOf(value: Option<seq<Byte>>): seq<Byte> {
    match value case Some(v) => v case None => []
  }

  /** Where the value's field begins: on the NUL of the key, if there is a key. */
  function ValueAt(key: seq<Byte>): nat {
    if Len16(key) == 0 then 3 else 5 + Len16(key)
  }

  /** A length, the string, and a NUL, unless it is empty. */
  function PutString(buf: seq<Byte>, at: nat, s: seq<Byte>): (r: seq<Byte>)
    requires at + 3 + Len16(s) <= |buf|
    ensures |r| == |buf|
  {
    if Len16(s) == 0 then buf
    else Put(buf, at, BytesOf16(Len16(s)) + s[..Len16(s)] + [0])
  }

  /** The buffer with the header and the key. */
  function Keyed(buf: seq<Byte>, key: seq<Byte>, typ: Byte): (r: seq<Byte>)
    requires 9 + Len16(key) <= |buf|
    ensures |r| == |buf|
  {
    PutString(Put(buf, 0, [CS_VER, CS_REQ, typ]), 3, key)
  }

  /** The buffer after packing: the value's length overwrites the NUL of the key. */
  function Packed(buf: seq<Byte>, key: seq<Byte>, value: seq<Byte>, typ: Byte): (r: seq<Byte>)
    requires 9 + Len16(key) + Len16(value) <= |buf|
    ensures |r| == |buf|
  {
    if typ == CS_SET then PutString(Keyed(buf, key, typ), ValueAt(key), value) else Keyed(buf, key, typ)
  }

  lemma HeaderComesFirst(buf: seq<Byte>, key: seq<Byte>, value: seq<Byte>, typ: Byte)
    requires 9 + Len16(key) + Len16(value) <= |buf|
    ensures var p := Packed(buf, key, value, typ); p[0] == 1 && p[1] == 2 && p[2] == typ
  {
    var headed := Put(buf, 0, [CS_VER, CS_REQ, typ]);
    assert headed[0] == CS_VER && headed[1] == CS_REQ && headed[2] == typ;
    assert forall i :: 0 <= i < 3 ==> Keyed(buf, key, typ)[i] == headed[i];
    assert forall i :: 0 <= i < 3 ==> Packed(buf, key, value, typ)[i] == headed[i];
  }

  lemma LengthsAddUp(key: nat, value: nat)
    ensures (9 + key % 0x1_0000 + value % 0x1_0000) % 0x1_0000 == (9 + key + value) % 0x1_0000
  {
  }

  /** csp_pack_dbreq_packet; the result is -1 without a key, and otherwise the length to send. */
  method PackDbreqPacket(packet: array<Byte>, key: Option<seq<Byte>>, value: Option<seq<Byte>>, typ: Byte)
    returns (packLen: int)
    requires key.Some? ==> 9 + Len16(key.value) + Len16(ValueOf(value)) <= packet.Length
    modifies packet
    ensures key == None ==> packLen == -1 && packet[..] == old(packet[..])
    ensures key.Some? ==>
              && packLen == (9 + Len16(key.value) + Len16(ValueOf(value))) % 0x1_0000
              && packet[..] == Packed(old(packet[..]), key.value, ValueOf(value), typ)
              && packLen == (9 + |key.value| + |ValueOf(value)|) % 0x1_0000
              && packet[0] == 1 && packet[1] == 2 && packet[2] == typ
  {
    if key == None { return -1; }
    var keyLen: nat := Len16(key.value);
    var valLen: nat := if value.Some? then Len16(value.value) else 0;
    packLen := (3 + keyLen + valLen + 3 * 2) % 0x1_0000;
    LengthsAddUp(|key.value|, |ValueOf(value)|);
    HeaderComesFirst(packet[..], key.value, ValueOf(value), typ);
    Memcpy(packet, 0, [CS_VER, CS_REQ, typ]);
    var packetData := 3;
    if keyLen > 0 {
      packetData := WriteString(packet, packetData, key.value, keyLen);
    }
    if valLen > 0 && typ == CS_SET {
      packetData := WriteString(packet, packetData, value.value, valLen);
    }
  }

  /** The steps that both strings are written with; the pointer is left at the NUL. */
  method WriteString(packet: array<Byte>, at: nat, s: seq<Byte>, len: nat) returns (packetData: nat)
    requires len == Len16(s) > 0 && at + 3 + len <= packet.Length
    modifies packet
    ensures packetData == at + 2 + len && packet[..] == PutString(old(packet[..]), at, s)
  {
    packetData := at;
    Memcpy(packet, packetData, BytesOf16(len));
    packetData := packetData + 2;
    Memcpy(packet, packetData, s[..len]);
    packetData := packetData + len;
    packet[packetData] := 0;
    WrittenInSteps(old(packet[..]), at, BytesOf16(len), s[..len]);
    assert packet[..] == Put(Put(old(packet[..]), at, BytesOf16(len)), at + 2, s[..len])[at + 2 + len := 0];
  }

  lemma WrittenInSteps(buf: seq<Byte>, at: nat, length: seq<Byte>, s: seq<Byte>)
    requires |length| == 2 && at + 3 + |s| <= |buf|
    ensures Put(Put(buf, at, length), at + 2, s)[at + 2 + |s| := 0] == Put(buf, at, length + s + [0])
  {
  }

  /** Where csp_unpack_dbreq_request says that key and value are. */
  datatype Found = Found(key: nat, value: Option<nat>)

  /** The unpacker is given the packet from its fourth byte on, and writes up to two NULs into it;
      the value's length is read before the first of them falls on it. */
  predicate CanUnpack(buf: seq<Byte>, typ: Byte) {
    && 5 <= |buf|
    && (typ == CS_SET ==>
          var at := 5 + Read16(buf, 3);
          at + 2 <= |buf| && at + 2 + Read16(buf, at) < |buf|)
  }

  function Unpacked(buf: seq<Byte>, typ: Byte): (r: (seq<Byte>, Found))
    requires CanUnpack(buf, typ)
    ensures |r.0| == |buf|
  {
    if typ == CS_SET then
      var at := 5 + Read16(buf, 3);
      (buf[at := 0][at + 2 + Read16(buf, at) := 0], Found(5, Some(at + 2)))
    else (buf, Found(5, None))
  }

  method UnpackDbreqRequest(packet: array<Byte>, typ: Byte) returns (found: Found)
    requires CanUnpack(packet[..], typ)
    modifies packet
    ensures (packet[..], found) == Unpacked(old(packet[..]), typ)
  {
    var keyLen: nat := Read16(packet[..], 3);
    var keyData := 5;
    if typ == CS_SET {
      var valLen: nat := Read16(packet[..], keyData + keyLen);
      packet[keyData + keyLen] := 0;
      var valData := keyData + keyLen + 2;
      packet[valData + valLen] := 0;
      found := Found(keyData, Some(valData));
    } else {
      found := Found(keyData, None);
    }
  }

  // Packing and unpacking together.

  ghost predicate FitsField(s: seq<Byte>) {
    NulFree(s) && |s| < 0x1_0000
  }

  /** q is p but for the bytes from lo up to hi. */
  ghost predicate SameBut(p: seq<Byte>, q: seq<Byte>, lo: nat, hi: nat) {
    |p| == |q| && forall i :: 0 <= i < |p| && !(lo <= i < hi) ==> p[i] == q[i]
  }

  lemma StringIsPut(buf: seq<Byte>, at: nat, s: seq<Byte>)
    requires FitsField(s) && s != [] && at + 3 + |s| <= |buf|
    ensures var p := PutString(buf, at, s);
            FieldAt(p, at, s) && p[at + 2 + |s|] == 0 && SameBut(p, buf, at, at + 3 + |s|)
  {
    var p, field := PutString(buf, at, s), BytesOf16(|s|) + s;
    assert s[..|s|] == s;
    forall i | 0 <= i < 2 + |s| ensures p[at + i] == field[i] {
      assert p[at + i] == (field + [0])[i];
    }
    FieldOfBytes(p, at, s);
  }

  lemma KeyIsPut(buf: seq<Byte>, key: seq<Byte>, typ: Byte)
    requires FitsField(key) && key != [] && 9 + |key| <= |buf|
    ensures var p := Keyed(buf, key, typ);
            && FieldAt(p, 3, key) && p[5 + |key|] == 0
            && p[0] == CS_VER && p[1] == CS_REQ && p[2] == typ
            && SameBut(p, buf, 0, 6 + |key|)
  {
    StringIsPut(Put(buf, 0, [CS_VER, CS_REQ, typ]), 3, key);
  }

  /** A packet with both strings, as the packer leaves it for a SET with a value. */
  ghost predicate Carries(p: seq<Byte>, key: seq<Byte>, value: seq<Byte>) {
    && FieldAt(p, 3, key) && FieldAt(p, 5 + |key|, value)
    && 7 + |key| + |value| < |p| && p[7 + |key| + |value|] == 0
    && p[0] == CS_VER && p[1] == CS_REQ && p[2] == CS_SET
  }

  lemma ValueAtIs(key: seq<Byte>)
    requires FitsField(key) && key != []
    ensures Len16(key) == |key| && ValueAt(key) == 5 + |key|
  {
  }

  lemma PackedCarries(buf: seq<Byte>, key: seq<Byte>, value: seq<Byte>)
    requires FitsField(key) && key != [] && FitsField(value) && value != [] && 9 + |key| + |value| <= |buf|
    ensures Carries(Packed(buf, key, value, CS_SET), key, value)
  {
    ValueAtIs(key);
    KeyIsPut(buf, key, CS_SET);
    ValueIsPut(Keyed(buf, key, CS_SET), key, value);
  }

  lemma ValueIsPut(keyed: seq<Byte>, key: seq<Byte>, value: seq<Byte>)
    requires FitsField(value) && value != [] && 8 + |key| + |value| <= |keyed|
    requires FieldAt(keyed, 3, key) && keyed[0] == CS_VER && keyed[1] == CS_REQ && keyed[2] == CS_SET
    ensures Carries(PutString(keyed, 5 + |key|, value), key, value)
  {
    StringIsPut(keyed, 5 + |key|, value);
    BothAreThere(keyed, PutString(keyed, 5 + |key|, value), key, value);
  }

  lemma BothAreThere(keyed: seq<Byte>, p: seq<Byte>, key: seq<Byte>, value: seq<Byte>)
    requires FieldAt(keyed, 3, key) && 7 + |key| + |value| < |p|
    requires keyed[0] == CS_VER && keyed[1] == CS_REQ && keyed[2] == CS_SET
    requires SameBut(p, keyed, 5 + |key|, 8 + |key| + |value|)
    requires FieldAt(p, 5 + |key|, value) && p[7 + |key| + |value|] == 0
    ensures Carries(p, key, value)
  {
    FieldStays(keyed, p, 3, key);
  }

  lemma CarriedComesOut(p: seq<Byte>, key: seq<Byte>, value: seq<Byte>)
    requires Carries(p, key, value) && FitsField(key) && FitsField(value)
    ensures CanUnpack(p, CS_SET)
    ensures var (r, found) := Unpacked(p, CS_SET);
            StringAt(r, found.key) == key && found.value.Some? && StringAt(r, found.value.value) == value
  {
    var r := Unpacked(p, CS_SET).0;
    StringInField(p, r, 3, key);
    StringInField(p, r, 5 + |key|, value);
  }

  /** A SET with a non-empty value comes out as it went in, although the unpacker overwrites the length
      it has just read. */
  lemma SetRoundTrip(buf: seq<Byte>, key: seq<Byte>, value: seq<Byte>)
    requires FitsField(key) && key != [] && FitsField(value) && value != [] && 9 + |key| + |value| <= |buf|
    ensures var p := Packed(buf, key, value, CS_SET);
            && CanUnpack(p, CS_SET)
            && var (r, found) := Unpacked(p, CS_SET);
               StringAt(r, found.key) == key && found.value.Some? && StringAt(r, found.value.value) == value
  {
    PackedCarries(buf, key, value);
    CarriedComesOut(Packed(buf, key, value, CS_SET), key, value);
  }

  /** A SET with an empty value leaves out the value's length, so the unpacker reads what happens to
      lie behind the key: the value comes out empty exactly when one of two stale bytes is zero. */
  lemma EmptyValueIff(buf: seq<Byte>, key: seq<Byte>)
    requires FitsField(key) && key != [] && 9 + |key| <= |buf|
    requires CanUnpack(Packed(buf, key, [], CS_SET), CS_SET)
    ensures var (r, found) := Unpacked(Packed(buf, key, [], CS_SET), CS_SET);
            && StringAt(r, found.key) == key && found.value.Some?
            && (StringAt(r, found.value.value) == [] <==> buf[6 + |key|] == 0 || buf[7 + |key|] == 0)
  {
    var p := Keyed(buf, key, CS_SET);
    assert Packed(buf, key, [], CS_SET) == p;
    KeyIsPut(buf, key, CS_SET);
    StringInField(p, Unpacked(p, CS_SET).0, 3, key);
    assert p[6 + |key|] == buf[6 + |key|] && p[7 + |key|] == buf[7 + |key|];
  }

  /** With an empty key the value lies where a key is looked for, and is taken for one. */
  lemma EmptyKeyTakesTheValue(buf: seq<Byte>, value: seq<Byte>)
    requires FitsField(value) && value != [] && 9 + |value| <= |buf|
    requires CanUnpack(Packed(buf, [], value, CS_SET), CS_SET)
    ensures var (r, found) := Unpacked(Packed(buf, [], value, CS_SET), CS_SET); StringAt(r, found.key) == value
  {
    var headed := Put(buf, 0, [CS_VER, CS_REQ, CS_SET]);
    var p := PutString(headed, 3, value);
    assert Packed(buf, [], value, CS_SET) == p;
    StringIsPut(headed, 3, value);
    StringInField(p, Unpacked(p, CS_SET).0, 3, value);
  }

  /** What has to lie in the buffer for two empty strings to come out empty: nothing of them is
      written, so both lengths and both strings are stale. */
  predicate NothingStale(buf: seq<Byte>)
    requires 9 <= |buf|
  {
    var at := 5 + Read16(buf, 3);
    && (buf[5] == 0 || Read16(buf, 3) == 0)
    && at + 2 < |buf|
    && (Read16(buf, at) == 0 || buf[at + 2] == 0)
  }

  lemma NothingSentIff(buf: seq<Byte>)
    requires 9 <= |buf| && CanUnpack(Packed(buf, [], [], CS_SET), CS_SET)
    ensures var (r, found) := Unpacked(Packed(buf, [], [], CS_SET), CS_SET);
            && found.value.Some?
            && (StringAt(r, found.key) == [] && StringAt(r, found.value.value) == [] <==> NothingStale(buf))
  {
    var p := Packed(buf, [], [], CS_SET);
    assert p == Put(buf, 0, [CS_VER, CS_REQ, CS_SET]);
    assert forall i :: 3 <= i < |buf| ==> p[i] == buf[i];
    var at := 5 + Read16(p, 3);
    var r := Unpacked(p, CS_SET).0;
    assert r == p[at := 0][at + 2 + Read16(p, at) := 0];
    assert StringAt(r, 5) == [] <==> r[5] == 0;
    assert StringAt(r, at + 2) == [] <==> r[at + 2] == 0;
  }

  /** When a SET comes out as it went in: with a key and a value always, with a key alone if one of two
      stale bytes is zero, with a value alone never, with neither if the stale bytes spell nothing. */
  predicate SetSurvives(buf: seq<Byte>, key: seq<Byte>, value: seq<Byte>)
    requires 9 + |key| + |value| <= |buf|
  {
    if key != [] then value != [] || buf[6 + |key|] == 0 || buf[7 + |key|] == 0
    else value == [] && NothingStale(buf)
  }

  lemma SetComesOutIff(buf: seq<Byte>, key: seq<Byte>, value: seq<Byte>)
    requires FitsField(key) && FitsField(value) && 9 + |key| + |value| <= |buf|
    requires CanUnpack(Packed(buf, key, value, CS_SET), CS_SET)
    ensures var (r, found) := Unpacked(Packed(buf, key, value, CS_SET), CS_SET);
            (StringAt(r, found.key) == key && found.value.Some? && StringAt(r, found.value.value) == value) <==>
            SetSurvives(buf, key, value)
  {
    if key != [] && value != [] {
      SetRoundTrip(buf, key, value);
    } else if key != [] {
      EmptyValueIff(buf, key);
    } else if value != [] {
      EmptyKeyTakesTheValue(buf, value);
    } else {
      NothingSentIff(buf);
    }
  }

  /** The key of any other request is ended by the packer's own NUL, and no value comes out. */
  lemma KeyRoundTrip(buf: seq<Byte>, key: seq<Byte>, value: seq<Byte>, typ: Byte)
    requires FitsField(key) && key != [] && FitsField(value) && 9 + |key| + |value| <= |buf| && typ != CS_SET
    ensures var p := Packed(buf, key, value, typ);
            && CanUnpack(p, typ)
            && Unpacked(p, typ) == (p, Found(5, None)) && StringAt(p, 5) == key
  {
    var p := Keyed(buf, key, typ);
    KeyIsPut(buf, key, typ);
    StringInField(p, p, 3, key);
  }

  lemma PrefixSuffices(p: seq<Byte>, key: seq<Byte>, value: seq<Byte>, n: nat)
    requires Carries(p, key, value) && n <= |p|
    ensures CanUnpack(p[..n], CS_SET) <==> 7 + |key| + |value| < n
  {
    assert 5 <= n ==> Read16(p[..n], 3) == |key|;
    assert 7 + |key| <= n ==> Read16(p[..n], 5 + |key|) == |value|;
  }

  /** Everything that the unpacker reads or writes lies within the length that is sent, if that is not
      cut short by its sixteen bits. */
  lemma SentLengthCovers(buf: seq<Byte>, key: seq<Byte>, value: seq<Byte>)
    requires FitsField(key) && key != [] && FitsField(value) && value != [] && 9 + |key| + |value| <= |buf|
    ensures var p, packLen := Packed(buf, key, value, CS_SET), (9 + |key| + |value|) % 0x1_0000;
            CanUnpack(p[..packLen], CS_SET) <==> 9 + |key| + |value| < 0x1_0000
  {
    var total := 9 + |key| + |value|;
    PackedCarries(buf, key, value);
    PrefixSuffices(Packed(buf, key, value, CS_SET), key, value, total % 0x1_0000);
    CutShort(total);
  }

  lemma CutShort(n: nat)
    ensures if n < 0x1_0000 then n % 0x1_0000 == n else n % 0x1_0000 <= n - 0x1_0000
  {
  }

  // Who gets a packet that has arrived.

  datatype Delivery = Invalid | Hello | Database(typ: Byte, found: Found) | Capability | Ignored

  predicate CanDeliver(buf: seq<Byte>) {
    2 <= |buf| && (buf[0] == CS_VER && buf[1] == CS_REQ ==> 3 <= |buf| && CanUnpack(buf, buf[2]))
  }

  function Delivered(buf: seq<Byte>): Delivery
    requires CanDeliver(buf)
  {
    if buf[0] != CS_VER then Invalid
    else if buf[1] == CS_HELLO then Hello
    else if buf[1] == CS_REQ then Database(buf[2], Unpacked(buf, buf[2]).1)
    else if buf[1] == CS_CAP then Capability
    else Ignored
  }

  /** The switch of cs_receive_packets, with csp_unpack_dbreq_request for a database request. */
  method Deliver(packet: array<Byte>) returns (d: Delivery)
    requires CanDeliver(packet[..])
    modifies packet
    ensures d == Delivered(old(packet[..]))
    ensures packet[..] == if d.Database? then Unpacked(old(packet[..]), d.typ).0 else old(packet[..])
  {
    var csVersion, csType := packet[0], packet[1];
    if csVersion != CS_VER { return Invalid; }
    if csType == CS_HELLO {
      d := Hello;
    } else if csType == CS_REQ {
      var reqType := packet[2];
      var found := UnpackDbreqRequest(packet, reqType);
      d := Database(reqType, found);
    } else if csType == CS_CAP {
      d := Capability;
    } else {
      d := Ignored;
    }
  }

  lemma DeliveredIff(buf: seq<Byte>)
    requires CanDeliver(buf)
    ensures Delivered(buf).Database? <==> buf[..2] == [1, 2]
    ensures Delivered(buf) == Invalid <==> buf[0] != 1
    ensures Delivered(buf) == Hello <==> buf[..2] == [1, 1]
    ensures Delivered(buf) == Capability <==> buf[..2] == [1, 3]
  {
    assert buf[..2] == [buf[0], buf[1]];
  }

  /** What is packed as a database request is delivered as one, of the same type. */
  lemma RequestIsDelivered(buf: seq<Byte>, key: seq<Byte>, value: seq<Byte>, typ: Byte)
    requires 9 + Len16(key) + Len16(value) <= |buf| && CanUnpack(Packed(buf, key, value, typ), typ)
    ensures var p := Packed(buf, key, value, typ);
            CanDeliver(p) && p[..3] == [1, 2, typ] && Delivered(p) == Database(typ, Unpacked(p, typ).1)
  {
    HeaderComesFirst(buf, key, value, typ);
  }
}
