/** The process creation packets of the daemons: a header, numbers, and strings behind their lengths. */
module IkcpWire {
  import opened Bytes

  const IKC_VERSION := 1
  const IKC_PROC_CREAT_REQ := 10
  const IKC_SYSCALL_REQ := 11
  const IKC_PROC_CREAT_RESP := 30
  const IKC_PACKET_HDR_LEN := 2
  const IKC_MIN_PACKET_SIZE := 2

  datatype Request = Request(seqNbr: U16, oPid: I32, hostname: seq<Byte>, filename: seq<Byte>, argv: seq<Byte>)

  function Field(s: seq<Byte>): (f: seq<Byte>)
    requires |s| < 0x1_0000
    ensures |f| == 2 + |s|
  {
    BytesOf16(|s|) + s
  }

  function PackedLen(m: Request): nat {
    2 + 2 + 4 + |m.hostname| + |m.filename| + |m.argv| + 3 * 2
  }

  /** packet_len is an unsigned short, and no more than that is allocated. */
  predicate Packable(m: Request) {
    PackedLen(m) < 0x1_0000
  }

  function Head(m: Request): (h: seq<Byte>)
    ensures |h| == 8
  {
    [IKC_VERSION, IKC_PROC_CREAT_REQ] + BytesOf16(m.seqNbr) + BytesOf32(m.oPid)
  }

  function Packed(m: Request): (p: seq<Byte>)
    requires Packable(m)
    ensures |p| == PackedLen(m)
  {
    Head(m) + Field(m.hostname) + Field(m.filename) + Field(m.argv)
  }

  lemma PackedIs(m: Request)
    requires Packable(m)
    ensures var p := Packed(m);
            && p[..2] == [1, 10] && p[2..4] == BytesOf16(m.seqNbr) && p[4..8] == BytesOf32(m.oPid)
            && p[8..] == BytesOf16(|m.hostname|) + m.hostname + BytesOf16(|m.filename|) + m.filename
                         + BytesOf16(|m.argv|) + m.argv
  {
    var h, f, a := Field(m.hostname), Field(m.filename), Field(m.argv);
    assert Packed(m) == Head(m) + (h + f + a);
    assert Packed(m)[8..] == h + f + a;
    assert h + f + a == BytesOf16(|m.hostname|) + m.hostname + BytesOf16(|m.filename|) + m.filename
                        + BytesOf16(|m.argv|) + m.argv;
    assert forall i :: 0 <= i < 8 ==> Packed(m)[i] == Head(m)[i];
    assert Head(m)[..2] == [1, 10] && Head(m)[2..4] == BytesOf16(m.seqNbr) && Head(m)[4..8] == BytesOf32(m.oPid);
  }

  /** memcpy to the packet pointer, which then moves on. */
  method Append(packet: array<Byte>, at: nat, bytes: seq<Byte>) returns (packetData: nat)
    requires at + |bytes| <= packet.Length
    modifies packet
    ensures packetData == at + |bytes| && packet[..packetData] == old(packet[..at]) + bytes
  {
    Memcpy(packet, at, bytes);
    packetData := at + |bytes|;
    assert packet[..][..packetData] == packet[..packetData];
  }

  /** ikcp_pack_proc_creat_req */
  method PackProcCreatReq(m: Request) returns (packet: array<Byte>, packetLen: int)
    requires Packable(m)
    ensures fresh(packet) && packetLen == packet.Length && packet[..] == Packed(m)
    ensures packet[..2] == [1, 10] && packet[2..4] == BytesOf16(m.seqNbr) && packet[4..8] == BytesOf32(m.oPid)
    ensures packet[8..] == BytesOf16(|m.hostname|) + m.hostname + BytesOf16(|m.filename|) + m.filename
                           + BytesOf16(|m.argv|) + m.argv
  {
    packetLen := PackedLen(m);
    packet := new Byte[packetLen](_ => 0);
    packet[0] := IKC_VERSION;
    packet[1] := IKC_PROC_CREAT_REQ;
    var packetData := IKC_PACKET_HDR_LEN;
    assert packet[..packetData] == [IKC_VERSION, IKC_PROC_CREAT_REQ];
    packetData := Append(packet, packetData, BytesOf16(m.seqNbr));
    packetData := Append(packet, packetData, BytesOf32(m.oPid));
    packetData := AppendField(packet, packetData, m.hostname);
    packetData := AppendField(packet, packetData, m.filename);
    packetData := AppendField(packet, packetData, m.argv);
    assert packet[..packetData] == packet[..];
    PackedIs(m);
  }

  method AppendField(packet: array<Byte>, at: nat, s: seq<Byte>) returns (packetData: nat)
    requires |s| < 0x1_0000 && at + 2 + |s| <= packet.Length
    modifies packet
    ensures packetData == at + 2 + |s| && packet[..packetData] == old(packet[..at]) + Field(s)
  {
    packetData := Append(packet, at, BytesOf16(|s|));
    packetData := Append(packet, packetData, s);
    assert (old(packet[..at]) + BytesOf16(|s|)) + s == old(packet[..at]) + Field(s);
  }

  // Unpacking follows the lengths in the packet.

  predicate HasField(buf: seq<Byte>, at: nat) {
    at + 2 <= |buf| && at + 2 + Read16(buf, at) <= |buf|
  }

  function FieldEnd(buf: seq<Byte>, at: nat): (e: nat)
    requires HasField(buf, at)
    ensures at + 2 <= e <= |buf|
  {
    at + 2 + Read16(buf, at)
  }

  function FieldText(buf: seq<Byte>, at: nat): seq<Byte>
    requires HasField(buf, at)
  {
    buf[at + 2..FieldEnd(buf, at)]
  }

  predicate CanUnpack(buf: seq<Byte>) {
    8 <= |buf| && HasField(buf, 8) && HasField(buf, FieldEnd(buf, 8)) && HasField(buf, FieldEnd(buf, FieldEnd(buf, 8)))
  }

  function Unpacked(buf: seq<Byte>): Request
    requires CanUnpack(buf)
  {
    var fileAt := FieldEnd(buf, 8);
    var argvAt := FieldEnd(buf, fileAt);
    Request(Read16(buf, 2), Read32(buf, 4), FieldText(buf, 8), FieldText(buf, fileAt), FieldText(buf, argvAt))
  }

  /** ikcp_unpack_proc_creat_req: the host name goes to the caller's buffer, the other strings to new
      ones, each with a NUL behind it. */
  method UnpackProcCreatReq(packet: array<Byte>, hostname: array<Byte>)
    returns (seqNbr: U16, oPid: I32, filename: array<Byte>, argv: array<Byte>)
    requires packet != hostname && CanUnpack(packet[..]) && |Unpacked(packet[..]).hostname| < hostname.Length
    modifies hostname
    ensures var m := Unpacked(packet[..]);
            && seqNbr == m.seqNbr && oPid == m.oPid
            && hostname[..] == Put(old(hostname[..]), 0, m.hostname + [0])
            && filename[..] == m.filename + [0] && argv[..] == m.argv + [0]
    ensures fresh(filename) && fresh(argv)
  {
    var packetData := IKC_PACKET_HDR_LEN;
    seqNbr := Read16(packet[..], packetData);
    packetData := packetData + 2;
    oPid := Read32(packet[..], packetData);
    packetData := packetData + 4;
    Memcpy(hostname, 0, FieldText(packet[..], packetData) + [0]);
    packetData := FieldEnd(packet[..], packetData);
    filename := TakeField(packet, packetData);
    packetData := FieldEnd(packet[..], packetData);
    argv := TakeField(packet, packetData);
  }

  /** A length read, room for one byte more, the string copied there, and a NUL. */
  method TakeField(packet: array<Byte>, at: nat) returns (s: array<Byte>)
    requires HasField(packet[..], at)
    ensures fresh(s) && s[..] == FieldText(packet[..], at) + [0]
  {
    var stringLen: nat := Read16(packet[..], at);
    s := new Byte[stringLen + 1](_ => 0);
    Memcpy(s, 0, packet[at + 2..at + 2 + stringLen]);
    s[stringLen] := 0;
    assert packet[at + 2..at + 2 + stringLen] == FieldText(packet[..], at);
  }

  // Packing and unpacking together.

  lemma FieldBetween(pre: seq<Byte>, s: seq<Byte>, post: seq<Byte>)
    requires |s| < 0x1_0000
    ensures var buf := pre + Field(s) + post;
            HasField(buf, |pre|) && FieldEnd(buf, |pre|) == |pre| + 2 + |s| && FieldText(buf, |pre|) == s
  {
    var buf := pre + Field(s) + post;
    assert buf[|pre|..|pre| + 2] == BytesOf16(|s|);
    Read16OfBytes(buf, |pre|, |s|);
    forall i | 0 <= i < |s| ensures buf[|pre| + 2 + i] == s[i] {
      assert buf[|pre| + (2 + i)] == Field(s)[2 + i];
    }
  }

  lemma HeadBefore(m: Request, post: seq<Byte>)
    ensures var buf := Head(m) + post; Read16(buf, 2) == m.seqNbr && Read32(buf, 4) == m.oPid
  {
    var buf := Head(m) + post;
    assert buf[2..4] == BytesOf16(m.seqNbr);
    Read16OfBytes(buf, 2, m.seqNbr);
    assert buf[4..8] == BytesOf32(m.oPid);
    Read32OfBytes(buf, 4, m.oPid);
  }

  /** Unpacking gives back the number, the pid and all three strings, whatever bytes follow the packet
      in the buffer it was received in. */
  lemma UnpackInvertsPack(m: Request, rest: seq<Byte>)
    requires Packable(m)
    ensures CanUnpack(Packed(m) + rest) && Unpacked(Packed(m) + rest) == m
  {
    var p := Packed(m) + rest;
    var h, f, a := Field(m.hostname), Field(m.filename), Field(m.argv);
    assert p == Head(m) + (h + f + a + rest);
    HeadBefore(m, h + f + a + rest);
    assert p == Head(m) + h + (f + a + rest);
    FieldBetween(Head(m), m.hostname, f + a + rest);
    assert p == (Head(m) + h) + f + (a + rest);
    FieldBetween(Head(m) + h, m.filename, a + rest);
    assert p == (Head(m) + h + f) + a + rest;
    FieldBetween(Head(m) + h + f, m.argv, rest);
  }

  /** The receiver's C strings are the sender's. */
  lemma StringsArrive(m: Request, hostname: seq<Byte>)
    requires Packable(m) && NulFree(m.hostname) && NulFree(m.filename) && NulFree(m.argv)
    requires |m.hostname| < |hostname|
    ensures StringAt(Put(hostname, 0, m.hostname + [0]), 0) == m.hostname
    ensures StringAt(m.filename + [0], 0) == m.filename && StringAt(m.argv + [0], 0) == m.argv
  {
    var h := Put(hostname, 0, m.hostname + [0]);
    assert h[0..0 + |m.hostname|] == m.hostname;
    assert h[|m.hostname|] == (m.hostname + [0])[|m.hostname|];
    StringAtIs(h, 0, m.hostname);
    assert (m.filename + [0])[0..0 + |m.filename|] == m.filename;
    StringAtIs(m.filename + [0], 0, m.filename);
    assert (m.argv + [0])[0..0 + |m.argv|] == m.argv;
    StringAtIs(m.argv + [0], 0, m.argv);
  }

  // The response is a header and two numbers.

  method PackProcCreatResp(seqNbr: U16, rPid: I32) returns (packet: array<Byte>, packetLen: int)
    ensures fresh(packet) && packetLen == packet.Length == 8
    ensures packet[..] == [IKC_VERSION, IKC_PROC_CREAT_RESP] + BytesOf16(seqNbr) + BytesOf32(rPid)
  {
    packetLen := IKC_PACKET_HDR_LEN + 2 + 4;
    packet := new Byte[packetLen](_ => 0);
    packet[0] := IKC_VERSION;
    packet[1] := IKC_PROC_CREAT_RESP;
    var packetData := IKC_PACKET_HDR_LEN;
    assert packet[..packetData] == [IKC_VERSION, IKC_PROC_CREAT_RESP];
    packetData := Append(packet, packetData, BytesOf16(seqNbr));
    packetData := Append(packet, packetData, BytesOf32(rPid));
    assert packet[..packetData] == packet[..];
  }

  method UnpackProcCreatResp(packet: array<Byte>) returns (seqNbr: U16, rPid: I32)
    requires packet.Length >= 8
    ensures forall s: U16, r: I32 {:trigger BytesOf16(s), BytesOf32(r)} ::
              packet[2..8] == BytesOf16(s) + BytesOf32(r) ==> seqNbr == s && rPid == r
  {
    var packetData := IKC_PACKET_HDR_LEN;
    seqNbr := Read16(packet[..], packetData);
    packetData := packetData + 2;
    rPid := Read32(packet[..], packetData);
    forall s: U16, r: I32 | packet[2..8] == BytesOf16(s) + BytesOf32(r)
      ensures seqNbr == s && rPid == r
    {
      assert packet[..][2..4] == packet[2..8][..2] == BytesOf16(s);
      assert packet[..][4..8] == packet[2..8][2..] == BytesOf32(r);
      Read16OfBytes(packet[..], 2, s);
      Read32OfBytes(packet[..], 4, r);
    }
  }

  // What the collector of the remote daemon makes of a packet.

  datatype Verdict = TooShort | WrongVersion | Creation(m: Request) | SyscallRequest | UnknownType

  /** The strings of a creation request are read without a look at how much was received. */
  predicate CanCollect(buf: seq<Byte>) {
    2 <= |buf| && buf[0] == IKC_VERSION && buf[1] == IKC_PROC_CREAT_REQ ==> CanUnpack(buf)
  }

  function Collected(buf: seq<Byte>): Verdict
    requires CanCollect(buf)
  {
    if |buf| < IKC_MIN_PACKET_SIZE then TooShort
    else if buf[0] != IKC_VERSION then WrongVersion
    else if buf[1] == IKC_PROC_CREAT_REQ then Creation(Unpacked(buf))
    else if buf[1] == IKC_SYSCALL_REQ then SyscallRequest
    else UnknownType
  }

  /** One turn of the collector's loop; only a creation request is queued. */
  method Collect(packet: array<Byte>) returns (v: Verdict)
    requires CanCollect(packet[..])
    ensures v == Collected(packet[..])
  {
    if packet.Length < IKC_MIN_PACKET_SIZE { return TooShort; }
    var ikcVersion, ikcType := packet[0], packet[1];
    if ikcVersion != IKC_VERSION {
      v := WrongVersion;
    } else if ikcType == IKC_PROC_CREAT_REQ {
      v := Creation(Unpacked(packet[..]));
    } else if ikcType == IKC_SYSCALL_REQ {
      v := SyscallRequest;
    } else {
      v := UnknownType;
    }
  }

  /** What is packed as a creation request is taken for one, and for this one. */
  lemma RequestIsCollected(m: Request, rest: seq<Byte>)
    requires Packable(m)
    ensures CanCollect(Packed(m) + rest) && Collected(Packed(m) + rest) == Creation(m)
  {
    UnpackInvertsPack(m, rest);
    PackedIs(m);
    var p := Packed(m) + rest;
    assert p[0] == Packed(m)[..2][0] && p[1] == Packed(m)[..2][1];
  }

  /** And nothing else is: version and type decide, in packets that have both. */
  lemma CreationIff(buf: seq<Byte>)
    requires CanCollect(buf)
    ensures Collected(buf).Creation? <==> 2 <= |buf| && buf[..2] == [1, 10]
    ensures Collected(buf) == TooShort <==> |buf| < 2
    ensures Collected(buf) == WrongVersion <==> 2 <= |buf| && buf[0] != 1
  {
    if 2 <= |buf| { assert buf[..2] == [buf[0], buf[1]]; }
  }

  /** A response that strays to the collector is not taken for a request. */
  lemma ResponseIsNotCollected(seqNbr: U16, rPid: I32, rest: seq<Byte>)
    ensures var p := [1, 30] + BytesOf16(seqNbr) + BytesOf32(rPid) + rest;
            CanCollect(p) && Collected(p) == UnknownType
  {
  }
}
