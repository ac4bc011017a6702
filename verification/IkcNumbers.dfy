/** Request numbers of the daemons: how host, thread and sequence number are packed, and when two of
    them collide. */
module IkcNumbers {

  /** `addr` is the client's address in host byte order; its upper half is shifted out. */
  function PackRequestNumber(addr: bv32, requestId: bv16): bv32 {
    (addr << 16) | (requestId as bv32)
  }

  function PackRequestId(threadId: bv8, seqNumber: bv16): bv16 {
    ((threadId as bv16) << 10) | (0x03ff & seqNumber)
  }

  function UnpackReqId(number: bv32): bv16 {
    (0x0000ffff & number) as bv16
  }

  function UnpackHostId(number: bv32): bv16 {
    (number >> 16) as bv16
  }

  function UnpackThreadId(number: bv32): bv8 {
    ((number >> 10) & 0x0000003f) as bv8
  }

  function UnpackSeqNumber(number: bv32): bv16 {
    (number & 0x000003ff) as bv16
  }

  function Number(addr: bv32, threadId: bv8, seqNumber: bv16): bv32 {
    PackRequestNumber(addr, PackRequestId(threadId, seqNumber))
  }

  lemma HostIsKept(addr: bv32, threadId: bv8, seqNumber: bv16)
    ensures UnpackHostId(Number(addr, threadId, seqNumber)) == (addr & 0xffff) as bv16
  {
  }

  lemma ThreadIsKept(addr: bv32, threadId: bv8, seqNumber: bv16)
    requires threadId < 64
    ensures UnpackThreadId(Number(addr, threadId, seqNumber)) == threadId
  {
  }

  lemma SeqIsKept(addr: bv32, threadId: bv8, seqNumber: bv16)
    ensures UnpackSeqNumber(Number(addr, threadId, seqNumber)) == seqNumber & 0x3ff
  {
  }

  /** Unpacking gives back what a number has room for. */
  lemma UnpackInvertsPack(addr: bv32, threadId: bv8, seqNumber: bv16)
    ensures UnpackHostId(Number(addr, threadId, seqNumber)) == (addr & 0xffff) as bv16
    ensures threadId < 64 ==> UnpackThreadId(Number(addr, threadId, seqNumber)) == threadId
    ensures UnpackSeqNumber(Number(addr, threadId, seqNumber)) == seqNumber & 0x3ff
  {
    HostIsKept(addr, threadId, seqNumber);
    if threadId < 64 { ThreadIsKept(addr, threadId, seqNumber); }
    SeqIsKept(addr, threadId, seqNumber);
  }

  /** The host above bit 16, the thread above bit 10, the sequence number below. */
  lemma NumberIs(addr: bv32, threadId: bv8, seqNumber: bv16)
    requires threadId < 64
    ensures Number(addr, threadId, seqNumber) ==
            (addr & 0xffff) * 0x1_0000 + (threadId as bv32) * 0x400 + ((seqNumber as bv32) & 0x3ff)
  {
  }

  /** The id that a request travels with comes back out of the number. */
  lemma IdComesBack(addr: bv32, requestId: bv16)
    ensures UnpackReqId(PackRequestNumber(addr, requestId)) == requestId
  {
  }

  /** The other way round: every number is the packing of what it unpacks to. */
  lemma PackInvertsUnpack(n: bv32)
    ensures Number(UnpackHostId(n) as bv32, UnpackThreadId(n), UnpackSeqNumber(n)) == n
    ensures UnpackThreadId(n) < 64
  {
  }

  /** Two numbers are equal exactly when host, thread and sequence number unpack alike. */
  lemma SameNumberIff(n: bv32, n': bv32)
    ensures n == n' <==>
              && UnpackHostId(n) == UnpackHostId(n')
              && UnpackThreadId(n) == UnpackThreadId(n')
              && UnpackSeqNumber(n) == UnpackSeqNumber(n')
  {
  }

  lemma OnlyLowBitsCount(addr: bv32, thread: bv8, s: bv16)
    ensures Number(addr, thread, s) == Number(addr & 0xffff, thread, s & 0x3ff)
  {
  }

  /** One step of the out worker's counter. */
  function NextSeq(seqNbr: bv16): bv16 {
    if seqNbr == 1024 then 0 else seqNbr + 1
  }

  /** The sequence number a worker gives to its i-th request, from 0; it starts at (unsigned short)-1. */
  function SeqOf(i: nat): bv16 {
    if i == 0 then NextSeq(0xffff) else NextSeq(SeqOf(i - 1))
  }

  /** The counter runs through 0..1024, one value more than the ten bits of an id can tell apart. */
  lemma {:induction false} SeqOfIs(i: nat)
    ensures SeqOf(i) as int == i % 1025
    ensures SeqOf(i) <= 1024
  {
    if i > 0 {
      SeqOfIs(i - 1);
      NextSeqAsInt(SeqOf(i - 1));
      NextPlace(i);
    }
  }

  lemma NextPlace(i: nat)
    requires i > 0
    ensures i % 1025 == if (i - 1) % 1025 == 1024 then 0 else (i - 1) % 1025 + 1
  {
  }

  lemma NextSeqAsInt(b: bv16)
    requires b <= 1024
    ensures NextSeq(b) as int == if b as int == 1024 then 0 else b as int + 1
    ensures NextSeq(b) <= 1024
  {
  }

  lemma SameAsInt(b: bv16, c: bv16)
    ensures b as int == c as int <==> b == c
  {
    assert (b as int) as bv16 == b;
    assert (c as int) as bv16 == c;
  }

  lemma LowTenBits(b: bv16)
    requires b <= 1024
    ensures (b & 0x3ff) as int == if b as int == 1024 then 0 else b as int
  {
    if b == 1024 {
      assert b & 0x3ff == 0;
    } else {
      assert b & 0x3ff == b;
    }
  }

  /** The sequence number as an id carries it. */
  function IdSeq(i: nat): int {
    (SeqOf(i) & 0x3ff) as int
  }

  lemma IdSeqIs(i: nat)
    ensures IdSeq(i) == if i % 1025 == 1024 then 0 else i % 1025
  {
    SeqOfIs(i);
    LowTenBits(SeqOf(i));
  }

  ghost predicate Collide(i: nat, j: nat) {
    i % 1025 == j % 1025 || (i % 1025 == 0 && j % 1025 == 1024) || (i % 1025 == 1024 && j % 1025 == 0)
  }

  /** The i-th and the j-th request of one thread get the same id exactly when their places in the
      cycle of 1025 agree, or are its two ends. */
  lemma SameIdIff(i: nat, j: nat)
    ensures SeqOf(i) & 0x3ff == SeqOf(j) & 0x3ff <==> Collide(i, j)
  {
    SameAsInt(SeqOf(i) & 0x3ff, SeqOf(j) & 0x3ff);
    IdSeqsCollideIff(i, j);
  }

  lemma IdSeqsCollideIff(i: nat, j: nat)
    ensures IdSeq(i) == IdSeq(j) <==> Collide(i, j)
  {
    IdSeqIs(i);
    IdSeqIs(j);
  }

  /** Below 1024 the requests of a thread are told apart; each later one repeats an earlier number. */
  lemma RepeatsIff(i: nat)
    ensures (exists j :: 0 <= j < i && Collide(j, i)) <==> i >= 1024
  {
    if i >= 1024 {
      var j := if i % 1025 == 1024 then i - 1024 else i - 1025;
      assert Collide(j, i);
    }
  }
}
