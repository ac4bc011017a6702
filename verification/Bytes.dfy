/** Bytes, C strings, and numbers in the byte order of the i386. */
module Bytes {

  type Byte = b: int | 0 <= b < 256

  type U16 = n: int | 0 <= n < 0x1_0000

  type I32 = n: int | -0x8000_0000 <= n < 0x8000_0000

  /** What a C string can hold. */
  ghost predicate NulFree(s: seq<Byte>) {
    forall i :: 0 <= i < |s| ==> s[i] != 0
  }

  /** The C string that begins at an address, or what is left if no NUL follows. */
  function StringAt(buf: seq<Byte>, at: nat): seq<Byte>
    requires at <= |buf|
    decreases |buf| - at
  {
    if at == |buf| || buf[at] == 0 then [] else [buf[at]] + StringAt(buf, at + 1)
  }

  lemma {:induction false} StringAtIs(buf: seq<Byte>, at: nat, s: seq<Byte>)
    requires at + |s| < |buf| && buf[at..at + |s|] == s && buf[at + |s|] == 0 && NulFree(s)
    ensures StringAt(buf, at) == s
    decreases |s|
  {
    if s != [] {
      assert buf[at] == buf[at..at + |s|][0] == s[0];
      assert buf[at + 1..at + 1 + |s[1..]|] == buf[at..at + |s|][1..];
      StringAtIs(buf, at + 1, s[1..]);
    }
  }

  /** buf with other bytes from `at` on. */
  function Put(buf: seq<Byte>, at: nat, bytes: seq<Byte>): (r: seq<Byte>)
    requires at + |bytes| <= |buf|
    ensures |r| == |buf|
    ensures forall i :: 0 <= i < |buf| ==> r[i] == if at <= i < at + |bytes| then bytes[i - at] else buf[i]
  {
    seq(|buf|, i requires 0 <= i < |buf| => if at <= i < at + |bytes| then bytes[i - at] else buf[i])
  }

  /** memcpy into a buffer. */
  method Memcpy(dest: array<Byte>, at: nat, bytes: seq<Byte>)
    requires at + |bytes| <= dest.Length
    modifies dest
    ensures dest[..] == Put(old(dest[..]), at, bytes)
  {
    forall i | 0 <= i < |bytes| {
      dest[at + i] := bytes[i];
    }
  }

  function BytesOf16(n: U16): (b: seq<Byte>)
    ensures |b| == 2
  {
    [n % 256, n / 256]
  }

  function Read16(buf: seq<Byte>, at: nat): U16
    requires at + 2 <= |buf|
  {
    var low: int, high: int := buf[at], buf[at + 1];
    low + 256 * high
  }

  lemma Read16OfBytes(buf: seq<Byte>, at: nat, n: U16)
    requires at + 2 <= |buf| && buf[at..at + 2] == BytesOf16(n)
    ensures Read16(buf, at) == n
  {
    assert buf[at] == buf[at..at + 2][0] && buf[at + 1] == buf[at..at + 2][1];
  }

  /** A length and a string of that length. */
  predicate FieldAt(buf: seq<Byte>, at: nat, s: seq<Byte>) {
    && at + 2 + |s| <= |buf| && |s| < 0x1_0000
    && Read16(buf, at) == |s|
    && buf[at + 2..at + 2 + |s|] == s
  }

  lemma FieldOfBytes(buf: seq<Byte>, at: nat, s: seq<Byte>)
    requires at + 2 + |s| <= |buf| && |s| < 0x1_0000
    requires forall i :: 0 <= i < 2 + |s| ==> buf[at + i] == (BytesOf16(|s|) + s)[i]
    ensures FieldAt(buf, at, s)
  {
    var field := BytesOf16(|s|) + s;
    assert buf[at + 0] == field[0] == BytesOf16(|s|)[0] && buf[at + 1] == field[1] == BytesOf16(|s|)[1];
    assert buf[at..at + 2] == BytesOf16(|s|);
    Read16OfBytes(buf, at, |s|);
    forall i | 0 <= i < |s| ensures buf[at + 2 + i] == s[i] {
      assert buf[at + (2 + i)] == (BytesOf16(|s|) + s)[2 + i];
    }
  }

  lemma FieldStays(buf: seq<Byte>, buf': seq<Byte>, at: nat, s: seq<Byte>)
    requires FieldAt(buf, at, s) && |buf'| == |buf|
    requires forall i :: at <= i < at + 2 + |s| ==> buf'[i] == buf[i]
    ensures FieldAt(buf', at, s)
  {
    assert buf'[at + 2..at + 2 + |s|] == buf[at + 2..at + 2 + |s|];
  }

  /** A field's text reads as a C string once a NUL stands behind it. */
  lemma StringInField(buf: seq<Byte>, buf': seq<Byte>, at: nat, s: seq<Byte>)
    requires FieldAt(buf, at, s) && NulFree(s) && |buf'| == |buf| && at + 2 + |s| < |buf|
    requires (forall i :: at + 2 <= i < at + 2 + |s| ==> buf'[i] == buf[i]) && buf'[at + 2 + |s|] == 0
    ensures StringAt(buf', at + 2) == s
  {
    assert buf'[at + 2..at + 2 + |s|] == buf[at + 2..at + 2 + |s|];
    StringAtIs(buf', at + 2, s);
  }

  /** A negative number is stored as its two's complement. */
  function BytesOf32(n: I32): (b: seq<Byte>)
    ensures |b| == 4
  {
    var u := if n < 0 then n + 0x1_0000_0000 else n;
    BytesOf16(u % 0x1_0000) + BytesOf16(u / 0x1_0000)
  }

  function Read32(buf: seq<Byte>, at: nat): I32
    requires at + 4 <= |buf|
  {
    var low: int, high: int := Read16(buf, at), Read16(buf, at + 2);
    var u := low + 0x1_0000 * high;
    if u < 0x8000_0000 then u else u - 0x1_0000_0000
  }

  lemma Read32OfBytes(buf: seq<Byte>, at: nat, n: I32)
    requires at + 4 <= |buf| && buf[at..at + 4] == BytesOf32(n)
    ensures Read32(buf, at) == n
  {
    var u := if n < 0 then n + 0x1_0000_0000 else n;
    assert buf[at..at + 2] == buf[at..at + 4][..2] == BytesOf16(u % 0x1_0000);
    assert buf[at + 2..at + 4] == buf[at..at + 4][2..] == BytesOf16(u / 0x1_0000);
    Read16OfBytes(buf, at, u % 0x1_0000);
    Read16OfBytes(buf, at + 2, u / 0x1_0000);
  }

  /** The low byte comes first. */
  lemma LowByteFirst()
    ensures BytesOf16(0x1234) == [0x34, 0x12]
    ensures BytesOf32(0x1234_5678) == [0x78, 0x56, 0x34, 0x12] && BytesOf32(-2) == [0xfe, 0xff, 0xff, 0xff]
  {
  }
}
