/**
 * The neighbour-discovery beacon of a node: its id, its address and its port, sent as three
 * NUL-terminated text fields (the port in decimal).
 */
module Beacon {
  import opened Wire
  import opened Decimal

  /** The raw constructor copies each field into a 1024-byte buffer with strcpy. */
  const BUFFER: nat := 1024

  datatype Beacon = Beacon(nodeId: seq<byte>, nodeAddress: seq<byte>, nodePort: uint16)

  /** getRaw: each string up to its first NUL, then NUL; the port in decimal, then NUL. */
  function GetRaw(b: Beacon): (r: seq<byte>)
    ensures |r| == |CString(b.nodeId)| + |CString(b.nodeAddress)| + |ToDecimal(b.nodePort)| + 3
  {
    CString(b.nodeId) + [0] + CString(b.nodeAddress) + [0] + ToDecimal(b.nodePort) + [0]
  }

  /**
   * What the raw constructor demands of its input, which it does not check: each field fits the
   * buffer with its NUL, and the first two fields end before the string's own terminator, so that
   * the next read starts inside the string.
   */
  predicate Readable(raw: seq<byte>)
  {
    var c := raw + [0];
    var id := CString(c);
    var size := |id| + 1;
    |id| < BUFFER && size <= |raw| &&
    var address := CString(c[size..]);
    var size2 := size + |address| + 1;
    |address| < BUFFER && size2 <= |raw| &&
    |CString(c[size2..])| < BUFFER
  }

  /**
   * The three C strings the raw constructor reads one after the other from the string's bytes and
   * its terminator, the read position advancing past each field and its NUL.
   */
  function Fields(raw: seq<byte>): (r: (seq<byte>, seq<byte>, seq<byte>))
    requires Readable(raw)
    ensures 0 !in r.0 && 0 !in r.1 && |r.0| < BUFFER && |r.1| < BUFFER
  {
    var c := raw + [0];
    var id := CString(c);
    var size := |id| + 1;
    var address := CString(c[size..]);
    var size2 := size + |address| + 1;
    (id, address, CString(c[size2..]))
  }

  /** The raw constructor: the id and the address as read, the port through atoi, cast to uint16. */
  function FromRaw(raw: seq<byte>): (r: Beacon)
    requires Readable(raw)
    ensures 0 !in r.nodeId && 0 !in r.nodeAddress
    ensures |r.nodeId| < BUFFER && |r.nodeAddress| < BUFFER
  {
    var (id, address, port) := Fields(raw);
    Beacon(id, address, U16(Atoi(port)))
  }

  // ----- Properties -----

  /** Three NUL-terminated fields that fit the buffer are read back as they were written. */
  lemma ReadFields(raw: seq<byte>, id: seq<byte>, address: seq<byte>, port: seq<byte>)
    requires 0 !in id && 0 !in address && 0 !in port
    requires |id| < BUFFER && |address| < BUFFER && |port| < BUFFER
    requires raw == id + [0] + address + [0] + port + [0]
    ensures Readable(raw) && FromRaw(raw) == Beacon(id, address, U16(Atoi(port)))
  {
    var c := raw + [0];
    var rest2 := port + [0] + [0];
    var rest1 := address + [0] + rest2;
    assert c == id + [0] + rest1;
    BeforeOfConcat(id, 0, rest1);
    var size := |id| + 1;
    assert c[size..] == rest1;
    BeforeOfConcat(address, 0, rest2);
    var size2 := size + |address| + 1;
    assert c[size2..] == rest2 by {
      assert c[size2..] == c[size..][|address| + 1..];
    }
    BeforeOfConcat(port, 0, [0]);
    assert CString(c) == id && CString(c[size..]) == address && CString(c[size2..]) == port;
    ReadableOf(raw, c, size, size2);
    FromRawFields(raw, c, size, size2);
  }

  /** The demands of the raw constructor, stated at the offsets its size accumulator reaches. */
  lemma ReadableOf(raw: seq<byte>, c: seq<byte>, size: nat, size2: nat)
    requires c == raw + [0] && size == |CString(c)| + 1 && size <= |raw|
    requires size2 == size + |CString(c[size..])| + 1 && size2 <= |raw|
    requires |CString(c)| < BUFFER && |CString(c[size..])| < BUFFER && |CString(c[size2..])| < BUFFER
    ensures Readable(raw)
  {
  }

  /** The fields the raw constructor reads, at the offsets its size accumulator reaches. */
  lemma FromRawFields(raw: seq<byte>, c: seq<byte>, size: nat, size2: nat)
    requires Readable(raw) && c == raw + [0]
    requires size == |CString(c)| + 1 && size2 == size + |CString(c[size..])| + 1
    ensures size2 <= |c|
    ensures Fields(raw).0 == CString(c)
    ensures Fields(raw).1 == CString(c[size..])
    ensures Fields(raw).2 == CString(c[size2..])
  {
  }

  /**
   * getRaw then the raw constructor gives back the id, the address and the port, when neither
   * string holds a NUL and each fits the buffer.
   */
  lemma RawRoundTrip(b: Beacon)
    requires 0 !in b.nodeId && 0 !in b.nodeAddress
    requires |b.nodeId| < BUFFER && |b.nodeAddress| < BUFFER
    ensures Readable(GetRaw(b)) && FromRaw(GetRaw(b)) == b
  {
    var port := ToDecimal(b.nodePort);
    DecimalLength(b.nodePort);
    DecimalSymbols(b.nodePort, 0);
    BeforeOfConcat(b.nodeId, 0, []);
    BeforeOfConcat(b.nodeAddress, 0, []);
    assert b.nodeId + [0] + [] == b.nodeId + [0] && b.nodeAddress + [0] + [] == b.nodeAddress + [0];
    ReadFields(GetRaw(b), b.nodeId, b.nodeAddress, port);
    AtoiOfDecimal(b.nodePort, []);
    assert port + [] == port;
  }

  /** A port text beyond the uint16 range is read through the cast: "70000" becomes 4464. */
  lemma PortCast(id: seq<byte>, address: seq<byte>)
    requires 0 !in id && 0 !in address && |id| < BUFFER && |address| < BUFFER
    ensures
      var raw := id + [0] + address + [0] + ToDecimal(70000) + [0];
      Readable(raw) && FromRaw(raw) == Beacon(id, address, 4464)
  {
    var port := ToDecimal(70000);
    DecimalLength(70000);
    DecimalSymbols(70000, 0);
    ReadFields(id + [0] + address + [0] + port + [0], id, address, port);
    AtoiOfDecimal(70000, []);
    assert port + [] == port;
  }
}
