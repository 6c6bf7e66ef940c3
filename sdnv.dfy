/**
 * Self-Delimiting Numeric Values (section 4.1 of RFC 5050): a value is cut into 7-bit groups,
 * most significant first, and every byte but the last carries the high bit.
 *
 * The functions are the specification; the methods follow the loops of the node's SDNV
 * routines (encode fills a 10-byte buffer backwards, decode and the length scan read a
 * stream one byte at a time) and are proved equal to them.
 */
module Sdnv {
  import opened Wire
  import Bits

  // ----- Specification -----

  /** Number of 7-bit groups of v (at least one, for zero). */
  function Length(v: nat): (r: nat)
    ensures r >= 1
    ensures v < 128 <==> r == 1
  {
    if v < 128 then 1 else 1 + Length(v / 128)
  }

  /** The groups of w, each with the continuation bit set (nothing for zero). */
  function Marked(w: nat): (r: seq<byte>)
    ensures |r| == if w == 0 then 0 else Length(w)
  {
    if w == 0 then [] else Marked(w / 128) + [128 + w % 128]
  }

  /** The SDNV of v: the groups above the lowest, marked, then the lowest group with the bit clear. */
  function Encode(v: nat): (r: seq<byte>)
    ensures |r| == Length(v)
    ensures r[|r| - 1] < 128
  {
    Marked(v / 128) + [v % 128]
  }

  /** Index of the first byte with the high bit clear: the last byte of the SDNV starting at s[0]. */
  function Terminator(s: seq<byte>): (r: Option<nat>)
    ensures r.Some? ==> r.value < |s| && s[r.value] < 128
  {
    if s == [] then None
    else if s[0] < 128 then Some(0)
    else match Terminator(s[1..])
      case None => None
      case Some(k) => Some(k + 1)
  }

  /** The low 7 bits of each byte, read as base-128 digits, most significant first. */
  function Groups(bs: seq<byte>): nat
  {
    if bs == [] then 0 else Groups(bs[..|bs| - 1]) * 128 + bs[|bs| - 1] % 128
  }

  /**
   * Length the node's scan reports for the SDNV at the front of s. On empty input the scan counts
   * one byte; when no byte ends the SDNV the node's loop never stops, which is None here.
   */
  function ScanLength(s: seq<byte>): (r: Option<nat>)
    ensures r.Some? ==> r.value >= 1
    ensures s != [] && r.Some? ==> r.value <= |s| && s[r.value - 1] < 128
  {
    if s == [] then Some(1)
    else match Terminator(s)
      case None => None
      case Some(k) => Some(k + 1)
  }

  /**
   * Value the node decodes from the front of s: 0 on empty input, the groups up to the terminating
   * byte wrapped to 64 bits, and None when no byte ends the SDNV (the node's loop never stops).
   */
  function Decode(s: seq<byte>): (r: Option<uint64>)
    ensures r.None? <==> ScanLength(s).None?
    ensures s == [] ==> r == Some(0)
  {
    if s == [] then Some(0)
    else match Terminator(s)
      case None => None
      case Some(k) => Some(Groups(s[..k + 1]) % 0x1_0000_0000_0000_0000)
  }

  datatype ReadError =
    | Exhausted    // substr past the end of the data: std::out_of_range
    | Unterminated // no byte ends the SDNV: the node's decode loop never returns

  /**
   * The step every block parser repeats: decode the SDNV at the front and drop its length with
   * substr. On empty data the scan counts one byte and substr(1) throws. ReadSplit shows this is
   * the scan and the decode followed by the cut.
   */
  function Read(data: seq<byte>): (r: Result<(uint64, seq<byte>), ReadError>)
    ensures r.Ok? ==> |r.value.1| < |data|
    ensures r == Err(Exhausted) <==> data == []
  {
    if data == [] then Err(Exhausted) else ReadFrom(0, data)
  }

  /** Byte by byte: shift each group into the value until a byte has the high bit clear. */
  function ReadFrom(acc: uint64, s: seq<byte>): (r: Result<(uint64, seq<byte>), ReadError>)
    ensures r.Ok? ==> |r.value.1| < |s|
    ensures r != Err(Exhausted)
    decreases |s|
  {
    if s == [] then Err(Unterminated)
    else if s[0] < 128 then Ok((Shift(acc, s[0]), s[1..]))
    else ReadFrom(Shift(acc, s[0]), s[1..])
  }

  // ----- The node's loops -----

  /** SDNV::getLength(uint64_t): shift by 7 until nothing is left. */
  method LengthOfValue(value: uint64) returns (len: nat)
    ensures len == Length(value)
  {
    len := 0;
    var aux: nat := value;
    while true
      invariant len + Length(aux) == Length(value)
      decreases aux
    {
      aux := aux / 128;
      len := len + 1;
      if aux == 0 {
        break;
      }
    }
  }

  /**
   * SDNV::encode: the buffer is filled from position getLength(value) backwards. The first pass of
   * the do-while writes the lowest group with the high bit clear; every later pass sets it.
   */
  method EncodeValue(value: uint64) returns (r: seq<byte>)
    ensures r == Encode(value)
  {
    var len := LengthOfValue(value);
    LengthAtMostTen(value);
    var buffer := new byte[10];
    var pos := len - 1;
    var highBit := 0;
    var aux: nat := value;
    buffer[pos] := highBit + aux % 128;
    highBit := 128;
    aux := aux / 128;
    assert buffer[pos..len] == [value % 128];
    while aux != 0
      invariant 0 <= pos < len <= 10
      invariant highBit == 128
      invariant |Marked(aux)| == pos
      invariant Marked(aux) + buffer[pos..len] == Encode(value)
      decreases aux
    {
      ghost var before := buffer[pos..len];
      pos := pos - 1;
      buffer[pos] := highBit + aux % 128;
      assert buffer[pos..len] == [highBit + aux % 128] + before;
      Assoc(Marked(aux / 128), [highBit + aux % 128], before);
      aux := aux / 128;
    }
    r := buffer[..len];
    assert buffer[pos..len] == buffer[..len];
  }

  /**
   * SDNV::getLength(std::string): count bytes read until one has the high bit clear. At the end of
   * the stream the byte read last is kept; if it has the high bit set the node loops forever (None).
   */
  method LengthOfEncoded(s: seq<byte>) returns (r: Option<nat>)
    ensures r == ScanLength(s)
  {
    var len := 0;
    var i := 0;
    var current: byte := 0;
    while true
      invariant 0 <= i <= |s| && len == i
      invariant i == 0 ==> current == 0
      invariant i > 0 ==> current == s[i - 1] && current >= 128
      invariant forall j | 0 <= j < i :: s[j] >= 128
      decreases |s| - i
    {
      len := len + 1;
      if i < |s| {
        current := s[i];
        i := i + 1;
      } else if current >= 128 {
        TerminatorNone(s);
        return None;
      }
      if current < 128 {
        break;
      }
    }
    r := Some(len);
    if s != [] {
      TerminatorAt(s, i - 1);
    }
  }

  /** SDNV::decode: value = (value << 7) | (byte & 0x7f) on 64 bits until a byte with the high bit clear. */
  method DecodeValue(s: seq<byte>) returns (r: Option<uint64>)
    ensures r == Decode(s)
  {
    var value: uint64 := 0;
    var i := 0;
    var current: byte := 0;
    while true
      invariant 0 <= i <= |s|
      invariant i == 0 ==> current == 0
      invariant i > 0 ==> current == s[i - 1] && current >= 128
      invariant forall j | 0 <= j < i :: s[j] >= 128
      invariant value == Groups(s[..i]) % 0x1_0000_0000_0000_0000
      decreases |s| - i
    {
      if i < |s| {
        ShiftGroups(s[..i], s[i]);
        assert s[..i + 1] == s[..i] + [s[i]];
        current := s[i];
        i := i + 1;
      } else if current >= 128 {
        TerminatorNone(s);
        return None;
      }
      value := Shift(value, current);
      if current < 128 {
        break;
      }
    }
    r := Some(value);
    if s != [] {
      TerminatorAt(s, i - 1);
    }
  }

  /** One field of a block parser: getLength, decode, then substr(getLength). */
  method ReadValue(data: seq<byte>) returns (r: Result<(uint64, seq<byte>), ReadError>)
    ensures r == Read(data)
  {
    ReadSplit(data);
    var len := LengthOfEncoded(data);
    if len.None? {
      return Err(Unterminated);
    }
    var value := DecodeValue(data);
    if len.value > |data| {
      return Err(Exhausted);
    }
    return Ok((value.value, data[len.value..]));
  }

  // ----- Properties -----

  /** The scan stops at the first byte with the high bit clear. */
  lemma {:induction false} TerminatorAt(s: seq<byte>, k: nat)
    requires k < |s| && s[k] < 128
    requires forall j | 0 <= j < k :: s[j] >= 128
    ensures Terminator(s) == Some(k)
    decreases k
  {
    if k > 0 {
      TerminatorAt(s[1..], k - 1);
    }
  }

  /** Every byte before the one the scan stops at has the high bit set. */
  lemma {:induction false} TerminatorBefore(s: seq<byte>)
    ensures Terminator(s).Some? ==> forall j | 0 <= j < Terminator(s).value :: s[j] >= 128
    decreases |s|
  {
    if s != [] && s[0] >= 128 {
      TerminatorBefore(s[1..]);
      assert forall j | 1 <= j < |s| :: s[j] == s[1..][j - 1];
    }
  }

  /** The scan finds no end exactly when every byte has the high bit set. */
  lemma {:induction false} TerminatorNone(s: seq<byte>)
    ensures Terminator(s).None? <==> forall j | 0 <= j < |s| :: s[j] >= 128
    decreases |s|
  {
    if s != [] && s[0] >= 128 {
      TerminatorNone(s[1..]);
      assert forall j | 1 <= j < |s| :: s[j] == s[1..][j - 1];
    }
  }

  /** (value << 7) | (b & 0x7f) on 64 bits: the shifted value has its low 7 bits clear, so | adds the group. */
  function Shift(value: uint64, b: byte): uint64
  {
    (value * 128 + b % 128) % 0x1_0000_0000_0000_0000
  }

  lemma ShiftGroups(prefix: seq<byte>, b: byte)
    ensures Shift(Groups(prefix) % 0x1_0000_0000_0000_0000, b) == Groups(prefix + [b]) % 0x1_0000_0000_0000_0000
  {
    assert (prefix + [b])[..|prefix|] == prefix;
    ShiftInto(Groups(prefix), b);
  }

  lemma ShiftInto(a: nat, b: byte)
    ensures ((a % 0x1_0000_0000_0000_0000) * 128 + b % 128) % 0x1_0000_0000_0000_0000 == (a * 128 + b % 128) % 0x1_0000_0000_0000_0000
  {
    ShiftMod(a, b % 128, 0x1_0000_0000_0000_0000);
  }

  /** Shifting a group in commutes with reduction modulo any m. */
  lemma ShiftMod(a: nat, c: nat, m: nat)
    requires m > 0
    ensures ((a % m) * 128 + c) % m == (a * 128 + c) % m
  {
    var q, r := a / m, a % m;
    assert a == q * m + r;
    var n := r * 128 + c;
    var k, t := n / m, n % m;
    assert n == k * m + t;
    assert a * 128 + c == (q * 128 + k) * m + t;
    Bits.ModUnique(a * 128 + c, m, q * 128 + k, t);
  }

  /** Every byte the encoder marks carries the high bit. */
  lemma {:induction false} MarkedHigh(w: nat)
    ensures forall i | 0 <= i < |Marked(w)| :: Marked(w)[i] >= 128
    decreases w
  {
    if w != 0 {
      MarkedHigh(w / 128);
    }
  }

  lemma GroupsSnoc(p: seq<byte>, b: byte)
    ensures Groups(p + [b]) == Groups(p) * 128 + b % 128
  {
    assert (p + [b])[..|p|] == p;
  }

  lemma {:induction false} GroupsOfMarked(w: nat)
    ensures Groups(Marked(w)) == w
    decreases w
  {
    if w != 0 {
      var q, g := w / 128, w % 128;
      GroupsOfMarked(q);
      GroupsSnoc(Marked(q), 128 + g);
      MarkedGroup(g);
      assert w == q * 128 + g;
    }
  }

  /** The mask 0x7f drops the continuation bit again. */
  lemma MarkedGroup(g: nat)
    requires g < 128
    ensures (128 + g) % 128 == g
  {
  }

  lemma GroupsOfEncode(v: nat)
    ensures Groups(Encode(v)) == v
  {
    var q, g := v / 128, v % 128;
    GroupsOfMarked(q);
    GroupsSnoc(Marked(q), g);
    assert v == q * 128 + g;
  }

  /** What the encoder writes the reader reads back, and cuts off exactly, whatever follows it. */
  lemma DecodeEncode(v: uint64, rest: seq<byte>)
    ensures Read(Encode(v) + rest) == Ok((v, rest))
  {
    var e := Encode(v);
    var s := e + rest;
    ScanEncode(v, rest);
    ReadSplit(s);
    assert s[|e|..] == rest;
  }

  /** The reader is the scan for the length, the decode of the value and the cut after the length. */
  lemma ReadSplit(data: seq<byte>)
    ensures Read(data) == match ScanLength(data)
      case None => Err(Unterminated)
      case Some(n) => if n > |data| then Err(Exhausted) else Ok((Decode(data).value, data[n..]))
  {
    if data != [] {
      TerminatorNone(data);
      TerminatorBefore(data);
      if Terminator(data).Some? {
        var k := Terminator(data).value;
        ReadFromGroups([], data, k);
        assert [] + data[..k + 1] == data[..k + 1];
      } else {
        ReadFromNone(0, data);
      }
    }
  }

  /** Reading on from the groups of p, up to the terminator at k, decodes the groups of p and s[..k + 1]. */
  lemma {:induction false} ReadFromGroups(p: seq<byte>, s: seq<byte>, k: nat)
    requires k < |s| && s[k] < 128
    requires forall j | 0 <= j < k :: s[j] >= 128
    ensures ReadFrom(Groups(p) % 0x1_0000_0000_0000_0000, s)
      == Ok((Groups(p + s[..k + 1]) % 0x1_0000_0000_0000_0000, s[k + 1..]))
    decreases k
  {
    ShiftGroups(p, s[0]);
    if k == 0 {
      assert s[..1] == [s[0]];
    } else {
      ReadFromGroups(p + [s[0]], s[1..], k - 1);
      assert (p + [s[0]]) + s[1..][..k] == p + s[..k + 1];
      assert s[1..][k..] == s[k + 1..];
    }
  }

  /** With no byte ending the SDNV the reader never returns. */
  lemma {:induction false} ReadFromNone(acc: uint64, s: seq<byte>)
    requires forall j | 0 <= j < |s| :: s[j] >= 128
    ensures ReadFrom(acc, s) == Err(Unterminated)
    decreases |s|
  {
    if s != [] {
      ReadFromNone(Shift(acc, s[0]), s[1..]);
    }
  }

  /** The scan stops at the last byte the encoder wrote, and the decoder finds the value there. */
  lemma ScanEncode(v: uint64, rest: seq<byte>)
    ensures Terminator(Encode(v) + rest) == Some(Length(v) - 1)
    ensures ScanLength(Encode(v) + rest) == Some(Length(v))
    ensures Decode(Encode(v) + rest) == Some(v)
  {
    TerminatorOfEncode(v, rest);
    DecodeOfEncode(v, rest, Encode(v) + rest);
  }

  /** The last byte of an SDNV is the first one with the high bit clear. */
  lemma TerminatorOfEncode(v: nat, rest: seq<byte>)
    ensures Terminator(Encode(v) + rest) == Some(Length(v) - 1)
  {
    MarkedHigh(v / 128);
    TerminatorAt(Encode(v) + rest, |Encode(v)| - 1);
  }

  lemma DecodeOfEncode(v: uint64, rest: seq<byte>, s: seq<byte>)
    requires s == Encode(v) + rest
    ensures Decode(s) == Some(v)
  {
    var e := Encode(v);
    TerminatorOfEncode(v, rest);
    assert s[..|e|] == e;
    GroupsOfEncode(v);
  }

  /** Two values with the same SDNV are the same value. */
  lemma EncodeInjective(a: uint64, b: uint64)
    requires Encode(a) == Encode(b)
    ensures a == b
  {
    DecodeEncode(a, []);
    DecodeEncode(b, []);
  }

  function Pow128(k: nat): (r: nat)
    ensures r >= 1
  {
    if k == 0 then 1 else 128 * Pow128(k - 1)
  }

  /** A value below 128^k takes at most k groups. */
  lemma {:induction false} LengthBelowPower(v: nat, k: nat)
    requires 1 <= k && v < Pow128(k)
    ensures Length(v) <= k
    decreases k
  {
    if v >= 128 {
      assert k >= 2;
      assert v / 128 < Pow128(k - 1);
      LengthBelowPower(v / 128, k - 1);
    }
  }

  /** A 64-bit value fits the node's 10-byte buffer. */
  lemma LengthAtMostTen(v: uint64)
    ensures Length(v) <= 10
  {
    assert Pow128(10) == 0x40_0000_0000_0000_0000 by {
      assert Pow128(1) == 0x80;
      assert Pow128(2) == 0x4000;
      assert Pow128(3) == 0x20_0000;
      assert Pow128(4) == 0x1000_0000;
      assert Pow128(5) == 0x8_0000_0000;
      assert Pow128(6) == 0x400_0000_0000;
      assert Pow128(7) == 0x2_0000_0000_0000;
      assert Pow128(8) == 0x100_0000_0000_0000;
      assert Pow128(9) == 0x8000_0000_0000_0000;
    }
    LengthBelowPower(v, 10);
  }

  /** The lengths the node's length test expects for a few values. */
  lemma LengthExamples()
    ensures Length(127) == 1 && Length(15789) == 2 && Length(45123) == 3
    ensures Length(9123456) == 4 && Length(4294967295) == 5
  {
  }

  /** The SDNVs of vs, one after the other. */
  function Concat(vs: seq<uint64>): (r: seq<byte>)
    ensures vs == [] ==> r == []
  {
    if vs == [] then [] else Encode(vs[0]) + Concat(vs[1..])
  }

  /** n values read one after the other with decode and substr(getLength), and what is left. */
  function ReadMany(data: seq<byte>, n: nat): (r: Result<(seq<uint64>, seq<byte>), ReadError>)
    ensures r.Ok? ==> |r.value.0| == n
    decreases n
  {
    if n == 0 then Ok(([], data))
    else match Read(data)
      case Err(e) => Err(e)
      case Ok((v, rest)) =>
        match ReadMany(rest, n - 1)
          case Err(e) => Err(e)
          case Ok((vs, tail)) => Ok(([v] + vs, tail))
  }

  /** Consecutive SDNVs are cut apart by the scan, one length at a time, leaving what follows them. */
  lemma {:induction false} ReadManyConcat(vs: seq<uint64>, tail: seq<byte>)
    ensures ReadMany(Concat(vs) + tail, |vs|) == Ok((vs, tail))
    decreases |vs|
  {
    if vs != [] {
      var rest := Concat(vs[1..]) + tail;
      Assoc(Encode(vs[0]), Concat(vs[1..]), tail);
      DecodeEncode(vs[0], rest);
      ReadManyConcat(vs[1..], tail);
      ReadManyStep(Concat(vs) + tail, |vs|, vs[0], rest, vs[1..], tail);
      assert [vs[0]] + vs[1..] == vs;
    } else {
      assert Concat(vs) + tail == tail;
    }
  }

  /** One value read, then the others from what is left. */
  lemma ReadManyStep(data: seq<byte>, n: nat, v: uint64, rest: seq<byte>, vs: seq<uint64>, tail: seq<byte>)
    requires n > 0 && Read(data) == Ok((v, rest)) && ReadMany(rest, n - 1) == Ok((vs, tail))
    ensures ReadMany(data, n) == Ok(([v] + vs, tail))
  {
  }

  lemma ConcatAppend(a: seq<uint64>, b: seq<uint64>)
    ensures Concat(a + b) == Concat(a) + Concat(b)
  {
    if a != [] {
      assert (a + b)[1..] == a[1..] + b;
      ConcatAppend(a[1..], b);
    } else {
      assert a + b == b;
    }
  }
}
