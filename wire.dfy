/** Bytes, fixed-width integer casts and the small wrappers shared by every codec of the node. */
module Wire {

  /** One octet of a std::string / Python 2 str / wire buffer. */
  type byte = b: int | 0 <= b < 256

  const TWO_8: int := 0x100
  const TWO_16: int := 0x1_0000
  const TWO_32: int := 0x1_0000_0000
  const TWO_64: int := 0x1_0000_0000_0000_0000

  type uint8 = x: int | 0 <= x < TWO_8
  type uint16 = x: int | 0 <= x < TWO_16
  type uint64 = x: int | 0 <= x < TWO_64
  type int16 = x: int | -0x8000 <= x < 0x8000
  type int32 = x: int | -0x8000_0000 <= x < 0x8000_0000
  type int64 = x: int | -0x8000_0000_0000_0000 <= x < 0x8000_0000_0000_0000

  datatype Option<T> = None | Some(value: T)

  datatype Result<T, E> = Ok(value: T) | Err(error: E)
  {
    predicate IsOk() { Ok? }
  }

  /** Conversion of any integer to an unsigned C++ type: reduction modulo 2^width. */
  function U8(x: int): (r: uint8)
    ensures 0 <= x < TWO_8 ==> r == x
  {
    if 0 <= x < TWO_8 then x else x % 0x100
  }

  function U16(x: int): (r: uint16)
    ensures 0 <= x < TWO_16 ==> r == x
  {
    if 0 <= x < TWO_16 then x else x % 0x1_0000
  }

  function U64(x: int): (r: uint64)
    ensures 0 <= x < TWO_64 ==> r == x
  {
    if 0 <= x < TWO_64 then x else x % 0x1_0000_0000_0000_0000
  }

  /** Conversion to a two's complement signed type: the value congruent to x modulo 2^width in the type's range. */
  function I32(x: int): (r: int32)
    ensures -0x8000_0000 <= x < 0x8000_0000 ==> r == x
  {
    if -0x8000_0000 <= x < 0x8000_0000 then x
    else
      var m := x % 0x1_0000_0000;
      if m < 0x8000_0000 then m else m - TWO_32
  }

  function I64(x: int): (r: int64)
    ensures -0x8000_0000_0000_0000 <= x < 0x8000_0000_0000_0000 ==> r == x
  {
    if -0x8000_0000_0000_0000 <= x < 0x8000_0000_0000_0000 then x
    else
      var m := x % 0x1_0000_0000_0000_0000;
      if m < 0x8000_0000_0000_0000 then m else m - TWO_64
  }

  /** A signed value stored through uint64 and read back as int64 is unchanged. */
  lemma I64OfU64(v: int64)
    ensures I64(U64(v)) == v
  {
    if v < 0 {
      assert U64(v) == v + TWO_64;
    }
  }

  /** A string literal of the sources (all of them ASCII) as bytes. */
  function Ascii(s: string): (r: seq<byte>)
    requires forall i | 0 <= i < |s| :: s[i] as int < 256
    ensures |r| == |s|
    ensures forall i | 0 <= i < |s| :: r[i] == s[i] as int
  {
    if s == [] then [] else [s[0] as int] + Ascii(s[1..])
  }

  /** Index of the first occurrence of x in s, if any (std::string::find, String.indexOf). */
  function IndexOf(s: seq<byte>, x: byte): (r: Option<nat>)
    ensures r.None? <==> x !in s
    ensures r.Some? ==> r.value < |s| && s[r.value] == x && x !in s[..r.value]
  {
    if s == [] then None
    else if s[0] == x then Some(0)
    else match IndexOf(s[1..], x)
      case None => None
      case Some(i) => assert s[1..][..i] == s[1..i + 1]; Some(i + 1)
  }

  /** The bytes before the first x, or all of s (what a C routine reading up to a terminator sees). */
  function Before(s: seq<byte>, x: byte): (r: seq<byte>)
    ensures x !in r
    ensures r <= s
    ensures |r| < |s| ==> s[|r|] == x
  {
    match IndexOf(s, x)
      case None => s
      case Some(i) => s[..i]
  }

  /** A C string read from a buffer: the bytes before the first NUL. */
  function CString(s: seq<byte>): (r: seq<byte>)
    ensures 0 !in r && r <= s
  {
    Before(s, 0)
  }

  lemma BeforeOfConcat(a: seq<byte>, x: byte, b: seq<byte>)
    requires x !in a
    ensures IndexOf(a + [x] + b, x) == Some(|a|)
    ensures Before(a + [x] + b, x) == a
  {
    var s := a + [x] + b;
    assert s[|a|] == x;
    assert s[..|a|] == a;
  }

  /** The pieces of s between occurrences of sep (std::string::find loops, Python str.split(sep)). */
  function Split(s: seq<byte>, sep: byte): (r: seq<seq<byte>>)
    ensures |r| >= 1
    ensures sep !in s ==> r == [s]
    decreases |s|
  {
    match IndexOf(s, sep)
      case None => [s]
      case Some(i) => [s[..i]] + Split(s[i + 1..], sep)
  }

  /** No piece contains the separator. */
  lemma {:induction false} SplitPieces(s: seq<byte>, sep: byte)
    ensures forall k | 0 <= k < |Split(s, sep)| :: sep !in Split(s, sep)[k]
    decreases |s|
  {
    match IndexOf(s, sep)
      case None =>
      case Some(i) => SplitPieces(s[i + 1..], sep);
  }

  /** Adding a separator and a piece adds exactly that piece. */
  lemma {:induction false} SplitAppend(s: seq<byte>, sep: byte, e: seq<byte>)
    requires sep !in e
    ensures Split(s + [sep] + e, sep) == Split(s, sep) + [e]
    decreases |s|
  {
    if sep !in s {
      SplitHead(s, sep, e, s + [sep] + e);
    } else {
      var i := IndexOf(s, sep).value;
      var head, tail := s[..i], s[i + 1..];
      assert s == head + [sep] + tail;
      assert s + [sep] + e == head + [sep] + (tail + [sep] + e);
      SplitAppend(tail, sep, e);
      SplitHead(head, sep, tail, s);
      SplitHead(head, sep, tail + [sep] + e, s + [sep] + e);
    }
  }

  /** The piece before the first separator, then the pieces of the rest. */
  lemma SplitHead(head: seq<byte>, sep: byte, rest: seq<byte>, u: seq<byte>)
    requires sep !in head && u == head + [sep] + rest
    ensures Split(u, sep) == [head] + Split(rest, sep)
  {
    BeforeOfConcat(head, sep, rest);
    assert u[|head| + 1..] == rest;
  }

  // ----- Sequence regrouping, kept out of the larger proofs -----

  lemma Assoc<T>(a: seq<T>, b: seq<T>, c: seq<T>)
    ensures (a + b) + c == a + (b + c)
  {
  }

  /** The last n elements of a suffix of b are b's last n elements. */
  lemma SameTail<T>(a: seq<T>, b: seq<T>, n: nat)
    requires n <= |a| <= |b| && a == b[|b| - |a|..]
    ensures a[|a| - n..] == b[|b| - n..]
  {
  }

  lemma DropFront<T>(a: seq<T>, b: seq<T>)
    ensures (a + b)[|a|..] == b
  {
  }

  lemma Unnest<T>(a: seq<T>, b: seq<T>, c: seq<T>, d: seq<T>, e: seq<T>)
    ensures a + (b + (c + (d + e))) == (a + (b + (c + d))) + e
    ensures |a + (b + (c + d))| == |a| + |b| + |c| + |d|
  {
  }

  lemma TailOfConcat<T>(a: seq<T>, b: seq<T>)
    requires |a| >= 1
    ensures (a + b)[1..] == a[1..] + b
  {
  }
}
