/**
 * The aDTNPlus beacon as the Lepton hub reads and writes it: source, IP address, port, the number
 * of endpoint ids and the ids, each as NUL-terminated text. Java strings are modelled as their
 * bytes (the platform charset is taken to map each byte to one character).
 */
module LeptonBeacon {
  import opened Wire
  import opened Decimal

  /** StringIndexOutOfBoundsException from substring, NumberFormatException from parseInt. */
  datatype DecodeError = StringIndexOutOfBounds | NumberFormat

  /** IndexOutOfBoundsException from System.arraycopy. */
  datatype EncodeError = IndexOutOfBounds

  /** IllegalArgumentException from the InetSocketAddress constructor. */
  datatype AddressError = IllegalArgument

  /** The kinds of gossiping of the hub's Beacon interface: TCP, or any other. */
  datatype GossipingType = Tcp | Other(name: string)

  /** The hub's beacon kinds: a host announces itself (HELLO) or its leaving (BYE). */
  datatype BeaconType = Hello | Bye

  /** An unresolved socket address: host name and port. */
  datatype SocketAddress = SocketAddress(host: seq<byte>, port: int32)

  /** The text Java's string concatenation gives for a null reference. */
  const NULL_TEXT: seq<byte> := [110, 117, 108, 108]

  /** The beacon's fields; a null String is None. */
  datatype BeaconState = BeaconState(source: Option<seq<byte>>, port: int32, ip: Option<seq<byte>>, eids: seq<seq<byte>>)

  /** The field values of a new object. */
  const INITIAL: BeaconState := BeaconState(None, 0, None, [])

  /**
   * s.indexOf('\0', from): the position of the first NUL at or after from, or None (-1) when there
   * is none or from is past the end.
   */
  function IndexFrom(s: seq<byte>, from: nat): (r: Option<nat>)
    ensures r.Some? ==> from <= r.value < |s|
    decreases |s| - from
  {
    if from >= |s| then None
    else if s[from] == 0 then Some(from)
    else IndexFrom(s, from + 1)
  }

  /**
   * idx1 = s.indexOf('\0', idx0) then s.substring(idx0, idx1): the end of the field that starts at
   * idx0, or None when substring throws (idx0 negative, or no NUL after it).
   */
  function FieldEnd(s: seq<byte>, idx0: int): (r: Option<nat>)
    ensures r.Some? ==> 0 <= idx0 <= r.value < |s|
  {
    if idx0 < 0 then None else IndexFrom(s, idx0)
  }

  /**
   * The loop over the endpoint ids: count fields, each starting after the NUL at idx1. The ids read
   * before a field without its NUL are kept; the flag says whether every read succeeded.
   */
  function ReadEids(s: seq<byte>, idx1: nat, count: int): (r: (seq<seq<byte>>, bool))
    ensures count <= 0 ==> r == ([], true)
    ensures |r.0| <= if count <= 0 then 0 else count
    decreases if count <= 0 then 0 else count
  {
    if count <= 0 then ([], true)
    else match FieldEnd(s, idx1 + 1)
      case None => ([], false)
      case Some(j) =>
        var rest := ReadEids(s, j, count - 1);
        ([s[idx1 + 1..j]] + rest.0, rest.1)
  }

  /**
   * decode: the fields in order, each assigned as soon as it is read, so a failure keeps those
   * already assigned; the ids read are appended to those the object already had. The whole buffer
   * is the string: the length argument is not used. First the source, from offset on.
   */
  function DecodeFrom(st: BeaconState, s: seq<byte>, offset: int32): (r: (BeaconState, Option<DecodeError>))
    ensures st.eids <= r.0.eids
    ensures r.1.None? ==> r.0.source.Some? && r.0.ip.Some?
  {
    match FieldEnd(s, offset)
      case None => (st, Some(StringIndexOutOfBounds))
      case Some(e1) => DecodeIp(st.(source := Some(s[offset..e1])), s, e1)
  }

  /** Then the ip, after the NUL at e1. */
  function DecodeIp(st: BeaconState, s: seq<byte>, e1: nat): (r: (BeaconState, Option<DecodeError>))
    ensures r.0.source == st.source && st.eids <= r.0.eids
    ensures r.1.None? ==> r.0.ip.Some?
  {
    match FieldEnd(s, e1 + 1)
      case None => (st, Some(StringIndexOutOfBounds))
      case Some(e2) => DecodePort(st.(ip := Some(s[e1 + 1..e2])), s, e2)
  }

  /** Then the port, after the NUL at e2, through Integer.parseInt. */
  function DecodePort(st: BeaconState, s: seq<byte>, e2: nat): (r: (BeaconState, Option<DecodeError>))
    ensures r.0.source == st.source && r.0.ip == st.ip && st.eids <= r.0.eids
  {
    match FieldEnd(s, e2 + 1)
      case None => (st, Some(StringIndexOutOfBounds))
      case Some(e3) =>
        match ParseInt(s[e2 + 1..e3])
          case None => (st, Some(NumberFormat))
          case Some(port) => DecodeIds(st.(port := port), s, e3)
  }

  /** Then the number of ids, after the NUL at e3, and that many ids. */
  function DecodeIds(st: BeaconState, s: seq<byte>, e3: nat): (r: (BeaconState, Option<DecodeError>))
    ensures r.0.source == st.source && r.0.ip == st.ip && r.0.port == st.port && st.eids <= r.0.eids
  {
    match FieldEnd(s, e3 + 1)
      case None => (st, Some(StringIndexOutOfBounds))
      case Some(e4) =>
        match ParseInt(s[e3 + 1..e4])
          case None => (st, Some(NumberFormat))
          case Some(count) =>
            var read := ReadEids(s, e4, count);
            (st.(eids := st.eids + read.0), if read.1 then None else Some(StringIndexOutOfBounds))
  }

  /** A string as Java's concatenation writes it: null as "null". */
  function Text(s: Option<seq<byte>>): seq<byte>
  {
    if s.Some? then s.value else NULL_TEXT
  }

  /** The ids, each followed by a NUL. */
  function Joined(eids: seq<seq<byte>>): (r: seq<byte>)
  {
    if eids == [] then [] else eids[0] + [0] + Joined(eids[1..])
  }

  /** The text encode builds before copying it: source, ip, port, the id count and the ids, each NUL-terminated. */
  function EncodeText(st: BeaconState): (r: seq<byte>)
    ensures |r| > |Text(st.source)| && r[..|Text(st.source)|] == Text(st.source) && r[|Text(st.source)|] == 0
  {
    Text(st.source) + [0] + Text(st.ip) + [0] + ToDecimalSigned(st.port) + [0] + ToDecimal(|st.eids|) + [0] + Joined(st.eids)
  }

  class AdtnPlusBeacon {
    var source: Option<seq<byte>>
    var port: int32
    var ip: Option<seq<byte>>
    var eids: seq<seq<byte>>

    function State(): BeaconState
      reads this
    {
      BeaconState(source, port, ip, eids)
    }

    constructor()
      ensures State() == INITIAL
    {
      source := None;
      port := 0;
      ip := None;
      eids := [];
    }

    /** The constructor from a packet: decode into a new object; on an exception there is no object. */
    static method FromPacket(data: seq<byte>, offset: int32, length: int32) returns (r: Result<AdtnPlusBeacon, DecodeError>)
      ensures DecodeFrom(INITIAL, data, offset).1.None? ==> r.Ok? && fresh(r.value) && r.value.State() == DecodeFrom(INITIAL, data, offset).0
      ensures DecodeFrom(INITIAL, data, offset).1.Some? ==> r == Err(DecodeFrom(INITIAL, data, offset).1.value)
    {
      var b := new AdtnPlusBeacon();
      var error := b.Decode(data, offset, length);
      if error.Some? {
        return Err(error.value);
      }
      r := Ok(b);
    }

    /** decode: the new fields and the exception, if any, are those DecodeFrom gives. */
    method Decode(buffer: seq<byte>, offset: int32, length: int32) returns (error: Option<DecodeError>)
      modifies this
      ensures (State(), error) == DecodeFrom(old(State()), buffer, offset)
    {
      var s := buffer;
      var idx1 := FieldEnd(s, offset);
      if idx1.None? {
        return Some(StringIndexOutOfBounds);
      }
      var e1 := idx1.value;
      source := Some(s[offset..e1]);
      idx1 := FieldEnd(s, e1 + 1);
      if idx1.None? {
        return Some(StringIndexOutOfBounds);
      }
      var e2 := idx1.value;
      ip := Some(s[e1 + 1..e2]);
      error := DecodeNumbers(s, e2);
    }

    /** decode from the port on, the ip ending at e2. */
    method DecodeNumbers(s: seq<byte>, e2: nat) returns (error: Option<DecodeError>)
      modifies this
      ensures (State(), error) == DecodePort(old(State()), s, e2)
    {
      var idx1 := FieldEnd(s, e2 + 1);
      if idx1.None? {
        return Some(StringIndexOutOfBounds);
      }
      var e3 := idx1.value;
      var parsedPort := ParseInt(s[e2 + 1..e3]);
      if parsedPort.None? {
        return Some(NumberFormat);
      }
      port := parsedPort.value;
      error := DecodeCount(s, e3);
    }

    /** decode from the id count on, the port ending at e3. */
    method DecodeCount(s: seq<byte>, e3: nat) returns (error: Option<DecodeError>)
      modifies this
      ensures (State(), error) == DecodeIds(old(State()), s, e3)
    {
      var idx1 := FieldEnd(s, e3 + 1);
      if idx1.None? {
        return Some(StringIndexOutOfBounds);
      }
      var e4 := idx1.value;
      var eidSize := ParseInt(s[e3 + 1..e4]);
      if eidSize.None? {
        return Some(NumberFormat);
      }
      error := ReadEidsInto(s, e4, eidSize.value);
    }

    /** The loop of decode over the ids: each one read is appended at once. */
    method ReadEidsInto(s: seq<byte>, start: nat, count: int32) returns (error: Option<DecodeError>)
      modifies this
      ensures source == old(source) && port == old(port) && ip == old(ip)
      ensures eids == old(eids) + ReadEids(s, start, count).0
      ensures error == if ReadEids(s, start, count).1 then None else Some(StringIndexOutOfBounds)
    {
      ghost var all := ReadEids(s, start, count);
      var idx1 := start;
      var i := 0;
      while i < count
        invariant source == old(source) && port == old(port) && ip == old(ip)
        invariant 0 <= i <= if count <= 0 then 0 else count
        invariant old(eids) + all.0 == eids + ReadEids(s, idx1, count - i).0
        invariant all.1 == ReadEids(s, idx1, count - i).1
        decreases count - i
      {
        var end := FieldEnd(s, idx1 + 1);
        ReadStep(s, idx1, count - i);
        if end.None? {
          return Some(StringIndexOutOfBounds);
        }
        var eid := s[idx1 + 1..end.value];
        Assoc(eids, [eid], ReadEids(s, end.value, count - i - 1).0);
        eids := eids + [eid];
        idx1 := end.value;
        i := i + 1;
      }
      error := None;
    }

    /**
     * encode: the text copied into buffer at offset, the rest of the buffer unchanged; the result
     * is offset plus the whole buffer's length (in int arithmetic), not the number of bytes written.
     * A text that does not fit throws and leaves the buffer as it was.
     */
    method Encode(buffer: array<byte>, offset: int32) returns (r: Result<int32, EncodeError>)
      modifies buffer
      ensures var text := EncodeText(State());
        if 0 <= offset && offset + |text| <= buffer.Length then
          && buffer[..] == old(buffer[..offset]) + text + old(buffer[offset + |text|..])
          && r == Ok(I32(offset + buffer.Length))
        else
          buffer[..] == old(buffer[..]) && r == Err(IndexOutOfBounds)
    {
      var s := BuildText();
      if offset < 0 || offset + |s| > buffer.Length {
        return Err(IndexOutOfBounds);
      }
      CopyInto(buffer, offset, s);
      r := Ok(I32(offset + buffer.Length));
    }

    /** The string encode builds: the fixed fields, then each id and its NUL. */
    method BuildText() returns (s: seq<byte>)
      ensures s == EncodeText(State())
    {
      s := Text(source) + [0] + Text(ip) + [0] + ToDecimalSigned(port) + [0] + ToDecimal(|eids|) + [0];
      ghost var head := s;
      for i := 0 to |eids|
        invariant s == head + Joined(eids[..i])
      {
        JoinedPrefix(head, eids, i);
        s := s + eids[i] + [0];
      }
      assert eids[..|eids|] == eids;
    }

    /** getBeaconType: every aDTNPlus beacon is a HELLO beacon. */
    method GetBeaconType() returns (r: BeaconType)
      ensures r == Hello
    {
      r := Hello;
    }

    /** getDestination: beacons are broadcast, so there is no destination (null). */
    method GetDestination() returns (r: Option<seq<byte>>)
      ensures r == None
    {
      r := None;
    }

    /** getSource: the source read by decode. */
    method GetSource() returns (r: Option<seq<byte>>)
      ensures r == source
    {
      r := source;
    }

    /** hasGossipingType: only TCP gossiping is offered. */
    method HasGossipingType(t: GossipingType) returns (r: bool)
      ensures r <==> t == Tcp
    {
      match t {
        case Tcp => r := true;
        case Other(_) => r := false;
      }
    }

    /**
     * getGossipingAddress: for TCP the beacon's ip and port (the constructor refuses a null host or
     * a port outside 0..65535); null for any other kind.
     */
    method GetGossipingAddress(t: GossipingType) returns (r: Result<Option<SocketAddress>, AddressError>)
      ensures t != Tcp ==> r == Ok(None)
      ensures t == Tcp && ip.Some? && 0 <= port <= 65535 ==> r == Ok(Some(SocketAddress(ip.value, port)))
      ensures t == Tcp && (ip.None? || port < 0 || port > 65535) ==> r == Err(IllegalArgument)
    {
      r := Ok(None);
      if t == Tcp {
        if ip.None? || port < 0 || port > 65535 {
          return Err(IllegalArgument);
        }
        r := Ok(Some(SocketAddress(ip.value, port)));
      }
    }

    /** setGossipingAddress: for TCP only the port is taken from the address; the ip is kept. */
    method SetGossipingAddress(t: GossipingType, addr: SocketAddress)
      modifies this
      ensures t == Tcp ==> State() == old(State()).(port := addr.port)
      ensures t != Tcp ==> State() == old(State())
    {
      if t == Tcp {
        port := addr.port;
      }
    }
  }

  /** System.arraycopy of the whole of s into buffer at offset. */
  method CopyInto(buffer: array<byte>, offset: nat, s: seq<byte>)
    requires offset + |s| <= buffer.Length
    modifies buffer
    ensures buffer[..] == old(buffer[..offset]) + s + old(buffer[offset + |s|..])
  {
    for j := 0 to |s|
      invariant forall k | 0 <= k < buffer.Length && !(offset <= k < offset + j) :: buffer[k] == old(buffer[k])
      invariant forall k | offset <= k < offset + j :: buffer[k] == s[k - offset]
    {
      buffer[offset + j] := s[j];
    }
    ghost var expected := old(buffer[..offset]) + s + old(buffer[offset + |s|..]);
    assert forall k | 0 <= k < buffer.Length :: buffer[..][k] == expected[k];
  }

  /** One more id of the list appended to the text built so far. */
  lemma JoinedPrefix(head: seq<byte>, eids: seq<seq<byte>>, i: nat)
    requires i < |eids|
    ensures head + Joined(eids[..i + 1]) == head + Joined(eids[..i]) + eids[i] + [0]
  {
    assert eids[..i + 1] == eids[..i] + [eids[i]];
    JoinedSnoc(eids[..i], eids[i]);
  }

  /** One turn of the id loop: the id read, then the rest; or a missing NUL, and nothing more is read. */
  lemma ReadStep(s: seq<byte>, idx1: nat, n: int)
    requires n > 0
    ensures FieldEnd(s, idx1 + 1).None? ==> ReadEids(s, idx1, n) == ([], false)
    ensures FieldEnd(s, idx1 + 1).Some? ==>
      var j := FieldEnd(s, idx1 + 1).value;
      ReadEids(s, idx1, n) == ([s[idx1 + 1..j]] + ReadEids(s, j, n - 1).0, ReadEids(s, j, n - 1).1)
  {
  }

  // ----- Properties -----

  /** t lies in s from position at on. */
  predicate Laid(s: seq<byte>, at: nat, t: seq<byte>)
    decreases |t|
  {
    if t == [] then at <= |s| else at < |s| && s[at] == t[0] && Laid(s, at + 1, t[1..])
  }

  /** Laid says that the slice of s from at is t. */
  lemma {:induction false} LaidSlice(s: seq<byte>, at: nat, t: seq<byte>)
    ensures Laid(s, at, t) <==> at + |t| <= |s| && s[at..at + |t|] == t
    decreases |t|
  {
    if t != [] {
      LaidSlice(s, at + 1, t[1..]);
      if at + |t| <= |s| {
        assert s[at..at + |t|] == [s[at]] + s[at + 1..at + |t|];
      }
    }
  }

  /** Two texts laid one after the other: each lies where it starts. */
  lemma {:induction false} LaidSplit(s: seq<byte>, at: nat, x: seq<byte>, y: seq<byte>)
    requires Laid(s, at, x + y)
    ensures Laid(s, at, x) && Laid(s, at + |x|, y)
    decreases |x|
  {
    if x == [] {
      assert x + y == y;
      LaidSlice(s, at, y);
    } else {
      assert (x + y)[0] == x[0] && (x + y)[1..] == x[1..] + y;
      LaidSplit(s, at + 1, x[1..], y);
    }
  }

  /**
   * NUL-terminated fields laid from at on: the field read from at is the first of them, and the
   * others follow its NUL.
   */
  lemma FieldOf(s: seq<byte>, at: nat, fields: seq<seq<byte>>)
    requires fields != [] && 0 !in fields[0] && Laid(s, at, Joined(fields))
    ensures FieldEnd(s, at) == Some(at + |fields[0]|) && s[at..at + |fields[0]|] == fields[0]
    ensures Laid(s, at + |fields[0]| + 1, Joined(fields[1..]))
  {
    LaidSplit(s, at, fields[0] + [0], Joined(fields[1..]));
    Field(s, at, fields[0]);
  }

  /** The search from i stops at the first NUL from i on. */
  lemma {:induction false} FieldEndAt(s: seq<byte>, i: nat, j: nat)
    requires i <= j < |s| && s[j] == 0 && 0 !in s[i..j]
    ensures FieldEnd(s, i) == Some(j)
    decreases j - i
  {
    if i < j {
      assert s[i] == s[i..j][0];
      assert s[i + 1..j] == s[i..j][1..];
      FieldEndAt(s, i + 1, j);
    }
  }

  /** What the search finds is the first NUL from its start on, and None means there is none. */
  lemma {:induction false} IndexFromSpec(s: seq<byte>, from: nat)
    ensures IndexFrom(s, from).Some? ==>
      s[IndexFrom(s, from).value] == 0 && 0 !in s[from..IndexFrom(s, from).value]
    ensures IndexFrom(s, from).None? ==> from >= |s| || 0 !in s[from..]
    decreases |s| - from
  {
    if from < |s| && s[from] != 0 {
      IndexFromSpec(s, from + 1);
      assert s[from..] == [s[from]] + s[from + 1..];
      if IndexFrom(s, from).Some? {
        var j := IndexFrom(s, from).value;
        assert s[from..j] == [s[from]] + s[from + 1..j];
      }
    }
  }

  /** Reading ids that were written NUL-terminated right after the NUL at at - 1, the count matching, gives them back. */
  lemma {:induction false} ReadJoined(s: seq<byte>, at: nat, eids: seq<seq<byte>>)
    requires at >= 1 && Laid(s, at, Joined(eids))
    requires forall k | 0 <= k < |eids| :: 0 !in eids[k]
    ensures ReadEids(s, at - 1, |eids|) == (eids, true)
    decreases |eids|
  {
    if eids != [] {
      var first, rest := eids[0], eids[1..];
      var j := at + |first|;
      FieldOf(s, at, eids);
      assert at - 1 + 1 == at;
      NoNulTail(eids);
      ReadJoined(s, j + 1, rest);
      ReadStepSome(s, at - 1, |eids|, j, rest);
      ConsHeadTail(eids);
    } else {
      assert ReadEids(s, at - 1, 0) == ([], true);
    }
  }

  /** The ids after the first have no NUL either. */
  lemma NoNulTail(eids: seq<seq<byte>>)
    requires eids != [] && forall k | 0 <= k < |eids| :: 0 !in eids[k]
    ensures forall k | 0 <= k < |eids| - 1 :: 0 !in eids[1..][k]
  {
    assert forall k | 0 <= k < |eids| - 1 :: eids[1..][k] == eids[k + 1];
  }

  /** A nonempty list is its head followed by its tail. */
  lemma ConsHeadTail<T>(x: seq<T>)
    requires x != []
    ensures [x[0]] + x[1..] == x
  {
  }

  /** One turn of the id loop that finds its NUL at j, the rest read back as rest. */
  lemma ReadStepSome(s: seq<byte>, idx1: nat, n: int, j: nat, rest: seq<seq<byte>>)
    requires n > 0 && FieldEnd(s, idx1 + 1) == Some(j) && ReadEids(s, j, n - 1) == (rest, true)
    ensures ReadEids(s, idx1, n) == ([s[idx1 + 1..j]] + rest, true)
  {
  }

  /** One more id appended to the list adds it and its NUL at the end of the text. */
  lemma {:induction false} JoinedSnoc(eids: seq<seq<byte>>, last: seq<byte>)
    ensures Joined(eids + [last]) == Joined(eids) + last + [0]
    decreases |eids|
  {
    if eids == [] {
      assert [] + [last] == [last];
      assert [last][1..] == [];
    } else {
      assert (eids + [last])[1..] == eids[1..] + [last];
      JoinedSnoc(eids[1..], last);
    }
  }

  /** A field with no NUL in it, laid with its NUL: the field read from where it starts is that field. */
  lemma Field(s: seq<byte>, at: nat, f: seq<byte>)
    requires 0 !in f && Laid(s, at, f + [0])
    ensures FieldEnd(s, at) == Some(at + |f|) && s[at..at + |f|] == f
  {
    LaidSplit(s, at, f, [0]);
    assert [0][1..] == [];
    LaidSlice(s, at, f);
    FieldEndAt(s, at, at + |f|);
  }

  /** encode's text laid from at on: each field with its NUL, then the ids, at the positions they start. */
  lemma EncodeLaid(s: seq<byte>, at: nat, src: seq<byte>, ip: seq<byte>, port: seq<byte>, count: seq<byte>, ids: seq<byte>)
    requires Laid(s, at, src + [0] + ip + [0] + port + [0] + count + [0] + ids)
    ensures Laid(s, at, src + [0])
    ensures Laid(s, at + |src| + 1, ip + [0])
    ensures Laid(s, at + |src| + 1 + |ip| + 1, port + [0])
    ensures Laid(s, at + |src| + 1 + |ip| + 1 + |port| + 1, count + [0])
    ensures Laid(s, at + |src| + 1 + |ip| + 1 + |port| + 1 + |count| + 1, ids)
  {
    var h1 := src + [0];
    var h2 := h1 + ip + [0];
    var h3 := h2 + port + [0];
    var h4 := h3 + count + [0];
    LaidSplit(s, at, h4, ids);
    assert h4 == h3 + (count + [0]);
    LaidSplit(s, at, h3, count + [0]);
    assert h3 == h2 + (port + [0]);
    LaidSplit(s, at, h2, port + [0]);
    assert h2 == h1 + (ip + [0]);
    LaidSplit(s, at, h1, ip + [0]);
  }

  /** The last stage: the count and the ids written by encode, after the NUL at e3, are read back. */
  lemma IdsRead(st: BeaconState, s: seq<byte>, e3: nat, eids: seq<seq<byte>>)
    requires forall k | 0 <= k < |eids| :: 0 !in eids[k]
    requires |eids| <= INT_MAX
    requires Laid(s, e3 + 1, ToDecimal(|eids|) + [0])
    requires Laid(s, e3 + 1 + |ToDecimal(|eids|)| + 1, Joined(eids))
    ensures DecodeIds(st, s, e3) == (st.(eids := st.eids + eids), None)
  {
    var countText := ToDecimal(|eids|);
    DecimalSymbols(|eids|, 0);
    assert ToDecimalSigned(|eids|) == countText && 0 !in countText;
    ParseIntOfDecimal(|eids|);
    CountRead(st, s, e3, countText, eids);
  }

  /** The last stage once the count text is known to parse as the number of ids. */
  lemma CountRead(st: BeaconState, s: seq<byte>, e3: nat, countText: seq<byte>, eids: seq<seq<byte>>)
    requires forall k | 0 <= k < |eids| :: 0 !in eids[k]
    requires 0 !in countText && |eids| <= INT_MAX && ParseInt(countText) == Some(|eids|)
    requires Laid(s, e3 + 1, countText + [0]) && Laid(s, e3 + 1 + |countText| + 1, Joined(eids))
    ensures DecodeIds(st, s, e3) == (st.(eids := st.eids + eids), None)
  {
    var e4 := e3 + 1 + |countText|;
    Field(s, e3 + 1, countText);
    ReadJoined(s, e4 + 1, eids);
    assert e4 + 1 - 1 == e4;
    DecodeIdsOf(st, s, e3, e4, |eids|, eids);
  }

  /** The last stage in terms of what its reads find. */
  lemma DecodeIdsOf(st: BeaconState, s: seq<byte>, e3: nat, e4: nat, count: int32, eids: seq<seq<byte>>)
    requires FieldEnd(s, e3 + 1) == Some(e4) && e3 + 1 <= e4
    requires ParseInt(s[e3 + 1..e4]) == Some(count) && ReadEids(s, e4, count) == (eids, true)
    ensures DecodeIds(st, s, e3) == (st.(eids := st.eids + eids), None)
  {
  }

  /** The port stage: the port written by encode, after the NUL at e2, is read back, then the ids. */
  lemma PortRead(st: BeaconState, s: seq<byte>, e2: nat, port: int32)
    requires Laid(s, e2 + 1, ToDecimalSigned(port) + [0])
    ensures DecodePort(st, s, e2) == DecodeIds(st.(port := port), s, e2 + 1 + |ToDecimalSigned(port)|)
  {
    var text := ToDecimalSigned(port);
    var e3 := e2 + 1 + |text|;
    DecimalSymbols(port, 0);
    Field(s, e2 + 1, text);
    ParseIntOfSigned(port);
    assert ParseInt(s[e2 + 1..e3]) == Some(port);
    DecodePortOf(st, s, e2, e3, port);
  }

  /** The port stage in terms of what its reads find. */
  lemma DecodePortOf(st: BeaconState, s: seq<byte>, e2: nat, e3: nat, port: int32)
    requires FieldEnd(s, e2 + 1) == Some(e3) && e2 + 1 <= e3 && ParseInt(s[e2 + 1..e3]) == Some(port)
    ensures DecodePort(st, s, e2) == DecodeIds(st.(port := port), s, e3)
  {
  }

  /** The first two stages: the source and the ip written by encode are read back, then the port. */
  lemma FrontRead(st: BeaconState, s: seq<byte>, offset: nat, src: seq<byte>, ip: seq<byte>)
    requires 0 !in src && 0 !in ip && offset <= INT_MAX
    requires Laid(s, offset, src + [0]) && Laid(s, offset + |src| + 1, ip + [0])
    ensures DecodeFrom(st, s, offset) ==
      DecodePort(st.(source := Some(src), ip := Some(ip)), s, offset + |src| + 1 + |ip|)
  {
    var e1 := offset + |src|;
    Field(s, offset, src);
    Field(s, e1 + 1, ip);
    assert DecodeFrom(st, s, offset) == DecodeIp(st.(source := Some(src)), s, e1);
  }

  /**
   * Decoding what encode wrote, at the offset it wrote it, gives back the source, the ip and the
   * port, and appends the ids to those the object had; no exception is thrown. The strings must be
   * set and free of NULs, and there must be at most 2^31 - 1 ids.
   */
  lemma DecodeEncode(st: BeaconState, s: seq<byte>, prefix: seq<byte>, target: BeaconState, suffix: seq<byte>)
    requires st.source.Some? && st.ip.Some? && 0 !in st.source.value && 0 !in st.ip.value
    requires forall k | 0 <= k < |st.eids| :: 0 !in st.eids[k]
    requires |st.eids| <= INT_MAX && |prefix| <= INT_MAX
    requires s == prefix + EncodeText(st) + suffix
    ensures DecodeFrom(target, s, |prefix|) ==
      (target.(source := st.source, ip := st.ip, port := st.port, eids := target.eids + st.eids), None)
  {
    assert s[|prefix|..|prefix| + |EncodeText(st)|] == EncodeText(st);
    LaidSlice(s, |prefix|, EncodeText(st));
    DecodeLaid(st, s, |prefix|, target);
  }

  /** DecodeEncode for an encoded text that lies in s from offset on. */
  lemma DecodeLaid(st: BeaconState, s: seq<byte>, offset: nat, target: BeaconState)
    requires st.source.Some? && st.ip.Some? && 0 !in st.source.value && 0 !in st.ip.value
    requires forall k | 0 <= k < |st.eids| :: 0 !in st.eids[k]
    requires |st.eids| <= INT_MAX && offset <= INT_MAX
    requires Laid(s, offset, EncodeText(st))
    ensures DecodeFrom(target, s, offset) ==
      (target.(source := st.source, ip := st.ip, port := st.port, eids := target.eids + st.eids), None)
  {
    var src, ip, portText := st.source.value, st.ip.value, ToDecimalSigned(st.port);
    var countText := ToDecimal(|st.eids|);
    assert EncodeText(st) == src + [0] + ip + [0] + portText + [0] + countText + [0] + Joined(st.eids);
    EncodeLaid(s, offset, src, ip, portText, countText, Joined(st.eids));
    DecodeFields(s, offset, target, src, ip, st.port, st.eids);
  }

  /** The stages one after the other, over fields laid one after the other from offset on. */
  lemma DecodeFields(s: seq<byte>, offset: nat, target: BeaconState, src: seq<byte>, ip: seq<byte>, port: int32, eids: seq<seq<byte>>)
    requires 0 !in src && 0 !in ip && offset <= INT_MAX
    requires forall k | 0 <= k < |eids| :: 0 !in eids[k]
    requires |eids| <= INT_MAX
    requires Laid(s, offset, src + [0]) && Laid(s, offset + |src| + 1, ip + [0])
    requires Laid(s, offset + |src| + 1 + |ip| + 1, ToDecimalSigned(port) + [0])
    requires Laid(s, offset + |src| + 1 + |ip| + 1 + |ToDecimalSigned(port)| + 1, ToDecimal(|eids|) + [0])
    requires Laid(s, offset + |src| + 1 + |ip| + 1 + |ToDecimalSigned(port)| + 1 + |ToDecimal(|eids|)| + 1, Joined(eids))
    ensures DecodeFrom(target, s, offset) ==
      (target.(source := Some(src), ip := Some(ip), port := port, eids := target.eids + eids), None)
  {
    var t2 := target.(source := Some(src), ip := Some(ip));
    FrontRead(target, s, offset, src, ip);
    BackFields(s, offset + |src| + 1 + |ip|, t2, port, eids);
  }

  /** The port stage and the last one, over the port, the count and the ids laid after the NUL at e2. */
  lemma BackFields(s: seq<byte>, e2: nat, st: BeaconState, port: int32, eids: seq<seq<byte>>)
    requires forall k | 0 <= k < |eids| :: 0 !in eids[k]
    requires |eids| <= INT_MAX
    requires Laid(s, e2 + 1, ToDecimalSigned(port) + [0])
    requires Laid(s, e2 + 1 + |ToDecimalSigned(port)| + 1, ToDecimal(|eids|) + [0])
    requires Laid(s, e2 + 1 + |ToDecimalSigned(port)| + 1 + |ToDecimal(|eids|)| + 1, Joined(eids))
    ensures DecodePort(st, s, e2) == (st.(port := port, eids := st.eids + eids), None)
  {
    PortRead(st, s, e2, port);
    IdsRead(st.(port := port), s, e2 + 1 + |ToDecimalSigned(port)|, eids);
  }

  /** Decoding the same beacon twice into one object lists its ids twice. */
  lemma DecodeTwiceRepeatsIds(st: BeaconState, s: seq<byte>, prefix: seq<byte>, suffix: seq<byte>)
    requires st.source.Some? && st.ip.Some? && 0 !in st.source.value && 0 !in st.ip.value
    requires forall k | 0 <= k < |st.eids| :: 0 !in st.eids[k]
    requires |st.eids| <= INT_MAX && |prefix| <= INT_MAX
    requires s == prefix + EncodeText(st) + suffix
    ensures DecodeFrom(DecodeFrom(INITIAL, s, |prefix|).0, s, |prefix|).0.eids == st.eids + st.eids
  {
    DecodeEncode(st, s, prefix, INITIAL, suffix);
    var once := DecodeFrom(INITIAL, s, |prefix|).0;
    assert once.eids == st.eids;
    DecodeEncode(st, s, prefix, once, suffix);
  }

  /** A buffer with no NUL from the offset on fails at the first field and changes nothing. */
  lemma DecodeWithoutTerminator(st: BeaconState, s: seq<byte>, offset: int32)
    requires 0 <= offset <= |s| && 0 !in s[offset..]
    ensures DecodeFrom(st, s, offset) == (st, Some(StringIndexOutOfBounds))
  {
    IndexFromSpec(s, offset);
  }

  /** The ids read are always appended: those the object had stay in front, whatever the outcome. */
  lemma DecodeKeepsIds(st: BeaconState, s: seq<byte>, offset: int32)
    ensures st.eids <= DecodeFrom(st, s, offset).0.eids
  {
  }
}
