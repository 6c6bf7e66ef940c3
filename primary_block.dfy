/**
 * The primary bundle block (section 4.5.1 of RFC 5050) as the node builds, serialises and parses it.
 * Every endpoint uses the single scheme "adtn", so the dictionary holds "adtn:" followed by the four
 * scheme-specific parts, each NUL-terminated.
 */
module PrimaryBlock {
  import opened Wire
  import Sdnv
  import Bits

  const VERSION: byte := 6

  /** Processing control flags. Priority is the two-bit field at positions 7 and 8. */
  datatype ControlFlag =
    | IsFragment
    | IsAdministrativeRecord
    | NotFragmented
    | CustodyTransfer
    | DestinationSingleton
    | AcknowledgementRequested
    | PriorityBulk
    | PriorityNormal
    | PriorityExpedited
    | RequestReception
    | RequestCustodyAccept
    | RequestForwarding
    | RequestDelivery
    | RequestDeletion
  {
    predicate IsPriority() {
      this == PriorityBulk || this == PriorityNormal || this == PriorityExpedited
    }

    /** The bit a non-priority flag occupies: 0 to 5, or 14 to 18. */
    function Position(): (k: nat)
      requires !IsPriority()
      ensures k < 21 && k != PRIORITY_LOW && k != PRIORITY_HIGH
    {
      match this
        case IsFragment => 0
        case IsAdministrativeRecord => 1
        case NotFragmented => 2
        case CustodyTransfer => 3
        case DestinationSingleton => 4
        case AcknowledgementRequested => 5
        case RequestReception => 14
        case RequestCustodyAccept => 15
        case RequestForwarding => 16
        case RequestDelivery => 17
        case RequestDeletion => 18
    }
  }

  /** The std::bitset<21> of the processing flags. */
  type ProcFlags = b: seq<bool> | |b| == 21 witness seq(21, _ => false)

  const NO_FLAGS: ProcFlags := seq(21, _ => false)

  /** Bits 7 and 8: the priority field. */
  const PRIORITY_LOW: nat := 7
  const PRIORITY_HIGH: nat := 8

  /** setProcFlag: one bit for a plain flag; for a priority, bits 7 and 8 as 00 (bulk), 01 (normal) or 10 (expedited). */
  function SetFlag(flags: ProcFlags, f: ControlFlag): (r: ProcFlags)
    ensures forall k | 0 <= k < 21 && k != PRIORITY_LOW && k != PRIORITY_HIGH && (f.IsPriority() || k != f.Position()) ::
      r[k] == flags[k]
  {
    match f
      case PriorityBulk => flags[PRIORITY_LOW := false][PRIORITY_HIGH := false]
      case PriorityNormal => flags[PRIORITY_LOW := true][PRIORITY_HIGH := false]
      case PriorityExpedited => flags[PRIORITY_LOW := false][PRIORITY_HIGH := true]
      case _ => flags[f.Position() := true]
  }

  /** clearProcFlag: one bit for a plain flag; both priority bits for any priority. */
  function ClearFlag(flags: ProcFlags, f: ControlFlag): (r: ProcFlags)
    ensures forall k | 0 <= k < 21 && k != PRIORITY_LOW && k != PRIORITY_HIGH && (f.IsPriority() || k != f.Position()) ::
      r[k] == flags[k]
  {
    if f.IsPriority() then flags[PRIORITY_LOW := false][PRIORITY_HIGH := false]
    else flags[f.Position() := false]
  }

  /** testFlag: the flag's bit, or for a priority whether bits 7 and 8 hold its value. */
  function Holds(flags: ProcFlags, f: ControlFlag): bool
  {
    match f
      case PriorityBulk => !flags[PRIORITY_LOW] && !flags[PRIORITY_HIGH]
      case PriorityNormal => flags[PRIORITY_LOW] && !flags[PRIORITY_HIGH]
      case PriorityExpedited => !flags[PRIORITY_LOW] && flags[PRIORITY_HIGH]
      case _ => flags[f.Position()]
  }

  /** The state of a primary block. */
  datatype Fields = Fields(
    procFlags: ProcFlags,
    destination: seq<byte>,
    source: seq<byte>,
    reportTo: seq<byte>,
    custodian: seq<byte>,
    creationTimestamp: uint64,
    creationTimestampSeqNumber: uint64,
    lifetime: uint64)

  // ----- getRaw -----

  /** Strings each followed by a NUL, one after the other (what operator<< and std::ends write). */
  function Joined(parts: seq<seq<byte>>): seq<byte>
  {
    if parts == [] then [] else parts[0] + [0] + Joined(parts[1..])
  }

  /** Where parts[k] starts in Joined(parts): the dictionary size before it is appended. */
  function Offset(parts: seq<seq<byte>>, k: nat): nat
    requires k <= |parts|
  {
    if k == 0 then 0 else |parts[0]| + 1 + Offset(parts[1..], k - 1)
  }

  /** The dictionary entries: the scheme, then each endpoint as c_str() gives it (up to its first NUL). */
  function Entries(f: Fields): seq<seq<byte>>
  {
    [Ascii("adtn:"), CString(f.destination), CString(f.source), CString(f.reportTo), CString(f.custodian)]
  }

  function Dictionary(f: Fields): seq<byte>
  {
    Joined(Entries(f))
  }

  /** Scheme and scheme-specific-part offsets of the four endpoints: the scheme is always at 0. */
  function Offsets(f: Fields): (r: seq<uint64>)
    ensures |r| == 8 && r[0] == 0 && r[2] == 0 && r[4] == 0 && r[6] == 0
  {
    var e := Entries(f);
    [0, U64(Offset(e, 1)), 0, U64(Offset(e, 2)), 0, U64(Offset(e, 3)), 0, U64(Offset(e, 4))]
  }

  /** The values after the block length: offsets, timestamp, sequence number, lifetime, dictionary length. */
  function TrailingValues(f: Fields): (r: seq<uint64>)
    ensures |r| == 12 && r[..8] == Offsets(f)
    ensures r[8] == f.creationTimestamp && r[9] == f.creationTimestampSeqNumber && r[10] == f.lifetime
  {
    Offsets(f) + [f.creationTimestamp, f.creationTimestampSeqNumber, f.lifetime, U64(|Dictionary(f)|)]
  }

  /** The fields after the block length: the trailing values as SDNVs, then the dictionary. */
  function BlockBody(f: Fields): seq<byte>
  {
    Sdnv.Concat(TrailingValues(f)) + Dictionary(f)
  }

  /** Version 6, the flags, the length of the rest, the rest. */
  function Frame(flags: uint64, body: seq<byte>): seq<byte>
  {
    [VERSION] + Sdnv.Encode(flags) + Sdnv.Encode(U64(|body|)) + body
  }

  /** getRaw. */
  function Encode(f: Fields): (r: seq<byte>)
    ensures |r| > 0 && r[0] == VERSION
  {
    Bits.Pow2Of21();
    Frame(Bits.Value(f.procFlags), BlockBody(f))
  }

  // ----- The raw constructor -----

  datatype ParseError =
    | OutOfRange   // substr past the end: std::out_of_range, not caught
    | Unterminated // an SDNV with no last byte: the decode loop never returns
    | Undefined    // strcpy from past the data or into a 1024-byte buffer that is too small

  /** strcpy(buffer, data.c_str() + offset) into a 1024-byte buffer. */
  function CopyString(data: seq<byte>, offset: uint64): (r: Result<seq<byte>, ParseError>)
    ensures r.Ok? ==> |r.value| < 1024 && 0 !in r.value
  {
    if offset > |data| then Err(Undefined)
    else
      var s := CString(data[offset..]);
      if |s| >= 1024 then Err(Undefined) else Ok(s)
  }

  /** One endpoint: the scheme is copied and dropped, the scheme-specific part is kept. */
  function ReadEndpoint(data: seq<byte>, schemeOffset: uint64, sspOffset: uint64): (r: Result<seq<byte>, ParseError>)
  {
    match CopyString(data, schemeOffset)
      case Err(e) => Err(e)
      case Ok(_) => CopyString(data, sspOffset)
  }

  function FromReadError(e: Sdnv.ReadError): ParseError
  {
    match e
      case Exhausted => OutOfRange
      case Unterminated => Unterminated
  }

  /**
   * PrimaryBlock(rawData): skip the version, read fourteen SDNVs (flags, block length, eight
   * offsets, timestamp, sequence number, lifetime, dictionary length) and copy the endpoints
   * out of the dictionary that follows.
   */
  function Parse(raw: seq<byte>): (r: Result<Fields, ParseError>)
    ensures raw == [] ==> r == Err(OutOfRange)
    ensures r.Ok? ==> Representable(r.value)
  {
    if raw == [] then Err(OutOfRange)
    else match Sdnv.ReadMany(raw[1..], 14)
      case Err(e) => Err(FromReadError(e))
      case Ok((vs, data)) => Assemble(vs, data)
  }

  /** The fields from the fourteen SDNVs and the bytes after them: endpoints are copied in order. */
  function Assemble(vs: seq<uint64>, data: seq<byte>): (r: Result<Fields, ParseError>)
    requires |vs| == 14
    ensures r.Ok? ==> Representable(r.value)
  {
    var dest := ReadEndpoint(data, vs[2], vs[3]);
    var src := ReadEndpoint(data, vs[4], vs[5]);
    var report := ReadEndpoint(data, vs[6], vs[7]);
    var cust := ReadEndpoint(data, vs[8], vs[9]);
    if dest.Err? then Err(dest.error)
    else if src.Err? then Err(src.error)
    else if report.Err? then Err(report.error)
    else if cust.Err? then Err(cust.error)
    else Ok(Fields(Bits.FromNat(vs[0], 21), dest.value, src.value, report.value, cust.value,
                   vs[10], vs[11], vs[12]))
  }

  /** Endpoints the raw constructor can give back: no NUL inside, shorter than its 1024-byte buffers. */
  predicate Representable(f: Fields)
  {
    && 0 !in f.destination && |f.destination| < 1024
    && 0 !in f.source && |f.source| < 1024
    && 0 !in f.reportTo && |f.reportTo| < 1024
    && 0 !in f.custodian && |f.custodian| < 1024
  }

  class PrimaryBlock {
    var procFlags: ProcFlags
    var destination: seq<byte>
    var source: seq<byte>
    var reportTo: seq<byte>
    var custodian: seq<byte>
    var creationTimestamp: uint64
    var creationTimestampSeqNumber: uint64
    var lifetime: uint64

    function State(): Fields
      reads this
    {
      Fields(procFlags, destination, source, reportTo, custodian,
             creationTimestamp, creationTimestampSeqNumber, lifetime)
    }

    /** PrimaryBlock(source, destination, timestamp, seqNumber): no flags, empty reportTo and custodian, lifetime 0. */
    constructor (source: seq<byte>, destination: seq<byte>, timestamp: uint64, seqNumber: uint64)
      ensures State() == Fields(NO_FLAGS, destination, source, [], [], timestamp, seqNumber, 0)
    {
      this.procFlags := NO_FLAGS;
      this.destination := destination;
      this.source := source;
      this.reportTo := [];
      this.custodian := [];
      this.creationTimestamp := timestamp;
      this.creationTimestampSeqNumber := seqNumber;
      this.lifetime := 0;
    }

    constructor FromFields(f: Fields)
      ensures State() == f
    {
      procFlags := f.procFlags;
      destination := f.destination;
      source := f.source;
      reportTo := f.reportTo;
      custodian := f.custodian;
      creationTimestamp := f.creationTimestamp;
      creationTimestampSeqNumber := f.creationTimestampSeqNumber;
      lifetime := f.lifetime;
    }

    /** PrimaryBlock(rawData): a new block holding what Parse reads, or the error the constructor meets. */
    static method FromRaw(raw: seq<byte>) returns (r: Result<PrimaryBlock, ParseError>)
      ensures Parse(raw).Err? ==> r == Err(Parse(raw).error)
      ensures Parse(raw).Ok? ==> r.Ok? && fresh(r.value) && r.value.State() == Parse(raw).value
    {
      var p := Parse(raw);
      if p.Err? {
        return Err(p.error);
      }
      var b := new PrimaryBlock.FromFields(p.value);
      return Ok(b);
    }

    method SetProcFlag(f: ControlFlag)
      modifies this
      ensures State() == old(State()).(procFlags := SetFlag(old(procFlags), f))
    {
      procFlags := SetFlag(procFlags, f);
    }

    method ClearProcFlag(f: ControlFlag)
      modifies this
      ensures State() == old(State()).(procFlags := ClearFlag(old(procFlags), f))
    {
      procFlags := ClearFlag(procFlags, f);
    }

    method TestFlag(f: ControlFlag) returns (active: bool)
      ensures active == Holds(procFlags, f)
    {
      active := Holds(procFlags, f);
    }

    method GetRaw() returns (raw: seq<byte>)
      ensures raw == Encode(State())
      ensures Representable(State()) ==> Parse(raw) == Ok(State())
    {
      raw := Encode(State());
      if Representable(State()) {
        ParseEncode(State());
      }
    }

    method SetDestination(destination: seq<byte>)
      modifies this
      ensures State() == old(State()).(destination := destination)
    {
      this.destination := destination;
    }

    method SetSource(source: seq<byte>)
      modifies this
      ensures State() == old(State()).(source := source)
    {
      this.source := source;
    }

    method SetReportTo(reportTo: seq<byte>)
      modifies this
      ensures State() == old(State()).(reportTo := reportTo)
    {
      this.reportTo := reportTo;
    }

    method SetCustodian(custodian: seq<byte>)
      modifies this
      ensures State() == old(State()).(custodian := custodian)
    {
      this.custodian := custodian;
    }

    method SetLifetime(lifetime: uint64)
      modifies this
      ensures State() == old(State()).(lifetime := lifetime)
    {
      this.lifetime := lifetime;
    }
  }

  // ----- Properties -----

  /** A flag that was set tests as set. */
  lemma SetThenTest(flags: ProcFlags, f: ControlFlag)
    ensures Holds(SetFlag(flags, f), f)
  {
  }

  /** A cleared plain flag tests as clear; clearing any priority leaves bulk priority. */
  lemma ClearThenTest(flags: ProcFlags, f: ControlFlag)
    ensures !f.IsPriority() ==> !Holds(ClearFlag(flags, f), f)
    ensures f.IsPriority() ==> Holds(ClearFlag(flags, f), PriorityBulk)
  {
  }

  /** Setting or clearing one flag leaves every other plain flag as it was. */
  lemma OtherFlagsKept(flags: ProcFlags, f: ControlFlag, g: ControlFlag)
    requires !g.IsPriority() && f != g
    ensures Holds(SetFlag(flags, f), g) == Holds(flags, g)
    ensures Holds(ClearFlag(flags, f), g) == Holds(flags, g)
  {
    var k := g.Position();
    assert f.IsPriority() || k != f.Position();
  }

  /** At most one priority holds, and setting a priority makes it the only one. */
  lemma PriorityExclusive(flags: ProcFlags, f: ControlFlag, g: ControlFlag)
    requires f.IsPriority() && g.IsPriority() && f != g
    ensures !(Holds(flags, f) && Holds(flags, g))
    ensures !Holds(SetFlag(flags, f), g)
  {
  }

  lemma {:induction false} JoinedFrom(parts: seq<seq<byte>>, k: nat)
    requires k < |parts|
    ensures Offset(parts, k) <= |Joined(parts)|
    ensures Joined(parts)[Offset(parts, k)..] == parts[k] + [0] + Joined(parts[k + 1..])
    decreases k
  {
    if k > 0 {
      JoinedFrom(parts[1..], k - 1);
      assert parts[1..][k - 1 + 1..] == parts[k + 1..];
      assert Joined(parts)[|parts[0]| + 1..] == Joined(parts[1..]);
    }
  }

  lemma {:induction false} JoinedLength(parts: seq<seq<byte>>)
    requires forall i | 0 <= i < |parts| :: |parts[i]| < 1024
    ensures |Joined(parts)| <= 1025 * |parts|
    decreases |parts|
  {
    if parts != [] {
      JoinedLength(parts[1..]);
    }
  }

  /** Each entry of the dictionary is copied back from its offset. */
  lemma EntryAt(parts: seq<seq<byte>>, k: nat)
    requires k < |parts| <= 5
    requires forall i | 0 <= i < |parts| :: |parts[i]| < 1024 && 0 !in parts[i]
    ensures Offset(parts, k) < TWO_64
    ensures CopyString(Joined(parts), U64(Offset(parts, k))) == Ok(parts[k])
  {
    var data := Joined(parts);
    var off := Offset(parts, k);
    JoinedFrom(parts, k);
    JoinedLength(parts);
    assert off < TWO_64;
    assert U64(off) == off;
    var x := parts[k];
    assert |x| < 1024 && 0 !in x;
    BeforeOfConcat(x, 0, Joined(parts[k + 1..]));
    assert CString(data[off..]) == x;
  }

  lemma CStringOfPlain(s: seq<byte>)
    requires 0 !in s
    ensures CString(s) == s
  {
    assert IndexOf(s, 0).None?;
  }

  lemma EntriesOfRepresentable(f: Fields)
    requires Representable(f)
    ensures Entries(f) == [Ascii("adtn:"), f.destination, f.source, f.reportTo, f.custodian]
    ensures forall i | 0 <= i < 5 :: |Entries(f)[i]| < 1024 && 0 !in Entries(f)[i]
  {
    CStringOfPlain(f.destination);
    CStringOfPlain(f.source);
    CStringOfPlain(f.reportTo);
    CStringOfPlain(f.custodian);
    assert 0 !in Ascii("adtn:");
  }

  /** The k-th endpoint is copied back out of the dictionary getRaw writes. */
  lemma ReadEntry(f: Fields, k: nat)
    requires Representable(f) && 1 <= k <= 4
    ensures ReadEndpoint(Dictionary(f), 0, Offsets(f)[2 * k - 1]) == Ok(Entries(f)[k])
  {
    EntriesOfRepresentable(f);
    EndpointAt(Entries(f), k, Dictionary(f), Offsets(f)[2 * k - 1]);
  }

  /** An entry of a joined dictionary is read back from its offset, after the scheme at offset 0. */
  lemma EndpointAt(parts: seq<seq<byte>>, k: nat, data: seq<byte>, off: uint64)
    requires 1 <= k < |parts| <= 5
    requires forall i | 0 <= i < |parts| :: |parts[i]| < 1024 && 0 !in parts[i]
    requires data == Joined(parts) && off == U64(Offset(parts, k))
    ensures ReadEndpoint(data, 0, off) == Ok(parts[k])
  {
    EntryAt(parts, 0);
    EntryAt(parts, k);
  }

  /** The fourteen SDNVs getRaw writes after the version, in order. */
  function FieldValues(f: Fields): (vs: seq<uint64>)
    ensures |vs| == 14
  {
    Bits.Pow2Of21();
    var flags: uint64 := Bits.Value(f.procFlags);
    var length: uint64 := U64(|BlockBody(f)|);
    [flags, length] + TrailingValues(f)
  }

  /** After the version byte come the fourteen SDNVs and then the dictionary. */
  lemma ReadFields(f: Fields)
    ensures |Encode(f)| >= 1 && Encode(f)[0] == VERSION
    ensures Sdnv.ReadMany(Encode(f)[1..], 14) == Ok((FieldValues(f), Dictionary(f)))
  {
    Bits.Pow2Of21();
    FrameValues(Bits.Value(f.procFlags), TrailingValues(f), Dictionary(f), Encode(f), FieldValues(f));
    Sdnv.ReadManyConcat(FieldValues(f), Dictionary(f));
  }

  /** A frame is the version, then its values as SDNVs, then the bytes after the last value. */
  lemma FrameValues(flags: uint64, xs: seq<uint64>, dict: seq<byte>, raw: seq<byte>, vs: seq<uint64>)
    requires raw == Frame(flags, Sdnv.Concat(xs) + dict)
    requires vs == [flags, U64(|Sdnv.Concat(xs) + dict|)] + xs
    ensures |raw| >= 1 && raw[0] == VERSION && raw[1..] == Sdnv.Concat(vs) + dict
  {
    var ef := Sdnv.Encode(flags);
    var el := Sdnv.Encode(U64(|Sdnv.Concat(xs) + dict|));
    ConcatPair(flags, U64(|Sdnv.Concat(xs) + dict|), xs);
    FrameFront(flags, Sdnv.Concat(xs) + dict, raw);
    Assoc(ef, el + Sdnv.Concat(xs), dict);
    Assoc(el, Sdnv.Concat(xs), dict);
  }

  lemma ConcatPair(a: uint64, b: uint64, xs: seq<uint64>)
    ensures Sdnv.Concat([a, b] + xs) == Sdnv.Encode(a) + (Sdnv.Encode(b) + Sdnv.Concat(xs))
  {
    assert ([a, b] + xs)[1..] == [b] + xs;
    assert ([b] + xs)[1..] == xs;
  }

  /** The version, the flags and the block length, in front of the rest of the block. */
  lemma FrameFront(flags: uint64, body: seq<byte>, raw: seq<byte>)
    requires raw == Frame(flags, body)
    ensures |raw| >= 1 && raw[0] == VERSION
    ensures raw[1..] == Sdnv.Encode(flags) + (Sdnv.Encode(U64(|body|)) + body)
  {
    Assoc([VERSION] + Sdnv.Encode(flags), Sdnv.Encode(U64(|body|)), body);
  }

  /** The block-length SDNV counts exactly the bytes that follow it. */
  lemma BlockLengthCounts(f: Fields)
    requires |BlockBody(f)| < TWO_64
    ensures Sdnv.Read(Encode(f)[1..]).Ok?
    ensures var (flags, after) := Sdnv.Read(Encode(f)[1..]).value;
      flags == Bits.Value(f.procFlags) &&
      Sdnv.Read(after) == Ok((|BlockBody(f)|, BlockBody(f)))
  {
    var body := BlockBody(f);
    Bits.Pow2Of21();
    var v := Bits.Value(f.procFlags);
    FrameFront(v, body, Encode(f));
    Sdnv.DecodeEncode(v, Sdnv.Encode(|body|) + body);
    Sdnv.DecodeEncode(|body|, body);
  }

  /** The fields are assembled back from the values and dictionary getRaw writes. */
  lemma AssembleFields(f: Fields)
    requires Representable(f)
    ensures Assemble(FieldValues(f), Dictionary(f)) == Ok(f)
  {
    var vs := FieldValues(f);
    FieldValuesAt(f, vs);
    ReadEntry(f, 1);
    ReadEntry(f, 2);
    ReadEntry(f, 3);
    ReadEntry(f, 4);
    EntriesOfRepresentable(f);
    Bits.FromNatOfValue(f.procFlags);
  }

  /** Where each field sits among the fourteen values. */
  lemma FieldValuesAt(f: Fields, vs: seq<uint64>)
    requires vs == FieldValues(f)
    ensures vs[0] == Bits.Value(f.procFlags)
    ensures vs[2] == 0 && vs[4] == 0 && vs[6] == 0 && vs[8] == 0
    ensures vs[3] == Offsets(f)[1] && vs[5] == Offsets(f)[3] && vs[7] == Offsets(f)[5] && vs[9] == Offsets(f)[7]
    ensures vs[10] == f.creationTimestamp && vs[11] == f.creationTimestampSeqNumber && vs[12] == f.lifetime
  {
    var xs := TrailingValues(f);
    assert vs[2..10] == xs[..8];
  }

  /** What getRaw writes, the raw constructor reads back (the round trip of the node's primary block test). */
  lemma ParseEncode(f: Fields)
    requires Representable(f)
    ensures Parse(Encode(f)) == Ok(f)
  {
    ReadFields(f);
    AssembleFields(f);
  }
}
