/**
 * The canonical bundle block (section 4.5.2 of RFC 5050): a type byte, the processing flags as an
 * SDNV, optional EID references, the body length as an SDNV and the body. Every extension block of
 * the node starts from this parser.
 */
module Canonical {
  import opened Wire
  import Sdnv
  import Bits

  const PAYLOAD_BLOCK: uint8 := 1
  const METADATA_EXTENSION_BLOCK: uint8 := 8

  /** Block processing control flags, by bit position in the 7-bit field. */
  datatype BlockFlag =
    | ReplicateFragment
    | TransmitStatusReport
    | DeleteBundle
    | LastBlock
    | DiscardBlock
    | BlockNotProcessed
    | EidField
  {
    function Position(): (k: nat)
      ensures k < 7
      ensures k == EID_FIELD <==> this == EidField
    {
      match this
        case ReplicateFragment => 0
        case TransmitStatusReport => 1
        case DeleteBundle => 2
        case LastBlock => 3
        case DiscardBlock => 4
        case BlockNotProcessed => 5
        case EidField => 6
    }
  }

  const EID_FIELD: nat := 6

  /** The std::bitset<7> of the block flags. */
  type BlockFlags = b: seq<bool> | |b| == 7 witness seq(7, _ => false)

  const NO_FLAGS: BlockFlags := [false, false, false, false, false, false, false]

  datatype BlockError =
    | BadFormat   // BlockConstructionException
    | Diverges    // an SDNV with no last byte: the node's decode loop never returns
    | OutOfRange  // std::out_of_range escaping toRaw

  function FromRead(e: Sdnv.ReadError): (r: BlockError)
    ensures r != OutOfRange
  {
    match e
      case Exhausted => BadFormat
      case Unterminated => Diverges
  }

  /** What the canonical part of a block holds: type, flags, where the body starts in raw, the raw bytes. */
  datatype Header = Header(blockType: uint8, procFlags: BlockFlags, bodyDataIndex: nat, raw: seq<byte>)

  // ----- initFromRaw -----

  /**
   * Drop one SDNV field without decoding it (getLength then substr): on empty data the length is 1
   * and substr throws; with no last byte the scan never ends.
   */
  function Skip(data: seq<byte>): (r: Result<seq<byte>, BlockError>)
    ensures r.Err? ==> r.error != OutOfRange
  {
    if data == [] then Err(BadFormat) else SkipFrom(data)
  }

  /** The scan byte by byte: the field ends at the first byte with the high bit clear. */
  function SkipFrom(s: seq<byte>): (r: Result<seq<byte>, BlockError>)
    ensures r.Err? ==> r.error != OutOfRange
    decreases |s|
  {
    if s == [] then Err(Diverges)
    else if s[0] < 128 then Ok(s[1..])
    else SkipFrom(s[1..])
  }

  /** Drop n EID references, each a scheme offset and an SSP offset. */
  function SkipEids(data: seq<byte>, n: nat): (r: Result<seq<byte>, BlockError>)
    ensures r.Err? ==> r.error != OutOfRange
    decreases n
  {
    if n == 0 then Ok(data)
    else match Skip(data)
      case Err(e) => Err(e)
      case Ok(afterScheme) =>
        match Skip(afterScheme)
          case Err(e) => Err(e)
          case Ok(afterSsp) => SkipEids(afterSsp, n - 1)
  }

  /** One reference skipped: the scheme offset, then the SSP offset, then the others. */
  lemma SkipEidsStep(data: seq<byte>, n: nat)
    requires n > 0
    ensures Skip(data).Err? ==> SkipEids(data, n) == Err(Skip(data).error)
    ensures Skip(data).Ok? && Skip(Skip(data).value).Err? ==> SkipEids(data, n) == Err(Skip(Skip(data).value).error)
    ensures Skip(data).Ok? && Skip(Skip(data).value).Ok? ==> SkipEids(data, n) == SkipEids(Skip(Skip(data).value).value, n - 1)
  {
  }

  /** The EID count is decoded into an int; the loop runs that many times, so never for a negative count. */
  function EidCount(c: int32): (n: nat)
    ensures c >= 0 ==> n == c
  {
    if c < 0 then 0 else c
  }

  /** The data after the flags and, when the EID flag is set, after the count and the references. */
  function AfterEids(flags: BlockFlags, data: seq<byte>): (r: Result<seq<byte>, BlockError>)
    ensures r.Ok? ==> |r.value| <= |data|
    ensures r.Err? ==> r.error != OutOfRange
  {
    if !flags[EID_FIELD] then Ok(data)
    else match Sdnv.Read(data)
      case Err(e) => Err(FromRead(e))
      case Ok((count, rest)) =>
        SkipEidsShrinks(rest, EidCount(I32(count)));
        SkipEids(rest, EidCount(I32(count)))
  }

  /** Skipping fields only ever drops bytes from the front. */
  lemma {:induction false} SkipEidsShrinks(data: seq<byte>, n: nat)
    ensures SkipEids(data, n).Ok? ==> |SkipEids(data, n).value| <= |data|
    decreases n
  {
    if n > 0 && Skip(data).Ok? && Skip(Skip(data).value).Ok? {
      SkipShrinks(data);
      SkipShrinks(Skip(data).value);
      SkipEidsShrinks(Skip(Skip(data).value).value, n - 1);
    }
  }

  lemma SkipShrinks(data: seq<byte>)
    ensures Skip(data).Ok? ==> |Skip(data).value| < |data|
  {
    if data != [] {
      SkipFromShrinks(data);
    }
  }

  lemma {:induction false} SkipFromShrinks(s: seq<byte>)
    ensures SkipFrom(s).Ok? ==> |SkipFrom(s).value| < |s|
    decreases |s|
  {
    if s != [] && s[0] >= 128 {
      SkipFromShrinks(s[1..]);
    }
  }

  function Min(a: int, b: int): int { if a <= b then a else b }

  /**
   * initFromRaw. The body length is scanned and decoded but not cut off, so a missing length reads
   * as 0 of length 1; the block length is summed in a 64-bit size_t and raw keeps at most that many
   * bytes, so a body shorter than announced is accepted as it is.
   */
  function ReadHeader(raw: seq<byte>): (r: Result<Header, BlockError>)
    ensures |raw| <= 1 ==> r == Err(BadFormat)
    ensures r.Ok? ==> r.value.raw <= raw && r.value.blockType == raw[0]
    ensures r.Err? ==> r.error != OutOfRange
  {
    if raw == [] then Err(BadFormat)
    else match Sdnv.Read(raw[1..])
      case Err(e) => Err(FromRead(e))
      case Ok((v, afterFlags)) =>
        var flags := Bits.FromNat(v, 7);
        match AfterEids(flags, afterFlags)
          case Err(e) => Err(e)
          case Ok(data) => WithBodyLength(raw, flags, data)
  }

  /** The last step: data is what follows the EID part; its first SDNV is the body length. */
  function WithBodyLength(raw: seq<byte>, flags: BlockFlags, data: seq<byte>): (r: Result<Header, BlockError>)
    requires |raw| >= 1 && |data| < |raw|
    ensures r.Ok? ==> r.value.raw <= raw && r.value.blockType == raw[0]
    ensures r.Err? ==> r == Err(Diverges)
  {
    match Sdnv.ScanLength(data)
      case None => Err(Diverges)
      case Some(n) =>
        var bodyIndex := |raw| - |data| + n;
        var blockLength := U64(bodyIndex + Sdnv.Decode(data).value);
        Ok(Header(raw[0], flags, bodyIndex, raw[..Min(blockLength, |raw|)]))
  }

  /** The parser's steps: each field is scanned, counted into the block length and cut off. */
  method ParseHeader(raw: seq<byte>) returns (r: Result<Header, BlockError>)
    ensures r == ReadHeader(raw)
  {
    if raw == [] {
      return Err(BadFormat);
    }
    var flagsField := Sdnv.ReadValue(raw[1..]);
    if flagsField.Err? {
      return Err(FromRead(flagsField.error));
    }
    var flags := Bits.FromNat(flagsField.value.0, 7);
    var afterEids := SkipEidFields(flags, flagsField.value.1);
    if afterEids.Err? {
      return Err(afterEids.error);
    }
    r := FinishHeader(raw, flags, afterEids.value);
  }

  /** The body length: scanned and counted, then decoded and added to the block length. */
  method FinishHeader(raw: seq<byte>, flags: BlockFlags, data: seq<byte>) returns (r: Result<Header, BlockError>)
    requires |raw| >= 1 && |data| < |raw|
    ensures r == WithBodyLength(raw, flags, data)
  {
    var blockLength := |raw| - |data|;
    var dataSize := Sdnv.LengthOfEncoded(data);
    if dataSize.None? {
      return Err(Diverges);
    }
    blockLength := blockLength + dataSize.value;
    var bodyDataIndex := blockLength;
    var blockDataSize := Sdnv.DecodeValue(data);
    var total := U64(blockLength + blockDataSize.value);
    r := Ok(Header(raw[0], flags, bodyDataIndex, raw[..Min(total, |raw|)]));
  }

  /** With the EID flag set: read the count, then skip two SDNVs per reference. */
  method SkipEidFields(flags: BlockFlags, data: seq<byte>) returns (r: Result<seq<byte>, BlockError>)
    ensures r == AfterEids(flags, data)
  {
    if !flags[EID_FIELD] {
      return Ok(data);
    }
    var countField := Sdnv.ReadValue(data);
    if countField.Err? {
      return Err(FromRead(countField.error));
    }
    var numberOfEid := I32(countField.value.0);
    r := SkipReferences(countField.value.1, EidCount(numberOfEid));
  }

  /** The loop over the references: each one is a scheme offset and an SSP offset, scanned and cut off. */
  method SkipReferences(data: seq<byte>, count: nat) returns (r: Result<seq<byte>, BlockError>)
    ensures r == SkipEids(data, count)
  {
    var rest := data;
    var i := 0;
    while i < count
      invariant 0 <= i <= count
      invariant SkipEids(data, count) == SkipEids(rest, count - i)
    {
      SkipEidsStep(rest, count - i);
      var scheme := Skip(rest);
      if scheme.Err? {
        return Err(scheme.error);
      }
      var ssp := Skip(scheme.value);
      if ssp.Err? {
        return Err(ssp.error);
      }
      rest := ssp.value;
      i := i + 1;
    }
    return Ok(rest);
  }

  // ----- toRaw -----

  /**
   * toRaw: type, flags, the length of the body and the body, read from raw at the body index. EID
   * references are not written back, and the body index is left as it was.
   */
  function ToRaw(h: Header): (r: Result<Header, BlockError>)
    ensures r.Err? <==> h.bodyDataIndex > |h.raw|
    ensures r.Ok? ==> r.value == h.(raw := r.value.raw)
    ensures r.Ok? ==> |r.value.raw| > 0 && r.value.raw[0] == h.blockType
  {
    if h.bodyDataIndex > |h.raw| then Err(OutOfRange)
    else
      var data := h.raw[h.bodyDataIndex..];
      Ok(h.(raw := [h.blockType] + Sdnv.Encode(Bits.Value(h.procFlags)) + Sdnv.Encode(|data|) + data))
  }

  class CanonicalBlock {
    var blockType: uint8
    var bodyDataIndex: nat
    var procFlags: BlockFlags
    var raw: seq<byte>

    function State(): Header
      reads this
    {
      Header(blockType, procFlags, bodyDataIndex, raw)
    }

    /** CanonicalBlock(): type 0, no flags, no raw data. */
    constructor ()
      ensures State() == Header(0, NO_FLAGS, 0, [])
    {
      blockType := 0;
      bodyDataIndex := 0;
      procFlags := NO_FLAGS;
      raw := [];
    }

    /** initFromRaw: on success the block holds the parsed header; a failure leaves it to be discarded. */
    method InitFromRaw(rawData: seq<byte>) returns (r: Result<(), BlockError>)
      modifies this
      ensures r.Ok? <==> ReadHeader(rawData).Ok?
      ensures r.Err? ==> r.error == ReadHeader(rawData).error
      ensures r.Ok? ==> State() == ReadHeader(rawData).value
    {
      var h := ParseHeader(rawData);
      if h.Err? {
        return Err(h.error);
      }
      blockType := h.value.blockType;
      procFlags := h.value.procFlags;
      bodyDataIndex := h.value.bodyDataIndex;
      raw := h.value.raw;
      return Ok(());
    }

    /** CanonicalBlock(rawData). */
    static method FromRaw(rawData: seq<byte>) returns (r: Result<CanonicalBlock, BlockError>)
      ensures ReadHeader(rawData).Err? ==> r == Err(ReadHeader(rawData).error)
      ensures ReadHeader(rawData).Ok? ==> r.Ok? && fresh(r.value) && r.value.State() == ReadHeader(rawData).value
    {
      var b := new CanonicalBlock();
      var ok := b.InitFromRaw(rawData);
      if ok.Err? {
        return Err(ok.error);
      }
      return Ok(b);
    }

    method ToRawBytes() returns (r: Result<seq<byte>, BlockError>)
      modifies this
      ensures ToRaw(old(State())).Err? ==> r == Err(OutOfRange) && State() == old(State())
      ensures ToRaw(old(State())).Ok? ==> r == Ok(raw) && State() == ToRaw(old(State())).value
    {
      var h := ToRaw(State());
      if h.Err? {
        return Err(OutOfRange);
      }
      raw := h.value.raw;
      return Ok(raw);
    }

    method GetBlockType() returns (t: uint8)
      ensures t == blockType
    {
      return blockType;
    }

    method SetProcFlag(f: BlockFlag)
      modifies this
      ensures State() == old(State()).(procFlags := old(procFlags)[f.Position() := true])
    {
      procFlags := procFlags[f.Position() := true];
    }

    method UnsetProcFlag(f: BlockFlag)
      modifies this
      ensures State() == old(State()).(procFlags := old(procFlags)[f.Position() := false])
    {
      procFlags := procFlags[f.Position() := false];
    }

    method CheckProcFlag(f: BlockFlag) returns (active: bool)
      ensures active == procFlags[f.Position()]
    {
      return procFlags[f.Position()];
    }
  }

  // ----- What a well-formed block looks like -----

  /** The EID references: scheme and SSP offset of each, as SDNVs. */
  function EidRefs(eids: seq<(uint64, uint64)>): (r: seq<byte>)
    ensures eids == [] ==> r == []
  {
    if eids == [] then [] else Sdnv.Encode(eids[0].0) + Sdnv.Encode(eids[0].1) + EidRefs(eids[1..])
  }

  /** The EID part of a block: the count and the references when the flag is set, nothing otherwise. */
  function EidPart(flags: BlockFlags, eids: seq<(uint64, uint64)>): seq<byte>
  {
    if flags[EID_FIELD] then Sdnv.Encode(|eids|) + EidRefs(eids) else []
  }

  /** A canonical block as section 4.5.2 of RFC 5050 lays it out. */
  function Serialize(blockType: uint8, flags: BlockFlags, eids: seq<(uint64, uint64)>, body: seq<byte>): (r: seq<byte>)
    ensures |r| > |body| && r[0] == blockType && r[|r| - |body|..] == body
  {
    [blockType] + (Sdnv.Encode(Bits.Value(flags)) + (EidPart(flags, eids) + (Sdnv.Encode(|body|) + body)))
  }

  /** A block the parser can read back: references only with the EID flag, counts within range. */
  predicate WellFormed(blockType: uint8, flags: BlockFlags, eids: seq<(uint64, uint64)>, body: seq<byte>)
  {
    && (flags[EID_FIELD] || eids == [])
    && |eids| < 0x8000_0000
    && |Serialize(blockType, flags, eids, body)| < TWO_64
  }

  // ----- Properties -----

  lemma {:induction false} SkipEidRefs(eids: seq<(uint64, uint64)>, tail: seq<byte>)
    ensures SkipEids(EidRefs(eids) + tail, |eids|) == Ok(tail)
    decreases |eids|
  {
    if eids != [] {
      var afterSsp := EidRefs(eids[1..]) + tail;
      var afterScheme := Sdnv.Encode(eids[0].1) + afterSsp;
      assert EidRefs(eids) + tail == Sdnv.Encode(eids[0].0) + afterScheme;
      SkipEncode(eids[0].0, afterScheme);
      SkipEncode(eids[0].1, afterSsp);
      SkipEidRefs(eids[1..], tail);
    } else {
      assert EidRefs(eids) + tail == tail;
    }
  }

  /** The flags, count and references are cut off exactly, leaving the body length and what follows. */
  lemma AfterEidsOfSerialized(flags: BlockFlags, eids: seq<(uint64, uint64)>, tail: seq<byte>)
    requires flags[EID_FIELD] || eids == []
    requires |eids| < 0x8000_0000
    ensures AfterEids(flags, EidPart(flags, eids) + tail) == Ok(tail)
  {
    if flags[EID_FIELD] {
      var refs := EidRefs(eids) + tail;
      assert EidPart(flags, eids) + tail == Sdnv.Encode(|eids|) + refs;
      Sdnv.DecodeEncode(|eids|, refs);
      SkipEidRefs(eids, tail);
    } else {
      assert EidPart(flags, eids) + tail == tail;
    }
  }

  /** Where the body of a serialised block starts: after the type, the flags, the EID part and the length. */
  function BodyStart(flags: BlockFlags, eids: seq<(uint64, uint64)>, body: seq<byte>): nat
  {
    1 + |Sdnv.Encode(Bits.Value(flags))| + |EidPart(flags, eids)| + |Sdnv.Encode(|body|)|
  }

  lemma SkipEncode(v: uint64, rest: seq<byte>)
    ensures Skip(Sdnv.Encode(v) + rest) == Ok(rest)
  {
    var e := Sdnv.Encode(v);
    Sdnv.MarkedHigh(v / 128);
    SkipFromAt(e + rest, |e| - 1);
    assert (e + rest)[|e|..] == rest;
  }

  lemma {:induction false} SkipFromAt(s: seq<byte>, k: nat)
    requires k < |s| && s[k] < 128
    requires forall j | 0 <= j < k :: s[j] >= 128
    ensures SkipFrom(s) == Ok(s[k + 1..])
    decreases k
  {
    if k > 0 {
      SkipFromAt(s[1..], k - 1);
      assert s[1..][k..] == s[k + 1..];
    }
  }

  /** The pieces of a serialised block followed by more bytes, grouped as the parser meets them. */
  lemma Regroup(t: byte, a: seq<byte>, b: seq<byte>, c: seq<byte>, d: seq<byte>, rest: seq<byte>)
    ensures var raw := ([t] + (a + (b + (c + d)))) + rest;
      && |raw| >= 1
      && raw[1..] == a + (b + (c + (d + rest)))
      && raw == ([t] + (a + b)) + (c + (d + rest))
      && ([t] + (a + b)) + (c + d) == [t] + (a + (b + (c + d)))
  {
  }

  /** The body length is read after the header; raw keeps the header, the length and the body. */
  lemma BodyLengthRead(raw: seq<byte>, prefix: seq<byte>, flags: BlockFlags, body: seq<byte>, rest: seq<byte>,
                       blockType: uint8, start: nat, block: seq<byte>)
    requires raw == prefix + (Sdnv.Encode(|body|) + (body + rest))
    requires |prefix| >= 1 && prefix[0] == blockType
    requires block == prefix + (Sdnv.Encode(|body|) + body) && |block| < TWO_64
    requires start == |prefix| + |Sdnv.Encode(|body|)|
    ensures |Sdnv.Encode(|body|) + (body + rest)| < |raw|
    ensures WithBodyLength(raw, flags, Sdnv.Encode(|body|) + (body + rest)) == Ok(Header(blockType, flags, start, block))
  {
    var e := Sdnv.Encode(|body|);
    Sdnv.ScanEncode(|body|, body + rest);
    TakeThree(prefix, e, body, rest);
    assert U64(start + |body|) == start + |body|;
  }

  lemma TakeThree(a: seq<byte>, b: seq<byte>, c: seq<byte>, d: seq<byte>)
    ensures (a + (b + (c + d)))[..|a| + |b| + |c|] == a + (b + c)
  {
    assert (a + (b + (c + d))) == (a + (b + c)) + d;
  }

  /**
   * The parser reads back the type and flags, finds the body after the flags, the EID part and the
   * body length, and keeps in raw exactly the block, whatever follows it.
   */
  lemma ReadSerialized(blockType: uint8, flags: BlockFlags, eids: seq<(uint64, uint64)>, body: seq<byte>, rest: seq<byte>)
    requires WellFormed(blockType, flags, eids, body)
    ensures ReadHeader(Serialize(blockType, flags, eids, body) + rest)
      == Ok(Header(blockType, flags, BodyStart(flags, eids, body), Serialize(blockType, flags, eids, body)))
  {
    var ev := Sdnv.Encode(Bits.Value(flags));
    var part := EidPart(flags, eids);
    var e := Sdnv.Encode(|body|);
    Regroup(blockType, ev, part, e, body, rest);
    HeaderOfBlock(Serialize(blockType, flags, eids, body) + rest, [blockType] + (ev + part), flags, eids, body, rest,
      blockType, BodyStart(flags, eids, body), Serialize(blockType, flags, eids, body));
  }

  /** A header (type, flags, EID part) followed by the body length, the body and anything else. */
  lemma HeaderOfBlock(raw: seq<byte>, prefix: seq<byte>, flags: BlockFlags, eids: seq<(uint64, uint64)>, body: seq<byte>, rest: seq<byte>,
                      blockType: uint8, start: nat, block: seq<byte>)
    requires raw == prefix + (Sdnv.Encode(|body|) + (body + rest))
    requires |raw| >= 1 && |prefix| >= 1 && prefix[0] == blockType
    requires raw[1..] == Sdnv.Encode(Bits.Value(flags)) + (EidPart(flags, eids) + (Sdnv.Encode(|body|) + (body + rest)))
    requires flags[EID_FIELD] || eids == []
    requires |eids| < 0x8000_0000
    requires block == prefix + (Sdnv.Encode(|body|) + body) && |block| < TWO_64
    requires start == |prefix| + |Sdnv.Encode(|body|)|
    ensures ReadHeader(raw) == Ok(Header(blockType, flags, start, block))
  {
    var data := Sdnv.Encode(|body|) + (body + rest);
    BodyLengthRead(raw, prefix, flags, body, rest, blockType, start, block);
    FlagsAndEidsRead(raw, flags, eids, data);
  }

  /** Past the type byte, the flags and the EID part of a block are read and cut off exactly. */
  lemma FlagsAndEidsRead(raw: seq<byte>, flags: BlockFlags, eids: seq<(uint64, uint64)>, data: seq<byte>)
    requires |raw| >= 1 && raw[1..] == Sdnv.Encode(Bits.Value(flags)) + (EidPart(flags, eids) + data)
    requires flags[EID_FIELD] || eids == []
    requires |eids| < 0x8000_0000
    ensures |data| < |raw| && ReadHeader(raw) == WithBodyLength(raw, flags, data)
  {
    var afterFlags := EidPart(flags, eids) + data;
    Sdnv.DecodeEncode(Bits.Value(flags), afterFlags);
    AfterEidsOfSerialized(flags, eids, data);
    HeaderSteps(raw, flags, afterFlags, data);
  }

  /** The flags field and the EID part read as given leave the last step to the body length. */
  lemma HeaderSteps(raw: seq<byte>, flags: BlockFlags, afterFlags: seq<byte>, data: seq<byte>)
    requires |raw| >= 1
    requires Sdnv.Read(raw[1..]) == Ok((Bits.Value(flags), afterFlags))
    requires AfterEids(flags, afterFlags) == Ok(data)
    ensures |data| < |raw| && ReadHeader(raw) == WithBodyLength(raw, flags, data)
  {
    Bits.FromNatOfValue(flags);
  }

  /** The blocks of a bundle, one after the other. */
  datatype BlockSpec = BlockSpec(blockType: uint8, flags: BlockFlags, eids: seq<(uint64, uint64)>, body: seq<byte>)

  function Layout(bs: seq<BlockSpec>): seq<byte>
  {
    if bs == [] then [] else Serialize(bs[0].blockType, bs[0].flags, bs[0].eids, bs[0].body) + Layout(bs[1..])
  }

  /** Each block serialised on its own. */
  function Blocks(bs: seq<BlockSpec>): (r: seq<seq<byte>>)
    ensures |r| == |bs|
  {
    if bs == [] then []
    else [Serialize(bs[0].blockType, bs[0].flags, bs[0].eids, bs[0].body)] + Blocks(bs[1..])
  }

  /** n blocks cut off the front of raw one by one, each at the length its header gives. */
  function SplitBlocks(raw: seq<byte>, n: nat): (r: Result<seq<seq<byte>>, BlockError>)
    ensures r.Ok? ==> |r.value| == n
    decreases n
  {
    if n == 0 then Ok([])
    else match ReadHeader(raw)
      case Err(e) => Err(e)
      case Ok(h) =>
        match SplitBlocks(raw[|h.raw|..], n - 1)
          case Err(e) => Err(e)
          case Ok(blocks) => Ok([h.raw] + blocks)
  }

  /** Every block of the list is well formed. */
  predicate AllWellFormed(bs: seq<BlockSpec>)
  {
    bs == [] || (WellFormed(bs[0].blockType, bs[0].flags, bs[0].eids, bs[0].body) && AllWellFormed(bs[1..]))
  }

  /** Concatenated well-formed blocks are split back exactly into the blocks. */
  lemma SplitLayout(bs: seq<BlockSpec>)
    requires AllWellFormed(bs)
    ensures SplitBlocks(Layout(bs), |bs|) == Ok(Blocks(bs))
  {
    SplitLayoutAt(bs, Layout(bs), Blocks(bs));
  }

  lemma {:induction false} SplitLayoutAt(bs: seq<BlockSpec>, raw: seq<byte>, blocks: seq<seq<byte>>)
    requires AllWellFormed(bs) && raw == Layout(bs) && blocks == Blocks(bs)
    ensures SplitBlocks(raw, |bs|) == Ok(blocks)
    decreases |bs|
  {
    if bs != [] {
      var tail := Layout(bs[1..]);
      var rest := Blocks(bs[1..]);
      SplitLayoutAt(bs[1..], tail, rest);
      SplitFirst(bs[0], tail, |bs| - 1, rest);
    }
  }

  /** A well-formed block is read off the front, then the blocks after it as before. */
  lemma SplitFirst(b: BlockSpec, tail: seq<byte>, n: nat, blocks: seq<seq<byte>>)
    requires WellFormed(b.blockType, b.flags, b.eids, b.body)
    requires SplitBlocks(tail, n) == Ok(blocks)
    ensures var first := Serialize(b.blockType, b.flags, b.eids, b.body);
      SplitBlocks(first + tail, n + 1) == Ok([first] + blocks)
  {
    var first := Serialize(b.blockType, b.flags, b.eids, b.body);
    ReadSerialized(b.blockType, b.flags, b.eids, b.body, tail);
    SplitStep(first + tail, Header(b.blockType, b.flags, BodyStart(b.flags, b.eids, b.body), first), tail, n + 1, blocks);
  }

  /** One block read off the front, then the others. */
  lemma SplitStep(raw: seq<byte>, h: Header, tail: seq<byte>, n: nat, others: seq<seq<byte>>)
    requires n > 0 && raw == h.raw + tail
    requires ReadHeader(raw) == Ok(h)
    requires SplitBlocks(tail, n - 1) == Ok(others)
    ensures SplitBlocks(raw, n) == Ok([h.raw] + others)
  {
    assert raw[|h.raw|..] == tail;
  }

  /** A body shorter than its length field announces is kept as it is: no exception is raised. */
  lemma ShortBodyAccepted(blockType: uint8, body: seq<byte>, cut: nat)
    requires |body| < 0x1_0000 && cut < |body|
    ensures var start := BodyStart(NO_FLAGS, [], body);
      var short := Serialize(blockType, NO_FLAGS, [], body)[..start + cut];
      ReadHeader(short) == Ok(Header(blockType, NO_FLAGS, start, short))
  {
    var start := BodyStart(NO_FLAGS, [], body);
    ShortBodyAt(blockType, body, cut, start, Serialize(blockType, NO_FLAGS, [], body)[..start + cut]);
  }

  lemma ShortBodyAt(blockType: uint8, body: seq<byte>, cut: nat, start: nat, short: seq<byte>)
    requires |body| < 0x1_0000 && cut < |body|
    requires start == BodyStart(NO_FLAGS, [], body)
    requires short == Serialize(blockType, NO_FLAGS, [], body)[..start + cut]
    ensures ReadHeader(short) == Ok(Header(blockType, NO_FLAGS, start, short))
  {
    var ev := Sdnv.Encode(Bits.Value(NO_FLAGS));
    var data := Sdnv.Encode(|body|) + body[..cut];
    assert !NO_FLAGS[EID_FIELD];
    Sdnv.LengthAtMostTen(Bits.Value(NO_FLAGS));
    Sdnv.LengthAtMostTen(|body|);
    Truncated(blockType, NO_FLAGS, body, cut, ev, data, short);
    FlagsAndEidsRead(short, NO_FLAGS, [], data);
    ShortLengthRead(short, ev, NO_FLAGS, body, cut, blockType, start);
  }

  /** A serialised block without EID references, cut inside its body. */
  lemma Truncated(blockType: uint8, flags: BlockFlags, body: seq<byte>, cut: nat,
                  ev: seq<byte>, data: seq<byte>, short: seq<byte>)
    requires !flags[EID_FIELD] && cut <= |body|
    requires ev == Sdnv.Encode(Bits.Value(flags)) && data == Sdnv.Encode(|body|) + body[..cut]
    requires short == Serialize(blockType, flags, [], body)[..BodyStart(flags, [], body) + cut]
    ensures short == ([blockType] + ev) + data
    ensures short[1..] == ev + (EidPart(flags, []) + data)
  {
    var e := Sdnv.Encode(|body|);
    assert EidPart(flags, []) == [];
    assert Serialize(blockType, flags, [], body) == ([blockType] + (ev + (e + body[..cut]))) + body[cut..];
  }

  /** The body length of a block cut short is read in full; raw keeps all that is there. */
  lemma ShortLengthRead(raw: seq<byte>, ev: seq<byte>, flags: BlockFlags, body: seq<byte>, cut: nat,
                        blockType: uint8, start: nat)
    requires cut <= |body| && raw == ([blockType] + ev) + (Sdnv.Encode(|body|) + body[..cut])
    requires start == 1 + |ev| + |Sdnv.Encode(|body|)| && start + |body| < TWO_64
    ensures |Sdnv.Encode(|body|) + body[..cut]| < |raw|
    ensures WithBodyLength(raw, flags, Sdnv.Encode(|body|) + body[..cut]) == Ok(Header(blockType, flags, start, raw))
  {
    Sdnv.ScanEncode(|body|, body[..cut]);
    assert raw[..|raw|] == raw;
  }

  /** toRaw writes back exactly the block the parser read, when it carried no EID references. */
  lemma ToRawOfRead(blockType: uint8, flags: BlockFlags, body: seq<byte>, rest: seq<byte>)
    requires !flags[EID_FIELD] && WellFormed(blockType, flags, [], body)
    ensures var block := Serialize(blockType, flags, [], body);
      var h := Header(blockType, flags, BodyStart(flags, [], body), block);
      ReadHeader(block + rest) == Ok(h) && ToRaw(h) == Ok(h)
  {
    ReadSerialized(blockType, flags, [], body, rest);
    ToRawOfSerialized(blockType, flags, body);
  }

  lemma ToRawOfSerialized(blockType: uint8, flags: BlockFlags, body: seq<byte>)
    requires !flags[EID_FIELD]
    ensures var block := Serialize(blockType, flags, [], body);
      var h := Header(blockType, flags, BodyStart(flags, [], body), block);
      ToRaw(h) == Ok(h)
  {
    var ev := Sdnv.Encode(Bits.Value(flags));
    var e := Sdnv.Encode(|body|);
    var block := Serialize(blockType, flags, [], body);
    assert EidPart(flags, []) == [];
    assert block == ([blockType] + ev + e) + body;
    assert block[BodyStart(flags, [], body)..] == body;
  }

  /** Without EID references the layout is type, flags, body length and body, one after the other. */
  lemma SerializeNoEids(blockType: uint8, flags: BlockFlags, body: seq<byte>)
    requires !flags[EID_FIELD]
    ensures Serialize(blockType, flags, [], body)
      == [blockType as byte] + Sdnv.Encode(Bits.Value(flags)) + Sdnv.Encode(|body|) + body
  {
    assert EidPart(flags, []) == [];
    Flatten([blockType as byte], Sdnv.Encode(Bits.Value(flags)), Sdnv.Encode(|body|), body);
  }

  lemma Flatten(a: seq<byte>, b: seq<byte>, c: seq<byte>, d: seq<byte>)
    ensures a + (b + ([] + (c + d))) == a + b + c + d
  {
  }

  /** The body of a serialised block is what follows its body index. */
  lemma BodyOfSerialized(blockType: uint8, flags: BlockFlags, eids: seq<(uint64, uint64)>, body: seq<byte>)
    ensures BodyStart(flags, eids, body) <= |Serialize(blockType, flags, eids, body)|
    ensures Serialize(blockType, flags, eids, body)[BodyStart(flags, eids, body)..] == body
  {
    var ev := Sdnv.Encode(Bits.Value(flags));
    var part := EidPart(flags, eids);
    var e := Sdnv.Encode(|body|);
    Unnest([blockType], ev, part, e, body);
    DropFront([blockType] + (ev + (part + e)), body);
  }

  /** After toRaw the parser reads the same type, flags and body back, provided no EID flag is set. */
  lemma ReadToRaw(h: Header)
    requires ToRaw(h).Ok? && !h.procFlags[EID_FIELD]
    requires |ToRaw(h).value.raw| < TWO_64
    ensures var out := ToRaw(h).value.raw;
      var back := ReadHeader(out);
      back.Ok? && back.value.blockType == h.blockType && back.value.procFlags == h.procFlags &&
      back.value.raw == out && out[back.value.bodyDataIndex..] == h.raw[h.bodyDataIndex..]
  {
    var body := h.raw[h.bodyDataIndex..];
    var out := ToRaw(h).value.raw;
    assert EidPart(h.procFlags, []) == [];
    assert out == Serialize(h.blockType, h.procFlags, [], body);
    ReadSerialized(h.blockType, h.procFlags, [], body, []);
    assert out + [] == out;
  }

  /** Setting a flag makes it test true, unsetting makes it test false, and no other flag moves. */
  lemma FlagUpdates(flags: BlockFlags, f: BlockFlag, g: BlockFlag)
    requires f != g
    ensures flags[f.Position() := true][f.Position()]
    ensures !flags[f.Position() := false][f.Position()]
    ensures flags[f.Position() := true][g.Position()] == flags[g.Position()]
    ensures flags[f.Position() := false][g.Position()] == flags[g.Position()]
  {
  }
}
