/**
 * The payload block: a canonical block (section 4.5.2 of RFC 5050) of type 1 whose body is the
 * bundle's payload.
 */
module Payload {
  import opened Wire
  import Bits
  import Sdnv
  import Canonical

  /** The canonical part of the block and the payload it carries. */
  datatype PayloadState = PayloadState(header: Canonical.Header, payload: seq<byte>)

  /**
   * PayloadBlock(raw, true): the canonical header, then the payload from the body index on. A body
   * index past the kept bytes makes substr throw, which the constructor turns into a
   * BlockConstructionException like every other failure.
   */
  function ReadPayload(raw: seq<byte>): (r: Result<PayloadState, Canonical.BlockError>)
    ensures r.Err? ==> r.error != Canonical.OutOfRange
    ensures r.Ok? ==> Canonical.ReadHeader(raw) == Ok(r.value.header)
    ensures r.Ok? ==> (r.value.header.bodyDataIndex <= |r.value.header.raw|
      && r.value.header.raw == r.value.header.raw[..r.value.header.bodyDataIndex] + r.value.payload)
  {
    match Canonical.ReadHeader(raw)
      case Err(e) => Err(e)
      case Ok(h) =>
        if h.bodyDataIndex > |h.raw| then Err(Canonical.BadFormat)
        else Ok(PayloadState(h, h.raw[h.bodyDataIndex..]))
  }

  /** toRaw: type, flags, the payload's length and the payload. Only raw changes. */
  function ToRaw(s: PayloadState): (r: PayloadState)
    ensures r.payload == s.payload && r.header == s.header.(raw := r.header.raw)
    ensures |r.header.raw| > |s.payload| && r.header.raw[0] == s.header.blockType
  {
    var h := s.header;
    s.(header := h.(raw := [h.blockType] + Sdnv.Encode(Bits.Value(h.procFlags)) + Sdnv.Encode(|s.payload|) + s.payload))
  }

  class PayloadBlock {
    var blockType: uint8
    var bodyDataIndex: nat
    var procFlags: Canonical.BlockFlags
    var raw: seq<byte>
    var payload: seq<byte>

    function State(): PayloadState
      reads this
    {
      PayloadState(Canonical.Header(blockType, procFlags, bodyDataIndex, raw), payload)
    }

    /** PayloadBlock(payload, false): a payload block with no flags whose raw form is not built yet. */
    constructor (payload: seq<byte>)
      ensures State() == PayloadState(Canonical.Header(Canonical.PAYLOAD_BLOCK, Canonical.NO_FLAGS, 0, []), payload)
    {
      blockType := Canonical.PAYLOAD_BLOCK;
      bodyDataIndex := 0;
      procFlags := Canonical.NO_FLAGS;
      raw := [];
      this.payload := payload;
    }

    constructor FromState(s: PayloadState)
      ensures State() == s
    {
      blockType := s.header.blockType;
      bodyDataIndex := s.header.bodyDataIndex;
      procFlags := s.header.procFlags;
      raw := s.header.raw;
      payload := s.payload;
    }

    /** PayloadBlock(raw, true): initFromRaw, then the payload is cut out of the kept bytes. */
    static method FromRaw(rawData: seq<byte>) returns (r: Result<PayloadBlock, Canonical.BlockError>)
      ensures ReadPayload(rawData).Err? ==> r == Err(ReadPayload(rawData).error)
      ensures ReadPayload(rawData).Ok? ==> r.Ok? && fresh(r.value) && r.value.State() == ReadPayload(rawData).value
    {
      var h := Canonical.ParseHeader(rawData);
      if h.Err? {
        return Err(h.error);
      }
      if h.value.bodyDataIndex > |h.value.raw| {
        return Err(Canonical.BadFormat);
      }
      var b := new PayloadBlock.FromState(PayloadState(h.value, h.value.raw[h.value.bodyDataIndex..]));
      return Ok(b);
    }

    method ToRawBytes() returns (r: seq<byte>)
      modifies this
      ensures State() == ToRaw(old(State())) && r == raw
    {
      var t: byte := blockType;
      raw := [t] + Sdnv.Encode(Bits.Value(procFlags)) + Sdnv.Encode(|payload|) + payload;
      return raw;
    }

    method GetPayload() returns (p: seq<byte>)
      ensures p == payload
    {
      return payload;
    }
  }

  // ----- Properties -----

  /** Without the EID flag, toRaw lays the block out as section 4.5.2 of RFC 5050 does. */
  lemma ToRawIsSerialized(s: PayloadState)
    requires !s.header.procFlags[Canonical.EID_FIELD]
    ensures ToRaw(s).header.raw == Canonical.Serialize(s.header.blockType, s.header.procFlags, [], s.payload)
  {
    Canonical.SerializeNoEids(s.header.blockType, s.header.procFlags, s.payload);
  }

  /** The raw constructor takes back the body of a block, whatever blocks follow it. */
  lemma ReadSerializedPayload(blockType: uint8, flags: Canonical.BlockFlags, eids: seq<(uint64, uint64)>,
                              body: seq<byte>, rest: seq<byte>)
    requires Canonical.WellFormed(blockType, flags, eids, body)
    ensures var block := Canonical.Serialize(blockType, flags, eids, body);
      ReadPayload(block + rest)
        == Ok(PayloadState(Canonical.Header(blockType, flags, Canonical.BodyStart(flags, eids, body), block), body))
  {
    Canonical.ReadSerialized(blockType, flags, eids, body, rest);
    Canonical.BodyOfSerialized(blockType, flags, eids, body);
  }

  /** What toRaw writes, the raw constructor reads back: type, flags and payload. */
  lemma ReadToRaw(s: PayloadState)
    requires !s.header.procFlags[Canonical.EID_FIELD]
    requires Canonical.WellFormed(s.header.blockType, s.header.procFlags, [], s.payload)
    ensures var out := ToRaw(s).header.raw;
      ReadPayload(out) == Ok(PayloadState(
        Canonical.Header(s.header.blockType, s.header.procFlags, Canonical.BodyStart(s.header.procFlags, [], s.payload), out),
        s.payload))
  {
    var out := ToRaw(s).header.raw;
    ToRawIsSerialized(s);
    ReadSerializedPayload(s.header.blockType, s.header.procFlags, [], s.payload, []);
    assert out + [] == out;
  }

  /** Input too short for a header is refused. */
  lemma ShortInputRefused(raw: seq<byte>)
    requires |raw| <= 1
    ensures ReadPayload(raw) == Err(Canonical.BadFormat)
  {
  }
}
