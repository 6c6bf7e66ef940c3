/**
 * The metadata extension block of RFC 6258: a canonical block of type 8 whose body is a metadata
 * type SDNV followed by the metadata itself.
 */
module MetadataBlock {
  import opened Wire
  import Bits
  import Sdnv
  import Canonical

  // Metadata types. Only ROUTING_SELECTION_MEB = 0x02 is fixed by the node's own code; the others
  // are distinct values of this model.
  const ROUTING_SELECTION_MEB: uint8 := 0x02
  const ROUTE_REPORTING_MEB: uint8 := 0x04
  const SPRAY_AND_WAIT_MEB: uint8 := 0x09
  const CONTROL_METRICS_MEB: uint8 := 0x0A
  const CONTROL_DIRECTIVE_MEB: uint8 := 0x0B

  /** The canonical part of the block, the metadata type and the metadata. */
  datatype Meb = Meb(header: Canonical.Header, metadataType: uint8, metadata: seq<byte>)

  /** The body of section 2 of RFC 6258: the metadata type as an SDNV, then the metadata. */
  function Body(metadataType: uint8, metadata: seq<byte>): (r: seq<byte>)
    ensures |r| > |metadata| && r[|r| - |metadata|..] == metadata
  {
    Sdnv.Encode(metadataType) + metadata
  }

  /**
   * MetadataExtensionBlock(raw): the canonical header, then the body from the body index; its first
   * SDNV, cut to uint8, is the metadata type and the rest is the metadata. An empty body (getLength
   * says 1, substr throws) and a body index past the kept bytes are a BlockConstructionException.
   */
  function ReadMeb(raw: seq<byte>): (r: Result<Meb, Canonical.BlockError>)
    ensures r.Err? ==> r.error != Canonical.OutOfRange
    ensures r.Ok? ==> Canonical.ReadHeader(raw) == Ok(r.value.header)
  {
    match Canonical.ReadHeader(raw)
      case Err(e) => Err(e)
      case Ok(h) =>
        if h.bodyDataIndex > |h.raw| then Err(Canonical.BadFormat)
        else match Sdnv.Read(h.raw[h.bodyDataIndex..])
          case Err(e) => Err(Canonical.FromRead(e))
          case Ok((t, rest)) => Ok(Meb(h, U8(t), rest))
  }

  /**
   * MetadataExtensionBlock(type, metadata) as written: the canonical default constructor leaves the
   * block type 0, no flags, body index 0 and no raw bytes.
   */
  function MakeAsWritten(metadataType: uint8, metadata: seq<byte>): (r: Meb)
    ensures r.header.blockType == 0 && r.header.blockType != Canonical.METADATA_EXTENSION_BLOCK
    ensures r.metadataType == metadataType && r.metadata == metadata
  {
    Meb(Canonical.Header(0, Canonical.NO_FLAGS, 0, []), metadataType, metadata)
  }

  /** The constructor as the node evidently intends it: a block of type METADATA_EXTENSION_BLOCK. */
  function Make(metadataType: uint8, metadata: seq<byte>): (r: Meb)
    ensures r.header.blockType == Canonical.METADATA_EXTENSION_BLOCK
    ensures r.header.procFlags == Canonical.NO_FLAGS && r.header.raw == []
    ensures r.metadataType == metadataType && r.metadata == metadata
  {
    Meb(Canonical.Header(Canonical.METADATA_EXTENSION_BLOCK, Canonical.NO_FLAGS, 0, []), metadataType, metadata)
  }

  /** toRaw as written: type, flags, metadata type and metadata, with no body length. */
  function ToRawAsWritten(m: Meb): (r: seq<byte>)
    ensures |r| >= 3 + |m.metadata| && r[0] == m.header.blockType
  {
    [m.header.blockType as byte] + Sdnv.Encode(Bits.Value(m.header.procFlags)) + Sdnv.Encode(m.metadataType) + m.metadata
  }

  /** toRaw with the body length section 4.5.2 of RFC 5050 requires; only raw changes. */
  function ToRaw(m: Meb): (r: Meb)
    ensures r.metadataType == m.metadataType && r.metadata == m.metadata
    ensures r.header == m.header.(raw := r.header.raw)
    ensures |r.header.raw| > |m.metadata| + 2 && r.header.raw[0] == m.header.blockType
  {
    var body := Body(m.metadataType, m.metadata);
    m.(header := m.header.(raw := [m.header.blockType as byte] + Sdnv.Encode(Bits.Value(m.header.procFlags)) + Sdnv.Encode(|body|) + body))
  }

  class MetadataExtensionBlock {
    var header: Canonical.Header
    var metadataType: uint8
    var metadata: seq<byte>

    function State(): Meb
      reads this
    {
      Meb(header, metadataType, metadata)
    }

    /** MetadataExtensionBlock(type, metadata), with the block type set. */
    constructor (metadataType: uint8, metadata: seq<byte>)
      ensures State() == Make(metadataType, metadata)
    {
      header := Canonical.Header(Canonical.METADATA_EXTENSION_BLOCK, Canonical.NO_FLAGS, 0, []);
      this.metadataType := metadataType;
      this.metadata := metadata;
    }

    constructor FromState(m: Meb)
      ensures State() == m
    {
      header := m.header;
      metadataType := m.metadataType;
      metadata := m.metadata;
    }

    /** MetadataExtensionBlock(raw): the body is cut into the type SDNV and the metadata. */
    static method FromRaw(raw: seq<byte>) returns (r: Result<MetadataExtensionBlock, Canonical.BlockError>)
      ensures ReadMeb(raw).Err? ==> r == Err(ReadMeb(raw).error)
      ensures ReadMeb(raw).Ok? ==> r.Ok? && fresh(r.value) && r.value.State() == ReadMeb(raw).value
    {
      var h := Canonical.ParseHeader(raw);
      if h.Err? {
        return Err(h.error);
      }
      if h.value.bodyDataIndex > |h.value.raw| {
        return Err(Canonical.BadFormat);
      }
      var data := h.value.raw[h.value.bodyDataIndex..];
      var field := Sdnv.ReadValue(data);
      if field.Err? {
        return Err(Canonical.FromRead(field.error));
      }
      var b := new MetadataExtensionBlock.FromState(Meb(h.value, U8(field.value.0), field.value.1));
      return Ok(b);
    }

    method ToRawBytes() returns (r: seq<byte>)
      modifies this
      ensures State() == ToRaw(old(State())) && r == header.raw
    {
      var t: byte := header.blockType;
      var body := Sdnv.Encode(metadataType) + metadata;
      header := header.(raw := [t] + Sdnv.Encode(Bits.Value(header.procFlags)) + Sdnv.Encode(|body|) + body);
      return header.raw;
    }

    method GetMetadataType() returns (t: uint8)
      ensures t == metadataType
    {
      return metadataType;
    }

    method GetMetadata() returns (m: seq<byte>)
      ensures m == metadata
    {
      return metadata;
    }
  }

  // ----- Properties -----

  /** Reading a block whose kept bytes hold a type SDNV and metadata from the body index on. */
  lemma ReadMebAt(raw: seq<byte>, h: Canonical.Header, metadataType: uint8, metadata: seq<byte>)
    requires Canonical.ReadHeader(raw) == Ok(h)
    requires h.bodyDataIndex <= |h.raw| && h.raw[h.bodyDataIndex..] == Body(metadataType, metadata)
    ensures ReadMeb(raw) == Ok(Meb(h, metadataType, metadata))
  {
    Sdnv.DecodeEncode(metadataType, metadata);
  }

  /** A metadata extension block laid out as RFC 6258 says is read back, whatever follows it. */
  lemma ReadSerializedMeb(blockType: uint8, flags: Canonical.BlockFlags, eids: seq<(uint64, uint64)>,
                          metadataType: uint8, metadata: seq<byte>, rest: seq<byte>)
    requires Canonical.WellFormed(blockType, flags, eids, Body(metadataType, metadata))
    ensures var body := Body(metadataType, metadata);
      var block := Canonical.Serialize(blockType, flags, eids, body);
      ReadMeb(block + rest)
        == Ok(Meb(Canonical.Header(blockType, flags, Canonical.BodyStart(flags, eids, body), block), metadataType, metadata))
  {
    var body := Body(metadataType, metadata);
    var block := Canonical.Serialize(blockType, flags, eids, body);
    Canonical.ReadSerialized(blockType, flags, eids, body, rest);
    Canonical.BodyOfSerialized(blockType, flags, eids, body);
    ReadMebAt(block + rest, Canonical.Header(blockType, flags, Canonical.BodyStart(flags, eids, body), block),
              metadataType, metadata);
  }

  /** Without the EID flag the corrected toRaw is the RFC layout. */
  lemma ToRawIsSerialized(m: Meb)
    requires !m.header.procFlags[Canonical.EID_FIELD]
    ensures ToRaw(m).header.raw
      == Canonical.Serialize(m.header.blockType, m.header.procFlags, [], Body(m.metadataType, m.metadata))
  {
    Canonical.SerializeNoEids(m.header.blockType, m.header.procFlags, Body(m.metadataType, m.metadata));
  }

  /** The corrected toRaw round-trips: block type, flags, metadata type and metadata come back. */
  lemma ReadToRaw(m: Meb)
    requires !m.header.procFlags[Canonical.EID_FIELD]
    requires Canonical.WellFormed(m.header.blockType, m.header.procFlags, [], Body(m.metadataType, m.metadata))
    ensures var out := ToRaw(m).header.raw;
      var start := Canonical.BodyStart(m.header.procFlags, [], Body(m.metadataType, m.metadata));
      ReadMeb(out) == Ok(Meb(Canonical.Header(m.header.blockType, m.header.procFlags, start, out), m.metadataType, m.metadata))
  {
    var out := ToRaw(m).header.raw;
    ToRawIsSerialized(m);
    ReadSerializedMeb(m.header.blockType, m.header.procFlags, [], m.metadataType, m.metadata, []);
    assert out + [] == out;
  }

  /**
   * Any block without EID references and with less than 64 KiB of metadata comes back from its
   * corrected raw form with the same block type, flags, metadata type and metadata.
   */
  lemma ReadBack(m: Meb)
    requires !m.header.procFlags[Canonical.EID_FIELD] && |m.metadata| < 0x1_0000
    ensures var r := ReadMeb(ToRaw(m).header.raw);
      && r.Ok?
      && r.value.header.blockType == m.header.blockType && r.value.header.procFlags == m.header.procFlags
      && r.value.metadataType == m.metadataType && r.value.metadata == m.metadata
  {
    var body := Body(m.metadataType, m.metadata);
    Sdnv.LengthAtMostTen(m.metadataType);
    Sdnv.LengthAtMostTen(|body|);
    Sdnv.LengthAtMostTen(Bits.Value(m.header.procFlags));
    ReadToRaw(m);
  }

  /** A block read back from toRaw writes the same bytes again. */
  lemma ReserializeStable(m: Meb)
    requires !m.header.procFlags[Canonical.EID_FIELD] && |m.metadata| < 0x1_0000
    ensures ReadMeb(ToRaw(m).header.raw).Ok?
    ensures ToRaw(ReadMeb(ToRaw(m).header.raw).value).header.raw == ToRaw(m).header.raw
  {
    ReadBack(m);
  }

  /** A block built by the corrected constructor comes back with type 8 and its metadata. */
  lemma ReadMade(metadataType: uint8, metadata: seq<byte>)
    requires |metadata| < 0x1_0000
    ensures var out := ToRaw(Make(metadataType, metadata)).header.raw;
      ReadMeb(out).Ok? && ReadMeb(out).value.header.blockType == Canonical.METADATA_EXTENSION_BLOCK
      && ReadMeb(out).value.metadataType == metadataType && ReadMeb(out).value.metadata == metadata
  {
    ReadBack(Make(metadataType, metadata));
  }

  /** The bytes 0, 0, 2, '1'. */
  predicate AsWrittenBytes(raw: seq<byte>)
  {
    |raw| == 4 && raw[0] == 0 && raw[1] == 0 && raw[2] == 2 && raw[3] == 49
  }

  /** Its flags field: a zero SDNV, so no flag is set. */
  lemma AsWrittenFlags(raw: seq<byte>)
    requires AsWrittenBytes(raw)
    ensures Sdnv.Read(raw[1..]) == Ok((0, raw[2..]))
  {
    assert Sdnv.Encode(0) == [0];
    assert raw[1..] == Sdnv.Encode(0) + raw[2..];
    Sdnv.DecodeEncode(0, raw[2..]);
  }

  /** Its body length field: 2, so the block would end one byte past the bytes given. */
  lemma AsWrittenBodyLength(raw: seq<byte>)
    requires AsWrittenBytes(raw)
    ensures Canonical.WithBodyLength(raw, Canonical.NO_FLAGS, raw[2..]) == Ok(Canonical.Header(0, Canonical.NO_FLAGS, 3, raw))
  {
    assert Sdnv.Encode(2) == [2];
    assert raw[2..] == Sdnv.Encode(2) + raw[3..];
    Sdnv.ScanEncode(2, raw[3..]);
    assert Sdnv.Length(2) == 1;
    assert Canonical.Min(U64(3 + 2), 4) == 4 && raw[..4] == raw;
  }

  /** Flags read as 0: none set. */
  lemma ZeroFlags()
    ensures Bits.FromNat(0, 7) == Canonical.NO_FLAGS
  {
  }

  /** The canonical reader on the bytes the as-written toRaw gives a routing selection "1". */
  lemma AsWrittenHeader(raw: seq<byte>)
    requires AsWrittenBytes(raw)
    ensures Canonical.ReadHeader(raw) == Ok(Canonical.Header(0, Canonical.NO_FLAGS, 3, raw))
  {
    AsWrittenFlags(raw);
    ZeroFlags();
    assert Canonical.AfterEids(Canonical.NO_FLAGS, raw[2..]) == Ok(raw[2..]);
    AsWrittenBodyLength(raw);
  }

  /**
   * As written, the metadata extension block test's round trip cannot hold: the block of a routing
   * selection "1" is 0, 0, 2, '1'; the reader takes 2 for the body length, the byte '1' for the
   * metadata type and finds no metadata.
   */
  lemma AsWrittenRoundTripFails()
    ensures var m := MakeAsWritten(ROUTING_SELECTION_MEB, [49]);
      ToRawAsWritten(m) == [0, 0, 2, 49]
      && ReadMeb(ToRawAsWritten(m)) == Ok(Meb(Canonical.Header(0, Canonical.NO_FLAGS, 3, [0, 0, 2, 49]), 49, []))
  {
    var m := MakeAsWritten(ROUTING_SELECTION_MEB, [49]);
    assert Bits.Value(Canonical.NO_FLAGS) == 0;
    assert Sdnv.Encode(0) == [0];
    assert Sdnv.Encode(2) == [2];
    var raw: seq<byte> := [0, 0, 2, 49];
    assert ToRawAsWritten(m) == raw;
    AsWrittenHeader(raw);
    assert Sdnv.Encode(49) == [49];
    ReadMebAt(raw, Canonical.Header(0, Canonical.NO_FLAGS, 3, raw), 49, []);
  }
}
