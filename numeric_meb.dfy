/**
 * The numeric metadata blocks (spray-and-wait parameters, control metrics): a metadata extension
 * block whose metadata is a field count followed by (code, value) pairs, all SDNVs.
 */
module NumericMeb {
  import opened Wire
  import Bits
  import Sdnv
  import Canonical
  import MetadataBlock

  /** std::map<T, value_t>: codes are one-byte enumerations, values int64. */
  type Fields = map<uint8, int64>

  /** A stored field: its code and its value. */
  type Field = (uint8, int64)

  /** The value a field holds once reset. */
  const UNSET: int64 := -1

  // ----- The map in std::map iteration order -----

  /** The fields whose code is below k, in ascending code order. */
  function EntriesBelow(fields: Fields, k: nat): (r: seq<Field>)
    requires k <= 256
    ensures |r| <= k
    decreases k
  {
    if k == 0 then []
    else
      var code: uint8 := k - 1;
      EntriesBelow(fields, k - 1) + (if code in fields then [(code, fields[code])] else [])
  }

  /** Every field, in ascending code order. */
  function Entries(fields: Fields): seq<Field>
  {
    EntriesBelow(fields, 256)
  }

  /** The codes below k that hold a field. */
  function KeysBelow(fields: Fields, k: nat): set<uint8>
  {
    set code | code in fields && code < k
  }

  // ----- Wire form of the metadata -----

  /** addField: the code as an SDNV, then the value as an unsigned 64-bit SDNV. */
  function Pair(f: Field): (r: seq<byte>)
    ensures |r| <= 20
  {
    Sdnv.LengthAtMostTen(f.0);
    Sdnv.LengthAtMostTen(U64(f.1));
    Sdnv.Encode(f.0) + Sdnv.Encode(U64(f.1))
  }

  function Pairs(fs: seq<Field>): seq<byte>
  {
    if fs == [] then [] else Pair(fs[0]) + Pairs(fs[1..])
  }

  /** The metadata toRaw writes: the field count, then every field in ascending code order. */
  function Metadata(nrofFields: uint8, fields: Fields): seq<byte>
  {
    Sdnv.Encode(nrofFields) + Pairs(Entries(fields))
  }

  // ----- Reading the metadata back -----

  /** resetFields: every key kept, every value -1. */
  function Reset(fields: Fields): (r: Fields)
    ensures r.Keys == fields.Keys
    ensures forall code | code in r :: r[code] == UNSET
  {
    map code | code in fields :: UNSET
  }

  /** The parse loop: n pairs, each code cut to uint8 and each value cast to int64, stored in turn. */
  function ReadPairs(data: seq<byte>, n: nat, fields: Fields): (r: Result<Fields, Canonical.BlockError>)
    ensures r.Err? ==> r.error != Canonical.OutOfRange
    decreases n
  {
    if n == 0 then Ok(fields)
    else match Sdnv.Read(data)
      case Err(e) => Err(Canonical.FromRead(e))
      case Ok((code, afterCode)) =>
        match Sdnv.Read(afterCode)
          case Err(e) => Err(Canonical.FromRead(e))
          case Ok((value, rest)) => ReadPairs(rest, n - 1, fields[U8(code) := I64(value)])
  }

  /**
   * initFromRaw on the metadata: reset the fields, read the count (cut to uint8), then that many
   * pairs. Bytes after the last pair are ignored. Running out of bytes is a
   * BlockConstructionException.
   */
  function ParseMetadata(metadata: seq<byte>, fields: Fields): (r: Result<(uint8, Fields), Canonical.BlockError>)
    ensures r.Err? ==> r.error != Canonical.OutOfRange
    ensures metadata == [] ==> r == Err(Canonical.BadFormat)
  {
    match Sdnv.Read(metadata)
      case Err(e) => Err(Canonical.FromRead(e))
      case Ok((n, rest)) =>
        var count := U8(n);
        match ReadPairs(rest, count, Reset(fields))
          case Err(e) => Err(e)
          case Ok(parsed) => Ok((count, parsed))
  }

  /** NumericMEB(raw): the metadata extension block, then its metadata parsed into a fresh map. */
  function ReadNumeric(raw: seq<byte>): (r: Result<(MetadataBlock.Meb, uint8, Fields), Canonical.BlockError>)
    ensures r.Ok? ==> MetadataBlock.ReadMeb(raw) == Ok(r.value.0)
  {
    match MetadataBlock.ReadMeb(raw)
      case Err(e) => Err(e)
      case Ok(m) =>
        match ParseMetadata(m.metadata, map[])
          case Err(e) => Err(e)
          case Ok((count, fields)) => Ok((m, count, fields))
  }

  /** The fields toString prints: those whose value is not -1, in ascending code order. */
  function Shown(fs: seq<Field>): (r: seq<Field>)
    ensures |r| <= |fs|
  {
    if fs == [] then []
    else (if fs[0].1 != UNSET then [fs[0]] else []) + Shown(fs[1..])
  }

  /** The fields stored in turn, the later of two equal codes winning. */
  function Apply(fields: Fields, fs: seq<Field>): Fields
    decreases |fs|
  {
    if fs == [] then fields else Apply(fields[fs[0].0 := fs[0].1], fs[1..])
  }

  class NumericMebBlock {
    var header: Canonical.Header
    var metadataType: uint8
    var metadata: seq<byte>
    var nrofFields: uint8
    var fields: Fields

    function State(): MetadataBlock.Meb
      reads this
    {
      MetadataBlock.Meb(header, metadataType, metadata)
    }

    /** NumericMEB(type, fields): the count is fields.size() stored in a uint8. */
    constructor (mebType: uint8, fields: Fields)
      ensures State() == MetadataBlock.Make(mebType, [])
      ensures nrofFields == U8(|fields|) && this.fields == fields
    {
      header := Canonical.Header(Canonical.METADATA_EXTENSION_BLOCK, Canonical.NO_FLAGS, 0, []);
      metadataType := mebType;
      metadata := [];
      nrofFields := U8(|fields|);
      this.fields := fields;
    }

    constructor FromMeb(m: MetadataBlock.Meb)
      ensures State() == m && nrofFields == 0 && fields == map[]
    {
      header := m.header;
      metadataType := m.metadataType;
      metadata := m.metadata;
      nrofFields := 0;
      fields := map[];
    }

    /** NumericMEB(raw): the metadata extension block reader, then initFromRaw on its metadata. */
    static method FromRaw(raw: seq<byte>) returns (r: Result<NumericMebBlock, Canonical.BlockError>)
      ensures ReadNumeric(raw).Err? ==> r == Err(ReadNumeric(raw).error)
      ensures ReadNumeric(raw).Ok? ==>
        (r.Ok? && fresh(r.value)
         && r.value.State() == ReadNumeric(raw).value.0
         && r.value.nrofFields == ReadNumeric(raw).value.1 && r.value.fields == ReadNumeric(raw).value.2)
    {
      var b := MetadataBlock.MetadataExtensionBlock.FromRaw(raw);
      if b.Err? {
        return Err(b.error);
      }
      var n := new NumericMebBlock.FromMeb(b.value.State());
      var e := n.InitFromMetadata();
      if e.Some? {
        return Err(e.value);
      }
      return Ok(n);
    }

    /** resetFields: a pass over the codes in ascending order setting each stored value to -1. */
    method ResetFields()
      modifies this
      ensures fields == Reset(old(fields))
      ensures State() == old(State()) && nrofFields == old(nrofFields)
    {
      ghost var before := fields;
      var k: nat := 0;
      while k < 256
        invariant 0 <= k <= 256
        invariant fields.Keys == before.Keys
        invariant forall code | code in fields :: fields[code] == if code < k then UNSET else before[code]
        invariant State() == old(State()) && nrofFields == old(nrofFields)
      {
        var code: uint8 := k;
        if code in fields {
          fields := fields[code := UNSET];
        }
        k := k + 1;
      }
    }

    /**
     * initFromRaw after the header: reset, read the count, then the pairs one at a time. The result
     * is the exception thrown, if any.
     */
    method InitFromMetadata() returns (error: Option<Canonical.BlockError>)
      modifies this
      ensures ParseMetadata(old(metadata), old(fields)).Err? ==> error == Some(ParseMetadata(old(metadata), old(fields)).error)
      ensures ParseMetadata(old(metadata), old(fields)).Ok? ==>
        (error == None && (nrofFields, fields) == ParseMetadata(old(metadata), old(fields)).value)
      ensures State() == old(State())
    {
      ghost var start := fields;
      ResetFields();
      var count := Sdnv.ReadValue(metadata);
      if count.Err? {
        return Some(Canonical.FromRead(count.error));
      }
      nrofFields := U8(count.value.0);
      var n: nat := nrofFields;
      var data := count.value.1;
      var stored: Fields := fields;
      var i: nat := 0;
      while i < n
        invariant i <= n
        invariant State() == old(State()) && nrofFields == U8(count.value.0) && n == nrofFields as nat
        invariant ReadPairs(data, n - i, stored) == ReadPairs(count.value.1, n, Reset(start))
      {
        var code := Sdnv.ReadValue(data);
        if code.Err? {
          CodeMissing(data, n - i, stored);
          return Some(Canonical.FromRead(code.error));
        }
        var value := Sdnv.ReadValue(code.value.1);
        if value.Err? {
          ValueMissing(data, n - i, stored, code.value.0, code.value.1);
          return Some(Canonical.FromRead(value.error));
        }
        ReadPairsStep(data, n - i, stored, code.value.0, code.value.1, value.value.0, value.value.1);
        stored := stored[U8(code.value.0) := I64(value.value.0)];
        data := value.value.1;
        i := i + 1;
      }
      assert ReadPairs(data, 0, stored) == Ok(stored);
      fields := stored;
      return None;
    }

    /** getField: std::map::at, which throws std::out_of_range on an absent code. */
    method GetField(code: uint8) returns (r: Result<int64, Canonical.BlockError>)
      ensures code in fields ==> r == Ok(fields[code])
      ensures code !in fields ==> r == Err(Canonical.OutOfRange)
    {
      if code in fields {
        return Ok(fields[code]);
      }
      return Err(Canonical.OutOfRange);
    }

    /** The field loop of toRaw: the count, then each stored field in ascending code order. */
    method WriteFields() returns (m: seq<byte>)
      ensures m == Metadata(nrofFields, fields)
    {
      var count := Sdnv.Encode(nrofFields);
      m := count;
      var k: nat := 0;
      while k < 256
        invariant k <= 256
        invariant m == count + Pairs(EntriesBelow(fields, k))
      {
        var code: uint8 := k;
        if code in fields {
          WriteStored(fields, k, code, count, m);
          m := m + Pair((code, fields[code]));
        } else {
          WriteSkipped(fields, k, code);
        }
        k := k + 1;
      }
    }

    /** toRaw: the metadata is rebuilt from the count and the fields, then the block is written. */
    method ToRawBytes() returns (raw: seq<byte>)
      modifies this
      ensures metadata == Metadata(nrofFields, fields)
      ensures State() == MetadataBlock.ToRaw(old(State()).(metadata := metadata))
      ensures nrofFields == old(nrofFields) && fields == old(fields)
      ensures raw == header.raw
    {
      metadata := WriteFields();
      var t: byte := header.blockType;
      var body := Sdnv.Encode(metadataType) + metadata;
      header := header.(raw := [t] + Sdnv.Encode(Bits.Value(header.procFlags)) + Sdnv.Encode(|body|) + body);
      return header.raw;
    }
  }

  // ----- Properties -----

  lemma {:induction false} PairsSnoc(fs: seq<Field>, f: Field)
    ensures Pairs(fs + [f]) == Pairs(fs) + Pair(f)
    decreases |fs|
  {
    if fs != [] {
      assert (fs + [f])[1..] == fs[1..] + [f];
      PairsSnoc(fs[1..], f);
    }
  }

  /** One turn of the field loop of toRaw on a stored code: its pair is appended. */
  lemma WriteStored(fields: Fields, k: nat, code: uint8, count: seq<byte>, m: seq<byte>)
    requires k < 256 && code == k && code in fields && m == count + Pairs(EntriesBelow(fields, k))
    ensures m + Pair((code, fields[code])) == count + Pairs(EntriesBelow(fields, k + 1))
  {
    assert EntriesBelow(fields, k + 1) == EntriesBelow(fields, k) + [(code, fields[code])];
    AppendPair(count, EntriesBelow(fields, k), (code, fields[code]), m);
  }

  lemma AppendPair(count: seq<byte>, fs: seq<Field>, f: Field, m: seq<byte>)
    requires m == count + Pairs(fs)
    ensures m + Pair(f) == count + Pairs(fs + [f])
  {
    PairsSnoc(fs, f);
    Assoc(count, Pairs(fs), Pair(f));
  }

  /** One turn of the field loop of toRaw on an absent code: nothing is written. */
  lemma WriteSkipped(fields: Fields, k: nat, code: uint8)
    requires k < 256 && code == k && code !in fields
    ensures EntriesBelow(fields, k + 1) == EntriesBelow(fields, k)
  {
  }

  lemma {:induction false} PairsLength(fs: seq<Field>)
    ensures |Pairs(fs)| <= 20 * |fs|
    decreases |fs|
  {
    if fs != [] {
      PairsLength(fs[1..]);
    }
  }

  lemma ReadPairsStep(data: seq<byte>, n: nat, fields: Fields, code: uint64, afterCode: seq<byte>, value: uint64, rest: seq<byte>)
    requires n > 0 && Sdnv.Read(data) == Ok((code, afterCode)) && Sdnv.Read(afterCode) == Ok((value, rest))
    ensures ReadPairs(data, n, fields) == ReadPairs(rest, n - 1, fields[U8(code) := I64(value)])
  {
  }

  lemma CodeMissing(data: seq<byte>, n: nat, fields: Fields)
    requires n > 0 && Sdnv.Read(data).Err?
    ensures ReadPairs(data, n, fields) == Err(Canonical.FromRead(Sdnv.Read(data).error))
  {
  }

  lemma ValueMissing(data: seq<byte>, n: nat, fields: Fields, code: uint64, afterCode: seq<byte>)
    requires n > 0 && Sdnv.Read(data) == Ok((code, afterCode)) && Sdnv.Read(afterCode).Err?
    ensures ReadPairs(data, n, fields) == Err(Canonical.FromRead(Sdnv.Read(afterCode).error))
  {
  }

  /** The parse loop reads back exactly the pairs written, storing them in order, whatever follows. */
  lemma {:induction false} ReadPairsOfPairs(fs: seq<Field>, rest: seq<byte>, fields: Fields)
    ensures ReadPairs(Pairs(fs) + rest, |fs|, fields) == Ok(Apply(fields, fs))
    decreases |fs|
  {
    if fs != [] {
      var f := fs[0];
      var tail := Pairs(fs[1..]) + rest;
      var afterCode := Sdnv.Encode(U64(f.1)) + tail;
      assert Pairs(fs) + rest == Sdnv.Encode(f.0) + afterCode;
      Sdnv.DecodeEncode(f.0, afterCode);
      Sdnv.DecodeEncode(U64(f.1), tail);
      ReadPairsStep(Pairs(fs) + rest, |fs|, fields, f.0, afterCode, U64(f.1), tail);
      I64OfU64(f.1);
      ReadPairsOfPairs(fs[1..], rest, fields[f.0 := f.1]);
    }
  }

  lemma {:induction false} ApplySnoc(fields: Fields, fs: seq<Field>, f: Field)
    ensures Apply(fields, fs + [f]) == Apply(fields, fs)[f.0 := f.1]
    decreases |fs|
  {
    if fs != [] {
      assert (fs + [f])[1..] == fs[1..] + [f];
      ApplySnoc(fields[fs[0].0 := fs[0].1], fs[1..], f);
    }
  }

  lemma KeysStep(fields: Fields, k: nat, code: uint8)
    requires 0 < k <= 256 && code == k - 1
    ensures code in fields ==> KeysBelow(fields, k) == KeysBelow(fields, k - 1) + {code}
    ensures code !in fields ==> KeysBelow(fields, k) == KeysBelow(fields, k - 1)
    ensures code !in KeysBelow(fields, k - 1)
  {
  }

  lemma Restrict(fields: Fields, before: set<uint8>, after: set<uint8>, code: uint8)
    requires code in fields && before <= fields.Keys && after == before + {code}
    ensures (map c | c in before :: fields[c])[code := fields[code]] == map c | c in after :: fields[c]
  {
  }

  /** Storing the entries below k over an empty map gives the fields below k. */
  lemma {:induction false} ApplyEntries(fields: Fields, k: nat)
    requires k <= 256
    ensures Apply(map[], EntriesBelow(fields, k)) == map code | code in KeysBelow(fields, k) :: fields[code]
    decreases k
  {
    if k > 0 {
      var code: uint8 := k - 1;
      ApplyEntries(fields, k - 1);
      KeysStep(fields, k, code);
      if code in fields {
        assert EntriesBelow(fields, k) == EntriesBelow(fields, k - 1) + [(code, fields[code])];
        ApplySnoc(map[], EntriesBelow(fields, k - 1), (code, fields[code]));
        Restrict(fields, KeysBelow(fields, k - 1), KeysBelow(fields, k), code);
      } else {
        assert EntriesBelow(fields, k) == EntriesBelow(fields, k - 1);
      }
    }
  }

  /** There is one entry per stored code. */
  lemma {:induction false} EntriesCount(fields: Fields, k: nat)
    requires k <= 256
    ensures |EntriesBelow(fields, k)| == |KeysBelow(fields, k)|
    decreases k
  {
    if k > 0 {
      var code: uint8 := k - 1;
      EntriesCount(fields, k - 1);
      KeysStep(fields, k, code);
    }
  }

  lemma AllKeys(fields: Fields)
    ensures KeysBelow(fields, 256) == fields.Keys
    ensures |Entries(fields)| == |fields|
    ensures Apply(map[], Entries(fields)) == fields
  {
    EntriesCount(fields, 256);
    ApplyEntries(fields, 256);
  }

  /** The metadata toRaw writes for fewer than 256 fields parses back to the same count and fields. */
  lemma ParseMetadataRoundTrip(fields: Fields)
    requires |fields| < 256
    ensures ParseMetadata(Metadata(U8(|fields|), fields), map[]) == Ok((U8(|fields|), fields))
  {
    var es := Entries(fields);
    AllKeys(fields);
    Sdnv.DecodeEncode(|fields|, Pairs(es));
    ReadPairsOfPairs(es, [], map[]);
    assert Pairs(es) + [] == Pairs(es);
    assert Reset(map[]) == map[];
  }

  /** A count that wraps to zero reads no pairs, whatever bytes follow it. */
  lemma ZeroCount(metadata: seq<byte>, n: uint64, rest: seq<byte>)
    requires metadata == Sdnv.Encode(n) + rest && U8(n) == 0
    ensures ParseMetadata(metadata, map[]) == Ok((0, map[]))
  {
    Sdnv.DecodeEncode(n, rest);
    assert Reset(map[]) == map[];
  }

  /** A full map of 256 codes is written with the count 0, so nothing comes back. */
  lemma FullMapLost(fields: Fields)
    requires |fields| == 256
    ensures ParseMetadata(Metadata(U8(|fields|), fields), map[]) == Ok((0, map[]))
  {
    ZeroCount(Metadata(U8(|fields|), fields), U8(|fields|), Pairs(Entries(fields)));
  }

  /** The whole block: fields built by the map constructor come back from the raw bytes. */
  lemma ReadToRaw(mebType: uint8, fields: Fields)
    requires |fields| < 256
    ensures var m := MetadataBlock.Make(mebType, Metadata(U8(|fields|), fields));
      var r := ReadNumeric(MetadataBlock.ToRaw(m).header.raw);
      r.Ok? && r.value.0.metadataType == mebType && r.value.1 == |fields| && r.value.2 == fields
  {
    var metadata := Metadata(U8(|fields|), fields);
    AllKeys(fields);
    PairsLength(Entries(fields));
    Sdnv.LengthAtMostTen(|fields|);
    MetadataBlock.ReadBack(MetadataBlock.Make(mebType, metadata));
    ParseMetadataRoundTrip(fields);
  }

  lemma {:induction false} ShownMember(fs: seq<Field>, f: Field)
    ensures f in Shown(fs) <==> f in fs && f.1 != UNSET
    decreases |fs|
  {
    if fs != [] {
      ShownMember(fs[1..], f);
      assert fs == [fs[0]] + fs[1..];
    }
  }

  lemma {:induction false} EntriesMember(fields: Fields, k: nat, f: Field)
    requires k <= 256
    ensures f in EntriesBelow(fields, k) <==> f.0 < k && f.0 in fields && fields[f.0] == f.1
    decreases k
  {
    if k > 0 {
      EntriesMember(fields, k - 1, f);
    }
  }

  /** toString prints a field exactly when it is stored and not -1. */
  lemma ShownFields(fields: Fields, f: Field)
    ensures f in Shown(Entries(fields)) <==> f.0 in fields && fields[f.0] == f.1 && f.1 != UNSET
  {
    ShownMember(Entries(fields), f);
    EntriesMember(fields, 256, f);
  }

  /** After resetFields nothing is printed. */
  lemma ShownAfterReset(fields: Fields)
    ensures Shown(Entries(Reset(fields))) == []
  {
    var s := Shown(Entries(Reset(fields)));
    if s != [] {
      ShownFields(Reset(fields), s[0]);
      assert false;
    }
  }
}
