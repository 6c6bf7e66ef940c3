# aDTNPlus core, modelled in Dafny

aDTNPlus is a delay-tolerant networking bundle agent. Nodes carry bundles, store them, and pass
them on when they meet. This project models the agent's core in Dafny and proves properties of
the model:

- **Wire formats.** It models the SDNV integer encoding and the bundle blocks built on it: the
  primary block, canonical blocks, the payload block, and the metadata extension blocks. The
  metadata blocks are the generic one plus the numeric, route reporting, routing selection and
  control directive ones. Every block is read back from the bytes it writes, and the
  malformed-input paths are kept as errors.
- **Bundle queue.** It models the bounded queue with its eviction under a comparator, the
  simple FIFO (`BundleQueue.cpp`), the bundle container file format, and the route reporting
  container.
- **Forwarding.** It models the drop policy driven by control directives, the spray-and-wait
  forwarding algorithm, the numeric field maps they read, and the controller's aggregation of
  control data.
- **Neighbour discovery.** It models the timestamp source, the beacon in its C++ form and in its
  Java form in the Lepton hub.
- **Tables.** It models the tables of neighbours, listening endpoints and applications, with their
  expiry.
- **Statistics script.** It models the Python statistics script: log parsing into a store of
  entries, the queries over it, per-node figures and the aggregate report.

Classes whose methods update fields in the source are Dafny classes here. Each method's new state
is stated against a specification function, and the lemmas are proved about that function. Pure
encoders and decoders are functions with round-trip lemmas. The clock, the network, files and the
bundle parser are parameters of the model.

Bytes are integers in 0..255, and C++ strings and Java strings are byte sequences. Fixed-width
integers are written out with explicit wrap-around (`Wire.U8`, `Wire.U16`, `Wire.U64`, `Wire.I32`, `Wire.I64`).

## Model

| member | source | states |
|---|---|---|
| `Sdnv.Length` | BundleAgent/Utils/SDNV.cpp:63-71 | the number of 7-bit groups of a value is at least one, and exactly one for the values below 128 |
| `Sdnv.Encode` | BundleAgent/Utils/SDNV.cpp:29-45 | the encoding has exactly `Length(v)` bytes and its last byte has bit 7 clear |
| `Sdnv.Decode` | BundleAgent/Utils/SDNV.cpp:47-61 | decoding has no result exactly when no byte ends the SDNV; the empty string decodes to 0 (the failed `get` leaves the byte 0) |
| `Sdnv.ScanLength` | BundleAgent/Utils/SDNV.cpp:73-83 | the length counted from a string is at least 1 and ends on the first byte with bit 7 clear |
| `Sdnv.Read` | BundleAgent/Utils/SDNV.cpp:47-83 | one field of a block parser (decode, then `substr(getLength)`): what is left is strictly shorter, and only the empty input is exhausted |
| `Sdnv.ReadFrom` | BundleAgent/Utils/SDNV.cpp:53-59 | the byte-by-byte reader consumes at least one byte and is never exhausted |
| `Sdnv.LengthOfValue` | BundleAgent/Utils/SDNV.cpp:63-71 | the shift-by-7 loop returns `Length(value)` |
| `Sdnv.EncodeValue` | BundleAgent/Utils/SDNV.cpp:29-45 | the do-while loop filling the 10-byte buffer from its end returns `Encode(value)` |
| `Sdnv.LengthOfEncoded` | BundleAgent/Utils/SDNV.cpp:73-83 | the loop counting bytes up to the first one with bit 7 clear returns `ScanLength(s)` |
| `Sdnv.DecodeValue` | BundleAgent/Utils/SDNV.cpp:47-61 | the loop `value = (value << 7) \| (byte & 0x7f)` on 64 bits returns `Decode(s)` |
| `Sdnv.ReadValue` | BundleAgent/Utils/SDNV.cpp:47-83 | decode followed by `substr(getLength)` returns `Read(data)` |
| `Sdnv.TerminatorBefore` | BundleAgent/Utils/SDNV.cpp:78-81 | every byte before the one the length scan stops at has bit 7 set |
| `Sdnv.TerminatorNone` | BundleAgent/Utils/SDNV.cpp:78-81 | the scan finds no end exactly when every byte has bit 7 set |
| `Sdnv.MarkedHigh` | BundleAgent/Utils/SDNV.cpp:38-41 | every byte the encoder writes before the last one has bit 7 set |
| `Sdnv.GroupsOfEncode` | BundleAgent/Utils/SDNV.cpp:37-42 | the 7-bit groups of the encoding, read most significant first, give the value back |
| `Sdnv.DecodeEncode` | BundleAgent/Utils/SDNV.cpp:29-61 | reading `encode(v) + rest` gives `v` and leaves exactly `rest` |
| `Sdnv.ReadSplit` | BundleAgent/Utils/SDNV.cpp:47-83 | the byte-wise reader is the length scan, then the decode, then the cut after the length; no end gives `Unterminated`, a length past the data gives `Exhausted` |
| `Sdnv.ReadFromNone` | BundleAgent/Utils/SDNV.cpp:53-59 | with no byte that has bit 7 clear the reader never finishes (`Unterminated`) |
| `Sdnv.ScanEncode` | BundleAgent/Utils/SDNV.cpp:73-83 | `getLength(encode(v) + rest) == getLength(v)` and `decode(encode(v) + rest) == v`: the decoder ignores every byte after the first one with bit 7 clear |
| `Sdnv.EncodeInjective` | BundleAgent/Utils/SDNV.cpp:29-45 | two values with the same encoding are equal |
| `Sdnv.LengthAtMostTen` | BundleAgent/Utils/SDNV.cpp:30-31 | any 64-bit value fits the encoder's 10-byte buffer |
| `Sdnv.LengthExamples` | Test/BundleAgent/Utils/SDNVTest.cpp:33-39 | 127, 15789, 45123, 9123456 and 4294967295 take 1, 2, 3, 4 and 5 bytes |
| `Sdnv.ReadManyConcat` | Test/BundleAgent/Utils/SDNVTest.cpp:123-135 | SDNVs written one after the other are cut apart exactly, one length at a time, leaving what follows them |
| `Sdnv.ConcatAppend` | Test/BundleAgent/Utils/SDNVTest.cpp:126-129 | the stream of a concatenation of value lists is the concatenation of their streams |
| `Bits.Value` | BundleAgent/Bundle/PrimaryBlock.cpp:260 | `to_ulong()` of an n-bit set is below 2^n |
| `Bits.FromNat` | BundleAgent/Bundle/PrimaryBlock.cpp:69 | `bitset<n>(v)` holds exactly n bits |
| `Bits.FromNatOfValue` | BundleAgent/Bundle/PrimaryBlock.cpp:69 | a bit set rebuilt from its own `to_ulong()` has the same bits |
| `Bits.ValueOfFromNat` | BundleAgent/Bundle/PrimaryBlock.cpp:69 | `bitset<n>(v)` keeps v modulo 2^n: the bits of the decoded value above n are dropped |
| `PrimaryBlock.ControlFlag.Position` | BundleAgent/Bundle/PrimaryBlock.cpp:171 | a non-priority flag occupies one bit below 21, never 7 or 8 |
| `PrimaryBlock.SetFlag` | BundleAgent/Bundle/PrimaryBlock.cpp:166-190 | setting a flag changes no bit outside the flag's own bit and the priority field |
| `PrimaryBlock.ClearFlag` | BundleAgent/Bundle/PrimaryBlock.cpp:192-204 | clearing a flag changes no bit outside the flag's own bit and the priority field |
| `PrimaryBlock.Offsets` | BundleAgent/Bundle/PrimaryBlock.cpp:262-288 | eight offsets, the four scheme offsets all 0 (the single scheme "adtn") |
| `PrimaryBlock.TrailingValues` | BundleAgent/Bundle/PrimaryBlock.cpp:262-294 | the eight offsets, then timestamp, sequence number and lifetime, in that order |
| `PrimaryBlock.CopyString` | BundleAgent/Bundle/PrimaryBlock.cpp:126-131 | a copied endpoint has no NUL and fits the 1024-byte buffer; an offset past the data or a string too long for the buffer is undefined behaviour |
| `PrimaryBlock.Parse` | BundleAgent/Bundle/PrimaryBlock.cpp:33-145 | empty raw data fails with `out_of_range` (`substr(1)`); all four parsed endpoints hold no NUL and fit the 1024-byte buffers |
| `PrimaryBlock.Assemble` | BundleAgent/Bundle/PrimaryBlock.cpp:124-144 | endpoints are copied from the bytes after the fourteen SDNVs, destination first; a copy failure aborts the parse, and every copied endpoint holds no NUL and is shorter than 1024 bytes |
| `PrimaryBlock.Encode` | BundleAgent/Bundle/PrimaryBlock.cpp:231-304 | the raw primary block starts with the version byte 6 |
| `PrimaryBlock.PrimaryBlock.constructor` | BundleAgent/Bundle/PrimaryBlock.cpp:147-157 | no flags, the given source, destination, timestamp and sequence number, empty reportTo and custodian, lifetime 0 |
| `PrimaryBlock.PrimaryBlock.FromRaw` | BundleAgent/Bundle/PrimaryBlock.cpp:33-145 | the new block holds exactly what `Parse` reads, or the constructor fails with `Parse`'s error |
| `PrimaryBlock.PrimaryBlock.SetProcFlag` | BundleAgent/Bundle/PrimaryBlock.cpp:166-190 | only the flags change, to `SetFlag(flags, f)` |
| `PrimaryBlock.PrimaryBlock.ClearProcFlag` | BundleAgent/Bundle/PrimaryBlock.cpp:192-204 | only the flags change, to `ClearFlag(flags, f)` |
| `PrimaryBlock.PrimaryBlock.TestFlag` | BundleAgent/Bundle/PrimaryBlock.cpp:206-229 | returns whether the flag holds: its bit, or the priority field's pattern 00, 01 or 10 |
| `PrimaryBlock.PrimaryBlock.GetRaw` | BundleAgent/Bundle/PrimaryBlock.cpp:231-304 | the raw block is `Encode` of the block's fields, and parsing it gives the same fields back whenever the endpoints are NUL-free and shorter than 1024 bytes |
| `PrimaryBlock.PrimaryBlock.SetDestination` | BundleAgent/Bundle/PrimaryBlock.cpp:334-337 | only the destination changes |
| `PrimaryBlock.PrimaryBlock.SetSource` | BundleAgent/Bundle/PrimaryBlock.cpp:339-342 | only the source changes |
| `PrimaryBlock.PrimaryBlock.SetReportTo` | BundleAgent/Bundle/PrimaryBlock.cpp:344-347 | only reportTo changes |
| `PrimaryBlock.PrimaryBlock.SetCustodian` | BundleAgent/Bundle/PrimaryBlock.cpp:349-352 | only the custodian changes |
| `PrimaryBlock.PrimaryBlock.SetLifetime` | BundleAgent/Bundle/PrimaryBlock.cpp:354-357 | only the lifetime changes |
| `PrimaryBlock.SetThenTest` | BundleAgent/Bundle/PrimaryBlock.cpp:166-229 | after `setProcFlag(f)`, `testFlag(f)` holds, priorities included |
| `PrimaryBlock.ClearThenTest` | BundleAgent/Bundle/PrimaryBlock.cpp:192-229 | after `clearProcFlag(f)` a plain flag tests false, and after clearing any priority `PRIORITY_BULK` tests true |
| `PrimaryBlock.OtherFlagsKept` | BundleAgent/Bundle/PrimaryBlock.cpp:166-229 | setting or clearing one flag leaves every other plain flag's test unchanged |
| `PrimaryBlock.PriorityExclusive` | BundleAgent/Bundle/PrimaryBlock.cpp:173-188 | two different priorities never hold together, so after `setProcFlag(p)` every other priority tests false |
| `PrimaryBlock.EntriesOfRepresentable` | BundleAgent/Bundle/PrimaryBlock.cpp:264-288 | the dictionary entries are "adtn:", destination, source, reportTo and custodian, each NUL-free |
| `PrimaryBlock.EntryAt` | BundleAgent/Bundle/PrimaryBlock.cpp:130-144 | the `strcpy` at an entry's offset in the NUL-terminated dictionary copies exactly that entry |
| `PrimaryBlock.ReadEntry` | BundleAgent/Bundle/PrimaryBlock.cpp:130-144 | each of the four endpoints is read back from the dictionary at the offset `getRaw` wrote for it |
| `PrimaryBlock.ReadFields` | BundleAgent/Bundle/PrimaryBlock.cpp:259-302 | the raw block is the version byte 0x06, then fourteen SDNVs (flags first), then the dictionary |
| `PrimaryBlock.BlockLengthCounts` | BundleAgent/Bundle/PrimaryBlock.cpp:296-302 | after the flags SDNV comes a block-length SDNV equal to the byte length of everything that follows it |
| `PrimaryBlock.AssembleFields` | BundleAgent/Bundle/PrimaryBlock.cpp:124-144 | the fourteen values and dictionary of `getRaw` assemble back into the same fields |
| `PrimaryBlock.ParseEncode` | BundleAgent/Bundle/PrimaryBlock.cpp:33-145 | parsing the output of `getRaw` gives back every field: flags, the four endpoints, timestamp, sequence number and lifetime |
| `Canonical.BlockFlag.Position` | BundleAgent/Bundle/CanonicalBlock.cpp:68 | each block flag is one bit of the 7-bit field, and only `EID_FIELD` is bit 6 |
| `Canonical.FromRead` | BundleAgent/Bundle/CanonicalBlock.cpp:90-92 | an SDNV read failure is never reported as an escaping `out_of_range` |
| `Canonical.Skip` | BundleAgent/Bundle/CanonicalBlock.cpp:75-80 | dropping one SDNV field (`getLength`, then `substr`) fails only as a construction error or a scan that never ends |
| `Canonical.SkipEidsStep` | BundleAgent/Bundle/CanonicalBlock.cpp:73-81 | skipping n references is skipping a scheme offset, then an SSP offset, then n - 1 references; either failure stops it |
| `Canonical.EidCount` | BundleAgent/Bundle/CanonicalBlock.cpp:71-73 | the EID count is decoded into an `int`, and the loop runs that many times (none for a negative count) |
| `Canonical.AfterEids` | BundleAgent/Bundle/CanonicalBlock.cpp:68-82 | with `EID_FIELD` set, the count SDNV and two SDNVs per reference are dropped; the data only shrinks |
| `Canonical.SkipShrinks` | BundleAgent/Bundle/CanonicalBlock.cpp:75-80 | a skipped field always drops at least one byte |
| `Canonical.ReadHeader` | BundleAgent/Bundle/CanonicalBlock.cpp:55-93 | input of at most one byte raises `BlockConstructionException`; on success the block type is the first byte and `m_raw` is a prefix of the input |
| `Canonical.WithBodyLength` | BundleAgent/Bundle/CanonicalBlock.cpp:83-89 | the body index counts everything up to the body-length SDNV; `m_raw` is the input cut at body index plus announced body length |
| `Canonical.ParseHeader` | BundleAgent/Bundle/CanonicalBlock.cpp:55-93 | the parser's field-by-field steps give `ReadHeader(raw)` |
| `Canonical.FinishHeader` | BundleAgent/Bundle/CanonicalBlock.cpp:83-89 | the body-length step (scan, count, decode, add, cut in a 64-bit `size_t`) gives `WithBodyLength` |
| `Canonical.SkipEidFields` | BundleAgent/Bundle/CanonicalBlock.cpp:68-82 | the EID part of the parser gives `AfterEids(flags, data)` |
| `Canonical.SkipReferences` | BundleAgent/Bundle/CanonicalBlock.cpp:73-81 | the loop over the references gives `SkipEids(data, count)` |
| `Canonical.Serialize` | BundleAgent/Bundle/CanonicalBlock.cpp:95-104 | the raw block starts with its block type and ends with its body |
| `Canonical.ToRaw` | BundleAgent/Bundle/CanonicalBlock.cpp:95-104 | fails (`out_of_range`) exactly when the body index lies past `m_raw`; otherwise only `m_raw` changes, and it starts with the block type |
| `Canonical.CanonicalBlock.constructor` | BundleAgent/Bundle/CanonicalBlock.cpp:32-36 | type 0, no flags, body index 0, no raw data |
| `Canonical.CanonicalBlock.InitFromRaw` | BundleAgent/Bundle/CanonicalBlock.cpp:55-93 | succeeds exactly when `ReadHeader` does, and then the block holds the parsed header; a failure reports `ReadHeader`'s error |
| `Canonical.CanonicalBlock.FromRaw` | BundleAgent/Bundle/CanonicalBlock.cpp:38-50 | a new block holding `ReadHeader(rawData)`, or its error |
| `Canonical.CanonicalBlock.ToRawBytes` | BundleAgent/Bundle/CanonicalBlock.cpp:95-104 | returns and stores `ToRaw` of the block; on `out_of_range` nothing changes |
| `Canonical.CanonicalBlock.GetBlockType` | BundleAgent/Bundle/CanonicalBlock.cpp:106-108 | returns the stored block type |
| `Canonical.CanonicalBlock.SetProcFlag` | BundleAgent/Bundle/CanonicalBlock.cpp:110-113 | only the flag's bit changes, to set |
| `Canonical.CanonicalBlock.UnsetProcFlag` | BundleAgent/Bundle/CanonicalBlock.cpp:115-118 | only the flag's bit changes, to clear |
| `Canonical.CanonicalBlock.CheckProcFlag` | BundleAgent/Bundle/CanonicalBlock.cpp:120-123 | returns the flag's bit |
| `Canonical.SkipEidRefs` | BundleAgent/Bundle/CanonicalBlock.cpp:73-81 | the loop drops exactly the references written as scheme and SSP offset SDNVs |
| `Canonical.AfterEidsOfSerialized` | BundleAgent/Bundle/CanonicalBlock.cpp:68-82 | with `EID_FIELD` set the parser skips the count SDNV plus two SDNVs per EID, and without it nothing |
| `Canonical.BodyLengthRead` | BundleAgent/Bundle/CanonicalBlock.cpp:83-89 | the body index is the length of everything before the body, and `m_raw` is the block up to the end of its body |
| `Canonical.ReadSerialized` | BundleAgent/Bundle/CanonicalBlock.cpp:55-89 | a well-formed block followed by anything parses to its type, its flags, body index 1 + \|flags\| + EID part + \|length SDNV\|, and `m_raw` exactly the block |
| `Canonical.SplitLayout` | Test/BundleAgent/Bundle/CanonicalBlockTest.cpp:53-111 | concatenated well-formed blocks are cut one by one at the computed lengths, giving each block back |
| `Canonical.SplitStep` | Test/BundleAgent/Bundle/CanonicalBlockTest.cpp:53-111 | one block parsed from the front, then the rest split |
| `Canonical.ShortBodyAccepted` | BundleAgent/Bundle/CanonicalBlock.cpp:87-89 | a block whose body is cut short is not rejected: `substr(0, blockLength)` keeps the bytes there are |
| `Canonical.ToRawOfRead` | BundleAgent/Bundle/CanonicalBlock.cpp:55-104 | without EID references, parsing a block and writing it back gives the same header and bytes |
| `Canonical.SerializeNoEids` | BundleAgent/Bundle/CanonicalBlock.cpp:95-101 | without EID references a block is type byte, flags SDNV, body-length SDNV and body |
| `Canonical.BodyOfSerialized` | BundleAgent/Bundle/CanonicalBlock.cpp:86-89 | the body of a serialised block starts at the body index |
| `Canonical.ReadToRaw` | BundleAgent/Bundle/CanonicalBlock.cpp:95-104 | what `toRaw` writes parses back to the same type and flags, `m_raw` is all of it, and the body is preserved |
| `Canonical.FlagUpdates` | BundleAgent/Bundle/CanonicalBlock.cpp:110-123 | set then check is true, unset then check is false, and every other flag is unchanged |
| `MetadataBlock.Body` | BundleAgent/Bundle/MetadataExtensionBlock.cpp:43-46 | the body of section 2 of RFC 6258 is the metadata type SDNV followed by the metadata, which it ends with |
| `MetadataBlock.ReadMeb` | BundleAgent/Bundle/MetadataExtensionBlock.cpp:38-50 | the canonical header is the one `initFromRaw` reads; the metadata type is the body's first SDNV, the metadata the rest; every failure is a `BlockConstructionException` |
| `MetadataBlock.MakeAsWritten` | BundleAgent/Bundle/MetadataExtensionBlock.cpp:32-36 | the (type, metadata) constructor as written keeps both but leaves the block type 0, not `METADATA_EXTENSION_BLOCK` |
| `MetadataBlock.Make` | BundleAgent/Bundle/MetadataExtensionBlock.cpp:32-36 | the constructor with the block type set: type `METADATA_EXTENSION_BLOCK`, no flags, no raw bytes, the given metadata type and metadata |
| `MetadataBlock.ToRawAsWritten` | BundleAgent/Bundle/MetadataExtensionBlock.cpp:55-74 | `toRaw` as written: type byte, flags SDNV, metadata type SDNV, metadata, and no body length |
| `MetadataBlock.ToRaw` | BundleAgent/Bundle/MetadataExtensionBlock.cpp:55-74 | `toRaw` with a body-length SDNV: only `m_raw` changes, and it starts with the block type and holds more than the metadata |
| `MetadataBlock.MetadataExtensionBlock.constructor` | BundleAgent/Bundle/MetadataExtensionBlock.cpp:32-36 | the new block is `Make(metadataType, metadata)` |
| `MetadataBlock.MetadataExtensionBlock.FromRaw` | BundleAgent/Bundle/MetadataExtensionBlock.cpp:38-50 | a new block holding `ReadMeb(raw)`, or its error |
| `MetadataBlock.MetadataExtensionBlock.ToRawBytes` | BundleAgent/Bundle/MetadataExtensionBlock.cpp:55-74 | the block becomes `ToRaw` of itself and the new raw bytes are returned |
| `MetadataBlock.MetadataExtensionBlock.GetMetadataType` | BundleAgent/Bundle/MetadataExtensionBlock.cpp:76-78 | returns the stored metadata type |
| `MetadataBlock.MetadataExtensionBlock.GetMetadata` | BundleAgent/Bundle/MetadataExtensionBlock.cpp:80-82 | returns the stored metadata |
| `MetadataBlock.ReadMebAt` | BundleAgent/Bundle/MetadataExtensionBlock.cpp:43-46 | a body holding a type SDNV and metadata is read as exactly that type and metadata |
| `MetadataBlock.ReadSerializedMeb` | BundleAgent/Bundle/MetadataExtensionBlock.cpp:38-50 | a well-formed block whose body is type SDNV plus metadata parses to its header, type and metadata, whatever follows it |
| `MetadataBlock.ToRawIsSerialized` | BundleAgent/Bundle/MetadataExtensionBlock.cpp:55-74 | without EID references `ToRaw` writes the canonical layout of the body |
| `MetadataBlock.ReadToRaw` | BundleAgent/Bundle/MetadataExtensionBlock.cpp:38-74 | what `ToRaw` writes parses back to the same block type, flags, metadata type and metadata |
| `MetadataBlock.ReadBack` | Test/BundleAgent/Bundle/MetadataExtensionBlockTest.cpp:30-47 | the round trip the block's test asserts holds for `ToRaw`: type, flags, metadata type and metadata come back |
| `MetadataBlock.ReserializeStable` | BundleAgent/Bundle/MetadataExtensionBlock.cpp:38-74 | writing a parsed block again gives the same bytes |
| `MetadataBlock.ReadMade` | BundleAgent/Bundle/MetadataExtensionBlock.cpp:32-82 | a block built from (type, metadata) and written reads back as a metadata extension block with that type and metadata |
| `MetadataBlock.AsWrittenHeader` | BundleAgent/Bundle/CanonicalBlock.cpp:55-89 | the canonical parser reads the as-written bytes 0, 0, 2, '1' as a block of type 0 whose body starts at index 3 |
| `MetadataBlock.AsWrittenRoundTripFails` | BundleAgent/Bundle/MetadataExtensionBlock.cpp:55-74 | as written, the routing selection "1" is written as 0, 0, 2, '1' and reads back with metadata type 49 and no metadata |
| `Payload.ReadPayload` | BundleAgent/Bundle/PayloadBlock.cpp:33-42 | the header is the one `initFromRaw` reads and the payload is everything of `m_raw` from the body index on; every failure is a `BlockConstructionException` |
| `Payload.ToRaw` | BundleAgent/Bundle/PayloadBlock.cpp:52-69 | only `m_raw` changes; it starts with the block type and is longer than the payload |
| `Payload.PayloadBlock.constructor` | BundleAgent/Bundle/PayloadBlock.cpp:43-46 | the plain constructor sets type `PAYLOAD_BLOCK`, no flags, and stores the payload verbatim |
| `Payload.PayloadBlock.FromRaw` | BundleAgent/Bundle/PayloadBlock.cpp:36-42 | a new block holding `ReadPayload(rawData)`, or its error |
| `Payload.PayloadBlock.ToRawBytes` | BundleAgent/Bundle/PayloadBlock.cpp:52-69 | the block becomes `ToRaw` of itself and the new raw bytes are returned |
| `Payload.PayloadBlock.GetPayload` | BundleAgent/Bundle/PayloadBlock.cpp:71-73 | returns the stored payload |
| `Payload.ToRawIsSerialized` | BundleAgent/Bundle/PayloadBlock.cpp:62-68 | `toRaw` is type byte, flags SDNV, SDNV of the payload length, payload |
| `Payload.ReadSerializedPayload` | BundleAgent/Bundle/PayloadBlock.cpp:36-39 | a well-formed block followed by anything parses to its header and its whole body as payload |
| `Payload.ReadToRaw` | Test/BundleAgent/Bundle/PayloadBlockTest.cpp:55-63 | the payload written by `toRaw` is read back by the raw constructor, with the same type and flags |
| `Payload.ShortInputRefused` | BundleAgent/Bundle/PayloadBlock.cpp:40-42 | raw data of at most one byte raises `BlockConstructionException` |
| `NumericMeb.EntriesBelow` | BundleAgent/Bundle/NumericMEB.h:181-183 | the fields with a code below k in ascending code order (std::map iteration), at most k of them |
| `NumericMeb.Pair` | BundleAgent/Bundle/NumericMEB.h:120-123 | one field is a code SDNV and a value SDNV, at most 20 bytes |
| `NumericMeb.Reset` | BundleAgent/Bundle/NumericMEB.h:166-170 | every key is kept and every value becomes -1 |
| `NumericMeb.ReadPairs` | BundleAgent/Bundle/NumericMEB.h:151-157 | reading n (code, value) pairs into the map fails only as a construction error, never as an escaping `out_of_range` |
| `NumericMeb.ParseMetadata` | BundleAgent/Bundle/NumericMEB.h:142-161 | empty metadata raises `BlockConstructionException`; no failure escapes as `out_of_range` |
| `NumericMeb.ReadNumeric` | BundleAgent/Bundle/NumericMEB.h:72-79 | the raw constructor first reads the metadata extension block exactly as `ReadMeb` does |
| `NumericMeb.Shown` | BundleAgent/Bundle/NumericMEB.h:93-98 | the fields `toString` lists are a sub-list of the fields |
| `NumericMeb.NumericMebBlock.constructor` | BundleAgent/Bundle/NumericMEB.h:61-67 | the map constructor sets `m_nrofFields` to `fields.size()` as a `uint8`, stores the map and the metadata type |
| `NumericMeb.NumericMebBlock.FromRaw` | BundleAgent/Bundle/NumericMEB.h:72-79 | a new block holding what `ReadNumeric(raw)` reads (block, count, fields), or its error |
| `NumericMeb.NumericMebBlock.ResetFields` | BundleAgent/Bundle/NumericMEB.h:166-170 | the loop leaves the map equal to `Reset` of the old map and changes nothing else |
| `NumericMeb.NumericMebBlock.InitFromMetadata` | BundleAgent/Bundle/NumericMEB.h:142-161 | the fields are reset, the count and exactly that many pairs are read into them, as `ParseMetadata` says; a failure reports its error |
| `NumericMeb.NumericMebBlock.GetField` | BundleAgent/Bundle/NumericMEB.h:130-132 | the stored value of a present code; an absent code throws `out_of_range` |
| `NumericMeb.NumericMebBlock.WriteFields` | BundleAgent/Bundle/NumericMEB.h:177-184 | the loop writes `SDNV(count)`, then `SDNV(code) SDNV(value)` for every field in ascending code order |
| `NumericMeb.NumericMebBlock.ToRawBytes` | BundleAgent/Bundle/NumericMEB.h:177-187 | the metadata is rebuilt from count and fields, then the block is written as `MetadataBlock.ToRaw`; count and fields are unchanged |
| `NumericMeb.ReadPairsOfPairs` | BundleAgent/Bundle/NumericMEB.h:151-157 | reading the pairs written for a list of fields stores exactly those fields in turn |
| `NumericMeb.ApplyEntries` | BundleAgent/Bundle/NumericMEB.h:181-183 | storing the fields of the map in ascending order rebuilds the map restricted to the codes below k |
| `NumericMeb.EntriesCount` | BundleAgent/Bundle/NumericMEB.h:181-183 | the written list has one entry per stored code below k |
| `NumericMeb.AllKeys` | BundleAgent/Bundle/NumericMEB.h:181-183 | the iteration visits every key once, so it lists `fields.size()` entries and rebuilds the map |
| `NumericMeb.ParseMetadataRoundTrip` | BundleAgent/Bundle/NumericMEB.h:142-187 | the metadata written for fewer than 256 fields parses back to the same count and the same map |
| `NumericMeb.ZeroCount` | BundleAgent/Bundle/NumericMEB.h:149-151 | a count that is 0 as a `uint8` reads no pairs and gives an empty map |
| `NumericMeb.FullMapLost` | BundleAgent/Bundle/NumericMEB.h:61-67 | a map with all 256 codes is written with count 0 (`uint8` wrap), so it reads back empty |
| `NumericMeb.ReadToRaw` | BundleAgent/Bundle/NumericMEB.h:61-187 | a block built from a type and fewer than 256 fields, written and read back, gives the same type, count and fields |
| `NumericMeb.ShownMember` | BundleAgent/Bundle/NumericMEB.h:93-98 | a field is listed exactly when it is in the list and its value is not -1 |
| `NumericMeb.ShownFields` | BundleAgent/Bundle/NumericMEB.h:93-98 | `toString` lists exactly the stored fields whose value is not -1 |
| `NumericMeb.ShownAfterReset` | BundleAgent/Bundle/NumericMEB.h:93-98 | after `resetFields`, `toString` lists no field |
| `RouteReporting.Entry` | BundleAgent/Bundle/RouteReportingMEB.cpp:61-62 | one route record is the node id, a comma, the arrival time in decimal, a comma and the departure time in decimal, so it is at least four bytes longer than the node id |
| `RouteReporting.AddRoute` | BundleAgent/Bundle/RouteReportingMEB.cpp:63-67 | on empty metadata the record becomes the whole metadata; otherwise the old metadata is kept as a prefix, followed by a newline and the record |
| `RouteReporting.Make` | BundleAgent/Bundle/RouteReportingMEB.cpp:32-37 | the block built from a first record is a metadata extension block of type ROUTE_REPORTING_MEB |
| `RouteReporting.RouteReportingMeb.constructor` | BundleAgent/Bundle/RouteReportingMEB.cpp:32-39 | the new block holds exactly the metadata extension block made from the first record |
| `RouteReporting.RouteReportingMeb.Empty` | BundleAgent/Bundle/RouteReportingMEB.cpp:46-50 | the default block is a ROUTE_REPORTING_MEB metadata extension block with empty metadata |
| `RouteReporting.RouteReportingMeb.FromRaw` | BundleAgent/Bundle/RouteReportingMEB.cpp:41-44 | building from raw bytes fails exactly as the metadata extension block parser fails, with the same error, and otherwise holds what that parser read |
| `RouteReporting.RouteReportingMeb.AddRouteInformation` | BundleAgent/Bundle/RouteReportingMEB.cpp:59-68 | the metadata becomes the old metadata with the new record appended as a line; header and metadata type are unchanged |
| `RouteReporting.RouteReportingMeb.GetRouteReporting` | BundleAgent/Bundle/RouteReportingMEB.cpp:55-57 | the route report returned is the block's current metadata |
| `RouteReporting.EntryOneLine` | BundleAgent/Bundle/RouteReportingMEB.cpp:61-62 | a record built from a node id without a newline contains no newline |
| `RouteReporting.EntryFields` | Test/BundleAgent/Bundle/RouteReportingMEBTest.cpp:49-58 | splitting a record at commas gives back the node id and the decimal arrival and departure times, when the node id has no comma |
| `RouteReporting.AddRouteLines` | Test/BundleAgent/Bundle/RouteReportingMEBTest.cpp:91-107 | after adding a record the lines of the metadata are the old lines followed by the record |
| `RouteReporting.RouteSurvivesRaw` | Test/BundleAgent/Bundle/RouteReportingMEBTest.cpp:61-81 | serializing a route report and parsing it back succeeds and yields the same list of route lines |
| `RoutingSelection.Make` | BundleAgent/Bundle/RoutingSelectionMEB.cpp:32-37 | the block built from a selection keeps that selection and is a ROUTING_SELECTION_MEB metadata extension block |
| `RoutingSelection.FromMeb` | BundleAgent/Bundle/RoutingSelectionMEB.cpp:39-46 | reading the selection succeeds exactly when std::stoi succeeds on the metadata, and the selection is that value cut to eight bits; metadata with no leading number is refused as a construction error |
| `RoutingSelection.Read` | BundleAgent/Bundle/RoutingSelectionMEB.cpp:39-46 | a parser failure of the metadata extension block is passed on with its error; otherwise the result is the selection read from the block's metadata |
| `RoutingSelection.SelectionOfMetadata` | BundleAgent/Bundle/RoutingSelectionMEB.cpp:32-46 | reading the selection back from a block built from a selection gives the same block and selection |
| `RoutingSelection.ReadToRaw` | Test/BundleAgent/Bundle/RoutingSelectionMEBTest.cpp:53-73 | serializing a routing selection block and parsing it back yields the same selection and metadata type |
| `RoutingSelection.SelectionWraps` | BundleAgent/Bundle/RoutingSelectionMEB.cpp:42-43 | a decimal selection within int range is read modulo 256 |
| `RoutingSelection.NonNumericRefused` | BundleAgent/Bundle/RoutingSelectionMEB.cpp:43-45 | metadata that is empty or starts with neither a digit, a sign nor white space is refused as a construction error |
| `ControlDirective.Make` | BundleAgent/Bundle/ControlDirectiveMEB.cpp:34-38 | the block built from a number of copies keeps that number and is a CONTROL_DIRECTIVE_MEB metadata extension block |
| `ControlDirective.FromMeb` | BundleAgent/Bundle/ControlDirectiveMEB.cpp:40-47 | reading the number of copies succeeds exactly when std::stoi succeeds on the metadata, and the number is that value cut to sixteen bits; metadata with no leading number is refused as a construction error |
| `ControlDirective.Read` | BundleAgent/Bundle/ControlDirectiveMEB.cpp:40-47 | a parser failure of the metadata extension block is passed on with its error; otherwise the result is the directive read from the block's metadata |
| `ControlDirective.CopiesOfMetadata` | BundleAgent/Bundle/ControlDirectiveMEB.cpp:34-47 | reading the directive back from a block built from a number of copies gives the same block and number |
| `ControlDirective.ReadToRaw` | BundleAgent/Bundle/ControlDirectiveMEB.cpp:34-47 | serializing a control directive block and parsing it back yields the same number of copies and metadata type |
| `ControlDirective.CopiesWrap` | BundleAgent/Bundle/ControlDirectiveMEB.cpp:43-44 | a decimal number within int range is read modulo 65536 |
| `Decimal.ToDecimal` | BundleAgent/Bundle/RoutingSelectionMEB.cpp:35 | std::to_string of an unsigned value is a non-empty run of digits with no leading zero |
| `Decimal.ToDecimalSigned` | BundleAgent/Bundle/RouteReportingMEB.cpp:36-37 | std::to_string of a signed value is non-empty and starts with a minus sign exactly when the value is negative |
| `Decimal.StrtolExact` | BundleAgent/Node/Neighbour/Beacon.cpp:42 | strtol in base 10 converts nothing exactly when no digit follows the leading white space and optional sign |
| `Decimal.Atoi` | BundleAgent/Node/BundleQueue/RouteReportingBC.cpp:114 | atoi gives 0 when nothing converts and the scanned value itself when it fits in an int |
| `Decimal.Stoi` | BundleAgent/Bundle/RoutingSelectionMEB.cpp:42 | std::stoi succeeds exactly when a number is scanned and fits in an int, giving that number; it throws invalid_argument exactly when nothing converts |
| `Decimal.ParseInt` | Lepton/src/main/java/uab/senda/lepton/hub/AdtnPlus_Beacon.java:67 | Integer.parseInt refuses the empty string |
| `Decimal.DecimalLength` | BundleAgent/Bundle/RoutingSelectionMEB.cpp:35 | the decimal text of a number below 10^k has at most k digits |
| `Decimal.DigitsValueOfDecimal` | BundleAgent/Node/Neighbour/Beacon.cpp:42 | the value of the digits std::to_string prints is the number printed |
| `Decimal.StrtolOfDecimal` | BundleAgent/Node/BundleQueue/BundleContainer.cpp:69 | strtol reads back the number std::to_string printed, whatever non-digit text follows |
| `Decimal.AtoiOfDecimal` | BundleAgent/Node/BundleQueue/BundleContainer.cpp:92-93 | atoi reads back an int-range number std::to_string printed, whatever non-digit text follows |
| `Decimal.StrtolOfSigned` | BundleAgent/Node/BundleQueue/RouteReportingBC.cpp:114 | strtol reads back any signed number std::to_string printed |
| `Decimal.AtoiOfSigned` | BundleAgent/Node/BundleQueue/RouteReportingBC.cpp:114-118 | atoi of a printed 64-bit time is that time cut to 32 bits, as the int result of atoi keeps only the low bits |
| `Decimal.StoiOfDecimal` | BundleAgent/Bundle/ControlDirectiveMEB.cpp:43 | std::stoi reads back an int-range number std::to_string printed |
| `Decimal.ParseIntOfDecimal` | Lepton/src/main/java/uab/senda/lepton/hub/AdtnPlus_Beacon.java:70 | Integer.parseInt reads back a non-negative int printed in decimal |
| `Decimal.ParseIntOfSigned` | Lepton/src/main/java/uab/senda/lepton/hub/AdtnPlus_Beacon.java:67 | Integer.parseInt reads back any int printed in decimal |
| `Decimal.PyInt` | Python/statisticsHelper.py:36 | Python 2 `int()` of a whitespace-free token: an optional sign, then at least one digit, with an unbounded value; it never accepts the empty string |
| `Decimal.PyIntExtendsParseInt` | Python/statisticsHelper.py:36 | Python's `int()` accepts every string Java's `parseInt` accepts, with the same value, and agrees with `parseInt` on every value within 32 bits; it never accepts the empty string |
| `Decimal.PyIntOfDecimal` | Python/statisticsHelper.py:36 | Python's int() reads back any integer printed in decimal |
| `BundleQueue.Order` | BundleAgent/Node/BundleQueue/BundleQueue.h:136-144 | the eviction order has one index per queued bundle, each below the queue length |
| `BundleQueue.OrderIsSortedPermutation` | BundleAgent/Node/BundleQueue/BundleQueue.h:143-144 | the eviction order is a permutation of the queue's indices and, for a strict weak ordering, sorted by the comparator |
| `BundleQueue.OlderFirst` | BundleAgent/Node/BundleQueue/BundleQueue.h:63-67 | the default comparator puts a bundle first exactly when it was created earlier |
| `BundleQueue.EvictsOldestFirst` | BundleAgent/Node/BundleQueue/BundleQueue.h:103-105 | with the default comparator no bundle that stays was created before an evicted one |
| `BundleQueue.Evict` | BundleAgent/Node/BundleQueue/BundleQueue.h:145-152 | the eviction loop takes at most as many bundles as the order holds |
| `BundleQueue.Keep` | BundleAgent/Node/BundleQueue/BundleQueue.h:154-159 | erasing bundles leaves at most as many as there were |
| `BundleQueue.EvictFits` | BundleAgent/Node/BundleQueue/BundleQueue.h:148-152 | on a valid queue and a bundle no larger than the budget, the eviction loop stays within the order and ends with room for the bundle, the bytes left being those of the bundles kept |
| `BundleQueue.EvictionIsMinimal` | BundleAgent/Node/BundleQueue/BundleQueue.h:148-152 | the loop evicts no more than needed: without its last eviction the bundle would not fit |
| `BundleQueue.EvictionFollowsComparator` | BundleAgent/Node/BundleQueue/BundleQueue.h:143-152 | with a strict weak ordering, no bundle that stays was to be dropped before an evicted one |
| `BundleQueue.KeptIds` | BundleAgent/Node/BundleQueue/BundleQueue.h:154-158 | erasing bundles removes exactly their ids from the id set |
| `BundleQueue.AppendedValid` | BundleAgent/Node/BundleQueue/BundleQueue.h:113-116 | appending a bundle that fits keeps the id set, the distinct ids and the byte count consistent with the contents and within budget |
| `BundleQueue.EvictedValid` | BundleAgent/Node/BundleQueue/BundleQueue.h:135-162 | making room keeps the queue consistent and within budget |
| `BundleQueue.Enqueued` | BundleAgent/Node/BundleQueue/BundleQueue.h:103-173 | enqueue fails exactly when the admission decision refuses the bundle; otherwise the bundle ends the queue with its id recorded, and the byte limit and the last dequeued id are unchanged |
| `BundleQueue.EnqueueKeepsValid` | BundleAgent/Node/BundleQueue/BundleQueue.h:103-173 | every successful enqueue keeps the queue invariant |
| `BundleQueue.EnqueueOutcome` | BundleAgent/Node/BundleQueue/BundleQueue.h:103-173 | enqueue fails as a duplicate exactly when the id is queued or was the last dequeued, as larger than the queue exactly when a new bundle does not fit and exceeds the budget, as full exactly when it does not fit, fits the budget and drop is set; on success budget and last id are kept, the queue is the old one minus some bundles plus the new one at the back, and exactly the old one plus the new one when it fits |
| `BundleQueue.ExactCapacity` | BundleAgent/Node/BundleQueue/BundleQueue.h:113-116 | a bundle exactly the size of an empty queue's budget is accepted and fills it |
| `BundleQueue.EnqueuedAsWritten` | BundleAgent/Node/BundleQueue/BundleQueue.h:160 | as written, after an eviction the byte count is decreased by the new bundle's size |
| `BundleQueue.AsWrittenLosesCount` | BundleAgent/Node/BundleQueue/BundleQueue.h:145-160 | a queue holding one 6-byte bundle out of 10, given an 8-byte bundle with drop off, ends as written with the byte count wrapped to 2^64-2 and the invariant broken, where the intended count is 8 |
| `BundleQueue.BundleQueue.constructor` | BundleAgent/Node/BundleQueue/BundleQueue.h:78-80 | a new queue is empty, with no ids, no bytes used, the given budget and no last id, and is valid |
| `BundleQueue.BundleQueue.GetSize` | BundleAgent/Node/BundleQueue/BundleQueue.h:190 | the size is the number of queued bundles |
| `BundleQueue.BundleQueue.Enqueue` | BundleAgent/Node/BundleQueue/BundleQueue.h:103-173 | on refusal the error is returned and the queue is unchanged; otherwise no error and the queue is the next state of the intended enqueue |
| `BundleQueue.BundleQueue.MakeRoomFor` | BundleAgent/Node/BundleQueue/BundleQueue.h:135-166 | making room leaves the queue in the intended enqueue's next state |
| `BundleQueue.BundleQueue.SelectEvicted` | BundleAgent/Node/BundleQueue/BundleQueue.h:145-152 | the loop removes exactly the prefix of the order the eviction function takes and ends with the bytes it leaves |
| `BundleQueue.BundleQueue.EraseAll` | BundleAgent/Node/BundleQueue/BundleQueue.h:153-159 | erasing from the highest index down removes exactly the chosen bundles and their ids, leaving byte counts and last id unchanged |
| `BundleQueue.SortIsDescending` | BundleAgent/Node/BundleQueue/BundleQueue.h:153 | sorting distinct indices with std::greater gives a strictly decreasing sequence |
| `BundleQueue.ErasedIsPrefix` | BundleAgent/Node/BundleQueue/BundleQueue.h:150-158 | erasing the evicted indices sorted from the highest down erases exactly the evicted prefix of the order |
| `BundleFifo.BundleQueue.constructor` | BundleAgent/Node/BundleQueue/BundleQueue.cpp:28-30 | a new queue is empty |
| `BundleFifo.BundleQueue.Enqueue` | BundleAgent/Node/BundleQueue/BundleQueue.cpp:40-42 | the bundle is appended at the back |
| `BundleFifo.BundleQueue.Dequeue` | BundleAgent/Node/BundleQueue/BundleQueue.cpp:44-52 | an empty queue raises EmptyBundleQueueException and stays empty; otherwise the front bundle is returned and removed |
| `BundleFifo.PushedAppend` | BundleAgent/Node/BundleQueue/BundleQueue.cpp:40-42 | the bundles pushed by two runs of operations are those of the first followed by those of the second |
| `BundleFifo.Run` | BundleAgent/Node/BundleQueue/BundleQueue.cpp:40-52 | after any sequence of enqueues and dequeues, the bundles dequeued followed by those still queued are the old contents followed by the bundles enqueued, in order |
| `BundleContainer.HeaderText` | BundleAgent/Node/BundleQueue/BundleContainer.cpp:65-68 | the header is written as four decimal digits |
| `BundleContainer.FooterText` | BundleAgent/Node/BundleQueue/BundleContainer.cpp:81-82 | the footer is written as five decimal digits |
| `BundleContainer.Serialize` | BundleAgent/Node/BundleQueue/BundleContainer.cpp:56-60 | the serialized container is the header, the sender id, a NUL, the raw bundle and the footer, and its length is the sum of theirs |
| `BundleContainer.FromField` | BundleAgent/Node/BundleQueue/BundleContainer.cpp:75-78 | the sender id read back is a NUL-free prefix of the data, shorter than the 1024-byte buffer |
| `BundleContainer.Deserialize` | BundleAgent/Node/BundleQueue/BundleContainer.cpp:62-107 | a container is accepted only when the header reads as 4607, the bundle bytes parse and the footer reads as 65297; the sender id is NUL-free and fits the buffer, and the data splits exactly into header, id, NUL, bundle and footer |
| `BundleContainer.HeaderRead` | BundleAgent/Node/BundleQueue/BundleContainer.cpp:69-70 | the header written reads back as 4607 |
| `BundleContainer.FooterRead` | BundleAgent/Node/BundleQueue/BundleContainer.cpp:92-94 | the footer written reads back as 65297 |
| `BundleContainer.DeserializeSerialize` | BundleAgent/Node/BundleQueue/BundleContainer.cpp:56-107 | deserializing a serialized container whose sender id has no NUL and fits the buffer, and whose bundle parses, gives back the container |
| `BundleContainer.DeserializeSound` | BundleAgent/Node/BundleQueue/BundleContainer.cpp:62-101 | whatever is accepted has a valid header and footer, and its sender id and bundle are exactly the bytes between them |
| `BundleContainer.Refusals` | BundleAgent/Node/BundleQueue/BundleContainer.cpp:70-105 | a bad header is refused first, then a bundle that does not parse, then a bad footer, each with its own error |
| `BundleContainer.WrappedFooterAccepted` | BundleAgent/Node/BundleQueue/BundleContainer.cpp:92-94 | the footer text " -239" is not the footer written yet is accepted, since atoi gives -239 and the uint16_t cast makes it 65297 |
| `RouteReportingBC.Serialize` | BundleAgent/Node/BundleQueue/RouteReportingBC.cpp:68-74 | the serialized container is header, sender id, NUL, raw bundle, newline, arrival time, newline, departure time and footer, longer than id and bundle together plus eleven bytes |
| `RouteReportingBC.AfterNewline` | BundleAgent/Node/BundleQueue/RouteReportingBC.cpp:111-115 | the text after the first newline is a strict suffix when there is a newline, and the whole text when there is none |
| `RouteReportingBC.RouteReportingBC.constructor` | BundleAgent/Node/BundleQueue/RouteReportingBC.cpp:39-46 | the sender and the node id are both the given node id, and the bundle and both times are those given |
| `RouteReportingBC.RouteReportingBC.SetDepartureTime` | BundleAgent/Node/BundleQueue/RouteReportingBC.cpp:140-142 | only the departure time changes |
| `RouteReportingBC.RouteReportingBC.Deserialize` | BundleAgent/Node/BundleQueue/RouteReportingBC.cpp:76-129 | the fields and error after deserializing are those of the parse function, including the fields already overwritten when a later check fails |
| `RouteReportingBC.RouteReportingBC.DeserializeBody` | BundleAgent/Node/BundleQueue/RouteReportingBC.cpp:95-124 | the fields and error after reading the part past the sender id are those of the body parse function |
| `RouteReportingBC.TimesRead` | BundleAgent/Node/BundleQueue/RouteReportingBC.cpp:111-118 | the arrival and departure times written read back through atoi, cut to 32 bits |
| `RouteReportingBC.ParseSerialize` | BundleAgent/Node/BundleQueue/RouteReportingBC.cpp:68-129 | deserializing a serialized container whose bundle has no newline and parses gives back the sender id and bundle, the node id set to the sender, and both times cut to 32 bits |
| `RouteReportingBC.NewlineInBundleBreaks` | BundleAgent/Node/BundleQueue/RouteReportingBC.cpp:95-101 | when the raw bundle holds a newline, a successful read returns a bundle shorter than the one written |
| `RouteReportingBC.Parse` | BundleAgent/Node/BundleQueue/RouteReportingBC.cpp:76-129 | a deserialisation that succeeds holds a bundle the bundle parser accepts and a node id equal to the id read |
| `RouteReportingBC.ParseBody` | BundleAgent/Node/BundleQueue/RouteReportingBC.cpp:95-124 | the id read is kept; when the rest succeeds the bundle parses and the node id is the id read |
| `RouteReportingBC.ParseOutcome` | BundleAgent/Node/BundleQueue/RouteReportingBC.cpp:76-129 | on success the node id equals the sender and the bundle parses, has no newline and the sender id fits the buffer; the header error happens exactly when the header does not read as 4607 and changes nothing; a bundle error has changed only the sender |
| `RouteReportingBC.BodyOutcome` | BundleAgent/Node/BundleQueue/RouteReportingBC.cpp:95-124 | reading the body keeps the sender, never reports a bad header, leaves everything unchanged on a bad bundle, and on success sets the node id to the sender with a parsing, newline-free bundle |
| `DropPolicy.Flag` | BundleAgent/Node/BundleProcessor/OppnetFlow/ControlDrivenDropPolicy.cpp:43 | a configuration flag is 1 when the node state entry is true and 0 otherwise |
| `DropPolicy.NewPolicy` | BundleAgent/Node/BundleProcessor/OppnetFlow/ControlDrivenDropPolicy.cpp:33-45 | the policy keeps the node id and its four flags are read, in order, from myCtrlDirective, myCtrlMetric, forwardedCtrlDirective and forwardedMetricDirective |
| `DropPolicy.Score` | BundleAgent/Node/BundleProcessor/OppnetFlow/ControlDrivenDropPolicy.cpp:62-95 | a bundle with neither control block scores 110 when this node is its source and 10 otherwise, whatever the flags |
| `DropPolicy.ScoreFormula` | BundleAgent/Node/BundleProcessor/OppnetFlow/ControlDrivenDropPolicy.cpp:62-95 | the score is 100 for an own bundle, plus 50 times the directive flag with a control directive block, plus 30 times the metric flag with a control metrics block, plus 10 with neither, picking own or forwarded flags by source; it never exceeds 180 |
| `DropPolicy.LessAsWritten` | BundleAgent/Node/BundleProcessor/OppnetFlow/ControlDrivenDropPolicy.cpp:50-60 | as written, equal scores are broken by adding -1 or +1 to the first score in uint8_t before comparing |
| `DropPolicy.Less` | BundleAgent/Node/BundleProcessor/OppnetFlow/ControlDrivenDropPolicy.cpp:50-60 | the intended order never puts a bundle before itself, never puts a higher-scored bundle first, and always puts a lower-scored bundle first |
| `DropPolicy.AsWrittenAgrees` | BundleAgent/Node/BundleProcessor/OppnetFlow/ControlDrivenDropPolicy.cpp:50-60 | the comparator as written agrees with the intended one except on a tie at score 0 |
| `DropPolicy.AsWrittenIrreflexive` | BundleAgent/Node/BundleProcessor/OppnetFlow/ControlDrivenDropPolicy.cpp:54-59 | the comparator as written never puts a bundle before itself |
| `DropPolicy.AsWrittenLosesTie` | BundleAgent/Node/BundleProcessor/OppnetFlow/ControlDrivenDropPolicy.cpp:54-59 | two forwarded bundles with only a control directive block, the forwarded-directive flag off, score 0; as written neither precedes the other although one is older, where the intended comparator puts the older first |
| `DropPolicy.Comparator` | BundleAgent/Node/BundleProcessor/OppnetFlow/ControlDrivenDropPolicy.cpp:50-60 | the comparator handed to the queue is the intended order: lower score first, and on equal scores the older bundle first |
| `DropPolicy.LessIsStrictWeakOrder` | BundleAgent/Node/BundleProcessor/OppnetFlow/ControlDrivenDropPolicy.cpp:50-60 | the intended comparator is irreflexive and transitive, and two bundles are unordered exactly when their scores and creation timestamps are equal |
| `DropPolicy.EvictsLowestScoreFirst` | BundleAgent/Node/BundleProcessor/OppnetFlow/ControlDrivenDropPolicy.h:39-49 | when the queue makes room under this policy, no bundle that stays scores lower than one evicted |
| `SprayAndWait.SprayAndWaitAlgorithm.FromParameters` | BundleAgent/Node/BundleProcessor/OppnetFlow/SprayAndWaitAlgorithm.cpp:33-37 | the algorithm keeps the parameters it is given |
| `SprayAndWait.SprayAndWaitAlgorithm.constructor` | BundleAgent/Node/BundleProcessor/OppnetFlow/SprayAndWaitAlgorithm.cpp:39-43 | the parameters are NR_OF_COPIES set to the given number and BINARY set to 1 or 0 |
| `SprayAndWait.SprayAndWaitAlgorithm.IsBinary` | BundleAgent/Node/BundleProcessor/OppnetFlow/SprayAndWaitAlgorithm.cpp:49-51 | BINARY read as a boolean, nonzero being true; an absent field is the out_of_range error |
| `SprayAndWait.SprayAndWaitAlgorithm.GetNrofCopies` | BundleAgent/Node/BundleProcessor/OppnetFlow/SprayAndWaitAlgorithm.cpp:53-55 | NR_OF_COPIES cut to sixteen bits; an absent field is the out_of_range error |
| `SprayAndWait.SprayAndWaitAlgorithm.SetNrofCopies` | BundleAgent/Node/BundleProcessor/OppnetFlow/SprayAndWaitAlgorithm.cpp:57-59 | only NR_OF_COPIES changes, to the given number |
| `SprayAndWait.SprayAndWaitAlgorithm.DoForward` | BundleAgent/Node/BundleProcessor/OppnetFlow/SprayAndWaitAlgorithm.cpp:61-101 | the bundle gets a spray-and-wait block from the parameters when it has none; the result, the calls made and the copies left in the block are those of the forwarding loop started from NR_OF_COPIES, with the block untouched when no call is made |
| `SprayAndWait.SprayFrom` | BundleAgent/Node/BundleProcessor/OppnetFlow/SprayAndWaitAlgorithm.cpp:81-99 | the loop sends nothing exactly when at most one copy is left or no neighbour remains from i; it sends to no more neighbours than remain, and never ends with more copies than it started with |
| `SprayAndWait.SprayStep` | BundleAgent/Node/BundleProcessor/OppnetFlow/SprayAndWaitAlgorithm.cpp:81-98 | one iteration sends half the copies to the next neighbour, keeps the half on delivery and restores the whole on failure, and the result stays true only when the call delivered or the neighbour already had the bundle |
| `SprayAndWait.SprayVisitsInOrder` | BundleAgent/Node/BundleProcessor/OppnetFlow/SprayAndWaitAlgorithm.cpp:81 | the loop calls the neighbours in list order, at most once each, and stops early only when at most one copy is left |
| `SprayAndWait.SprayHalves` | BundleAgent/Node/BundleProcessor/OppnetFlow/SprayAndWaitAlgorithm.cpp:82-94 | the first call carries half the copies, each later call half of the previous after a delivery or the same after a failure, and the copies left are those of the last call, doubled after a failure |
| `SprayAndWait.SprayForwarded` | BundleAgent/Node/BundleProcessor/OppnetFlow/SprayAndWaitAlgorithm.cpp:95-100 | the result is true exactly when every call delivered or failed with NEIGHBOUR_IN_QUEUE for its neighbour |
| `SprayAndWait.SprayConservesCopies` | BundleAgent/Node/BundleProcessor/OppnetFlow/SprayAndWaitAlgorithm.cpp:81-99 | the copies handed to neighbours that received the bundle plus the copies left never exceed the copies at the start |
| `SprayAndWait.RunAsWritten` | BundleAgent/Node/BundleProcessor/OppnetFlow/SprayAndWaitAlgorithm.cpp:65-99 | the loop as written, with the uint8_t index, run for a given number of iterations |
| `SprayAndWait.AsWrittenNeverStops` | BundleAgent/Node/BundleProcessor/OppnetFlow/SprayAndWaitAlgorithm.cpp:65-81 | with 256 or more neighbours, an even number of copies and every call failing, the loop as written keeps its condition true after any number of iterations, the index wrapping modulo 256 and the copies unchanged |
| `NumericMapedFields.Specified` | BundleAgent/Node/BundleProcessor/OppnetFlow/NumericMapedFields.cpp:58-62 | the specified fields are among the fields held |
| `NumericMapedFields.NumericMapedFields.constructor` | BundleAgent/Node/BundleProcessor/OppnetFlow/NumericMapedFields.cpp:30-33 | a new field map is empty |
| `NumericMapedFields.NumericMapedFields.SetField` | BundleAgent/Node/BundleProcessor/OppnetFlow/NumericMapedFields.cpp:44-47 | only the given key changes, to the given value, and is added when absent |
| `NumericMapedFields.NumericMapedFields.GetFieldAt` | BundleAgent/Node/BundleProcessor/OppnetFlow/NumericMapedFields.cpp:49-53 | the value of a held key, and std::out_of_range for a missing one |
| `NumericMapedFields.NumericMapedFields.IncrementField` | BundleAgent/Node/BundleProcessor/OppnetFlow/NumericMapedFields.cpp:83-88 | a missing key is inserted at 0 and then incremented; only that key changes, it ends one above its old value, and the result is the new value as uint64_t |
| `NumericMapedFields.NumericMapedFields.Reset` | BundleAgent/Node/BundleProcessor/OppnetFlow/NumericMapedFields.cpp:38-43 | every key is kept and every value becomes -1 |
| `NumericMapedFields.NumericMapedFields.NumberOfSpecifiedValues` | BundleAgent/Node/BundleProcessor/OppnetFlow/NumericMapedFields.cpp:55-65 | the count of fields with a non-negative value, kept in a uint8_t and so taken modulo 256 |
| `NumericMapedFields.NumericMapedFields.IsEmpty` | BundleAgent/Node/BundleProcessor/OppnetFlow/NumericMapedFields.cpp:90-93 | true exactly when no key is held |
| `NumericMapedFields.ResetClearsSpecified` | BundleAgent/Node/BundleProcessor/OppnetFlow/NumericMapedFields.cpp:38-65 | after a reset no field counts as specified |
| `NumericMapedFields.SetFieldSpecified` | BundleAgent/Node/BundleProcessor/OppnetFlow/NumericMapedFields.cpp:44-65 | setting a field makes it specified exactly when the value is non-negative, leaving the others as they were |
| `NumericMapedFields.Filled` | BundleAgent/Node/BundleProcessor/OppnetFlow/NumericMapedFields.cpp:44-47 | setting fields 0 to n - 1 one by one on a new object gives exactly those n keys |
| `NumericMapedFields.FilledCount` | BundleAgent/Node/BundleProcessor/OppnetFlow/NumericMapedFields.cpp:55-65 | n fields set one by one are n specified values, and the uint8 count reads n modulo 256 |
| `NumericMapedFields.FullCountWraps` | BundleAgent/Node/BundleProcessor/OppnetFlow/NumericMapedFields.cpp:57-64 | a map filled with 256 specified fields reports 0 of them, the same count as a new object |
| `ControlDataAggregator.Column` | Tools/controller/ControlDataAggregator.h:57-61 | the values collected for one code hold at most one value per raw map |
| `ControlDataAggregator.AllKeys` | Tools/controller/ControlDataAggregator.h:57-61 | every code of every raw map is among the canonical codes |
| `ControlDataAggregator.ControlDataAggregator.constructor` | Tools/controller/ControlDataAggregator.h:39 | a new aggregator has no raw data and empty canonical and aggregated maps |
| `ControlDataAggregator.ControlDataAggregator.Init` | Tools/controller/ControlDataAggregator.h:73-77 | init stores the raw data and clears the canonical and aggregated maps |
| `ControlDataAggregator.ControlDataAggregator.GetCanonicalData` | Tools/controller/ControlDataAggregator.h:55-64 | with raw data and an empty canonical map, the canonical map becomes the grouping of the raw data; otherwise it is unchanged; the raw and aggregated data never change and the canonical map is returned |
| `ControlDataAggregator.AddEntries` | Tools/controller/ControlDataAggregator.h:58-60 | one raw map's entries are appended, each to the list of its code |
| `ControlDataAggregator.GroupStep` | Tools/controller/ControlDataAggregator.h:57-61 | grouping the raw maps is grouping all but the last, then appending the last map's entries |
| `ControlDataAggregator.ColumnOfAppend` | Tools/controller/ControlDataAggregator.h:57-61 | a further raw map adds its value, when it has one, at the end of a code's list |
| `ControlDataAggregator.GroupKeys` | Tools/controller/ControlDataAggregator.h:57-61 | a code is in the canonical map exactly when some raw map holds it, and then its list is non-empty |
| `ControlDataAggregator.GroupCount` | Tools/controller/ControlDataAggregator.h:57-61 | the canonical lists hold exactly as many values as the raw maps have entries |
| `TimestampManager.Seconds` | BundleAgent/Utils/TimestampManager.cpp:50 | the timestamp is the seconds since the year 2000, the current time minus 946684800, when the clock is past that instant |
| `TimestampManager.Next` | BundleAgent/Utils/TimestampManager.cpp:49-58 | the new timestamp is the current second; the sequence number restarts at 0 on a new second and goes up by one, modulo 2^64, within the same second |
| `TimestampManager.TimestampManager.constructor` | BundleAgent/Utils/TimestampManager.cpp:33-36 | a new manager starts with timestamp 0 and sequence number 0 |
| `TimestampManager.TimestampManager.GetTimestamp` | BundleAgent/Utils/TimestampManager.cpp:49-58 | the manager moves to the next stamp for the current time and returns it |
| `TimestampManager.NextIncreases` | BundleAgent/Utils/TimestampManager.cpp:49-58 | with a clock that does not go back and a sequence number short of the maximum, each stamp comes strictly after the previous one in (timestamp, sequence) order |
| `TimestampManager.SameSecond` | BundleAgent/Utils/TimestampManager.cpp:51-56 | the calls in a new second number the stamps 0, 1, 2 |
| `TimestampManager.CountsOn` | BundleAgent/Utils/TimestampManager.cpp:55 | k calls within the same second raise the sequence number by k |
| `TimestampManager.SequenceWraps` | BundleAgent/Utils/TimestampManager.cpp:55 | at the largest sequence number, a further call in the same second wraps it to 0 |
| `Beacon.GetRaw` | BundleAgent/Node/Neighbour/Beacon.cpp:55-64 | the raw beacon is the node id and the address each up to its first NUL, then the port in decimal, each followed by a NUL |
| `Beacon.Fields` | BundleAgent/Node/Neighbour/Beacon.cpp:33-41 | the three fields copied through the 1024-byte buffer contain no NUL and fit the buffer |
| `Beacon.FromRaw` | BundleAgent/Node/Neighbour/Beacon.cpp:32-43 | a beacon read from raw bytes has a NUL-free node id and address, each shorter than the buffer |
| `Beacon.ReadFields` | BundleAgent/Node/Neighbour/Beacon.cpp:32-43 | three NUL-terminated fields that fit the buffer are read back as node id, address, and port through atoi cut to sixteen bits |
| `Beacon.RawRoundTrip` | BundleAgent/Node/Neighbour/Beacon.cpp:32-64 | reading the raw form of a beacon whose id and address have no NUL and fit the buffer gives the same beacon |
| `Beacon.PortCast` | BundleAgent/Node/Neighbour/Beacon.cpp:42 | a port written as 70000 is read as 4464, the uint16_t cast keeping the low sixteen bits |
| `LeptonBeacon.IndexFrom` | Lepton/src/main/java/uab/senda/lepton/hub/AdtnPlus_Beacon.java:60 | String.indexOf('\0', from) finds a position at or after the start, inside the text |
| `LeptonBeacon.IndexFromSpec` | Lepton/src/main/java/uab/senda/lepton/hub/AdtnPlus_Beacon.java:60 | the position found holds the first NUL from the start on, and nothing is found exactly when no NUL follows |
| `LeptonBeacon.FieldEnd` | Lepton/src/main/java/uab/senda/lepton/hub/AdtnPlus_Beacon.java:60-61 | a field end exists only when the field start is inside the text, and is at or after it |
| `LeptonBeacon.ReadEids` | Lepton/src/main/java/uab/senda/lepton/hub/AdtnPlus_Beacon.java:71-76 | a count of zero or less reads nothing and succeeds; otherwise at most count endpoint ids are read |
| `LeptonBeacon.AdtnPlusBeacon.constructor` | Lepton/src/main/java/uab/senda/lepton/hub/AdtnPlus_Beacon.java:34-38 | a new beacon has no source, port 0, no ip and no endpoint ids |
| `LeptonBeacon.AdtnPlusBeacon.FromPacket` | Lepton/src/main/java/uab/senda/lepton/hub/AdtnPlus_Beacon.java:41-43 | building from a packet decodes it into a fresh beacon, and raises the decoding exception when decoding fails |
| `LeptonBeacon.AdtnPlusBeacon.Decode` | Lepton/src/main/java/uab/senda/lepton/hub/AdtnPlus_Beacon.java:57-77 | the beacon and the exception after decoding are those of the decoding function, including the fields already set when a later field fails |
| `LeptonBeacon.AdtnPlusBeacon.DecodeNumbers` | Lepton/src/main/java/uab/senda/lepton/hub/AdtnPlus_Beacon.java:65-77 | the beacon and the exception after reading from the port on are those of the port decoding function |
| `LeptonBeacon.AdtnPlusBeacon.DecodeCount` | Lepton/src/main/java/uab/senda/lepton/hub/AdtnPlus_Beacon.java:68-77 | the beacon and the exception after reading from the id count on are those of the id decoding function |
| `LeptonBeacon.AdtnPlusBeacon.ReadEidsInto` | Lepton/src/main/java/uab/senda/lepton/hub/AdtnPlus_Beacon.java:71-76 | the ids read are appended to the beacon's list, source, port and ip unchanged, and a missing terminator raises StringIndexOutOfBoundsException |
| `LeptonBeacon.AdtnPlusBeacon.Encode` | Lepton/src/main/java/uab/senda/lepton/hub/AdtnPlus_Beacon.java:85-94 | when the text fits at the offset it is copied there, the rest of the buffer unchanged, and the result is the offset plus the buffer length; otherwise the buffer is unchanged and IndexOutOfBoundsException is raised |
| `LeptonBeacon.AdtnPlusBeacon.BuildText` | Lepton/src/main/java/uab/senda/lepton/hub/AdtnPlus_Beacon.java:86-90 | the text built is the beacon's encoding: source, ip, port, id count and each id, each followed by a NUL |
| `LeptonBeacon.AdtnPlusBeacon.GetBeaconType` | Lepton/src/main/java/uab/senda/lepton/hub/AdtnPlus_Beacon.java:102-107 | every beacon is a HELLO beacon |
| `LeptonBeacon.AdtnPlusBeacon.GetDestination` | Lepton/src/main/java/uab/senda/lepton/hub/AdtnPlus_Beacon.java:115-119 | there is never a destination |
| `LeptonBeacon.AdtnPlusBeacon.GetSource` | Lepton/src/main/java/uab/senda/lepton/hub/AdtnPlus_Beacon.java:143-145 | the source decoded, or none |
| `LeptonBeacon.AdtnPlusBeacon.HasGossipingType` | Lepton/src/main/java/uab/senda/lepton/hub/AdtnPlus_Beacon.java:154-161 | true exactly for TCP |
| `LeptonBeacon.AdtnPlusBeacon.GetGossipingAddress` | Lepton/src/main/java/uab/senda/lepton/hub/AdtnPlus_Beacon.java:128-135 | no address for other types; for TCP the ip and port, and IllegalArgumentException from InetSocketAddress when the ip is null or the port is outside 0..65535 |
| `LeptonBeacon.AdtnPlusBeacon.SetGossipingAddress` | Lepton/src/main/java/uab/senda/lepton/hub/AdtnPlus_Beacon.java:170-176 | for TCP only the port changes, to the address's port; otherwise nothing changes |
| `LeptonBeacon.CopyInto` | Lepton/src/main/java/uab/senda/lepton/hub/AdtnPlus_Beacon.java:91 | System.arraycopy places the bytes at the offset and leaves the rest of the buffer unchanged |
| `LeptonBeacon.DecodeFrom` | Lepton/src/main/java/uab/senda/lepton/hub/AdtnPlus_Beacon.java:57-77 | decoding never drops an id the beacon already held; a decode that completes has set the source and the ip |
| `LeptonBeacon.DecodeIp` | Lepton/src/main/java/uab/senda/lepton/hub/AdtnPlus_Beacon.java:62-77 | reading from the ip on keeps the source and the ids already held; a read that completes has set the ip |
| `LeptonBeacon.DecodePort` | Lepton/src/main/java/uab/senda/lepton/hub/AdtnPlus_Beacon.java:65-77 | reading from the port on keeps the source, the ip and the ids already held |
| `LeptonBeacon.DecodeIds` | Lepton/src/main/java/uab/senda/lepton/hub/AdtnPlus_Beacon.java:68-76 | reading the ids keeps the source, the ip and the port, and only appends to the ids held |
| `LeptonBeacon.EncodeText` | Lepton/src/main/java/uab/senda/lepton/hub/AdtnPlus_Beacon.java:86-87 | the text starts with the source, or "null" when there is none, followed by a NUL |
| `LeptonBeacon.DecodeEncode` | Lepton/src/main/java/uab/senda/lepton/hub/AdtnPlus_Beacon.java:57-94 | decoding the encoded text of a beacon whose source, ip and ids have no NUL, at the offset it was placed, succeeds with the same source, ip and port and appends its ids |
| `LeptonBeacon.DecodeFields` | Lepton/src/main/java/uab/senda/lepton/hub/AdtnPlus_Beacon.java:57-77 | a text laid out as NUL-terminated source, ip, decimal port, decimal count and that many ids decodes to exactly those fields, the ids appended |
| `LeptonBeacon.DecodeTwiceRepeatsIds` | Lepton/src/main/java/uab/senda/lepton/hub/AdtnPlus_Beacon.java:38-75 | decoding the same beacon twice into one object lists its ids twice, as the id list is never cleared |
| `LeptonBeacon.DecodeWithoutTerminator` | Lepton/src/main/java/uab/senda/lepton/hub/AdtnPlus_Beacon.java:60-61 | a buffer with no NUL from the offset on raises StringIndexOutOfBoundsException and changes nothing |
| `LeptonBeacon.DecodeKeepsIds` | Lepton/src/main/java/uab/senda/lepton/hub/AdtnPlus_Beacon.java:75 | decoding, even when it fails, only adds to the id list |
| `Table.Below` | BundleAgent/Utils/Table.h:109 | the byte-wise lexicographic order of `std::string`, a proper prefix first |
| `Table.BelowIrreflexive` | BundleAgent/Utils/Table.h:109 | the std::string order of the map's keys never puts an id before itself |
| `Table.BelowTransitive` | BundleAgent/Utils/Table.h:109 | the std::string order of the keys is transitive |
| `Table.BelowTotal` | BundleAgent/Utils/Table.h:109 | any two distinct ids are ordered one way or the other |
| `Table.LeastExists` | BundleAgent/Utils/Table.h:81-86 | every non-empty set of ids has a least one, so the map can be walked in order |
| `Table.KeysInOrder` | BundleAgent/Utils/Table.h:77-89 | the ids listed are those of the map, each once, in ascending order |
| `Table.AscendingUnique` | BundleAgent/Utils/Table.h:77-89 | there is only one ascending list of a given set of ids, so the listing is determined by the keys |
| `Table.ElapsedSeconds` | BundleAgent/Node/Neighbour/NeighbourTable.cpp:69 | the elapsed activity time is the whole seconds between the last activity and now, truncated toward zero |
| `Table.Unexpired` | BundleAgent/Node/Neighbour/NeighbourTable.cpp:65-74 | cleaning keeps exactly the entries whose elapsed time is below the expiration time, unchanged |
| `Table.UnexpiredIdempotent` | BundleAgent/Node/AppListener/ListeningAppsTable.cpp:57-69 | cleaning twice at the same clock reading removes nothing more |
| `Table.UnexpiredMonotone` | BundleAgent/Node/AppListener/ListeningAppsTable.cpp:57-69 | a shorter expiration time keeps no entry that a longer one drops |
| `Table.Table.constructor` | BundleAgent/Utils/Table.h:46-47 | a new table is empty |
| `Table.Table.Update` | BundleAgent/Utils/Table.h:60-70 | a present id has its stored entry refreshed with the new value, an absent one gets the value; no other entry changes, and entries stay under their own ids |
| `Table.Table.GetValues` | BundleAgent/Utils/Table.h:77-89 | the ids of the table, each once, in ascending order |
| `Table.Table.GetValue` | BundleAgent/Utils/Table.h:97-103 | the entry of a present id, and TableException for an absent one |
| `ListeningEndpointsTable.Refresh` | BundleAgent/Utils/Table.h:65 | a refreshed endpoint keeps its id, takes the new address, port and socket, and restarts its activity |
| `ListeningEndpointsTable.RefreshKeepsId` | BundleAgent/Utils/Table.h:60-70 | a table of endpoints keeps each entry under its own id through updates |
| `ListeningEndpointsTable.Appended` | BundleAgent/Node/EndpointListener/ListeningEndpointsTable.cpp:59-69 | the endpoint is appended to its id's list, a new one-element list when the id is absent; no other list changes |
| `ListeningEndpointsTable.CleanedAsWritten` | BundleAgent/Node/EndpointListener/ListeningEndpointsTable.cpp:39-57 | as written, cleaning only ever drops whole lists, leaving every other list as it was |
| `ListeningEndpointsTable.Live` | BundleAgent/Node/EndpointListener/ListeningEndpointsTable.cpp:45-49 | the endpoints kept from a list are exactly those not expired |
| `ListeningEndpointsTable.Cleaned` | BundleAgent/Node/EndpointListener/ListeningEndpointsTable.cpp:39-57 | the intended cleaning keeps only ids that were present |
| `ListeningEndpointsTable.ListeningEndpointsTable.constructor` | BundleAgent/Node/EndpointListener/ListeningEndpointsTable.cpp:33-34 | a new table is empty |
| `ListeningEndpointsTable.ListeningEndpointsTable.Update` | BundleAgent/Node/EndpointListener/ListeningEndpointsTable.cpp:59-69 | the table becomes the old one with the endpoint appended to its id's list, keeping every list non-empty |
| `ListeningEndpointsTable.ListeningEndpointsTable.GetValues` | BundleAgent/Node/EndpointListener/ListeningEndpointsTable.cpp:71-78 | the endpoint ids, each once, in ascending order |
| `ListeningEndpointsTable.ListeningEndpointsTable.GetValue` | BundleAgent/Node/EndpointListener/ListeningEndpointsTable.cpp:80-87 | the list of a present id, and TableException2 for an absent one |
| `ListeningEndpointsTable.ListeningEndpointsTable.Clean` | BundleAgent/Node/EndpointListener/ListeningEndpointsTable.cpp:39-57 | clean as written: a list is dropped exactly when it holds a single expired endpoint, and every other list is kept whole |
| `ListeningEndpointsTable.ListeningEndpointsTable.CleanExpired` | BundleAgent/Node/EndpointListener/ListeningEndpointsTable.cpp:39-57 | the intended cleaning: every expired endpoint is removed from its list, and an id whose list empties is removed |
| `ListeningEndpointsTable.LiveEndpoints` | BundleAgent/Node/EndpointListener/ListeningEndpointsTable.cpp:45-54 | the loop over one list keeps exactly its unexpired endpoints, in order |
| `ListeningEndpointsTable.TwoUpdates` | BundleAgent/Node/EndpointListener/ListeningEndpointsTable.cpp:59-69 | two updates under a new id list both endpoints in the order given |
| `ListeningEndpointsTable.CleanedSpec` | BundleAgent/Node/EndpointListener/ListeningEndpointsTable.cpp:39-57 | after the intended cleaning every endpoint kept was present and is unexpired, every unexpired endpoint is kept under its id, and no list is empty |
| `ListeningEndpointsTable.CleanedIdempotent` | BundleAgent/Node/EndpointListener/ListeningEndpointsTable.cpp:39-57 | cleaning twice at the same clock reading removes nothing more |
| `ListeningEndpointsTable.AsWrittenKeepsExpiredPair` | BundleAgent/Node/EndpointListener/ListeningEndpointsTable.cpp:48-52 | an id with two expired endpoints is kept whole by clean as written, while the intended cleaning removes it |
| `ListeningEndpointsTable.CleansAgreeOnSingletons` | BundleAgent/Node/EndpointListener/ListeningEndpointsTable.cpp:48-52 | when every list holds one endpoint, clean as written and the intended cleaning agree |
| `NeighbourTable.Updated` | BundleAgent/Node/Neighbour/NeighbourTable.cpp:47-63 | a known neighbour takes the new address and port and keeps its id and last activity; an unknown one is added with the current time; nobody else changes |
| `NeighbourTable.InsertAbsent` | BundleAgent/Node/Neighbour/NeighbourTable.cpp:76-81 | std::map::insert adds the neighbours the caller's map lacks and keeps the entries it already has |
| `NeighbourTable.NeighbourTable.constructor` | BundleAgent/Node/Neighbour/NeighbourTable.cpp:34-35 | a new table is empty |
| `NeighbourTable.NeighbourTable.Update` | BundleAgent/Node/Neighbour/NeighbourTable.cpp:47-63 | the table becomes the updated map, and entries stay under their own ids |
| `NeighbourTable.NeighbourTable.CleanNeighbours` | BundleAgent/Node/Neighbour/NeighbourTable.cpp:65-74 | the neighbours whose elapsed time has reached the expiration time are removed and the others kept |
| `NeighbourTable.NeighbourTable.GetNeighbours` | BundleAgent/Node/Neighbour/NeighbourTable.cpp:76-81 | the caller's map with the table's neighbours it lacks inserted |
| `NeighbourTable.Singleton.GetInstance` | BundleAgent/Node/Neighbour/NeighbourTable.cpp:40-45 | the first call creates an empty table and later calls return that same table |
| `NeighbourTable.UpdateKeepsKeys` | BundleAgent/Node/Neighbour/NeighbourTable.cpp:53-57 | updating a known neighbour adds no id |
| `NeighbourTable.UpdateDoesNotRefresh` | BundleAgent/Node/Neighbour/NeighbourTable.cpp:53-57 | updating a known, expired neighbour does not save it from the next cleaning, since update leaves its activity alone |
| `NeighbourTable.InsertAbsentProperties` | BundleAgent/Node/Neighbour/NeighbourTable.cpp:79 | inserting into an empty map copies the table, and in general the caller's entries win |
| `ListeningAppsTable.Registered` | BundleAgent/Node/AppListener/ListeningAppsTable.cpp:39-55 | a known app takes the new address and port and restarts its activity, keeping its id and socket; an unknown one is added with the socket and the current time; no other app changes |
| `ListeningAppsTable.ListeningAppsTable.constructor` | BundleAgent/Node/AppListener/ListeningAppsTable.cpp:33-34 | a new table is empty |
| `ListeningAppsTable.ListeningAppsTable.Update` | BundleAgent/Node/AppListener/ListeningAppsTable.cpp:39-55 | the table becomes the registered map, and entries stay under their own ids |
| `ListeningAppsTable.ListeningAppsTable.Clean` | BundleAgent/Node/AppListener/ListeningAppsTable.cpp:57-69 | the apps whose elapsed time has reached the expiration time are removed and the others kept |
| `ListeningAppsTable.ListeningAppsTable.GetAppIds` | BundleAgent/Node/AppListener/ListeningAppsTable.cpp:71-82 | the app ids, each once, in ascending order |
| `ListeningAppsTable.ListeningAppsTable.GetApp` | BundleAgent/Node/AppListener/ListeningAppsTable.cpp:84-91 | the app of a present id, and ListeningAppsTableException for an absent one |
| `ListeningAppsTable.RegisteredSurvivesClean` | BundleAgent/Node/AppListener/ListeningAppsTable.cpp:39-69 | with a positive expiration time, an app just registered survives a cleaning at the same instant |
| `ListeningAppsTable.RegisterAgainKeepsIds` | BundleAgent/Node/AppListener/ListeningAppsTable.cpp:45-48 | registering a known app again adds no id |
| `StatisticsEvents.Word` | Python/statisticsHelper.py:32 | the first word is a prefix of the line free of whitespace and ends at whitespace or at the end |
| `StatisticsEvents.Words` | Python/statisticsHelper.py:32 | `str.split()` yields only non-empty words free of whitespace |
| `StatisticsEvents.WordsOfUnwords` | Python/statisticsHelper.py:32 | splitting words joined by single spaces gives the words back |
| `StatisticsEvents.ParseLine` | Python/statisticsHelper.py:30-76 | a parsed line keeps its file, row id, event type and the integer value of its second word; fewer than two words raise IndexError |
| `StatisticsEvents.ParseWords` | Python/statisticsHelper.py:35-75 | the per-type field assignment on a split line, with the same IndexError case |
| `StatisticsEvents.ParsedShaped` | Python/statisticsHelper.py:37-75 | every parsed entry fills at least the fields the metrics read for its type: a bundle id for the message events, a destination for relays and contacts, a size and a creation time for receipts |
| `StatisticsEvents.LineOf` | Python/statisticsHelper.py:31 | a log line made of words ends in a newline |
| `StatisticsEvents.LineWords` | Python/statisticsHelper.py:32 | splitting such a line gives back its words |
| `StatisticsEvents.ParseLineOfWords` | Python/statisticsHelper.py:30-36 | parsing a line equals parsing its words |
| `StatisticsEvents.StartWords` | Python/statisticsHelper.py:38-40 | a type 0 line records the node id as sender and maps the name to it |
| `StatisticsEvents.StartLine` | Python/statisticsHelper.py:38-40 | the same for a whole text line |
| `StatisticsEvents.RelayWords` | Python/statisticsHelper.py:48-54 | types 3 and 4 keep the bundle and the address before the colon, as sender or receiver |
| `StatisticsEvents.RelayLine` | Python/statisticsHelper.py:48-54 | the same for a whole text line |
| `StatisticsEvents.ReceivedWords` | Python/statisticsHelper.py:65-69 | a type 8 line keeps bundle and size and turns seconds since 2000 into Unix milliseconds |
| `StatisticsEvents.ReceivedLine` | Python/statisticsHelper.py:65-69 | the same for a whole text line |
| `StatisticsEvents.TruncatedWords` | Python/statisticsHelper.py:68 | a type 8 line with four words raises IndexError |
| `StatisticsEvents.TruncatedReceipt` | Python/statisticsHelper.py:68 | the same for a whole text line |
| `StatisticsEvents.PrintedTime` | Python/statisticsHelper.py:36 | `int()` reads back any printed timestamp |
| `StatisticsEvents.BadTime` | Python/statisticsHelper.py:36 | a second word that is not an integer raises ValueError |
| `StatisticsEvents.Holds` | Python/statisticsHelper.py:134 | one `addFilter` call matches an entry when the type and every given field are equal |
| `StatisticsEvents.Selected` | Python/statisticsHelper.py:107-110 | a query of several `addFilter` calls selects an entry that any one of them matches |
| `StatisticsEvents.Run` | Python/statisticsHelper.py:107-110 | a query returns, in store order, exactly the entries matching one of its filters |
| `StatisticsEvents.OfTypeMembers` | Python/statisticsHelper.py:122-123 | a type-and-file query returns only entries of that type from that file |
| `StatisticsEvents.RunNarrowed` | Python/statisticsHelper.py:107-113 | querying the result of a wider query with a narrower one equals querying the store |
| `StatisticsEvents.RunAppend` | Python/statisticsHelper.py:85-87 | a query over two stores is the concatenation of the two queries |
| `StatisticsEvents.Unused` | Python/statisticsHelper.py:114 | keeps exactly the end events whose row id was not used yet |
| `StatisticsEvents.Paired` | Python/statisticsHelper.py:104-118 | one time per start that found an unused end, never more than starts |
| `StatisticsEvents.IdsOf` | Python/statisticsHelper.py:117 | the row ids of a list of events, no more of them than events |
| `StatisticsEvents.PairedStep` | Python/statisticsHelper.py:114-117 | the end picked for a start is unused and is one of the node's end events |
| `StatisticsEvents.PairedUsesEndsOnce` | Python/statisticsHelper.py:114-117 | no end event is paired twice, and each paired one is an end event |
| `StatisticsEvents.PairedBound` | Python/statisticsHelper.py:104-118 | there are no more times than starts and no more than end events |
| `StatisticsEvents.ReceivedSamples` | Python/statisticsHelper.py:130-142 | one lifetime per receipt and one copy count per distinct bundle |
| `StatisticsEvents.CountOfBundle` | Python/statisticsHelper.py:138-140 | the per-bundle count query counts that bundle's receipts |
| `StatisticsEvents.ReceivedCounts` | Python/statisticsHelper.py:130-142 | copy counts are at least one each, one per distinct bundle, and sum to the number of receipts |
| `StatisticsEvents.NoCopiesNoTimes` | Python/statisticsHelper.py:143-149 | no copy counts only when there were no receipts |
| `StatisticsEvents.SizesTotal` | Python/statisticsHelper.py:121-127 | the sum of received sizes, or ValueError for a size that is not an integer |
| `StatisticsEvents.SizesTotalBound` | Python/statisticsHelper.py:121-127 | with sizes in 0..max the sum exists and is within receipts times max |
| `StatisticsEvents.DeliveredSize` | Python/statisticsHelper.py:157-166 | a delivered size is the size of a receipt of the same bundle |
| `StatisticsEvents.DeliveredTotal` | Python/statisticsHelper.py:152-167 | sums delivered sizes, zero with nothing relayed, ValueError for a bad size |
| `StatisticsEvents.DeliveredBound` | Python/statisticsHelper.py:152-167 | with sizes in 0..max the total exists and is within relays times max |
| `StatisticsEvents.FloorDiv` | Python/statisticsHelper.py:223-225 | Python 2 integer division rounds toward minus infinity |
| `StatisticsEvents.OverheadRatio` | Python/statisticsHelper.py:222-227 | NaN exactly when nothing was delivered, otherwise the floor of the extra received bytes per delivered byte |
| `StatisticsEvents.OverheadIsFloor` | Python/statisticsHelper.py:223-225 | any q bracketing the ratio as a floor is the ratio |
| `StatisticsHelper.IngestOne` | Python/statisticsHelper.py:30-76 | one line either fails, leaving store and names unchanged, or appends one well-shaped entry with the next row id |
| `StatisticsHelper.IngestLines` | Python/statisticsHelper.py:30-76 | a file's lines append at most one entry each, one for every line when none fails, and stop at the first error |
| `StatisticsHelper.IngestStops` | Python/statisticsHelper.py:31-36 | lines after a failing one are not read |
| `StatisticsHelper.IngestFiles` | Python/statisticsHelper.py:82-83 | files are read in order into a growing store, stopping at the first error |
| `StatisticsHelper.IngestFilesStops` | Python/statisticsHelper.py:82-83 | files after a failing one are not read |
| `StatisticsHelper.ReadLog` | Python/statisticsHelper.py:30-76 | a file without errors adds one entry per line, all tagged with the file name |
| `StatisticsHelper.RenameId` | Python/statisticsHelper.py:84-96 | an id changes only when it is a processed name, to that name's node id |
| `StatisticsHelper.ReplacedIn` | Python/statisticsHelper.py:86-95 | one rewrite changes only the chosen id field, and only where it equals the name |
| `StatisticsHelper.ReplaceBoth` | Python/statisticsHelper.py:84-96 | rewriting both fields for one more name extends the rename, other fields untouched |
| `StatisticsHelper.RenameRound` | Python/statisticsHelper.py:84-96 | one round of the loop keeps every entry renamed by the names processed so far |
| `StatisticsHelper.ChainsDependOnOrder` | Python/statisticsHelper.py:84 | when a node id is itself a name, the result depends on the dictionary's iteration order |
| `StatisticsHelper.NodeOf` | Python/statisticsHelper.py:189-232 | a node's record is built exactly when both byte totals are integers; it carries the node's name and its relay count |
| `StatisticsHelper.NodeFails` | Python/statisticsHelper.py:207-213 | building a node's record fails only with ValueError |
| `StatisticsHelper.NodeOverhead` | Python/statisticsHelper.py:222-228 | a node's record carries its name, and its overhead is NaN exactly when it delivered nothing |
| `StatisticsHelper.NodeCopies` | Python/statisticsHelper.py:214 | a node's copy counts are at least one each and sum to its receipts, which equal its lifetimes |
| `StatisticsHelper.NodeTimes` | Python/statisticsHelper.py:219-232 | buffer and contact times are bounded by the starting and ending events and by contacts |
| `StatisticsHelper.FromNumpy` | Python/statisticsHelper.py:118 | numpy's mean or median of nothing is NaN, otherwise the value |
| `StatisticsHelper.Thousandth` | Python/statisticsHelper.py:217-221 | dividing by 1000 keeps zero and NaN and divides a number |
| `StatisticsHelper.ReceivedInfo` | Python/statisticsHelper.py:130-149 | with no copies both copy statistics are the integer 0, otherwise numpy results; the lifetime mean is NaN exactly when there are copies but no lifetimes |
| `StatisticsHelper.ReportOf` | Python/statisticsHelper.py:214-232 | with no copies both copy statistics are 0; the buffer-time and contact-time means are NaN exactly when there are no such times |
| `StatisticsHelper.NodeCopiesReport` | Python/statisticsHelper.py:143-149 | with no receipts both copy statistics are 0; otherwise the mean is the average and the median lies between 1 and the largest count |
| `StatisticsHelper.CopiesStats` | Python/statisticsHelper.py:143-147 | the copy mean and median lie between 1 and the largest copy count |
| `StatisticsHelper.ReportTimes` | Python/statisticsHelper.py:143-149 | lifetime means are 0 exactly with no lifetimes and never NaN; buffer and contact means are NaN exactly with no samples |
| `StatisticsHelper.Records` | Python/statisticsHelper.py:190-235 | one record attempt per file name, in order |
| `StatisticsHelper.Collected` | Python/statisticsHelper.py:190-235 | records are kept up to the first failure, and an error is reported exactly when one failed |
| `StatisticsHelper.CollectedAll` | Python/statisticsHelper.py:190-235 | when none fail every record is kept, in order |
| `StatisticsHelper.CollectedStops` | Python/statisticsHelper.py:190-235 | records after a failure are not kept |
| `StatisticsHelper.Column` | Python/statisticsHelper.py:237-241 | picks one count from every node, in order |
| `StatisticsHelper.CopiesColumn` | Python/statisticsHelper.py:244-245 | picks every node's copy mean or median, in order |
| `StatisticsHelper.NonZero` | Python/statisticsHelper.py:244-245 | drops the zero statistics and keeps the others; empty exactly when all were zero |
| `StatisticsHelper.MeanOfStats` | Python/statisticsHelper.py:244 | numpy's mean is NaN exactly when a value is NaN or there are none, and is never the integer 0 |
| `StatisticsHelper.MedianOfStats` | Python/statisticsHelper.py:245 | numpy's median is NaN exactly when a value is NaN or there are none, and is never the integer 0 |
| `StatisticsHelper.AggregateCopies` | Python/statisticsHelper.py:244-245 | the aggregate copy statistics are NaN exactly when no node received anything, and otherwise lie between 1 and the largest count |
| `StatisticsHelper.KeptInRange` | Python/statisticsHelper.py:244-245 | the mean and median of the non-zero statistics stay within their range |
| `StatisticsHelper.AggregateAsWritten` | Python/statisticsHelper.py:236-246 | the aggregation as written raises ZeroDivisionError exactly when nothing was delivered, and otherwise drops the ratio |
| `StatisticsHelper.Aggregated` | Python/statisticsHelper.py:236-246 | the intended aggregation sums the node counts and stores the overhead, NaN exactly when nothing was delivered |
| `StatisticsHelper.NoDeliveriesCrash` | Python/statisticsHelper.py:242-243 | a single node that delivered nothing crashes the aggregation as written, and gives NaN in the intended one |
| `StatisticsHelper.AggregatesAgree` | Python/statisticsHelper.py:236-246 | when something was delivered both aggregations agree apart from the stored ratio |
| `StatisticsHelper.NoDeliveriesAnywhere` | Python/statisticsHelper.py:241 | the delivered total is never negative and is zero exactly when no node delivered anything |
| `StatisticsHelper.Statistics.constructor` | Python/statisticsHelper.py:8-11 | starts with an empty store, name lookup and node list |
| `StatisticsHelper.Statistics.ParseFile` | Python/statisticsHelper.py:30-76 | the store and name lookup become those of reading the file's lines |
| `StatisticsHelper.Statistics.Replace` | Python/statisticsHelper.py:85-96 | every entry becomes its one-field rewrite, nothing else changes |
| `StatisticsHelper.Statistics.ParseFiles` | Python/statisticsHelper.py:79-97 | reads every file, then renames names to node ids in every entry |
| `StatisticsHelper.Statistics.ReadFiles` | Python/statisticsHelper.py:82-83 | the store and lookup become those of reading the files in order |
| `StatisticsHelper.Statistics.ReplaceNames` | Python/statisticsHelper.py:84-96 | every entry is renamed by all names in the lookup |
| `StatisticsHelper.Statistics.ReplaceName` | Python/statisticsHelper.py:85-96 | one more name is applied to every entry |
| `StatisticsHelper.Statistics.PairEvents` | Python/statisticsHelper.py:110-117 | the loop computes the pairing of starts with unused ends |
| `StatisticsHelper.Statistics.CalculateBufferTime` | Python/statisticsHelper.py:104-118 | buffer times are the pairing of created or relayed-from events with removals, bounded by both |
| `StatisticsHelper.Statistics.GetNeighbourInfo` | Python/statisticsHelper.py:170-186 | contacts count the appearances, and contact times pair them with disappearances |
| `StatisticsHelper.Statistics.GetBytes` | Python/statisticsHelper.py:121-127 | the loop computes the sum of received sizes or its ValueError |
| `StatisticsHelper.Statistics.CalculateReceivedInfo` | Python/statisticsHelper.py:130-142 | copies and lifetimes as specified, copy counts at least one and summing to the receipts |
| `StatisticsHelper.Statistics.GetBytesDelivered` | Python/statisticsHelper.py:152-167 | the loop computes the delivered total or its ValueError |
| `StatisticsHelper.Statistics.GenerateJson` | Python/statisticsHelper.py:189-246 | appends the node records up to the first failure and returns the error or the intended aggregate |
| `StatisticsHelper.Statistics.AppendNodes` | Python/statisticsHelper.py:190-235 | appends the records collected up to the first failure |
| `StatisticsHelper.Statistics.NodeInfoOf` | Python/statisticsHelper.py:192-232 | computes exactly the node's record |
| `Summary.Insert` | Python/statisticsHelper.py:245 | inserting into a sorted list keeps it sorted and adds the element |
| `Summary.Sort` | Python/statisticsHelper.py:245 | the result is sorted and a permutation of the input |
| `Summary.SortedUnique` | Python/statisticsHelper.py:245 | two sorted permutations of the same values are equal |
| `Summary.Mean` | Python/statisticsHelper.py:244 | the mean of nothing is undefined, otherwise times the count it gives the sum |
| `Summary.Median` | Python/statisticsHelper.py:245 | the median of nothing is undefined |
| `Summary.MedianOrderFree` | Python/statisticsHelper.py:245 | the median does not depend on the order of the values |
| `Summary.MedianOfSorted` | Python/statisticsHelper.py:245 | on values already in order the median is the middle one, or the mean of the two middle ones |
| `Summary.MedianIsElement` | Python/statisticsHelper.py:245 | for an odd count the median is one of the values |
| `Summary.MedianBounds` | Python/statisticsHelper.py:245 | the median lies between any lower and upper bound of the values |
| `Summary.SumBounds` | Python/statisticsHelper.py:244 | bounds on the values bound the sum by count times bound |
| `Summary.MeanBounds` | Python/statisticsHelper.py:244 | the mean lies between any lower and upper bound of the values |
| `Summary.Reals` | Python/statisticsHelper.py:244 | converts integer samples to reals, one for one |

## Left out

- Mutexes, the condition variable, and blocking waits are not modelled (BundleQueue, Table, and the tables built on Table). Every operation is one atomic step.
- `saveBundleToDisk`, logging and every `toString` are not modelled. Files written by the agent are I/O outside the model.
- `dequeue`, `wait_for` and `resetLast` of the bounded queue are declared in BundleQueue.h but defined in a file that is not part of this model.
- The `TimestampManager::getInstance` singleton is not modelled: a `TimestampManager` object is created and passed around, and the clock is a parameter of `GetTimestamp`.
- NeighbourTable.NeighbourTable.CleanNeighbours: the source erases an entry and then increments the invalidated iterator, which is undefined behaviour. The model erases every expired neighbour, as intended.
- ListeningAppsTable.ListeningAppsTable.Clean: the same erase-then-increment undefined behaviour. The model erases every expired application.
- ListeningEndpointsTable.ListeningEndpointsTable.Clean: `m_values.erase(it)` inside the loop over `it->second` invalidates the iterator that both loops still use. The model takes the erase as safe: iteration goes on with the next id.
- Beacon.FromRaw: the `strcpy` overflow and reads past the end of the buffer are ruled out by a precondition (a terminated address that fits), not modelled.
- PrimaryBlock.PrimaryBlock.FromRaw: unlike the beacon, nothing is excluded by a precondition. The `strcpy` of an endpoint that starts past the data, or that has 1024 bytes or more before its NUL, is undefined behaviour in the source (PrimaryBlock.cpp:126-144); the model returns the error `Undefined` from `PrimaryBlock.CopyString` instead, and the constructor fails with it.
- Sdnv.Decode: on bytes that never end a number, the source loops past the end of the string. The model returns `Err(Unterminated)` instead.
- Flags are modelled as bit positions, the base-2 logarithm of the masks in BundleTypes.h, because the primary and canonical blocks pass the enum value to `bitset::set`. BundleTypes.h is not part of this model.
- The values of the metadata type constants are chosen, because MetadataTypes.h is not part of this model: routing selection 0x02, route reporting 0x04, spray and wait 0x09, control metrics 0x0A, control directive 0x0B. NEIGHBOUR_IN_QUEUE is chosen as 0x06 for the same reason.
- BundleQueue.Order: `std::sort` leaves the order of equivalent bundles unspecified. The model breaks ties by queue position.
- Table.Table.Update: the source updates the target of the `shared_ptr` in place, and every holder of the pointer sees the change. Values here are copied, so that aliasing is not captured.
- DropPolicy.NewPolicy: the node state read through its JSON facade (ControlDrivenDropPolicy.cpp:33-44) is a total function from entry names to booleans; a missing entry or a value that does not convert to bool is not modelled.
- NeighbourTable.NeighbourTable.Update: a neighbour keeps its id, address, port and last activity time; the endpoint list `m_endpoints` of Neighbour.cpp (lines 38, 61, 69 and 85-87) is not modelled.
- ControlDataAggregator.ControlDataAggregator.constructor: the data pointer the source leaves uninitialised is modelled as no data (`None`).
- NumericMapedFields.NumericMapedFields.IncrementField: requires the value to be below INT64_MAX, where signed overflow is undefined in C++.
- The bundle parser is the parameter `parses` of the route reporting container. Bundles are kept as raw bytes.
- BundleContainer.Serialize: the container stores the bundle's raw bytes as given, not a fresh `toRaw()` of a parsed bundle.
- NumericMapedFields.NumericMapedFields.Reset: NumericMapedFields.cpp:39-42 assigns through a `const auto&`, which does not compile. The model does what the loop intends.
- SprayAndWait.SprayAndWaitAlgorithm.DoForward: SprayAndWaitAlgorithm.cpp:71 calls `getSetMapedFields()`, which the parameters' header does not declare. The model builds the new spray-and-wait block from the algorithm's parameter map.
- ListeningAppsTable.ListeningAppsTable.Update: App.h:78 declares `update(address, port)`, but App.cpp:53 defines `update(shared_ptr<App>)`, which also copies the socket. The model follows the declaration that the table calls: address, port and activity time change, and the socket is kept.
- LeptonBeacon.DecodeFrom, LeptonBeacon.AdtnPlusBeacon.Decode and LeptonBeacon.AdtnPlusBeacon.Encode: Java's `new String(buffer)` and `getBytes()` use the platform charset, and `decode` uses the byte offset as a character index (AdtnPlus_Beacon.java:57-59, 91). The model takes one byte to be one character. With non-ASCII bytes the source decodes different characters, shifts the indices, and encodes a different number of bytes; that is not captured.
- Floating point is modelled as exact real arithmetic. numpy's `mean`, `median` and the `/ 1000` in statisticsHelper.py round; the model does not.
- StatisticsEvents.Run, StatisticsEvents.Selected and StatisticsHelper.IngestOne: the rabaDB library is not part of this model, and three of its behaviours are assumed. Separate `addFilter` calls on one query are OR-ed (statisticsHelper.py:108-109). `run()` and `iterRun()` return the rows in the order they were saved, although the queries ask for no order. `raba_id` is the row's position in the store. The first-row picks `aux[0]` (statisticsHelper.py:116-117) and `p[0]` (statisticsHelper.py:163) depend on the order assumption.
- Reading log files, the rabaDB transaction, writing `data.txt` and `json.dump` are not modelled. Files are passed in as lists of lines, and the report is the returned value.
- `generateWindowValues` has an empty body and is not modelled.
- BundleQueue.BundleQueue.Enqueue: runs the intended byte count, not line 160 as written. The as-written count is `BundleQueue.EnqueuedAsWritten` (see Findings).
- BundleQueue.BundleQueue.MakeRoomFor: recounts the bytes after eviction instead of subtracting the new bundle's size (see Findings).
- SprayAndWait.SprayAndWaitAlgorithm.DoForward: uses an unbounded neighbour index instead of the wrapping `uint8_t` (see Findings).
- DropPolicy.Comparator: gives the queue the intended `Less`. The as-written `LessAsWritten` loses the tie-break at score 0 (see Findings).
- MetadataBlock.Make: sets the metadata extension block type, which the source leaves 0 (see Findings).
- MetadataBlock.ToRaw: writes the body-length SDNV that the source omits (see Findings).
- MetadataBlock.MetadataExtensionBlock.constructor: built on `MetadataBlock.Make`, so the new block has type 8 where the source leaves 0 (see Findings).
- MetadataBlock.MetadataExtensionBlock.ToRawBytes: built on `MetadataBlock.ToRaw`, so it writes the body-length SDNV the source omits (see Findings).
- RoutingSelection.Make: built on `MetadataBlock.Make`, so the block has type 8 where the source leaves 0 (see Findings).
- ControlDirective.Make: built on `MetadataBlock.Make`, so the block has type 8 where the source leaves 0 (see Findings).
- RouteReporting.Make: built on `MetadataBlock.Make`, so the block has type 8 where the source leaves 0 (see Findings).
- RouteReporting.RouteReportingMeb.constructor: sets block type 8 as `MetadataBlock.Make` does, where the source leaves 0 (see Findings).
- RouteReporting.RouteReportingMeb.Empty: sets block type 8 as `MetadataBlock.Make` does, where the source leaves 0 (see Findings).
- NumericMeb.NumericMebBlock.constructor: sets block type 8 as `MetadataBlock.Make` does, where the source leaves 0 (see Findings).
- NumericMeb.NumericMebBlock.ToRawBytes: built on `MetadataBlock.ToRaw`, so it writes the body-length SDNV the source omits (see Findings).
- StatisticsHelper.Statistics.GenerateJson: returns the intended aggregate with a guarded, stored network overhead ratio (see Findings).
- ListeningEndpointsTable.ListeningEndpointsTable.CleanExpired: removes every expired endpoint. `Clean` keeps the source's behaviour as written (see Findings).

## Findings

| source | as written | input that shows it | evidently intended | confidence | as-written member | corrected member |
|---|---|---|---|---|---|---|
| BundleAgent/Node/BundleQueue/BundleQueue.h:160 | after eviction the byte count is decreased by the new bundle's size, so the count no longer matches the queued bundles | a 10-byte queue holding one 6-byte bundle receives an 8-byte one: the 6-byte bundle is evicted, and the uint64 count becomes 6 - 8, which wraps to 2^64 - 2 instead of 8 | the count is the bytes kept plus the new bundle | not executed | `BundleQueue.EnqueuedAsWritten`, `BundleQueue.AsWrittenLosesCount` | `BundleQueue.Enqueued`, `BundleQueue.EnqueueOutcome`, `BundleQueue.BundleQueue.MakeRoomFor` |
| BundleAgent/Node/BundleProcessor/OppnetFlow/SprayAndWaitAlgorithm.cpp:65-81 | the neighbour index is a `uint8_t` that wraps from 255 to 0 | 256 neighbours, an even number of copies, and every send failing: the loop visits neighbours 0..255 again and again and never ends | visit each neighbour at most once | not executed | `SprayAndWait.RunAsWritten`, `SprayAndWait.AsWrittenNeverStops` | `SprayAndWait.SprayFrom`, `SprayAndWait.SprayForwarded`, `SprayAndWait.SprayAndWaitAlgorithm.DoForward` |
| BundleAgent/Bundle/MetadataExtensionBlock.cpp:32-36 | the value constructor leaves the block type 0, and `toRaw` (lines 55-71) writes no body-length SDNV | routing selection "1": the block is 0, 0, 2, '1', which reads back as body length 2, metadata type 49 and no metadata | a metadata extension block that reads back as written | not executed | `MetadataBlock.MakeAsWritten`, `MetadataBlock.ToRawAsWritten`, `MetadataBlock.AsWrittenRoundTripFails` | `MetadataBlock.Make`, `MetadataBlock.ToRaw`, `MetadataBlock.ReadToRaw`, `MetadataBlock.ReadMade`, `MetadataBlock.MetadataExtensionBlock.constructor`, `MetadataBlock.MetadataExtensionBlock.ToRawBytes`, `RoutingSelection.Make`, `ControlDirective.Make`, `RouteReporting.Make`, `RouteReporting.RouteReportingMeb.constructor`, `RouteReporting.RouteReportingMeb.Empty`, `NumericMeb.NumericMebBlock.constructor`, `NumericMeb.NumericMebBlock.ToRawBytes` |
| BundleAgent/Node/BundleProcessor/OppnetFlow/ControlDrivenDropPolicy.cpp:54-57 | the tie-break subtracts 1 from a `uint8_t` score, so at score 0 it wraps to 255 | two forwarded bundles carrying a control directive, with forwarded directives not prioritised, both score 0: neither is ordered before the other although one is older | the older of two equal-score bundles is dropped first | not executed | `DropPolicy.LessAsWritten`, `DropPolicy.AsWrittenLosesTie` | `DropPolicy.Less`, `DropPolicy.LessIsStrictWeakOrder` |
| Python/statisticsHelper.py:242-243 | the network overhead ratio is divided without a guard and never stored | logs in which no node delivered anything: ZeroDivisionError ends the report | the same guarded ratio as each node's, stored in the aggregate | not executed | `StatisticsHelper.AggregateAsWritten`, `StatisticsHelper.NoDeliveriesCrash` | `StatisticsHelper.Aggregated`, `StatisticsHelper.AggregatesAgree` |
| BundleAgent/Node/EndpointListener/ListeningEndpointsTable.cpp:48-52 | an expired endpoint is erased from a copy of the list, and the id is removed only when that copy becomes empty | one id with two expired endpoints: clean leaves both in the table | remove every expired endpoint, and remove ids left with none | not executed | `ListeningEndpointsTable.CleanedAsWritten`, `ListeningEndpointsTable.AsWrittenKeepsExpiredPair` | `ListeningEndpointsTable.Cleaned`, `ListeningEndpointsTable.CleanedSpec`, `ListeningEndpointsTable.ListeningEndpointsTable.CleanExpired` |
