/**
 * The route-reporting metadata block: each node a bundle passes through adds a line
 * "nodeId,arrival,departure" to the metadata, lines separated by a newline.
 */
module RouteReporting {
  import opened Wire
  import Decimal
  import Canonical
  import MetadataBlock

  const COMMA: byte := 44
  const NEWLINE: byte := 10

  /** nodeId + "," + to_string(arrival) + "," + to_string(departure); time_t is a signed 64-bit count. */
  function Entry(nodeId: seq<byte>, arrival: int64, departure: int64): (r: seq<byte>)
    ensures |r| >= |nodeId| + 4
  {
    nodeId + [COMMA] + Decimal.ToDecimalSigned(arrival) + [COMMA] + Decimal.ToDecimalSigned(departure)
  }

  /** addRouteInformation on the metadata: the entry alone on empty metadata, else after a newline. */
  function AddRoute(metadata: seq<byte>, entry: seq<byte>): (r: seq<byte>)
    ensures metadata == [] ==> r == entry
    ensures metadata != [] ==> |r| == |metadata| + 1 + |entry| && r[..|metadata|] == metadata
  {
    if metadata == [] then entry else metadata + [NEWLINE] + entry
  }

  /** The lines of the route, the empty route having none. */
  function Lines(metadata: seq<byte>): seq<seq<byte>>
  {
    if metadata == [] then [] else Split(metadata, NEWLINE)
  }

  /** RouteReportingMEB(nodeId, arrival, departure): a block whose metadata is the first entry. */
  function Make(nodeId: seq<byte>, arrival: int64, departure: int64): (r: MetadataBlock.Meb)
    ensures r.metadataType == MetadataBlock.ROUTE_REPORTING_MEB
    ensures r.header.blockType == Canonical.METADATA_EXTENSION_BLOCK
  {
    MetadataBlock.Make(MetadataBlock.ROUTE_REPORTING_MEB, Entry(nodeId, arrival, departure))
  }

  class RouteReportingMeb {
    var header: Canonical.Header
    var metadataType: uint8
    var metadata: seq<byte>

    function State(): MetadataBlock.Meb
      reads this
    {
      MetadataBlock.Meb(header, metadataType, metadata)
    }

    constructor (nodeId: seq<byte>, arrival: int64, departure: int64)
      ensures State() == Make(nodeId, arrival, departure)
    {
      header := Canonical.Header(Canonical.METADATA_EXTENSION_BLOCK, Canonical.NO_FLAGS, 0, []);
      metadataType := MetadataBlock.ROUTE_REPORTING_MEB;
      metadata := Entry(nodeId, arrival, departure);
    }

    /** RouteReportingMEB(): no route yet. */
    constructor Empty()
      ensures State() == MetadataBlock.Make(MetadataBlock.ROUTE_REPORTING_MEB, [])
    {
      header := Canonical.Header(Canonical.METADATA_EXTENSION_BLOCK, Canonical.NO_FLAGS, 0, []);
      metadataType := MetadataBlock.ROUTE_REPORTING_MEB;
      metadata := [];
    }

    constructor FromState(m: MetadataBlock.Meb)
      ensures State() == m
    {
      header := m.header;
      metadataType := m.metadataType;
      metadata := m.metadata;
    }

    /** RouteReportingMEB(raw): the metadata extension block reader; the route is the metadata. */
    static method FromRaw(raw: seq<byte>) returns (r: Result<RouteReportingMeb, Canonical.BlockError>)
      ensures MetadataBlock.ReadMeb(raw).Err? ==> r == Err(MetadataBlock.ReadMeb(raw).error)
      ensures MetadataBlock.ReadMeb(raw).Ok? ==> r.Ok? && fresh(r.value) && r.value.State() == MetadataBlock.ReadMeb(raw).value
    {
      var b := MetadataBlock.MetadataExtensionBlock.FromRaw(raw);
      if b.Err? {
        return Err(b.error);
      }
      var m := new RouteReportingMeb.FromState(b.value.State());
      return Ok(m);
    }

    method AddRouteInformation(nodeId: seq<byte>, arrival: int64, departure: int64)
      modifies this
      ensures metadata == AddRoute(old(metadata), Entry(nodeId, arrival, departure))
      ensures header == old(header) && metadataType == old(metadataType)
    {
      var entry := Entry(nodeId, arrival, departure);
      if metadata == [] {
        metadata := entry;
      } else {
        metadata := metadata + [NEWLINE] + entry;
      }
    }

    method GetRouteReporting() returns (route: seq<byte>)
      ensures route == metadata
    {
      return metadata;
    }
  }

  // ----- Properties -----

  /** An entry holds no newline when its node id holds none. */
  lemma EntryOneLine(nodeId: seq<byte>, arrival: int64, departure: int64)
    requires NEWLINE !in nodeId
    ensures NEWLINE !in Entry(nodeId, arrival, departure)
  {
    Decimal.DecimalSymbols(arrival, NEWLINE);
    Decimal.DecimalSymbols(departure, NEWLINE);
  }

  /** An entry splits at its commas into the node id and the two printed times. */
  lemma EntryFields(nodeId: seq<byte>, arrival: int64, departure: int64)
    requires COMMA !in nodeId
    ensures Split(Entry(nodeId, arrival, departure), COMMA)
      == [nodeId, Decimal.ToDecimalSigned(arrival), Decimal.ToDecimalSigned(departure)]
  {
    Decimal.DecimalSymbols(arrival, COMMA);
    Decimal.DecimalSymbols(departure, COMMA);
    ThreeFields(nodeId, Decimal.ToDecimalSigned(arrival), Decimal.ToDecimalSigned(departure));
  }

  lemma ThreeFields(a: seq<byte>, b: seq<byte>, c: seq<byte>)
    requires COMMA !in a && COMMA !in b && COMMA !in c
    ensures Split(a + [COMMA] + b + [COMMA] + c, COMMA) == [a, b, c]
  {
    SplitAppend(a, COMMA, b);
    SplitAppend(a + [COMMA] + b, COMMA, c);
  }

  /** Each addRouteInformation adds exactly one line: the new entry, after the old lines. */
  lemma AddRouteLines(metadata: seq<byte>, entry: seq<byte>)
    requires entry != [] && NEWLINE !in entry
    ensures Lines(AddRoute(metadata, entry)) == Lines(metadata) + [entry]
  {
    if metadata != [] {
      SplitAppend(metadata, NEWLINE, entry);
    }
  }

  /** The route survives the block's raw form, as the raw constructor reads it. */
  lemma RouteSurvivesRaw(m: MetadataBlock.Meb)
    requires !m.header.procFlags[Canonical.EID_FIELD] && |m.metadata| < 0x1_0000
    ensures MetadataBlock.ReadMeb(MetadataBlock.ToRaw(m).header.raw).Ok?
    ensures Lines(MetadataBlock.ReadMeb(MetadataBlock.ToRaw(m).header.raw).value.metadata) == Lines(m.metadata)
  {
    MetadataBlock.ReadBack(m);
  }
}
