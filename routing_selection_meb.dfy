/** The routing-selection metadata block: the routing algorithm to use, as decimal text. */
module RoutingSelection {
  import opened Wire
  import Bits
  import Decimal
  import Canonical
  import MetadataBlock

  /** The metadata extension block and the selection it carries. */
  datatype Selection = Selection(meb: MetadataBlock.Meb, selection: uint8)

  /** RoutingSelectionMEB(selection): the selection printed in decimal as the metadata. */
  function Make(selection: uint8): (r: Selection)
    ensures r.selection == selection
    ensures r.meb.metadataType == MetadataBlock.ROUTING_SELECTION_MEB
    ensures r.meb.header.blockType == Canonical.METADATA_EXTENSION_BLOCK
  {
    Selection(MetadataBlock.Make(MetadataBlock.ROUTING_SELECTION_MEB, Decimal.ToDecimal(selection)), selection)
  }

  /**
   * The selection of a block read from raw bytes: std::stoi of the metadata, cut to uint8. No digits
   * is a BlockConstructionException; a number outside int lets std::out_of_range escape.
   */
  function FromMeb(m: MetadataBlock.Meb): (r: Result<Selection, Canonical.BlockError>)
    ensures r.Ok? <==> Decimal.Stoi(m.metadata).Ok?
    ensures r.Ok? ==> r.value.meb == m && r.value.selection == U8(Decimal.Stoi(m.metadata).value)
    ensures r == Err(Canonical.BadFormat) <==> Decimal.StrtolExact(m.metadata).None?
  {
    match Decimal.Stoi(m.metadata)
      case Ok(v) => Ok(Selection(m, U8(v)))
      case Err(e) => if e.InvalidArgument? then Err(Canonical.BadFormat) else Err(Canonical.OutOfRange)
  }

  /** RoutingSelectionMEB(raw). */
  function Read(raw: seq<byte>): (r: Result<Selection, Canonical.BlockError>)
    ensures MetadataBlock.ReadMeb(raw).Err? ==> r == Err(MetadataBlock.ReadMeb(raw).error)
    ensures MetadataBlock.ReadMeb(raw).Ok? ==> r == FromMeb(MetadataBlock.ReadMeb(raw).value)
  {
    match MetadataBlock.ReadMeb(raw)
      case Err(e) => Err(e)
      case Ok(m) => FromMeb(m)
  }

  // ----- Properties -----

  /** The selection is recovered from its decimal metadata. */
  lemma SelectionOfMetadata(selection: uint8)
    ensures FromMeb(Make(selection).meb) == Ok(Make(selection))
  {
    Decimal.StoiOfDecimal(selection);
  }

  /** Through the raw form: same metadata type, same selection. */
  lemma ReadToRaw(selection: uint8)
    ensures var r := Read(MetadataBlock.ToRaw(Make(selection).meb).header.raw);
      r.Ok? && r.value.selection == selection && r.value.meb.metadataType == MetadataBlock.ROUTING_SELECTION_MEB
  {
    var m := Make(selection).meb;
    Decimal.DecimalLength(selection);
    MetadataBlock.ReadBack(m);
    Decimal.StoiOfDecimal(selection);
  }

  /** A number printed in decimal and read back as a selection is cut to its low eight bits. */
  lemma SelectionWraps(m: MetadataBlock.Meb, n: nat)
    requires m.metadata == Decimal.ToDecimal(n) && n <= Decimal.INT_MAX
    ensures FromMeb(m).Ok? && FromMeb(m).value.selection == n % 256
  {
    Decimal.StoiOfDecimal(n);
    if n < 256 {
      Bits.ModUnique(n, 256, 0, n);
    }
  }

  /** Metadata without a leading number is refused. */
  lemma NonNumericRefused(m: MetadataBlock.Meb)
    requires m.metadata == [] || (!Decimal.IsDigit(m.metadata[0]) && !Decimal.IsSpace(m.metadata[0])
      && m.metadata[0] != Decimal.MINUS && m.metadata[0] != Decimal.PLUS)
    ensures FromMeb(m) == Err(Canonical.BadFormat)
  {
  }
}
