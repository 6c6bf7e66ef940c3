/** The control-directive metadata block: the number of copies a controller asks for, as decimal text. */
module ControlDirective {
  import opened Wire
  import Bits
  import Decimal
  import Canonical
  import MetadataBlock

  /** The metadata extension block and the number of copies it carries. */
  datatype Directive = Directive(meb: MetadataBlock.Meb, nrOfCopies: uint16)

  /** ControlDirectiveMEB(nrOfCopies): the count printed in decimal as the metadata. */
  function Make(nrOfCopies: uint16): (r: Directive)
    ensures r.nrOfCopies == nrOfCopies
    ensures r.meb.metadataType == MetadataBlock.CONTROL_DIRECTIVE_MEB
    ensures r.meb.header.blockType == Canonical.METADATA_EXTENSION_BLOCK
  {
    Directive(MetadataBlock.Make(MetadataBlock.CONTROL_DIRECTIVE_MEB, Decimal.ToDecimal(nrOfCopies)), nrOfCopies)
  }

  /**
   * The count of a block read from raw bytes: std::stoi of the metadata, cut to uint16. No digits is
   * a BlockConstructionException; a number outside int lets std::out_of_range escape.
   */
  function FromMeb(m: MetadataBlock.Meb): (r: Result<Directive, Canonical.BlockError>)
    ensures r.Ok? <==> Decimal.Stoi(m.metadata).Ok?
    ensures r.Ok? ==> r.value.meb == m && r.value.nrOfCopies == U16(Decimal.Stoi(m.metadata).value)
    ensures r == Err(Canonical.BadFormat) <==> Decimal.StrtolExact(m.metadata).None?
  {
    match Decimal.Stoi(m.metadata)
      case Ok(v) => Ok(Directive(m, U16(v)))
      case Err(e) => if e.InvalidArgument? then Err(Canonical.BadFormat) else Err(Canonical.OutOfRange)
  }

  /** ControlDirectiveMEB(raw). */
  function Read(raw: seq<byte>): (r: Result<Directive, Canonical.BlockError>)
    ensures MetadataBlock.ReadMeb(raw).Err? ==> r == Err(MetadataBlock.ReadMeb(raw).error)
    ensures MetadataBlock.ReadMeb(raw).Ok? ==> r == FromMeb(MetadataBlock.ReadMeb(raw).value)
  {
    match MetadataBlock.ReadMeb(raw)
      case Err(e) => Err(e)
      case Ok(m) => FromMeb(m)
  }

  // ----- Properties -----

  /** Every count up to 65535 is recovered from its decimal metadata. */
  lemma CopiesOfMetadata(nrOfCopies: uint16)
    ensures FromMeb(Make(nrOfCopies).meb) == Ok(Make(nrOfCopies))
  {
    Decimal.StoiOfDecimal(nrOfCopies);
  }

  /** Through the raw form: same metadata type, same count. */
  lemma ReadToRaw(nrOfCopies: uint16)
    ensures var r := Read(MetadataBlock.ToRaw(Make(nrOfCopies).meb).header.raw);
      r.Ok? && r.value.nrOfCopies == nrOfCopies && r.value.meb.metadataType == MetadataBlock.CONTROL_DIRECTIVE_MEB
  {
    var m := Make(nrOfCopies).meb;
    Decimal.DecimalLength(nrOfCopies);
    MetadataBlock.ReadBack(m);
    Decimal.StoiOfDecimal(nrOfCopies);
  }

  /** A larger count printed in decimal comes back cut to its low sixteen bits. */
  lemma CopiesWrap(m: MetadataBlock.Meb, n: nat)
    requires m.metadata == Decimal.ToDecimal(n) && n <= Decimal.INT_MAX
    ensures FromMeb(m).Ok? && FromMeb(m).value.nrOfCopies == n % 0x1_0000
  {
    Decimal.StoiOfDecimal(n);
    if n < 0x1_0000 {
      Bits.ModUnique(n, 0x1_0000, 0, n);
    }
  }
}
