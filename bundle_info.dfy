/**
 * The read-only view of a bundle that the queue and its drop policies look at (BundleInfo). The
 * bundle parser behind it is not part of this model, so the view is plain data.
 */
module BundleInfo {
  import opened Wire

  type Id = seq<byte>

  datatype Info = Info(
    id: Id,
    source: seq<byte>,
    creationTimestamp: uint64,
    size: uint64,
    /** The metadata types of the metadata extension blocks the bundle carries. */
    metadataTypes: set<uint8>)

  predicate HasMetadataTypeBlock(b: Info, metadataType: uint8)
  {
    metadataType in b.metadataTypes
  }
}
