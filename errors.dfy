/** The error taxonomy shared by every revision of the codec, and the width
    of Swift's native `Int`. */
module Errors {
  import opened MLDataType

  datatype Error =
    | InvalidHeaderSize
    | InvalidHeaderData
      /** lookup failure of the older revisions, which carries no key */
    | MissingTensorData
      /** lookup failure of the current revision */
    | MissingTensorDataForKey(key: string)
    | UnsupportedDataType(tag: string)
      /** an array data type the codec cannot map; the source renders the
          case's raw value as the message */
    | UnsupportedArrayDataType(dataType: ArrayDataType)
    | MetadataIncompleteBuffer
    | DataTypeMismatch
      /** Foundation's `DecodingError` (corrupted data, type mismatch, missing key) */
    | DecodingError
      /** the file behind a URL could not be read */
    | ReadFailed
      /** a Swift runtime trap (failed `precondition`, arithmetic overflow,
          a `Range` whose upper bound is below its lower bound): the process
          stops instead of throwing */
    | Trap

  /** Swift's `Int` is 64 bits wide on every platform the package supports. */
  const IntMax: int := 0x7FFF_FFFF_FFFF_FFFF
  const IntMin: int := -0x8000_0000_0000_0000

  predicate IsInt(x: int) {
    IntMin <= x <= IntMax
  }
}
