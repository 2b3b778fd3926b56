/*
 * The pixel records of the repository's protocol buffers (proto.PixelRecord
 * and its parts), as values: a repeated field is a sequence, an optional
 * message or scalar an Option.
 */
module Records {
  import opened Wrappers
  import opened Geometry

  /** Where one camera saw a pixel, and whether a person moved it there. */
  datatype CameraPixelLocation = CameraPixelLocation(cameraNumber: int, location: Point2, manuallyAdjusted: Option<bool>)

  /** A pixel's world position and, when it was synthesized, the pixels it was derived from. */
  datatype WorldPixelLocation = WorldPixelLocation(location: Point3, derivedFrom: Option<seq<int>>)

  datatype PixelRecord = PixelRecord(pixelNumber: int, cameraPixel: seq<CameraPixelLocation>, worldPixel: Option<WorldPixelLocation>)

  /** proto::PixelRecord(): every field unset. */
  const EmptyRecord: PixelRecord := PixelRecord(0, [], None)
}
