/** Image and world points: cv::Point2i and cv::Point3d. */
module Geometry {
  /** A position in a camera image, in whole pixels. */
  datatype Point2 = Point2(x: int, y: int)

  /** A position in the world; the coordinates are only stored and compared, never computed with. */
  datatype Point3 = Point3(x: real, y: real, z: real)
}
