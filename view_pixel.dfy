/** showfound's ViewPixel: what the view is told about one pixel for the current camera. */
module ViewPixel {
  import opened Wrappers
  import opened Geometry

  /** How much is known of a pixel's position, as seen from the current camera. */
  datatype Knowledge = Calculated | Synthesized | ThisOnly | OtherOnly | Unseen

  datatype ViewPixel = ViewPixel(num: int, knowledge: Knowledge, cameraPos: Option<Point2>, worldPos: Option<Point3>)
  {
    /** Drawn only when its position in this camera's image is known. */
    predicate Visible()
    {
      knowledge == Calculated || knowledge == Synthesized || knowledge == ThisOnly
    }

    predicate HasCamera() { cameraPos.Some? }

    /** The image position; asking for it without one is a fatal check. */
    function Camera(): (p: Point2)
      requires HasCamera()
      ensures cameraPos == Some(p)
    {
      cameraPos.value
    }

    predicate HasWorld() { worldPos.Some? }

    /** The world position; asking for it without one is a fatal check. */
    function World(): (p: Point3)
      requires HasWorld()
      ensures worldPos == Some(p)
    {
      worldPos.value
    }
  }
}
