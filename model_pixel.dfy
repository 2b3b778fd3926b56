/*
 * showfound's ModelPixel as model_pixel.h declares it: a pixel number, the
 * position seen by each camera (camera n at index n - 1, absent where that
 * camera did not see the pixel), an optional world position and a
 * synthesized flag.
 */
module ModelPixel {
  import opened Wrappers
  import opened Geometry

  datatype ModelPixel = ModelPixel(num: int, cameras: seq<Option<Point2>>, world: Option<Point3>, synthesized: bool)
  {
    /** Whether camera n saw the pixel; n must name one of its cameras. */
    predicate HasCamera(n: int)
      requires 1 <= n <= |cameras|
    {
      cameras[n - 1].Some?
    }

    /** The scan for any camera that saw the pixel. */
    predicate HasAnyCamera()
    {
      AnyPresent(cameras)
    }

    /** The position seen by camera n, which must have seen it (a fatal check otherwise). */
    function Camera(n: int): (p: Point2)
      requires 1 <= n <= |cameras| && HasCamera(n)
      ensures cameras[n - 1] == Some(p)
    {
      cameras[n - 1].value
    }

    predicate HasWorld() { world.Some? }

    /** The world position; the source dereferences it unchecked, so it must be present. */
    function World(): (p: Point3)
      requires HasWorld()
      ensures world == Some(p)
    {
      world.value
    }
  }

  /** The constructor's default: a pixel is not synthesized unless said so. */
  function NewModelPixel(num: int, cameras: seq<Option<Point2>>, world: Option<Point3>): (p: ModelPixel)
    ensures !p.synthesized && p.num == num && p.cameras == cameras && p.world == world
  {
    ModelPixel(num, cameras, world, false)
  }

  /** The loop of has_any_camera: true at the first present entry. */
  predicate AnyPresent(cameras: seq<Option<Point2>>)
  {
    |cameras| > 0 && (cameras[0].Some? || AnyPresent(cameras[1..]))
  }

  /** has_any_camera holds exactly when some camera saw the pixel. */
  lemma {:induction false} AnyCamera(p: ModelPixel)
    ensures p.HasAnyCamera() <==> exists n :: 1 <= n <= |p.cameras| && p.HasCamera(n)
  {
    AnyPresentExists(p.cameras);
    if p.HasAnyCamera() {
      var i :| 0 <= i < |p.cameras| && p.cameras[i].Some?;
      assert p.HasCamera(i + 1);
    }
  }

  lemma {:induction false} AnyPresentExists(cameras: seq<Option<Point2>>)
    ensures AnyPresent(cameras) <==> exists i :: 0 <= i < |cameras| && cameras[i].Some?
  {
    if |cameras| > 0 {
      AnyPresentExists(cameras[1..]);
      assert forall i :: 1 <= i < |cameras| ==> cameras[1..][i - 1] == cameras[i];
    }
  }
}
