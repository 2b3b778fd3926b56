/*
 * showfound's PixelController as controller.cc writes it: the current
 * camera, the focused pixel, the range of pixel numbers, the background
 * image mode, and the view pixels built for the current camera from the
 * model's pixels. The calls it makes into the view are not part of this
 * model; the state it keeps is.
 */
module Controller {
  import opened Wrappers
  import opened Geometry
  import MP = ModelPixel
  import VP = ViewPixel
  import PixelModel
  import Bounds
  import Selection
  import StrUtil
  import Text

  /** common.h's ImageMode, IMAGE_LAST included. */
  datatype ImageMode = AllOn | AllOff | FocusOn | Last

  function ModeNumber(m: ImageMode): int
  {
    match m
    case AllOn => 0
    case AllOff => 1
    case FocusOn => 2
    case Last => 3
  }

  function ModeOf(n: int): ImageMode
    requires 0 <= n <= 3
  {
    if n == 0 then AllOn else if n == 1 then AllOff else if n == 2 then FocusOn else Last
  }

  /** NextImageMode: the enumerator after m, with IMAGE_LAST turned back into IMAGE_ALL_ON. */
  function NextMode(m: ImageMode): (r: ImageMode)
    requires m != Last
    ensures r != Last
  {
    var n := ModeNumber(m) + 1;
    if n == ModeNumber(Last) then AllOn else ModeOf(n)
  }

  /** The modes go round ALL_ON, ALL_OFF, FOCUS_ON and back, each step a change. */
  lemma ModesCycle(m: ImageMode)
    requires m != Last
    ensures NextMode(m) != m && NextMode(NextMode(m)) != m
    ensures NextMode(NextMode(NextMode(m))) == m
  {
  }

  /** Every model pixel knows camera cam (has_camera indexes its camera vector unchecked). */
  predicate CamerasCover(pixels: seq<MP.ModelPixel>, cam: int)
  {
    forall i :: 0 <= i < |pixels| ==> 1 <= cam <= |pixels[i].cameras|
  }

  lemma CoverPrefix(pixels: seq<MP.ModelPixel>, cam: int, n: int)
    requires CamerasCover(pixels, cam) && 0 <= n <= |pixels|
    ensures CamerasCover(pixels[..n], cam)
  {
    forall i | 0 <= i < n
      ensures 1 <= cam <= |pixels[..n][i].cameras|
    {
      assert pixels[..n][i] == pixels[i];
    }
  }

  /** SetCamera's classification of one pixel for camera cam. */
  function Classify(p: MP.ModelPixel, cam: int): VP.Knowledge
    requires 1 <= cam <= |p.cameras|
  {
    if !p.HasCamera(cam) then
      if p.HasAnyCamera() then VP.OtherOnly else VP.Unseen
    else if p.HasWorld() then VP.Calculated
    else VP.ThisOnly
  }

  /**
   * What the classification means: seen elsewhere only, seen nowhere, seen
   * here with a world position, or seen here only; never SYNTHESIZED.
   */
  lemma ClassifyMeans(p: MP.ModelPixel, cam: int)
    requires 1 <= cam <= |p.cameras|
    ensures Classify(p, cam) != VP.Synthesized
    ensures Classify(p, cam) == VP.OtherOnly <==> !p.HasCamera(cam) && exists n :: 1 <= n <= |p.cameras| && p.HasCamera(n)
    ensures Classify(p, cam) == VP.Unseen <==> forall n :: 1 <= n <= |p.cameras| ==> !p.HasCamera(n)
    ensures Classify(p, cam) == VP.Calculated <==> p.HasCamera(cam) && p.HasWorld()
    ensures Classify(p, cam) == VP.ThisOnly <==> p.HasCamera(cam) && !p.HasWorld()
  {
    MP.AnyCamera(p);
  }

  /** The view pixel SetCamera makes, with the world position only when the model pixel has one. */
  function ViewPixelFor(p: MP.ModelPixel, cam: int): VP.ViewPixel
    requires 1 <= cam <= |p.cameras|
  {
    VP.ViewPixel(p.num, Classify(p, cam), if p.HasCamera(cam) then Some(p.Camera(cam)) else None, p.world)
  }

  /** A view pixel is drawn exactly when this camera saw it, and then it carries that camera's position. */
  lemma ViewPixelVisible(p: MP.ModelPixel, cam: int)
    requires 1 <= cam <= |p.cameras|
    ensures ViewPixelFor(p, cam).Visible() <==> p.HasCamera(cam)
    ensures ViewPixelFor(p, cam).Visible() ==> ViewPixelFor(p, cam).cameraPos == p.cameras[cam - 1]
    ensures ViewPixelFor(p, cam).HasWorld() <==> p.HasWorld()
  {
    ClassifyMeans(p, cam);
  }

  /**
   * The view pixel as written: the world position is read with
   * pixel.world(), which dereferences it unchecked, so a pixel without one
   * gets whatever `unset` the empty optional holds.
   */
  function ViewPixelAsWritten(p: MP.ModelPixel, cam: int, unset: Point3): VP.ViewPixel
    requires 1 <= cam <= |p.cameras|
  {
    VP.ViewPixel(p.num, Classify(p, cam), if p.HasCamera(cam) then Some(p.Camera(cam)) else None,
                 Some(if p.HasWorld() then p.World() else unset))
  }

  /** A pixel seen only by camera 1: as written its view pixel has a world position, corrected it has none. */
  lemma AsWrittenInventsWorld(unset: Point3)
    ensures var p := MP.NewModelPixel(7, [Some(Point2(3, 4))], None);
            && Classify(p, 1) == VP.ThisOnly
            && ViewPixelAsWritten(p, 1, unset).HasWorld()
            && !ViewPixelFor(p, 1).HasWorld()
  {
  }

  function ViewPixels(pixels: seq<MP.ModelPixel>, cam: int): (vs: seq<VP.ViewPixel>)
    requires CamerasCover(pixels, cam)
    ensures |vs| == |pixels|
  {
    seq(|pixels|, i requires 0 <= i < |pixels| => ViewPixelFor(pixels[i], cam))
  }

  function Nums(pixels: seq<MP.ModelPixel>): (ns: seq<int>)
    ensures |ns| == |pixels| && forall i :: 0 <= i < |pixels| ==> ns[i] == pixels[i].num
  {
    seq(|pixels|, i requires 0 <= i < |pixels| => pixels[i].num)
  }

  /** SetCamera's ForEachPixel callback over all pixels: the view pixels, and the running minimum and maximum. */
  method CollectViewPixels(pixels: seq<MP.ModelPixel>, cam: int) returns (vs: seq<VP.ViewPixel>, mn: int, mx: int)
    requires CamerasCover(pixels, cam)
    ensures vs == ViewPixels(pixels, cam)
    ensures mn == Bounds.RunningMin(Nums(pixels)) && mx == Bounds.RunningMax(Nums(pixels))
  {
    vs := [];
    mn, mx := -1, -1;
    for i := 0 to |pixels|
      invariant CamerasCover(pixels[..i], cam)
      invariant vs == ViewPixels(pixels[..i], cam)
      invariant mn == Bounds.RunningMin(Nums(pixels[..i])) && mx == Bounds.RunningMax(Nums(pixels[..i]))
    {
      var pixel := pixels[i];
      assert Nums(pixels[..i + 1])[..i] == Nums(pixels[..i]);
      if mn == -1 || pixel.num < mn {
        mn := pixel.num;
      }
      mx := if mx < pixel.num then pixel.num else mx;
      vs := vs + [ViewPixelFor(pixel, cam)];
      CoverPrefix(pixels, cam, i + 1);
    }
    assert pixels[..|pixels|] == pixels;
  }

  /** PrintStatus's four groups. */
  datatype Status = WorldKnown | ThisCamera | OtherCamera | UnknownPixel

  /** The group of a pixel: a world position first, then this camera, then any other camera. */
  function StatusOf(p: MP.ModelPixel, cam: int): Status
    requires 1 <= cam <= |p.cameras|
  {
    if p.HasWorld() then WorldKnown
    else if p.HasCamera(cam) then ThisCamera
    else if p.HasAnyCamera() then OtherCamera
    else UnknownPixel
  }

  /** The numbers of the pixels in group s, in model order. */
  function NumsIn(pixels: seq<MP.ModelPixel>, cam: int, s: Status): seq<int>
    requires CamerasCover(pixels, cam)
  {
    if |pixels| == 0 then []
    else
      var init := NumsIn(pixels[..|pixels| - 1], cam, s);
      var last := pixels[|pixels| - 1];
      if StatusOf(last, cam) == s then init + [last.num] else init
  }

  /** Each group holds only numbers of pixels in that group. */
  lemma {:induction false} NumsInOnly(pixels: seq<MP.ModelPixel>, cam: int, s: Status, k: int)
    requires CamerasCover(pixels, cam) && 0 <= k < |NumsIn(pixels, cam, s)|
    ensures exists i :: 0 <= i < |pixels| && pixels[i].num == NumsIn(pixels, cam, s)[k] && StatusOf(pixels[i], cam) == s
  {
    var init := pixels[..|pixels| - 1];
    var last := pixels[|pixels| - 1];
    if k < |NumsIn(init, cam, s)| {
      NumsInOnly(init, cam, s, k);
      var i :| 0 <= i < |init| && init[i].num == NumsIn(init, cam, s)[k] && StatusOf(init[i], cam) == s;
      assert pixels[i] == init[i];
    } else {
      assert pixels[|pixels| - 1] == last;
    }
  }

  /** Together the groups hold every pixel's number exactly once. */
  lemma {:induction false} PartitionExact(pixels: seq<MP.ModelPixel>, cam: int)
    requires CamerasCover(pixels, cam)
    ensures multiset(NumsIn(pixels, cam, WorldKnown)) + multiset(NumsIn(pixels, cam, ThisCamera))
            + multiset(NumsIn(pixels, cam, OtherCamera)) + multiset(NumsIn(pixels, cam, UnknownPixel))
            == multiset(Nums(pixels))
  {
    if |pixels| > 0 {
      var init := pixels[..|pixels| - 1];
      CoverPrefix(pixels, cam, |pixels| - 1);
      PartitionExact(init, cam);
      assert Nums(pixels) == Nums(init) + [pixels[|pixels| - 1].num];
    }
  }

  /** The loop of PrintStatus that sorts the pixels into the four groups. */
  method Partition(pixels: seq<MP.ModelPixel>, cam: int) returns (world: seq<int>, thisCamera: seq<int>, otherCamera: seq<int>, unknown: seq<int>)
    requires CamerasCover(pixels, cam)
    ensures world == NumsIn(pixels, cam, WorldKnown) && thisCamera == NumsIn(pixels, cam, ThisCamera)
    ensures otherCamera == NumsIn(pixels, cam, OtherCamera) && unknown == NumsIn(pixels, cam, UnknownPixel)
  {
    world, thisCamera, otherCamera, unknown := [], [], [], [];
    for i := 0 to |pixels|
      invariant CamerasCover(pixels[..i], cam)
      invariant world == NumsIn(pixels[..i], cam, WorldKnown) && thisCamera == NumsIn(pixels[..i], cam, ThisCamera)
      invariant otherCamera == NumsIn(pixels[..i], cam, OtherCamera) && unknown == NumsIn(pixels[..i], cam, UnknownPixel)
    {
      var pixel := pixels[i];
      assert pixels[..i + 1][..i] == pixels[..i];
      if pixel.HasWorld() {
        world := world + [pixel.num];
      } else {
        if pixel.HasCamera(cam) {
          thisCamera := thisCamera + [pixel.num];
        } else if MP.AnyPresent(pixel.cameras) {
          otherCamera := otherCamera + [pixel.num];
        } else {
          unknown := unknown + [pixel.num];
        }
      }
      CoverPrefix(pixels, cam, i + 1);
    }
    assert pixels[..|pixels|] == pixels;
  }

  /** The text PrintStatus writes. */
  function StatusText(cam: int, maxCam: int, focus: int, world: seq<int>, thisCamera: seq<int>, otherCamera: seq<int>, unknown: seq<int>): string
  {
    "camera: " + Text.IntToString(cam) + " (max " + Text.IntToString(maxCam) + ")\n"
    + "focus: " + (if focus == -1 then "none" else Text.IntToString(focus)) + "\n"
    + "pixels:\n"
    + "  world: " + StrUtil.RangesText(world) + "\n"
    + "  this : " + StrUtil.RangesText(thisCamera) + "\n"
    + "  other: " + StrUtil.RangesText(otherCamera) + "\n"
    + "  unk  : " + StrUtil.RangesText(unknown) + "\n"
  }

  /**
   * NextPixel as written: one step from the focus, with a result equal to the
   * minimum turned into the maximum and one equal to the maximum into the
   * minimum.
   */
  function NextPixelAsWritten(focus: int, forward: bool, lo: int, hi: int): int
  {
    var n := focus + (if forward then 1 else -1);
    if n == lo then hi else if n == hi then lo else n
  }

  /**
   * Stepping forward inside the range never reaches the maximum: the step
   * onto it is turned into the minimum. From pixels 0 to 9, 8 goes to 0 and
   * 9 to 10, which no pixel has.
   */
  lemma AsWrittenSkipsMax(focus: int, lo: int, hi: int)
    requires lo <= focus <= hi && lo + 1 < hi
    ensures NextPixelAsWritten(focus, true, lo, hi) != hi
    ensures NextPixelAsWritten(hi - 1, true, lo, hi) == lo
    ensures NextPixelAsWritten(hi, true, lo, hi) == hi + 1
  {
  }

  class PixelController {
    const model: PixelModel.PixelModel
    const maxCameraNum: int
    var cameraNum: int
    /** The focused pixel, -1 for none. */
    var focus: int
    var minPixelNum: int
    var maxPixelNum: int
    var imageMode: ImageMode
    var cameraPixels: seq<VP.ViewPixel>

    /** The cameras the model has images for: 1 to max_camera_num. */
    predicate IsValidCameraNum(cam: int)
      reads this
    {
      1 <= cam <= maxCameraNum
    }

    ghost predicate Valid()
      reads this
    {
      && IsValidCameraNum(cameraNum)
      && CamerasCover(model.pixels, maxCameraNum)
      && imageMode != Last
    }

    /** The controller starts unfocused on a valid camera, as SetCamera leaves it. */
    constructor (model: PixelModel.PixelModel, maxCameraNum: int, cameraNum: int)
      requires 1 <= cameraNum <= maxCameraNum
      requires CamerasCover(model.pixels, maxCameraNum)
      ensures Valid() && this.model == model && this.maxCameraNum == maxCameraNum
      ensures this.cameraNum == cameraNum && focus == -1 && imageMode == AllOn
      ensures cameraPixels == ViewPixels(model.pixels, cameraNum)
      ensures minPixelNum == Bounds.RunningMin(Nums(model.pixels)) && maxPixelNum == Bounds.RunningMax(Nums(model.pixels))
    {
      this.model := model;
      this.maxCameraNum := maxCameraNum;
      this.cameraNum := cameraNum;
      focus := -1;
      minPixelNum := 0;
      maxPixelNum := 0;
      imageMode := AllOn;
      cameraPixels := [];
      new;
      SetCamera(cameraNum);
    }

    /**
     * Switch to camera cam, if it is valid: the image mode goes back to all
     * on, and the view pixels and the pixel-number range are rebuilt.
     */
    method SetCamera(cam: int)
      requires Valid()
      modifies this
      ensures Valid() && focus == old(focus)
      ensures !IsValidCameraNum(cam) ==>
                && cameraNum == old(cameraNum) && imageMode == old(imageMode) && cameraPixels == old(cameraPixels)
                && minPixelNum == old(minPixelNum) && maxPixelNum == old(maxPixelNum)
      ensures IsValidCameraNum(cam) ==>
                && cameraNum == cam && imageMode == AllOn
                && cameraPixels == ViewPixels(model.pixels, cam)
                && minPixelNum == Bounds.RunningMin(Nums(model.pixels)) && maxPixelNum == Bounds.RunningMax(Nums(model.pixels))
    {
      if !IsValidCameraNum(cam) {
        return;
      }
      cameraNum := cam;
      imageMode := AllOn;
      var vs, mn, mx := CollectViewPixels(model.pixels, cam);
      minPixelNum, maxPixelNum := mn, mx;
      cameraPixels := vs;
    }

    method NextImageMode()
      requires Valid()
      modifies this
      ensures Valid() && imageMode == NextMode(old(imageMode))
      ensures cameraNum == old(cameraNum) && focus == old(focus) && cameraPixels == old(cameraPixels)
      ensures minPixelNum == old(minPixelNum) && maxPixelNum == old(maxPixelNum)
    {
      var next := ModeOf(ModeNumber(imageMode) + 1);
      if next == Last {
        next := AllOn;
      }
      imageMode := next;
    }

    method Unfocus()
      requires Valid()
      modifies this
      ensures Valid() && focus == -1 && imageMode == AllOn
      ensures cameraNum == old(cameraNum) && cameraPixels == old(cameraPixels)
      ensures minPixelNum == old(minPixelNum) && maxPixelNum == old(maxPixelNum)
    {
      focus := -1;
      imageMode := AllOn;
    }

    method Focus(n: int)
      requires Valid()
      modifies this
      ensures Valid() && focus == n
      ensures cameraNum == old(cameraNum) && imageMode == old(imageMode) && cameraPixels == old(cameraPixels)
      ensures minPixelNum == old(minPixelNum) && maxPixelNum == old(maxPixelNum)
    {
      focus := n;
    }

    /**
     * NextPixel with the wrap corrected: one step from the focus, past the
     * maximum to the minimum and below the minimum to the maximum.
     */
    method NextPixel(forward: bool)
      requires Valid()
      modifies this
      ensures Valid() && focus == Selection.Next(old(focus), if forward then 1 else -1, minPixelNum, maxPixelNum)
      ensures minPixelNum <= maxPixelNum ==> minPixelNum <= focus <= maxPixelNum
      ensures cameraNum == old(cameraNum) && imageMode == old(imageMode) && cameraPixels == old(cameraPixels)
      ensures minPixelNum == old(minPixelNum) && maxPixelNum == old(maxPixelNum)
    {
      var n := focus + (if forward then 1 else -1);
      if n > maxPixelNum {
        n := minPixelNum;
      } else if n < minPixelNum {
        n := maxPixelNum;
      }
      Focus(n);
    }

    /** The status text: camera, focus, and the pixels of each group as ranges. */
    method PrintStatus() returns (text: string)
      requires Valid()
      ensures text == StatusText(cameraNum, maxCameraNum, focus,
                                 NumsIn(model.pixels, cameraNum, WorldKnown), NumsIn(model.pixels, cameraNum, ThisCamera),
                                 NumsIn(model.pixels, cameraNum, OtherCamera), NumsIn(model.pixels, cameraNum, UnknownPixel))
    {
      var world, thisCamera, otherCamera, unknown := Partition(model.pixels, cameraNum);
      var w := StrUtil.IndexesToRanges(world);
      var t := StrUtil.IndexesToRanges(thisCamera);
      var o := StrUtil.IndexesToRanges(otherCamera);
      var u := StrUtil.IndexesToRanges(unknown);
      text := "camera: " + Text.IntToString(cameraNum) + " (max " + Text.IntToString(maxCameraNum) + ")\n"
              + "focus: " + (if focus == -1 then "none" else Text.IntToString(focus)) + "\n"
              + "pixels:\n"
              + "  world: " + w + "\n"
              + "  this : " + t + "\n"
              + "  other: " + o + "\n"
              + "  unk  : " + u + "\n";
    }
  }
}
