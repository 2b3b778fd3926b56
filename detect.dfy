/*
 * detect's InsertResult: record that camera `cameraNum` saw pixel
 * `pixelNum` at a point (or did not see it), in a list of pixel records
 * updated in place. The first record for the pixel is updated; when there
 * is none a record is added.
 */
module Detect {
  import opened Wrappers
  import opened Geometry
  import opened Records
  import PixelBuilder

  /** The index of the first record for pixel n, or the length when there is none. */
  function FirstRecord(pixels: seq<PixelRecord>, n: int): (i: nat)
    ensures i <= |pixels|
    ensures i < |pixels| ==> pixels[i].pixelNumber == n
    ensures forall j :: 0 <= j < i ==> pixels[j].pixelNumber != n
  {
    if |pixels| == 0 || pixels[0].pixelNumber == n then 0 else 1 + FirstRecord(pixels[1..], n)
  }

  /** The entry a detection writes: the point, with no manual adjustment. */
  function DetectedEntry(cameraNum: int, point: Point2): CameraPixelLocation
  {
    CameraPixelLocation(cameraNum, point, None)
  }

  /**
   * The camera entries after camera cameraNum saw the pixel at point: the
   * first entry for that camera gets the point and loses its manual flag;
   * without one, an entry is added.
   */
  function Detected(cams: seq<CameraPixelLocation>, cameraNum: int, point: Point2): seq<CameraPixelLocation>
  {
    var i := PixelBuilder.FirstWith(cams, cameraNum);
    if i < |cams| then cams[i := cams[i].(location := point, manuallyAdjusted := None)]
    else cams + [DetectedEntry(cameraNum, point)]
  }

  /** The record list after InsertResult. */
  function Inserted(pixels: seq<PixelRecord>, cameraNum: int, pixelNum: int, point: Option<Point2>): seq<PixelRecord>
  {
    var i := FirstRecord(pixels, pixelNum);
    if i < |pixels| then
      if point.None? then pixels
      else pixels[i := pixels[i].(cameraPixel := Detected(pixels[i].cameraPixel, cameraNum, point.value))]
    else
      pixels + [PixelRecord(pixelNum, if point.Some? then [DetectedEntry(cameraNum, point.value)] else [], None)]
  }

  /**
   * After a detection the camera's first entry is exactly the detected
   * one, no other entry changes, and an entry is added only when the
   * camera had none.
   */
  lemma DetectedSets(cams: seq<CameraPixelLocation>, cameraNum: int, point: Point2)
    ensures var d := Detected(cams, cameraNum, point);
            var k := PixelBuilder.FirstWith(d, cameraNum);
            && k < |d| && d[k] == DetectedEntry(cameraNum, point)
            && |d| == (if PixelBuilder.HasNumber(cams, cameraNum) then |cams| else |cams| + 1)
            && forall j :: 0 <= j < |cams| && j != k ==> d[j] == cams[j]
  {
    var d := Detected(cams, cameraNum, point);
    var i := PixelBuilder.FirstWith(cams, cameraNum);
    if i < |cams| {
      assert PixelBuilder.HasNumber(cams, cameraNum);
      FirstWithAt(d, cameraNum, i);
    } else {
      assert !PixelBuilder.HasNumber(cams, cameraNum);
      FirstWithAt(d, cameraNum, |cams|);
    }
  }

  /** FirstWith finds position i when i is numbered n and nothing before it is. */
  lemma {:induction false} FirstWithAt(cams: seq<CameraPixelLocation>, n: int, i: int)
    requires 0 <= i < |cams| && cams[i].cameraNumber == n
    requires forall j :: 0 <= j < i ==> cams[j].cameraNumber != n
    ensures PixelBuilder.FirstWith(cams, n) == i
  {
    if i > 0 {
      FirstWithAt(cams[1..], n, i - 1);
    }
  }

  /** FirstRecord finds position i when i is pixel n and nothing before it is. */
  lemma {:induction false} FirstRecordAt(pixels: seq<PixelRecord>, n: int, i: int)
    requires 0 <= i < |pixels| && pixels[i].pixelNumber == n
    requires forall j :: 0 <= j < i ==> pixels[j].pixelNumber != n
    ensures FirstRecord(pixels, n) == i
  {
    if i > 0 {
      FirstRecordAt(pixels[1..], n, i - 1);
    }
  }

  /**
   * InsertResult touches only the first record for the pixel (or adds one
   * at the end), and afterwards that record holds the detection.
   */
  lemma InsertedTouchesFirst(pixels: seq<PixelRecord>, cameraNum: int, pixelNum: int, point: Option<Point2>)
    ensures var r := Inserted(pixels, cameraNum, pixelNum, point);
            var k := FirstRecord(pixels, pixelNum);
            && |r| == (if k < |pixels| then |pixels| else |pixels| + 1)
            && FirstRecord(r, pixelNum) == k
            && (forall j :: 0 <= j < |pixels| && j != k ==> r[j] == pixels[j])
            && r[k].pixelNumber == pixelNum && r[k].worldPixel == (if k < |pixels| then pixels[k].worldPixel else None)
  {
    var r := Inserted(pixels, cameraNum, pixelNum, point);
    var k := FirstRecord(pixels, pixelNum);
    FirstRecordAt(r, pixelNum, k);
  }

  /** With a point, the pixel's record then says camera cameraNum saw it there, unadjusted. */
  lemma InsertedRecordsPoint(pixels: seq<PixelRecord>, cameraNum: int, pixelNum: int, point: Point2)
    ensures var r := Inserted(pixels, cameraNum, pixelNum, Some(point));
            var k := FirstRecord(r, pixelNum);
            && k < |r|
            && var cams := r[k].cameraPixel;
               && PixelBuilder.FirstWith(cams, cameraNum) < |cams|
               && cams[PixelBuilder.FirstWith(cams, cameraNum)] == DetectedEntry(cameraNum, point)
  {
    InsertedTouchesFirst(pixels, cameraNum, pixelNum, Some(point));
    var k := FirstRecord(pixels, pixelNum);
    if k < |pixels| {
      DetectedSets(pixels[k].cameraPixel, cameraNum, point);
    } else {
      FirstWithAt([DetectedEntry(cameraNum, point)], cameraNum, 0);
    }
  }

  /** Without a point, a known pixel is left alone and an unknown one gets a record with no camera entry. */
  lemma InsertedWithoutPoint(pixels: seq<PixelRecord>, cameraNum: int, pixelNum: int)
    ensures FirstRecord(pixels, pixelNum) < |pixels| ==> Inserted(pixels, cameraNum, pixelNum, None) == pixels
    ensures FirstRecord(pixels, pixelNum) == |pixels| ==>
              Inserted(pixels, cameraNum, pixelNum, None) == pixels + [PixelRecord(pixelNum, [], None)]
  {
  }

  /** Detecting the same point twice is the same as detecting it once. */
  lemma DetectedIdempotent(cams: seq<CameraPixelLocation>, cameraNum: int, point: Point2)
    ensures Detected(Detected(cams, cameraNum, point), cameraNum, point) == Detected(cams, cameraNum, point)
  {
    var d := Detected(cams, cameraNum, point);
    var i := PixelBuilder.FirstWith(cams, cameraNum);
    if i < |cams| {
      FirstWithAt(d, cameraNum, i);
    } else {
      FirstWithAt(d, cameraNum, |cams|);
    }
  }

  /** Recording the same detection twice is the same as recording it once. */
  lemma InsertedIdempotent(pixels: seq<PixelRecord>, cameraNum: int, pixelNum: int, point: Option<Point2>)
    ensures var r := Inserted(pixels, cameraNum, pixelNum, point);
            Inserted(r, cameraNum, pixelNum, point) == r
  {
    var k := FirstRecord(pixels, pixelNum);
    var r := Inserted(pixels, cameraNum, pixelNum, point);
    FirstRecordAt(r, pixelNum, k);
    if point.Some? {
      if k < |pixels| {
        DetectedIdempotent(pixels[k].cameraPixel, cameraNum, point.value);
      } else {
        var e := DetectedEntry(cameraNum, point.value);
        FirstWithAt([e], cameraNum, 0);
        assert Detected([e], cameraNum, point.value) == [e];
        assert r[k].cameraPixel == [e];
      }
    }
  }

  /** proto::PixelRecords, whose list of records InsertResult edits in place. */
  class PixelRecords {
    var pixel: seq<PixelRecord>

    constructor (pixel: seq<PixelRecord>)
      ensures this.pixel == pixel
    {
      this.pixel := pixel;
    }

    /** Record that camera cameraNum saw pixel pixelNum at point, or did not see it when point is None. */
    method InsertResult(cameraNum: int, pixelNum: int, point: Option<Point2>)
      modifies this
      ensures pixel == Inserted(old(pixel), cameraNum, pixelNum, point)
    {
      var i := 0;
      while i < |pixel|
        invariant 0 <= i <= |pixel|
        invariant forall j :: 0 <= j < i ==> pixel[j].pixelNumber != pixelNum
      {
        if pixel[i].pixelNumber == pixelNum {
          FirstRecordAt(pixel, pixelNum, i);
          if point.Some? {
            var cams := UpdateCamera(pixel[i].cameraPixel, cameraNum, point.value);
            pixel := pixel[i := pixel[i].(cameraPixel := cams)];
          }
          return;
        }
        i := i + 1;
      }
      assert FirstRecord(pixel, pixelNum) == |pixel|;
      var cams := if point.Some? then [DetectedEntry(cameraNum, point.value)] else [];
      pixel := pixel + [PixelRecord(pixelNum, cams, None)];
    }
  }

  /** The inner loop of InsertResult over one record's camera entries. */
  method UpdateCamera(cams: seq<CameraPixelLocation>, cameraNum: int, point: Point2) returns (r: seq<CameraPixelLocation>)
    ensures r == Detected(cams, cameraNum, point)
  {
    var i := 0;
    while i < |cams|
      invariant 0 <= i <= |cams|
      invariant forall j :: 0 <= j < i ==> cams[j].cameraNumber != cameraNum
    {
      if cams[i].cameraNumber == cameraNum {
        FirstWithAt(cams, cameraNum, i);
        return cams[i := cams[i].(location := point, manuallyAdjusted := None)];
      }
      i := i + 1;
    }
    assert PixelBuilder.FirstWith(cams, cameraNum) == |cams|;
    r := cams + [DetectedEntry(cameraNum, point)];
  }
}
