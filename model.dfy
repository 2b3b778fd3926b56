/*
 * showfound's PixelModel as model.cc writes it: the model's pixels in a
 * vector, an index from pixel number to the pixel (the first pixel with
 * that number wins), and the reference image of camera 1.
 */
module PixelModel {
  import opened Wrappers
  import opened ModelPixel

  /** The reference image, which the model only hands out. */
  datatype Image = Image(handle: int)

  /** Position k holds the first pixel numbered n. */
  predicate FirstWithNum(pixels: seq<ModelPixel>, k: int, n: int)
  {
    && 0 <= k < |pixels|
    && pixels[k].num == n
    && forall j :: 0 <= j < k ==> pixels[j].num != n
  }

  /** The index the constructor builds: emplace of each pixel in turn, which keeps the first entry for a number. */
  function Index(pixels: seq<ModelPixel>): map<int, nat>
  {
    if |pixels| == 0 then map[]
    else
      var m := Index(pixels[..|pixels| - 1]);
      var last := pixels[|pixels| - 1];
      if last.num in m then m else m[last.num := |pixels| - 1]
  }

  /** Every pixel's number is indexed, and the index names the first pixel with that number. */
  lemma {:induction false} IndexFinds(pixels: seq<ModelPixel>)
    ensures forall n :: n in Index(pixels) ==> FirstWithNum(pixels, Index(pixels)[n], n)
    ensures forall i :: 0 <= i < |pixels| ==> pixels[i].num in Index(pixels)
  {
    if |pixels| > 0 {
      var init := pixels[..|pixels| - 1];
      IndexFinds(init);
      assert forall j :: 0 <= j < |init| ==> init[j] == pixels[j];
    }
  }

  class PixelModel {
    const refImage: Image
    const pixels: seq<ModelPixel>
    /** pixels_by_num_: the position in pixels of the pixel each number names. */
    const byNum: map<int, nat>

    ghost predicate Valid()
      reads this
    {
      byNum == Index(pixels)
    }

    constructor (refImage: Image, pixels: seq<ModelPixel>)
      ensures Valid() && this.refImage == refImage && this.pixels == pixels
    {
      this.refImage := refImage;
      this.pixels := pixels;
      var m := map[];
      for i := 0 to |pixels|
        invariant m == Index(pixels[..i])
      {
        assert pixels[..i + 1][..i] == pixels[..i];
        if pixels[i].num !in m {
          m := m[pixels[i].num := i];
        }
      }
      assert pixels[..|pixels|] == pixels;
      byNum := m;
    }

    /** The position of the first pixel numbered n, or None (nullptr) when no pixel has that number. */
    method FindPixel(n: int) returns (r: Option<nat>)
      requires Valid()
      ensures r.None? <==> forall i :: 0 <= i < |pixels| ==> pixels[i].num != n
      ensures r.Some? ==> FirstWithNum(pixels, r.value, n)
    {
      IndexFinds(pixels);
      if n in byNum {
        r := Some(byNum[n]);
      } else {
        r := None;
      }
    }

    /** The callback applied to every pixel once, in the vector's order. */
    method ForEachPixel<T>(callback: ModelPixel -> T) returns (out: seq<T>)
      ensures |out| == |pixels|
      ensures forall i :: 0 <= i < |pixels| ==> out[i] == callback(pixels[i])
    {
      out := [];
      for i := 0 to |pixels|
        invariant |out| == i
        invariant forall j :: 0 <= j < i ==> out[j] == callback(pixels[j])
      {
        out := out + [callback(pixels[i])];
      }
    }

    /** Only camera 1 has a reference image; asking for another is fatal. */
    method GetRefImage(cameraNum: int) returns (img: Image)
      requires cameraNum == 1
      ensures img == refImage
    {
      img := refImage;
    }
  }
}
