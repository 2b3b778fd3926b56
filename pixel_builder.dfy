/*
 * showfound's pixel records as model_pixel.cc builds them: the record made
 * from a vector of camera positions, and ModelPixelBuilder, which edits a
 * copy of a record in place (replace or add a camera position, remove one,
 * set or clear the world position) and hands it back.
 */
module PixelBuilder {
  import opened Wrappers
  import opened Geometry
  import opened Records
  import Ordered

  /** The camera entries made from a camera vector: camera i + 1 for every present entry i, in order. */
  function CameraEntries(cameras: seq<Option<Point2>>): (es: seq<CameraPixelLocation>)
    ensures forall i :: 0 <= i < |es| ==>
              && 1 <= es[i].cameraNumber <= |cameras|
              && cameras[es[i].cameraNumber - 1] == Some(es[i].location)
              && es[i].manuallyAdjusted == None
    ensures forall i, j :: 0 <= i < j < |es| ==> es[i].cameraNumber < es[j].cameraNumber
  {
    if |cameras| == 0 then []
    else
      var init := CameraEntries(cameras[..|cameras| - 1]);
      var last := cameras[|cameras| - 1];
      if last.Some? then init + [CameraPixelLocation(|cameras|, last.value, None)] else init
  }

  /** What a record says camera n saw: the location of the last entry numbered n. */
  function Lookup(es: seq<CameraPixelLocation>, n: int): Option<Point2>
  {
    if |es| == 0 then None
    else if es[|es| - 1].cameraNumber == n then Some(es[|es| - 1].location)
    else Lookup(es[..|es| - 1], n)
  }

  lemma {:induction false} LookupAbsent(es: seq<CameraPixelLocation>, n: int)
    requires forall i :: 0 <= i < |es| ==> es[i].cameraNumber != n
    ensures Lookup(es, n) == None
  {
    if |es| > 0 {
      LookupAbsent(es[..|es| - 1], n);
    }
  }

  /** Reading the entries back gives every camera of the vector, present or absent. */
  lemma {:induction false} CameraEntriesRoundTrip(cameras: seq<Option<Point2>>, n: int)
    requires 1 <= n <= |cameras|
    ensures Lookup(CameraEntries(cameras), n) == cameras[n - 1]
  {
    var init := cameras[..|cameras| - 1];
    var es := CameraEntries(init);
    if n == |cameras| {
      if cameras[n - 1].None? {
        LookupAbsent(es, n);
      }
    } else {
      CameraEntriesRoundTrip(init, n);
    }
  }

  /** ModelPixel(num, cameras, world): the record of pixel num with the cameras' entries and, when given, a world position. */
  method FromCameras(num: int, cameras: seq<Option<Point2>>, world: Option<Point3>) returns (r: PixelRecord)
    ensures r.pixelNumber == num && r.cameraPixel == CameraEntries(cameras)
    ensures r.worldPixel.Some? <==> world.Some?
    ensures world.Some? ==> r.worldPixel == Some(WorldPixelLocation(world.value, None))
  {
    var entries := [];
    for i := 0 to |cameras|
      invariant entries == CameraEntries(cameras[..i])
    {
      assert cameras[..i + 1][..i] == cameras[..i];
      if cameras[i].Some? {
        entries := entries + [CameraPixelLocation(i + 1, cameras[i].value, None)];
      }
    }
    assert cameras[..|cameras|] == cameras;
    r := PixelRecord(num, entries, if world.Some? then Some(WorldPixelLocation(world.value, None)) else None);
  }

  /** MakeCameraPixelLocation: the manual flag is written only when it is true. */
  function MakeCameraPixelLocation(cameraNum: int, location: Point2, manualUpdate: bool): (c: CameraPixelLocation)
    ensures c.cameraNumber == cameraNum && c.location == location
    ensures c.manuallyAdjusted.Some? <==> manualUpdate
    ensures c.manuallyAdjusted != Some(false)
  {
    CameraPixelLocation(cameraNum, location, if manualUpdate then Some(true) else None)
  }

  predicate HasNumber(cams: seq<CameraPixelLocation>, n: int)
  {
    exists i :: 0 <= i < |cams| && cams[i].cameraNumber == n
  }

  /** Every entry numbered n replaced by c. */
  function Replaced(cams: seq<CameraPixelLocation>, n: int, c: CameraPixelLocation): (r: seq<CameraPixelLocation>)
    ensures |r| == |cams|
    ensures forall i :: 0 <= i < |cams| ==> r[i] == if cams[i].cameraNumber == n then c else cams[i]
  {
    if |cams| == 0 then []
    else
      var last := cams[|cams| - 1];
      Replaced(cams[..|cams| - 1], n, c) + [if last.cameraNumber == n then c else last]
  }

  /** The entries after an update for camera n, before sorting: replaced where present, else appended. */
  function Upserted(cams: seq<CameraPixelLocation>, n: int, c: CameraPixelLocation): seq<CameraPixelLocation>
  {
    if HasNumber(cams, n) then Replaced(cams, n, c) else cams + [c]
  }

  predicate SortedByCamera(cams: seq<CameraPixelLocation>)
  {
    forall i, j :: 0 <= i < j < |cams| ==> cams[i].cameraNumber <= cams[j].cameraNumber
  }

  /** Replacing the entries numbered n changes no other entry's count. */
  lemma {:induction false} ReplacedCounts(cams: seq<CameraPixelLocation>, n: int, c: CameraPixelLocation, e: CameraPixelLocation)
    requires c.cameraNumber == n && e.cameraNumber != n
    ensures multiset(Replaced(cams, n, c))[e] == multiset(cams)[e]
  {
    if |cams| > 0 {
      var init := cams[..|cams| - 1];
      var last := cams[|cams| - 1];
      var x := if last.cameraNumber == n then c else last;
      var r0 := Replaced(init, n, c);
      assert multiset(r0)[e] == multiset(init)[e] by {
        ReplacedCounts(init, n, c, e);
      }
      assert Replaced(cams, n, c) == r0 + [x];
      assert cams == init + [last];
      CountSnoc(r0, x, e);
      CountSnoc(init, last, e);
    }
  }

  /** Appending x adds one occurrence of x and no other. */
  lemma CountSnoc<T>(s: seq<T>, x: T, e: T)
    ensures multiset(s + [x])[e] == multiset(s)[e] + (if x == e then 1 else 0)
  {
    assert multiset(s + [x]) == multiset(s) + multiset{x};
  }

  /**
   * After SetCameraLocation(n, ...) with entry c: every entry numbered n is
   * c, there is one, and every other entry occurs as often as before.
   */
  lemma UpsertSets(cams: seq<CameraPixelLocation>, n: int, c: CameraPixelLocation, r: seq<CameraPixelLocation>)
    requires c.cameraNumber == n
    requires multiset(r) == multiset(Upserted(cams, n, c))
    ensures c in r
    ensures forall i :: 0 <= i < |r| && r[i].cameraNumber == n ==> r[i] == c
    ensures forall e: CameraPixelLocation :: e.cameraNumber != n ==> multiset(r)[e] == multiset(cams)[e]
  {
    var u := Upserted(cams, n, c);
    if HasNumber(cams, n) {
      var k :| 0 <= k < |cams| && cams[k].cameraNumber == n;
      assert u[k] == c;
      forall e: CameraPixelLocation | e.cameraNumber != n
        ensures multiset(r)[e] == multiset(cams)[e]
      {
        ReplacedCounts(cams, n, c, e);
      }
    }
    assert c in multiset(u);
    forall i | 0 <= i < |r| && r[i].cameraNumber == n
      ensures r[i] == c
    {
      assert r[i] in multiset(u);
    }
  }

  /** One insertion step: c goes after every entry numbered no higher. */
  method InsertByCamera(r: seq<CameraPixelLocation>, c: CameraPixelLocation) returns (s: seq<CameraPixelLocation>)
    requires SortedByCamera(r)
    ensures SortedByCamera(s) && multiset(s) == multiset(r) + multiset{c}
  {
    var j := 0;
    while j < |r| && r[j].cameraNumber <= c.cameraNumber
      invariant 0 <= j <= |r|
      invariant forall k :: 0 <= k < j ==> r[k].cameraNumber <= c.cameraNumber
    {
      j := j + 1;
    }
    s := r[..j] + [c] + r[j..];
    InsertedSorted(r, c, j);
    assert r == r[..j] + r[j..];
  }

  lemma InsertedSorted(r: seq<CameraPixelLocation>, c: CameraPixelLocation, j: int)
    requires SortedByCamera(r) && 0 <= j <= |r|
    requires forall k :: 0 <= k < j ==> r[k].cameraNumber <= c.cameraNumber
    requires j < |r| ==> c.cameraNumber < r[j].cameraNumber
    ensures SortedByCamera(r[..j] + [c] + r[j..])
  {
    var s := r[..j] + [c] + r[j..];
    assert forall k :: 0 <= k < j ==> s[k] == r[k];
    assert s[j] == c;
    assert forall k :: j < k < |s| ==> s[k] == r[k - 1];
  }

  /** The std::sort of the entries by camera number (which keeps no order among equal numbers). */
  method SortByCamera(cams: seq<CameraPixelLocation>) returns (r: seq<CameraPixelLocation>)
    ensures SortedByCamera(r) && multiset(r) == multiset(cams)
  {
    r := [];
    for i := 0 to |cams|
      invariant SortedByCamera(r) && multiset(r) == multiset(cams[..i])
    {
      r := InsertByCamera(r, cams[i]);
      assert cams[..i + 1] == cams[..i] + [cams[i]];
    }
    assert cams[..|cams|] == cams;
  }

  /** The index of the first entry numbered n, or the length when there is none. */
  function FirstWith(cams: seq<CameraPixelLocation>, n: int): (i: nat)
    ensures i <= |cams|
    ensures i < |cams| ==> cams[i].cameraNumber == n
    ensures forall j :: 0 <= j < i ==> cams[j].cameraNumber != n
  {
    if |cams| == 0 || cams[0].cameraNumber == n then 0 else 1 + FirstWith(cams[1..], n)
  }

  /** The entries with the first one numbered n erased. */
  function Cleared(cams: seq<CameraPixelLocation>, n: int): seq<CameraPixelLocation>
  {
    var i := FirstWith(cams, n);
    if i < |cams| then cams[..i] + cams[i + 1..] else cams
  }

  /** ClearCameraLocation takes away exactly one entry, the first numbered n. */
  lemma ClearRemovesFirst(cams: seq<CameraPixelLocation>, n: int)
    requires HasNumber(cams, n)
    ensures FirstWith(cams, n) < |cams|
    ensures |Cleared(cams, n)| == |cams| - 1
    ensures multiset(Cleared(cams, n)) == multiset(cams) - multiset{cams[FirstWith(cams, n)]}
  {
    var i := FirstWith(cams, n);
    assert i < |cams| by {
      var k :| 0 <= k < |cams| && cams[k].cameraNumber == n;
      assert i <= k;
    }
    RemoveAt(cams, i);
  }

  /** Erasing position i takes away one occurrence of the entry there. */
  lemma RemoveAt<T>(s: seq<T>, i: int)
    requires 0 <= i < |s|
    ensures |s[..i] + s[i + 1..]| == |s| - 1
    ensures multiset(s[..i] + s[i + 1..]) == multiset(s) - multiset{s[i]}
  {
    assert s == s[..i] + [s[i]] + s[i + 1..];
    assert multiset(s) == multiset(s[..i] + s[i + 1..]) + multiset{s[i]};
  }

  /** A second entry for the same camera survives ClearCameraLocation. */
  lemma ClearKeepsLater(cams: seq<CameraPixelLocation>, n: int, j: int, k: int)
    requires 0 <= j < k < |cams| && cams[j].cameraNumber == n && cams[k].cameraNumber == n
    ensures HasNumber(Cleared(cams, n), n)
  {
    var i := FirstWith(cams, n);
    assert i <= j;
    var r := cams[..i] + cams[i + 1..];
    assert r[k - 1] == cams[k];
    assert Cleared(cams, n) == r;
  }

  /** The replacing loop of SetCameraLocation, and whether it replaced anything. */
  method ReplaceAll(cams: seq<CameraPixelLocation>, n: int, c: CameraPixelLocation) returns (r: seq<CameraPixelLocation>, updated: bool)
    ensures r == Replaced(cams, n, c)
    ensures updated <==> HasNumber(cams, n)
  {
    r := cams;
    updated := false;
    for i := 0 to |r|
      invariant |r| == |cams|
      invariant forall j :: 0 <= j < i ==> r[j] == if cams[j].cameraNumber == n then c else cams[j]
      invariant forall j :: i <= j < |r| ==> r[j] == cams[j]
      invariant updated <==> exists j :: 0 <= j < i && cams[j].cameraNumber == n
    {
      if r[i].cameraNumber != n {
        continue;
      }
      updated := true;
      r := r[i := c];
    }
  }

  class ModelPixelBuilder {
    var record: PixelRecord

    /** A builder working on a copy of orig's record. */
    constructor (orig: PixelRecord)
      ensures record == orig
    {
      record := orig;
    }

    /**
     * Replace every entry for camera cameraNum with the new location, or add
     * one when there is none, then sort the entries by camera number.
     */
    method SetCameraLocation(cameraNum: int, location: Point2, manualUpdate: bool)
      modifies this
      ensures record.pixelNumber == old(record.pixelNumber) && record.worldPixel == old(record.worldPixel)
      ensures SortedByCamera(record.cameraPixel)
      ensures multiset(record.cameraPixel)
              == multiset(Upserted(old(record.cameraPixel), cameraNum, MakeCameraPixelLocation(cameraNum, location, manualUpdate)))
    {
      var c := MakeCameraPixelLocation(cameraNum, location, manualUpdate);
      ghost var before := record.cameraPixel;
      var cams, updated := ReplaceAll(record.cameraPixel, cameraNum, c);
      if !updated {
        cams := cams + [c];
      }
      assert cams == Upserted(before, cameraNum, c);
      cams := SortByCamera(cams);
      record := record.(cameraPixel := cams);
    }

    /** Erase the first entry for camera cameraNum, if any. */
    method ClearCameraLocation(cameraNum: int)
      modifies this
      ensures record == old(record).(cameraPixel := Cleared(old(record.cameraPixel), cameraNum))
    {
      var cams := record.cameraPixel;
      var i := 0;
      while i < |cams| && cams[i].cameraNumber != cameraNum
        invariant 0 <= i <= |cams|
        invariant forall j :: 0 <= j < i ==> cams[j].cameraNumber != cameraNum
      {
        i := i + 1;
      }
      assert i == FirstWith(cams, cameraNum);
      if i < |cams| {
        record := record.(cameraPixel := cams[..i] + cams[i + 1..]);
      }
    }

    /**
     * Replace the world record: the new location, and the derivation, in
     * ascending order, exactly when a synthesis source is given.
     */
    method SetWorldLocation(location: Point3, source: Option<set<int>>)
      modifies this
      ensures record.pixelNumber == old(record.pixelNumber) && record.cameraPixel == old(record.cameraPixel)
      ensures record.worldPixel.Some? && record.worldPixel.value.location == location
      ensures record.worldPixel.value.derivedFrom.Some? <==> source.Some?
      ensures source.Some? ==>
                && Ordered.Increasing(record.worldPixel.value.derivedFrom.value)
                && forall x :: x in record.worldPixel.value.derivedFrom.value <==> x in source.value
    {
      var derivation := None;
      if source.Some? {
        var from := Ordered.Elements(source.value);
        derivation := Some(from);
      }
      record := record.(worldPixel := Some(WorldPixelLocation(location, derivation)));
    }

    method ClearWorldLocation()
      modifies this
      ensures record == old(record).(worldPixel := None)
    {
      record := record.(worldPixel := None);
    }

    /** The finished record. */
    method Build() returns (r: PixelRecord)
      ensures r == record
    {
      r := record;
    }
  }

  lemma SortedOfOne(r: seq<CameraPixelLocation>, a: CameraPixelLocation)
    requires multiset(r) == multiset([a])
    ensures r == [a]
  {
    assert |r| == |multiset(r)| == 1;
    assert r[0] in multiset(r);
  }

  lemma SortedOfTwo(r: seq<CameraPixelLocation>, a: CameraPixelLocation, b: CameraPixelLocation)
    requires SortedByCamera(r) && multiset(r) == multiset([a, b])
    requires a.cameraNumber < b.cameraNumber
    ensures r == [a, b]
  {
    assert |r| == |multiset(r)| == 2;
    assert r == [r[0], r[1]];
    assert r[0] in multiset(r) && r[1] in multiset(r);
    assert r[0] == a;
    assert multiset{a, r[1]} == multiset{a, b};
    assert multiset{r[1]} == multiset{a, b} - multiset{a};
  }

  /**
   * The builder test: camera 3 set, then moved by hand (which marks it
   * manually adjusted), then camera 1 added before it.
   */
  method SetCameraLocationExample() returns (first: PixelRecord, second: PixelRecord, third: PixelRecord)
    ensures first == PixelRecord(0, [CameraPixelLocation(3, Point2(1, 2), None)], None)
    ensures second == PixelRecord(0, [CameraPixelLocation(3, Point2(4, 5), Some(true))], None)
    ensures third == PixelRecord(0, [CameraPixelLocation(1, Point2(1, 2), None), CameraPixelLocation(3, Point2(4, 5), Some(true))], None)
  {
    var c3: CameraPixelLocation := CameraPixelLocation(3, Point2(1, 2), None);
    var m3: CameraPixelLocation := CameraPixelLocation(3, Point2(4, 5), Some(true));
    var c1: CameraPixelLocation := CameraPixelLocation(1, Point2(1, 2), None);

    var b := new ModelPixelBuilder(EmptyRecord);
    b.SetCameraLocation(3, Point2(1, 2), false);
    ExampleSteps(c3, m3, c1);
    SortedOfOne(b.record.cameraPixel, c3);
    first := b.Build();

    b := new ModelPixelBuilder(first);
    b.SetCameraLocation(3, Point2(4, 5), true);
    SortedOfOne(b.record.cameraPixel, m3);
    second := b.Build();

    b := new ModelPixelBuilder(second);
    b.SetCameraLocation(1, Point2(1, 2), false);
    SortedOfTwo(b.record.cameraPixel, c1, m3);
    third := b.Build();
  }

  /** The builder test for the world location: set on an empty record, with no derivation. */
  method SetWorldLocationExample() returns (r: PixelRecord)
    ensures r == PixelRecord(0, [], Some(WorldPixelLocation(Point3(1.0, 2.0, 3.0), None)))
  {
    var b := new ModelPixelBuilder(EmptyRecord);
    b.SetWorldLocation(Point3(1.0, 2.0, 3.0), None);
    r := b.Build();
  }

  /** The entries before sorting at each step of the builder test. */
  lemma ExampleSteps(c3: CameraPixelLocation, m3: CameraPixelLocation, c1: CameraPixelLocation)
    requires c3.cameraNumber == 3 && m3.cameraNumber == 3 && c1.cameraNumber == 1
    ensures multiset(Upserted([], 3, c3)) == multiset([c3])
    ensures multiset(Upserted([c3], 3, m3)) == multiset([m3])
    ensures multiset(Upserted([m3], 1, c1)) == multiset([c1, m3])
  {
    assert HasNumber([c3], 3);
    assert Replaced([c3], 3, m3) == [m3];
    assert !HasNumber([m3], 1);
    assert multiset([m3, c1]) == multiset([c1, m3]);
  }
}
