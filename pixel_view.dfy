/*
 * showfound's PixelView as view.cc writes it: the same selection of up to
 * three pixels as PixelUI, but over the pixels of a PixelModel, a pixel
 * being selectable when its position is calculated and not synthesized, and
 * membership kept only in the list of selected pixels.
 */
module PixelView {
  import opened Wrappers
  import Selection
  import ClickMap
  import Bounds

  /**
   * A pixel as view.cc reads it from the model: number, position (x, y) in
   * the image, whether a calculated position is present, and whether that
   * position was synthesized.
   */
  datatype ModelState = ModelState(num: int, x: int, y: int, hasCalc: bool, synthesized: bool)

  datatype MouseEvent = LeftButtonDown | MouseMove | OtherMouseEvent

  /** The pixel numbers in the model's order. */
  function Nums(pixels: seq<ModelState>): (ns: seq<int>)
    ensures |ns| == |pixels| && forall i :: 0 <= i < |pixels| ==> ns[i] == pixels[i].num
  {
    seq(|pixels|, i requires 0 <= i < |pixels| => pixels[i].num)
  }

  /** The click-map squares, one per pixel, in the model's order. */
  function Targets(pixels: seq<ModelState>): (ts: seq<ClickMap.Target>)
    ensures |ts| == |pixels|
  {
    seq(|pixels|, i requires 0 <= i < |pixels| => ClickMap.Target(pixels[i].num, pixels[i].x, pixels[i].y))
  }

  /** Whether a model pixel may be selected: calculated and not synthesized. */
  predicate Selectable(p: ModelState)
  {
    p.hasCalc && !p.synthesized
  }

  function SelectableOf(byNum: map<int, ModelState>): set<int>
  {
    set n | n in byNum && Selectable(byNum[n])
  }

  function CandidatesOf(byNum: map<int, ModelState>, selected: seq<int>): set<int>
  {
    set n | n in byNum && n !in selected && Selectable(byNum[n])
  }

  /** What PixelModel promises: FindPixel finds a pixel of the list under its own number, for every number in the list. */
  ghost predicate Indexed(pixels: seq<ModelState>, byNum: map<int, ModelState>)
  {
    && (forall i :: 0 <= i < |pixels| ==> pixels[i].num in byNum)
    && (forall n :: n in byNum ==> byNum[n].num == n && byNum[n] in pixels)
  }

  /** Every number filed lies between the running minimum and maximum of the list's numbers. */
  lemma IndexedWithin(pixels: seq<ModelState>, byNum: map<int, ModelState>)
    requires Indexed(pixels, byNum)
    requires forall i :: 0 <= i < |pixels| ==> pixels[i].num >= 0
    ensures forall n :: n in byNum ==> Bounds.RunningMin(Nums(pixels)) <= n <= Bounds.RunningMax(Nums(pixels))
  {
    var ns := Nums(pixels);
    Bounds.RunningBounds(ns);
    forall n | n in byNum
      ensures Bounds.RunningMin(ns) <= n <= Bounds.RunningMax(ns)
    {
      var i :| 0 <= i < |pixels| && pixels[i] == byNum[n];
      assert ns[i] == n;
    }
  }

  /**
   * The search as written dereferences `FindPixel(cur)` for every
   * unselected number it passes, and FindPixel gives null for a number
   * with no pixel. With pixel 0 selected and pixel 2 the only candidate,
   * the walk to the right reaches number 1, which is neither selected nor
   * in the model; the corrected search lands on 2 without reading it.
   */
  lemma AsWrittenDereferencesGap()
    ensures var byNum := map[0 := ModelState(0, 5, 5, true, false), 2 := ModelState(2, 9, 9, true, false)];
            && CandidatesOf(byNum, [0]) == {2}
            && Selection.LookedUpAsWritten(1, 0, 1, 0, 2, CandidatesOf(byNum, [0]), 3) == [1, 2]
            && 1 !in byNum && 1 !in [0]
            && Selection.Search(0, 1, 0, 2, CandidatesOf(byNum, [0])) == 2
  {
    var byNum := map[0 := ModelState(0, 5, 5, true, false), 2 := ModelState(2, 9, 9, true, false)];
    assert CandidatesOf(byNum, [0]) == {2};
    assert Selection.Pos(0, 1, 0, 2, 1) == 1;
    assert Selection.Pos(0, 1, 0, 2, 2) == 2;
  }

  class PixelView {
    /** The model's pixels in ForEachPixel order, and FindPixel's index. */
    const pixels: seq<ModelState>
    const byNum: map<int, ModelState>
    var selected: seq<int>
    var over: Option<int>
    var dirty: bool
    const lo: int
    const hi: int
    const clickMap: ClickMap.ClickMap

    ghost predicate Valid()
      reads this, clickMap, clickMap.cells
    {
      && clickMap.Valid()
      && Indexed(pixels, byNum)
      && (forall n :: n in byNum ==> lo <= n <= hi)
      && Selection.WellFormed(selected, SelectableOf(byNum))
      && (forall i :: 0 <= i < |clickMap.targets| ==> clickMap.targets[i].num in byNum)
    }

    /** The view over a width by height image of the model's pixels, nothing selected, to be drawn. */
    constructor (width: nat, height: nat, pixels: seq<ModelState>, byNum: map<int, ModelState>)
      requires Indexed(pixels, byNum)
      requires forall i :: 0 <= i < |pixels| ==> pixels[i].num >= 0
      ensures Valid()
      ensures this.pixels == pixels && this.byNum == byNum
      ensures lo == Bounds.RunningMin(Nums(pixels)) && hi == Bounds.RunningMax(Nums(pixels))
      ensures selected == [] && over == None && dirty
      ensures clickMap.targets == Targets(pixels) && clickMap.width == width && clickMap.height == height
    {
      var mn, mx := Bounds.Bounds(Nums(pixels));
      IndexedWithin(pixels, byNum);
      this.pixels := pixels;
      this.byNum := byNum;
      lo := mn;
      hi := mx;
      selected := [];
      over := None;
      dirty := true;
      clickMap := new ClickMap.ClickMap(width, height, Targets(pixels));
      new;
    }

    ghost function PixelAt(x: int, y: int): int
    {
      var c := ClickMap.Cell(clickMap.targets, x, y, clickMap.width, clickMap.height);
      if c >= 0 then c else -1
    }

    /** The click map's value at a point on the image, or -1 when it is negative. */
    method FindPixel(x: int, y: int) returns (n: int)
      requires Valid() && 0 <= x < clickMap.width && 0 <= y < clickMap.height
      ensures n == PixelAt(x, y)
      ensures n == -1 || (n >= 0 && n in byNum)
    {
      var c := clickMap.WhichTarget(x, y);
      n := if c >= 0 then c else -1;
    }

    /** The linear scan of the selected pixels. */
    method PixelIsSelected(num: int) returns (b: bool)
      ensures b <==> num in selected
    {
      for i := 0 to |selected|
        invariant forall j :: 0 <= j < i ==> selected[j] != num
      {
        if selected[i] == num {
          return true;
        }
      }
      return false;
    }

    method GetAndClearDirty() returns (d: bool)
      modifies this
      ensures d == old(dirty) && !dirty
      ensures selected == old(selected) && over == old(over)
    {
      d := dirty;
      dirty := false;
    }

    method SetOver(p: int)
      modifies this
      ensures over == Some(p)
      ensures dirty == (old(dirty) || (if old(over).Some? then old(over).value else -1) != p)
      ensures selected == old(selected)
    {
      if (if over.Some? then over.value else -1) != p {
        dirty := true;
      }
      over := Some(p);
    }

    method ClearOver()
      modifies this
      ensures over == None
      ensures dirty == (old(dirty) || old(over).Some?)
      ensures selected == old(selected)
    {
      if over.Some? {
        dirty := true;
      }
      over := None;
    }

    /**
     * ToggleCalculatedPixel: deselect a selected pixel, select an unselected
     * one when fewer than three are and it is selectable, refuse otherwise;
     * a change makes the window dirty. The pixel must be in the model.
     */
    method ToggleCalculatedPixel(p: int) returns (changed: bool)
      requires Valid() && p in byNum
      modifies this
      ensures Valid()
      ensures (selected, changed) == Selection.Toggle(old(selected), p, Selectable(byNum[p]))
      ensures dirty == (old(dirty) || changed) && over == old(over)
    {
      Selection.ToggleFlips(selected, p, SelectableOf(byNum));
      var idx := Selection.Find(selected, p);
      var pixel := byNum[p];
      if idx < |selected| {
        selected := selected[..idx] + selected[idx + 1..];
        dirty := true;
        return true;
      }
      if |selected| >= Selection.MaxSelected {
        return false;
      }
      if !pixel.hasCalc || pixel.synthesized {
        return false;
      }
      selected := selected + [p];
      dirty := true;
      return true;
    }

    /**
     * SelectNextCalculatedPixel with the wrap corrected: the last selected
     * pixel gives way to the first selectable, unselected pixel after it in
     * direction dir, if there is one.
     */
    method SelectNextCalculatedPixel(dir: int)
      requires Valid()
      modifies this
      ensures Valid() && over == old(over)
      ensures old(selected) == [] ==> selected == old(selected) && dirty == old(dirty)
      ensures old(selected) != [] ==>
                var start := old(selected)[|old(selected)| - 1];
                var found := Selection.Search(start, if dir > 0 then 1 else -1, lo, hi, CandidatesOf(byNum, old(selected)));
                && (found == start ==> selected == old(selected) && dirty == old(dirty))
                && (found != start ==> found in CandidatesOf(byNum, old(selected)) && selected == Selection.Remove(old(selected), start) + [found] && dirty)
    {
      if |selected| == 0 {
        return;
      }
      var d := if dir > 0 then 1 else -1;
      var start := selected[|selected| - 1];
      var candidates := CandidatesOf(byNum, selected);
      var cur := Selection.NextCandidate(start, d, lo, hi, candidates);
      if cur == start {
        return;
      }
      Selection.SearchFinds(start, d, lo, hi, candidates, start);
      ghost var before := selected;
      var off := ToggleCalculatedPixel(start);
      assert selected == Selection.Remove(before, start);
      Selection.RemoveDistinct(before, start);
      var on := ToggleCalculatedPixel(cur);
    }

    /**
     * A left click on a pixel toggles it; a move sets or clears the pixel
     * the mouse is over, redrawing only when that changes; anything else,
     * and a click off every pixel, changes nothing.
     */
    method OnMouseEvent(event: MouseEvent, x: int, y: int)
      requires Valid() && 0 <= x < clickMap.width && 0 <= y < clickMap.height
      modifies this
      ensures Valid()
      ensures event == LeftButtonDown && PixelAt(x, y) >= 0 ==>
                var (after, changed) := Selection.Toggle(old(selected), PixelAt(x, y), Selectable(byNum[PixelAt(x, y)]));
                selected == after && over == old(over) && dirty == (old(dirty) || changed)
      ensures event == MouseMove ==>
                && selected == old(selected)
                && over == (if PixelAt(x, y) < 0 then None else Some(PixelAt(x, y)))
                && dirty == (old(dirty) || if PixelAt(x, y) < 0 then old(over).Some? else old(over) != Some(PixelAt(x, y)))
      ensures event == OtherMouseEvent || (event == LeftButtonDown && PixelAt(x, y) < 0) ==>
                selected == old(selected) && over == old(over) && dirty == old(dirty)
    {
      if event == LeftButtonDown {
        var n := FindPixel(x, y);
        if n >= 0 {
          var _ := ToggleCalculatedPixel(n);
        }
      } else if event == MouseMove {
        var n := FindPixel(x, y);
        if n < 0 {
          ClearOver();
        } else {
          SetOver(n);
        }
      }
    }
  }
}
