/*
 * showfound's PixelUI: the pixels found in one camera image, of which the
 * user selects up to three calculated ones by clicking or with the arrow
 * keys, plus the pixel the mouse is over and a flag saying the window must
 * be redrawn.
 */
module PixelUi {
  import opened Wrappers
  import Selection
  import ClickMap

  /** What is known of a pixel's position. */
  datatype Knowledge = Calculated | ThisOnly | Synthesized

  /** PixelState: number, position (x, y) in the image, knowledge and the selection flag. */
  datatype PixelState = PixelState(num: int, x: int, y: int, knowledge: Knowledge, selected: bool)

  /** The mouse events the window reacts to; every other event is ignored. */
  datatype MouseEvent = LeftButtonDown | MouseMove | OtherMouseEvent

  /** `pixels_[pixel.num] = pixel` for each pixel in turn: a later state with the same number wins. */
  function Index(states: seq<PixelState>): (m: map<int, PixelState>)
    ensures forall n :: n in m <==> exists i :: 0 <= i < |states| && states[i].num == n
    ensures forall n :: n in m ==> m[n].num == n && m[n] in states
  {
    if |states| == 0 then map[]
    else Index(states[..|states| - 1])[states[|states| - 1].num := states[|states| - 1]]
  }

  /** The number kept for a repeated pixel is its last state. */
  lemma {:induction false} IndexKeepsLast(states: seq<PixelState>, i: int)
    requires 0 <= i < |states|
    requires forall j :: i < j < |states| ==> states[j].num != states[i].num
    ensures Index(states)[states[i].num] == states[i]
  {
    if i < |states| - 1 {
      IndexKeepsLast(states[..|states| - 1], i);
    }
  }

  /** The constructor's running minimum, starting from the first pixel's number. */
  function MinNum(states: seq<PixelState>): (m: int)
    requires |states| > 0
    ensures (exists i :: 0 <= i < |states| && states[i].num == m)
    ensures forall i :: 0 <= i < |states| ==> m <= states[i].num
  {
    if |states| == 1 then states[0].num
    else
      var m := MinNum(states[..|states| - 1]);
      assert forall i :: 0 <= i < |states| - 1 ==> states[..|states| - 1][i] == states[i];
      if states[|states| - 1].num < m then states[|states| - 1].num else m
  }

  /** The constructor's running maximum, starting from the first pixel's number. */
  function MaxNum(states: seq<PixelState>): (m: int)
    requires |states| > 0
    ensures (exists i :: 0 <= i < |states| && states[i].num == m)
    ensures forall i :: 0 <= i < |states| ==> states[i].num <= m
  {
    if |states| == 1 then states[0].num
    else
      var m := MaxNum(states[..|states| - 1]);
      assert forall i :: 0 <= i < |states| - 1 ==> states[..|states| - 1][i] == states[i];
      if states[|states| - 1].num > m then states[|states| - 1].num else m
  }

  /** The click-map squares, one per state, in order. */
  function Targets(states: seq<PixelState>): (ts: seq<ClickMap.Target>)
    ensures |ts| == |states|
  {
    seq(|states|, i requires 0 <= i < |states| => ClickMap.Target(states[i].num, states[i].x, states[i].y))
  }

  /** The pixels that may be selected. */
  function CalculatedOf(pixels: map<int, PixelState>): set<int>
  {
    set n | n in pixels && pixels[n].knowledge == Calculated
  }

  /** The pixels the arrow keys may move to: calculated and not selected. */
  function CandidatesOf(pixels: map<int, PixelState>): set<int>
  {
    set n | n in pixels && !pixels[n].selected && pixels[n].knowledge == Calculated
  }

  /**
   * A pixel's flag is set exactly when it is selected or it is stale: it
   * arrived flagged and has not been toggled since. No stale pixel is
   * selected, and the selection is well formed.
   */
  predicate Flagged(pixels: map<int, PixelState>, selected: seq<int>, stale: set<int>)
  {
    && (forall n :: n in pixels ==> (pixels[n].selected <==> n in selected || n in stale))
    && (forall n :: n in stale ==> n !in selected)
    && Selection.WellFormed(selected, CalculatedOf(pixels))
  }

  /**
   * A toggle that changes the selection sets p's flag to match and p is no
   * longer stale; a refused toggle changes nothing. Either way the flags
   * and the selection stay in step.
   */
  lemma ToggleFlagged(pixels: map<int, PixelState>, selected: seq<int>, stale: set<int>, p: int)
    requires Flagged(pixels, selected, stale) && p in pixels
    ensures var (after, changed) := Selection.Toggle(selected, p, pixels[p].knowledge == Calculated);
            Flagged(if changed then pixels[p := pixels[p].(selected := p in after)] else pixels,
                    after,
                    if changed then stale - {p} else stale)
  {
    var (after, changed) := Selection.Toggle(selected, p, pixels[p].knowledge == Calculated);
    assert (pixels[p].knowledge == Calculated) == (p in CalculatedOf(pixels));
    Selection.ToggleFlips(selected, p, CalculatedOf(pixels));
    var pixels' := pixels[p := pixels[p].(selected := p in after)];
    assert CalculatedOf(pixels') == CalculatedOf(pixels);
  }

  /** The constructor's loop: each state filed under its number, and the running minimum and maximum. */
  method Scan(states: seq<PixelState>) returns (m: map<int, PixelState>, mn: int, mx: int)
    requires |states| > 0
    ensures m == Index(states) && mn == MinNum(states) && mx == MaxNum(states)
  {
    m := map[];
    mn := states[0].num;
    mx := states[0].num;
    for i := 0 to |states|
      invariant m == Index(states[..i])
      invariant i == 0 ==> mn == mx == states[0].num
      invariant i > 0 ==> mn == MinNum(states[..i]) && mx == MaxNum(states[..i])
    {
      assert states[..i + 1][..i] == states[..i];
      var s := states[i];
      m := m[s.num := s];
      mn := if s.num < mn then s.num else mn;
      mx := if s.num > mx then s.num else mx;
    }
    assert states[..|states|] == states;
  }

  /**
   * The search as written reads `pixels_[cur]` for every number it passes,
   * and for a number with no pixel that inserts a value-initialised state
   * (number 0, no valid knowledge) which Render then draws. With pixel 0
   * selected and pixel 2 the only candidate, the walk to the right looks
   * up number 1, which has no pixel; the corrected search lands on 2 and
   * reads only pixels that exist.
   */
  lemma AsWrittenInsertsGap()
    ensures var pixels := map[0 := PixelState(0, 5, 5, Calculated, true), 2 := PixelState(2, 9, 9, Calculated, false)];
            && CandidatesOf(pixels) == {2}
            && Selection.LookedUpAsWritten(1, 0, 1, 0, 2, CandidatesOf(pixels), 3) == [1, 2]
            && 1 !in pixels
            && Selection.Search(0, 1, 0, 2, CandidatesOf(pixels)) == 2
  {
    var pixels := map[0 := PixelState(0, 5, 5, Calculated, true), 2 := PixelState(2, 9, 9, Calculated, false)];
    assert CandidatesOf(pixels) == {2};
    assert Selection.Pos(0, 1, 0, 2, 1) == 1;
    assert Selection.Pos(0, 1, 0, 2, 2) == 2;
  }

  class PixelUI {
    var pixels: map<int, PixelState>
    var selected: seq<int>
    var over: Option<int>
    var dirty: bool
    const lo: int
    const hi: int
    const clickMap: ClickMap.ClickMap
    /** The pixels that arrived flagged and have not been toggled since. */
    ghost var stale: set<int>

    /**
     * Every pixel is filed under its number, within lo..hi; a pixel's flag
     * says whether it is in the selection or stale, the selection holds at
     * most three calculated pixels, none twice; the click map names only
     * pixels.
     */
    ghost predicate Valid()
      reads this, clickMap, clickMap.cells
    {
      && clickMap.Valid()
      && (forall n :: n in pixels ==> lo <= n <= hi && pixels[n].num == n)
      && Flagged(pixels, selected, stale)
      && (forall i :: 0 <= i < |clickMap.targets| ==> clickMap.targets[i].num in pixels)
    }

    /**
     * The UI over a width by height image: the states filed by number with
     * their flags as given, the least and greatest number, nothing selected
     * or under the mouse, and the window to be drawn.
     */
    constructor (width: nat, height: nat, states: seq<PixelState>)
      requires |states| > 0
      ensures Valid()
      ensures pixels == Index(states) && lo == MinNum(states) && hi == MaxNum(states)
      ensures selected == [] && over == None && dirty
      ensures stale == set n | n in pixels && pixels[n].selected
      ensures clickMap.targets == Targets(states) && clickMap.width == width && clickMap.height == height
    {
      var m, mn, mx := Scan(states);
      pixels := m;
      lo := mn;
      hi := mx;
      selected := [];
      over := None;
      dirty := true;
      stale := set n | n in m && m[n].selected;
      clickMap := new ClickMap.ClickMap(width, height, Targets(states));
      new;
      assert forall i :: 0 <= i < |states| ==> states[i].num in m;
    }

    /** The pixel whose square holds the point, or -1 (a negative cell counts as none). */
    ghost function PixelAt(x: int, y: int): int
    {
      var c := ClickMap.Cell(clickMap.targets, x, y, clickMap.width, clickMap.height);
      if c >= 0 then c else -1
    }

    /** The click map's value at a point on the image, or -1 when it is negative. */
    method FindPixel(x: int, y: int) returns (n: int)
      requires Valid() && 0 <= x < clickMap.width && 0 <= y < clickMap.height
      ensures n == PixelAt(x, y)
      ensures n == -1 || (n >= 0 && n in pixels)
    {
      var c := clickMap.WhichTarget(x, y);
      n := if c >= 0 then c else -1;
    }

    /** Reports whether the window must be redrawn, and clears the flag. */
    method GetAndClearDirty() returns (d: bool)
      modifies this
      ensures d == old(dirty) && !dirty
      ensures pixels == old(pixels) && selected == old(selected) && over == old(over) && stale == old(stale)
    {
      d := dirty;
      dirty := false;
    }

    /** The mouse is over pixel p; the window is redrawn only if that is news. */
    method SetOver(p: int)
      modifies this
      ensures over == Some(p)
      ensures dirty == (old(dirty) || (if old(over).Some? then old(over).value else -1) != p)
      ensures pixels == old(pixels) && selected == old(selected) && stale == old(stale)
    {
      if (if over.Some? then over.value else -1) != p {
        dirty := true;
      }
      over := Some(p);
    }

    /** The mouse is over no pixel; the window is redrawn only if one was. */
    method ClearOver()
      modifies this
      ensures over == None
      ensures dirty == (old(dirty) || old(over).Some?)
      ensures pixels == old(pixels) && selected == old(selected) && stale == old(stale)
    {
      if over.Some? {
        dirty := true;
      }
      over := None;
    }

    /**
     * ToggleCalculatedPixel: a selected pixel is deselected; an unselected
     * one is selected if fewer than three are and it is calculated, and
     * refused otherwise. On a change the pixel's flag follows and the
     * window is dirty; a refusal changes nothing.
     */
    method ToggleCalculatedPixel(p: int) returns (changed: bool)
      requires Valid() && p in pixels
      modifies this
      ensures Valid()
      ensures (selected, changed) == Selection.Toggle(old(selected), p, old(pixels)[p].knowledge == Calculated)
      ensures pixels == if changed then old(pixels)[p := old(pixels)[p].(selected := p in selected)] else old(pixels)
      ensures stale == if changed then old(stale) - {p} else old(stale)
      ensures dirty == (old(dirty) || changed) && over == old(over)
    {
      ToggleFlagged(pixels, selected, stale, p);
      var idx := Selection.Find(selected, p);
      var state := pixels[p];
      if idx < |selected| {
        selected := selected[..idx] + selected[idx + 1..];
        pixels := pixels[p := state.(selected := false)];
        stale := stale - {p};
        dirty := true;
        return true;
      }
      if |selected| >= Selection.MaxSelected {
        return false;
      }
      if state.knowledge != Calculated {
        return false;
      }
      pixels := pixels[p := state.(selected := true)];
      selected := selected + [p];
      stale := stale - {p};
      dirty := true;
      return true;
    }

    /**
     * SelectNextCalculatedPixel with the wrap corrected: nothing happens
     * when nothing is selected; otherwise the last selected pixel gives way
     * to the first candidate after it in direction dir, if there is one,
     * and only those two pixels' flags change.
     */
    method SelectNextCalculatedPixel(dir: int)
      requires Valid()
      modifies this
      ensures Valid() && over == old(over) && stale == old(stale)
      ensures old(selected) == [] ==> pixels == old(pixels) && selected == old(selected) && dirty == old(dirty)
      ensures old(selected) != [] ==>
                var start := old(selected)[|old(selected)| - 1];
                var found := Selection.Search(start, if dir > 0 then 1 else -1, lo, hi, CandidatesOf(old(pixels)));
                && (found == start ==> pixels == old(pixels) && selected == old(selected) && dirty == old(dirty))
                && (found != start ==>
                      && found in CandidatesOf(old(pixels))
                      && selected == Selection.Remove(old(selected), start) + [found]
                      && pixels == old(pixels)[start := old(pixels)[start].(selected := false)][found := old(pixels)[found].(selected := true)]
                      && dirty)
    {
      if |selected| == 0 {
        return;
      }
      var d := if dir > 0 then 1 else -1;
      var start := selected[|selected| - 1];
      var candidates := CandidatesOf(pixels);
      var cur := Selection.NextCandidate(start, d, lo, hi, candidates);
      if cur == start {
        return;
      }
      Selection.SearchFinds(start, d, lo, hi, candidates, start);
      Selection.RemoveDistinct(selected, start);
      ghost var before, pixels0 := selected, pixels;
      var off := ToggleCalculatedPixel(start);
      assert selected == Selection.Remove(before, start);
      var on := ToggleCalculatedPixel(cur);
      assert pixels == pixels0[start := pixels0[start].(selected := false)][cur := pixels0[cur].(selected := true)];
    }

    /**
     * A left click on a pixel toggles it; a move sets or clears the pixel
     * the mouse is over, redrawing only when that changes; anything else,
     * and a click off every pixel, changes nothing.
     */
    method OnMouseEvent(event: MouseEvent, x: int, y: int)
      requires Valid() && 0 <= x < clickMap.width && 0 <= y < clickMap.height
      modifies this
      ensures Valid()
      ensures event == LeftButtonDown && PixelAt(x, y) >= 0 ==>
                var p := PixelAt(x, y);
                var (after, changed) := Selection.Toggle(old(selected), p, old(pixels)[p].knowledge == Calculated);
                && selected == after && over == old(over) && dirty == (old(dirty) || changed)
                && pixels == (if changed then old(pixels)[p := old(pixels)[p].(selected := p in after)] else old(pixels))
      ensures event == MouseMove ==>
                && pixels == old(pixels) && selected == old(selected)
                && over == (if PixelAt(x, y) < 0 then None else Some(PixelAt(x, y)))
                && dirty == (old(dirty) || if PixelAt(x, y) < 0 then old(over).Some? else old(over) != Some(PixelAt(x, y)))
      ensures event == OtherMouseEvent || (event == LeftButtonDown && PixelAt(x, y) < 0) ==>
                pixels == old(pixels) && selected == old(selected) && over == old(over) && dirty == old(dirty)
    {
      if event == LeftButtonDown {
        var n := FindPixel(x, y);
        if n >= 0 {
          var _ := ToggleCalculatedPixel(n);
        }
      } else if event == MouseMove {
        var n := FindPixel(x, y);
        if n < 0 {
          ClearOver();
        } else {
          SetOver(n);
        }
      }
    }
  }
}
