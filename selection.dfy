/*
 * The pixel selection shared by showfound's two pixel views (PixelUI in
 * ui.cc and PixelView in view.cc): up to three selected pixels, toggled one
 * at a time, and the arrow-key search that moves the last selection to the
 * next candidate pixel, wrapping around the range of pixel numbers.
 */
module Selection {
  import opened Wrappers

  // ---------------------------------------------------------------------
  // Toggling

  /** The position of p in s, or |s| when it is absent (the source's index loop). */
  function IndexOf(s: seq<int>, p: int): (i: nat)
    ensures i <= |s|
    ensures i < |s| ==> s[i] == p
    ensures forall j :: 0 <= j < i ==> s[j] != p
  {
    if |s| == 0 then 0 else if s[0] == p then 0 else 1 + IndexOf(s[1..], p)
  }

  /** A scan that stops at the first p, or at the end, stops at IndexOf. */
  lemma {:induction false} IndexOfIs(s: seq<int>, p: int, i: int)
    requires 0 <= i <= |s| && (i == |s| || s[i] == p)
    requires forall j :: 0 <= j < i ==> s[j] != p
    ensures IndexOf(s, p) == i
  {
    if |s| > 0 && s[0] != p {
      IndexOfIs(s[1..], p, i - 1);
    }
  }

  /** The index loop of ToggleCalculatedPixel: the first position holding p, or the length. */
  method Find(s: seq<int>, p: int) returns (idx: int)
    ensures idx == IndexOf(s, p)
  {
    idx := 0;
    while idx < |s| && s[idx] != p
      invariant 0 <= idx <= |s|
      invariant forall j :: 0 <= j < idx ==> s[j] != p
    {
      idx := idx + 1;
    }
    IndexOfIs(s, p, idx);
  }

  /** s without its first p (std::vector::erase at the found index). */
  function Remove(s: seq<int>, p: int): seq<int>
  {
    var i := IndexOf(s, p);
    if i < |s| then s[..i] + s[i + 1..] else s
  }

  /** The most pixels that may be selected at once. */
  const MaxSelected: int := 3

  /**
   * ToggleCalculatedPixel on the list of selected pixels: a selected pixel is
   * dropped; an unselected one is added when fewer than three are selected
   * and it is a candidate, and refused otherwise. The flag says whether
   * anything changed.
   */
  function Toggle(selected: seq<int>, p: int, candidate: bool): (seq<int>, bool)
  {
    if p in selected then (Remove(selected, p), true)
    else if |selected| >= MaxSelected then (selected, false)
    else if !candidate then (selected, false)
    else (selected + [p], true)
  }

  /** At most three pixels, none twice, all of them candidates. */
  predicate WellFormed(selected: seq<int>, candidates: set<int>)
  {
    && |selected| <= MaxSelected
    && (forall i, j :: 0 <= i < j < |selected| ==> selected[i] != selected[j])
    && (forall i :: 0 <= i < |selected| ==> selected[i] in candidates)
  }

  lemma RemoveDistinct(s: seq<int>, p: int)
    requires forall i, j :: 0 <= i < j < |s| ==> s[i] != s[j]
    ensures forall q :: q in Remove(s, p) <==> q in s && q != p
    ensures |Remove(s, p)| == if p in s then |s| - 1 else |s|
    ensures forall i, j :: 0 <= i < j < |Remove(s, p)| ==> Remove(s, p)[i] != Remove(s, p)[j]
  {
    var i := IndexOf(s, p);
    if i < |s| {
      var r := s[..i] + s[i + 1..];
      assert forall k :: 0 <= k < |r| ==> r[k] == if k < i then s[k] else s[k + 1];
      forall q
        ensures q in r <==> q in s && q != p
      {
        if q in s && q != p {
          var k :| 0 <= k < |s| && s[k] == q;
          assert k != i;
          if k < i { assert r[k] == q; } else { assert r[k - 1] == q; }
        }
      }
    }
  }

  /**
   * A toggle keeps the selection well formed, and when it reports a change
   * the pixel's membership flips while every other pixel keeps its own.
   */
  lemma ToggleFlips(selected: seq<int>, p: int, candidates: set<int>)
    requires WellFormed(selected, candidates)
    ensures var (after, changed) := Toggle(selected, p, p in candidates);
            && WellFormed(after, candidates)
            && (changed <==> p in selected || (|selected| < MaxSelected && p in candidates))
            && (changed ==> (p in after <==> p !in selected))
            && (!changed ==> after == selected)
            && (forall q :: q != p ==> (q in after <==> q in selected))
  {
    RemoveDistinct(selected, p);
    var (after, changed) := Toggle(selected, p, p in candidates);
    if p !in selected && changed {
      assert after == selected + [p];
      assert forall i :: 0 <= i < |selected| ==> after[i] == selected[i];
    }
  }

  // ---------------------------------------------------------------------
  // The search for the next candidate

  /** The pixel after c in direction dir (1 or -1), wrapping from one end of lo..hi to the other. */
  function Next(c: int, dir: int, lo: int, hi: int): int
  {
    if c + dir > hi then lo else if c + dir < lo then hi else c + dir
  }

  /** The pixel k steps from start along the wrapped walk. */
  function Pos(start: int, dir: int, lo: int, hi: int, k: nat): int
  {
    if k == 0 then start else Next(Pos(start, dir, lo, hi, k - 1), dir, lo, hi)
  }

  /** The walk rises to hi and then climbs from lo (or falls to lo and then drops from hi). */
  lemma {:induction false} PosClosed(start: int, dir: int, lo: int, hi: int, k: nat)
    requires lo <= start <= hi && (dir == 1 || dir == -1) && k <= hi - lo + 1
    ensures dir == 1 ==> Pos(start, dir, lo, hi, k) == if k <= hi - start then start + k else lo + (k - (hi - start) - 1)
    ensures dir == -1 ==> Pos(start, dir, lo, hi, k) == if k <= start - lo then start - k else hi - (k - (start - lo) - 1)
  {
    if k > 0 {
      PosClosed(start, dir, lo, hi, k - 1);
    }
  }

  /** Every pixel of lo..hi is reached within one lap, and only the full lap comes back to start. */
  lemma PosLap(start: int, dir: int, lo: int, hi: int, p: int)
    requires lo <= start <= hi && (dir == 1 || dir == -1)
    ensures Pos(start, dir, lo, hi, hi - lo + 1) == start
    ensures forall k: nat :: 0 < k < hi - lo + 1 ==> Pos(start, dir, lo, hi, k) != start
    ensures lo <= p <= hi ==> exists k: nat :: k < hi - lo + 1 && Pos(start, dir, lo, hi, k) == p
  {
    var n := hi - lo + 1;
    PosClosed(start, dir, lo, hi, n);
    forall k: nat | 0 < k < n
      ensures Pos(start, dir, lo, hi, k) != start
    {
      PosClosed(start, dir, lo, hi, k);
    }
    if lo <= p <= hi {
      var k: nat := if dir == 1 then (if p >= start then p - start else (hi - start) + 1 + (p - lo))
                    else (if p <= start then start - p else (start - lo) + 1 + (hi - p));
      PosClosed(start, dir, lo, hi, k);
    }
  }

  /** The first candidate at k steps or more (before the lap closes), or start when there is none. */
  function FirstFrom(start: int, dir: int, lo: int, hi: int, candidates: set<int>, k: nat): int
    decreases hi - lo + 1 - k
  {
    if k >= hi - lo + 1 then start
    else if Pos(start, dir, lo, hi, k) in candidates then Pos(start, dir, lo, hi, k)
    else FirstFrom(start, dir, lo, hi, candidates, k + 1)
  }

  /** Where the search lands: the first candidate after start, or start itself. */
  function Search(start: int, dir: int, lo: int, hi: int, candidates: set<int>): int
  {
    FirstFrom(start, dir, lo, hi, candidates, 1)
  }

  lemma {:induction false} FirstFromIsFirst(start: int, dir: int, lo: int, hi: int, candidates: set<int>, k: nat)
    ensures var r := FirstFrom(start, dir, lo, hi, candidates, k);
            r == start || FoundAt(start, dir, lo, hi, candidates, k, r)
    ensures (exists j: nat :: k <= j < hi - lo + 1 && Pos(start, dir, lo, hi, j) in candidates) ==>
              FirstFrom(start, dir, lo, hi, candidates, k) in candidates
    decreases hi - lo + 1 - k
  {
    if k < hi - lo + 1 {
      if Pos(start, dir, lo, hi, k) in candidates {
        assert FoundAtStep(start, dir, lo, hi, candidates, k, k);
      } else {
        FirstFromIsFirst(start, dir, lo, hi, candidates, k + 1);
        var r := FirstFrom(start, dir, lo, hi, candidates, k);
        if r != start {
          var j: nat :| FoundAtStep(start, dir, lo, hi, candidates, k + 1, j) && r == Pos(start, dir, lo, hi, j);
          assert FoundAtStep(start, dir, lo, hi, candidates, k, j);
        }
      }
    }
  }

  /** Step j (k <= j, within the lap) is a candidate and no step from k before it is. */
  predicate FoundAtStep(start: int, dir: int, lo: int, hi: int, candidates: set<int>, k: nat, j: nat)
  {
    && k <= j < hi - lo + 1 && Pos(start, dir, lo, hi, j) in candidates
    && forall i: nat :: k <= i < j ==> Pos(start, dir, lo, hi, i) !in candidates
  }

  /** r is the first candidate on the walk from step k. */
  ghost predicate FoundAt(start: int, dir: int, lo: int, hi: int, candidates: set<int>, k: nat, r: int)
  {
    exists j: nat :: FoundAtStep(start, dir, lo, hi, candidates, k, j) && r == Pos(start, dir, lo, hi, j)
  }

  /**
   * The search finds a candidate whenever one exists anywhere in lo..hi other
   * than start, and it finds the nearest one in the walk's direction;
   * otherwise it stays at start.
   */
  lemma SearchFinds(start: int, dir: int, lo: int, hi: int, candidates: set<int>, p: int)
    requires lo <= start <= hi && (dir == 1 || dir == -1) && start !in candidates
    ensures var r := Search(start, dir, lo, hi, candidates);
            && (r == start || (r in candidates && lo <= r <= hi))
            && (lo <= p <= hi && p in candidates ==> r != start)
            && (r != start ==> FoundAt(start, dir, lo, hi, candidates, 1, r))
  {
    PosLap(start, dir, lo, hi, p);
    FirstFromIsFirst(start, dir, lo, hi, candidates, 1);
    var r := Search(start, dir, lo, hi, candidates);
    if r != start {
      var j: nat :| FoundAtStep(start, dir, lo, hi, candidates, 1, j) && r == Pos(start, dir, lo, hi, j);
      PosClosed(start, dir, lo, hi, j);
    }
    if lo <= p <= hi && p in candidates {
      var k: nat :| k < hi - lo + 1 && Pos(start, dir, lo, hi, k) == p;
      assert k != 0;
    }
  }

  /**
   * The search loop of SelectNextCalculatedPixel with the wrap done in one
   * step: from the pixel after start, walk until a candidate or start.
   */
  method NextCandidate(start: int, dir: int, lo: int, hi: int, candidates: set<int>) returns (cur: int)
    requires lo <= start <= hi && (dir == 1 || dir == -1)
    ensures cur == Search(start, dir, lo, hi, candidates)
  {
    PosLap(start, dir, lo, hi, start);
    var n := hi - lo + 1;
    ghost var k: nat := 1;
    cur := Next(start, dir, lo, hi);
    while cur != start && cur !in candidates
      invariant 1 <= k <= n && cur == Pos(start, dir, lo, hi, k)
      invariant FirstFrom(start, dir, lo, hi, candidates, k) == Search(start, dir, lo, hi, candidates)
      decreases n - k
    {
      cur := Next(cur, dir, lo, hi);
      k := k + 1;
    }
  }

  // ---------------------------------------------------------------------
  // The search as written

  /**
   * The source's loop, `for (; cur != start; cur += dir)`: after a wrap it
   * sets cur to the far end and `continue`s, so the loop step moves one past
   * it and the pixel at the end of the wrap is never examined. `fuel` bounds
   * the steps; None means the walk had not finished when it ran out.
   */
  function WalkAsWritten(cur: int, start: int, dir: int, lo: int, hi: int, candidates: set<int>, fuel: nat): Option<int>
    decreases fuel
  {
    if cur == start then Some(start)
    else if fuel == 0 then None
    else if cur > hi then WalkAsWritten(lo + dir, start, dir, lo, hi, candidates, fuel - 1)
    else if cur < lo then WalkAsWritten(hi + dir, start, dir, lo, hi, candidates, fuel - 1)
    else if cur in candidates then Some(cur)
    else WalkAsWritten(cur + dir, start, dir, lo, hi, candidates, fuel - 1)
  }

  /**
   * The numbers in lo..hi the loop as written looks up, in order: every
   * number it reaches inside the range, whether or not a pixel has it, up
   * to and including the candidate it stops at. PixelUI reads each with
   * `pixels_[cur]`, PixelView with `*FindPixel(cur)`.
   */
  function LookedUpAsWritten(cur: int, start: int, dir: int, lo: int, hi: int, candidates: set<int>, fuel: nat): seq<int>
    decreases fuel
  {
    if cur == start || fuel == 0 then []
    else if cur > hi then LookedUpAsWritten(lo + dir, start, dir, lo, hi, candidates, fuel - 1)
    else if cur < lo then LookedUpAsWritten(hi + dir, start, dir, lo, hi, candidates, fuel - 1)
    else if cur in candidates then [cur]
    else [cur] + LookedUpAsWritten(cur + dir, start, dir, lo, hi, candidates, fuel - 1)
  }

  /**
   * With pixels 0..9, pixel 5 selected and pixel 0 the only candidate, the
   * walk to the right wraps past 0 and comes back to 5: nothing is found,
   * however long it may run, though the corrected search finds 0.
   */
  lemma AsWrittenSkipsWrapTarget(fuel: nat)
    requires fuel >= 10
    ensures WalkAsWritten(6, 5, 1, 0, 9, {0}, fuel) == Some(5)
    ensures Search(5, 1, 0, 9, {0}) == 0
  {
    SearchFinds(5, 1, 0, 9, {0}, 0);
    SkipsToStart(6, 5, 0, 9, {0}, fuel);
  }

  /** From cur in start+1..hi+1 the walk to the right wraps to lo + 1 and climbs to start, seeing no candidate. */
  lemma {:induction false} SkipsToStart(cur: int, start: int, lo: int, hi: int, candidates: set<int>, fuel: nat)
    requires lo < start < cur <= hi + 1
    requires forall q :: lo < q <= hi && q != start ==> q !in candidates
    requires fuel >= (hi + 1 - cur) + 1 + (start - lo - 1)
    ensures WalkAsWritten(cur, start, 1, lo, hi, candidates, fuel) == Some(start)
    decreases hi + 1 - cur
  {
    if cur <= hi {
      SkipsToStart(cur + 1, start, lo, hi, candidates, fuel - 1);
    } else {
      ClimbsToStart(lo + 1, start, lo, hi, candidates, fuel - 1);
    }
  }

  lemma {:induction false} ClimbsToStart(cur: int, start: int, lo: int, hi: int, candidates: set<int>, fuel: nat)
    requires lo < cur <= start <= hi
    requires forall q :: cur <= q < start ==> q !in candidates
    requires fuel >= start - cur
    ensures WalkAsWritten(cur, start, 1, lo, hi, candidates, fuel) == Some(start)
    decreases start - cur
  {
    if cur < start {
      ClimbsToStart(cur + 1, start, lo, hi, candidates, fuel - 1);
    }
  }

  /**
   * When the selected pixel is the lowest number and no other pixel is a
   * candidate, the walk to the right never reaches start again: it cycles
   * through lo + 1..hi + 1 for ever, however much fuel it is given.
   */
  lemma {:induction false} AsWrittenNeverEnds(cur: int, lo: int, hi: int, candidates: set<int>, fuel: nat)
    requires lo <= hi && lo < cur <= hi + 1
    requires forall q :: lo < q <= hi ==> q !in candidates
    ensures WalkAsWritten(cur, lo, 1, lo, hi, candidates, fuel) == None
    decreases fuel
  {
    if fuel > 0 {
      if cur > hi {
        AsWrittenNeverEnds(lo + 1, lo, hi, candidates, fuel - 1);
      } else {
        AsWrittenNeverEnds(cur + 1, lo, hi, candidates, fuel - 1);
      }
    }
  }

  /** The corrected search in the same situation stops at start. */
  lemma CorrectedEnds(lo: int, hi: int, candidates: set<int>)
    requires lo <= hi
    requires forall q :: lo < q <= hi ==> q !in candidates
    ensures Search(lo, 1, lo, hi, candidates) == lo
  {
    var r := Search(lo, 1, lo, hi, candidates);
    SearchFinds(lo, 1, lo, hi, candidates - {lo}, lo);
    assert Search(lo, 1, lo, hi, candidates) == Search(lo, 1, lo, hi, candidates - {lo}) by {
      SameSearch(lo, 1, lo, hi, candidates, candidates - {lo}, 1);
    }
  }

  /** Candidate sets that agree off start give the same search. */
  lemma {:induction false} SameSearch(start: int, dir: int, lo: int, hi: int, a: set<int>, b: set<int>, k: nat)
    requires lo <= start <= hi && (dir == 1 || dir == -1) && 1 <= k
    requires forall q :: q != start ==> (q in a <==> q in b)
    ensures FirstFrom(start, dir, lo, hi, a, k) == FirstFrom(start, dir, lo, hi, b, k)
    decreases hi - lo + 1 - k
  {
    if k < hi - lo + 1 {
      PosLap(start, dir, lo, hi, start);
      SameSearch(start, dir, lo, hi, a, b, k + 1);
    }
  }
}
