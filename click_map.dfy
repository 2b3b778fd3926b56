/*
 * showfound's click map: an image-sized grid of pixel numbers, -1 where no
 * pixel is, each pixel owning the square of 11 by 11 cells around its
 * position (cut at the image edge), later pixels painting over earlier ones.
 */
module ClickMap {

  /** How far the square reaches from its pixel on each side. */
  const BufferSize: int := 5

  /** A pixel number and its position (x, y) in the image. */
  datatype Target = Target(num: int, x: int, y: int)

  function Max(a: int, b: int): int { if a < b then b else a }

  function Min(a: int, b: int): int { if a < b then a else b }

  /**
   * Whether `i` lies between the corners a and b; cv::rectangle fills the
   * rectangle spanned by its two corners whichever way round they are.
   */
  predicate Between(i: int, a: int, b: int)
  {
    Min(a, b) <= i <= Max(a, b)
  }

  /** Whether target t's square covers cell (x, y) of a width by height map. */
  predicate Covers(t: Target, x: int, y: int, width: int, height: int)
  {
    && Between(x, Max(t.x - BufferSize, 0), Min(t.x + BufferSize, width - 1))
    && Between(y, Max(t.y - BufferSize, 0), Min(t.y + BufferSize, height - 1))
  }

  /** The number the last target covering (x, y) leaves there, or -1 when none covers it. */
  function Cell(targets: seq<Target>, x: int, y: int, width: int, height: int): (v: int)
    ensures v == -1 || exists i :: 0 <= i < |targets| && targets[i].num == v && Covers(targets[i], x, y, width, height)
  {
    if |targets| == 0 then -1
    else if Covers(targets[|targets| - 1], x, y, width, height) then targets[|targets| - 1].num
    else Cell(targets[..|targets| - 1], x, y, width, height)
  }

  /** A cell no target covers stays -1. */
  lemma {:induction false} Uncovered(targets: seq<Target>, x: int, y: int, width: int, height: int)
    requires forall i :: 0 <= i < |targets| ==> !Covers(targets[i], x, y, width, height)
    ensures Cell(targets, x, y, width, height) == -1
  {
    if |targets| > 0 {
      Uncovered(targets[..|targets| - 1], x, y, width, height);
    }
  }

  /** Where squares overlap, the later target wins. */
  lemma {:induction false} LastWins(targets: seq<Target>, i: int, x: int, y: int, width: int, height: int)
    requires 0 <= i < |targets| && Covers(targets[i], x, y, width, height)
    requires forall j :: i < j < |targets| ==> !Covers(targets[j], x, y, width, height)
    ensures Cell(targets, x, y, width, height) == targets[i].num
  {
    if i < |targets| - 1 {
      LastWins(targets[..|targets| - 1], i, x, y, width, height);
    }
  }

  class ClickMap {
    /** Rows by columns: the cell of point (x, y) is cells[y, x]. */
    const cells: array2<int>
    const width: int
    const height: int
    ghost const targets: seq<Target>

    ghost predicate Valid()
      reads this, cells
    {
      && cells.Length0 == height && cells.Length1 == width
      && forall y, x :: 0 <= y < height && 0 <= x < width ==> cells[y, x] == Cell(targets, x, y, width, height)
    }

    /** Every cell starts at -1; then each target in turn fills its square with its number. */
    constructor (width: nat, height: nat, targets: seq<Target>)
      ensures Valid() && this.width == width && this.height == height && this.targets == targets
      ensures fresh(cells)
    {
      this.width := width;
      this.height := height;
      this.targets := targets;
      var m := new int[height, width]((_, _) => -1);
      cells := m;
      new;
      for t := 0 to |targets|
        invariant forall y, x :: 0 <= y < height && 0 <= x < width ==> m[y, x] == Cell(targets[..t], x, y, width, height)
      {
        var target := targets[t];
        assert targets[..t + 1][..t] == targets[..t];
        FillRect(m, target, width, height);
      }
      assert targets[..|targets|] == targets;
    }

    /** The pixel number at a point, which must lie on the map. */
    method WhichTarget(x: int, y: int) returns (v: int)
      requires Valid() && 0 <= x < width && 0 <= y < height
      ensures v == Cell(targets, x, y, width, height)
    {
      v := cells[y, x];
    }
  }

  /** cv::rectangle with thickness -1: the target's square, cut at the edges, filled with its number. */
  method FillRect(m: array2<int>, t: Target, width: int, height: int)
    requires m.Length0 == height && m.Length1 == width
    modifies m
    ensures forall y, x :: 0 <= y < height && 0 <= x < width ==>
              m[y, x] == if Covers(t, x, y, width, height) then t.num else old(m[y, x])
  {
    for y := 0 to height
      invariant forall r, x :: 0 <= r < height && 0 <= x < width ==>
                  m[r, x] == if r < y && Covers(t, x, r, width, height) then t.num else old(m[r, x])
    {
      FillRow(m, y, t, width, height);
    }
  }

  method FillRow(m: array2<int>, y: int, t: Target, width: int, height: int)
    requires m.Length0 == height && m.Length1 == width && 0 <= y < height
    modifies m
    ensures forall r, x :: 0 <= r < height && 0 <= x < width ==>
              m[r, x] == if r == y && Covers(t, x, r, width, height) then t.num else old(m[r, x])
  {
    for x := 0 to width
      invariant forall r, c :: 0 <= r < height && 0 <= c < width ==>
                  m[r, c] == if r == y && c < x && Covers(t, c, r, width, height) then t.num else old(m[r, c])
    {
      if Covers(t, x, y, width, height) {
        m[y, x] := t.num;
      }
    }
  }

  /** One target at (1, 1) on a 30 by 10 map reaches five cells right and down, and no further. */
  lemma ExampleOneTarget()
    ensures Cell([Target(1, 1, 1)], 0, 0, 30, 10) == 1
    ensures Cell([Target(1, 1, 1)], 1, 1, 30, 10) == 1
    ensures Cell([Target(1, 1, 1)], 6, 1, 30, 10) == 1
    ensures Cell([Target(1, 1, 1)], 7, 1, 30, 10) == -1
    ensures Cell([Target(1, 1, 1)], 1, 6, 30, 10) == 1
    ensures Cell([Target(1, 1, 1)], 1, 7, 30, 10) == -1
  {
  }
}
