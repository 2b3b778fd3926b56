/*
 * The running minimum and maximum of pixel numbers that showfound's
 * PixelView and PixelController keep while visiting the model's pixels:
 * both start at -1, and -1 in the minimum means no pixel seen yet.
 */
module Bounds {

  /** `if (min == -1 || num < min) min = num;` over the numbers in turn. */
  function RunningMin(nums: seq<int>): int
  {
    if |nums| == 0 then -1
    else
      var m := RunningMin(nums[..|nums| - 1]);
      var n := nums[|nums| - 1];
      if m == -1 || n < m then n else m
  }

  /** `max = std::max(max, num);` over the numbers in turn, from -1. */
  function RunningMax(nums: seq<int>): int
  {
    if |nums| == 0 then -1
    else
      var m := RunningMax(nums[..|nums| - 1]);
      var n := nums[|nums| - 1];
      if n > m then n else m
  }

  /**
   * For numbers that are not negative the running minimum and maximum are
   * the least and the greatest number; with no number both stay -1.
   */
  lemma {:induction false} RunningBounds(nums: seq<int>)
    requires forall i :: 0 <= i < |nums| ==> nums[i] >= 0
    ensures |nums| == 0 ==> RunningMin(nums) == -1 && RunningMax(nums) == -1
    ensures forall i :: 0 <= i < |nums| ==> RunningMin(nums) <= nums[i] <= RunningMax(nums)
    ensures |nums| > 0 ==> RunningMin(nums) in nums && RunningMax(nums) in nums
  {
    if |nums| > 0 {
      var init := nums[..|nums| - 1];
      assert forall i :: 0 <= i < |init| ==> init[i] == nums[i];
      RunningBounds(init);
    }
  }

  /** A pixel numbered -1 restarts the minimum: [-1, 5] gives 5, not -1. */
  lemma MinusOneRestarts()
    ensures RunningMin([-1, 5]) == 5
  {
    assert [-1, 5][..1] == [-1];
    assert [-1][..0] == [];
  }

  /** The loop both classes run. */
  method Bounds(nums: seq<int>) returns (mn: int, mx: int)
    ensures mn == RunningMin(nums) && mx == RunningMax(nums)
  {
    mn, mx := -1, -1;
    for i := 0 to |nums|
      invariant mn == RunningMin(nums[..i]) && mx == RunningMax(nums[..i])
    {
      assert nums[..i + 1][..i] == nums[..i];
      var n := nums[i];
      if mn == -1 || n < mn {
        mn := n;
      }
      mx := if n > mx then n else mx;
    }
    assert nums[..|nums|] == nums;
  }
}
