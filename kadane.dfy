/**
 * Kadane's algorithm `func`: the largest sum of a non-empty contiguous
 * subarray, in one pass that keeps the best sum of a subarray ending at the
 * current element and the best sum seen so far.
 */
module Kadane {

  /** The sum of the contiguous subarray nums[i..j]. */
  function Sum(nums: seq<int>, i: int, j: int): int
    requires 0 <= i <= j <= |nums|
    decreases j - i
  {
    if i == j then 0 else Sum(nums, i, j - 1) + nums[j - 1]
  }

  /**
   * Returns 0 for an empty vector; otherwise the maximum, over all non-empty
   * contiguous subarrays, of their sums. The vector is taken by value.
   */
  method MaxSubarraySum(nums: seq<int>) returns (maxSum: int)
    ensures nums == [] ==> maxSum == 0
    ensures nums != [] ==> exists i, j :: 0 <= i < j <= |nums| && maxSum == Sum(nums, i, j)
    ensures forall i, j :: 0 <= i < j <= |nums| ==> Sum(nums, i, j) <= maxSum
    ensures forall k :: 0 <= k < |nums| ==> nums[k] <= maxSum
    ensures nums != [] && (forall k :: 0 <= k < |nums| ==> nums[k] < 0) ==> maxSum in nums
  {
    if nums == [] {
      return 0;
    }
    maxSum := nums[0];
    var currentSum := 0;
    ghost var allNegative := forall k :: 0 <= k < |nums| ==> nums[k] < 0;
    // The start of the subarray that currentSum sums, and the bounds of the
    // subarray that maxSum sums.
    ghost var start, bestI, bestJ := 0, 0, 1;
    var n := 0;
    while n < |nums|
      invariant 0 <= n <= |nums|
      invariant n == 0 ==> currentSum == 0
      invariant 0 <= start <= n && (n > 0 ==> start < n)
      invariant n > 0 ==> currentSum == Sum(nums, start, n)
      invariant n > 0 ==> forall i :: 0 <= i < n ==> Sum(nums, i, n) <= currentSum
      invariant 0 <= bestI < bestJ <= |nums| && maxSum == Sum(nums, bestI, bestJ)
      invariant forall i, j :: 0 <= i < j <= n ==> Sum(nums, i, j) <= maxSum
      invariant allNegative ==> bestJ == bestI + 1
      invariant allNegative && n > 0 ==> start == n - 1
    {
      var x := nums[n];
      if currentSum < 0 {
        currentSum := x;
        start := n;
      } else {
        currentSum := currentSum + x;
      }
      assert Sum(nums, start, n + 1) == Sum(nums, start, n) + x;
      if currentSum > maxSum {
        maxSum := currentSum;
        bestI, bestJ := start, n + 1;
      }
      n := n + 1;
    }
    forall k | 0 <= k < |nums|
      ensures nums[k] <= maxSum
    {
      assert Sum(nums, k, k + 1) == nums[k];
    }
    if allNegative {
      assert maxSum == nums[bestI];
    }
  }
}
