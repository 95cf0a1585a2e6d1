/**
 * The memoising calculator of the const/mutable lesson: a logically
 * constant query that caches its result in mutable fields and counts its
 * calls. Console logging is modelled as a returned flag saying which of the
 * two log lines (cache hit, or computing) would be printed.
 */
module ConstMutable {

  /** The "heavy" computation the cache stands for. */
  function ComplexResult(data: int): int
  {
    data * data * 10
  }

  class BigDataCalculator {
    var data: int
    var cachedResult: int
    var isCached: bool
    var accessCount: int

    /** A valid cache holds the result for the current data; the counter never goes negative. */
    ghost predicate Valid()
      reads this
    {
      (isCached ==> cachedResult == ComplexResult(data)) && accessCount >= 0
    }

    constructor (val: int)
      ensures Valid()
      ensures data == val && cachedResult == 0 && !isCached && accessCount == 0
    {
      data := val;
      cachedResult := 0;
      isCached := false;
      accessCount := 0;
    }

    /**
     * Counts the call, then answers from the cache when it is filled and
     * otherwise computes, fills the cache and answers. `cacheHit` tells
     * which log line would be printed. The data is never changed.
     */
    method GetComplexResult() returns (result: int, cacheHit: bool)
      requires Valid()
      modifies this`cachedResult, this`isCached, this`accessCount
      ensures Valid()
      ensures result == ComplexResult(data)
      ensures data == old(data)
      ensures accessCount == old(accessCount) + 1
      ensures isCached && cachedResult == result
      ensures cacheHit == old(isCached)
      ensures old(isCached) ==> cachedResult == old(cachedResult)
    {
      accessCount := accessCount + 1;
      if isCached {
        return cachedResult, true;
      }
      cachedResult := data * data * 10;
      isCached := true;
      return cachedResult, false;
    }

    /** Replaces the data and invalidates the cache; the counter and the stale cached value stay. */
    method SetData(val: int)
      requires Valid()
      modifies this`data, this`isCached
      ensures Valid()
      ensures data == val && !isCached
      ensures cachedResult == old(cachedResult) && accessCount == old(accessCount)
    {
      data := val;
      isCached := false;
    }
  }

  /**
   * The calculator built with 5 and queried twice: the first call computes
   * 250, the second answers 250 from the cache, and two accesses are counted.
   */
  method TwoQueries() returns (first: int, firstHit: bool, second: int, secondHit: bool, count: int)
    ensures first == 250 && !firstHit
    ensures second == 250 && secondHit
    ensures count == 2
  {
    var calculator := new BigDataCalculator(5);
    first, firstHit := calculator.GetComplexResult();
    second, secondHit := calculator.GetComplexResult();
    count := calculator.accessCount;
  }
}
