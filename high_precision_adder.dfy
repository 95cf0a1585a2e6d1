/**
 * The decimal high-precision adder `add`: ripple-carry addition of two
 * digit vectors stored least-significant digit first.
 */
module HighPrecisionAdder {
  import opened DigitVector

  /**
   * Adds `s1` and `s2` position by position with a running carry `t`,
   * pushing `t % 10` and keeping `t / 10`; a nonzero carry left at the end
   * is pushed as one more digit. The arguments are sequences, taken by
   * value as in the source.
   */
  method Add(s1: seq<int>, s2: seq<int>) returns (res: seq<int>)
    ensures res == Ripple(s1, s2, 0, 10)
    ensures Value(res, 10) == Value(s1, 10) + Value(s2, 10)
  {
    var len1, len2 := |s1|, |s2|;
    res := [];
    var t := 0;
    var i := 0;
    RippleStart(s1, s2, 10);
    while i < len1 || i < len2
      invariant 0 <= i <= Max(len1, len2)
      invariant RippleProgress(s1, s2, i, t, res, 10)
      decreases Max(len1, len2) - i
    {
      ghost var t0 := t;
      if i < len1 {
        t := t + s1[i];
      }
      if i < len2 {
        t := t + s2[i];
      }
      RippleAdvance(s1, s2, i, t0, t, res, 10);
      res := res + [CMod(t, 10)];
      t := CDiv(t, 10);
      i := i + 1;
    }
    RippleFinish(s1, s2, i, t, res, 10);
    if t != 0 {
      res := res + [t];
    }
    RippleValue(s1, s2, 0, 10);
  }
}
