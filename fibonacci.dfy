/**
 * The Fibonacci driver of the high-precision adder: the n-th Fibonacci
 * number computed with `add` as its only arithmetic, so that it never
 * overflows a machine integer. The prompt loop and the printing around the
 * computation are I/O; the recurrence loop is modelled as `NthTerm`.
 */
module Fibonacci {
  import opened DigitVector
  import HighPrecisionAdder

  /** The Fibonacci numbers: F(0) = 0, F(1) = 1, F(k) = F(k-1) + F(k-2). */
  function Fib(k: nat): nat
  {
    if k < 2 then k else Fib(k - 1) + Fib(k - 2)
  }

  /**
   * The recurrence loop: starts from pre_1 = [1] and pre_2 = [0] and runs
   * its body n-1 times (never, when n <= 1), each time adding the pair and
   * shifting it. For n >= 2 the result is the canonical decimal digit vector
   * of F(n); for n <= 1 `current` is never assigned and stays empty.
   */
  method NthTerm(n: int) returns (current: seq<int>)
    ensures n <= 1 ==> current == []
    ensures n >= 2 ==> current == FromNat(Fib(n))
    ensures n >= 2 ==> Value(current, 10) == Fib(n) && ValidDigits(current, 10) && Canonical(current)
  {
    var pre1: seq<int> := [1];
    var pre2: seq<int> := [0];
    current := [];
    var i := 0;
    while i < n - 1
      invariant 0 <= i && (i == 0 || i <= n - 1)
      invariant Value(pre1, 10) == Fib(i + 1) && Value(pre2, 10) == Fib(i)
      invariant ValidDigits(pre1, 10) && Canonical(pre1)
      invariant ValidDigits(pre2, 10) && Canonical(pre2)
      invariant i == 0 ==> current == []
      invariant i > 0 ==> current == pre1
    {
      current := HighPrecisionAdder.Add(pre1, pre2);
      RippleSum(pre1, pre2, 10);
      pre2 := pre1;
      pre1 := current;
      i := i + 1;
    }
    if n >= 2 {
      CanonicalUnique(current);
      FromNatCorrect(Fib(n));
    }
  }

  /** The seeds of the loop are the digit vectors of F(1) and F(0). */
  lemma Seeds()
    ensures [1] == FromNat(Fib(1)) && [0] == FromNat(Fib(0))
  {
  }

  /** F(10) is 55 and F(20) is 6765, printed from the highest index down. */
  lemma Examples()
    ensures FromNat(Fib(10)) == [5, 5] && Encode(FromNat(Fib(10))) == "55"
    ensures FromNat(Fib(20)) == [5, 6, 7, 6] && Encode(FromNat(Fib(20))) == "6765"
  {
    FibValues();
    assert FromNat(55) == [5, 5];
    assert FromNat(6765) == [5, 6, 7, 6];
  }

  /** The first twenty steps of the recurrence, in order. */
  lemma FibValues()
    ensures Fib(10) == 55 && Fib(20) == 6765
  {
    assert Fib(2) == 1;
    assert Fib(3) == 2;
    assert Fib(4) == 3;
    assert Fib(5) == 5;
    assert Fib(6) == 8;
    assert Fib(7) == 13;
    assert Fib(8) == 21;
    assert Fib(9) == 34;
    assert Fib(10) == 55;
    assert Fib(11) == 89;
    assert Fib(12) == 144;
    assert Fib(13) == 233;
    assert Fib(14) == 377;
    assert Fib(15) == 610;
    assert Fib(16) == 987;
    assert Fib(17) == 1597;
    assert Fib(18) == 2584;
    assert Fib(19) == 4181;
  }
}
