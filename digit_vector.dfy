/**
 * Digit vectors: arbitrary-precision naturals stored least-significant digit
 * first, as `std::vector<int>` holds them in the high-precision adder and in
 * the binary adder. This module holds the mathematical reading of a digit
 * vector (its value in a radix), the specification of the ripple-carry loop
 * both adders run, and the properties of that loop.
 */
module DigitVector {

  /** The numeric value of `s` read least-significant digit first. */
  function Value(s: seq<int>, base: int): int
  {
    if s == [] then 0 else s[0] + base * Value(s[1..], base)
  }

  /** Every element is a digit of the radix: the vector's well-formedness. */
  predicate ValidDigits(s: seq<int>, base: int)
  {
    forall k :: 0 <= k < |s| ==> 0 <= s[k] < base
  }

  /**
   * Canonical form: non-empty and no most-significant zero, except the
   * one-digit vector [0] that stands for zero.
   */
  predicate Canonical(s: seq<int>)
  {
    |s| > 0 && (s[|s| - 1] != 0 || |s| == 1)
  }

  function Pow(base: int, n: nat): int
  {
    if n == 0 then 1 else base * Pow(base, n - 1)
  }

  function Max(a: int, b: int): int
  {
    if a >= b then a else b
  }

  /** C++ integer division on `int`: the quotient is truncated toward zero. */
  function CDiv(a: int, d: int): int
    requires d > 0
  {
    if a >= 0 then a / d else -((-a) / d)
  }

  /** C++ `%` on `int`: the remainder takes the sign of the dividend. */
  function CMod(a: int, d: int): int
    requires d > 0
  {
    if a >= 0 then a % d else -((-a) % d)
  }

  lemma CDivMod(a: int, d: int)
    requires d > 0
    ensures a == d * CDiv(a, d) + CMod(a, d)
    ensures 0 <= a ==> 0 <= CMod(a, d) < d && 0 <= CDiv(a, d)
  {
    if a < 0 {
      NegDivMod(a, d);
    } else {
      NatDivMod(a, d);
    }
  }

  lemma NatDivMod(a: int, d: int)
    requires d > 0 && a >= 0
    ensures a == d * (a / d) + a % d
    ensures 0 <= a % d < d && 0 <= a / d
  {
  }

  lemma NegDivMod(a: int, d: int)
    requires d > 0 && a < 0
    ensures a == d * -((-a) / d) + -((-a) % d)
  {
    var q, r := (-a) / d, (-a) % d;
    assert -a == d * q + r;
    assert d * (-q) == -(d * q);
  }

  /** Euclidean quotient and remainder are determined by d*q + r with 0 <= r < d. */
  lemma DivModUnique(x: int, d: int, q: int, r: int)
    requires d > 0 && 0 <= r < d && x == d * q + r
    ensures x / d == q && x % d == r
  {
    var q', r' := x / d, x % d;
    assert x == d * q' + r';
    if q > q' {
      MulAtLeast(d, q - q');
    } else if q < q' {
      MulAtLeast(d, q' - q);
    }
  }

  lemma MulAtLeast(d: int, k: int)
    requires d > 0 && k >= 1
    ensures d * k >= d
  {
  }

  lemma MulMonotone(k: int, x: int, y: int)
    requires k >= 0 && x <= y
    ensures k * x <= k * y
  {
  }

  /** The element at position i of a vector, or 0 past its end (`if (i < len) t += v[i]`). */
  function Head(s: seq<int>): int
  {
    if s == [] then 0 else s[0]
  }

  function Tail(s: seq<int>): seq<int>
  {
    if s == [] then [] else s[1..]
  }

  lemma AppendAssoc(a: seq<int>, b: seq<int>, c: seq<int>)
    ensures (a + b) + c == a + (b + c)
  {
  }

  /** The positions of `s` from i on; empty once i is past the end. */
  function Drop(s: seq<int>, i: nat): seq<int>
  {
    if i <= |s| then s[i..] else []
  }

  lemma DropStep(s: seq<int>, i: nat)
    ensures Head(Drop(s, i)) == (if i < |s| then s[i] else 0)
    ensures Tail(Drop(s, i)) == Drop(s, i + 1)
    ensures Drop(s, i) == [] <==> i >= |s|
  {
  }

  /**
   * The ripple-carry addition loop, position by position: the digits it
   * pushes for the positions of `a` and `b`, starting with carry `carry`,
   * followed by the final carry when that is nonzero.
   */
  function Ripple(a: seq<int>, b: seq<int>, carry: int, base: int): seq<int>
    requires base >= 2
    decreases |a| + |b|
  {
    if a == [] && b == [] then
      (if carry != 0 then [carry] else [])
    else
      var t := carry + Head(a) + Head(b);
      [CMod(t, base)] + Ripple(Tail(a), Tail(b), CDiv(t, base), base)
  }

  /** The carry left after the loop has consumed every position of `a` and `b`. */
  function FinalCarry(a: seq<int>, b: seq<int>, carry: int, base: int): int
    requires base >= 2
    decreases |a| + |b|
  {
    if a == [] && b == [] then carry
    else FinalCarry(Tail(a), Tail(b), CDiv(carry + Head(a) + Head(b), base), base)
  }

  /** The canonical decimal digit vector of a natural number. */
  function FromNat(v: nat): seq<int>
  {
    if v < 10 then [v] else [v % 10] + FromNat(v / 10)
  }

  /** The character printed for a digit 0..9. */
  function DigitChar(d: int): char
    requires 0 <= d < 10
  {
    ('0' as int + d) as char
  }

  /**
   * The text printed for a digit vector: element by element from the highest
   * index down to index 0.
   */
  function Encode(v: seq<int>): (text: string)
    requires ValidDigits(v, 10)
    ensures |text| == |v|
    ensures forall k :: 0 <= k < |v| ==> text[k] == DigitChar(v[|v| - 1 - k])
  {
    if v == [] then "" else Encode(v[1..]) + [DigitChar(v[0])]
  }

  // ---------------------------------------------------------------------
  // Properties of the value reading
  // ---------------------------------------------------------------------

  lemma ValueHeadTail(s: seq<int>, base: int)
    ensures Value(s, base) == Head(s) + base * Value(Tail(s), base)
  {
  }

  lemma {:induction false} PowPositive(base: int, n: nat)
    requires base >= 2
    ensures Pow(base, n) >= 1
  {
    if n > 0 {
      PowPositive(base, n - 1);
    }
  }

  /** Appending a most-significant digit d adds d times base^|s|. */
  lemma {:induction false} ValueAppend(s: seq<int>, d: int, base: int)
    ensures Value(s + [d], base) == Value(s, base) + Pow(base, |s|) * d
  {
    if s == [] {
      assert Value([d], base) == d + base * Value([], base);
    } else {
      assert (s + [d])[1..] == s[1..] + [d];
      ValueAppend(s[1..], d, base);
      var v, p := Value(s[1..], base), Pow(base, |s| - 1);
      assert Value(s + [d], base) == s[0] + base * (v + p * d);
      assert Value(s, base) == s[0] + base * v;
      assert Pow(base, |s|) == base * p;
      AppendArith(s[0], base, v, p, d);
    }
  }

  lemma AppendArith(d0: int, base: int, v: int, p: int, d: int)
    ensures d0 + base * (v + p * d) == (d0 + base * v) + (base * p) * d
  {
  }

  /** A vector of valid digits denotes a value in [0, base^|s|). */
  lemma {:induction false} ValueBounds(s: seq<int>, base: int)
    requires base >= 2 && ValidDigits(s, base)
    ensures 0 <= Value(s, base) < Pow(base, |s|)
  {
    if s != [] {
      ValueBounds(s[1..], base);
      var rest, p := Value(s[1..], base), Pow(base, |s| - 1);
      assert Value(s, base) == s[0] + base * rest;
      assert Pow(base, |s|) == base * p;
      BoundArith(s[0], base, rest, p);
    }
  }

  lemma BoundArith(d: int, base: int, rest: int, p: int)
    requires 0 <= d < base && 0 <= rest < p
    ensures 0 <= d + base * rest < base * p
  {
    MulMonotone(base, 0, rest);
    MulMonotone(base, rest, p - 1);
    assert base * (p - 1) == base * p - base;
  }

  /** A vector of valid digits whose top digit is nonzero is at least base^(|s|-1). */
  lemma TopDigitLowerBound(s: seq<int>, base: int)
    requires base >= 2 && ValidDigits(s, base) && |s| > 0 && s[|s| - 1] != 0
    ensures Value(s, base) >= Pow(base, |s| - 1)
  {
    var init := s[..|s| - 1];
    assert s == init + [s[|s| - 1]];
    ValueAppend(init, s[|s| - 1], base);
    ValueBounds(init, base);
    PowPositive(base, |s| - 1);
    MulAtLeast(Pow(base, |init|), s[|s| - 1]);
  }

  /** A vector of valid digits whose top digit is zero is below base^(|s|-1). */
  lemma TopZeroUpperBound(s: seq<int>, base: int)
    requires base >= 2 && ValidDigits(s, base) && |s| > 0 && s[|s| - 1] == 0
    ensures Value(s, base) < Pow(base, |s| - 1)
  {
    var init := s[..|s| - 1];
    assert s == init + [0];
    ValueAppend(init, 0, base);
    ValueBounds(init, base);
  }

  // ---------------------------------------------------------------------
  // Properties of the ripple-carry loop
  // ---------------------------------------------------------------------

  /** Value law: the digits pushed denote the sum of the inputs and the incoming carry. */
  lemma {:induction false} RippleValue(a: seq<int>, b: seq<int>, carry: int, base: int)
    requires base >= 2
    ensures Value(Ripple(a, b, carry, base), base) == Value(a, base) + Value(b, base) + carry
    decreases |a| + |b|
  {
    if a == [] && b == [] {
    } else {
      var t := carry + Head(a) + Head(b);
      var q, m := CDiv(t, base), CMod(t, base);
      CDivMod(t, base);
      var rest := Ripple(Tail(a), Tail(b), q, base);
      RippleValue(Tail(a), Tail(b), q, base);
      assert Ripple(a, b, carry, base) == [m] + rest;
      assert ([m] + rest)[1..] == rest;
      var va, vb := Value(Tail(a), base), Value(Tail(b), base);
      ValueHeadTail(a, base);
      ValueHeadTail(b, base);
      Distribute(base, va, vb, q);
      assert Value([m] + rest, base) == m + base * (va + vb + q);
    }
  }

  lemma Distribute(k: int, x: int, y: int, z: int)
    ensures k * (x + y + z) == k * x + k * y + k * z
  {
  }

  /**
   * One turn of the loop: with t the carry plus the current digits, the
   * digit pushed is t % base and the carry kept is t / base.
   */
  lemma RippleStep(a: seq<int>, b: seq<int>, carry: int, t: int, base: int)
    requires base >= 2 && (a != [] || b != []) && t == carry + Head(a) + Head(b)
    ensures Ripple(a, b, carry, base) == [CMod(t, base)] + Ripple(Tail(a), Tail(b), CDiv(t, base), base)
    ensures FinalCarry(a, b, carry, base) == FinalCarry(Tail(a), Tail(b), CDiv(t, base), base)
  {
  }

  /** A position sum of two digits and a carry of 0 or 1 yields a digit and a carry of 0 or 1. */
  lemma CarryBound(t: int, base: int)
    requires base >= 2 && 0 <= t < 2 * base
    ensures 0 <= CMod(t, base) < base && 0 <= CDiv(t, base) <= 1
  {
    CDivMod(t, base);
    if CDiv(t, base) >= 2 {
      MulMonotone(base, 2, CDiv(t, base));
    }
  }

  /**
   * Digit range: with valid input digits and a carry of 0 or 1, every digit
   * pushed is valid and the final carry is again 0 or 1.
   */
  lemma {:induction false} RippleDigits(a: seq<int>, b: seq<int>, carry: int, base: int)
    requires base >= 2 && ValidDigits(a, base) && ValidDigits(b, base) && 0 <= carry <= 1
    ensures ValidDigits(Ripple(a, b, carry, base), base)
    ensures 0 <= FinalCarry(a, b, carry, base) <= 1
    decreases |a| + |b|
  {
    if a == [] && b == [] {
    } else {
      var t := carry + Head(a) + Head(b);
      assert 0 <= Head(a) < base && 0 <= Head(b) < base;
      CarryBound(t, base);
      ValidTail(a, base);
      ValidTail(b, base);
      RippleStep(a, b, carry, t, base);
      RippleDigits(Tail(a), Tail(b), CDiv(t, base), base);
      ValidCons(CMod(t, base), Ripple(Tail(a), Tail(b), CDiv(t, base), base), base);
    }
  }

  lemma ValidTail(s: seq<int>, base: int)
    requires ValidDigits(s, base)
    ensures ValidDigits(Tail(s), base)
  {
  }

  lemma ValidCons(d: int, s: seq<int>, base: int)
    requires 0 <= d < base && ValidDigits(s, base)
    ensures ValidDigits([d] + s, base)
  {
  }

  /**
   * Length law: one digit per position of the longer input, plus one more
   * exactly when the final carry is nonzero, and that last digit is the carry.
   */
  lemma {:induction false} RippleLength(a: seq<int>, b: seq<int>, carry: int, base: int)
    requires base >= 2
    ensures |Ripple(a, b, carry, base)| == Max(|a|, |b|) + (if FinalCarry(a, b, carry, base) != 0 then 1 else 0)
    ensures FinalCarry(a, b, carry, base) != 0 ==>
              Ripple(a, b, carry, base)[|Ripple(a, b, carry, base)| - 1] == FinalCarry(a, b, carry, base)
    decreases |a| + |b|
  {
    if a == [] && b == [] {
    } else {
      var t := carry + Head(a) + Head(b);
      RippleLength(Tail(a), Tail(b), CDiv(t, base), base);
    }
  }

  /** The operands enter the loop only through `t += ...`, so their order does not matter. */
  lemma {:induction false} RippleCommutes(a: seq<int>, b: seq<int>, carry: int, base: int)
    requires base >= 2
    ensures Ripple(a, b, carry, base) == Ripple(b, a, carry, base)
    decreases |a| + |b|
  {
    if a == [] && b == [] {
    } else {
      assert carry + Head(a) + Head(b) == carry + Head(b) + Head(a);
      RippleCommutes(Tail(a), Tail(b), CDiv(carry + Head(a) + Head(b), base), base);
    }
  }

  /** An empty operand is an identity for a vector of valid digits. */
  lemma {:induction false} RippleEmptyLeft(b: seq<int>, base: int)
    requires base >= 2 && ValidDigits(b, base)
    ensures Ripple([], b, 0, base) == b
    decreases |b|
  {
    if b != [] {
      DivModUnique(b[0], base, 0, b[0]);
      RippleEmptyLeft(b[1..], base);
    }
  }

  /** Adding the one-digit zero [0] to a non-empty valid vector leaves it unchanged. */
  lemma RippleZeroRight(a: seq<int>, base: int)
    requires base >= 2 && ValidDigits(a, base) && |a| > 0
    ensures Ripple(a, [0], 0, base) == a
  {
    DivModUnique(a[0], base, 0, a[0]);
    assert Ripple(a, [0], 0, base) == [a[0]] + Ripple(a[1..], [], 0, base);
    RippleCommutes(a[1..], [], 0, base);
    RippleEmptyLeft(a[1..], base);
    assert a == [a[0]] + a[1..];
  }

  /**
   * If the longer operand's most-significant digit is nonzero, so is the
   * result's most-significant digit.
   */
  lemma RippleTopNonzero(a: seq<int>, b: seq<int>, base: int)
    requires base >= 2 && ValidDigits(a, base) && ValidDigits(b, base)
    requires |a| >= |b| && |a| > 0 && a[|a| - 1] != 0
    ensures |Ripple(a, b, 0, base)| > 0
    ensures Ripple(a, b, 0, base)[|Ripple(a, b, 0, base)| - 1] != 0
  {
    var r := Ripple(a, b, 0, base);
    RippleLength(a, b, 0, base);
    RippleDigits(a, b, 0, base);
    if FinalCarry(a, b, 0, base) == 0 {
      RippleValue(a, b, 0, base);
      ValueBounds(b, base);
      TopDigitLowerBound(a, base);
      if r[|r| - 1] == 0 {
        TopZeroUpperBound(r, base);
        assert false;
      }
    }
  }

  /** Canonical operands of valid digits give a canonical sum. */
  lemma RippleCanonical(a: seq<int>, b: seq<int>, base: int)
    requires base >= 2 && ValidDigits(a, base) && ValidDigits(b, base)
    requires Canonical(a) && Canonical(b)
    ensures Canonical(Ripple(a, b, 0, base))
  {
    var r := Ripple(a, b, 0, base);
    RippleLength(a, b, 0, base);
    if |a| >= |b| && a[|a| - 1] != 0 {
      RippleTopNonzero(a, b, base);
    } else if |b| >= |a| && b[|b| - 1] != 0 {
      RippleTopNonzero(b, a, base);
      RippleCommutes(a, b, 0, base);
    } else {
      // Both operands are the one-digit zero [0].
      assert a == [0] && b == [0];
      assert r == [0];
    }
  }

  /**
   * Everything the adders promise about their result, for the ripple-carry
   * loop started with carry 0: the value law, the length law and, on valid
   * digits, the digit range, a final carry of 0 or 1 (so the extra digit is 1)
   * and canonical output for canonical input.
   */
  lemma RippleSum(a: seq<int>, b: seq<int>, base: int)
    requires base >= 2
    ensures Value(Ripple(a, b, 0, base), base) == Value(a, base) + Value(b, base)
    ensures |Ripple(a, b, 0, base)| == Max(|a|, |b|) + (if FinalCarry(a, b, 0, base) != 0 then 1 else 0)
    ensures ValidDigits(a, base) && ValidDigits(b, base) ==>
              ValidDigits(Ripple(a, b, 0, base), base) && 0 <= FinalCarry(a, b, 0, base) <= 1
    ensures ValidDigits(a, base) && ValidDigits(b, base) && |Ripple(a, b, 0, base)| > Max(|a|, |b|) ==>
              Ripple(a, b, 0, base)[|Ripple(a, b, 0, base)| - 1] == 1
    ensures ValidDigits(a, base) && ValidDigits(b, base) && Canonical(a) && Canonical(b) ==>
              Canonical(Ripple(a, b, 0, base))
  {
    var r, n, carry := Ripple(a, b, 0, base), Max(|a|, |b|), FinalCarry(a, b, 0, base);
    assert Value(r, base) == Value(a, base) + Value(b, base) by {
      RippleValue(a, b, 0, base);
    }
    assert |r| == n + (if carry != 0 then 1 else 0) && (carry != 0 ==> r[|r| - 1] == carry) by {
      RippleLength(a, b, 0, base);
    }
    if ValidDigits(a, base) && ValidDigits(b, base) {
      assert ValidDigits(r, base) && 0 <= carry <= 1 by {
        RippleDigits(a, b, 0, base);
      }
      if Canonical(a) && Canonical(b) {
        assert Canonical(r) by {
          RippleCanonical(a, b, base);
        }
      }
    }
  }

  /**
   * The state of the ripple-carry loop after its first i positions: the
   * digits pushed so far, followed by all that the loop still pushes from
   * carry t, make up the whole sum, and the final carry is the same.
   */
  ghost predicate RippleProgress(a: seq<int>, b: seq<int>, i: nat, t: int, res: seq<int>, base: int)
  {
    && base >= 2
    && res + Ripple(Drop(a, i), Drop(b, i), t, base) == Ripple(a, b, 0, base)
    && FinalCarry(Drop(a, i), Drop(b, i), t, base) == FinalCarry(a, b, 0, base)
  }

  /** Before the first position nothing is pushed and the carry is 0. */
  lemma RippleStart(a: seq<int>, b: seq<int>, base: int)
    requires base >= 2
    ensures RippleProgress(a, b, 0, 0, [], base)
  {
    assert Drop(a, 0) == a && Drop(b, 0) == b;
  }

  /** One iteration of the loop: push t % base, keep t / base as the carry. */
  lemma RippleAdvance(a: seq<int>, b: seq<int>, i: nat, t0: int, t: int, res: seq<int>, base: int)
    requires i < |a| || i < |b|
    requires RippleProgress(a, b, i, t0, res, base)
    requires t == t0 + (if i < |a| then a[i] else 0) + (if i < |b| then b[i] else 0)
    ensures RippleProgress(a, b, i + 1, CDiv(t, base), res + [CMod(t, base)], base)
  {
    DropStep(a, i);
    DropStep(b, i);
    RippleStep(Drop(a, i), Drop(b, i), t0, t, base);
    var rest := Ripple(Drop(a, i + 1), Drop(b, i + 1), CDiv(t, base), base);
    AppendAssoc(res, [CMod(t, base)], rest);
  }

  /** Past both inputs, the carry left is the final carry and pushing it when nonzero completes the sum. */
  lemma RippleFinish(a: seq<int>, b: seq<int>, i: nat, t: int, res: seq<int>, base: int)
    requires i >= |a| && i >= |b|
    requires RippleProgress(a, b, i, t, res, base)
    ensures t == FinalCarry(a, b, 0, base)
    ensures (if t != 0 then res + [t] else res) == Ripple(a, b, 0, base)
  {
    DropStep(a, i);
    DropStep(b, i);
    assert res + [] == res;
  }

  // ---------------------------------------------------------------------
  // Canonical vectors and FromNat
  // ---------------------------------------------------------------------

  /** FromNat yields a canonical vector of decimal digits that denotes v. */
  lemma {:induction false} FromNatCorrect(v: nat)
    ensures ValidDigits(FromNat(v), 10)
    ensures Canonical(FromNat(v))
    ensures |FromNat(v)| == 1 <==> v < 10
    ensures Value(FromNat(v), 10) == v
    decreases v
  {
    if v >= 10 {
      var q, m := v / 10, v % 10;
      FromNatCorrect(q);
      var rest := FromNat(q);
      assert FromNat(v) == [m] + rest;
      assert ([m] + rest)[1..] == rest;
      assert Value([m] + rest, 10) == m + 10 * q;
    }
  }

  /** A canonical vector of decimal digits is the only one denoting its value. */
  lemma {:induction false} CanonicalUnique(s: seq<int>)
    requires ValidDigits(s, 10) && Canonical(s)
    ensures Value(s, 10) >= 0
    ensures s == FromNat(Value(s, 10))
    decreases |s|
  {
    ValueBounds(s, 10);
    var v := Value(s, 10);
    if |s| == 1 {
      assert v == s[0] + 10 * Value([], 10);
    } else {
      var rest := s[1..];
      assert rest[|rest| - 1] == s[|s| - 1];
      CanonicalUnique(rest);
      TopDigitLowerBound(rest, 10);
      PowPositive(10, |rest| - 1);
      var w := Value(rest, 10);
      assert v == s[0] + 10 * w;
      assert s == [s[0]] + rest;
    }
  }
}
