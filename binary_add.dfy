/**
 * The binary adder utility: `binary_add`, the same ripple-carry loop as the
 * decimal adder in radix 2, and `str_to_vec`, which turns a numeral string
 * into a least-significant-first digit vector.
 */
module BinaryAdd {
  import opened DigitVector

  /**
   * Binary ripple-carry addition: pushes `t % 2` and keeps `t / 2` at each
   * position, then pushes a nonzero final carry. The inputs are const
   * references in the source; here they are sequence values.
   */
  method BinaryAdd(v1: seq<int>, v2: seq<int>) returns (res: seq<int>)
    ensures res == Ripple(v1, v2, 0, 2)
    ensures Value(res, 2) == Value(v1, 2) + Value(v2, 2)
  {
    var len1, len2 := |v1|, |v2|;
    res := [];
    var t := 0;
    var i := 0;
    RippleStart(v1, v2, 2);
    while i < len1 || i < len2
      invariant 0 <= i <= Max(len1, len2)
      invariant RippleProgress(v1, v2, i, t, res, 2)
      decreases Max(len1, len2) - i
    {
      ghost var t0 := t;
      if i < len1 {
        t := t + v1[i];
      }
      if i < len2 {
        t := t + v2[i];
      }
      RippleAdvance(v1, v2, i, t0, t, res, 2);
      res := res + [CMod(t, 2)];
      t := CDiv(t, 2);
      i := i + 1;
    }
    RippleFinish(v1, v2, i, t, res, 2);
    if t != 0 {
      res := res + [t];
    }
    RippleValue(v1, v2, 0, 2);
  }

  /** The value `c - '0'` that `str_to_vec` stores for a character, unchecked. */
  function CharDigit(c: char): int
  {
    c as int - '0' as int
  }

  /**
   * The digit vector of a numeral string: its characters in reverse order,
   * each turned into `c - '0'` with no validation.
   */
  function Decode(s: string): (v: seq<int>)
    ensures |v| == |s|
    ensures forall k :: 0 <= k < |s| ==> v[k] == CharDigit(s[|s| - 1 - k])
  {
    if s == [] then [] else Decode(s[1..]) + [CharDigit(s[0])]
  }

  /** `str_to_vec`: walks the string from its last character down to its first. */
  method StrToVec(s: string) returns (vec: seq<int>)
    ensures |vec| == |s|
    ensures forall k :: 0 <= k < |s| ==> vec[k] == CharDigit(s[|s| - 1 - k])
    ensures vec == Decode(s)
  {
    vec := [];
    var i := |s| - 1;
    while i >= 0
      invariant -1 <= i < |s|
      invariant |vec| == |s| - 1 - i
      invariant forall k :: 0 <= k < |vec| ==> vec[k] == CharDigit(s[|s| - 1 - k])
    {
      var c := s[i];
      vec := vec + [CharDigit(c)];
      i := i - 1;
    }
  }

  /** Every character is a digit character of the radix: '0' up to '0' + base - 1. */
  predicate IsNumeral(s: string, base: int)
  {
    forall k :: 0 <= k < |s| ==> '0' as int <= s[k] as int < '0' as int + base
  }

  /** Decoding a numeral of the radix gives digits of the radix; any other character gives a digit outside it. */
  lemma DecodeDigits(s: string, base: int)
    ensures ValidDigits(Decode(s), base) <==> IsNumeral(s, base)
  {
    var v := Decode(s);
    if ValidDigits(v, base) {
      forall k | 0 <= k < |s|
        ensures '0' as int <= s[k] as int < '0' as int + base
      {
        assert v[|s| - 1 - k] == CharDigit(s[k]);
      }
    }
  }

  /** Printing the decoded vector from its highest index down gives back the numeral. */
  lemma EncodeDecode(s: string)
    requires IsNumeral(s, 10)
    ensures ValidDigits(Decode(s), 10)
    ensures Encode(Decode(s)) == s
  {
    DecodeDigits(s, 10);
    var v := Decode(s);
    var text := Encode(v);
    forall k | 0 <= k < |s|
      ensures text[k] == s[k]
    {
      assert v[|s| - 1 - k] == CharDigit(s[k]);
    }
  }

  /** Decoding the printed text of a vector of decimal digits gives back the vector. */
  lemma DecodeEncode(v: seq<int>)
    requires ValidDigits(v, 10)
    ensures Decode(Encode(v)) == v
  {
    var text := Encode(v);
    var w := Decode(text);
    forall k | 0 <= k < |v|
      ensures w[k] == v[k]
    {
      assert text[|v| - 1 - k] == DigitChar(v[k]);
    }
  }

  /** The numerals "101" and "11" decode to the vectors of five and three. */
  lemma DecodeExample()
    ensures Decode("101") == [1, 0, 1] && Decode("11") == [1, 1]
    ensures Value([1, 0, 1], 2) == 5 && Value([1, 1], 2) == 3
  {
    var v, w := Decode("101"), Decode("11");
    assert v[0] == 1 && v[1] == 0 && v[2] == 1;
    assert w[0] == 1 && w[1] == 1;
  }

  /** "101" + "11" is "1000": five plus three is eight. */
  lemma BinaryExample()
    ensures Ripple([1, 0, 1], [1, 1], 0, 2) == [0, 0, 0, 1]
  {
    var a0, a1, a2 := [1, 0, 1], [0, 1], [1];
    var b0, b1 := [1, 1], [1];
    assert Tail(a0) == a1 && Tail(a1) == a2 && Tail(a2) == [] && Tail(b0) == b1 && Tail(b1) == [];
    assert CMod(2, 2) == 0 && CDiv(2, 2) == 1;
    assert Ripple([], [], 1, 2) == [1];
    RippleStep(a2, [], 1, 2, 2);
    RippleStep(a1, b1, 1, 2, 2);
    RippleStep(a0, b0, 0, 2, 2);
  }

  /** The sum is eight and prints as "1000". */
  lemma EncodeExample()
    ensures Value([0, 0, 0, 1], 2) == 8
    ensures ValidDigits([0, 0, 0, 1], 10) && Encode([0, 0, 0, 1]) == "1000"
  {
    var v := [0, 0, 0, 1];
    assert ValidDigits(v, 10);
    var text := Encode(v);
    assert text[0] == '1' && text[1] == '0' && text[2] == '0' && text[3] == '0';
  }
}
