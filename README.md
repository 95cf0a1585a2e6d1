# Cpp-learning-notes: verified model of the algorithm and class lessons

This project models the algorithm and class lessons of the C++ study-notes
repository in Dafny and proves properties of the model:

- **High-precision addition**
  - `add` is decimal ripple-carry addition of two digit vectors, least-significant digit first.
  - The Fibonacci driver computes the n-th Fibonacci number with `add` as its only arithmetic.
- **Binary addition**
  - `binary_add` is the same loop in radix 2.
  - `str_to_vec` turns a numeral string into a reversed digit vector.
- **Kadane's algorithm**
  - `func` returns the largest sum of a non-empty contiguous subarray.
- **Class lessons**
  - A memoising calculator whose mutable fields are changed by a `const` query.
  - A player whose health is clamped at zero.
  - A log with a level filter.
  - A player that moves at a fixed speed.

Modules:

- `DigitVector` holds the shared digit-vector theory:
  - `Value` is the number a vector denotes.
  - `Ripple` and `FinalCarry` are a recursive specification of the ripple-carry loop for any radix.
  - `CDiv` and `CMod` are C++'s truncating `/` and `%`.
  - `FromNat` is the canonical decimal vector of a natural number.
  - `Encode` is the text printed from the highest index down.
- `HighPrecisionAdder` and `BinaryAdd` keep the source's `for` loops as `while` loops. Each loop is proved equal to `Ripple`, and the properties of the sum are proved once about `Ripple`.
- `Fibonacci` keeps the recurrence loop.
- `Kadane` keeps the one-pass loop, with ghost witnesses for the subarrays it sums.
- The class lessons are Dafny classes whose methods modify exactly the fields the C++ methods assign:
  - `ConstMutable`;
  - `ClassVsStruct`;
  - `WriteClass`;
  - `ClassBasics`.

Vectors passed by value or by const reference are Dafny sequences, which are values.

## Model

| member | source | states |
|---|---|---|
| DigitVector.CDivMod | Means/High-precision_Adder/High-precision_Adder.cpp:15-16 | The pushed digit `t % 10` and the kept carry `t / 10` (truncating) recombine to `t`. For `t >= 0` the digit lies in 0..9 and the carry is non-negative. |
| DigitVector.RippleValue | Means/High-precision_Adder/High-precision_Adder.cpp:9-19 | The vector produced denotes value(a) + value(b) + carry, for any integer entries. |
| DigitVector.RippleLength | Means/High-precision_Adder/High-precision_Adder.cpp:9-19 | The result has max(len1, len2) positions plus one more exactly when the final carry is nonzero, and that last entry is the carry. |
| DigitVector.RippleDigits | Means/High-precision_Adder/High-precision_Adder.cpp:15-19 | With digit inputs and a carry of 0 or 1, every pushed entry is a digit of the radix and the final carry is 0 or 1. |
| DigitVector.RippleCommutes | Means/High-precision_Adder/High-precision_Adder.cpp:9-19 | Adding b to a gives the same vector as adding a to b. |
| DigitVector.RippleEmptyLeft | Means/High-precision_Adder/High-precision_Adder.cpp:9-19 | Adding an empty vector to a digit vector returns that vector unchanged. |
| DigitVector.RippleZeroRight | Means/High-precision_Adder/High-precision_Adder.cpp:9-19 | Adding `[0]` to a non-empty digit vector returns it unchanged. |
| DigitVector.RippleTopNonzero | Means/High-precision_Adder/High-precision_Adder.cpp:9-19 | If the longer input has a nonzero top digit, so does the sum. |
| DigitVector.RippleCanonical | Means/High-precision_Adder/High-precision_Adder.cpp:9-19 | The sum of two canonical digit vectors is canonical: non-empty, and no most-significant zero except `[0]` itself. |
| DigitVector.RippleSum | Means/High-precision_Adder/High-precision_Adder.cpp:3-21 | From carry 0: the value is the sum of the values; the length is max(len1, len2) plus one for a nonzero final carry; digits in give digits out; an extra top digit is 1; canonical in gives canonical out. |
| DigitVector.Encode | Means/High-precision_Adder/Fibonacci.cpp:24-29 | The printed text has one character per entry, character k being the digit at index len-1-k. |
| DigitVector.FromNatCorrect | Means/High-precision_Adder/Fibonacci.cpp:15-23 | The decimal vector of v is made of digits, is canonical, denotes v, and has one digit exactly when v < 10. |
| DigitVector.CanonicalUnique | Means/High-precision_Adder/Fibonacci.cpp:15-23 | A canonical decimal digit vector is the only one denoting its value. |
| HighPrecisionAdder.Add | Means/High-precision_Adder/High-precision_Adder.cpp:3-21 | The loop returns exactly the ripple-carry sum in radix 10 (see RippleSum), whose value is the sum of the inputs' values. |
| BinaryAdd.BinaryAdd | 00_algo/binary_add/function.cpp:6-27 | The loop returns exactly the ripple-carry sum in radix 2, whose value is the sum of the inputs' binary values. |
| BinaryAdd.Decode | 00_algo/binary_add/function.cpp:30-40 | The vector has one entry per character, entry k being `c - '0'` of the character at index len-1-k. |
| BinaryAdd.StrToVec | 00_algo/binary_add/function.cpp:30-40 | Walking from the last character down gives exactly `Decode(s)`, with no validation. |
| BinaryAdd.DecodeDigits | 00_algo/binary_add/function.cpp:36-37 | The decoded entries are digits of the radix if and only if every character is a digit character of that radix. |
| BinaryAdd.EncodeDecode | NOTES/00_algo/binary_add/main.cpp:11-20 | Printing the decoded vector of a decimal numeral from its top index down gives back the numeral. |
| BinaryAdd.DecodeEncode | NOTES/00_algo/binary_add/main.cpp:11-20 | Decoding the printed text of a digit vector gives back the vector. |
| BinaryAdd.DecodeExample | NOTES/00_algo/binary_add/main.cpp:11-12 | "101" and "11" decode to `[1,0,1]` and `[1,1]`, the binary vectors of 5 and 3. |
| BinaryAdd.BinaryExample | NOTES/00_algo/binary_add/main.cpp:14 | Adding those vectors gives `[0,0,0,1]`. |
| BinaryAdd.EncodeExample | NOTES/00_algo/binary_add/main.cpp:16-20 | `[0,0,0,1]` denotes 8 in binary and prints as "1000". |
| Fibonacci.NthTerm | Means/High-precision_Adder/Fibonacci.cpp:15-23 | For n >= 2 the loop leaves the canonical decimal vector of F(n). For n <= 1 `current` stays empty. The notes copy (NOTES/00_algo/High-precision_Adder/Fibonacci.cpp, lines 17-26) runs the same loop. |
| Fibonacci.Seeds | Means/High-precision_Adder/Fibonacci.cpp:15-16 | The seeds `{1}` and `{0}` are the vectors of F(1) and F(0). |
| Fibonacci.Examples | Means/High-precision_Adder/Fibonacci.cpp:24-29 | Term 10 is `[5,5]` and prints "55". Term 20 is `[5,6,7,6]` and prints "6765". |
| Kadane.MaxSubarraySum | 00_algo/Kadane_algorithm/Find_Max_Sum/functions.cpp:20-35 | For an empty vector it returns 0. Otherwise it returns the sum of some non-empty contiguous subarray, and no such subarray sums to more; it is at least every element, and it is an element when all are negative. |
| ConstMutable.BigDataCalculator.constructor | 04_Const_and_Mutable/demo.cpp:30 | It starts with the given data, cached result 0, no cache and no accesses. |
| ConstMutable.BigDataCalculator.GetComplexResult | 04_Const_and_Mutable/demo.cpp:33-51 | The result is data*data*10 and the access count grows by one. A cache hit leaves the cache as it was; a miss fills it. The data never changes, and a filled cache always holds the current data's result. |
| ConstMutable.BigDataCalculator.SetData | 04_Const_and_Mutable/demo.cpp:54-58 | Replaces the data and invalidates the cache; the count and the stale value stay. |
| ConstMutable.TwoQueries | 04_Const_and_Mutable/demo.cpp:112-118 | A calculator built with 5 answers 250 by computing, then 250 from the cache, after two counted accesses. |
| ClassVsStruct.Player.constructor | NOTES/01_class_object/2_class-vs-struct/demo.cpp:40 | Name and health are set, and the maximum health equals the initial health. |
| ClassVsStruct.Player.TakeDamage | NOTES/01_class_object/2_class-vs-struct/demo.cpp:43-49 | Health drops by the damage, clamped at 0 and never negative; name and maximum health are unchanged. |
| ClassVsStruct.Player.GetHealth | NOTES/01_class_object/2_class-vs-struct/demo.cpp:52 | Returns the current health. |
| ClassVsStruct.DamageAccumulates | NOTES/01_class_object/2_class-vs-struct/demo.cpp:45-47 | Two non-negative hits equal one hit of their total. |
| ClassVsStruct.NoUpperClamp | NOTES/01_class_object/2_class-vs-struct/demo.cpp:45-47 | Negative damage gives exactly health minus damage, above the old health: the only clamp is the one at zero. |
| ClassVsStruct.HealPastMax | NOTES/01_class_object/2_class-vs-struct/demo.cpp:40-49 | A player at full health (100) taking -1 damage ends with 101, above its maximum health. |
| ClassVsStruct.HeroScenario | NOTES/01_class_object/2_class-vs-struct/demo.cpp:84-88 | "Hero" with 100 HP takes 20 damage and has 80 left. |
| WriteClass.Log.constructor | NOTES/01_class_object/3_write_class/demo.cpp:14 | A new log is at LevelInfo. |
| WriteClass.Log.SetLevel | NOTES/01_class_object/3_write_class/demo.cpp:18-21 | The level becomes the one given. |
| WriteClass.Log.Error | NOTES/01_class_object/3_write_class/demo.cpp:24-30 | An error is printed at every level. |
| WriteClass.Log.Warn | NOTES/01_class_object/3_write_class/demo.cpp:33-39 | A warning is printed exactly when the level is not LevelError. |
| WriteClass.Log.Info | NOTES/01_class_object/3_write_class/demo.cpp:42-48 | An info message is printed exactly at LevelInfo. |
| WriteClass.LevelOrder | NOTES/01_class_object/3_write_class/demo.cpp:5-9 | LevelError = 0 < LevelWarning < LevelInfo, and distinct enumerators have distinct values. |
| WriteClass.EmitsMonotone | NOTES/01_class_object/3_write_class/demo.cpp:24-48 | Raising the level never silences a message that was printed. |
| WriteClass.Round | NOTES/01_class_object/3_write_class/demo.cpp:56-58 | An info, a warning and an error in turn give the three printing decisions of the current level. |
| WriteClass.ThreeRounds | NOTES/01_class_object/3_write_class/demo.cpp:53-70 | At the default level all three print; at LevelWarning the info is dropped; at LevelError only the error prints. |
| ClassBasics.Player.constructor | NOTES/01_class_object/1_class/demo.cpp:18-23 | Position and speed are the given values. |
| ClassBasics.Player.Move | NOTES/01_class_object/1_class/demo.cpp:27-33 | Each coordinate advances by its delta times the speed; the speed is unchanged. |
| ClassBasics.Player.DisplayStatus | NOTES/01_class_object/1_class/demo.cpp:36-40 | Reports x, y and speed without changing them. |
| ClassBasics.MovesCompose | NOTES/01_class_object/1_class/demo.cpp:30-31 | Two moves equal one move by the summed deltas, and a zero move changes nothing. |
| ClassBasics.MoveScenario | NOTES/01_class_object/1_class/demo.cpp:47-56 | A player at (0, 0) with speed 2 moved by (1, 1) is at (2, 2) with speed 2. |

## Left out

- Console I/O is not modelled:
  - the prompts and the reading of `n`, of the two binary strings and of the Kadane array;
  - the log and status lines.
  
  Inputs become parameters. What would be printed becomes a returned value: the vector or its `Encode` text, a decision flag, or the reported fields.
- `getdata` (00_algo/Kadane_algorithm/Find_Max_Sum/functions.cpp:5-19) is console input only. Its result is the parameter of `Kadane.MaxSubarraySum`.
- The clock reads and the elapsed-time report of the notes copy of the Fibonacci driver are not modelled: time is not part of the model.
- The Fibonacci driver's fixed lines for n = 0 and n = 1 are console output and are not modelled. The loop and the empty `current` it leaves are modelled.
- `Vec2::length` computes a floating-point square root, which is not modelled. `TestStruct` and `TestClass` only show default access, which the compiler checks.
- `lambdaDemo` and `pointerDemo` in the const/mutable lesson are not modelled. They demonstrate compile-time const rules and a by-value lambda capture; they keep no state the lesson relies on.
- The `const` qualifier of the calculator object is not modelled. Its logical constness is the `data == old(data)` postcondition of `GetComplexResult`.
- The `message` arguments of the log methods are accepted and ignored. Their text only matters to the printed line.
- HighPrecisionAdder.Add: the method promises the exact ripple-carry vector and its value. Length, digit range, top carry and canonical form are proved once about that vector in `DigitVector.RippleSum` rather than repeated in the method.
- BinaryAdd.BinaryAdd: as for `Add`, the length and digit-range facts live in `DigitVector.RippleSum`.
- HighPrecisionAdder.Add: `t`, the lengths and the index are unbounded integers. 32-bit overflow of the carry cannot occur for digit inputs and is not modelled for others.
- BinaryAdd.BinaryAdd: as for `Add`, the carry `t`, the lengths and the index are unbounded integers; 32-bit overflow is not modelled.
- BinaryAdd.StrToVec: strings are modelled as sequences of Unicode characters, not of bytes, and `char` is taken as the code point. Length and entries therefore match `str_to_vec` only on ASCII text. A non-ASCII character is one byte per UTF-8 unit in the source, possibly of signed `char`, but one entry here.
- ConstMutable.BigDataCalculator.GetComplexResult: `accessCount` is an unbounded integer; the 32-bit overflow of `accessCount++` is not modelled.
- Kadane.MaxSubarraySum: sums are unbounded integers; 32-bit overflow of `current_sum` is not modelled.
- ConstMutable.BigDataCalculator.GetComplexResult: `data * data * 10` is computed on unbounded integers; 32-bit overflow is not modelled.
- ClassVsStruct.Player.TakeDamage: `health - damage` is unbounded; 32-bit overflow is not modelled.
- ClassBasics.Player.Move: `dx * speed` and `dy * speed` are unbounded; 32-bit overflow is not modelled.
- The model follows the code where it is looser than a validating design:
  - `str_to_vec` accepts any character and the empty string. `BinaryAdd.DecodeDigits` says exactly when the result is a digit vector.
  - A negative `n` raises no error in the Fibonacci driver; `current` is left empty, as for n <= 1.
  - `add` of non-canonical inputs can return a most-significant zero. For example, `[0, 0]` plus `[0]` gives `[0, 0]`.
  - Absence of leading zeros is proved only for canonical inputs (`DigitVector.RippleCanonical`).
