/**
 Sample arithmetic: binary32 bits to a signed 8-bit sample, without floating
 point, and from there to the biased 16-bit words the DAC takes by DMA.
 */
module Samples {
  newtype i8 = x: int | -128 <= x < 128
  type u8 = x: nat | x < 0x100
  type u16 = x: nat | x < 0x1_0000
  type u32 = x: nat | x < 0x1_0000_0000

  /** `x as i8`: keeps the low eight bits. */
  function WrapI8(x: int): (r: i8)
    ensures (r as int - x) % 256 == 0
  {
    ((x + 128) % 256 - 128) as i8
  }

  function ShiftRight(x: nat, k: nat): nat
    decreases k
  {
    if k == 0 then x else ShiftRight(x / 2, k - 1)
  }

  function ShiftLeft(x: nat, k: nat): nat
    decreases k
  {
    if k == 0 then x else ShiftLeft(2 * x, k - 1)
  }

  // ----- the fields of a binary32 number (section 3.4 of IEEE 754-2008) -----

  function Frac(bits: u32): nat { bits % 0x80_0000 }

  function Exp(bits: u32): nat { bits / 0x80_0000 % 0x100 }

  predicate Negative(bits: u32) { bits / 0x8000_0000 != 0 }

  /** Whether the bits encode a number, neither an infinity nor a NaN. */
  predicate Finite(bits: u32) { Exp(bits) != 0xff }

  /** `x` times two to the power of `-k`. */
  ghost function Halved(x: real, k: nat): real {
    if k == 0 then x else Halved(x, k - 1) / 2.0
  }

  ghost function Doubled(x: real, k: nat): real {
    if k == 0 then x else Doubled(x, k - 1) * 2.0
  }

  /** The magnitude a finite encoding stands for: subnormal with exponent 0, normal otherwise. */
  ghost function Magnitude(bits: u32): real
    requires Finite(bits)
  {
    var e := Exp(bits);
    if e == 0 then Halved(Frac(bits) as real, 149)
    else if e < 150 then Halved((Frac(bits) + 0x80_0000) as real, 150 - e)
    else Doubled((Frac(bits) + 0x80_0000) as real, e - 150)
  }

  ghost function Value(bits: u32): real
    requires Finite(bits)
  {
    if Negative(bits) then -Magnitude(bits) else Magnitude(bits)
  }

  /** Sign, exponent and fraction are the top bit, the next 8 and the low 23: together just the encoding. */
  lemma FieldsOfBits(bits: u32)
    ensures Frac(bits) < 0x80_0000 && Exp(bits) < 0x100
    ensures bits == (if Negative(bits) then 0x8000_0000 else 0) + Exp(bits) * 0x80_0000 + Frac(bits)
  {
  }

  lemma {:induction false} HalvedExchange(x: real, y: real, k: nat)
    ensures x * Halved(y, k) == y * Halved(x, k)
  {
    if k > 0 {
      HalvedExchange(x, y, k - 1);
    }
  }

  lemma {:induction false} DoubledExchange(x: real, y: real, k: nat)
    ensures x * Doubled(y, k) == y * Doubled(x, k)
  {
    if k > 0 {
      DoubledExchange(x, y, k - 1);
    }
  }

  /** The next exponent with the same fraction. */
  function ExponentUp(bits: u32): u32
    requires Exp(bits) < 0xff
  {
    bits + 0x80_0000
  }

  lemma FieldsUp(bits: u32)
    requires Exp(bits) < 0xff
    ensures Exp(ExponentUp(bits)) == Exp(bits) + 1 && Frac(ExponentUp(bits)) == Frac(bits)
  {
  }

  lemma OneIsOne()
    ensures Finite(0x3f80_0000) && Magnitude(0x3f80_0000) == 1.0
  {
    assert Exp(0x3f80_0000) == 0x7f && Frac(0x3f80_0000) == 0;
    Halved23(8388608.0);
  }

  lemma ExponentDoubles(bits: u32)
    requires 0 < Exp(bits) < 0xfe
    ensures Finite(ExponentUp(bits)) && Magnitude(ExponentUp(bits)) == 2.0 * Magnitude(bits)
  {
    FieldsUp(bits);
    hide Exp, Frac, ExponentUp;
    var e, x := Exp(bits), (Frac(bits) + 0x80_0000) as real;
    if e < 150 {
      assert Halved(x, 150 - e) == Halved(x, 149 - e) / 2.0;
    } else {
      assert Doubled(x, e - 149) == Doubled(x, e - 150) * 2.0;
    }
  }

  lemma FieldsWithoutFraction(bits: u32)
    ensures Frac(bits) <= bits && Exp(bits - Frac(bits)) == Exp(bits) && Frac(bits - Frac(bits)) == 0
  {
  }

  lemma FractionScales(bits: u32)
    requires Finite(bits) && Exp(bits) > 0
    ensures Finite(bits - Frac(bits))
    ensures 8388608.0 * Magnitude(bits) == (8388608 + Frac(bits)) as real * Magnitude(bits - Frac(bits))
  {
    var e, f := Exp(bits), Frac(bits);
    FieldsWithoutFraction(bits);
    hide Exp, Frac, Halved, Doubled;
    var x := (f + 0x80_0000) as real;
    if e < 150 {
      HalvedExchange(8388608.0, x, 150 - e);
    } else {
      DoubledExchange(8388608.0, x, e - 150);
    }
  }

  lemma SubnormalsEven(bits: u32)
    requires Exp(bits) == 0
    ensures Finite(0x80_0000)
    ensures 8388608.0 * Magnitude(bits) == Frac(bits) as real * Magnitude(0x80_0000)
  {
    assert Exp(0x80_0000) == 1 && Frac(0x80_0000) == 0;
    hide Exp, Frac, Halved, Doubled;
    HalvedExchange(8388608.0, Frac(bits) as real, 149);
  }

  /**
   The magnitudes are those of the standard: 1.0 has exponent 127 and no
   fraction, each exponent doubles, the fraction counts in units of 2^-23 of
   the power of two, and subnormals go on below the smallest of these evenly.
   */
  lemma MagnitudeIsIeee(bits: u32)
    requires Finite(bits)
    ensures Magnitude(0x3f80_0000) == 1.0
    ensures 0 < Exp(bits) < 0xfe ==>
              Finite(ExponentUp(bits)) && Magnitude(ExponentUp(bits)) == 2.0 * Magnitude(bits)
    ensures Exp(bits) > 0 ==>
              && Finite(bits - Frac(bits))
              && 8388608.0 * Magnitude(bits) == (8388608 + Frac(bits)) as real * Magnitude(bits - Frac(bits))
    ensures Exp(bits) == 0 ==> 8388608.0 * Magnitude(bits) == Frac(bits) as real * Magnitude(0x80_0000)
  {
    OneIsOne();
    if Exp(bits) == 0 {
      SubnormalsEven(bits);
    } else {
      FractionScales(bits);
      if Exp(bits) < 0xfe {
        ExponentDoubles(bits);
      }
    }
  }

  // ----- the conversion -----

  /** The mantissa, implicit bit included, shifted to a fixed point with 2^23 for 1.0. */
  function Normal(bits: u32): nat
    requires 0x78 <= Exp(bits) <= 0x86
  {
    var frac := Frac(bits) + 0x80_0000;
    if Exp(bits) <= 0x7f then ShiftRight(frac, 0x7f - Exp(bits)) else ShiftLeft(frac, Exp(bits) - 0x7f)
  }

  function Sign(bits: u32): int { if Negative(bits) then -1 else 1 }

  /** `convint8`; the product of the sign and -128 wraps. */
  function Convint8(bits: u32): i8 {
    if Exp(bits) == 0 && Frac(bits) == 0 then 0
    else if Exp(bits) < 0x78 then 0
    else if Exp(bits) > 0x86 then (127 * Sign(bits)) as i8
    else WrapI8(Sign(bits) * WrapI8((Normal(bits) - 0x100) / 0x1_0000) as int)
  }

  // ----- shifts against halving -----

  lemma {:induction false} ShiftRightTruncates(x: nat, k: nat)
    ensures ShiftRight(x, k) as real <= Halved(x as real, k) < ShiftRight(x, k) as real + 1.0
  {
    if k > 0 {
      ShiftRightTruncates(x, k - 1);
      LastShift(x, k - 1);
    }
  }

  /** The last of several single-bit shifts can be taken last. */
  lemma {:induction false} LastShift(x: nat, k: nat)
    ensures ShiftRight(x, k + 1) == ShiftRight(x, k) / 2
    ensures ShiftLeft(x, k + 1) == 2 * ShiftLeft(x, k)
    decreases k
  {
    if k > 0 {
      LastShift(x / 2, k - 1);
      LastShift(2 * x, k - 1);
    }
  }

  lemma {:induction false} ShiftLeftDoubles(x: nat, k: nat)
    ensures ShiftLeft(x, k) as real == Doubled(x as real, k)
    ensures ShiftRight(ShiftLeft(x, k), k) == x
  {
    if k > 0 {
      ShiftLeftDoubles(x, k - 1);
      LastShift(x, k - 1);
      assert ShiftRight(2 * ShiftLeft(x, k - 1), k) == ShiftRight(ShiftLeft(x, k - 1), k - 1);
    }
  }

  lemma {:induction false} HalvedTwice(x: real, j: nat, k: nat)
    ensures Halved(x, j + k) == Halved(Halved(x, j), k)
  {
    if k > 0 {
      HalvedTwice(x, j, k - 1);
    }
  }

  lemma {:induction false} DoubledUndoesHalved(x: real, j: nat, k: nat)
    ensures k <= j ==> Halved(Doubled(x, k), j) == Halved(x, j - k)
    ensures j <= k ==> Halved(Doubled(x, k), j) == Doubled(x, k - j)
    decreases j
  {
    if j > 0 && k > 0 {
      HalvedTwice(Doubled(x, k), 1, j - 1);
      assert Halved(Doubled(x, k), 1) == Doubled(x, k - 1);
      DoubledUndoesHalved(x, j - 1, k - 1);
    }
  }

  lemma {:induction false} HalvedShrinks(x: real, j: nat, k: nat)
    requires x >= 0.0 && j <= k
    ensures 0.0 <= Halved(x, k) <= Halved(x, j)
    decreases k
  {
    if j < k {
      HalvedShrinks(x, j, k - 1);
    } else if k > 0 {
      HalvedShrinks(x, 0, k - 1);
    }
  }

  lemma Halved8(x: real)
    ensures Halved(x, 7) == x / 128.0 && Halved(x, 8) == x / 256.0
  {
    assert Halved(x, 1) == x / 2.0;
    assert Halved(x, 3) == x / 8.0;
    assert Halved(x, 5) == x / 32.0;
    assert Halved(x, 7) == x / 128.0;
  }

  lemma Halved23(x: real)
    ensures Halved(x, 23) == x / 8388608.0
  {
    HalvedTwice(x, 8, 15);
    HalvedTwice(Halved(x, 8), 8, 7);
    Halved8(x);
    Halved8(Halved(x, 8));
    Halved8(Halved(Halved(x, 8), 8));
  }

  lemma {:induction false} DoubledGrows(x: real, k: nat)
    requires x >= 0.0
    ensures Doubled(x, k) >= x
  {
    if k > 0 {
      DoubledGrows(x, k - 1);
    }
  }

  // ----- what the conversion computes -----

  /** The fixed-point mantissa is 2^23 times the magnitude, rounded down. */
  lemma NormalIsFixedPoint(bits: u32)
    requires 0x78 <= Exp(bits) <= 0x86
    ensures Normal(bits) as real <= 8388608.0 * Magnitude(bits) < Normal(bits) as real + 1.0
  {
    var e := Exp(bits);
    var frac := Frac(bits) + 0x80_0000;
    if e <= 0x7f {
      HalvedTwice(frac as real, 0x7f - e, 23);
      Halved23(Halved(frac as real, 0x7f - e));
      ShiftRightTruncates(frac, 0x7f - e);
    } else {
      DoubledUndoesHalved(frac as real, 23, e - 0x7f);
      Halved23(Doubled(frac as real, e - 0x7f));
      ShiftLeftDoubles(frac, e - 0x7f);
    }
  }

  /** The mantissa never falls below the 0x100 subtracted from it, and shifting left loses no bit of 32. */
  lemma NoUnderflowNoLostBits(bits: u32)
    requires 0x78 <= Exp(bits) <= 0x86
    ensures 0x1_0000 <= Normal(bits) < 0x8000_0000
    ensures Exp(bits) >= 0x7f ==> ShiftRight(Normal(bits), Exp(bits) - 0x7f) == Frac(bits) + 0x80_0000
  {
    var e := Exp(bits);
    var frac := Frac(bits) + 0x80_0000;
    if e >= 0x7f {
      ShiftLeftDoubles(frac, e - 0x7f);
      ShiftLeftBound(frac, e - 0x7f, 0x100_0000);
      ShiftLeftGrows(0x100_0000, e - 0x7f, 7);
      ShiftedBySeven();
      hide ShiftLeft, ShiftRight, Exp, Frac;
    } else {
      ShiftRightBound(frac, 0x7f - e, 7);
    }
  }

  lemma ShiftedBySeven()
    ensures ShiftLeft(0x100_0000, 7) == 0x8000_0000
  {
  }

  lemma {:induction false} ShiftLeftBound(x: nat, k: nat, bound: nat)
    requires x < bound
    ensures x <= ShiftLeft(x, k) < ShiftLeft(bound, k)
    decreases k
  {
    if k > 0 {
      ShiftLeftBound(2 * x, k - 1, 2 * bound);
    }
  }

  lemma {:induction false} ShiftLeftGrows(x: nat, j: nat, k: nat)
    requires j <= k
    ensures ShiftLeft(x, j) <= ShiftLeft(x, k)
    decreases k
  {
    if j < k {
      LastShift(x, k - 1);
      ShiftLeftGrows(x, j, k - 1);
    }
  }

  /** A normal mantissa shifted right by at most seven bits keeps its top bit at 2^16 or above. */
  lemma ShiftRightBound(x: nat, k: nat, limit: nat)
    requires 0x80_0000 <= x < 0x100_0000 && k <= limit == 7
    ensures 0x1_0000 <= ShiftRight(x, k) < 0x8000_0000
  {
    ShiftRightTruncates(x, k);
    HalvedShrinks(x as real, k, 7);
    HalvedShrinks(x as real, 0, k);
    Halved8(x as real);
  }

  /** The sample level of a magnitude scaled by 128: rounded down after taking off 2^-8. */
  ghost function Level(y: real): int {
    if y < 0.00390625 then 0 else (y - 0.00390625).Floor
  }

  lemma ScaledLevel(bits: u32)
    requires 0x78 <= Exp(bits) <= 0x86
    ensures (Normal(bits) - 0x100) / 0x1_0000 == Level(128.0 * Magnitude(bits))
  {
    NormalIsFixedPoint(bits);
    NoUnderflowNoLostBits(bits);
    var m := (Normal(bits) - 0x100) / 0x1_0000;
    var y := 128.0 * Magnitude(bits);
    assert m * 0x1_0000 <= Normal(bits) - 0x100 < (m + 1) * 0x1_0000;
    assert m as real <= y - 0.00390625 < m as real + 1.0;
  }

  /** Below the smallest exponent converted, the level is zero anyway. */
  lemma TinyIsLevelZero(bits: u32)
    requires Exp(bits) < 0x78
    ensures 0.0 <= 128.0 * Magnitude(bits) < 1.0
    ensures Level(128.0 * Magnitude(bits)) == 0
  {
    var e := Exp(bits);
    var x := (if e == 0 then Frac(bits) else Frac(bits) + 0x80_0000) as real;
    HalvedShrinks(x, 31, if e == 0 then 149 else 150 - e);
    HalvedTwice(x, 23, 8);
    Halved23(x);
    Halved8(Halved(x, 23));
  }

  /** The largest exponents start at 256. */
  lemma LargeIsLarge(bits: u32)
    requires Finite(bits) && Exp(bits) > 0x86
    ensures Magnitude(bits) >= 256.0
  {
    var e := Exp(bits);
    var x := (Frac(bits) + 0x80_0000) as real;
    if e < 150 {
      HalvedShrinks(x, 150 - e, 15);
      HalvedTwice(x, 15, 8);
      Halved23(x);
      Halved8(Halved(x, 15));
    } else {
      DoubledGrows(x, e - 150);
    }
  }

  /** Below 256 the conversion is sign times level, each cut to eight bits. */
  lemma ConvertsLevel(bits: u32)
    requires Finite(bits) && Magnitude(bits) < 256.0
    ensures Magnitude(bits) >= 0.0
    ensures Convint8(bits) == WrapI8(Sign(bits) * WrapI8(Level(128.0 * Magnitude(bits))) as int)
  {
    if Exp(bits) < 0x78 {
      TinyIsLevelZero(bits);
    } else if Exp(bits) > 0x86 {
      LargeIsLarge(bits);
    } else {
      ScaledLevel(bits);
      NormalIsFixedPoint(bits);
    }
  }

  /** For every number below 256 the sample is sign times level modulo 256; from there on it is full scale. */
  lemma ConvertsModulo(bits: u32)
    requires Finite(bits)
    ensures Magnitude(bits) < 256.0 ==> (Convint8(bits) as int - Sign(bits) * Level(128.0 * Magnitude(bits))) % 256 == 0
    ensures Magnitude(bits) >= 256.0 ==> Convint8(bits) as int == Sign(bits) * 127
  {
    hide Convint8, Magnitude, Exp, Frac, Level;
    if Magnitude(bits) < 256.0 {
      ConvertsLevel(bits);
    } else {
      ClipsExactlyWhen(bits);
    }
  }

  /** On [-1, 1] the sample is sign times m, where m is 128|x| rounded down, within 2^-8. */
  lemma ConversionError(bits: u32) returns (m: int)
    requires Finite(bits) && Magnitude(bits) <= 1.0
    ensures 0 <= m <= 127
    ensures Convint8(bits) as int == Sign(bits) * m
    ensures m as real <= 128.0 * Magnitude(bits) < m as real + 1.0 + 0.00390625
    ensures m == Level(128.0 * Magnitude(bits))
  {
    hide Convint8, Magnitude, Exp, Frac;
    ConvertsLevel(bits);
    m := Level(128.0 * Magnitude(bits));
  }

  /** Order on [-1, 1] survives the conversion, across every exponent boundary and through zero. */
  lemma ConversionMonotone(a: u32, b: u32)
    requires Finite(a) && Magnitude(a) <= 1.0 && Finite(b) && Magnitude(b) <= 1.0
    requires Value(a) <= Value(b)
    ensures Convint8(a) <= Convint8(b)
  {
    var m := ConversionError(a);
    var n := ConversionError(b);
    if Negative(a) == Negative(b) {
      if Negative(a) {
        LevelMonotone(128.0 * Magnitude(b), 128.0 * Magnitude(a));
      } else {
        LevelMonotone(128.0 * Magnitude(a), 128.0 * Magnitude(b));
      }
    } else if Negative(b) {
      // two zeros
      MagnitudeNonNegative(a);
      MagnitudeNonNegative(b);
    }
  }

  lemma LevelMonotone(x: real, y: real)
    requires x <= y
    ensures Level(x) <= Level(y)
  {
  }

  lemma MagnitudeNonNegative(bits: u32)
    requires Finite(bits)
    ensures Magnitude(bits) >= 0.0
  {
    if Magnitude(bits) < 256.0 {
      ConvertsLevel(bits);
    }
  }

  function Negated(bits: u32): u32 {
    if Negative(bits) then bits - 0x8000_0000 else bits + 0x8000_0000
  }

  /** Flipping the sign bit leaves the other fields alone. */
  lemma NegatedFields(bits: u32)
    ensures Exp(Negated(bits)) == Exp(bits) && Frac(Negated(bits)) == Frac(bits)
    ensures Negative(Negated(bits)) != Negative(bits)
  {
    var n := Negated(bits);
    assert n / 0x80_0000 == bits / 0x80_0000 + (if Negative(bits) then -0x100 else 0x100);
  }

  /** Flipping the sign bit negates the sample, except that -128 has no opposite. */
  lemma ConversionOdd(bits: u32)
    ensures Convint8(Negated(bits)) == if Convint8(bits) == -128 then -128 else -Convint8(bits)
  {
    hide Exp, Frac, Negative, Negated, ShiftLeft, ShiftRight;
    NegatedFields(bits);
    if 0x78 <= Exp(bits) <= 0x86 {
      hide WrapI8;
      var w := WrapI8((Normal(bits) - 0x100) / 0x1_0000) as int;
      WrapNegated(Sign(bits) * w);
    }
  }

  lemma WrapNegated(x: int)
    ensures WrapI8(-x) == if WrapI8(x) == -128 then -128 else -WrapI8(x)
  {
  }

  /**
   From 1.0 up the intent is to clip to 127. That holds from 256 on (and for
   infinities and NaNs, which clip too), and below
   exactly when the level happens to be 127 modulo 256: the cast truncates.
   */
  lemma ClipsExactlyWhen(bits: u32)
    requires Finite(bits) ==> Magnitude(bits) >= 1.0
    ensures Convint8(bits) as int == Sign(bits) * 127 <==>
              !Finite(bits) || Magnitude(bits) >= 256.0 || Level(128.0 * Magnitude(bits)) % 256 == 127
  {
    if !Finite(bits) {
    } else if Exp(bits) > 0x86 {
      LargeIsLarge(bits);
    } else if Exp(bits) < 0x78 {
      TinyIsLevelZero(bits);
    } else {
      NormalIsFixedPoint(bits);
      NoUnderflowNoLostBits(bits);
      ScaledLevel(bits);
      CutTo127(Level(128.0 * Magnitude(bits)), Sign(bits));
    }
  }

  lemma CutTo127(q: int, sign: int)
    requires sign == 1 || sign == -1
    ensures WrapI8(sign * WrapI8(q) as int) as int == sign * 127 <==> q % 256 == 127
  {
    var w := WrapI8(q) as int;
    assert w == if q % 256 < 128 then q % 256 else q % 256 - 256;
  }

  /** Just above 1.0 it already goes wrong: at 1 + 2^-15 full scale comes out as -128. */
  lemma JustAboveOneWraps()
    ensures Convint8(0x3f80_00ff) == 127
    ensures Convint8(0x3f80_0100) == -128
  {
    assert Exp(0x3f80_00ff) == 0x7f && Frac(0x3f80_00ff) == 0xff && !Negative(0x3f80_00ff);
    assert Exp(0x3f80_0100) == 0x7f && Frac(0x3f80_0100) == 0x100 && !Negative(0x3f80_0100);
    assert Normal(0x3f80_00ff) == 0x80_00ff;
    assert Normal(0x3f80_0100) == 0x80_0100;
  }

  /** Whether the last product, of the sign and the level cut to eight bits, leaves the range of `i8`. */
  predicate ProductOverflows(bits: u32) {
    0x78 <= Exp(bits) <= 0x86 && Sign(bits) * WrapI8((Normal(bits) - 0x100) / 0x1_0000) as int == 128
  }

  /** It does exactly for negative numbers whose level is 128 modulo 256, none of them within [-1, 1]. */
  lemma ProductOverflowsExactlyWhen(bits: u32)
    ensures ProductOverflows(bits) <==>
            && Finite(bits) && Negative(bits) && Magnitude(bits) < 256.0
            && Level(128.0 * Magnitude(bits)) % 256 == 128
    ensures ProductOverflows(bits) ==> Magnitude(bits) > 1.0
  {
    hide Magnitude, Exp, Frac;
    if !Finite(bits) {
    } else if Exp(bits) > 0x86 {
      LargeIsLarge(bits);
    } else if Exp(bits) < 0x78 {
      TinyIsLevelZero(bits);
    } else {
      NormalIsFixedPoint(bits);
      NoUnderflowNoLostBits(bits);
      ScaledLevel(bits);
      CutTo128(Level(128.0 * Magnitude(bits)), Sign(bits));
    }
  }

  lemma CutTo128(q: int, sign: int)
    requires sign == 1 || sign == -1
    ensures sign * WrapI8(q) as int == 128 <==> sign == -1 && q % 256 == 128
  {
    var w := WrapI8(q) as int;
    assert w == if q % 256 < 128 then q % 256 else q % 256 - 256;
  }

  // ----- 16-bit DMA words -----

  /** Left and right sample. */
  datatype Frame = Frame(l: i8, r: i8)

  datatype DmaFrame = DmaFrame(l: u16, r: u16)

  /** `0x80u8.wrapping_add_signed(x)` */
  function Biased(x: i8): u8 { (0x80 + x as int) % 0x100 }

  function ToDma(frame: Frame): DmaFrame {
    DmaFrame(Biased(frame.l) * 0x100, Biased(frame.r) * 0x100)
  }

  const SILENT_FRAME := Frame(0, 0)
  const SILENT_DMA := DmaFrame(0x8000, 0x8000)

  /** A word is 0x8000 plus 0x100 times its own side's sample. */
  lemma DmaWords(frame: Frame)
    ensures ToDma(frame).l as int == 0x8000 + 0x100 * frame.l as int
    ensures ToDma(frame).r as int == 0x8000 + 0x100 * frame.r as int
  {
  }

  /** No two frames share their DMA words, and the words order as the samples do. */
  lemma DmaFaithful(a: Frame, b: Frame)
    ensures ToDma(a) == ToDma(b) ==> a == b
    ensures ToDma(a).l <= ToDma(b).l <==> a.l <= b.l
    ensures ToDma(a).r <= ToDma(b).r <==> a.r <= b.r
    ensures ToDma(a) == SILENT_DMA <==> a == SILENT_FRAME
  {
  }

  /** The whole path of a frame: from float bits on [-1, 1] to its DMA words. */
  lemma SamplePath(a: u32, b: u32)
    requires Finite(a) && Magnitude(a) <= 1.0 && Finite(b) && Magnitude(b) <= 1.0
    ensures var words := ToDma(Frame(Convint8(a), Convint8(b)));
            && 0x0100 <= words.l <= 0xff00 && 0x0100 <= words.r <= 0xff00
            && (Value(a) <= Value(b) ==> words.l <= words.r)
            && (Value(b) <= Value(a) ==> words.r <= words.l)
            && (Value(a) == 0.0 ==> words.l == 0x8000)
            && (Value(b) == 0.0 ==> words.r == 0x8000)
  {
    hide Convint8, Magnitude, Exp, Frac, Level;
    var m := ConversionError(a);
    var n := ConversionError(b);
    DmaWords(Frame(Convint8(a), Convint8(b)));
    if Value(a) <= Value(b) {
      ConversionMonotone(a, b);
    }
    if Value(b) <= Value(a) {
      ConversionMonotone(b, a);
    }
    hide ToDma;
    assert Value(a) == 0.0 ==> m == 0;
    assert Value(b) == 0.0 ==> n == 0;
  }
}
