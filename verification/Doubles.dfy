/** Conversions between 128-bit integers and IEEE 754 doubles (libraries/builtins/floatuntidf.c, floattidf.c,
    fixunsdfti.c, fp64.h). A double is the 64-bit number that stores it; its value is measured in units of the
    smallest positive double, 2^-1074, of which every finite double is a multiple. The sizes of the format are a
    parameter, so that no argument depends on them. */
module Doubles {
  import opened Rounding

  /** Bits of the stored significand and exponent, the exponent's bias, and the bits of the low storage word. */
  datatype Format = Format(fraction: nat, exponent: nat, bias: nat, word: nat) {
    ghost predicate Ok() {
      fraction > 0 && exponent > 0 && word <= fraction && Pow2(exponent) == 2 * bias + 2 && bias > 0
    }

    function SignPos(): nat { fraction + exponent }
    function Digits(): nat { fraction + 1 }

    /** The smallest positive value is 2^-Finest(). */
    function Finest(): nat
      requires bias > 0
    {
      bias - 1 + fraction
    }
  }

  const DOUBLE := Format(52, 11, 1023, 32)
  const WIDTH: nat := 128

  lemma DoubleOk()
    ensures DOUBLE.Ok() && DOUBLE.Finest() == 1074 && WIDTH <= DOUBLE.bias
  {
    assert Pow2(11) == 2048;
  }

  // ---------- the format ----------

  predicate Negative(f: Format, bits: nat) { ShiftRight(bits, f.SignPos()) % 2 == 1 }

  function Exponent(f: Format, bits: nat): nat { ShiftRight(LowBits(bits, f.SignPos()), f.fraction) }

  function Stored(f: Format, bits: nat): nat { LowBits(LowBits(bits, f.SignPos()), f.fraction) }

  /** The integer significand, with its implicit bit, and the power of two it is scaled by. */
  function Significand(f: Format, bits: nat): nat {
    if Exponent(f, bits) == 0 then Stored(f, bits) else Pow2(f.fraction) + Stored(f, bits)
  }

  function Scale(f: Format, bits: nat): nat { if Exponent(f, bits) == 0 then 0 else Exponent(f, bits) - 1 }

  function Magnitude(f: Format, bits: nat): nat { Significand(f, bits) * Pow2(Scale(f, bits)) }

  function Signed(neg: bool, n: nat): int { if neg then 0 - n else n }

  /** The value of a finite double, in units of the smallest positive one. */
  function Value(f: Format, bits: nat): int { Signed(Negative(f, bits), Magnitude(f, bits)) }

  predicate Finite(f: Format, bits: nat) { Exponent(f, bits) < 2 * f.bias + 1 }

  /** All doubles but those whose exponent has every bit set. */
  lemma FiniteExactly(f: Format, bits: nat)
    requires f.Ok()
    ensures Finite(f, bits) <==> Exponent(f, bits) < Pow2(f.exponent) - 1
  {
  }

  function Encode(f: Format, neg: bool, b: nat, stored: nat): nat {
    (if neg then Pow2(f.SignPos()) else 0) + (b * Pow2(f.fraction) + stored)
  }

  lemma FieldsFit(b: nat, stored: nat, f: nat, x: nat)
    requires stored < Pow2(f) && b < Pow2(x)
    ensures b * Pow2(f) + stored < Pow2(f + x)
  {
    MulOrder(b + 1, Pow2(x), Pow2(f));
    Pow2Add(f, x);
  }

  lemma Fields(f: Format, neg: bool, b: nat, stored: nat, bits: nat)
    requires stored < Pow2(f.fraction) && b < Pow2(f.exponent) && bits == Encode(f, neg, b, stored)
    ensures Negative(f, bits) == neg && Exponent(f, bits) == b && Stored(f, bits) == stored
  {
    FieldsFit(b, stored, f.fraction, f.exponent);
    var low := b * Pow2(f.fraction) + stored;
    ShiftUnique(bits, f.SignPos(), if neg then 1 else 0, low);
    ShiftUnique(low, f.fraction, b, stored);
  }

  // ---------- integer to double ----------

  /** The double that stores a rounded magnitude under a sign. */
  function Packed(f: Format, neg: bool, m: nat, e: nat): nat { Encode(f, neg, e + f.bias, LowBits(m, f.fraction)) }

  lemma TopBit(m: nat, n: nat)
    requires Pow2(n) <= m < Pow2(n + 1)
    ensures Pow2(n) + LowBits(m, n) == m
  {
    ShiftUnique(m, n, 1, m - Pow2(n));
  }

  lemma PackedValue(f: Format, neg: bool, m: nat, e: nat, bits: nat)
    requires f.Ok() && Pow2(f.fraction) <= m < Pow2(f.Digits()) && e <= f.bias && bits == Packed(f, neg, m, e)
    ensures Negative(f, bits) == neg && Exponent(f, bits) == e + f.bias && Significand(f, bits) == m
    ensures Finite(f, bits) && Value(f, bits) == Signed(neg, m * Pow2(e + f.bias - 1))
  {
    TopBit(m, f.fraction);
    Fields(f, neg, e + f.bias, LowBits(m, f.fraction), bits);
  }

  lemma EvenBelow(n: nat, k: nat)
    requires k > 0
    ensures LowBits(n, k) % 2 == n % 2 && Pow2(k) % 2 == 0
  {
    PowEven(k);
    assert LowBits(n, k) == n % 2 + 2 * LowBits(n / 2, k - 1);
    EvenSum(n % 2, LowBits(n / 2, k - 1));
  }

  lemma EvenSum(b: nat, h: nat)
    requires b < 2
    ensures (b + 2 * h) % 2 == b
  {
  }

  lemma EvenMultiple(b: nat, p: nat)
    requires p % 2 == 0
    ensures b * p % 2 == 0
  {
    var h := p / 2;
    TwiceProduct(b, h, p);
    TwiceIsEven(b * h, b * p);
  }

  lemma ParityOfSum(s: nat, x: nat, l: nat)
    requires s % 2 == 0 && x % 2 == 0
    ensures (s + (x + l)) % 2 == l % 2
  {
  }

  lemma PackedParity(f: Format, neg: bool, m: nat, e: nat)
    requires f.Ok()
    ensures Packed(f, neg, m, e) % 2 == m % 2
  {
    EvenBelow(m, f.fraction);
    PowEven(f.SignPos());
    EvenMultiple(e + f.bias, Pow2(f.fraction));
    ParityOfSum(if neg then Pow2(f.SignPos()) else 0, (e + f.bias) * Pow2(f.fraction), LowBits(m, f.fraction));
  }

  /** Fields placed in the high word, followed by the low word, are the fields placed in the joined word. */
  lemma WordsJoin(m: nat, sign: nat, b: nat, w: nat, h: nat)
    ensures (sign + b * Pow2(h) + LowBits(ShiftRight(m, w), h)) * Pow2(w) + LowBits(m, w)
         == sign * Pow2(w) + b * Pow2(w + h) + LowBits(m, w + h)
  {
    ShiftAdd(m, w, h);
    Pow2Add(h, w);
    Spread(sign, b, Pow2(h), LowBits(ShiftRight(m, w), h), Pow2(w), LowBits(m, w), Pow2(w + h));
  }

  lemma Spread(sign: nat, b: nat, q: nat, t: nat, p: nat, low: nat, both: nat)
    requires both == q * p
    ensures (sign + b * q + t) * p + low == sign * p + b * both + (t * p + low)
  {
    Distribute(sign + b * q, t, p);
    Distribute(sign, b * q, p);
    MulAssoc(b, q, p);
  }

  lemma SignPlace(f: Format, neg: bool)
    requires f.Ok()
    ensures (if neg then Pow2(f.SignPos() - f.word) else 0) * Pow2(f.word) == if neg then Pow2(f.SignPos()) else 0
  {
    Pow2Add(f.SignPos() - f.word, f.word);
  }

  lemma PackedWords(f: Format, neg: bool, m: nat, e: nat, h: nat, sign: nat, high: nat, low: nat)
    requires f.Ok() && h == f.fraction - f.word && sign == if neg then Pow2(f.SignPos() - f.word) else 0
    requires high == sign + (e + f.bias) * Pow2(h) + LowBits(ShiftRight(m, f.word), h) && low == LowBits(m, f.word)
    ensures high * Pow2(f.word) + low == Packed(f, neg, m, e)
  {
    WordsJoin(m, sign, e + f.bias, f.word, h);
    SignPlace(f, neg);
  }

  /** The bit pattern assembled from the sign, the exponent and the significand, word by word. */
  method Pack(f: Format, neg: bool, m: nat, e: nat) returns (bits: nat)
    requires f.Ok()
    ensures bits == Packed(f, neg, m, e)
  {
    var h := f.fraction - f.word;
    var sign := if neg then Pow2(f.SignPos() - f.word) else 0;
    var high := sign + (e + f.bias) * Pow2(h) + LowBits(ShiftRight(m, f.word), h);
    var low := LowBits(m, f.word);
    PackedWords(f, neg, m, e, h, sign, high, low);
    bits := high * Pow2(f.word) + low;
  }

  /** `bits` is a finite double nearest to the integer `x`, and an even one where another is as near. */
  ghost predicate IsNearest(f: Format, x: int, bits: nat)
    requires f.Ok()
  {
    Finite(f, bits) &&
    forall d | Finite(f, d) :: Nearer(x * Pow2(f.Finest()), Value(f, bits), Value(f, d), bits % 2 == 0)
  }

  lemma SignificandBound(f: Format, d: nat)
    ensures Significand(f, d) < Pow2(f.Digits())
  {
    ShiftParts(LowBits(d, f.SignPos()), f.fraction);
  }

  lemma NearerSigned(neg: bool, x: nat, v: nat, w: int, even: bool)
    requires Nearer(x, v, if neg then 0 - w else w, even)
    ensures Nearer(Signed(neg, x), Signed(neg, v), w, even)
  {
  }

  /** Seen from either side of zero, a double is its magnitude or not positive. */
  lemma EitherSide(f: Format, d: nat, neg: bool)
    ensures
      var w := if neg then 0 - Value(f, d) else Value(f, d);
      w == Significand(f, d) * Pow2(Scale(f, d)) || w <= 0
  {
  }

  lemma MagnitudeIsNearest(f: Format, neg: bool, a: nat, m: nat, e: nat, d: nat, x: nat, v: nat)
    requires f.Ok() && a > 0 && (m, e) == Rounded(a, f.Digits())
    requires x == a * Pow2(f.Finest()) && v == m * Pow2(e + f.bias - 1)
    ensures Nearer(x, v, if neg then 0 - Value(f, d) else Value(f, d), m % 2 == 0)
  {
    var n, j, w := Significand(f, d), Scale(f, d), if neg then 0 - Value(f, d) else Value(f, d);
    EitherSide(f, d, neg);
    SignificandBound(f, d);
    RoundedIsNearest(a, f.Digits(), f.Finest(), n, j, w, x, v);
  }

  lemma ResultFacts(f: Format, neg: bool, a: nat, m: nat, e: nat, bits: nat, v: nat)
    requires f.Ok() && a > 0 && BitLength(a) <= f.bias && v == m * Pow2(e + f.bias - 1)
    requires (m, e) == Rounded(a, f.Digits()) && bits == Packed(f, neg, m, e)
    ensures Finite(f, bits) && bits % 2 == m % 2 && Value(f, bits) == Signed(neg, v)
  {
    RoundedRange(a, f.Digits());
    PackedValue(f, neg, m, e, bits);
    PackedParity(f, neg, m, e);
  }

  lemma SignedProduct(neg: bool, a: nat, s: nat)
    ensures Signed(neg, a) * s == Signed(neg, a * s)
  {
    Distribute(0 - a, a, s);
  }

  lemma ResultIsNearer(f: Format, neg: bool, a: nat, m: nat, e: nat, d: nat, v: nat, t: int)
    requires f.Ok() && a > 0 && (m, e) == Rounded(a, f.Digits())
    requires v == m * Pow2(e + f.bias - 1) && t == Signed(neg, a) * Pow2(f.Finest())
    ensures Nearer(t, Signed(neg, v), Value(f, d), m % 2 == 0)
  {
    var x := a * Pow2(f.Finest());
    SignedProduct(neg, a, Pow2(f.Finest()));
    MagnitudeIsNearest(f, neg, a, m, e, d, x, v);
    NearerSigned(neg, x, v, Value(f, d), m % 2 == 0);
  }

  lemma NearestOfAll(f: Format, neg: bool, a: nat, m: nat, e: nat, bits: nat, v: nat)
    requires f.Ok() && a > 0 && (m, e) == Rounded(a, f.Digits()) && v == m * Pow2(e + f.bias - 1)
    requires Finite(f, bits) && bits % 2 == m % 2 && Value(f, bits) == Signed(neg, v)
    ensures IsNearest(f, Signed(neg, a), bits)
  {
    var t := Signed(neg, a) * Pow2(f.Finest());
    forall d | Finite(f, d) ensures Nearer(t, Value(f, bits), Value(f, d), bits % 2 == 0) {
      ResultIsNearer(f, neg, a, m, e, d, v, t);
    }
  }

  lemma ResultIsNearest(f: Format, neg: bool, a: nat, m: nat, e: nat, bits: nat, v: nat)
    requires f.Ok() && a > 0 && BitLength(a) <= f.bias && v == m * Pow2(e + f.bias - 1)
    requires (m, e) == Rounded(a, f.Digits()) && bits == Packed(f, neg, m, e)
    ensures IsNearest(f, Signed(neg, a), bits)
  {
    ResultFacts(f, neg, a, m, e, bits, v);
    NearestOfAll(f, neg, a, m, e, bits, v);
  }

  lemma ZeroIsNearest(f: Format)
    requires f.Ok()
    ensures IsNearest(f, 0, 0)
  {
    ShiftUnique(0, f.SignPos(), 0, 0);
    ShiftUnique(0, f.fraction, 0, 0);
    assert Value(f, 0) == 0;
    assert 0 * Pow2(f.Finest()) == 0;
  }

  /** The double stored for a magnitude and a sign: what both conversions return. */
  function Nearest(f: Format, neg: bool, a: nat): nat {
    if a == 0 then 0 else Packed(f, neg, Rounded(a, f.Digits()).0, Rounded(a, f.Digits()).1)
  }

  method Convert(f: Format, neg: bool, a: nat, sd: nat) returns (bits: nat)
    requires f.Ok() && a > 0 && sd == BitLength(a) <= f.bias
    ensures bits == Nearest(f, neg, a) && IsNearest(f, Signed(neg, a), bits)
  {
    var m, e := Normalize(a, sd, f.Digits());
    bits := Pack(f, neg, m, e);
    ResultIsNearest(f, neg, a, m, e, bits, m * Pow2(e + f.bias - 1));
  }

  lemma MagnitudeFits(a: int, w: nat)
    requires w > 0 && 0 - Pow2(w - 1) <= a < Pow2(w - 1)
    ensures Abs(a) < Pow2(w)
  {
  }

  /** A magnitude and its sign; the number of significant bits comes from the count of leading zeros. */
  method ConvertWide(f: Format, neg: bool, a: nat, x: int) returns (bits: nat)
    requires f.Ok() && WIDTH <= f.bias && 0 < a < Pow2(WIDTH) && x == Signed(neg, a)
    ensures bits == Nearest(f, neg, a) && IsNearest(f, x, bits)
  {
    ClzIsLeadingZeros(a);
    BitLengthAtMost(a, WIDTH);
    bits := Convert(f, neg, a, WIDTH - Clz128(a));
  }

  /** ___floatuntidf, into the format `f`: the code's is `DOUBLE`. */
  method FloatUnTiDf(f: Format, a: nat) returns (bits: nat)
    requires f.Ok() && WIDTH <= f.bias && a < Pow2(WIDTH)
    ensures IsNearest(f, a, bits) && bits == Nearest(f, false, a)
  {
    if a == 0 {
      ZeroIsNearest(f);
      return 0;
    }
    bits := ConvertWide(f, false, a, a);
  }

  /** ___floattidf: the sign is split off, then the magnitude is rounded as above. */
  method FloatTiDf(f: Format, a: int) returns (bits: nat)
    requires f.Ok() && WIDTH <= f.bias && 0 - Pow2(WIDTH - 1) <= a < Pow2(WIDTH - 1)
    ensures IsNearest(f, a, bits) && bits == Nearest(f, a < 0, Abs(a))
  {
    if a == 0 {
      ZeroIsNearest(f);
      return 0;
    }
    MagnitudeFits(a, WIDTH);
    bits := ConvertWide(f, a < 0, Abs(a), a);
  }

  // ---------- double to integer ----------

  /** ___fixunsdfti */
  function FixUns(f: Format, bits: nat, width: nat): nat {
    var exponent := Exponent(f, bits) - f.bias;
    var significand := Stored(f, bits) + Pow2(f.fraction);
    if Negative(f, bits) || exponent < 0 then 0
    else if exponent >= width then Pow2(width) - 1
    else if exponent < f.fraction then ShiftRight(significand, f.fraction - exponent)
    else significand * Pow2(exponent - f.fraction)
  }

  /** `r` is `v / one` cut towards zero, held within [0, 2^width). */
  predicate Truncates(v: int, one: nat, width: nat, r: nat) {
    if v < one then r == 0
    else if v >= Pow2(width) * one then r == Pow2(width) - 1
    else r * one <= v < r * one + one
  }

  /** The size of a double follows from its exponent. */
  lemma MagnitudeBounds(m: nat, x: nat, f: nat, b: nat)
    requires Pow2(f) <= m < Pow2(f + 1) && b > 0
    ensures Pow2(x) * Pow2(b - 1 + f) <= m * Pow2(x + b - 1) < Pow2(x + 1) * Pow2(b - 1 + f)
  {
    MulOrder(Pow2(f), m, Pow2(x + b - 1));
    MulStrict(m, Pow2(f + 1), Pow2(x + b - 1));
    Pow2Add(f, x + b - 1);
    Pow2Add(f + 1, x + b - 1);
    Pow2Add(x, b - 1 + f);
    Pow2Add(x + 1, b - 1 + f);
  }

  lemma SmallMagnitude(f: Format, bits: nat)
    requires f.Ok() && Exponent(f, bits) < f.bias
    ensures Magnitude(f, bits) < Pow2(f.Finest())
  {
    SignificandBound(f, bits);
    var j := Scale(f, bits);
    if Exponent(f, bits) == 0 {
      ShiftParts(LowBits(bits, f.SignPos()), f.fraction);
      Pow2Monotone(f.fraction, f.Finest());
    } else {
      MulStrict(Significand(f, bits), Pow2(f.Digits()), Pow2(j));
      Pow2Add(f.Digits(), j);
      Pow2Monotone(f.Digits() + j, f.Finest());
    }
  }

  /** Cutting the fraction off an in-range significand. */
  lemma CutFraction(m: nat, x: nat, f: nat, b: nat, r: nat)
    requires b > 0 && r == if x < f then ShiftRight(m, f - x) else m * Pow2(x - f)
    ensures r * Pow2(b - 1 + f) <= m * Pow2(x + b - 1) < r * Pow2(b - 1 + f) + Pow2(b - 1 + f)
  {
    if x < f {
      Scaled(m, f - x, x + b - 1);
    } else {
      Pow2Add(x - f, b - 1 + f);
      MulAssoc(m, Pow2(x - f), Pow2(b - 1 + f));
    }
  }

  lemma ThresholdCrossed(x: nat, width: nat, one: nat)
    ensures x >= width ==> Pow2(x) * one >= Pow2(width) * one
    ensures x < width ==> Pow2(x + 1) * one <= Pow2(width) * one
  {
    if x >= width {
      Pow2Monotone(width, x);
      MulOrder(Pow2(width), Pow2(x), one);
    } else {
      Pow2Monotone(x + 1, width);
      MulOrder(Pow2(x + 1), Pow2(width), one);
    }
  }

  lemma LargeTruncates(f: Format, bits: nat, width: nat, one: nat, x: nat, m: nat)
    requires f.Ok() && one == Pow2(f.Finest()) && !Negative(f, bits) && Exponent(f, bits) == x + f.bias
    requires m == Significand(f, bits)
    ensures Truncates(m * Pow2(x + f.bias - 1), one, width, FixUns(f, bits, width))
  {
    SignificandBound(f, bits);
    MagnitudeBounds(m, x, f.fraction, f.bias);
    ThresholdCrossed(x, width, one);
    MulOrder(1, Pow2(x), one);
    if x < width { CutFraction(m, x, f.fraction, f.bias, FixUns(f, bits, width)); }
  }

  /** The conversion cuts the double's value towards zero; what is negative gives zero and what is too large,
      infinities and NaN patterns of positive sign included, the greatest integer. */
  lemma FixUnsTruncates(f: Format, bits: nat, width: nat)
    requires f.Ok()
    ensures Truncates(Value(f, bits), Pow2(f.Finest()), width, FixUns(f, bits, width))
  {
    if Exponent(f, bits) < f.bias {
      SmallMagnitude(f, bits);
    } else if !Negative(f, bits) {
      LargeTruncates(f, bits, width, Pow2(f.Finest()), Exponent(f, bits) - f.bias, Significand(f, bits));
    }
  }

  // ---------- there and back ----------

  lemma KeptError(a: nat, sh: nat)
    requires sh > 0
    ensures Abs(Kept(a, sh) * Pow2(sh) - a) <= Pow2(sh - 1)
  {
    ShiftParts(a, sh);
    Distribute(ShiftRight(a, sh), if RoundsUp(a, sh) then 1 else 0, Pow2(sh));
  }

  /** A long value comes back as its kept digits, followed by zeros. */
  lemma {:induction false} LongComesBack(a: nat, digits: nat, sh: nat, m: nat, e: nat)
    requires a > 0 && digits > 0 && sh > 0 && BitLength(a) == sh + digits && (m, e) == Rounded(a, digits)
    ensures e + 1 >= digits && m * Pow2(e + 1 - digits) == Kept(a, sh) * Pow2(sh)
  {
    assert BitLength(a) - digits == sh;
    if Kept(a, sh) == Pow2(digits) {
      Pow2Add(digits - 1, sh + 1);
      Pow2Add(digits, sh);
    }
  }

  /** A short value comes back whole. */
  lemma ShortComesBack(a: nat, digits: nat, m: nat, e: nat)
    requires 0 < BitLength(a) <= digits && (m, e) == Rounded(a, digits)
    ensures e < digits && ShiftRight(m, digits - 1 - e) == a
  {
    ShiftUnique(m, digits - 1 - e, a, 0);
  }

  lemma FixOfPacked(f: Format, m: nat, e: nat, bits: nat, width: nat)
    requires f.Ok() && Pow2(f.fraction) <= m < Pow2(f.Digits()) && e <= f.bias && bits == Packed(f, false, m, e)
    ensures FixUns(f, bits, width)
         == if e >= width then Pow2(width) - 1
            else if e < f.fraction then ShiftRight(m, f.fraction - e)
            else m * Pow2(e - f.fraction)
  {
    PackedValue(f, false, m, e, bits);
  }

  /** Only rounding up to 2^width itself leaves the range of the integer type. */
  lemma {:induction false} LeavesRange(a: nat, digits: nat, sh: nat, m: nat, e: nat, width: nat)
    requires 0 < a < Pow2(width) && 0 < digits < width && (m, e) == Rounded(a, digits) && e >= width
    requires BitLength(a) == sh + digits
    ensures Kept(a, sh) * Pow2(sh) == Pow2(width)
  {
    BitLengthAtMost(a, width);
    assert sh == width - digits;
    Pow2Add(digits, sh);
  }

  lemma {:induction false} ErrorBound(a: nat, digits: nat, sh: nat, m: nat, e: nat, width: nat, r: nat)
    requires 0 < a < Pow2(width) && 0 < digits < width && (m, e) == Rounded(a, digits)
    requires sh > 0 && BitLength(a) == sh + digits
    requires r == if e >= width then Pow2(width) - 1 else m * Pow2(e + 1 - digits)
    ensures Abs(r - a) <= Pow2(sh - 1)
  {
    KeptError(a, sh);
    if e >= width {
      LeavesRange(a, digits, sh, m, e, width);
      OneLess(a, Kept(a, sh) * Pow2(sh), r, Pow2(sh - 1));
    } else {
      LongComesBack(a, digits, sh, m, e);
    }
  }

  lemma OneLess(a: int, back: int, r: int, bound: int)
    requires Abs(back - a) <= bound && a < back && r == back - 1
    ensures Abs(r - a) <= bound
  {
  }

  lemma ZeroComesBack(f: Format, width: nat)
    requires f.Ok() && f.Digits() < width <= f.bias
    ensures FixUns(f, Nearest(f, false, 0), width) == 0
  {
    ShiftUnique(0, f.SignPos(), 0, 0);
    ShiftUnique(0, f.fraction, 0, 0);
  }

  /** Converting to a double and back is exact up to the double's digits, and off by at most half a unit of the last
      kept digit beyond. */
  lemma {:induction false} RoundTrip(f: Format, a: nat, width: nat)
    requires f.Ok() && a < Pow2(width) && f.Digits() < width <= f.bias
    ensures BitLength(a) <= f.Digits() ==> FixUns(f, Nearest(f, false, a), width) == a
    ensures BitLength(a) > f.Digits() ==>
      Abs(FixUns(f, Nearest(f, false, a), width) - a) <= Pow2(BitLength(a) - f.Digits() - 1)
  {
    if a == 0 {
      ZeroComesBack(f, width);
      return;
    }
    var digits := f.Digits();
    var (m, e) := Rounded(a, digits);
    BitLengthAtMost(a, width);
    RoundedRange(a, digits);
    FixOfPacked(f, m, e, Nearest(f, false, a), width);
    if BitLength(a) <= digits {
      ShortComesBack(a, digits, m, e);
    } else {
      var sh := BitLength(a) - digits;
      LongComesBack(a, digits, sh, m, e);
      ErrorBound(a, digits, sh, m, e, width, FixUns(f, Nearest(f, false, a), width));
    }
  }

  /** The same for 128-bit integers and doubles: 53 digits survive, the error is at most 2^(sd - 54). */
  lemma DoubleRoundTrip(a: nat)
    requires a < Pow2(WIDTH)
    ensures BitLength(a) <= 53 ==> FixUns(DOUBLE, Nearest(DOUBLE, false, a), WIDTH) == a
    ensures BitLength(a) > 53 ==> Abs(FixUns(DOUBLE, Nearest(DOUBLE, false, a), WIDTH) - a) <= Pow2(BitLength(a) - 54)
  {
    DoubleOk();
    RoundTrip(DOUBLE, a, WIDTH);
  }
}
