/** The rounding that the integer-to-double conversions share (libraries/builtins/floatuntidf.c, floattidf.c,
    int_t.h). Shifts and masks are functions on the natural number that the bits stand for; the number of kept
    digits is a parameter. */
module Rounding {

  /** Bits of a machine word. */
  const HALF: nat := 64

  function Pow2(n: nat): (p: nat)
    ensures p > 0
  {
    if n == 0 then 1 else 2 * Pow2(n - 1)
  }

  lemma {:induction false} Pow2Add(m: nat, n: nat)
    ensures Pow2(m + n) == Pow2(m) * Pow2(n)
  {
    if m > 0 {
      Pow2Add(m - 1, n);
      assert Pow2(m) * Pow2(n) == 2 * (Pow2(m - 1) * Pow2(n));
    }
  }

  lemma {:induction false} Pow2Monotone(m: nat, n: nat)
    requires m <= n
    ensures Pow2(m) <= Pow2(n)
  {
    Pow2Add(m, n - m);
    MulAtLeast(Pow2(m), Pow2(n - m));
  }

  lemma MulAtLeast(x: nat, y: nat)
    requires y > 0
    ensures x <= x * y
  {
  }

  // ---------- shifts and masks ----------

  /** a >> k */
  function ShiftRight(a: nat, k: nat): nat { if k == 0 then a else ShiftRight(a / 2, k - 1) }

  /** The low `k` bits of `a`. */
  function LowBits(a: nat, k: nat): nat { if k == 0 then 0 else a % 2 + 2 * LowBits(a / 2, k - 1) }

  lemma {:induction false} ShiftParts(a: nat, k: nat)
    ensures a == ShiftRight(a, k) * Pow2(k) + LowBits(a, k) && LowBits(a, k) < Pow2(k)
  {
    if k > 0 {
      ShiftParts(a / 2, k - 1);
      Halves(a, ShiftRight(a / 2, k - 1), LowBits(a / 2, k - 1), Pow2(k - 1), Pow2(k));
    }
  }

  /** One bit more below the cut. */
  lemma Halves(a: nat, s: nat, l: nat, p: nat, q: nat)
    requires a / 2 == s * p + l && l < p && q == 2 * p
    ensures a == s * q + (a % 2 + 2 * l) && a % 2 + 2 * l < q
  {
    TwiceProduct(s, p, q);
  }

  lemma TwiceProduct(s: nat, p: nat, q: nat)
    requires q == 2 * p
    ensures s * q == 2 * (s * p)
  {
    calc {
      s * q;
      s * (p + p);
      { Distribute(p, p, s); }
      s * p + s * p;
    }
  }

  lemma {:induction false} ShiftUnique(a: nat, k: nat, q: nat, r: nat)
    requires a == q * Pow2(k) + r && r < Pow2(k)
    ensures ShiftRight(a, k) == q && LowBits(a, k) == r
  {
    ShiftParts(a, k);
    PartsUnique(Pow2(k), ShiftRight(a, k), LowBits(a, k), q, r);
  }

  lemma PartsUnique(p: nat, q1: nat, r1: nat, q2: nat, r2: nat)
    requires q1 * p + r1 == q2 * p + r2 && r1 < p && r2 < p
    ensures q1 == q2 && r1 == r2
  {
    assert q1 < q2 ==> (q1 + 1) * p <= q2 * p;
    assert q2 < q1 ==> (q2 + 1) * p <= q1 * p;
  }

  // ---------- counting leading zeros ----------

  /** The number of significant bits. */
  function BitLength(n: nat): nat { if n == 0 then 0 else 1 + BitLength(n / 2) }

  lemma {:induction false} BitLengthBounds(n: nat)
    requires n > 0
    ensures BitLength(n) > 0 && Pow2(BitLength(n) - 1) <= n < Pow2(BitLength(n))
  {
    if n > 1 { BitLengthBounds(n / 2); }
  }

  lemma {:induction false} BitLengthShift(n: nat, k: nat)
    requires ShiftRight(n, k) > 0
    ensures BitLength(n) == BitLength(ShiftRight(n, k)) + k
  {
    if k > 0 { BitLengthShift(n / 2, k - 1); }
  }

  lemma {:induction false} ShiftOutAll(n: nat, k: nat)
    requires ShiftRight(n, k) == 0
    ensures LowBits(n, k) == n
  {
    ShiftParts(n, k);
  }

  /** __builtin_clzll on a non-zero 64-bit word. */
  function Clz64(x: nat): int { 64 - BitLength(x) }

  /** __clzti2: the high word decides unless it is zero. */
  function Clz128(a: nat): int {
    var low, high := LowBits(a, HALF), ShiftRight(a, HALF);
    if high == 0 then Clz64(low) + 64 else Clz64(high)
  }

  /** It counts the leading zeros of the 128-bit value: the significant bits are what is left. */
  lemma ClzIsLeadingZeros(a: nat)
    ensures 128 - Clz128(a) == BitLength(a)
  {
    if ShiftRight(a, HALF) == 0 {
      ShiftOutAll(a, HALF);
    } else {
      BitLengthShift(a, HALF);
    }
  }

  // ---------- rounding ----------

  /** x | b on the lowest bit. */
  function OrBit(x: nat, b: bool): nat { if b && x % 2 == 0 then x + 1 else x }

  /** Cutting `sh` bits off `a` rounds up past the halfway point, and at it when the kept part is odd. */
  predicate RoundsUp(a: nat, sh: nat) {
    var q, r := ShiftRight(a, sh), LowBits(a, sh);
    2 * r > Pow2(sh) || (2 * r == Pow2(sh) && q % 2 == 1)
  }

  /** What is kept of `a`, rounded to nearest, ties to even. */
  function Kept(a: nat, sh: nat): nat { ShiftRight(a, sh) + if RoundsUp(a, sh) then 1 else 0 }

  lemma {:induction false} ShiftAdd(a: nat, j: nat, k: nat)
    ensures ShiftRight(a, j + k) == ShiftRight(ShiftRight(a, j), k)
    ensures LowBits(a, j + k) == LowBits(ShiftRight(a, j), k) * Pow2(j) + LowBits(a, j)
  {
    if j > 0 {
      ShiftAdd(a / 2, j - 1, k);
      var h := LowBits(ShiftRight(a, j), k);
      TwiceProduct(h, Pow2(j - 1), Pow2(j));
      assert LowBits(a, j + k) == a % 2 + 2 * LowBits(a / 2, j - 1 + k);
    }
  }

  lemma TwoBits(x: nat)
    ensures ShiftRight(x, 2) == x / 4 && LowBits(x, 2) == x % 4
  {
    var y := x / 2;
    assert ShiftRight(y, 1) == ShiftRight(y / 2, 0) == y / 2 && LowBits(y, 1) == y % 2 + 2 * LowBits(y / 2, 0) == y % 2;
    assert ShiftRight(x, 2) == ShiftRight(y, 1) && LowBits(x, 2) == x % 2 + 2 * LowBits(y, 1);
  }

  /** The value before the last two bits are dropped: P or-ed into R, plus one. */
  function Bumped(t: nat): nat { OrBit(t, t / 4 % 2 == 1) + 1 }

  /** With two bits kept below the cut and the rest or-ed into the last, oring the lowest kept bit into it as well
      and adding one decides the rounding. */
  lemma {:induction false} StickyRounding(a: nat, k: nat)
    ensures Bumped(OrBit(ShiftRight(a, k), LowBits(a, k) != 0)) / 4 == Kept(a, k + 2)
  {
    var x, low, p, q, r := ShiftRight(a, k), LowBits(a, k), Pow2(k), ShiftRight(a, k + 2), LowBits(a, k + 2);
    TwoMoreBits(a, k, x, low, p, q, r);
    StickyCases(x, low, p, r);
    KeptAt(a, k + 2, q, r, 4 * p);
  }

  lemma TwoMoreBits(a: nat, k: nat, x: nat, low: nat, p: nat, q: nat, r: nat)
    requires x == ShiftRight(a, k) && low == LowBits(a, k) && p == Pow2(k)
    requires q == ShiftRight(a, k + 2) && r == LowBits(a, k + 2)
    ensures low < p && q == x / 4 && r == x % 4 * p + low && Pow2(k + 2) == 4 * p
  {
    ShiftAdd(a, k, 2);
    ShiftParts(a, k);
    TwoBits(x);
    FourTimes(k);
  }

  lemma FourTimes(k: nat)
    ensures Pow2(k + 2) == 4 * Pow2(k)
  {
    assert Pow2(k + 2) == 2 * Pow2(k + 1);
  }

  lemma KeptAt(a: nat, sh: nat, q: nat, r: nat, p: nat)
    requires q == ShiftRight(a, sh) && r == LowBits(a, sh) && p == Pow2(sh)
    ensures Kept(a, sh) == q + if 2 * r > p || (2 * r == p && q % 2 == 1) then 1 else 0
  {
  }

  lemma DivideByFour(t: nat, q: nat, r: nat)
    requires t == 4 * q + r && r < 4
    ensures t / 4 == q && t % 4 == r && t % 2 == r % 2
  {
  }

  /** The rounding step on a value with two bits below the cut. */
  lemma BumpedIs(t: nat, q: nat, r: nat)
    requires t == 4 * q + r && r < 4
    ensures Bumped(t) / 4 == if r == 3 || (r == 2 && q % 2 == 1) then q + 1 else q
  {
    DivideByFour(t, q, r);
    var b := Bumped(t);
    if r == 0 {
      DivideByFour(b, q, if q % 2 == 1 then 2 else 1);
    } else if r == 1 {
      DivideByFour(b, q, 2);
    } else if r == 2 {
      if q % 2 == 1 { DivideByFour(b, q + 1, 0); } else { DivideByFour(b, q, 3); }
    } else {
      DivideByFour(b, q + 1, 0);
    }
  }

  lemma StickyCases(x: nat, low: nat, p: nat, r: nat)
    requires low < p && r == x % 4 * p + low
    ensures Bumped(OrBit(x, low != 0)) / 4
         == x / 4 + if 2 * r > 4 * p || (2 * r == 4 * p && x / 4 % 2 == 1) then 1 else 0
  {
    var q, c := x / 4, x % 4;
    DivideByFour(x, q, c);
    BumpedIs(OrBit(x, low != 0), q, if low != 0 && c % 2 == 0 then c + 1 else c);
    if c == 0 {
      assert r == low;
    } else if c == 1 {
      assert r == p + low;
    } else if c == 2 {
      assert r == 2 * p + low;
    } else {
      assert r == 3 * p + low;
    }
  }

  /** The case of one bit to drop: the value is shifted left first. */
  lemma OneBitRounding(a: nat)
    ensures Bumped(2 * a) / 4 == Kept(a, 1)
  {
    assert ShiftRight(a, 1) == ShiftRight(a / 2, 0) == a / 2;
    assert LowBits(a, 1) == a % 2 + 2 * LowBits(a / 2, 0) == a % 2;
    assert Pow2(1) == 2 * Pow2(0) == 2;
    OneBitCases(a);
  }

  lemma OneBitCases(a: nat)
    ensures Bumped(2 * a) / 4 == a / 2 + if a % 2 == 1 && a / 2 % 2 == 1 then 1 else 0
  {
    BumpedIs(2 * a, a / 2, 2 * (a % 2));
  }

  /** The significand of `digits` bits and the exponent of the value nearest to `a`. */
  function Rounded(a: nat, digits: nat): (nat, nat)
    requires a > 0 && digits > 0
  {
    var sd := BitLength(a);
    if sd <= digits then (a * Pow2(digits - sd), sd - 1)
    else if Kept(a, sd - digits) == Pow2(digits) then (Pow2(digits - 1), sd)
    else (Kept(a, sd - digits), sd - 1)
  }

  /** The kept part of a long value has exactly the digits asked for, unless rounding carried into one more. */
  lemma KeptRange(a: nat, sh: nat, digits: nat)
    requires digits > 0 && BitLength(a) == sh + digits
    ensures Pow2(digits - 1) <= ShiftRight(a, sh) < Pow2(digits)
    ensures Pow2(digits - 1) <= Kept(a, sh) <= Pow2(digits)
  {
    SomethingKept(a, sh, digits);
    BitLengthShift(a, sh);
    BitLengthBounds(ShiftRight(a, sh));
  }

  lemma SomethingKept(a: nat, sh: nat, digits: nat)
    requires digits > 0 && BitLength(a) == sh + digits
    ensures ShiftRight(a, sh) > 0
  {
    ShiftParts(a, sh);
    BitLengthBounds(a);
    Pow2Monotone(sh, sh + digits - 1);
  }

  lemma RoundedRange(a: nat, digits: nat)
    requires a > 0 && digits > 0
    ensures Pow2(digits - 1) <= Rounded(a, digits).0 < Pow2(digits)
  {
    var sd := BitLength(a);
    BitLengthBounds(a);
    if sd <= digits {
      ShortRange(a, sd, digits - sd, digits);
    } else {
      KeptRange(a, sd - digits, digits);
    }
  }

  lemma ShortRange(a: nat, sd: nat, pad: nat, digits: nat)
    requires 0 < sd && digits == sd + pad && Pow2(sd - 1) <= a < Pow2(sd)
    ensures Pow2(digits - 1) <= a * Pow2(pad) < Pow2(digits)
  {
    Pow2Add(sd, pad);
    Pow2Add(sd - 1, pad);
    MulOrder(Pow2(sd - 1), a, Pow2(pad));
    MulStrict(a, Pow2(sd), Pow2(pad));
  }

  lemma MulOrder(x: nat, y: nat, p: nat)
    requires x <= y
    ensures x * p <= y * p
  {
  }

  lemma MulStrict(x: nat, y: nat, p: nat)
    requires x < y && p > 0
    ensures x * p < y * p
  {
  }

  lemma BitLengthAtMost(a: nat, width: nat)
    requires 0 < a < Pow2(width)
    ensures 0 < BitLength(a) <= width
  {
    BitLengthBounds(a);
    if BitLength(a) > width { Pow2Monotone(width, BitLength(a) - 1); }
  }

  lemma CarryBit(k: nat, n: nat)
    requires k <= Pow2(n)
    ensures ShiftRight(k, n) % 2 == 1 <==> k == Pow2(n)
  {
    if k == Pow2(n) {
      ShiftUnique(k, n, 1, 0);
    } else {
      ShiftUnique(k, n, 0, k);
    }
  }

  /** The switch on the number of bits to drop, then the rounding of what is left. */
  method RoundOff(a: nat, sd: nat, digits: nat) returns (m: nat)
    requires sd == BitLength(a) > digits
    ensures m == Kept(a, sd - digits)
  {
    ghost var sh := sd - digits;
    m := a;
    if sd == digits + 1 {
      m := m * 2;
      assert Bumped(m) / 4 == Kept(a, sh) by { OneBitRounding(a); }
    } else if sd == digits + 2 {
      assert Bumped(m) / 4 == Kept(a, sh) by { StickyRounding(a, 0); }
    } else {
      var k := sd - (digits + 2);
      m := OrBit(ShiftRight(m, k), LowBits(m, k) != 0);
      assert Bumped(m) / 4 == Kept(a, sh) by { StickyRounding(a, k); assert k + 2 == sh; }
    }
    m := OrBit(m, m / 4 % 2 == 1);
    m := m + 1;
    m := m / 4;
  }

  /** The bit tested after rounding says whether the kept part carried into one more digit. */
  lemma {:induction false} Carried(a: nat, sd: nat, digits: nat, m: nat)
    requires a > 0 && digits > 0 && sd == BitLength(a) > digits && m == Kept(a, sd - digits)
    ensures Rounded(a, digits) == if ShiftRight(m, digits) % 2 == 1 then (m / 2, sd) else (m, sd - 1)
  {
    KeptRange(a, sd - digits, digits);
    CarryBit(m, digits);
    if m == Pow2(digits) { TwiceIsEven(Pow2(digits - 1), m); }
  }

  /** The normalisation shared by both conversions, for a value of `sd` significant bits. */
  method Normalize(a: nat, sd: nat, digits: nat) returns (m: nat, e: nat)
    requires a > 0 && digits > 0 && sd == BitLength(a)
    ensures (m, e) == Rounded(a, digits)
  {
    assert sd > 0;
    e := sd - 1;
    if sd > digits {
      m := RoundOff(a, sd, digits);
      Carried(a, sd, digits, m);
      if ShiftRight(m, digits) % 2 == 1 {
        m := m / 2;
        e := e + 1;
      }
    } else {
      m := a * Pow2(digits - sd);
    }
  }

  // ---------- nearest, ties to even ----------

  function Abs(x: int): nat { if x < 0 then 0 - x else x }

  /** `v` is at least as near to `x` as `w`, and strictly nearer unless it is even or the two are equal. */
  predicate Nearer(x: int, v: int, w: int, even: bool) {
    Abs(v - x) <= Abs(w - x) && (Abs(v - x) == Abs(w - x) && v != w ==> even)
  }

  /** Between two neighbours of a grid, the rule of `Kept` picks a nearest. */
  lemma Closest(lo: int, step: nat, rest: nat, w: int, up: bool, odd: bool)
    requires rest < step && (w <= lo || w >= lo + step)
    requires up <==> (2 * rest > step || (2 * rest == step && odd))
    ensures Nearer(lo + rest, lo + if up then step else 0, w, odd == up)
  {
  }

  /** A value with no more digits than the grid's own lies on the grid, or below the part of it that `q` is on. */
  lemma OnGridOrBelow(m: nat, j: nat, q: nat, g: nat, digits: nat)
    requires digits > 0 && m < Pow2(digits) && q >= Pow2(digits - 1)
    ensures m * Pow2(j) <= q * Pow2(g) || m * Pow2(j) >= q * Pow2(g) + Pow2(g)
  {
    if j >= g {
      Pow2Add(j - g, g);
      Multiple(m, Pow2(j - g), Pow2(g), q, Pow2(j));
    } else {
      Pow2Add(digits, j);
      Pow2Monotone(digits + j, digits - 1 + g);
      Pow2Add(digits - 1, g);
      MulOrder(m, Pow2(digits), Pow2(j));
      MulOrder(Pow2(digits - 1), q, Pow2(g));
    }
  }

  lemma Multiple(m: nat, f: nat, step: nat, q: nat, p: nat)
    requires p == f * step
    ensures m * p <= q * step || m * p >= q * step + step
  {
    var n := m * f;
    MulAssoc(m, f, step);
    if n <= q {
      MulOrder(n, q, step);
    } else {
      MulOrder(q + 1, n, step);
      Distribute(q, 1, step);
    }
  }

  lemma MulAssoc(x: int, y: int, z: int)
    ensures x * y * z == x * (y * z)
  {
  }

  /** `a` on the grid of step 2^(sh+u). */
  lemma Scaled(a: nat, sh: nat, u: nat)
    ensures a * Pow2(u) == ShiftRight(a, sh) * Pow2(sh + u) + LowBits(a, sh) * Pow2(u)
    ensures LowBits(a, sh) * Pow2(u) < Pow2(sh + u)
  {
    var q, r, p, s := ShiftRight(a, sh), LowBits(a, sh), Pow2(sh), Pow2(u);
    ShiftParts(a, sh);
    Pow2Add(sh, u);
    ScaledParts(a, q, r, p, s, Pow2(sh + u));
  }

  lemma ScaledParts(a: nat, q: nat, r: nat, p: nat, s: nat, step: nat)
    requires a == q * p + r && r < p && s > 0 && step == p * s
    ensures a * s == q * step + r * s && r * s < step
  {
    MulAssoc(q, p, s);
    Distribute(q * p, r, s);
    MulStrict(r, p, s);
  }

  /** The rounding rule can be read off the scaled grid. */
  lemma ScaledRounding(a: nat, sh: nat, u: nat, rest: nat, step: nat)
    requires rest == LowBits(a, sh) * Pow2(u) && step == Pow2(sh + u)
    ensures RoundsUp(a, sh) <==> (2 * rest > step || (2 * rest == step && ShiftRight(a, sh) % 2 == 1))
  {
    var r, p, s := LowBits(a, sh), Pow2(sh), Pow2(u);
    Pow2Add(sh, u);
    ScaledHalf(r, p, s, Pow2(sh + u));
  }

  lemma ScaledHalf(r: nat, p: nat, s: nat, step: nat)
    requires s > 0 && step == p * s
    ensures (2 * r > p <==> 2 * (r * s) > step) && (2 * r == p <==> 2 * (r * s) == step)
  {
    ScaleOrder(p, 2 * r, s);
    MulAssoc(2, r, s);
  }

  lemma Distribute(x: int, y: int, z: int)
    ensures (x + y) * z == x * z + y * z
  {
  }

  lemma ScaleOrder(x: nat, y: nat, s: nat)
    requires s > 0
    ensures (x < y <==> x * s < y * s) && (x == y <==> x * s == y * s)
  {
    if x < y { MulStrict(x, y, s); } else if y < x { MulStrict(y, x, s); }
  }

  /** What is kept, as a multiple of the step: one of the two neighbours of the value. */
  lemma KeptOnGrid(a: nat, sh: nat, step: nat, lo: nat)
    requires lo == ShiftRight(a, sh) * step
    ensures Kept(a, sh) * step == lo + if RoundsUp(a, sh) then step else 0
  {
    var up := if RoundsUp(a, sh) then 1 else 0;
    Distribute(ShiftRight(a, sh), up, step);
    assert up * step == if RoundsUp(a, sh) then step else 0;
  }

  /** The value lies in a cell of the grid, and any other value of few enough digits outside it. */
  lemma InCell(a: nat, sh: nat, u: nat, digits: nat, m: nat, j: nat, w: int, x: nat, lo: nat, step: nat, rest: nat)
    requires digits > 0 && BitLength(a) == sh + digits && m < Pow2(digits) && (w == m * Pow2(j) || w <= 0)
    requires x == a * Pow2(u) && step == Pow2(sh + u) && lo == ShiftRight(a, sh) * step &&
      rest == LowBits(a, sh) * Pow2(u)
    ensures x == lo + rest && rest < step && (w <= lo || w >= lo + step)
  {
    KeptRange(a, sh, digits);
    OnGridOrBelow(m, j, ShiftRight(a, sh), sh + u, digits);
    Scaled(a, sh, u);
  }

  lemma KeptIsNearest(a: nat, sh: nat, u: nat, digits: nat, m: nat, j: nat, w: int, x: nat, v: nat)
    requires digits > 0 && BitLength(a) == sh + digits
    requires m < Pow2(digits) && (w == m * Pow2(j) || w <= 0)
    requires x == a * Pow2(u) && v == Kept(a, sh) * Pow2(sh + u)
    ensures Nearer(x, v, w, Kept(a, sh) % 2 == 0)
  {
    var q, step, rest := ShiftRight(a, sh), Pow2(sh + u), LowBits(a, sh) * Pow2(u);
    var lo := q * step;
    InCell(a, sh, u, digits, m, j, w, x, lo, step, rest);
    KeptOnGrid(a, sh, step, lo);
    ScaledRounding(a, sh, u, rest, step);
    KeptOfCell(a, sh, lo, step, rest, w, x, v);
  }

  lemma KeptOfCell(a: nat, sh: nat, lo: nat, step: nat, rest: nat, w: int, x: nat, v: nat)
    requires x == lo + rest && rest < step && (w <= lo || w >= lo + step)
    requires RoundsUp(a, sh) <==> (2 * rest > step || (2 * rest == step && ShiftRight(a, sh) % 2 == 1))
    requires v == lo + if RoundsUp(a, sh) then step else 0
    ensures Nearer(x, v, w, Kept(a, sh) % 2 == 0)
  {
    Closest(lo, step, rest, w, RoundsUp(a, sh), ShiftRight(a, sh) % 2 == 1);
    KeptParity(a, sh);
  }

  lemma KeptParity(a: nat, sh: nat)
    ensures (Kept(a, sh) % 2 == 0) == ((ShiftRight(a, sh) % 2 == 1) == RoundsUp(a, sh))
  {
  }

  /** The rounded significand and exponent, scaled to a grid fine enough to hold them. */
  lemma RoundedScaled(a: nat, digits: nat, u: nat)
    requires a > 0 && digits > 0 && u + 1 >= digits
    ensures
      var (m, e) := Rounded(a, digits);
      m * Pow2(e + u + 1 - digits)
      == if BitLength(a) <= digits then a * Pow2(u)
         else Kept(a, BitLength(a) - digits) * Pow2(BitLength(a) - digits + u)
  {
    var sd := BitLength(a);
    if sd <= digits {
      Pow2Add(digits - sd, sd - 1 + u + 1 - digits);
      MulAssoc(a, Pow2(digits - sd), Pow2(sd - 1 + u + 1 - digits));
    } else if Kept(a, sd - digits) == Pow2(digits) {
      Pow2Add(digits - 1, sd + u + 1 - digits);
      Pow2Add(digits, sd - digits + u);
    }
  }

  lemma PowEven(k: nat)
    requires k > 0
    ensures Pow2(k) % 2 == 0
  {
    var p := Pow2(k - 1);
    assert Pow2(k) == 2 * p;
    TwiceIsEven(p, Pow2(k));
  }

  lemma TwiceIsEven(p: nat, q: nat)
    requires q == 2 * p
    ensures q % 2 == 0 && q / 2 == p
  {
  }

  lemma {:induction false} RoundedParity(a: nat, digits: nat)
    requires a > 0 && digits > 1 && BitLength(a) > digits && Kept(a, BitLength(a) - digits) % 2 == 0
    ensures Rounded(a, digits).0 % 2 == 0
  {
    PowEven(digits - 1);
  }

  /** No value of at most `digits` significant bits, and no negative one, is nearer to `a` than the rounded one. */
  lemma {:induction false} RoundedIsNearest(a: nat, digits: nat, u: nat, m: nat, j: nat, w: int, x: nat, v: nat)
    requires a > 0 && digits > 1 && u + 1 >= digits
    requires m < Pow2(digits) && (w == m * Pow2(j) || w <= 0)
    requires x == a * Pow2(u) && v == Rounded(a, digits).0 * Pow2(Rounded(a, digits).1 + u + 1 - digits)
    ensures Nearer(x, v, w, Rounded(a, digits).0 % 2 == 0)
  {
    if BitLength(a) > digits {
      var sh := BitLength(a) - digits;
      var even := Kept(a, sh) % 2 == 0;
      LongScaled(a, sh, digits, u, v);
      KeptIsNearest(a, sh, u, digits, m, j, w, x, v);
      if even { RoundedParity(a, digits); }
      NearerStays(x, v, w, even, Rounded(a, digits).0 % 2 == 0);
    } else {
      RoundedScaled(a, digits, u);
    }
  }

  lemma {:induction false} LongScaled(a: nat, sh: nat, digits: nat, u: nat, v: nat)
    requires digits > 0 && sh > 0 && BitLength(a) == sh + digits && a > 0 && u + 1 >= digits
    requires v == Rounded(a, digits).0 * Pow2(Rounded(a, digits).1 + u + 1 - digits)
    ensures v == Kept(a, sh) * Pow2(sh + u)
  {
    RoundedScaled(a, digits, u);
    assert BitLength(a) - digits == sh;
  }

  lemma NearerStays(x: int, v: int, w: int, even: bool, still: bool)
    requires Nearer(x, v, w, even) && (even ==> still)
    ensures Nearer(x, v, w, still)
  {
  }
}
