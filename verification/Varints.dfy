/** Variable-length integers (contracts/eosiolib/varint.hpp): seven bits a byte, lowest first, the eighth bit set on
    all but the last byte. Reading a sixth byte, whose shift C++ leaves undefined, is refused. */
module Varints {
  import opened Options
  import opened ByteStrings
  import opened Division

  const TWO32: int := 0x1_0000_0000
  const TWO31: int := 0x8000_0000
  const TWO30: int := 0x4000_0000

  function Varint(n: nat): (s: Bytes)
    ensures s != []
  {
    if n < 128 then [n] else [128 + n % 128] + Varint(n / 128)
  }

  function Pow128(i: nat): (p: nat)
    ensures p > 0
  {
    if i == 0 then 1 else 128 * Pow128(i - 1)
  }

  /** Byte `i` carries the `i`th seven bits, and all but the last one the eighth bit. */
  lemma {:induction false} VarintAt(n: nat, i: nat)
    requires i < |Varint(n)|
    ensures Varint(n)[i] == n / Pow128(i) % 128 + if i + 1 < |Varint(n)| then 128 else 0
    decreases n
  {
    if n >= 128 {
      var q := n / 128;
      assert Varint(n) == [128 + n % 128] + Varint(q);
      if i > 0 {
        VarintAt(q, i - 1);
        Twice(n, 128, Pow128(i - 1));
      }
    }
  }

  /** There are no more bytes than needed. */
  lemma {:induction false} VarintLength(n: nat)
    ensures n < Pow128(|Varint(n)|) && (|Varint(n)| > 1 ==> Pow128(|Varint(n)| - 1) <= n)
    decreases n
  {
    if n < 128 {
      assert Varint(n) == [n] && Pow128(1) == 128;
    } else {
      var q := n / 128;
      var len := |Varint(q)|;
      VarintLength(q);
      Sizes(n, q, Pow128(len));
      Sizes(n, q, Pow128(len - 1));
    }
  }

  lemma Sizes(n: nat, q: nat, p: nat)
    requires q == n / 128
    ensures (q < p ==> n < 128 * p) && (p <= q ==> 128 * p <= n)
  {
  }

  /** The place value of byte `i`. */
  function Place(i: nat): nat
    requires i < 5
  {
    [1, 128, 16384, 2097152, 268435456][i]
  }

  /** What byte `i` contributes, cut to 32 bits. */
  function Part(b: Byte, i: nat): nat
    requires i < 5
  {
    b % 128 * Place(i) % TWO32
  }

  /** Reads the bytes from the `i`th on. */
  function ReadFrom(s: Bytes, i: nat): Option<(nat, Bytes)>
    requires i < 5
    decreases 5 - i
  {
    if s == [] then None
    else if s[0] < 128 then Some((Part(s[0], i), s[1..]))
    else if i == 4 then None
    else
      match ReadFrom(s[1..], i + 1)
      case None => None
      case Some((n, rest)) => Some((Part(s[0], i) + n, rest))
  }

  lemma Digits(n: nat, p: nat)
    ensures n % 128 * p + n / 128 * (128 * p) == n * p && 0 <= n % 128 * p && n / 128 * (128 * p) >= 0
  {
    var r, q := n % 128, n / 128;
    assert n == r + q * 128;
    assert (r + q * 128) * p == r * p + q * 128 * p;
    assert q * 128 * p == q * (128 * p);
  }

  lemma SeveralBytes(n: nat, i: nat)
    requires i < 5 && 128 <= n && n * Place(i) < TWO32
    ensures i < 4 && Place(i + 1) == 128 * Place(i)
  {
    assert 128 * Place(i) <= n * Place(i);
  }

  lemma ReadByte(n: nat, i: nat)
    requires i < 5 && n * Place(i) < TWO32
    ensures Part(n % 128, i) == Part(128 + n % 128, i) == n % 128 * Place(i)
    ensures n >= 128 ==> i < 4 && n / 128 * Place(i + 1) < TWO32
    ensures n >= 128 ==> n % 128 * Place(i) + n / 128 * Place(i + 1) == n * Place(i)
  {
    Digits(n, Place(i));
    if n >= 128 { SeveralBytes(n, i); }
  }

  /** The first byte of a number of several bytes, and what the others stand for. */
  lemma FirstByte(n: nat, i: nat, m: nat) returns (b: Byte, q: nat, rest: nat)
    requires i < 5 && 128 <= n && m == n * Place(i) < TWO32
    ensures i < 4 && b == 128 + n % 128 && q == n / 128 && q < n
    ensures rest == q * Place(i + 1) < TWO32 && m == Part(b, i) + rest
  {
    ReadByte(n, i);
    b, q, rest := 128 + n % 128, n / 128, n / 128 * Place(i + 1);
  }

  lemma {:induction false} ReadBack(n: nat, i: nat, s: Bytes, m: nat)
    requires i < 5 && m == n * Place(i) < TWO32
    ensures ReadFrom(Varint(n) + s, i) == Some((m, s))
    decreases n
  {
    if n < 128 {
      ReadByte(n, i);
      LastByte(n, i, s, m);
    } else {
      var b, q, rest := FirstByte(n, i, m);
      ReadBack(q, i + 1, s, rest);
      MoreBytes(n, b, q, i, s, rest, m);
    }
  }

  lemma {:induction false} MoreBytes(n: nat, b: Byte, q: nat, i: nat, s: Bytes, rest: nat, m: nat)
    requires i < 4 && 128 <= n && b == 128 + n % 128 && q == n / 128 && m == Part(b, i) + rest
    requires ReadFrom(Varint(q) + s, i + 1) == Some((rest, s))
    ensures ReadFrom(Varint(n) + s, i) == Some((m, s))
  {
    var w := Varint(q) + s;
    Joins([b], Varint(q), s);
    EarlierByte(b, i, w, rest, s, m);
  }

  lemma LastByte(b: Byte, i: nat, s: Bytes, m: nat)
    requires i < 5 && b < 128 && m == Part(b, i)
    ensures ReadFrom([b] + s, i) == Some((m, s))
  {
    assert ([b] + s)[1..] == s;
  }

  lemma EarlierByte(b: Byte, i: nat, w: Bytes, rest: nat, s: Bytes, m: nat)
    requires i < 4 && b >= 128 && ReadFrom(w, i + 1) == Some((rest, s)) && m == Part(b, i) + rest
    ensures ReadFrom([b] + w, i) == Some((m, s))
  {
    assert ([b] + w)[1..] == w;
  }

  /** Every unsigned 32-bit integer is read back, and nothing after it is touched. */
  lemma UnsignedRoundTrip(n: nat, s: Bytes)
    requires n < TWO32
    ensures ReadFrom(Varint(n) + s, 0) == Some((n, s))
  {
    ReadBack(n, 0, s, n);
  }

  // ---------- signed integers ----------

  predicate IsInt32(i: int) { -TWO31 <= i < TWO31 }

  /** The 32-bit pattern read as a signed number. */
  function Int32(n: int): int {
    var m := n % TWO32;
    if m < TWO31 then m else m - TWO32
  }

  /** (i << 1) ^ (i >> 31), as an unsigned number. */
  function Zigzag(i: int): nat
    requires IsInt32(i)
  {
    if i >= 0 then 2 * i else -2 * i - 1
  }

  /** n ^ b for a single bit. */
  function XorBit(n: nat, b: nat): nat
    requires b <= 1
  {
    if b == 0 then n else if n % 2 == 0 then n + 1 else n - 1
  }

  /** What the reader makes of the unsigned number; its shift by 31 is a logical one. */
  function Unzigzag(v: nat): int
    requires v < TWO32
  {
    var x := Int32(XorBit(v / 2, v / TWO31) + v % 2);
    var y := if v % 2 == 1 then x else Int32(-x);
    Int32(-y)
  }

  /** The number with its lowest bit flipped. */
  function Flipped(i: int): int { if i % 2 == 0 then i + 1 else i - 1 }

  lemma Int32Keeps(x: int)
    ensures IsInt32(x) ==> Int32(x) == x
    ensures Int32(TWO31) == -TWO31
  {
  }

  lemma Doubled(n: nat, low: nat, v: nat, top: nat)
    requires n < TWO31 && low <= 1 && v == 2 * n + low && top == if n < TWO30 then 0 else 1
    ensures v < TWO32 && v / 2 == n && v % 2 == low && v / TWO31 == top
  {
  }

  lemma XorInside(n: nat, b: nat)
    requires n < TWO31 && b <= 1
    ensures XorBit(n, b) < TWO31
  {
  }

  lemma PositiveRoundTrip(i: int)
    requires 0 <= i < TWO31
    ensures Unzigzag(Zigzag(i)) == if i < TWO30 then i else Flipped(i)
  {
    var v, top := 2 * i, if i < TWO30 then 0 else 1;
    Doubled(i, 0, v, top);
    XorInside(i, top);
    EvenBack(v, XorBit(i, top));
  }

  lemma EvenBack(v: nat, x: int)
    requires v < TWO32 && v % 2 == 0 && x == XorBit(v / 2, v / TWO31) < TWO31
    ensures Unzigzag(v) == x
  {
    Int32Keeps(x);
    Int32Keeps(-x);
  }

  lemma NegativeRoundTrip(i: int)
    requires -TWO31 <= i < 0
    ensures Unzigzag(Zigzag(i)) == if -TWO30 <= i then i else Flipped(i)
  {
    var n := -i - 1;
    var v, top := 2 * n + 1, if n < TWO30 then 0 else 1;
    Doubled(n, 1, v, top);
    XorInside(n, top);
    OddBack(v, XorBit(n, top));
  }

  lemma OddBack(v: nat, x: int)
    requires v < TWO32 && v % 2 == 1 && x == XorBit(v / 2, v / TWO31) < TWO31
    ensures Unzigzag(v) == -x - 1
  {
    Int32Keeps(x + 1);
    Int32Keeps(-x - 1);
  }

  /** Signed integers are read back exactly from -2^30 up to 2^30: beyond, the top bit of the zigzag form corrupts the
      lowest bit of the result. */
  lemma SignedRoundTrip(i: int)
    requires IsInt32(i)
    ensures Unzigzag(Zigzag(i)) == i <==> -TWO30 <= i < TWO30
    ensures Unzigzag(Zigzag(i)) != i ==> Unzigzag(Zigzag(i)) == Flipped(i)
  {
    if i >= 0 { PositiveRoundTrip(i); } else { NegativeRoundTrip(i); }
  }

  /** Reads a signed integer; the unsigned one is held in 32 bits. */
  function ReadSigned(s: Bytes): Option<(int, Bytes)> {
    match ReadFrom(s, 0)
    case None => None
    case Some((n, rest)) => Some((Unzigzag(n % TWO32), rest))
  }

  lemma ReadSignedIs(s: Bytes, n: nat, rest: Bytes)
    requires ReadFrom(s, 0) == Some((n, rest)) && n < TWO32
    ensures ReadSigned(s) == Some((Unzigzag(n), rest))
  {
    assert n % TWO32 == n;
  }

  lemma SignedBytes(i: int, s: Bytes)
    requires -TWO30 <= i < TWO30
    ensures ReadSigned(Varint(Zigzag(i)) + s) == Some((i, s))
  {
    var z := Zigzag(i);
    UnsignedRoundTrip(z, s);
    ReadSignedIs(Varint(z) + s, z, s);
    SignedRoundTrip(i);
  }
}
