/** Bytes and little-endian numbers. */
module ByteStrings {
  import opened Division

  type Byte = x: int | 0 <= x < 256
  type Bytes = seq<Byte>

  lemma Joins(a: Bytes, b: Bytes, c: Bytes)
    ensures a + b + c == a + (b + c)
  {
  }

  function Pow256(k: nat): (p: nat)
    ensures p > 0
  {
    if k == 0 then 1 else 256 * Pow256(k - 1)
  }

  /** The `k` low bytes of `n`, least significant first. */
  function Little(n: nat, k: nat): (s: Bytes)
    ensures |s| == k
  {
    if k == 0 then [] else [n % 256] + Little(n / 256, k - 1)
  }

  function Number(s: Bytes): nat { if s == [] then 0 else s[0] + 256 * Number(s[1..]) }

  /** Byte `i` has the weight of 256 to the power of `i`. */
  lemma {:induction false} LittleAt(n: nat, k: nat, i: nat)
    requires i < k
    ensures Little(n, k)[i] == n / Pow256(i) % 256
  {
    if i > 0 {
      LittleAt(n / 256, k - 1, i - 1);
      Twice(n, 256, Pow256(i - 1));
    }
  }

  lemma {:induction false} NumberOfLittle(n: nat, k: nat)
    requires n < Pow256(k)
    ensures Number(Little(n, k)) == n
  {
    if k > 0 { NumberOfLittle(n / 256, k - 1); }
  }
}
