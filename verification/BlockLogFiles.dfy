/** The bytes of a block log and of its index (libraries/chain/block_log.cpp), for any self-delimiting encodings of
    blocks and genesis states. */
module BlockLogFiles {
  import opened Options
  import opened ByteStrings

  /** `unpack` reads one value off the front and returns what is left. */
  datatype Codec<!T> = Codec(pack: T -> Bytes, unpack: Bytes -> Option<(T, Bytes)>)

  /** What was packed is unpacked, and unpacking never leaves more bytes than there were. */
  ghost predicate Lawful<T(!new)>(c: Codec<T>) {
    && (forall t: T, s: Bytes :: c.unpack(c.pack(t) + s) == Some((t, s)))
    && (forall s: Bytes :: c.unpack(s).Some? ==> |c.unpack(s).value.1| <= |s|)
  }

  const NPOS: nat := 0xFFFF_FFFF_FFFF_FFFF

  /** Version, first block number, genesis state, and the totem that ends the header. */
  function Header<G>(c: Codec<G>, version: nat, first: nat, gs: G): Bytes {
    Little(version, 4) + Little(first, 4) + c.pack(gs) + Little(NPOS, 8)
  }

  /** The log of `bs` behind the header `h`: every block is followed by the position it starts at. */
  function LogOf<B>(c: Codec<B>, h: Bytes, bs: seq<B>): Bytes {
    if bs == [] then h
    else
      var rest := LogOf(c, h, bs[..|bs| - 1]);
      rest + c.pack(bs[|bs| - 1]) + Little(|rest|, 8)
  }

  /** The index: the positions, in order. */
  function IndexOf<B>(c: Codec<B>, h: Bytes, bs: seq<B>): Bytes {
    if bs == [] then [] else IndexOf(c, h, bs[..|bs| - 1]) + Little(|LogOf(c, h, bs[..|bs| - 1])|, 8)
  }

  /** Where block `k` starts. */
  function Start<B>(c: Codec<B>, h: Bytes, bs: seq<B>, k: nat): nat
    requires k <= |bs|
  {
    |LogOf(c, h, bs[..k])|
  }

  lemma TakeTake<B>(bs: seq<B>, j: nat, k: nat)
    requires j <= k <= |bs|
    ensures bs[..k][..j] == bs[..j]
  {
  }

  lemma {:induction false} LogGrows<B>(c: Codec<B>, h: Bytes, bs: seq<B>, k: nat)
    requires k <= |bs|
    ensures LogOf(c, h, bs[..k]) <= LogOf(c, h, bs) && Start(c, h, bs, k) + 8 * (|bs| - k) <= |LogOf(c, h, bs)|
    ensures |h| <= Start(c, h, bs, k)
  {
    var n := |bs| - 1;
    if k == |bs| {
      assert bs[..k] == bs;
      if k > 0 { LogGrows(c, h, bs[..n], n); }
    } else {
      LogGrows(c, h, bs[..n], k);
      TakeTake(bs, k, n);
    }
  }

  /** From where block `k` starts, the log continues with that block, its position and the later blocks. */
  lemma LogFrom<B>(c: Codec<B>, h: Bytes, bs: seq<B>, k: nat)
    requires k < |bs|
    ensures Start(c, h, bs, k) + 8 <= Start(c, h, bs, k + 1) <= |LogOf(c, h, bs)|
    ensures LogOf(c, h, bs)[Start(c, h, bs, k)..]
         == c.pack(bs[k]) + (Little(Start(c, h, bs, k), 8) + LogOf(c, h, bs)[Start(c, h, bs, k + 1)..])
  {
    LogGrows(c, h, bs, k + 1);
    TakeTake(bs, k, k + 1);
    var part := LogOf(c, h, bs[..k]);
    Continue(LogOf(c, h, bs), LogOf(c, h, bs[..k + 1]), part, c.pack(bs[k]), Little(|part|, 8));
  }

  lemma Continue(log: Bytes, one: Bytes, part: Bytes, a: Bytes, b: Bytes)
    requires one <= log && one == part + a + b
    ensures log[|part|..] == a + (b + log[|one|..])
  {
    assert log == one + log[|one|..];
  }

  lemma {:induction false} IndexGrows<B>(c: Codec<B>, h: Bytes, bs: seq<B>, k: nat)
    requires k <= |bs|
    ensures |IndexOf(c, h, bs)| == 8 * |bs| && IndexOf(c, h, bs[..k]) == IndexOf(c, h, bs)[..8 * k]
  {
    var n := |bs| - 1;
    if k == |bs| {
      assert bs[..k] == bs;
      if k > 0 { IndexGrows(c, h, bs[..n], n); }
    } else {
      IndexGrows(c, h, bs[..n], k);
      TakeTake(bs, k, n);
    }
  }

  /** Entry `k` of the index is where block `k` starts. */
  lemma IndexEntry<B>(c: Codec<B>, h: Bytes, bs: seq<B>, k: nat)
    requires k < |bs|
    ensures |IndexOf(c, h, bs)| == 8 * |bs|
    ensures IndexOf(c, h, bs)[8 * k..8 * k + 8] == Little(Start(c, h, bs, k), 8)
    ensures IndexOf(c, h, bs[..k + 1]) == IndexOf(c, h, bs[..k]) + Little(Start(c, h, bs, k), 8)
  {
    IndexGrows(c, h, bs, k + 1);
    IndexGrows(c, h, bs, k);
    TakeTake(bs, k, k + 1);
    var all, one := IndexOf(c, h, bs), IndexOf(c, h, bs[..k + 1]);
    assert one == IndexOf(c, h, bs[..k]) + Little(Start(c, h, bs, k), 8);
    assert all[8 * k..8 * k + 8] == all[..8 * (k + 1)][8 * k..];
  }

  /** The log ends with the position of its last block. */
  lemma LogEnd<B>(c: Codec<B>, h: Bytes, bs: seq<B>)
    requires bs != []
    ensures |LogOf(c, h, bs)| >= 8
    ensures LogOf(c, h, bs)[|LogOf(c, h, bs)| - 8..] == Little(Start(c, h, bs, |bs| - 1), 8)
  {
  }

  lemma HeaderParts<G(!new)>(c: Codec<G>, version: nat, first: nat, gs: G, tail: Bytes)
    requires Lawful(c)
    ensures
      var h := Header(c, version, first, gs);
      |h| >= 16 && h[|h| - 8..] == Little(NPOS, 8) && c.unpack((h + tail)[8..]) == Some((gs, Little(NPOS, 8) + tail))
  {
    HeaderBytes(Little(version, 4), Little(first, 4), c.pack(gs), Little(NPOS, 8), tail);
  }

  /** Version, number of the first block, genesis state and a mark that no position has, in this order. */
  lemma HeaderLayout<G>(c: Codec<G>, version: nat, first: nat, gs: G)
    ensures
      var h, n := Header(c, version, first, gs), |c.pack(gs)|;
      && |h| == n + 16 && h[..4] == Little(version, 4) && h[4..8] == Little(first, 4) && h[8..8 + n] == c.pack(gs)
      && h[8 + n..] == Little(0xFFFF_FFFF_FFFF_FFFF, 8)
  {
    HeaderSlices(Little(version, 4), Little(first, 4), c.pack(gs), Little(NPOS, 8));
  }

  lemma HeaderSlices(version: Bytes, first: Bytes, gs: Bytes, totem: Bytes)
    requires |version| == |first| == 4 && |totem| == 8
    ensures
      var h, n := version + first + gs + totem, |gs|;
      |h| == n + 16 && h[..4] == version && h[4..8] == first && h[8..8 + n] == gs && h[8 + n..] == totem
  {
  }

  lemma HeaderBytes(version: Bytes, first: Bytes, gs: Bytes, totem: Bytes, tail: Bytes)
    requires |version| == |first| == 4 && |totem| == 8
    ensures
      var h := version + first + gs + totem;
      |h| >= 16 && h[|h| - 8..] == totem && (h + tail)[8..] == gs + (totem + tail)
  {
  }
}
