/** How the words of the heap buffer carry the headers of a block list
    (contracts/eosiolib/eosiolib.cpp, memory_manager::memory::buffer_ptr). */
module HeapTiling {
  import opened HeapBlocks

  const ALLOC_MASK: nat := 0x8000_0000

  /** A header word holds the payload size in bytes, with the state in the top bit. */
  function Encode(b: Block): nat { 4 * b.size + if b.live then ALLOC_MASK else 0 }
  predicate IsAlloc(w: nat) { w >= ALLOC_MASK }
  function SizeBytes(w: nat): nat { w % ALLOC_MASK }

  /** The words `w`, from address `pos` on, carry the headers of the blocks `bs`. */
  ghost predicate Tiles(w: seq<nat>, pos: nat, bs: seq<Block>)
    decreases |bs|
  {
    bs == [] || (pos < |w| && w[pos] == Encode(bs[0]) && Tiles(w, pos + SIZE_MARKER + bs[0].size, bs[1..]))
  }

  lemma {:induction false} TilesConcat(w: seq<nat>, pos: nat, a: seq<Block>, at: nat, b: seq<Block>)
    requires at == pos + Total(a)
    ensures Tiles(w, pos, a + b) <==> Tiles(w, pos, a) && Tiles(w, at, b)
    decreases |a|
  {
    if a == [] {
      assert a + b == b;
    } else {
      assert (a + b)[1..] == a[1..] + b;
      TilesConcat(w, pos + SIZE_MARKER + a[0].size, a[1..], at, b);
    }
  }

  lemma OneTile(w: seq<nat>, at: nat, b: Block)
    requires at < |w| && w[at] == Encode(b)
    ensures Tiles(w, at, [b]) && Total([b]) == SIZE_MARKER + b.size
  {
  }

  /** Headers depend only on the words of their own blocks. */
  lemma {:induction false} TilesFrame(w: seq<nat>, w': seq<nat>, pos: nat, bs: seq<Block>, end: nat)
    requires Tiles(w, pos, bs) && |w| == |w'| && end == pos + Total(bs)
    requires forall j | 0 <= j < |w| && pos <= j < end :: w'[j] == w[j]
    ensures Tiles(w', pos, bs)
    decreases |bs|
  {
    if bs != [] {
      TilesFrame(w, w', pos + SIZE_MARKER + bs[0].size, bs[1..], end);
    }
  }

  /** Replacing the part of the tiling that covers words lo..hi by other blocks of the same total size. */
  lemma Retile(w: seq<nat>, w': seq<nat>, a: seq<Block>, mid: seq<Block>, mid': seq<Block>, c: seq<Block>,
               lo: nat, hi: nat)
    requires lo == Total(a) && hi == lo + Total(mid) == lo + Total(mid')
    requires Tiles(w, 0, a + (mid + c)) && |w| == |w'| && Tiles(w', lo, mid')
    requires forall j | 0 <= j < |w| && !(lo <= j < hi) :: w'[j] == w[j]
    ensures Tiles(w', 0, a + (mid' + c))
  {
    TilesConcat(w, 0, a, lo, mid + c);
    TilesConcat(w, lo, mid, hi, c);
    TilesFrame(w, w', 0, a, lo);
    TilesFrame(w, w', hi, c, hi + Total(c));
    TilesConcat(w', lo, mid', hi, c);
    TilesConcat(w', 0, a, lo, mid' + c);
  }

  /** The header of the block between `a` and `c` sits right after the words of `a`. */
  lemma HeaderAt(w: seq<nat>, a: seq<Block>, b: Block, c: seq<Block>, at: nat)
    requires Tiles(w, 0, a + ([b] + c)) && at == Total(a)
    ensures at < |w| && w[at] == Encode(b)
  {
    TilesConcat(w, 0, a, at, [b] + c);
  }

  // ---------- what writes leave alone ----------

  /** Every word of every live payload of `bs` is the same in `w'` as in `w`. */
  ghost predicate PayloadsKept(w: seq<nat>, w': seq<nat>, bs: seq<Block>) {
    |w| == |w'| &&
    forall p: nat, n: nat, j | Live(bs, 0, p, n) && 0 <= j < |w| && p <= j < p + n :: w'[j] == w[j]
  }

  /** The header word of a block is no part of any live payload, its own included. */
  lemma HeaderNotLive(a: seq<Block>, b: Block, c: seq<Block>, at: nat, p: nat, n: nat)
    requires Live(a + ([b] + c), 0, p, n) && at == Total(a)
    ensures p + n <= at || at + SIZE_MARKER <= p
  {
    LiveConcat(a, [b] + c, 0, p, n);
    Cons(b, c, at, p, n);
    if Live(a, 0, p, n) { LiveInside(a, 0, p, n); }
    if Live(c, at + SIZE_MARKER + b.size, p, n) { LiveInside(c, at + SIZE_MARKER + b.size, p, n); }
  }

  /** Rewriting one header, for a block of the same size. */
  lemma HeaderWrite(w: seq<nat>, w': seq<nat>, a: seq<Block>, b: Block, b': Block, c: seq<Block>, at: nat)
    requires Tiles(w, 0, a + ([b] + c)) && at == Total(a) && at < |w|
    requires w' == w[at := Encode(b')] && b'.size == b.size
    ensures Tiles(w', 0, a + ([b'] + c)) && PayloadsKept(w, w', a + ([b] + c))
  {
    OneTile(w', at, b');
    Retile(w, w', a, [b], [b'], c, at, at + SIZE_MARKER + b.size);
    forall p: nat, n: nat, j | Live(a + ([b] + c), 0, p, n) && 0 <= j < |w| && p <= j < p + n
      ensures w'[j] == w[j]
    {
      HeaderNotLive(a, b, c, at, p, n);
    }
  }

  /** A word inside a payload can change freely. */
  lemma PayloadWrite(w: seq<nat>, v: nat, a: seq<Block>, b: Block, c: seq<Block>, at: nat, j: nat)
    requires Tiles(w, 0, a + ([b] + c)) && at == Total(a)
    requires j < |w| && at + SIZE_MARKER <= j < at + SIZE_MARKER + b.size
    ensures Tiles(w[j := v], 0, a + ([b] + c))
  {
    HeaderAt(w, a, b, c, at);
    OneTile(w[j := v], at, b);
    Retile(w, w[j := v], a, [b], [b], c, at, at + SIZE_MARKER + b.size);
  }

  /** A new block behind the last one. */
  lemma AppendTile(w: seq<nat>, w': seq<nat>, bs: seq<Block>, at: nat, b: Block)
    requires Tiles(w, 0, bs) && at == Total(bs) && at < |w|
    requires w' == w[at := Encode(b)]
    ensures Tiles(w', 0, bs + [b]) && Total(bs + [b]) == at + SIZE_MARKER + b.size
    ensures PayloadsKept(w, w', bs)
  {
    TotalConcat(bs, [b]);
    TilesFrame(w, w', 0, bs, at);
    OneTile(w', at, b);
    TilesConcat(w', 0, bs, at, [b]);
    forall p: nat, n: nat, j | Live(bs, 0, p, n) && 0 <= j < |w| && p <= j < p + n ensures w'[j] == w[j] {
      LiveInside(bs, 0, p, n);
    }
  }

  // ---------- merging ----------

  /** The words after a block at `at` was cut from `got` to `need` words. */
  function CutWords(w: seq<nat>, at: nat, got: nat, need: nat, live: bool): seq<nat>
    requires at < |w| && (need < got ==> at + SIZE_MARKER + need < |w| && need + SIZE_MARKER <= got)
  {
    var w1 := w[at := Encode(Block(Min(got, need), live))];
    if got <= need then w1 else w1[at + SIZE_MARKER + need := Encode(Block(got - need - SIZE_MARKER, false))]
  }

  lemma CutTiles(w: seq<nat>, at: nat, got: nat, need: nat, live: bool)
    requires at < |w| && (need < got ==> at + SIZE_MARKER + need < |w| && need + SIZE_MARKER <= got)
    ensures Tiles(CutWords(w, at, got, need, live), at, Cut(got, need, live))
    ensures Total(Cut(got, need, live)) == SIZE_MARKER + got
  {
    var w' := CutWords(w, at, got, need, live);
    if got <= need {
      OneTile(w', at, Block(got, live));
    } else {
      var b, r := Block(need, live), Block(got - need - SIZE_MARKER, false);
      OneTile(w', at, b);
      OneTile(w', at + SIZE_MARKER + need, r);
      assert Cut(got, need, live) == [b] + [r];
      TilesConcat(w', at, [b], at + SIZE_MARKER + need, [r]);
      TotalConcat([b], [r]);
    }
  }

  /** A block and the free blocks it absorbs, as one stretch of the tiling. */
  lemma Stretch(a: seq<Block>, b: Block, c: seq<Block>, k: nat)
    requires k <= |c|
    ensures a + ([b] + c) == a + (([b] + c[..k]) + c[k..])
    ensures Total([b] + c[..k]) == SIZE_MARKER + Grown(b, c, k)
  {
    assert c == c[..k] + c[k..];
    Cons(b, c[..k], 0, 0, 0);
  }

  lemma MergeTiles(w: seq<nat>, a: seq<Block>, b: Block, c: seq<Block>, need: nat, at: nat, got: nat)
    requires Tiles(w, 0, a + ([b] + c)) && at == Total(a) && Aligned([b] + c) && need % MEM_BLOCK == SIZE_MARKER
    requires got == Grown(b, c, Absorbed(b.size, c, need)) && at + SIZE_MARKER + got <= |w|
    ensures need < got ==> need + SIZE_MARKER <= got
    ensures Tiles(CutWords(w, at, got, need, b.live), 0, a + Merged(b, c, need))
  {
    var k := Absorbed(b.size, c, need);
    GrownAligned(b, c, k);
    Stretch(a, b, c, k);
    CutTiles(w, at, got, need, b.live);
    Retile(w, CutWords(w, at, got, need, b.live), a, [b] + c[..k], Cut(got, need, b.live), c[k..], at,
           at + SIZE_MARKER + got);
  }

  /** Merging writes into no live payload (a live block only ever grows). */
  lemma MergeKeepsPayloads(w: seq<nat>, a: seq<Block>, b: Block, c: seq<Block>, need: nat, at: nat, got: nat)
    requires at == Total(a) && got == Grown(b, c, Absorbed(b.size, c, need))
    requires at + SIZE_MARKER + got <= |w| && (need < got ==> need + SIZE_MARKER <= got)
    requires b.live ==> b.size <= need
    ensures PayloadsKept(w, CutWords(w, at, got, need, b.live), a + ([b] + c))
  {
    var k := Absorbed(b.size, c, need);
    var w' := CutWords(w, at, got, need, b.live);
    forall p: nat, n: nat, j | Live(a + ([b] + c), 0, p, n) && 0 <= j < |w| && p <= j < p + n
      ensures w'[j] == w[j]
    {
      LiveConcat(a, [b] + c, 0, p, n);
      HeadRun(b, c, need, k, got, at, p, n);
      if Live(a, 0, p, n) { LiveInside(a, 0, p, n); }
      if Live(c[k..], at + SIZE_MARKER + got, p, n) { LiveInside(c[k..], at + SIZE_MARKER + got, p, n); }
    }
  }
}
