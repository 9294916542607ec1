/** The contract heap as a list of blocks, each a one-word header followed by its payload
    (contracts/eosiolib/eosiolib.cpp, memory_manager::memory). Sizes and addresses count 32-bit words: the
    source counts bytes, but only multiples of four once a request has passed adjust_to_mem_block. */
module HeapBlocks {
  import opened Options

  /** A block with `size` payload words, handed out (`live`) or free. */
  datatype Block = Block(size: nat, live: bool)

  /** The header, and the unit of header plus payload (4 and 8 bytes). */
  const SIZE_MARKER: nat := 1
  const MEM_BLOCK: nat := 2

  /** Words taken by a list of blocks, headers included. */
  function Total(bs: seq<Block>): nat {
    if bs == [] then 0 else SIZE_MARKER + bs[0].size + Total(bs[1..])
  }

  /** Header plus payload of every block fill whole units. */
  ghost predicate Aligned(bs: seq<Block>) {
    forall i | 0 <= i < |bs| :: bs[i].size % MEM_BLOCK == SIZE_MARKER
  }

  lemma {:induction false} TotalConcat(a: seq<Block>, b: seq<Block>)
    ensures Total(a + b) == Total(a) + Total(b)
  {
    if a == [] {
      assert a + b == b;
    } else {
      assert (a + b)[1..] == a[1..] + b;
      TotalConcat(a[1..], b);
    }
  }

  lemma {:induction false} TotalAligned(bs: seq<Block>)
    requires Aligned(bs)
    ensures Total(bs) % MEM_BLOCK == 0 && Total(bs) >= MEM_BLOCK * |bs|
  {
    if bs != [] { TotalAligned(bs[1..]); }
  }

  /** `p` is the payload address of a live block of `n` words, in a list that starts at address `base`. */
  ghost predicate Live(bs: seq<Block>, base: nat, p: nat, n: nat) {
    bs != [] && ((bs[0].live && p == base + SIZE_MARKER && n == bs[0].size)
                 || Live(bs[1..], base + SIZE_MARKER + bs[0].size, p, n))
  }

  lemma {:induction false} LiveConcat(a: seq<Block>, b: seq<Block>, base: nat, p: nat, n: nat)
    ensures Live(a + b, base, p, n) <==> Live(a, base, p, n) || Live(b, base + Total(a), p, n)
  {
    if a == [] {
      assert a + b == b;
    } else {
      assert (a + b)[1..] == a[1..] + b;
      LiveConcat(a[1..], b, base + SIZE_MARKER + a[0].size, p, n);
    }
  }

  lemma {:induction false} LiveInside(bs: seq<Block>, base: nat, p: nat, n: nat)
    requires Live(bs, base, p, n)
    ensures base + SIZE_MARKER <= p && p + n <= base + Total(bs)
  {
    if !(bs[0].live && p == base + SIZE_MARKER && n == bs[0].size) {
      LiveInside(bs[1..], base + SIZE_MARKER + bs[0].size, p, n);
    }
  }

  /** Live payloads never overlap, headers included. */
  lemma {:induction false} LiveDisjoint(bs: seq<Block>, base: nat, p: nat, n: nat, q: nat, m: nat)
    requires Live(bs, base, p, n) && Live(bs, base, q, m) && (p, n) != (q, m)
    ensures p + n + SIZE_MARKER <= q || q + m + SIZE_MARKER <= p
  {
    var next := base + SIZE_MARKER + bs[0].size;
    if Live(bs[1..], next, p, n) {
      LiveInside(bs[1..], next, p, n);
      if Live(bs[1..], next, q, m) {
        LiveDisjoint(bs[1..], next, p, n, q, m);
      }
    } else {
      LiveInside(bs[1..], next, q, m);
    }
  }

  lemma Cons(b: Block, xs: seq<Block>, base: nat, p: nat, n: nat)
    ensures Total([b] + xs) == SIZE_MARKER + b.size + Total(xs)
    ensures Live([b] + xs, base, p, n) <==>
            (b.live && p == base + SIZE_MARKER && n == b.size) || Live(xs, base + SIZE_MARKER + b.size, p, n)
  {
    assert ([b] + xs)[1..] == xs;
  }

  // ---------- freeing ----------

  /** The list with the block whose payload starts at `p` marked free. */
  function Freed(bs: seq<Block>, base: nat, p: nat): seq<Block> {
    if bs == [] then []
    else if p == base + SIZE_MARKER then [Block(bs[0].size, false)] + bs[1..]
    else [bs[0]] + Freed(bs[1..], base + SIZE_MARKER + bs[0].size, p)
  }

  /** The blocks before and after a live block. */
  lemma {:induction false} LiveSplit(bs: seq<Block>, base: nat, p: nat, n: nat) returns (a: seq<Block>, c: seq<Block>)
    requires Live(bs, base, p, n)
    ensures bs == a + ([Block(n, true)] + c) && base + Total(a) + SIZE_MARKER == p
    ensures Freed(bs, base, p) == a + ([Block(n, false)] + c)
  {
    if bs[0].live && p == base + SIZE_MARKER && n == bs[0].size {
      a, c := [], bs[1..];
      assert bs == [Block(n, true)] + c;
    } else {
      var next := base + SIZE_MARKER + bs[0].size;
      LiveInside(bs[1..], next, p, n);
      var a', c' := LiveSplit(bs[1..], next, p, n);
      a, c := [bs[0]] + a', c';
      assert bs == [bs[0]] + bs[1..];
      assert a + ([Block(n, true)] + c) == [bs[0]] + (a' + ([Block(n, true)] + c));
      assert a + ([Block(n, false)] + c) == [bs[0]] + (a' + ([Block(n, false)] + c));
      assert a[1..] == a';
    }
  }

  /** Freeing a live block leaves every other block live, and only those. */
  lemma FreedLive(bs: seq<Block>, base: nat, p: nat, n: nat, q: nat, m: nat)
    requires Live(bs, base, p, n)
    ensures Live(Freed(bs, base, p), base, q, m) <==> Live(bs, base, q, m) && q != p
    ensures Total(Freed(bs, base, p)) == Total(bs) && (Aligned(bs) ==> Aligned(Freed(bs, base, p)))
  {
    var a, c := LiveSplit(bs, base, p, n);
    OneFreed(a, n, c, base, base + Total(a), q, m);
    FreedSizes(a, n, c);
  }

  lemma OneFreed(a: seq<Block>, n: nat, c: seq<Block>, base: nat, at: nat, q: nat, m: nat)
    requires at == base + Total(a)
    ensures Live(a + ([Block(n, false)] + c), base, q, m) <==>
            Live(a + ([Block(n, true)] + c), base, q, m) && q != at + SIZE_MARKER
  {
    var x, y, next := Block(n, true), Block(n, false), at + SIZE_MARKER + n;
    LiveConcat(a, [x] + c, base, q, m);
    LiveConcat(a, [y] + c, base, q, m);
    Cons(x, c, at, q, m);
    Cons(y, c, at, q, m);
    if Live(a, base, q, m) { LiveInside(a, base, q, m); }
    if Live(c, next, q, m) { LiveInside(c, next, q, m); }
  }

  lemma FreedSizes(a: seq<Block>, n: nat, c: seq<Block>)
    ensures var bs, bs' := a + ([Block(n, true)] + c), a + ([Block(n, false)] + c);
            Total(bs') == Total(bs) && (Aligned(bs) ==> Aligned(bs'))
  {
    var x, y := Block(n, true), Block(n, false);
    TotalConcat(a, [x] + c);
    TotalConcat(a, [y] + c);
    Cons(x, c, 0, 0, 0);
    Cons(y, c, 0, 0, 0);
    assert forall i | 0 <= i < |a + ([x] + c)| :: (a + ([y] + c))[i].size == (a + ([x] + c))[i].size;
  }

  // ---------- first fit with coalescing ----------

  /** How many of the blocks `bs` a free block with `have` payload words absorbs until it holds `need` words. */
  function Absorbed(have: nat, bs: seq<Block>, need: nat): (k: nat)
    ensures k <= |bs|
    decreases |bs|
  {
    if have >= need || bs == [] || bs[0].live then 0
    else 1 + Absorbed(have + bs[0].size + SIZE_MARKER, bs[1..], need)
  }

  /** Absorbed blocks are free; absorption stops early only at a live block, at the end, or with enough room. */
  lemma {:induction false} AbsorbedSpec(have: nat, bs: seq<Block>, need: nat)
    ensures var k := Absorbed(have, bs, need);
            && (forall i | 0 <= i < k :: !bs[i].live)
            && (have + Total(bs[..k]) >= need || k == |bs| || bs[k].live)
            && (k > 0 ==> have + Total(bs[..k - 1]) < need)
    decreases |bs|
  {
    if have < need && bs != [] && !bs[0].live {
      AbsorbedSpec(have + bs[0].size + SIZE_MARKER, bs[1..], need);
      var k := Absorbed(have, bs, need);
      assert bs[..k] == [bs[0]] + bs[1..][..k - 1];
      if k > 1 { assert bs[..k - 1] == [bs[0]] + bs[1..][..k - 2]; }
    }
  }

  /** A block of `got` words cut down to `need` words, the surplus split off as a free block. */
  function Cut(got: nat, need: nat, live: bool): seq<Block>
    requires need < got ==> need + SIZE_MARKER <= got
  {
    if got <= need then [Block(got, live)] else [Block(need, live), Block(got - need - SIZE_MARKER, false)]
  }

  function Min(a: nat, b: nat): nat { if a < b then a else b }

  lemma CutKeeps(got: nat, need: nat, live: bool, rest: seq<Block>, base: nat, p: nat, n: nat)
    requires got % MEM_BLOCK == need % MEM_BLOCK == SIZE_MARKER && Aligned(rest)
    ensures Total(Cut(got, need, live) + rest) == SIZE_MARKER + got + Total(rest)
    ensures Aligned(Cut(got, need, live) + rest)
    ensures Live(Cut(got, need, live) + rest, base, p, n) <==>
            (live && p == base + SIZE_MARKER && n == Min(got, need)) || Live(rest, base + SIZE_MARKER + got, p, n)
  {
    if got <= need {
      Cons(Block(got, live), rest, base, p, n);
    } else {
      var b, r := Block(need, live), Block(got - need - SIZE_MARKER, false);
      assert Cut(got, need, live) + rest == [b] + ([r] + rest);
      Cons(b, [r] + rest, base, p, n);
      Cons(r, rest, base + SIZE_MARKER + need, p, n);
    }
  }

  datatype Fit = Fit(blocks: seq<Block>, at: Option<nat>)

  function Shifted(at: Option<nat>, d: nat): Option<nat> {
    if at.None? then None else Some(at.value + d)
  }

  /** merge_contiguous on the block list: `b` absorbs free neighbours from `c` until it holds `need` words; a
      surplus is split off again. */
  function Merged(b: Block, c: seq<Block>, need: nat): seq<Block>
    requires Aligned([b] + c) && need % MEM_BLOCK == SIZE_MARKER
  {
    var k := Absorbed(b.size, c, need);
    GrownAligned(b, c, k);
    var got := Grown(b, c, k);
    Cut(got, need, b.live) + c[k..]
  }

  /** The payload of `b` run together with the first `k` blocks after it. */
  function Grown(b: Block, c: seq<Block>, k: nat): nat
    requires k <= |c|
  {
    b.size + Total(c[..k])
  }

  lemma GrownAligned(b: Block, c: seq<Block>, k: nat)
    requires Aligned([b] + c) && k <= |c|
    ensures Aligned(c) && b.size % MEM_BLOCK == SIZE_MARKER && Grown(b, c, k) % MEM_BLOCK == SIZE_MARKER
  {
    assert ([b] + c)[0] == b && ([b] + c)[1..] == c;
    assert Aligned(c) by { forall i | 0 <= i < |c| ensures c[i].size % MEM_BLOCK == SIZE_MARKER {
        assert ([b] + c)[i + 1] == c[i]; } }
    TotalAligned(c[..k]);
  }

  /** A block together with the `k` free blocks it absorbs. */
  lemma HeadRun(b: Block, c: seq<Block>, need: nat, k: nat, got: nat, base: nat, p: nat, n: nat)
    requires k == Absorbed(b.size, c, need) && got == Grown(b, c, k)
    ensures Total([b] + c) == SIZE_MARKER + got + Total(c[k..])
    ensures Live([b] + c, base, p, n) <==>
            (b.live && p == base + SIZE_MARKER && n == b.size) || Live(c[k..], base + SIZE_MARKER + got, p, n)
  {
    AbsorbedSpec(b.size, c, need);
    assert c[..k] + c[k..] == c;
    Cons(b, c, base, p, n);
    TotalConcat(c[..k], c[k..]);
    FreeHasNoLive(c[..k], base + SIZE_MARKER + b.size, p, n);
    LiveConcat(c[..k], c[k..], base + SIZE_MARKER + b.size, p, n);
  }

  /** Merging keeps the words covered; a live block that could grow to `need` words does, and nothing else
      changes hands. */
  lemma MergedKeeps(b: Block, c: seq<Block>, need: nat, base: nat, q: nat, m: nat)
    requires Aligned([b] + c) && need % MEM_BLOCK == SIZE_MARKER
    ensures Total(Merged(b, c, need)) == Total([b] + c) && Aligned(Merged(b, c, need))
    ensures b.live && Grown(b, c, Absorbed(b.size, c, need)) >= need ==>
              (Live(Merged(b, c, need), base, q, m) <==>
               (q == base + SIZE_MARKER && m == need) || (Live([b] + c, base, q, m) && q != base + SIZE_MARKER))
  {
    var k := Absorbed(b.size, c, need);
    var got := Grown(b, c, k);
    GrownAligned(b, c, k);
    HeadRun(b, c, need, k, got, base, q, m);
    CutKeeps(got, need, b.live, c[k..], base, q, m);
    if Live(c[k..], base + SIZE_MARKER + got, q, m) { LiveInside(c[k..], base + SIZE_MARKER + got, q, m); }
  }

  /** malloc_from_freed on the block list: `at` is the payload address, relative to the start of the list. */
  function FirstFit(bs: seq<Block>, need: nat): Fit
    requires Aligned(bs) && need % MEM_BLOCK == SIZE_MARKER
    decreases |bs|
  {
    if bs == [] then Fit([], None)
    else
      var b, c := bs[0], bs[1..];
      if b.live then
        var f := FirstFit(c, need);
        Fit([b] + f.blocks, Shifted(f.at, SIZE_MARKER + b.size))
      else
        var k := Absorbed(b.size, c, need);
        assert bs == [b] + c;
        GrownAligned(b, c, k);
        var got := Grown(b, c, k);
        if got < need then
          var f := FirstFit(c[k..], need);
          Fit([Block(got, false)] + f.blocks, Shifted(f.at, SIZE_MARKER + got))
        else
          Fit(Cut(got, need, true) + c[k..], Some(SIZE_MARKER))
  }

  // ---------- what first fit promises ----------

  /** The heap stays exactly tiled. */
  lemma {:induction false} FirstFitTiles(bs: seq<Block>, need: nat)
    requires Aligned(bs) && need % MEM_BLOCK == SIZE_MARKER
    ensures Total(FirstFit(bs, need).blocks) == Total(bs) && Aligned(FirstFit(bs, need).blocks)
    decreases |bs|
  {
    if bs == [] { return; }
    var b, c := bs[0], bs[1..];
    assert bs == [b] + c;
    if b.live {
      FirstFitTiles(c, need);
      Cons(b, FirstFit(c, need).blocks, 0, 0, 0);
    } else {
      var k := Absorbed(b.size, c, need);
      var got := Grown(b, c, k);
      GrownAligned(b, c, k);
      HeadRun(b, c, need, k, got, 0, 0, 0);
      if got < need {
        FirstFitTiles(c[k..], need);
        Cons(Block(got, false), FirstFit(c[k..], need).blocks, 0, 0, 0);
      } else {
        CutKeeps(got, need, true, c[k..], 0, 0, 0);
      }
    }
  }

  /** No two adjacent blocks are free. */
  ghost predicate Coalesced(bs: seq<Block>) { forall i | 0 <= i < |bs| - 1 :: bs[i].live || bs[i + 1].live }

  lemma CoalescedCons(b: Block, bs: seq<Block>)
    requires Coalesced(bs) && (b.live || bs == [] || bs[0].live)
    ensures Coalesced([b] + bs)
  {
    forall i | 0 <= i < |bs| ensures ([b] + bs)[i].live || ([b] + bs)[i + 1].live {
      if i > 0 { assert bs[i - 1].live || bs[i - 1 + 1].live; }
    }
  }

  /** A search that fails leaves every run of free blocks merged into one. */
  lemma {:induction false} FirstFitCoalesces(bs: seq<Block>, need: nat)
    requires Aligned(bs) && need % MEM_BLOCK == SIZE_MARKER
    ensures FirstFit(bs, need).at.None? ==> Coalesced(FirstFit(bs, need).blocks)
    decreases |bs|
  {
    if bs == [] { return; }
    var b, c := bs[0], bs[1..];
    assert bs == [b] + c;
    var k := Absorbed(b.size, c, need);
    var got := Grown(b, c, k);
    GrownAligned(b, c, k);
    if b.live {
      FirstFitCoalesces(c, need);
      if FirstFit(bs, need).at.None? { CoalescedCons(b, FirstFit(c, need).blocks); }
    } else if got < need {
      var rest := c[k..];
      AbsorbedSpec(b.size, c, need);
      FirstFitCoalesces(rest, need);
      if FirstFit(bs, need).at.None? { CoalescedCons(Block(got, false), FirstFit(rest, need).blocks); }
    }
  }

  /** After a first fit, (p, n) is live exactly if it was before or is the block handed out. */
  ghost predicate FitLive(bs: seq<Block>, need: nat, base: nat, p: nat, n: nat)
    requires Aligned(bs) && need % MEM_BLOCK == SIZE_MARKER
  {
    LiveIn(FirstFit(bs, need), need, base, p, n, Live(bs, base, p, n))
  }

  /** The block `p` of `n` words is live in the answer exactly if it was live or is the one handed out. */
  ghost predicate LiveIn(f: Fit, need: nat, base: nat, p: nat, n: nat, was: bool) {
    Live(f.blocks, base, p, n) <==> was || (f.at.Some? && p == base + f.at.value && n == need)
  }

  /** A block passed over comes before the answer for the rest. */
  lemma LiveBehind(m: Block, f: Fit, need: nat, base: nat, p: nat, n: nat, next: nat, was: bool)
    requires next == base + SIZE_MARKER + m.size && LiveIn(f, need, next, p, n, was)
    ensures LiveIn(Fit([m] + f.blocks, Shifted(f.at, SIZE_MARKER + m.size)), need, base, p, n,
                   was || (m.live && p == base + SIZE_MARKER && n == m.size))
  {
    Cons(m, f.blocks, base, p, n);
  }

  lemma {:induction false} LiveFit(b: Block, c: seq<Block>, need: nat, f: Fit)
    requires Aligned([b] + c) && Aligned(c) && need % MEM_BLOCK == SIZE_MARKER && b.live && f == FirstFit(c, need)
    ensures FirstFit([b] + c, need) == Fit([b] + f.blocks, Shifted(f.at, SIZE_MARKER + b.size))
  {
    assert ([b] + c)[0] == b && ([b] + c)[1..] == c;
  }

  lemma {:induction false} ShortFit(b: Block, c: seq<Block>, need: nat, k: nat, got: nat, f: Fit)
    requires Aligned([b] + c) && need % MEM_BLOCK == SIZE_MARKER && !b.live && k == Absorbed(b.size, c, need)
    requires got == Grown(b, c, k) < need && Aligned(c[k..]) && f == FirstFit(c[k..], need)
    ensures FirstFit([b] + c, need) == Fit([Block(got, false)] + f.blocks, Shifted(f.at, SIZE_MARKER + got))
  {
    assert ([b] + c)[0] == b && ([b] + c)[1..] == c;
  }

  lemma {:induction false} FitPastLive(b: Block, c: seq<Block>, need: nat, base: nat, p: nat, n: nat, next: nat)
    requires Aligned([b] + c) && Aligned(c) && need % MEM_BLOCK == SIZE_MARKER && b.live
    requires next == base + SIZE_MARKER + b.size && FitLive(c, need, next, p, n)
    ensures FitLive([b] + c, need, base, p, n)
  {
    var f := FirstFit(c, need);
    LiveFit(b, c, need, f);
    LiveBehind(b, f, need, base, p, n, next, Live(c, next, p, n));
    Cons(b, c, base, p, n);
  }

  lemma {:induction false} FitPastShort(b: Block, c: seq<Block>, need: nat, k: nat, base: nat, p: nat, n: nat,
                                        next: nat)
    requires Aligned([b] + c) && need % MEM_BLOCK == SIZE_MARKER && !b.live && k == Absorbed(b.size, c, need)
    requires Grown(b, c, k) < need && Aligned(c[k..])
    requires next == base + SIZE_MARKER + Grown(b, c, k) && FitLive(c[k..], need, next, p, n)
    ensures FitLive([b] + c, need, base, p, n)
  {
    var rest, got := c[k..], Grown(b, c, k);
    var f := FirstFit(rest, need);
    ShortFit(b, c, need, k, got, f);
    LiveBehind(Block(got, false), f, need, base, p, n, next, Live(rest, next, p, n));
    LiveBeyond(b, c, need, k, rest, base, p, n, next);
  }

  lemma LiveBeyond(b: Block, c: seq<Block>, need: nat, k: nat, rest: seq<Block>, base: nat, p: nat, n: nat, next: nat)
    requires !b.live && k == Absorbed(b.size, c, need) && rest == c[k..] && next == base + SIZE_MARKER + Grown(b, c, k)
    ensures Live([b] + c, base, p, n) <==> Live(rest, next, p, n)
  {
    HeadRun(b, c, need, k, Grown(b, c, k), base, p, n);
  }

  lemma FitHere(b: Block, c: seq<Block>, need: nat, k: nat, base: nat, p: nat, n: nat)
    requires Aligned([b] + c) && need % MEM_BLOCK == SIZE_MARKER && !b.live && k == Absorbed(b.size, c, need)
    requires Grown(b, c, k) >= need
    ensures FitLive([b] + c, need, base, p, n)
  {
    assert ([b] + c)[0] == b && ([b] + c)[1..] == c;
    GrownAligned(b, c, k);
    HeadRun(b, c, need, k, Grown(b, c, k), base, p, n);
    CutKeeps(Grown(b, c, k), need, true, c[k..], base, p, n);
  }

  /** The live blocks are the old ones, in place, plus the one handed out. */
  lemma {:induction false} FirstFitLive(bs: seq<Block>, need: nat, base: nat, p: nat, n: nat)
    requires Aligned(bs) && need % MEM_BLOCK == SIZE_MARKER
    ensures FitLive(bs, need, base, p, n)
    decreases |bs|
  {
    if bs == [] { return; }
    var b, c := bs[0], bs[1..];
    assert bs == [b] + c;
    var k := Absorbed(b.size, c, need);
    GrownAligned(b, c, k);
    if b.live {
      var next := base + SIZE_MARKER + b.size;
      FirstFitLive(c, need, next, p, n);
      FitPastLive(b, c, need, base, p, n, next);
    } else if Grown(b, c, k) < need {
      var next := base + SIZE_MARKER + Grown(b, c, k);
      FirstFitLive(c[k..], need, next, p, n);
      FitPastShort(b, c, need, k, base, p, n, next);
    } else {
      FitHere(b, c, need, k, base, p, n);
    }
  }

  lemma {:induction false} FreeHasNoLive(bs: seq<Block>, base: nat, p: nat, n: nat)
    requires forall i | 0 <= i < |bs| :: !bs[i].live
    ensures !Live(bs, base, p, n)
  {
    if bs != [] { FreeHasNoLive(bs[1..], base + SIZE_MARKER + bs[0].size, p, n); }
  }

  /** Blocks i..j are a maximal run of adjacent free blocks. */
  ghost predicate FreeRun(bs: seq<Block>, i: nat, j: nat) {
    && i < j <= |bs|
    && (forall m | i <= m < j :: !bs[m].live)
    && (i == 0 || bs[i - 1].live)
    && (j == |bs| || bs[j].live)
  }

  /** The payload a run of free blocks can hold once merged. */
  function Capacity(bs: seq<Block>, i: nat, j: nat): int
    requires i <= j <= |bs|
  {
    Total(bs[i..j]) - SIZE_MARKER
  }

  lemma RunInTail(bs: seq<Block>, k: nat, i: nat, j: nat)
    requires k <= i && FreeRun(bs, i, j)
    ensures FreeRun(bs[k..], i - k, j - k) && Capacity(bs[k..], i - k, j - k) == Capacity(bs, i, j)
  {
    assert bs[k..][i - k..j - k] == bs[i..j];
  }

  lemma RunFromTail(bs: seq<Block>, k: nat, i: nat, j: nat)
    requires k <= |bs| && FreeRun(bs[k..], i, j) && (k == 0 || bs[k - 1].live || i > 0)
    ensures FreeRun(bs, i + k, j + k) && Capacity(bs[k..], i, j) == Capacity(bs, i + k, j + k)
    ensures Total(bs[..i + k]) == Total(bs[..k]) + Total(bs[k..][..i])
  {
    assert bs[k..][i..j] == bs[i + k..j + k];
    assert bs[..i + k] == bs[..k] + bs[k..][..i];
    TotalConcat(bs[..k], bs[k..][..i]);
    forall m | i + k <= m < j + k ensures !bs[m].live { assert bs[m] == bs[k..][m - k]; }
    if i > 0 { assert bs[k..][i - 1] == bs[i + k - 1]; }
    if j < |bs[k..]| { assert bs[k..][j] == bs[j + k]; }
  }

  /** The answer of a complete first fit: `at` starts the first maximal free run that can hold `need`. */
  ghost predicate IsFirstFit(bs: seq<Block>, need: nat, at: Option<nat>) {
    if at.None? then forall i: nat, j: nat | FreeRun(bs, i, j) :: Capacity(bs, i, j) < need
    else exists i: nat, j: nat :: FreeRun(bs, i, j) && FirstAt(bs, need, at.value, i, j)
  }

  ghost predicate FirstAt(bs: seq<Block>, need: nat, at: nat, i: nat, j: nat)
    requires FreeRun(bs, i, j)
  {
    && Capacity(bs, i, j) >= need
    && at == Total(bs[..i]) + SIZE_MARKER
    && forall i': nat, j': nat | FreeRun(bs, i', j') && i' < i :: Capacity(bs, i', j') < need
  }

  /** If the first `k` blocks hold no run that fits, the first fit is the first fit of the rest. */
  lemma FirstFitOfTail(bs: seq<Block>, k: nat, need: nat, at: Option<nat>)
    requires 0 < k <= |bs| && (k == |bs| || bs[k - 1].live || bs[k].live)
    requires forall i: nat, j: nat | FreeRun(bs, i, j) && i < k :: j <= k && Capacity(bs, i, j) < need
    requires IsFirstFit(bs[k..], need, at)
    ensures IsFirstFit(bs, need, Shifted(at, Total(bs[..k])))
  {
    if at.None? {
      forall i: nat, j: nat | FreeRun(bs, i, j) ensures Capacity(bs, i, j) < need {
        if i >= k { RunInTail(bs, k, i, j); }
      }
    } else {
      var i: nat, j: nat :| FreeRun(bs[k..], i, j) && FirstAt(bs[k..], need, at.value, i, j);
      assert k < |bs| ==> bs[k..][0] == bs[k];
      RunFromTail(bs, k, i, j);
      forall i': nat, j': nat | FreeRun(bs, i', j') && i' < i + k ensures Capacity(bs, i', j') < need {
        if i' >= k { RunInTail(bs, k, i', j'); }
      }
      assert FirstAt(bs, need, at.value + Total(bs[..k]), i + k, j + k);
    }
  }

  /** A free prefix that ends at a live block or at the end is the only run that starts in it. */
  lemma OnlyRun(bs: seq<Block>, k: nat)
    requires 0 < k <= |bs| && (forall m | 0 <= m < k :: !bs[m].live) && (k == |bs| || bs[k].live)
    ensures forall i: nat, j: nat | FreeRun(bs, i, j) && i < k :: i == 0 && j == k
  {
    forall i: nat, j: nat | FreeRun(bs, i, j) && i < k ensures i == 0 && j == k {}
  }

  lemma {:induction false} RunAtStart(bs: seq<Block>, k: nat) returns (j: nat)
    requires 0 < k <= |bs| && forall m | 0 <= m < k :: !bs[m].live
    ensures FreeRun(bs, 0, j) && Total(bs[..j]) >= Total(bs[..k])
    decreases |bs| - k
  {
    if k == |bs| || bs[k].live {
      j := k;
    } else {
      assert bs[..k + 1] == bs[..k] + [bs[k]];
      TotalConcat(bs[..k], [bs[k]]);
      j := RunAtStart(bs, k + 1);
    }
  }

  /** The blocks that `b` absorbs are free, and they are followed by a live block unless they suffice. */
  lemma FreeRunHere(bs: seq<Block>, b: Block, c: seq<Block>, k: nat, need: nat)
    requires bs != [] && b == bs[0] && c == bs[1..] && Aligned(bs) && !b.live && k == Absorbed(b.size, c, need)
    ensures k <= |c| && Aligned(c[k..]) && bs[k + 1..] == c[k..]
    ensures Total(bs[..k + 1]) == SIZE_MARKER + Grown(b, c, k)
    ensures forall m | 0 <= m < k + 1 :: !bs[m].live
    ensures Grown(b, c, k) < need ==> k + 1 == |bs| || bs[k + 1].live
  {
    AbsorbedSpec(b.size, c, need);
    assert bs == [b] + c && bs[..k + 1] == [b] + c[..k];
    GrownAligned(b, c, k);
    Cons(b, c[..k], 0, 0, 0);
  }

  lemma {:induction false} LiveFirst(bs: seq<Block>, b: Block, c: seq<Block>, need: nat, at: Option<nat>)
    requires bs == [b] + c && b.live && IsFirstFit(c, need, at)
    ensures IsFirstFit(bs, need, Shifted(at, SIZE_MARKER + b.size))
  {
    assert bs[1..] == c && Total(bs[..1]) == SIZE_MARKER + b.size;
    FirstFitOfTail(bs, 1, need, at);
  }

  lemma FoundHere(bs: seq<Block>, b: Block, c: seq<Block>, k: nat, need: nat)
    requires k < |bs| && k <= |c| && Total(bs[..k + 1]) == SIZE_MARKER + Grown(b, c, k) && Grown(b, c, k) >= need
    requires forall m | 0 <= m < k + 1 :: !bs[m].live
    ensures IsFirstFit(bs, need, Some(SIZE_MARKER))
  {
    var j := RunAtStart(bs, k + 1);
    assert FirstAt(bs, need, SIZE_MARKER, 0, j);
  }

  /** malloc_from_freed is a complete first fit over maximal runs of adjacent free blocks. */
  lemma {:induction false} FirstFitIsComplete(bs: seq<Block>, need: nat)
    requires Aligned(bs) && need % MEM_BLOCK == SIZE_MARKER
    ensures IsFirstFit(bs, need, FirstFit(bs, need).at)
    decreases |bs|
  {
    if bs == [] { return; }
    var b, c := bs[0], bs[1..];
    if b.live {
      FirstFitIsComplete(c, need);
      LiveFirst(bs, b, c, need, FirstFit(c, need).at);
    } else {
      var k := Absorbed(b.size, c, need);
      FreeRunHere(bs, b, c, k, need);
      if Grown(b, c, k) < need {
        FirstFitIsComplete(c[k..], need);
        OnlyRun(bs, k + 1);
        FirstFitOfTail(bs, k + 1, need, FirstFit(c[k..], need).at);
      } else {
        FoundHere(bs, b, c, k, need);
      }
    }
  }
}
