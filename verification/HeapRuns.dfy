/** Requests to the contract heap, in any order: what clients can rely on
    (contracts/eosiolib/eosiolib.cpp, memory_manager). */
module HeapRuns {
  import opened Options
  import opened HeapBlocks
  import opened HeapTiling
  import opened HeapMemory

  // ---------- rounding a request ----------

  /** adjust_to_mem_block on a 32-bit byte count. */
  function Adjust(size: nat): nat
    requires size < 0x1_0000_0000
  {
    var remainder := (size + 4) % 8;
    if remainder > 0 then (size + 8 - remainder) % 0x1_0000_0000 else size
  }

  /** The rounded size makes header plus payload a multiple of eight bytes, and is the least such size that
      holds the request, exactly when the request is at most 2^32 - 4; above that the addition wraps to 4. */
  lemma AdjustRoundsUp(size: nat)
    requires size < 0x1_0000_0000
    ensures (Adjust(size) + 4) % 8 == 0
    ensures size <= 0xFFFF_FFFC ==> size <= Adjust(size) < size + 8
    ensures size <= 0xFFFF_FFFC <==> size <= Adjust(size)
    ensures size > 0xFFFF_FFFC ==> Adjust(size) == 4
  {
    var q, r := (size + 4) / 8, (size + 4) % 8;
    if r > 0 {
      assert size + 8 - r == 8 * (q + 1) - 4;
      if q < 0x2000_0000 {
        assert Adjust(size) == 8 * (q + 1) - 4;
      } else {
        assert q == 0x2000_0000 && Adjust(size) == 4;
      }
    }
  }

  /** The capacity test of `malloc` is right exactly when the sum it computes does not wrap (in words). */
  lemma CapacityTestExact(offset: nat, size: nat, heapSize: nat)
    requires size % MEM_BLOCK == SIZE_MARKER && size < ADDRESS_WORDS && offset <= heapSize < HEAP_LIMIT
    ensures ((offset + size + SIZE_MARKER) % ADDRESS_WORDS <= heapSize <==> offset + size + SIZE_MARKER <= heapSize)
            <==> offset + size + SIZE_MARKER < ADDRESS_WORDS
  {
  }

  /** The initial heap of 8192 bytes, at address 2^16, holds one payload of 8188 bytes; a request to resize it to
      2^32 - 16 bytes, rounded up by four, passes the test of realloc_in_place. */
  lemma ResizeCanWrap() returns (base: nat, heapSize: nat, ptr: nat, size: nat)
    ensures base + 4 * heapSize < ADDRESS_BYTES && heapSize == 2048 && ptr == SIZE_MARKER
    ensures Adjust(0xFFFF_FFF0) == 4 * size && size % MEM_BLOCK == SIZE_MARKER
    ensures ResizeTest(base, heapSize, ptr, size) && ptr + size > heapSize
  {
    base, heapSize, ptr, size := 0x1_0000, 2048, 1, 0x3FFF_FFFD;
    ResizeTestExact(base, heapSize, ptr, size);
  }

  /** Before the heap is fully handed out, the walk of merge_contiguous can read past the last block: two blocks
      of one word, the second free, zeros behind them, and a request to grow the first to seven words. */
  lemma WalkCanOverrun() returns (w: seq<nat>, b: Block, c: seq<Block>)
    ensures |w| == 16 && Tiles(w, 0, [] + ([b] + c)) && b.live && Total([] + ([b] + c)) == 4
    ensures 1 + Walk(w, 1, b.size, 7, 16) > 4
  {
    b, c := Block(1, true), [Block(1, false)];
    w := [Encode(b), 0, Encode(c[0]), 0, 0, 0, 0, 0, 0, 0, 0, 0, 0, 0, 0, 0];
    assert [] + ([b] + c) == [b, c[0]] && [b, c[0]][1..] == [c[0]] && c[1..] == [];
    OneTile(w, 2, c[0]);
    assert Absorbed(3, c[1..], 7) == 0;
    WalkStaysInsideExactly(w, [], b, c, 7, 16);
  }

  // ---------- runs ----------

  /** Requests, with the payload address they concern; sizes in words, after rounding. */
  datatype Op =
    | Bump(size: nat)
    | Reuse(size: nat)
    | Release(p: nat)
    | Resize(p: nat, size: nat)
    | Cleanup(rest: nat)
    | Nothing

  /** What the heap holds: its blocks, and for each payload handed out the size asked for. */
  datatype View = View(blocks: seq<Block>, asked: map<nat, nat>)

  /** The effect of a request, as the methods of Memory promise it. */
  ghost predicate Step(v: View, op: Op, v': View) {
    match op
    case Bump(size) =>
      && size % MEM_BLOCK == SIZE_MARKER
      && v' == View(v.blocks + [Block(size, true)], v.asked[Total(v.blocks) + SIZE_MARKER := size])
    case Reuse(size) =>
      && size % MEM_BLOCK == SIZE_MARKER && Aligned(v.blocks)
      && var f := FirstFit(v.blocks, size);
      v' == View(f.blocks, if f.at.None? then v.asked else v.asked[f.at.value := size])
    case Release(p) => p in v.asked && v' == View(Freed(v.blocks, 0, p), v.asked - {p})
    case Resize(p, size) =>
      && p in v.asked && Aligned(v'.blocks)
      && (exists m: nat :: size <= m && Resized(v.blocks, v'.blocks, p, m))
      && v'.asked == v.asked[p := size]
    case Cleanup(rest) =>
      rest % MEM_BLOCK == SIZE_MARKER && v' == View(v.blocks + [Block(rest, false)], v.asked)
    case Nothing => v' == v
  }

  ghost predicate HasRoom(bs: seq<Block>, p: nat, size: nat) {
    exists n: nat :: size <= n && Live(bs, 0, p, n)
  }

  /** Every payload handed out is live and at least as large as asked for, and nothing else is live. */
  ghost predicate Honest(v: View) {
    && Aligned(v.blocks)
    && (forall p | p in v.asked :: HasRoom(v.blocks, p, v.asked[p]))
    && (forall p: nat, n: nat | Live(v.blocks, 0, p, n) :: p in v.asked)
  }

  lemma AppendHonest(v: View, b: Block)
    requires Honest(v) && b.size % MEM_BLOCK == SIZE_MARKER
    ensures var at := Total(v.blocks) + SIZE_MARKER;
            Honest(View(v.blocks + [b], if b.live then v.asked[at := b.size] else v.asked))
  {
    var at := Total(v.blocks) + SIZE_MARKER;
    var v' := View(v.blocks + [b], if b.live then v.asked[at := b.size] else v.asked);
    assert [b][1..] == [];
    forall p: nat, n: nat
      ensures Live(v'.blocks, 0, p, n) <==> Live(v.blocks, 0, p, n) || (b.live && p == at && n == b.size)
    {
      LiveConcat(v.blocks, [b], 0, p, n);
    }
    forall p | p in v'.asked ensures HasRoom(v'.blocks, p, v'.asked[p]) {
      if b.live && p == at {
        assert Live(v'.blocks, 0, at, b.size);
      } else {
        var n: nat :| v.asked[p] <= n && Live(v.blocks, 0, p, n);
        assert Live(v'.blocks, 0, p, n);
      }
    }
  }

  lemma ReuseHonest(v: View, size: nat, v': View)
    requires Honest(v) && Step(v, Reuse(size), v')
    ensures Honest(v')
  {
    var f := FirstFit(v.blocks, size);
    FirstFitTiles(v.blocks, size);
    forall p: nat, n: nat ensures FitLive(v.blocks, size, 0, p, n) { FirstFitLive(v.blocks, size, 0, p, n); }
    forall p | p in v'.asked ensures HasRoom(v'.blocks, p, v'.asked[p]) {
      if f.at.Some? && p == f.at.value {
        assert FitLive(v.blocks, size, 0, p, size);
      } else {
        var n: nat :| v.asked[p] <= n && Live(v.blocks, 0, p, n);
        assert FitLive(v.blocks, size, 0, p, n);
      }
    }
    forall p: nat, n: nat | Live(v'.blocks, 0, p, n) ensures p in v'.asked {
      assert FitLive(v.blocks, size, 0, p, n);
    }
  }

  lemma ReleaseHonest(v: View, q: nat, v': View)
    requires Honest(v) && Step(v, Release(q), v')
    ensures Honest(v')
  {
    var m: nat :| v.asked[q] <= m && Live(v.blocks, 0, q, m);
    FreedLive(v.blocks, 0, q, m, 0, 0);
    forall p | p in v'.asked ensures HasRoom(v'.blocks, p, v'.asked[p]) {
      var n: nat :| v.asked[p] <= n && Live(v.blocks, 0, p, n);
      FreedLive(v.blocks, 0, q, m, p, n);
    }
    forall p: nat, n: nat | Live(v'.blocks, 0, p, n) ensures p in v'.asked {
      FreedLive(v.blocks, 0, q, m, p, n);
    }
  }

  lemma ResizeHonest(v: View, q: nat, size: nat, v': View)
    requires Honest(v) && Step(v, Resize(q, size), v')
    ensures Honest(v')
  {
    var m: nat :| size <= m && Resized(v.blocks, v'.blocks, q, m);
    forall p | p in v'.asked ensures HasRoom(v'.blocks, p, v'.asked[p]) {
      if p == q {
        assert Live(v'.blocks, 0, q, m);
      } else {
        var n: nat :| v.asked[p] <= n && Live(v.blocks, 0, p, n);
        assert Live(v'.blocks, 0, p, n);
      }
    }
  }

  /** Over every run from an empty heap, the heap stays honest. */
  lemma {:induction false} RunStaysHonest(vs: seq<View>, ops: seq<Op>, k: nat)
    requires |vs| == |ops| + 1 && vs[0] == View([], map[]) && k <= |ops|
    requires forall j | 0 <= j < |ops| :: Step(vs[j], ops[j], vs[j + 1])
    ensures Honest(vs[k])
  {
    if k > 0 {
      RunStaysHonest(vs, ops, k - 1);
      var v, v' := vs[k - 1], vs[k - 1 + 1];
      match ops[k - 1]
      case Bump(size) => AppendHonest(v, Block(size, true));
      case Reuse(size) => ReuseHonest(v, size, v');
      case Release(p) => ReleaseHonest(v, p, v');
      case Resize(p, size) => ResizeHonest(v, p, size, v');
      case Cleanup(rest) => AppendHonest(v, Block(rest, false));
      case Nothing =>
    }
  }

  /** So payloads handed out never overlap, not even in the words asked for and a header in between. */
  lemma HandedOutDisjoint(v: View, p: nat, q: nat)
    requires Honest(v) && p in v.asked && q in v.asked && p != q
    ensures p + v.asked[p] < q || q + v.asked[q] < p
    ensures p + v.asked[p] <= Total(v.blocks)
  {
    var n: nat :| v.asked[p] <= n && Live(v.blocks, 0, p, n);
    var m: nat :| v.asked[q] <= m && Live(v.blocks, 0, q, m);
    LiveDisjoint(v.blocks, 0, p, n, q, m);
    LiveInside(v.blocks, 0, p, n);
  }
}
