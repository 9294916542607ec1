/** One heap of the contract memory manager: a buffer of 32-bit words with block headers stored in band
    (contracts/eosiolib/eosiolib.cpp, memory_manager::memory). */
module HeapMemory {
  import opened Options
  import opened HeapBlocks
  import opened HeapTiling

  /** The number of bytes, and of words, that 32-bit addresses can name. */
  const ADDRESS_BYTES: nat := 0x1_0000_0000
  const ADDRESS_WORDS: nat := 0x4000_0000

  /** A heap has fewer than half as many words, so that sizes leave the state bit alone. */
  const HEAP_LIMIT: nat := 0x2000_0000

  /** The word that a size and a state bit are stored in: a size of half the address space or more looks live. */
  function SizeWord(size: nat, live: bool): nat {
    if live && 4 * size < ALLOC_MASK then 4 * size + ALLOC_MASK else 4 * size
  }

  // ---------- the test of realloc_in_place ----------

  /** Whether the pointer is at most the heap's end less the size, the difference of addresses taken in 32 bits. */
  predicate ResizeTest(base: nat, heapSize: nat, ptr: nat, size: nat) {
    base + 4 * ptr <= (base + 4 * heapSize - 4 * size) % ADDRESS_BYTES
  }

  /** The difference does not wrap. */
  predicate Fair(base: nat, heapSize: nat, size: nat) { 4 * size <= base + 4 * heapSize }

  /** The test says whether the payload would fit the heap exactly when the size is at most the address of the heap's
      end; every larger size passes it. */
  lemma ResizeTestExact(base: nat, heapSize: nat, ptr: nat, size: nat)
    requires base + 4 * heapSize < ADDRESS_BYTES && ptr <= heapSize && size < ADDRESS_WORDS
    ensures (ResizeTest(base, heapSize, ptr, size) <==> ptr + size <= heapSize) <==> Fair(base, heapSize, size)
    ensures !Fair(base, heapSize, size) ==> ResizeTest(base, heapSize, ptr, size) && heapSize < size
  {
    var d := base + 4 * heapSize - 4 * size;
    if d >= 0 {
      assert d % ADDRESS_BYTES == d;
    } else {
      assert d % ADDRESS_BYTES == d + ADDRESS_BYTES;
    }
  }

  lemma Decode(b: Block)
    requires b.size < HEAP_LIMIT
    ensures IsAlloc(Encode(b)) == b.live && SizeBytes(Encode(b)) == 4 * b.size
  {
  }

  /** How far the loop of merge_contiguous grows a payload of `size` words at `ptr`, reading whatever words it
      takes for headers up to the end of the heap. Sizes found there count in whole words; the code goes on at an
      address that is no multiple of four after a word that no operation wrote. */
  function Walk(w: seq<nat>, ptr: nat, size: nat, need: nat, end: nat): nat
    requires end <= |w|
    decreases need - size
  {
    if size >= need || ptr + size >= end || IsAlloc(w[ptr + size]) then size
    else Walk(w, ptr, size + SizeBytes(w[ptr + size]) / 4 + SIZE_MARKER, need, end)
  }

  /** The words once the block at `at` has its new size, `got` being found and `need` asked for: a surplus gets a
      header, if that is in the buffer. */
  function Combined(w: seq<nat>, at: nat, got: nat, need: nat, live: bool): seq<nat>
    requires at < |w|
  {
    var w1, rest := w[at := SizeWord(Min(got, need), live)], at + SIZE_MARKER + need;
    if need < got && rest < |w| then w1[rest := Encode(Block(got - need - SIZE_MARKER, false))] else w1
  }

  lemma CombinedIsCut(w: seq<nat>, at: nat, got: nat, need: nat, live: bool)
    requires at + SIZE_MARKER + got <= |w| && got < HEAP_LIMIT
    ensures Combined(w, at, got, need, live) == CutWords(w, at, got, need, live)
  {
  }

  /** The walk ends with enough room, at a live block, or at the end of a heap that is fully handed out. */
  ghost predicate EndsInTime(b: Block, c: seq<Block>, need: nat, offset: nat, end: nat) {
    offset == end || Absorbed(b.size, c, need) < |c| || b.size + Total(c) >= need
  }

  /** The word behind the last block, which no operation has written yet, looks like a live header. */
  predicate StopsByChance(w: seq<nat>, offset: nat) { offset < |w| && IsAlloc(w[offset]) }

  /** One turn of the walk, at the header of `c[k]`. */
  lemma WalkTurn(w: seq<nat>, a: seq<Block>, b: Block, c: seq<Block>, k: nat, ptr: nat, size: nat, need: nat,
                 end: nat)
    requires Tiles(w, 0, a + ([b] + c)) && ptr == Total(a) + SIZE_MARKER && Total(a + ([b] + c)) <= end <= |w|
    requires end < HEAP_LIMIT && k < |c| && size == b.size + Total(c[..k]) < need
    ensures var next := size + c[k].size + SIZE_MARKER;
            && Walk(w, ptr, size, need, end) == (if c[k].live then size else Walk(w, ptr, next, need, end))
            && Absorbed(size, c[k..], need) == (if c[k].live then 0 else 1 + Absorbed(next, c[k + 1..], need))
            && b.size + Total(c[..k + 1]) == next
  {
    BlockAfter(w, a, b, c, k, ptr + size);
    Decode(c[k]);
    assert c[k..][0] == c[k] && c[k..][1..] == c[k + 1..];
    assert c[..k + 1] == c[..k] + [c[k]];
    TotalConcat(c[..k], [c[k]]);
  }

  /** Where the payload ends after all free blocks behind it. */
  lemma EndOfAll(a: seq<Block>, b: Block, c: seq<Block>, ptr: nat)
    requires ptr == Total(a) + SIZE_MARKER
    ensures ptr + b.size + Total(c) == Total(a + ([b] + c)) && c[..|c|] == c
  {
    TotalConcat(a, [b] + c);
    Cons(b, c, 0, 0, 0);
  }

  /** Behind the last block the walk stops. */
  lemma WalkAtEnd(w: seq<nat>, a: seq<Block>, b: Block, c: seq<Block>, ptr: nat, size: nat, need: nat, end: nat,
                  offset: nat)
    requires ptr == Total(a) + SIZE_MARKER && offset == Total(a + ([b] + c)) <= end <= |w|
    requires size == b.size + Total(c) && (size >= need || offset == end || StopsByChance(w, offset))
    ensures Walk(w, ptr, size, need, end) == size
  {
    EndOfAll(a, b, c, ptr);
  }

  /** Then what it reads are headers, and it grows the block by exactly the free blocks that follow. */
  lemma {:induction false} WalkIsGrown(w: seq<nat>, a: seq<Block>, b: Block, c: seq<Block>, k: nat, ptr: nat,
                                       size: nat, need: nat, end: nat, offset: nat)
    requires Tiles(w, 0, a + ([b] + c)) && ptr == Total(a) + SIZE_MARKER && offset == Total(a + ([b] + c))
    requires offset <= end <= |w| && end < HEAP_LIMIT
    requires EndsInTime(b, c, need, offset, end) || StopsByChance(w, offset)
    requires k <= |c| && size == b.size + Total(c[..k])
    requires Absorbed(b.size, c, need) == k + Absorbed(size, c[k..], need)
    ensures Walk(w, ptr, size, need, end) == Grown(b, c, Absorbed(b.size, c, need))
    decreases |c| - k
  {
    if size >= need {
      assert Absorbed(size, c[k..], need) == 0;
    } else if k == |c| {
      assert c[..k] == c && c[k..] == [];
      WalkAtEnd(w, a, b, c, ptr, size, need, end, offset);
    } else {
      WalkTurn(w, a, b, c, k, ptr, size, need, end);
      if !c[k].live {
        var next := size + c[k].size + SIZE_MARKER;
        WalkIsGrown(w, a, b, c, k + 1, ptr, next, need, end, offset);
      }
    }
  }

  lemma {:induction false} WalkNeverShrinks(w: seq<nat>, ptr: nat, size: nat, need: nat, end: nat)
    requires end <= |w|
    ensures size <= Walk(w, ptr, size, need, end)
    decreases need - size
  {
    if size < need && ptr + size < end && !IsAlloc(w[ptr + size]) {
      WalkNeverShrinks(w, ptr, size + SizeBytes(w[ptr + size]) / 4 + SIZE_MARKER, need, end);
    }
  }

  /** Behind the last block the walk takes a word without the state bit for one more free block. */
  lemma OverrunsHere(w: seq<nat>, ptr: nat, size: nat, need: nat, end: nat, offset: nat)
    requires ptr + size == offset < end <= |w| && size < need && !IsAlloc(w[offset])
    ensures ptr + Walk(w, ptr, size, need, end) > offset
  {
    WalkNeverShrinks(w, ptr, size + SizeBytes(w[offset]) / 4 + SIZE_MARKER, need, end);
  }

  lemma PartOfAll(c: seq<Block>, k: nat)
    requires k <= |c|
    ensures Total(c[..k]) <= Total(c)
  {
    assert c == c[..k] + c[k..];
    TotalConcat(c[..k], c[k..]);
  }

  /** Otherwise it runs past the last block and takes what lies there for free blocks. */
  lemma {:induction false} WalkOverruns(w: seq<nat>, a: seq<Block>, b: Block, c: seq<Block>, k: nat, ptr: nat,
                                        size: nat, need: nat, end: nat, offset: nat)
    requires Tiles(w, 0, a + ([b] + c)) && ptr == Total(a) + SIZE_MARKER && offset == Total(a + ([b] + c))
    requires offset < end <= |w| && end < HEAP_LIMIT && !IsAlloc(w[offset])
    requires (forall i | 0 <= i < |c| :: !c[i].live) && b.size + Total(c) < need
    requires k <= |c| && size == b.size + Total(c[..k])
    ensures ptr + Walk(w, ptr, size, need, end) > offset
    decreases |c| - k
  {
    if k == |c| {
      EndOfAll(a, b, c, ptr);
      OverrunsHere(w, ptr, size, need, end, offset);
    } else {
      PartOfAll(c, k);
      WalkTurn(w, a, b, c, k, ptr, size, need, end);
      var next := size + c[k].size + SIZE_MARKER;
      WalkOverruns(w, a, b, c, k + 1, ptr, next, need, end, offset);
    }
  }

  /** merge_contiguous stays within the blocks handed out exactly when its walk ends in time, or by chance. */
  lemma WalkStaysInsideExactly(w: seq<nat>, a: seq<Block>, b: Block, c: seq<Block>, need: nat, end: nat)
    requires Tiles(w, 0, a + ([b] + c)) && Total(a + ([b] + c)) <= end <= |w| && end < HEAP_LIMIT
    ensures var ptr, offset := Total(a) + SIZE_MARKER, Total(a + ([b] + c));
            ptr + Walk(w, ptr, b.size, need, end) <= offset <==>
            EndsInTime(b, c, need, offset, end) || StopsByChance(w, offset)
  {
    var ptr, offset := Total(a) + SIZE_MARKER, Total(a + ([b] + c));
    assert c[0..] == c;
    if EndsInTime(b, c, need, offset, end) || StopsByChance(w, offset) {
      WalkIsGrown(w, a, b, c, 0, ptr, b.size, need, end, offset);
      SizesBounded(a, b, c, Absorbed(b.size, c, need));
    } else {
      AbsorbedSpec(b.size, c, need);
      WalkOverruns(w, a, b, c, 0, ptr, b.size, need, end, offset);
    }
  }

  lemma BlockAfter(w: seq<nat>, a: seq<Block>, b: Block, c: seq<Block>, k: nat, at: nat)
    requires Tiles(w, 0, a + ([b] + c)) && k < |c| && at == Total(a) + SIZE_MARKER + b.size + Total(c[..k])
    ensures at < |w| && w[at] == Encode(c[k]) && at + SIZE_MARKER + c[k].size <= Total(a + ([b] + c))
  {
    var pre, tail := a + ([b] + c[..k]), [c[k]] + c[k + 1..];
    SplitBefore(a, b, c, k, pre, tail);
    HeaderAt(w, pre, c[k], c[k + 1..], at);
    TotalConcat(pre, tail);
    Cons(c[k], c[k + 1..], 0, 0, 0);
  }

  lemma SplitBefore(a: seq<Block>, b: Block, c: seq<Block>, k: nat, pre: seq<Block>, tail: seq<Block>)
    requires k < |c| && pre == a + ([b] + c[..k]) && tail == [c[k]] + c[k + 1..]
    ensures a + ([b] + c) == pre + tail && Total(pre) == Total(a) + SIZE_MARKER + b.size + Total(c[..k])
  {
    Regroup(a, [b], c[..k], tail, c);
    TotalConcat(a, [b] + c[..k]);
    Cons(b, c[..k], 0, 0, 0);
  }

  lemma Regroup(a: seq<Block>, b: seq<Block>, front: seq<Block>, tail: seq<Block>, c: seq<Block>)
    requires c == front + tail
    ensures a + (b + c) == a + (b + front) + tail
  {
  }

  class Memory {
    /** The byte address of the heap. */
    const base: nat
    var heap: array<nat>
    var heapSize: nat
    var offset: nat
    ghost var blocks: seq<Block>

    /** The first `offset` words are exactly tiled by `blocks`. */
    ghost predicate Valid()
      reads this, heap
    {
      && heapSize % MEM_BLOCK == 0 && heapSize < HEAP_LIMIT && heapSize <= heap.Length
      && base + 4 * heapSize < ADDRESS_BYTES
      && Aligned(blocks) && Total(blocks) == offset <= heapSize && offset % MEM_BLOCK == 0
      && Tiles(heap[..], 0, blocks)
    }

    constructor (address: nat, buffer: array<nat>, size: nat)
      requires size % MEM_BLOCK == 0 && size < HEAP_LIMIT && size <= buffer.Length
      requires address + 4 * size < ADDRESS_BYTES
      ensures Valid() && base == address && heap == buffer && heapSize == size && offset == 0 && blocks == []
    {
      base := address;
      heap, heapSize, offset, blocks := buffer, size, 0, [];
    }

    // ---------- buffer_ptr: one header, at address `pos` ----------

    /** Store a new size, keeping the state bit that was in the word. */
    method SetSize(pos: nat, val: nat)
      requires pos < heap.Length
      modifies heap
      ensures heap[..] == old(heap[..])[pos := SizeWord(val, IsAlloc(old(heap[pos])))]
    {
      heap[pos] := SizeWord(val, IsAlloc(heap[pos]));
    }

    method MarkAlloc(pos: nat)
      requires pos < heap.Length
      modifies heap
      ensures heap[..] == old(heap[..])[pos := SizeBytes(old(heap[pos])) + ALLOC_MASK]
    {
      heap[pos] := SizeBytes(heap[pos]) + ALLOC_MASK;
    }

    /** Marking a header that is marked changes nothing. */
    method MarkAgain(pos: nat, ghost w: seq<nat>)
      requires heap[..] == w && pos < |w| && w[pos := SizeBytes(w[pos]) + ALLOC_MASK] == w
      modifies heap
      ensures heap[..] == w
    {
      assert heap[pos] == w[pos];
      MarkAlloc(pos);
    }

    method MarkFree(pos: nat)
      requires pos < heap.Length
      modifies heap
      ensures heap[..] == old(heap[..])[pos := SizeBytes(old(heap[pos]))]
    {
      heap[pos] := SizeBytes(heap[pos]);
    }

    /** Write a whole header into a word whose old contents may be anything: a size, then the state bit. */
    method PutHeader(pos: nat, b: Block)
      requires pos < heap.Length && b.size < HEAP_LIMIT
      modifies heap
      ensures heap[..] == old(heap[..])[pos := Encode(b)]
    {
      SetSize(pos, b.size);
      assert heap[pos] == heap[..][pos];
      Decode(Block(b.size, IsAlloc(old(heap[pos]))));
      if b.live { MarkAlloc(pos); } else { MarkFree(pos); }
    }

    // ---------- memory ----------

    /** Bump allocation from the untouched end of the heap. When the 32-bit sum of the capacity test wraps, a request
        larger than the heap can be granted, and the offset does not advance. */
    method Malloc(size: nat) returns (r: Option<nat>)
      requires Valid() && size % MEM_BLOCK == SIZE_MARKER && size < ADDRESS_WORDS
      modifies this`offset, this`blocks, heap
      ensures r.None? ==> heap[..] == old(heap[..]) && offset == old(offset) && blocks == old(blocks)
      ensures r.Some? ==> r.value == old(offset) + SIZE_MARKER && blocks == old(blocks) + [Block(size, true)]
      ensures old(offset) + size + SIZE_MARKER < ADDRESS_WORDS ==>
                && Valid() && PayloadsKept(old(heap[..]), heap[..], old(blocks))
                && (r.Some? <==> old(offset) + size + SIZE_MARKER <= heapSize)
      ensures old(offset) + size + SIZE_MARKER >= ADDRESS_WORDS ==>
                && (r.Some? <==> old(offset) + size + SIZE_MARKER - ADDRESS_WORDS <= heapSize)
                && (r.Some? ==> offset == old(offset) + size + SIZE_MARKER - ADDRESS_WORDS <= old(offset))
                && (r.Some? && old(offset) < heap.Length ==> heap[..] == old(heap[..])[old(offset) := 4 * size])
    {
      var usedUpSize := (offset + size + SIZE_MARKER) % ADDRESS_WORDS;
      if usedUpSize > heapSize { return None; }
      r := Some(offset + SIZE_MARKER);
      if offset + size + SIZE_MARKER < ADDRESS_WORDS {
        AppendBlock(Block(size, true));
      } else {
        if offset < heap.Length {
          SetSize(offset, size);
          assert heap[offset] == heap[..][offset] == 4 * size >= ALLOC_MASK;
          MarkAlloc(offset);
        }
        offset := usedUpSize;
        blocks := blocks + [Block(size, true)];
      }
    }

    /** One more block, which fits. */
    method AppendBlock(b: Block)
      requires Valid() && b.size % MEM_BLOCK == SIZE_MARKER && offset + SIZE_MARKER + b.size <= heapSize
      modifies this`offset, this`blocks, heap
      ensures Valid() && PayloadsKept(old(heap[..]), heap[..], old(blocks))
      ensures blocks == old(blocks) + [b] && offset == old(offset) + SIZE_MARKER + b.size
    {
      PutHeader(offset, b);
      AppendTile(old(heap[..]), heap[..], blocks, offset, b);
      offset := offset + SIZE_MARKER + b.size;
      blocks := blocks + [b];
    }

    /** Turn whatever is left of the heap into one free block. */
    method CleanupRemaining()
      requires Valid()
      modifies this`offset, this`blocks, heap
      ensures Valid() && PayloadsKept(old(heap[..]), heap[..], old(blocks)) && offset == heapSize
      ensures old(offset) == heapSize ==> blocks == old(blocks)
      ensures old(offset) != heapSize ==>
                old(offset) + MEM_BLOCK <= heapSize &&
                blocks == old(blocks) + [Block(heapSize - old(offset) - SIZE_MARKER, false)]
    {
      if offset == heapSize { return; }
      AppendBlock(Block(heapSize - offset - SIZE_MARKER, false));
    }

    /** Return a live payload. */
    method Free(ptr: nat, ghost n: nat)
      requires Valid() && Live(blocks, 0, ptr, n)
      modifies this`blocks, heap
      ensures Valid() && PayloadsKept(old(heap[..]), heap[..], old(blocks))
      ensures blocks == Freed(old(blocks), 0, ptr)
    {
      ghost var a, c := LiveSplit(blocks, 0, ptr, n);
      LiveInside(blocks, 0, ptr, n);
      HeaderAt(heap[..], a, Block(n, true), c, ptr - SIZE_MARKER);
      Decode(Block(n, true));
      MarkFree(ptr - SIZE_MARKER);
      FreedLive(blocks, 0, ptr, n, 0, 0);
      HeaderWrite(old(heap[..]), heap[..], a, Block(n, true), Block(n, false), c, ptr - SIZE_MARKER);
      blocks := Freed(blocks, 0, ptr);
    }

    /** A client stores a word into its payload. */
    method Write(ptr: nat, ghost n: nat, j: nat, v: nat)
      requires Valid() && Live(blocks, 0, ptr, n) && ptr <= j < ptr + n && j < heap.Length
      modifies heap
      ensures Valid() && heap[..] == old(heap[..])[j := v]
    {
      ghost var a, c := LiveSplit(blocks, 0, ptr, n);
      heap[j] := v;
      PayloadWrite(old(heap[..]), v, a, Block(n, true), c, ptr - SIZE_MARKER, j);
      assert heap[..] == old(heap[..])[j := v];
    }

    /** The walk of merge_contiguous over the headers behind the payload at `ptr`, of `have` words. */
    method RunSize(ptr: nat, have: nat, need: nat) returns (possible: nat)
      requires heapSize <= heap.Length
      ensures possible == Walk(heap[..], ptr, have, need, heapSize)
      ensures possible <= have || possible < need + HEAP_LIMIT
    {
      possible := have;
      while possible < need && ptr + possible < heapSize
        invariant Walk(heap[..], ptr, possible, need, heapSize) == Walk(heap[..], ptr, have, need, heapSize)
        invariant possible <= have || possible < need + HEAP_LIMIT
        decreases need - possible
      {
        var next := heap[ptr + possible];
        if IsAlloc(next) { break; }
        possible := possible + SizeBytes(next) / 4 + SIZE_MARKER;
      }
    }

    /** The new size at `pos`, and the header of a surplus. */
    method WriteCut(pos: nat, possible: nat, need: nat)
      requires pos < heap.Length && (need < possible ==> possible <= need + HEAP_LIMIT)
      modifies heap
      ensures heap[..] == Combined(old(heap[..]), pos, possible, need, IsAlloc(old(heap[pos])))
    {
      var newSize := if possible < need then possible else need;
      SetSize(pos, newSize);
      if possible > need && pos + SIZE_MARKER + need < heap.Length {
        PutHeader(pos + SIZE_MARKER + need, Block(possible - need - SIZE_MARKER, false));
      }
    }

    /** merge_contiguous on the words, at a header of `have` words: the walk decides, and a failed merge that has to be
        complete leaves no trace. */
    method MergeWords(pos: nat, need: nat, allOrNothing: bool, ghost have: nat, ghost live: bool)
      returns (ok: bool, newSize: nat, ghost walk: nat)
      requires pos < heapSize <= heap.Length && SizeBytes(heap[pos]) == 4 * have && IsAlloc(heap[pos]) == live
      modifies heap
      ensures walk == Walk(old(heap[..]), pos + SIZE_MARKER, have, need, heapSize) && newSize == Min(walk, need)
      ensures ok <==> walk >= need && (allOrNothing ==> pos + SIZE_MARKER + need <= heapSize)
      ensures allOrNothing && !ok ==> heap[..] == old(heap[..])
      ensures !allOrNothing || ok ==> heap[..] == Combined(old(heap[..]), pos, walk, need, live)
    {
      var possible := RunSize(pos + SIZE_MARKER, SizeBytes(heap[pos]) / 4, need);
      newSize := if possible < need then possible else need;
      if allOrNothing && heapSize - (pos + SIZE_MARKER) < need { return false, newSize, possible; }
      if allOrNothing && possible < need { return false, newSize, possible; }
      WriteCut(pos, possible, need);
      return newSize == need, newSize, possible;
    }

    /** Let the block at `pos` absorb free neighbours until it holds `need` words, splitting off a surplus; with
        `allOrNothing`, leave the heap alone if that is not possible. The walk decides; that it merges blocks of the
        heap is promised when it ends in time. */
    method MergeContiguous(pos: nat, need: nat, allOrNothing: bool,
                           ghost a: seq<Block>, ghost b: Block, ghost c: seq<Block>)
      returns (ok: bool, newSize: nat, ghost walk: nat)
      requires Valid() && blocks == a + ([b] + c) && pos == Total(a) && need % MEM_BLOCK == SIZE_MARKER
      requires Aligned([b] + c) && (b.live ==> b.size <= need)
      modifies this`blocks, heap
      ensures pos < heap.Length && walk == Walk(old(heap[..]), pos + SIZE_MARKER, b.size, need, heapSize)
      ensures ok <==> walk >= need && (allOrNothing ==> pos + SIZE_MARKER + need <= heapSize)
      ensures allOrNothing && !ok ==> heap[..] == old(heap[..]) && blocks == old(blocks)
      ensures !allOrNothing || ok ==> heap[..] == Combined(old(heap[..]), pos, walk, need, b.live)
      ensures EndsInTime(b, c, need, offset, heapSize) ==>
                && Valid() && PayloadsKept(old(heap[..]), heap[..], old(blocks))
                && MergedWell(ok, newSize, b, c, need)
                && (!allOrNothing || ok ==> blocks == a + Merged(b, c, need))
    {
      ghost var w := heap[..];
      BeforeMerge(w, a, b, c, need, pos, pos + SIZE_MARKER, heapSize, offset);
      ok, newSize, walk := MergeWords(pos, need, allOrNothing, b.size, b.live);
      if EndsInTime(b, c, need, offset, heapSize) {
        AfterMerge(w, a, b, c, need, pos, offset, heapSize, ok, newSize, walk, allOrNothing);
      }
      if !allOrNothing || ok { blocks := a + Merged(b, c, need); }
    }

    /** First fit over the freed blocks, merging neighbours on the way. The assertion in the source makes the
        call fail, without effect, while the heap is not fully handed out. */
    method MallocFromFreed(size: nat) returns (failed: bool, r: Option<nat>)
      requires Valid() && size % MEM_BLOCK == SIZE_MARKER && heapSize > 0
      modifies this`blocks, heap
      ensures Valid() && PayloadsKept(old(heap[..]), heap[..], old(blocks))
      ensures failed == (offset != heapSize)
      ensures failed ==> r == None && blocks == old(blocks)
      ensures !failed ==> Fit(blocks, r) == FirstFit(old(blocks), size)
    {
      if offset != heapSize { return true, None; }
      ghost var all, pre, rest := FirstFit(blocks, size), [], blocks;
      ghost var f := all;
      var pos := 0;
      assert blocks == pre + rest && pre + f.blocks == f.blocks;
      while pos + SIZE_MARKER < heapSize
        invariant Valid() && blocks == pre + rest && pos == Total(pre) && Aligned(rest)
        invariant f == FirstFit(rest, size) && Fitting(all, pre, pos, f)
        invariant SameLive(old(blocks), blocks) && PayloadsKept(old(heap[..]), heap[..], old(blocks))
        decreases |rest|
      {
        HeadOfRest(heap[..], pre, rest, pos);
        ghost var b, c := rest[0], rest[1..];
        if IsAlloc(heap[pos]) {
          var next := pos + SizeBytes(heap[pos]) / 4 + SIZE_MARKER;
          f := PassLive(all, pre, pos, b, c, size, f, pre + [b], next);
          pos := next;
          pre, rest := pre + [b], c;
        } else {
          ghost var before, was, k := blocks, heap[..], Absorbed(b.size, c, size);
          var ok, merged := TryBlock(pos, size, pre, b, c);
          PayloadsTrans(old(heap[..]), was, heap[..], old(blocks), before);
          if ok {
            StopHere(all, pre, pos, b, c, size, f);
            return false, Some(pos + SIZE_MARKER);
          }
          var next := pos + merged + SIZE_MARKER;
          ghost var m := Block(Grown(b, c, k), false);
          f := PassShort(all, pre, pos, b, c, size, k, m, f, pre + [m], next);
          pos := next;
          pre, rest := pre + [m], c[k..];
        }
      }
      TotalConcat(pre, rest);
      TotalAligned(rest);
      return false, None;
    }

    /** Mark a free block as live. */
    method TakeBlock(pos: nat, ghost size: nat, ghost a: seq<Block>, ghost tail: seq<Block>)
      requires Valid() && blocks == a + ([Block(size, false)] + tail) && pos == Total(a)
      modifies this`blocks, heap
      ensures Valid() && PayloadsKept(old(heap[..]), heap[..], old(blocks))
      ensures blocks == a + ([Block(size, true)] + tail)
    {
      HandOut(heap[..], a, size, tail, pos);
      MarkAlloc(pos);
      blocks := a + ([Block(size, true)] + tail);
    }

    /** Visit one free block: merge it with its free neighbours and, if it can hold `size` words, hand it out. */
    method TryBlock(pos: nat, size: nat, ghost a: seq<Block>, ghost b: Block, ghost c: seq<Block>)
      returns (ok: bool, merged: nat)
      requires Valid() && offset == heapSize && size % MEM_BLOCK == SIZE_MARKER
      requires blocks == a + ([b] + c) && pos == Total(a) && Aligned([b] + c) && !b.live
      modifies this`blocks, heap
      ensures Valid() && PayloadsKept(old(heap[..]), heap[..], old(blocks))
      ensures ok == (Grown(b, c, Absorbed(b.size, c, size)) >= size)
      ensures var k := Absorbed(b.size, c, size);
              var got := Grown(b, c, k);
              && (!ok ==> merged == got && SameLive(old(blocks), blocks))
              && (!ok ==> blocks == a + ([Block(got, false)] + c[k..]))
              && (ok ==> (size < got ==> size + SIZE_MARKER <= got) && blocks == a + (Cut(got, size, true) + c[k..]))
    {
      ghost var walk;
      ok, merged, walk := MergeContiguous(pos, size, false, a, b, c);
      ghost var k := Absorbed(b.size, c, size);
      ghost var got := Grown(b, c, k);
      MergedSameLive(a, b, c, size);
      if ok {
        ghost var w, bs, tail := heap[..], blocks, CutTail(got, size) + c[k..];
        CutHead(got, size, c[k..], tail);
        TakeBlock(pos, size, a, tail);
        PayloadsTrans(old(heap[..]), w, heap[..], old(blocks), bs);
      }
    }

    /** Resize a live payload without moving it, as it should be done: the last block while the size is fair, any
        other while the merging walk ends in time. */
    ghost predicate ResizesWell(size: nat, n: nat, c: seq<Block>)
      reads this
    {
      if c == [] then Fair(base, heapSize, size)
      else n < size ==> EndsInTime(Block(n, true), c, size, offset, heapSize)
    }

    /** The payload at `ptr` resizes well. */
    ghost predicate CanResize(ptr: nat, size: nat)
      reads this
    {
      forall n: nat, a, c | blocks == a + ([Block(n, true)] + c) && ptr == Total(a) + SIZE_MARKER ::
        ResizesWell(size, n, c)
    }

    /** Resize a live payload without moving it. A payload that already has more than `size` words keeps them all; the
        word behind the first `size` of them is overwritten by a header that nothing refers to. The last block handed
        out is "resized" to any size that is not fair, past the end of the heap. */
    method ReallocInPlace(ptr: nat, size: nat, ghost n: nat, ghost a: seq<Block>, ghost c: seq<Block>)
      returns (r: Option<nat>, origSize: nat)
      requires Valid() && size % MEM_BLOCK == SIZE_MARKER && size < ADDRESS_WORDS
      requires blocks == a + ([Block(n, true)] + c) && ptr == Total(a) + SIZE_MARKER
      modifies this`offset, this`blocks, heap
      ensures origSize == n
      ensures old(ResizesWell(size, n, c)) ==>
                && Valid()
                && r == (if ptr + size <= heapSize && (size <= n || c == [] || Room(n, c, size) >= size) then Some(ptr)
                         else None)
                && (r.Some? ==> Resized(old(blocks), blocks, ptr, if n < size then size else n))
                && KeptUpTo(old(heap[..]), heap[..], old(blocks), ptr, Min(n, size))
      ensures r.None? ==> blocks == old(blocks) && heap[..] == old(heap[..]) && offset == old(offset)
      ensures c == [] && !Fair(base, heapSize, size) ==>
                && r == Some(ptr) && ptr + size > heapSize
                && offset == (old(offset) + size - n) % ADDRESS_WORDS
                && ptr <= heap.Length && heap[..] == old(heap[..])[ptr - SIZE_MARKER := SizeWord(size, true)]
      ensures c != [] && n < size ==>
                var walk := Walk(old(heap[..]), ptr, n, size, heapSize);
                && (r.Some? <==> ptr + size <= heapSize && walk >= size)
                && (r.Some? ==> ptr <= heap.Length &&
                                heap[..] == Combined(old(heap[..]), ptr - SIZE_MARKER, walk, size, true))
    {
      BeforeResize(heap[..], a, n, c, ptr, offset);
      ResizeTestExact(base, heapSize, ptr, size);
      origSize := SizeBytes(heap[ptr - SIZE_MARKER]) / 4;
      // The validity check of the source comes here; it never fails for the payload of a live block.
      if !ResizeTest(base, heapSize, ptr, size) { return None, origSize; }
      if origSize > size {
        Shrink(ptr, size, origSize, a, c);
        return Some(ptr), origSize;
      }
      var ok := Grow(ptr, size, origSize, a, c);
      return if ok then Some(ptr) else None, origSize;
    }

    /** The larger half of realloc_in_place: the last block grows, any other keeps its size or grows into freed ones. */
    method Grow(ptr: nat, size: nat, n: nat, ghost a: seq<Block>, ghost c: seq<Block>) returns (ok: bool)
      requires Valid() && size % MEM_BLOCK == SIZE_MARKER && n <= size
      requires blocks == a + ([Block(n, true)] + c) && ptr == Total(a) + SIZE_MARKER
      modifies this`offset, this`blocks, heap
      ensures !ok ==> blocks == old(blocks) && heap[..] == old(heap[..]) && offset == old(offset)
      ensures c == [] ==>
                && ok && offset == (old(offset) + size - n) % ADDRESS_WORDS
                && ptr <= heap.Length && heap[..] == old(heap[..])[ptr - SIZE_MARKER := SizeWord(size, true)]
      ensures old(if c == [] then ptr + size <= heapSize
                  else n == size || EndsInTime(Block(n, true), c, size, offset, heapSize)) ==>
                && Valid() && (ok <==> n == size || c == [] || Room(n, c, size) >= size)
                && (ok ==> Resized(old(blocks), blocks, ptr, size))
                && KeptUpTo(old(heap[..]), heap[..], old(blocks), ptr, n)
      ensures c != [] && n < size ==>
                var walk := Walk(old(heap[..]), ptr, n, size, heapSize);
                && (ok <==> ptr + size <= heapSize && walk >= size)
                && (ok ==> ptr <= heap.Length &&
                           heap[..] == Combined(old(heap[..]), ptr - SIZE_MARKER, walk, size, true))
    {
      BeforeResize(heap[..], a, n, c, ptr, offset);
      if ptr + n == offset {
        GrowLast(size, n, a, c);
        return true;
      }
      ok := KeepOrGrow(ptr, size, n, a, c);
    }

    /** A block that is not the last one keeps its size, or grows into freed ones. */
    method KeepOrGrow(ptr: nat, size: nat, n: nat, ghost a: seq<Block>, ghost c: seq<Block>) returns (ok: bool)
      requires Valid() && size % MEM_BLOCK == SIZE_MARKER && n <= size
      requires blocks == a + ([Block(n, true)] + c) && ptr == Total(a) + SIZE_MARKER
      modifies this`blocks, heap
      ensures !ok ==> blocks == old(blocks) && heap[..] == old(heap[..])
      ensures n == size || EndsInTime(Block(n, true), c, size, offset, heapSize) ==>
                && Valid() && (ok <==> n == size || Room(n, c, size) >= size)
                && (ok ==> Resized(old(blocks), blocks, ptr, size))
                && KeptUpTo(old(heap[..]), heap[..], old(blocks), ptr, n)
      ensures n < size ==>
                var walk := Walk(old(heap[..]), ptr, n, size, heapSize);
                && (ok <==> ptr + size <= heapSize && walk >= size)
                && (ok ==> ptr <= heap.Length &&
                           heap[..] == Combined(old(heap[..]), ptr - SIZE_MARKER, walk, size, true))
    {
      if size == n {
        SameResized(blocks, a, n, c, ptr);
        return true;
      }
      ghost var walk;
      ok, walk := GrowIntoFreed(ptr, size, n, a, c);
      if EndsInTime(Block(n, true), c, size, offset, heapSize) {
        AllKept(old(heap[..]), heap[..], old(blocks), ptr, n);
      }
    }

    /** The header of the excess is written into the payload, which keeps its size. */
    method Shrink(ptr: nat, size: nat, n: nat, ghost a: seq<Block>, ghost c: seq<Block>)
      requires Valid() && size < n && blocks == a + ([Block(n, true)] + c) && ptr == Total(a) + SIZE_MARKER
      modifies heap
      ensures Valid() && Resized(blocks, blocks, ptr, n)
      ensures KeptUpTo(old(heap[..]), heap[..], blocks, ptr, size)
    {
      SizesBounded(a, Block(n, true), c, 0);
      PutHeader(ptr + size, Block(n - size, false));
      PayloadWrite(old(heap[..]), Encode(Block(n - size, false)), a, Block(n, true), c, ptr - SIZE_MARKER, ptr + size);
      ShrinkKeeps(old(heap[..]), heap[..], a, n, c, ptr, size);
    }

    /** A live block absorbs the free blocks behind it, all or nothing. */
    method GrowIntoFreed(ptr: nat, size: nat, ghost n: nat, ghost a: seq<Block>, ghost c: seq<Block>)
      returns (ok: bool, ghost walk: nat)
      requires Valid() && size % MEM_BLOCK == SIZE_MARKER && n <= size
      requires blocks == a + ([Block(n, true)] + c) && ptr == Total(a) + SIZE_MARKER
      modifies this`blocks, heap
      ensures walk == Walk(old(heap[..]), ptr, n, size, heapSize)
      ensures ok <==> ptr + size <= heapSize && walk >= size
      ensures !ok ==> blocks == old(blocks) && heap[..] == old(heap[..])
      ensures ok ==> ptr <= heap.Length && heap[..] == Combined(old(heap[..]), ptr - SIZE_MARKER, walk, size, true)
      ensures EndsInTime(Block(n, true), c, size, offset, heapSize) ==>
                && Valid() && (ok <==> Room(n, c, size) >= size)
                && (ok ==> Resized(old(blocks), blocks, ptr, size))
                && PayloadsKept(old(heap[..]), heap[..], old(blocks))
    {
      AlignedTail(a, Block(n, true), c);
      var newSize;
      ok, newSize, walk := MergeLive(ptr, size, n, a, c);
      if EndsInTime(Block(n, true), c, size, offset, heapSize) { GrownInto(a, n, c, size, ptr, ok, newSize); }
    }

    /** The merge of a live block, which is then marked once more. */
    method MergeLive(ptr: nat, size: nat, ghost n: nat, ghost a: seq<Block>, ghost c: seq<Block>)
      returns (ok: bool, newSize: nat, ghost walk: nat)
      requires Valid() && size % MEM_BLOCK == SIZE_MARKER && n <= size && Aligned([Block(n, true)] + c)
      requires blocks == a + ([Block(n, true)] + c) && ptr == Total(a) + SIZE_MARKER
      modifies this`blocks, heap
      ensures walk == Walk(old(heap[..]), ptr, n, size, heapSize) && ptr <= heap.Length
      ensures ok <==> walk >= size && ptr + size <= heapSize
      ensures !ok ==> heap[..] == old(heap[..]) && blocks == old(blocks)
      ensures ok ==> heap[..] == Combined(old(heap[..]), ptr - SIZE_MARKER, walk, size, true)
      ensures EndsInTime(Block(n, true), c, size, offset, heapSize) ==>
                && Valid() && PayloadsKept(old(heap[..]), heap[..], old(blocks))
                && MergedWell(ok, newSize, Block(n, true), c, size)
                && (ok ==> blocks == a + Merged(Block(n, true), c, size))
    {
      ghost var w := heap[..];
      ok, newSize, walk := MergeContiguous(ptr - SIZE_MARKER, size, true, a, Block(n, true), c);
      if ok {
        StaysMarked(w, ptr - SIZE_MARKER, walk, size);
        MarkAgain(ptr - SIZE_MARKER, Combined(w, ptr - SIZE_MARKER, walk, size, true));
      }
    }

    /** The last block handed out grows into the untouched part of the heap. */
    method GrowLast(size: nat, n: nat, ghost a: seq<Block>, ghost c: seq<Block>)
      requires Valid() && size % MEM_BLOCK == SIZE_MARKER && n <= size
      requires blocks == a + ([Block(n, true)] + c) && Total(a) + SIZE_MARKER + n == offset
      modifies this`offset, this`blocks, heap
      ensures c == [] && heap[..] == old(heap[..])[Total(a) := SizeWord(size, true)]
      ensures offset == (old(offset) + size - n) % ADDRESS_WORDS
      ensures Total(a) + SIZE_MARKER + size <= heapSize ==>
                && Valid() && Resized(old(blocks), blocks, Total(a) + SIZE_MARKER, size)
                && KeptUpTo(old(heap[..]), heap[..], old(blocks), Total(a) + SIZE_MARKER, n)
    {
      ghost var at := Total(a);
      LastIsLast(a, n, c);
      HeaderAt(heap[..], a, Block(n, true), c, at);
      Decode(Block(n, true));
      var pos := offset - n - SIZE_MARKER;
      SetSize(pos, size);
      var end := offset + (size - n);
      offset := end % ADDRESS_WORDS;
      blocks := a + [Block(size, true)];
      if at + SIZE_MARKER + size <= heapSize {
        NoWrap(end, heapSize);
        LastGrown(old(heap[..]), heap[..], a, n, size, at, old(blocks), blocks, end);
      }
    }
  }

  /** The header of the payload to be resized, and whether it is the last one. */
  lemma BeforeResize(w: seq<nat>, a: seq<Block>, n: nat, c: seq<Block>, ptr: nat, offset: nat)
    requires Tiles(w, 0, a + ([Block(n, true)] + c)) && ptr == Total(a) + SIZE_MARKER
    requires offset == Total(a + ([Block(n, true)] + c)) < HEAP_LIMIT && offset <= |w|
    ensures ptr + n <= offset && SizeBytes(w[ptr - SIZE_MARKER]) == 4 * n && (ptr + n == offset <==> c == [])
  {
    HeaderAt(w, a, Block(n, true), c, ptr - SIZE_MARKER);
    SizesBounded(a, Block(n, true), c, 0);
    LastIsLast(a, n, c);
    Decode(Block(n, true));
  }

  /** A live block that absorbed its neighbours is marked already. */
  lemma StaysMarked(w: seq<nat>, at: nat, got: nat, size: nat)
    requires at < |w| && size < HEAP_LIMIT && size <= got
    ensures var w' := Combined(w, at, got, size, true); w'[at := SizeBytes(w'[at]) + ALLOC_MASK] == w'
  {
    assert Combined(w, at, got, size, true)[at] == 4 * size + ALLOC_MASK;
  }

  /** What a block cut to `need` words leaves behind it. */
  function CutTail(got: nat, need: nat): seq<Block>
    requires need < got ==> need + SIZE_MARKER <= got
  {
    if got <= need then [] else [Block(got - need - SIZE_MARKER, false)]
  }

  lemma CutHead(got: nat, need: nat, rest: seq<Block>, tail: seq<Block>)
    requires need <= got && (need < got ==> need + SIZE_MARKER <= got) && tail == CutTail(got, need) + rest
    ensures Cut(got, need, false) + rest == [Block(need, false)] + tail
    ensures Cut(got, need, true) + rest == [Block(need, true)] + tail
  {
  }

  /** Marking a free block as live. */
  lemma HandOut(w: seq<nat>, a: seq<Block>, size: nat, tail: seq<Block>, at: nat)
    requires Tiles(w, 0, a + ([Block(size, false)] + tail)) && at == Total(a)
    requires Total(a + ([Block(size, false)] + tail)) < HEAP_LIMIT
    ensures at < |w|
    ensures var w' := w[at := SizeBytes(w[at]) + ALLOC_MASK];
            && Tiles(w', 0, a + ([Block(size, true)] + tail))
            && PayloadsKept(w, w', a + ([Block(size, false)] + tail))
    ensures Total(a + ([Block(size, true)] + tail)) == Total(a + ([Block(size, false)] + tail))
    ensures Aligned(a + ([Block(size, false)] + tail)) ==> Aligned(a + ([Block(size, true)] + tail))
  {
    var b, b' := Block(size, false), Block(size, true);
    HeaderAt(w, a, b, tail, at);
    SizesBounded(a, b, tail, 0);
    Decode(b);
    HeaderWrite(w, w[at := SizeBytes(w[at]) + ALLOC_MASK], a, b, b', tail, at);
    SameSizes(a, b, b', tail);
  }

  /** The header that merging starts from, and how far the walk gets when it ends in time. */
  lemma BeforeMerge(w: seq<nat>, a: seq<Block>, b: Block, c: seq<Block>, need: nat, at: nat, ptr: nat,
                    end: nat, offset: nat)
    requires Tiles(w, 0, a + ([b] + c)) && at == Total(a) && Total(a + ([b] + c)) == offset <= end <= |w|
    requires end < HEAP_LIMIT && ptr == at + SIZE_MARKER
    ensures ptr + b.size <= offset && IsAlloc(w[at]) == b.live && SizeBytes(w[at]) == 4 * b.size
    ensures EndsInTime(b, c, need, offset, end) ==>
              var got := Grown(b, c, Absorbed(b.size, c, need));
              Walk(w, ptr, b.size, need, end) == got && ptr + got <= offset
  {
    SizesBounded(a, b, c, Absorbed(b.size, c, need));
    HeaderAt(w, a, b, c, at);
    Decode(b);
    if EndsInTime(b, c, need, offset, end) {
      assert c[0..] == c;
      WalkIsGrown(w, a, b, c, 0, ptr, b.size, need, end, offset);
    }
  }

  lemma MergeAll(w: seq<nat>, a: seq<Block>, b: Block, c: seq<Block>, need: nat, at: nat, got: nat)
    requires Tiles(w, 0, a + ([b] + c)) && at == Total(a) && Aligned([b] + c) && need % MEM_BLOCK == SIZE_MARKER
    requires Aligned(a + ([b] + c)) && got == Grown(b, c, Absorbed(b.size, c, need)) && at + SIZE_MARKER + got <= |w|
    requires b.live ==> b.size <= need
    ensures need < got ==> need + SIZE_MARKER <= got
    ensures Tiles(CutWords(w, at, got, need, b.live), 0, a + Merged(b, c, need))
    ensures PayloadsKept(w, CutWords(w, at, got, need, b.live), a + ([b] + c))
    ensures Total(a + Merged(b, c, need)) == Total(a + ([b] + c)) && Aligned(a + Merged(b, c, need))
  {
    MergeTiles(w, a, b, c, need, at, got);
    MergeKeepsPayloads(w, a, b, c, need, at, got);
    MergedInPlace(a, b, c, need);
  }

  /** The answer of a merge that stays inside the blocks. */
  ghost predicate MergedWell(ok: bool, newSize: nat, b: Block, c: seq<Block>, need: nat) {
    var got := Grown(b, c, Absorbed(b.size, c, need));
    (ok <==> got >= need) && newSize == Min(got, need)
  }

  /** A merge whose walk ends in time, on the words. */
  lemma AfterMerge(w: seq<nat>, a: seq<Block>, b: Block, c: seq<Block>, need: nat, at: nat, offset: nat, end: nat,
                   ok: bool, newSize: nat, walk: nat, allOrNothing: bool)
    requires Tiles(w, 0, a + ([b] + c)) && at == Total(a) && Total(a + ([b] + c)) == offset <= end <= |w|
    requires end < HEAP_LIMIT && Aligned([b] + c) && Aligned(a + ([b] + c)) && need % MEM_BLOCK == SIZE_MARKER
    requires (b.live ==> b.size <= need) && EndsInTime(b, c, need, offset, end)
    requires walk == Walk(w, at + SIZE_MARKER, b.size, need, end) && newSize == Min(walk, need)
    requires ok <==> walk >= need && (allOrNothing ==> at + SIZE_MARKER + need <= end)
    ensures MergedWell(ok, newSize, b, c, need) && at < |w|
    ensures var w' := Combined(w, at, walk, need, b.live);
            && Tiles(w', 0, a + Merged(b, c, need)) && PayloadsKept(w, w', a + ([b] + c))
            && Total(a + Merged(b, c, need)) == offset && Aligned(a + Merged(b, c, need))
  {
    BeforeMerge(w, a, b, c, need, at, at + SIZE_MARKER, end, offset);
    MergeAll(w, a, b, c, need, at, walk);
    CombinedIsCut(w, at, walk, need, b.live);
  }

  /** The block the walk looks at next. */
  lemma HeadOfRest(w: seq<nat>, pre: seq<Block>, rest: seq<Block>, pos: nat)
    requires Tiles(w, 0, pre + rest) && pos == Total(pre) < Total(pre + rest) < HEAP_LIMIT
    ensures rest != [] && rest == [rest[0]] + rest[1..] && pos < |w|
    ensures IsAlloc(w[pos]) == rest[0].live && SizeBytes(w[pos]) == 4 * rest[0].size
  {
    TotalConcat(pre, rest);
    var b, c := rest[0], rest[1..];
    assert rest == [b] + c;
    HeaderAt(w, pre, b, c, pos);
    SizesBounded(pre, b, c, 0);
    Decode(b);
  }

  lemma SizesBounded(a: seq<Block>, b: Block, c: seq<Block>, k: nat)
    requires k <= |c|
    ensures Total(a) + SIZE_MARKER + Grown(b, c, k) <= Total(a + ([b] + c))
    ensures Total(a) + SIZE_MARKER + b.size <= Total(a + ([b] + c))
  {
    TotalConcat(a, [b] + c);
    Cons(b, c, 0, 0, 0);
    assert c == c[..k] + c[k..];
    TotalConcat(c[..k], c[k..]);
  }

  lemma MergedInPlace(a: seq<Block>, b: Block, c: seq<Block>, need: nat)
    requires Aligned(a + ([b] + c)) && Aligned([b] + c) && need % MEM_BLOCK == SIZE_MARKER
    ensures Total(a + Merged(b, c, need)) == Total(a + ([b] + c)) && Aligned(a + Merged(b, c, need))
  {
    MergedKeeps(b, c, need, 0, 0, 0);
    TotalConcat(a, [b] + c);
    TotalConcat(a, Merged(b, c, need));
    assert forall i | 0 <= i < |a| :: (a + ([b] + c))[i] == a[i];
  }

  // ---------- the walk of malloc_from_freed ----------

  /** `all` is the answer; `pre` (up to address `pos`) is final, and `f` is the answer for the rest. */
  ghost predicate Fitting(all: Fit, pre: seq<Block>, pos: nat, f: Fit) {
    all.blocks == pre + f.blocks && all.at == Shifted(f.at, pos)
  }

  /** A block passed over moves from the part to be visited to the part that is final. */
  lemma FitMoves(all: Fit, pre: seq<Block>, pos: nat, m: Block, f: Fit, done: seq<Block>, next: nat)
    requires done == pre + [m] && next == pos + m.size + SIZE_MARKER && pos == Total(pre)
    requires Fitting(all, pre, pos, Fit([m] + f.blocks, Shifted(f.at, SIZE_MARKER + m.size)))
    ensures Fitting(all, done, next, f) && next == Total(done)
  {
    TotalConcat(pre, [m]);
  }

  lemma {:induction false} FittingLive(b: Block, c: seq<Block>, size: nat, f: Fit) returns (g: Fit)
    requires Aligned([b] + c) && size % MEM_BLOCK == SIZE_MARKER && b.live && f == FirstFit([b] + c, size)
    ensures Aligned(c) && g == FirstFit(c, size) && f == Fit([b] + g.blocks, Shifted(g.at, SIZE_MARKER + b.size))
  {
    GrownAligned(b, c, 0);
    g := FirstFit(c, size);
    LiveFit(b, c, size, g);
  }

  lemma {:induction false} FittingShort(b: Block, c: seq<Block>, size: nat, k: nat, m: Block, f: Fit) returns (g: Fit)
    requires Aligned([b] + c) && size % MEM_BLOCK == SIZE_MARKER && !b.live && f == FirstFit([b] + c, size)
    requires k == Absorbed(b.size, c, size) && m == Block(Grown(b, c, k), false) && m.size < size
    ensures Aligned(c[k..]) && g == FirstFit(c[k..], size)
    ensures f == Fit([m] + g.blocks, Shifted(g.at, SIZE_MARKER + m.size))
  {
    GrownAligned(b, c, k);
    g := FirstFit(c[k..], size);
    ShortFit(b, c, size, k, m.size, g);
  }

  lemma {:induction false} FittingHere(b: Block, c: seq<Block>, size: nat, f: Fit)
    requires Aligned([b] + c) && size % MEM_BLOCK == SIZE_MARKER && !b.live && f == FirstFit([b] + c, size)
    requires Grown(b, c, Absorbed(b.size, c, size)) >= size
    ensures var k := Absorbed(b.size, c, size);
            var got := Grown(b, c, k);
            (size < got ==> size + SIZE_MARKER <= got) && f == Fit(Cut(got, size, true) + c[k..], Some(SIZE_MARKER))
  {
    GrownAligned(b, c, Absorbed(b.size, c, size));
    assert ([b] + c)[0] == b && ([b] + c)[1..] == c;
  }

  /** One turn of the walk past a live block. */
  lemma {:induction false} PassLive(all: Fit, pre: seq<Block>, pos: nat, b: Block, c: seq<Block>, size: nat, f: Fit,
                                    done: seq<Block>, next: nat) returns (g: Fit)
    requires Aligned([b] + c) && size % MEM_BLOCK == SIZE_MARKER && b.live && f == FirstFit([b] + c, size)
    requires Fitting(all, pre, pos, f) && pos == Total(pre) && done == pre + [b] && next == pos + b.size + SIZE_MARKER
    ensures Aligned(c) && g == FirstFit(c, size) && Fitting(all, done, next, g)
    ensures next == Total(done) && pre + ([b] + c) == done + c
  {
    g := FittingLive(b, c, size, f);
    FitMoves(all, pre, pos, b, g, done, next);
    Behind(pre, b, c, done);
  }

  /** One turn of the walk past free blocks that are too small together. */
  lemma {:induction false} PassShort(all: Fit, pre: seq<Block>, pos: nat, b: Block, c: seq<Block>, size: nat, k: nat,
                                     m: Block, f: Fit, done: seq<Block>, next: nat) returns (g: Fit)
    requires Aligned([b] + c) && size % MEM_BLOCK == SIZE_MARKER && !b.live && f == FirstFit([b] + c, size)
    requires k == Absorbed(b.size, c, size) && m == Block(Grown(b, c, k), false) && m.size < size
    requires Fitting(all, pre, pos, f) && pos == Total(pre) && done == pre + [m] && next == pos + m.size + SIZE_MARKER
    ensures Aligned(c[k..]) && g == FirstFit(c[k..], size) && Fitting(all, done, next, g)
    ensures next == Total(done) && pre + ([m] + c[k..]) == done + c[k..]
  {
    g := FittingShort(b, c, size, k, m, f);
    FitMoves(all, pre, pos, m, g, done, next);
    Behind(pre, m, c[k..], done);
  }

  /** The walk ends at free blocks that suffice. */
  lemma {:induction false} StopHere(all: Fit, pre: seq<Block>, pos: nat, b: Block, c: seq<Block>, size: nat, f: Fit)
    requires Aligned([b] + c) && size % MEM_BLOCK == SIZE_MARKER && !b.live && f == FirstFit([b] + c, size)
    requires Grown(b, c, Absorbed(b.size, c, size)) >= size && Fitting(all, pre, pos, f)
    ensures var k := Absorbed(b.size, c, size);
            var got := Grown(b, c, k);
            (size < got ==> size + SIZE_MARKER <= got) &&
            all == Fit(pre + (Cut(got, size, true) + c[k..]), Some(pos + SIZE_MARKER))
  {
    FittingHere(b, c, size, f);
  }

  lemma Behind(pre: seq<Block>, m: Block, rest: seq<Block>, done: seq<Block>)
    requires done == pre + [m]
    ensures pre + ([m] + rest) == done + rest
  {
  }

  // ---------- live blocks ----------

  ghost predicate SameLive(bs: seq<Block>, bs': seq<Block>) {
    forall p: nat, n: nat :: Live(bs, 0, p, n) <==> Live(bs', 0, p, n)
  }

  lemma PayloadsTrans(w0: seq<nat>, w1: seq<nat>, w2: seq<nat>, bs0: seq<Block>, bs1: seq<Block>)
    requires PayloadsKept(w0, w1, bs0) && PayloadsKept(w1, w2, bs1) && SameLive(bs0, bs1)
    ensures PayloadsKept(w0, w2, bs0)
  {
    forall p: nat, n: nat, j | Live(bs0, 0, p, n) && 0 <= j < |w0| && p <= j < p + n ensures w2[j] == w0[j] {
      assert Live(bs1, 0, p, n);
      assert w1[j] == w0[j];
    }
  }

  /** Merging free blocks changes no live block. */
  lemma MergedSameLive(a: seq<Block>, b: Block, c: seq<Block>, need: nat)
    requires Aligned([b] + c) && need % MEM_BLOCK == SIZE_MARKER && !b.live
    ensures SameLive(a + ([b] + c), a + Merged(b, c, need))
  {
    var k := Absorbed(b.size, c, need);
    forall p: nat, n: nat ensures Live(a + ([b] + c), 0, p, n) <==> Live(a + Merged(b, c, need), 0, p, n) {
      MergedLiveAt(a, b, c, need, k, Merged(b, c, need), p, n);
    }
  }

  lemma {:induction false} MergedLiveAt(a: seq<Block>, b: Block, c: seq<Block>, need: nat, k: nat, m: seq<Block>,
                                        p: nat, n: nat)
    requires Aligned([b] + c) && need % MEM_BLOCK == SIZE_MARKER && !b.live
    requires k == Absorbed(b.size, c, need) && m == Merged(b, c, need)
    ensures Live(a + ([b] + c), 0, p, n) <==> Live(a + m, 0, p, n)
  {
    GrownAligned(b, c, k);
    LiveConcat(a, [b] + c, 0, p, n);
    LiveConcat(a, m, 0, p, n);
    HeadRun(b, c, need, k, Grown(b, c, k), Total(a), p, n);
    CutKeeps(Grown(b, c, k), need, false, c[k..], Total(a), p, n);
  }

  lemma SameSizes(a: seq<Block>, b: Block, b': Block, c: seq<Block>)
    requires b.size == b'.size
    ensures Total(a + ([b'] + c)) == Total(a + ([b] + c))
    ensures Aligned(a + ([b] + c)) ==> Aligned(a + ([b'] + c))
  {
    TotalConcat(a, [b] + c);
    TotalConcat(a, [b'] + c);
    Cons(b, c, 0, 0, 0);
    Cons(b', c, 0, 0, 0);
    assert forall i | 0 <= i < |a + ([b] + c)| :: (a + ([b'] + c))[i].size == (a + ([b] + c))[i].size;
  }

  // ---------- resizing ----------

  /** The payload a live block of `n` words can have once it absorbs the free blocks that follow it. */
  function Room(n: nat, c: seq<Block>, size: nat): nat { Grown(Block(n, true), c, Absorbed(n, c, size)) }

  /** The live block at `ptr` now has `m` words; all other live blocks are as before. */
  ghost predicate Resized(bs: seq<Block>, bs': seq<Block>, ptr: nat, m: nat) {
    forall q: nat, k: nat :: Live(bs', 0, q, k) <==> (q == ptr && k == m) || (Live(bs, 0, q, k) && q != ptr)
  }

  /** Live payloads keep their words; the one at `ptr` keeps its first `keep` words. */
  ghost predicate KeptUpTo(w: seq<nat>, w': seq<nat>, bs: seq<Block>, ptr: nat, keep: nat) {
    |w| == |w'| &&
    forall p: nat, n: nat, j | Live(bs, 0, p, n) && 0 <= j < |w| && p <= j < p + n && (p == ptr ==> j < ptr + keep) ::
      w'[j] == w[j]
  }

  lemma AllKept(w: seq<nat>, w': seq<nat>, bs: seq<Block>, ptr: nat, keep: nat)
    requires PayloadsKept(w, w', bs)
    ensures KeptUpTo(w, w', bs, ptr, keep)
  {
  }

  lemma LiveHere(a: seq<Block>, n: nat, c: seq<Block>, ptr: nat)
    requires ptr == Total(a) + SIZE_MARKER
    ensures Live(a + ([Block(n, true)] + c), 0, ptr, n)
  {
    LiveConcat(a, [Block(n, true)] + c, 0, ptr, n);
    Cons(Block(n, true), c, Total(a), ptr, n);
  }

  lemma SameResized(bs: seq<Block>, a: seq<Block>, n: nat, c: seq<Block>, ptr: nat)
    requires bs == a + ([Block(n, true)] + c) && ptr == Total(a) + SIZE_MARKER
    ensures Resized(bs, bs, ptr, n)
  {
    LiveHere(a, n, c, ptr);
    forall k: nat | Live(bs, 0, ptr, k) ensures k == n {
      if k != n { LiveDisjoint(bs, 0, ptr, n, ptr, k); }
    }
  }

  lemma ShrinkKeeps(w: seq<nat>, w': seq<nat>, a: seq<Block>, n: nat, c: seq<Block>, ptr: nat, size: nat)
    requires ptr == Total(a) + SIZE_MARKER && size < n && ptr + size < |w|
    requires |w| == |w'| && forall j | 0 <= j < |w| && j != ptr + size :: w'[j] == w[j]
    ensures Resized(a + ([Block(n, true)] + c), a + ([Block(n, true)] + c), ptr, n)
    ensures KeptUpTo(w, w', a + ([Block(n, true)] + c), ptr, size)
  {
    var bs := a + ([Block(n, true)] + c);
    SameResized(bs, a, n, c, ptr);
    LiveHere(a, n, c, ptr);
    forall p: nat, m: nat, j | Live(bs, 0, p, m) && 0 <= j < |w| && p <= j < p + m && (p == ptr ==> j < ptr + size)
      ensures w'[j] == w[j]
    {
      if p != ptr { LiveDisjoint(bs, 0, ptr, n, p, m); }
    }
  }

  lemma LastIsLast(a: seq<Block>, n: nat, c: seq<Block>)
    ensures Total(a) + SIZE_MARKER + n == Total(a + ([Block(n, true)] + c)) <==> c == []
  {
    TotalConcat(a, [Block(n, true)] + c);
    Cons(Block(n, true), c, 0, 0, 0);
  }

  lemma AlignedTail(a: seq<Block>, b: Block, c: seq<Block>)
    requires Aligned(a + ([b] + c))
    ensures Aligned(a) && Aligned([b] + c)
  {
    var s := a + ([b] + c);
    assert forall i | 0 <= i < |a| :: a[i] == s[i];
    assert forall i | 0 <= i < |[b] + c| :: ([b] + c)[i] == s[|a| + i];
  }

  lemma GrowLastTiles(w: seq<nat>, w': seq<nat>, a: seq<Block>, n: nat, size: nat, at: nat)
    requires Tiles(w, 0, a + ([Block(n, true)] + [])) && at == Total(a) < |w|
    requires w' == w[at := Encode(Block(size, true))]
    ensures Tiles(w', 0, a + [Block(size, true)]) && Total(a + [Block(size, true)]) == at + SIZE_MARKER + size
    ensures PayloadsKept(w, w', a + ([Block(n, true)] + []))
    ensures Resized(a + ([Block(n, true)] + []), a + [Block(size, true)], at + SIZE_MARKER, size)
  {
    var x, y := Block(n, true), Block(size, true);
    TilesConcat(w, 0, a, at, [x] + []);
    AppendTile(w, w', a, at, y);
    forall p: nat, m: nat, j | Live(a + ([x] + []), 0, p, m) && 0 <= j < |w| && p <= j < p + m ensures w'[j] == w[j] {
      HeaderNotLive(a, x, [], at, p, m);
    }
    forall q: nat, k: nat
      ensures Live(a + [y], 0, q, k) <==>
              (q == at + SIZE_MARKER && k == size) || (Live(a + ([x] + []), 0, q, k) && q != at + SIZE_MARKER)
    {
      LiveConcat(a, [x] + [], 0, q, k);
      LiveConcat(a, [y], 0, q, k);
      if Live(a, 0, q, k) { LiveInside(a, 0, q, k); }
    }
  }

  lemma {:induction false} LastGrown(w: seq<nat>, w': seq<nat>, a: seq<Block>, n: nat, size: nat, at: nat,
                                     was: seq<Block>, now: seq<Block>, end: nat)
    requires was == a + ([Block(n, true)] + []) && now == a + [Block(size, true)] && end == at + SIZE_MARKER + size
    requires Tiles(w, 0, was) && at == Total(a) < |w| && w' == w[at := Encode(Block(size, true))]
    requires Aligned(was) && size % MEM_BLOCK == SIZE_MARKER
    ensures Tiles(w', 0, now) && Total(now) == end && Aligned(now) && end % MEM_BLOCK == 0
    ensures KeptUpTo(w, w', was, at + SIZE_MARKER, n) && Resized(was, now, at + SIZE_MARKER, size)
  {
    GrowLastTiles(w, w', a, n, size, at);
    AllKept(w, w', was, at + SIZE_MARKER, n);
    LastAligned(a, n, size, was, now);
  }

  lemma LastAligned(a: seq<Block>, n: nat, size: nat, was: seq<Block>, now: seq<Block>)
    requires was == a + ([Block(n, true)] + []) && now == a + [Block(size, true)]
    requires Aligned(was) && size % MEM_BLOCK == SIZE_MARKER
    ensures Aligned(now) && Total(now) % MEM_BLOCK == 0
  {
    AlignedTail(a, Block(n, true), []);
    TotalAligned(now);
  }

  lemma NoWrap(x: nat, limit: nat)
    requires x <= limit < ADDRESS_WORDS
    ensures x % ADDRESS_WORDS == x
  {
  }

  lemma MergedResized(a: seq<Block>, n: nat, c: seq<Block>, size: nat, ptr: nat)
    requires Aligned([Block(n, true)] + c) && size % MEM_BLOCK == SIZE_MARKER && ptr == Total(a) + SIZE_MARKER
    requires Room(n, c, size) >= size
    ensures Resized(a + ([Block(n, true)] + c), a + Merged(Block(n, true), c, size), ptr, size)
    ensures var bs := a + Merged(Block(n, true), c, size);
            |bs| > |a| && bs == a + ([Block(size, true)] + bs[|a| + 1..])
  {
    var b := Block(n, true);
    forall q: nat, k: nat
      ensures Live(a + Merged(b, c, size), 0, q, k) <==>
              (q == ptr && k == size) || (Live(a + ([b] + c), 0, q, k) && q != ptr)
    {
      LiveConcat(a, [b] + c, 0, q, k);
      LiveConcat(a, Merged(b, c, size), 0, q, k);
      MergedKeeps(b, c, size, Total(a), q, k);
      if Live(a, 0, q, k) { LiveInside(a, 0, q, k); }
    }
  }

  lemma GrownInto(a: seq<Block>, n: nat, c: seq<Block>, size: nat, ptr: nat, ok: bool, newSize: nat)
    requires Aligned([Block(n, true)] + c) && size % MEM_BLOCK == SIZE_MARKER && ptr == Total(a) + SIZE_MARKER
    requires MergedWell(ok, newSize, Block(n, true), c, size)
    ensures ok <==> Room(n, c, size) >= size
    ensures ok ==> Resized(a + ([Block(n, true)] + c), a + Merged(Block(n, true), c, size), ptr, size)
  {
    if ok { MergedResized(a, n, c, size, ptr); }
  }
}
