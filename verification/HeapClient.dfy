/** A client of one contract heap: any sequence of requests, performed on the words of the buffer
    (contracts/eosiolib/eosiolib.cpp). What the client stored in a payload it reads back until it gives it back. */
module HeapClient {
  import opened Options
  import opened HeapBlocks
  import opened HeapTiling
  import opened HeapMemory
  import opened HeapRuns

  /** The words asked for of every payload are in the buffer, and hold `words`. */
  ghost predicate Holds(w: seq<nat>, asked: map<nat, nat>, words: map<nat, seq<nat>>) {
    words.Keys == asked.Keys && forall p <- asked :: HoldsAt(w, p, asked[p], words[p])
  }

  ghost predicate HoldsAt(w: seq<nat>, p: nat, n: nat, s: seq<nat>) {
    p + n <= |w| && s == w[p..p + n]
  }

  function Put(s: seq<nat>, at: nat, value: nat): seq<nat> { if at < |s| then s[at := value] else s }

  predicate SamePrefix(s: seq<nat>, t: seq<nat>, n: nat) { n <= |s| && n <= |t| && s[..n] == t[..n] }

  /** Words kept in all live payloads are kept for the client. */
  lemma StillHeld(w: seq<nat>, w': seq<nat>, bs: seq<Block>, asked: map<nat, nat>, words: map<nat, seq<nat>>)
    requires Honest(View(bs, asked)) && Holds(w, asked, words) && PayloadsKept(w, w', bs)
    ensures Holds(w', asked, words)
  {
    forall p <- asked ensures HoldsAt(w', p, asked[p], words[p]) {
      assert HoldsAt(w, p, asked[p], words[p]) && HasRoom(bs, p, asked[p]);
      var n: nat :| asked[p] <= n && Live(bs, 0, p, n);
      assert forall j | p <= j < p + asked[p] :: w'[j] == w[j];
      assert w'[p..p + asked[p]] == w[p..p + asked[p]];
    }
  }

  /** A payload handed out is in the tiled part of the buffer. */
  lemma Fits(v: View, p: nat)
    requires Honest(v) && p in v.asked
    ensures p + v.asked[p] <= Total(v.blocks)
  {
    var n: nat :| v.asked[p] <= n && Live(v.blocks, 0, p, n);
    LiveInside(v.blocks, 0, p, n);
  }

  /** The client sees a new payload as it is. */
  lemma NewlyHeld(w: seq<nat>, asked: map<nat, nat>, words: map<nat, seq<nat>>, p: nat, size: nat)
    returns (now: seq<nat>)
    requires Holds(w, asked, words) && p + size <= |w|
    ensures Holds(w, asked[p := size], words[p := now]) && |now| == size
  {
    now := w[p..p + size];
    var all, held := asked[p := size], words[p := now];
    forall q <- all ensures HoldsAt(w, q, all[q], held[q]) {
      if q != p { assert HoldsAt(w, q, asked[q], words[q]); }
    }
  }

  /** What a client may ask for; sizes in words, after rounding. */
  datatype Request =
    | Obtain(size: nat)
    | Reobtain(size: nat)
    | Return(p: nat)
    | Change(p: nat, size: nat)
    | Finish
    | Set(p: nat, at: nat, value: nat)

  /** What a client has asked for, and what it holds. */
  datatype Held = Held(asked: map<nat, nat>, words: map<nat, seq<nat>>)

  /** A new payload at `p`, which was not the client's. */
  ghost predicate Granted(h: Held, p: nat, size: nat, h': Held) {
    && p !in h.asked && p in h'.words && |h'.words[p]| == size
    && h' == Held(h.asked[p := size], h.words[p := h'.words[p]])
  }

  /** The payload at `p` has another size, and keeps its words up to the smaller one. */
  ghost predicate Refitted(h: Held, p: nat, size: nat, h': Held) {
    && p in h.asked && p in h.words && p in h'.words && |h'.words[p]| == size
    && SamePrefix(h'.words[p], h.words[p], Min(h.asked[p], size))
    && h' == Held(h.asked[p := size], h.words[p := h'.words[p]])
  }

  function Stored(h: Held, p: nat, at: nat, value: nat): Held
    requires p in h.words
  {
    h.(words := h.words[p := Put(h.words[p], at, value)])
  }

  /** The effect of a request on the client; a request for memory or for another size may be refused. */
  ghost predicate Served(h: Held, r: Request, h': Held) {
    match r
    case Obtain(size) => h' == h || exists p: nat :: Granted(h, p, size, h')
    case Reobtain(size) => h' == h || exists p: nat :: Granted(h, p, size, h')
    case Return(p) => h' == if p in h.asked then Held(h.asked - {p}, h.words - {p}) else h
    case Change(p, size) => h' == h || Refitted(h, p, size, h')
    case Finish => h' == h
    case Set(p, at, value) =>
      h' == if p in h.asked && p in h.words && at < h.asked[p] then Stored(h, p, at, value) else h
  }

  class Client {
    const memory: Memory
    var asked: map<nat, nat>
    ghost var words: map<nat, seq<nat>>

    /** The buffer is tiled; every payload handed out is live and at least as large as asked for; and it holds what
        the client put there. */
    ghost predicate Valid()
      reads this, memory, memory.heap
    {
      memory.Valid() && memory.heapSize > 0 && Honest(View(memory.blocks, asked)) &&
        Holds(memory.heap[..], asked, words)
    }

    /** Sizes are rounded ones below 2^32 bytes that wrap no sum or difference of the tests, pointers are held by the
        client, stores stay inside what was asked for, and a resize waits until the heap is fully handed out. */
    predicate Proper(r: Request)
      reads this, memory
    {
      match r
      case Obtain(size) => size % MEM_BLOCK == SIZE_MARKER && memory.offset + size + SIZE_MARKER < ADDRESS_WORDS
      case Reobtain(size) => size % MEM_BLOCK == SIZE_MARKER
      case Return(p) => p in asked
      case Change(p, size) =>
        && p in asked && size % MEM_BLOCK == SIZE_MARKER && size < ADDRESS_WORDS
        && Fair(memory.base, memory.heapSize, size) && memory.offset == memory.heapSize
      case Finish => true
      case Set(p, at, value) => p in asked && at < asked[p]
    }

    constructor (memory: Memory)
      requires memory.Valid() && memory.blocks == [] && memory.heapSize > 0
      ensures Valid() && this.memory == memory && asked == map[]
    {
      this.memory, asked, words := memory, map[], map[];
    }

    /** What the client has asked for and what it holds. */
    ghost function Now(): Held
      reads this
    {
      Held(asked, words)
    }

    /** The allocation on the memory, and what the payload then holds. */
    method TakeMemory(size: nat) returns (r: Option<nat>, ghost now: seq<nat>)
      requires Valid() && Proper(Obtain(size))
      modifies memory, memory.heap
      ensures memory.Valid() && memory.heap == old(memory.heap) && memory.heapSize == old(memory.heapSize)
      ensures r.None? ==> Valid()
      ensures r.Some? ==> Honest(View(memory.blocks, asked[r.value := size])) && r.value !in asked && |now| == size
      ensures r.Some? ==> Holds(memory.heap[..], asked[r.value := size], words[r.value := now])
    {
      ghost var w, bs := memory.heap[..], memory.blocks;
      r := memory.Malloc(size);
      if r.None? { return r, []; }
      now := Appended(w, memory.heap[..], bs, asked, size, r.value, memory.blocks, words);
    }

    method Take(size: nat) returns (r: Option<nat>)
      requires Valid() && Proper(Obtain(size))
      modifies this, memory, memory.heap
      ensures Valid() && memory.heap == old(memory.heap)
      ensures if r.Some? then Granted(old(Now()), r.value, size, Now()) else Now() == old(Now())
    {
      ghost var now;
      r, now := TakeMemory(size);
      if r.Some? { asked, words := asked[r.value := size], words[r.value := now]; }
    }

    /** The search among freed blocks, and what the payload then holds. */
    method TakeFreedMemory(size: nat) returns (r: Option<nat>, ghost now: seq<nat>)
      requires Valid() && size % MEM_BLOCK == SIZE_MARKER
      modifies memory, memory.heap
      ensures memory.Valid() && memory.heap == old(memory.heap) && memory.heapSize == old(memory.heapSize)
      ensures r.None? ==> Valid()
      ensures r.Some? ==> Honest(View(memory.blocks, asked[r.value := size])) && r.value !in asked && |now| == size
      ensures r.Some? ==> Holds(memory.heap[..], asked[r.value := size], words[r.value := now])
    {
      ghost var w, bs := memory.heap[..], memory.blocks;
      var failed;
      failed, r := memory.MallocFromFreed(size);
      StillHeld(w, memory.heap[..], bs, asked, words);
      now := [];
      if !failed { now := Reused(memory.heap[..], bs, asked, size, r, memory.blocks, words); }
    }

    method TakeFreed(size: nat) returns (r: Option<nat>)
      requires Valid() && size % MEM_BLOCK == SIZE_MARKER
      modifies this, memory, memory.heap
      ensures Valid() && memory.heap == old(memory.heap)
      ensures if r.Some? then Granted(old(Now()), r.value, size, Now()) else Now() == old(Now())
    {
      ghost var now;
      r, now := TakeFreedMemory(size);
      if r.Some? { asked, words := asked[r.value := size], words[r.value := now]; }
    }

    method GiveBack(p: nat)
      requires Valid() && p in asked
      modifies this, memory, memory.heap
      ensures Valid() && memory.heap == old(memory.heap)
      ensures Now() == Held(old(asked) - {p}, old(words) - {p})
    {
      ghost var w, bs := memory.heap[..], memory.blocks;
      ghost var n := RoomOf(bs, asked, p);
      memory.Free(p, n);
      ReleaseHonest(View(bs, asked), p, View(memory.blocks, asked - {p}));
      StillHeld(w, memory.heap[..], bs, asked, words);
      HeldBut(memory.heap[..], asked, words, p);
      asked, words := asked - {p}, words - {p};
    }

    method CleanUp()
      requires Valid()
      modifies memory, memory.heap
      ensures Valid() && memory.heap == old(memory.heap) && memory.offset == memory.heapSize
    {
      ghost var w, bs, rest := memory.heap[..], memory.blocks, memory.heapSize - memory.offset;
      memory.CleanupRemaining();
      Finished(w, memory.heap[..], bs, asked, rest, memory.blocks, words);
    }

    /** The resize on the memory, and what the payload then holds. */
    method ResizeMemory(p: nat, size: nat) returns (ok: bool, ghost now: seq<nat>)
      requires Valid() && p in asked && size % MEM_BLOCK == SIZE_MARKER && size < ADDRESS_WORDS
      requires memory.CanResize(p, size)
      modifies memory, memory.heap
      ensures memory.Valid() && memory.heap == old(memory.heap) && memory.heapSize == old(memory.heapSize)
      ensures !ok ==> Valid()
      ensures ok ==> Honest(View(memory.blocks, asked[p := size]))
      ensures ok ==> Holds(memory.heap[..], asked[p := size], words[p := now])
      ensures ok ==> p in words && |now| == size && SamePrefix(now, words[p], Min(asked[p], size))
    {
      ghost var w, bs := memory.heap[..], memory.blocks;
      ghost var n := RoomOf(bs, asked, p);
      ghost var a, c := LiveSplit(bs, 0, p, n);
      var r, origSize := memory.ReallocInPlace(p, size, n, a, c);
      if r.None? { return false, []; }
      ok := true;
      now := HeldAfterResize(w, memory.heap[..], bs, asked, p, size, n, memory.blocks, words);
    }

    /** A payload that can be resized in place keeps its words up to the smaller of both sizes, and no other changes. */
    method Resize(p: nat, size: nat) returns (ok: bool)
      requires Valid() && p in asked && size % MEM_BLOCK == SIZE_MARKER && size < ADDRESS_WORDS
      requires memory.CanResize(p, size)
      modifies this, memory, memory.heap
      ensures Valid() && memory.heap == old(memory.heap)
      ensures if ok then Refitted(old(Now()), p, size, Now()) else Now() == old(Now())
    {
      ghost var now;
      ok, now := ResizeMemory(p, size);
      if ok { asked, words := asked[p := size], words[p := now]; }
    }

    /** The store in the memory. */
    method StoreMemory(p: nat, at: nat, value: nat)
      requires Valid() && p in asked && at < asked[p]
      modifies memory.heap
      ensures memory.Valid() && p in words && Holds(memory.heap[..], asked, words[p := Put(words[p], at, value)])
    {
      ghost var w := memory.heap[..];
      ghost var n := RoomOf(memory.blocks, asked, p);
      Fits(View(memory.blocks, asked), p);
      memory.Write(p, n, p + at, value);
      HeldAfterStore(w, memory.heap[..], View(memory.blocks, asked), p, at, value, words);
    }

    method Store(p: nat, at: nat, value: nat)
      requires Valid() && p in asked && at < asked[p]
      modifies this, memory.heap
      ensures Valid() && Now() == Stored(old(Now()), p, at, value)
    {
      StoreMemory(p, at, value);
      words := words[p := Put(words[p], at, value)];
    }

    /** One request, if it is proper. */
    method Serve(r: Request)
      requires Valid()
      modifies this, memory, memory.heap
      ensures Valid() && memory.heap == old(memory.heap)
      ensures Served(old(Now()), r, Now())
    {
      if !Proper(r) { return; }
      match r
      case Obtain(size) => var p := Take(size);
      case Reobtain(size) => var p := TakeFreed(size);
      case Return(p) => GiveBack(p);
      case Change(p, size) => var ok := Resize(p, size);
      case Finish => CleanUp();
      case Set(p, at, value) => Store(p, at, value);
    }

    /** Whatever is requested in whatever order, payloads handed out stay disjoint, inside the buffer and as large as
        asked for, and what they hold is what the requests made of it, one after the other. */
    method ServeAll(rs: seq<Request>) returns (ghost hist: seq<Held>)
      requires Valid()
      modifies this, memory, memory.heap
      ensures Valid()
      ensures History(hist, rs) && Sized(hist[0]) && hist[0] == old(Now()) && hist[|rs|] == Now()
      ensures forall p, q :: p in asked && q in asked && p < q ==> p + asked[p] < q
    {
      hist := [Now()];
      HeldIsSized(memory.heap[..], asked, words);
      for i := 0 to |rs|
        invariant Valid() && memory.heap == old(memory.heap)
        invariant History(hist, rs[..i]) && hist[0] == old(Now()) && hist[i] == Now()
      {
        Serve(rs[i]);
        HistoryGrows(hist, rs[..i], rs[i], Now());
        assert rs[..i + 1] == rs[..i] + [rs[i]];
        hist := hist + [Now()];
      }
      assert rs[..|rs|] == rs;
      forall p, q | p in asked && q in asked && p < q ensures p + asked[p] < q {
        HandedOutDisjoint(View(memory.blocks, asked), p, q);
      }
    }

    method Load(p: nat, at: nat) returns (value: nat)
      requires Valid() && p in asked && at < asked[p]
      ensures value == words[p][at]
    {
      assert HoldsAt(memory.heap[..], p, asked[p], words[p]);
      value := memory.heap[p + at];
    }
  }

  // ---------- what requests do to what the client holds ----------

  /** A run of requests, each with its effect. */
  ghost predicate History(hist: seq<Held>, rs: seq<Request>) {
    |hist| == |rs| + 1 && forall i | 0 <= i < |rs| :: Served(hist[i], rs[i], hist[i + 1])
  }

  lemma HistoryGrows(hist: seq<Held>, rs: seq<Request>, r: Request, h: Held)
    requires History(hist, rs) && Served(hist[|rs|], r, h)
    ensures History(hist + [h], rs + [r])
  {
    var more, all := hist + [h], rs + [r];
    forall i | 0 <= i < |all| ensures Served(more[i], all[i], more[i + 1]) {
      if i < |rs| { assert Served(hist[i], rs[i], hist[i + 1]); }
    }
  }

  /** Exactly the words asked for are held. */
  ghost predicate Sized(h: Held) { h.words.Keys == h.asked.Keys && forall p <- h.asked :: |h.words[p]| == h.asked[p] }

  lemma HeldIsSized(w: seq<nat>, asked: map<nat, nat>, words: map<nat, seq<nat>>)
    requires Holds(w, asked, words)
    ensures Sized(Held(asked, words))
  {
    forall p <- asked ensures |words[p]| == asked[p] { assert HoldsAt(w, p, asked[p], words[p]); }
  }

  lemma ServedSized(h: Held, r: Request, h': Held)
    requires Served(h, r, h') && Sized(h)
    ensures Sized(h')
  {
  }

  lemma {:induction false} HistorySized(hist: seq<Held>, rs: seq<Request>, k: nat)
    requires History(hist, rs) && Sized(hist[0]) && k <= |rs|
    ensures Sized(hist[k])
  {
    if k > 0 {
      HistorySized(hist, rs, k - 1);
      assert Served(hist[k - 1], rs[k - 1], hist[k - 1 + 1]);
      ServedSized(hist[k - 1], rs[k - 1], hist[k]);
    }
  }

  /** Does the request leave the word at `at` of the payload `p` alone? */
  predicate Spares(r: Request, p: nat, at: nat) {
    match r
    case Return(q) => q != p
    case Change(q, size) => q == p ==> at < size
    case Set(q, i, value) => q == p ==> i != at
    case _ => true
  }

  /** The client holds `value` in the word at `at` of `p`. */
  ghost predicate HasWord(h: Held, p: nat, at: nat, value: nat) {
    p in h.asked && p in h.words && at < h.asked[p] && at < |h.words[p]| && h.words[p][at] == value
  }

  lemma SparedWord(h: Held, r: Request, h': Held, p: nat, at: nat, value: nat)
    requires Served(h, r, h') && Spares(r, p, at) && HasWord(h, p, at, value)
    ensures HasWord(h', p, at, value)
  {
    match r
    case Obtain(size) =>
      if h' != h { var q: nat :| Granted(h, q, size, h'); }
    case Reobtain(size) =>
      if h' != h { var q: nat :| Granted(h, q, size, h'); }
    case Change(q, size) =>
      if q == p && h' != h {
        assert at < Min(h.asked[p], size);
        assert h'.words[p][at] == h'.words[p][..Min(h.asked[p], size)][at];
      }
    case Return(q) =>
    case Finish =>
    case Set(q, i, v) =>
  }

  /** Over every run of requests, what a client stored in a word of a payload is there until it stores there again,
      cuts the word off, or gives the payload back. */
  lemma {:induction false} LastStoreStays(hist: seq<Held>, rs: seq<Request>, i: nat, p: nat, at: nat, value: nat,
                                          k: nat)
    requires History(hist, rs) && Sized(hist[0]) && i < k <= |rs| && rs[i] == Set(p, at, value)
    requires p in hist[i].asked && at < hist[i].asked[p]
    requires forall j | i < j < k :: Spares(rs[j], p, at)
    ensures HasWord(hist[k], p, at, value)
  {
    if k == i + 1 {
      HistorySized(hist, rs, i);
      assert Served(hist[i], rs[i], hist[i + 1]);
    } else {
      LastStoreStays(hist, rs, i, p, at, value, k - 1);
      assert Served(hist[k - 1], rs[k - 1], hist[k - 1 + 1]);
      SparedWord(hist[k - 1], rs[k - 1], hist[k], p, at, value);
    }
  }

  // ---------- the payloads in the buffer ----------

  /** A payload handed out has a live block with room for what was asked. */
  lemma RoomOf(bs: seq<Block>, asked: map<nat, nat>, p: nat) returns (n: nat)
    requires Honest(View(bs, asked)) && p in asked
    ensures asked[p] <= n && Live(bs, 0, p, n)
  {
    assert HasRoom(bs, p, asked[p]);
    n :| asked[p] <= n && Live(bs, 0, p, n);
  }

  lemma HeldBut(w: seq<nat>, asked: map<nat, nat>, words: map<nat, seq<nat>>, p: nat)
    requires Holds(w, asked, words)
    ensures Holds(w, asked - {p}, words - {p})
  {
    forall q <- asked - {p} ensures HoldsAt(w, q, asked[q], words[q]) {}
  }

  /** A block appended to the heap is a new payload of the client, who sees it as it is. */
  lemma Appended(w: seq<nat>, w': seq<nat>, bs: seq<Block>, asked: map<nat, nat>, size: nat, p: nat,
                 bs': seq<Block>, words: map<nat, seq<nat>>) returns (now: seq<nat>)
    requires Honest(View(bs, asked)) && size % MEM_BLOCK == SIZE_MARKER && p == Total(bs) + SIZE_MARKER
    requires bs' == bs + [Block(size, true)] && Total(bs') <= |w'|
    requires Holds(w, asked, words) && PayloadsKept(w, w', bs)
    ensures Honest(View(bs', asked[p := size])) && p !in asked && |now| == size
    ensures Holds(w', asked[p := size], words[p := now])
  {
    var v := View(bs, asked);
    AppendHonest(v, Block(size, true));
    NotHeldYet(v, p);
    Fits(View(bs', asked[p := size]), p);
    StillHeld(w, w', bs, asked, words);
    now := NewlyHeld(w', asked, words, p, size);
  }

  /** A free block appended changes nothing for the client. */
  lemma Finished(w: seq<nat>, w': seq<nat>, bs: seq<Block>, asked: map<nat, nat>, rest: nat, bs': seq<Block>,
                 words: map<nat, seq<nat>>)
    requires Honest(View(bs, asked)) && rest % MEM_BLOCK == 0 && PayloadsKept(w, w', bs) && Holds(w, asked, words)
    requires rest == 0 ==> bs' == bs
    requires rest > 0 ==> rest > SIZE_MARKER && bs' == bs + [Block(rest - SIZE_MARKER, false)]
    ensures Honest(View(bs', asked)) && Holds(w', asked, words)
  {
    StillHeld(w, w', bs, asked, words);
    if rest > 0 { AppendHonest(View(bs, asked), Block(rest - SIZE_MARKER, false)); }
  }

  /** So is a block found by first fit. */
  lemma Reused(w: seq<nat>, bs: seq<Block>, asked: map<nat, nat>, size: nat, r: Option<nat>, bs': seq<Block>,
               words: map<nat, seq<nat>>) returns (now: seq<nat>)
    requires Honest(View(bs, asked)) && size % MEM_BLOCK == SIZE_MARKER && Fit(bs', r) == FirstFit(bs, size)
    requires Total(bs') <= |w| && Holds(w, asked, words)
    ensures Honest(View(bs', if r.Some? then asked[r.value := size] else asked))
    ensures r.Some? ==> r.value !in asked && |now| == size && Holds(w, asked[r.value := size], words[r.value := now])
  {
    var v, v' := View(bs, asked), View(bs', if r.Some? then asked[r.value := size] else asked);
    ReuseHonest(v, size, v');
    now := [];
    if r.Some? {
      FreshPointer(v, size, r.value);
      Fits(v', r.value);
      now := NewlyHeld(w, asked, words, r.value, size);
    }
  }

  /** A pointer behind all blocks is no client's. */
  lemma NotHeldYet(v: View, p: nat)
    requires Honest(v) && p > Total(v.blocks)
    ensures p !in v.asked
  {
    if p in v.asked {
      var n: nat :| v.asked[p] <= n && Live(v.blocks, 0, p, n);
      LiveInside(v.blocks, 0, p, n);
    }
  }

  /** A run of free blocks starts at no client's pointer. */
  lemma FreeRunIsFree(bs: seq<Block>, i: nat, n: nat)
    requires i < |bs| && !bs[i].live
    ensures !Live(bs, 0, Total(bs[..i]) + SIZE_MARKER, n)
  {
    var p := Total(bs[..i]) + SIZE_MARKER;
    assert bs == bs[..i] + bs[i..];
    LiveConcat(bs[..i], bs[i..], 0, p, n);
    if Live(bs[..i], 0, p, n) { LiveInside(bs[..i], 0, p, n); }
    if Live(bs[i..][1..], p + bs[i].size, p, n) { LiveInside(bs[i..][1..], p + bs[i].size, p, n); }
  }

  lemma StartsFree(bs: seq<Block>, size: nat, p: nat, n: nat)
    requires Aligned(bs) && size % MEM_BLOCK == SIZE_MARKER && FirstFit(bs, size).at == Some(p)
    ensures !Live(bs, 0, p, n)
  {
    var i := FitRun(bs, size, p);
    FreeRunIsFree(bs, i, n);
  }

  lemma FitRun(bs: seq<Block>, size: nat, p: nat) returns (i: nat)
    requires Aligned(bs) && size % MEM_BLOCK == SIZE_MARKER && FirstFit(bs, size).at == Some(p)
    ensures i < |bs| && !bs[i].live && p == Total(bs[..i]) + SIZE_MARKER
  {
    FirstFitIsComplete(bs, size);
    var first: nat, j: nat :| FreeRun(bs, first, j) && FirstAt(bs, size, p, first, j);
    i := first;
  }

  lemma FreshPointer(v: View, size: nat, p: nat)
    requires Honest(v) && size % MEM_BLOCK == SIZE_MARKER && FirstFit(v.blocks, size).at == Some(p)
    ensures p !in v.asked
  {
    if p in v.asked {
      var n: nat :| v.asked[p] <= n && Live(v.blocks, 0, p, n);
      StartsFree(v.blocks, size, p, n);
    }
  }

  lemma OthersHeld(w: seq<nat>, w': seq<nat>, v: View, p: nat, keep: nat, words: map<nat, seq<nat>>, q: nat)
    requires Honest(v) && Holds(w, v.asked, words) && p in v.asked && KeptUpTo(w, w', v.blocks, p, keep)
    requires q in v.asked && q != p
    ensures HoldsAt(w', q, v.asked[q], words[q])
  {
    assert HoldsAt(w, q, v.asked[q], words[q]) && HasRoom(v.blocks, q, v.asked[q]);
    var n: nat :| v.asked[q] <= n && Live(v.blocks, 0, q, n);
    assert forall j | q <= j < q + v.asked[q] :: w'[j] == w[j];
    assert w'[q..q + v.asked[q]] == w[q..q + v.asked[q]];
  }

  lemma PrefixHeld(w: seq<nat>, w': seq<nat>, v: View, p: nat, size: nat, keep: nat, words: map<nat, seq<nat>>)
    requires Honest(v) && Holds(w, v.asked, words) && p in v.asked && KeptUpTo(w, w', v.blocks, p, keep)
    requires p + size <= |w| && Min(v.asked[p], size) <= keep
    ensures SamePrefix(w'[p..p + size], words[p], Min(v.asked[p], size))
  {
    assert HoldsAt(w, p, v.asked[p], words[p]) && HasRoom(v.blocks, p, v.asked[p]);
    var n: nat :| v.asked[p] <= n && Live(v.blocks, 0, p, n);
    var m, s, t := Min(v.asked[p], size), w'[p..p + size], words[p];
    forall i | 0 <= i < m ensures s[i] == t[i] {
      assert w'[p + i] == w[p + i];
    }
    assert s[..m] == t[..m];
  }

  lemma HeldAfterResize(w: seq<nat>, w': seq<nat>, bs: seq<Block>, asked: map<nat, nat>, p: nat, size: nat, n: nat,
                        bs': seq<Block>, words: map<nat, seq<nat>>) returns (now: seq<nat>)
    requires Honest(View(bs, asked)) && Holds(w, asked, words) && p in asked && asked[p] <= n
    requires KeptUpTo(w, w', bs, p, Min(n, size)) && Resized(bs, bs', p, if n < size then size else n)
    requires Aligned(bs') && Total(bs') <= |w'|
    ensures Honest(View(bs', asked[p := size]))
    ensures Holds(w', asked[p := size], words[p := now])
    ensures |now| == size && SamePrefix(now, words[p], Min(asked[p], size))
  {
    var v, all := View(bs, asked), asked[p := size];
    ResizeHonest(v, p, size, View(bs', all));
    Fits(View(bs', all), p);
    PrefixHeld(w, w', v, p, size, Min(n, size), words);
    now := w'[p..p + size];
    var held := words[p := now];
    forall q <- all ensures HoldsAt(w', q, all[q], held[q]) {
      if q != p { OthersHeld(w, w', v, p, Min(n, size), words, q); }
    }
  }

  lemma HeldAfterStore(w: seq<nat>, w': seq<nat>, v: View, p: nat, at: nat, value: nat, words: map<nat, seq<nat>>)
    requires Honest(v) && Holds(w, v.asked, words) && p in v.asked && at < v.asked[p]
    requires p + at < |w| && w' == w[p + at := value]
    ensures |words[p]| == v.asked[p] && Holds(w', v.asked, words[p := Put(words[p], at, value)])
  {
    assert HoldsAt(w, p, v.asked[p], words[p]);
    var held := words[p := Put(words[p], at, value)];
    forall q <- v.asked ensures HoldsAt(w', q, v.asked[q], held[q]) {
      assert HoldsAt(w, q, v.asked[q], words[q]);
      if q != p { HandedOutDisjoint(v, p, q); }
    }
  }
}
