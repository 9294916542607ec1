/** The block log (libraries/chain/block_log.cpp): a file of blocks, an index file of their positions, and the reads,
    appends and rebuilds over them. A write position is the size of the file. */
module BlockLog {
  import opened Options
  import opened ByteStrings
  import opened BlockLogFiles

  const TWO32: nat := 0x1_0000_0000
  const MAX_VERSION: nat := 2

  /** A header of the same size leaves the rest of the log and the index as they are. */
  lemma {:induction false} Rehead<B>(c: Codec<B>, h: Bytes, g: Bytes, bs: seq<B>)
    requires |h| == |g|
    ensures |LogOf(c, h, bs)| >= |h| && LogOf(c, g, bs) == g + LogOf(c, h, bs)[|h|..]
    ensures IndexOf(c, g, bs) == IndexOf(c, h, bs)
  {
    if bs != [] { Rehead(c, h, g, bs[..|bs| - 1]); }
  }

  /** uint32 subtraction. */
  function WrapSub(x: nat, y: nat): nat
    requires x < TWO32 && y < TWO32
  {
    (x + TWO32 - y) % TWO32
  }

  lemma WrapSubExact(x: nat, y: nat, n: nat)
    requires x < TWO32 && y + n < TWO32
    ensures WrapSub(x, y) == n <==> x == y + n
  {
  }

  /** Blocks are numbered one by one from `first`. */
  ghost predicate Numbered<B(!new)>(num: B -> nat, first: nat, bs: seq<B>) {
    forall k :: 0 <= k < |bs| ==> num(bs[k]) == first + k
  }

  /** The two files hold `bs` behind the header `h`. */
  ghost predicate Files<B>(c: Codec<B>, h: Bytes, bs: seq<B>, log: Bytes, index: Bytes) {
    log == LogOf(c, h, bs) && index == IndexOf(c, h, bs)
  }

  lemma FilesAppend<B>(c: Codec<B>, h: Bytes, bs: seq<B>, log: Bytes, index: Bytes, b: B)
    requires Files(c, h, bs, log, index)
    ensures Files(c, h, bs + [b], log + c.pack(b) + Little(|log|, 8), index + Little(|log|, 8))
  {
    assert (bs + [b])[..|bs|] == bs;
  }

  lemma NumberedAppend<B(!new)>(num: B -> nat, first: nat, bs: seq<B>, b: B)
    requires Numbered(num, first, bs) && num(b) == first + |bs|
    ensures Numbered(num, first, bs + [b])
  {
  }

  lemma HeaderVersion<G>(gc: Codec<G>, first: nat, gs: G, v: nat, w: nat)
    ensures |Header(gc, v, first, gs)| == |gc.pack(gs)| + 16 && Header(gc, v, first, gs)[..4] == Little(v, 4)
    ensures Header(gc, w, first, gs) == Little(w, 4) + Header(gc, v, first, gs)[4..]
  {
    HeaderTail(Little(v, 4), Little(first, 4), gc.pack(gs), Little(NPOS, 8));
    HeaderTail(Little(w, 4), Little(first, 4), gc.pack(gs), Little(NPOS, 8));
  }

  lemma HeaderTail(version: Bytes, first: Bytes, gs: Bytes, totem: Bytes)
    requires |version| == 4
    ensures var h := version + first + gs + totem; h[..4] == version && h[4..] == first + gs + totem
  {
  }

  /** Only the version changes. */
  lemma FilesRehead<B>(c: Codec<B>, h: Bytes, g: Bytes, bs: seq<B>, w: Bytes, log: Bytes, index: Bytes)
    requires Files(c, h, bs, log, index) && |h| >= 4 == |w| && g == w + h[4..]
    ensures |log| >= 4 && log[..4] == h[..4] && Files(c, g, bs, w + log[4..], index)
  {
    Rehead(c, h, g, bs);
    Rehead(c, h, h, bs);
    Splice(log, h, g, w, log[|h|..]);
  }

  lemma Splice(log: Bytes, h: Bytes, g: Bytes, w: Bytes, rest: Bytes)
    requires log == h + rest && |h| >= 4 == |w| && g == w + h[4..]
    ensures log[..4] == h[..4] && w + log[4..] == g + rest
  {
  }

  /** Entry `k` of the index is the position of block `k`. */
  lemma StoredPosition<B>(c: Codec<B>, h: Bytes, bs: seq<B>, k: nat)
    requires k < |bs| && |LogOf(c, h, bs)| < NPOS
    ensures |IndexOf(c, h, bs)| == 8 * |bs| && Start(c, h, bs, k) < NPOS
    ensures Number(IndexOf(c, h, bs)[8 * k..8 * k + 8]) == Start(c, h, bs, k)
  {
    IndexEntry(c, h, bs, k);
    LogFrom(c, h, bs, k);
    PositionFits(Start(c, h, bs, k));
  }

  lemma PositionFits(pos: nat)
    requires pos <= NPOS
    ensures Number(Little(pos, 8)) == pos
  {
    assert Pow256(8) == NPOS + 1;
    NumberOfLittle(pos, 8);
  }

  lemma ReadsBlock<B(!new)>(c: Codec<B>, h: Bytes, bs: seq<B>, k: nat)
    requires Lawful(c) && k < |bs|
    ensures Start(c, h, bs, k) <= Start(c, h, bs, k + 1) <= |LogOf(c, h, bs)|
    ensures c.unpack(LogOf(c, h, bs)[Start(c, h, bs, k)..])
         == Some((bs[k], Little(Start(c, h, bs, k), 8) + LogOf(c, h, bs)[Start(c, h, bs, k + 1)..]))
  {
    LogFrom(c, h, bs, k);
  }

  /** The last eight bytes say where the last block starts, or that there is none. */
  lemma EndOfLog<G(!new), B>(gc: Codec<G>, c: Codec<B>, first: nat, gs: G, bs: seq<B>, log: Bytes)
    requires Lawful(gc) && log == LogOf(c, Header(gc, MAX_VERSION, first, gs), bs) && |log| < NPOS
    ensures |log| >= 16
    ensures Number(log[|log| - 8..])
         == if bs == [] then NPOS else Start(c, Header(gc, MAX_VERSION, first, gs), bs, |bs| - 1)
    ensures bs != [] ==> Start(c, Header(gc, MAX_VERSION, first, gs), bs, |bs| - 1) < NPOS
  {
    var h := Header(gc, MAX_VERSION, first, gs);
    HeaderParts(gc, MAX_VERSION, first, gs, []);
    if bs == [] {
      PositionFits(NPOS);
    } else {
      LogEnd(c, h, bs);
      LogFrom(c, h, bs, |bs| - 1);
      LogGrows(c, h, bs, 0);
      PositionFits(Start(c, h, bs, |bs| - 1));
    }
  }

  /** How far the rebuild has come: `k` blocks read, `rest` of the log to go. */
  ghost predicate Rebuilding<B>(c: Codec<B>, h: Bytes, bs: seq<B>, k: nat, pos: nat, rest: Bytes, index: Bytes) {
    k <= |bs| && Start(c, h, bs, k) <= |LogOf(c, h, bs)| && rest == LogOf(c, h, bs)[Start(c, h, bs, k)..] &&
    index == IndexOf(c, h, bs[..k]) && pos == if k == 0 then 8 else Start(c, h, bs, k - 1)
  }

  lemma {:induction false} RebuildStarts<G(!new), B>(gc: Codec<G>, c: Codec<B>, first: nat, gs: G, bs: seq<B>,
                                                     log: Bytes)
    requires Lawful(gc) && log == LogOf(c, Header(gc, MAX_VERSION, first, gs), bs)
    ensures |log| >= 16 && gc.unpack(log[8..]).Some? && |gc.unpack(log[8..]).value.1| >= 8
    ensures Rebuilding(c, Header(gc, MAX_VERSION, first, gs), bs, 0, 8, gc.unpack(log[8..]).value.1[8..], [])
  {
    var rest := AfterHeader(c, Header(gc, MAX_VERSION, first, gs), bs, log);
    HeaderParts(gc, MAX_VERSION, first, gs, rest);
  }

  lemma {:induction false} AfterHeader<B>(c: Codec<B>, h: Bytes, bs: seq<B>, log: Bytes) returns (rest: Bytes)
    requires log == LogOf(c, h, bs)
    ensures log == h + rest && Rebuilding(c, h, bs, 0, 8, rest, [])
  {
    LogGrows(c, h, bs, 0);
    assert bs[..0] == [];
    rest := log[|h|..];
  }

  lemma {:induction false} RebuildStep<B(!new)>(c: Codec<B>, h: Bytes, bs: seq<B>, k: nat, pos: nat, rest: Bytes,
                                                index: Bytes)
    requires Lawful(c) && Rebuilding(c, h, bs, k, pos, rest, index) && k < |bs| && |LogOf(c, h, bs)| < NPOS
    ensures c.unpack(rest).Some? && 8 <= |c.unpack(rest).value.1| <= |rest|
    ensures
      var next := c.unpack(rest).value.1;
      var p := Number(next[..8]);
      Rebuilding(c, h, bs, k + 1, p, next[8..], index + Little(p, 8))
  {
    LogFrom(c, h, bs, k);
    IndexEntry(c, h, bs, k);
    PositionFits(Start(c, h, bs, k));
  }

  /** The rebuild stops exactly behind the last block. */
  lemma RebuildEnds<B>(c: Codec<B>, h: Bytes, bs: seq<B>, k: nat, pos: nat, rest: Bytes, index: Bytes)
    requires Rebuilding(c, h, bs, k, pos, rest, index) && bs != [] && |h| >= 16
    ensures pos < Start(c, h, bs, |bs| - 1) <==> k < |bs|
  {
    LogGrows(c, h, bs[..|bs| - 1], 0);
    if 0 < k < |bs| {
      LogGrows(c, h, bs[..|bs| - 1], k - 1);
      TakeTake(bs, k - 1, |bs| - 1);
    }
  }

  /** A log without blocks is read past its end, as its last eight bytes are the totem. */
  lemma NothingToRebuild<B(!new)>(c: Codec<B>, h: Bytes, pos: nat, rest: Bytes, index: Bytes)
    requires Lawful(c) && Rebuilding(c, h, [], 0, pos, rest, index)
    ensures c.unpack(rest).Some? ==> |c.unpack(rest).value.1| < 8
  {
    assert |rest| == 0;
  }

  /** Rebuilds the index from the bytes of the log alone: it comes out as the appends wrote it. The rebuild of a log
      that holds no block fails. */
  method Rebuild<G(!new), B(!new)>(gc: Codec<G>, c: Codec<B>, log: Bytes,
                                   ghost first: nat, ghost gs: G, ghost bs: seq<B>) returns (ok: bool, index: Bytes)
    requires Lawful(gc) && Lawful(c)
    requires log == LogOf(c, Header(gc, MAX_VERSION, first, gs), bs) && |log| < NPOS
    ensures (ok <==> bs != []) && index == IndexOf(c, Header(gc, MAX_VERSION, first, gs), bs)
  {
    ghost var h := Header(gc, MAX_VERSION, first, gs);
    RebuildStarts(gc, c, first, gs, bs, log);
    EndOfLog(gc, c, first, gs, bs, log);
    HeaderParts(gc, MAX_VERSION, first, gs, []);
    index := [];
    var endPos := Number(log[|log| - 8..]);
    var pos: nat := 8;
    var start := gc.unpack(log[pos..]);
    if start.None? { return false, []; }
    var rest := start.value.1[8..];
    ghost var k := 0;
    if bs == [] { NothingToRebuild(c, h, pos, rest, index); } else { RebuildEnds(c, h, bs, k, pos, rest, index); }
    while pos < endPos
      invariant Rebuilding(c, h, bs, k, pos, rest, index)
      invariant if bs == [] then k == 0 && pos < endPos else (pos < endPos <==> k < |bs|)
      decreases |rest|
    {
      if bs != [] { RebuildStep(c, h, bs, k, pos, rest, index); }
      var block := c.unpack(rest);
      if block.None? || |block.value.1| < 8 { return false, []; }
      rest := block.value.1;
      pos := Number(rest[..8]);
      rest := rest[8..];
      index := index + Little(pos, 8);
      k := k + 1;
      RebuildEnds(c, h, bs, k, pos, rest, index);
    }
    assert bs[..k] == bs;
    return true, index;
  }

  class BlockLog<G(!new), B(!new)> {
    const gsCodec: Codec<G>
    const codec: Codec<B>
    const num: B -> nat
    var log: Bytes
    var index: Bytes
    var version: nat
    var first: nat
    var head: Option<B>
    var genesisWritten: bool
    ghost var genesis: Option<G>
    ghost var blocks: seq<B>

    /** The files hold `blocks`, numbered from `first`, in the format of version `v`. */
    ghost predicate Holds(v: nat)
      reads this
    {
      Lawful(gsCodec) && Lawful(codec) && genesisWritten && genesis.Some? && version == v &&
        first + |blocks| <= TWO32 &&
      Files(codec, Header(gsCodec, v, first, genesis.value), blocks, log, index) && |log| < NPOS &&
      Numbered(num, first, blocks) && (blocks != [] ==> head == Some(blocks[|blocks| - 1]))
    }

    ghost predicate Valid()
      reads this
    {
      Holds(MAX_VERSION)
    }

    constructor (gsCodec: Codec<G>, codec: Codec<B>, num: B -> nat)
      ensures this.gsCodec == gsCodec && this.codec == codec && this.num == num
      ensures log == [] && index == [] && !genesisWritten && head == None
    {
      this.gsCodec, this.codec, this.num := gsCodec, codec, num;
      log, index, version, first, head, genesisWritten := [], [], 0, 0, None, false;
      genesis, blocks := None, [];
    }

    /** Appends the block that comes next and refuses every other. */
    method Append(b: B) returns (ok: bool, pos: nat)
      requires Holds(version) && first + |blocks| < TWO32 && num(b) < TWO32 && |log| + |codec.pack(b)| + 8 < NPOS
      modifies this`log, this`index, this`head, this`blocks
      ensures Holds(version)
      ensures ok <==> num(b) == first + |old(blocks)|
      ensures blocks == if ok then old(blocks) + [b] else old(blocks)
      ensures ok ==> pos == |old(log)| && head == Some(b)
      ensures !ok ==> log == old(log) && index == old(index) && head == old(head)
    {
      pos := |log|;
      ghost var h := Header(gsCodec, version, first, genesis.value);
      IndexGrows(codec, h, blocks, |blocks|);
      WrapSubExact(num(b), first, |blocks|);
      if !genesisWritten || |index| != 8 * WrapSub(num(b), first) { return false, 0; }
      FilesAppend(codec, h, blocks, log, index, b);
      NumberedAppend(num, first, blocks, b);
      log := log + codec.pack(b) + Little(pos, 8);
      index := index + Little(pos, 8);
      head := Some(b);
      blocks := blocks + [b];
      return true, pos;
    }

    /** Writes a header of version 0, which no reader accepts. */
    method WriteHeader(gs: G, firstNum: nat)
      requires Lawful(gsCodec) && Lawful(codec) && firstNum < TWO32 && |gsCodec.pack(gs)| + 32 < NPOS
      modifies this
      ensures Holds(0) && first == firstNum && genesis == Some(gs) && blocks == [] && |log| == |gsCodec.pack(gs)| + 16
      ensures head == old(head)
    {
      index, version, first := [], 0, firstNum;
      genesis, blocks := Some(gs), [];
      log := Little(version, 4) + Little(first, 4) + gsCodec.pack(gs);
      genesisWritten := true;
      log := log + Little(NPOS, 8);
    }

    /** Starts the files anew, with or without a first block; the version stays invalid until all is written. */
    method Reset(gs: G, firstBlock: Option<B>, firstNum: nat) returns (ok: bool)
      requires Lawful(gsCodec) && Lawful(codec) && firstNum < TWO32 && |gsCodec.pack(gs)| + 32 < NPOS
      requires firstBlock.Some? ==>
        num(firstBlock.value) < TWO32 && |gsCodec.pack(gs)| + |codec.pack(firstBlock.value)| + 32 < NPOS
      modifies this
      ensures ok <==> firstBlock.None? || num(firstBlock.value) == firstNum
      ensures ok ==> Valid() && first == firstNum && genesis == Some(gs)
      ensures ok ==> blocks == if firstBlock.Some? then [firstBlock.value] else []
      ensures firstBlock.None? ==> head == old(head)
      ensures !ok ==> version == 0 && |log| >= 4 && log[..4] == Little(0, 4)
    {
      WriteHeader(gs, firstNum);
      ok := true;
      if firstBlock.Some? {
        var pos;
        ok, pos := Append(firstBlock.value);
      }
      HeaderVersion(gsCodec, first, gs, 0, MAX_VERSION);
      FilesRehead(codec, Header(gsCodec, 0, first, gs), Header(gsCodec, MAX_VERSION, first, gs), blocks,
                  Little(MAX_VERSION, 4), log, index);
      if ok {
        version := MAX_VERSION;
        log := Little(version, 4) + log[4..];
      }
    }

    /** Reads the block at a position, and the position after it and its own. */
    method ReadBlock(pos: nat) returns (r: Option<(B, int)>)
      ensures r.Some? <==> pos <= |log| && codec.unpack(log[pos..]).Some?
      ensures r.Some? ==> var (b, rest) := codec.unpack(log[pos..]).value; r.value == (b, |log| - |rest| + 8)
    {
      if pos > |log| { return None; }
      match codec.unpack(log[pos..])
      case None => return None;
      case Some((b, rest)) => return Some((b, |log| - |rest| + 8));
    }

    /** The head is left over from before a reset without a first block, and its number makes `n` look stored. */
    predicate Stale(n: nat)
      reads this
    {
      |index| == 0 && head.Some? && first <= n <= num(head.value)
    }

    /** The position of a block that the log holds, `NPOS` for any other number; fails, reading past the end of an
        empty index, exactly when a stale head misleads it. */
    method GetBlockPos(n: nat) returns (ok: bool, pos: nat)
      requires Valid()
      ensures ok <==> !Stale(n)
      ensures ok ==> pos == if first <= n < first + |blocks| then Start(codec, TheHeader(), blocks, n - first) else NPOS
      ensures ok && first <= n < first + |blocks| ==> pos < NPOS
    {
      IndexGrows(codec, TheHeader(), blocks, |blocks|);
      if !(head.Some? && n <= num(head.value) && n >= first) { return true, NPOS; }
      var k := n - first;
      if |index| < 8 * k + 8 { return false, 0; }
      StoredPosition(codec, TheHeader(), blocks, k);
      return true, Number(index[8 * k..8 * k + 8]);
    }

    /** Every block is read back by its number, and nothing is read for any other number, unless a stale head
        misleads the search. */
    method ReadBlockByNum(n: nat) returns (ok: bool, r: Option<B>)
      requires Valid()
      ensures ok <==> !Stale(n)
      ensures ok ==> r == if first <= n < first + |blocks| then Some(blocks[n - first]) else None
    {
      var pos;
      ok, pos := GetBlockPos(n);
      if !ok || pos == NPOS { return ok, None; }
      ReadsBlock(codec, TheHeader(), blocks, n - first);
      var b := ReadBlock(pos);
      if b.None? { return false, None; }
      ok := num(b.value.0) == n;
      r := Some(b.value.0);
    }

    /** The last block appended, found from the end of the file. */
    method ReadHead() returns (r: Option<B>)
      requires Valid()
      ensures r == if blocks == [] then None else Some(blocks[|blocks| - 1])
    {
      if |log| <= 8 { return None; }
      EndOfLog(gsCodec, codec, first, genesis.value, blocks, log);
      var pos := Number(log[|log| - 8..]);
      if pos == NPOS { return None; }
      ReadsBlock(codec, TheHeader(), blocks, |blocks| - 1);
      var b := ReadBlock(pos);
      if b.Some? { r := Some(b.value.0); } else { r := None; }
    }

    ghost function TheHeader(): Bytes
      requires genesis.Some?
      reads this
    {
      Header(gsCodec, version, first, genesis.value)
    }

    /** Rebuilding the index changes nothing, and succeeds exactly when a block was appended. */
    method ConstructIndex() returns (ok: bool)
      requires Valid()
      modifies this`index
      ensures (ok <==> blocks != []) && index == old(index)
    {
      ok, index := Rebuild(gsCodec, codec, log, first, genesis.value, blocks);
    }
  }

  // ---------- a stale head ----------

  /** Blocks of one byte, their number. */
  function ByteCodec(): Codec<Byte> {
    Codec((b: Byte) => [b], (s: Bytes) => if s == [] then None else Some((s[0], s[1..])))
  }

  lemma ByteCodecLawful()
    ensures Lawful(ByteCodec())
  {
    var c := ByteCodec();
    forall t: Byte, s: Bytes ensures c.unpack(c.pack(t) + s) == Some((t, s)) {
      assert ([t] + s)[1..] == s;
    }
  }

  /** A log that held block 5 is reset, without a first block, to start at block 3; asked for block 4, it reads past the
      end of its empty index. */
  method StaleHeadMisleads() returns (log: BlockLog<Byte, Byte>, ok: bool)
    ensures log.Valid() && log.blocks == [] && log.first == 3 && !ok
  {
    ByteCodecLawful();
    log := new BlockLog<Byte, Byte>(ByteCodec(), ByteCodec(), (b: Byte) => b);
    ok := log.Reset(0, Some(5), 5);
    assert log.head == Some(5);
    ok := log.Reset(0, None, 3);
    assert log.Stale(4);
    var pos;
    ok, pos := log.GetBlockPos(4);
  }
}
