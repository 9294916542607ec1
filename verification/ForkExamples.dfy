/** A run of the fork database, from genesis, that leaves it empty (libraries/chain/fork_database.cpp). */
module ForkExamples {
  import opened Options
  import opened Irreversible
  import opened HeaderState
  import opened DposTheorems
  import opened ForkTree
  import opened ForkWalks
  import F = ForkRuns

  // ---------- a chain with one producer ----------

  const ONE := Schedule(0, [1])

  /** A state of such a chain: no block awaits confirmations. */
  ghost predicate Solo(s: State) {
    && Numbered(s) && s.active == ONE && s.confirmCount == [] && s.implied.Keys <= {1}
    && (s.pending.producers == [] || (s.pending == ONE && s.pendingLib == 0))
    && (1 in s.lastProduced ==> s.lastProduced[1] <= s.num)
  }

  /** The header of the next block. */
  function SoloHeader(s: State, hash: nat): Header {
    Header(hash, s.slot + 1, 1, 0, s.id, 0, None, false, true)
  }

  type SoloState = s: State | Solo(s) ghost witness Genesis(BlockId(1, 0), 0, ONE)

  ghost predicate Follows(s: SoloState, hash: nat, t: State) { Next(s, SoloHeader(s, hash)) == Ok(t) }

  lemma OnlyNumber(m: map<Producer, nat>, n: nat)
    requires m == map[1 := n]
    ensures ThirdRank(m) == n
  {
    assert Lagging(m, n) == {} && Lagging(m, n + 1) == {1} && m.Keys == {1} && |m| == |m.Keys|;
    assert n <= ThirdRank(m) <==> |Lagging(m, n)| <= 0;
    assert n + 1 <= ThirdRank(m) <==> |Lagging(m, n + 1)| <= 0;
  }

  /** The single confirmation that a block needs is its own. */
  lemma SoloConfirmed(g: State)
    requires g.confirmCount == [1]
    ensures SetConfirmed(g, 0) == g.(confirmCount := [], proposed := g.num)
  {
    assert Exhausted(g.confirmCount, 0, 1) == 0;
    assert Confirmed(g.confirmCount, 1) == [];
  }

  lemma SoloPromoted(c: State, t: State)
    requires c.active == ONE && c.implied == map[1 := c.lib] && c.producer == 1
    requires c.pending.producers == [] || (c.pending == ONE && c.pendingLib == 0)
    requires 1 in c.lastProduced && c.lastProduced[1] == c.num && t == MaybePromote(c)
    ensures 1 in t.lastProduced && t.lastProduced[1] == c.num && t.pending.producers == []
    ensures t == c.(pending := t.pending, lastProduced := t.lastProduced)
  {
  }

  /** The template of the next block. */
  lemma SoloTemplate(s: State, slot: nat) returns (g: State)
    requires Solo(s)
    ensures ScheduledProducer(ONE, slot) == 1 && g == GenerateNext(s, slot)
    ensures g.num == s.num + 1 && g.previous == s.id && g.lib == s.proposed && g.implied == map[1 := s.proposed]
    ensures g.confirmCount == [1] && g.producer == 1 && g.active == ONE && g.pending == s.pending
    ensures g.pendingLib == s.pendingLib && 1 in g.lastProduced && g.lastProduced[1] == g.num
  {
    assert s.implied[1 := s.proposed] == map[1 := s.proposed];
    OnlyNumber(s.implied[1 := s.proposed], s.proposed);
    assert Appended([], 1) == [1];
    g := GenerateNext(s, slot);
  }

  lemma SoloApplied(s: State, g: State, h: Header) returns (t: State)
    requires Solo(s) && g.num == s.num + 1 && g.previous == s.id && g.lib == s.proposed
    requires g.implied == map[1 := s.proposed] && g.confirmCount == [1] && g.producer == 1 && g.active == ONE
    requires g.pending == s.pending && g.pendingLib == s.pendingLib && 1 in g.lastProduced && g.lastProduced[1] == g.num
    requires h.confirmed == 0 && h.newProducers == None && h.signedByScheduledKey
    ensures Applied(g, h) == Ok(t) && Solo(t) && t.id == HeaderId(s.id, h.hash) && t.previous == s.id
    ensures t.lib == s.proposed && t.proposed == t.num == s.num + 1
  {
    SoloConfirmed(g);
    var c := SetConfirmed(g, 0);
    var p := MaybePromote(c);
    SoloPromoted(c, p);
    t := p.(id := HeaderId(s.id, h.hash));
  }

  /** The next block is proposed by itself, and the block before it becomes irreversible. */
  lemma SoloNext(s: SoloState, hash: nat) returns (t: SoloState)
    ensures Follows(s, hash, t) && t.id == HeaderId(s.id, hash) && t.previous == s.id
    ensures t.lib == s.proposed && t.proposed == t.num == s.num + 1
  {
    var h := SoloHeader(s, hash);
    var g := SoloTemplate(s, h.slot);
    t := SoloApplied(s, g, h);
    SoloAccepted(s, h, g);
  }

  lemma SoloAccepted(s: State, h: Header, g: State)
    requires Solo(s) && h == SoloHeader(s, h.hash) && g == GenerateNext(s, h.slot) && g.producer == 1
    ensures Next(s, h) == Applied(g, h)
  {
  }

  // ---------- two branches ----------

  /** Genesis and two children of it. */
  ghost predicate Children(g: State, a: State, b: State) {
    && Numbered(g) && Numbered(a) && Numbered(b) && g.num == 1 && a.previous == g.id && b.previous == g.id
    && a.id != b.id && g.lib == a.lib == b.lib == 0
  }

  /** A grandchild on the second branch. */
  ghost predicate Grandchild(g: State, a: State, b: State, c: State) {
    Children(g, a, b) && Numbered(c) && c.previous == b.id && c.lib == 2
  }

  /** The containers on the way, with their blocks. */
  ghost predicate Three(g: State, a: State, b: State, ix: Index) {
    ix.Keys == {g.id, a.id, b.id} && ix[g.id] == g && ix[a.id] == a && ix[b.id] == b
  }

  ghost predicate Four(g: State, a: State, b: State, c: State, ix: Index) {
    ix.Keys == {g.id, a.id, b.id, c.id} && ix[g.id] == g && ix[a.id] == a && ix[b.id] == b && ix[c.id] == c
  }

  lemma BestLib(all: Index, k: BlockId, n: nat)
    requires k in all && n < all[k].lib
    ensures forall h | IsBest(all, h) :: n < all[h].lib
  {
    forall h | IsBest(all, h) ensures n < all[h].lib { assert !Better(all[k], all[h]); }
  }

  /** Once the grandchild is in, what is behind genesis are both branches. */
  lemma BehindGenesis(g: State, a: State, b: State, c: State, all: Index)
    requires Grandchild(g, a, b, c) && Four(g, a, b, c, all)
    ensures Linked(all) && Three(a, b, c, Kept(all, g.id)) && IsLowest(all, g.id)
  {
    assert Descends(all, a.id, g.id) && Descends(all, b.id, g.id);
    assert Descends(all, c.id, g.id) && !Descends(all, g.id, g.id);
  }

  /** The irreversible number of the grandchild prunes genesis. */
  lemma PrunesGenesis(g: State, a: State, b: State, c: State, all: Index)
    requires Grandchild(g, a, b, c) && Four(g, a, b, c, all)
    ensures Linked(all) && AddedTo(all, Kept(all, g.id), Some(g.id)) && Three(a, b, c, Kept(all, g.id))
  {
    BehindGenesis(g, a, b, c, all);
    BestLib(all, c.id, 1);
  }

  /** The first child of genesis has no child. */
  lemma Childless(g: State, a: State, b: State, c: State, d: State, all: Index)
    requires Grandchild(g, a, b, c) && Numbered(d) && d.previous == c.id && Four(a, b, c, d, all)
    ensures Linked(all) && IsLowest(all, a.id) && forall k | k in all :: all[k].previous != a.id
  {
  }

  /** The next block prunes a lowest block; it may be the one on the first branch. */
  lemma PrunesAll(g: State, a: State, b: State, c: State, d: State, all: Index)
    requires Grandchild(g, a, b, c) && Numbered(d) && d.previous == c.id && d.lib == 3 && Four(a, b, c, d, all)
    ensures Linked(all) && AddedTo(all, map[], Some(a.id))
  {
    Childless(g, a, b, c, d, all);
    KeptNonEmpty(all, a.id);
    BestLib(all, d.id, 2);
  }

  /** Nothing is pruned while nothing is irreversible. */
  lemma PrunesNothing(all: Index)
    requires Linked(all) && forall k | k in all :: all[k].lib == 0
    ensures AddedTo(all, all, None)
  {
  }

  // ---------- the run ----------

  datatype Trace = Trace(ixs: seq<Index>, ops: seq<F.Op>)

  /** A run of added blocks. */
  ghost predicate Adding(r: Trace) {
    F.Run(r.ixs, r.ops) && Linked(r.ixs[|r.ops|]) && forall op <- r.ops :: op.AddBlock?
  }

  type AddRun = r: Trace | Adding(r) ghost witness Trace([map[]], [])

  ghost function End(r: AddRun): Index { r.ixs[|r.ops|] }

  ghost function Start(r: AddRun): Index { r.ixs[0] }

  lemma EndLinked(r: AddRun)
    ensures Linked(End(r))
  {
  }

  lemma Extends(r: AddRun, h: Header, pruned: Option<BlockId>, ix: Index) returns (r': AddRun)
    requires F.Step(End(r), F.AddBlock(h, pruned), ix) && Linked(ix)
    ensures End(r') == ix && Start(r') == Start(r) && |r'.ops| == |r.ops| + 1
  {
    var op := F.AddBlock(h, pruned);
    F.RunGrows(r.ixs, r.ops, op, ix);
    r' := Trace(r.ixs + [ix], r.ops + [op]);
  }

  /** A new block behind a stored one is a step. */
  lemma Adds(ix: Index, s: SoloState, hash: nat, t: State, pruned: Option<BlockId>, ix': Index)
    requires Linked(ix) && Follows(s, hash, t) && s.id in ix && ix[s.id] == s && t.id !in ix
    requires t.id == HeaderId(s.id, hash)
    requires Linked(ix[t.id := t]) && AddedTo(ix[t.id := t], ix', pruned)
    ensures F.Step(ix, F.AddBlock(SoloHeader(s, hash), pruned), ix')
  {
  }

  lemma Grows(r: AddRun, s: SoloState, hash: nat, t: State, pruned: Option<BlockId>, ix: Index) returns (r': AddRun)
    requires Follows(s, hash, t) && s.id in End(r) && End(r)[s.id] == s && t.id !in End(r)
    requires t.id == HeaderId(s.id, hash)
    requires Linked(End(r)[t.id := t]) && AddedTo(End(r)[t.id := t], ix, pruned) && Linked(ix)
    ensures End(r') == ix && Start(r') == Start(r) && |r'.ops| == |r.ops| + 1
  {
    EndLinked(r);
    Adds(End(r), s, hash, t, pruned, ix);
    r' := Extends(r, SoloHeader(s, hash), pruned, ix);
  }

  lemma Begins() returns (r: AddRun, g: SoloState)
    ensures End(r) == Start(r) == map[g.id := g] && r.ops == [] && g.num == 1 && g.proposed == g.lib == 0
  {
    g := Genesis(BlockId(1, 0), 0, ONE);
    var ix: Index := map[g.id := g];
    assert Sound(ix);
    r := Trace([ix], []);
  }

  /** The next block behind `s` is added to a container in which nothing is irreversible. */
  lemma Takes(r: AddRun, s: SoloState, hash: nat) returns (r': AddRun, t: SoloState)
    requires s.id in End(r) && End(r)[s.id] == s && HeaderId(s.id, hash) !in End(r)
    requires s.proposed == 0 && forall k | k in End(r) :: End(r)[k].lib == 0
    ensures End(r') == End(r)[t.id := t] && Start(r') == Start(r) && |r'.ops| == |r.ops| + 1
    ensures t.id == HeaderId(s.id, hash) && t.previous == s.id && t.lib == 0 && t.proposed == t.num == s.num + 1
  {
    t := SoloNext(s, hash);
    var ix := End(r)[t.id := t];
    EndLinked(r);
    PrunesNothing(ix);
    r' := Grows(r, s, hash, t, None, ix);
  }

  lemma WithChild() returns (r: AddRun, g: SoloState, a: SoloState)
    ensures End(r).Keys == {g.id, a.id} && End(r)[g.id] == g && End(r)[a.id] == a && Start(r) == map[g.id := g]
    ensures |r.ops| == 1 && g.num == 1 && g.proposed == g.lib == a.lib == 0 && a.previous == g.id
    ensures a.id == HeaderId(g.id, 1) && a.num == 2
  {
    r, g := Begins();
    r, a := Takes(r, g, 1);
  }

  lemma WithChildren() returns (r: AddRun, g: SoloState, a: SoloState, b: SoloState)
    ensures Three(g, a, b, End(r)) && Start(r) == map[g.id := g] && |r.ops| == 2 && Children(g, a, b)
    ensures b.proposed == 2
  {
    r, g, a := WithChild();
    r, b := Takes(r, g, 2);
  }

  lemma WithGrandchild() returns (r: AddRun, g: SoloState, a: SoloState, b: SoloState, c: SoloState)
    ensures Three(a, b, c, End(r)) && Start(r) == map[g.id := g] && |r.ops| == 3 && Grandchild(g, a, b, c)
    ensures c.proposed == 3
  {
    r, g, a, b := WithChildren();
    c := SoloNext(b, 3);
    var ix := LosesGenesis(g, a, b, c, End(r));
    r := Grows(r, b, 3, c, Some(g.id), ix);
  }

  lemma LosesGenesis(g: State, a: State, b: State, c: State, two: Index) returns (ix: Index)
    requires Grandchild(g, a, b, c) && Three(g, a, b, two)
    ensures c.id !in two && Linked(two[c.id := c]) && AddedTo(two[c.id := c], ix, Some(g.id))
    ensures Linked(ix) && Three(a, b, c, ix)
  {
    var all := two[c.id := c];
    PrunesGenesis(g, a, b, c, all);
    ix := Kept(all, g.id);
    KeptKeeps(all, g.id);
  }

  lemma EmptiesAll() returns (r: AddRun, g: State)
    ensures End(r) == map[] && Start(r) == map[g.id := g] && |r.ops| == 4
  {
    var a, b, c;
    r, g, a, b, c := WithGrandchild();
    var d := SoloNext(c, 4);
    PrunesAll(g, a, b, c, d, End(r)[d.id := d]);
    r := Grows(r, c, 4, d, Some(a.id), map[]);
  }

  /** Pruning can empty the container, by signed blocks of one producer alone: two children of genesis, and two more
      blocks behind the second of them. */
  lemma PruningCanEmpty() returns (ixs: seq<Index>, ops: seq<F.Op>)
    ensures F.Run(ixs, ops) && |ops| == 4 && |ixs[0]| == 1 && ixs[4] == map[] && forall op <- ops :: op.AddBlock?
  {
    var r, g := EmptiesAll();
    ixs, ops := r.ixs, r.ops;
  }
}
