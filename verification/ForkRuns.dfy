/** Whole runs of the fork database: added blocks, confirmations and removals in any order
    (libraries/chain/fork_database.cpp). */
module ForkRuns {
  import opened Options
  import opened Irreversible
  import opened HeaderState
  import opened ForkTree
  import opened ForkWalks

  datatype Op =
    | AddBlock(h: Header, pruned: Option<BlockId>)
    | Confirm(id: BlockId, p: Producer)
    | RemoveFork(id: BlockId)
    | Refused

  /** The block a confirmation by `p` turns `b` into. */
  function ConfirmedBy(b: State, p: Producer): State { b.(confirmations := b.confirmations + [p]) }

  predicate HasBftQuorum(b: State) {
    b.bft < b.num && |b.confirmations| >= |b.active.producers| * 2 / 3 + 1
  }

  /** The effect of one call on the container. */
  ghost predicate Step(ix: Index, op: Op, ix': Index)
    requires Linked(ix)
  {
    match op
    case AddBlock(h, pruned) =>
      && h.previous in ix && HeaderId(h.previous, h.hash) !in ix && ix[h.previous].active.producers != []
      && Next(ix[h.previous], h).Ok?
      && var t := Next(ix[h.previous], h).value;
      Linked(ix[t.id := t]) && AddedTo(ix[t.id := t], ix', pruned)
    case Confirm(id, p) =>
      && id in ix && p !in ix[id].confirmations && p in ix[id].active.producers
      && var b := ConfirmedBy(ix[id], p);
      Linked(ix[id := b]) && ix' == if HasBftQuorum(b) then Raised(ix[id := b], id) else ix[id := b]
    case RemoveFork(id) => ix' == Without(ix, id)
    case Refused => ix' == ix
  }

  /** A run of calls on a sound container. */
  ghost predicate Run(ixs: seq<Index>, ops: seq<Op>) {
    && |ixs| == |ops| + 1 && Sound(ixs[0])
    && forall j | 0 <= j < |ops| :: StepAt(ixs, ops, j)
  }

  ghost predicate StepAt(ixs: seq<Index>, ops: seq<Op>, j: nat)
    requires j < |ops| < |ixs|
  {
    Linked(ixs[j]) && Step(ixs[j], ops[j], ixs[j + 1])
  }

  /** Adding the next state of a stored block is a step. */
  lemma AddIsStep(ix: Index, h: Header, t: State, pruned: Option<BlockId>, ix': Index)
    requires Linked(ix) && h.previous in ix && ix[h.previous].active.producers != []
    requires Next(ix[h.previous], h) == Ok(t) && t.id == HeaderId(h.previous, h.hash) && t.id !in ix
    requires Linked(ix[t.id := t]) && AddedTo(ix[t.id := t], ix', pruned)
    ensures Step(ix, AddBlock(h, pruned), ix')
  {
  }

  lemma AddKeeps(ix: Index, h: Header, pruned: Option<BlockId>, ix': Index)
    requires Sound(ix) && Step(ix, AddBlock(h, pruned), ix')
    ensures Sound(ix')
  {
    var t := Next(ix[h.previous], h).value;
    assert Sane(ix[h.previous]);
    SaneNext(ix[h.previous], h, t);
    SoundAdd(ix, t);
    var all := ix[t.id := t];
    if pruned.Some? {
      KeptKeeps(all, pruned.value);
      SoundPart(ix', all);
    }
  }

  lemma StepKeeps(ix: Index, op: Op, ix': Index)
    requires Sound(ix) && Step(ix, op, ix')
    ensures Sound(ix')
  {
    match op
    case AddBlock(h, pruned) => AddKeeps(ix, h, pruned, ix');
    case Confirm(id, p) =>
      SoundConfirmed(ix, id, p);
      SoundRaised(ix[id := ConfirmedBy(ix[id], p)], id);
    case RemoveFork(id) =>
      WithoutKeeps(ix, id);
      SoundPart(ix', ix);
    case Refused =>
  }

  /** Over every run, every stored block above the lowest level has its parent stored, numbers follow parents,
      and the BFT irreversible number never falls from a block to its child. */
  lemma {:induction false} RunKeeps(ixs: seq<Index>, ops: seq<Op>, k: nat)
    requires Run(ixs, ops) && k <= |ops|
    ensures Sound(ixs[k])
  {
    if k > 0 {
      var j := k - 1;
      RunKeeps(ixs, ops, j);
      StepAtKeeps(ixs, ops, j, k);
    }
  }

  lemma StepAtKeeps(ixs: seq<Index>, ops: seq<Op>, j: nat, k: nat)
    requires j < |ops| < |ixs| && k == j + 1 && StepAt(ixs, ops, j) && Sound(ixs[j])
    ensures Sound(ixs[k])
  {
    StepKeeps(ixs[j], ops[j], ixs[k]);
  }

  /** After an add that pruned, blocks are left (and so a head) exactly when the pruned block has a stored child;
      that is so whenever it is an ancestor of the best block. */
  lemma HeadSurvivesPruning(all: Index, ix: Index, pruned: BlockId, best: BlockId)
    requires Sound(all) && AddedTo(all, ix, Some(pruned)) && IsBest(all, best)
    ensures ix != map[] <==> exists k :: k in all && all[k].previous == pruned
    ensures Descends(all, best, pruned) ==> ix != map[] && IsBest(ix, best)
  {
    KeptNonEmpty(all, pruned);
    if Descends(all, best, pruned) { assert best in ix; }
  }

  /** A run goes on with any further step. */
  lemma RunGrows(ixs: seq<Index>, ops: seq<Op>, op: Op, ix: Index)
    requires Run(ixs, ops) && Linked(ixs[|ops|]) && Step(ixs[|ops|], op, ix)
    ensures Run(ixs + [ix], ops + [op])
  {
    var more, all := ixs + [ix], ops + [op];
    forall j | 0 <= j < |all| ensures StepAt(more, all, j) {
      if j < |ops| { StepBefore(ixs, ops, j, more, all); } else { StepLast(ixs, ops, op, ix, more, all, j); }
    }
  }

  lemma StepLast(ixs: seq<Index>, ops: seq<Op>, op: Op, ix: Index, more: seq<Index>, all: seq<Op>, j: nat)
    requires |ixs| == |ops| + 1 && Linked(ixs[|ops|]) && Step(ixs[|ops|], op, ix)
    requires more == ixs + [ix] && all == ops + [op] && j == |ops|
    ensures StepAt(more, all, j)
  {
    assert more[j] == ixs[|ops|] && more[j + 1] == ix && all[j] == op;
  }

  lemma StepBefore(ixs: seq<Index>, ops: seq<Op>, j: nat, more: seq<Index>, all: seq<Op>)
    requires j < |ops| < |ixs| && StepAt(ixs, ops, j) && ixs <= more && ops <= all && |all| < |more|
    ensures StepAt(more, all, j)
  {
    assert more[j] == ixs[j] && more[j + 1] == ixs[j + 1] && all[j] == ops[j];
  }

  // ---------- what makes a block BFT irreversible ----------

  lemma {:induction false} DistinctCount(ps: seq<Producer>)
    requires forall i, j | 0 <= i < j < |ps| :: ps[i] != ps[j]
    ensures |Members(ps)| == |ps|
  {
    if ps != [] {
      DistinctCount(ps[1..]);
      assert Members(ps) == {ps[0]} + Members(ps[1..]);
    }
  }

  /** More than two thirds of the producers scheduled for the block have confirmed it, counted once each. */
  predicate Supported(b: State) {
    Members(b.confirmations) <= Members(b.active.producers) && 3 * |Members(b.confirmations)| > 2 * |b.active.producers|
  }

  /** Confirmations are of distinct scheduled producers, and the test on their number is that of `Supported`. */
  lemma BftQuorumIsDistinct(b: State)
    requires Sane(b)
    ensures HasBftQuorum(b) <==> b.bft < b.num && Supported(b)
  {
    DistinctCount(b.confirmations);
  }

  lemma {:induction false} SameDescent(ix: Index, jx: Index, d: BlockId, a: BlockId)
    requires Linked(ix) && Linked(jx) && ix.Keys == jx.Keys && forall k | k in ix :: jx[k].previous == ix[k].previous
    ensures Descends(ix, d, a) <==> Descends(jx, d, a)
    decreases if d in ix then ix[d].num else 0
  {
    if d in ix && ix[d].previous in ix { SameDescent(ix, jx, ix[d].previous, a); }
  }

  /** The BFT number of `k` once `id` is BFT irreversible. */
  ghost predicate Reached(ix: Index, id: BlockId, k: BlockId, bft: nat)
    requires Linked(ix) && id in ix && k in ix
  {
    bft == if (k == id || Descends(ix, k, id)) && ix[k].bft < ix[id].num then ix[id].num else ix[k].bft
  }

  /** Only the BFT number and the confirmations of a block changed. */
  predicate OtherwiseSame(s: State, t: State) { t == s.(bft := t.bft, confirmations := t.confirmations) }

  /** The confirmation of `id` by `p` makes more than two thirds of its producers, and the block BFT irreversible. */
  predicate Completes(ix: Index, id: BlockId, p: Producer) {
    id in ix && ix[id].bft < ix[id].num && Supported(ConfirmedBy(ix[id], p))
  }

  /** What a confirmation of `id` by `p` does to the block `k`. */
  ghost predicate Effect(ix: Index, id: BlockId, p: Producer, k: BlockId, t: State)
    requires Linked(ix) && id in ix && k in ix
  {
    && OtherwiseSame(ix[k], t)
    && t.confirmations == (if k == id then ix[k].confirmations + [p] else ix[k].confirmations)
    && if Completes(ix, id, p) then Reached(ix, id, k, t.bft) else t.bft == ix[k].bft
  }

  /** A confirmation adds its producer to those of the block. If that makes more than two thirds of the block's
      producers, and the block is not BFT irreversible yet, it becomes so, and it and its descendants rise to its
      number; otherwise no BFT number changes. Nothing else changes. */
  lemma ConfirmationExactly(ix: Index, id: BlockId, p: Producer, jx: Index)
    requires Sound(ix) && Step(ix, Confirm(id, p), jx)
    ensures id in ix && jx.Keys == ix.Keys && forall k | k in ix :: Effect(ix, id, p, k, jx[k])
  {
    var mid := Confirming(ix, id, p, jx);
    forall k | k in ix ensures k in jx && Effect(ix, id, p, k, jx[k]) { EffectAt(ix, id, p, mid, jx, k); }
  }

  /** The container with the confirmation noted, before BFT numbers rise. */
  lemma Confirming(ix: Index, id: BlockId, p: Producer, jx: Index) returns (mid: Index)
    requires Sound(ix) && Step(ix, Confirm(id, p), jx)
    ensures id in ix && mid == ix[id := ConfirmedBy(ix[id], p)] && Linked(mid)
    ensures jx == if Completes(ix, id, p) then Raised(mid, id) else mid
    ensures jx.Keys == ix.Keys
  {
    mid := ix[id := ConfirmedBy(ix[id], p)];
    SoundConfirmed(ix, id, p);
    SaneAt(mid, id);
    BftQuorumIsDistinct(mid[id]);
  }

  lemma EffectAt(ix: Index, id: BlockId, p: Producer, mid: Index, jx: Index, k: BlockId)
    requires Linked(ix) && id in ix && k in ix && mid == ix[id := ConfirmedBy(ix[id], p)] && Linked(mid)
    requires jx == if Completes(ix, id, p) then Raised(mid, id) else mid
    ensures k in jx && Effect(ix, id, p, k, jx[k])
  {
    if Completes(ix, id, p) { RaisedExactly(ix, id, p, mid, jx, k); }
  }

  lemma SaneAt(ix: Index, id: BlockId)
    requires Sound(ix) && id in ix
    ensures Sane(ix[id])
  {
  }

  lemma RaisedExactly(ix: Index, id: BlockId, p: Producer, mid: Index, jx: Index, k: BlockId)
    requires Linked(ix) && id in ix && k in ix && ix[id].bft < ix[id].num
    requires mid == ix[id := ConfirmedBy(ix[id], p)] && Linked(mid) && jx == Raised(mid, id)
    ensures OtherwiseSame(ix[k], jx[k]) && Reached(ix, id, k, jx[k].bft)
    ensures jx[k].confirmations == if k == id then ix[k].confirmations + [p] else ix[k].confirmations
  {
    SameDescent(ix, mid, k, id);
  }

  /** Up to step `k` of the run, the number `n` is that of a block that more than two thirds confirmed. */
  ghost predicate Earned(ixs: seq<Index>, k: nat, n: nat)
    requires k < |ixs|
  {
    exists j: nat, id: BlockId :: j <= k && HasSupport(ixs[j], id, n)
  }

  ghost predicate HasSupport(ix: Index, id: BlockId, n: nat) { id in ix && ix[id].num == n && Supported(ix[id]) }

  /** The BFT number `n` was there at the start of the run, or a block of that number earned it. */
  ghost predicate Grounded(ixs: seq<Index>, k: nat, n: nat)
    requires k < |ixs|
  {
    (exists id: BlockId :: id in ixs[0] && ixs[0][id].bft == n) || Earned(ixs, k, n)
  }

  /** Over every run, a BFT irreversible number is that of a block which more than two thirds of its producers
      confirmed, unless the run started with it. */
  lemma {:induction false} BftNumbersAreEarned(ixs: seq<Index>, ops: seq<Op>, k: nat)
    requires Run(ixs, ops) && k <= |ops|
    ensures forall id | id in ixs[k] :: Grounded(ixs, k, ixs[k][id].bft)
  {
    if k > 0 {
      var j := k - 1;
      BftNumbersAreEarned(ixs, ops, j);
      RunKeeps(ixs, ops, j);
      assert StepAt(ixs, ops, j);
      forall id | id in ixs[k] ensures Grounded(ixs, k, ixs[k][id].bft) { StillGrounded(ixs, ops, j, k, id); }
    }
  }

  lemma StillGrounded(ixs: seq<Index>, ops: seq<Op>, j: nat, k: nat, id: BlockId)
    requires j < |ops| < |ixs| && k == j + 1 && StepAt(ixs, ops, j) && Sound(ixs[j]) && id in ixs[k]
    requires forall id | id in ixs[j] :: Grounded(ixs, j, ixs[j][id].bft)
    ensures Grounded(ixs, k, ixs[k][id].bft)
  {
    var n := ixs[k][id].bft;
    var was, source := BftFrom(ixs[j], ops[j], ixs[k], id);
    if source.Some? {
      assert HasSupport(ixs[k], source.value, n);
    } else {
      GroundedLater(ixs, j, k, n);
    }
  }

  lemma GroundedLater(ixs: seq<Index>, j: nat, k: nat, n: nat)
    requires j <= k < |ixs| && Grounded(ixs, j, n)
    ensures Grounded(ixs, k, n)
  {
    if Earned(ixs, j, n) {
      var i: nat, b: BlockId :| i <= j && HasSupport(ixs[i], b, n);
      assert i <= k && HasSupport(ixs[i], b, n);
    }
  }

  /** Where a BFT number comes from in one step: a block that had it, or one that now has the support. */
  lemma BftFrom(ix: Index, op: Op, jx: Index, id: BlockId) returns (was: BlockId, source: Option<BlockId>)
    requires Sound(ix) && Step(ix, op, jx) && id in jx
    ensures source.None? ==> was in ix && ix[was].bft == jx[id].bft
    ensures source.Some? ==> HasSupport(jx, source.value, jx[id].bft)
  {
    was, source := id, None;
    match op
    case AddBlock(h, pruned) =>
      var t := Next(ix[h.previous], h).value;
      SaneNext(ix[h.previous], h, t);
      if id == t.id { was := h.previous; }
    case Confirm(b, p) =>
      ConfirmationExactly(ix, b, p, jx);
      assert Effect(ix, b, p, id, jx[id]) && Effect(ix, b, p, b, jx[b]);
      if jx[id].bft != ix[id].bft { source := Some(b); }
    case RemoveFork(b) =>
    case Refused =>
  }
}
