/** What each work loop of the fork database has achieved part-way, and what it has achieved when it ends
    (libraries/chain/fork_database.cpp). */
module ForkWalks {
  import opened Options
  import opened Irreversible
  import opened HeaderState
  import opened ForkTree
  import DposSafety

  lemma {:induction false} SmallerIndex(small: Index, big: Index)
    requires Within(small, big)
    ensures |small| <= |big|
    ensures (exists k :: k in big && k !in small) ==> |small| < |big|
  {
    var s, b := small.Keys, big.Keys;
    assert s <= b && |s| == |small| && |b| == |big|;
    SubsetSize(s, b);
    if k :| k in big && k !in small {
      SubsetSize(s, b - {k});
      assert |b - {k}| == |b| - 1;
    }
  }

  ghost predicate Distinct(s: seq<BlockId>) {
    forall a, b | 0 <= a < b < |s| :: s[a] != s[b]
  }

  /** `cs` lists the stored children of `q`, each once. */
  ghost predicate ListsChildren(cs: seq<BlockId>, ix: Index, q: BlockId) {
    Distinct(cs) && forall c :: c in cs <==> c in ix && ix[c].previous == q
  }

  /** How far a `remove(id)` walk over the container `ix0` has come: ids `done` are erased, ids `wait` queued. */
  ghost predicate Walk(done: set<BlockId>, wait: seq<BlockId>, id: BlockId, ix0: Index, ix: Index)
    requires Linked(ix0)
  {
    && Distinct(wait)
    && (done == {} ==> wait == [id])
    && (done != {} ==> id in done)
    && (forall w | w in wait :: w !in done)
    && (forall w | w in wait && w != id :: Descends(ix0, w, id) && ix0[w].previous in done)
    && (forall d | d in done && d != id :: Descends(ix0, d, id))
    && (forall c | c in ix0 && ix0[c].previous in done :: c in done || c in wait)
    && ix == map k | k in ix0 && k !in done :: ix0[k]
  }

  lemma DistinctJoin(a: seq<BlockId>, b: seq<BlockId>)
    requires Distinct(a) && Distinct(b) && forall x | x in a :: x !in b
    ensures Distinct(a + b)
  {
    var s := a + b;
    forall i, j | 0 <= i < j < |s| ensures s[i] != s[j] {
      if i < |a| <= j { assert s[i] in a && s[j] in b; }
    }
  }

  lemma QueueTail(queue: seq<BlockId>, i: nat, cs: seq<BlockId>)
    requires i < |queue|
    ensures queue[i..][0] == queue[i]
    ensures (queue + cs)[i + 1..] == queue[i..][1..] + cs
  {
  }

  lemma WalkStep(done: set<BlockId>, wait: seq<BlockId>, id: BlockId, ix0: Index, ix: Index, cs: seq<BlockId>)
    requires Linked(ix0) && Walk(done, wait, id, ix0, ix) && wait != []
    requires ListsChildren(cs, ix - {wait[0]}, wait[0])
    ensures Walk(done + {wait[0]}, wait[1..] + cs, id, ix0, ix - {wait[0]})
    ensures done != {} ==> wait[0] in ix
  {
    var q, rest := wait[0], wait[1..];
    TailMembers(wait);
    forall x | x in rest ensures x !in cs {}
    DistinctJoin(rest, cs);
    forall c | c in ix0 && ix0[c].previous in done + {q} ensures c in done + {q} || c in rest + cs {}
    ErasedOne(ix0, done, q, ix);
  }

  lemma ErasedOne(ix0: Index, done: set<BlockId>, q: BlockId, ix: Index)
    requires ix == map k | k in ix0 && k !in done :: ix0[k]
    ensures ix - {q} == map k | k in ix0 && k !in done + {q} :: ix0[k]
  {
  }

  lemma TailMembers(wait: seq<BlockId>)
    requires wait != [] && Distinct(wait)
    ensures Distinct(wait[1..]) && forall x :: x in wait[1..] <==> x in wait && x != wait[0]
  {
    forall x | x in wait && x != wait[0] ensures x in wait[1..] {
      var j :| 0 <= j < |wait| && wait[j] == x;
      assert x == wait[1..][j - 1];
    }
    forall x | x in wait[1..] ensures x in wait && x != wait[0] {
      var j :| 0 <= j < |wait[1..]| && wait[1..][j] == x;
      assert x == wait[j + 1];
    }
  }

  lemma {:induction false} WalkComplete(done: set<BlockId>, id: BlockId, ix0: Index, ix: Index, k: BlockId)
    requires Linked(ix0) && Walk(done, [], id, ix0, ix) && Descends(ix0, k, id)
    ensures k in done
    decreases ix0[k].num
  {
    if ix0[k].previous != id {
      WalkComplete(done, id, ix0, ix, ix0[k].previous);
    }
  }

  lemma WalkDone(done: set<BlockId>, id: BlockId, ix0: Index, ix: Index)
    requires Linked(ix0) && Walk(done, [], id, ix0, ix)
    ensures ix == Without(ix0, id)
  {
    forall k | k in ix0 ensures k in done <==> k == id || Descends(ix0, k, id) {
      if Descends(ix0, k, id) { WalkComplete(done, id, ix0, ix, k); }
    }
  }

  // ---------- stored states ----------

  /** What `next` and `add_confirmation` keep true of every header state. */
  ghost predicate Sane(s: State) {
    && Numbered(s) && s.active.producers != []
    && s.lib <= s.proposed <= s.num - |s.confirmCount| && s.bft <= s.num
    && (forall p | p in s.implied :: s.implied[p] <= s.proposed)
    && (forall i, j | 0 <= i < j < |s.confirmations| :: s.confirmations[i] != s.confirmations[j])
    && (forall p | p in s.confirmations :: p in s.active.producers)
  }

  lemma SaneNext(s: State, h: Header, t: State)
    requires Sane(s) && Next(s, h) == Ok(t)
    ensures Sane(t) && t.previous == s.id && t.id == HeaderId(s.id, h.hash) && t.bft == s.bft
  {
    DposSafety.ImpliedStep(s, h, t);
    DposSafety.ProposedStep(s, h, t);
    NextParts(s, h, t);
  }

  ghost predicate AllSane(ix: Index) {
    forall k | k in ix :: Sane(ix[k])
  }

  /** The container is a tree of sane states; it is sound if the BFT numbers grow in it as well. */
  ghost predicate Planted(ix: Index) { Linked(ix) && Rooted(ix) && AllSane(ix) }

  ghost predicate Sound(ix: Index) { Planted(ix) && BftGrows(ix) }

  lemma SoundPart(small: Index, big: Index)
    requires Planted(big) && Within(small, big)
    ensures Rooted(small) ==> Planted(small)
    ensures BftGrows(big) ==> BftGrows(small)
  {
    WithinKeeps(small, big);
  }

  /** In any part of the container with a new state, BFT numbers grow exactly if they do from its parent to it, or one
      of the two is missing. */
  lemma GrowsBut(ix: Index, n: State, all: Index, part: Index)
    requires Linked(all) && BftGrows(ix) && all == ix[n.id := n] && n.id !in ix && n.previous in ix && Within(part, all)
    requires forall k | k in ix :: ix[k].previous != n.id
    ensures BftGrows(part) <==> ix[n.previous].bft <= n.bft || n.id !in part || n.previous !in part
  {
    if n.id in part && n.previous in part && BftGrows(part) { assert part[part[n.id].previous].bft <= part[n.id].bft; }
  }

  /** A state with a stored parent can be added to the tree, and keeps it sound exactly when its BFT number is not
      below its parent's. */
  lemma SoundAdd(ix: Index, n: State)
    requires Planted(ix) && Sane(n) && n.id !in ix && n.previous in ix
    ensures Planted(ix[n.id := n])
    ensures BftGrows(ix) ==> (BftGrows(ix[n.id := n]) <==> ix[n.previous].bft <= n.bft)
    ensures forall k | k in ix :: ix[k].previous != n.id
  {
    var ix' := ix[n.id := n];
    forall k | k in ix ensures ix[k].previous != n.id && (n.previous.num < ix[k].num ==> ix[k].previous in ix) {
      assert ix[n.previous].num < ix[k].num ==> ix[k].previous in ix;
    }
    forall k, j | k in ix' && j in ix' && ix'[j].num < ix'[k].num ensures ix'[k].previous in ix' {}
    if BftGrows(ix') { assert ix'[ix'[n.id].previous].bft <= ix'[n.id].bft; }
  }

  // ---------- raising the BFT number layer by layer ----------

  /** The stored children of `parents` whose BFT number is below `num`. */
  ghost function LowChildren(ix: Index, parents: seq<BlockId>, num: nat): set<BlockId> {
    set k | k in ix && ix[k].previous in parents && ix[k].bft < num
  }

  /** The index with the BFT number of the blocks `up` set to `num`. */
  ghost function Lifted(ix: Index, up: set<BlockId>, num: nat): Index {
    map k | k in ix :: if k in up then ix[k].(bft := num) else ix[k]
  }

  ghost function LowListed(ix: Index, ks: seq<BlockId>, num: nat): set<BlockId> {
    set k | k in ix && k in ks && ix[k].bft < num
  }

  lemma LowSnoc(ix0: Index, layer: seq<BlockId>, q: BlockId, num: nat, ix: Index, ks: seq<BlockId>)
    requires ix == Lifted(ix0, LowChildren(ix0, layer, num), num) && ListsChildren(ks, ix, q)
    ensures LowChildren(ix0, layer + [q], num) == LowChildren(ix0, layer, num) + LowListed(ix, ks, num)
    ensures Lifted(ix, LowListed(ix, ks, num), num) == Lifted(ix0, LowChildren(ix0, layer + [q], num), num)
  {
  }

  lemma Shrinks<T>(all: set<T>, up: set<T>, low: set<T>)
    requires up + low <= all && low !! up
    ensures low != {} ==> |all - (up + low)| < |all - up|
    ensures low == {} ==> |all - (up + low)| == |all - up|
  {
    assert all - up == (all - (up + low)) + low;
  }

  /** How far marking `id` BFT irreversible has spread over `ix0`: `up` are raised, `queue` is the newest layer. */
  ghost predicate Spreading(ix0: Index, id: BlockId, up: set<BlockId>, queue: seq<BlockId>, ix: Index)
    requires Linked(ix0) && id in ix0
  {
    var num := ix0[id].num;
    && ix == Lifted(ix0, up + {id}, num)
    && id !in up
    && (forall k | k in up :: k in ix0 && Descends(ix0, k, id) && ix0[k].bft < num)
    && (forall q | q in queue :: q in up + {id})
    && (forall k | k in ix0 && ix0[k].previous in up + {id} && ix0[k].bft < num ::
          k in up || ix0[k].previous in queue)
  }

  lemma SpreadingStart(ix0: Index, id: BlockId, ix: Index)
    requires Linked(ix0) && id in ix0 && ix == ix0[id := ix0[id].(bft := ix0[id].num)]
    ensures Spreading(ix0, id, {}, [id], ix)
  {
  }

  lemma LowIsNew(ix0: Index, id: BlockId, up: set<BlockId>, queue: seq<BlockId>, ix: Index)
    requires Linked(ix0) && id in ix0 && Spreading(ix0, id, up, queue, ix)
    ensures ix0[id].previous !in up + {id}
    ensures forall k | k in LowChildren(ix, queue, ix0[id].num) ::
              k in ix0 && k != id && k !in up && Descends(ix0, k, id) && ix0[k].bft < ix0[id].num
  {
    if ix0[id].previous in up { DescendsHigher(ix0, ix0[id].previous, id); }
    forall k | k in LowChildren(ix, queue, ix0[id].num) ensures Descends(ix0, k, id) {
      assert ix0[k].previous in up + {id};
    }
  }

  lemma SpreadingStep(ix0: Index, id: BlockId, up: set<BlockId>, queue: seq<BlockId>, ix: Index,
                      low: set<BlockId>, raised: seq<BlockId>)
    requires Linked(ix0) && id in ix0 && Spreading(ix0, id, up, queue, ix)
    requires low == LowChildren(ix, queue, ix0[id].num) && forall k :: k in raised <==> k in low
    ensures Spreading(ix0, id, up + low, raised, Lifted(ix, low, ix0[id].num))
  {
    LowIsNew(ix0, id, up, queue, ix);
    LiftMore(ix0, up + {id}, low, ix0[id].num, ix);
    assert up + low + {id} == up + {id} + low;
  }

  lemma LiftMore(ix0: Index, up: set<BlockId>, low: set<BlockId>, num: nat, ix: Index)
    requires ix == Lifted(ix0, up, num)
    ensures Lifted(ix, low, num) == Lifted(ix0, up + low, num)
  {
  }

  lemma SpreadingEnds(ix0: Index, id: BlockId, up: set<BlockId>, queue: seq<BlockId>, ix: Index,
                      low: set<BlockId>, raised: seq<BlockId>)
    requires Linked(ix0) && id in ix0 && Spreading(ix0, id, up, queue, ix)
    requires low == LowChildren(ix, queue, ix0[id].num) && forall k :: k in raised <==> k in low
    ensures if raised == [] then up + low == up else |ix0.Keys - (up + low)| < |ix0.Keys - up|
  {
    LowIsNew(ix0, id, up, queue, ix);
    Shrinks(ix0.Keys, up, low);
    NoneRaised(low, raised);
  }

  lemma NoneRaised(low: set<BlockId>, raised: seq<BlockId>)
    requires forall k :: k in raised <==> k in low
    ensures raised == [] <==> low == {}
  {
    if raised != [] { assert raised[0] in low; }
  }

  lemma {:induction false} SpreadsToAll(ix0: Index, id: BlockId, up: set<BlockId>, ix: Index, k: BlockId)
    requires Linked(ix0) && BftGrows(ix0) && id in ix0 && Spreading(ix0, id, up, [], ix)
    requires Descends(ix0, k, id) && ix0[k].bft < ix0[id].num
    ensures k in up
    decreases ix0[k].num
  {
    if ix0[k].previous != id {
      SpreadsToAll(ix0, id, up, ix, ix0[k].previous);
    }
  }

  lemma SpreadingDone(ix0: Index, id: BlockId, up: set<BlockId>, ix: Index)
    requires Linked(ix0) && BftGrows(ix0) && id in ix0 && Spreading(ix0, id, up, [], ix)
    ensures ix == Raised(ix0, id)
  {
    forall k | k in ix0 ensures ix[k] == Raised(ix0, id)[k] {
      if k != id && Descends(ix0, k, id) && ix0[k].bft < ix0[id].num { SpreadsToAll(ix0, id, up, ix, k); }
    }
  }

  lemma SoundConfirmed(ix: Index, id: BlockId, p: Producer)
    requires Sound(ix) && id in ix && p !in ix[id].confirmations && p in ix[id].active.producers
    ensures Sound(ix[id := ix[id].(confirmations := ix[id].confirmations + [p])])
  {
  }

  lemma SoundRaised(ix: Index, id: BlockId)
    requires Sound(ix) && id in ix
    ensures Sound(Raised(ix, id))
  {
    assert Sane(ix[id]);
    RaisedKeeps(ix, id);
    var r := Raised(ix, id);
    forall k | k in r ensures Sane(r[k]) {
      assert Sane(ix[k]);
      if Descends(ix, k, id) { DescendsHigher(ix, k, id); }
    }
  }

  // ---------- branches ----------

  ghost predicate SelfOrAncestor(ix: Index, d: BlockId, a: BlockId)
    requires Linked(ix)
  {
    a in ix && d in ix && (d == a || Descends(ix, d, a))
  }

  /** `br` starts at block `first` and follows stored parents. */
  ghost predicate Branch(ix: Index, first: BlockId, br: seq<State>) {
    && br != [] && br[0].id == first
    && (forall i | 0 <= i < |br| :: br[i].id in ix && ix[br[i].id] == br[i])
    && (forall i | 0 < i < |br| :: br[i].id == br[i - 1].previous)
  }

  /** Ancestors `u` of `a` and `v` of `b`, of equal height, that were built on the same block. */
  ghost predicate Meet(ix: Index, a: BlockId, b: BlockId, u: BlockId, v: BlockId)
    requires Linked(ix)
  {
    SelfOrAncestor(ix, a, u) && SelfOrAncestor(ix, b, v) && ix[u].num == ix[v].num && ix[u].previous == ix[v].previous
  }

  /** Every meeting point of `a` and `b` is one of `x` and `y`. */
  ghost predicate AllMeet(ix: Index, a: BlockId, b: BlockId, x: BlockId, y: BlockId)
    requires Linked(ix)
  {
    forall u, v | Meet(ix, a, b, u, v) :: SelfOrAncestor(ix, x, u) && SelfOrAncestor(ix, y, v)
  }

  lemma SelfOrAncestorHeight(ix: Index, d: BlockId, a: BlockId)
    requires Linked(ix) && SelfOrAncestor(ix, d, a)
    ensures ix[a].num <= ix[d].num && (ix[a].num == ix[d].num ==> a == d)
  {
    if d != a { DescendsHigher(ix, d, a); }
  }

  /** The state of a fetch_branch_from walk: branches so far, and the blocks `x` and `y` to look at next. */
  ghost predicate Fetching(ix: Index, a: BlockId, b: BlockId, f: seq<State>, x: BlockId, s: seq<State>, y: BlockId)
    requires Linked(ix)
  {
    x in ix && y in ix && Branch(ix, a, f + [ix[x]]) && Branch(ix, b, s + [ix[y]]) && AllMeet(ix, a, b, x, y)
  }

  lemma BranchSnoc(ix: Index, a: BlockId, f: seq<State>, x: BlockId)
    requires x in ix && Branch(ix, a, f + [ix[x]]) && ix[x].previous in ix
    requires ix[ix[x].previous].id == ix[x].previous
    ensures Branch(ix, a, f + [ix[x]] + [ix[ix[x].previous]])
  {
    var br, q := f + [ix[x]], ix[ix[x].previous];
    forall i | 0 < i < |br + [q]| ensures (br + [q])[i].id == (br + [q])[i - 1].previous {
      if i < |br| { assert br[i].id == br[i - 1].previous; }
    }
    assert (br + [q])[0] == br[0];
  }

  /** Stepping the first side down to its parent loses no meeting point. */
  lemma StepFirst(ix: Index, a: BlockId, b: BlockId, x: BlockId, y: BlockId, u: BlockId, v: BlockId)
    requires Linked(ix) && x in ix && y in ix && AllMeet(ix, a, b, x, y) && Meet(ix, a, b, u, v)
    requires ix[x].num > ix[y].num || (ix[x].num == ix[y].num && ix[x].previous != ix[y].previous)
    ensures SelfOrAncestor(ix, ix[x].previous, u)
  {
    SelfOrAncestorHeight(ix, x, u);
    SelfOrAncestorHeight(ix, y, v);
  }

  lemma StepSecond(ix: Index, a: BlockId, b: BlockId, x: BlockId, y: BlockId, u: BlockId, v: BlockId)
    requires Linked(ix) && x in ix && y in ix && AllMeet(ix, a, b, x, y) && Meet(ix, a, b, u, v)
    requires ix[y].num > ix[x].num || (ix[x].num == ix[y].num && ix[x].previous != ix[y].previous)
    ensures SelfOrAncestor(ix, ix[y].previous, v)
  {
    SelfOrAncestorHeight(ix, x, u);
    SelfOrAncestorHeight(ix, y, v);
  }

  lemma FetchFirst(ix: Index, a: BlockId, b: BlockId, f: seq<State>, x: BlockId, s: seq<State>, y: BlockId)
    requires Linked(ix) && Fetching(ix, a, b, f, x, s, y) && ix[x].num > ix[y].num
    ensures ix[x].previous in ix ==> Fetching(ix, a, b, f + [ix[x]], ix[x].previous, s, y)
    ensures ix[x].previous !in ix ==> forall u, v :: !Meet(ix, a, b, u, v)
  {
    forall u, v | Meet(ix, a, b, u, v) ensures SelfOrAncestor(ix, ix[x].previous, u) {
      StepFirst(ix, a, b, x, y, u, v);
    }
    if ix[x].previous in ix { BranchSnoc(ix, a, f, x); }
  }

  lemma FetchSecond(ix: Index, a: BlockId, b: BlockId, f: seq<State>, x: BlockId, s: seq<State>, y: BlockId)
    requires Linked(ix) && Fetching(ix, a, b, f, x, s, y) && ix[y].num > ix[x].num
    ensures ix[y].previous in ix ==> Fetching(ix, a, b, f, x, s + [ix[y]], ix[y].previous)
    ensures ix[y].previous !in ix ==> forall u, v :: !Meet(ix, a, b, u, v)
  {
    forall u, v | Meet(ix, a, b, u, v) ensures SelfOrAncestor(ix, ix[y].previous, v) {
      StepSecond(ix, a, b, x, y, u, v);
    }
    if ix[y].previous in ix { BranchSnoc(ix, b, s, y); }
  }

  lemma FetchBoth(ix: Index, a: BlockId, b: BlockId, f: seq<State>, x: BlockId, s: seq<State>, y: BlockId)
    requires Linked(ix) && Fetching(ix, a, b, f, x, s, y)
    requires ix[x].num == ix[y].num && ix[x].previous != ix[y].previous
    ensures ix[x].previous in ix && ix[y].previous in ix ==>
              Fetching(ix, a, b, f + [ix[x]], ix[x].previous, s + [ix[y]], ix[y].previous)
    ensures ix[x].previous !in ix || ix[y].previous !in ix ==> forall u, v :: !Meet(ix, a, b, u, v)
  {
    forall u, v | Meet(ix, a, b, u, v)
      ensures SelfOrAncestor(ix, ix[x].previous, u) && SelfOrAncestor(ix, ix[y].previous, v)
    {
      StepFirst(ix, a, b, x, y, u, v);
      StepSecond(ix, a, b, x, y, u, v);
    }
    if ix[x].previous in ix && ix[y].previous in ix { BranchSnoc(ix, a, f, x); BranchSnoc(ix, b, s, y); }
  }

  /** Where the walk stops, the branches meet; they meet in one block exactly when an input is an ancestor of
      (or equal to) the other. */
  /** Two branches down to where the blocks fork, or to one of them if it is an ancestor of the other. */
  ghost predicate Fetched(ix: Index, first: BlockId, second: BlockId, f: seq<State>, s: seq<State>)
    requires Linked(ix)
  {
    && Branch(ix, first, f) && Branch(ix, second, s)
    && var u, v := f[|f| - 1].id, s[|s| - 1].id;
    && Meet(ix, first, second, u, v) && AllMeet(ix, first, second, u, v)
    && (u == v <==> SelfOrAncestor(ix, first, second) || SelfOrAncestor(ix, second, first))
  }

  lemma FetchDone(ix: Index, a: BlockId, b: BlockId, f: seq<State>, x: BlockId, s: seq<State>, y: BlockId)
    requires Linked(ix) && Fetching(ix, a, b, f, x, s, y)
    requires ix[x].num == ix[y].num && ix[x].previous == ix[y].previous && (x == y ==> x == a || y == b)
    ensures Meet(ix, a, b, x, y)
    ensures x == y <==> SelfOrAncestor(ix, a, b) || SelfOrAncestor(ix, b, a)
  {
    BranchDescends(ix, a, f + [ix[x]]);
    BranchDescends(ix, b, s + [ix[y]]);
    assert SelfOrAncestor(ix, a, b) ==> Meet(ix, a, b, b, b);
    assert SelfOrAncestor(ix, b, a) ==> Meet(ix, a, b, a, a);
    if SelfOrAncestor(ix, a, b) || SelfOrAncestor(ix, b, a) {
      var c := if SelfOrAncestor(ix, a, b) then b else a;
      SelfOrAncestorHeight(ix, x, c);
      SelfOrAncestorHeight(ix, y, c);
      SelfOrAncestorHeight(ix, a, x);
      SelfOrAncestorHeight(ix, b, y);
    }
  }

  lemma {:induction false} BranchDescends(ix: Index, first: BlockId, br: seq<State>)
    requires Linked(ix) && Branch(ix, first, br)
    ensures SelfOrAncestor(ix, first, br[|br| - 1].id)
    decreases |br|
  {
    if |br| > 1 {
      var rest := br[..|br| - 1];
      BranchDescends(ix, first, rest);
      var p, q := rest[|rest| - 1].id, br[|br| - 1].id;
      if first != p { DescendsTrans(ix, first, p, q); }
    }
  }

  // ---------- pruning ----------

  /** While `prune` clears the lowest level of `ix0` around its block `h`: what is stored descends from a block
      still to be removed at that level, or from `h`. */
  ghost predicate Pruning(ix0: Index, ix: Index, h: BlockId)
    requires Linked(ix0)
  {
    && IsLowest(ix0, h) && Within(ix, ix0) && h !in ix
    && (forall k | k in Kept(ix0, h) :: k in ix)
    && (forall k | k in ix && ix[k].num > ix0[h].num :: ix[k].previous in ix || ix[k].previous == h)
  }

  lemma PruningStep(ix0: Index, ix: Index, h: BlockId, k: BlockId)
    requires Linked(ix0) && Pruning(ix0, ix, h) && k in ix && ix[k].num == ix0[h].num
    ensures Linked(ix) && Pruning(ix0, Without(ix, k), h)
  {
    WithinKeeps(ix, ix0);
    WithoutKeeps(ix, k);
    forall d | d in Kept(ix0, h) ensures d in Without(ix, k) {
      DescendsHigher(ix0, d, h);
      if Descends(ix, d, k) {
        DescendsWithin(ix, ix0, d, k);
        OneAncestorPerHeight(ix0, d, h, k);
      }
    }
  }

  lemma {:induction false} AllDescend(ix0: Index, ix: Index, h: BlockId, k: BlockId)
    requires Linked(ix0) && Pruning(ix0, ix, h) && k in ix
    requires forall j | j in ix :: ix[j].num != ix0[h].num
    ensures Descends(ix0, k, h)
    decreases ix[k].num
  {
    if ix[k].previous != h {
      assert ix[k].num > ix0[h].num;
      AllDescend(ix0, ix, h, ix[k].previous);
    }
  }

  lemma PruningDone(ix0: Index, ix: Index, h: BlockId)
    requires Linked(ix0) && Pruning(ix0, ix, h)
    requires forall j | j in ix :: ix[j].num != ix0[h].num
    ensures ix == Kept(ix0, h)
  {
    forall k | k in ix ensures k in Kept(ix0, h) { AllDescend(ix0, ix, h, k); }
  }

  function AtHeight(ix: Index, num: nat): set<BlockId> {
    set k | k in ix && ix[k].num == num
  }

  ghost predicate Clearing(ix0: Index, ix: Index, h: BlockId, num: nat)
    requires Linked(ix0)
  {
    if h in ix0 then ix0[h].num == num && Pruning(ix0, ix, h) else Rooted(ix)
  }

  lemma ClearingStep(ix0: Index, ix: Index, h: BlockId, num: nat, k: BlockId)
    requires Linked(ix0) && Linked(ix) && Clearing(ix0, ix, h, num) && k in ix && ix[k].num == num
    ensures Clearing(ix0, Without(ix, k), h, num)
    ensures Within(Without(ix, k), ix) && Linked(Without(ix, k)) && k !in Without(ix, k)
  {
    WithoutKeeps(ix, k);
    if h in ix0 { PruningStep(ix0, ix, h, k); }
  }

  lemma EraseKeeps(ix0: Index, h: State, ix: Index)
    requires Linked(ix0) && Rooted(ix0) && (h.id in ix0 ==> ix0[h.id] == h)
    requires forall k | k in ix0 :: h.num <= ix0[k].num
    requires ix == ix0 - {h.id}
    ensures Linked(ix) && Within(ix, ix0) && Clearing(ix0, ix, h.id, h.num)
    ensures h.id in ix0 ==> (Alone(ix0, h.id) <==> AtHeight(ix, h.num) == {})
  {
    WithinKeeps(ix, ix0);
    if h.id in ix0 {
      forall k | k in Kept(ix0, h.id) ensures k in ix { DescendsHigher(ix0, k, h.id); }
      AloneErased(ix0, h, ix);
    }
  }

  lemma AloneErased(ix0: Index, h: State, ix: Index)
    requires h.id in ix0 && ix0[h.id] == h && ix == ix0 - {h.id}
    ensures Alone(ix0, h.id) <==> AtHeight(ix, h.num) == {}
  {
    if !Alone(ix0, h.id) {
      var k :| k in ix0 && ix0[k].num == h.num && k != h.id;
      assert k in AtHeight(ix, h.num);
    }
  }

  /** The head is the container's best block, or missing if the container is empty. */
  predicate HeadFits(ix: Index, head: Option<BlockId>) {
    if head.None? then ix == map[] else IsBest(ix, head.value)
  }

  /** Is `h` the only stored block of its height? */
  predicate Alone(ix: Index, h: BlockId)
    requires h in ix
  {
    forall k | k in ix && ix[k].num == ix[h].num :: k == h
  }

  /** What `add` leaves of the container `all`: everything, unless the lowest stored block lies below the
      irreversible number of the best block; then exactly what descends from that lowest block. */
  ghost predicate AddedTo(all: Index, ix: Index, pruned: Option<BlockId>)
    requires Linked(all)
  {
    if pruned.None? then
      && ix == all
      && (forall o, h | IsLowest(all, o) && IsBest(all, h) :: all[h].lib <= all[o].num)
    else
      && IsLowest(all, pruned.value) && ix == Kept(all, pruned.value)
      && (forall h | IsBest(all, h) :: all[pruned.value].num < all[h].lib)
  }

  /** A block is pruned exactly when the lowest stored number is below the irreversible number of the best block. */
  lemma PrunesExactly(all: Index, ix: Index, pruned: Option<BlockId>, o: BlockId, h: BlockId)
    requires Linked(all) && AddedTo(all, ix, pruned) && IsLowest(all, o) && IsBest(all, h)
    ensures pruned.Some? <==> all[o].num < all[h].lib
    ensures pruned.Some? ==> pruned.value in all && all[pruned.value].num == all[o].num
    ensures forall k :: k in ix <==> k in all && (pruned.Some? ==> Descends(all, k, pruned.value))
  {
    SameLevels(all, h, o);
  }

  lemma SameLevels(all: Index, best: BlockId, oldest: BlockId)
    requires IsBest(all, best) && IsLowest(all, oldest)
    ensures forall h | IsBest(all, h) :: all[h].lib == all[best].lib
    ensures forall o | IsLowest(all, o) :: all[o].num == all[oldest].num
  {
  }

  lemma StillBest(all: Index, best: BlockId, oldest: BlockId, ix: Index)
    requires IsBest(all, best) && AllSane(all) && oldest in all && all[oldest].num < all[best].lib
    requires ix == all - {oldest}
    ensures IsBest(ix, best)
  {
    assert Sane(all[best]);
  }
}
