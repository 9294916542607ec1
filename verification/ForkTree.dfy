/** The tree of known blocks behind the fork database, as a value: which blocks descend from which, and what
    removing a subtree, pruning to a subtree and raising a BFT number leave
    (libraries/chain/fork_database.cpp). */
module ForkTree {
  import opened HeaderState

  type Index = map<BlockId, State>

  /** A block's number is the one in its id, and one above its parent's. */
  predicate Numbered(s: State) { s.num == s.id.num == s.previous.num + 1 }

  /** Blocks are filed under their own id. */
  ghost predicate Linked(ix: Index) {
    forall k | k in ix :: ix[k].id == k && Numbered(ix[k])
  }

  /** Block `d` is stored and following parents from it, through stored blocks, leads to id `a`. */
  ghost predicate Descends(ix: Index, d: BlockId, a: BlockId)
    requires Linked(ix)
    decreases if d in ix then ix[d].num else 0
  {
    && d in ix
    && (ix[d].previous == a || (ix[d].previous in ix && Descends(ix, ix[d].previous, a)))
  }

  /** Every stored block above the lowest level has its parent stored. */
  ghost predicate Rooted(ix: Index) {
    forall k, j | k in ix && j in ix && ix[j].num < ix[k].num :: ix[k].previous in ix
  }

  /** The BFT irreversible number never falls from a block to its child. */
  ghost predicate BftGrows(ix: Index) {
    forall k | k in ix && ix[k].previous in ix :: ix[ix[k].previous].bft <= ix[k].bft
  }

  ghost predicate Within(small: Index, big: Index) {
    forall k | k in small :: k in big && small[k] == big[k]
  }

  /** What `remove(id)` leaves. */
  ghost function Without(ix: Index, id: BlockId): Index
    requires Linked(ix)
  {
    map k | k in ix && k != id && !Descends(ix, k, id) :: ix[k]
  }

  /** What pruning the lowest-level block `id` leaves. */
  ghost function Kept(ix: Index, id: BlockId): Index
    requires Linked(ix)
  {
    map k | k in ix && Descends(ix, k, id) :: ix[k]
  }

  // ---------- descent ----------

  lemma {:induction false} DescendsHigher(ix: Index, d: BlockId, a: BlockId)
    requires Linked(ix) && Descends(ix, d, a) && a in ix
    ensures ix[a].num < ix[d].num
    decreases ix[d].num
  {
    if ix[d].previous != a { DescendsHigher(ix, ix[d].previous, a); }
  }

  lemma {:induction false} DescendsWithin(small: Index, big: Index, d: BlockId, a: BlockId)
    requires Linked(small) && Linked(big) && Within(small, big) && Descends(small, d, a)
    ensures Descends(big, d, a)
    decreases small[d].num
  {
    if small[d].previous != a { DescendsWithin(small, big, small[d].previous, a); }
  }

  /** A block has at most one ancestor at each height. */
  lemma {:induction false} OneAncestorPerHeight(ix: Index, d: BlockId, a: BlockId, b: BlockId)
    requires Linked(ix) && a in ix && b in ix && ix[a].num == ix[b].num
    requires Descends(ix, d, a) && Descends(ix, d, b)
    ensures a == b
    decreases ix[d].num
  {
    if ix[d].previous == a {
      if ix[d].previous != b { DescendsHigher(ix, ix[d].previous, b); }
    } else if ix[d].previous == b {
      DescendsHigher(ix, ix[d].previous, a);
    } else {
      OneAncestorPerHeight(ix, ix[d].previous, a, b);
    }
  }

  lemma {:induction false} DescendsTrans(ix: Index, c: BlockId, b: BlockId, a: BlockId)
    requires Linked(ix) && Descends(ix, c, b) && Descends(ix, b, a)
    ensures Descends(ix, c, a)
    decreases ix[c].num
  {
    if ix[c].previous != b { DescendsTrans(ix, ix[c].previous, b, a); }
  }

  // ---------- what the operations keep ----------

  lemma WithinKeeps(small: Index, big: Index)
    requires Linked(big) && Within(small, big)
    ensures Linked(small)
    ensures BftGrows(big) ==> BftGrows(small)
  {
  }

  /** Removing a subtree leaves no orphan. */
  lemma WithoutKeeps(ix: Index, id: BlockId)
    requires Linked(ix)
    ensures Within(Without(ix, id), ix) && Linked(Without(ix, id))
    ensures BftGrows(ix) ==> BftGrows(Without(ix, id))
    ensures forall k | k in Without(ix, id) && ix[k].previous in ix :: ix[k].previous in Without(ix, id)
    ensures Rooted(ix) ==> Rooted(Without(ix, id))
  {
    WithinKeeps(Without(ix, id), ix);
    forall k | k in Without(ix, id) && ix[k].previous in ix ensures ix[k].previous in Without(ix, id) {}
  }

  lemma KeptKeeps(ix: Index, id: BlockId)
    requires Linked(ix) && id in ix
    ensures Within(Kept(ix, id), ix) && Linked(Kept(ix, id)) && Rooted(Kept(ix, id))
    ensures BftGrows(ix) ==> BftGrows(Kept(ix, id))
    ensures forall k | k in Kept(ix, id) :: ix[id].num < ix[k].num
  {
    WithinKeeps(Kept(ix, id), ix);
    forall k | k in Kept(ix, id) ensures ix[id].num < ix[k].num { DescendsHigher(ix, k, id); }
    forall k, j | k in Kept(ix, id) && j in Kept(ix, id) && ix[j].num < ix[k].num
      ensures ix[k].previous in Kept(ix, id)
    {
      DescendsHigher(ix, j, id);
    }
  }

  /** Something descends from a stored block exactly when it has a stored child. */
  lemma KeptNonEmpty(ix: Index, id: BlockId)
    requires Linked(ix)
    ensures Kept(ix, id) != map[] <==> exists k :: k in ix && ix[k].previous == id
  {
    if k :| k in ix && ix[k].previous == id {
      assert k in Kept(ix, id);
    }
    if Kept(ix, id) != map[] {
      var d :| d in Kept(ix, id);
      var c := ChildTowards(ix, d, id);
    }
  }

  lemma {:induction false} ChildTowards(ix: Index, d: BlockId, a: BlockId) returns (c: BlockId)
    requires Linked(ix) && Descends(ix, d, a)
    ensures c in ix && ix[c].previous == a
    decreases ix[d].num
  {
    if ix[d].previous == a { c := d; } else { c := ChildTowards(ix, ix[d].previous, a); }
  }

  // ---------- raising the BFT number ----------

  function Max(a: nat, b: nat): nat { if a < b then b else a }

  /** `id` has become BFT irreversible: it and all its descendants know it. */
  ghost function Raised(ix: Index, id: BlockId): Index
    requires Linked(ix) && id in ix
  {
    map k | k in ix ::
      if k == id then ix[k].(bft := ix[k].num)
      else if Descends(ix, k, id) then ix[k].(bft := Max(ix[k].bft, ix[id].num))
      else ix[k]
  }

  lemma RaisedKeeps(ix: Index, id: BlockId)
    requires Linked(ix) && id in ix && ix[id].bft <= ix[id].num
    ensures Linked(Raised(ix, id))
    ensures Rooted(ix) ==> Rooted(Raised(ix, id))
    ensures BftGrows(ix) ==> BftGrows(Raised(ix, id))
  {
    var r := Raised(ix, id);
    if BftGrows(ix) {
      forall k | k in r && r[k].previous in r ensures r[r[k].previous].bft <= r[k].bft {
        var p := ix[k].previous;
        assert ix[p].bft <= ix[k].bft;
        if Descends(ix, p, id) { assert Descends(ix, k, id); }
        if k == id && Descends(ix, p, id) { DescendsHigher(ix, p, id); }
      }
    }
  }

  // ---------- the head ----------

  /** The order of the by_lib_block_num index: irreversible number, BFT number, block number, high first. */
  predicate Better(a: State, b: State) {
    a.lib > b.lib || (a.lib == b.lib && (a.bft > b.bft || (a.bft == b.bft && a.num > b.num)))
  }

  predicate IsBest(ix: Index, h: BlockId) {
    h in ix && forall k | k in ix :: !Better(ix[k], ix[h])
  }

  /** A best block has the highest irreversible number, among those the highest BFT number, and among those the
      highest block number. */
  lemma BestExactly(ix: Index, h: BlockId)
    requires h in ix
    ensures IsBest(ix, h) <==>
            && (forall k | k in ix :: ix[k].lib <= ix[h].lib)
            && (forall k | k in ix && ix[k].lib == ix[h].lib :: ix[k].bft <= ix[h].bft)
            && (forall k | k in ix && ix[k].lib == ix[h].lib && ix[k].bft == ix[h].bft :: ix[k].num <= ix[h].num)
  {
  }

  lemma {:induction false} BestExists(ix: Index)
    requires ix != map[]
    ensures exists h :: IsBest(ix, h)
    decreases |ix|
  {
    var k :| k in ix;
    var rest := ix - {k};
    assert rest.Keys == ix.Keys - {k} && forall j | j in ix :: j == k || (j in rest && rest[j] == ix[j]);
    if rest == map[] {
      assert IsBest(ix, k);
    } else {
      BestExists(rest);
      var h :| IsBest(rest, h);
      assert IsBest(ix, if Better(ix[k], ix[h]) then k else h);
    }
  }

  predicate IsLowest(ix: Index, o: BlockId) {
    o in ix && forall k | k in ix :: ix[o].num <= ix[k].num
  }

  lemma {:induction false} LowestExists(ix: Index)
    requires ix != map[]
    ensures exists o :: IsLowest(ix, o)
    decreases |ix|
  {
    var k :| k in ix;
    var rest := ix - {k};
    assert rest.Keys == ix.Keys - {k} && forall j | j in ix :: j == k || (j in rest && rest[j] == ix[j]);
    if rest == map[] {
      assert IsLowest(ix, k);
    } else {
      LowestExists(rest);
      var o :| IsLowest(rest, o);
      assert IsLowest(ix, if ix[k].num < ix[o].num then k else o);
    }
  }
}
