/** The fork database: the container of known block states and its head
    (libraries/chain/fork_database.cpp). `head == None` stands for the missing pointer, before the first `set`
    and after the container has been emptied. */
module ForkDatabase {
  import opened Options
  import opened Irreversible
  import opened HeaderState
  import opened HeaderObject
  import opened ForkTree
  import opened ForkWalks
  import opened ForkRuns

  datatype Error = NoHead | Known | UnknownParent | Rejected(HeaderState.Error)
                 | NotFound | AlreadyConfirmed | NotInSchedule | WrongKey
  datatype Outcome<T> = Done(value: T) | Failed(error: Error)

  class ForkDatabase {
    var index: Index
    var head: Option<BlockId>

    /** Everything the container keeps between calls. */
    ghost predicate Valid()
      reads this
    {
      Sound(index)
    }

    /** A database holding only the genesis state. */
    constructor (genesis: State)
      requires Sane(genesis)
      ensures Valid() && index == map[genesis.id := genesis] && head == Some(genesis.id)
    {
      index := map[genesis.id := genesis];
      head := Some(genesis.id);
    }

    /** *by_lib_block_num.begin() */
    method First() returns (h: Option<BlockId>)
      ensures HeadFits(index, h)
    {
      if index == map[] { return None; }
      BestExists(index);
      var b :| b in index && IsBest(index, b);
      return Some(b);
    }

    /** The range of the by_prev index that links to `q`. */
    method ChildrenOf(q: BlockId) returns (cs: seq<BlockId>)
      ensures ListsChildren(cs, index, q)
    {
      cs := [];
      var todo := set k | k in index && index[k].previous == q;
      while todo != {}
        invariant forall a, b | 0 <= a < b < |cs| :: cs[a] != cs[b]
        invariant forall c :: c in cs || c in todo <==> c in index && index[c].previous == q
        invariant forall c | c in cs :: c !in todo
      {
        var c :| c in todo;
        cs := cs + [c];
        todo := todo - {c};
      }
    }

    /** The queue of the removal: a block goes, its children follow. */
    method RemoveBlocks(id: BlockId)
      requires Linked(index)
      modifies this`index
      ensures index == Without(old(index), id)
    {
      ghost var ix0, done := index, {};
      var queue := [id];
      var i := 0;
      while i < |queue|
        invariant i <= |queue|
        invariant Walk(done, queue[i..], id, ix0, index)
        decreases |index| + if done == {} then 1 else 0
      {
        ghost var before := index;
        index := index - {queue[i]};
        var cs := ChildrenOf(queue[i]);
        QueueTail(queue, i, cs);
        WalkStep(done, queue[i..], id, ix0, before, cs);
        SmallerIndex(index, before);
        done := done + {queue[i]};
        queue := queue + cs;
        i := i + 1;
      }
      assert queue[i..] == [];
      WalkDone(done, id, ix0, index);
    }

    /** Remove a block and everything built on it, breadth first. */
    method Remove(id: BlockId)
      requires Linked(index)
      modifies this
      ensures Step(old(index), RemoveFork(id), index)
      ensures old(Valid()) ==> Valid()
      ensures HeadFits(index, head)
    {
      ghost var ix0 := index;
      RemoveBlocks(id);
      WithoutKeeps(ix0, id);
      if Sound(ix0) { SoundPart(index, ix0); }
      head := First();
    }

    /** *by_block_num.begin() */
    method Oldest() returns (o: BlockId)
      requires index != map[]
      ensures IsLowest(index, o)
    {
      LowestExists(index);
      o :| o in index && IsLowest(index, o);
    }

    /** Remove every block of height `num`, with what is built on it. */
    method ClearLevel(num: nat, ghost ix0: Index, ghost h: BlockId)
      requires Linked(index) && Linked(ix0) && Clearing(ix0, index, h, num)
      requires forall k | k in index :: num <= index[k].num
      modifies this
      ensures Within(index, old(index)) && forall k | k in index :: num < index[k].num
      ensures if h in ix0 then index == Kept(ix0, h) else Rooted(index)
      ensures AtHeight(old(index), num) != {} ==> HeadFits(index, head)
      ensures AtHeight(old(index), num) == {} ==> index == old(index) && head == old(head)
    {
      var level := AtHeight(index, num);
      while level != {}
        invariant level == AtHeight(index, num)
        invariant Within(index, old(index)) && Linked(index) && Clearing(ix0, index, h, num)
        invariant (index == old(index) && head == old(head)) || HeadFits(index, head)
        invariant AtHeight(old(index), num) == {} ==> index == old(index) && head == old(head)
        decreases |index|
      {
        var id :| id in level;
        ghost var before := index;
        ClearingStep(ix0, index, h, num, id);
        Remove(id);
        SmallerIndex(index, before);
        level := AtHeight(index, num);
      }
      assert forall k | k in index :: k !in AtHeight(index, num);
      if h in ix0 { PruningDone(ix0, index, h); }
    }

    /** Prune until no block is lower than `h`. */
    method PruneLower(h: State)
      requires Linked(index) && Rooted(index)
      modifies this
      ensures Linked(index) && Rooted(index) && Within(index, old(index))
      ensures forall k | k in index :: h.num <= index[k].num
      ensures IsLowest(old(index), h.id) && old(index)[h.id] == h ==> index == old(index) && head == old(head)
      decreases h.num, 0
    {
      while index != map[]
        invariant Linked(index) && Rooted(index) && Within(index, old(index))
        invariant IsLowest(old(index), h.id) && old(index)[h.id] == h ==> index == old(index) && head == old(head)
        decreases |index|
      {
        ghost var before := index;
        var o := Oldest();
        if index[o].num >= h.num { break; }
        Prune(index[o]);
        WithinKeeps(index, before);
        SmallerIndex(index, before);
      }
    }

    /** Make `h` irreversible: drop everything lower, then `h`, then all other blocks of its height. */
    method Prune(h: State)
      requires Linked(index) && Rooted(index)
      requires h.id in index ==> index[h.id] == h
      modifies this
      ensures Within(index, old(index)) && Rooted(index) && forall k | k in index :: h.num < index[k].num
      ensures IsLowest(old(index), h.id) ==>
                && index == Kept(old(index), h.id)
                && (Alone(old(index), h.id) ==> index == old(index) - {h.id} && head == old(head))
                && (!Alone(old(index), h.id) ==> HeadFits(index, head))
      decreases h.num, 1
    {
      PruneLower(h);
      ghost var ix0 := index;
      index := index - {h.id};
      EraseKeeps(ix0, h, index);
      ClearLevel(h.num, ix0, h.id);
      if h.id in ix0 { KeptKeeps(ix0, h.id); }
    }

    /** Add a block state; `pruned` is the block it made irreversible, if any. A block state always links to its
        parent by number. BFT numbers still grow exactly when its own is not below its parent's, or if pruning removes
        one of the two. */
    method AddState(n: State, skipValidatePrevious: bool) returns (r: Outcome<()>, ghost pruned: Option<BlockId>)
      requires Valid() && Sane(n)
      requires skipValidatePrevious ==> n.previous in index
      modifies this
      ensures r == if old(head).None? then Failed(NoHead)
                   else if n.previous !in old(index) then Failed(UnknownParent)
                   else if n.id in old(index) then Failed(Known)
                   else Done(())
      ensures r.Failed? ==> index == old(index) && head == old(head) && Valid()
      ensures r.Done? ==>
                && Planted(index)
                && (Valid() <==> old(index)[n.previous].bft <= n.bft || n.id !in index || n.previous !in index)
      ensures r.Done? ==> var all := old(index)[n.id := n]; HeadFits(index, head) && AddedTo(all, index, pruned)
    {
      pruned := None;
      if head.None? { return Failed(NoHead), None; }
      if !skipValidatePrevious && n.previous !in index { return Failed(UnknownParent), None; }
      if n.id in index { return Failed(Known), None; }
      SoundAdd(index, n);
      index := index[n.id := n];
      assert n.id in index;
      ghost var all := index;
      pruned := Settle();
      GrowsBut(old(index), n, all, index);
      return Done(()), pruned;
    }

    /** The second half of `add`: pick the head, then prune the oldest block if it is irreversible. */
    method Settle() returns (ghost pruned: Option<BlockId>)
      requires Planted(index) && index != map[]
      modifies this
      ensures Planted(index) && HeadFits(index, head) && AddedTo(old(index), index, pruned)
      ensures Within(index, old(index))
      ensures BftGrows(old(index)) ==> BftGrows(index)
    {
      ghost var all := index;
      head := First();
      var best := head.value;
      var oldest := Oldest();
      SameLevels(all, best, oldest);
      if index[oldest].num < index[best].lib {
        Prune(index[oldest]);
        SoundPart(index, all);
        pruned := Some(oldest);
        if Alone(all, oldest) { StillBest(all, best, oldest, index); }
      } else {
        pruned := None;
      }
    }

    /** The state that a signed block makes of its parent's. */
    method NextState(prior: State, h: Header) returns (r: Result<State>)
      requires prior.active.producers != [] && |prior.confirmCount| <= prior.num
      ensures r == Next(prior, h)
    {
      var state := new BlockHeaderState(prior);
      var next := state.Next(h);
      r := if next.Ok? then Ok(next.value.View()) else Err(next.error);
    }

    /** Add a signed block on top of its stored parent. */
    method Add(h: Header) returns (r: Outcome<BlockId>, ghost pruned: Option<BlockId>)
      requires Valid()
      modifies this
      ensures Valid()
      ensures var id := HeaderId(h.previous, h.hash);
              if old(head).None? then r == Failed(NoHead)
              else if id in old(index) then r == Failed(Known)
              else if h.previous !in old(index) then r == Failed(UnknownParent)
              else match Next(old(index)[h.previous], h)
                case Err(e) => r == Failed(Rejected(e))
                case Ok(t) => t.id == id && r == Done(id) && HeadFits(index, head)
      ensures Step(old(index), if r.Done? then AddBlock(h, pruned) else Refused, index)
      ensures r.Failed? ==> head == old(head)
    {
      pruned := None;
      if head.None? { return Failed(NoHead), None; }
      if HeaderId(h.previous, h.hash) in index { return Failed(Known), None; }
      if h.previous !in index { return Failed(UnknownParent), None; }
      assert Sane(index[h.previous]);
      var next := NextState(index[h.previous], h);
      if next.Err? { return Failed(Rejected(next.error)), None; }
      var n := next.value;
      SaneNext(index[h.previous], h, n);
      var q;
      q, pruned := AddState(n, true);
      AddIsStep(old(index), h, n, pruned, index);
      return Done(n.id), pruned;
    }

    /** The inner loop of one layer: raise those of the blocks `ks` that are below `num`. */
    method RaiseListed(ks: seq<BlockId>, num: nat) returns (raised: seq<BlockId>)
      requires Distinct(ks) && forall k | k in ks :: k in index
      modifies this`index
      ensures index == Lifted(old(index), LowListed(old(index), ks, num), num)
      ensures forall k :: k in raised <==> k in LowListed(old(index), ks, num)
    {
      raised := [];
      var j := 0;
      while j < |ks|
        invariant j <= |ks|
        invariant forall k :: k in raised <==> k in LowListed(old(index), ks[..j], num)
        invariant index == Lifted(old(index), LowListed(old(index), ks[..j], num), num)
      {
        assert ks[j] in ks && ks[j] !in ks[..j];
        if index[ks[j]].bft < num {
          index := index[ks[j] := index[ks[j]].(bft := num)];
          raised := raised + [ks[j]];
        }
        assert ks[..j + 1] == ks[..j] + [ks[j]];
        j := j + 1;
      }
      assert ks[..j] == ks;
    }

    /** One layer of set_bft_irreversible: raise the children of `layer` that are below `num`. */
    method RaiseChildren(layer: seq<BlockId>, num: nat) returns (raised: seq<BlockId>)
      modifies this`index
      ensures index == Lifted(old(index), LowChildren(old(index), layer, num), num)
      ensures forall k :: k in raised <==> k in LowChildren(old(index), layer, num)
    {
      raised := [];
      var i := 0;
      while i < |layer|
        invariant i <= |layer|
        invariant index == Lifted(old(index), LowChildren(old(index), layer[..i], num), num)
        invariant forall k :: k in raised <==> k in LowChildren(old(index), layer[..i], num)
      {
        var ks := ChildrenOf(layer[i]);
        LowSnoc(old(index), layer[..i], layer[i], num, index, ks);
        assert layer[..i + 1] == layer[..i] + [layer[i]];
        var more := RaiseListed(ks, num);
        raised := raised + more;
        i := i + 1;
      }
      assert layer[..i] == layer;
    }

    /** Mark `id` BFT irreversible and let every block built on it know, layer by layer, stopping at blocks that
        already know. */
    method SetBftIrreversible(id: BlockId)
      requires Valid() && id in index
      modifies this`index
      ensures index == Raised(old(index), id)
    {
      ghost var ix0, up: set<BlockId> := index, {};
      var num := index[id].num;
      index := index[id := index[id].(bft := num)];
      var queue := [id];
      SpreadingStart(ix0, id, index);
      while queue != []
        invariant Spreading(ix0, id, up, queue, index)
        decreases |ix0.Keys - up|, |queue|
      {
        ghost var before, low := index, LowChildren(index, queue, num);
        var raised := RaiseChildren(queue, num);
        SpreadingStep(ix0, id, up, queue, before, low, raised);
        SpreadingEnds(ix0, id, up, queue, before, low, raised);
        up := up + low;
        queue := raised;
      }
      SpreadingDone(ix0, id, up, index);
    }

    /** Count a producer's confirmation of a stored block; two thirds plus one make it BFT irreversible. */
    method AddConfirmation(id: BlockId, p: Producer, signedByScheduledKey: bool) returns (r: Outcome<()>)
      requires Valid()
      modifies this
      ensures Valid() && head == old(head)
      ensures r == if id !in old(index) then Failed(NotFound)
                   else if p in old(index)[id].confirmations then Failed(AlreadyConfirmed)
                   else if p !in old(index)[id].active.producers then Failed(NotInSchedule)
                   else if !signedByScheduledKey then Failed(WrongKey)
                   else Done(())
      ensures Step(old(index), if r.Done? then Confirm(id, p) else Refused, index)
    {
      if id !in index { return Failed(NotFound); }
      var b := index[id];
      if p in b.confirmations { return Failed(AlreadyConfirmed); }
      if p !in b.active.producers { return Failed(NotInSchedule); }
      if !signedByScheduledKey { return Failed(WrongKey); }
      SoundConfirmed(index, id, p);
      b := b.(confirmations := b.confirmations + [p]);
      index := index[id := b];
      if b.bft < b.num && |b.confirmations| >= |b.active.producers| * 2 / 3 + 1 {
        SoundRaised(index, id);
        SetBftIrreversible(id);
      }
      return Done(());
    }

    /** The two branches down to a common parent, or NotFound if the walk leaves the container. */
    method FetchBranchFrom(first: BlockId, second: BlockId) returns (r: Outcome<(seq<State>, seq<State>)>)
      requires Linked(index)
      ensures r.Failed? ==> r.error == NotFound && forall u, v :: !Meet(index, first, second, u, v)
      ensures r.Done? ==> Fetched(index, first, second, r.value.0, r.value.1)
    {
      if first !in index || second !in index { return Failed(NotFound); }
      var x, y := first, second;
      var f, s := [], [];
      assert f + [index[x]] == [index[x]] && s + [index[y]] == [index[y]];
      while index[x].num > index[y].num
        invariant Fetching(index, first, second, f, x, s, y) && y == second
        invariant index[x].num < index[y].num ==> x == first
        decreases index[x].num
      {
        FetchFirst(index, first, second, f, x, s, y);
        f := f + [index[x]];
        if index[x].previous !in index { return Failed(NotFound); }
        x := index[x].previous;
      }
      while index[y].num > index[x].num
        invariant Fetching(index, first, second, f, x, s, y) && (x == first || y == second)
        invariant index[y].num >= index[x].num && (index[y].num > index[x].num ==> x == first)
        decreases index[y].num
      {
        FetchSecond(index, first, second, f, x, s, y);
        s := s + [index[y]];
        if index[y].previous !in index { return Failed(NotFound); }
        y := index[y].previous;
      }
      r := FetchLevel(first, second, f, x, s, y);
    }

    /** Both walks are at one height and go on together until they meet. */
    method FetchLevel(first: BlockId, second: BlockId, f0: seq<State>, x0: BlockId, s0: seq<State>, y0: BlockId)
      returns (r: Outcome<(seq<State>, seq<State>)>)
      requires Linked(index) && Fetching(index, first, second, f0, x0, s0, y0) && index[x0].num == index[y0].num
      requires x0 == first || y0 == second
      ensures r.Failed? ==> r.error == NotFound && forall u, v :: !Meet(index, first, second, u, v)
      ensures r.Done? ==> Fetched(index, first, second, r.value.0, r.value.1)
    {
      var f, x, s, y := f0, x0, s0, y0;
      while index[x].previous != index[y].previous
        invariant Fetching(index, first, second, f, x, s, y) && (x == y ==> x == first || y == second)
        invariant index[x].num == index[y].num
        decreases index[x].num
      {
        FetchBoth(index, first, second, f, x, s, y);
        f, s := f + [index[x]], s + [index[y]];
        if index[x].previous !in index || index[y].previous !in index { return Failed(NotFound); }
        x, y := index[x].previous, index[y].previous;
      }
      FetchDone(index, first, second, f, x, s, y);
      f, s := f + [index[x]], s + [index[y]];
      return Done((f, s));
    }
  }
}
