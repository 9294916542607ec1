/** The header state as the source holds it: an object whose methods update its fields
    (libraries/chain/block_header_state.cpp). Every method is proved against the step functions of HeaderState. */
module HeaderObject {
  import opened Options
  import opened Irreversible
  import opened HeaderState

  class BlockHeaderState {
    var id: BlockId
    var previous: BlockId
    var num: nat
    var slot: nat
    var producer: Producer
    var proposed: nat
    var lib: nat
    var bft: nat
    var pendingLib: nat
    var pending: Schedule
    var active: Schedule
    var lastProduced: map<Producer, nat>
    var implied: map<Producer, nat>
    var confirmCount: seq<nat>
    var confirmations: seq<Producer>

    function View(): State
      reads this
    {
      State(id, previous, num, slot, producer, proposed, lib, bft, pendingLib, pending, active,
            lastProduced, implied, confirmCount, confirmations)
    }

    constructor (s: State)
      ensures View() == s
    {
      id, previous, num, slot, producer := s.id, s.previous, s.num, s.slot, s.producer;
      proposed, lib, bft := s.proposed, s.lib, s.bft;
      pendingLib, pending, active := s.pendingLib, s.pending, s.active;
      lastProduced, implied := s.lastProduced, s.implied;
      confirmCount, confirmations := s.confirmCount, s.confirmations;
    }

    /** Entries from `low` on were lowered: all of the window, or down to the entry `z` that ran out. */
    static lemma Lowered(cc: seq<nat>, k: nat, r: seq<nat>, low: nat, z: int)
      requires |r| == |cc| && low <= |cc| && z == Exhausted(cc, |cc| - 1, k)
      requires forall j | 0 <= j < |cc| :: r[j] == if low <= j then Decrement(cc[j]) else cc[j]
      requires |cc| - low <= k && if z < 0 then low == 0 || |cc| - low == k else low == z
      ensures (z >= 0 ==> r[z + 1..] == Confirmed(cc, k)) && (z < 0 ==> r == Confirmed(cc, k))
    {
      ConfirmedAt(cc, k);
    }

    /** The loop of set_confirmed over the counters: `z` is the entry it stops at, or -1. */
    static method LowerCounters(cc: seq<nat>, k: nat) returns (r: seq<nat>, z: int)
      ensures z == Exhausted(cc, |cc| - 1, k)
      ensures r == Confirmed(cc, k)
    {
      r := cc;
      var i := |cc| - 1;
      var blocksToConfirm := k;
      while i >= 0 && blocksToConfirm != 0
        invariant -1 <= i < |cc| && 0 <= blocksToConfirm <= k
        invariant k - blocksToConfirm == |cc| - 1 - i
        invariant |r| == |cc|
        invariant forall j | 0 <= j < |cc| :: r[j] == if i < j then Decrement(cc[j]) else cc[j]
        invariant Exhausted(cc, i, blocksToConfirm) == Exhausted(cc, |cc| - 1, k)
        decreases i
      {
        r := r[i := Decrement(r[i])];
        if r[i] == 0 {
          Lowered(cc, k, r, i, i);
          return r[i + 1..], i;
        }
        i := i - 1;
        blocksToConfirm := blocksToConfirm - 1;
      }
      Lowered(cc, k, r, i + 1, -1);
      return r, -1;
    }

    method SetConfirmed(numPrevBlocks: uint16)
      requires |confirmCount| <= num
      modifies this`confirmCount, this`proposed
      ensures View() == HeaderState.SetConfirmed(old(View()), numPrevBlocks)
    {
      var n := |confirmCount|;
      var r, z := LowerCounters(confirmCount, numPrevBlocks + 1);
      confirmCount := r;
      if z >= 0 {
        proposed := num - (n - 1 - z);
      }
    }

    /** One of the two loops of maybe_promote_pending. */
    static method Rekey(m: map<Producer, nat>, producers: seq<Producer>, lib: nat) returns (r: map<Producer, nat>)
      ensures r == Rekeyed(m, producers, lib)
    {
      r := map[];
      for i := 0 to |producers|
        invariant r == Rekeyed(m, producers[..i], lib)
      {
        assert producers[..i + 1] == producers[..i] + [producers[i]];
        r := r[producers[i] := if producers[i] in m then m[producers[i]] else lib];
      }
      assert producers[..|producers|] == producers;
    }

    method MaybePromotePending() returns (promoted: bool)
      modifies this`active, this`pending, this`lastProduced, this`implied
      ensures promoted == Promotes(old(View()))
      ensures View() == MaybePromote(old(View()))
    {
      if |pending.producers| != 0 && lib >= pendingLib {
        active := pending;
        pending := Schedule(pending.version, []);
        var newLastProduced := Rekey(lastProduced, active.producers, lib);
        var newImplied := Rekey(implied, active.producers, lib);
        lastProduced := newLastProduced;
        implied := newImplied;
        lastProduced := lastProduced[producer := num];
        return true;
      }
      return false;
    }

    method SetNewProducers(next: Schedule) returns (r: Result<()>)
      modifies this`pending, this`pendingLib
      ensures var q := HeaderState.SetNewProducers(old(View()), next);
              if q.Ok? then r.Ok? && View() == q.value else r == Err(q.error) && View() == old(View())
    {
      if next.version != active.version + 1 { return Err(WrongPendingVersion); }
      if |pending.producers| != 0 { return Err(PendingAlreadySet); }
      pending := next;
      pendingLib := num;
      return Ok(());
    }

    method GenerateNext(when: nat) returns (r: BlockHeaderState)
      requires active.producers != []
      ensures fresh(r) && r.View() == HeaderState.GenerateNext(View(), when)
    {
      var p := ScheduledProducer(active, when);
      var newImplied := implied[p := proposed];
      var newLib := CalcDposLastIrreversible(newImplied);
      r := new BlockHeaderState(State(
        BlockId(0, 0), id, num + 1, when, p, proposed, newLib, bft, pendingLib, pending, active,
        lastProduced[p := num + 1], newImplied, Appended(confirmCount, |active.producers|), []));
    }

    /** The second half of `next`, on the freshly generated state; after an error the object is discarded. */
    method Apply(h: Header) returns (r: Result<()>)
      requires |confirmCount| <= num
      modifies this
      ensures var q := Applied(old(View()), h);
              if q.Ok? then r.Ok? && View() == q.value else r == Err(q.error)
    {
      SetConfirmed(h.confirmed);
      var wasPendingPromoted := MaybePromotePending();
      if h.newProducers.Some? {
        if wasPendingPromoted { return Err(ProposedWhilePromoting); }
        var q := SetNewProducers(h.newProducers.value);
        if q.Err? { return Err(q.error); }
      }
      id := HeaderId(previous, h.hash);
      if !h.signedByScheduledKey { return Err(WrongSigningKey); }
      return Ok(());
    }

    method Next(h: Header) returns (r: Result<BlockHeaderState>)
      requires active.producers != [] && |confirmCount| <= num
      ensures var q := HeaderState.Next(View(), h);
              if q.Ok? then r.Ok? && fresh(r.value) && r.value.View() == q.value else r == Err(q.error)
    {
      if h.slot == 0 { return Err(MissingTimestamp); }
      if h.hasExtensions { return Err(HasExtensions); }
      if h.slot <= slot { return Err(NotLater); }
      if h.previous != id { return Err(Unlinkable); }
      var result := GenerateNext(h.slot);
      if result.producer != h.producer { return Err(WrongProducer); }
      if active.version != h.scheduleVersion { return Err(WrongScheduleVersion); }
      if h.producer in lastProduced {
        if lastProduced[h.producer] >= WrapSub(result.num, h.confirmed) { return Err(DoubleConfirm); }
      }
      var applied := result.Apply(h);
      if applied.Err? { return Err(applied.error); }
      return Ok(result);
    }
  }
}
