/** One step of a run, described field by field: which headers are accepted, what they change and what they leave
    (libraries/chain/block_header_state.cpp). */
module DposSteps {
  import opened Division
  import opened Options
  import opened Irreversible
  import opened HeaderState
  import opened DposSafety
  import opened DposTheorems

  // ---------- whose turn it is ----------

  /** In round `k` producer `i` of `n` has this slot among the slots it has in a row. */
  ghost predicate InTurn(slot: nat, n: nat, i: nat, k: nat) {
    (n * k + i) * PRODUCER_REPETITIONS <= slot < (n * k + i + 1) * PRODUCER_REPETITIONS
  }

  /** It is the turn of `p` among the producers `ps`. */
  ghost predicate OnTurn(ps: seq<Producer>, slot: nat, p: Producer) {
    exists i: nat, k: nat :: i < |ps| && InTurn(slot, |ps|, i, k) && ps[i] == p
  }

  /** Rounds follow each other, and within a round producers have their slots in the order of the schedule. */
  lemma TurnExactly(slot: nat, n: nat, i: nat)
    requires i < n
    ensures Turn(slot, n) == i <==> exists k: nat :: InTurn(slot, n, i, k)
  {
    var q := slot / PRODUCER_REPETITIONS;
    Twice(slot, PRODUCER_REPETITIONS, n);
    if q % n == i {
      RoundOf(q, n, q / n, i);
      InTurnExactly(slot, n, i, q / n, q);
    } else if k: nat :| InTurn(slot, n, i, k) {
      InTurnExactly(slot, n, i, k, q);
      RoundOf(q, n, k, i);
    }
  }

  lemma InTurnExactly(slot: nat, n: nat, i: nat, k: nat, q: nat)
    requires q == slot / PRODUCER_REPETITIONS
    ensures InTurn(slot, n, i, k) <==> q == n * k + i
  {
    QuotientExactly(slot, PRODUCER_REPETITIONS, n * k + i);
  }

  lemma RoundOf(q: nat, n: nat, k: nat, i: nat)
    requires i < n && (q == n * k + i || (k == q / n && i == q % n))
    ensures q == n * k + i && q % n == i
  {
    if q == n * k + i { QuotientAndRest(q, n, k, i); }
  }

  lemma ScheduledExactly(active: Schedule, slot: nat, p: Producer)
    requires active.producers != []
    ensures ScheduledProducer(active, slot) == p <==> OnTurn(active.producers, slot, p)
  {
    var ps := active.producers;
    var i := Turn(slot, |ps|);
    TurnExactly(slot, |ps|, i);
    if j: nat, k: nat :| j < |ps| && InTurn(slot, |ps|, j, k) && ps[j] == p { TurnExactly(slot, |ps|, j); }
  }

  /** Over every run, each block is of the producer whose turn its slot is. */
  lemma ProducersTakeTurns(ss: seq<State>, hs: seq<Header>, k: nat)
    requires Run(ss, hs) && k < |hs|
    ensures OnTurn(ss[k].active.producers, hs[k].slot, hs[k].producer)
    ensures forall p | OnTurn(ss[k].active.producers, hs[k].slot, p) :: p == hs[k].producer
  {
    var s, h := ss[k], hs[k];
    StepInRun(ss, hs, k);
    NextParts(s, h, ss[k + 1]);
    ScheduledExactly(s.active, h.slot, h.producer);
    forall p | OnTurn(s.active.producers, h.slot, p) ensures p == h.producer { ScheduledExactly(s.active, h.slot, p); }
  }

  // ---------- which headers are accepted ----------

  /** The producer has confirmed nothing as far back as the header does; the difference is one of unsigned numbers. */
  predicate MarkAllows(s: State, h: Header) {
    h.producer in s.lastProduced ==>
      var mark := s.lastProduced[h.producer];
      mark + h.confirmed <= s.num + if h.confirmed <= s.num + 1 then 0 else 0x1_0000_0000
  }

  /** A schedule may be proposed while none is pending, with the next version. */
  predicate ProposalAllowed(s: State, h: Header) {
    h.newProducers.Some? ==> s.pending.producers == [] && h.newProducers.value.version == s.active.version + 1
  }

  ghost predicate Acceptable(s: State, h: Header) {
    && s.active.producers != [] && s.slot < h.slot && !h.hasExtensions && h.previous == s.id
    && OnTurn(s.active.producers, h.slot, h.producer) && h.scheduleVersion == s.active.version
    && MarkAllows(s, h) && ProposalAllowed(s, h) && h.signedByScheduledKey
  }

  /** Exactly these headers are accepted, in any state. */
  lemma AcceptedExactly(s: State, h: Header)
    requires s.active.producers != []
    ensures Next(s, h).Ok? <==> Acceptable(s, h)
  {
    ScheduledExactly(s.active, h.slot, h.producer);
    if h.producer == ScheduledProducer(s.active, h.slot) { AppliedExactly(GenerateNext(s, h.slot), h); }
  }

  lemma AppliedExactly(g: State, h: Header)
    ensures Applied(g, h).Ok? <==> ProposalAllowed(g, h) && h.signedByScheduledKey
  {
  }

  /** The checks in the order of the code, each with the error it raises. */
  ghost function Checks(s: State, h: Header): seq<(bool, Error)> {
    var lib := ThirdRank(s.implied[h.producer := s.proposed]);
    var proposes := h.newProducers.Some?;
    [(h.slot > 0, MissingTimestamp), (!h.hasExtensions, HasExtensions), (s.slot < h.slot, NotLater),
     (h.previous == s.id, Unlinkable), (OnTurn(s.active.producers, h.slot, h.producer), WrongProducer),
     (h.scheduleVersion == s.active.version, WrongScheduleVersion), (MarkAllows(s, h), DoubleConfirm),
     (!(proposes && s.pending.producers != [] && s.pendingLib <= lib), ProposedWhilePromoting),
     (proposes ==> h.newProducers.value.version == s.active.version + 1, WrongPendingVersion),
     (proposes ==> s.pending.producers == [], PendingAlreadySet), (h.signedByScheduledKey, WrongSigningKey)]
  }

  /** A refused header is refused with the error of the first check that it fails. */
  lemma RefusedByFirst(s: State, h: Header, i: nat)
    requires s.active.producers != [] && i < |Checks(s, h)|
    requires !Checks(s, h)[i].0 && forall j | 0 <= j < i :: Checks(s, h)[j].0
    ensures Next(s, h) == Err(Checks(s, h)[i].1)
  {
    var c := Checks(s, h);
    ScheduledExactly(s.active, h.slot, h.producer);
    if i >= 7 {
      assert c[0].0 && c[1].0 && c[2].0 && c[3].0 && c[4].0 && c[5].0 && c[6].0;
      var g := GenerateNext(s, h.slot);
      assert Next(s, h) == Applied(g, h) && g.lib == ThirdRank(s.implied[h.producer := s.proposed]);
      if i > 7 { assert c[7].0; }
      if i > 8 { assert c[8].0; }
      if i > 9 { assert c[9].0; }
    } else {
      EarlyRefusal(s, h, i);
    }
  }

  lemma EarlyRefusal(s: State, h: Header, i: nat)
    requires s.active.producers != [] && i < 7
    requires !Checks(s, h)[i].0 && forall j | 0 <= j < i :: Checks(s, h)[j].0
    ensures Next(s, h) == Err(Checks(s, h)[i].1)
  {
    var c := Checks(s, h);
    ScheduledExactly(s.active, h.slot, h.producer);
    assert i > 0 ==> c[0].0;
    assert i > 1 ==> c[1].0;
    assert i > 2 ==> c[2].0;
    assert i > 3 ==> c[3].0;
    assert i > 4 ==> c[4].0;
    assert i > 5 ==> c[5].0;
  }

  // ---------- what a step changes ----------

  /** The header makes the pending schedule active: the irreversible number has reached the block that proposed it. */
  predicate Promoted(s: State, t: State) { s.pending.producers != [] && s.pendingLib <= t.lib }

  lemma StepFields(s: State, h: Header, t: State)
    requires Accepts(s, h, t)
    ensures t.id == BlockId(s.id.num + 1, h.hash) && t.previous == s.id && t.num == s.num + 1
    ensures t.slot == h.slot && t.producer == h.producer && t.bft == s.bft && t.confirmations == []
  {
    NextParts(s, h, t);
  }

  /** How schedules move on. */
  lemma StepSchedules(s: State, h: Header, t: State)
    requires Accepts(s, h, t)
    ensures t.active == if Promoted(s, t) then s.pending else s.active
    ensures t.pending == if h.newProducers.Some? then h.newProducers.value
                         else if Promoted(s, t) then Schedule(s.pending.version, []) else s.pending
    ensures t.pendingLib == if h.newProducers.Some? then t.num else s.pendingLib
    ensures h.newProducers.Some? ==> !Promoted(s, t)
  {
    NextParts(s, h, t);
  }

  /** A producer's number after a step that does not promote: the block's own is set, all others stay. */
  ghost predicate Marked(m: map<Producer, nat>, n: map<Producer, nat>, own: Producer, mark: nat) {
    && n.Keys == m.Keys + {own} && n[own] == mark
    && forall p | p in m && p != own :: n[p] == m[p]
  }

  /** The numbers of the producers `ps` after a promotion, other than the block's own: kept if known, else `lib`. */
  ghost predicate CarriedOver(m: map<Producer, nat>, n: map<Producer, nat>, ps: seq<Producer>, own: Producer,
                              lib: nat)
  {
    && (forall p | p in ps && p != own :: p in n && n[p] == if p in m then m[p] else lib)
    && forall p | p in n && p != own :: p in ps
  }

  /** Over every run: a step that does not promote sets the marks of its own producer and no other; one that does
      keeps the marks of the new schedule's producers, gives newcomers the irreversible number, and drops the rest.
      The block's own producer is marked with the block in any case. */
  lemma MarksMoveOn(ss: seq<State>, hs: seq<Header>, k: nat)
    requires Run(ss, hs) && k < |hs|
    ensures var s, t, own := ss[k], ss[k + 1], hs[k].producer;
            if Promoted(s, t)
            then && CarriedOver(s.lastProduced, t.lastProduced, t.active.producers, own, t.lib)
                 && CarriedOver(s.implied, t.implied, t.active.producers, own, t.lib)
                 && own in t.lastProduced && t.lastProduced[own] == t.num
                 && (own in t.implied <==> own in t.active.producers)
                 && (own in t.implied ==> t.implied[own] == s.proposed)
            else && Marked(s.lastProduced, t.lastProduced, own, t.num)
                 && Marked(s.implied, t.implied, own, s.proposed)
  {
    StepInRun(ss, hs, k);
    NextParts(ss[k], hs[k], ss[k + 1]);
  }

  // ---------- which blocks are tracked ----------

  function Least(a: nat, b: nat): nat { if a < b then a else b }

  /** The newest block that is not tracked any more because it, or a newer one, was proposed. */
  function Floor(ss: seq<State>, k: nat): nat
    requires k < |ss|
  {
    if ss[0].num < ss[k].proposed then ss[k].proposed else ss[0].num
  }

  /** Over every run, the tracked blocks are those above the last proposed one, up to 1024 of the newest. */
  lemma {:induction false} TrackedExactly(ss: seq<State>, hs: seq<Header>, k: nat)
    requires Run(ss, hs) && k <= |hs|
    ensures Floor(ss, k) <= ss[k].num && |ss[k].confirmCount| == Least(1024, ss[k].num - Floor(ss, k))
  {
    if k > 0 {
      var j := k - 1;
      TrackedExactly(ss, hs, j);
      StillTracked(ss, hs, j, k);
    } else {
      LibBelowProposedBelowHead(ss, hs, k);
    }
  }

  lemma StillTracked(ss: seq<State>, hs: seq<Header>, j: nat, k: nat)
    requires Run(ss, hs) && j < |hs| && k == j + 1
    requires Floor(ss, j) <= ss[j].num && |ss[j].confirmCount| == Least(1024, ss[j].num - Floor(ss, j))
    ensures Floor(ss, k) <= ss[k].num && |ss[k].confirmCount| == Least(1024, ss[k].num - Floor(ss, k))
  {
    StepShape(ss, hs, j);
    LibBelowProposedBelowHead(ss, hs, j);
    LibBelowProposedBelowHead(ss, hs, k);
    StepInRun(ss, hs, j);
    NextParts(ss[j], hs[j], ss[k]);
  }
}
