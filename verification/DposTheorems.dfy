/** Safety of DPoS irreversibility over whole runs of `next`
    (libraries/chain/block_header_state.cpp). */
module DposTheorems {
  import opened Options
  import opened Irreversible
  import opened HeaderState
  import opened DposSafety

  // ---------- counting ----------

  /** In every reachable state each counter lies in 1..quorum and equals the quorum of its block minus the
      number of distinct producers that have confirmed it. */
  lemma CountersCountDistinctProducers(ss: seq<State>, hs: seq<Header>, k: nat, i: nat)
    requires Run(ss, hs) && k <= |hs| && i < |ss[k].confirmCount|
    ensures var b := ss[0].num + k - |ss[k].confirmCount| + 1 + i;
            && ss[0].num < b <= ss[k].num == ss[0].num + k
            && 1 <= ss[k].confirmCount[i] <= Quorum(ss, b)
            && ss[k].confirmCount[i] == Quorum(ss, b) - |Confirmers(ss[0].num, hs[..k], b)|
  {
    Reachable(ss, hs, k);
    var s := ss[k];
    assert 0 < s.confirmCount[i] == Owing(ss, hs[..k])(s.num - |s.confirmCount| + 1 + i);
  }

  /** No producer confirms the same block number twice, however schedules change in between. */
  lemma NoProducerCountedTwice(ss: seq<State>, hs: seq<Header>, j: nat, k: nat, b: nat)
    requires Run(ss, hs) && j < k < |hs| && hs[j].producer == hs[k].producer
    ensures !(Covers(ss[0].num + j + 1, hs[j], b) && Covers(ss[0].num + k + 1, hs[k], b))
  {
    Reachable(ss, hs, k);
    StepInRun(ss, hs, k);
    NoRepeat(ss[0].num, hs[..k], ss[k], hs[k], ss[k + 1]);
    if Covers(ss[0].num + j + 1, hs[j], b) {
      assert hs[..k][j].producer in Confirmers(ss[0].num, hs[..k], b);
    }
  }

  lemma SurvivorsShort(ss: seq<State>, hs: seq<Header>, k: nat)
    requires Run(ss, hs) && k <= |hs|
    ensures |ss[k].confirmCount| <= k && ss[k].num == ss[0].num + k
    ensures forall b: nat | ss[k].num - |ss[k].confirmCount| < b <= ss[k].num ::
              |Confirmers(ss[0].num, hs[..k], b)| < Quorum(ss, b)
  {
    Reachable(ss, hs, k);
    forall b: nat | ss[k].num - |ss[k].confirmCount| < b <= ss[k].num
      ensures |Confirmers(ss[0].num, hs[..k], b)| < Quorum(ss, b)
    {
      CountersCountDistinctProducers(ss, hs, k, b - (ss[k].num - |ss[k].confirmCount|) - 1);
    }
  }

  /** How a step moves the proposed number: up, to the newest exhausted block, or not at all. */
  lemma StepShape(ss: seq<State>, hs: seq<Header>, k: nat)
    requires Run(ss, hs) && k < |hs|
    ensures |ss[k + 1].confirmCount| <= k + 1 && ss[k + 1].num == ss[0].num + k + 1
    ensures ss[k].proposed <= ss[0].num + k - |ss[k].confirmCount|
    ensures if Exhausts(ss[k].confirmCount, |ss[k].active.producers|, hs[k].confirmed)
            then ss[k].proposed < ss[k + 1].proposed == ss[k + 1].num - |ss[k + 1].confirmCount|
                 && |ss[k + 1].confirmCount| <= k
            else ss[k + 1].proposed == ss[k].proposed
                 && |ss[k + 1].confirmCount| == |Appended(ss[k].confirmCount, |ss[k].active.producers|)|
  {
    Reachable(ss, hs, k);
    Reachable(ss, hs, k + 1);
    StepInRun(ss, hs, k);
    ProposedStep(ss[k], hs[k], ss[k + 1]);
  }

  /** `q` is the least number above two thirds of `n`. */
  predicate LeastAboveTwoThirds(q: nat, n: nat) { 3 * q > 2 * n >= 3 * (q - 1) }

  /** Every change of the proposed-irreversible number raises it, to a block that its whole quorum of
      distinct producers has confirmed. */
  lemma ProposedNeedsQuorum(ss: seq<State>, hs: seq<Header>, k: nat)
    requires Run(ss, hs) && k < |hs| && ss[k + 1].proposed != ss[k].proposed
    ensures var b := ss[k + 1].proposed;
            && ss[k].proposed < b && ss[0].num < b <= ss[0].num + k + 1
            && |Confirmers(ss[0].num, hs[..k + 1], b)| == Quorum(ss, b)
            && LeastAboveTwoThirds(Quorum(ss, b), |ss[b - ss[0].num - 1].active.producers|)
  {
    StepShape(ss, hs, k);
    Reachable(ss, hs, k);
    StepInRun(ss, hs, k);
    TakeNext(hs, k);
    ExhaustedBlock(ss, hs[..k], hs[k], ss[k], ss[k + 1], ss[k + 1].proposed);
  }

  lemma TakeNext(hs: seq<Header>, k: nat)
    requires k < |hs|
    ensures hs[..k + 1] == hs[..k] + [hs[k]]
  {
  }

  lemma ExhaustedBlock(ss: seq<State>, pre: seq<Header>, h: Header, s: State, t: State, b: nat)
    requires |pre| < |ss| && s == ss[|pre|] && Inv(ss, pre, s) && Accepts(s, h, t) && Admissible(s.num + 1, h)
    requires Exhausts(s.confirmCount, |s.active.producers|, h.confirmed) && b == t.num - |t.confirmCount|
    requires ss[0].num < b <= ss[0].num + |ss|
    ensures |Confirmers(ss[0].num, pre + [h], b)| == Quorum(ss, b)
  {
    ExhaustedOwesNothing(ss, pre, h, s, t, b);
  }

  lemma ExhaustedOwesNothing(ss: seq<State>, pre: seq<Header>, h: Header, s: State, t: State, b: nat)
    requires |pre| < |ss| && s == ss[|pre|] && Inv(ss, pre, s) && Accepts(s, h, t) && Admissible(s.num + 1, h)
    requires Exhausts(s.confirmCount, |s.active.producers|, h.confirmed) && b == t.num - |t.confirmCount|
    ensures Owing(ss, pre + [h])(b) == 0
  {
    BookkeepingStep(ss[0].num, pre, s, h, t);
    ExhaustedStep(ss, pre, h, s, t, b);
  }

  /** A block with its quorum is tracked no more. */
  lemma NotTracked(ss: seq<State>, hs: seq<Header>, k: nat, b: nat)
    requires Run(ss, hs) && k <= |hs| && ss[0].num < b <= ss[0].num + k
    requires |Confirmers(ss[0].num, hs[..k], b)| >= Quorum(ss, b)
    ensures ss[k].num == ss[0].num + k && b <= ss[k].num - |ss[k].confirmCount|
  {
    SurvivorsShort(ss, hs, k);
  }

  /** Conversely, a tracked block that its whole quorum has confirmed is proposed, or an even newer one is. */
  lemma QuorumIsProposed(ss: seq<State>, hs: seq<Header>, k: nat, b: nat)
    requires Run(ss, hs) && k < |hs|
    requires ss[0].num + k - |ss[k].confirmCount| < b <= ss[0].num + k + 1 < b + MAXIMUM_TRACKED
    requires ss[0].num < b && |Confirmers(ss[0].num, hs[..k + 1], b)| >= Quorum(ss, b)
    ensures b <= ss[k + 1].proposed
  {
    NotTracked(ss, hs, k + 1, b);
    StepShape(ss, hs, k);
  }

  /** Numbers are ordered in every reachable state. */
  lemma LibBelowProposedBelowHead(ss: seq<State>, hs: seq<Header>, k: nat)
    requires Run(ss, hs) && k <= |hs|
    ensures ss[k].lib <= ss[k].proposed <= ss[k].num == ss[0].num + k
  {
    Reachable(ss, hs, k);
  }

  // ---------- the irreversible number ----------

  /** The implied numbers the state after header `h` computes its irreversible number from. */
  function ImpliedAt(s: State, h: Header): map<Producer, nat> { s.implied[h.producer := s.proposed] }

  /** The irreversible number is matched or exceeded by what more than two thirds of the producers imply. */
  lemma LibHasSupermajority(ss: seq<State>, hs: seq<Header>, k: nat)
    requires Run(ss, hs) && k < |hs|
    ensures var m := ImpliedAt(ss[k], hs[k]);
            && 3 * |Reaching(m, ss[k + 1].lib)| > 2 * |m|
            && exists p :: p in m && m[p] == ss[k + 1].lib
  {
    StepInRun(ss, hs, k);
    NextParts(ss[k], hs[k], ss[k + 1]);
    assert hs[k].producer in ImpliedAt(ss[k], hs[k]);
    SupermajorityImplies(ImpliedAt(ss[k], hs[k]));
  }

  /** Header `h` made the pending schedule active. */
  ghost predicate PromotedBy(s: State, h: Header) {
    s.active.producers != [] && Promotes(Template(s, h))
  }

  lemma LibOfUnpromoted(ss: seq<State>, hs: seq<Header>, k: nat)
    requires Run(ss, hs) && k <= |hs|
    requires k > 0 ==> !PromotedBy(ss[k - 1], hs[k - 1])
    ensures ss[k].lib == ThirdRank(ss[k].implied)
  {
    if k > 0 {
      StepInRun(ss, hs, k - 1);
      NextParts(ss[k - 1], hs[k - 1], ss[k]);
    }
  }

  /** The irreversible number never drops on a step that does not directly follow a promotion. */
  lemma LibNeverDropsWithoutPromotion(ss: seq<State>, hs: seq<Header>, k: nat)
    requires Run(ss, hs) && k < |hs|
    requires k > 0 ==> !PromotedBy(ss[k - 1], hs[k - 1])
    ensures ss[k].lib <= ss[k + 1].lib
  {
    Reachable(ss, hs, k);
    StepInRun(ss, hs, k);
    NextParts(ss[k], hs[k], ss[k + 1]);
    LibOfUnpromoted(ss, hs, k);
    RaiseOne(ss[k].implied, hs[k].producer, ss[k].proposed);
  }

  /** On any step the irreversible number keeps its level exactly when at most a third of the producers,
      not counting the block's own, imply an earlier number; `m` is the number of implied entries. */
  lemma LibDropsExactly(ss: seq<State>, hs: seq<Header>, k: nat)
    requires Run(ss, hs) && k < |hs|
    ensures var lag := Lagging(ss[k].implied, ss[k].lib) - {hs[k].producer};
            var m := |ss[k].implied.Keys + {hs[k].producer}|;
            m > 0 && (ss[k].lib <= ss[k + 1].lib <==> |lag| <= (m - 1) / 3)
  {
    StepInRun(ss, hs, k);
    LibAfter(ss[k], hs[k], ss[k + 1]);
    Reachable(ss, hs, k);
    LaggingWithout(ss[k].implied, hs[k].producer, ss[k].proposed, ss[k].lib);
  }

  lemma LibAfter(s: State, h: Header, t: State)
    requires Accepts(s, h, t)
    ensures t.lib == ThirdRank(ImpliedAt(s, h))
  {
    NextParts(s, h, t);
  }

  /** Raising one entry to a number not below `level` takes it out of the lagging ones. */
  lemma LaggingWithout(m: map<Producer, nat>, p: Producer, v: nat, level: nat)
    requires level <= v
    ensures var n := m[p := v];
            && |n| == |m.Keys + {p}| > 0
            && (level <= ThirdRank(n) <==> |Lagging(m, level) - {p}| <= (|m.Keys + {p}| - 1) / 3)
  {
    var n := m[p := v];
    assert n.Keys == m.Keys + {p};
    assert Lagging(n, level) == Lagging(m, level) - {p};
    assert level <= ThirdRank(n) <==> |Lagging(n, level)| <= (|n| - 1) / 3;
  }

  /** In particular it does not drop after a promotion if at most (m - 1) / 3 of the m new producers lag. */
  lemma LibKeptByPromotion(ss: seq<State>, hs: seq<Header>, k: nat)
    requires Run(ss, hs) && k < |hs|
    requires ss[k].implied != map[]
    requires |Lagging(ss[k].implied, ss[k].lib)| <= (|ss[k].implied| - 1) / 3
    ensures ss[k].lib <= ss[k + 1].lib
  {
    LibDropsExactly(ss, hs, k);
    SubsetSize(Lagging(ss[k].implied, ss[k].lib) - {hs[k].producer}, Lagging(ss[k].implied, ss[k].lib));
    SubsetSize(ss[k].implied.Keys, ss[k].implied.Keys + {hs[k].producer});
  }

  // ---------- two forks ----------

  lemma {:induction false} MembersBound(ps: seq<Producer>)
    ensures |Members(ps)| <= |ps|
  {
    if ps != [] {
      MembersBound(ps[1..]);
      assert Members(ps) == {ps[0]} + Members(ps[1..]);
    }
  }

  lemma OverlapBound<T>(a: set<T>, b: set<T>, u: set<T>)
    requires a <= u && b <= u
    ensures |a * b| >= |a| + |b| - |u|
  {
    assert |a + b| == |a| + |b| - |a * b|;
    SubsetSize(a + b, u);
  }

  /** The run kept the producers `ps` active from step `c` on. */
  ghost predicate OneSchedule(ss: seq<State>, c: nat, ps: seq<Producer>) {
    forall j | c <= j < |ss| :: ss[j].active.producers == ps
  }

  lemma ConfirmersAreScheduled(ss: seq<State>, hs: seq<Header>, c: nat, ps: seq<Producer>, k: nat, b: nat)
    requires Run(ss, hs) && c <= k <= |hs| && OneSchedule(ss, c, ps) && ss[0].num + c < b
    ensures Confirmers(ss[0].num, hs[..k], b) <= Members(ps)
  {
    var pre := hs[..k];
    forall p | p in Confirmers(ss[0].num, pre, b) ensures p in ps {
      var j :| 0 <= j < |pre| && Covers(ss[0].num + j + 1, pre[j], b) && pre[j].producer == p;
      ConfirmerIsScheduled(ss, hs, c, ps, j, b);
    }
  }

  lemma ConfirmerIsScheduled(ss: seq<State>, hs: seq<Header>, c: nat, ps: seq<Producer>, j: nat, b: nat)
    requires Run(ss, hs) && j < |hs| && OneSchedule(ss, c, ps) && ss[0].num + c < b
    requires Covers(ss[0].num + j + 1, hs[j], b)
    ensures hs[j].producer in ps
  {
    StepInRun(ss, hs, j);
    NextProducer(ss[j], hs[j], ss[j + 1]);
  }

  /** The distinct producers behind the block that step `k` proposed. */
  function Backing(ss: seq<State>, hs: seq<Header>, k: nat): set<Producer>
    requires k < |hs| && |ss| == |hs| + 1
  {
    Confirmers(ss[0].num, hs[..k + 1], ss[k + 1].proposed)
  }

  /** Step `k`, at or after step `c`, proposes a block appended after step `c`. */
  predicate ProposesAfter(ss: seq<State>, hs: seq<Header>, c: nat, k: nat)
    requires |ss| == |hs| + 1
  {
    c <= k < |hs| && ss[k + 1].proposed != ss[k].proposed && ss[k + 1].proposed > ss[c].num
  }

  lemma ForkQuorum(ss: seq<State>, hs: seq<Header>, c: nat, ps: seq<Producer>, k: nat)
    requires Run(ss, hs) && OneSchedule(ss, c, ps) && ProposesAfter(ss, hs, c, k)
    ensures |Backing(ss, hs, k)| == RequiredConfirmations(|ps|) && Backing(ss, hs, k) <= Members(ps)
  {
    LibBelowProposedBelowHead(ss, hs, c);
    ProposedNeedsQuorum(ss, hs, k);
    ConfirmersAreScheduled(ss, hs, c, ps, k + 1, ss[k + 1].proposed);
  }

  /** Two runs that agree up to step `c` and keep one schedule of n producers from there on: if each proposes a
      block appended after the fork, more than n/3 of the producers confirmed both blocks. */
  lemma ForksShareAThird(ss1: seq<State>, hs1: seq<Header>, ss2: seq<State>, hs2: seq<Header>, c: nat,
                         ps: seq<Producer>, k1: nat, k2: nat)
    requires Run(ss1, hs1) && Run(ss2, hs2)
    requires c <= |hs1| && c <= |hs2| && ss1[..c + 1] == ss2[..c + 1] && hs1[..c] == hs2[..c]
    requires OneSchedule(ss1, c, ps) && OneSchedule(ss2, c, ps)
    requires ProposesAfter(ss1, hs1, c, k1) && ProposesAfter(ss2, hs2, c, k2)
    ensures 3 * |Backing(ss1, hs1, k1) * Backing(ss2, hs2, k2)| > |ps|
  {
    ForkQuorum(ss1, hs1, c, ps, k1);
    ForkQuorum(ss2, hs2, c, ps, k2);
    QuorumsOverlap(Backing(ss1, hs1, k1), Backing(ss2, hs2, k2), ps);
  }

  lemma QuorumsOverlap(a: set<Producer>, b: set<Producer>, ps: seq<Producer>)
    requires a <= Members(ps) && b <= Members(ps) && |a| == |b| == RequiredConfirmations(|ps|)
    ensures 3 * |a * b| > |ps|
  {
    MembersBound(ps);
    OverlapBound(a, b, Members(ps));
  }

  // ---------- schedules ----------

  /** Block `j + 1` of the run proposed the schedule, with the version after the active one. */
  ghost predicate ProposedAt(ss: seq<State>, hs: seq<Header>, j: nat, sch: Schedule)
    requires |ss| == |hs| + 1 && j < |hs|
  {
    hs[j].newProducers == Some(sch) && sch.version == ss[j].active.version + 1
  }

  /** The pending schedule is the one of the start, or a block of the run proposed it. */
  ghost predicate PendingFrom(ss: seq<State>, hs: seq<Header>, k: nat)
    requires |ss| == |hs| + 1 && k <= |hs|
  {
    var s := ss[k];
    || s.pending.producers == [] || (s.pending == ss[0].pending && s.pendingLib == ss[0].pendingLib)
    || exists j: nat :: j < k && ProposedAt(ss, hs, j, s.pending) && s.pendingLib == ss[j + 1].num
  }

  /** At step `i` the schedule is active, and the block that proposed it is irreversible. */
  ghost predicate ActiveAt(ss: seq<State>, hs: seq<Header>, i: nat, sch: Schedule)
    requires |ss| == |hs| + 1 && i <= |hs|
  {
    && ss[i].active == sch
    && (|| (sch == ss[0].pending && ss[0].pendingLib <= ss[i].lib)
        || exists j: nat :: j < i && ProposedAt(ss, hs, j, sch) && ss[j + 1].num <= ss[i].lib)
  }

  /** The active schedule is the first one, or waited for its block. */
  ghost predicate Awaited(ss: seq<State>, hs: seq<Header>, k: nat)
    requires |ss| == |hs| + 1 && k <= |hs|
  {
    ss[k].active == ss[0].active || exists i: nat :: i <= k && ActiveAt(ss, hs, i, ss[k].active)
  }

  lemma PromotedFrom(ss: seq<State>, hs: seq<Header>, k: nat)
    requires Run(ss, hs) && k < |hs| && PendingFrom(ss, hs, k) && ss[k].active.producers != []
    ensures PendingFrom(ss, hs, k + 1)
    ensures ss[k + 1].active == ss[k].active || ActiveAt(ss, hs, k + 1, ss[k + 1].active)
  {
    var s, h, t := ss[k], hs[k], ss[k + 1];
    NextParts(s, h, t);
    if h.newProducers.Some? {
      ProposedVersion(s, h, t);
      assert ProposedAt(ss, hs, k, t.pending);
    } else if j: nat :| j < k && ProposedAt(ss, hs, j, s.pending) && s.pendingLib == ss[j + 1].num {
      assert ProposedAt(ss, hs, j, s.pending);
    }
  }

  /** Over every run, a schedule other than the first becomes active only once the block that proposed it, with the
      next version, is irreversible. */
  lemma {:induction false} SchedulesWait(ss: seq<State>, hs: seq<Header>, k: nat)
    requires Run(ss, hs) && k <= |hs|
    ensures PendingFrom(ss, hs, k) && Awaited(ss, hs, k)
  {
    if k > 0 {
      var j := k - 1;
      SchedulesWait(ss, hs, j);
      StillWaits(ss, hs, j, k);
    }
  }

  lemma StillWaits(ss: seq<State>, hs: seq<Header>, k: nat, next: nat)
    requires Run(ss, hs) && k < |hs| && next == k + 1 && PendingFrom(ss, hs, k) && Awaited(ss, hs, k)
    ensures PendingFrom(ss, hs, next) && Awaited(ss, hs, next)
  {
    StepInRun(ss, hs, k);
    PromotedFrom(ss, hs, k);
    if ss[k + 1].active == ss[k].active && ss[k].active != ss[0].active {
      var i: nat :| i <= k && ActiveAt(ss, hs, i, ss[k].active);
      assert ActiveAt(ss, hs, i, ss[k + 1].active);
    }
  }

  // ---------- where the premises matter ----------

  /** An accepted header repeats no confirmation exactly when it confirms no more blocks than there are, or
      its producer is new to the run: the unsigned subtraction in the check wraps otherwise. */
  lemma RepeatsExactlyOnWrap(ss: seq<State>, hs: seq<Header>, h: Header, t: State)
    requires Run(ss, hs) && Accepts(ss[|hs|], h, t)
    ensures NewVotes(ss[0].num, hs, h) <==>
            h.confirmed <= ss[|hs|].num + 1 || forall j | 0 <= j < |hs| :: hs[j].producer != h.producer
  {
    Reachable(ss, hs, |hs|);
    assert hs[..|hs|] == hs;
    var n0 := ss[0].num;
    if h.confirmed <= ss[|hs|].num + 1 {
      NoRepeat(n0, hs, ss[|hs|], h, t);
    } else if j :| 0 <= j < |hs| && hs[j].producer == h.producer {
      var b := n0 + j + 1;
      assert Covers(b, hs[j], b) && h.producer in Confirmers(n0, hs, b);
      assert Covers(n0 + |hs| + 1, h, b);
    }
  }

  /** The genesis header state (libraries/chain/controller.cpp, initialize_fork_db). */
  function Genesis(id: BlockId, slot: nat, initial: Schedule): State {
    State(id, BlockId(0, 0), 1, slot, 0, 0, 0, 0, 0, initial, initial, map[], map[], [], [])
  }

  lemma GenesisIsFresh(id: BlockId, slot: nat, initial: Schedule)
    requires initial.producers != [] && Fits(initial)
    ensures Fresh(Genesis(id, slot, initial))
  {
    assert IsThirdRank(map[], ThirdRank(map[]));
  }

  /** A run goes on with any admissible header that is accepted. */
  lemma RunGrows(ss: seq<State>, hs: seq<Header>, h: Header, t: State)
    requires Run(ss, hs) && Admissible(ss[0].num + |hs| + 1, h) && Accepts(ss[|hs|], h, t)
    ensures Run(ss + [t], hs + [h])
  {
    var more, all := ss + [t], hs + [h];
    forall j | 0 <= j < |all| ensures Admissible(more[0].num + j + 1, all[j]) && Accepts(more[j], all[j], more[j + 1]) {
      if j < |hs| { assert Accepts(ss[j], hs[j], ss[j + 1]); }
    }
  }
}
