/** What holds in every header state that runs of `next` can reach, schedule changes included
    (libraries/chain/block_header_state.cpp). */
module DposSafety {
  import opened Options
  import opened Irreversible
  import opened HeaderState

  // ---------- runs ----------

  ghost predicate Accepts(s: State, h: Header, t: State) {
    s.active.producers != [] && Next(s, h) == Ok(t)
  }

  /** The counter of a block fits in eight bits (the static_assert on max_producers). */
  predicate Fits(sch: Schedule) { RequiredConfirmations(|sch.producers|) < 0x100 }

  /** A state in which no confirmation has been counted yet, such as genesis. */
  ghost predicate Fresh(s: State) {
    && s.confirmCount == []
    && s.active.producers != [] && Fits(s.active) && Fits(s.pending)
    && s.lib <= s.proposed <= s.num
    && (forall p | p in s.implied :: s.implied[p] <= s.proposed)
    && s.lib == ThirdRank(s.implied)
  }

  /** What the surrounding code guarantees of the header of block number `n`: it confirms no block below
      number zero and proposes no schedule with more producers than the counters can hold. */
  predicate Admissible(n: nat, h: Header) {
    h.confirmed <= n && (h.newProducers.Some? ==> Fits(h.newProducers.value))
  }

  /** `ss` is a run of `next`: header `hs[j]` takes state `ss[j]` to `ss[j + 1]`. */
  ghost predicate Run(ss: seq<State>, hs: seq<Header>) {
    && |ss| == |hs| + 1
    && Fresh(ss[0])
    && forall j | 0 <= j < |hs| :: Admissible(ss[0].num + j + 1, hs[j]) && Accepts(ss[j], hs[j], ss[j + 1])
  }

  /** Does the header of block number `n` confirm block number `b`? */
  predicate Covers(n: nat, h: Header, b: nat) { n - h.confirmed <= b <= n }

  /** The distinct producers whose blocks, numbered from `n0 + 1`, confirmed block number `b`. */
  function Confirmers(n0: nat, hs: seq<Header>, b: nat): set<Producer> {
    set j | 0 <= j < |hs| && Covers(n0 + j + 1, hs[j], b) :: hs[j].producer
  }

  /** `h`, the next header after `hs`, confirms only blocks its producer has not confirmed in `hs`. */
  ghost predicate NewVotes(n0: nat, hs: seq<Header>, h: Header) {
    forall b: nat | Covers(n0 + |hs| + 1, h, b) :: h.producer !in Confirmers(n0, hs, b)
  }

  lemma ConfirmersSnoc(n0: nat, hs: seq<Header>, h: Header, b: nat)
    ensures Confirmers(n0, hs + [h], b) ==
            Confirmers(n0, hs, b) + if Covers(n0 + |hs| + 1, h, b) then {h.producer} else {}
  {
    var hs' := hs + [h];
    forall p | p in Confirmers(n0, hs, b) ensures p in Confirmers(n0, hs', b) {
      var j :| 0 <= j < |hs| && Covers(n0 + j + 1, hs[j], b) && hs[j].producer == p;
      assert hs'[j] == hs[j];
    }
    assert hs'[|hs|] == h;
  }

  /** The number of confirmers of `b` grows by one exactly when the new header covers `b`. */
  lemma OneVote(n0: nat, hs: seq<Header>, h: Header, b: nat)
    requires NewVotes(n0, hs, h)
    ensures |Confirmers(n0, hs + [h], b)| ==
            |Confirmers(n0, hs, b)| + if Covers(n0 + |hs| + 1, h, b) then 1 else 0
  {
    ConfirmersSnoc(n0, hs, h, b);
  }

  lemma NotAhead(n0: nat, hs: seq<Header>, b: nat)
    requires n0 + |hs| < b
    ensures Confirmers(n0, hs, b) == {}
  {
  }

  // ---------- counters against what is owed ----------

  /** Each counter holds what is still owed to its block; the last counter belongs to block `top`. */
  ghost predicate Shows(cc: seq<nat>, top: nat, owed: nat -> int) {
    |cc| <= top && forall i | 0 <= i < |cc| :: 0 < cc[i] == owed(top - |cc| + 1 + i)
  }

  lemma AppendShows(cc: seq<nat>, top: nat, owed: nat -> int, n: nat)
    requires Shows(cc, top, owed)
    requires owed(top + 1) == RequiredConfirmations(n) < 0x100
    ensures |Appended(cc, n)| <= |cc| + 1 && Shows(Appended(cc, n), top + 1, owed)
  {
    var r := Appended(cc, n);
    forall i | 0 <= i < |r| ensures 0 < r[i] == owed(top + 1 - |r| + 1 + i) {
      if i < |r| - 1 {
        var j := if |cc| < MAXIMUM_TRACKED then i else i + 1;
        assert r[i] == cc[j] && top + 1 - |r| + 1 + i == top - |cc| + 1 + j;
      }
    }
  }

  /** Counting `k` more confirmations from the newest block down: an exhausted counter means nothing is owed
      to its block any more, and to every block tracked afterwards something still is. */
  lemma ConfirmShows(cc: seq<nat>, top: nat, owed: nat -> int, owed': nat -> int, k: nat, r: seq<nat>)
    requires Shows(cc, top, owed)
    requires forall b: nat | top - |cc| < b <= top :: owed'(b) == owed(b) - if top - k < b then 1 else 0
    requires r == Confirmed(cc, k)
    ensures |r| <= |cc| && Shows(r, top, owed')
    ensures Exhausted(cc, |cc| - 1, k) >= 0 ==> owed'(top - |r|) == 0
  {
    ExhaustedIsNewest(cc, |cc| - 1, k);
    var z := Exhausted(cc, |cc| - 1, k);
    forall i | 0 <= i < |r| ensures 0 < r[i] == owed'(top - |r| + 1 + i) {
      assert 0 < cc[z + 1 + i] == owed(top - |cc| + 1 + (z + 1 + i));
    }
    if z >= 0 {
      assert 0 < cc[z] == owed(top - |cc| + 1 + z);
    }
  }

  /** The counters after one more block of an `n`-producer schedule that confirms `confirmed` earlier blocks. */
  function After(cc: seq<nat>, n: nat, confirmed: nat): seq<nat> {
    Confirmed(Appended(cc, n), confirmed + 1)
  }

  predicate Exhausts(cc: seq<nat>, n: nat, confirmed: nat) {
    var app := Appended(cc, n);
    Exhausted(app, |app| - 1, confirmed + 1) >= 0
  }

  /** One step on the counters: append the new block's counter, then count the new header. */
  lemma CountersStep(cc: seq<nat>, top: nat, owed: nat -> int, owed': nat -> int, n: nat, confirmed: nat,
                     cc': seq<nat>, top': nat)
    requires Shows(cc, top, owed) && top' == top + 1
    requires owed(top + 1) == RequiredConfirmations(n) < 0x100
    requires forall b: nat | top - |cc| < b <= top + 1 ::
               owed'(b) == owed(b) - if top - confirmed < b then 1 else 0
    requires cc' == After(cc, n, confirmed)
    ensures |cc'| <= |cc| + 1 && Shows(cc', top', owed')
    ensures Exhausts(cc, n, confirmed) ==> owed'(top' - |cc'|) == 0
  {
    AppendShows(cc, top, owed, n);
    ConfirmShows(Appended(cc, n), top + 1, owed, owed', confirmed + 1, cc');
  }

  // ---------- the invariant ----------

  /** Numbers are ordered: irreversible, proposed, tracked, head. */
  ghost predicate Ordered(s: State) {
    && s.lib <= s.proposed <= s.num - |s.confirmCount|
    && (forall p | p in s.implied :: s.implied[p] <= s.proposed)
    && Fits(s.active) && Fits(s.pending) && s.active.producers != []
  }

  /** A confirmation by `p` never lies above what the state remembers of `p`. */
  ghost predicate Remembered(n0: nat, hs: seq<Header>, s: State) {
    forall b: nat, p | p in Confirmers(n0, hs, b) :: RemembersVote(s, b, p)
  }

  predicate RemembersVote(s: State, b: nat, p: Producer) {
    if p in s.lastProduced then b <= s.lastProduced[p]
    else p !in s.active.producers && (s.pending.producers != [] ==> b <= s.pendingLib)
  }

  /** floor(2n/3) + 1 for the n producers that were active when block `b` was appended; the run starts in
      `ss[0]`, so the state before block `b` is `ss[b - ss[0].num - 1]`. */
  function Quorum(ss: seq<State>, b: nat): nat
    requires ss != [] && ss[0].num < b <= ss[0].num + |ss|
  {
    RequiredConfirmations(|ss[b - ss[0].num - 1].active.producers|)
  }

  /** The confirmations still missing from block `b` after the headers `hs`. */
  function Owed(ss: seq<State>, hs: seq<Header>, b: nat): int
    requires ss != [] && ss[0].num < b <= ss[0].num + |ss|
  {
    Quorum(ss, b) - |Confirmers(ss[0].num, hs, b)|
  }

  function Owing(ss: seq<State>, hs: seq<Header>): nat -> int
    requires ss != []
  {
    (b: nat) => if ss[0].num < b <= ss[0].num + |ss| then Owed(ss, hs, b) else 0
  }

  /** The counters of `s`, reached by the headers `hs`, show what is owed. */
  ghost predicate Counted(ss: seq<State>, hs: seq<Header>, s: State)
    requires ss != []
  {
    && s.num == ss[0].num + |hs| && |s.confirmCount| <= |hs|
    && Shows(s.confirmCount, s.num, Owing(ss, hs))
  }

  ghost predicate Inv(ss: seq<State>, hs: seq<Header>, s: State)
    requires ss != []
  {
    Ordered(s) && Remembered(ss[0].num, hs, s) && Counted(ss, hs, s)
  }

  /** The new irreversible number, and what the new implied map may hold. */
  lemma ImpliedStep(s: State, h: Header, t: State)
    requires Accepts(s, h, t) && s.lib <= s.proposed
    requires forall p | p in s.implied :: s.implied[p] <= s.proposed
    ensures t.lib <= s.proposed
    ensures forall p | p in t.implied :: t.implied[p] <= s.proposed
  {
    NextParts(s, h, t);
    RaiseOne(s.implied, h.producer, s.proposed);
  }

  lemma ProposedStep(s: State, h: Header, t: State)
    requires Accepts(s, h, t) && s.proposed <= s.num - |s.confirmCount|
    ensures t.num == s.num + 1 && t.confirmCount == After(s.confirmCount, |s.active.producers|, h.confirmed)
    ensures s.num - |s.confirmCount| <= t.num - |t.confirmCount|
    ensures if Exhausts(s.confirmCount, |s.active.producers|, h.confirmed)
            then s.proposed < t.proposed == t.num - |t.confirmCount| && |t.confirmCount| <= |s.confirmCount|
            else t.proposed == s.proposed && |t.confirmCount| == |Appended(s.confirmCount, |s.active.producers|)|
  {
    NextNumbers(s, h, t);
  }

  lemma OrderedStep(s: State, h: Header, t: State)
    requires Ordered(s) && Accepts(s, h, t) && Admissible(s.num + 1, h)
    ensures Ordered(t)
  {
    ImpliedStep(s, h, t);
    ProposedStep(s, h, t);
    NextParts(s, h, t);
  }

  /** An accepted header never confirms a block its producer has confirmed before. */
  lemma NoRepeat(n0: nat, hs: seq<Header>, s: State, h: Header, t: State)
    requires Remembered(n0, hs, s) && s.num == n0 + |hs|
    requires Accepts(s, h, t) && h.confirmed <= s.num + 1
    ensures NewVotes(n0, hs, h)
  {
    NextParts(s, h, t);
  }

  lemma RememberedStep(n0: nat, hs: seq<Header>, s: State, h: Header, t: State)
    requires Remembered(n0, hs, s) && s.num == n0 + |hs| && Accepts(s, h, t)
    ensures Remembered(n0, hs + [h], t)
  {
    forall b: nat, p | p in Confirmers(n0, hs + [h], b) ensures RemembersVote(t, b, p) {
      ConfirmersSnoc(n0, hs, h, b);
      NotAhead(n0, hs + [h], s.num + 2);
      if p in Confirmers(n0, hs, b) {
        StillRemembered(s, h, t, b, p);
      } else {
        NowRemembered(s, h, t, b);
      }
    }
  }

  lemma StillRemembered(s: State, h: Header, t: State, b: nat, p: Producer)
    requires Accepts(s, h, t) && RemembersVote(s, b, p) && b <= s.num + 1
    ensures RemembersVote(t, b, p)
  {
    NextParts(s, h, t);
  }

  lemma NowRemembered(s: State, h: Header, t: State, b: nat)
    requires Accepts(s, h, t) && b <= s.num + 1
    ensures RemembersVote(t, b, h.producer)
  {
    NextParts(s, h, t);
  }

  /** Appending a header changes what is owed only to the blocks it covers. */
  lemma OwedSnoc(ss: seq<State>, hs: seq<Header>, h: Header, b: nat)
    requires |hs| < |ss| && NewVotes(ss[0].num, hs, h)
    requires ss[0].num < b <= ss[0].num + |hs| + 1
    ensures Owed(ss, hs + [h], b) == Owed(ss, hs, b) - if ss[0].num + |hs| - h.confirmed < b then 1 else 0
    ensures b == ss[0].num + |hs| + 1 ==> Owed(ss, hs, b) == Quorum(ss, b)
  {
    OneVote(ss[0].num, hs, h, b);
    if b == ss[0].num + |hs| + 1 { NotAhead(ss[0].num, hs, b); }
  }

  lemma OwingStep(ss: seq<State>, hs: seq<Header>, h: Header, f: nat -> int, g: nat -> int)
    requires |hs| < |ss| && NewVotes(ss[0].num, hs, h)
    requires f == Owing(ss, hs) && g == Owing(ss, hs + [h])
    ensures forall b: nat | ss[0].num < b <= ss[0].num + |hs| + 1 ::
              g(b) == f(b) - if ss[0].num + |hs| - h.confirmed < b then 1 else 0
    ensures f(ss[0].num + |hs| + 1) == RequiredConfirmations(|ss[|hs|].active.producers|)
  {
    forall b: nat | ss[0].num < b <= ss[0].num + |hs| + 1
      ensures g(b) == f(b) - if ss[0].num + |hs| - h.confirmed < b then 1 else 0
    {
      OwedSnoc(ss, hs, h, b);
    }
    OwedSnoc(ss, hs, h, ss[0].num + |hs| + 1);
  }

  lemma BookkeepingStep(n0: nat, hs: seq<Header>, s: State, h: Header, t: State)
    requires Ordered(s) && Remembered(n0, hs, s) && s.num == n0 + |hs|
    requires Accepts(s, h, t) && Admissible(s.num + 1, h)
    ensures Ordered(t) && Remembered(n0, hs + [h], t) && NewVotes(n0, hs, h)
    ensures t.num == s.num + 1 && t.confirmCount == After(s.confirmCount, |s.active.producers|, h.confirmed)
  {
    NextParts(s, h, t);
    OrderedStep(s, h, t);
    RememberedStep(n0, hs, s, h, t);
    NoRepeat(n0, hs, s, h, t);
  }

  lemma CountedStep(ss: seq<State>, hs: seq<Header>, h: Header, s: State, t: State)
    requires |hs| < |ss| && s == ss[|hs|] && Counted(ss, hs, s) && NewVotes(ss[0].num, hs, h) && Fits(s.active)
    requires t.num == s.num + 1 && t.confirmCount == After(s.confirmCount, |s.active.producers|, h.confirmed)
    ensures Counted(ss, hs + [h], t)
  {
    var f, g := Owing(ss, hs), Owing(ss, hs + [h]);
    OwingStep(ss, hs, h, f, g);
    CountersStep(s.confirmCount, s.num, f, g, |s.active.producers|, h.confirmed, t.confirmCount, t.num);
  }

  /** Nothing is owed to the block whose counter is exhausted. */
  lemma ExhaustedStep(ss: seq<State>, hs: seq<Header>, h: Header, s: State, t: State, b: nat)
    requires |hs| < |ss| && s == ss[|hs|] && Counted(ss, hs, s) && NewVotes(ss[0].num, hs, h) && Fits(s.active)
    requires t.num == s.num + 1 && t.confirmCount == After(s.confirmCount, |s.active.producers|, h.confirmed)
    requires Exhausts(s.confirmCount, |s.active.producers|, h.confirmed) && b == t.num - |t.confirmCount|
    ensures Owing(ss, hs + [h])(b) == 0
  {
    var f, g := Owing(ss, hs), Owing(ss, hs + [h]);
    OwingStep(ss, hs, h, f, g);
    CountersStep(s.confirmCount, s.num, f, g, |s.active.producers|, h.confirmed, t.confirmCount, t.num);
  }

  /** The invariant holds after every prefix of every run. */
  lemma InvStep(ss: seq<State>, hs: seq<Header>, s: State, h: Header, t: State)
    requires |hs| < |ss| && s == ss[|hs|] && Inv(ss, hs, s) && s.num == ss[0].num + |hs|
    requires Accepts(s, h, t) && Admissible(s.num + 1, h)
    ensures Inv(ss, hs + [h], t)
  {
    BookkeepingStep(ss[0].num, hs, s, h, t);
    CountedStep(ss, hs, h, s, t);
  }

  lemma {:induction false} Reachable(ss: seq<State>, hs: seq<Header>, k: nat)
    requires Run(ss, hs) && k <= |hs|
    ensures Inv(ss, hs[..k], ss[k])
  {
    if k > 0 {
      Reachable(ss, hs, k - 1);
      ReachableStep(ss, hs, k - 1, hs[..k - 1], hs[..k]);
    }
  }

  lemma ReachableStep(ss: seq<State>, hs: seq<Header>, k: nat, pre: seq<Header>, all: seq<Header>)
    requires Run(ss, hs) && k < |hs| && pre == hs[..k] && all == hs[..k + 1] && Inv(ss, pre, ss[k])
    ensures Inv(ss, all, ss[k + 1])
  {
    StepInRun(ss, hs, k);
    InvStep(ss, pre, ss[k], hs[k], ss[k + 1]);
    assert all == pre + [hs[k]];
  }

  lemma StepInRun(ss: seq<State>, hs: seq<Header>, j: nat)
    requires Run(ss, hs) && j < |hs|
    ensures Accepts(ss[j], hs[j], ss[j + 1]) && Admissible(ss[0].num + j + 1, hs[j])
  {
  }
}
