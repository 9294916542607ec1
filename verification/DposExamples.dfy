/** Runs from genesis on which the header state does what its callers may not expect
    (libraries/chain/block_header_state.cpp). They work for any number of slots in a row per producer. */
module DposExamples {
  import opened Division
  import opened Options
  import opened Irreversible
  import opened HeaderState
  import opened DposSafety
  import opened DposSteps
  import opened DposTheorems

  // ---------- slots and headers ----------

  /** The first slot of producer `i` in round `k`, among `n` producers. */
  function SlotOf(n: nat, k: nat, i: nat): nat { (n * k + i) * PRODUCER_REPETITIONS }

  lemma TurnInRound(n: nat, k: nat, i: nat)
    requires i < n
    ensures Turn(SlotOf(n, k, i), n) == i
  {
    Apart(n * k + i + 1, n * k + i, PRODUCER_REPETITIONS);
    assert InTurn(SlotOf(n, k, i), n, i, k);
    TurnExactly(SlotOf(n, k, i), n, i);
  }

  lemma LaterSlot(a: nat, b: nat)
    requires a < b
    ensures a * PRODUCER_REPETITIONS < b * PRODUCER_REPETITIONS
  {
  }

  /** The header of producer `i`, of round `k`, on top of `s`. */
  function By(s: State, k: nat, i: nat, confirmed: uint16, next: Option<Schedule>): Header
    requires i < |s.active.producers|
  {
    Header(s.num, SlotOf(|s.active.producers|, k, i), s.active.producers[i], confirmed, s.id, s.active.version, next,
           false, true)
  }

  /** Such a header passes the checks of `next` when its producer has not yet confirmed so far back. */
  lemma Passes(s: State, k: nat, i: nat, confirmed: uint16, next: Option<Schedule>)
    requires i < |s.active.producers| && s.slot < SlotOf(|s.active.producers|, k, i)
    requires s.active.producers[i] in s.lastProduced ==>
               s.lastProduced[s.active.producers[i]] < WrapSub(s.num + 1, confirmed)
    ensures var h := By(s, k, i, confirmed, next);
            && ScheduledProducer(s.active, h.slot) == h.producer
            && Next(s, h) == Applied(GenerateNext(s, h.slot), h)
  {
    TurnInRound(|s.active.producers|, k, i);
  }

  // ---------- one of four producers is absent ----------

  const FOUR := Schedule(0, [1, 2, 3, 4])
  const THREE := Schedule(1, [1, 2, 3])

  /** Numbers of the four producers, of which the second has none. */
  function Numbers(a: nat, c: nat, d: nat): map<Producer, nat> { map[1 := a, 2 := 0, 3 := c, 4 := d] }

  /** One lagging entry of four does not hold the irreversible number back. */
  lemma OneOfFourLags(a: nat, c: nat, d: nat, least: nat)
    requires least <= a && least <= c && least <= d && (least == a || least == c || least == d)
    ensures ThirdRank(Numbers(a, c, d)) == least
  {
    var m := Numbers(a, c, d);
    assert m.Keys == {1, 2, 3, 4} && |m| == |m.Keys|;
    SubsetSize(Lagging(m, least), {2});
    var other: Producer := if least == a then 1 else if least == c then 3 else 4;
    SubsetSize({2, other}, Lagging(m, least + 1));
    assert least <= ThirdRank(m) <==> |Lagging(m, least)| <= 1;
    assert least + 1 <= ThirdRank(m) <==> |Lagging(m, least + 1)| <= 1;
  }

  /** One of three does. */
  lemma OneOfThreeLags(m: map<Producer, nat>)
    requires m.Keys == {1, 2, 3} && m[2] == 0
    ensures ThirdRank(m) == 0
  {
    assert |m| == |m.Keys|;
    SubsetSize({2}, Lagging(m, 1));
    assert 1 <= ThirdRank(m) <==> |Lagging(m, 1)| <= 0;
  }

  /** A first confirmation of a new block exhausts no counter when more than one is required. */
  lemma FirstCounter(n: nat, cc: seq<nat>)
    requires cc == Appended([], n) && 1 < RequiredConfirmations(n) < 0x100
    ensures Exhausted(cc, 0, 1) == -1 && Confirmed(cc, 1) == [RequiredConfirmations(n) - 1]
  {
    assert cc == [RequiredConfirmations(n)];
    ConfirmedAt(cc, 1);
  }

  lemma SecondCounter()
    ensures Exhausted(Appended([2], 4), 1, 2) == -1 && Confirmed(Appended([2], 4), 2) == [1, 2]
  {
    assert Appended([2], 4) == [2, 3];
    ConfirmedAt([2, 3], 2);
  }

  /** From then on a block that confirms two others exhausts the older counter. */
  lemma ThirdCounter()
    ensures Exhausted(Appended([1, 2], 4), 2, 3) == 0 && Confirmed(Appended([1, 2], 4), 3) == [1, 2]
  {
    assert Appended([1, 2], 4) == [1, 2, 3];
    ConfirmedAt([1, 2, 3], 3);
  }

  /** Every slot used so far lies before round `s.num`. */
  ghost predicate Before(s: State) { s.slot < SlotOf(4, s.num, 0) }

  lemma NextRound(s: State, i: nat)
    requires Before(s) && i < 4
    ensures s.slot < SlotOf(4, s.num, i) < SlotOf(4, s.num + 1, 0)
  {
    if i > 0 { LaterSlot(4 * s.num, 4 * s.num + i); }
    LaterSlot(4 * s.num + i, 4 * (s.num + 1));
  }

  /** Block 2, of the first producer, makes the initial schedule the active one. */
  lemma Opens(g: State) returns (h: Header, t: State)
    requires g == Genesis(BlockId(1, 0), 0, FOUR)
    ensures Accepts(g, h, t) && Admissible(2, h) && h.producer == 1
    ensures t.num == 2 && Before(t) && t.active == FOUR
    ensures t.pending.producers == [] && t.confirmCount == [2] && t.proposed == 0
    ensures t.implied == Numbers(0, 0, 0) && t.lastProduced == Numbers(2, 0, 0)
  {
    LaterSlot(0, 4);
    NextRound(g, 0);
    Passes(g, 1, 0, 0, None);
    h := By(g, 1, 0, 0, None);
    t := Opened(g, h);
  }

  lemma Opened(g: State, h: Header) returns (t: State)
    requires g == Genesis(BlockId(1, 0), 0, FOUR) && ScheduledProducer(FOUR, h.slot) == 1
    requires h.confirmed == 0 && h.newProducers == None && h.signedByScheduledKey
    ensures Applied(GenerateNext(g, h.slot), h) == Ok(t) && t.num == 2 && t.slot == h.slot && t.active == FOUR
    ensures t.pending.producers == [] && t.confirmCount == [2] && t.proposed == 0
    ensures t.implied == Numbers(0, 0, 0) && t.lastProduced == Numbers(2, 0, 0)
  {
    FirstCounter(4, Appended([], 4));
    OnlyEntry(1, 0);
    var c := SetConfirmed(GenerateNext(g, h.slot), 0);
    Rekeys(c.implied, c.lastProduced);
    t := MaybePromote(c).(id := HeaderId(c.previous, h.hash));
  }

  lemma Rekeys(implied: map<Producer, nat>, last: map<Producer, nat>)
    requires implied == map[1 := 0] && last == map[1 := 2]
    ensures Rekeyed(implied, [1, 2, 3, 4], 0) == Numbers(0, 0, 0)
    ensures Rekeyed(last, [1, 2, 3, 4], 0)[1 := 2] == Numbers(2, 0, 0)
  {
  }

  lemma OnlyEntry(p: Producer, n: nat)
    ensures ThirdRank(map[p := n]) == n
  {
    var m := map[p := n];
    assert Lagging(m, n) == {} && Lagging(m, n + 1) == {p} && m.Keys == {p} && |m| == |m.Keys|;
    assert n <= ThirdRank(m) <==> |Lagging(m, n)| <= 0;
    assert n + 1 <= ThirdRank(m) <==> |Lagging(m, n + 1)| <= 0;
  }

  /** The fourth producer is to leave; two blocks await one and two more confirmations. */
  ghost predicate Leaving(s: State, implied: map<Producer, nat>, last: map<Producer, nat>) {
    && s.active == FOUR && s.pending == THREE && s.pendingLib == 3 && s.confirmCount == [1, 2]
    && s.implied == implied && s.lastProduced == last
  }

  /** The fourth producer has left with the last block, of producer `p`. */
  ghost predicate Left(s: State, implied: map<Producer, nat>, p: Producer) {
    && s.active == THREE && s.pending.producers == [] && s.implied == Rekeyed(implied, [1, 2, 3], s.lib)
    && p in s.lastProduced && s.lastProduced[p] == s.num
  }

  /** Block 3, of the third producer, proposes the schedule without the fourth. */
  lemma Proposes(s: State) returns (h: Header, t: State)
    requires s.num == 2 && Before(s) && s.active == FOUR && s.pending.producers == [] && s.confirmCount == [2]
    requires s.implied == Numbers(0, 0, 0) && s.lastProduced == Numbers(2, 0, 0) && s.proposed == 0
    ensures Accepts(s, h, t) && Admissible(3, h) && t.num == 3 && t.proposed == 0
    ensures Leaving(t, Numbers(0, 0, 0), Numbers(2, 3, 0)) && Before(t)
  {
    NextRound(s, 2);
    Passes(s, 2, 2, 1, Some(THREE));
    h := By(s, 2, 2, 1, Some(THREE));
    t := Proposed(s, h);
  }

  lemma Proposed(s: State, h: Header) returns (t: State)
    requires s.num == 2 && s.active == FOUR && s.pending.producers == [] && s.confirmCount == [2]
    requires s.implied == Numbers(0, 0, 0) && s.lastProduced == Numbers(2, 0, 0) && s.proposed == 0
    requires ScheduledProducer(FOUR, h.slot) == 3
    requires h.confirmed == 1 && h.newProducers == Some(THREE) && h.signedByScheduledKey
    ensures Applied(GenerateNext(s, h.slot), h) == Ok(t) && t.num == 3 && t.slot == h.slot && t.proposed == 0
    ensures t.active == FOUR && t.pending == THREE && t.pendingLib == 3 && t.confirmCount == [1, 2]
    ensures t.implied == Numbers(0, 0, 0) && t.lastProduced == Numbers(2, 3, 0)
  {
    SecondCounter();
    assert Numbers(0, 0, 0)[3 := 0] == Numbers(0, 0, 0) && Numbers(2, 0, 0)[3 := 3] == Numbers(2, 3, 0);
    var c := SetConfirmed(GenerateNext(s, h.slot), 1);
    t := c.(pending := THREE, pendingLib := c.num, id := HeaderId(c.previous, h.hash));
  }

  /** A further block, of producer `p`, that confirms two others: the older of them is proposed, and once block 3 is
      irreversible the fourth producer has left. */
  lemma Goes(s: State, i: nat, p: Producer, implied: map<Producer, nat>, last: map<Producer, nat>)
    returns (h: Header, t: State)
    requires Leaving(s, implied, last) && Before(s) && s.num >= 3 && i < 4 && p == FOUR.producers[i]
    requires p in last && last[p] < s.num - 1
    ensures Accepts(s, h, t) && Admissible(s.num + 1, h) && t.num == s.num + 1 && t.proposed == s.num - 1 && Before(t)
    ensures t.lib == ThirdRank(implied[p := s.proposed])
    ensures t.lib < 3 ==> Leaving(t, implied[p := s.proposed], last[p := t.num])
    ensures t.lib >= 3 ==> Left(t, implied[p := s.proposed], p)
  {
    NextRound(s, i);
    h := By(s, s.num, i, 2, None);
    PassesFour(s, i, p, last);
    t := CountsTwo(s, h, p, implied, last);
    Follows(s, i, t);
  }

  lemma Follows(s: State, i: nat, t: State)
    requires Before(s) && i < 4 && t.num == s.num + 1 && t.slot == SlotOf(4, s.num, i)
    ensures Before(t)
  {
    NextRound(s, i);
  }

  lemma PassesFour(s: State, i: nat, p: Producer, last: map<Producer, nat>)
    requires s.active == FOUR && s.lastProduced == last && s.slot < SlotOf(4, s.num, i)
    requires i < 4 && p == FOUR.producers[i] && p in last && last[p] < s.num - 1
    ensures var h := By(s, s.num, i, 2, None);
            && ScheduledProducer(FOUR, h.slot) == p && Next(s, h) == Applied(GenerateNext(s, h.slot), h)
  {
    Passes(s, s.num, i, 2, None);
  }

  /** Such a block's state, past the checks. */
  lemma CountsTwo(s: State, h: Header, p: Producer, implied: map<Producer, nat>, last: map<Producer, nat>)
    returns (t: State)
    requires Leaving(s, implied, last) && s.num >= 3 && ScheduledProducer(FOUR, h.slot) == p
    requires h.confirmed == 2 && h.newProducers == None && h.signedByScheduledKey
    ensures Applied(GenerateNext(s, h.slot), h) == Ok(t) && t.num == s.num + 1 && t.slot == h.slot
    ensures t.proposed == s.num - 1 && t.lib == ThirdRank(implied[p := s.proposed])
    ensures t.lib < 3 ==> Leaving(t, implied[p := s.proposed], last[p := t.num])
    ensures t.lib >= 3 ==> Left(t, implied[p := s.proposed], p)
  {
    var g := GenerateNext(s, h.slot);
    var c := TwoCounted(g);
    assert g.lastProduced == last[p := g.num] && g.implied == implied[p := s.proposed];
    t := MaybePromote(c).(id := HeaderId(c.previous, h.hash));
  }

  lemma TwoCounted(g: State) returns (c: State)
    requires g.confirmCount == Appended([1, 2], 4) && g.num >= 2
    ensures c == SetConfirmed(g, 2) == g.(confirmCount := [1, 2], proposed := g.num - 2)
  {
    ThirdCounter();
    assert |Appended([1, 2], 4)| == 3;
    c := SetConfirmed(g, 2);
  }

  /** The next block after that finds the number held back. */
  lemma Drops(s: State) returns (h: Header, t: State)
    requires s.num >= 3 && s.active == THREE && s.pending.producers == [] && Before(s)
    requires s.implied.Keys == {1, 2, 3} && s.implied[2] == 0
    requires 1 in s.lastProduced && s.lastProduced[1] == s.num
    ensures Accepts(s, h, t) && Admissible(s.num + 1, h) && t.lib == 0
  {
    LaterSlot(4 * s.num, 3 * (2 * s.num));
    Passes(s, 2 * s.num, 0, 0, None);
    h := By(s, 2 * s.num, 0, 0, None);
    OneOfThreeLags(s.implied[1 := s.proposed]);
    t := Next(s, h).value;
  }

  // ---------- the two runs ----------

  /** A run from genesis, one block at a time. */
  ghost predicate FromGenesis(ss: seq<State>, hs: seq<Header>, initial: Schedule) {
    Run(ss, hs) && ss[0] == Genesis(BlockId(1, 0), 0, initial)
  }

  lemma Grows(ss: seq<State>, hs: seq<Header>, initial: Schedule, h: Header, t: State)
    requires FromGenesis(ss, hs, initial) && Accepts(ss[|hs|], h, t) && Admissible(|hs| + 2, h)
    ensures FromGenesis(ss + [t], hs + [h], initial) && (ss + [t])[|hs + [h]|] == t
  {
    RunGrows(ss, hs, h, t);
  }

  /** Blocks 2 and 3. */
  lemma TwoBlocks() returns (ss: seq<State>, hs: seq<Header>)
    ensures FromGenesis(ss, hs, FOUR) && |hs| == 2 && ss[2].num == 3 && ss[2].proposed == 0
    ensures Leaving(ss[2], Numbers(0, 0, 0), Numbers(2, 3, 0)) && Before(ss[2])
  {
    var g := Genesis(BlockId(1, 0), 0, FOUR);
    GenesisIsFresh(BlockId(1, 0), 0, FOUR);
    var h, s := Opens(g);
    Grows([g], [], FOUR, h, s);
    var h', t := Proposes(s);
    Grows([g] + [s], [] + [h], FOUR, h', t);
    ss, hs := [g] + [s] + [t], [] + [h] + [h'];
  }

  /** One more block of the third, fourth or first producer, while block 3 is not irreversible. */
  lemma OneMore(ss: seq<State>, hs: seq<Header>, i: nat, p: Producer, implied: map<Producer, nat>,
                last: map<Producer, nat>, implied': map<Producer, nat>, lib: nat)
    returns (more: seq<State>, all: seq<Header>)
    requires FromGenesis(ss, hs, FOUR) && |hs| >= 2 && ss[|hs|].num == |hs| + 1 && Before(ss[|hs|])
    requires Leaving(ss[|hs|], implied, last)
    requires i < 4 && p == FOUR.producers[i] && p in last && last[p] < |hs|
    requires implied' == implied[p := ss[|hs|].proposed] && lib == ThirdRank(implied')
    ensures FromGenesis(more, all, FOUR) && |all| == |hs| + 1
    ensures more[|all|].num == |all| + 1 && more[|all|].proposed == |hs|
    ensures more[|all|].lib == lib && Before(more[|all|])
    ensures lib < 3 ==> Leaving(more[|all|], implied', last[p := |all| + 1])
    ensures lib >= 3 ==> Left(more[|all|], implied', p)
  {
    var h, t := Goes(ss[|hs|], i, p, implied, last);
    Grows(ss, hs, FOUR, h, t);
    more, all := ss + [t], hs + [h];
  }

  /** Block 4, of the fourth producer. */
  lemma ThreeBlocks() returns (ss: seq<State>, hs: seq<Header>)
    ensures FromGenesis(ss, hs, FOUR) && |hs| == 3 && ss[3].num == 4 && ss[3].proposed == 2
    ensures Leaving(ss[3], Numbers(0, 0, 0), Numbers(2, 3, 4)) && Before(ss[3])
  {
    ss, hs := TwoBlocks();
    OneOfFourLags(0, 0, 0, 0);
    ss, hs := OneMore(ss, hs, 3, 4, Numbers(0, 0, 0), Numbers(2, 3, 0), Numbers(0, 0, 0), 0);
  }

  /** Block 5, of the first. */
  lemma FourBlocks() returns (ss: seq<State>, hs: seq<Header>)
    ensures FromGenesis(ss, hs, FOUR) && |hs| == 4 && ss[4].num == 5 && ss[4].proposed == 3
    ensures Leaving(ss[4], Numbers(2, 0, 0), Numbers(5, 3, 4)) && Before(ss[4])
  {
    ss, hs := ThreeBlocks();
    OneOfFourLags(2, 0, 0, 0);
    ss, hs := OneMore(ss, hs, 0, 1, Numbers(0, 0, 0), Numbers(2, 3, 4), Numbers(2, 0, 0), 0);
  }

  /** Block 6, of the third. */
  lemma FiveBlocks() returns (ss: seq<State>, hs: seq<Header>)
    ensures FromGenesis(ss, hs, FOUR) && |hs| == 5 && ss[5].num == 6 && ss[5].proposed == 4
    ensures Leaving(ss[5], Numbers(2, 3, 0), Numbers(5, 6, 4)) && Before(ss[5])
  {
    ss, hs := FourBlocks();
    OneOfFourLags(2, 3, 0, 0);
    ss, hs := OneMore(ss, hs, 2, 3, Numbers(2, 0, 0), Numbers(5, 3, 4), Numbers(2, 3, 0), 0);
  }

  /** Block 7, of the fourth. */
  lemma SixBlocks() returns (ss: seq<State>, hs: seq<Header>)
    ensures FromGenesis(ss, hs, FOUR) && |hs| == 6 && ss[6].num == 7 && ss[6].proposed == 5
    ensures Leaving(ss[6], Numbers(2, 3, 4), Numbers(5, 6, 7)) && Before(ss[6])
  {
    ss, hs := FiveBlocks();
    OneOfFourLags(2, 3, 4, 2);
    ss, hs := OneMore(ss, hs, 3, 4, Numbers(2, 3, 0), Numbers(5, 6, 4), Numbers(2, 3, 4), 2);
  }

  /** Block 8, of the first, makes block 3 irreversible, and the fourth producer is gone. */
  lemma SevenBlocks() returns (ss: seq<State>, hs: seq<Header>)
    ensures FromGenesis(ss, hs, FOUR) && |hs| == 7 && ss[7].num == 8 && ss[7].lib == 3 && ss[7].active == THREE
    ensures ss[7].pending.producers == [] && Before(ss[7]) && ss[7].implied.Keys == {1, 2, 3} && ss[7].implied[2] == 0
    ensures 1 in ss[7].lastProduced && ss[7].lastProduced[1] == 8
  {
    ss, hs := SixBlocks();
    OneOfFourLags(5, 3, 4, 3);
    ss, hs := OneMore(ss, hs, 0, 1, Numbers(2, 3, 4), Numbers(5, 6, 7), Numbers(5, 3, 4), 3);
  }

  /** The irreversible number can drop: a promotion leaves out one of four producers, and of the remaining three the
      one that has produced nothing holds the number back. */
  lemma LibCanDrop() returns (ss: seq<State>, hs: seq<Header>)
    ensures FromGenesis(ss, hs, FOUR) && |hs| == 8 && ss[8].lib == 0 < ss[7].lib
  {
    ss, hs := SevenBlocks();
    var h, t := Drops(ss[7]);
    Grows(ss, hs, FOUR, h, t);
    ss, hs := ss + [t], hs + [h];
  }

  /** After block 2 its producer makes a header whose `confirmed` field exceeds the block number: the wrapped check
      accepts it, and it confirms block 2 a second time. */
  lemma WrappedCheckRepeats() returns (ss: seq<State>, hs: seq<Header>, h: Header, t: State)
    ensures FromGenesis(ss, hs, FOUR) && Accepts(ss[|hs|], h, t) && h.confirmed > ss[|hs|].num + 1
    ensures |hs| == 1 && hs[0].producer == h.producer && !NewVotes(ss[0].num, hs, h)
  {
    var g := Genesis(BlockId(1, 0), 0, FOUR);
    GenesisIsFresh(BlockId(1, 0), 0, FOUR);
    var h0, s := Opens(g);
    Grows([g], [], FOUR, h0, s);
    ss, hs := [g] + [s], [] + [h0];
    NextRound(s, 0);
    Passes(s, 2, 0, 4, None);
    h := By(s, 2, 0, 4, None);
    t := Next(s, h).value;
    RepeatsExactlyOnWrap(ss, hs, h, t);
    assert hs[0] == h0 && h.producer == 1;
  }
}
