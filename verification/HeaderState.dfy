/** The DPoS header state and its transition `next`
    (libraries/chain/block_header_state.cpp). */
module HeaderState {
  import opened Options
  import opened Irreversible

  /** A block id carries the block's number in its leading bytes (libraries/chain/block_header.cpp, id). */
  datatype BlockId = BlockId(num: nat, hash: nat)

  type Positive = x: int | 0 < x witness 1
  type uint16 = x: int | 0 <= x < 0x1_0000

  datatype Result<T> = Ok(value: T) | Err(error: Error)

  datatype Error =
    | MissingTimestamp | HasExtensions | NotLater | Unlinkable | WrongProducer | WrongScheduleVersion
    | DoubleConfirm | ProposedWhilePromoting | WrongPendingVersion | PendingAlreadySet | WrongSigningKey

  function Members(ps: seq<Producer>): set<Producer> { set p | p in ps }

  datatype Schedule = Schedule(version: nat, producers: seq<Producer>)

  datatype Header = Header(
    hash: nat, slot: nat, producer: Producer, confirmed: uint16, previous: BlockId,
    scheduleVersion: nat, newProducers: Option<Schedule>, hasExtensions: bool,
    signedByScheduledKey: bool)

  /** block_header::id: the number is that of the previous block plus one. */
  function HeaderId(previous: BlockId, hash: nat): BlockId { BlockId(previous.num + 1, hash) }

  datatype State = State(
    id: BlockId, previous: BlockId, num: nat, slot: nat, producer: Producer,
    proposed: nat, lib: nat, bft: nat,
    pendingLib: nat, pending: Schedule, active: Schedule,
    lastProduced: map<Producer, nat>, implied: map<Producer, nat>,
    confirmCount: seq<nat>, confirmations: seq<Producer>)

  /** How many slots in a row a producer has: a parameter of the build, left open here. */
  const PRODUCER_REPETITIONS: Positive
  const MAXIMUM_TRACKED: nat := 1024

  // ---------- the pieces of one step ----------

  /** Subtraction of two uint32_t values. */
  function WrapSub(a: nat, b: nat): nat
    requires b < 0x1_0000_0000
  {
    if b <= a then a - b else a + 0x1_0000_0000 - b
  }

  /** Whose turn it is among `n` producers. */
  function Turn(slot: nat, n: nat): (index: nat)
    requires n > 0
    ensures index < n
  {
    Turns(slot, n, PRODUCER_REPETITIONS);
    slot % (n * PRODUCER_REPETITIONS) / PRODUCER_REPETITIONS
  }

  lemma Turns(slot: nat, n: nat, r: nat)
    requires n > 0 && r > 0
    ensures n * r > 0 && 0 <= slot % (n * r) / r < n
  {
    RestInside(slot % (n * r), n, r);
  }

  lemma RestInside(m: nat, n: nat, r: nat)
    requires r > 0 && m < n * r
    ensures m / r < n
  {
    Cancel(m / r, n, r);
  }

  lemma Cancel(q: nat, n: nat, r: nat)
    requires r > 0
    ensures q * r < n * r ==> q < n
  {
    assert n <= q ==> n * r <= q * r;
  }

  function ScheduledProducer(active: Schedule, slot: nat): (p: Producer)
    requires active.producers != []
    ensures p in active.producers
  {
    active.producers[Turn(slot, |active.producers|)]
  }

  function RequiredConfirmations(n: nat): nat { n * 2 / 3 + 1 }

  /** The vector grows until 1024 entries are tracked; then the oldest entry makes room. */
  function Appended(cc: seq<nat>, n: nat): (r: seq<nat>) {
    (if |cc| < MAXIMUM_TRACKED then cc else cc[1..]) + [RequiredConfirmations(n) % 0x100]
  }

  ghost function GenerateNext(s: State, slot: nat): State
    requires s.active.producers != []
  {
    var p := ScheduledProducer(s.active, slot);
    var implied := s.implied[p := s.proposed];
    State(BlockId(0, 0), s.id, s.num + 1, slot, p,
          s.proposed, ThirdRank(implied), s.bft,
          s.pendingLib, s.pending, s.active,
          s.lastProduced[p := s.num + 1], implied,
          Appended(s.confirmCount, |s.active.producers|), [])
  }

  /** `--confirm_count[i]` on an 8-bit counter. */
  function Decrement(c: nat): nat { if c == 0 then 0xFF else c - 1 }

  /** The newest entry among the last `k` up to position `i` that this round of decrements exhausts; -1 if none. */
  function Exhausted(cc: seq<nat>, i: int, k: nat): (z: int)
    requires -1 <= i < |cc|
    ensures -1 <= z <= i
    decreases k
  {
    if i < 0 || k == 0 then -1 else if cc[i] == 1 then i else Exhausted(cc, i - 1, k - 1)
  }

  lemma {:induction false} ExhaustedIsNewest(cc: seq<nat>, i: int, k: nat)
    requires -1 <= i < |cc|
    ensures var z := Exhausted(cc, i, k);
            && (z >= 0 ==> i - k < z && cc[z] == 1)
            && forall j | z < j <= i && i - k < j :: cc[j] != 1
    decreases k
  {
    if i >= 0 && k > 0 && cc[i] != 1 { ExhaustedIsNewest(cc, i - 1, k - 1); }
  }

  /** Entry `i` after the newest `k` entries are decremented. */
  function CountDown(cc: seq<nat>, k: nat, i: nat): nat
    requires i < |cc|
  {
    if |cc| - k <= i then Decrement(cc[i]) else cc[i]
  }

  /** The counters after confirming the newest `k` entries: tracking restarts above an exhausted entry. */
  function Confirmed(cc: seq<nat>, k: nat): (r: seq<nat>)
    ensures |r| == |cc| - (Exhausted(cc, |cc| - 1, k) + 1)
  {
    var from := Exhausted(cc, |cc| - 1, k) + 1;
    seq<nat>(|cc| - from, i requires 0 <= i < |cc| - from => CountDown(cc, k, from + i))
  }

  lemma ConfirmedAt(cc: seq<nat>, k: nat)
    ensures var from := Exhausted(cc, |cc| - 1, k) + 1;
            forall i | 0 <= i < |Confirmed(cc, k)| :: Confirmed(cc, k)[i] == CountDown(cc, k, from + i)
  {
  }

  /** Decrement the window of confirmed blocks; if some entry is exhausted, the newest such block becomes
      proposed-irreversible and tracking restarts above it. */
  function SetConfirmed(s: State, confirmed: uint16): State {
    var n := |s.confirmCount|;
    var z := Exhausted(s.confirmCount, n - 1, confirmed + 1);
    s.(confirmCount := Confirmed(s.confirmCount, confirmed + 1),
       proposed := if z < 0 then s.proposed else if s.num >= n - 1 - z then s.num - (n - 1 - z) else 0)
  }

  predicate Promotes(s: State) {
    s.pending.producers != [] && s.lib >= s.pendingLib
  }

  /** The entry of each new producer: kept if known, else the current irreversible number. */
  function Rekeyed(m: map<Producer, nat>, producers: seq<Producer>, lib: nat): map<Producer, nat> {
    map p | p in producers :: if p in m then m[p] else lib
  }

  function MaybePromote(s: State): State {
    if Promotes(s) then
      s.(active := s.pending, pending := Schedule(s.pending.version, []),
         lastProduced := Rekeyed(s.lastProduced, s.pending.producers, s.lib)[s.producer := s.num],
         implied := Rekeyed(s.implied, s.pending.producers, s.lib))
    else s
  }

  function SetNewProducers(s: State, pending: Schedule): Result<State> {
    if pending.version != s.active.version + 1 then Err(WrongPendingVersion)
    else if s.pending.producers != [] then Err(PendingAlreadySet)
    else Ok(s.(pending := pending, pendingLib := s.num))
  }

  function Finish(s: State, h: Header): Result<State> {
    if h.signedByScheduledKey then Ok(s.(id := HeaderId(s.previous, h.hash))) else Err(WrongSigningKey)
  }

  /** The state changes of `next`, from the generated template on. */
  function Applied(g: State, h: Header): (r: Result<State>)
    ensures r.Ok? && g.active.producers != [] ==> r.value.active.producers != []
  {
    var c := SetConfirmed(g, h.confirmed);
    var p := MaybePromote(c);
    if h.newProducers.None? then Finish(p, h)
    else if Promotes(c) then Err(ProposedWhilePromoting)
    else
      var q := SetNewProducers(p, h.newProducers.value);
      if q.Err? then q else Finish(q.value, h)
  }

  ghost function Next(s: State, h: Header): (r: Result<State>)
    requires s.active.producers != []
    ensures r.Ok? ==> r.value.active.producers != []
  {
    if h.slot == 0 then Err(MissingTimestamp)
    else if h.hasExtensions then Err(HasExtensions)
    else if h.slot <= s.slot then Err(NotLater)
    else if h.previous != s.id then Err(Unlinkable)
    else
      var g := GenerateNext(s, h.slot);
      if g.producer != h.producer then Err(WrongProducer)
      else if s.active.version != h.scheduleVersion then Err(WrongScheduleVersion)
      else if h.producer in s.lastProduced && s.lastProduced[h.producer] >= WrapSub(g.num, h.confirmed) then
        Err(DoubleConfirm)
      else Applied(g, h)
  }

  /** The template after its confirmations are counted, before schedules change. */
  ghost function Template(s: State, h: Header): State
    requires s.active.producers != []
  {
    SetConfirmed(GenerateNext(s, h.slot), h.confirmed)
  }

  lemma AppliedParts(g: State, h: Header, t: State)
    requires Applied(g, h) == Ok(t)
    ensures var c := SetConfirmed(g, h.confirmed);
            && (h.newProducers.None? ==> t == MaybePromote(c).(id := HeaderId(c.previous, h.hash)))
            && (h.newProducers.Some? ==>
                  && !Promotes(c) && c.pending.producers == []
                  && t == c.(pending := h.newProducers.value, pendingLib := c.num, id := HeaderId(c.previous, h.hash)))
    ensures t.num == g.num && t.id == HeaderId(t.previous, h.hash) && t.previous == g.previous && t.bft == g.bft
  {
  }

  lemma NextChecks(s: State, h: Header, t: State)
    requires s.active.producers != [] && Next(s, h) == Ok(t)
    ensures h.producer == ScheduledProducer(s.active, h.slot) && s.slot < h.slot && h.previous == s.id
    ensures h.producer in s.lastProduced ==> s.lastProduced[h.producer] < WrapSub(s.num + 1, h.confirmed)
    ensures Applied(GenerateNext(s, h.slot), h) == Ok(t)
  {
  }

  /** A schedule is proposed with the version after the active one. */
  lemma ProposedVersion(s: State, h: Header, t: State)
    requires s.active.producers != [] && Next(s, h) == Ok(t) && h.newProducers.Some?
    ensures h.newProducers.value.version == s.active.version + 1
  {
    NextChecks(s, h, t);
  }

  /** An accepted header is of a scheduled producer. */
  lemma NextProducer(s: State, h: Header, t: State)
    requires s.active.producers != [] && Next(s, h) == Ok(t)
    ensures h.producer in s.active.producers
  {
    NextChecks(s, h, t);
  }

  /** The numbers an accepted header leaves, whatever happens to schedules. */
  lemma NextNumbers(s: State, h: Header, t: State)
    requires s.active.producers != [] && Next(s, h) == Ok(t)
    ensures t.num == s.num + 1
    ensures t.confirmCount == Confirmed(Appended(s.confirmCount, |s.active.producers|), h.confirmed + 1)
    ensures t.proposed == Template(s, h).proposed
  {
    NextChecks(s, h, t);
    AppliedParts(GenerateNext(s, h.slot), h, t);
  }

  /** What an accepted header tells about the old state and the new one. */
  lemma NextParts(s: State, h: Header, t: State)
    requires s.active.producers != [] && Next(s, h) == Ok(t)
    ensures h.producer == ScheduledProducer(s.active, h.slot) && s.slot < h.slot
    ensures h.producer in s.lastProduced ==> s.lastProduced[h.producer] < WrapSub(s.num + 1, h.confirmed)
    ensures var c := Template(s, h);
            && (h.newProducers.None? ==> t == MaybePromote(c).(id := HeaderId(c.previous, h.hash)))
            && (h.newProducers.Some? ==>
                  && !Promotes(c) && c.pending.producers == []
                  && t == c.(pending := h.newProducers.value, pendingLib := c.num, id := HeaderId(c.previous, h.hash)))
    ensures t.num == s.num + 1 && t.id == HeaderId(t.previous, h.hash) && t.previous == s.id == h.previous &&
      t.bft == s.bft
    ensures t.confirmCount == Confirmed(Appended(s.confirmCount, |s.active.producers|), h.confirmed + 1)
    ensures t.lib == ThirdRank(s.implied[h.producer := s.proposed])
  {
    NextChecks(s, h, t);
    AppliedParts(GenerateNext(s, h.slot), h, t);
  }
}
