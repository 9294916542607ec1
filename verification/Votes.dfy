/** Votes for producers (contracts/noc.system/voting.cpp, noc.system.hpp): the vote rows of every voter, the totals of
    every producer, and the frozen tokens that votes are made of. Amounts are unbounded. Vote ages only decide the size
    of a reward, which is a parameter here, as is what the system account can pay. A failed assertion leaves every
    table as it was. */
module Votes {
  import opened Names
  import opened Sums

  /** One locked vote of a voter for a producer. */
  datatype Item = Item(vote: int, power: int, unfreeze: nat, quit: bool)

  /** The votes of a voter for a producer. */
  datatype Row = Row(vote: int, power: int, locked: seq<Item>)

  datatype Producer = Producer(active: bool, pawn: int, totalStaked: int, rewards: int)

  type Ballot = (Account, Account)

  const BLOCKS_PER_DAY: nat := 24 * 3600 * 2

  /** C++ division, which truncates towards zero. */
  function Quotient(x: int, y: int): int
    requires y > 0
  {
    if x < 0 then -((-x) / y) else x / y
  }

  // ---------- the power of a row ----------

  function ItemsPower(s: seq<Item>): int { if s == [] then 0 else ItemsPower(s[..|s| - 1]) + s[|s| - 1].power }

  function ItemsVote(s: seq<Item>): int { if s == [] then 0 else ItemsVote(s[..|s| - 1]) + s[|s| - 1].vote }

  function Power(r: Row): int { r.power + ItemsPower(r.locked) }

  function Held(r: Row): int { r.vote + ItemsVote(r.locked) }

  /** Quit items carry nothing; the rest carry whole units of power. */
  predicate ItemOk(i: Item) {
    i.vote >= 0 && i.power >= 0 && i.power % 10000 == 0 && (i.quit ==> i.vote == 0 && i.power == 0)
  }

  /** Votes come in whole stake units, so that power and producer totals divide exactly. */
  predicate RowOk(r: Row) {
    r.vote >= 0 && r.vote % 100000 == 0 && r.power * 10 == r.vote &&
      forall i :: 0 <= i < |r.locked| ==> ItemOk(r.locked[i])
  }

  lemma {:induction false} ItemChanges(s: seq<Item>, i: nat, x: Item)
    requires i < |s|
    ensures ItemsPower(s[i := x]) == ItemsPower(s) - s[i].power + x.power
    ensures ItemsVote(s[i := x]) == ItemsVote(s) - s[i].vote + x.vote
  {
    var n := |s| - 1;
    if i == n {
      assert s[i := x][..n] == s[..n];
    } else {
      ItemChanges(s[..n], i, x);
      assert s[i := x][..n] == s[..n][i := x];
    }
  }

  lemma ItemsSnoc(s: seq<Item>, i: Item)
    ensures ItemsPower(s + [i]) == ItemsPower(s) + i.power && ItemsVote(s + [i]) == ItemsVote(s) + i.vote
  {
    assert (s + [i])[..|s|] == s;
  }

  lemma {:induction false} ItemsPowerNonNegative(s: seq<Item>)
    requires forall i :: 0 <= i < |s| ==> ItemOk(s[i])
    ensures ItemsPower(s) >= 0
  {
    if s != [] { ItemsPowerNonNegative(s[..|s| - 1]); }
  }

  /** Drops the items that were quit. */
  method DropQuit(s: seq<Item>) returns (r: seq<Item>)
    ensures r == Unquit(s)
  {
    var anyQuit := false;
    for i := 0 to |s|
      invariant !anyQuit ==> forall j :: 0 <= j < i ==> !s[j].quit
    {
      if s[i].quit { anyQuit := true; }
    }
    if !anyQuit {
      NoneQuit(s);
      return s;
    }
    r := [];
    for i := 0 to |s|
      invariant r == Unquit(s[..i])
    {
      assert s[..i + 1][..i] == s[..i];
      if !s[i].quit { r := r + [s[i]]; }
    }
    assert s[..|s|] == s;
  }

  /** The items not quit, in order. */
  function Unquit(s: seq<Item>): seq<Item> {
    if s == [] then []
    else
      var n := |s| - 1;
      Unquit(s[..n]) + if s[n].quit then [] else [s[n]]
  }

  lemma {:induction false} NoneQuit(s: seq<Item>)
    requires forall i :: 0 <= i < |s| ==> !s[i].quit
    ensures Unquit(s) == s
  {
    if s != [] { NoneQuit(s[..|s| - 1]); }
  }

  // ---------- sums over all voters ----------

  function VoteAt(m: map<Ballot, Row>, k: Ballot): int { if k in m then m[k].vote else 0 }

  function LockedAt(m: map<Ballot, Row>, k: Ballot): seq<Item> { if k in m then m[k].locked else [] }

  function PowerAt(m: map<Ballot, Row>, k: Ballot): int { if k in m then Power(m[k]) else 0 }

  function HeldAt(m: map<Ballot, Row>, k: Ballot): int { if k in m then Held(m[k]) else 0 }

  ghost function PowerFor(m: map<Ballot, Row>, b: Account): Ballot -> int {
    (k: Ballot) => if k.1 == b then PowerAt(m, k) else 0
  }

  ghost function HeldBy(m: map<Ballot, Row>, v: Account): Ballot -> int {
    (k: Ballot) => if k.0 == v then HeldAt(m, k) else 0
  }

  /** The power of all votes for `b`, normal and locked. */
  ghost function TotalPower(m: map<Ballot, Row>, b: Account): int { Sum(m.Keys, PowerFor(m, b)) }

  /** The tokens that `v` has in votes. */
  ghost function InVotes(m: map<Ballot, Row>, v: Account): int { Sum(m.Keys, HeldBy(m, v)) }

  /** Every producer's total is the power of all votes for it, in units of ten thousand, exactly. */
  ghost predicate Balanced(m: map<Ballot, Row>, bps: map<Account, Producer>) {
    forall b <- bps :: bps[b].totalStaked * 10000 == TotalPower(m, b)
  }

  ghost predicate RowsOk(m: map<Ballot, Row>, bps: map<Account, Producer>) {
    forall k <- m :: RowOk(m[k]) && k.1 in bps
  }

  lemma PowerChanges(m: map<Ballot, Row>, n: map<Ballot, Row>, k: Ballot, b: Account)
    requires Differs(m, n, k)
    ensures TotalPower(n, b) == TotalPower(m, b) + if b == k.1 then PowerAt(n, k) - PowerAt(m, k) else 0
  {
    Change(m.Keys, n.Keys, PowerFor(m, b), PowerFor(n, b), k);
  }

  lemma HeldChanges(m: map<Ballot, Row>, n: map<Ballot, Row>, k: Ballot, v: Account)
    requires Differs(m, n, k)
    ensures InVotes(n, v) == InVotes(m, v) + if v == k.0 then HeldAt(n, k) - HeldAt(m, k) else 0
  {
    Change(m.Keys, n.Keys, HeldBy(m, v), HeldBy(n, v), k);
  }

  /** A row and its producer's total change together. */
  lemma StaysBalanced(m: map<Ballot, Row>, bps: map<Account, Producer>, k: Ballot,
                      n: map<Ballot, Row>, c: map<Account, Producer>)
    requires Balanced(m, bps) && Differs(m, n, k) && Differs(bps, c, k.1)
    requires k.1 in bps && k.1 in c
    requires (c[k.1].totalStaked - bps[k.1].totalStaked) * 10000 == PowerAt(n, k) - PowerAt(m, k)
    ensures Balanced(n, c)
  {
    forall b <- c ensures c[b].totalStaked * 10000 == TotalPower(n, b) {
      PowerChanges(m, n, k, b);
    }
  }

  /** So a producer's total is never negative. */
  lemma TotalNonNegative(m: map<Ballot, Row>, bps: map<Account, Producer>, b: Account)
    requires Balanced(m, bps) && RowsOk(m, bps) && b in bps
    ensures bps[b].totalStaked >= 0
  {
    forall k <- m ensures PowerFor(m, b)(k) >= 0 { ItemsPowerNonNegative(m[k].locked); }
    NonNegative(m.Keys, PowerFor(m, b));
  }

  // ---------- frozen tokens ----------

  function FrozenOf(f: map<Account, int>, v: Account): int { if v in f then f[v] else 0 }

  /** `d` tokens are added to, or taken from, the frozen tokens of `v`. */
  function Thawed(f: map<Account, int>, v: Account, d: int): map<Account, int> { f[v := FrozenOf(f, v) + d] }

  /** The three tables. */
  datatype Books = Books(votes: map<Ballot, Row>, bps: map<Account, Producer>, freezes: map<Account, int>)

  ghost predicate Sound(b: Books) { RowsOk(b.votes, b.bps) && Balanced(b.votes, b.bps) }

  /** A row is written, its producer's total moves by `units`, the frozen tokens become `f`. */
  function After(b: Books, k: Ballot, row: Row, units: int, f: map<Account, int>): Books
    requires k.1 in b.bps
  {
    Books(b.votes[k := row], b.bps[k.1 := b.bps[k.1].(totalStaked := b.bps[k.1].totalStaked + units)], f)
  }

  lemma AfterIsSound(b: Books, k: Ballot, row: Row, units: int, f: map<Account, int>)
    requires Sound(b) && k.1 in b.bps && RowOk(row) && units * 10000 == Power(row) - PowerAt(b.votes, k)
    ensures Sound(After(b, k, row, units, f))
  {
    var c := After(b, k, row, units, f);
    StaysBalanced(b.votes, b.bps, k, c.votes, c.bps);
  }

  /** The tokens of `v`, frozen or in votes. */
  ghost function Tokens(b: Books, v: Account): int { FrozenOf(b.freezes, v) + InVotes(b.votes, v) }

  /** The tokens that leave a row are frozen, those that enter it come from the frozen ones; `extra` tokens are new. */
  lemma AfterTokens(b: Books, k: Ballot, row: Row, units: int, f: map<Account, int>, extra: int, v: Account)
    requires k.1 in b.bps
    requires FrozenOf(f, v) + HeldIf(v, k, Held(row))
          == FrozenOf(b.freezes, v) + HeldIf(v, k, HeldAt(b.votes, k)) + extra
    ensures Tokens(After(b, k, row, units, f), v) == Tokens(b, v) + extra
  {
    HeldChanges(b.votes, After(b, k, row, units, f).votes, k, v);
  }

  function HeldIf(v: Account, k: Ballot, held: int): int { if v == k.0 then held else 0 }

  // ---------- a normal vote ----------

  /** A producer's pawn bounds the votes it may hold. */
  predicate PawnCoversVote(pawn: int, total: int) {
    (pawn >= 5000 * 10000 && total <= 800 * 10000) || (pawn >= 10000 * 10000 && total <= 2000 * 10000)
    || pawn >= 30000 * 10000
  }

  predicate StakeOk(stake: int) { (100000 <= stake && stake % 100000 == 0) || stake == 0 }

  predicate CanVote(b: Books, voter: Account, bp: Account, stake: int) {
    bp in b.bps && StakeOk(stake) &&
    var change := stake - VoteAt(b.votes, (voter, bp));
    (b.bps[bp].active || change < 0) &&
    (change > 0 ==>
      PawnCoversVote(b.bps[bp].pawn, b.bps[bp].totalStaked + Quotient(change, 100000))
      && FrozenOf(b.freezes, voter) >= change)
  }

  function FrozenBy(f: map<Account, int>, v: Account, change: int): map<Account, int> {
    if change == 0 then f else Thawed(f, v, -change)
  }

  function Voted(b: Books, voter: Account, bp: Account, stake: int): Books
    requires bp in b.bps
  {
    var k := (voter, bp);
    var change := stake - VoteAt(b.votes, k);
    var row, frozen := Row(stake, stake / 10, LockedAt(b.votes, k)), FrozenBy(b.freezes, voter, change);
    After(b, k, row, Quotient(change, 100000), frozen)
  }

  /** The vote of `k.0` for `k.1`, the total and rewards of that producer and the frozen tokens of that voter are all
      that may have changed. */
  ghost predicate Concerns(b: Books, c: Books, k: Ballot) {
    && Differs(b.votes, c.votes, k) && k in c.votes
    && Differs(b.bps, c.bps, k.1) && k.1 in b.bps && k.1 in c.bps
    && c.bps[k.1] == b.bps[k.1].(totalStaked := c.bps[k.1].totalStaked, rewards := c.bps[k.1].rewards)
    && Differs(b.freezes, c.freezes, k.0)
  }

  /** How far the total of the producer, in ten thousandths, its rewards and the frozen tokens of the voter rose. */
  ghost predicate Moves(b: Books, c: Books, k: Ballot, power: int, rewards: int, frozen: int)
    requires k.1 in b.bps && k.1 in c.bps
  {
    && 10000 * (c.bps[k.1].totalStaked - b.bps[k.1].totalStaked) == power
    && c.bps[k.1].rewards == b.bps[k.1].rewards + rewards
    && (if k.0 in c.freezes then c.freezes[k.0] else 0) == (if k.0 in b.freezes then b.freezes[k.0] else 0) + frozen
  }

  lemma AfterConcerns(b: Books, k: Ballot, row: Row, units: int, f: map<Account, int>, power: int, frozen: int)
    requires k.1 in b.bps && Differs(b.freezes, f, k.0) && power == 10000 * units
    requires FrozenOf(f, k.0) == FrozenOf(b.freezes, k.0) + frozen
    ensures Concerns(b, After(b, k, row, units, f), k) && Moves(b, After(b, k, row, units, f), k, power, 0, frozen)
    ensures After(b, k, row, units, f).votes[k] == row
  {
  }

  /** The vote is set to `stake`, its power to a tenth of that; the difference comes from the frozen tokens or becomes
      frozen, and a tenth of it is added to the power that the producer's total counts. Locked votes stay. */
  ghost predicate VoteEffect(b: Books, c: Books, voter: Account, bp: Account, stake: int) {
    var k := (voter, bp);
    && Concerns(b, c, k) && c.votes[k].vote == stake == 10 * c.votes[k].power
    && c.votes[k].locked == LockedAt(b.votes, k)
    && (stake - VoteAt(b.votes, k)) % 10 == 0
    && Moves(b, c, k, (stake - VoteAt(b.votes, k)) / 10, 0, VoteAt(b.votes, k) - stake)
  }

  lemma VotedExactly(b: Books, voter: Account, bp: Account, stake: int)
    requires Sound(b) && CanVote(b, voter, bp, stake)
    ensures VoteEffect(b, Voted(b, voter, bp, stake), voter, bp, stake)
  {
    var k := (voter, bp);
    var change := stake - VoteAt(b.votes, k);
    var row, units := Row(stake, stake / 10, LockedAt(b.votes, k)), Quotient(change, 100000);
    var f := FrozenBy(b.freezes, voter, change);
    assert k in b.votes ==> RowOk(b.votes[k]);
    ChangeUnits(stake, VoteAt(b.votes, k), change, units);
    VotedIs(b, voter, bp, stake, k, change, row, units, f);
    AfterConcerns(b, k, row, units, f, change / 10, -change);
  }

  lemma ChangeUnits(stake: int, vote: int, change: int, units: int)
    requires stake % 100000 == 0 && vote % 100000 == 0 && change == stake - vote && units == Quotient(change, 100000)
    ensures 10 * (stake / 10) == stake && change % 10 == 0 && change / 10 == 10000 * units
  {
    WholeTenth(stake);
    WholeTenth(change);
    ExactUnits(change);
  }

  /** What the pawn of a producer allows, by its size. */
  lemma PawnBoundsVotes(pawn: int, total: int)
    ensures PawnCoversVote(pawn, total) <==>
            && pawn >= 50_000_000
            && (pawn < 100_000_000 ==> total <= 8_000_000) && (pawn < 300_000_000 ==> total <= 20_000_000)
  {
  }

  lemma ExactUnits(x: int)
    requires x % 100000 == 0
    ensures Quotient(x, 100000) * 10000 * 10 == x
  {
  }

  /** Setting a vote changes the power of its row by a tenth of the change, in whole units. */
  lemma VoteUnits(m: map<Ballot, Row>, k: Ballot, stake: int, row: Row, change: int)
    requires (k in m ==> RowOk(m[k])) && StakeOk(stake) && change == stake - VoteAt(m, k)
    requires row == Row(stake, stake / 10, LockedAt(m, k))
    ensures RowOk(row) && Quotient(change, 100000) * 10000 == Power(row) - PowerAt(m, k)
    ensures Held(row) - HeldAt(m, k) == change
  {
    var vote, power := VoteAt(m, k), if k in m then m[k].power else 0;
    TenthOf(stake, vote, power, change);
  }

  lemma TenthOf(stake: int, vote: int, power: int, change: int)
    requires stake % 100000 == 0 && vote % 100000 == 0 && power * 10 == vote && change == stake - vote
    ensures stake / 10 * 10 == stake && Quotient(change, 100000) * 10000 == stake / 10 - power
  {
    WholeTenth(stake);
    WholeTenth(vote);
    ExactUnits(change);
  }

  lemma WholeTenth(x: int)
    requires x % 100000 == 0
    ensures x / 10 * 10 == x
  {
    assert x == x / 100000 * 100000;
  }

  lemma VotedIs(b: Books, voter: Account, bp: Account, stake: int,
                k: Ballot, change: int, row: Row, units: int, f: map<Account, int>)
    requires bp in b.bps && k == (voter, bp) && change == stake - VoteAt(b.votes, k)
    requires row == Row(stake, stake / 10, LockedAt(b.votes, k)) && units == Quotient(change, 100000)
    requires f == FrozenBy(b.freezes, voter, change)
    ensures Voted(b, voter, bp, stake) == After(b, k, row, units, f)
  {
  }

  lemma VotedIsSound(b: Books, stake: int, k: Ballot, change: int, row: Row, units: int, f: map<Account, int>)
    requires Sound(b) && k.1 in b.bps && StakeOk(stake) && change == stake - VoteAt(b.votes, k)
    requires row == Row(stake, stake / 10, LockedAt(b.votes, k)) && units == Quotient(change, 100000)
    ensures Sound(After(b, k, row, units, f))
  {
    assert k in b.votes ==> RowOk(b.votes[k]);
    VoteUnits(b.votes, k, stake, row, change);
    AfterIsSound(b, k, row, units, f);
  }

  /** A vote moves tokens between the votes and the frozen ones, and makes none. */
  lemma VotedTokens(b: Books, voter: Account, bp: Account, stake: int, v: Account)
    requires Sound(b) && bp in b.bps && StakeOk(stake)
    ensures Tokens(Voted(b, voter, bp, stake), v) == Tokens(b, v)
  {
    var k := (voter, bp);
    var change, row := stake - VoteAt(b.votes, k), Row(stake, stake / 10, LockedAt(b.votes, k));
    VoteUnits(b.votes, k, stake, row, change);
    AfterTokens(b, k, row, Quotient(change, 100000), FrozenBy(b.freezes, voter, change), 0, v);
  }

  // ---------- a locked vote, and quitting it ----------

  predicate PawnCoversLock(pawn: int, total: int) {
    (pawn >= 5000 * 10000 && total <= 200 * 10000) || (pawn >= 30000 * 10000 && total <= 1000 * 10000)
    || pawn >= 50000 * 10000
  }

  /** Days locked and power per token, by lock type. */
  const LOCKS: seq<(nat, nat)> := [(30, 1), (90, 3), (180, 6), (270, 9), (360, 12)]

  predicate CanLock(b: Books, voter: Account, bp: Account, stake: int, typ: nat) {
    typ < |LOCKS| && 0 <= stake && stake % 10000 == 0 && bp in b.bps && b.bps[bp].active
    && PawnCoversLock(b.bps[bp].pawn, b.bps[bp].totalStaked + stake / 10000)
    && voter in b.freezes && b.freezes[voter] >= stake
  }

  function NewItem(stake: int, typ: nat, now: nat): Item
    requires typ < |LOCKS|
  {
    Item(stake, stake * LOCKS[typ].1, now + LOCKS[typ].0 * BLOCKS_PER_DAY, false)
  }

  function Appended(m: map<Ballot, Row>, k: Ballot, i: Item): Row {
    if k in m then Row(m[k].vote, m[k].power, m[k].locked + [i]) else Row(0, 0, [] + [i])
  }

  function Locked(b: Books, voter: Account, bp: Account, stake: int, typ: nat, now: nat): Books
    requires bp in b.bps && typ < |LOCKS|
  {
    var i := NewItem(stake, typ, now);
    After(b, (voter, bp), Appended(b.votes, (voter, bp), i), Quotient(i.power, 10000), Thawed(b.freezes, voter, -stake))
  }

  lemma PawnBoundsLocks(pawn: int, total: int)
    ensures PawnCoversLock(pawn, total) <==>
            && pawn >= 50_000_000
            && (pawn < 300_000_000 ==> total <= 2_000_000) && (pawn < 500_000_000 ==> total <= 10_000_000)
  {
  }

  /** A lock of type 0 is for thirty days and counts once; each further type adds ninety days and three to the power,
      from ninety and three on. A day has 172800 blocks. */
  lemma LockTerms(stake: int, typ: nat, now: nat)
    ensures |LOCKS| == 5
    ensures typ < |LOCKS| ==>
            NewItem(stake, typ, now) == Item(stake, stake * (if typ == 0 then 1 else 3 * typ),
                                             now + (if typ == 0 then 30 else 90 * typ) * 172800, false)
  {
  }

  /** A locked vote is appended to the voter's, its tokens come from the frozen ones, and its power, in units of ten
      thousand, is added to the producer's total. */
  ghost predicate LockEffect(b: Books, c: Books, voter: Account, bp: Account, stake: int, typ: nat, now: nat) {
    var k := (voter, bp);
    && Concerns(b, c, k) && c.votes[k].vote == VoteAt(b.votes, k) && 10 * c.votes[k].power == c.votes[k].vote
    && c.votes[k].locked == LockedAt(b.votes, k) + [Item(stake, stake * (if typ == 0 then 1 else 3 * typ),
                                                         now + (if typ == 0 then 30 else 90 * typ) * 172800, false)]
    && Moves(b, c, k, stake * (if typ == 0 then 1 else 3 * typ), 0, -stake)
  }

  lemma LockedExactly(b: Books, voter: Account, bp: Account, stake: int, typ: nat, now: nat)
    requires Sound(b) && CanLock(b, voter, bp, stake, typ)
    ensures LockEffect(b, Locked(b, voter, bp, stake, typ, now), voter, bp, stake, typ, now)
  {
    var k, i, f := (voter, bp), NewItem(stake, typ, now), Thawed(b.freezes, voter, -stake);
    assert k in b.votes ==> RowOk(b.votes[k]);
    LockTerms(stake, typ, now);
    LockPower(stake, typ, now);
    AfterConcerns(b, k, Appended(b.votes, k, i), Quotient(i.power, 10000), f, i.power, -stake);
  }

  lemma LockPower(stake: int, typ: nat, now: nat)
    requires 0 <= stake && stake % 10000 == 0 && typ < |LOCKS|
    ensures
      var i := NewItem(stake, typ, now);
      ItemOk(i) && Quotient(i.power, 10000) * 10000 == i.power && i.vote == stake
  {
    var n := stake / 10000;
    if typ == 0 {
      PowerUnits(stake, n, 1);
    } else if typ == 1 {
      PowerUnits(stake, n, 3);
    } else if typ == 2 {
      PowerUnits(stake, n, 6);
    } else if typ == 3 {
      PowerUnits(stake, n, 9);
    } else {
      PowerUnits(stake, n, 12);
    }
  }

  lemma PowerUnits(stake: int, n: int, power: int)
    requires n >= 0 && stake == 10000 * n && power in {1, 3, 6, 9, 12}
    ensures stake * power >= 0 && stake * power % 10000 == 0 && Quotient(stake * power, 10000) * 10000 == stake * power
  {
    UnitsOf(stake * power, n * power);
  }

  lemma UnitsOf(x: int, k: int)
    requires k >= 0 && x == 10000 * k
    ensures x % 10000 == 0 && Quotient(x, 10000) == k
  {
  }

  lemma AppendedPower(m: map<Ballot, Row>, k: Ballot, i: Item, row: Row)
    requires (k in m ==> RowOk(m[k])) && ItemOk(i) && row == Appended(m, k, i)
    ensures RowOk(row) && Power(row) == PowerAt(m, k) + i.power && Held(row) == HeldAt(m, k) + i.vote
  {
    if k in m { ItemsSnoc(m[k].locked, i); } else { ItemsSnoc([], i); }
  }

  lemma LockedIsSound(b: Books, k: Ballot, stake: int, typ: nat, now: nat, i: Item, row: Row, units: int,
                      f: map<Account, int>)
    requires Sound(b) && k.1 in b.bps && 0 <= stake && stake % 10000 == 0 && typ < |LOCKS| &&
      i == NewItem(stake, typ, now)
    requires row == Appended(b.votes, k, i) && units == Quotient(i.power, 10000)
    ensures Sound(After(b, k, row, units, f))
  {
    assert k in b.votes ==> RowOk(b.votes[k]);
    LockPower(stake, typ, now);
    AppendedPower(b.votes, k, i, row);
    AfterIsSound(b, k, row, units, f);
  }

  lemma LockedTokens(b: Books, voter: Account, bp: Account, stake: int, typ: nat, now: nat, v: Account)
    requires Sound(b) && bp in b.bps && 0 <= stake && stake % 10000 == 0 && typ < |LOCKS|
    ensures Tokens(Locked(b, voter, bp, stake, typ, now), v) == Tokens(b, v)
  {
    LockPower(stake, typ, now);
    LockMoves(b, voter, bp, stake, NewItem(stake, typ, now), v);
  }

  /** A locked vote takes its tokens from the frozen ones, whatever its power. */
  lemma LockMoves(b: Books, voter: Account, bp: Account, stake: int, i: Item, v: Account)
    requires Sound(b) && bp in b.bps && i.vote == stake && ItemOk(i)
    ensures
      var k, f := (voter, bp), Thawed(b.freezes, voter, -stake);
      Tokens(After(b, k, Appended(b.votes, k, i), Quotient(i.power, 10000), f), v) == Tokens(b, v)
  {
    var k := (voter, bp);
    var row := Appended(b.votes, k, i);
    AppendedPower(b.votes, k, i, row);
    AfterTokens(b, k, row, Quotient(i.power, 10000), Thawed(b.freezes, voter, -stake), 0, v);
  }

  predicate CanQuit(b: Books, voter: Account, bp: Account, idx: nat, now: nat) {
    bp in b.bps && (voter, bp) in b.votes && idx < |b.votes[(voter, bp)].locked|
    && !b.votes[(voter, bp)].locked[idx].quit && b.votes[(voter, bp)].locked[idx].unfreeze <= now
  }

  /** The row without its locked vote at `idx`, whose place is kept. */
  function QuitRow(r: Row, idx: nat): Row
    requires idx < |r.locked|
  {
    r.(locked := r.locked[idx := r.locked[idx].(vote := 0, power := 0, quit := true)])
  }

  function Quit(b: Books, voter: Account, bp: Account, idx: nat): Books
    requires bp in b.bps && (voter, bp) in b.votes && idx < |b.votes[(voter, bp)].locked|
  {
    var r := b.votes[(voter, bp)];
    var thawed := Thawed(b.freezes, voter, r.locked[idx].vote);
    After(b, (voter, bp), QuitRow(r, idx), -Quotient(r.locked[idx].power, 10000), thawed)
  }

  /** The locked vote at `idx` is emptied and marked; its tokens become frozen, and its power leaves the producer's
      total. The other locked votes stay. */
  ghost predicate QuitEffect(b: Books, c: Books, voter: Account, bp: Account, idx: nat) {
    var k := (voter, bp);
    && Concerns(b, c, k) && k in b.votes && c.votes[k].vote == b.votes[k].vote && c.votes[k].power == b.votes[k].power
    && |c.votes[k].locked| == |b.votes[k].locked| > idx
    && (forall i | 0 <= i < |c.votes[k].locked| && i != idx :: c.votes[k].locked[i] == b.votes[k].locked[i])
    && c.votes[k].locked[idx] == Item(0, 0, b.votes[k].locked[idx].unfreeze, true)
    && Moves(b, c, k, -b.votes[k].locked[idx].power, 0, b.votes[k].locked[idx].vote)
  }

  lemma QuitExactly(b: Books, voter: Account, bp: Account, idx: nat, now: nat)
    requires Sound(b) && CanQuit(b, voter, bp, idx, now)
    ensures QuitEffect(b, Quit(b, voter, bp, idx), voter, bp, idx)
  {
    var k := (voter, bp);
    var r := b.votes[k];
    var i := r.locked[idx];
    var row, units, f := QuitRow(r, idx), -Quotient(i.power, 10000), Thawed(b.freezes, voter, i.vote);
    RowIsOk(b, k);
    assert ItemOk(i);
    UnitsOf(i.power, i.power / 10000);
    QuitIs(b, voter, bp, idx, k, r, row, units, f);
    AfterConcerns(b, k, row, units, f, -i.power, i.vote);
  }

  lemma QuitIs(b: Books, voter: Account, bp: Account, idx: nat,
               k: Ballot, r: Row, row: Row, units: int, f: map<Account, int>)
    requires bp in b.bps && k == (voter, bp) && k in b.votes && r == b.votes[k] && idx < |r.locked|
    requires row == QuitRow(r, idx) && units == -Quotient(r.locked[idx].power, 10000)
    requires f == Thawed(b.freezes, voter, r.locked[idx].vote)
    ensures Quit(b, voter, bp, idx) == After(b, k, row, units, f)
  {
  }

  lemma QuitIsSound(b: Books, k: Ballot, r: Row, idx: nat, row: Row, units: int, f: map<Account, int>)
    requires Sound(b) && k.1 in b.bps && k in b.votes && r == b.votes[k] && idx < |r.locked| && row == QuitRow(r, idx)
    requires units == -Quotient(r.locked[idx].power, 10000)
    ensures Sound(After(b, k, row, units, f))
  {
    assert RowOk(r);
    assert ItemOk(r.locked[idx]);
    ItemChanges(r.locked, idx, row.locked[idx]);
    AfterIsSound(b, k, row, units, f);
  }

  lemma QuitTokens(b: Books, voter: Account, bp: Account, idx: nat, v: Account)
    requires bp in b.bps && (voter, bp) in b.votes && idx < |b.votes[(voter, bp)].locked|
    ensures Tokens(Quit(b, voter, bp, idx), v) == Tokens(b, v)
  {
    var k := (voter, bp);
    var r := b.votes[k];
    var row := QuitRow(r, idx);
    ItemChanges(r.locked, idx, row.locked[idx]);
    AfterTokens(b, k, row, -Quotient(r.locked[idx].power, 10000), Thawed(b.freezes, voter, r.locked[idx].vote), 0, v);
  }

  // ---------- rewards ----------

  predicate CanClaim(b: Books, voter: Account, bp: Account, reward: int) {
    bp in b.bps && (voter, bp) in b.votes && 0 < reward <= b.bps[bp].rewards
  }

  /** The part of a reward that is voted, in whole stake units. */
  function Whole(reward: int): int { reward - reward % 100000 }

  function RewardRow(r: Row, whole: int): Row { Row(r.vote + whole, r.power + whole / 10, Unquit(r.locked)) }

  function Paid(b: Books, bp: Account, reward: int): Books
    requires bp in b.bps
  {
    b.(bps := b.bps[bp := b.bps[bp].(rewards := b.bps[bp].rewards - reward)])
  }

  /** The reward leaves the producer's pool; `whole` tokens of it are voted for the producer. */
  function Rewarded(b: Books, voter: Account, bp: Account, reward: int, whole: int): Books
    requires bp in b.bps && (voter, bp) in b.votes
  {
    var row := RewardRow(b.votes[(voter, bp)], whole);
    After(Paid(b, bp, reward), (voter, bp), row, Quotient(whole / 10, 10000), b.freezes)
  }

  /** The reward leaves the producer's pool; `whole` of it is added to the vote, and a tenth of that to its power and
      to what the producer's total counts. Quit votes are dropped, frozen tokens stay. */
  ghost predicate RewardEffect(b: Books, c: Books, voter: Account, bp: Account, reward: int, whole: int) {
    var k := (voter, bp);
    && Concerns(b, c, k) && k in b.votes && c.freezes == b.freezes
    && c.votes[k].vote == b.votes[k].vote + whole == 10 * c.votes[k].power
    && c.votes[k].locked == Unquit(b.votes[k].locked)
    && whole % 10 == 0 && Moves(b, c, k, whole / 10, -reward, 0)
  }

  lemma RewardedExactly(b: Books, voter: Account, bp: Account, reward: int, whole: int)
    requires Sound(b) && CanClaim(b, voter, bp, reward) && whole >= 0 && whole % 100000 == 0
    ensures RewardEffect(b, Rewarded(b, voter, bp, reward, whole), voter, bp, reward, whole)
  {
    var k, p := (voter, bp), Paid(b, bp, reward);
    var r := b.votes[k];
    var row, units := RewardRow(r, whole), Quotient(whole / 10, 10000);
    RowIsOk(b, k);
    WholeTenth(whole);
    TenthUnits(whole);
    RewardedIs(b, k, reward, whole, r, row, units);
    AfterConcerns(p, k, row, units, b.freezes, whole / 10, 0);
  }

  lemma TenthUnits(x: int)
    requires x >= 0 && x % 100000 == 0
    ensures 10000 * Quotient(x / 10, 10000) == x / 10
  {
    var n := x / 100000;
    assert x == 100000 * n && x / 10 == 10000 * n;
  }

  lemma PaidIsSound(b: Books, bp: Account, reward: int)
    requires Sound(b) && bp in b.bps
    ensures Sound(Paid(b, bp, reward))
  {
  }

  lemma {:induction false} UnquitKeeps(s: seq<Item>)
    requires forall i :: 0 <= i < |s| ==> ItemOk(s[i])
    ensures ItemsPower(Unquit(s)) == ItemsPower(s) && ItemsVote(Unquit(s)) == ItemsVote(s)
    ensures forall i :: 0 <= i < |Unquit(s)| ==> ItemOk(Unquit(s)[i]) && !Unquit(s)[i].quit
  {
    if s != [] {
      var n := |s| - 1;
      UnquitKeeps(s[..n]);
      ItemsSnoc(Unquit(s[..n]), s[n]);
      if s[n].quit { assert Unquit(s) == Unquit(s[..n]); }
    }
  }

  lemma RewardedIs(b: Books, k: Ballot, reward: int, whole: int, r: Row, row: Row, units: int)
    requires k.1 in b.bps && k in b.votes && r == b.votes[k]
    requires row == RewardRow(r, whole) && units == Quotient(whole / 10, 10000)
    ensures Rewarded(b, k.0, k.1, reward, whole) == After(Paid(b, k.1, reward), k, row, units, b.freezes)
  {
  }

  lemma WholeIsWhole(reward: int, whole: int)
    requires reward > 0 && whole == Whole(reward)
    ensures 0 <= whole <= reward && whole % 100000 == 0
  {
  }

  lemma RewardRowOk(r: Row, whole: int, row: Row, units: int)
    requires RowOk(r) && whole >= 0 && whole % 100000 == 0
    requires row == RewardRow(r, whole) && units == Quotient(whole / 10, 10000)
    ensures RowOk(row) && units * 10000 == Power(row) - Power(r)
  {
    UnquitKeeps(r.locked);
    WholeTenth(whole);
    TenthUnits(whole);
    MoreVoted(r.vote, r.power, whole);
  }

  lemma MoreVoted(vote: int, power: int, whole: int)
    requires vote % 100000 == 0 && power * 10 == vote && whole % 100000 == 0 && whole / 10 * 10 == whole
    ensures (vote + whole) % 100000 == 0 && (power + whole / 10) * 10 == vote + whole
  {
  }

  lemma RewardedIsSound(b: Books, k: Ballot, r: Row, whole: int, row: Row, units: int)
    requires Sound(b) && k.1 in b.bps && k in b.votes && r == b.votes[k] && whole >= 0 && whole % 100000 == 0
    requires row == RewardRow(r, whole) && units == Quotient(whole / 10, 10000)
    ensures Sound(After(b, k, row, units, b.freezes))
  {
    RowIsOk(b, k);
    RewardRowOk(r, whole, row, units);
    AfterIsSound(b, k, row, units, b.freezes);
  }

  lemma RowIsOk(b: Books, k: Ballot)
    requires Sound(b) && k in b.votes
    ensures RowOk(b.votes[k])
  {
  }

  lemma RewardedHolds(b: Books, k: Ballot, reward: int, whole: int, r: Row, row: Row, units: int)
    requires Sound(b) && k.1 in b.bps && k in b.votes && r == b.votes[k] && whole >= 0 && whole % 100000 == 0
    requires row == RewardRow(r, whole) && units == Quotient(whole / 10, 10000)
    ensures Rewarded(b, k.0, k.1, reward, whole) == After(Paid(b, k.1, reward), k, row, units, b.freezes)
    ensures Sound(Rewarded(b, k.0, k.1, reward, whole))
  {
    RewardedIs(b, k, reward, whole, r, row, units);
    PaidIsSound(b, k.1, reward);
    RewardedIsSound(Paid(b, k.1, reward), k, r, whole, row, units);
  }

  /** A voted reward adds its whole part to the voter's tokens; a claimed one is paid out and adds nothing here. */
  lemma RewardedTokens(b: Books, voter: Account, bp: Account, reward: int, whole: int, v: Account)
    requires Sound(b) && bp in b.bps && (voter, bp) in b.votes
    ensures Tokens(Rewarded(b, voter, bp, reward, whole), v) == Tokens(b, v) + if v == voter then whole else 0
  {
    var k := (voter, bp);
    assert RowOk(b.votes[k]);
    UnquitKeeps(b.votes[k].locked);
    AfterTokens(Paid(b, bp, reward), k, RewardRow(b.votes[k], whole), Quotient(whole / 10, 10000), b.freezes,
                if v == voter then whole else 0, v);
  }

  // ---------- runs ----------

  datatype Op =
    | SetVote(voter: Account, bp: Account, stake: int)
    | LockVote(voter: Account, bp: Account, stake: int, typ: nat, now: nat)
    | QuitVote(voter: Account, bp: Account, idx: nat, now: nat)
    | VoteReward(voter: Account, bp: Account, available: bool, reward: int)
    | ClaimReward(voter: Account, bp: Account, available: bool, reward: int, funds: int)

  predicate Accepted(g: set<Account>, b: Books, op: Op) {
    match op
    case SetVote(voter, bp, stake) => bp !in g && CanVote(b, voter, bp, stake)
    case LockVote(voter, bp, stake, typ, now) => bp !in g && CanLock(b, voter, bp, stake, typ)
    case QuitVote(voter, bp, idx, now) => CanQuit(b, voter, bp, idx, now)
    case VoteReward(voter, bp, available, reward) =>
      bp !in g && available && CanClaim(b, voter, bp, reward) && b.bps[bp].active
    case ClaimReward(voter, bp, available, reward, funds) =>
      available && CanClaim(b, voter, bp, reward) && reward <= funds
  }

  /** One action, refused or not. */
  function Step(g: set<Account>, b: Books, op: Op): Books {
    if !Accepted(g, b, op) then b
    else
      match op
      case SetVote(voter, bp, stake) => Voted(b, voter, bp, stake)
      case LockVote(voter, bp, stake, typ, now) => Locked(b, voter, bp, stake, typ, now)
      case QuitVote(voter, bp, idx, now) => Quit(b, voter, bp, idx)
      case VoteReward(voter, bp, available, reward) => Rewarded(b, voter, bp, reward, Whole(reward))
      case ClaimReward(voter, bp, available, reward, funds) => Rewarded(b, voter, bp, reward, 0)
  }

  function Run(g: set<Account>, b: Books, ops: seq<Op>): Books {
    if ops == [] then b else Step(g, Run(g, b, ops[..|ops| - 1]), ops[|ops| - 1])
  }

  lemma VoteKeeps(b: Books, voter: Account, bp: Account, stake: int)
    requires Sound(b) && CanVote(b, voter, bp, stake)
    ensures Sound(Voted(b, voter, bp, stake))
  {
    var k := (voter, bp);
    var change := stake - VoteAt(b.votes, k);
    var row, units := Row(stake, stake / 10, LockedAt(b.votes, k)), Quotient(change, 100000);
    var f := FrozenBy(b.freezes, voter, change);
    VotedIs(b, voter, bp, stake, k, change, row, units, f);
    VotedIsSound(b, stake, k, change, row, units, f);
  }

  lemma LockKeeps(b: Books, voter: Account, bp: Account, stake: int, typ: nat, now: nat)
    requires Sound(b) && CanLock(b, voter, bp, stake, typ)
    ensures Sound(Locked(b, voter, bp, stake, typ, now))
  {
    var k, i := (voter, bp), NewItem(stake, typ, now);
    var row, f := Appended(b.votes, k, i), Thawed(b.freezes, voter, -stake);
    LockedIsSound(b, k, stake, typ, now, i, row, Quotient(i.power, 10000), f);
  }

  lemma QuitKeeps(b: Books, voter: Account, bp: Account, idx: nat, now: nat)
    requires Sound(b) && CanQuit(b, voter, bp, idx, now)
    ensures Sound(Quit(b, voter, bp, idx))
  {
    var k := (voter, bp);
    var r := b.votes[k];
    var row, units := QuitRow(r, idx), -Quotient(r.locked[idx].power, 10000);
    var f := Thawed(b.freezes, voter, r.locked[idx].vote);
    QuitIs(b, voter, bp, idx, k, r, row, units, f);
    QuitIsSound(b, k, r, idx, row, units, f);
  }

  lemma RewardKeeps(b: Books, voter: Account, bp: Account, reward: int, whole: int)
    requires Sound(b) && CanClaim(b, voter, bp, reward) && whole >= 0 && whole % 100000 == 0
    ensures Sound(Rewarded(b, voter, bp, reward, whole))
  {
    var k := (voter, bp);
    var r := b.votes[k];
    RewardedHolds(b, k, reward, whole, r, RewardRow(r, whole), Quotient(whole / 10, 10000));
  }

  lemma StepKeeps(g: set<Account>, b: Books, op: Op)
    requires Sound(b)
    ensures Sound(Step(g, b, op))
  {
    if Step(g, b, op) != b {
      match op
      case SetVote(voter, bp, stake) => VoteKeeps(b, voter, bp, stake);
      case LockVote(voter, bp, stake, typ, now) => LockKeeps(b, voter, bp, stake, typ, now);
      case QuitVote(voter, bp, idx, now) => QuitKeeps(b, voter, bp, idx, now);
      case VoteReward(voter, bp, available, reward) =>
        WholeIsWhole(reward, Whole(reward));
        RewardKeeps(b, voter, bp, reward, Whole(reward));
      case ClaimReward(voter, bp, available, reward, funds) => RewardKeeps(b, voter, bp, reward, 0);
    }
  }

  /** After every run, each producer's total is exactly the power of all votes for it, and not negative. */
  lemma {:induction false} RunKeepsTotals(g: set<Account>, b: Books, ops: seq<Op>, bp: Account)
    requires Sound(b) && bp in Run(g, b, ops).bps
    ensures Sound(Run(g, b, ops))
    ensures Run(g, b, ops).bps[bp].totalStaked * 10000 == TotalPower(Run(g, b, ops).votes, bp)
    ensures Run(g, b, ops).bps[bp].totalStaked >= 0
  {
    RunKeeps(g, b, ops);
    TotalNonNegative(Run(g, b, ops).votes, Run(g, b, ops).bps, bp);
  }

  lemma {:induction false} RunKeeps(g: set<Account>, b: Books, ops: seq<Op>)
    requires Sound(b)
    ensures Sound(Run(g, b, ops))
  {
    if ops != [] {
      var n := |ops| - 1;
      RunKeeps(g, b, ops[..n]);
      StepKeeps(g, Run(g, b, ops[..n]), ops[n]);
    }
  }

  // ---------- which actions are accepted ----------

  /** What a voter has voted for the producer so far. */
  function VotedSoFar(b: Books, voter: Account, bp: Account): int {
    if (voter, bp) in b.votes then b.votes[(voter, bp)].vote else 0
  }

  /** A vote is a multiple of ten tokens. Lowering it is always possible; keeping it needs an active producer; raising
      it also needs the frozen tokens, and a pawn that bears the new total. */
  predicate VoteAllowed(b: Books, voter: Account, bp: Account, stake: int) {
    bp in b.bps && stake >= 0 && stake % 100000 == 0 &&
    var change, p := stake - VotedSoFar(b, voter, bp), b.bps[bp];
    (change >= 0 ==> p.active) &&
    (change > 0 ==>
       && voter in b.freezes && change <= b.freezes[voter] && p.pawn >= 50_000_000
       && (p.pawn < 100_000_000 ==> p.totalStaked + change / 100000 <= 8_000_000)
       && (p.pawn < 300_000_000 ==> p.totalStaked + change / 100000 <= 20_000_000))
  }

  /** A locked vote is of whole tokens that are frozen, for an active producer whose pawn bears the total with the
      tokens, whatever the power, added. */
  predicate LockAllowed(b: Books, voter: Account, bp: Account, stake: int, typ: nat) {
    bp in b.bps && stake >= 0 && stake % 10000 == 0 && typ <= 4 && voter in b.freezes && stake <= b.freezes[voter] &&
    var p := b.bps[bp];
    && p.active && p.pawn >= 50_000_000
    && (p.pawn < 300_000_000 ==> p.totalStaked + stake / 10000 <= 2_000_000)
    && (p.pawn < 500_000_000 ==> p.totalStaked + stake / 10000 <= 10_000_000)
  }

  /** A locked vote can be quit once, from the end of its time on. */
  predicate QuitAllowed(b: Books, voter: Account, bp: Account, idx: nat, now: nat) {
    bp in b.bps && (voter, bp) in b.votes && idx < |b.votes[(voter, bp)].locked| &&
    var i := b.votes[(voter, bp)].locked[idx];
    !i.quit && now >= i.unfreeze
  }

  /** A reward can be taken by who has votes for the producer, if it is positive and the pool has it. */
  predicate RewardAllowed(b: Books, voter: Account, bp: Account, reward: int) {
    (voter, bp) in b.votes && bp in b.bps && reward > 0 && reward <= b.bps[bp].rewards
  }

  /** Exactly these actions are accepted; genesis producers take no votes, and inactive ones no rewards as votes. */
  lemma AcceptedExactly(g: set<Account>, b: Books, op: Op)
    requires Sound(b)
    ensures Accepted(g, b, op) <==>
            match op
            case SetVote(voter, bp, stake) => bp !in g && VoteAllowed(b, voter, bp, stake)
            case LockVote(voter, bp, stake, typ, now) => bp !in g && LockAllowed(b, voter, bp, stake, typ)
            case QuitVote(voter, bp, idx, now) => QuitAllowed(b, voter, bp, idx, now)
            case VoteReward(voter, bp, available, reward) =>
              available && bp !in g && RewardAllowed(b, voter, bp, reward) && b.bps[bp].active
            case ClaimReward(voter, bp, available, reward, funds) =>
              available && RewardAllowed(b, voter, bp, reward) && funds >= reward
  {
    match op
    case SetVote(voter, bp, stake) => CanVoteExactly(b, voter, bp, stake);
    case LockVote(voter, bp, stake, typ, now) => CanLockExactly(b, voter, bp, stake, typ);
    case QuitVote(voter, bp, idx, now) =>
    case VoteReward(voter, bp, available, reward) =>
    case ClaimReward(voter, bp, available, reward, funds) =>
  }

  lemma CanVoteExactly(b: Books, voter: Account, bp: Account, stake: int)
    requires Sound(b)
    ensures CanVote(b, voter, bp, stake) <==> VoteAllowed(b, voter, bp, stake)
  {
    if bp in b.bps {
      var change := stake - VotedSoFar(b, voter, bp);
      PawnBoundsVotes(b.bps[bp].pawn, b.bps[bp].totalStaked + change / 100000);
    }
  }

  lemma CanLockExactly(b: Books, voter: Account, bp: Account, stake: int, typ: nat)
    ensures CanLock(b, voter, bp, stake, typ) <==> LockAllowed(b, voter, bp, stake, typ)
  {
    if bp in b.bps { PawnBoundsLocks(b.bps[bp].pawn, b.bps[bp].totalStaked + stake / 10000); }
  }

  // ---------- what runs keep ----------

  /** What an accepted action does, in the words of the effects above. */
  ghost predicate Effect(b: Books, c: Books, op: Op) {
    match op
    case SetVote(voter, bp, stake) => VoteEffect(b, c, voter, bp, stake)
    case LockVote(voter, bp, stake, typ, now) => LockEffect(b, c, voter, bp, stake, typ, now)
    case QuitVote(voter, bp, idx, now) => QuitEffect(b, c, voter, bp, idx)
    case VoteReward(voter, bp, available, reward) => RewardEffect(b, c, voter, bp, reward, reward - reward % 100000)
    case ClaimReward(voter, bp, available, reward, funds) => RewardEffect(b, c, voter, bp, reward, 0)
  }

  lemma StepExactly(g: set<Account>, b: Books, op: Op)
    requires Sound(b) && Accepted(g, b, op)
    ensures Effect(b, Step(g, b, op), op)
  {
    match op
    case SetVote(voter, bp, stake) => VotedExactly(b, voter, bp, stake);
    case LockVote(voter, bp, stake, typ, now) => LockedExactly(b, voter, bp, stake, typ, now);
    case QuitVote(voter, bp, idx, now) => QuitExactly(b, voter, bp, idx, now);
    case VoteReward(voter, bp, available, reward) =>
      WholeIsWhole(reward, Whole(reward));
      RewardedExactly(b, voter, bp, reward, Whole(reward));
    case ClaimReward(voter, bp, available, reward, funds) => RewardedExactly(b, voter, bp, reward, 0);
  }

  /** What the action takes from the pool of `bp` if it is accepted. */
  function Takes(op: Op, bp: Account): int {
    if (op.VoteReward? || op.ClaimReward?) && op.bp == bp then op.reward else 0
  }

  /** The rewards taken from the pool of `bp` in a run. */
  function Taken(g: set<Account>, b: Books, ops: seq<Op>, bp: Account): int {
    if ops == [] then 0
    else
      var n := |ops| - 1;
      Taken(g, b, ops[..n], bp) + if Accepted(g, Run(g, b, ops[..n]), ops[n]) then Takes(ops[n], bp) else 0
  }

  lemma StepPool(g: set<Account>, b: Books, op: Op, bp: Account)
    requires Sound(b) && bp in b.bps
    ensures bp in Step(g, b, op).bps
    ensures Step(g, b, op).bps[bp].rewards == b.bps[bp].rewards - if Accepted(g, b, op) then Takes(op, bp) else 0
    ensures b.bps[bp].rewards >= 0 ==> Step(g, b, op).bps[bp].rewards >= 0
  {
    if Accepted(g, b, op) {
      StepExactly(g, b, op);
      PoolBy(b, Step(g, b, op), op, bp);
    }
  }

  lemma PoolBy(b: Books, c: Books, op: Op, bp: Account)
    requires Effect(b, c, op) && bp in b.bps
    ensures bp in c.bps && c.bps[bp].rewards == b.bps[bp].rewards - Takes(op, bp)
  {
  }

  /** Over every run, what was taken from a producer's pool and what is left of it is what was in it at first, and a
      pool is never overdrawn. */
  lemma {:induction false} RunConservesPools(g: set<Account>, b: Books, ops: seq<Op>, bp: Account)
    requires Sound(b) && bp in b.bps
    ensures bp in Run(g, b, ops).bps && Run(g, b, ops).bps[bp].rewards + Taken(g, b, ops, bp) == b.bps[bp].rewards
    ensures b.bps[bp].rewards >= 0 ==> Run(g, b, ops).bps[bp].rewards >= 0
  {
    if ops != [] {
      var n := |ops| - 1;
      RunConservesPools(g, b, ops[..n], bp);
      RunKeeps(g, b, ops[..n]);
      StepPool(g, Run(g, b, ops[..n]), ops[n], bp);
    }
  }

  lemma StepFrozen(g: set<Account>, b: Books, op: Op, v: Account)
    requires Sound(b) && FrozenOf(b.freezes, v) >= 0
    ensures FrozenOf(Step(g, b, op).freezes, v) >= 0
  {
    if Accepted(g, b, op) {
      StepExactly(g, b, op);
      if op.QuitVote? && op.voter == v {
        RowIsOk(b, (v, op.bp));
        assert ItemOk(b.votes[(v, op.bp)].locked[op.idx]);
      }
    }
  }

  /** Over every run, no voter spends more frozen tokens than it has. */
  lemma {:induction false} RunKeepsFrozen(g: set<Account>, b: Books, ops: seq<Op>, v: Account)
    requires Sound(b) && FrozenOf(b.freezes, v) >= 0
    ensures FrozenOf(Run(g, b, ops).freezes, v) >= 0
  {
    if ops != [] {
      var n := |ops| - 1;
      RunKeepsFrozen(g, b, ops[..n], v);
      RunKeeps(g, b, ops[..n]);
      StepFrozen(g, Run(g, b, ops[..n]), ops[n], v);
    }
  }

  /** No votes for `bp` are accepted: it is of genesis or not active, or its pawn is too small and no reward is
      voted. */
  predicate Closed(g: set<Account>, p: Producer, bp: Account, op: Op) {
    bp in g || !p.active || (p.pawn < 50_000_000 && !(op.VoteReward? && op.bp == bp))
  }

  lemma StepClosed(g: set<Account>, b: Books, op: Op, bp: Account)
    requires Sound(b) && bp in b.bps
    ensures var c := Step(g, b, op);
            && bp in c.bps && c.bps[bp].active == b.bps[bp].active && c.bps[bp].pawn == b.bps[bp].pawn
            && (Closed(g, b.bps[bp], bp, op) ==> c.bps[bp].totalStaked <= b.bps[bp].totalStaked)
  {
    if Accepted(g, b, op) {
      StepExactly(g, b, op);
      ProducerStays(b, Step(g, b, op), op, bp);
      if op.QuitVote? { QuitLowers(b, Step(g, b, op), op.voter, op.bp, op.idx, bp); }
    }
  }

  lemma ProducerStays(b: Books, c: Books, op: Op, bp: Account)
    requires Effect(b, c, op) && bp in b.bps
    ensures bp in c.bps && c.bps[bp].active == b.bps[bp].active && c.bps[bp].pawn == b.bps[bp].pawn
    ensures op.bp != bp ==> c.bps[bp] == b.bps[bp]
  {
  }

  lemma QuitLowers(b: Books, c: Books, voter: Account, whom: Account, idx: nat, bp: Account)
    requires Sound(b) && QuitEffect(b, c, voter, whom, idx) && bp in b.bps
    ensures bp in c.bps && c.bps[bp].totalStaked <= b.bps[bp].totalStaked
  {
    RowIsOk(b, (voter, whom));
    assert ItemOk(b.votes[(voter, whom)].locked[idx]);
  }

  /** Over every run, the total of a producer that is of genesis, or not active, or whose pawn is too small, never
      rises, except, in the last case, by voted rewards. */
  lemma {:induction false} RunKeepsClosed(g: set<Account>, b: Books, ops: seq<Op>, bp: Account)
    requires Sound(b) && bp in b.bps && forall i | 0 <= i < |ops| :: Closed(g, b.bps[bp], bp, ops[i])
    ensures var c := Run(g, b, ops);
            && bp in c.bps && c.bps[bp].active == b.bps[bp].active && c.bps[bp].pawn == b.bps[bp].pawn
            && c.bps[bp].totalStaked <= b.bps[bp].totalStaked
  {
    if ops != [] {
      var n := |ops| - 1;
      RunKeepsClosed(g, b, ops[..n], bp);
      RunKeeps(g, b, ops[..n]);
      StepClosed(g, Run(g, b, ops[..n]), ops[n], bp);
    }
  }

  lemma {:induction false} UnquitHolds(s: seq<Item>, it: Item)
    requires it in s && !it.quit
    ensures it in Unquit(s)
  {
    var n := |s| - 1;
    if s[n] != it {
      assert it in s[..n];
      UnquitHolds(s[..n], it);
    }
  }

  /** The voter holds the locked vote. */
  predicate Holds(b: Books, k: Ballot, it: Item) { k in b.votes && it in b.votes[k].locked }

  /** The action does not quit a vote of `k` that is locked until `it.unfreeze`. */
  predicate TooEarly(op: Op, k: Ballot, it: Item) {
    op.QuitVote? && (op.voter, op.bp) == k ==> op.now < it.unfreeze
  }

  lemma StepLock(g: set<Account>, b: Books, op: Op, k: Ballot, it: Item)
    requires Sound(b) && Holds(b, k, it) && !it.quit && TooEarly(op, k, it)
    ensures Holds(Step(g, b, op), k, it)
  {
    if Accepted(g, b, op) {
      StepExactly(g, b, op);
      UnquitHolds(b.votes[k].locked, it);
      if op.QuitVote? && (op.voter, op.bp) == k {
        QuitSpares(b, Step(g, b, op), k, op.idx, it);
      } else {
        OthersSpare(b, Step(g, b, op), op, k, it);
      }
    }
  }

  lemma QuitSpares(b: Books, c: Books, k: Ballot, idx: nat, it: Item)
    requires Holds(b, k, it) && QuitEffect(b, c, k.0, k.1, idx) && b.votes[k].locked[idx] != it
    ensures Holds(c, k, it)
  {
    var s := b.votes[k].locked;
    var i :| 0 <= i < |s| && s[i] == it;
    assert c.votes[k].locked[i] == it;
  }

  lemma OthersSpare(b: Books, c: Books, op: Op, k: Ballot, it: Item)
    requires Holds(b, k, it) && it in Unquit(b.votes[k].locked) && Effect(b, c, op)
    requires !(op.QuitVote? && (op.voter, op.bp) == k)
    ensures Holds(c, k, it)
  {
    assert k != (op.voter, op.bp) ==> k in c.votes && c.votes[k] == b.votes[k];
  }

  /** Over every run, a locked vote stays as it is until its time is over. */
  lemma {:induction false} RunKeepsLocks(g: set<Account>, b: Books, ops: seq<Op>, k: Ballot, it: Item)
    requires Sound(b) && Holds(b, k, it) && !it.quit && forall i | 0 <= i < |ops| :: TooEarly(ops[i], k, it)
    ensures Holds(Run(g, b, ops), k, it)
  {
    if ops != [] {
      var n := |ops| - 1;
      var pre, op := ops[..n], ops[n];
      RunKeepsLocks(g, b, pre, k, it);
      RunKeeps(g, b, pre);
      StepLock(g, Run(g, b, pre), op, k, it);
    }
  }

  class Voting {
    const genesis: set<Account>
    var votes: map<Ballot, Row>
    var bps: map<Account, Producer>
    var freezes: map<Account, int>

    function View(): Books
      reads this
    {
      Books(votes, bps, freezes)
    }

    ghost predicate Valid()
      reads this
    {
      Sound(View())
    }

    constructor (genesis: set<Account>, bps: map<Account, Producer>, freezes: map<Account, int>)
      requires forall b <- bps :: bps[b].totalStaked == 0
      ensures Valid() && View() == Books(map[], bps, freezes) && this.genesis == genesis
    {
      this.genesis, votes, this.bps, this.freezes := genesis, map[], bps, freezes;
    }

    /** Adds `stake` to a producer's total. */
    method ModifyBpVote(bp: Account, stake: int)
      requires bp in bps
      modifies this`bps
      ensures bps == old(bps)[bp := old(bps)[bp].(totalStaked := old(bps)[bp].totalStaked + stake)]
    {
      bps := bps[bp := bps[bp].(totalStaked := bps[bp].totalStaked + stake)];
    }

    /** Writes a vote row, its producer's total and the frozen tokens. */
    method Commit(k: Ballot, row: Row, units: int, f: map<Account, int>)
      requires k.1 in bps
      modifies this
      ensures View() == After(old(View()), k, row, units, f)
    {
      freezes := f;
      votes := votes[k := row];
      ModifyBpVote(k.1, units);
    }

    /** Sets the normal vote of `voter` for `bp`; the difference moves between the votes and the frozen tokens. */
    method Vote(voter: Account, bp: Account, stake: int) returns (ok: bool)
      requires Valid()
      modifies this
      ensures Valid()
      ensures ok == (bp !in genesis && CanVote(old(View()), voter, bp, stake))
      ensures View() == if ok then Voted(old(View()), voter, bp, stake) else old(View())
      ensures ok ==> VoteEffect(old(View()), View(), voter, bp, stake)
    {
      if bp !in bps || bp in genesis || !StakeOk(stake) { return false; }
      var k := (voter, bp);
      var change := stake - VoteAt(votes, k);
      if !(bps[bp].active || change < 0) { return false; }
      var units := Quotient(change, 100000);
      if change > 0 && !(PawnCoversVote(bps[bp].pawn, bps[bp].totalStaked + units) &&
        FrozenOf(freezes, voter) >= change) {
        return false;
      }
      var row, f := Row(stake, stake / 10, LockedAt(votes, k)), FrozenBy(freezes, voter, change);
      VotedIs(View(), voter, bp, stake, k, change, row, units, f);
      VotedIsSound(View(), stake, k, change, row, units, f);
      VotedExactly(View(), voter, bp, stake);
      Commit(k, row, units, f);
      return true;
    }

    /** Locks `stake` frozen tokens in a vote whose power grows with the time locked. */
    method VoteStatic(voter: Account, bp: Account, stake: int, typ: nat, now: nat) returns (ok: bool)
      requires Valid()
      modifies this
      ensures Valid()
      ensures ok == (bp !in genesis && CanLock(old(View()), voter, bp, stake, typ))
      ensures View() == if ok then Locked(old(View()), voter, bp, stake, typ, now) else old(View())
      ensures ok ==> LockEffect(old(View()), View(), voter, bp, stake, typ, now)
    {
      if bp in genesis || typ >= |LOCKS| || !(0 <= stake && stake % 10000 == 0) { return false; }
      if bp !in bps || !bps[bp].active { return false; }
      if !PawnCoversLock(bps[bp].pawn, bps[bp].totalStaked + stake / 10000) { return false; }
      if voter !in freezes || freezes[voter] < stake { return false; }
      var k, i, f := (voter, bp), NewItem(stake, typ, now), Thawed(freezes, voter, -stake);
      var row, units := Appended(votes, k, i), Quotient(i.power, 10000);
      LockedIsSound(View(), k, stake, typ, now, i, row, units, f);
      LockedExactly(View(), voter, bp, stake, typ, now);
      Commit(k, row, units, f);
      return true;
    }

    /** Takes a locked vote back once its time is over; its tokens become frozen ones. */
    method QuitStaticVote(voter: Account, bp: Account, idx: nat, now: nat) returns (ok: bool)
      requires Valid()
      modifies this
      ensures Valid()
      ensures ok == CanQuit(old(View()), voter, bp, idx, now)
      ensures View() == if ok then Quit(old(View()), voter, bp, idx) else old(View())
      ensures ok ==> QuitEffect(old(View()), View(), voter, bp, idx)
    {
      var k := (voter, bp);
      if bp !in bps || k !in votes || idx >= |votes[k].locked| || votes[k].locked[idx].quit { return false; }
      if votes[k].locked[idx].unfreeze > now { return false; }
      var r := votes[k];
      var row, units := QuitRow(r, idx), -Quotient(r.locked[idx].power, 10000);
      var f := Thawed(freezes, voter, r.locked[idx].vote);
      QuitIs(View(), voter, bp, idx, k, r, row, units, f);
      QuitIsSound(View(), k, r, idx, row, units, f);
      QuitExactly(View(), voter, bp, idx, now);
      Commit(k, row, units, f);
      return true;
    }

    /** Takes a reward from the producer's pool and writes a vote row and the producer's total. */
    method PayAndCommit(k: Ballot, reward: int, row: Row, units: int)
      requires k.1 in bps
      modifies this
      ensures View() == After(Paid(old(View()), k.1, reward), k, row, units, old(freezes))
    {
      bps := bps[k.1 := bps[k.1].(rewards := bps[k.1].rewards - reward)];
      assert View() == Paid(old(View()), k.1, reward);
      Commit(k, row, units, freezes);
    }

    /** What both uses of a reward do: `whole` of it is added to the vote, quit items are dropped. */
    method TakeReward(k: Ballot, reward: int, whole: int)
      requires Valid() && k.1 in bps && k in votes && whole >= 0 && whole % 100000 == 0
      modifies this
      ensures Valid() && View() == Rewarded(old(View()), k.0, k.1, reward, whole)
    {
      var r := votes[k];
      RowIsOk(View(), k);
      var kept := DropQuit(r.locked);
      var row, units := Row(r.vote + whole, r.power + whole / 10, kept), Quotient(whole / 10, 10000);
      RewardedHolds(View(), k, reward, whole, r, row, units);
      PayAndCommit(k, reward, row, units);
    }

    /** Votes the whole stake units of a reward for the producer that pays it. */
    method VoteByReward(voter: Account, bp: Account, available: bool, reward: int) returns (ok: bool)
      requires Valid()
      modifies this
      ensures Valid()
      ensures ok == (bp !in genesis && available && CanClaim(old(View()), voter, bp, reward) && old(bps)[bp].active)
      ensures View() == if ok then Rewarded(old(View()), voter, bp, reward, Whole(reward)) else old(View())
      ensures ok ==> RewardEffect(old(View()), View(), voter, bp, reward, reward - reward % 100000)
      ensures ok ==> bps[bp].rewards == old(bps)[bp].rewards - reward && Differs(old(bps), bps, bp)
    {
      if bp !in bps || bp in genesis || !bps[bp].active { return false; }
      if (voter, bp) !in votes || !available || !(0 < reward <= bps[bp].rewards) { return false; }
      var whole := reward - reward % 100000;
      WholeIsWhole(reward, whole);
      RewardedExactly(View(), voter, bp, reward, whole);
      TakeReward((voter, bp), reward, whole);
      return true;
    }

    /** Pays a reward out, if the system account has the funds. */
    method Claim(voter: Account, bp: Account, available: bool, reward: int, funds: int) returns (ok: bool)
      requires Valid()
      modifies this
      ensures Valid()
      ensures ok == (available && CanClaim(old(View()), voter, bp, reward) && reward <= funds)
      ensures View() == if ok then Rewarded(old(View()), voter, bp, reward, 0) else old(View())
      ensures ok ==> RewardEffect(old(View()), View(), voter, bp, reward, 0)
      ensures ok ==> bps[bp].rewards == old(bps)[bp].rewards - reward && Differs(old(bps), bps, bp)
    {
      if bp !in bps || (voter, bp) !in votes || !available || !(0 < reward <= bps[bp].rewards) { return false; }
      if funds < reward { return false; }
      RewardedExactly(View(), voter, bp, reward, 0);
      TakeReward((voter, bp), reward, 0);
      return true;
    }
  }
}
