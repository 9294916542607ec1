/** Delegated bandwidth (contracts/noc.system/delegate_bandwidth.cpp): the ledger of who staked how much for whom, the
    per-receiver totals, the open refunds, and the token transfers that go with them. Amounts are unbounded. A failed
    assertion, also one in an inline transfer, leaves every table as it was. The balance a payer has when a transfer
    runs, less what it has frozen or voted, is a parameter (contracts/noc.token/noc.token.cpp, sub_balance). */
module Staking {
  import opened Names
  import opened Sums

  datatype Stake = Stake(net: int, cpu: int) {
    function Weight(): int { net + cpu }
    predicate NonNegative() { net >= 0 && cpu >= 0 }
  }
  datatype Resources = Resources(net: int, cpu: int, ram: int)
  datatype Refund = Refund(net: int, cpu: int, time: nat)
  datatype Transfer = Transfer(from: Account, to: Account, amount: int)
  type Link = (Account, Account)

  const ZERO := Stake(0, 0)
  const REFUND_DELAY: nat := 3 * 24 * 3600

  // ---------- rows read with their default, sums over tables ----------

  function RowOf(m: map<Link, Stake>, k: Link): Stake { if k in m then m[k] else ZERO }

  /** The row `k` once `d` is added to it. */
  function RowAfter(m: map<Link, Stake>, k: Link, d: Stake): Stake {
    Stake(RowOf(m, k).net + d.net, RowOf(m, k).cpu + d.cpu)
  }

  function TotalOf(m: map<Account, Resources>, r: Account): Resources {
    if r in m then m[r] else Resources(0, 0, 0)
  }

  function RefundOf(m: map<Account, Refund>, a: Account): Refund { if a in m then m[a] else Refund(0, 0, 0) }

  ghost function NetTo(m: map<Link, Stake>, r: Account): Link -> int {
    (k: Link) => if k.1 == r then RowOf(m, k).net else 0
  }

  ghost function CpuTo(m: map<Link, Stake>, r: Account): Link -> int {
    (k: Link) => if k.1 == r then RowOf(m, k).cpu else 0
  }

  /** Everything delegated to `r`. */
  ghost function DelegatedTo(m: map<Link, Stake>, r: Account): Stake {
    Stake(Sum(m.Keys, NetTo(m, r)), Sum(m.Keys, CpuTo(m, r)))
  }

  ghost function Staked(m: map<Link, Stake>): Link -> int { (k: Link) => RowOf(m, k).Weight() }

  ghost function Owed(m: map<Account, Refund>): Account -> int { a => RefundOf(m, a).net + RefundOf(m, a).cpu }

  /** All delegations, and all open refunds. */
  ghost function Delegated(m: map<Link, Stake>): int { Sum(m.Keys, Staked(m)) }

  ghost function Open(m: map<Account, Refund>): int { Sum(m.Keys, Owed(m)) }

  /** What the transfers moved into `system`, less what they moved out of it. */
  function Moved(ts: seq<Transfer>, system: Account): int {
    if ts == [] then 0
    else
      var t := ts[|ts| - 1];
      Moved(ts[..|ts| - 1], system)
      + (if t.to == system then t.amount else 0) - (if t.from == system then t.amount else 0)
  }

  // ---------- one row at a time ----------

  /** A row is written, or erased when both weights are zero. */
  function WithRow(m: map<Link, Stake>, k: Link, s: Stake): map<Link, Stake> {
    if s == ZERO then m - {k} else m[k := s]
  }

  function WithTotal(m: map<Account, Resources>, r: Account, t: Resources): map<Account, Resources> {
    if t == Resources(0, 0, 0) then m - {r} else m[r := t]
  }

  function WithRefund(m: map<Account, Refund>, a: Account, f: Refund): map<Account, Refund> {
    if f.net == 0 && f.cpu == 0 then m - {a} else m[a := f]
  }

  lemma DelegatedChanges(m: map<Link, Stake>, n: map<Link, Stake>, k: Link)
    requires Differs(m, n, k)
    ensures Delegated(n) == Delegated(m) - RowOf(m, k).Weight() + RowOf(n, k).Weight()
  {
    Change(m.Keys, n.Keys, Staked(m), Staked(n), k);
  }

  lemma NetChanges(m: map<Link, Stake>, n: map<Link, Stake>, k: Link, r: Account)
    requires Differs(m, n, k)
    ensures DelegatedTo(n, r).net
         == DelegatedTo(m, r).net + if r == k.1 then RowOf(n, k).net - RowOf(m, k).net else 0
  {
    Change(m.Keys, n.Keys, NetTo(m, r), NetTo(n, r), k);
  }

  lemma CpuChanges(m: map<Link, Stake>, n: map<Link, Stake>, k: Link, r: Account)
    requires Differs(m, n, k)
    ensures DelegatedTo(n, r).cpu
         == DelegatedTo(m, r).cpu + if r == k.1 then RowOf(n, k).cpu - RowOf(m, k).cpu else 0
  {
    Change(m.Keys, n.Keys, CpuTo(m, r), CpuTo(n, r), k);
  }

  lemma OpenChanges(m: map<Account, Refund>, n: map<Account, Refund>, a: Account)
    requires Differs(m, n, a)
    ensures Open(n) == Open(m) - Owed(m)(a) + Owed(n)(a)
  {
    Change(m.Keys, n.Keys, Owed(m), Owed(n), a);
  }

  ghost predicate RowsPositive(m: map<Link, Stake>) { forall k <- m :: m[k].NonNegative() && m[k] != ZERO }

  ghost predicate RefundsPositive(m: map<Account, Refund>) {
    forall a <- m :: m[a].net >= 0 && m[a].cpu >= 0 && (m[a].net > 0 || m[a].cpu > 0)
  }

  /** Every receiver's totals are the sums of the delegations to it. */
  ghost predicate TotalsMatch(t: map<Account, Resources>, m: map<Link, Stake>) {
    forall r: Account :: Matches(t, m, r)
  }

  ghost predicate Matches(t: map<Account, Resources>, m: map<Link, Stake>, r: Account) {
    TotalOf(t, r).net == DelegatedTo(m, r).net && TotalOf(t, r).cpu == DelegatedTo(m, r).cpu
  }

  /** Limits are set for every account that has totals, and the limits last set for an account are its totals. */
  ghost predicate LimitsMatch(l: map<Account, Resources>, t: map<Account, Resources>) {
    t.Keys <= l.Keys && forall r <- l :: l[r] == TotalOf(t, r)
  }

  /** Delegations, totals and limits fit each other. */
  ghost predicate Tables(m: map<Link, Stake>, t: map<Account, Resources>, l: map<Account, Resources>) {
    RowsPositive(m) && TotalsMatch(t, m) && LimitsMatch(l, t)
  }

  /** What was moved in and what was given is what is delegated and what is owed. */
  ghost predicate Balanced(ts: seq<Transfer>, system: Account, given: int, m: map<Link, Stake>,
                           refunds: map<Account, Refund>)
  {
    Moved(ts, system) + given == Delegated(m) + Open(refunds)
  }

  /** The transfers made meet a stake of `weight` and the change of the refunds. */
  ghost predicate Meets(ts: seq<Transfer>, refunds: map<Account, Refund>, ts': seq<Transfer>,
                        refunds': map<Account, Refund>, system: Account, weight: int)
  {
    Moved(ts', system) == Moved(ts, system) + weight + Open(refunds') - Open(refunds)
  }

  lemma StaysBalancedPaid(ts: seq<Transfer>, refunds: map<Account, Refund>, ts': seq<Transfer>,
                          refunds': map<Account, Refund>, system: Account, given: int, m: map<Link, Stake>, k: Link,
                          d: Stake, n: map<Link, Stake>)
    requires Balanced(ts, system, given, m, refunds) && Meets(ts, refunds, ts', refunds', system, d.Weight())
    requires n == WithRow(m, k, RowAfter(m, k, d))
    ensures Balanced(ts', system, given, n, refunds')
  {
    DelegatedBy(m, k, d, n);
  }

  lemma StaysBalancedGiven(ts: seq<Transfer>, refunds: map<Account, Refund>, system: Account, given: int,
                           m: map<Link, Stake>, k: Link, d: Stake, n: map<Link, Stake>)
    requires Balanced(ts, system, given, m, refunds) && n == WithRow(m, k, RowAfter(m, k, d))
    ensures Balanced(ts, system, given + d.Weight(), n, refunds)
  {
    DelegatedBy(m, k, d, n);
  }

  /** A receiver's total covers every single delegation to it. */
  lemma TotalCoversRow(m: map<Link, Stake>, k: Link)
    requires RowsPositive(m)
    ensures 0 <= RowOf(m, k).net <= DelegatedTo(m, k.1).net && 0 <= RowOf(m, k).cpu <= DelegatedTo(m, k.1).cpu
  {
    NonNegative(m.Keys, NetTo(m, k.1));
    NonNegative(m.Keys, CpuTo(m, k.1));
  }

  /** Once the changed row is not negative, the changed totals of its receiver are not negative either. */
  lemma TotalsStayCovered(t: map<Account, Resources>, m: map<Link, Stake>, k: Link, d: Stake, n: map<Link, Stake>)
    requires RowsPositive(m) && TotalsMatch(t, m) && RowAfter(m, k, d).NonNegative()
    requires n == WithRow(m, k, RowAfter(m, k, d))
    ensures RowsPositive(n)
    ensures TotalOf(t, k.1).net + d.net >= 0 && TotalOf(t, k.1).cpu + d.cpu >= 0
  {
    assert Matches(t, m, k.1);
    NetChanges(m, n, k, k.1);
    CpuChanges(m, n, k, k.1);
    TotalCoversRow(n, k);
  }

  lemma NetBy(m: map<Link, Stake>, k: Link, d: Stake, n: map<Link, Stake>, r: Account)
    requires n == WithRow(m, k, RowAfter(m, k, d))
    ensures DelegatedTo(n, r).net == DelegatedTo(m, r).net + if r == k.1 then d.net else 0
  {
    NetChanges(m, n, k, r);
  }

  lemma CpuBy(m: map<Link, Stake>, k: Link, d: Stake, n: map<Link, Stake>, r: Account)
    requires n == WithRow(m, k, RowAfter(m, k, d))
    ensures DelegatedTo(n, r).cpu == DelegatedTo(m, r).cpu + if r == k.1 then d.cpu else 0
  {
    CpuChanges(m, n, k, r);
  }

  lemma RaisedTotal(t: map<Account, Resources>, a: Account, d: Stake, u: map<Account, Resources>, r: Account)
    requires u == WithTotal(t, a, Raised(t, a, d))
    ensures TotalOf(u, r).net == TotalOf(t, r).net + if r == a then d.net else 0
    ensures TotalOf(u, r).cpu == TotalOf(t, r).cpu + if r == a then d.cpu else 0
  {
  }

  lemma StillMatches(t: map<Account, Resources>, m: map<Link, Stake>, k: Link, d: Stake, n: map<Link, Stake>,
                     u: map<Account, Resources>, r: Account)
    requires Matches(t, m, r) && n == WithRow(m, k, RowAfter(m, k, d))
    requires u == WithTotal(t, k.1, Raised(t, k.1, d))
    ensures Matches(u, n, r)
  {
    RaisedTotal(t, k.1, d, u, r);
    NetBy(m, k, d, n, r);
    CpuBy(m, k, d, n, r);
  }

  lemma TotalsStillMatch(t: map<Account, Resources>, m: map<Link, Stake>, k: Link, d: Stake, n: map<Link, Stake>,
                         u: map<Account, Resources>)
    requires TotalsMatch(t, m) && n == WithRow(m, k, RowAfter(m, k, d))
    requires u == WithTotal(t, k.1, Raised(t, k.1, d))
    ensures TotalsMatch(u, n)
  {
    forall r: Account ensures Matches(u, n, r) { StillMatches(t, m, k, d, n, u, r); }
  }

  lemma LimitsStillMatch(l: map<Account, Resources>, t: map<Account, Resources>, r: Account, x: Resources)
    requires LimitsMatch(l, t)
    ensures LimitsMatch(l[r := x], WithTotal(t, r, x))
  {
  }

  lemma DelegatedBy(m: map<Link, Stake>, k: Link, d: Stake, n: map<Link, Stake>)
    requires n == WithRow(m, k, RowAfter(m, k, d))
    ensures Delegated(n) == Delegated(m) + d.Weight()
  {
    DelegatedChanges(m, n, k);
  }

  /** The totals row of `r` after a change of `d`. */
  function Raised(t: map<Account, Resources>, r: Account, d: Stake): Resources {
    var row := TotalOf(t, r);
    Resources(row.net + d.net, row.cpu + d.cpu, row.ram)
  }

  // ---------- the sign checks ----------

  function AbsOf(x: int): int { if x < 0 then -x else x }
  function MaxOf(x: int, y: int): int { if x < y then y else x }

  /** The two checks at the head of changebw let through exactly the non-zero changes of one sign. */
  predicate Changes(d: Stake) {
    d != ZERO && AbsOf(d.net + d.cpu) >= MaxOf(AbsOf(d.net), AbsOf(d.cpu))
  }

  lemma ChangesHaveOneSign(d: Stake)
    ensures Changes(d) <==> d != ZERO && (d.NonNegative() || (d.net <= 0 && d.cpu <= 0))
  {
  }

  // ---------- refunds ----------

  /** A refund after `d` was staked out of it, or unstaked into it. */
  function Settled(r: Refund, d: Stake, now: nat): Refund {
    Refund(MaxOf(0, r.net - d.net), MaxOf(0, r.cpu - d.cpu), if d.net < 0 || d.cpu < 0 then now else r.time)
  }

  /** The part of `d` that the refund does not cover and the staker pays. */
  function Uncovered(r: Refund, d: Stake): Stake { Stake(MaxOf(0, d.net - r.net), MaxOf(0, d.cpu - r.cpu)) }

  /** The delegation that changes: the receiver's to itself when the stake is given away. */
  function LinkOf(source: Account, receiver: Account, transfer: bool): Link {
    (if transfer then receiver else source, receiver)
  }

  /** Net and cpu are added to the row `k`, and every other row is as before. */
  ghost predicate RowMoves(m: map<Link, Stake>, n: map<Link, Stake>, k: Link, net: int, cpu: int) {
    && RowOf(n, k).net == RowOf(m, k).net + net && RowOf(n, k).cpu == RowOf(m, k).cpu + cpu
    && Differs(m, n, k)
  }

  /** Net and cpu are added to the totals of `r`, and every other row is as before. */
  ghost predicate TotalMoves(t: map<Account, Resources>, u: map<Account, Resources>, r: Account, net: int, cpu: int) {
    && TotalOf(u, r) == Resources(TotalOf(t, r).net + net, TotalOf(t, r).cpu + cpu, TotalOf(t, r).ram)
    && Differs(t, u, r)
  }

  /** Only the row `k` changed, and by `d`. */
  ghost predicate Delegates(m: map<Link, Stake>, n: map<Link, Stake>, k: Link, d: Stake) {
    n == WithRow(m, k, RowAfter(m, k, d))
  }

  /** Unstaking, and staking to oneself, goes through the staker's refund; nothing else touches refunds. */
  predicate ViaRefund(source: Account, receiver: Account, d: Stake, transfer: bool) {
    d.net + d.cpu < 0 || (!transfer && source == receiver)
  }

  function RefundsAfter(m: map<Account, Refund>, a: Account, d: Stake, via: bool, now: nat): map<Account, Refund> {
    if via then WithRefund(m, a, Settled(RefundOf(m, a), d, now)) else m
  }

  /** The part of a change that has to be paid for: all of it, unless a refund covers some. */
  function Charge(r: Refund, d: Stake, via: bool): int {
    if via then MaxOf(0, d.net - r.net) + MaxOf(0, d.cpu - r.cpu) else d.net + d.cpu
  }

  /** A transfer of nothing is not made; any other needs the funds. */
  predicate Affords(funds: int, amount: int) { amount > 0 ==> amount <= funds }

  function Payment(system: Account, source: Account, amount: int): seq<Transfer> {
    if amount > 0 then [Transfer(source, system, amount)] else []
  }

  /** What a change adds to the delegations is what is paid for it and what the refund falls by. */
  lemma ChargeBalances(r: Refund, d: Stake, via: bool, now: nat)
    requires r.net >= 0 && r.cpu >= 0 && Changes(d) && (d.net + d.cpu < 0 ==> via)
    ensures Charge(r, d, via) >= 0
    ensures via ==> d.Weight() == Charge(r, d, via) + r.net + r.cpu - Settled(r, d, now).net - Settled(r, d, now).cpu
  {
    ChangesHaveOneSign(d);
  }

  /** What is charged meets the stake and the change of the refunds, which stay positive. */
  lemma PaymentMeets(ts: seq<Transfer>, m: map<Account, Refund>, n: map<Account, Refund>, system: Account,
                     source: Account, a: Account, d: Stake, via: bool, now: nat, amount: int)
    requires RefundsPositive(m) && Changes(d) && (d.net + d.cpu < 0 ==> via) && source != system
    requires n == RefundsAfter(m, a, d, via, now) && amount == Charge(RefundOf(m, a), d, via)
    ensures RefundsPositive(n) && Meets(ts, m, ts + Payment(system, source, amount), n, system, d.Weight())
  {
    ChargeBalances(RefundOf(m, a), d, via, now);
    if via { OpenChanges(m, n, a); }
    if amount > 0 { assert (ts + Payment(system, source, amount))[..|ts|] == ts; } else { assert ts + [] == ts; }
  }

  /** What is left to pay for a stake when the refund covers what it can of either resource. */
  function Due(r: Refund, net: int, cpu: int): int {
    (if net > r.net then net - r.net else 0) + if cpu > r.cpu then cpu - r.cpu else 0
  }

  /** Net and cpu are taken from the refund of `a` as far as it reaches; what is left of it keeps its time. */
  ghost predicate UsesRefund(m: map<Account, Refund>, n: map<Account, Refund>, a: Account, net: int, cpu: int) {
    && Differs(m, n, a) && (a in n ==> a in m && n[a].time == m[a].time)
    && RefundOf(n, a).net == MaxOf(0, RefundOf(m, a).net - net)
    && RefundOf(n, a).cpu == MaxOf(0, RefundOf(m, a).cpu - cpu)
  }

  /** What a stake costs: what the refund does not cover if it is for oneself, else all of it. */
  lemma StakeCosts(r: Refund, receiver: Account, from: Account, net: int, cpu: int, transfer: bool, d: Stake)
    requires net >= 0 && cpu >= 0 && net + cpu > 0 && !(transfer && from == receiver) && d == Stake(net, cpu)
    ensures Changes(d) && ViaRefund(from, receiver, d, transfer) == (from == receiver)
    ensures Charge(r, d, true) == Due(r, net, cpu) >= 0 && Charge(r, d, false) == net + cpu
  {
    ChangesHaveOneSign(d);
  }

  lemma StakingKeepsTime(m: map<Account, Refund>, n: map<Account, Refund>, a: Account, net: int, cpu: int, d: Stake,
                         now: nat)
    requires RefundsPositive(m) && net >= 0 && cpu >= 0 && net + cpu > 0 && d == Stake(net, cpu)
    requires n == RefundsAfter(m, a, d, true, now)
    ensures UsesRefund(m, n, a, net, cpu)
  {
  }

  lemma RowMoved(m: map<Link, Stake>, n: map<Link, Stake>, k: Link, d: Stake)
    requires Delegates(m, n, k, d)
    ensures RowMoves(m, n, k, d.net, d.cpu)
  {
  }

  lemma TotalMoved(t: map<Account, Resources>, u: map<Account, Resources>, r: Account, d: Stake)
    requires u == WithTotal(t, r, Raised(t, r, d))
    ensures TotalMoves(t, u, r, d.net, d.cpu)
  {
  }

  /** Unstaking costs nothing and adds to the refund, which waits anew. */
  lemma UnstakingIsFree(r: Refund, net: int, cpu: int, now: nat)
    requires r.net >= 0 && r.cpu >= 0 && net >= 0 && cpu >= 0 && net + cpu > 0
    ensures var d := Stake(-net, -cpu);
            && Changes(d) && Charge(r, d, true) == 0 && Settled(r, d, now) == Refund(r.net + net, r.cpu + cpu, now)
  {
    ChangesHaveOneSign(Stake(-net, -cpu));
  }

  /** All open refunds together cover every single one, and fall by it when it is paid. */
  lemma RefundLeaves(m: map<Account, Refund>, a: Account, n: map<Account, Refund>)
    requires RefundsPositive(m) && a in m && n == m - {a}
    ensures 0 < m[a].net + m[a].cpu <= Open(m) && Open(n) == Open(m) - (m[a].net + m[a].cpu) && RefundsPositive(n)
  {
    NonNegative(m.Keys, Owed(m));
    OpenChanges(m, n, a);
  }

  lemma DelegatedNotNegative(m: map<Link, Stake>)
    requires RowsPositive(m)
    ensures Delegated(m) >= 0
  {
    NonNegative(m.Keys, Staked(m));
  }

  /** Unstaking what was staked restores the row, and leaves no row where there was none. */
  lemma UnstakeUndoesStake(m: map<Link, Stake>, k: Link, d: Stake, n: map<Link, Stake>, l: map<Link, Stake>)
    requires RowsPositive(m) && d.NonNegative()
    requires Delegates(m, n, k, d) && Delegates(n, l, k, Stake(-d.net, -d.cpu))
    ensures l == m
  {
    assert RowAfter(n, k, Stake(-d.net, -d.cpu)) == RowOf(m, k);
    if k !in m { assert m - {k} == m; } else { assert m[k := m[k]] == m; }
  }

  datatype Op =
    | Delegate(from: Account, receiver: Account, net: int, cpu: int, transfer: bool)
    | Undelegate(from: Account, receiver: Account, net: int, cpu: int)
    | Claim(owner: Account)

  // ---------- how long refunds wait ----------

  predicate Unstakes(op: Op, ok: bool, a: Account) { ok && op.Undelegate? && op.from == a }

  /** Action `i` is the last one before `j` in which `a` unstaked. */
  ghost predicate LastUnstake(ops: seq<(Op, int, nat)>, oks: seq<bool>, i: int, j: int, a: Account) {
    && 0 <= i < j <= |ops| == |oks| && Unstakes(ops[i].0, oks[i], a)
    && forall x | i < x < j :: !Unstakes(ops[x].0, oks[x], a)
  }

  /** Every open refund carries the time of its owner's last unstake. */
  ghost predicate Waiting(ops: seq<(Op, int, nat)>, oks: seq<bool>, refunds: map<Account, Refund>) {
    forall i, a | LastUnstake(ops, oks, i, |ops|, a) && a in refunds :: refunds[a].time == ops[i].2
  }

  /** Action `j` pays the refund of `a`. */
  predicate Pays(ops: seq<(Op, int, nat)>, oks: seq<bool>, j: int, a: Account) {
    0 <= j < |ops| == |oks| && oks[j] && ops[j].0 == Claim(a)
  }

  /** No refund was paid within three days of its owner's last unstake. */
  ghost predicate AllWaited(ops: seq<(Op, int, nat)>, oks: seq<bool>) {
    forall i, j, a | LastUnstake(ops, oks, i, j, a) && Pays(ops, oks, j, a) :: ops[i].2 + 3 * 24 * 3600 <= ops[j].2
  }

  lemma SameLast(ops: seq<(Op, int, nat)>, oks: seq<bool>, op: (Op, int, nat), ok: bool, i: int, j: int, a: Account)
    requires |ops| == |oks| && j <= |ops|
    ensures LastUnstake(ops + [op], oks + [ok], i, j, a) <==> LastUnstake(ops, oks, i, j, a)
  {
    var more, all := ops + [op], oks + [ok];
    forall x | 0 <= x < j ensures more[x] == ops[x] && all[x] == oks[x] {}
    if LastUnstake(more, all, i, j, a) {
      forall x | i < x < j ensures !Unstakes(ops[x].0, oks[x], a) { assert !Unstakes(more[x].0, all[x], a); }
    }
  }

  lemma StillWaiting(ops: seq<(Op, int, nat)>, oks: seq<bool>, m: map<Account, Refund>, op: (Op, int, nat), ok: bool,
                     n: map<Account, Refund>)
    requires |ops| == |oks| && Waiting(ops, oks, m)
    requires forall a <- n :: if Unstakes(op.0, ok, a) then n[a].time == op.2 else a in m && n[a].time == m[a].time
    ensures Waiting(ops + [op], oks + [ok], n)
  {
    var more, all := ops + [op], oks + [ok];
    forall i, a | LastUnstake(more, all, i, |more|, a) && a in n ensures n[a].time == more[i].2 {
      if i < |ops| {
        assert !Unstakes(more[|ops|].0, all[|ops|], a);
        assert LastUnstake(more, all, i, |ops|, a);
        SameLast(ops, oks, op, ok, i, |ops|, a);
      }
    }
  }

  lemma StillWaited(ops: seq<(Op, int, nat)>, oks: seq<bool>, m: map<Account, Refund>, op: (Op, int, nat), ok: bool)
    requires |ops| == |oks| && Waiting(ops, oks, m) && AllWaited(ops, oks)
    requires ok && op.0.Claim? ==> op.0.owner in m && m[op.0.owner].time + 259200 <= op.2
    ensures AllWaited(ops + [op], oks + [ok])
  {
    var more, all := ops + [op], oks + [ok];
    forall i, j, a | LastUnstake(more, all, i, j, a) && Pays(more, all, j, a)
      ensures more[i].2 + 3 * 24 * 3600 <= more[j].2
    {
      SameLast(ops, oks, op, ok, i, j, a);
      if j < |ops| { assert Pays(ops, oks, j, a); }
    }
  }

  class Ledger {
    const system: Account
    var delband: map<Link, Stake>
    var totals: map<Account, Resources>
    var limits: map<Account, Resources>
    var refunds: map<Account, Refund>
    var transfers: seq<Transfer>
    /** What the system account staked, less what it unstaked: it pays for neither and gets no refund. */
    ghost var given: int

    /** Rows are positive; totals are the sums of delegations; refunds are positive; the limits last set are the
        totals; and the tokens moved in, with those given, are exactly the delegations and the open refunds. */
    ghost predicate Valid()
      reads this
    {
      && Tables(delband, totals, limits) && RefundsPositive(refunds) && system !in refunds
      && Balanced(transfers, system, given, delband, refunds)
    }

    constructor (system: Account)
      ensures Valid() && delband == map[] && totals == map[] && refunds == map[] && transfers == []
      ensures this.system == system && given == 0
    {
      this.system := system;
      delband, totals, limits, refunds, transfers, given := map[], map[], map[], map[], [], 0;
    }

    /** Updates the stake delegated along `k`; fails when a weight would become negative. */
    method ChangeRow(k: Link, d: Stake) returns (ok: bool)
      modifies this`delband
      ensures ok <==> RowAfter(old(delband), k, d).NonNegative()
      ensures delband == if ok then WithRow(old(delband), k, RowAfter(old(delband), k, d)) else old(delband)
    {
      var saved := delband;
      if k !in delband {
        delband := delband[k := d];
      } else {
        delband := delband[k := Stake(delband[k].net + d.net, delband[k].cpu + d.cpu)];
      }
      ok := delband[k].net >= 0 && delband[k].cpu >= 0;
      if !ok {
        delband := saved;
      } else if delband[k].net == 0 && delband[k].cpu == 0 {
        delband := delband - {k};
        assert delband == saved - {k};
      }
    }

    /** Updates the totals of `r` and sets its resource limits from them. */
    method ChangeTotals(r: Account, d: Stake) returns (ok: bool)
      modifies this`totals, this`limits
      ensures ok <==> TotalOf(old(totals), r).net + d.net >= 0 && TotalOf(old(totals), r).cpu + d.cpu >= 0
      ensures !ok ==> totals == old(totals) && limits == old(limits)
      ensures ok ==>
        var t := Raised(old(totals), r, d);
        totals == WithTotal(old(totals), r, t) && limits == old(limits)[r := t]
    {
      var saved := totals;
      if r !in totals {
        totals := totals[r := Resources(d.net, d.cpu, 0)];
      } else {
        var t := totals[r];
        totals := totals[r := Resources(t.net + d.net, t.cpu + d.cpu, t.ram)];
      }
      var t := totals[r];
      ok := t.net >= 0 && t.cpu >= 0;
      if !ok {
        totals := saved;
        return;
      }
      limits := limits[r := t];
      if t.net == 0 && t.cpu == 0 && t.ram == 0 {
        totals := totals - {r};
        assert totals == saved - {r};
      }
    }

    /** Takes `d` out of the open refund of `a`, or adds to it when `d` is negative; `rest` is what the refund did not
        cover. The checks that the refund is not negative always pass. */
    method SettleRefund(a: Account, d: Stake, now: nat) returns (rest: Stake, ok: bool)
      requires RefundsPositive(refunds) && Changes(d)
      modifies this`refunds
      ensures ok && rest == Uncovered(RefundOf(old(refunds), a), d)
      ensures refunds == WithRefund(old(refunds), a, Settled(RefundOf(old(refunds), a), d, now))
    {
      var net, cpu, saved := d.net, d.cpu, refunds;
      ok := true;
      if a in refunds {
        var r := refunds[a];
        if net < 0 || cpu < 0 { r := r.(time := now); }
        r := r.(net := r.net - net);
        if r.net < 0 { net := -r.net; r := r.(net := 0); } else { net := 0; }
        r := r.(cpu := r.cpu - cpu);
        if r.cpu < 0 { cpu := -r.cpu; r := r.(cpu := 0); } else { cpu := 0; }
        refunds := refunds[a := r];
        ok := r.net >= 0 && r.cpu >= 0;
        if r.net == 0 && r.cpu == 0 {
          refunds := refunds - {a};
          assert refunds == saved - {a};
        }
      } else if net < 0 || cpu < 0 {
        var r := Refund(0, 0, 0);
        if net < 0 { r := r.(net := -net); net := 0; }
        if cpu < 0 { r := r.(cpu := -cpu); cpu := 0; }
        refunds := refunds[a := r.(time := now)];
      } else {
        assert refunds - {a} == refunds;
      }
      rest := Stake(net, cpu);
    }

    /** Rows, totals and limits together: the checks on the totals never fail once the row check passes. */
    method ChangeStake(k: Link, d: Stake) returns (ok: bool)
      requires Tables(delband, totals, limits)
      modifies this`delband, this`totals, this`limits
      ensures ok <==> RowAfter(old(delband), k, d).NonNegative()
      ensures !ok ==> delband == old(delband) && totals == old(totals) && limits == old(limits)
      ensures ok ==> delband == WithRow(old(delband), k, RowAfter(old(delband), k, d))
      ensures ok ==> totals == WithTotal(old(totals), k.1, Raised(old(totals), k.1, d))
      ensures Tables(delband, totals, limits)
    {
      ok := ChangeRow(k, d);
      if !ok { return; }
      TotalsStayCovered(totals, old(delband), k, d, delband);
      ok := ChangeTotals(k.1, d);
      TotalsStillMatch(old(totals), old(delband), k, d, delband, totals);
      LimitsStillMatch(old(limits), old(totals), k.1, Raised(old(totals), k.1, d));
    }

    /** Refund and payment: what is staked is taken from the open refund or paid in, what is unstaked becomes a
        refund. Fails when the payment does. */
    method Pay(source: Account, a: Account, d: Stake, via: bool, funds: int, now: nat) returns (ok: bool)
      requires RefundsPositive(refunds) && system !in refunds && Changes(d) && source != system
      requires (d.net + d.cpu < 0 ==> via) && (via ==> a != system)
      modifies this`refunds, this`transfers
      ensures RefundsPositive(refunds) && system !in refunds
      ensures ok <==> Affords(funds, Charge(RefundOf(old(refunds), a), d, via))
      ensures !ok ==> refunds == old(refunds) && transfers == old(transfers)
      ensures ok ==> refunds == RefundsAfter(old(refunds), a, d, via, now)
      ensures ok ==> transfers == old(transfers) + Payment(system, source, Charge(RefundOf(old(refunds), a), d, via))
      ensures ok ==> Meets(old(transfers), old(refunds), transfers, refunds, system, d.Weight())
    {
      var rest, saved := d, refunds;
      if via { rest, ok := SettleRefund(a, d, now); }
      var amount := rest.net + rest.cpu;
      assert amount == Charge(RefundOf(old(refunds), a), d, via);
      PaymentMeets(transfers, saved, refunds, system, source, a, d, via, now, amount);
      ok := Affords(funds, amount);
      if !ok {
        refunds := saved;
      } else if amount > 0 {
        transfers := transfers + [Transfer(source, system, amount)];
      }
    }

    /** Stake, then payment; the tables of the stake are not restored here when the payment fails. */
    method StakeAndPay(source: Account, k: Link, d: Stake, via: bool, funds: int, now: nat) returns (ok: bool)
      requires Valid() && Changes(d) && source != system && (d.net + d.cpu < 0 ==> via) && (via ==> k.0 != system)
      modifies this`delband, this`totals, this`limits, this`refunds, this`transfers
      ensures ok ==> Valid()
      ensures ok <==> RowAfter(old(delband), k, d).NonNegative() &&
                      Affords(funds, Charge(RefundOf(old(refunds), k.0), d, via))
      ensures !ok ==> refunds == old(refunds) && transfers == old(transfers)
      ensures ok ==> delband == WithRow(old(delband), k, RowAfter(old(delband), k, d))
      ensures ok ==> totals == WithTotal(old(totals), k.1, Raised(old(totals), k.1, d))
      ensures ok ==> refunds == RefundsAfter(old(refunds), k.0, d, via, now)
      ensures ok ==>
        transfers == old(transfers) + Payment(system, source, Charge(RefundOf(old(refunds), k.0), d, via))
    {
      ok := ChangeStake(k, d);
      if ok { ok := Pay(source, k.0, d, via, funds, now); }
      if ok {
        StaysBalancedPaid(old(transfers), old(refunds), transfers, refunds, system, given, old(delband), k, d, delband);
      }
    }

    /** The change requested by an account other than the system's. */
    method ChangePaid(source: Account, receiver: Account, d: Stake, transfer: bool, funds: int, now: nat)
      returns (ok: bool)
      requires Valid() && source != system && Changes(d) && (transfer ==> d.NonNegative())
      modifies this`delband, this`totals, this`limits, this`refunds, this`transfers
      ensures Valid()
      ensures
        var k, via := LinkOf(source, receiver, transfer), ViaRefund(source, receiver, d, transfer);
        var r := RefundOf(old(refunds), k.0);
        && (ok <==> RowAfter(old(delband), k, d).NonNegative() && Affords(funds, Charge(r, d, via)))
        && (ok ==> refunds == RefundsAfter(old(refunds), k.0, d, via, now))
        && (ok ==> transfers == old(transfers) + Payment(system, source, Charge(r, d, via)))
      ensures !ok ==> unchanged(this)
      ensures ok ==> Delegates(old(delband), delband, LinkOf(source, receiver, transfer), d)
      ensures ok ==> totals == WithTotal(old(totals), receiver, Raised(old(totals), receiver, d))
    {
      var from := if transfer then receiver else source;
      var rows, sums, caps := delband, totals, limits;
      ok := StakeAndPay(source, (from, receiver), d, d.net + d.cpu < 0 || (!transfer && from == receiver), funds, now);
      if !ok { delband, totals, limits := rows, sums, caps; }
    }

    /** The change requested by the system account: no refund and no payment. */
    method ChangeGiven(k: Link, d: Stake) returns (ok: bool)
      requires Valid()
      modifies this`delband, this`totals, this`limits, this`given
      ensures ok ==> Valid()
      ensures ok <==> RowAfter(old(delband), k, d).NonNegative()
      ensures !ok ==> unchanged(this)
      ensures ok ==> Delegates(old(delband), delband, k, d) && given == old(given) + d.Weight()
      ensures ok ==> totals == WithTotal(old(totals), k.1, Raised(old(totals), k.1, d))
    {
      ok := ChangeStake(k, d);
      if ok {
        StaysBalancedGiven(transfers, refunds, system, given, old(delband), k, d, delband);
        given := given + d.Weight();
      }
    }

    /** The change common to staking and unstaking, requested by `source`. It goes through exactly when the change is
        not zero, has one sign, leaves the delegation row not negative and can be paid for: the other checks never
        fail. The system account pays nothing and gets no refund. */
    method ChangeBw(source: Account, receiver: Account, d: Stake, transfer: bool, funds: int, now: nat)
      returns (ok: bool)
      requires Valid() && (transfer ==> d.NonNegative())
      modifies this
      ensures Valid()
      ensures
        var k, via := LinkOf(source, receiver, transfer), ViaRefund(source, receiver, d, transfer);
        ok <==>
        && Changes(d) && RowAfter(old(delband), k, d).NonNegative()
        && (source == system || Affords(funds, Charge(RefundOf(old(refunds), k.0), d, via)))
      ensures !ok ==> unchanged(this)
      ensures ok ==> Delegates(old(delband), delband, LinkOf(source, receiver, transfer), d)
      ensures ok ==> totals == WithTotal(old(totals), receiver, Raised(old(totals), receiver, d))
      ensures ok && source == system ==>
        refunds == old(refunds) && transfers == old(transfers) && given == old(given) + d.Weight()
      ensures ok && source != system ==>
        var a, via := LinkOf(source, receiver, transfer).0, ViaRefund(source, receiver, d, transfer);
        && refunds == RefundsAfter(old(refunds), a, d, via, now) && given == old(given)
        && transfers == old(transfers) + Payment(system, source, Charge(RefundOf(old(refunds), a), d, via))
    {
      if !Changes(d) { return false; }
      if source == system {
        ok := ChangeGiven((if transfer then receiver else source, receiver), d);
      } else {
        ok := ChangePaid(source, receiver, d, transfer, funds, now);
      }
    }

    /** Stakes non-negative amounts, not both zero, for `receiver`, if `from` can pay for what its refund does not
        cover. */
    method DelegateBw(from: Account, receiver: Account, net: int, cpu: int, transfer: bool, funds: int, now: nat)
      returns (ok: bool)
      requires Valid()
      modifies this
      ensures Valid()
      ensures ok <==>
        && net >= 0 && cpu >= 0 && net + cpu > 0 && !(transfer && from == receiver)
        && (from == system ||
            if from == receiver then Due(RefundOf(old(refunds), from), net, cpu) <= MaxOf(0, funds)
            else net + cpu <= funds)
      ensures !ok ==> unchanged(this)
      ensures ok ==> RowMoves(old(delband), delband, (if transfer then receiver else from, receiver), net, cpu)
      ensures ok ==> TotalMoves(old(totals), totals, receiver, net, cpu)
      ensures from != system ==> given == old(given)
      ensures ok && from == system ==> refunds == old(refunds) && transfers == old(transfers)
      ensures ok && from != system && from != receiver ==>
        refunds == old(refunds) && transfers == old(transfers) + [Transfer(from, system, net + cpu)]
      ensures ok && from != system && from == receiver ==>
        && UsesRefund(old(refunds), refunds, from, net, cpu)
        && var due := Due(RefundOf(old(refunds), from), net, cpu);
        transfers == if due > 0 then old(transfers) + [Transfer(from, system, due)] else old(transfers)
    {
      if !(cpu >= 0 && net >= 0 && net + cpu > 0) || (transfer && from == receiver) { return false; }
      var d := Stake(net, cpu);
      StakeCosts(RefundOf(refunds, from), receiver, from, net, cpu, transfer, d);
      ok := ChangeBw(from, receiver, d, transfer, funds, now);
      if ok {
        RowMoved(old(delband), delband, LinkOf(from, receiver, transfer), d);
        TotalMoved(old(totals), totals, receiver, d);
        if from == receiver && from != system { StakingKeepsTime(old(refunds), refunds, from, net, cpu, d, now); }
      }
    }

    /** Unstakes non-negative amounts, not both zero and no more than was staked, into the staker's refund. */
    method UndelegateBw(from: Account, receiver: Account, net: int, cpu: int, now: nat) returns (ok: bool)
      requires Valid()
      modifies this
      ensures Valid()
      ensures ok <==> 0 <= net <= RowOf(old(delband), (from, receiver)).net
                      && 0 <= cpu <= RowOf(old(delband), (from, receiver)).cpu && net + cpu > 0
      ensures !ok ==> unchanged(this)
      ensures ok ==> RowMoves(old(delband), delband, (from, receiver), -net, -cpu)
      ensures ok ==> TotalMoves(old(totals), totals, receiver, -net, -cpu)
      ensures ok ==> transfers == old(transfers)
      ensures from != system ==> given == old(given)
      ensures ok && from == system ==> refunds == old(refunds)
      ensures ok && from != system ==>
        && Differs(old(refunds), refunds, from) && from in refunds && refunds[from].time == now
        && refunds[from].net == RefundOf(old(refunds), from).net + net
        && refunds[from].cpu == RefundOf(old(refunds), from).cpu + cpu
    {
      if !(cpu >= 0 && net >= 0 && net + cpu > 0) { return false; }
      UnstakingIsFree(RefundOf(refunds, from), net, cpu, now);
      ok := ChangeBw(from, receiver, Stake(-net, -cpu), false, 0, now);
      if ok {
        RowMoved(old(delband), delband, (from, receiver), Stake(-net, -cpu));
        TotalMoved(old(totals), totals, receiver, Stake(-net, -cpu));
      }
    }

    /** Pays out a refund that has waited long enough, once. As long as the system account has kept the tokens moved
        into it, and has those it gave, it can pay. */
    method PayRefund(owner: Account, funds: int, now: nat) returns (ok: bool)
      requires Valid()
      modifies this`refunds, this`transfers
      ensures Valid()
      ensures ok <==>
        && owner in old(refunds) && old(refunds)[owner].time + REFUND_DELAY <= now
        && old(refunds)[owner].net + old(refunds)[owner].cpu <= funds
      ensures Moved(old(transfers), system) + given <= funds ==>
        (ok <==> owner in old(refunds) && old(refunds)[owner].time + REFUND_DELAY <= now)
      ensures !ok ==> unchanged(this)
      ensures ok ==> refunds == old(refunds) - {owner}
      ensures ok ==>
        var amount := old(refunds)[owner].net + old(refunds)[owner].cpu;
        transfers == old(transfers) + [Transfer(system, owner, amount)]
    {
      if owner !in refunds || refunds[owner].time + REFUND_DELAY > now { return false; }
      var amount := refunds[owner].net + refunds[owner].cpu;
      RefundLeaves(refunds, owner, refunds - {owner});
      DelegatedNotNegative(delband);
      if amount > funds { return false; }
      transfers := transfers + [Transfer(system, owner, amount)];
      refunds := refunds - {owner};
      return true;
    }

    /** One action, refused or not. A refund that is paid has waited; one that is there afterwards is an old one, with
        its time, or that of an unstake just now. */
    method Act(op: Op, funds: int, now: nat) returns (ok: bool)
      requires Valid()
      modifies this
      ensures Valid()
      ensures !op.Claim? && op.from != system ==> given == old(given)
      ensures op.Claim? ==> given == old(given)
      ensures ok && op.Claim? ==>
        op.owner in old(refunds) && op.owner !in refunds && old(refunds)[op.owner].time + 259200 <= now
      ensures forall a <- refunds ::
                if Unstakes(op, ok, a) then refunds[a].time == now
                else a in old(refunds) && refunds[a].time == old(refunds)[a].time
    {
      match op {
        case Delegate(from, receiver, net, cpu, transfer) =>
          ok := DelegateBw(from, receiver, net, cpu, transfer, funds, now);
        case Undelegate(from, receiver, net, cpu) => ok := UndelegateBw(from, receiver, net, cpu, now);
        case Claim(owner) => ok := PayRefund(owner, funds, now);
      }
    }

    /** Every run of actions keeps the books balanced, whichever of them fail; each action comes with the payer's funds
        and the time. No refund is paid within three days of its owner's last unstake. */
    method Run(ops: seq<(Op, int, nat)>) returns (oks: seq<bool>)
      requires Valid()
      modifies this
      ensures Valid()
      ensures Moved(transfers, system) + given == Delegated(delband) + Open(refunds)
      ensures (forall i | 0 <= i < |ops| && !ops[i].0.Claim? :: ops[i].0.from != system) ==> given == old(given)
      ensures forall r: Account :: Matches(totals, delband, r)
      ensures forall r <- totals :: r in limits && limits[r] == totals[r]
      ensures forall r <- limits :: r !in totals ==> limits[r] == Resources(0, 0, 0)
      ensures |oks| == |ops| && AllWaited(ops, oks)
    {
      oks := [];
      for i := 0 to |ops|
        invariant Valid() && |oks| == i
        invariant (forall j | 0 <= j < i && !ops[j].0.Claim? :: ops[j].0.from != system) ==> given == old(given)
        invariant Waiting(ops[..i], oks, refunds) && AllWaited(ops[..i], oks)
      {
        var (op, funds, now) := ops[i];
        ghost var before := refunds;
        var ok := Act(op, funds, now);
        assert ops[..i + 1] == ops[..i] + [ops[i]];
        StillWaiting(ops[..i], oks, before, ops[i], ok, refunds);
        StillWaited(ops[..i], oks, before, ops[i], ok);
        oks := oks + [ok];
      }
      assert ops[..|ops|] == ops;
    }
  }
}
