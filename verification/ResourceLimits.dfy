/** Account limits and their totals (libraries/chain/resource_limits.cpp): limits in force, limits pending until the
    next boundary, and the sums of weights that the limits in force add up to. */
module ResourceLimits {
  import opened Names
  import opened Sums

  /** A negative limit stands for no limit and weighs nothing. */
  datatype Limits = Limits(ram: int, net: int, cpu: int)
  type Table = map<Account, Limits>
  datatype Totals = Totals(ram: int, net: int, cpu: int)
  datatype Outcome = Done | Underflow | Overflow

  const UNLIMITED := Limits(-1, -1, -1)
  const UINT64_MAX: int := 0xFFFF_FFFF_FFFF_FFFF

  /** Which of the three resources. */
  datatype Kind = Ram | Net | Cpu

  function Amount(l: Limits, k: Kind): int {
    match k
    case Ram => l.ram
    case Net => l.net
    case Cpu => l.cpu
  }

  function TotalOf(t: Totals, k: Kind): int {
    match k
    case Ram => t.ram
    case Net => t.net
    case Cpu => t.cpu
  }

  function Larger(x: int, y: int): int { if x < y then y else x }

  function Weight(x: int): int { if x > 0 then x else 0 }

  function WeightAt(m: Table, a: Account, k: Kind): int { if a in m then Weight(Amount(m[a], k)) else 0 }

  ghost function Weights(m: Table, k: Kind): Account -> int { a => WeightAt(m, a, k) }

  /** The sum of the positive limits. */
  ghost function Sum3(m: Table, k: Kind): int { Sum(m.Keys, Weights(m, k)) }

  /** The totals are the sums of the positive limits, and fit 64 bits. */
  ghost predicate Balanced(m: Table, t: Totals) { forall k: Kind :: TotalOf(t, k) == Sum3(m, k) <= UINT64_MAX }

  lemma WeightChanges(m: Table, n: Table, a: Account, k: Kind)
    requires Differs(m, n, a)
    ensures Sum3(n, k) == Sum3(m, k) - WeightAt(m, a, k) + WeightAt(n, a, k)
  {
    Change(m.Keys, n.Keys, Weights(m, k), Weights(n, k), a);
  }

  /** The total covers every single limit: taking an old limit out cannot underflow. */
  lemma TotalCovers(m: Table, a: Account, k: Kind)
    ensures 0 <= WeightAt(m, a, k) <= Sum3(m, k)
  {
    NonNegative(m.Keys, Weights(m, k));
  }

  /** One limit replaced by another in a total. */
  function Replaced(total: int, value: int, next: int): (Outcome, int) {
    if value > 0 && total < value then (Underflow, total)
    else
      var rest := total - Weight(value);
      if next > 0 && UINT64_MAX - rest < next then (Overflow, total) else (Done, rest + Weight(next))
  }

  /** All three limits of an account replaced, in the order ram, cpu, net. */
  function ReplacedAll(t: Totals, was: Limits, next: Limits): (Outcome, Totals) {
    var (r, ram) := Replaced(t.ram, was.ram, next.ram);
    var (c, cpu) := Replaced(t.cpu, was.cpu, next.cpu);
    var (n, net) := Replaced(t.net, was.net, next.net);
    if r != Done then (r, t)
    else if c != Done then (c, t)
    else if n != Done then (n, t)
    else (Done, Totals(ram, net, cpu))
  }

  lemma ReplaceStep(m: Table, t: Totals, a: Account, next: Limits, n: Table)
    requires Balanced(m, t) && a in m && n == m[a := next]
    ensures ReplacedAll(t, m[a], next).0 != Underflow
    ensures ReplacedAll(t, m[a], next).0 == Done ==> Balanced(n, ReplacedAll(t, m[a], next).1)
    ensures ReplacedAll(t, m[a], next).0 == Overflow <==> exists k: Kind :: Sum3(n, k) > UINT64_MAX
  {
    KindStep(m, t, a, next, n, Ram);
    KindStep(m, t, a, next, n, Net);
    KindStep(m, t, a, next, n, Cpu);
    ReplacedSums(t, m[a], next, Totals(Sum3(n, Ram), Sum3(n, Net), Sum3(n, Cpu)));
  }

  lemma KindStep(m: Table, t: Totals, a: Account, next: Limits, n: Table, k: Kind)
    requires Balanced(m, t) && a in m && n == m[a := next]
    ensures Weight(Amount(m[a], k)) <= TotalOf(t, k)
    ensures Sum3(n, k) == TotalOf(t, k) - Weight(Amount(m[a], k)) + Weight(Amount(next, k))
  {
    TotalCovers(m, a, k);
    WeightChanges(m, n, a, k);
  }

  lemma ReplacedSums(t: Totals, was: Limits, next: Limits, s: Totals)
    requires Weight(was.ram) <= t.ram <= UINT64_MAX && s.ram == t.ram - Weight(was.ram) + Weight(next.ram)
    requires Weight(was.net) <= t.net <= UINT64_MAX && s.net == t.net - Weight(was.net) + Weight(next.net)
    requires Weight(was.cpu) <= t.cpu <= UINT64_MAX && s.cpu == t.cpu - Weight(was.cpu) + Weight(next.cpu)
    ensures if s.ram > UINT64_MAX || s.net > UINT64_MAX || s.cpu > UINT64_MAX
            then ReplacedAll(t, was, next).0 == Overflow else ReplacedAll(t, was, next) == (Done, s)
  {
  }

  // ---------- the update loop ----------

  /** The limits once everything pending is in force. */
  function Merged(m: Table, p: Table): Table { map a | a in m :: if a in p then p[a] else m[a] }

  /** Some of the pending limits `p` are in force in `cur`; those in `left` are not yet. */
  ghost predicate Partly(m: Table, p: Table, cur: Table, left: Table) {
    cur.Keys == m.Keys && left.Keys <= p.Keys <= m.Keys && (forall a <- left :: left[a] == p[a]) &&
    forall a <- m :: cur[a] == if a in p && a !in left then p[a] else m[a]
  }

  lemma PartlyStep(m: Table, p: Table, cur: Table, left: Table, a: Account)
    requires Partly(m, p, cur, left) && a in left
    ensures Partly(m, p, cur[a := left[a]], left - {a})
  {
  }

  ghost function Peaks(m: Table, p: Table, k: Kind): Account -> int {
    a => Larger(WeightAt(m, a, k), WeightAt(p, a, k))
  }

  /** No resource can overflow, in whatever order the limits are replaced. */
  ghost predicate Fits(m: Table, p: Table) { forall k: Kind :: Sum(m.Keys, Peaks(m, p, k)) <= UINT64_MAX }

  lemma PartlyFits(m: Table, p: Table, cur: Table, left: Table, k: Kind)
    requires Partly(m, p, cur, left)
    ensures Sum3(cur, k) <= Sum(m.Keys, Peaks(m, p, k))
  {
    AtMost(m.Keys, Weights(cur, k), Peaks(m, p, k));
  }

  lemma UpdateStep(m: Table, p: Table, cur: Table, left: Table, t: Totals, a: Account, n: Table)
    requires Partly(m, p, cur, left) && Balanced(cur, t) && a in left && n == cur[a := left[a]]
    ensures a in cur && ReplacedAll(t, cur[a], left[a]).0 != Underflow
    ensures ReplacedAll(t, cur[a], left[a]).0 == Done ==> Balanced(n, ReplacedAll(t, cur[a], left[a]).1)
    ensures Partly(m, p, n, left - {a})
    ensures Fits(m, p) ==> ReplacedAll(t, cur[a], left[a]).0 == Done
  {
    ReplaceStep(cur, t, a, left[a], n);
    PartlyStep(m, p, cur, left, a);
    forall k: Kind ensures Sum3(n, k) <= Sum(m.Keys, Peaks(m, p, k)) { PartlyFits(m, p, n, left - {a}, k); }
  }

  lemma AllInForce(m: Table, p: Table, cur: Table)
    requires Partly(m, p, cur, map[])
    ensures cur == Merged(m, p)
  {
  }

  class Manager {
    var limits: Table
    var pending: Table
    var totals: Totals

    /** Totals are the sums of the positive limits in force; only known accounts have pending limits. */
    ghost predicate Valid()
      reads this
    {
      Balanced(limits, totals) && pending.Keys <= limits.Keys
    }

    constructor ()
      ensures Valid() && limits == map[] && pending == map[]
    {
      limits, pending, totals := map[], map[], Totals(0, 0, 0);
    }

    /** A new account is unlimited, and weighs nothing. */
    method InitializeAccount(a: Account) returns (ok: bool)
      requires Valid()
      modifies this`limits
      ensures Valid() && ok == (a !in old(limits))
      ensures limits == if ok then old(limits)[a := Limits(-1, -1, -1)] else old(limits)
    {
      if a in limits { return false; }
      limits := limits[a := UNLIMITED];
      forall k: Kind ensures Sum3(limits, k) == Sum3(old(limits), k) { WeightChanges(old(limits), limits, a, k); }
      return true;
    }

    /** The limits an account will have once nothing is pending. */
    function Requested(a: Account): Limits
      requires a in limits
      reads this
    {
      if a in pending then pending[a] else limits[a]
    }

    /** Requests limits; says whether the RAM limit goes down. */
    method SetAccountLimits(a: Account, l: Limits) returns (ok: bool, decreased: bool)
      requires Valid()
      modifies this`pending
      ensures Valid() && ok == (a in limits)
      ensures ok ==> Requested(a) == l && pending == old(pending)[a := l]
      ensures ok ==> decreased == (l.ram >= 0 && (old(Requested(a)).ram < 0 || l.ram < old(Requested(a)).ram))
      ensures !ok ==> pending == old(pending) && !decreased
    {
      if a !in limits { return false, false; }
      var row := if a in pending then pending[a] else limits[a];
      decreased := false;
      if l.ram >= 0 { decreased := row.ram < 0 || l.ram < row.ram; }
      pending := pending[a := l];
      return true, decreased;
    }

    /** Puts the pending limits of one account in force; `m` and `p` are the tables the loop started from. */
    method ApplyNext(a: Account, ghost m: Table, ghost p: Table) returns (r: Outcome)
      requires Partly(m, p, limits, pending) && Balanced(limits, totals) && a in pending
      modifies this
      ensures r != Underflow && (Fits(m, p) ==> r == Done)
      ensures r == Done ==> pending == old(pending) - {a} && |pending| < |old(pending)|
      ensures r == Done ==> Partly(m, p, limits, pending) && Balanced(limits, totals)
    {
      var next := pending[a];
      UpdateStep(m, p, limits, pending, totals, a, limits[a := next]);
      var o := ReplacedAll(totals, limits[a], next);
      r := o.0;
      if r == Done {
        limits, totals, pending := limits[a := next], o.1, pending - {a};
      }
    }

    /** A failed assertion ends the transaction, and its changes are undone. */
    method Undo(m: Table, p: Table, t: Totals)
      modifies this
      ensures limits == m && pending == p && totals == t
    {
      limits, pending, totals := m, p, t;
    }

    /** Puts every pending limit in force. It ends, never finds a total below the limit it takes out, and fails only
        by overflow, which leaves everything as it was. */
    method ProcessAccountLimitUpdates() returns (r: Outcome)
      requires Valid()
      modifies this
      ensures Valid() && r != Underflow
      ensures r == Done ==> pending == map[] && limits.Keys == old(limits).Keys
      ensures r == Done ==> forall a <- limits :: limits[a] == old(Requested(a))
      ensures r != Done ==> limits == old(limits) && pending == old(pending) && totals == old(totals)
      ensures Fits(old(limits), old(pending)) ==> r == Done
    {
      var oldLimits, oldPending, oldTotals := limits, pending, totals;
      while pending != map[]
        invariant Partly(oldLimits, oldPending, limits, pending) && Balanced(limits, totals)
        decreases |pending|
      {
        var a :| a in pending;
        r := ApplyNext(a, oldLimits, oldPending);
        if r != Done {
          Undo(oldLimits, oldPending, oldTotals);
          return;
        }
      }
      AllInForce(oldLimits, oldPending, limits);
      return Done;
    }
  }
}
