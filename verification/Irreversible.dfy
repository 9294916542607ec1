/** The order statistic behind the DPoS "last irreversible block" number
    (libraries/chain/block_header_state.cpp, calc_dpos_last_irreversible). */
module Irreversible {

  /** How many entries of a vector lie strictly below `v`. */
  function Below(xs: seq<nat>, v: nat): nat {
    if xs == [] then 0 else (if xs[0] < v then 1 else 0) + Below(xs[1..], v)
  }

  ghost predicate Ascending(xs: seq<nat>) {
    forall i, j | 0 <= i < j < |xs| :: xs[i] <= xs[j]
  }

  function Insert(x: nat, xs: seq<nat>): seq<nat> {
    if xs == [] || x <= xs[0] then [x] + xs else [xs[0]] + Insert(x, xs[1..])
  }

  /** std::sort, from low to high. */
  function Sort(xs: seq<nat>): seq<nat> {
    if xs == [] then [] else Insert(xs[0], Sort(xs[1..]))
  }

  lemma {:induction false} InsertKeeps(x: nat, xs: seq<nat>, v: nat)
    requires Ascending(xs)
    ensures |Insert(x, xs)| == |xs| + 1
    ensures Ascending(Insert(x, xs))
    ensures xs != [] ==> Insert(x, xs)[0] == if x <= xs[0] then x else xs[0]
    ensures Below(Insert(x, xs), v) == (if x < v then 1 else 0) + Below(xs, v)
  {
    if xs == [] || x <= xs[0] {
      assert ([x] + xs)[1..] == xs;
    } else {
      InsertKeeps(x, xs[1..], v);
      assert ([xs[0]] + Insert(x, xs[1..]))[1..] == Insert(x, xs[1..]);
    }
  }

  lemma {:induction false} SortKeeps(xs: seq<nat>, v: nat)
    ensures |Sort(xs)| == |xs|
    ensures Ascending(Sort(xs))
    ensures Below(Sort(xs), v) == Below(xs, v)
  {
    if xs != [] {
      SortKeeps(xs[1..], v);
      InsertKeeps(xs[0], Sort(xs[1..]), v);
    }
  }

  lemma {:induction false} BelowBound(xs: seq<nat>, v: nat)
    ensures Below(xs, v) <= |xs|
  {
    if xs != [] { BelowBound(xs[1..], v); }
  }

  /** In a sorted vector, position `k` holds at least `v` exactly when at most `k` entries are below `v`. */
  lemma {:induction false} RankInAscending(xs: seq<nat>, k: nat, v: nat)
    requires Ascending(xs) && k < |xs|
    ensures v <= xs[k] <==> Below(xs, v) <= k
  {
    if xs[0] >= v {
      NoneBelow(xs, v);
    } else if k > 0 {
      RankInAscending(xs[1..], k - 1, v);
    }
  }

  lemma {:induction false} NoneBelow(xs: seq<nat>, v: nat)
    requires forall i | 0 <= i < |xs| :: v <= xs[i]
    ensures Below(xs, v) == 0
  {
    if xs != [] { NoneBelow(xs[1..], v); }
  }

  // ---------- from the map of implied numbers to the computed value ----------

  type Producer = nat

  /** The producers whose implied number is strictly below `v`. */
  function Lagging(m: map<Producer, nat>, v: nat): set<Producer> {
    set p | p in m && m[p] < v
  }

  /** The producers whose implied number is `v` or later. */
  function Reaching(m: map<Producer, nat>, v: nat): set<Producer> {
    set p | p in m && m[p] >= v
  }

  /** The vector filled by the loop lists each map entry once. */
  ghost predicate Lists(xs: seq<nat>, m: map<Producer, nat>) {
    |xs| == |m| && forall v: nat :: Below(xs, v) == |Lagging(m, v)|
  }

  lemma LaggingGrow(m: map<Producer, nat>, p: Producer, n: nat, v: nat)
    requires p !in m
    ensures |Lagging(m[p := n], v)| == (if n < v then 1 else 0) + |Lagging(m, v)|
  {
    var added: set<Producer> := if n < v then {p} else {};
    assert Lagging(m[p := n], v) == added + Lagging(m, v);
    assert added !! Lagging(m, v);
  }

  lemma ListsGrow(xs: seq<nat>, m: map<Producer, nat>, p: Producer, n: nat)
    requires Lists(xs, m) && p !in m
    ensures Lists([n] + xs, m[p := n])
  {
    assert m[p := n].Keys == m.Keys + {p};
    forall v: nat ensures Below([n] + xs, v) == |Lagging(m[p := n], v)| {
      assert ([n] + xs)[1..] == xs;
      LaggingGrow(m, p, n, v);
    }
  }

  /** `r` is what the source returns for the map `m`: 0 for an empty map, otherwise the entry one third
      into the sorted list, told apart from every other number by how many entries lie below it. */
  ghost predicate IsThirdRank(m: map<Producer, nat>, r: nat) {
    if m == map[] then r == 0
    else forall v: nat :: v <= r <==> |Lagging(m, v)| <= (|m| - 1) / 3
  }

  lemma ThirdRankUnique(m: map<Producer, nat>, a: nat, b: nat)
    requires IsThirdRank(m, a) && IsThirdRank(m, b)
    ensures a == b
  {
    if m != map[] {
      assert a <= b <==> |Lagging(m, a)| <= (|m| - 1) / 3 <==> a <= a;
      assert b <= a <==> |Lagging(m, b)| <= (|m| - 1) / 3 <==> b <= b;
    }
  }

  lemma SortedThirdIsRank(xs: seq<nat>, m: map<Producer, nat>)
    requires Lists(xs, m) && xs != []
    ensures |Sort(xs)| == |xs|
    ensures IsThirdRank(m, Sort(xs)[(|xs| - 1) / 3])
  {
    SortKeeps(xs, 0);
    var k := (|xs| - 1) / 3;
    assert m != map[];
    forall v: nat ensures v <= Sort(xs)[k] <==> |Lagging(m, v)| <= (|m| - 1) / 3 {
      SortKeeps(xs, v);
      RankInAscending(Sort(xs), k, v);
    }
  }

  lemma {:induction false} SomeListing(m: map<Producer, nat>) returns (xs: seq<nat>)
    ensures Lists(xs, m)
    decreases |m|
  {
    if m == map[] {
      xs := [];
      assert forall v: nat :: Lagging(m, v) == {};
    } else {
      var p :| p in m;
      var rest := m - {p};
      assert rest.Keys == m.Keys - {p};
      var ys := SomeListing(rest);
      ListsGrow(ys, rest, p, m[p]);
      assert rest[p := m[p]] == m;
      xs := [m[p]] + ys;
    }
  }

  lemma ThirdRankExists(m: map<Producer, nat>)
    ensures exists r: nat :: IsThirdRank(m, r)
  {
    if m == map[] {
      assert IsThirdRank(m, 0);
    } else {
      var xs := SomeListing(m);
      SortedThirdIsRank(xs, m);
    }
  }

  /** The value of calc_dpos_last_irreversible, as a function of the implied-number map. */
  ghost function ThirdRank(m: map<Producer, nat>): (r: nat)
    ensures IsThirdRank(m, r)
  {
    ThirdRankExists(m);
    var r: nat :| IsThirdRank(m, r);
    r
  }

  /** calc_dpos_last_irreversible: copy the map's numbers into a vector, sort it, index it. */
  method CalcDposLastIrreversible(m: map<Producer, nat>) returns (r: nat)
    ensures r == ThirdRank(m)
  {
    var blocknums: seq<nat> := [];
    var todo := m.Keys;
    ghost var done: map<Producer, nat> := map[];
    assert forall v: nat :: Lagging(done, v) == {};
    while todo != {}
      invariant todo <= m.Keys
      invariant done == map p | p in m && p !in todo :: m[p]
      invariant Lists(blocknums, done)
    {
      var p :| p in todo;
      ListsGrow(blocknums, done, p, m[p]);
      blocknums := [m[p]] + blocknums;
      todo := todo - {p};
      done := done[p := m[p]];
    }
    assert done == m;
    if |blocknums| == 0 {
      r := 0;
    } else {
      SortedThirdIsRank(blocknums, m);
      r := Sort(blocknums)[(|blocknums| - 1) / 3];
    }
    ThirdRankUnique(m, r, ThirdRank(m));
  }

  // ---------- what the number means ----------

  /** More than two thirds of the producers imply the returned number or a later one. */
  lemma SupermajorityImplies(m: map<Producer, nat>)
    requires m != map[]
    ensures 3 * |Reaching(m, ThirdRank(m))| > 2 * |m|
    ensures exists p :: p in m && m[p] == ThirdRank(m)
  {
    var r := ThirdRank(m);
    assert |Lagging(m, r)| <= (|m| - 1) / 3;
    var up := Reaching(m, r);
    assert Lagging(m, r) + up == m.Keys;
    assert |Lagging(m, r)| + |up| == |m.Keys|;
    assert !(r + 1 <= r) && |Lagging(m, r + 1)| > (|m| - 1) / 3;
    assert Lagging(m, r + 1) - Lagging(m, r) != {} by {
      if Lagging(m, r + 1) <= Lagging(m, r) { SubsetSize(Lagging(m, r + 1), Lagging(m, r)); }
    }
    var p :| p in Lagging(m, r + 1) - Lagging(m, r);
    assert m[p] == r;
  }

  /** Raising (or adding) one entry to a number no other entry exceeds never lowers the result. */
  lemma RaiseOne(m: map<Producer, nat>, p: Producer, n: nat)
    requires forall q | q in m :: m[q] <= n
    ensures ThirdRank(m) <= ThirdRank(m[p := n]) <= n
  {
    var m' := m[p := n];
    var r := ThirdRank(m);
    assert m'.Keys == m.Keys + {p};
    if m != map[] {
      SupermajorityImplies(m);
      assert r <= n;
      assert Lagging(m', r) <= Lagging(m, r);
      SubsetSize(Lagging(m', r), Lagging(m, r));
      SubsetSize(m.Keys, m'.Keys);
    }
    SupermajorityImplies(m');
  }

  lemma {:induction false} SubsetSize<T>(a: set<T>, b: set<T>)
    requires a <= b
    ensures |a| <= |b|
  {
    assert b == a + (b - a);
  }
}
