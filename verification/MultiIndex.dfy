/** A contract's view of its table (contracts/eosiolib/multi_index.hpp): rows in the database, secondary indexes over
    them, and a cache of rows already loaded. Rows are values; a database iterator is the primary key of its row. */
module MultiIndex {
  import opened Options

  /** Keys are 64-bit; the two largest values are tags. */
  const KEY_LIMIT: int := 0x1_0000_0000_0000_0000
  const NO_AVAILABLE_KEY: int := KEY_LIMIT - 2
  const UNSET_KEY: int := KEY_LIMIT - 1

  /** A cached row with the iterators known for it, one for every secondary index. */
  datatype Item<T> = Item(row: T, primary: int, iters: seq<Option<int>>)

  type Index = map<int, int>

  /** The least key still free after `pk` was used. */
  function NextKey(next: int, pk: int): int {
    if pk >= next then (if pk >= NO_AVAILABLE_KEY then NO_AVAILABLE_KEY else pk + 1) else next
  }

  function Least(a: int, b: int): int { if a < b then a else b }

  /** Unset, exhausted, or above every stored key. */
  ghost predicate KeyFree<T>(next: int, rows: map<int, T>) {
    next == UNSET_KEY || next == NO_AVAILABLE_KEY || (0 <= next < NO_AVAILABLE_KEY && forall pk <- rows :: pk < next)
  }

  lemma KeyStaysFree<T>(next: int, rows: map<int, T>, pk: int, row: T)
    requires KeyFree(next, rows) && 0 <= pk < KEY_LIMIT
    ensures KeyFree(NextKey(next, pk), rows[pk := row])
  {
  }

  /** (s, p) comes before (t, q) in a secondary index. */
  predicate Before(s: int, p: int, t: int, q: int) { s < t || (s == t && p < q) }

  /** `p` is the first entry of the index at or after the secondary key `s`. */
  ghost predicate IsLowerBound(idx: Index, s: int, p: int) {
    p in idx && idx[p] >= s && forall q <- idx :: idx[q] >= s && q != p ==> Before(idx[p], p, idx[q], q)
  }

  lemma SomeKey(s: set<int>)
    requires s != {}
    ensures exists x: int :: x in s
  {
    assert (forall x: int :: x !in s) ==> s == {};
  }

  /** The host's lower-bound search of an index. */
  method DbLowerBound(idx: Index, s: int) returns (r: Option<int>)
    ensures r.None? ==> forall q <- idx :: idx[q] < s
    ensures r.Some? ==> IsLowerBound(idx, s, r.value)
  {
    r := None;
    var left := idx.Keys;
    while left != {}
      invariant left <= idx.Keys
      invariant r.None? ==> forall q <- idx :: q in left || idx[q] < s
      invariant r.Some? ==> r.value in idx && r.value !in left && idx[r.value] >= s
      invariant r.Some? ==>
        forall q <- idx :: idx[q] >= s && q != r.value && q !in left ==> Before(idx[r.value], r.value, idx[q], q)
      decreases |left|
    {
      SomeKey(left);
      var q :| q in left;
      left := left - {q};
      if idx[q] >= s && (r.None? || Before(idx[q], q, idx[r.value], r.value)) { r := Some(q); }
    }
  }

  // ---------- secondary indexes ----------

  /** The index holds the secondary key of every row, under its primary key, and nothing else. */
  ghost predicate Projects<T>(extract: (nat, T) -> int, i: nat, idx: Index, rows: map<int, T>) {
    idx.Keys == rows.Keys && forall pk <- rows :: idx[pk] == extract(i, rows[pk])
  }

  ghost predicate Indexed<T>(extract: (nat, T) -> int, indexes: seq<Index>, rows: map<int, T>) {
    forall i :: 0 <= i < |indexes| ==> Projects(extract, i, indexes[i], rows)
  }

  /** Stores a new row in every index. */
  method StoreAll<T>(extract: (nat, T) -> int, indexes: seq<Index>, pk: int, row: T) returns (out: seq<Index>)
    ensures |out| == |indexes| && forall i :: 0 <= i < |out| ==> out[i] == indexes[i][pk := extract(i, row)]
  {
    out := indexes;
    for i := 0 to |indexes|
      invariant |out| == |indexes|
      invariant forall j :: 0 <= j < i ==> out[j] == indexes[j][pk := extract(j, row)]
      invariant forall j :: i <= j < |indexes| ==> out[j] == indexes[j]
    {
      out := out[i := out[i][pk := extract(i, row)]];
    }
  }

  /** Rewrites the entries whose secondary key changed, looking up iterators not yet known, and skips the others. */
  method UpdateChanged<T>(extract: (nat, T) -> int, indexes: seq<Index>, iters: seq<Option<int>>, pk: int, was: T,
                          row: T)
    returns (out: seq<Index>, known: seq<Option<int>>)
    requires |iters| == |indexes| && forall i :: 0 <= i < |iters| ==> pk in indexes[i] && iters[i] in {None, Some(pk)}
    ensures |out| == |known| == |indexes|
    ensures forall i :: 0 <= i < |out| ==>
      out[i] == if extract(i, was) != extract(i, row) then indexes[i][pk := extract(i, row)] else indexes[i]
    ensures forall i :: 0 <= i < |known| ==> known[i] in {None, Some(pk)}
  {
    out, known := indexes, iters;
    for i := 0 to |indexes|
      invariant |out| == |known| == |indexes|
      invariant forall j :: 0 <= j < i ==>
        out[j] == if extract(j, was) != extract(j, row) then indexes[j][pk := extract(j, row)] else indexes[j]
      invariant forall j :: i <= j < |indexes| ==> out[j] == indexes[j]
      invariant forall j :: 0 <= j < |known| ==> known[j] in {None, Some(pk)}
    {
      var secondary := extract(i, row);
      if extract(i, was) != secondary {
        if known[i].None? { known := known[i := Some(pk)]; }
        out := out[i := out[i][known[i].value := secondary]];
      }
    }
  }

  method RemoveAll(indexes: seq<Index>, iters: seq<Option<int>>, pk: int) returns (out: seq<Index>)
    requires |iters| == |indexes| && forall i :: 0 <= i < |iters| ==> iters[i] in {None, Some(pk)}
    ensures |out| == |indexes| && forall i :: 0 <= i < |out| ==> out[i] == indexes[i] - {pk}
  {
    out := indexes;
    for i := 0 to |indexes|
      invariant |out| == |indexes|
      invariant forall j :: 0 <= j < i ==> out[j] == indexes[j] - {pk}
      invariant forall j :: i <= j < |indexes| ==> out[j] == indexes[j]
    {
      var itr := if iters[i].None? then pk else iters[i].value;
      out := out[i := out[i] - {itr}];
    }
  }

  lemma StoredIndexed<T>(extract: (nat, T) -> int, indexes: seq<Index>, rows: map<int, T>, pk: int, row: T,
                         out: seq<Index>)
    requires Indexed(extract, indexes, rows) && |out| == |indexes|
    requires forall i :: 0 <= i < |out| ==> out[i] == indexes[i][pk := extract(i, row)]
    ensures Indexed(extract, out, rows[pk := row])
  {
    forall i | 0 <= i < |out| ensures Projects(extract, i, out[i], rows[pk := row]) {
      assert Projects(extract, i, indexes[i], rows);
    }
  }

  /** Skipping the unchanged keys loses nothing. */
  lemma UpdatedIndexed<T>(extract: (nat, T) -> int, indexes: seq<Index>, rows: map<int, T>, pk: int, row: T,
                          out: seq<Index>)
    requires Indexed(extract, indexes, rows) && pk in rows && |out| == |indexes|
    requires forall i :: 0 <= i < |out| ==>
      out[i] == if extract(i, rows[pk]) != extract(i, row) then indexes[i][pk := extract(i, row)] else indexes[i]
    ensures Indexed(extract, out, rows[pk := row])
  {
    forall i | 0 <= i < |out| ensures Projects(extract, i, out[i], rows[pk := row]) {
      assert Projects(extract, i, indexes[i], rows);
    }
  }

  lemma RemovedIndexed<T>(extract: (nat, T) -> int, indexes: seq<Index>, rows: map<int, T>, pk: int, out: seq<Index>)
    requires Indexed(extract, indexes, rows) && |out| == |indexes|
    requires forall i :: 0 <= i < |out| ==> out[i] == indexes[i] - {pk}
    ensures Indexed(extract, out, rows - {pk})
  {
    forall i | 0 <= i < |out| ensures Projects(extract, i, out[i], rows - {pk}) {
      assert Projects(extract, i, indexes[i], rows);
    }
  }

  // ---------- the cache ----------

  /** A cached row is the stored one, and its known iterators are its own. */
  ghost predicate ItemOk<T>(it: Item<T>, rows: map<int, T>, n: nat) {
    it.primary in rows && it.row == rows[it.primary] && |it.iters| == n &&
    forall i :: 0 <= i < n ==> it.iters[i] in {None, Some(it.primary)}
  }

  ghost predicate Cached<T>(items: seq<Item<T>>, rows: map<int, T>, n: nat) {
    (forall j :: 0 <= j < |items| ==> ItemOk(items[j], rows, n)) &&
    forall i, j :: 0 <= i < j < |items| ==> items[i].primary != items[j].primary
  }

  /** Searches the cache from its end. */
  method FindCached<T>(items: seq<Item<T>>, pk: int) returns (r: Option<int>)
    ensures r.Some? ==> 0 <= r.value < |items| && items[r.value].primary == pk
    ensures r.None? ==> forall j :: 0 <= j < |items| ==> items[j].primary != pk
  {
    var j := |items|;
    while j > 0
      invariant 0 <= j <= |items| && forall i :: j <= i < |items| ==> items[i].primary != pk
    {
      j := j - 1;
      if items[j].primary == pk { return Some(j); }
    }
    return None;
  }

  lemma CacheSurvivesStore<T>(items: seq<Item<T>>, rows: map<int, T>, n: nat, pk: int, row: T, it: Item<T>)
    requires Cached(items, rows, n) && pk !in rows && it.primary == pk && ItemOk(it, rows[pk := row], n)
    ensures Cached(items + [it], rows[pk := row], n)
  {
    forall j | 0 <= j < |items| ensures ItemOk(items[j], rows[pk := row], n) { assert ItemOk(items[j], rows, n); }
  }

  lemma CacheSurvivesLoad<T>(items: seq<Item<T>>, rows: map<int, T>, n: nat, it: Item<T>)
    requires Cached(items, rows, n) && ItemOk(it, rows, n)
    requires forall j :: 0 <= j < |items| ==> items[j].primary != it.primary
    ensures Cached(items + [it], rows, n)
  {
  }

  lemma CacheSurvivesUpdate<T>(items: seq<Item<T>>, rows: map<int, T>, n: nat, j: nat, row: T, it: Item<T>)
    requires Cached(items, rows, n) && j < |items| && it.primary == items[j].primary
    requires ItemOk(it, rows[it.primary := row], n)
    ensures Cached(items[j := it], rows[it.primary := row], n)
  {
    var out := items[j := it];
    forall i | 0 <= i < |items| ensures ItemOk(out[i], rows[it.primary := row], n) {
      assert ItemOk(items[i], rows, n);
    }
  }

  lemma CacheSurvivesErase<T>(items: seq<Item<T>>, rows: map<int, T>, n: nat, j: nat)
    requires Cached(items, rows, n) && j < |items|
    ensures Cached(items[..j] + items[j + 1..], rows - {items[j].primary}, n)
  {
    var out := items[..j] + items[j + 1..];
    forall i | 0 <= i < |out| ensures ItemOk(out[i], rows - {items[j].primary}, n) {
      assert ItemOk(items[if i < j then i else i + 1], rows, n);
    }
  }

  /** The cache once the iterator of item `at` into index `i` is known. */
  function Noted<T>(items: seq<Item<T>>, ghost rows: map<int, T>, n: nat, at: int, i: nat): (out: seq<Item<T>>)
    requires Cached(items, rows, n) && 0 <= at < |items| && i < n
    ensures Cached(out, rows, n) && |out| == |items|
  {
    assert ItemOk(items[at], rows, n);
    items[at := items[at].(iters := items[at].iters[i := Some(items[at].primary)])]
  }

  /** The largest stored key. */
  method LastKey<T>(rows: map<int, T>) returns (r: Option<int>)
    ensures r.None? <==> rows == map[]
    ensures r.Some? ==> r.value in rows && forall pk <- rows :: pk <= r.value
  {
    r := None;
    var left := rows.Keys;
    while left != {}
      invariant left <= rows.Keys && (r.None? ==> left == rows.Keys)
      invariant r.Some? ==> r.value in rows && forall pk <- rows :: pk in left || pk <= r.value
      decreases |left|
    {
      SomeKey(left);
      var pk :| pk in left;
      left := left - {pk};
      if r.None? || pk > r.value { r := Some(pk); }
    }
  }

  class Table<T(!new)> {
    const count: nat
    const key: T -> int
    const extract: (nat, T) -> int
    var rows: map<int, T>
    var indexes: seq<Index>
    var items: seq<Item<T>>
    var next: int

    /** Rows under their own keys; exact secondary indexes; a cache that agrees with the database; a next key that no
        stored key has reached. */
    ghost predicate Valid()
      reads this
    {
      (forall t: T :: 0 <= key(t) < KEY_LIMIT) && (forall pk <- rows :: key(rows[pk]) == pk) &&
      |indexes| == count && Indexed(extract, indexes, rows) && Cached(items, rows, count) && KeyFree(next, rows)
    }

    /** A fresh view of a table that holds `rows`. */
    constructor (count: nat, key: T -> int, extract: (nat, T) -> int, rows: map<int, T>, indexes: seq<Index>)
      requires (forall t: T :: 0 <= key(t) < KEY_LIMIT) && (forall pk <- rows :: key(rows[pk]) == pk)
      requires |indexes| == count && Indexed(extract, indexes, rows)
      ensures Valid() && this.rows == rows && this.indexes == indexes && items == [] && next == UNSET_KEY
    {
      this.count, this.key, this.extract, this.rows, this.indexes := count, key, extract, rows, indexes;
      items, next := [], UNSET_KEY;
    }

    /** Stores a new row; refused when its key is taken. */
    method Emplace(row: T) returns (ok: bool)
      requires Valid()
      modifies this
      ensures Valid() && ok == (key(row) !in old(rows))
      ensures rows == if ok then old(rows)[key(row) := row] else old(rows)
      ensures ok ==> next == if key(row) < old(next) then old(next) else Least(NO_AVAILABLE_KEY, key(row) + 1)
      ensures !ok ==> unchanged(this)
    {
      var pk := key(row);
      if pk in rows { return false; }
      var out := StoreAll(extract, indexes, pk, row);
      StoredIndexed(extract, indexes, rows, pk, row, out);
      KeyStaysFree(next, rows, pk, row);
      var it := Item(row, pk, seq(count, _ => Some(pk)));
      CacheSurvivesStore(items, rows, count, pk, row, it);
      rows, indexes, items := rows[pk := row], out, items + [it];
      next := NextKey(next, pk);
      return true;
    }

    /** Looks a row up, in the cache first, and keeps it there. */
    method Find(pk: int) returns (r: Option<T>, at: int)
      requires Valid()
      modifies this`items
      ensures Valid() && r == (if pk in rows then Some(rows[pk]) else None)
      ensures r.Some? ==> 0 <= at < |items| && items[at].primary == pk
    {
      var c := FindCached(items, pk);
      if c.Some? { return Some(items[c.value].row), c.value; }
      if pk !in rows { return None, 0; }
      var it := Item(rows[pk], pk, seq(count, _ => None));
      CacheSurvivesLoad(items, rows, count, it);
      items := items + [it];
      return Some(it.row), |items| - 1;
    }

    /** Rewrites a cached row; refused when its key would change. */
    method Modify(at: nat, row: T) returns (ok: bool)
      requires Valid() && at < |items|
      modifies this
      ensures Valid() && ok == (key(row) == old(items)[at].primary)
      ensures rows == if ok then old(rows)[key(row) := row] else old(rows)
      ensures ok ==> next == if key(row) < old(next) then old(next) else Least(NO_AVAILABLE_KEY, key(row) + 1)
      ensures !ok ==> unchanged(this)
    {
      var it := items[at];
      assert ItemOk(it, rows, count);
      var pk := key(it.row);
      if pk != key(row) { return false; }
      assert forall i :: 0 <= i < |indexes| ==> Projects(extract, i, indexes[i], rows);
      var out, known := UpdateChanged(extract, indexes, it.iters, pk, it.row, row);
      UpdatedIndexed(extract, indexes, rows, pk, row, out);
      KeyStaysFree(next, rows, pk, row);
      var newItem := Item(row, pk, known);
      CacheSurvivesUpdate(items, rows, count, at, row, newItem);
      rows, indexes, items := rows[pk := row], out, items[at := newItem];
      next := NextKey(next, pk);
      return true;
    }

    /** Erases a cached row from the database, the indexes and the cache. */
    method Erase(at: nat)
      requires Valid() && at < |items|
      modifies this
      ensures Valid() && rows == old(rows) - {old(items)[at].primary}
    {
      var it := items[at];
      assert ItemOk(it, rows, count);
      var c := FindCached(items, it.primary);
      var out := RemoveAll(indexes, it.iters, it.primary);
      RemovedIndexed(extract, indexes, rows, it.primary, out);
      CacheSurvivesErase(items, rows, count, c.value);
      items := items[..c.value] + items[c.value + 1..];
      rows, indexes := rows - {it.primary}, out;
    }

    /** The row with the smallest primary key among those with secondary key `s` in index `i`, if there is any. */
    method FindSecondary(i: nat, s: int) returns (r: Option<T>)
      requires Valid() && i < count
      modifies this`items
      ensures Valid()
      ensures r.None? ==> forall pk <- rows :: extract(i, rows[pk]) != s
      ensures r.Some? ==> key(r.value) in rows && rows[key(r.value)] == r.value && extract(i, r.value) == s
      ensures r.Some? ==> forall pk <- rows :: extract(i, rows[pk]) == s ==> key(r.value) <= pk
    {
      assert Projects(extract, i, indexes[i], rows);
      var lb := DbLowerBound(indexes[i], s);
      if lb.None? { return None; }
      var row, at := Find(lb.value);
      items := Noted(items, rows, count, at, i);
      if extract(i, row.value) != s { return None; }
      return row;
    }

    /** A key above every stored key, when one is left. */
    method AvailablePrimaryKey() returns (ok: bool, pk: int)
      requires Valid()
      modifies this`next
      ensures Valid() && (ok ==> 0 <= pk < NO_AVAILABLE_KEY && forall k <- rows :: k < pk)
      ensures !ok ==> next == NO_AVAILABLE_KEY
      ensures old(next) == UNSET_KEY ==> (ok <==> forall k <- rows :: k + 1 < NO_AVAILABLE_KEY)
    {
      if next == UNSET_KEY {
        var last := LastKey(rows);
        if last.None? {
          next := 0;
        } else {
          next := if last.value >= NO_AVAILABLE_KEY then NO_AVAILABLE_KEY else last.value + 1;
        }
      }
      return next < NO_AVAILABLE_KEY, next;
    }
  }
}
