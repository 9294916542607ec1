/** RAM billing of contract tables (libraries/chain/apply_context.cpp, contract_table_objects.hpp): rows, the table
    objects that hold them, and what each account is billed. Iterators are the keys of live rows. A failed assertion
    leaves the database as it was. */
module RamBilling {
  import opened ByteStrings
  import opened Names
  import opened Sums

  datatype TableKey = TableKey(code: Account, scope: nat, table: nat)
  datatype RowKey = RowKey(table: TableKey, id: nat)
  datatype Table = Table(payer: Account, count: int)
  datatype Row = Row(payer: Account, value: Bytes)
  datatype Db = Db(tables: map<TableKey, Table>, rows: map<RowKey, Row>, usage: map<Account, int>)

  const NOBODY := Account(0)
  const INDEX_OVERHEAD: nat := 32
  const ALIGNMENT: nat := 16

  function Aligned(n: nat): nat { (n + ALIGNMENT - 1) / ALIGNMENT * ALIGNMENT }

  /** Billable sizes of a table object and of a row without its value. */
  const TABLE_SIZE: int := Aligned(44 + 2 * INDEX_OVERHEAD)
  const ROW_SIZE: int := Aligned(32 + 8 + 4 + 2 * INDEX_OVERHEAD)

  /** Both come to 112 bytes. */
  lemma BillableSizes()
    ensures TABLE_SIZE == 112 && ROW_SIZE == 112
  {
  }

  // ---------- who pays for what ----------

  function UsageOf(u: map<Account, int>, a: Account): int { if a in u then u[a] else 0 }

  function RowCost(rows: map<RowKey, Row>, k: RowKey, a: Account): int {
    if k in rows && rows[k].payer == a then |rows[k].value| + ROW_SIZE else 0
  }

  function TableCost(tables: map<TableKey, Table>, t: TableKey, a: Account): int {
    if t in tables && tables[t].payer == a then TABLE_SIZE else 0
  }

  function Member(rows: map<RowKey, Row>, k: RowKey, t: TableKey): int { if k in rows && k.table == t then 1 else 0 }

  function CountOf(tables: map<TableKey, Table>, t: TableKey): int { if t in tables then tables[t].count else 0 }

  ghost function RowCosts(rows: map<RowKey, Row>, a: Account): RowKey -> int { k => RowCost(rows, k, a) }

  ghost function TableCosts(tables: map<TableKey, Table>, a: Account): TableKey -> int { t => TableCost(tables, t, a) }

  ghost function Members(rows: map<RowKey, Row>, t: TableKey): RowKey -> int { k => Member(rows, k, t) }

  /** The billable size of everything `a` pays for. */
  ghost function Bill(db: Db, a: Account): int {
    Sum(db.rows.Keys, RowCosts(db.rows, a)) + Sum(db.tables.Keys, TableCosts(db.tables, a))
  }

  /** The number of rows in `t`. */
  ghost function RowCount(rows: map<RowKey, Row>, t: TableKey): int { Sum(rows.Keys, Members(rows, t)) }

  /** Every account is billed exactly for the rows and tables it pays for. */
  ghost predicate Billed(db: Db) { forall a: Account :: UsageOf(db.usage, a) == Bill(db, a) }

  /** Every table counts its rows, and every row has its table. */
  ghost predicate Counted(db: Db) {
    (forall t: TableKey :: CountOf(db.tables, t) == RowCount(db.rows, t)) && forall k <- db.rows :: k.table in db.tables
  }

  /** No table is empty. */
  ghost predicate Populated(db: Db) { forall t <- db.tables :: db.tables[t].count > 0 }

  ghost predicate Sound(db: Db) { Billed(db) && Counted(db) && Populated(db) }

  // ---------- one change at a time ----------

  lemma RowCostChanges(m: map<RowKey, Row>, n: map<RowKey, Row>, k: RowKey, a: Account)
    requires Differs(m, n, k)
    ensures Sum(n.Keys, RowCosts(n, a)) == Sum(m.Keys, RowCosts(m, a)) - RowCost(m, k, a) + RowCost(n, k, a)
  {
    Change(m.Keys, n.Keys, RowCosts(m, a), RowCosts(n, a), k);
  }

  lemma TableCostChanges(m: map<TableKey, Table>, n: map<TableKey, Table>, t: TableKey, a: Account)
    requires Differs(m, n, t)
    ensures Sum(n.Keys, TableCosts(n, a)) == Sum(m.Keys, TableCosts(m, a)) - TableCost(m, t, a) + TableCost(n, t, a)
  {
    Change(m.Keys, n.Keys, TableCosts(m, a), TableCosts(n, a), t);
  }

  lemma RowCountChanges(m: map<RowKey, Row>, n: map<RowKey, Row>, k: RowKey, t: TableKey)
    requires Differs(m, n, k)
    ensures RowCount(n, t) == RowCount(m, t) - Member(m, k, t) + Member(n, k, t)
  {
    Change(m.Keys, n.Keys, Members(m, t), Members(n, t), k);
  }

  /** The usage of `a` changes by what it pays for the row `k` and the table `t`. */
  ghost predicate Moved(db: Db, c: Db, k: RowKey, t: TableKey, a: Account) {
    UsageOf(c.usage, a) - UsageOf(db.usage, a)
    == RowCost(c.rows, k, a) - RowCost(db.rows, k, a) + TableCost(c.tables, t, a) - TableCost(db.tables, t, a)
  }

  /** A row and a table change, and the usage with them. */
  lemma StaysBilled(db: Db, c: Db, k: RowKey, t: TableKey)
    requires Billed(db) && Differs(db.rows, c.rows, k) && Differs(db.tables, c.tables, t)
    requires forall a: Account :: Moved(db, c, k, t, a)
    ensures Billed(c)
  {
    forall a: Account ensures UsageOf(c.usage, a) == Bill(c, a) {
      assert UsageOf(db.usage, a) == Bill(db, a) && Moved(db, c, k, t, a);
      RowCostChanges(db.rows, c.rows, k, a);
      TableCostChanges(db.tables, c.tables, t, a);
    }
  }

  lemma StaysCounted(db: Db, c: Db, k: RowKey)
    requires Counted(db) && Differs(db.rows, c.rows, k) && Differs(db.tables, c.tables, k.table)
    requires CountOf(c.tables, k.table) - CountOf(db.tables, k.table)
          == Member(c.rows, k, k.table) - Member(db.rows, k, k.table)
    ensures forall t: TableKey :: CountOf(c.tables, t) == RowCount(c.rows, t)
  {
    forall t: TableKey ensures CountOf(c.tables, t) == RowCount(c.rows, t) {
      assert CountOf(db.tables, t) == RowCount(db.rows, t);
      RowCountChanges(db.rows, c.rows, k, t);
    }
  }

  /** A table without rows counts none. */
  lemma {:induction false} SomeRow(rows: map<RowKey, Row>, t: TableKey, s: set<RowKey>)
    ensures Sum(s, Members(rows, t)) >= 0
    ensures Sum(s, Members(rows, t)) > 0 <==> exists k <- s :: Member(rows, k, t) == 1
  {
    NonNegative(s, Members(rows, t));
    if s != {} && Sum(s, Members(rows, t)) > 0 {
      var k :| k in s;
      TakeOut(s, Members(rows, t), k);
      SomeRow(rows, t, s - {k});
    }
  }

  /** A table object exists exactly while it has a row. */
  lemma TableIffRow(db: Db, t: TableKey)
    requires Sound(db)
    ensures t in db.tables <==> exists k <- db.rows :: k.table == t
  {
    SomeRow(db.rows, t, db.rows.Keys);
    if t in db.tables {
      assert CountOf(db.tables, t) == RowCount(db.rows, t);
      var k :| k in db.rows.Keys && Member(db.rows, k, t) == 1;
    }
  }

  // ---------- the operations ----------

  function Charged(u: map<Account, int>, a: Account, d: int): map<Account, int> { u[a := UsageOf(u, a) + d] }

  function SizeOf(value: Bytes): int { |value| + ROW_SIZE }

  /** The table exists, created at the expense of `payer` if need be. */
  function WithTable(db: Db, t: TableKey, payer: Account): Db {
    if t in db.tables then db
    else Db(db.tables[t := Table(payer, 0)], db.rows, Charged(db.usage, payer, TABLE_SIZE))
  }

  /** A new row in an existing table. */
  function WithRow(db: Db, k: RowKey, payer: Account, value: Bytes): Db
    requires k.table in db.tables
  {
    var t := db.tables[k.table];
    var tables, rows := db.tables[k.table := Table(t.payer, t.count + 1)], db.rows[k := Row(payer, value)];
    Db(tables, rows, Charged(db.usage, payer, SizeOf(value)))
  }

  function Stored(db: Db, k: RowKey, payer: Account, value: Bytes): Db {
    WithRow(WithTable(db, k.table, payer), k, payer, value)
  }

  function Rebilled(u: map<Account, int>, row: Row, payer: Account, value: Bytes): map<Account, int> {
    if row.payer != payer then Charged(Charged(u, row.payer, -SizeOf(row.value)), payer, SizeOf(value))
    else if |row.value| != |value| then Charged(u, payer, SizeOf(value) - SizeOf(row.value))
    else u
  }

  function Updated(db: Db, k: RowKey, payer: Account, value: Bytes): Db
    requires k in db.rows
  {
    Db(db.tables, db.rows[k := Row(payer, value)], Rebilled(db.usage, db.rows[k], payer, value))
  }

  function WithoutRow(db: Db, k: RowKey): Db
    requires k in db.rows && k.table in db.tables
  {
    var t, r := db.tables[k.table], db.rows[k];
    Db(db.tables[k.table := Table(t.payer, t.count - 1)], db.rows - {k}, Charged(db.usage, r.payer, -SizeOf(r.value)))
  }

  function WithoutTable(db: Db, t: TableKey): Db
    requires t in db.tables
  {
    Db(db.tables - {t}, db.rows, Charged(db.usage, db.tables[t].payer, -TABLE_SIZE))
  }

  function Removed(db: Db, k: RowKey): Db
    requires k in db.rows && k.table in db.tables
  {
    var c := WithoutRow(db, k);
    if c.tables[k.table].count == 0 then WithoutTable(c, k.table) else c
  }

  lemma WithTableKeeps(db: Db, t: TableKey, payer: Account, k: RowKey)
    requires Billed(db) && Counted(db) && k.table == t && k !in db.rows
    ensures Billed(WithTable(db, t, payer)) && Counted(WithTable(db, t, payer))
  {
    var c := WithTable(db, t, payer);
    if t !in db.tables {
      forall a: Account ensures Moved(db, c, k, t, a) {}
      StaysBilled(db, c, k, t);
      StaysCounted(db, c, k);
    }
  }

  lemma WithRowKeeps(db: Db, k: RowKey, payer: Account, value: Bytes)
    requires Billed(db) && Counted(db) && k.table in db.tables && k !in db.rows
    ensures Billed(WithRow(db, k, payer, value)) && Counted(WithRow(db, k, payer, value))
  {
    var c := WithRow(db, k, payer, value);
    forall a: Account ensures Moved(db, c, k, k.table, a) {}
    StaysBilled(db, c, k, k.table);
    StaysCounted(db, c, k);
  }

  lemma CountNonNegative(db: Db, t: TableKey)
    requires Counted(db)
    ensures CountOf(db.tables, t) >= 0
  {
    SomeRow(db.rows, t, db.rows.Keys);
  }

  lemma StoredKeeps(db: Db, k: RowKey, payer: Account, value: Bytes)
    requires Sound(db) && k !in db.rows
    ensures Sound(Stored(db, k, payer, value))
  {
    var c := WithTable(db, k.table, payer);
    WithTableKeeps(db, k.table, payer, k);
    WithRowKeeps(c, k, payer, value);
    CountNonNegative(c, k.table);
  }

  lemma UpdatedKeeps(db: Db, k: RowKey, payer: Account, value: Bytes)
    requires Sound(db) && k in db.rows
    ensures Sound(Updated(db, k, payer, value))
  {
    var c := Updated(db, k, payer, value);
    forall a: Account ensures Moved(db, c, k, k.table, a) {}
    StaysBilled(db, c, k, k.table);
    StaysCounted(db, c, k);
  }

  lemma WithoutRowKeeps(db: Db, k: RowKey)
    requires Billed(db) && Counted(db) && k in db.rows
    ensures k.table in db.tables && Billed(WithoutRow(db, k)) && Counted(WithoutRow(db, k))
  {
    var c := WithoutRow(db, k);
    forall a: Account ensures Moved(db, c, k, k.table, a) {}
    StaysBilled(db, c, k, k.table);
    StaysCounted(db, c, k);
  }

  lemma WithoutTableKeeps(db: Db, t: TableKey, k: RowKey)
    requires Billed(db) && Counted(db) && t in db.tables && db.tables[t].count == 0 && k.table == t && k !in db.rows
    ensures Billed(WithoutTable(db, t)) && Counted(WithoutTable(db, t))
  {
    var c := WithoutTable(db, t);
    forall a: Account ensures Moved(db, c, k, t, a) {}
    StaysBilled(db, c, k, t);
    StaysCounted(db, c, k);
    SomeRow(db.rows, t, db.rows.Keys);
    assert CountOf(db.tables, t) == RowCount(db.rows, t);
    forall j <- c.rows ensures j.table in c.tables {
      assert Member(db.rows, j, t) != 1;
    }
  }

  lemma RemovedKeeps(db: Db, k: RowKey)
    requires Sound(db) && k in db.rows
    ensures k.table in db.tables && Sound(Removed(db, k))
  {
    var c := WithoutRow(db, k);
    WithoutRowKeeps(db, k);
    CountNonNegative(c, k.table);
    if c.tables[k.table].count == 0 { WithoutTableKeeps(c, k.table, k); }
  }

  /** Removing a row just stored undoes the store: rows and tables are as before, and so is every account's usage. */
  lemma RemoveUndoesStore(db: Db, k: RowKey, payer: Account, value: Bytes)
    requires Sound(db) && k !in db.rows
    ensures
      var c := Removed(Stored(db, k, payer, value), k);
      c.rows == db.rows && c.tables == db.tables
  {
    RowGoes(db, k, payer, value);
    if k.table in db.tables { assert db.tables[k.table].count > 0; }
  }

  lemma RowGoes(db: Db, k: RowKey, payer: Account, value: Bytes)
    requires k !in db.rows
    ensures
      var w := WithoutRow(Stored(db, k, payer, value), k);
      && w.rows == db.rows && (k.table in db.tables ==> w.tables == db.tables)
      && (k.table !in db.tables ==> w.tables[k.table].count == 0 && w.tables - {k.table} == db.tables)
  {
    var w := WithoutRow(Stored(db, k, payer, value), k);
    assert w.rows == db.rows;
    if k.table in db.tables { assert w.tables == db.tables; } else { assert w.tables - {k.table} == db.tables; }
  }

  lemma RemoveRefundsStore(db: Db, k: RowKey, payer: Account, value: Bytes, a: Account)
    requires Sound(db) && k !in db.rows
    ensures UsageOf(Removed(Stored(db, k, payer, value), k).usage, a) == UsageOf(db.usage, a)
  {
    if k.table in db.tables { assert db.tables[k.table].count > 0; }
  }

  // ---------- runs ----------

  datatype Op =
    | Store(key: RowKey, payer: Account, value: Bytes)
    | Update(key: RowKey, payer: Account, value: Bytes)
    | Remove(key: RowKey)

  /** The payer an update leaves: the row's own when none is named. */
  function PayerOf(row: Row, payer: Account): Account { if payer == NOBODY then row.payer else payer }

  /** An account may be charged when it is in `may`; refunds need no leave. */
  predicate CanStore(db: Db, k: RowKey, payer: Account, may: set<Account>) {
    payer != NOBODY && payer in may && k !in db.rows
  }

  predicate CanUpdate(db: Db, receiver: Account, k: RowKey, payer: Account, value: Bytes, may: set<Account>) {
    k in db.rows && k.table.code == receiver &&
    var row := db.rows[k];
    var p := PayerOf(row, payer);
    (p != row.payer || |value| > |row.value| ==> p in may)
  }

  predicate CanRemove(db: Db, receiver: Account, k: RowKey) {
    k in db.rows && k.table in db.tables && k.table.code == receiver
  }

  /** One operation of a contract run by `receiver`, refused or not. */
  function Step(db: Db, receiver: Account, may: set<Account>, op: Op): Db {
    match op
    case Store(k, payer, value) => if CanStore(db, k, payer, may) then Stored(db, k, payer, value) else db
    case Update(k, payer, value) =>
      if CanUpdate(db, receiver, k, payer, value, may) then Updated(db, k, PayerOf(db.rows[k], payer), value) else db
    case Remove(k) => if CanRemove(db, receiver, k) then Removed(db, k) else db
  }

  lemma StepKeeps(db: Db, receiver: Account, may: set<Account>, op: Op)
    requires Sound(db)
    ensures Sound(Step(db, receiver, may, op))
  {
    match op
    case Store(k, payer, value) => if CanStore(db, k, payer, may) { StoredKeeps(db, k, payer, value); }
    case Update(k, payer, value) =>
      if CanUpdate(db, receiver, k, payer, value, may) { UpdatedKeeps(db, k, PayerOf(db.rows[k], payer), value); }
    case Remove(k) => if CanRemove(db, receiver, k) { RemovedKeeps(db, k); }
  }

  /** No operation raises the usage of an account that may not be charged. */
  lemma ChargesNeedLeave(db: Db, receiver: Account, may: set<Account>, op: Op, a: Account)
    requires a !in may
    ensures UsageOf(Step(db, receiver, may, op).usage, a) <= UsageOf(db.usage, a)
  {
  }

  /** A run of operations, each with its contract and the accounts that may be charged. */
  function Run(db: Db, ops: seq<(Account, set<Account>, Op)>): Db {
    if ops == [] then db
    else
      var n := |ops| - 1;
      Step(Run(db, ops[..n]), ops[n].0, ops[n].1, ops[n].2)
  }

  lemma {:induction false} RunKeeps(db: Db, ops: seq<(Account, set<Account>, Op)>)
    requires Sound(db)
    ensures Sound(Run(db, ops))
  {
    if ops != [] {
      var n := |ops| - 1;
      RunKeeps(db, ops[..n]);
      StepKeeps(Run(db, ops[..n]), ops[n].0, ops[n].1, ops[n].2);
    }
  }

  /** An account that gave leave to no operation of a run is billed no more after it. */
  lemma {:induction false} RunChargesNeedLeave(db: Db, ops: seq<(Account, set<Account>, Op)>, a: Account)
    requires forall i | 0 <= i < |ops| :: a !in ops[i].1
    ensures UsageOf(Run(db, ops).usage, a) <= UsageOf(db.usage, a)
  {
    if ops != [] {
      var n := |ops| - 1;
      RunChargesNeedLeave(db, ops[..n], a);
      ChargesNeedLeave(Run(db, ops[..n]), ops[n].0, ops[n].1, ops[n].2, a);
    }
  }

  /** After every run from a sound database: exact bills, exact counts, and tables exactly where there are rows. */
  lemma RunBillsExactly(db: Db, ops: seq<(Account, set<Account>, Op)>, a: Account, t: TableKey)
    requires Sound(db)
    ensures UsageOf(Run(db, ops).usage, a) == Bill(Run(db, ops), a)
    ensures CountOf(Run(db, ops).tables, t) == RowCount(Run(db, ops).rows, t)
    ensures t in Run(db, ops).tables <==> exists k <- Run(db, ops).rows :: k.table == t
  {
    RunKeeps(db, ops);
    TableIffRow(Run(db, ops), t);
  }

  // ---------- what rows hold ----------

  /** The row `k` holds the value and is paid for by the payer; every other row is as before. */
  ghost predicate Writes(rows: map<RowKey, Row>, rows': map<RowKey, Row>, k: RowKey, payer: Account, value: Bytes) {
    k in rows' && rows'[k].payer == payer && rows'[k].value == value && Differs(rows, rows', k)
  }

  /** A store needs a payer that gave leave and a free key. An update needs leave of a payer that takes the row over or
      whose row grows. Only the contract that owns a row may change or remove it. */
  predicate Accepted(db: Db, receiver: Account, may: set<Account>, op: Op) {
    match op
    case Store(k, payer, value) => payer != NOBODY && payer in may && k !in db.rows
    case Update(k, payer, value) =>
      k in db.rows && k.table.code == receiver &&
      (if payer == NOBODY || payer == db.rows[k].payer
       then |value| <= |db.rows[k].value| || db.rows[k].payer in may else payer in may)
    case Remove(k) => k in db.rows && k.table.code == receiver
  }

  /** An accepted operation writes or removes the row it names and no other; a refused one changes nothing. */
  lemma StepRows(db: Db, receiver: Account, may: set<Account>, op: Op)
    requires Sound(db)
    ensures var rows := Step(db, receiver, may, op).rows;
            if !Accepted(db, receiver, may, op) then rows == db.rows
            else match op
              case Store(k, payer, value) => k !in db.rows && Writes(db.rows, rows, k, payer, value)
              case Update(k, payer, value) =>
                k in db.rows &&
                Writes(db.rows, rows, k, if payer == NOBODY then db.rows[k].payer else payer, value)
              case Remove(k) => k in db.rows && k !in rows && Differs(db.rows, rows, k)
  {
  }

  /** Operation `i` of the run is accepted and about the row `k`. */
  predicate Touches(db: Db, ops: seq<(Account, set<Account>, Op)>, i: nat, k: RowKey)
    requires i < |ops|
  {
    ops[i].2.key == k && Accepted(Run(db, ops[..i]), ops[i].0, ops[i].1, ops[i].2)
  }

  /** After operation `i` none about the row `k` is accepted up to `n`. */
  ghost predicate Untouched(db: Db, ops: seq<(Account, set<Account>, Op)>, i: nat, n: nat, k: RowKey)
    requires n <= |ops|
  {
    forall j: nat | i <= j < n :: !Touches(db, ops, j, k)
  }

  lemma RunStep(db: Db, ops: seq<(Account, set<Account>, Op)>, n: nat)
    requires n < |ops|
    ensures Run(db, ops[..n + 1]) == Step(Run(db, ops[..n]), ops[n].0, ops[n].1, ops[n].2)
  {
    assert ops[..n + 1][..n] == ops[..n];
  }

  /** A row that no operation touches is as before, or is still missing. */
  lemma {:induction false} RowStays(db: Db, ops: seq<(Account, set<Account>, Op)>, i: nat, n: nat, k: RowKey)
    requires Sound(db) && i <= n <= |ops| && Untouched(db, ops, i, n, k)
    ensures var before, after := Run(db, ops[..i]).rows, Run(db, ops[..n]).rows;
            (k in after <==> k in before) && (k in before ==> after[k] == before[k])
    decreases n
  {
    if i < n {
      RowStays(db, ops, i, n - 1, k);
      assert !Touches(db, ops, n - 1, k);
      RunStep(db, ops, n - 1);
      RunKeeps(db, ops[..n - 1]);
      StepRows(Run(db, ops[..n - 1]), ops[n - 1].0, ops[n - 1].1, ops[n - 1].2);
    }
  }

  /** Over every run, a row holds the value of the last store or update of it that was accepted, and is gone after an
      accepted removal. */
  lemma RunHoldsLastValue(db: Db, ops: seq<(Account, set<Account>, Op)>, i: nat, k: RowKey)
    requires Sound(db) && i < |ops| && Touches(db, ops, i, k) && Untouched(db, ops, i + 1, |ops|, k)
    ensures var rows, op := Run(db, ops).rows, ops[i].2;
            if op.Remove? then k !in rows
            else k in rows && rows[k].value == op.value && (op.payer != NOBODY ==> rows[k].payer == op.payer)
  {
    assert ops[..|ops|] == ops;
    RowStays(db, ops, i + 1, |ops|, k);
    RunStep(db, ops, i);
    RunKeeps(db, ops[..i]);
    StepRows(Run(db, ops[..i]), ops[i].0, ops[i].1, ops[i].2);
  }

  class Context {
    const receiver: Account
    var tables: map<TableKey, Table>
    var rows: map<RowKey, Row>
    var usage: map<Account, int>

    function View(): Db
      reads this
    {
      Db(tables, rows, usage)
    }

    ghost predicate Valid()
      reads this
    {
      Sound(View())
    }

    constructor (receiver: Account)
      ensures Valid() && View() == Db(map[], map[], map[]) && this.receiver == receiver
    {
      this.receiver, tables, rows, usage := receiver, map[], map[], map[];
    }

    /** Bills `delta` to `payer`; a charge needs leave. */
    method UpdateDbUsage(payer: Account, delta: int, may: set<Account>) returns (ok: bool)
      modifies this`usage
      ensures ok <==> delta <= 0 || payer in may
      ensures usage == if ok then Charged(old(usage), payer, delta) else old(usage)
    {
      if delta > 0 && payer !in may { return false; }
      usage := usage[payer := UsageOf(usage, payer) + delta];
      return true;
    }

    method FindOrCreateTable(t: TableKey, payer: Account, may: set<Account>) returns (ok: bool)
      modifies this`tables, this`usage
      ensures ok <==> t in old(tables) || payer in may
      ensures View() == if ok then WithTable(old(View()), t, payer) else old(View())
    {
      if t in tables { return true; }
      ok := UpdateDbUsage(payer, TABLE_SIZE, may);
      if ok { tables := tables[t := Table(payer, 0)]; }
    }

    method AddRow(k: RowKey, payer: Account, value: Bytes, may: set<Account>) returns (ok: bool)
      requires k.table in tables && payer in may
      modifies this
      ensures ok && View() == WithRow(old(View()), k, payer, value)
    {
      rows := rows[k := Row(payer, value)];
      tables := tables[k.table := Table(tables[k.table].payer, tables[k.table].count + 1)];
      ok := UpdateDbUsage(payer, |value| + ROW_SIZE, may);
    }

    /** Stores a new row, with its table if it is the first. */
    method Store(k: RowKey, payer: Account, value: Bytes, may: set<Account>) returns (ok: bool)
      requires Valid()
      modifies this
      ensures Valid()
      ensures ok == CanStore(old(View()), k, payer, may)
      ensures View() == if ok then Stored(old(View()), k, payer, value) else old(View())
      ensures ok ==> k !in old(rows) && Writes(old(rows), rows, k, payer, value)
    {
      var saved := (tables, usage);
      ok := FindOrCreateTable(k.table, payer, may);
      if !ok || payer == NOBODY || k in rows || payer !in may {
        tables, usage := saved.0, saved.1;
        return false;
      }
      ok := AddRow(k, payer, value, may);
      StoredKeeps(old(View()), k, payer, value);
    }

    /** Bills the change from `row` to a row of `payer` holding `value`. */
    method Rebill(row: Row, payer: Account, value: Bytes, may: set<Account>) returns (ok: bool)
      modifies this`usage
      ensures ok <==> (payer != row.payer || |value| > |row.value| ==> payer in may)
      ensures usage == if ok then Rebilled(old(usage), row, payer, value) else old(usage)
    {
      var oldSize, newSize := |row.value| + ROW_SIZE, |value| + ROW_SIZE;
      ok := true;
      if row.payer != payer {
        var saved := usage;
        ok := UpdateDbUsage(row.payer, -oldSize, may);
        ok := UpdateDbUsage(payer, newSize, may);
        if !ok { usage := saved; }
      } else if oldSize != newSize {
        ok := UpdateDbUsage(row.payer, newSize - oldSize, may);
      }
    }

    /** Rewrites a row; a change of payer refunds the old one and charges the new one. */
    method Update(k: RowKey, payer: Account, value: Bytes, may: set<Account>) returns (ok: bool)
      requires Valid()
      modifies this
      ensures Valid()
      ensures ok == CanUpdate(old(View()), receiver, k, payer, value, may)
      ensures View() == if ok then Updated(old(View()), k, PayerOf(old(rows)[k], payer), value) else old(View())
      ensures ok ==> Writes(old(rows), rows, k, if payer == NOBODY then old(rows)[k].payer else payer, value)
      ensures ok ==> tables == old(tables)
    {
      if k !in rows || k.table.code != receiver { return false; }
      var p := if payer == NOBODY then rows[k].payer else payer;
      ok := Rebill(rows[k], p, value, may);
      if !ok { return; }
      rows := rows[k := Row(p, value)];
      UpdatedKeeps(old(View()), k, p, value);
    }

    /** Removes a row, and its table with the last one. */
    method Remove(k: RowKey) returns (ok: bool)
      requires Valid()
      modifies this
      ensures Valid()
      ensures ok == CanRemove(old(View()), receiver, k)
      ensures ok ==> k.table in old(tables) && View() == Removed(old(View()), k)
      ensures ok ==> rows == old(rows) - {k}
      ensures !ok ==> View() == old(View())
    {
      if k !in rows || k.table !in tables || k.table.code != receiver { return false; }
      RemovedKeeps(View(), k);
      var row := rows[k];
      ok := UpdateDbUsage(row.payer, -(|row.value| + ROW_SIZE), {});
      tables := tables[k.table := Table(tables[k.table].payer, tables[k.table].count - 1)];
      rows := rows - {k};
      assert View() == WithoutRow(old(View()), k);
      if tables[k.table].count == 0 {
        ok := UpdateDbUsage(tables[k.table].payer, -TABLE_SIZE, {});
        tables := tables - {k.table};
      }
    }
  }
}
