/**
 * The load of an exported database: tables in dependency order, rows inserted with ON CONFLICT DO
 * NOTHING, and a comparison of row counts at the end. What equal counts prove, and what they do not.
 */
module BulkLoad {
  import opened Sequences

  datatype Record = Record(columns: map<string, string>)

  /** The exported object: its table names in the order of `Object.keys`, and the rows of each. */
  datatype Export = Export(names: seq<string>, rows: map<string, seq<Record>>) {
    ghost predicate Valid() {
      Distinct(names) && forall name :: name in names <==> name in rows
    }
  }

  /** What the destination's constraints do with a row: it clashes with a stored one, or it is an error. */
  datatype Schema = Schema(clashes: (string, Record, Record) -> bool, refuses: (string, Record) -> bool)

  const LEDGER := "schema_migrations"

  // ---------------------------------------------------------------- the order

  function Remaining(names: seq<string>, tableOrder: seq<string>): seq<string> {
    if names == [] then [] else
      var front, name := Remaining(names[..|names| - 1], tableOrder), names[|names| - 1];
      if name !in tableOrder && name != LEDGER then front + [name] else front
  }

  function FinalOrder(names: seq<string>, tableOrder: seq<string>): seq<string> {
    tableOrder + Remaining(names, tableOrder)
  }

  lemma {:induction false} RemainingAre(names: seq<string>, tableOrder: seq<string>)
    requires Distinct(names)
    ensures forall name :: name in Remaining(names, tableOrder) <==>
              name in names && name !in tableOrder && name != LEDGER
    ensures Distinct(Remaining(names, tableOrder))
  {
    if names != [] {
      var front, last := names[..|names| - 1], names[|names| - 1];
      RemainingAre(front, tableOrder);
      assert names == front + [last];
      assert last !in front;
    }
  }

  lemma {:induction false} RemainingInOrder(names: seq<string>, tableOrder: seq<string>, i: nat, j: nat)
    requires i < j < |Remaining(names, tableOrder)|
    ensures exists a, b :: 0 <= a < b < |names|
              && names[a] == Remaining(names, tableOrder)[i] && names[b] == Remaining(names, tableOrder)[j]
  {
    var last, rest := |names| - 1, Remaining(names, tableOrder);
    var front := names[..last];
    if j < |Remaining(front, tableOrder)| {
      RemainingInOrder(front, tableOrder, i, j);
      var a, b :| 0 <= a < b < |front| && front[a] == rest[i] && front[b] == rest[j];
      assert names[a] == rest[i] && names[b] == rest[j];
    } else {
      RemainingStand(front, tableOrder, i);
      var a :| 0 <= a < |front| && front[a] == rest[i];
      assert names[a] == rest[i] && names[last] == rest[j];
    }
  }

  lemma {:induction false} RemainingStand(names: seq<string>, tableOrder: seq<string>, i: nat)
    requires i < |Remaining(names, tableOrder)|
    ensures exists a :: 0 <= a < |names| && names[a] == Remaining(names, tableOrder)[i]
  {
    var last, rest := |names| - 1, Remaining(names, tableOrder);
    var front := names[..last];
    if i < |Remaining(front, tableOrder)| {
      RemainingStand(front, tableOrder, i);
      var a :| 0 <= a < |front| && front[a] == rest[i];
      assert names[a] == rest[i];
    } else {
      assert names[last] == rest[i];
    }
  }

  /** The listed tables come first, as listed, and the others behind them in the order of the export. */
  lemma {:induction false} ListedTablesComeFirst(names: seq<string>, tableOrder: seq<string>, i: nat, j: nat)
    requires |tableOrder| <= i < j < |FinalOrder(names, tableOrder)|
    ensures FinalOrder(names, tableOrder)[..|tableOrder|] == tableOrder
    ensures exists a, b :: 0 <= a < b < |names|
              && names[a] == FinalOrder(names, tableOrder)[i] && names[b] == FinalOrder(names, tableOrder)[j]
  {
    RemainingInOrder(names, tableOrder, i - |tableOrder|, j - |tableOrder|);
  }

  /** The order lists every exported table but the ledger, exactly once, and the ledger never. */
  lemma {:induction false} OrderListsEveryTableOnce(names: seq<string>, tableOrder: seq<string>)
    requires Distinct(names) && Distinct(tableOrder) && "schema_migrations" !in tableOrder
    ensures Distinct(FinalOrder(names, tableOrder))
    ensures forall name :: name in FinalOrder(names, tableOrder) <==>
              name in tableOrder || (name in names && name != "schema_migrations")
  {
    RemainingAre(names, tableOrder);
    var rest := Remaining(names, tableOrder);
    forall i, j | 0 <= i < j < |tableOrder + rest| ensures (tableOrder + rest)[i] != (tableOrder + rest)[j] {
      if i < |tableOrder| <= j { assert rest[j - |tableOrder|] in rest && tableOrder[i] in tableOrder; }
    }
  }

  // ---------------------------------------------------------------- loading

  predicate Skipped(schema: Schema, table: string, stored: seq<Record>, row: Record) {
    row.columns == map[] || exists i :: 0 <= i < |stored| && schema.clashes(table, row, stored[i])
  }

  /** How far a loop has come, and whether it is still going: an error ends the script where it stands. */
  datatype Progress<T> = Progress(now: T, ok: bool)

  /** What a table holds after its rows have been inserted, up to the first error. */
  function Inserted(schema: Schema, table: string, stored: seq<Record>, rows: seq<Record>): Progress<seq<Record>> {
    if rows == [] then Progress(stored, true) else
      var p, row := Inserted(schema, table, stored, rows[..|rows| - 1]), rows[|rows| - 1];
      if !p.ok || Skipped(schema, table, p.now, row) then p
      else if schema.refuses(table, row) then Progress(p.now, false)
      else Progress(p.now + [row], true)
  }

  /** One row: passed over without columns or when it clashes, an error when refused, and stored otherwise. */
  lemma {:induction false} OneRow(schema: Schema, table: string, stored: seq<Record>, row: Record)
    ensures Inserted(schema, table, stored, [row]) ==
              if row.columns == map[] || exists i :: 0 <= i < |stored| && schema.clashes(table, row, stored[i])
              then Progress(stored, true)
              else if schema.refuses(table, row) then Progress(stored, false) else Progress(stored + [row], true)
  {
    assert [row][..0] == [];
  }

  /** An error: the row that is refused, and the table as the rows before it left it. */
  lemma {:induction false} ErrorIsARefusal(schema: Schema, table: string, stored: seq<Record>, rows: seq<Record>)
    returns (n: nat)
    requires !Inserted(schema, table, stored, rows).ok
    ensures n < |rows| && schema.refuses(table, rows[n])
    ensures var before := Inserted(schema, table, stored, rows[..n]);
            before.ok && Inserted(schema, table, stored, rows).now == before.now
            && !Inserted(schema, table, before.now, [rows[n]]).ok
  {
    n := |rows| - 1;
    if !Inserted(schema, table, stored, rows[..n]).ok {
      n := ErrorIsARefusal(schema, table, stored, rows[..n]);
      assert rows[..|rows| - 1][..n] == rows[..n];
    } else {
      OneRow(schema, table, Inserted(schema, table, stored, rows[..n]).now, rows[n]);
    }
  }

  function RowsOf(exported: Export, table: string): seq<Record> {
    if table in exported.rows then exported.rows[table] else []
  }

  function Loaded(schema: Schema, exported: Export, tables: map<string, seq<Record>>, order: seq<string>)
    : Progress<map<string, seq<Record>>>
  {
    if order == [] then Progress(tables, true) else
      var p, table := Loaded(schema, exported, tables, order[..|order| - 1]), order[|order| - 1];
      if !p.ok || RowsOf(exported, table) == [] || table !in p.now then p else
        var q := Inserted(schema, table, p.now[table], RowsOf(exported, table));
        Progress(p.now[table := q.now], q.ok)
  }

  /** The destination database. */
  class Destination {
    const schema: Schema
    var tables: map<string, seq<Record>>

    constructor (schema: Schema, tables: map<string, seq<Record>>)
      ensures this.schema == schema && this.tables == tables
    {
      this.schema, this.tables := schema, tables;
    }

    /** INSERT ... ON CONFLICT DO NOTHING; false when the statement is an error. */
    method Insert(table: string, row: Record) returns (ok: bool)
      requires table in tables && row.columns != map[]
      modifies this
      ensures ok <==> Skipped(schema, table, old(tables)[table], row) || !schema.refuses(table, row)
      ensures tables == if !ok || Skipped(schema, table, old(tables)[table], row) then old(tables)
                        else old(tables)[table := old(tables)[table] + [row]]
    {
      if Skipped(schema, table, tables[table], row) { return true; }
      if schema.refuses(table, row) { return false; }
      tables := tables[table := tables[table] + [row]];
      ok := true;
    }

    /** The rows of one table; false when the script stops with an error. */
    method LoadTable(table: string, rows: seq<Record>) returns (ok: bool)
      requires table in tables
      modifies this
      ensures var p := Inserted(schema, table, old(tables)[table], rows);
              ok == p.ok && tables == old(tables)[table := p.now]
    {
      for i := 0 to |rows|
        invariant table in tables
        invariant Inserted(schema, table, old(tables)[table], rows[..i]) == Progress(tables[table], true)
        invariant tables == old(tables)[table := tables[table]]
      {
        assert rows[..i + 1][..i] == rows[..i];
        if rows[i].columns != map[] {
          ok := Insert(table, rows[i]);
          if !ok {
            ErrorStays(schema, table, old(tables)[table], rows, i + 1);
            return;
          }
        }
      }
      assert rows[..|rows|] == rows;
      ok := true;
    }

    /** Step 5 of `main`. */
    method Load(exported: Export, tableOrder: seq<string>) returns (ok: bool)
      modifies this
      ensures Loaded(schema, exported, old(tables), FinalOrder(exported.names, tableOrder)) == Progress(tables, ok)
    {
      var order := FinalOrder(exported.names, tableOrder);
      for i := 0 to |order|
        invariant Loaded(schema, exported, old(tables), order[..i]) == Progress(tables, true)
      {
        var table := order[i];
        assert order[..i + 1][..i] == order[..i];
        var rows := RowsOf(exported, table);
        if |rows| == 0 { continue; }
        if table !in tables { continue; }
        ok := LoadTable(table, rows);
        if !ok {
          LoadErrorStays(schema, exported, old(tables), order, i + 1);
          return;
        }
      }
      assert order[..|order|] == order;
      ok := true;
    }

    /** Step 6 of `main`: a table that cannot be counted counts as -1. */
    method Verify(exported: Export) returns (allMatched: bool)
      requires exported.Valid()
      ensures allMatched <==> CountsMatch(exported, tables)
    {
      allMatched := true;
      for i := 0 to |exported.names|
        invariant allMatched <==> forall j :: 0 <= j < i ==> CountMatches(exported, tables, exported.names[j])
      {
        var table := exported.names[i];
        if table == LEDGER { continue; }
        var source := |exported.rows[table]|;
        var count: int := if table in tables then |tables[table]| else -1;
        if source > 0 || count > 0 {
          if source != count { allMatched := false; }
        }
      }
    }
  }

  lemma {:induction false} ErrorStays(schema: Schema, table: string, stored: seq<Record>, rows: seq<Record>, n: nat)
    requires n <= |rows| && !Inserted(schema, table, stored, rows[..n]).ok
    ensures Inserted(schema, table, stored, rows) == Inserted(schema, table, stored, rows[..n])
    decreases |rows| - n
  {
    if n == |rows| {
      assert rows[..n] == rows;
    } else {
      assert rows[..n + 1][..n] == rows[..n];
      ErrorStays(schema, table, stored, rows, n + 1);
    }
  }

  lemma {:induction false} LoadErrorStays(schema: Schema, exported: Export, tables: map<string, seq<Record>>,
                                          order: seq<string>, n: nat)
    requires n <= |order| && !Loaded(schema, exported, tables, order[..n]).ok
    ensures Loaded(schema, exported, tables, order) == Loaded(schema, exported, tables, order[..n])
    decreases |order| - n
  {
    if n == |order| {
      assert order[..n] == order;
    } else {
      assert order[..n + 1][..n] == order[..n];
      LoadErrorStays(schema, exported, tables, order, n + 1);
    }
  }

  // ---------------------------------------------------------------- the counts

  predicate CountMatches(exported: Export, tables: map<string, seq<Record>>, table: string)
    requires table in exported.rows
  {
    table == LEDGER ||
      var source, count := |exported.rows[table]|, if table in tables then |tables[table]| else -1;
      source > 0 || count > 0 ==> source == count
  }

  predicate CountsMatch(exported: Export, tables: map<string, seq<Record>>)
    requires exported.Valid()
  {
    forall i :: 0 <= i < |exported.names| ==> CountMatches(exported, tables, exported.names[i])
  }

  /** The rows skipped on the way, in order. */
  function SkippedRows(schema: Schema, table: string, stored: seq<Record>, rows: seq<Record>): seq<Record> {
    if rows == [] then [] else
      var front, row := rows[..|rows| - 1], rows[|rows| - 1];
      var skipped := SkippedRows(schema, table, stored, front);
      if Skipped(schema, table, Inserted(schema, table, stored, front).now, row) then skipped + [row] else skipped
  }

  ghost predicate Conserved(now: seq<Record>, skipped: seq<Record>, stored: seq<Record>, rows: seq<Record>) {
    multiset(now) + multiset(skipped) == multiset(stored) + multiset(rows)
  }

  lemma {:induction false} OneRowMore(now: seq<Record>, skipped: seq<Record>, stored: seq<Record>, rows: seq<Record>,
                                      row: Record)
    requires Conserved(now, skipped, stored, rows)
    ensures Conserved(now + [row], skipped, stored, rows + [row])
    ensures Conserved(now, skipped + [row], stored, rows + [row])
  {
    var a, b, one := multiset(now), multiset(skipped), multiset{row};
    assert multiset(now + [row]) == a + one && multiset(skipped + [row]) == b + one;
    assert a + one + b == a + b + one && a + (b + one) == a + b + one;
    assert multiset(rows + [row]) == multiset(rows) + one;
    assert multiset(stored) + (multiset(rows) + one) == multiset(stored) + multiset(rows) + one;
  }

  /** The table now and the rows skipped are, copy by copy, the table before and the rows exported. */
  lemma {:induction false} RowsAreConserved(schema: Schema, table: string, stored: seq<Record>, rows: seq<Record>)
    requires Inserted(schema, table, stored, rows).ok
    ensures Conserved(Inserted(schema, table, stored, rows).now, SkippedRows(schema, table, stored, rows), stored, rows)
  {
    if rows != [] {
      var front, row := rows[..|rows| - 1], rows[|rows| - 1];
      assert rows == front + [row];
      RowsAreConserved(schema, table, stored, front);
      var now, skipped := Inserted(schema, table, stored, front).now, SkippedRows(schema, table, stored, front);
      OneRowMore(now, skipped, stored, front, row);
    }
  }

  /** The pigeonhole: every row is stored or skipped, so nothing skipped means everything stored, in order. */
  lemma {:induction false} StoredOrSkipped(schema: Schema, table: string, stored: seq<Record>, rows: seq<Record>)
    requires Inserted(schema, table, stored, rows).ok
    ensures var now, skipped := Inserted(schema, table, stored, rows).now, SkippedRows(schema, table, stored, rows);
            && |now| + |skipped| == |stored| + |rows|
            && (skipped == [] <==> now == stored + rows)
  {
    if rows == [] {
      assert stored + rows == stored;
    } else {
      var front, row := rows[..|rows| - 1], rows[|rows| - 1];
      StoredOrSkipped(schema, table, stored, front);
      assert rows == front + [row];
      Associate(stored, front, [row]);
    }
  }

  /** The exported rows that clash with a row seeded beforehand, or have no columns. */
  function ClashingRows(schema: Schema, table: string, seeded: seq<Record>, rows: seq<Record>): seq<Record> {
    if rows == [] then [] else
      var front, row := rows[..|rows| - 1], rows[|rows| - 1];
      var clashing := ClashingRows(schema, table, seeded, front);
      if Skipped(schema, table, seeded, row) then clashing + [row] else clashing
  }

  /** No row clashes with one before it, as in a table that has the same keys. */
  predicate Compatible(schema: Schema, table: string, rows: seq<Record>) {
    forall i, j :: 0 <= i < j < |rows| ==> !schema.clashes(table, rows[j], rows[i])
  }

  /** If the exported rows do not clash among themselves, it is known beforehand which are skipped. */
  lemma {:induction false} SkippedAreTheClashing(schema: Schema, table: string, stored: seq<Record>, rows: seq<Record>)
    requires Inserted(schema, table, stored, rows).ok && Compatible(schema, table, rows)
    ensures SkippedRows(schema, table, stored, rows) == ClashingRows(schema, table, stored, rows)
    ensures var now := Inserted(schema, table, stored, rows).now;
            && |stored| <= |now| && now[..|stored|] == stored
            && forall k :: |stored| <= k < |now| ==> now[k] in rows
  {
    if rows != [] {
      var front, row := rows[..|rows| - 1], rows[|rows| - 1];
      SkippedAreTheClashing(schema, table, stored, front);
      assert rows == front + [row];
      var now := Inserted(schema, table, stored, front).now;
      forall k | |stored| <= k < |now| ensures !schema.clashes(table, row, now[k]) {
        var i :| 0 <= i < |front| && front[i] == now[k];
        assert rows[i] == now[k];
      }
      assert forall k :: 0 <= k < |stored| ==> now[k] == stored[k] by { assert now[..|stored|] == stored; }
    }
  }

  /** A table of the order is loaded at its own turn only. */
  lemma {:induction false} LoadedTable(schema: Schema, exported: Export, tables: map<string, seq<Record>>,
                                       order: seq<string>, table: string)
    requires Distinct(order) && Loaded(schema, exported, tables, order).ok
    ensures var after := Loaded(schema, exported, tables, order).now;
            && (table in after <==> table in tables)
            && (table in tables && table !in order ==> after[table] == tables[table])
            && (table in tables && table in order ==>
                  Inserted(schema, table, tables[table], RowsOf(exported, table)) == Progress(after[table], true))
  {
    if order != [] {
      var front, last := order[..|order| - 1], order[|order| - 1];
      assert order == front + [last];
      assert last !in front;
      LoadedTable(schema, exported, tables, front, table);
    }
  }

  /** A load that stops does so in one table: those before are loaded, it is loaded in part, no other is touched. */
  lemma {:induction false} LoadStopsInOneTable(schema: Schema, exported: Export, tables: map<string, seq<Record>>,
                                               order: seq<string>) returns (k: nat)
    requires !Loaded(schema, exported, tables, order).ok
    ensures k < |order| && order[k] in exported.rows
    ensures var before := Loaded(schema, exported, tables, order[..k]);
            && before.ok && order[k] in before.now
            && var stopped := Inserted(schema, order[k], before.now[order[k]], exported.rows[order[k]]);
               !stopped.ok && Loaded(schema, exported, tables, order).now == before.now[order[k] := stopped.now]
  {
    k := |order| - 1;
    if !Loaded(schema, exported, tables, order[..k]).ok {
      k := LoadStopsInOneTable(schema, exported, tables, order[..k]);
      assert order[..|order| - 1][..k] == order[..k];
    }
  }

  /** The counts compared, in so many words: as many rows as exported, in every exported table but the ledger. */
  lemma {:induction false} CountsMatchIff(exported: Export, tables: map<string, seq<Record>>)
    requires exported.Valid()
    ensures CountsMatch(exported, tables) <==>
              forall table :: table in exported.rows && table != "schema_migrations" ==>
                |TableOf(tables, table)| == |exported.rows[table]|
  {
    if CountsMatch(exported, tables) {
      forall table | table in exported.rows && table != "schema_migrations"
        ensures |TableOf(tables, table)| == |exported.rows[table]|
      {
        var i :| 0 <= i < |exported.names| && exported.names[i] == table;
        assert CountMatches(exported, tables, exported.names[i]);
      }
    }
  }

  predicate Complete(exported: Export, tables: map<string, seq<Record>>, table: string)
    requires table in exported.rows
  {
    exported.rows[table] == [] || (table in tables && tables[table] == exported.rows[table])
  }

  lemma {:induction false} TableComplete(schema: Schema, exported: Export, before: map<string, seq<Record>>,
                                        order: seq<string>, after: map<string, seq<Record>>, table: string)
    requires Distinct(order) && Loaded(schema, exported, before, order) == Progress(after, true)
    requires table in exported.rows && table in order && table != LEDGER
    requires table in before ==> before[table] == []
    ensures CountMatches(exported, after, table) <==> Complete(exported, after, table)
  {
    LoadedTable(schema, exported, before, order, table);
    if table in before {
      StoredOrSkipped(schema, table, [], exported.rows[table]);
      assert [] + exported.rows[table] == exported.rows[table];
    }
  }

  /**
   * For a destination whose tables were empty: the counts all match exactly when every exported row of
   * every table but the ledger is stored, in order, and no table with rows was passed over.
   */
  lemma {:induction false} MatchingCountsMeanComplete(schema: Schema, exported: Export, tableOrder: seq<string>,
                                                     before: map<string, seq<Record>>, after: map<string, seq<Record>>)
    requires exported.Valid() && Distinct(tableOrder) && LEDGER !in tableOrder
    requires Loaded(schema, exported, before, FinalOrder(exported.names, tableOrder)) == Progress(after, true)
    requires forall table :: table in before && table in exported.rows && table != LEDGER ==> before[table] == []
    ensures CountsMatch(exported, after) <==>
              forall table :: table in exported.rows && table != LEDGER ==> Complete(exported, after, table)
  {
    var order := FinalOrder(exported.names, tableOrder);
    OrderListsEveryTableOnce(exported.names, tableOrder);
    forall table | table in exported.rows && table != LEDGER
      ensures CountMatches(exported, after, table) <==> Complete(exported, after, table)
    {
      TableComplete(schema, exported, before, order, after, table);
    }
    forall table | table in exported.rows ensures exists i :: 0 <= i < |exported.names| && exported.names[i] == table {
      assert table in exported.names;
    }
  }

  function TableOf(tables: map<string, seq<Record>>, table: string): seq<Record> {
    if table in tables then tables[table] else []
  }

  /** The table holds the exported rows and no others, each as often as the export does. */
  ghost predicate Holds(exported: Export, tables: map<string, seq<Record>>, table: string)
    requires table in exported.rows
  {
    multiset(TableOf(tables, table)) == multiset(exported.rows[table])
  }

  /** What the export skips at a table is what had been seeded into it; and no row is without a table. */
  ghost predicate SkipsTheSeeded(schema: Schema, exported: Export, before: map<string, seq<Record>>, table: string)
    requires table in exported.rows
  {
    && multiset(SkippedRows(schema, table, TableOf(before, table), exported.rows[table])) ==
        multiset(TableOf(before, table))
    && (table in before || exported.rows[table] == [])
  }

  /**
   * With rows seeded beforehand the counts prove less. For a table with exported rows they match exactly
   * when as many rows were skipped as had been seeded; the table holds the exported rows and no others
   * exactly when the rows skipped are the rows seeded, copy by copy; and no exported row is lost exactly
   * when no skipped row is.
   */
  lemma {:induction false} MatchingCountsWithSeededRows(schema: Schema, exported: Export,
                                                       before: map<string, seq<Record>>, order: seq<string>,
                                                       after: map<string, seq<Record>>, table: string)
    requires Distinct(order) && Loaded(schema, exported, before, order) == Progress(after, true)
    requires table in exported.rows && exported.rows[table] != []
    requires table in order && table != LEDGER && table in before
    ensures table in after
    ensures var rows, skipped := exported.rows[table], SkippedRows(schema, table, before[table], exported.rows[table]);
            && (CountMatches(exported, after, table) <==> |skipped| == |before[table]|)
            && (Holds(exported, after, table) <==> multiset(skipped) == multiset(before[table]))
            && ((forall row :: row in rows ==> row in after[table]) <==>
                (forall row :: row in skipped ==> row in after[table]))
  {
    LoadedTable(schema, exported, before, order, table);
    StoredOrSkipped(schema, table, before[table], exported.rows[table]);
    RowsAreConserved(schema, table, before[table], exported.rows[table]);
    RowsArePlacedOrSkipped(schema, table, before[table], exported.rows[table]);
    var skipped := SkippedRows(schema, table, before[table], exported.rows[table]);
    Cancel(after[table], skipped, before[table], exported.rows[table]);
  }

  lemma {:induction false} Cancel(a: seq<Record>, b: seq<Record>, c: seq<Record>, d: seq<Record>)
    requires Conserved(a, b, c, d)
    ensures multiset(a) == multiset(d) <==> multiset(b) == multiset(c)
  {
    assert multiset(b) + multiset(a) == multiset(a) + multiset(b) &&
        multiset(d) + multiset(c) == multiset(c) + multiset(d);
    if multiset(a) == multiset(d) { CancelOneWay(multiset(a), multiset(b), multiset(c), multiset(d)); }
    if multiset(b) == multiset(c) { CancelOneWay(multiset(b), multiset(a), multiset(d), multiset(c)); }
  }

  lemma {:induction false} CancelOneWay(a: multiset<Record>, b: multiset<Record>, c: multiset<Record>,
                                        d: multiset<Record>)
    requires a + b == c + d && a == d
    ensures b == c
  {
    assert b == (a + b) - a;
    assert c == (c + d) - d;
  }

  lemma {:induction false} RowsArePlacedOrSkipped(schema: Schema, table: string, stored: seq<Record>, rows: seq<Record>)
    requires Inserted(schema, table, stored, rows).ok
    ensures forall row :: row in rows ==>
              row in Inserted(schema, table, stored, rows).now || row in SkippedRows(schema, table, stored, rows)
    ensures forall row :: row in SkippedRows(schema, table, stored, rows) ==> row in rows
  {
    if rows != [] {
      assert rows == rows[..|rows| - 1] + [rows[|rows| - 1]];
      RowsArePlacedOrSkipped(schema, table, stored, rows[..|rows| - 1]);
    }
  }

  lemma {:induction false} HoldsIffSkipsTheSeeded(schema: Schema, exported: Export, before: map<string, seq<Record>>,
                                                 order: seq<string>, after: map<string, seq<Record>>, table: string)
    requires Distinct(order) && Loaded(schema, exported, before, order) == Progress(after, true)
    requires table in exported.rows && table in order && table != LEDGER
    ensures Holds(exported, after, table) <==> SkipsTheSeeded(schema, exported, before, table)
    ensures Holds(exported, after, table) ==> CountMatches(exported, after, table)
  {
    LoadedTable(schema, exported, before, order, table);
    if table in before && exported.rows[table] != [] {
      MatchingCountsWithSeededRows(schema, exported, before, order, after, table);
      assert |after[table]| == |multiset(after[table])|;
    }
  }

  /**
   * For every destination: after a load that goes through, every table but the ledger holds exactly its
   * exported rows if and only if at every one the rows skipped are the rows seeded. Then the counts match.
   */
  lemma {:induction false} LoadIsExactIff(schema: Schema, exported: Export, tableOrder: seq<string>,
                                         before: map<string, seq<Record>>, after: map<string, seq<Record>>)
    requires exported.Valid() && Distinct(tableOrder) && LEDGER !in tableOrder
    requires Loaded(schema, exported, before, FinalOrder(exported.names, tableOrder)) == Progress(after, true)
    ensures (forall table :: table in exported.rows && table != LEDGER ==> Holds(exported, after, table)) <==>
              forall table :: table in exported.rows && table != LEDGER ==>
                  SkipsTheSeeded(schema, exported, before, table)
    ensures (forall table :: table in exported.rows && table != LEDGER ==> Holds(exported, after, table)) ==>
              CountsMatch(exported, after)
  {
    var order := FinalOrder(exported.names, tableOrder);
    OrderListsEveryTableOnce(exported.names, tableOrder);
    forall table | table in exported.rows && table != LEDGER
      ensures Holds(exported, after, table) <==> SkipsTheSeeded(schema, exported, before, table)
      ensures Holds(exported, after, table) ==> CountMatches(exported, after, table)
    {
      HoldsIffSkipsTheSeeded(schema, exported, before, order, after, table);
    }
  }

  /** One seeded row that clashes with an exported one is enough: the counts match and the exported row is not there. */
  lemma {:induction false} SeededRowHidesALoss(schema: Schema, table: string, seeded: Record, lost: Record)
    requires table != LEDGER && seeded != lost && schema.clashes(table, lost, seeded)
    ensures var exported := Export([table], map[table := [lost]]);
            var after := Loaded(schema, exported, map[table := [seeded]], FinalOrder(exported.names, [table]));
            exported.Valid() && after.ok && CountsMatch(exported, after.now)
            && table in after.now && lost !in after.now[table]
  {
    var exported := Export([table], map[table := [lost]]);
    assert [table][..0] == [] && [lost][..0] == [];
    assert Remaining([table], [table]) == [];
    assert FinalOrder(exported.names, [table]) == [table];
    assert Skipped(schema, table, [seeded], lost) by { assert schema.clashes(table, lost, [seeded][0]); }
    assert Inserted(schema, table, [seeded], [lost]) == Progress([seeded], true);
  }
}
