/** One migration run: sorted files, a ledger snapshot, one transaction per pending file. */
module MigrationRuns {
  import opened Wrappers
  import opened MigrationFiles
  import opened Sequences

  /** A file of the migrations directory. */
  datatype Migration = Migration(name: string, sql: string)

  /** A row of `schema_migrations`; `filename` is the primary key. */
  datatype Row = Row(filename: string, checksum: string)

  /** The committed contents of the database. The ledger is in `applied_at` order. */
  datatype Db<S> = Db(schema: S, ledger: seq<Row>)

  /** How the server runs SQL on a schema (None: it raises an error), and the hex digest. */
  datatype Engine<!S> = Engine(exec: (string, S) -> Option<S>, hash: string -> string) {
    /** A hex digest is never the empty string. */
    ghost predicate Digests() {
      forall sql :: hash(sql) != ""
    }

    ghost predicate CollisionFree() {
      forall a, b :: hash(a) == hash(b) ==> a == b
    }
  }

  ghost predicate DistinctNames(files: seq<Migration>) {
    forall i, j :: 0 <= i < j < |files| ==> files[i].name != files[j].name
  }

  function NamesOf(ms: seq<Migration>): (names: seq<string>)
    ensures |names| == |ms|
  {
    seq(|ms|, i requires 0 <= i < |ms| => ms[i].name)
  }

  lemma {:induction false} AscendingNamesAreDistinct(ms: seq<Migration>)
    requires Ascending(NamesOf(ms))
    ensures DistinctNames(ms)
  {
    AscendingIsDistinct(NamesOf(ms));
    assert forall i :: 0 <= i < |ms| ==> NamesOf(ms)[i] == ms[i].name;
  }

  predicate Recorded(ledger: seq<Row>, name: string) {
    exists i :: 0 <= i < |ledger| && ledger[i].filename == name
  }

  lemma {:induction false} RecordedInConcat(a: seq<Row>, b: seq<Row>, n: string)
    ensures Recorded(a + b, n) <==> Recorded(a, n) || Recorded(b, n)
  {
    if Recorded(a, n) {
      var i :| 0 <= i < |a| && a[i].filename == n;
      assert (a + b)[i] == a[i];
    }
    if Recorded(b, n) {
      var i :| 0 <= i < |b| && b[i].filename == n;
      assert (a + b)[|a| + i] == b[i];
    }
  }

  function RowOf<S>(e: Engine<S>, m: Migration): Row {
    Row(m.name, e.hash(m.sql))
  }

  function RowsOf<S>(e: Engine<S>, ms: seq<Migration>): (rows: seq<Row>)
    ensures |rows| == |ms|
    ensures forall i :: 0 <= i < |ms| ==> rows[i] == RowOf(e, ms[i])
  {
    seq(|ms|, i requires 0 <= i < |ms| => RowOf(e, ms[i]))
  }

  /** The `applied` map: filename to checksum, a later row overriding an earlier one. */
  function Snapshot(ledger: seq<Row>): map<string, string> {
    if ledger == [] then map[]
    else Snapshot(ledger[..|ledger| - 1])[ledger[|ledger| - 1].filename := ledger[|ledger| - 1].checksum]
  }

  /** `applied.get(file)` is truthy: present and not the empty string. */
  predicate Seen(applied: map<string, string>, name: string) {
    name in applied && applied[name] != ""
  }

  /** begin; the file; the ledger row; commit. None: an error, and nothing was kept. */
  function Transact<S>(e: Engine<S>, m: Migration, db: Db<S>): Option<Db<S>> {
    match e.exec(m.sql, db.schema)
    case None => None
    case Some(schema) =>
      if Recorded(db.ledger, m.name) then None
      else Some(Db(schema, db.ledger + [RowOf(e, m)]))
  }

  /** What a run did: the files it executed, those it warned about, and the one it stopped at. */
  datatype Outcome<S> = Outcome(db: Db<S>, executed: seq<Migration>, warned: seq<string>, failed: Option<string>)

  function RunFrom<S>(e: Engine<S>, files: seq<Migration>, applied: map<string, string>, db: Db<S>): Outcome<S> {
    if files == [] then Outcome(db, [], [], None)
    else
      var m := files[0];
      if Seen(applied, m.name) then
        var rest := RunFrom(e, files[1..], applied, db);
        if applied[m.name] != e.hash(m.sql) then rest.(warned := [m.name] + rest.warned) else rest
      else
        match Transact(e, m, db)
        case None => Outcome(db, [], [], Some(m.name))
        case Some(next) =>
          var rest := RunFrom(e, files[1..], applied, next);
          rest.(executed := [m] + rest.executed)
  }

  function Run<S>(e: Engine<S>, files: seq<Migration>, db: Db<S>): Outcome<S> {
    RunFrom(e, files, Snapshot(db.ledger), db)
  }

  /** Applying bodies one after the other, with no ledger and no skipping. */
  ghost function Fold<S>(e: Engine<S>, ms: seq<Migration>, schema: S): Option<S> {
    if ms == [] then Some(schema)
    else match e.exec(ms[0].sql, schema)
      case None => None
      case Some(next) => Fold(e, ms[1..], next)
  }

  /** The files a run has still to execute. */
  ghost function Pending(files: seq<Migration>, applied: map<string, string>): seq<Migration> {
    if files == [] then []
    else if Seen(applied, files[0].name) then Pending(files[1..], applied)
    else [files[0]] + Pending(files[1..], applied)
  }

  // ---------------------------------------------------------------- the runner itself

  /** A database session. The server keeps the image of an open transaction apart from the committed one. */
  class Session<S> {
    var committed: Db<S>
    var open: Option<Db<S>>

    constructor (db: Db<S>)
      ensures committed == db && open == None
    {
      committed, open := db, None;
    }

    method Begin()
      requires open == None
      modifies this
      ensures committed == old(committed) && open == Some(committed)
    {
      open := Some(committed);
    }

    method Query(e: Engine<S>, sql: string) returns (ok: bool)
      requires open.Some?
      modifies this
      ensures committed == old(committed)
      ensures ok == e.exec(sql, old(open).value.schema).Some?
      ensures open ==
            if ok then Some(old(open).value.(schema := e.exec(sql, old(open).value.schema).value)) else old(open)
    {
      match e.exec(sql, open.value.schema) {
        case None => ok := false;
        case Some(schema) =>
          open := Some(open.value.(schema := schema));
          ok := true;
      }
    }

    method InsertRow(row: Row) returns (ok: bool)
      requires open.Some?
      modifies this
      ensures committed == old(committed)
      ensures ok == !Recorded(old(open).value.ledger, row.filename)
      ensures open == if ok then Some(old(open).value.(ledger := old(open).value.ledger + [row])) else old(open)
    {
      ok := !Recorded(open.value.ledger, row.filename);
      if ok {
        open := Some(open.value.(ledger := open.value.ledger + [row]));
      }
    }

    method Commit()
      requires open.Some?
      modifies this
      ensures committed == old(open).value && open == None
    {
      committed, open := open.value, None;
    }

    method Rollback()
      modifies this
      ensures committed == old(committed) && open == None
    {
      open := None;
    }

    /** One file in its own transaction; any error rolls it back. */
    method ApplyFile(e: Engine<S>, m: Migration) returns (ok: bool)
      requires open == None
      modifies this
      ensures open == None
      ensures ok == Transact(e, m, old(committed)).Some?
      ensures committed == if ok then Transact(e, m, old(committed)).value else old(committed)
    {
      Begin();
      ok := Query(e, m.sql);
      if ok {
        ok := InsertRow(RowOf(e, m));
      }
      if ok {
        Commit();
      } else {
        Rollback();
      }
    }

    /** The script: snapshot once, then the files in order until the first failure. */
    method Migrate(e: Engine<S>, files: seq<Migration>)
      returns (ran: nat, warned: seq<string>, failed: Option<string>)
      requires open == None
      modifies this
      ensures open == None
      ensures var out := Run(e, files, old(committed));
              committed == out.db && ran == |out.executed| && warned == out.warned && failed == out.failed
    {
      var applied := Snapshot(committed.ledger);
      ghost var whole := RunFrom(e, files, applied, committed);
      ghost var executed: seq<Migration> := [];
      ran, warned, failed := 0, [], None;
      for i := 0 to |files|
        invariant open == None && ran == |executed| && failed == None
        invariant Continues(whole, executed, warned, RunFrom(e, files[i..], applied, committed))
      {
        var m := files[i];
        assert files[i..][1..] == files[i + 1..];
        if Seen(applied, m.name) {
          if applied[m.name] != e.hash(m.sql) {
            warned := warned + [m.name];
          }
          continue;
        }
        var ok := ApplyFile(e, m);
        if !ok {
          failed := Some(m.name);
          return;
        }
        ContinuesExecuted(whole, executed, warned, m, RunFrom(e, files[i + 1..], applied, committed));
        ran, executed := ran + 1, executed + [m];
      }
    }
  }

  /** What is left of a run, behind what it has executed and warned about so far. */
  ghost predicate Continues<S>(whole: Outcome<S>, executed: seq<Migration>, warned: seq<string>, rest: Outcome<S>) {
    whole == rest.(executed := executed + rest.executed, warned := warned + rest.warned)
  }

  lemma {:induction false} ContinuesExecuted<S>(whole: Outcome<S>, executed: seq<Migration>, warned: seq<string>,
                                                m: Migration, rest: Outcome<S>)
    requires Continues(whole, executed, warned, rest.(executed := [m] + rest.executed))
    ensures Continues(whole, executed + [m], warned, rest)
  {
    Associate(executed, [m], rest.executed);
  }

  // ---------------------------------------------------------------- what a run means

  lemma {:induction false} FoldAppend<S>(e: Engine<S>, ms: seq<Migration>, ns: seq<Migration>, schema: S)
    ensures Fold(e, ms + ns, schema) ==
            match Fold(e, ms, schema) { case None => None case Some(mid) => Fold(e, ns, mid) }
  {
    if ms == [] {
      assert ms + ns == ns;
    } else {
      assert (ms + ns)[1..] == ms[1..] + ns;
      match e.exec(ms[0].sql, schema) {
        case None =>
        case Some(next) => FoldAppend(e, ms[1..], ns, next);
      }
    }
  }

  lemma {:induction false} SnapshotKeys(ledger: seq<Row>)
    ensures forall n :: n in Snapshot(ledger) <==> Recorded(ledger, n)
  {
    if ledger != [] {
      var front, last := ledger[..|ledger| - 1], ledger[|ledger| - 1];
      SnapshotKeys(front);
      forall n ensures n in Snapshot(ledger) <==> Recorded(ledger, n) {
        if Recorded(ledger, n) {
          var i :| 0 <= i < |ledger| && ledger[i].filename == n;
          if i < |front| { assert front[i].filename == n; }
        }
        if Recorded(front, n) {
          var i :| 0 <= i < |front| && front[i].filename == n;
          assert ledger[i].filename == n;
        }
        assert ledger[|ledger| - 1] == last;
      }
    }
  }

  ghost predicate Appends<S>(e: Engine<S>, db: Db<S>, executed: seq<Migration>, after: Db<S>) {
    && after.ledger == db.ledger + RowsOf(e, executed)
    && Fold(e, executed, db.schema) == Some(after.schema)
  }

  lemma {:induction false} RowsOfAppend<S>(e: Engine<S>, ms: seq<Migration>, ns: seq<Migration>)
    ensures RowsOf(e, ms + ns) == RowsOf(e, ms) + RowsOf(e, ns)
  {}

  lemma {:induction false} AppendsOneMore<S>(e: Engine<S>, m: Migration, db: Db<S>, rest: seq<Migration>, after: Db<S>)
    requires Transact(e, m, db).Some? && Appends(e, Transact(e, m, db).value, rest, after)
    ensures Appends(e, db, [m] + rest, after)
  {
    assert Fold(e, [m] + rest, db.schema) == Some(after.schema) by {
      assert ([m] + rest)[1..] == rest;
    }
    RowsOfAppend(e, [m], rest);
    Associate(db.ledger, RowsOf(e, [m]), RowsOf(e, rest));
    assert RowsOf(e, [m]) == [RowOf(e, m)];
  }

  /** A run appends exactly the rows of the bodies it executed, and its schema is their fold. */
  lemma {:induction false} RunAppends<S>(e: Engine<S>, files: seq<Migration>, applied: map<string, string>, db: Db<S>)
    ensures Appends(e, db, RunFrom(e, files, applied, db).executed, RunFrom(e, files, applied, db).db)
  {
    if files == [] {
      assert RowsOf(e, []) == [];
    } else if Seen(applied, files[0].name) {
      RunAppends(e, files[1..], applied, db);
    } else {
      match Transact(e, files[0], db) {
        case None =>
          assert RowsOf(e, []) == [];
        case Some(next) =>
          RunAppends(e, files[1..], applied, next);
          var rest := RunFrom(e, files[1..], applied, next);
          AppendsOneMore(e, files[0], db, rest.executed, rest.db);
      }
    }
  }

  ghost predicate StopsAtFirstFailure<S>(e: Engine<S>, pending: seq<Migration>, out: Outcome<S>) {
    && out.executed <= pending
    && (out.failed == None <==> out.executed == pending)
    && (out.failed != None ==>
          var next := pending[|out.executed|];
          out.failed == Some(next.name) && Transact(e, next, out.db) == None)
  }

  /**
   * A run executes the longest prefix of the pending files that succeeds, and names the file
   * it stopped at.
   */
  lemma {:induction false} RunExecutesLongestPrefix<S>(e: Engine<S>, files: seq<Migration>,
                                                       applied: map<string, string>, db: Db<S>)
    ensures StopsAtFirstFailure(e, Pending(files, applied), RunFrom(e, files, applied, db))
  {
    if files != [] {
      var m := files[0];
      if Seen(applied, m.name) {
        RunExecutesLongestPrefix(e, files[1..], applied, db);
      } else {
        match Transact(e, m, db) {
          case None =>
          case Some(next) =>
            RunExecutesLongestPrefix(e, files[1..], applied, next);
        }
      }
    }
  }

  lemma {:induction false} PendingAll(files: seq<Migration>, applied: map<string, string>)
    requires forall i :: 0 <= i < |files| ==> !Seen(applied, files[i].name)
    ensures Pending(files, applied) == files
  {
    if files != [] { PendingAll(files[1..], applied); }
  }

  lemma {:induction false} PendingNone(files: seq<Migration>, applied: map<string, string>)
    requires forall i :: 0 <= i < |files| ==> Seen(applied, files[i].name)
    ensures Pending(files, applied) == []
  {
    if files != [] { PendingNone(files[1..], applied); }
  }

  lemma {:induction false} PendingAppend(a: seq<Migration>, b: seq<Migration>, applied: map<string, string>)
    ensures Pending(a + b, applied) == Pending(a, applied) + Pending(b, applied)
  {
    if a == [] {
      assert a + b == b;
    } else {
      assert (a + b)[1..] == a[1..] + b;
      PendingAppend(a[1..], b, applied);
    }
  }
}
