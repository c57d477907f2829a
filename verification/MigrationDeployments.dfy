/** Several runs against one database: interruption, repetition, growing and edited directories. */
module MigrationDeployments {
  import opened Sequences
  import opened Wrappers
  import opened MigrationRuns

  // ---------------------------------------------------------------- snapshots

  lemma {:induction false} SeenInMore(front: seq<Row>, last: Row, n: string)
    requires last.checksum != ""
    ensures Seen(Snapshot(front + [last]), n) <==> Seen(Snapshot(front), n) || last.filename == n
  {
    var all := front + [last];
    assert all[..|all| - 1] == front && all[|all| - 1] == last;
  }

  lemma {:induction false} RecordedInMore(front: seq<Row>, last: Row, n: string)
    ensures Recorded(front + [last], n) <==> Recorded(front, n) || last.filename == n
  {
    RecordedInConcat(front, [last], n);
    assert Recorded([last], n) <==> last.filename == n by { assert [last][0] == last; }
  }

  ghost predicate SeenOrRecorded(ledger: seq<Row>, rows: seq<Row>, n: string) {
    Seen(Snapshot(ledger + rows), n) <==> Seen(Snapshot(ledger), n) || Recorded(rows, n)
  }

  lemma {:induction false} SeenAfterOneMore(ledger: seq<Row>, front: seq<Row>, last: Row, n: string)
    requires last.checksum != "" && SeenOrRecorded(ledger, front, n)
    ensures SeenOrRecorded(ledger, front + [last], n)
  {
    Associate(ledger, front, [last]);
    SeenInMore(ledger + front, last, n);
    RecordedInMore(front, last, n);
  }

  lemma {:induction false} SeenAfterRows(ledger: seq<Row>, rows: seq<Row>, n: string)
    requires forall i :: 0 <= i < |rows| ==> rows[i].checksum != ""
    ensures SeenOrRecorded(ledger, rows, n)
  {
    if rows == [] {
      assert ledger + rows == ledger;
    } else {
      var front, last := rows[..|rows| - 1], rows[|rows| - 1];
      SeenAfterRows(ledger, front, n);
      SeenAfterOneMore(ledger, front, last, n);
      assert rows == front + [last];
    }
  }

  predicate Named(ms: seq<Migration>, n: string) {
    exists i :: 0 <= i < |ms| && ms[i].name == n
  }

  /** After bodies were recorded, a fresh snapshot shows them and what was shown before. */
  lemma {:induction false} SeenAfter<S>(e: Engine<S>, ledger: seq<Row>, ms: seq<Migration>, n: string)
    requires e.Digests()
    ensures Seen(Snapshot(ledger + RowsOf(e, ms)), n) <==> Seen(Snapshot(ledger), n) || Named(ms, n)
  {
    SeenAfterRows(ledger, RowsOf(e, ms), n);
    var rows := RowsOf(e, ms);
    if Named(ms, n) {
      var i :| 0 <= i < |ms| && ms[i].name == n;
      assert rows[i].filename == n;
    }
    if Recorded(rows, n) {
      var i :| 0 <= i < |rows| && rows[i].filename == n;
      assert ms[i].name == n;
    }
  }

  // ---------------------------------------------------------------- splitting a run

  function Then<S>(first: Outcome<S>, second: Outcome<S>): Outcome<S> {
    Outcome(second.db, first.executed + second.executed, first.warned + second.warned, second.failed)
  }

  lemma {:induction false} ThenAfterMore<S>(first: Outcome<S>, second: Outcome<S>, m: Migration, n: string)
    ensures Then(first.(executed := [m] + first.executed), second) ==
            Then(first, second).(executed := [m] + Then(first, second).executed)
    ensures Then(first.(warned := [n] + first.warned), second) ==
            Then(first, second).(warned := [n] + Then(first, second).warned)
  {
    Associate([m], first.executed, second.executed);
    Associate([n], first.warned, second.warned);
  }

  lemma {:induction false} RunOfConcat<S>(e: Engine<S>, a: seq<Migration>, b: seq<Migration>,
                                          applied: map<string, string>, db: Db<S>)
    ensures var first := RunFrom(e, a, applied, db);
            RunFrom(e, a + b, applied, db) ==
            if first.failed != None then first else Then(first, RunFrom(e, b, applied, first.db))
  {
    if a == [] {
      assert a + b == b;
      assert [] + RunFrom(e, b, applied, db).executed == RunFrom(e, b, applied, db).executed;
      assert [] + RunFrom(e, b, applied, db).warned == RunFrom(e, b, applied, db).warned;
    } else {
      var m, tail := a[0], a[1..];
      assert (a + b)[1..] == tail + b;
      if Seen(applied, m.name) {
        RunOfConcat(e, tail, b, applied, db);
        var first := RunFrom(e, tail, applied, db);
        ThenAfterMore(first, RunFrom(e, b, applied, first.db), m, m.name);
      } else {
        match Transact(e, m, db) {
          case None =>
          case Some(next) =>
            RunOfConcat(e, tail, b, applied, next);
            var first := RunFrom(e, tail, applied, next);
            ThenAfterMore(first, RunFrom(e, b, applied, first.db), m, m.name);
        }
      }
    }
  }

  lemma {:induction false} PendingMembers(files: seq<Migration>, applied: map<string, string>)
    ensures forall m :: m in Pending(files, applied) <==> m in files && !Seen(applied, m.name)
  {
    if files != [] {
      PendingMembers(files[1..], applied);
      assert forall m :: m in files <==> m == files[0] || m in files[1..];
    }
  }

  /** Two snapshots that show the same files lead to the same run. */
  lemma {:induction false} SameSeenSameRun<S>(e: Engine<S>, files: seq<Migration>, one: map<string, string>,
                                              two: map<string, string>, db: Db<S>)
    requires forall i :: 0 <= i < |files| ==> (Seen(one, files[i].name) <==> Seen(two, files[i].name))
    ensures var x, y := RunFrom(e, files, one, db), RunFrom(e, files, two, db);
            x.db == y.db && x.executed == y.executed && x.failed == y.failed
  {
    if files != [] {
      if Seen(one, files[0].name) {
        SameSeenSameRun(e, files[1..], one, two, db);
      } else {
        match Transact(e, files[0], db) {
          case None =>
          case Some(next) => SameSeenSameRun(e, files[1..], one, two, next);
        }
      }
    }
  }

  lemma {:induction false} AllSeenChangesNothing<S>(e: Engine<S>, files: seq<Migration>, applied: map<string, string>,
                                                    db: Db<S>)
    requires forall i :: 0 <= i < |files| ==> Seen(applied, files[i].name)
    ensures var out := RunFrom(e, files, applied, db);
            out.db == db && out.executed == [] && out.failed == None
  {
    if files != [] { AllSeenChangesNothing(e, files[1..], applied, db); }
  }

  /** Where a failed run stopped. */
  lemma {:induction false} FailurePoint<S>(e: Engine<S>, files: seq<Migration>, applied: map<string, string>, db: Db<S>)
    returns (j: nat)
    requires RunFrom(e, files, applied, db).failed != None
    ensures j < |files| && !Seen(applied, files[j].name)
    ensures var out, ok := RunFrom(e, files, applied, db), RunFrom(e, files[..j], applied, db);
            && ok.failed == None && ok.db == out.db && ok.executed == out.executed
            && Transact(e, files[j], out.db) == None
            && out.failed == Some(files[j].name)
  {
    if Seen(applied, files[0].name) {
      var k := FailurePoint(e, files[1..], applied, db);
      j := k + 1;
      assert files[..j][1..] == files[1..][..k];
    } else {
      match Transact(e, files[0], db) {
        case None =>
          j := 0;
        case Some(next) =>
          var k := FailurePoint(e, files[1..], applied, next);
          j := k + 1;
          assert files[..j][1..] == files[1..][..k];
      }
    }
  }

  /** Once a run got through `files`, a fresh snapshot shows all of them. */
  lemma {:induction false} DoneFilesAreSeen<S>(e: Engine<S>, files: seq<Migration>, db: Db<S>)
    requires e.Digests() && Run(e, files, db).failed == None
    ensures forall i :: 0 <= i < |files| ==> Seen(Snapshot(Run(e, files, db).db.ledger), files[i].name)
  {
    var applied, out := Snapshot(db.ledger), Run(e, files, db);
    RunAppends(e, files, applied, db);
    RunExecutesLongestPrefix(e, files, applied, db);
    PendingMembers(files, applied);
    forall i | 0 <= i < |files| ensures Seen(Snapshot(out.db.ledger), files[i].name) {
      SeenAfter(e, db.ledger, out.executed, files[i].name);
      if !Seen(applied, files[i].name) {
        assert files[i] in out.executed;
      }
    }
  }

  /** A fresh snapshot taken after `done` ran says the same about every file not in `done`. */
  lemma {:induction false} OtherFilesUnaffected<S>(e: Engine<S>, done: seq<Migration>, db: Db<S>, n: string)
    requires e.Digests() && !Named(done, n)
    ensures Seen(Snapshot(Run(e, done, db).db.ledger), n) <==> Seen(Snapshot(db.ledger), n)
  {
    var applied, out := Snapshot(db.ledger), Run(e, done, db);
    RunAppends(e, done, applied, db);
    RunExecutesLongestPrefix(e, done, applied, db);
    PendingMembers(done, applied);
    SeenAfter(e, db.ledger, out.executed, n);
    forall i | 0 <= i < |out.executed| ensures out.executed[i].name != n {
      assert out.executed[i] in Pending(done, applied);
    }
  }

  lemma {:induction false} NotNamedBefore(done: seq<Migration>, rest: seq<Migration>, i: nat)
    requires DistinctNames(done + rest) && i < |rest|
    ensures !Named(done, rest[i].name)
  {
    var all := done + rest;
    assert all[|done| + i] == rest[i];
    assert forall k :: 0 <= k < |done| ==> all[k] == done[k];
  }

  /** A run whose snapshot shows `done`, and of `rest` what another snapshot shows: the other's run of `rest`. */
  lemma {:induction false} OnlyTheRest<S>(e: Engine<S>, done: seq<Migration>, rest: seq<Migration>,
                                         again: map<string, string>, applied: map<string, string>, db: Db<S>)
    requires forall i :: 0 <= i < |done| ==> Seen(again, done[i].name)
    requires forall i :: 0 <= i < |rest| ==> (Seen(again, rest[i].name) <==> Seen(applied, rest[i].name))
    ensures var x, y := RunFrom(e, done + rest, again, db), RunFrom(e, rest, applied, db);
            x.db == y.db && x.executed == y.executed && x.failed == y.failed
  {
    RunOfConcat(e, done, rest, again, db);
    AllSeenChangesNothing(e, done, again, db);
    SameSeenSameRun(e, rest, again, applied, db);
    var y := RunFrom(e, rest, again, db);
    assert [] + y.executed == y.executed;
  }

  /** Running on after `done` went through: only the rest is looked at. */
  lemma {:induction false} ResumeAfterSuccess<S>(e: Engine<S>, done: seq<Migration>, rest: seq<Migration>, db: Db<S>)
    requires e.Digests() && DistinctNames(done + rest)
    requires Run(e, done, db).failed == None
    ensures var first, whole := Run(e, done, db), Run(e, done + rest, db);
            var second := Run(e, done + rest, first.db);
            && second.db == whole.db && second.failed == whole.failed
            && first.executed + second.executed == whole.executed
  {
    var first := Run(e, done, db);
    var again := Snapshot(first.db.ledger);
    DoneFilesAreSeen(e, done, db);
    forall i | 0 <= i < |rest|
      ensures Seen(again, rest[i].name) <==> Seen(Snapshot(db.ledger), rest[i].name)
    {
      NotNamedBefore(done, rest, i);
      OtherFilesUnaffected(e, done, db, rest[i].name);
    }
    RunOfConcat(e, done, rest, Snapshot(db.ledger), db);
    OnlyTheRest(e, done, rest, again, Snapshot(db.ledger), first.db);
  }

  /** Running again after a failure: the same file fails again and nothing changes. */
  lemma {:induction false} ResumeAfterFailure<S>(e: Engine<S>, files: seq<Migration>, db: Db<S>)
    requires e.Digests() && DistinctNames(files)
    requires Run(e, files, db).failed != None
    ensures var first := Run(e, files, db);
            var second := Run(e, files, first.db);
            second.db == first.db && second.failed == first.failed && second.executed == []
  {
    var first := Run(e, files, db);
    var j := FailurePoint(e, files, Snapshot(db.ledger), db);
    var done, rest := files[..j], files[j..];
    assert done + rest == files && rest[0] == files[j];
    var again := Snapshot(first.db.ledger);
    DoneFilesAreSeen(e, done, db);
    AllSeenChangesNothing(e, done, again, first.db);
    NotNamedBefore(done, rest, 0);
    OtherFilesUnaffected(e, done, db, rest[0].name);
    RunOfConcat(e, done, rest, again, first.db);
  }

  // ---------------------------------------------------------------- main results

  /**
   * A run cut short after any number of files and then started again leaves the database, and
   * stops or finishes, exactly as one uninterrupted run does; no body runs twice.
   */
  lemma {:induction false} CutAndResume<S>(e: Engine<S>, files: seq<Migration>, k: nat, db: Db<S>)
    requires e.Digests() && DistinctNames(files) && k <= |files|
    ensures var cut, whole := Run(e, files[..k], db), Run(e, files, db);
            var resumed := Run(e, files, cut.db);
            && resumed.db == whole.db && resumed.failed == whole.failed
            && cut.executed + resumed.executed == whole.executed
  {
    var done, rest := files[..k], files[k..];
    assert done + rest == files;
    var cut := Run(e, done, db);
    if cut.failed == None {
      ResumeAfterSuccess(e, done, rest, db);
    } else {
      ResumeAfterFailure(e, done, db);
      RunOfConcat(e, done, rest, Snapshot(db.ledger), db);
      RunOfConcat(e, done, rest, Snapshot(cut.db.ledger), cut.db);
    }
  }

  /** A second run of a directory executes nothing and changes nothing, however the first one ended. */
  lemma {:induction false} SecondRunExecutesNothing<S>(e: Engine<S>, files: seq<Migration>, db: Db<S>)
    requires e.Digests() && DistinctNames(files)
    ensures var first := Run(e, files, db);
            var second := Run(e, files, first.db);
            second.executed == [] && second.db == first.db && second.failed == first.failed
  {
    assert files[..|files|] == files;
    CutAndResume(e, files, |files|, db);
  }

  /** One deployment after another, each working from its own list of files. */
  ghost function Deploy<S>(e: Engine<S>, releases: seq<seq<Migration>>, db: Db<S>): Db<S> {
    if releases == [] then db else Deploy(e, releases[1..], Run(e, releases[0], db).db)
  }

  /**
   * Any deployments, in any order, complete or cut short, of releases whose lists are prefixes
   * of `all`, followed by one of `all`, leave what a single run of `all` would have left.
   */
  lemma {:induction false} DeploymentsConverge<S>(e: Engine<S>, all: seq<Migration>, releases: seq<seq<Migration>>,
                                                  db: Db<S>)
    requires e.Digests() && DistinctNames(all)
    requires forall i :: 0 <= i < |releases| ==> releases[i] <= all
    ensures var last, once := Run(e, all, Deploy(e, releases, db)), Run(e, all, db);
            last.db == once.db && last.failed == once.failed
  {
    if releases != [] {
      var first := releases[0];
      assert first == all[..|first|];
      CutAndResume(e, all, |first|, db);
      DeploymentsConverge(e, all, releases[1..], Run(e, first, db).db);
    }
  }

  /** From an empty ledger, a run that finishes has applied the directory once, in order. */
  lemma {:induction false} ScratchRunIsTheFold<S>(e: Engine<S>, files: seq<Migration>, schema: S)
    requires e.Digests() && DistinctNames(files)
    ensures var out := Run(e, files, Db(schema, []));
            && out.executed <= files
            && out.db.ledger == RowsOf(e, out.executed)
            && Fold(e, out.executed, schema) == Some(out.db.schema)
            && (out.failed == None ==> Fold(e, files, schema) == Some(out.db.schema))
  {
    var db, out := Db(schema, []), Run(e, files, Db(schema, []));
    PendingAll(files, Snapshot([]));
    RunExecutesLongestPrefix(e, files, Snapshot([]), db);
    assert out.executed <= files && (out.failed == None ==> out.executed == files);
    RunAppends(e, files, Snapshot([]), db);
    assert [] + RowsOf(e, out.executed) == RowsOf(e, out.executed);
  }

  /**
   * Incremental equals from scratch: any deployments of growing releases, the last one complete,
   * leave the schema of the whole list applied once to the empty database.
   */
  lemma {:induction false} IncrementalEqualsScratch<S>(e: Engine<S>, all: seq<Migration>,
                                                       releases: seq<seq<Migration>>, schema: S)
    requires e.Digests() && DistinctNames(all)
    requires forall i :: 0 <= i < |releases| ==> releases[i] <= all
    requires Run(e, all, Deploy(e, releases, Db(schema, []))).failed == None
    ensures var last := Run(e, all, Deploy(e, releases, Db(schema, [])));
            Fold(e, all, schema) == Some(last.db.schema) && last.db.ledger == RowsOf(e, all)
  {
    DeploymentsConverge(e, all, releases, Db(schema, []));
    ScratchRunIsTheFold(e, all, schema);
    PendingAll(all, Snapshot([]));
    RunExecutesLongestPrefix(e, all, Snapshot([]), Db(schema, []));
  }
}
