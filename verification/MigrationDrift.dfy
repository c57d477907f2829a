/** Directories that do not just grow at the end: when deployments drift from a fresh database, and when they warn. */
module MigrationDrift {
  import opened Sequences
  import opened Wrappers
  import opened Text
  import opened MigrationFiles
  import opened MigrationRuns
  import opened MigrationDeployments

  // ---------------------------------------------------------------- when it fails

  /** An engine on which every body succeeds and the schema is the list of bodies that ran. */
  function Journal(): Engine<seq<string>> {
    Engine((sql: string, s: seq<string>) => Some(s + [sql]), (sql: string) => "#" + sql)
  }

  function BodiesOf(ms: seq<Migration>): (sqls: seq<string>)
    ensures |sqls| == |ms|
  {
    seq(|ms|, i requires 0 <= i < |ms| => ms[i].sql)
  }

  lemma {:induction false} JournalFold(ms: seq<Migration>, s: seq<string>)
    ensures Fold(Journal(), ms, s) == Some(s + BodiesOf(ms))
  {
    if ms != [] {
      JournalFold(ms[1..], s + [ms[0].sql]);
      assert BodiesOf(ms) == [ms[0].sql] + BodiesOf(ms[1..]);
      Associate(s, [ms[0].sql], BodiesOf(ms[1..]));
    } else {
      assert s + BodiesOf(ms) == s;
    }
  }

  lemma {:induction false} NeverFailing<S>(e: Engine<S>, files: seq<Migration>, applied: map<string, string>, db: Db<S>)
    requires forall sql, s :: e.exec(sql, s).Some?
    requires DistinctNames(files)
    requires forall i :: 0 <= i < |files| ==> Seen(applied, files[i].name) || !Recorded(db.ledger, files[i].name)
    ensures RunFrom(e, files, applied, db).failed == None
  {
    if files != [] {
      if Seen(applied, files[0].name) {
        NeverFailing(e, files[1..], applied, db);
      } else {
        assert Transact(e, files[0], db).Some?;
        var next := Transact(e, files[0], db).value;
        forall i | 0 <= i < |files[1..]|
          ensures Seen(applied, files[1..][i].name) || !Recorded(next.ledger, files[1..][i].name)
        {
          assert files[1..][i] == files[i + 1];
        }
        NeverFailing(e, files[1..], applied, next);
      }
    }
  }

  /**
   * When the directory changes from `before` to `after` and every run goes through, the incremental
   * ledger is the ledger of one run on an empty database exactly when the rows of `before` are a prefix
   * of those of `after`: nothing edited, nothing removed, nothing sorted in between.
   */
  lemma {:induction false} IncrementalIffPrefix<S>(e: Engine<S>, before: seq<Migration>, after: seq<Migration>,
                                                   schema: S)
    requires e.Digests() && DistinctNames(after)
    requires Run(e, before, Db(schema, [])).failed == None && Run(e, after, Db(schema, [])).failed == None
    requires Run(e, after, Run(e, before, Db(schema, [])).db).failed == None
    ensures var incremental := Run(e, after, Run(e, before, Db(schema, [])).db).db;
            incremental.ledger == Run(e, after, Db(schema, [])).db.ledger
            <==> RowsOf(e, before) <= RowsOf(e, after)
  {
    var first := Run(e, before, Db(schema, []));
    ScratchIsEverything(e, before, schema);
    ScratchIsEverything(e, after, schema);
    var applied := Snapshot(first.db.ledger);
    RunAppends(e, after, applied, first.db);
    RunExecutesLongestPrefix(e, after, applied, first.db);
    if RowsOf(e, before) <= RowsOf(e, after) {
      PrefixLeavesTheRest(e, before, after);
    }
  }

  lemma {:induction false} ScratchIsEverything<S>(e: Engine<S>, files: seq<Migration>, schema: S)
    requires Run(e, files, Db(schema, [])).failed == None
    ensures Run(e, files, Db(schema, [])).db.ledger == RowsOf(e, files)
  {
    PendingAll(files, Snapshot([]));
    RunExecutesLongestPrefix(e, files, Snapshot([]), Db(schema, []));
    RunAppends(e, files, Snapshot([]), Db(schema, []));
    assert [] + RowsOf(e, files) == RowsOf(e, files);
  }

  lemma {:induction false} PrefixLeavesTheRest<S>(e: Engine<S>, before: seq<Migration>, after: seq<Migration>)
    requires e.Digests() && DistinctNames(after) && RowsOf(e, before) <= RowsOf(e, after)
    ensures var applied := Snapshot(RowsOf(e, before));
            RowsOf(e, before) + RowsOf(e, Pending(after, applied)) == RowsOf(e, after)
  {
    var k := |before|;
    var older, newer := after[..k], after[k..];
    assert older + newer == after;
    RowsOfAppend(e, older, newer);
    assert RowsOf(e, older) == RowsOf(e, before);
    PendingIsTheRest(e, older, newer);
  }

  lemma {:induction false} PendingIsTheRest<S>(e: Engine<S>, older: seq<Migration>, newer: seq<Migration>)
    requires e.Digests() && DistinctNames(older + newer)
    ensures Pending(older + newer, Snapshot(RowsOf(e, older))) == newer
  {
    var applied := Snapshot(RowsOf(e, older));
    assert [] + RowsOf(e, older) == RowsOf(e, older);
    forall i | 0 <= i < |older| ensures Seen(applied, older[i].name) {
      SeenAfter(e, [], older, older[i].name);
    }
    forall i | 0 <= i < |newer| ensures !Seen(applied, newer[i].name) {
      NotNamedBefore(older, newer, i);
      SeenAfter(e, [], older, newer[i].name);
    }
    PendingAppend(older, newer, applied);
    PendingNone(older, applied);
    PendingAll(newer, applied);
  }

  /** On an empty database the journal engine runs every file and lists its body. */
  lemma {:induction false} JournalRun(files: seq<Migration>)
    requires DistinctNames(files)
    ensures var out := Run(Journal(), files, Db([], []));
            out.failed == None && out.db == Db(BodiesOf(files), RowsOf(Journal(), files))
  {
    var e, empty: Db<seq<string>> := Journal(), Db([], []);
    NeverFailing(e, files, Snapshot([]), empty);
    ScratchIsEverything(e, files, []);
    ScratchRunIsTheFold(e, files, []);
    JournalFold(files, []);
    assert [] + BodiesOf(files) == BodiesOf(files);
  }

  /** On what `before` left it runs the files it does not find recorded, behind what ran already. */
  lemma {:induction false} JournalRunsOn(before: seq<Migration>, after: seq<Migration>)
    requires DistinctNames(before) && DistinctNames(after)
    ensures var db := Db(BodiesOf(before), RowsOf(Journal(), before));
            var out := Run(Journal(), after, db);
            out.failed == None && out.db.schema == BodiesOf(before) + BodiesOf(Pending(after, Snapshot(db.ledger)))
  {
    var e := Journal();
    var db := Db(BodiesOf(before), RowsOf(e, before));
    var applied := Snapshot(db.ledger);
    forall i | 0 <= i < |after| ensures Seen(applied, after[i].name) || !Recorded(db.ledger, after[i].name) {
      SeenIffNamed(e, before, after[i].name);
      if Recorded(db.ledger, after[i].name) {
        var k :| 0 <= k < |db.ledger| && db.ledger[k].filename == after[i].name;
        assert before[k].name == after[i].name;
      }
    }
    NeverFailing(e, after, applied, db);
    RunExecutesLongestPrefix(e, after, applied, db);
    RunAppends(e, after, applied, db);
    JournalFold(Pending(after, applied), db.schema);
  }

  lemma {:induction false} SeenIffNamed<S>(e: Engine<S>, ms: seq<Migration>, n: string)
    requires e.Digests()
    ensures Seen(Snapshot(RowsOf(e, ms)), n) <==> Named(ms, n)
  {
    assert [] + RowsOf(e, ms) == RowsOf(e, ms);
    SeenAfter(e, [], ms, n);
  }

  lemma {:induction false} BodyAt(ms: seq<Migration>, i: nat)
    requires i < |ms|
    ensures BodiesOf(ms)[i] == ms[i].sql
  {}

  /** A file whose body is that of a pending one is pending itself, since bodies are distinct. */
  lemma {:induction false} SameBodySamePending(after: seq<Migration>, applied: map<string, string>, i: nat, k: nat)
    requires Distinct(BodiesOf(after)) && i < |after| && k < |Pending(after, applied)|
    requires Pending(after, applied)[k].sql == after[i].sql
    ensures !Seen(applied, after[i].name)
  {
    PendingMembers(after, applied);
    var m := Pending(after, applied)[k];
    assert m in Pending(after, applied);
    var j :| 0 <= j < |after| && after[j] == m;
    BodyAt(after, j);
    BodyAt(after, i);
    assert j == i;
  }

  /** If what is pending has the bodies of the last files, it is the last files, and the first ones are recorded. */
  lemma {:induction false} PendingIsTheTail(after: seq<Migration>, applied: map<string, string>, k: nat)
    requires Distinct(BodiesOf(after)) && k <= |after|
    requires BodiesOf(Pending(after, applied)) == BodiesOf(after[k..])
    ensures forall i :: 0 <= i < k ==> Seen(applied, after[i].name)
  {
    var older, newer := after[..k], after[k..];
    forall i | 0 <= i < |newer| ensures !Seen(applied, newer[i].name) {
      BodyAt(newer, i);
      BodyAt(Pending(after, applied), i);
      SameBodySamePending(after, applied, k + i, i);
    }
    assert older + newer == after;
    RestIsSeen(older, newer, applied);
    assert forall i :: 0 <= i < k ==> older[i] == after[i];
  }

  lemma {:induction false} RestIsSeen(older: seq<Migration>, newer: seq<Migration>, applied: map<string, string>)
    requires |Pending(older + newer, applied)| == |newer|
    requires forall i :: 0 <= i < |newer| ==> !Seen(applied, newer[i].name)
    ensures forall i :: 0 <= i < |older| ==> Seen(applied, older[i].name)
  {
    PendingAll(newer, applied);
    PendingAppend(older, newer, applied);
    assert |Pending(older, applied)| == 0;
    PendingMembers(older, applied);
    forall i | 0 <= i < |older| ensures Seen(applied, older[i].name) { assert older[i] in older; }
  }

  lemma {:induction false} NamedFilesAreTheSame(before: seq<Migration>, older: seq<Migration>)
    requires Ascending(NamesOf(before)) && Ascending(NamesOf(older)) && |before| == |older|
    requires forall i :: 0 <= i < |older| ==> Named(before, older[i].name)
    requires BodiesOf(before) == BodiesOf(older)
    ensures before == older
  {
    forall x | x in NamesOf(older) ensures x in NamesOf(before) {
      var i :| 0 <= i < |older| && NamesOf(older)[i] == x;
      var j :| 0 <= j < |before| && before[j].name == older[i].name;
      assert NamesOf(before)[j] == x;
    }
    SubsetOfSameLength(NamesOf(older), NamesOf(before));
    forall i | 0 <= i < |before| ensures before[i] == older[i] {
      assert NamesOf(before)[i] == NamesOf(older)[i] && BodiesOf(before)[i] == BodiesOf(older)[i];
    }
  }

  /**
   * For all directories: when the sorted directory changes from `before` to `after`, whose bodies are
   * distinct, the incremental schema is the scratch schema exactly when `before` is a prefix of `after`.
   */
  lemma {:induction false} IncrementalSchemaIffPrefix(before: seq<Migration>, after: seq<Migration>)
    requires Ascending(NamesOf(before)) && Ascending(NamesOf(after)) && Distinct(BodiesOf(after))
    ensures var first, scratch := Run(Journal(), before, Db([], [])), Run(Journal(), after, Db([], []));
            var incremental := Run(Journal(), after, first.db);
            && first.failed == scratch.failed == incremental.failed == None
            && (incremental.db.schema == scratch.db.schema <==> before <= after)
  {
    AscendingNamesAreDistinct(before);
    AscendingNamesAreDistinct(after);
    JournalRun(before);
    JournalRun(after);
    JournalRunsOn(before, after);
    SameBodiesIffPrefix(before, after, Pending(after, Snapshot(RowsOf(Journal(), before))));
  }

  lemma {:induction false} SameBodiesIffPrefix(before: seq<Migration>, after: seq<Migration>, pending: seq<Migration>)
    requires Ascending(NamesOf(before)) && Ascending(NamesOf(after)) && Distinct(BodiesOf(after))
    requires pending == Pending(after, Snapshot(RowsOf(Journal(), before)))
    ensures BodiesOf(before) + BodiesOf(pending) == BodiesOf(after) <==> before <= after
  {
    var k := |before|;
    if before <= after {
      AscendingNamesAreDistinct(after);
      assert after == before + after[k..];
      PendingIsTheRest(Journal(), before, after[k..]);
      BodiesSplit(before, after[k..]);
    }
    if BodiesOf(before) + BodiesOf(pending) == BodiesOf(after) {
      assert after == after[..k] + after[k..];
      BodiesSplit(after[..k], after[k..]);
      SamePartsOf(BodiesOf(before), BodiesOf(pending), BodiesOf(after[..k]), BodiesOf(after[k..]));
      SameBodiesMeanPrefix(before, after);
    }
  }

  lemma {:induction false} BodiesSplit(a: seq<Migration>, b: seq<Migration>)
    ensures BodiesOf(a + b) == BodiesOf(a) + BodiesOf(b)
  {}

  lemma {:induction false} SamePartsOf(a: seq<string>, b: seq<string>, c: seq<string>, d: seq<string>)
    requires a + b == c + d && |a| == |c|
    ensures a == c && b == d
  {
    assert a == (a + b)[..|a|] && c == (c + d)[..|c|];
    assert b == (a + b)[|a|..] && d == (c + d)[|c|..];
  }

  lemma {:induction false} SameBodiesMeanPrefix(before: seq<Migration>, after: seq<Migration>)
    requires Ascending(NamesOf(before)) && Ascending(NamesOf(after)) && Distinct(BodiesOf(after))
    requires |before| <= |after| && BodiesOf(before) == BodiesOf(after[..|before|])
    requires BodiesOf(Pending(after, Snapshot(RowsOf(Journal(), before)))) == BodiesOf(after[|before|..])
    ensures before <= after
  {
    var k := |before|;
    var older := after[..k];
    PendingIsTheTail(after, Snapshot(RowsOf(Journal(), before)), k);
    forall i | 0 <= i < k ensures Named(before, older[i].name) {
      SeenIffNamed(Journal(), before, after[i].name);
    }
    AscendingTake(after, k);
    NamedFilesAreTheSame(before, older);
  }

  lemma {:induction false} AscendingTake(ms: seq<Migration>, k: nat)
    requires Ascending(NamesOf(ms)) && k <= |ms|
    ensures Ascending(NamesOf(ms[..k]))
  {
    assert NamesOf(ms[..k]) == NamesOf(ms)[..k];
  }

  /** For instance: a file that sorts between two applied ones runs last. */
  lemma {:induction false} FileInTheMiddleDiverges(a: Migration, b: Migration, c: Migration)
    requires Less(a.name, b.name) && Less(b.name, c.name) && b.sql != c.sql
    ensures var first := Run(Journal(), [a, c], Db([], []));
            var incremental, scratch := Run(Journal(), [a, b, c], first.db), Run(Journal(), [a, b, c], Db([], []));
            && incremental.failed == scratch.failed == None
            && incremental.db.schema == [a.sql, c.sql, b.sql] != scratch.db.schema == [a.sql, b.sql, c.sql]
  {
    LessIsStrict(a.name, b.name);
    LessIsStrict(b.name, c.name);
    LessIsTransitive(a.name, b.name, c.name);
    LessIsStrict(a.name, c.name);
    JournalRun([a, c]);
    JournalRun([a, b, c]);
    JournalRunsOn([a, c], [a, b, c]);
    MiddleIsPending(a, b, c);
    assert BodiesOf([a, c]) + BodiesOf([b]) == [a.sql, c.sql, b.sql];
    assert [a.sql, c.sql, b.sql][1] != [a.sql, b.sql, c.sql][1];
  }

  lemma {:induction false} MiddleIsPending(a: Migration, b: Migration, c: Migration)
    requires DistinctNames([a, b, c])
    ensures Pending([a, b, c], Snapshot(RowsOf(Journal(), [a, c]))) == [b]
  {
    assert [a, c][0] == a && [a, c][1] == c;
    assert [a, b, c][0] == a && [a, b, c][1] == b && [a, b, c][2] == c;
    SeenIffNamed(Journal(), [a, c], a.name);
    SeenIffNamed(Journal(), [a, c], b.name);
    SeenIffNamed(Journal(), [a, c], c.name);
    OnlyMiddle(a, b, c, Snapshot(RowsOf(Journal(), [a, c])));
  }

  lemma {:induction false} OnlyMiddle(a: Migration, b: Migration, c: Migration, applied: map<string, string>)
    requires Seen(applied, a.name) && !Seen(applied, b.name) && Seen(applied, c.name)
    ensures Pending([a, b, c], applied) == [b]
  {
    assert [a, b, c][1..] == [b, c] && [b, c][1..] == [c] && [c][1..] == [];
    assert Pending([c], applied) == [];
    assert Pending([b, c], applied) == [b] + [];
  }

  // ---------------------------------------------------------------- the checksum warning

  /**
   * A run that finishes warns about a file exactly when the body the database ran for it is not
   * the body in the directory.
   */
  lemma {:induction false} WarnsExactlyAboutEdits<S>(e: Engine<S>, files: seq<Migration>,
                                                     applied: map<string, string>, db: Db<S>, n: string)
    requires RunFrom(e, files, applied, db).failed == None
    ensures n in RunFrom(e, files, applied, db).warned <==>
            exists i :: 0 <= i < |files| && files[i].name == n && Seen(applied, n) && applied[n] != e.hash(files[i].sql)
  {
    if files != [] {
      var rest := files[1..];
      if Seen(applied, files[0].name) {
        WarnsExactlyAboutEdits(e, rest, applied, db, n);
      } else {
        WarnsExactlyAboutEdits(e, rest, applied, Transact(e, files[0], db).value, n);
      }
      forall i | 0 <= i < |rest| ensures rest[i] == files[i + 1] {}
      if i :| 0 <= i < |files| && files[i].name == n && Seen(applied, n) && applied[n] != e.hash(files[i].sql) {
        if i > 0 { assert rest[i - 1] == files[i]; }
      }
    }
  }

  lemma {:induction false} SnapshotOfRun<S>(e: Engine<S>, past: seq<Migration>, i: nat)
    requires DistinctNames(past) && i < |past|
    ensures past[i].name in Snapshot(RowsOf(e, past)) && Snapshot(RowsOf(e, past))[past[i].name] == e.hash(past[i].sql)
  {
    var rows := RowsOf(e, past);
    var front := past[..|past| - 1];
    assert rows[..|rows| - 1] == RowsOf(e, front);
    if i < |front| {
      SnapshotOfRun(e, front, i);
      assert front[i] == past[i];
    }
  }

  /** Every file the ledger records stands in the directory, if at all, with the body that ran. */
  ghost predicate NothingEdited(past: seq<Migration>, files: seq<Migration>) {
    forall i, j :: 0 <= i < |past| && 0 <= j < |files| && past[i].name == files[j].name ==> past[i].sql == files[j].sql
  }

  /** A file recorded with an empty checksum counts as not applied: its body runs again, and its row stops the run. */
  lemma {:induction false} EmptyChecksumStopsTheRun<S>(e: Engine<S>, m: Migration, rest: seq<Migration>, schema: S)
    requires e.exec(m.sql, schema).Some?
    ensures Run(e, [m] + rest, Db(schema, [Row(m.name, "")])) ==
              Outcome(Db(schema, [Row(m.name, "")]), [], [], Some(m.name))
  {
    var ledger := [Row(m.name, "")];
    assert ledger[..0] == [] && ledger[0].filename == m.name;
    assert Snapshot(ledger) == map[m.name := ""];
  }

  /** On a ledger of any files, in any order, a finished run warns about nothing exactly when none was edited. */
  lemma {:induction false} WarnsIffEdited<S>(e: Engine<S>, past: seq<Migration>, files: seq<Migration>, db: Db<S>)
    requires e.Digests() && e.CollisionFree() && DistinctNames(past) && db.ledger == RowsOf(e, past)
    requires Run(e, files, db).failed == None
    ensures Run(e, files, db).warned == [] <==> NothingEdited(past, files)
  {
    var applied, warned := Snapshot(db.ledger), Run(e, files, db).warned;
    if warned == [] {
      forall i, j | 0 <= i < |past| && 0 <= j < |files| && past[i].name == files[j].name
        ensures past[i].sql == files[j].sql
      {
        SeenIffNamed(e, past, files[j].name);
        SnapshotOfRun(e, past, i);
        WarnsExactlyAboutEdits(e, files, applied, db, files[j].name);
      }
    } else {
      var n := warned[0];
      WarnsExactlyAboutEdits(e, files, applied, db, n);
      var j :| 0 <= j < |files| && files[j].name == n && Seen(applied, n) && applied[n] != e.hash(files[j].sql);
      SeenIffNamed(e, past, n);
      var i :| 0 <= i < |past| && past[i].name == n;
      SnapshotOfRun(e, past, i);
      assert past[i].sql != files[j].sql;
    }
  }

  /**
   * A run that finishes without a warning leaves the fold of the directory as it now stands,
   * bodies that ran in earlier deployments included.
   */
  lemma {:induction false} NoWarningMeansDirectorySchema<S>(e: Engine<S>, past: seq<Migration>, files: seq<Migration>,
                                                            start: S, db: Db<S>)
    requires e.Digests() && e.CollisionFree() && DistinctNames(files) && db.ledger == RowsOf(e, past)
    requires NamesOf(past) <= NamesOf(files) && Fold(e, past, start) == Some(db.schema)
    requires Run(e, files, db).failed == None && Run(e, files, db).warned == []
    ensures Fold(e, files, start) == Some(Run(e, files, db).db.schema)
  {
    forall i | 0 <= i < |past| ensures past[i].name == files[i].name {
      assert NamesOf(past)[i] == NamesOf(files)[i];
    }
    WarnsIffEdited(e, past, files, db);
    assert past == files[..|past|];
    var applied, rest := Snapshot(db.ledger), files[|past|..];
    assert past + rest == files;
    PendingIsTheRest(e, past, rest);
    RunExecutesLongestPrefix(e, files, applied, db);
    RunAppends(e, files, applied, db);
    FoldAppend(e, past, rest, start);
  }
}
