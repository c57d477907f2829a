/** The interleaved runners of releases of one growing directory: in every reachable state a prefix is applied. */
module MigrationPrefix {
  import opened Sequences
  import opened Wrappers
  import opened Text
  import opened MigrationFiles
  import opened MigrationRuns
  import opened MigrationSystem

  /** Of the files of `all`, the ledger names exactly the first k. It may name others besides, in any order. */
  ghost predicate NamesFirst(ledger: seq<Row>, all: seq<Migration>, k: nat) {
    k <= |all| && forall m :: 0 <= m < |all| ==> (Recorded(ledger, all[m].name) <==> m < k)
  }

  /** Where a system starts: any database, of which only the number of files it names is known. */
  datatype Origin<S> = Origin(db: Db<S>, cut: nat)

  /** How many files of the directory are recorded, counted by the rows added. */
  function Cut<S>(o: Origin<S>, db: Db<S>): int {
    o.cut + |db.ledger| - |o.db.ledger|
  }

  /** Since the start exactly the next files were applied, in order: their rows, and the fold of their bodies. */
  ghost predicate Reached<S>(e: Engine<S>, all: seq<Migration>, o: Origin<S>, db: Db<S>) {
    var k := Cut(o, db);
    && o.cut <= k <= |all|
    && db.ledger == o.db.ledger + RowsOf(e, all[o.cut..k])
    && Fold(e, all[o.cut..k], o.db.schema) == Some(db.schema)
    && NamesFirst(db.ledger, all, k)
  }

  ghost predicate RunnerInv<S>(e: Engine<S>, all: seq<Migration>, k: nat, schema: S, r: Runner<S>) {
    && r.files <= all
    && (r.phase.Finished? ==> |r.files| <= k)
    && (!r.phase.Waiting? && !r.phase.Stopped? ==>
          && r.next <= k && r.next <= |r.files|
          && forall m :: 0 <= m < |all| && Seen(r.applied, all[m].name) ==> m < k)
    && (r.phase.Begun? || r.phase.Executed? || r.phase.Inserted? ==> r.AtAFile())
    && (r.phase.Executed? && r.next == k ==> e.exec(r.File().sql, schema) == Some(r.phase.image))
    && (r.phase.Inserted? ==> r.next == k && e.exec(r.File().sql, schema) == Some(r.phase.image))
  }

  ghost predicate PrefixInv<S>(e: Engine<S>, all: seq<Migration>, o: Origin<S>, s: System<S>) {
    && Reached(e, all, o, s.db)
    && s.log == all[o.cut..Cut(o, s.db)]
    && (forall i :: 0 <= i < |s.runners| ==> RunnerInv(e, all, Cut(o, s.db), s.db.schema, s.runners[i]))
    && (forall i, j :: 0 <= i < j < |s.runners| ==> !(s.runners[i].phase.Inserted? && s.runners[j].phase.Inserted?))
  }

  lemma {:induction false} PrefixInvRead<S>(e: Engine<S>, all: seq<Migration>, o: Origin<S>, s: System<S>, i: nat)
    requires PrefixInv(e, all, o, s) && Enabled(e, s, Read(i)) && s.runners[i].next == 0
    ensures PrefixInv(e, all, o, Step(e, s, Read(i)))
  {
    SnapshotKeys(s.db.ledger);
  }

  /** The row of a file can only be inserted while that file is the first one missing. */
  lemma {:induction false} PrefixInvInsert<S>(e: Engine<S>, all: seq<Migration>, o: Origin<S>, s: System<S>, i: nat)
    requires PrefixInv(e, all, o, s) && Enabled(e, s, Insert(i))
    ensures PrefixInv(e, all, o, Step(e, s, Insert(i)))
  {
    var r, k := s.runners[i], Cut(o, s.db);
    assert r.File() == all[r.next];
    assert r.next == k;
    assert !Held(s, i, all[k].name);
    forall j | 0 <= j < |s.runners| && j != i ensures !s.runners[j].phase.Inserted? {
      assert RunnerInv(e, all, k, s.db.schema, s.runners[j]);
    }
  }

  lemma {:induction false} NamesOneMore(ledger: seq<Row>, all: seq<Migration>, k: nat, row: Row)
    requires DistinctNames(all) && NamesFirst(ledger, all, k) && k < |all| && row.filename == all[k].name
    ensures NamesFirst(ledger + [row], all, k + 1)
  {
    forall n | 0 <= n < |all| ensures Recorded(ledger + [row], all[n].name) <==> n < k + 1 {
      RecordedInConcat(ledger, [row], all[n].name);
      assert [row][0].filename == all[k].name;
    }
  }

  lemma {:induction false} ReachedExtends<S>(e: Engine<S>, all: seq<Migration>, o: Origin<S>, db: Db<S>, image: S)
    requires DistinctNames(all) && Reached(e, all, o, db) && Cut(o, db) < |all|
    requires e.exec(all[Cut(o, db)].sql, db.schema) == Some(image)
    ensures Reached(e, all, o, Db(image, db.ledger + [RowOf(e, all[Cut(o, db)])]))
  {
    var k := Cut(o, db);
    var m, past := all[k], all[o.cut..k];
    assert all[o.cut..k + 1] == past + [m];
    RowsOfAppend(e, past, [m]);
    assert RowsOf(e, [m]) == [RowOf(e, m)];
    Associate(o.db.ledger, RowsOf(e, past), [RowOf(e, m)]);
    FoldAppend(e, past, [m], o.db.schema);
    assert Fold(e, [m], db.schema) == Some(image) by {
      assert [m][1..] == [];
    }
    NamesOneMore(db.ledger, all, k, RowOf(e, m));
  }

  lemma {:induction false} CommitOfAnother<S>(e: Engine<S>, all: seq<Migration>, k: nat, schema: S, image: S,
                                              r: Runner<S>)
    requires RunnerInv(e, all, k, schema, r) && !r.phase.Inserted?
    ensures RunnerInv(e, all, k + 1, image, r)
  {}

  /** The runner about to commit stands at the first file missing, and has its image; afterwards it stands behind it. */
  lemma {:induction false} CommitOfOwn<S>(e: Engine<S>, all: seq<Migration>, k: nat, schema: S, r: Runner<S>)
    requires RunnerInv(e, all, k, schema, r) && r.phase.Inserted?
    ensures k < |all| && r.AtAFile() && r.File() == all[k] && e.exec(all[k].sql, schema) == Some(r.phase.image)
    ensures RunnerInv(e, all, k + 1, r.phase.image, r.(next := r.next + 1, phase := Scanning))
  {}

  lemma {:induction false} CommitOfAll<S>(e: Engine<S>, all: seq<Migration>, k: nat, schema: S,
                                          runners: seq<Runner<S>>, i: nat)
    requires i < |runners| && runners[i].phase.Inserted?
    requires forall j :: 0 <= j < |runners| ==> RunnerInv(e, all, k, schema, runners[j])
    requires forall j :: 0 <= j < |runners| && j != i ==> !runners[j].phase.Inserted?
    ensures var r := runners[i];
            var t := runners[i := r.(next := r.next + 1, phase := Scanning)];
            forall j :: 0 <= j < |t| ==> RunnerInv(e, all, k + 1, r.phase.image, t[j]) && !t[j].phase.Inserted?
  {
    CommitOfOwn(e, all, k, schema, runners[i]);
    forall j | 0 <= j < |runners| && j != i ensures RunnerInv(e, all, k + 1, runners[i].phase.image, runners[j]) {
      CommitOfAnother(e, all, k, schema, runners[i].phase.image, runners[j]);
    }
  }

  lemma {:induction false} OneCommitMore<S>(e: Engine<S>, all: seq<Migration>, o: Origin<S>, db: Db<S>, next: System<S>,
                                           log: seq<Migration>)
    requires Reached(e, all, o, db) && log == all[o.cut..Cut(o, db)] && Cut(o, db) < |all|
    requires Reached(e, all, o, next.db) && Cut(o, next.db) == Cut(o, db) + 1 && next.log == log + [all[Cut(o, db)]]
    requires forall j :: 0 <= j < |next.runners| ==>
               RunnerInv(e, all, Cut(o, next.db), next.db.schema, next.runners[j]) && !next.runners[j].phase.Inserted?
    ensures PrefixInv(e, all, o, next)
  {
    assert all[o.cut..Cut(o, db)] + [all[Cut(o, db)]] == all[o.cut..Cut(o, db) + 1];
  }

  lemma {:induction false} PrefixInvCommit<S>(e: Engine<S>, all: seq<Migration>, o: Origin<S>, s: System<S>, i: nat)
    requires DistinctNames(all) && PrefixInv(e, all, o, s) && Enabled(e, s, Commit(i))
    ensures PrefixInv(e, all, o, Step(e, s, Commit(i)))
  {
    var r, k := s.runners[i], Cut(o, s.db);
    CommitOfAll(e, all, k, s.db.schema, s.runners, i);
    CommitOfOwn(e, all, k, s.db.schema, r);
    ReachedExtends(e, all, o, s.db, r.phase.image);
    OneCommitMore(e, all, o, s.db, Step(e, s, Commit(i)), s.log);
  }

  /** Runners start at their first file. */
  ghost predicate Fresh<S>(s: System<S>) {
    forall i :: 0 <= i < |s.runners| && s.runners[i].phase.Waiting? ==> s.runners[i].next == 0
  }

  /** Every launch brings a release of `all`. */
  ghost predicate Releases(all: seq<Migration>, run: seq<Action>) {
    forall k :: 0 <= k < |run| && run[k].Launch? ==> run[k].files <= all
  }

  lemma {:induction false} PrefixInvQuiet<S>(e: Engine<S>, all: seq<Migration>, o: Origin<S>, s: System<S>, i: nat,
                                             r: Runner<S>)
    requires PrefixInv(e, all, o, s) && Fresh(s) && i < |s.runners|
    requires RunnerInv(e, all, Cut(o, s.db), s.db.schema, r) && !r.phase.Inserted? && !r.phase.Waiting?
    ensures PrefixInv(e, all, o, s.(runners := s.runners[i := r])) && Fresh(s.(runners := s.runners[i := r]))
  {}

  lemma {:induction false} PrefixInvLaunch<S>(e: Engine<S>, all: seq<Migration>, o: Origin<S>, s: System<S>,
                                              files: seq<Migration>)
    requires PrefixInv(e, all, o, s) && Fresh(s) && files <= all
    ensures PrefixInv(e, all, o, Step(e, s, Launch(files))) && Fresh(Step(e, s, Launch(files)))
  {}

  lemma {:induction false} PrefixInvOther<S>(e: Engine<S>, all: seq<Migration>, o: Origin<S>, s: System<S>, a: Action)
    requires PrefixInv(e, all, o, s) && Fresh(s) && Enabled(e, s, a)
    requires a.Skip? || a.Begin? || a.Execute? || a.Finish? || a.Stop?
    ensures PrefixInv(e, all, o, Step(e, s, a)) && Fresh(Step(e, s, a))
  {
    var r := s.runners[a.i];
    assert RunnerInv(e, all, Cut(o, s.db), s.db.schema, r);
    assert r.AtAFile() ==> r.File() == all[r.next];
    PrefixInvQuiet(e, all, o, s, a.i, Step(e, s, a).runners[a.i]);
  }

  lemma {:induction false} PrefixInvStep<S>(e: Engine<S>, all: seq<Migration>, o: Origin<S>, s: System<S>, a: Action)
    requires DistinctNames(all) && PrefixInv(e, all, o, s) && Fresh(s) && Enabled(e, s, a)
    requires a.Launch? ==> a.files <= all
    ensures PrefixInv(e, all, o, Step(e, s, a)) && Fresh(Step(e, s, a))
  {
    match a {
      case Launch(files) => PrefixInvLaunch(e, all, o, s, files);
      case Read(i) => PrefixInvRead(e, all, o, s, i);
      case Insert(i) => PrefixInvInsert(e, all, o, s, i);
      case Commit(i) => PrefixInvCommit(e, all, o, s, i);
      case _ => PrefixInvOther(e, all, o, s, a);
    }
  }

  lemma {:induction false} PrefixInvRun<S>(e: Engine<S>, all: seq<Migration>, o: Origin<S>, s: System<S>,
                                           run: seq<Action>)
    requires DistinctNames(all) && PrefixInv(e, all, o, s) && Fresh(s)
    requires Possible(e, s, run) && Releases(all, run)
    ensures PrefixInv(e, all, o, After(e, s, run))
    decreases |run|
  {
    if run != [] {
      assert run[0].Launch? ==> run[0].files <= all;
      forall k | 0 <= k < |run[1..]| && run[1..][k].Launch? ensures run[1..][k].files <= all {
        assert run[1..][k] == run[k + 1];
      }
      PrefixInvStep(e, all, o, s, run[0]);
      PrefixInvRun(e, all, o, Step(e, s, run[0]), run[1..]);
    }
  }

  /**
   * Safety over whole runs. Runners of any releases of one growing directory, interleaved in any way and
   * dying anywhere, on any database whose ledger names the first k0 files and none after them, whatever
   * its checksums, its order, its other rows and its schema: the ledger always names exactly the first
   * files, the commits made were the next ones, once each and in order, and the schema is the fold of
   * their bodies over the schema found.
   */
  lemma {:induction false} AlwaysAPrefix<S>(e: Engine<S>, all: seq<Migration>, db: Db<S>, k0: nat, run: seq<Action>)
    requires DistinctNames(all) && NamesFirst(db.ledger, all, k0)
    requires Possible(e, System(db, [], []), run) && Releases(all, run)
    ensures var s := After(e, System(db, [], []), run);
            var n := k0 + |s.log|;
            && n <= |all| && s.log == all[k0..n]
            && s.db.ledger == db.ledger + RowsOf(e, all[k0..n])
            && Fold(e, all[k0..n], db.schema) == Some(s.db.schema)
            && NamesFirst(s.db.ledger, all, n)
  {
    PrefixInvRun(e, all, Origin(db, k0), System(db, [], []), run);
  }

  /**
   * No lost update: in every reachable state, a transaction about to commit ran its body on the
   * schema it is about to replace.
   */
  lemma {:induction false} CommitReplacesWhatItRead<S>(e: Engine<S>, all: seq<Migration>, db: Db<S>, k0: nat,
                                                       run: seq<Action>, i: nat)
    requires DistinctNames(all) && NamesFirst(db.ledger, all, k0)
    requires Possible(e, System(db, [], []), run) && Releases(all, run)
    requires Enabled(e, After(e, System(db, [], []), run), Commit(i))
    ensures var s := After(e, System(db, [], []), run);
            Transact(e, s.runners[i].File(), s.db) == Some(Step(e, s, Commit(i)).db)
  {
    PrefixInvRun(e, all, Origin(db, k0), System(db, [], []), run);
    var s := After(e, System(db, [], []), run);
    assert s.runners[i].File() == all[Cut(Origin(db, k0), s.db)];
  }

  /** A runner that finishes leaves every file of its release recorded, whoever recorded it. */
  lemma {:induction false} FinishedMeansApplied<S>(e: Engine<S>, all: seq<Migration>, db: Db<S>, k0: nat,
                                                   run: seq<Action>, i: nat)
    requires DistinctNames(all) && NamesFirst(db.ledger, all, k0)
    requires Possible(e, System(db, [], []), run) && Releases(all, run)
    requires i < |After(e, System(db, [], []), run).runners|
    requires After(e, System(db, [], []), run).runners[i].phase.Finished?
    ensures var s := After(e, System(db, [], []), run);
            forall k :: 0 <= k < |s.runners[i].files| ==> Recorded(s.db.ledger, s.runners[i].files[k].name)
  {
    PrefixInvRun(e, all, Origin(db, k0), System(db, [], []), run);
    var s := After(e, System(db, [], []), run);
    forall k | 0 <= k < |s.runners[i].files| ensures Recorded(s.db.ledger, s.runners[i].files[k].name) {
      assert s.runners[i].files[k] == all[k];
    }
  }

  /** If a file of the directory is recorded, so is every file sorting before it. */
  ghost predicate DownwardClosed(ledger: seq<Row>, all: seq<Migration>) {
    forall f, g :: 0 <= f < |all| && 0 <= g < |all| && Less(all[f].name, all[g].name) ==>
      (Recorded(ledger, all[g].name) ==> Recorded(ledger, all[f].name))
  }

  lemma {:induction false} ClosedNamesFirst(ledger: seq<Row>, all: seq<Migration>) returns (k: nat)
    requires Ascending(NamesOf(all)) && DownwardClosed(ledger, all)
    ensures NamesFirst(ledger, all, k)
  {
    k := 0;
    while k < |all| && Recorded(ledger, all[k].name)
      invariant k <= |all| && forall m :: 0 <= m < k ==> Recorded(ledger, all[m].name)
    {
      k := k + 1;
    }
    forall m | k < m < |all| ensures !Recorded(ledger, all[m].name) {
      assert Less(NamesOf(all)[k], NamesOf(all)[m]);
    }
  }

  lemma {:induction false} FirstNamesAreClosed(ledger: seq<Row>, all: seq<Migration>, k: nat, f: nat, g: nat)
    requires Ascending(NamesOf(all)) && NamesFirst(ledger, all, k) && f < |all| && g < |all|
    requires Less(all[f].name, all[g].name) && Recorded(ledger, all[g].name)
    ensures Recorded(ledger, all[f].name)
  {
    LessIsStrict(all[f].name, all[g].name);
    if g < f { LaterIsGreater(all, g, f); }
  }

  lemma {:induction false} LaterIsGreater(all: seq<Migration>, i: nat, j: nat)
    requires Ascending(NamesOf(all)) && i < j < |all|
    ensures Less(all[i].name, all[j].name)
  {
    assert Less(NamesOf(all)[i], NamesOf(all)[j]);
  }

  /** For a sorted directory, every run on a downward closed ledger keeps it downward closed. */
  lemma {:induction false} LedgerIsDownwardClosed<S>(e: Engine<S>, all: seq<Migration>, db: Db<S>, run: seq<Action>)
    requires Ascending(NamesOf(all)) && DownwardClosed(db.ledger, all)
    requires Possible(e, System(db, [], []), run) && Releases(all, run)
    ensures DownwardClosed(After(e, System(db, [], []), run).db.ledger, all)
  {
    var k0 := ClosedNamesFirst(db.ledger, all);
    AscendingNamesAreDistinct(all);
    AlwaysAPrefix(e, all, db, k0, run);
    var s := After(e, System(db, [], []), run);
    forall f, g | 0 <= f < |all| && 0 <= g < |all| && Less(all[f].name, all[g].name)
                  && Recorded(s.db.ledger, all[g].name)
      ensures Recorded(s.db.ledger, all[f].name)
    {
      FirstNamesAreClosed(s.db.ledger, all, k0 + |s.log|, f, g);
    }
  }
}
