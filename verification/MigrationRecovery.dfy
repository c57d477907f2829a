/** The interleaved runners and the sequential run: recovery from any reachable state, and a run left alone. */
module MigrationRecovery {
  import opened Sequences
  import opened Wrappers
  import opened MigrationRuns
  import opened MigrationDeployments
  import opened MigrationSystem
  import opened MigrationPrefix

  /** Bodies that fold, none of them recorded yet, make a run that goes through. */
  lemma {:induction false} FoldableRunSucceeds<S>(e: Engine<S>, ms: seq<Migration>, applied: map<string, string>,
                                                  db: Db<S>)
    requires DistinctNames(ms) && Fold(e, ms, db.schema).Some?
    requires forall i :: 0 <= i < |ms| ==> !Seen(applied, ms[i].name) && !Recorded(db.ledger, ms[i].name)
    ensures RunFrom(e, ms, applied, db).failed == None
  {
    if ms != [] {
      var next := Transact(e, ms[0], db).value;
      forall i | 0 <= i < |ms[1..]|
        ensures !Seen(applied, ms[1..][i].name) && !Recorded(next.ledger, ms[1..][i].name)
      {
        assert ms[1..][i] == ms[i + 1];
      }
      FoldableRunSucceeds(e, ms[1..], applied, next);
    }
  }

  /** No row holds the empty string for a checksum: a digest never is. */
  ghost predicate Digested(ledger: seq<Row>) {
    forall i :: 0 <= i < |ledger| ==> ledger[i].checksum != ""
  }

  lemma {:induction false} FoldedRun<S>(e: Engine<S>, ms: seq<Migration>, applied: map<string, string>, db: Db<S>,
                                        schema: S)
    requires DistinctNames(ms) && Fold(e, ms, db.schema) == Some(schema)
    requires forall i :: 0 <= i < |ms| ==> !Seen(applied, ms[i].name) && !Recorded(db.ledger, ms[i].name)
    ensures RunFrom(e, ms, applied, db).failed == None
    ensures RunFrom(e, ms, applied, db).db == Db(schema, db.ledger + RowsOf(e, ms))
  {
    FoldableRunSucceeds(e, ms, applied, db);
    PendingAll(ms, applied);
    RunExecutesLongestPrefix(e, ms, applied, db);
    RunAppends(e, ms, applied, db);
  }

  /** A state reached is what one run over the files now recorded leaves. */
  lemma {:induction false} PrefixIsARun<S>(e: Engine<S>, all: seq<Migration>, o: Origin<S>, db: Db<S>)
    requires DistinctNames(all) && Digested(o.db.ledger)
    requires NamesFirst(o.db.ledger, all, o.cut) && Reached(e, all, o, db)
    ensures Run(e, all[..Cut(o, db)], o.db).db == db
  {
    var k := Cut(o, db);
    var done, next, applied := all[..o.cut], all[o.cut..k], Snapshot(o.db.ledger);
    assert all[..k] == done + next;
    forall m | 0 <= m < |all| ensures Seen(applied, all[m].name) <==> m < o.cut {
      SeenAfterRows([], o.db.ledger, all[m].name);
      assert [] + o.db.ledger == o.db.ledger;
    }
    AllSeenChangesNothing(e, done, applied, o.db);
    FoldedRun(e, next, applied, o.db, db.schema);
    RunOfConcat(e, done, next, applied, o.db);
  }

  /**
   * Recovery: from every reachable state, one further run of the whole directory ends exactly
   * where a single run of it on the database found at the start would have ended.
   */
  lemma {:induction false} RecoversFromAnyState<S>(e: Engine<S>, all: seq<Migration>, db: Db<S>, k0: nat,
                                                   run: seq<Action>)
    requires e.Digests() && Digested(db.ledger) && DistinctNames(all) && NamesFirst(db.ledger, all, k0)
    requires Possible(e, System(db, [], []), run) && Releases(all, run)
    ensures var s := After(e, System(db, [], []), run);
            var recovered, once := Run(e, all, s.db), Run(e, all, db);
            recovered.db == once.db && recovered.failed == once.failed
  {
    var o, s := Origin(db, k0), After(e, System(db, [], []), run);
    PrefixInvRun(e, all, o, System(db, [], []), run);
    PrefixIsARun(e, all, o, s.db);
    CutAndResume(e, all, Cut(o, s.db), db);
  }

  lemma {:induction false} RunsConcatenate<S>(e: Engine<S>, s: System<S>, a: seq<Action>, b: seq<Action>)
    requires Possible(e, s, a) && Possible(e, After(e, s, a), b)
    ensures Possible(e, s, a + b) && After(e, s, a + b) == After(e, After(e, s, a), b)
    decreases |a|
  {
    if a == [] {
      assert a + b == b;
    } else {
      assert (a + b)[1..] == a[1..] + b;
      RunsConcatenate(e, Step(e, s, a[0]), a[1..], b);
    }
  }

  ghost predicate NoneInserted<S>(s: System<S>) {
    forall j :: 0 <= j < |s.runners| ==> !s.runners[j].phase.Inserted?
  }

  lemma {:induction false} One<S>(e: Engine<S>, s: System<S>, a: Action)
    requires Enabled(e, s, a)
    ensures Possible(e, s, [a]) && After(e, s, [a]) == Step(e, s, a)
  {
    assert [a][1..] == [];
  }

  lemma {:induction false} OneMore<S>(e: Engine<S>, s: System<S>, run: seq<Action>, a: Action)
    requires Possible(e, s, run) && Enabled(e, After(e, s, run), a)
    ensures Possible(e, s, run + [a]) && After(e, s, run + [a]) == Step(e, After(e, s, run), a)
  {
    One(e, After(e, s, run), a);
    RunsConcatenate(e, s, run, [a]);
  }

  /** One pending file, from begin to commit, with nobody else holding a ledger row. */
  lemma {:induction false} OneFile<S>(e: Engine<S>, s: System<S>, i: nat) returns (run: seq<Action>)
    requires i < |s.runners| && s.runners[i].phase.Scanning? && s.runners[i].AtAFile() && NoneInserted(s)
    requires !Seen(s.runners[i].applied, s.runners[i].File().name)
    requires Transact(e, s.runners[i].File(), s.db).Some?
    ensures Possible(e, s, run)
    ensures After(e, s, run) ==
            System(Transact(e, s.runners[i].File(), s.db).value,
                   s.runners[i := s.runners[i].(next := s.runners[i].next + 1)],
                   s.log + [s.runners[i].File()])
  {
    One(e, s, Begin(i));
    var s1 := Step(e, s, Begin(i));
    OneMore(e, s, [Begin(i)], Execute(i));
    var s2 := Step(e, s1, Execute(i));
    OneMore(e, s, [Begin(i)] + [Execute(i)], Insert(i));
    var s3 := Step(e, s2, Insert(i));
    run := [Begin(i)] + [Execute(i)] + [Insert(i)];
    OneMore(e, s, run, Commit(i));
    run := run + [Commit(i)];
    assert Step(e, s3, Commit(i)).runners == s.runners[i := s.runners[i].(next := s.runners[i].next + 1)];
  }

  ghost predicate EndsAs<S>(s: System<S>, i: nat, out: Outcome<S>, t: System<S>) {
    && t.db == out.db && t.log == s.log + out.executed
    && i < |t.runners| == |s.runners|
    && (if out.failed == None then t.runners[i].phase.Finished? else t.runners[i].phase.Stopped?)
  }

  /** A scanning runner left alone can go on to the end, and ends as the sequential run does. */
  lemma {:induction false} ScanAlone<S>(e: Engine<S>, s: System<S>, i: nat) returns (run: seq<Action>)
    requires i < |s.runners| && s.runners[i].phase.Scanning? && NoneInserted(s)
    requires s.runners[i].next <= |s.runners[i].files|
    ensures Possible(e, s, run)
    ensures var r := s.runners[i];
            EndsAs(s, i, RunFrom(e, r.files[r.next..], r.applied, s.db), After(e, s, run))
    decreases |s.runners[i].files| - s.runners[i].next
  {
    var r := s.runners[i];
    var rest := r.files[r.next..];
    if r.next == |r.files| {
      run := [Finish(i)];
      One(e, s, Finish(i));
      assert s.log + [] == s.log;
    } else if Seen(r.applied, r.File().name) {
      One(e, s, Skip(i));
      var tail := ScanAlone(e, Step(e, s, Skip(i)), i);
      run := [Skip(i)] + tail;
      RunsConcatenate(e, s, [Skip(i)], tail);
      assert rest[1..] == r.files[r.next + 1..];
    } else if Transact(e, r.File(), s.db) == None {
      run := [Stop(i)];
      One(e, s, Stop(i));
      assert s.log + [] == s.log;
    } else {
      var first := OneFile(e, s, i);
      var t := After(e, s, first);
      var tail := ScanAlone(e, t, i);
      run := first + tail;
      RunsConcatenate(e, s, first, tail);
      assert rest[1..] == r.files[r.next + 1..];
      var out := RunFrom(e, rest[1..], r.applied, t.db);
      Associate(s.log, [r.File()], out.executed);
    }
  }

  /**
   * The sequential run is one of the interleavings: from any state in which no runner holds an
   * uncommitted ledger row, a newly launched runner can do exactly what `Run` computes.
   */
  lemma {:induction false} SequentialRunIsAnInterleaving<S>(e: Engine<S>, s: System<S>, files: seq<Migration>)
    returns (run: seq<Action>)
    requires NoneInserted(s)
    ensures Possible(e, s, run)
    ensures var t, out := After(e, s, run), Run(e, files, s.db);
            && t.db == out.db && t.log == s.log + out.executed
            && |t.runners| == |s.runners| + 1
            && (if out.failed == None then t.runners[|s.runners|].phase.Finished?
                else t.runners[|s.runners|].phase.Stopped?)
  {
    var i := |s.runners|;
    One(e, s, Launch(files));
    var s1 := Step(e, s, Launch(files));
    One(e, s1, Read(i));
    var s2 := Step(e, s1, Read(i));
    RunsConcatenate(e, s, [Launch(files)], [Read(i)]);
    var tail := ScanAlone(e, s2, i);
    run := [Launch(files)] + [Read(i)] + tail;
    RunsConcatenate(e, s, [Launch(files)] + [Read(i)], tail);
    assert files[0..] == files;
  }
}
