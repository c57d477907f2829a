/** Any number of migration runners against one database, interleaved statement by statement. */
module MigrationSystem {
  import opened Sequences
  import opened MigrationRuns

  // Each runner has its own ledger snapshot and is free to die between any two statements. A transaction
  // keeps a private image of the schema: the body runs on the schema committed at that moment, and the
  // commit writes the whole image back. Nothing here prevents a lost update; only the primary key of the
  // ledger stands in the way.

  datatype Phase<S> =
    | Waiting              // connected, ledger not read yet
    | Scanning             // between two files
    | Begun                // inside a transaction, body not run yet
    | Executed(image: S)   // body run, ledger row not inserted yet
    | Inserted(image: S)   // ledger row inserted, not committed
    | Finished             // went through all its files
    | Stopped              // threw, or died

  datatype Runner<S> = Runner(files: seq<Migration>, applied: map<string, string>, next: nat, phase: Phase<S>) {
    predicate AtAFile() {
      next < |files|
    }

    function File(): Migration
      requires AtAFile()
    {
      files[next]
    }
  }

  /** `log` lists the bodies whose transactions committed, in commit order. */
  datatype System<S> = System(db: Db<S>, runners: seq<Runner<S>>, log: seq<Migration>)

  datatype Action =
    | Launch(files: seq<Migration>)
    | Read(i: nat)
    | Skip(i: nat)
    | Begin(i: nat)
    | Execute(i: nat)
    | Insert(i: nat)
    | Commit(i: nat)
    | Finish(i: nat)
    | Stop(i: nat)

  /** Another open transaction holds a row with this key: inserting it waits. */
  ghost predicate Held<S>(s: System<S>, i: nat, name: string) {
    exists j :: 0 <= j < |s.runners| && j != i && s.runners[j].phase.Inserted?
                && s.runners[j].AtAFile() && s.runners[j].File().name == name
  }

  ghost predicate Enabled<S>(e: Engine<S>, s: System<S>, a: Action) {
    match a
    case Launch(_) => true
    case Read(i) => i < |s.runners| && s.runners[i].phase.Waiting?
    case Skip(i) =>
      i < |s.runners| && var r := s.runners[i];
      r.phase.Scanning? && r.AtAFile() && Seen(r.applied, r.File().name)
    case Begin(i) =>
      i < |s.runners| && var r := s.runners[i];
      r.phase.Scanning? && r.AtAFile() && !Seen(r.applied, r.File().name)
    case Execute(i) =>
      i < |s.runners| && var r := s.runners[i];
      r.phase.Begun? && r.AtAFile() && e.exec(r.File().sql, s.db.schema).Some?
    case Insert(i) =>
      i < |s.runners| && var r := s.runners[i];
      r.phase.Executed? && r.AtAFile() && !Recorded(s.db.ledger, r.File().name) && !Held(s, i, r.File().name)
    case Commit(i) =>
      i < |s.runners| && s.runners[i].phase.Inserted? && s.runners[i].AtAFile()
    case Finish(i) =>
      i < |s.runners| && s.runners[i].phase.Scanning? && s.runners[i].next == |s.runners[i].files|
    case Stop(i) =>
      i < |s.runners| && !s.runners[i].phase.Finished? && !s.runners[i].phase.Stopped?
  }

  ghost function Step<S>(e: Engine<S>, s: System<S>, a: Action): System<S>
    requires Enabled(e, s, a)
  {
    match a
    case Launch(files) => s.(runners := s.runners + [Runner(files, map[], 0, Waiting)])
    case Read(i) =>
      s.(runners := s.runners[i := s.runners[i].(applied := Snapshot(s.db.ledger), phase := Scanning)])
    case Skip(i) => s.(runners := s.runners[i := s.runners[i].(next := s.runners[i].next + 1)])
    case Begin(i) => s.(runners := s.runners[i := s.runners[i].(phase := Begun)])
    case Execute(i) =>
      var r := s.runners[i];
      s.(runners := s.runners[i := r.(phase := Executed(e.exec(r.File().sql, s.db.schema).value))])
    case Insert(i) =>
      var r := s.runners[i];
      s.(runners := s.runners[i := r.(phase := Inserted(r.phase.image))])
    case Commit(i) =>
      var r := s.runners[i];
      System(
        Db(r.phase.image, s.db.ledger + [RowOf(e, r.File())]),
        s.runners[i := r.(next := r.next + 1, phase := Scanning)],
        s.log + [r.File()])
    case Finish(i) => s.(runners := s.runners[i := s.runners[i].(phase := Finished)])
    case Stop(i) => s.(runners := s.runners[i := s.runners[i].(phase := Stopped)])
  }

  ghost predicate Possible<S>(e: Engine<S>, s: System<S>, run: seq<Action>)
    decreases |run|
  {
    run == [] || (Enabled(e, s, run[0]) && Possible(e, Step(e, s, run[0]), run[1..]))
  }

  ghost function After<S>(e: Engine<S>, s: System<S>, run: seq<Action>): System<S>
    requires Possible(e, s, run)
    decreases |run|
  {
    if run == [] then s else After(e, Step(e, s, run[0]), run[1..])
  }

  // ---------------------------------------------------------------- exactly once, whatever the directories

  ghost predicate OnceInv<S>(e: Engine<S>, base: seq<Row>, s: System<S>) {
    && s.db.ledger == base + RowsOf(e, s.log)
    && DistinctNames(s.log)
    && (forall k :: 0 <= k < |s.log| ==> !Recorded(base, s.log[k].name))
    && (forall i :: 0 <= i < |s.runners| && s.runners[i].phase.Inserted? ==>
          s.runners[i].AtAFile() && !Recorded(s.db.ledger, s.runners[i].File().name)
          && !Held(s, i, s.runners[i].File().name))
  }

  lemma {:induction false} OnceInvCommit<S>(e: Engine<S>, base: seq<Row>, s: System<S>, i: nat)
    requires OnceInv(e, base, s) && Enabled(e, s, Commit(i))
    ensures OnceInv(e, base, Step(e, s, Commit(i)))
  {
    var r, t := s.runners[i], Step(e, s, Commit(i));
    var m := r.File();
    RowsOfAppend(e, s.log, [m]);
    assert RowsOf(e, [m]) == [RowOf(e, m)];
    Associate(base, RowsOf(e, s.log), [RowOf(e, m)]);
    RecordedInConcat(base, RowsOf(e, s.log), m.name);
    forall k | 0 <= k < |s.log| ensures s.log[k].name != m.name {
      assert RowsOf(e, s.log)[k].filename == s.log[k].name;
    }
    forall j | 0 <= j < |t.runners| && t.runners[j].phase.Inserted?
      ensures t.runners[j].AtAFile() && !Recorded(t.db.ledger, t.runners[j].File().name)
      ensures !Held(t, j, t.runners[j].File().name)
    {
      var n := s.runners[j].File().name;
      assert !Held(s, j, n) && n != m.name;
      RecordedInConcat(s.db.ledger, [RowOf(e, m)], n);
    }
  }

  lemma {:induction false} OnceInvQuiet<S>(e: Engine<S>, base: seq<Row>, s: System<S>, t: System<S>, i: nat,
                                           r: Runner<S>)
    requires OnceInv(e, base, s) && i < |s.runners|
    requires t == s.(runners := s.runners[i := r])
    requires r.phase.Inserted? ==> r.AtAFile() && !Recorded(s.db.ledger, r.File().name) && !Held(s, i, r.File().name)
    ensures OnceInv(e, base, t)
  {
    forall j | 0 <= j < |t.runners| && t.runners[j].phase.Inserted?
      ensures t.runners[j].AtAFile() && !Recorded(t.db.ledger, t.runners[j].File().name)
      ensures !Held(t, j, t.runners[j].File().name)
    {
    }
  }

  lemma {:induction false} OnceInvLaunch<S>(e: Engine<S>, base: seq<Row>, s: System<S>, files: seq<Migration>)
    requires OnceInv(e, base, s)
    ensures OnceInv(e, base, Step(e, s, Launch(files)))
  {
    var t := Step(e, s, Launch(files));
    forall j | 0 <= j < |t.runners| && t.runners[j].phase.Inserted?
      ensures t.runners[j].AtAFile() && !Recorded(t.db.ledger, t.runners[j].File().name)
      ensures !Held(t, j, t.runners[j].File().name)
    {
      assert t.runners[j] == s.runners[j];
    }
  }

  lemma {:induction false} OnceInvStep<S>(e: Engine<S>, base: seq<Row>, s: System<S>, a: Action)
    requires OnceInv(e, base, s) && Enabled(e, s, a)
    ensures OnceInv(e, base, Step(e, s, a))
  {
    match a {
      case Launch(files) => OnceInvLaunch(e, base, s, files);
      case Commit(i) => OnceInvCommit(e, base, s, i);
      case Read(i) => OnceInvQuiet(e, base, s, Step(e, s, a), i, Step(e, s, a).runners[i]);
      case Skip(i) => OnceInvQuiet(e, base, s, Step(e, s, a), i, Step(e, s, a).runners[i]);
      case Begin(i) => OnceInvQuiet(e, base, s, Step(e, s, a), i, Step(e, s, a).runners[i]);
      case Execute(i) => OnceInvQuiet(e, base, s, Step(e, s, a), i, Step(e, s, a).runners[i]);
      case Insert(i) => OnceInvQuiet(e, base, s, Step(e, s, a), i, Step(e, s, a).runners[i]);
      case Finish(i) => OnceInvQuiet(e, base, s, Step(e, s, a), i, Step(e, s, a).runners[i]);
      case Stop(i) => OnceInvQuiet(e, base, s, Step(e, s, a), i, Step(e, s, a).runners[i]);
    }
  }

  lemma {:induction false} OnceInvRun<S>(e: Engine<S>, base: seq<Row>, s: System<S>, run: seq<Action>)
    requires OnceInv(e, base, s) && Possible(e, s, run)
    ensures OnceInv(e, base, After(e, s, run))
    decreases |run|
  {
    if run != [] {
      OnceInvStep(e, base, s, run[0]);
      OnceInvRun(e, base, Step(e, s, run[0]), run[1..]);
    }
  }

  /**
   * Whatever the directories, the ledger and the interleaving: no file's body commits twice, none
   * commits that the ledger already named, and the ledger gains exactly one row per commit.
   */
  lemma {:induction false} CommittedAtMostOnce<S>(e: Engine<S>, db: Db<S>, run: seq<Action>)
    requires Possible(e, System(db, [], []), run)
    ensures var s := After(e, System(db, [], []), run);
            && DistinctNames(s.log)
            && (forall k :: 0 <= k < |s.log| ==> !Recorded(db.ledger, s.log[k].name))
            && s.db.ledger == db.ledger + RowsOf(e, s.log)
  {
    assert db.ledger + RowsOf(e, []) == db.ledger;
    OnceInvRun(e, db.ledger, System(db, [], []), run);
  }
}
