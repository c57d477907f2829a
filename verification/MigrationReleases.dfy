/** Deployments as they are shipped: a directory listing and the bodies in it, and what a release may change. */
module MigrationReleases {
  import opened Sequences
  import opened Wrappers
  import opened Text
  import opened MigrationFiles
  import opened MigrationRuns
  import opened MigrationDeployments
  import opened MigrationDrift
  import opened MigrationSystem
  import opened MigrationPrefix

  /** What `readdir` lists, in whatever order, and what `readFile` reads. */
  datatype Release = Release(listing: seq<string>, bodies: map<string, string>) {
    predicate Has(name: string) {
      name in listing && IsSql(name)
    }

    ghost predicate Valid() {
      Distinct(listing) && forall name :: Has(name) ==> name in bodies
    }
  }

  /** The files a run of the release works through. */
  ghost function Files(r: Release): (files: seq<Migration>)
    requires r.Valid()
    ensures |files| == |FilesOf(r.listing)|
  {
    FilesAreSorted(r.listing);
    var names := FilesOf(r.listing);
    seq(|names|, i requires 0 <= i < |names| => Migration(names[i], r.bodies[names[i]]))
  }

  lemma {:induction false} FilesAre(r: Release)
    requires r.Valid()
    ensures NamesOf(Files(r)) == FilesOf(r.listing) && Ascending(NamesOf(Files(r))) && DistinctNames(Files(r))
    ensures forall m :: m in Files(r) <==> r.Has(m.name) && m.sql == r.bodies[m.name]
  {
    FilesAreSql(r.listing);
    var names, files := FilesOf(r.listing), Files(r);
    assert NamesOf(files) == names;
    AscendingNamesAreDistinct(files);
    forall m ensures m in files <==> r.Has(m.name) && m.sql == r.bodies[m.name] {
      if m in files {
        var i :| 0 <= i < |files| && files[i] == m;
        assert names[i] in names;
      }
      if r.Has(m.name) && m.sql == r.bodies[m.name] {
        assert m.name in names;
        var i :| 0 <= i < |names| && names[i] == m.name;
        assert files[i] == m;
      }
    }
  }

  /** The later release edits and removes no file of the earlier one, and adds only files sorting after all of them. */
  ghost predicate OnlyAddsLast(before: Release, after: Release)
    requires before.Valid() && after.Valid()
  {
    && (forall x :: before.Has(x) ==> after.Has(x) && after.bodies[x] == before.bodies[x])
    && (forall x, y :: before.Has(x) && after.Has(y) && !before.Has(y) ==> Less(x, y))
  }

  /** That is exactly when the files of the earlier release are a prefix of the files of the later one. */
  lemma {:induction false} PrefixIffOnlyAddsLast(before: Release, after: Release)
    requires before.Valid() && after.Valid()
    ensures Files(before) <= Files(after) <==> OnlyAddsLast(before, after)
  {
    if Files(before) <= Files(after) { PrefixOnlyAddsLast(before, after); }
    if OnlyAddsLast(before, after) { OnlyAddsLastIsPrefix(before, after); }
  }

  lemma {:induction false} PrefixOnlyAddsLast(before: Release, after: Release)
    requires before.Valid() && after.Valid() && Files(before) <= Files(after)
    ensures OnlyAddsLast(before, after)
  {
    FilesAre(before);
    FilesAre(after);
    var a, b := Files(before), Files(after);
    forall x | before.Has(x) ensures after.Has(x) && after.bodies[x] == before.bodies[x] {
      var m := Migration(x, before.bodies[x]);
      assert m in a;
      var i :| 0 <= i < |a| && a[i] == m;
      assert b[i] == m && m in b;
    }
    MemberNames(before);
    MemberNames(after);
    PrefixIffAddedLast(NamesOf(a), NamesOf(b));
  }

  lemma {:induction false} OnlyAddsLastIsPrefix(before: Release, after: Release)
    requires before.Valid() && after.Valid() && OnlyAddsLast(before, after)
    ensures Files(before) <= Files(after)
  {
    FilesAre(before);
    FilesAre(after);
    var a, b := Files(before), Files(after);
    MemberNames(before);
    MemberNames(after);
    PrefixIffAddedLast(NamesOf(a), NamesOf(b));
    forall i | 0 <= i < |a| ensures a[i] == b[i] {
      assert NamesOf(a)[i] == NamesOf(b)[i];
      assert a[i] in a && b[i] in b;
    }
  }

  lemma {:induction false} MemberNames(r: Release)
    requires r.Valid()
    ensures forall x :: x in NamesOf(Files(r)) <==> r.Has(x)
  {
    FilesAre(r);
    FilesAreSql(r.listing);
  }

  // ---------------------------------------------------------------- deployments

  ghost predicate AllValid(releases: seq<Release>) {
    forall i :: 0 <= i < |releases| ==> releases[i].Valid()
  }

  /** Every release only adds files behind those of the release before it, and edits none. */
  ghost predicate Growing(releases: seq<Release>)
    requires AllValid(releases)
  {
    forall i :: 0 <= i < |releases| - 1 ==> OnlyAddsLast(releases[i], releases[i + 1])
  }

  ghost function FilesOfAll(releases: seq<Release>): (lists: seq<seq<Migration>>)
    requires AllValid(releases)
    ensures |lists| == |releases| && forall i :: 0 <= i < |releases| ==> lists[i] == Files(releases[i])
  {
    seq(|releases|, i requires 0 <= i < |releases| => Files(releases[i]))
  }

  lemma {:induction false} GrowingArePrefixes(releases: seq<Release>, i: nat)
    requires AllValid(releases) && Growing(releases) && i < |releases|
    ensures Files(releases[i]) <= Files(releases[|releases| - 1])
    decreases |releases| - i
  {
    if i < |releases| - 1 {
      PrefixIffOnlyAddsLast(releases[i], releases[i + 1]);
      GrowingArePrefixes(releases, i + 1);
    }
  }

  /**
   * If every release only adds files sorting after those already there and edits none, then after any
   * deployments, of which the last goes through, the schema is the last directory applied once to the
   * empty database, every file of it is recorded, and one more run executes nothing.
   */
  lemma {:induction false} GrowingReleasesEqualScratch<S>(e: Engine<S>, earlier: seq<Release>, last: Release, schema: S)
    requires e.Digests() && AllValid(earlier) && last.Valid() && Growing(earlier + [last])
    requires Run(e, Files(last), Deploy(e, FilesOfAll(earlier), Db(schema, []))).failed == None
    ensures var out := Run(e, Files(last), Deploy(e, FilesOfAll(earlier), Db(schema, [])));
            && Fold(e, Files(last), schema) == Some(out.db.schema)
            && out.db.ledger == RowsOf(e, Files(last))
            && Run(e, Files(last), out.db).executed == [] && Run(e, Files(last), out.db).db == out.db
  {
    var all, lists := earlier + [last], FilesOfAll(earlier);
    assert all[|all| - 1] == last;
    forall i | 0 <= i < |lists| ensures lists[i] <= Files(last) {
      assert all[i] == earlier[i];
      GrowingArePrefixes(all, i);
    }
    FilesAre(last);
    IncrementalEqualsScratch(e, Files(last), lists, schema);
    SecondRunExecutesNothing(e, Files(last), Deploy(e, lists, Db(schema, [])));
  }

  /** Between two releases, whatever they hold, the incremental ledger is the scratch ledger exactly in that case. */
  lemma {:induction false} SameLedgerIffOnlyAddsLast<S>(e: Engine<S>, before: Release, after: Release, schema: S)
    requires e.Digests() && e.CollisionFree() && before.Valid() && after.Valid()
    requires Run(e, Files(before), Db(schema, [])).failed == None && Run(e, Files(after), Db(schema, [])).failed == None
    requires Run(e, Files(after), Run(e, Files(before), Db(schema, [])).db).failed == None
    ensures var incremental := Run(e, Files(after), Run(e, Files(before), Db(schema, [])).db).db;
            incremental.ledger == Run(e, Files(after), Db(schema, [])).db.ledger <==> OnlyAddsLast(before, after)
  {
    var a, b := Files(before), Files(after);
    FilesAre(after);
    IncrementalIffPrefix(e, a, b, schema);
    PrefixIffOnlyAddsLast(before, after);
    if RowsOf(e, a) <= RowsOf(e, b) {
      forall i | 0 <= i < |a| ensures a[i] == b[i] { assert RowsOf(e, a)[i] == RowsOf(e, b)[i]; }
    }
    if a <= b {
      forall i | 0 <= i < |a| ensures RowsOf(e, a)[i] == RowsOf(e, b)[i] { assert a[i] == b[i]; }
    }
  }

  /** And so is the schema, on the server that keeps a journal of distinct bodies. */
  lemma {:induction false} SameSchemaIffOnlyAddsLast(before: Release, after: Release)
    requires before.Valid() && after.Valid() && Distinct(BodiesOf(Files(after)))
    ensures var first, scratch := Run(Journal(), Files(before), Db([], [])), Run(Journal(), Files(after), Db([], []));
            var incremental := Run(Journal(), Files(after), first.db);
            && first.failed == scratch.failed == incremental.failed == None
            && (incremental.db.schema == scratch.db.schema <==> OnlyAddsLast(before, after))
  {
    FilesAre(before);
    FilesAre(after);
    IncrementalSchemaIffPrefix(Files(before), Files(after));
    PrefixIffOnlyAddsLast(before, after);
  }

  // ---------------------------------------------------------------- concurrent runners of releases

  /** Every launch brings a release that the final one only adds to. */
  ghost predicate Ships(run: seq<Action>, k: nat, final: Release)
    requires final.Valid() && k < |run|
  {
    run[k].Launch? ==> exists r: Release :: r.Valid() && OnlyAddsLast(r, final) && run[k].files == Files(r)
  }

  /**
   * Runners of any such releases, interleaved and dying in any way, on any database whose ledger is
   * downward closed in sort order: it stays so, and what was committed are the next files, in order.
   */
  lemma {:induction false} ReleasesKeepLedgerClosed<S>(e: Engine<S>, final: Release, db: Db<S>, run: seq<Action>)
    requires final.Valid() && DownwardClosed(db.ledger, Files(final))
    requires Possible(e, System(db, [], []), run) && forall k :: 0 <= k < |run| ==> Ships(run, k, final)
    ensures var s := After(e, System(db, [], []), run);
            && DownwardClosed(s.db.ledger, Files(final))
            && s.db.ledger == db.ledger + RowsOf(e, s.log)
            && exists k0: nat :: NamesFirst(db.ledger, Files(final), k0) && k0 + |s.log| <= |Files(final)|
                                 && s.log == Files(final)[k0..k0 + |s.log|]
  {
    var all := Files(final);
    FilesAre(final);
    forall k | 0 <= k < |run| && run[k].Launch? ensures run[k].files <= all {
      assert Ships(run, k, final);
      var r: Release :| r.Valid() && OnlyAddsLast(r, final) && run[k].files == Files(r);
      PrefixIffOnlyAddsLast(r, final);
    }
    LedgerIsDownwardClosed(e, all, db, run);
    var k0 := ClosedNamesFirst(db.ledger, all);
    AlwaysAPrefix(e, all, db, k0, run);
  }
}
