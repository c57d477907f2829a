/** The directory listing a migration run works from: the `.sql` names in sorted order. */
module MigrationFiles {
  import opened Sequences
  import opened Text

  ghost predicate Ascending(s: seq<string>) {
    forall i, j :: 0 <= i < j < |s| ==> Less(s[i], s[j])
  }

  predicate IsSql(name: string) {
    |name| >= 4 && name[|name| - 4..] == ".sql"
  }

  lemma {:induction false} SqlIsASuffix(name: string)
    ensures IsSql(name) <==> exists stem :: name == stem + ".sql"
  {
    if IsSql(name) { assert name == name[..|name| - 4] + ".sql"; }
  }

  function SqlOnly(listing: seq<string>): seq<string> {
    if listing == [] then []
    else if IsSql(listing[0]) then [listing[0]] + SqlOnly(listing[1..])
    else SqlOnly(listing[1..])
  }

  function Place(name: string, sorted: seq<string>): seq<string> {
    if sorted == [] || !Less(sorted[0], name) then [name] + sorted
    else [sorted[0]] + Place(name, sorted[1..])
  }

  function Sort(names: seq<string>): seq<string> {
    if names == [] then [] else Place(names[0], Sort(names[1..]))
  }

  /** The `files` of a run, from what `readdir` happened to list. */
  function FilesOf(listing: seq<string>): seq<string> {
    Sort(SqlOnly(listing))
  }

  lemma {:induction false} SqlOnlyKeeps(listing: seq<string>)
    ensures forall x :: x in SqlOnly(listing) <==> x in listing && IsSql(x)
    ensures Distinct(listing) ==> Distinct(SqlOnly(listing))
  {
    if listing != [] {
      SqlOnlyKeeps(listing[1..]);
      assert forall x :: x in listing <==> x == listing[0] || x in listing[1..];
    }
  }

  lemma {:induction false} PlaceKeeps(name: string, sorted: seq<string>)
    requires Ascending(sorted) && name !in sorted
    ensures Ascending(Place(name, sorted))
    ensures forall x :: x in Place(name, sorted) <==> x == name || x in sorted
  {
    if sorted == [] {
    } else if !Less(sorted[0], name) {
      LessIsTotal(sorted[0], name);
      forall i | 0 <= i < |sorted| ensures Less(name, sorted[i]) {
        if i > 0 { LessIsTransitive(name, sorted[0], sorted[i]); }
      }
    } else {
      var rest := sorted[1..];
      PlaceKeeps(name, rest);
      var placed := Place(name, rest);
      forall i | 0 <= i < |placed| ensures Less(sorted[0], placed[i]) {
        assert placed[i] in placed;
        if placed[i] != name {
          var k :| 0 <= k < |rest| && rest[k] == placed[i];
          assert sorted[k + 1] == rest[k];
        }
      }
      assert forall x :: x in sorted <==> x == sorted[0] || x in rest;
    }
  }

  lemma {:induction false} SortKeeps(names: seq<string>)
    requires Distinct(names)
    ensures Ascending(Sort(names))
    ensures forall x :: x in Sort(names) <==> x in names
  {
    if names != [] {
      var rest := names[1..];
      SortKeeps(rest);
      assert names[0] !in rest;
      PlaceKeeps(names[0], Sort(rest));
      assert forall x :: x in names <==> x == names[0] || x in rest;
    }
  }

  lemma {:induction false} FilesAreSql(listing: seq<string>)
    requires Distinct(listing)
    ensures Ascending(FilesOf(listing))
    ensures forall x :: x in FilesOf(listing) <==> x in listing && IsSql(x)
  {
    SqlOnlyKeeps(listing);
    SortKeeps(SqlOnly(listing));
  }

  /** What a run works through: every `.sql` name once, in strictly ascending order. */
  lemma {:induction false} FilesAreSorted(listing: seq<string>)
    requires Distinct(listing)
    ensures Ascending(FilesOf(listing))
    ensures forall x :: x in FilesOf(listing) <==> x in listing && exists stem :: x == stem + ".sql"
  {
    FilesAreSql(listing);
    forall x ensures IsSql(x) <==> exists stem :: x == stem + ".sql" { SqlIsASuffix(x); }
  }

  lemma {:induction false} AscendingIsDistinct(s: seq<string>)
    requires Ascending(s)
    ensures Distinct(s)
  {
    forall i, j | 0 <= i < j < |s| ensures s[i] != s[j] { LessIsStrict(s[i], s[j]); }
  }

  lemma {:induction false} HeadIsLeast(s: seq<string>, x: string)
    requires Ascending(s) && x in s && x != s[0]
    ensures Less(s[0], x)
  {
    var i :| 0 <= i < |s| && s[i] == x;
  }

  /**
   * One sorted list is a prefix of a larger one exactly when every added name sorts after
   * every old one.
   */
  lemma {:induction false} PrefixIffAddedLast(before: seq<string>, after: seq<string>)
    requires Ascending(before) && Ascending(after)
    requires forall x :: x in before ==> x in after
    ensures before <= after <==> forall x, y :: x in before && y in after && y !in before ==> Less(x, y)
  {
    if before <= after {
      forall x, y | x in before && y in after && y !in before ensures Less(x, y) {
        var i :| 0 <= i < |before| && before[i] == x;
        var j :| 0 <= j < |after| && after[j] == y;
        assert forall k :: 0 <= k < |before| ==> after[k] == before[k];
        assert after[i] == x;
      }
    }
    if forall x, y :: x in before && y in after && y !in before ==> Less(x, y) {
      AddedLastIsPrefix(before, after);
    }
  }

  lemma {:induction false} AddedLastIsPrefix(before: seq<string>, after: seq<string>)
    requires Ascending(before) && Ascending(after)
    requires forall x :: x in before ==> x in after
    requires forall x, y :: x in before && y in after && y !in before ==> Less(x, y)
    ensures before <= after
    decreases |before|
  {
    if before != [] {
      var a := before[0];
      assert a in after;
      var b := after[0];
      if a != b {
        HeadIsLeast(after, a);
        LessIsStrict(a, b);
        assert b in before;
        HeadIsLeast(before, b);
        assert false;
      }
      var s, t := before[1..], after[1..];
      AscendingIsDistinct(before);
      AscendingIsDistinct(after);
      assert a !in s && a !in t;
      forall x | x in s ensures x in t { assert x in before; assert x in after; }
      forall x, y | x in s && y in t && y !in s ensures Less(x, y) {
        assert x in before && y in after;
        assert y != a;
      }
      AddedLastIsPrefix(s, t);
      assert before == [a] + s && after == [a] + t;
    }
  }

  lemma {:induction false} AsManyMembers(s: seq<string>)
    requires Distinct(s)
    ensures |set x | x in s| == |s|
  {
    if s != [] {
      var front, last := s[..|s| - 1], s[|s| - 1];
      AsManyMembers(front);
      assert last !in front;
      assert (set x | x in s) == (set x | x in front) + {last};
    }
  }

  /** Two sorted lists of one length, one within the other, are the same list. */
  lemma {:induction false} SubsetOfSameLength(s: seq<string>, t: seq<string>)
    requires Ascending(s) && Ascending(t) && |s| == |t|
    requires forall x :: x in s ==> x in t
    ensures s == t
  {
    AscendingIsDistinct(s);
    AscendingIsDistinct(t);
    AsManyMembers(s);
    AsManyMembers(t);
    var a, b := set x | x in s, set x | x in t;
    assert a <= b && |b - a| == |b| - |a|;
    forall x | x in t ensures x in s { assert x in b - a || x in a; }
    AddedLastIsPrefix(s, t);
  }

  /** The order `readdir` lists a directory in does not matter. */
  lemma {:induction false} ListingOrderIsIrrelevant(first: seq<string>, second: seq<string>)
    requires Distinct(first) && Distinct(second)
    requires forall x :: x in first <==> x in second
    ensures FilesOf(first) == FilesOf(second)
  {
    FilesAreSorted(first);
    FilesAreSorted(second);
    AddedLastIsPrefix(FilesOf(first), FilesOf(second));
    AddedLastIsPrefix(FilesOf(second), FilesOf(first));
  }
}
