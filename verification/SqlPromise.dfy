/**
 * What the comment above the check promises: columns, distinct placeholders and the highest placeholder
 * coincide. The check itself compares columns with comma-separated pieces and bounds the highest
 * placeholder, so a statement can pass without keeping that promise. This module says exactly when one
 * that passes keeps it, in terms of the numbers that stand in its values and of what each piece binds.
 */
module SqlPromise {
  import opened Sequences
  import opened Wrappers
  import opened Text
  import opened SqlInserts

  function Numbers(s: string): set<nat> {
    set n | n in Placeholders(s)
  }

  /** The header's promise: as many columns as distinct placeholders as the highest placeholder. */
  predicate Coincide(insert: Insert)
    requires Placeholders(insert.values) != []
  {
    |Numbers(insert.values)| == |Columns(insert.cols)| == Max(Placeholders(insert.values))
  }

  function Below(n: nat): (s: set<nat>)
    ensures |s| == n && forall k: nat :: k in s <==> k < n
  {
    if n == 0 then {} else Below(n - 1) + {n - 1}
  }

  lemma {:induction false} NumbersStand(s: string, n: nat)
    ensures n in Numbers(s) <==> Stands(s, n)
  {
    PlaceholdersAreThePositions(s, n);
  }

  lemma {:induction false} NumbersOfPassing(insert: Insert)
    requires Passes(insert) && Placeholders(insert.values) != []
    ensures forall n :: n in Numbers(insert.values) ==> n <= |Columns(insert.cols)|
    ensures |Columns(insert.cols)| == |Split(insert.values, ',')|
    ensures Max(Placeholders(insert.values)) == |Columns(insert.cols)| <==>
              |Columns(insert.cols)| in Numbers(insert.values)
  {
    PlaceholdersOf(insert.values);
    SplitCounts(insert.values, ',');
  }

  /** All numbers up to n but m stand in the text. */
  ghost predicate AllButOneStand(s: string, n: nat, m: nat) {
    m < n && !Stands(s, m) && forall k :: 0 <= k <= n && k != m ==> Stands(s, k)
  }

  lemma {:induction false} AllButOne(numbers: set<nat>, n: nat)
    requires numbers <= Below(n + 1)
    ensures |numbers| == n && n in numbers <==> exists m :: 0 <= m < n && numbers == Below(n + 1) - {m}
  {
    var rest := Below(n + 1) - numbers;
    assert |rest| == n + 1 - |numbers|;
    if |numbers| == n && n in numbers {
      var m :| m in rest;
      assert |rest - {m}| == 0;
      assert rest == {m};
      assert numbers == Below(n + 1) - {m};
    }
  }

  lemma {:induction false} AllButOneStandIff(s: string, n: nat, m: nat)
    requires Numbers(s) <= Below(n + 1) && m < n
    ensures AllButOneStand(s, n, m) <==> Numbers(s) == Below(n + 1) - {m}
  {
    forall k: nat ensures k in Numbers(s) <==> Stands(s, k) { NumbersStand(s, k); }
  }

  /**
   * For a statement that passes, the three numbers coincide exactly when, from 0 up to the number of
   * columns, every number but one below that number stands in the values.
   */
  lemma {:induction false} PromiseHoldsIff(insert: Insert)
    requires Passes(insert) && Placeholders(insert.values) != []
    ensures Coincide(insert) <==> exists m :: 0 <= m && AllButOneStand(insert.values, |Columns(insert.cols)|, m)
  {
    var s, n := insert.values, |Columns(insert.cols)|;
    NumbersOfPassing(insert);
    AllButOne(Numbers(s), n);
    forall m | 0 <= m < n ensures AllButOneStand(s, n, m) <==> Numbers(s) == Below(n + 1) - {m} {
      AllButOneStandIff(s, n, m);
    }
  }

  /** Where no $0 stands, as in any statement Postgres takes, that is: every number from 1 up to the columns. */
  lemma {:induction false} PromiseHoldsIffAllStand(insert: Insert)
    requires Passes(insert) && Placeholders(insert.values) != [] && !Stands(insert.values, 0)
    ensures Coincide(insert) <==> forall k :: 1 <= k <= |Columns(insert.cols)| ==> Stands(insert.values, k)
  {
    var s, n := insert.values, |Columns(insert.cols)|;
    PromiseHoldsIff(insert);
    NumbersOfPassing(insert);
    if forall k :: 1 <= k <= n ==> Stands(s, k) {
      assert AllButOneStand(s, n, 0);
    }
  }

  // ---------------------------------------------------------------- expressions that bind their own placeholder

  function Join(pieces: seq<string>): string
    requires pieces != []
  {
    if |pieces| == 1 then pieces[0] else pieces[0] + "," + Join(pieces[1..])
  }

  lemma {:induction false} JoinOfSplit(s: string)
    ensures Join(Split(s, ',')) == s
  {
    if s != "" {
      var pieces := Split(s[1..], ',');
      JoinOfSplit(s[1..]);
      if s[0] == ',' {
        assert ([""] + pieces)[1..] == pieces;
        assert s == "" + "," + s[1..];
      } else {
        assert ([[s[0]] + pieces[0]] + pieces[1..])[1..] == pieces[1..];
        assert Join([[s[0]] + pieces[0]] + pieces[1..]) == [s[0]] + Join(pieces);
        assert s == [s[0]] + s[1..];
      }
    }
  }

  lemma {:induction false} RunStopsAtComma(s: string, t: string)
    ensures Run(s + "," + t) == Run(s)
  {
    var all := s + "," + t;
    if s != "" {
      assert all[0] == s[0] && all[1..] == s[1..] + "," + t;
      RunStopsAtComma(s[1..], t);
    }
  }

  lemma {:induction false} BehindComma(s: string, t: string, k: nat)
    requires k <= |s|
    ensures (s + "," + t)[k..] == s[k..] + "," + t
  {}

  lemma {:induction false} PlaceholdersConcat(s: string, t: string)
    ensures Placeholders(s + "," + t) == Placeholders(s) + Placeholders(t)
    decreases |s|
  {
    var all := s + "," + t;
    if s == "" {
      assert all[1..] == t;
    } else {
      assert all[0] == s[0];
      BehindComma(s, t, 1);
      RunStopsAtComma(s[1..], t);
      if s[0] == '$' && Run(s[1..]) != "" {
        var skip := 1 + |Run(s[1..])|;
        BehindComma(s, t, skip);
        PlaceholdersConcat(s[skip..], t);
        Associate([NumberOf(Run(s[1..]))], Placeholders(s[skip..]), Placeholders(t));
      } else {
        PlaceholdersConcat(s[1..], t);
      }
    }
  }

  /** A comma ends every placeholder, so the placeholders of the values are those of their pieces. */
  lemma {:induction false} PlaceholdersOfPieces(pieces: seq<string>, n: nat)
    requires pieces != []
    ensures n in Placeholders(Join(pieces)) <==> exists i :: 0 <= i < |pieces| && n in Placeholders(pieces[i])
  {
    if |pieces| > 1 {
      var rest := pieces[1..];
      PlaceholdersConcat(pieces[0], Join(rest));
      PlaceholdersOfPieces(rest, n);
      assert forall i :: 0 <= i < |rest| ==> rest[i] == pieces[i + 1];
      if i :| 0 <= i < |rest| && n in Placeholders(rest[i]) {
        assert n in Placeholders(pieces[i + 1]);
      }
      if i :| 0 <= i < |pieces| && n in Placeholders(pieces[i]) {
        if i > 0 { assert n in Placeholders(rest[i - 1]); }
      }
    }
  }

  /** The expression binds a placeholder that none before it binds. */
  predicate BindsItsOwn(pieces: seq<string>, i: nat)
    requires i < |pieces|
  {
    exists n :: n in Placeholders(pieces[i]) && forall j :: 0 <= j < i ==> n !in Placeholders(pieces[j])
  }

  predicate AtMostOneEach(pieces: seq<string>) {
    forall i :: 0 <= i < |pieces| ==> |Placeholders(pieces[i])| <= 1
  }

  function NumbersIn(pieces: seq<string>): set<nat> {
    if pieces == [] then {} else NumbersIn(pieces[..|pieces| - 1]) + Numbers(pieces[|pieces| - 1])
  }

  lemma {:induction false} NumbersInPieces(pieces: seq<string>, n: nat)
    ensures n in NumbersIn(pieces) <==> exists i :: 0 <= i < |pieces| && n in Placeholders(pieces[i])
  {
    if pieces != [] {
      var front := pieces[..|pieces| - 1];
      NumbersInPieces(front, n);
      assert forall i :: 0 <= i < |front| ==> front[i] == pieces[i];
    }
  }

  lemma {:induction false} SameBefore(pieces: seq<string>, k: nat, i: nat)
    requires i < k <= |pieces|
    ensures BindsItsOwn(pieces[..k], i) <==> BindsItsOwn(pieces, i)
  {
    assert forall j :: 0 <= j < k ==> pieces[..k][j] == pieces[j];
  }

  predicate EachBindsItsOwn(pieces: seq<string>) {
    forall i :: 0 <= i < |pieces| ==> BindsItsOwn(pieces, i)
  }

  lemma {:induction false} EachAndTheLast(pieces: seq<string>)
    requires pieces != []
    ensures EachBindsItsOwn(pieces) <==> EachBindsItsOwn(pieces[..|pieces| - 1]) && BindsItsOwn(pieces, |pieces| - 1)
  {
    var k := |pieces| - 1;
    forall i | 0 <= i < k ensures BindsItsOwn(pieces[..k], i) <==> BindsItsOwn(pieces, i) { SameBefore(pieces, k, i); }
  }

  /** The last expression adds at most one number, and one exactly when it binds its own placeholder. */
  lemma {:induction false} OneExpressionMore(pieces: seq<string>)
    requires pieces != [] && |Placeholders(pieces[|pieces| - 1])| <= 1
    ensures var k := |pieces| - 1;
            |NumbersIn(pieces)| == |NumbersIn(pieces[..k])| + if BindsItsOwn(pieces, k) then 1 else 0
  {
    var k := |pieces| - 1;
    var front, bound := pieces[..k], Placeholders(pieces[k]);
    if bound == [] {
      assert NumbersIn(pieces) == NumbersIn(front);
    } else {
      assert bound == [bound[0]];
      assert NumbersIn(pieces) == NumbersIn(front) + {bound[0]};
      OwnIfNew(pieces, bound[0]);
    }
  }

  lemma {:induction false} OwnIfNew(pieces: seq<string>, n: nat)
    requires pieces != [] && Placeholders(pieces[|pieces| - 1]) == [n]
    ensures BindsItsOwn(pieces, |pieces| - 1) <==> n !in NumbersIn(pieces[..|pieces| - 1])
  {
    var k := |pieces| - 1;
    NumbersInPieces(pieces[..k], n);
    assert n in Placeholders(pieces[k]);
    assert forall j :: 0 <= j < k ==> pieces[..k][j] == pieces[j];
  }

  /** Of expressions with at most one placeholder each, as many bind their own as there are distinct numbers. */
  lemma {:induction false} AsManyNumbersIff(pieces: seq<string>)
    requires AtMostOneEach(pieces)
    ensures |NumbersIn(pieces)| <= |pieces|
    ensures |NumbersIn(pieces)| == |pieces| <==> EachBindsItsOwn(pieces)
  {
    if pieces != [] {
      AsManyNumbersIff(pieces[..|pieces| - 1]);
      OneExpressionMore(pieces);
      EachAndTheLast(pieces);
    }
  }

  lemma {:induction false} NumbersOfValues(s: string)
    ensures Numbers(s) == NumbersIn(Split(s, ','))
  {
    JoinOfSplit(s);
    forall n: nat ensures n in Numbers(s) <==> n in NumbersIn(Split(s, ',')) {
      PlaceholdersOfPieces(Split(s, ','), n);
      NumbersInPieces(Split(s, ','), n);
    }
  }

  /**
   * For a statement that passes and whose expressions bind at most one placeholder each, the promise
   * holds exactly when every expression binds its own placeholder and the highest is the column count;
   * where no $0 stands, exactly when every expression binds its own.
   */
  lemma {:induction false} PromiseHoldsIffEachBindsItsOwn(insert: Insert)
    requires Passes(insert) && Placeholders(insert.values) != [] && AtMostOneEach(Split(insert.values, ','))
    ensures var pieces, n := Split(insert.values, ','), |Columns(insert.cols)|;
            var own := EachBindsItsOwn(pieces);
            && (Coincide(insert) <==> own && Stands(insert.values, n))
            && (!Stands(insert.values, 0) ==> (Coincide(insert) <==> own))
  {
    var pieces, n := Split(insert.values, ','), |Columns(insert.cols)|;
    NumbersOfPassing(insert);
    NumbersOfValues(insert.values);
    AsManyNumbersIff(pieces);
    NumbersStand(insert.values, n);
    if !Stands(insert.values, 0) && |Numbers(insert.values)| == n { FullWithoutZero(insert.values, n); }
  }

  lemma {:induction false} FullWithoutZero(s: string, n: nat)
    requires !Stands(s, 0) && |Numbers(s)| == n && n > 0 && forall k :: k in Numbers(s) ==> k <= n
    ensures Stands(s, n)
  {
    var rest := Below(n + 1) - {0} - Numbers(s);
    NumbersStand(s, 0);
    NumbersStand(s, n);
    assert Numbers(s) <= Below(n + 1) - {0} && |Below(n + 1) - {0}| == n;
    assert |rest| == 0;
    assert n !in rest;
  }

  lemma {:induction false} NoDollarNoPlaceholder(s: string)
    requires '$' !in s
    ensures Placeholders(s) == []
  {
    if s != "" { NoDollarNoPlaceholder(s[1..]); }
  }

  lemma {:induction false} SplitOfOne(t: string)
    requires ',' !in t
    ensures Split(t, ',') == [t]
  {
    if t != "" {
      SplitOfOne(t[1..]);
      assert [t[0]] + t[1..] == t && [t[1..]][1..] == [];
    }
  }

  lemma {:induction false} SplitOfTwo(s: string, t: string)
    requires ',' !in s && ',' !in t
    ensures Split(s + "," + t, ',') == [s, t]
  {
    var all := s + "," + t;
    if s == "" {
      assert all[1..] == t;
      SplitOfOne(t);
    } else {
      assert all[0] == s[0] && all[1..] == s[1..] + "," + t;
      SplitOfTwo(s[1..], t);
      assert [s[0]] + s[1..] == s && [s[1..], t][1..] == [t];
    }
  }

  lemma {:induction false} TwoColumns()
    ensures |Columns("a,b")| == 2
  {
    assert "a,b" == "a" + "," + "b";
    SplitOfTwo("a", "b");
    ColumnsAreTheNonBlankPieces(["a", "b"]);
    assert 'a' in "a" && 'b' in "b";
  }

  /** Two columns and two expressions: no complaint as long as none of their placeholders is beyond $2. */
  lemma {:induction false} TwoExpressions(table: string, s: string, t: string)
    requires ',' !in s && ',' !in t
    ensures var insert := Insert(table, "a,b", s + "," + t);
            && Split(insert.values, ',') == [s, t] && |Columns(insert.cols)| == 2
            && Placeholders(insert.values) == Placeholders(s) + Placeholders(t)
            && (Complaint(insert) == None <==> forall n :: n in Placeholders(insert.values) ==> n <= 2)
  {
    SplitOfTwo(s, t);
    TwoColumns();
    PlaceholdersConcat(s, t);
  }

  lemma {:induction false} SumOfTwo()
    ensures Placeholders("$1+$2") == [1, 2]
  {
    var s := "$1+$2";
    assert s[1..] == "1+$2" && s[1..][1..] == "+$2";
    assert Run("+$2") == "" && Run("1+$2") == "1";
    assert s[2..] == "+$2" && "+$2"[1..] == ['$', '2'];
    assert Placeholders("+$2") == [2];
    assert "1"[..0] == "" && NumberOf("1") == 1;
  }

  /** The first expression binds $1, the second nothing. */
  lemma {:induction false} OneBindsOne(table: string, s: string, t: string)
    requires ',' !in s && ',' !in t && Placeholders(s) == [1] && Placeholders(t) == []
    ensures var insert := Insert(table, "a,b", s + "," + t);
            Complaint(insert) == None && Placeholders(insert.values) == [1] && !Coincide(insert)
  {
    TwoExpressions(table, s, t);
  }

  lemma {:induction false} NumbersOfOneTwo(s: string)
    requires Placeholders(s) == [1, 2]
    ensures |Numbers(s)| == 2 && Max(Placeholders(s)) == 2
  {
    assert Numbers(s) == {1, 2};
  }

  /** The first expression binds $1 and $2, the second nothing. */
  lemma {:induction false} OneBindsTwo(table: string, s: string, t: string)
    requires ',' !in s && ',' !in t && Placeholders(s) == [1, 2] && Placeholders(t) == []
    ensures var insert := Insert(table, "a,b", s + "," + t);
            && Complaint(insert) == None && Placeholders(insert.values) == [1, 2] && Coincide(insert)
            && Split(insert.values, ',') == [s, t] && !BindsItsOwn([s, t], 1)
  {
    TwoExpressions(table, s, t);
    NumbersOfOneTwo(s + "," + t);
  }

  /** The promise is not kept: `now()` fills a column and binds nothing, and nothing is complained about. */
  lemma {:induction false} LiteralBreaksThePromise(table: string)
    ensures var insert := Insert(table, "a,b", "$1" + "," + "now()");
            Complaint(insert) == None && Placeholders(insert.values) == [1] && !Coincide(insert)
  {
    NoDollarNoPlaceholder("now()");
    OneBindsOne(table, "$1", "now()");
  }

  /** And it can be kept although an expression binds nothing: another one binds two. */
  lemma {:induction false} OneMayBindForAnother(table: string)
    ensures var insert := Insert(table, "a,b", "$1+$2" + "," + "now()");
            && Complaint(insert) == None && Placeholders(insert.values) == [1, 2] && Coincide(insert)
            && Split(insert.values, ',') == ["$1+$2", "now()"] && !BindsItsOwn(["$1+$2", "now()"], 1)
  {
    SumOfTwo();
    NoDollarNoPlaceholder("now()");
    OneBindsTwo(table, "$1+$2", "now()");
  }
}
