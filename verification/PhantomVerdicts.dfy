/**
 * What the inspection reports, without its keys: rows are compared by chain and asset, and each row is
 * judged by the amounts of the earlier rows of its own pair that were not reported themselves.
 */
module PhantomVerdicts {
  import opened Wrappers
  import opened PhantomDeposits

  predicate NoColons(rows: seq<Row>) {
    forall i :: 0 <= i < |rows| ==> ':' !in rows[i].chain && ':' !in rows[i].asset
  }

  predicate SamePair(row: Row, chain: string, asset: string) {
    row.chain == chain && row.asset == asset
  }

  function OfPair(rows: seq<Row>, chain: string, asset: string): seq<Row> {
    if rows == [] then [] else
      var front, row := rows[..|rows| - 1], rows[|rows| - 1];
      if SamePair(row, chain, asset) then OfPair(front, chain, asset) + [row] else OfPair(front, chain, asset)
  }

  // ---------------------------------------------------------------- the key stands for the pair

  lemma {:induction false} KeyNamesThePair(row: Row, chain: string, asset: string)
    requires ':' !in chain && ':' !in asset
    ensures KeyOf(row) == KeyFor(chain, asset) <==> SamePair(row, chain, asset)
  {
    if KeyOf(row) == KeyFor(chain, asset) { SoleColon(chain, asset, row.chain, row.asset); }
  }

  /** Without colons in the names, two rows share their key exactly when they share chain and asset. */
  lemma {:induction false} KeyIsThePair(a: Row, b: Row)
    requires ':' !in b.chain && ':' !in b.asset
    ensures KeyOf(a) == KeyOf(b) <==> a.chain == b.chain && a.asset == b.asset
  {
    KeyNamesThePair(a, b.chain, b.asset);
  }

  /** So a group is the rows of one pair. */
  lemma {:induction false} GroupIsThePair(rows: seq<Row>, chain: string, asset: string)
    requires ':' !in chain && ':' !in asset
    ensures Group(rows, KeyFor(chain, asset)) == OfPair(rows, chain, asset)
  {
    if rows != [] {
      GroupIsThePair(rows[..|rows| - 1], chain, asset);
      KeyNamesThePair(rows[|rows| - 1], chain, asset);
    }
  }

  /** All of them, in the order they came in. */
  lemma {:induction false} PairsKeepOrder(rows: seq<Row>, chain: string, asset: string)
    requires ':' !in chain && ':' !in asset
    ensures var at, group := Positions(rows, KeyFor(chain, asset)), Group(rows, KeyFor(chain, asset));
            && |at| == |group| && (forall i :: 0 <= i < |at| ==> rows[at[i]] == group[i])
            && (forall i, j :: 0 <= i < j < |at| ==> at[i] < at[j])
            && (forall p :: 0 <= p < |rows| ==> (p in at <==> rows[p].chain == chain && rows[p].asset == asset))
  {
    GroupsKeepOrder(rows, KeyFor(chain, asset));
    forall p | 0 <= p < |rows| { KeyNamesThePair(rows[p], chain, asset); }
  }

  /** A row of another pair, wherever it stands, changes nothing for this one. */
  lemma {:induction false} OtherPairsDoNotMatter(front: seq<Row>, other: Row, back: seq<Row>, chain: string,
                                               asset: string)
    requires ':' !in chain && ':' !in asset && !(other.chain == chain && other.asset == asset)
    ensures Group(front + [other] + back, KeyFor(chain, asset)) == Group(front + back, KeyFor(chain, asset))
  {
    GroupIsThePair(front + [other] + back, chain, asset);
    GroupIsThePair(front + back, chain, asset);
    OfPairWithout(front, other, back, chain, asset);
  }

  lemma {:induction false} OfPairWithout(front: seq<Row>, other: Row, back: seq<Row>, chain: string, asset: string)
    requires !SamePair(other, chain, asset)
    ensures OfPair(front + [other] + back, chain, asset) == OfPair(front + back, chain, asset)
    decreases |back|
  {
    var long, short := front + [other] + back, front + back;
    if back == [] {
      assert long[..|long| - 1] == front && short == front;
    } else {
      assert long[..|long| - 1] == front + [other] + back[..|back| - 1];
      assert short[..|short| - 1] == front + back[..|back| - 1];
      OfPairWithout(front, other, back[..|back| - 1], chain, asset);
    }
  }

  // ---------------------------------------------------------------- the verdicts

  /** The amounts of the rows of a pair that are not marked. */
  function Counted(rows: seq<Row>, marks: seq<bool>, chain: string, asset: string): int
    requires |marks| == |rows|
  {
    if rows == [] then 0 else
      var n := |rows| - 1;
      Counted(rows[..n], marks[..n], chain, asset)
        + if SamePair(rows[n], chain, asset) && !marks[n] then rows[n].amount else 0
  }

  function Marked(rows: seq<Row>, marks: seq<bool>, chain: string, asset: string): seq<Row>
    requires |marks| == |rows|
  {
    if rows == [] then [] else
      var n := |rows| - 1;
      Marked(rows[..n], marks[..n], chain, asset)
        + if SamePair(rows[n], chain, asset) && marks[n] then [rows[n]] else []
  }

  /** The balance before was none or zero, and the balance now is not above what is counted, which is something. */
  predicate LooksOld(row: Row, counted: int) {
    (row.previous == None || row.previous == Some(0)) && 0 < counted && row.current <= counted
  }

  /** A row is marked exactly when it looks old beside the unmarked rows of its pair before it. */
  predicate Verdict(rows: seq<Row>, marks: seq<bool>) {
    && |marks| == |rows|
    && forall p :: 0 <= p < |rows| ==>
         (marks[p] <==> LooksOld(rows[p], Counted(rows[..p], marks[..p], rows[p].chain, rows[p].asset)))
  }

  lemma {:induction false} VerdictOfFront(rows: seq<Row>, marks: seq<bool>)
    requires Verdict(rows, marks) && rows != []
    ensures Verdict(rows[..|rows| - 1], marks[..|rows| - 1])
  {
    var n := |rows| - 1;
    forall p | 0 <= p < n
      ensures marks[..n][p] <==>
                LooksOld(rows[..n][p], Counted(rows[..n][..p], marks[..n][..p], rows[..n][p].chain, rows[..n][p].asset))
    {
      assert rows[..n][..p] == rows[..p] && marks[..n][..p] == marks[..p];
    }
  }

  /** Pair by pair it is what the running totals call phantom. */
  lemma {:induction false} VerdictIsRunningTotal(rows: seq<Row>, marks: seq<bool>, chain: string, asset: string)
    requires Verdict(rows, marks)
    ensures Counted(rows, marks, chain, asset) == Known(OfPair(rows, chain, asset))
    ensures Marked(rows, marks, chain, asset) == Phantoms(OfPair(rows, chain, asset))
  {
    if rows != [] {
      var n := |rows| - 1;
      VerdictOfFront(rows, marks);
      VerdictIsRunningTotal(rows[..n], marks[..n], chain, asset);
      if SamePair(rows[n], chain, asset) {
        OneMore(OfPair(rows[..n], chain, asset), rows[n]);
      }
    }
  }

  /** There is one marking with that property, and no other. */
  lemma {:induction false} VerdictIsUnique(rows: seq<Row>, one: seq<bool>, two: seq<bool>)
    requires Verdict(rows, one) && Verdict(rows, two)
    ensures one == two
  {
    if rows != [] {
      var n := |rows| - 1;
      VerdictOfFront(rows, one);
      VerdictOfFront(rows, two);
      VerdictIsUnique(rows[..n], one[..n], two[..n]);
      assert one == one[..n] + [one[n]] && two == two[..n] + [two[n]];
    }
  }

  lemma {:induction false} VerdictExists(rows: seq<Row>) returns (marks: seq<bool>)
    ensures Verdict(rows, marks)
  {
    marks := [];
    if rows != [] {
      var n := |rows| - 1;
      var before := VerdictExists(rows[..n]);
      marks := before + [LooksOld(rows[n], Counted(rows[..n], before, rows[n].chain, rows[n].asset))];
      forall p | 0 <= p < |rows| ensures marks[..p] == before[..p] {}
      forall p | 0 <= p < n ensures rows[..n][..p] == rows[..p] {}
      assert before[..n] == before;
    }
  }

  // ---------------------------------------------------------------- the answer

  /** The pairs, each once, in the order of first appearance. */
  function Pairs(rows: seq<Row>): seq<(string, string)> {
    if rows == [] then [] else
      var pairs, row := Pairs(rows[..|rows| - 1]), rows[|rows| - 1];
      if (row.chain, row.asset) in pairs then pairs else pairs + [(row.chain, row.asset)]
  }

  function MarkedIn(rows: seq<Row>, marks: seq<bool>, pairs: seq<(string, string)>): seq<Row>
    requires |marks| == |rows|
  {
    if pairs == [] then [] else
      var (chain, asset) := pairs[|pairs| - 1];
      MarkedIn(rows, marks, pairs[..|pairs| - 1]) + Marked(rows, marks, chain, asset)
  }

  ghost predicate OneForOne(keys: seq<string>, pairs: seq<(string, string)>) {
    && |keys| == |pairs|
    && forall i :: 0 <= i < |pairs| ==>
         ':' !in pairs[i].0 && ':' !in pairs[i].1 && keys[i] == KeyFor(pairs[i].0, pairs[i].1)
  }

  /** The keys are those of the pairs, one for one. */
  lemma {:induction false} KeysAreThePairs(rows: seq<Row>)
    requires NoColons(rows)
    ensures OneForOne(Keys(rows), Pairs(rows))
  {
    if rows != [] {
      var front, row := rows[..|rows| - 1], rows[|rows| - 1];
      KeysAreThePairs(front);
      KnownPair(Keys(front), Pairs(front), row);
    }
  }

  lemma {:induction false} KnownPair(keys: seq<string>, pairs: seq<(string, string)>, row: Row)
    requires OneForOne(keys, pairs)
    ensures KeyOf(row) in keys <==> (row.chain, row.asset) in pairs
  {
    if KeyOf(row) in keys {
      var i :| 0 <= i < |keys| && keys[i] == KeyOf(row);
      SoleColon(pairs[i].0, pairs[i].1, row.chain, row.asset);
      assert pairs[i] == (row.chain, row.asset);
    }
    if (row.chain, row.asset) in pairs {
      var i :| 0 <= i < |pairs| && pairs[i] == (row.chain, row.asset);
      assert keys[i] == KeyOf(row);
    }
  }

  lemma {:induction false} OnePairReported(rows: seq<Row>, marks: seq<bool>, chain: string, asset: string)
    requires Verdict(rows, marks) && ':' !in chain && ':' !in asset
    ensures Phantoms(Group(rows, KeyFor(chain, asset))) == Marked(rows, marks, chain, asset)
  {
    VerdictIsRunningTotal(rows, marks, chain, asset);
    GroupIsThePair(rows, chain, asset);
  }

  lemma {:induction false} OneForOneFront(keys: seq<string>, pairs: seq<(string, string)>, n: nat)
    requires OneForOne(keys, pairs) && |pairs| == n + 1
    ensures OneForOne(keys[..n], pairs[..n])
    ensures ':' !in pairs[n].0 && ':' !in pairs[n].1 && keys[n] == KeyFor(pairs[n].0, pairs[n].1)
  {}

  lemma {:induction false} ReportedOneMore(rows: seq<Row>, marks: seq<bool>, keys: seq<string>,
                                           pairs: seq<(string, string)>, n: nat)
    requires |marks| == |rows| && |keys| == |pairs| == n + 1
    requires PhantomsIn(rows, keys[..n]) == MarkedIn(rows, marks, pairs[..n])
    requires Phantoms(Group(rows, keys[n])) == Marked(rows, marks, pairs[n].0, pairs[n].1)
    ensures PhantomsIn(rows, keys) == MarkedIn(rows, marks, pairs)
  {}

  lemma {:induction false} ReportedByPairs(rows: seq<Row>, marks: seq<bool>, keys: seq<string>,
                                           pairs: seq<(string, string)>)
    requires Verdict(rows, marks) && OneForOne(keys, pairs)
    ensures PhantomsIn(rows, keys) == MarkedIn(rows, marks, pairs)
    decreases |pairs|
  {
    if pairs != [] {
      var n := |pairs| - 1;
      OneForOneFront(keys, pairs, n);
      ReportedByPairs(rows, marks, keys[..n], pairs[..n]);
      OnePairReported(rows, marks, pairs[n].0, pairs[n].1);
      ReportedOneMore(rows, marks, keys, pairs, n);
    }
  }

  /**
   * The answer of the inspection on names without colons: the ids of the rows the verdict marks, pair by
   * pair in the order the pairs appear, and in each pair in the order of the rows.
   */
  lemma {:induction false} ReportedAreTheMarked(rows: seq<Row>, marks: seq<bool>)
    requires NoColons(rows) && Verdict(rows, marks)
    ensures Ids(PhantomsIn(rows, Keys(rows))) == Ids(MarkedIn(rows, marks, Pairs(rows)))
  {
    KeysAreThePairs(rows);
    ReportedByPairs(rows, marks, Keys(rows), Pairs(rows));
  }
}
