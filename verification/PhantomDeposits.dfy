/** The inspection of recorded wallet deposits: groups, and one running total per group. */
module PhantomDeposits {
  import opened Sequences
  import opened Wrappers

  // Rows are grouped by chain and asset; the running total of a group tells repeated announcements of old
  // money from new money. Amounts are whole micro-units.

  /** `previous` is absent on rows written by the poller's baseline. */
  datatype Row = Row(id: string, chain: string, asset: string, previous: Option<int>, current: int, amount: int)

  function Previous(row: Row): int {
    match row.previous
    case None => 0
    case Some(p) => p
  }

  predicate IsPhantom(row: Row, known: int) {
    Previous(row) == 0 && known > 0 && row.current <= known
  }

  // ---------------------------------------------------------------- the running total of one group

  /** What the running total is after these rows. */
  function Known(rows: seq<Row>): int {
    if rows == [] then 0 else
      var before, row := Known(rows[..|rows| - 1]), rows[|rows| - 1];
      if IsPhantom(row, before) then before else before + row.amount
  }

  function Phantoms(rows: seq<Row>): seq<Row> {
    if rows == [] then [] else
      var front, row := rows[..|rows| - 1], rows[|rows| - 1];
      if IsPhantom(row, Known(front)) then Phantoms(front) + [row] else Phantoms(front)
  }

  function Real(rows: seq<Row>): seq<Row> {
    if rows == [] then [] else
      var front, row := rows[..|rows| - 1], rows[|rows| - 1];
      if IsPhantom(row, Known(front)) then Real(front) else Real(front) + [row]
  }

  function Total(rows: seq<Row>): int {
    if rows == [] then 0 else Total(rows[..|rows| - 1]) + rows[|rows| - 1].amount
  }

  function Ids(rows: seq<Row>): seq<string> {
    seq(|rows|, i requires 0 <= i < |rows| => rows[i].id)
  }

  lemma {:induction false} OneMore(rows: seq<Row>, row: Row)
    ensures Known(rows + [row]) == if IsPhantom(row, Known(rows)) then Known(rows) else Known(rows) + row.amount
    ensures Phantoms(rows + [row]) == if IsPhantom(row, Known(rows)) then Phantoms(rows) + [row] else Phantoms(rows)
    ensures Real(rows + [row]) == if IsPhantom(row, Known(rows)) then Real(rows) else Real(rows) + [row]
    ensures Total(rows + [row]) == Total(rows) + row.amount
  {
    var all := rows + [row];
    assert all[..|all| - 1] == rows;
  }

  /** The running total is what the rows called real add up to. */
  lemma {:induction false} KnownIsReal(rows: seq<Row>)
    ensures Known(rows) == Total(Real(rows))
  {
    if rows != [] {
      var front, row := rows[..|rows| - 1], rows[|rows| - 1];
      KnownIsReal(front);
      OneMore(Real(front), row);
    }
  }

  /** No amount is lost or counted twice. */
  lemma {:induction false} AmountsAreConserved(rows: seq<Row>)
    ensures Total(Real(rows)) + Total(Phantoms(rows)) == Total(rows)
  {
    if rows != [] {
      var front, row := rows[..|rows| - 1], rows[|rows| - 1];
      AmountsAreConserved(front);
      OneMore(Real(front), row);
      OneMore(Phantoms(front), row);
    }
  }

  /** How often a row stands in a list. */
  function Copies(rows: seq<Row>, row: Row): nat {
    if rows == [] then 0 else Copies(rows[..|rows| - 1], row) + if rows[|rows| - 1] == row then 1 else 0
  }

  lemma {:induction false} CopiesConcat(a: seq<Row>, b: seq<Row>, row: Row)
    ensures Copies(a + b, row) == Copies(a, row) + Copies(b, row)
  {
    if b == [] {
      assert a + b == a;
    } else {
      assert (a + b)[..|a + b| - 1] == a + b[..|b| - 1];
      CopiesConcat(a, b[..|b| - 1], row);
    }
  }

  /** Every row is called either real or phantom, as often as it stands in the list. */
  lemma {:induction false} RowsSplit(rows: seq<Row>, row: Row)
    ensures Copies(Real(rows), row) + Copies(Phantoms(rows), row) == Copies(rows, row)
  {
    if rows != [] {
      var front, last := rows[..|rows| - 1], rows[|rows| - 1];
      RowsSplit(front, row);
      assert Real(front) == (Real(front) + [last])[..|Real(front)|];
      assert Phantoms(front) == (Phantoms(front) + [last])[..|Phantoms(front)|];
    }
  }

  // ---------------------------------------------------------------- groups

  function KeyFor(chain: string, asset: string): string {
    chain + ":" + asset
  }

  function KeyOf(row: Row): string {
    KeyFor(row.chain, row.asset)
  }

  /** The keys, each once, in the order of first appearance: how a JavaScript Map lists them. */
  function Keys(rows: seq<Row>): seq<string> {
    if rows == [] then [] else
      var keys, key := Keys(rows[..|rows| - 1]), KeyOf(rows[|rows| - 1]);
      if key in keys then keys else keys + [key]
  }

  function Group(rows: seq<Row>, key: string): seq<Row> {
    if rows == [] then [] else
      var front, row := rows[..|rows| - 1], rows[|rows| - 1];
      Group(front, key) + if KeyOf(row) == key then [row] else []
  }

  function PhantomsIn(rows: seq<Row>, keys: seq<string>): seq<Row> {
    if keys == [] then [] else
      PhantomsIn(rows, keys[..|keys| - 1]) + Phantoms(Group(rows, keys[|keys| - 1]))
  }

  function Grouped(rows: seq<Row>, keys: seq<string>): seq<Row> {
    if keys == [] then [] else
      Grouped(rows, keys[..|keys| - 1]) + Group(rows, keys[|keys| - 1])
  }

  /** `main`: fills the map of groups, then scans each group. */
  method Identify(rows: seq<Row>) returns (phantomIds: seq<string>)
    ensures phantomIds == Ids(PhantomsIn(rows, Keys(rows)))
  {
    var order, groups := FillGroups(rows);
    phantomIds := [];
    for g := 0 to |order|
      invariant phantomIds == Ids(PhantomsIn(rows, order[..g]))
    {
      var found := ScanGroup(groups[order[g]]);
      OneMoreGroup(rows, order, g);
      phantomIds := phantomIds + found;
    }
    assert order[..|order|] == order;
  }

  lemma {:induction false} OneMoreGroup(rows: seq<Row>, keys: seq<string>, g: nat)
    requires g < |keys|
    ensures Ids(PhantomsIn(rows, keys[..g + 1])) ==
              Ids(PhantomsIn(rows, keys[..g])) + Ids(Phantoms(Group(rows, keys[g])))
  {
    assert keys[..g + 1][..g] == keys[..g];
  }

  method FillGroups(rows: seq<Row>) returns (order: seq<string>, groups: map<string, seq<Row>>)
    ensures order == Keys(rows)
    ensures forall key :: key in order <==> key in groups
    ensures forall key :: key in groups ==> groups[key] == Group(rows, key)
  {
    order, groups := [], map[];
    for i := 0 to |rows|
      invariant order == Keys(rows[..i])
      invariant forall key :: key in order <==> key in groups
      invariant forall key :: key in groups ==> groups[key] == Group(rows[..i], key)
    {
      assert rows[..i + 1][..i] == rows[..i];
      var key := KeyOf(rows[i]);
      if key !in groups {
        AbsentKey(rows[..i], key);
        order := order + [key];
        groups := groups[key := []];
      }
      groups := groups[key := groups[key] + [rows[i]]];
    }
    assert rows[..|rows|] == rows;
  }

  lemma {:induction false} AbsentKey(rows: seq<Row>, key: string)
    requires key !in Keys(rows)
    ensures Group(rows, key) == []
  {
    if rows != [] { AbsentKey(rows[..|rows| - 1], key); }
  }

  /** The inner loop: the running total, and the ids that fail it. */
  method ScanGroup(rows: seq<Row>) returns (phantomIds: seq<string>)
    ensures phantomIds == Ids(Phantoms(rows))
  {
    var known := 0;
    phantomIds := [];
    for j := 0 to |rows|
      invariant known == Known(rows[..j])
      invariant phantomIds == Ids(Phantoms(rows[..j]))
    {
      OneMore(rows[..j], rows[j]);
      assert rows[..j] + [rows[j]] == rows[..j + 1];
      if IsPhantom(rows[j], known) {
        phantomIds := phantomIds + [rows[j].id];
      } else {
        known := known + rows[j].amount;
      }
    }
    assert rows[..|rows|] == rows;
  }

  // ---------------------------------------------------------------- the groups are a partition in order

  lemma {:induction false} KeysAreDistinct(rows: seq<Row>)
    ensures Distinct(Keys(rows))
    ensures forall row :: row in rows ==> KeyOf(row) in Keys(rows)
  {
    if rows != [] {
      var front, row := rows[..|rows| - 1], rows[|rows| - 1];
      KeysAreDistinct(front);
      forall r | r in rows ensures KeyOf(r) in Keys(rows) {
        assert r in front || r == row;
      }
    }
  }

  lemma {:induction false} GroupedOneMore(front: seq<Row>, last: Row, keys: seq<string>, row: Row)
    requires Distinct(keys)
    ensures Copies(Grouped(front + [last], keys), row)
            == Copies(Grouped(front, keys), row) + if KeyOf(last) in keys && row == last then 1 else 0
  {
    if keys != [] {
      var few, key := keys[..|keys| - 1], keys[|keys| - 1];
      GroupedOneMore(front, last, few, row);
      assert KeyOf(last) in keys <==> KeyOf(last) in few || KeyOf(last) == key;
      GroupOneMore(front, last, key, row);
      CopiesConcat(Grouped(front + [last], few), Group(front + [last], key), row);
      CopiesConcat(Grouped(front, few), Group(front, key), row);
    }
  }

  lemma {:induction false} GroupOneMore(front: seq<Row>, last: Row, key: string, row: Row)
    ensures Copies(Group(front + [last], key), row)
            == Copies(Group(front, key), row) + if KeyOf(last) == key && row == last then 1 else 0
  {
    assert (front + [last])[..|front|] == front;
    CopiesConcat(Group(front, key), [last], row);
    CopiesConcat(Group(front, key), [], row);
    assert [last][..0] == [];
  }

  lemma {:induction false} NewKeyIsEmpty(rows: seq<Row>, keys: seq<string>, key: string)
    requires key !in Keys(rows)
    ensures Grouped(rows, keys + [key]) == Grouped(rows, keys)
  {
    assert (keys + [key])[..|keys + [key]| - 1] == keys;
    AbsentKey(rows, key);
  }

  /** Every row lands in exactly one group: the groups hold it as often as the list does. */
  lemma {:induction false} GroupsPartition(rows: seq<Row>, row: Row)
    ensures Copies(Grouped(rows, Keys(rows)), row) == Copies(rows, row)
  {
    if rows != [] {
      var front, last := rows[..|rows| - 1], rows[|rows| - 1];
      assert rows == front + [last];
      GroupsPartition(front, row);
      KeysAreDistinct(rows);
      if KeyOf(last) !in Keys(front) { NewKeyIsEmpty(front, Keys(front), KeyOf(last)); }
      GroupedOneMore(front, last, Keys(rows), row);
    }
  }

  /** Where the rows of a key stand. */
  function Positions(rows: seq<Row>, key: string): (at: seq<nat>)
    ensures forall i :: 0 <= i < |at| ==> at[i] < |rows|
  {
    if rows == [] then [] else
      Positions(rows[..|rows| - 1], key) + if KeyOf(rows[|rows| - 1]) == key then [|rows| - 1] else []
  }

  /** A group is its key's rows, all of them, in the order they came in. */
  lemma {:induction false} GroupsKeepOrder(rows: seq<Row>, key: string)
    ensures var at := Positions(rows, key);
            && |at| == |Group(rows, key)|
            && (forall i :: 0 <= i < |at| ==> rows[at[i]] == Group(rows, key)[i])
            && (forall i, j :: 0 <= i < j < |at| ==> at[i] < at[j])
            && (forall p :: 0 <= p < |rows| ==> (p in at <==> KeyOf(rows[p]) == key))
  {
    if rows != [] {
      var front := rows[..|rows| - 1];
      GroupsKeepOrder(front, key);
      if KeyOf(rows[|rows| - 1]) == key {
        assert Positions(rows, key) == Positions(front, key) + [|front|];
      }
    }
  }

  /** A pair of chain and asset shares its key with another pair exactly when one of the two holds a colon. */
  lemma {:induction false} KeyIsSharedIffColon(chain: string, asset: string)
    ensures ':' in chain || ':' in asset <==>
            exists c, a :: (c != chain || a != asset) && KeyFor(c, a) == KeyFor(chain, asset)
  {
    if ':' in chain {
      var i :| 0 <= i < |chain| && chain[i] == ':';
      var c, a := chain[..i], chain[i + 1..] + ":" + asset;
      assert c + ":" + a == chain + ":" + asset;
      assert c != chain && KeyFor(c, a) == KeyFor(chain, asset);
    } else if ':' in asset {
      var i :| 0 <= i < |asset| && asset[i] == ':';
      var c, a := chain + ":" + asset[..i], asset[i + 1..];
      assert c + ":" + a == chain + ":" + asset;
      assert c != chain && KeyFor(c, a) == KeyFor(chain, asset);
    } else {
      forall c, a | KeyFor(c, a) == KeyFor(chain, asset) ensures c == chain && a == asset {
        SoleColon(chain, asset, c, a);
      }
    }
  }

  lemma {:induction false} SoleColon(chain: string, asset: string, c: string, a: string)
    requires ':' !in chain && ':' !in asset && KeyFor(c, a) == KeyFor(chain, asset)
    ensures c == chain && a == asset
  {
    var key := KeyFor(chain, asset);
    assert key[|c|] == ':' by { assert KeyFor(c, a)[|c|] == ':'; }
    forall i | 0 <= i < |key| && i != |chain| ensures key[i] != ':' {
      assert key[i] == if i < |chain| then chain[i] else asset[i - |chain| - 1];
    }
    assert c == key[..|c|] && chain == key[..|c|];
    assert a == key[|c| + 1..] && asset == key[|c| + 1..];
  }
}
