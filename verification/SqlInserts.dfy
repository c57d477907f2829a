/**
 * The check that every hand-written INSERT balances: the values clause is cut out of the source text,
 * its commas are counted against the columns, and its placeholders against the column count.
 */
module SqlInserts {
  import opened Wrappers
  import opened Text
  import opened Parentheses
  import opened SqlText

  /** What the regular expression finds: table, column text, and where its match ends. */
  datatype Hit = Hit(table: string, cols: string, end: nat)
  datatype Insert = Insert(table: string, cols: string, values: string)

  // ---------------------------------------------------------------- collecting the statements

  /** The clause of a source position, if there is one. */
  ghost function Clause(src: string, from: nat): (r: Option<string>)
    ensures IsClause(src, from, r)
  {
    if exists open: nat, close: nat :: ClauseAt(src, from, open, close) then
      var open: nat, close: nat :| ClauseAt(src, from, open, close);
      Some(src[open + 1..close])
    else None
  }

  ghost function InsertOf(src: string, hit: Hit): Option<Insert> {
    var at := Find(src, "values", hit.end);
    if at.None? || at.value - hit.end > 40 then None else
      var clause := Clause(src, at.value);
      if clause.None? || clause.value == "" then None else Some(Insert(hit.table, hit.cols, clause.value))
  }

  ghost function Collected(src: string, hits: seq<Hit>): seq<Insert> {
    if hits == [] then [] else
      var front := Collected(src, hits[..|hits| - 1]);
      match InsertOf(src, hits[|hits| - 1])
      case None => front
      case Some(insert) => front + [insert]
  }

  /** The first loop. */
  method Collect(src: string, hits: seq<Hit>) returns (inserts: seq<Insert>)
    ensures inserts == Collected(src, hits)
  {
    inserts := [];
    for i := 0 to |hits|
      invariant inserts == Collected(src, hits[..i])
    {
      var hit := hits[i];
      assert hits[..i + 1][..i] == hits[..i];
      var valuesAt := Find(src, "values", hit.end);
      if valuesAt.Some? && valuesAt.value - hit.end <= 40 {
        var clause := ValuesClause(src, valuesAt.value);
        ClauseIsUnique(src, valuesAt.value, clause, Clause(src, valuesAt.value));
        if clause.Some? && clause.value != "" {
          inserts := inserts + [Insert(hit.table, hit.cols, clause.value)];
        }
      }
    }
    assert hits[..|hits|] == hits;
  }

  /** The first `values` at or behind a position. */
  ghost predicate FirstValues(src: string, from: nat, at: nat) {
    from <= at && OccursAt(src, "values", at) && forall i :: from <= i < at ==> !OccursAt(src, "values", i)
  }

  /** The source holds this statement: its values clause opens at most forty characters behind the columns. */
  ghost predicate Holds(src: string, hit: Hit, insert: Insert) {
    insert.table == hit.table && insert.cols == hit.cols && insert.values != "" &&
    exists at: nat, open: nat, close: nat ::
      FirstValues(src, hit.end, at) && at <= hit.end + 40 && ClauseAt(src, at, open, close)
      && insert.values == src[open + 1..close]
  }

  lemma {:induction false} FindIsFirst(src: string, from: nat, at: nat)
    ensures Find(src, "values", from) == Some(at) <==> FirstValues(src, from, at)
  {}

  lemma {:induction false} ClauseIs(src: string, at: nat, text: string)
    ensures Clause(src, at) == Some(text) <==>
              exists open: nat, close: nat :: ClauseAt(src, at, open, close) && text == src[open + 1..close]
  {
    if IsClause(src, at, Some(text)) { ClauseIsUnique(src, at, Some(text), Clause(src, at)); }
  }

  lemma {:induction false} InsertOfHolds(src: string, hit: Hit, insert: Insert)
    ensures InsertOf(src, hit) == Some(insert) <==> Holds(src, hit, insert)
  {
    var found := Find(src, "values", hit.end);
    forall at: nat ensures found == Some(at) <==> FirstValues(src, hit.end, at) { FindIsFirst(src, hit.end, at); }
    if found.Some? { ClauseIs(src, found.value, insert.values); }
  }

  function Somes<T>(found: seq<Option<T>>): seq<T> {
    if found == [] then [] else
      var front, last := Somes(found[..|found| - 1]), found[|found| - 1];
      if last.Some? then front + [last.value] else front
  }

  /** Where they stand. */
  function Places<T>(found: seq<Option<T>>): (at: seq<nat>)
    ensures |at| == |Somes(found)| && forall k :: 0 <= k < |at| ==> at[k] < |found|
  {
    if found == [] then [] else
      Places(found[..|found| - 1]) + if found[|found| - 1].Some? then [|found| - 1] else []
  }

  lemma {:induction false} PlacesGrow<T>(found: seq<Option<T>>, j: nat, k: nat)
    requires j < k < |Places(found)|
    ensures Places(found)[j] < Places(found)[k]
  {
    var front := found[..|found| - 1];
    assert Places(found)[j] == Places(front)[j];
    if k < |Places(front)| { PlacesGrow(front, j, k); }
  }

  lemma {:induction false} SomesAtPlaces<T>(found: seq<Option<T>>)
    ensures forall k :: 0 <= k < |Places(found)| ==> found[Places(found)[k]] == Some(Somes(found)[k])
  {
    if found != [] { SomesAtPlaces(found[..|found| - 1]); }
  }

  lemma {:induction false} SomeHasPlace<T>(found: seq<Option<T>>, h: nat)
    requires h < |found| && found[h].Some?
    ensures h in Places(found)
  {
    if h < |found| - 1 { SomeHasPlace(found[..|found| - 1], h); }
  }

  ghost function Found(src: string, hits: seq<Hit>): (found: seq<Option<Insert>>)
    ensures |found| == |hits| && forall h :: 0 <= h < |hits| ==> found[h] == InsertOf(src, hits[h])
  {
    seq(|hits|, h requires 0 <= h < |hits| => InsertOf(src, hits[h]))
  }

  lemma {:induction false} CollectedAreSomes(src: string, hits: seq<Hit>)
    ensures Collected(src, hits) == Somes(Found(src, hits))
  {
    if hits != [] {
      CollectedAreSomes(src, hits[..|hits| - 1]);
      assert Found(src, hits)[..|hits| - 1] == Found(src, hits[..|hits| - 1]);
    }
  }

  /** Every statement collected is one the source holds at a hit, and they come in the order of the hits. */
  lemma {:induction false} CollectedAreHeld(src: string, hits: seq<Hit>, k: nat)
    requires k < |Collected(src, hits)|
    ensures var at := Places(Found(src, hits));
            && |at| == |Collected(src, hits)| && Holds(src, hits[at[k]], Collected(src, hits)[k])
            && forall j :: 0 <= j < k ==> at[j] < at[k]
  {
    CollectedAreSomes(src, hits);
    SomesAtPlaces(Found(src, hits));
    forall j | 0 <= j < k ensures Places(Found(src, hits))[j] < Places(Found(src, hits))[k] {
      PlacesGrow(Found(src, hits), j, k);
    }
    InsertOfHolds(src, hits[Places(Found(src, hits))[k]], Collected(src, hits)[k]);
  }

  /** And every statement the source holds at a hit is collected. */
  lemma {:induction false} HeldAreCollected(src: string, hits: seq<Hit>, h: nat, insert: Insert)
    requires h < |hits| && Holds(src, hits[h], insert)
    ensures h in Places(Found(src, hits)) && insert in Collected(src, hits)
  {
    InsertOfHolds(src, hits[h], insert);
    CollectedAreSomes(src, hits);
    PlacedIsThere(Found(src, hits), h, insert);
  }

  lemma {:induction false} PlacedIsThere<T>(found: seq<Option<T>>, h: nat, value: T)
    requires h < |found| && found[h] == Some(value)
    ensures h in Places(found) && value in Somes(found)
  {
    SomesAtPlaces(found);
    SomeHasPlace(found, h);
    var k :| 0 <= k < |Places(found)| && Places(found)[k] == h;
    assert Somes(found)[k] == value;
  }

  // ---------------------------------------------------------------- columns and placeholders

  /** `cols.split(',').map(trim).filter(Boolean)`. */
  function Columns(cols: string): seq<string> {
    NonBlank(Split(cols, ','))
  }

  function NonBlank(pieces: seq<string>): seq<string> {
    if pieces == [] then [] else
      var name := Trim(pieces[0]);
      if name == "" then NonBlank(pieces[1..]) else [name] + NonBlank(pieces[1..])
  }

  predicate Blank(piece: string) {
    forall c :: c in piece ==> IsSpace(c)
  }

  /** A column for every piece between commas that is not blank, and none for the others. */
  lemma {:induction false} ColumnsAreTheNonBlankPieces(pieces: seq<string>)
    ensures |NonBlank(pieces)| <= |pieces|
    ensures |NonBlank(pieces)| == |pieces| <==> forall i :: 0 <= i < |pieces| ==> !Blank(pieces[i])
    ensures forall name :: name in NonBlank(pieces) <==>
              name != "" && exists i :: 0 <= i < |pieces| && Trim(pieces[i]) == name
  {
    if pieces != [] {
      var rest := pieces[1..];
      ColumnsAreTheNonBlankPieces(rest);
      TrimIsEmptyIffBlank(pieces[0]);
      assert forall i :: 0 <= i < |rest| ==> rest[i] == pieces[i + 1];
      forall name
        ensures name in NonBlank(pieces) <==> name != "" && exists i :: 0 <= i < |pieces| && Trim(pieces[i]) == name
      {
        if i :| 0 <= i < |pieces| && Trim(pieces[i]) == name {
          if i > 0 { assert Trim(rest[i - 1]) == name; }
        }
        if i :| 0 <= i < |rest| && Trim(rest[i]) == name {
          assert Trim(pieces[i + 1]) == name;
        }
        assert Trim(pieces[0]) == name ==> exists i :: 0 <= i < |pieces| && Trim(pieces[i]) == name;
      }
    }
  }

  function Kept(pieces: seq<string>): (kept: seq<Option<string>>)
    ensures |kept| == |pieces|
    ensures forall i :: 0 <= i < |pieces| ==> kept[i] == if Trim(pieces[i]) == "" then None else Some(Trim(pieces[i]))
  {
    seq(|pieces|, i requires 0 <= i < |pieces| => if Trim(pieces[i]) == "" then None else Some(Trim(pieces[i])))
  }

  lemma {:induction false} NonBlankAppend(front: seq<string>, last: string)
    ensures NonBlank(front + [last]) == NonBlank(front) + if Trim(last) == "" then [] else [Trim(last)]
  {
    if front == [] {
      assert front + [last] == [last] && [last][1..] == [];
    } else {
      assert (front + [last])[0] == front[0] && (front + [last])[1..] == front[1..] + [last];
      NonBlankAppend(front[1..], last);
    }
  }

  lemma {:induction false} NonBlankAreKept(pieces: seq<string>)
    ensures NonBlank(pieces) == Somes(Kept(pieces))
  {
    if pieces != [] {
      var front := pieces[..|pieces| - 1];
      NonBlankAreKept(front);
      NonBlankAppend(front, pieces[|pieces| - 1]);
      assert pieces == front + [pieces[|pieces| - 1]];
      assert Kept(pieces)[..|front|] == Kept(front);
    }
  }

  /** The columns, in order: the pieces between commas that are not blank, without the white space around them. */
  lemma {:induction false} ColumnsAre(cols: string)
    ensures var pieces, at := Split(cols, ','), Places(Kept(Split(cols, ',')));
            && |at| == |Columns(cols)|
            && (forall j, k :: 0 <= j < k < |at| ==> at[j] < at[k])
            && (forall k :: 0 <= k < |at| ==> Columns(cols)[k] == Trim(pieces[at[k]]))
            && (forall i :: 0 <= i < |pieces| ==> (i in at <==> !Blank(pieces[i])))
  {
    var pieces := Split(cols, ',');
    var kept := Kept(pieces);
    NonBlankAreKept(pieces);
    SomesAtPlaces(kept);
    forall j, k | 0 <= j < k < |Places(kept)| ensures Places(kept)[j] < Places(kept)[k] { PlacesGrow(kept, j, k); }
    forall i | 0 <= i < |pieces| ensures i in Places(kept) <==> !Blank(pieces[i]) {
      TrimIsEmptyIffBlank(pieces[i]);
      if kept[i].Some? { SomeHasPlace(kept, i); }
    }
  }

  function Run(s: string): (run: string)
    ensures |run| <= |s| && run == s[..|run|] && (|run| < |s| ==> !IsDigit(s[|run|]))
    ensures forall c :: c in run ==> IsDigit(c)
  {
    if s != "" && IsDigit(s[0]) then [s[0]] + Run(s[1..]) else ""
  }

  /** The matches of `\$(\d+)`, left to right. */
  function Placeholders(s: string): seq<nat>
    decreases |s|
  {
    if s == "" then []
    else if s[0] == '$' && Run(s[1..]) != "" then
      [NumberOf(Run(s[1..]))] + Placeholders(s[1 + |Run(s[1..])|..])
    else Placeholders(s[1..])
  }

  /** A placeholder stands at position p: a dollar sign with a digit behind it, and all digits that follow. */
  function NumberAt(s: string, p: nat): Option<nat>
    requires p < |s|
  {
    if s[p] == '$' && Run(s[p + 1..]) != "" then Some(NumberOf(Run(s[p + 1..]))) else None
  }

  ghost predicate Stands(s: string, n: nat) {
    exists p :: 0 <= p < |s| && NumberAt(s, p) == Some(n)
  }

  lemma {:induction false} StandsBehind(s: string, skip: nat, n: nat)
    requires 1 <= skip <= |s|
    requires forall p :: 1 <= p < skip ==> NumberAt(s, p) == None
    ensures Stands(s, n) <==> NumberAt(s, 0) == Some(n) || Stands(s[skip..], n)
  {
    forall p | 0 <= p < |s[skip..]| ensures NumberAt(s, p + skip) == NumberAt(s[skip..], p) {
      assert s[skip..][p + 1..] == s[p + skip + 1..];
    }
    if Stands(s, n) {
      var p :| 0 <= p < |s| && NumberAt(s, p) == Some(n);
      if p >= skip { assert NumberAt(s[skip..], p - skip) == Some(n); }
    }
    if Stands(s[skip..], n) {
      var p :| 0 <= p < |s[skip..]| && NumberAt(s[skip..], p) == Some(n);
      assert NumberAt(s, p + skip) == Some(n);
    }
  }

  lemma {:induction false} NoneInsideARun(s: string)
    requires s != ""
    ensures forall p :: 1 <= p < 1 + |Run(s[1..])| ==> NumberAt(s, p) == None
  {
    var run := Run(s[1..]);
    forall p | 1 <= p < 1 + |run| ensures NumberAt(s, p) == None {
      assert s[p] == run[p - 1] && run[p - 1] in run;
    }
  }

  /** The matches are exactly the placeholders that stand in the text. */
  lemma {:induction false} PlaceholdersAreThePositions(s: string, n: nat)
    ensures n in Placeholders(s) <==> Stands(s, n)
    decreases |s|
  {
    if s != "" {
      if s[0] == '$' && Run(s[1..]) != "" {
        var skip := 1 + |Run(s[1..])|;
        PlaceholdersAreThePositions(s[skip..], n);
        NoneInsideARun(s);
        StandsBehind(s, skip, n);
      } else {
        PlaceholdersAreThePositions(s[1..], n);
        StandsBehind(s, 1, n);
      }
    }
  }

  /** `Math.max(...numbers)`. */
  function Max(numbers: seq<nat>): (m: nat)
    requires numbers != []
    ensures m in numbers && forall n :: n in numbers ==> n <= m
  {
    assert numbers == [numbers[0]] + numbers[1..];
    if |numbers| == 1 then numbers[0] else
      var m := Max(numbers[1..]);
      if numbers[0] > m then numbers[0] else m
  }

  // ---------------------------------------------------------------- the check

  function Complaint(insert: Insert): Option<string> {
    var cols, numbers := |Columns(insert.cols)|, Placeholders(insert.values);
    if numbers == [] then None else
      var expressions := |Split(insert.values, ',')|;
      if expressions != cols then
        Some(insert.table + ": " + Decimal(cols) + " columns vs " + Decimal(expressions) + " expressions")
      else if Max(numbers) > cols then
        Some(insert.table + ": $" + Decimal(Max(numbers)) + " exceeds " + Decimal(cols) + " columns")
      else None
  }

  lemma {:induction false} MaxIsHighest(s: string, highest: nat)
    requires Stands(s, highest) && forall n: nat :: Stands(s, n) ==> n <= highest
    ensures Placeholders(s) != [] && Max(Placeholders(s)) == highest
  {
    PlaceholdersAreThePositions(s, highest);
    PlaceholdersAreThePositions(s, Max(Placeholders(s)));
  }

  /** The first complaint: the two counts, where they differ. */
  lemma {:induction false} ComplaintOfCounts(insert: Insert)
    requires HasPlaceholder(insert.values) && 1 + Count(insert.values, ',') != |Columns(insert.cols)|
    ensures Complaint(insert) ==
              Some(insert.table + ": " + Decimal(|Columns(insert.cols)|) + " columns vs "
                   + Decimal(1 + Count(insert.values, ',')) + " expressions")
  {
    PlaceholdersOf(insert.values);
    SplitCounts(insert.values, ',');
  }

  /** The other one: the highest placeholder, where the counts agree. */
  lemma {:induction false} ComplaintOfHighest(insert: Insert, highest: nat)
    requires 1 + Count(insert.values, ',') == |Columns(insert.cols)| < highest
    requires Stands(insert.values, highest) && forall n: nat :: Stands(insert.values, n) ==> n <= highest
    ensures Complaint(insert) ==
              Some(insert.table + ": $" + Decimal(highest) + " exceeds " + Decimal(|Columns(insert.cols)|) + " columns")
  {
    MaxIsHighest(insert.values, highest);
    SplitCounts(insert.values, ',');
  }

  function Complaints(inserts: seq<Insert>): seq<string> {
    if inserts == [] then [] else
      var front := Complaints(inserts[..|inserts| - 1]);
      match Complaint(inserts[|inserts| - 1])
      case None => front
      case Some(text) => front + [text]
  }

  /** Complaints come in the order of the statements. */
  lemma {:induction false} ComplaintsKeepOrder(a: seq<Insert>, b: seq<Insert>)
    ensures Complaints(a + b) == Complaints(a) + Complaints(b)
  {
    if b == [] {
      assert a + b == a;
    } else {
      assert (a + b)[..|a + b| - 1] == a + b[..|b| - 1];
      ComplaintsKeepOrder(a, b[..|b| - 1]);
    }
  }

  /** The second loop. */
  method Check(inserts: seq<Insert>) returns (unbalanced: seq<string>)
    ensures unbalanced == Complaints(inserts)
  {
    unbalanced := [];
    for i := 0 to |inserts|
      invariant unbalanced == Complaints(inserts[..i])
    {
      var m := inserts[i];
      assert inserts[..i + 1][..i] == inserts[..i];
      var cols := Columns(m.cols);
      var placeholders := Placeholders(m.values);
      if placeholders == [] { continue; }
      var expressions := |Split(m.values, ',')|;
      var maxPlaceholder := Max(placeholders);
      if expressions != |cols| {
        unbalanced := unbalanced
          + [m.table + ": " + Decimal(|cols|) + " columns vs " + Decimal(expressions) + " expressions"];
        continue;
      }
      if maxPlaceholder > |cols| {
        unbalanced := unbalanced
          + [m.table + ": $" + Decimal(maxPlaceholder) + " exceeds " + Decimal(|cols|) + " columns"];
      }
    }
    assert inserts[..|inserts|] == inserts;
  }

  // ---------------------------------------------------------------- what an empty list means

  predicate HasPlaceholder(s: string) {
    exists p :: 0 <= p < |s| && NumberAt(s, p).Some?
  }

  predicate Bindable(s: string, cols: nat) {
    forall p :: 0 <= p < |s| && NumberAt(s, p).Some? ==> NumberAt(s, p).value <= cols
  }

  /** The test applied to one statement, without the scan. */
  predicate Passes(insert: Insert) {
    var cols := |Columns(insert.cols)|;
    HasPlaceholder(insert.values) ==> 1 + Count(insert.values, ',') == cols && Bindable(insert.values, cols)
  }

  lemma {:induction false} PlaceholdersOf(s: string)
    ensures Placeholders(s) != [] <==> HasPlaceholder(s)
    ensures Placeholders(s) != [] ==> forall cols :: Max(Placeholders(s)) <= cols <==> Bindable(s, cols)
  {
    var numbers := Placeholders(s);
    if numbers != [] {
      PlaceholdersAreThePositions(s, numbers[0]);
      PlaceholdersAreThePositions(s, Max(numbers));
    }
    forall p | 0 <= p < |s| && NumberAt(s, p).Some? ensures NumberAt(s, p).value in numbers {
      PlaceholdersAreThePositions(s, NumberAt(s, p).value);
    }
  }

  lemma {:induction false} NoComplaintIffPasses(insert: Insert)
    ensures Complaint(insert) == None <==> Passes(insert)
  {
    PlaceholdersOf(insert.values);
    SplitCounts(insert.values, ',');
  }

  /** The list is empty exactly when every statement passes. */
  lemma {:induction false} EmptyIffAllPass(inserts: seq<Insert>)
    ensures Complaints(inserts) == [] <==> forall insert :: insert in inserts ==> Passes(insert)
  {
    if inserts != [] {
      var front, last := inserts[..|inserts| - 1], inserts[|inserts| - 1];
      assert inserts == front + [last];
      EmptyIffAllPass(front);
      NoComplaintIffPasses(last);
    }
  }

  // ---------------------------------------------------------------- commas and expressions

  /**
   * The comma count is the expression count exactly when no comma stands inside parentheses, brackets or
   * quotes. A statement with placeholders passes exactly when none is beyond the columns and the columns
   * are the expressions and the commas inside them: with such a comma every balanced statement is flagged,
   * and what passes has as many expressions too few as it has such commas.
   */
  lemma {:induction false} CommaCountIsExactIffFlat(insert: Insert)
    ensures var s, cols := insert.values, |Columns(insert.cols)|;
            && (|Split(s, ',')| == Expressions(s) <==> forall p :: 0 <= p < |s| ==> !CommaInside(START, s, p))
            && (Complaint(insert) == None <==>
                  (HasPlaceholder(s) ==> Bindable(s, cols) && cols == Expressions(s) + InnerCommas(START, s)))
  {
    SplitCountsExpressions(insert.values);
    SplitCounts(insert.values, ',');
    NoComplaintIffPasses(insert);
  }

  /** Balanced text; with placeholders, none beyond the columns, which are the expressions and the commas inside. */
  ghost predicate Sound(insert: Insert) {
    var s, cols := insert.values, |Columns(insert.cols)|;
    && Balanced(s)
    && (HasPlaceholder(s) ==> Bindable(s, cols) && cols == Expressions(s) + InnerCommas(START, s))
  }

  lemma {:induction false} CollectedAreBalanced(src: string, hits: seq<Hit>)
    ensures forall insert :: insert in Collected(src, hits) ==> Balanced(insert.values)
  {
    if hits != [] {
      CollectedAreBalanced(src, hits[..|hits| - 1]);
      var hit := hits[|hits| - 1];
      if InsertOf(src, hit).Some? {
        var at := Find(src, "values", hit.end);
        assert IsClause(src, at.value, Clause(src, at.value));
      }
    }
  }

  /**
   * Scanner and checker together: if nothing is complained about, every statement scanned is balanced
   * text; one with placeholders has as many columns as expressions and commas inside expressions; and
   * no placeholder is numbered beyond the columns.
   */
  lemma {:induction false} NoComplaintsMeansBalanced(src: string, hits: seq<Hit>)
    ensures Complaints(Collected(src, hits)) == [] ==> forall insert :: insert in Collected(src, hits) ==> Sound(insert)
  {
    var inserts := Collected(src, hits);
    EmptyIffAllPass(inserts);
    CollectedAreBalanced(src, hits);
    forall insert | insert in inserts && Complaints(inserts) == [] ensures Sound(insert) {
      SplitCountsExpressions(insert.values);
      SplitCounts(insert.values, ',');
    }
  }
  /** With placeholders: none beyond the columns, and a column for each expression and each comma inside one. */
  predicate InOrder(insert: Insert) {
    var s, cols := insert.values, |Columns(insert.cols)|;
    HasPlaceholder(s) ==> Bindable(s, cols) && cols == Expressions(s) + InnerCommas(START, s)
  }

  /** The list of complaints is empty exactly when every statement the source holds at a hit is in order. */
  lemma {:induction false} NoComplaintsIffAllInOrder(src: string, hits: seq<Hit>)
    ensures Complaints(Collected(src, hits)) == [] <==>
              forall h, insert :: 0 <= h < |hits| && Holds(src, hits[h], insert) ==> InOrder(insert)
  {
    var inserts := Collected(src, hits);
    EmptyIffAllPass(inserts);
    if Complaints(inserts) == [] {
      forall h, insert | 0 <= h < |hits| && Holds(src, hits[h], insert) ensures InOrder(insert) {
        HeldAreCollected(src, hits, h, insert);
        PassesIffInOrder(insert);
      }
    } else {
      var insert :| insert in inserts && !Passes(insert);
      var k :| 0 <= k < |inserts| && inserts[k] == insert;
      CollectedAreHeld(src, hits, k);
      PassesIffInOrder(insert);
    }
  }

  lemma {:induction false} PassesIffInOrder(insert: Insert)
    ensures Passes(insert) <==> InOrder(insert)
  {
    SplitCountsExpressions(insert.values);
    SplitCounts(insert.values, ',');
  }
}
