/**
 * What separates the expressions of a values clause: the commas outside parentheses, brackets and quotes.
 * A scan from left to right that knows how many pairs are open and which quote, if any, finds them; it is
 * proved to agree with a grammar of nested text. Dollar quotes, backslash escapes and comments are plain
 * text to both.
 */
module SqlText {
  import opened Wrappers
  import opened Text

  // ---------------------------------------------------------------- the grammar

  /** SQL text: nothing; a plain character, a quoted piece or a pair of parentheses or brackets, and more text. */
  datatype Sql =
    | End
    | Plain(c: char, rest: Sql)
    | Quoted(mark: char, body: string, rest: Sql)
    | Nested(square: bool, inner: Sql, rest: Sql)

  predicate IsMark(c: char) { c == '\'' || c == '"' }
  predicate Opens(c: char) { c == '(' || c == '[' }
  predicate Closes(c: char) { c == ')' || c == ']' }

  predicate Derives(d: Sql) {
    match d
    case End => true
    case Plain(c, rest) => !IsMark(c) && !Opens(c) && !Closes(c) && Derives(rest)
    case Quoted(mark, body, rest) => IsMark(mark) && mark !in body && Derives(rest)
    case Nested(_, inner, rest) => Derives(inner) && Derives(rest)
  }

  function Open(square: bool): char { if square then '[' else '(' }
  function Close(square: bool): char { if square then ']' else ')' }

  function Rendered(d: Sql): string {
    match d
    case End => ""
    case Plain(c, rest) => [c] + Rendered(rest)
    case Quoted(mark, body, rest) => [mark] + body + [mark] + Rendered(rest)
    case Nested(square, inner, rest) => [Open(square)] + Rendered(inner) + [Close(square)] + Rendered(rest)
  }

  /** The commas that separate expressions. */
  function TopCommas(d: Sql): nat {
    match d
    case End => 0
    case Plain(c, rest) => (if c == ',' then 1 else 0) + TopCommas(rest)
    case Quoted(_, _, rest) => TopCommas(rest)
    case Nested(_, _, rest) => TopCommas(rest)
  }

  // ---------------------------------------------------------------- the scan

  /** How many pairs are open, and the quote if one is. */
  datatype Place = Place(depth: int, quote: Option<char>) {
    predicate Outside() { depth == 0 && quote == None }
  }

  const START := Place(0, None)

  function Move(at: Place, c: char): Place {
    if at.quote.Some? then (if c == at.quote.value then at.(quote := None) else at)
    else if IsMark(c) then at.(quote := Some(c))
    else if Opens(c) then at.(depth := at.depth + 1)
    else if Closes(c) then at.(depth := at.depth - 1)
    else at
  }

  function After(at: Place, s: string): Place
    decreases |s|
  {
    if s == "" then at else After(Move(at, s[0]), s[1..])
  }

  /** The commas met outside everything. */
  function Separators(at: Place, s: string): nat
    decreases |s|
  {
    if s == "" then 0 else
      (if s[0] == ',' && at.Outside() then 1 else 0) + Separators(Move(at, s[0]), s[1..])
  }

  /** The commas met inside a pair or a quote. */
  function InnerCommas(at: Place, s: string): nat
    decreases |s|
  {
    if s == "" then 0 else
      (if s[0] == ',' && !at.Outside() then 1 else 0) + InnerCommas(Move(at, s[0]), s[1..])
  }

  function Expressions(s: string): nat {
    1 + Separators(START, s)
  }

  lemma {:induction false} AfterConcat(at: Place, s: string, t: string)
    ensures After(at, s + t) == After(After(at, s), t)
    ensures Separators(at, s + t) == Separators(at, s) + Separators(After(at, s), t)
    decreases |s|
  {
    if s == "" {
      assert s + t == t;
    } else {
      assert (s + t)[0] == s[0] && (s + t)[1..] == s[1..] + t;
      AfterConcat(Move(at, s[0]), s[1..], t);
    }
  }

  lemma {:induction false} QuotedText(at: Place, body: string)
    requires at.quote.Some? && at.quote.value !in body
    ensures After(at, body) == at && Separators(at, body) == 0
  {
    if body != "" { QuotedText(at, body[1..]); }
  }

  lemma {:induction false} QuotedPiece(depth: int, mark: char, body: string)
    requires IsMark(mark) && mark !in body
    ensures After(Place(depth, None), [mark] + body + [mark]) == Place(depth, None)
    ensures Separators(Place(depth, None), [mark] + body + [mark]) == 0
  {
    var at := Place(depth, None);
    AfterConcat(at, [mark] + body, [mark]);
    AfterConcat(at, [mark], body);
    assert After(at, [mark]) == Place(depth, Some(mark)) by { assert [mark][1..] == ""; }
    QuotedText(Place(depth, Some(mark)), body);
    OneCharacter(at, mark);
    OneCharacter(Place(depth, Some(mark)), mark);
  }

  lemma {:induction false} OneCharacter(at: Place, c: char)
    ensures After(at, [c]) == Move(at, c)
    ensures Separators(at, [c]) == if c == ',' && at.Outside() then 1 else 0
  {
    assert [c][1..] == "";
  }

  lemma {:induction false} NestedPiece(depth: int, square: bool, body: string)
    requires After(Place(depth + 1, None), body) == Place(depth + 1, None)
    requires Separators(Place(depth + 1, None), body) == 0
    ensures After(Place(depth, None), [Open(square)] + body + [Close(square)]) == Place(depth, None)
    ensures Separators(Place(depth, None), [Open(square)] + body + [Close(square)]) == 0
  {
    var at := Place(depth, None);
    AfterConcat(at, [Open(square)] + body, [Close(square)]);
    AfterConcat(at, [Open(square)], body);
    OneCharacter(at, Open(square));
    OneCharacter(Place(depth + 1, None), Close(square));
  }

  lemma {:induction false} ScanOfDerived(d: Sql, depth: nat)
    requires Derives(d)
    ensures After(Place(depth, None), Rendered(d)) == Place(depth, None)
    ensures Separators(Place(depth, None), Rendered(d)) == if depth == 0 then TopCommas(d) else 0
  {
    var at := Place(depth, None);
    match d
    case End =>
    case Plain(c, rest) =>
      ScanOfDerived(rest, depth);
      OneCharacter(at, c);
      AfterConcat(at, [c], Rendered(rest));
    case Quoted(mark, body, rest) =>
      ScanOfDerived(rest, depth);
      QuotedPiece(depth, mark, body);
      AfterConcat(at, [mark] + body + [mark], Rendered(rest));
    case Nested(square, inner, rest) =>
      ScanOfDerived(rest, depth);
      ScanOfDerived(inner, depth + 1);
      NestedPiece(depth, square, Rendered(inner));
      AfterConcat(at, [Open(square)] + Rendered(inner) + [Close(square)], Rendered(rest));
  }

  /** The scan counts the expressions of the grammar, whatever the derivation. */
  lemma {:induction false} ScanFollowsGrammar(d: Sql)
    requires Derives(d)
    ensures Expressions(Rendered(d)) == 1 + TopCommas(d)
  {
    ScanOfDerived(d, 0);
  }

  // ---------------------------------------------------------------- commas that separate nothing

  lemma {:induction false} CommasSplit(at: Place, s: string)
    ensures Count(s, ',') == Separators(at, s) + InnerCommas(at, s)
    decreases |s|
  {
    if s != "" { CommasSplit(Move(at, s[0]), s[1..]); }
  }

  /** The comma at p stands inside parentheses, brackets or quotes. */
  predicate CommaInside(at: Place, s: string, p: nat)
    requires p < |s|
  {
    s[p] == ',' && !After(at, s[..p]).Outside()
  }

  lemma {:induction false} InnerCommasStandInside(at: Place, s: string)
    ensures InnerCommas(at, s) == 0 <==> forall p :: 0 <= p < |s| ==> !CommaInside(at, s, p)
    decreases |s|
  {
    if s != "" {
      var rest, next := s[1..], Move(at, s[0]);
      InnerCommasStandInside(next, rest);
      assert CommaInside(at, s, 0) <==> s[0] == ',' && !at.Outside() by { assert s[..0] == ""; }
      forall p | 0 <= p < |rest| ensures CommaInside(next, rest, p) <==> CommaInside(at, s, p + 1) {
        assert s[..p + 1][0] == s[0] && s[..p + 1][1..] == rest[..p];
      }
      if p :| 0 <= p < |s| && CommaInside(at, s, p) {
        if p > 0 { assert CommaInside(next, rest, p - 1); }
      }
    }
  }

  /** Splitting at every comma counts each expression, and each comma inside one besides. */
  lemma {:induction false} SplitCountsExpressions(s: string)
    ensures |Split(s, ',')| == Expressions(s) + InnerCommas(START, s)
    ensures |Split(s, ',')| == Expressions(s) <==> forall p :: 0 <= p < |s| ==> !CommaInside(START, s, p)
  {
    SplitCounts(s, ',');
    CommasSplit(START, s);
    InnerCommasStandInside(START, s);
  }

  // ---------------------------------------------------------------- plain text

  predicate IsPlain(s: string) {
    forall c :: c in s ==> !IsMark(c) && !Opens(c) && !Closes(c)
  }

  lemma {:induction false} PlainText(at: Place, s: string)
    requires IsPlain(s) && at.quote == None
    ensures After(at, s) == at
    ensures !at.Outside() || ',' !in s ==> Separators(at, s) == 0
  {
    if s != "" { PlainText(at, s[1..]); }
  }

  /** A name, and arguments in parentheses or brackets: one expression, whatever commas it holds. */
  lemma {:induction false} CallIsOneExpression(name: string, square: bool, args: string)
    requires IsPlain(name) && ',' !in name && IsPlain(args)
    ensures Expressions(name + ([Open(square)] + args + [Close(square)])) == 1
  {
    PlainText(START, name);
    PlainText(Place(1, None), args);
    NestedPiece(0, square, args);
    AfterConcat(START, name, [Open(square)] + args + [Close(square)]);
  }

  /** A quoted piece, and more text: one expression, whatever commas the quotes hold. */
  lemma {:induction false} QuotedIsOneExpression(mark: char, body: string, more: string)
    requires (mark == '\'' || mark == '"') && mark !in body && IsPlain(more) && ',' !in more
    ensures Expressions([mark] + body + [mark] + more) == 1
  {
    QuotedPiece(0, mark, body);
    PlainText(START, more);
    AfterConcat(START, [mark] + body + [mark], more);
  }
}
