/**
 * Statements on which the comma count goes wrong. One comma inside a call, brackets or quotes makes one
 * expression count as two: a statement that gives its one column that expression is flagged, and one that
 * gives two columns that single expression passes, although the server would refuse it. The check is
 * meant to find the second kind.
 */
module SqlNesting {
  import opened Wrappers
  import opened Text
  import opened SqlText
  import opened SqlInserts
  import opened SqlPromise

  lemma {:induction false} PlaceholdersBehind(front: string, s: string)
    requires '$' !in front
    ensures Placeholders(front + s) == Placeholders(s)
  {
    if front == "" {
      assert front + s == s;
    } else {
      assert (front + s)[0] == front[0] && (front + s)[1..] == front[1..] + s;
      PlaceholdersBehind(front[1..], s);
    }
  }

  /** A dollar sign, a digit, and text that holds neither a dollar sign nor a digit first. */
  lemma {:induction false} OnePlaceholder(digit: char, more: string)
    requires IsDigit(digit) && '$' !in more && (more != "" ==> !IsDigit(more[0]))
    ensures Placeholders(['$', digit] + more) == [DigitValue(digit)]
  {
    var s := ['$', digit] + more;
    assert s[1..] == [digit] + more && s[1..][1..] == more;
    assert Run(s[1..]) == [digit];
    assert s[2..] == more;
    NoDollarNoPlaceholder(more);
    assert [digit][..0] == "" && NumberOf([digit]) == DigitValue(digit);
  }

  /**
   * One expression with one comma inside it: a statement with its one column is flagged, and one with
   * two columns passes.
   */
  lemma {:induction false} OneExpressionCountsAsTwo(table: string, s: string, t: string)
    requires ',' !in s && ',' !in t && Expressions(s + "," + t) == 1
    requires Placeholders(s) + Placeholders(t) != []
    requires forall n :: n in Placeholders(s) + Placeholders(t) ==> n <= 2
    ensures Complaint(Insert(table, "a", s + "," + t)) != None
    ensures Complaint(Insert(table, "a,b", s + "," + t)) == None
  {
    TwoExpressions(table, s, t);
    assert |Columns("a")| == 1;
  }

  lemma {:induction false} CallAsText(name: string, open: string, a: string, b: string, close: string)
    ensures name + open + a + "," + (b + close) == name + (open + (a + "," + b) + close)
  {}

  lemma {:induction false} TwoParameters(front: string, back: string)
    requires '$' !in front && '$' !in back && (back != "" ==> !IsDigit(back[0]))
    ensures Placeholders(front + "$1") == [1] && Placeholders("$2" + back) == [2]
  {
    PlaceholdersBehind(front, "$1");
    OnePlaceholder('1', "");
    assert ['$', '1'] + "" == "$1";
    OnePlaceholder('2', back);
    assert ['$', '2'] + back == "$2" + back;
  }

  /** A call or an array of two parameters, such as `coalesce($1,$2)` or `array[$1,$2]`. */
  lemma {:induction false} CallCountsAsTwo(table: string, name: string, square: bool)
    requires IsPlain(name) && ',' !in name && '$' !in name
    ensures var values := name + [Open(square)] + "$1" + "," + ("$2" + [Close(square)]);
            && Expressions(values) == 1
            && Complaint(Insert(table, "a", values)) != None
            && Complaint(Insert(table, "a,b", values)) == None
  {
    var front, back := name + [Open(square)], [Close(square)];
    CallIsOneExpression(name, square, "$1" + "," + "$2");
    CallAsText(name, [Open(square)], "$1", "$2", back);
    TwoParameters(front, back);
    OneExpressionCountsAsTwo(table, front + "$1", "$2" + back);
  }

  /** A quoted text with a comma in it, and a parameter, such as `'a,b'||$1`. */
  lemma {:induction false} QuoteCountsAsTwo(table: string, mark: char, a: string, b: string)
    requires mark == '\'' || mark == '"'
    requires forall c :: c in a || c in b ==> c != ',' && c != '$' && c != mark
    ensures var values := [mark] + a + "," + (b + [mark] + "||" + "$1");
            && Expressions(values) == 1
            && Complaint(Insert(table, "a", values)) != None
            && Complaint(Insert(table, "a,b", values)) == None
  {
    var front, back := [mark] + a, b + [mark] + "||";
    QuotedIsOneExpression(mark, a + "," + b, "||" + "$1");
    QuoteAsText([mark], a, b, "||", "$1");
    PlaceholdersBehind(back, "$1");
    OnePlaceholder('1', "");
    assert ['$', '1'] + "" == "$1";
    NoDollarNoPlaceholder(front);
    OneExpressionCountsAsTwo(table, front, back + "$1");
  }

  lemma {:induction false} QuoteAsText(mark: string, a: string, b: string, plus: string, more: string)
    ensures mark + a + "," + (b + mark + plus + more) == mark + (a + "," + b) + mark + (plus + more)
  {}
}
