/**
 * The balanced-parenthesis scan that cuts a values clause out of a source text, against a grammar. The
 * scan counts a depth and stops at its first return to zero; the grammar builds balanced text from groups.
 * Text is derivable exactly when it counts out, every parenthesis has at most one match, and so the scan
 * returns the one clause there is, or nothing when there is none.
 */
module Parentheses {
  import opened Wrappers

  // ---------------------------------------------------------------- the grammar

  /** Balanced text: nothing; one other character and balanced text; or a group and balanced text. */
  datatype Derivation =
    | Nothing
    | Other(c: char, rest: Derivation)
    | Group(inner: Derivation, rest: Derivation)

  predicate Derives(d: Derivation) {
    match d
    case Nothing => true
    case Other(c, rest) => c != '(' && c != ')' && Derives(rest)
    case Group(inner, rest) => Derives(inner) && Derives(rest)
  }

  function Rendered(d: Derivation): string {
    match d
    case Nothing => ""
    case Other(c, rest) => [c] + Rendered(rest)
    case Group(inner, rest) => "(" + Rendered(inner) + ")" + Rendered(rest)
  }

  ghost predicate Balanced(s: string) {
    exists d :: Derives(d) && Rendered(d) == s
  }

  // ---------------------------------------------------------------- counting

  function Depth(s: string): int {
    if s == "" then 0 else
      Depth(s[..|s| - 1]) + (if s[|s| - 1] == '(' then 1 else if s[|s| - 1] == ')' then -1 else 0)
  }

  ghost predicate Counted(s: string) {
    Depth(s) == 0 && forall i :: 0 <= i <= |s| ==> Depth(s[..i]) >= 0
  }

  lemma {:induction false} DepthConcat(s: string, t: string)
    ensures Depth(s + t) == Depth(s) + Depth(t)
  {
    if t == "" {
      assert s + t == s;
    } else {
      assert (s + t)[..|s + t| - 1] == s + t[..|t| - 1];
      DepthConcat(s, t[..|t| - 1]);
    }
  }

  lemma {:induction false} CountedConcat(s: string, t: string)
    requires Counted(s) && Counted(t)
    ensures Counted(s + t)
  {
    DepthConcat(s, t);
    forall i | 0 <= i <= |s + t| ensures Depth((s + t)[..i]) >= 0 {
      if i <= |s| {
        assert (s + t)[..i] == s[..i];
      } else {
        assert (s + t)[..i] == s + t[..i - |s|];
        DepthConcat(s, t[..i - |s|]);
      }
    }
  }

  lemma {:induction false} CountedGroup(s: string)
    requires Counted(s)
    ensures Counted("(" + s + ")")
  {
    var g := "(" + s + ")";
    forall i | 0 <= i <= |s| ensures Depth("(" + s[..i]) >= 1 { DepthConcat("(", s[..i]); }
    assert s[..|s|] == s;
    DepthConcat("(" + s, ")");
    DepthConcat("(", s);
    forall i | 0 <= i <= |g| ensures Depth(g[..i]) >= 0 {
      if 1 <= i <= |s| + 1 {
        assert g[..i] == "(" + s[..i - 1];
      } else {
        assert i == 0 || g[..i] == g;
      }
    }
  }

  /** What the grammar derives counts out. */
  lemma {:induction false} DerivedIsCounted(d: Derivation)
    requires Derives(d)
    ensures Counted(Rendered(d))
  {
    match d
    case Nothing =>
    case Other(c, rest) =>
      DerivedIsCounted(rest);
      assert Counted([c]) by { assert [c][..0] == "" && [c][..1] == [c]; }
      CountedConcat([c], Rendered(rest));
    case Group(inner, rest) =>
      DerivedIsCounted(inner);
      DerivedIsCounted(rest);
      CountedGroup(Rendered(inner));
      CountedConcat("(" + Rendered(inner) + ")", Rendered(rest));
  }

  /** Where the parenthesis opened at 0 is closed: the first return to depth zero. */
  predicate ClosesAt(s: string, k: nat) {
    k < |s| && Depth(s[..k + 1]) == 0 && forall i :: 0 < i <= k ==> Depth(s[..i]) > 0
  }

  lemma {:induction false} FirstReturn(s: string, n: nat) returns (k: nat)
    requires s != "" && s[0] == '(' && 0 < n <= |s| && Depth(s[..n]) <= 0
    ensures k < n && ClosesAt(s, k)
  {
    assert s[..1] == "(";
    k := 1;
    while Depth(s[..k + 1]) > 0
      invariant 0 < k < n
      invariant forall i :: 0 < i <= k ==> Depth(s[..i]) > 0
      decreases n - k
    {
      k := k + 1;
    }
    assert s[..k + 1][..k] == s[..k];
  }

  lemma {:induction false} ClosedBody(s: string, k: nat)
    requires s != "" && s[0] == '(' && ClosesAt(s, k)
    ensures k > 0 && s[k] == ')' && Counted(s[1..k])
  {
    assert s[..1] == "(";
    assert s[..k + 1][..k] == s[..k];
    forall j | 0 <= j <= k - 1 ensures Depth(s[1..k][..j]) == Depth(s[..j + 1]) - 1 {
      assert s[..j + 1] == "(" + s[1..k][..j];
      DepthConcat("(", s[1..k][..j]);
    }
    assert s[1..k][..k - 1] == s[1..k];
  }

  lemma {:induction false} CountedTail(s: string, t: string)
    requires Counted(s + t) && Depth(s) == 0
    ensures Counted(t)
  {
    DepthConcat(s, t);
    forall i | 0 <= i <= |t| ensures Depth(t[..i]) >= 0 {
      DepthConcat(s, t[..i]);
      assert (s + t)[..|s| + i] == s + t[..i];
    }
  }

  /** Counted text that opens with a parenthesis is a counted body, its parentheses, and counted text. */
  lemma {:induction false} CountedGroupSplits(s: string) returns (k: nat)
    requires Counted(s) && s != "" && s[0] == '('
    ensures 0 < k < |s| && s == "(" + s[1..k] + ")" + s[k + 1..]
    ensures Counted(s[1..k]) && Counted(s[k + 1..])
  {
    assert s[..|s|] == s;
    k := FirstReturn(s, |s|);
    ClosedBody(s, k);
    assert s == s[..k + 1] + s[k + 1..];
    CountedTail(s[..k + 1], s[k + 1..]);
  }

  lemma {:induction false} CountedOtherSplits(s: string)
    requires Counted(s) && s != "" && s[0] != '('
    ensures s[0] != ')' && Counted(s[1..]) && s == [s[0]] + s[1..]
  {
    assert s[..1] == [s[0]];
    assert Depth(s[..1]) >= 0;
    assert s == [s[0]] + s[1..];
    CountedTail([s[0]], s[1..]);
  }

  /** What counts out is derived. */
  lemma {:induction false} CountedIsDerived(s: string) returns (d: Derivation)
    requires Counted(s)
    ensures Derives(d) && Rendered(d) == s
    decreases |s|
  {
    if s == "" {
      d := Nothing;
    } else if s[0] == '(' {
      var k := CountedGroupSplits(s);
      var inner := CountedIsDerived(s[1..k]);
      var rest := CountedIsDerived(s[k + 1..]);
      d := Group(inner, rest);
    } else {
      CountedOtherSplits(s);
      var rest := CountedIsDerived(s[1..]);
      d := Other(s[0], rest);
    }
  }

  lemma {:induction false} BalancedIffCounted(s: string)
    ensures Balanced(s) <==> Counted(s)
  {
    if Balanced(s) {
      var d :| Derives(d) && Rendered(d) == s;
      DerivedIsCounted(d);
    }
    if Counted(s) {
      var d := CountedIsDerived(s);
    }
  }

  // ---------------------------------------------------------------- valuesClause

  predicate FirstOpen(src: string, from: nat, open: nat) {
    from <= open < |src| && src[open] == '(' && forall i :: from <= i < open ==> src[i] != '('
  }

  /** The parenthesis at `open` is matched by the one at `close`: what is between them is balanced. */
  ghost predicate Matches(src: string, open: nat, close: nat) {
    open < close < |src| && src[open] == '(' && src[close] == ')' && Balanced(src[open + 1..close])
  }

  lemma {:induction false} MatchesIffCloses(src: string, open: nat, close: nat)
    requires open < |src| && src[open] == '('
    ensures Matches(src, open, close) <==> open < close && ClosesAt(src[open..], close - open)
  {
    var s := src[open..];
    if open < close < |src| {
      var k := close - open;
      assert s[1..k] == src[open + 1..close];
      BalancedIffCounted(s[1..k]);
      if ClosesAt(s, k) { ClosedBody(s, k); }
      if Counted(s[1..k]) && s[k] == ')' { BodyCloses(s, k); }
    }
  }

  lemma {:induction false} BodyCloses(s: string, k: nat)
    requires 0 < k < |s| && s[0] == '(' && s[k] == ')' && Counted(s[1..k])
    ensures ClosesAt(s, k)
  {
    forall i | 0 < i <= k ensures Depth(s[..i]) > 0 && (i == k ==> Depth(s[..i]) == 1) {
      assert s[..i] == "(" + s[1..k][..i - 1];
      DepthConcat("(", s[1..k][..i - 1]);
      if i == k { assert s[1..k][..k - 1] == s[1..k]; }
    }
    assert s[..k + 1][..k] == s[..k];
  }

  /** One parenthesis has at most one match. */
  lemma {:induction false} MatchIsUnique(src: string, open: nat, a: nat, b: nat)
    requires Matches(src, open, a) && Matches(src, open, b)
    ensures a == b
  {
    MatchesIffCloses(src, open, a);
    MatchesIffCloses(src, open, b);
  }

  /** Behind text without a parenthesis, balanced text in parentheses is matched by them, whatever follows. */
  lemma {:induction false} ClauseStands(pre: string, body: string, post: string, from: nat)
    requires '(' !in pre && Balanced(body) && from <= |pre|
    ensures ClauseAt(pre + "(" + body + ")" + post, from, |pre|, |pre| + 1 + |body|)
  {
    var src, close := pre + "(" + body + ")" + post, |pre| + 1 + |body|;
    assert forall i :: 0 <= i < |pre| ==> src[i] == pre[i];
    assert src[|pre|] == '(' && src[close] == ')' && src[|pre| + 1..close] == body;
  }

  ghost predicate ClauseAt(src: string, from: nat, open: nat, close: nat) {
    FirstOpen(src, from, open) && Matches(src, open, close)
  }

  /** The text between the first parenthesis opened at or after `from` and its match, if it has one. */
  ghost predicate IsClause(src: string, from: nat, r: Option<string>) {
    match r
    case Some(text) => exists open: nat, close: nat :: ClauseAt(src, from, open, close) && text == src[open + 1..close]
    case None => forall open: nat, close: nat :: !ClauseAt(src, from, open, close)
  }

  lemma {:induction false} ClauseAtIsUnique(src: string, from: nat, o1: nat, c1: nat, o2: nat, c2: nat)
    requires ClauseAt(src, from, o1, c1) && ClauseAt(src, from, o2, c2)
    ensures o1 == o2 && c1 == c2
  {
    assert src[o1] == '(' && src[o2] == '(';
    MatchIsUnique(src, o1, c1, c2);
  }

  lemma {:induction false} ClauseIsUnique(src: string, from: nat, a: Option<string>, b: Option<string>)
    requires IsClause(src, from, a) && IsClause(src, from, b)
    ensures a == b
  {
    if a.Some? && b.Some? {
      var o1: nat, c1: nat :| ClauseAt(src, from, o1, c1) && a.value == src[o1 + 1..c1];
      var o2: nat, c2: nat :| ClauseAt(src, from, o2, c2) && b.value == src[o2 + 1..c2];
      ClauseAtIsUnique(src, from, o1, c1, o2, c2);
    }
  }

  /** `valuesClause`. */
  method ValuesClause(src: string, from: nat) returns (r: Option<string>)
    ensures IsClause(src, from, r)
  {
    var open := from;
    while open < |src| && src[open] != '('
      invariant from <= open
      invariant forall i :: from <= i < open && i < |src| ==> src[i] != '('
    {
      open := open + 1;
    }
    if open >= |src| { return None; }
    ghost var s := src[open..];
    var depth, i := 0, open;
    while i < |src|
      invariant open <= i <= |src|
      invariant depth == Depth(s[..i - open])
      invariant forall j :: 0 < j <= i - open ==> Depth(s[..j]) > 0
    {
      assert s[..i - open + 1][..i - open] == s[..i - open];
      if src[i] == '(' {
        depth := depth + 1;
      } else if src[i] == ')' {
        depth := depth - 1;
        if depth == 0 {
          assert ClosesAt(s, i - open);
          MatchesIffCloses(src, open, i);
          assert ClauseAt(src, from, open, i);
          return Some(src[open + 1..i]);
        }
      }
      i := i + 1;
    }
    forall o: nat, close: nat ensures !ClauseAt(src, from, o, close) {
      if FirstOpen(src, from, o) {
        MatchesIffCloses(src, o, close);
        assert o == open;
      }
    }
    r := None;
  }
}
