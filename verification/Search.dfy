/** Finding a customer by what was typed: the query's own wildcards mean themselves. */
module Search {
  /** One character of the query in the pattern; the replacer works in a single pass. */
  function EscapedChar(c: char): string {
    if c == '\\' then "\\\\" else if c == '%' then "\\%" else if c == '_' then "\\_" else [c]
  }

  function Escaped(query: string): string {
    if query == "" then "" else EscapedChar(query[0]) + Escaped(query[1..])
  }

  function Pattern(query: string): string {
    "%" + Escaped(query) + "%"
  }

  /**
   * LIKE: a percent sign stands for any run of characters, an underscore for any one, and a backslash
   * makes the next character stand for itself; a backslash at the end is an error and matches nothing.
   */
  predicate Like(text: string, pattern: string)
    decreases |pattern|, |text|
  {
    if pattern == "" then text == ""
    else if pattern[0] == '%' then Like(text, pattern[1..]) || (text != "" && Like(text[1..], pattern))
    else if pattern[0] == '_' then text != "" && Like(text[1..], pattern[1..])
    else if pattern[0] == '\\' then
      |pattern| > 1 && text != "" && text[0] == pattern[1] && Like(text[1..], pattern[2..])
    else text != "" && text[0] == pattern[0] && Like(text[1..], pattern[1..])
  }

  predicate OccursAt(text: string, query: string, i: nat) {
    i + |query| <= |text| && text[i..i + |query|] == query
  }

  ghost predicate Occurs(text: string, query: string) {
    exists i: nat :: OccursAt(text, query, i)
  }

  lemma {:induction false} PercentMatchesAll(text: string)
    ensures Like(text, "%")
  {
    if text == "" {
      assert "%"[1..] == "";
    } else {
      PercentMatchesAll(text[1..]);
    }
  }

  /** An escaped character of the query asks for exactly that character. */
  lemma EscapedCharMatches(text: string, c: char, rest: string)
    ensures Like(text, EscapedChar(c) + rest) <==> text != "" && text[0] == c && Like(text[1..], rest)
  {
    var p := EscapedChar(c) + rest;
    if c == '\\' || c == '%' || c == '_' {
      assert p[0] == '\\' && p[1] == c && p[2..] == rest;
    } else {
      assert p[0] == c && p[1..] == rest;
    }
  }

  /** The escaped query followed by a percent sign asks for the query at the start. */
  lemma {:induction false} EscapedMatchesPrefix(text: string, query: string)
    ensures Like(text, Escaped(query) + "%") <==> OccursAt(text, query, 0)
  {
    if query == "" {
      assert Escaped(query) + "%" == "%";
      PercentMatchesAll(text);
      assert text[0..0] == "";
    } else {
      var rest := Escaped(query[1..]) + "%";
      assert Escaped(query) + "%" == EscapedChar(query[0]) + rest;
      EscapedCharMatches(text, query[0], rest);
      if text != "" {
        EscapedMatchesPrefix(text[1..], query[1..]);
        FirstThenRest(text, query);
      }
    }
  }

  lemma FirstThenRest(text: string, query: string)
    requires text != "" && query != ""
    ensures OccursAt(text, query, 0) <==> text[0] == query[0] && OccursAt(text[1..], query[1..], 0)
  {
    if |query| <= |text| {
      assert text[0..|query|] == [text[0]] + text[1..][0..|query| - 1];
      assert query == [query[0]] + query[1..];
    }
  }

  lemma OccursLater(text: string, query: string)
    requires text != ""
    ensures Occurs(text, query) <==> OccursAt(text, query, 0) || Occurs(text[1..], query)
  {
    var n := |query|;
    forall i: nat ensures OccursAt(text, query, i + 1) <==> OccursAt(text[1..], query, i) {
      if i + n <= |text[1..]| { assert text[1..][i..i + n] == text[i + 1..i + 1 + n]; }
    }
    if Occurs(text, query) && !OccursAt(text, query, 0) {
      var i: nat :| OccursAt(text, query, i);
      assert OccursAt(text[1..], query, i - 1);
    }
    if Occurs(text[1..], query) {
      var i: nat :| OccursAt(text[1..], query, i);
      assert OccursAt(text, query, i + 1);
    }
  }

  /** The search box finds exactly the texts the query occurs in, whatever characters it is made of. */
  lemma {:induction false} SearchIsLiteral(text: string, query: string)
    ensures Like(text, Pattern(query)) <==> Occurs(text, query)
  {
    var rest := Escaped(query) + "%";
    assert Pattern(query)[0] == '%' && Pattern(query)[1..] == rest;
    EscapedMatchesPrefix(text, query);
    if text == "" {
      if Occurs(text, query) {
        var i: nat :| OccursAt(text, query, i);
        assert i == 0;
      }
    } else {
      SearchIsLiteral(text[1..], query);
      OccursLater(text, query);
    }
  }

  // ------------------------------------------------------- case folding

  /** A folding of case leaves the pattern's own characters alone, and folds nothing else onto them. */
  ghost predicate KeepsWildcards(fold: char -> char) {
    forall c :: (fold(c) == '%' <==> c == '%') && (fold(c) == '_' <==> c == '_') && (fold(c) == '\\' <==> c == '\\')
  }

  function Folded(fold: char -> char, s: string): (r: string)
    ensures |r| == |s| && forall i :: 0 <= i < |s| ==> r[i] == fold(s[i])
  {
    seq(|s|, i requires 0 <= i < |s| => fold(s[i]))
  }

  /** ILIKE: both sides are folded, then matched. */
  predicate ILike(fold: char -> char, text: string, pattern: string) {
    Like(Folded(fold, text), Folded(fold, pattern))
  }

  lemma FoldedJoin(fold: char -> char, s: string, t: string)
    ensures Folded(fold, s + t) == Folded(fold, s) + Folded(fold, t)
  {
  }

  lemma FoldedChar(fold: char -> char, c: char)
    requires KeepsWildcards(fold)
    ensures Folded(fold, EscapedChar(c)) == EscapedChar(fold(c))
  {
  }

  lemma {:induction false} FoldedEscape(fold: char -> char, query: string)
    requires KeepsWildcards(fold)
    ensures Folded(fold, Escaped(query)) == Escaped(Folded(fold, query))
  {
    if query != "" {
      FoldedChar(fold, query[0]);
      FoldedEscape(fold, query[1..]);
      FoldedJoin(fold, EscapedChar(query[0]), Escaped(query[1..]));
      assert Folded(fold, query)[1..] == Folded(fold, query[1..]);
    } else {
      assert Folded(fold, "") == "";
    }
  }

  /** The search box finds exactly the texts the query occurs in but for case. */
  lemma SearchIsLiteralButForCase(fold: char -> char, text: string, query: string)
    requires KeepsWildcards(fold)
    ensures ILike(fold, text, Pattern(query)) <==> Occurs(Folded(fold, text), Folded(fold, query))
  {
    FoldedEscape(fold, query);
    FoldedJoin(fold, "%", Escaped(query));
    FoldedJoin(fold, "%" + Escaped(query), "%");
    assert Folded(fold, "%") == "%";
    assert Folded(fold, Pattern(query)) == Pattern(Folded(fold, query));
    SearchIsLiteral(Folded(fold, text), Folded(fold, query));
  }
}
