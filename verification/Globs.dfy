/**
 * The pattern language of ELBv2 rule conditions: '*' stands for any run of characters and
 * '?' for exactly one; every other character stands for itself.
 */
module Globs {

  predicate Matches(pattern: string, text: string)
    decreases |pattern| + |text|
  {
    if pattern == "" then text == ""
    else if pattern[0] == '*' then
      Matches(pattern[1..], text) || (text != "" && Matches(pattern, text[1..]))
    else
      text != "" && (pattern[0] == '?' || pattern[0] == text[0]) && Matches(pattern[1..], text[1..])
  }

  predicate WildcardFree(s: string) { '*' !in s && '?' !in s }

  /** Read as a plain string, every pattern is one of the strings it matches. */
  lemma {:induction false} MatchesItself(pattern: string)
    ensures Matches(pattern, pattern)
  {
    if pattern != "" {
      MatchesItself(pattern[1..]);
    }
  }

  lemma {:induction false} LiteralMatches(literal: string, text: string)
    requires WildcardFree(literal)
    ensures Matches(literal, text) <==> text == literal
  {
    if literal != "" && text != "" {
      LiteralMatches(literal[1..], text[1..]);
      assert literal == [literal[0]] + literal[1..] && text == [text[0]] + text[1..];
    }
  }

  lemma {:induction false} StarMatches(text: string)
    ensures Matches("*", text)
  {
    assert "*"[1..] == "";
    if text != "" {
      StarMatches(text[1..]);
    }
  }

  /** A literal followed by a star matches exactly the texts that begin with the literal. */
  lemma {:induction false} LiteralStarMatches(literal: string, text: string)
    requires WildcardFree(literal)
    ensures Matches(literal + "*", text) <==> literal <= text
  {
    var pattern := literal + "*";
    if literal == "" {
      assert pattern == "*";
      StarMatches(text);
    } else if text != "" {
      assert pattern[1..] == literal[1..] + "*";
      LiteralStarMatches(literal[1..], text[1..]);
      assert literal == [literal[0]] + literal[1..] && text == [text[0]] + text[1..];
    }
  }
}
