/**
 * Search terms in LIKE patterns: escaping the wildcards of a term makes the pattern match
 * exactly the texts that contain the term, letter case of ASCII letters aside.
 */
module LikeSearch {
  const ESCAPE := '\\'

  predicate IsMeta(c: char) {
    c == ESCAPE || c == '%' || c == '_'
  }

  function EscapeLike(term: string): string {
    if term == "" then ""
    else (if IsMeta(term[0]) then [ESCAPE, term[0]] else [term[0]]) + EscapeLike(term[1..])
  }

  function SearchPattern(term: string): string {
    "%" + EscapeLike(term) + "%"
  }

  /** LIKE compares ASCII letters without case. */
  function Fold(c: char): char {
    if 'A' <= c <= 'Z' then c - 'A' + 'a' else c
  }

  /** Two characters are the same to LIKE exactly if they are equal, or an ASCII letter and its capital, 32 places apart. */
  lemma FoldMeans(a: char, b: char)
    ensures Fold(a) == Fold(b) <==>
              || a == b || (97 <= a as int <= 122 && b as int + 32 == a as int) || (97 <= b as int <= 122 && a as int + 32 == b as int)
  {
  }

  /** SQLite's LIKE with an escape character: a trailing lone escape matches nothing. */
  predicate Like(pattern: string, text: string)
    decreases |pattern| + |text|
  {
    if pattern == "" then text == ""
    else if pattern[0] == ESCAPE then
      |pattern| >= 2 && text != "" && Fold(text[0]) == Fold(pattern[1]) && Like(pattern[2..], text[1..])
    else if pattern[0] == '%' then
      Like(pattern[1..], text) || (text != "" && Like(pattern, text[1..]))
    else if pattern[0] == '_' then
      text != "" && Like(pattern[1..], text[1..])
    else
      text != "" && Fold(text[0]) == Fold(pattern[0]) && Like(pattern[1..], text[1..])
  }

  /** What a pattern starts with: an escaped or ordinary character for itself, '_' for any one character. */
  lemma LikeMeans(c: char, pattern: string, text: string)
    ensures Like("", text) <==> text == ""
    ensures !Like([ESCAPE], text)
    ensures Like([ESCAPE, c] + pattern, text) <==> text != "" && Fold(text[0]) == Fold(c) && Like(pattern, text[1..])
    ensures Like("_" + pattern, text) <==> text != "" && Like(pattern, text[1..])
    ensures !IsMeta(c) ==> (Like([c] + pattern, text) <==> text != "" && Fold(text[0]) == Fold(c) && Like(pattern, text[1..]))
  {
    assert ([ESCAPE, c] + pattern)[2..] == pattern;
    assert ("_" + pattern)[1..] == pattern && ([c] + pattern)[1..] == pattern;
  }

  /** A percent sign stands for any text, also the empty one. */
  lemma {:induction false} PercentMeans(pattern: string, text: string)
    ensures Like("%" + pattern, text) <==> exists k :: 0 <= k <= |text| && Like(pattern, text[k..])
    decreases text
  {
    assert ("%" + pattern)[1..] == pattern;
    assert text[0..] == text;
    if text != "" {
      PercentMeans(pattern, text[1..]);
      assert forall k :: 0 < k <= |text| ==> text[k..] == text[1..][k - 1..];
      if k :| 0 < k <= |text| && Like(pattern, text[k..]) {
        assert Like(pattern, text[1..][k - 1..]);
      }
      if k :| 0 <= k <= |text[1..]| && Like(pattern, text[1..][k..]) {
        assert text[1..][k..] == text[k + 1..];
      }
    }
  }

  /** The term stands at this place of the text. */
  predicate OccursAt(term: string, text: string, at: nat) {
    at + |term| <= |text| && forall k :: 0 <= k < |term| ==> Fold(text[at + k]) == Fold(term[k])
  }

  predicate Contains(text: string, term: string) {
    exists at :: 0 <= at <= |text| && OccursAt(term, text, at)
  }

  lemma {:induction false} PercentMatchesAll(text: string)
    ensures Like("%", text)
  {
    if text != "" {
      PercentMatchesAll(text[1..]);
    }
  }

  /** An escaped term followed by a percent sign matches exactly the texts that begin with the term. */
  lemma {:induction false} EscapedIsPrefix(term: string, text: string)
    ensures Like(EscapeLike(term) + "%", text) <==> OccursAt(term, text, 0)
  {
    if term == "" {
      PercentMatchesAll(text);
      assert EscapeLike(term) + "%" == "%";
    } else {
      var rest := EscapeLike(term[1..]) + "%";
      var pattern := EscapeLike(term) + "%";
      if IsMeta(term[0]) {
        assert pattern == [ESCAPE, term[0]] + rest;
        assert pattern[2..] == rest;
      } else {
        assert pattern == [term[0]] + rest;
        assert pattern[1..] == rest;
      }
      if text != "" {
        EscapedIsPrefix(term[1..], text[1..]);
        if OccursAt(term, text, 0) {
          assert Fold(text[0]) == Fold(term[0]);
          forall k | 0 <= k < |term[1..]| ensures Fold(text[1..][0 + k]) == Fold(term[1..][k]) {
            assert Fold(text[0 + (k + 1)]) == Fold(term[k + 1]);
          }
        }
        if Fold(text[0]) == Fold(term[0]) && OccursAt(term[1..], text[1..], 0) {
          forall k | 0 <= k < |term| ensures Fold(text[0 + k]) == Fold(term[k]) {
            if k > 0 {
              assert Fold(text[1..][0 + (k - 1)]) == Fold(term[1..][k - 1]);
            }
          }
        }
      }
    }
  }

  /** A leading percent sign lets the rest of the pattern match from any place on. */
  lemma {:induction false} PercentSkips(pattern: string, text: string)
    ensures Like("%" + pattern, text) <==> exists at :: 0 <= at <= |text| && Like(pattern, text[at..])
  {
    var whole := "%" + pattern;
    assert whole[1..] == pattern;
    assert text[0..] == text;
    if text != "" {
      PercentSkips(pattern, text[1..]);
      if at :| 0 <= at <= |text| && Like(pattern, text[at..]) {
        if at > 0 {
          assert text[1..][at - 1..] == text[at..];
        }
      }
      if at :| 0 <= at <= |text[1..]| && Like(pattern, text[1..][at..]) {
        assert text[1..][at..] == text[at + 1..];
      }
    }
  }

  /** The search finds a text exactly when the text contains the term, wildcards and escapes included. */
  lemma SearchMatchesContains(term: string, text: string)
    ensures Like(SearchPattern(term), text) <==> Contains(text, term)
  {
    var tail := EscapeLike(term) + "%";
    assert SearchPattern(term) == "%" + tail;
    PercentSkips(tail, text);
    forall at: nat | 0 <= at <= |text| ensures Like(tail, text[at..]) <==> OccursAt(term, text, at) {
      EscapedIsPrefix(term, text[at..]);
      if OccursAt(term, text[at..], 0) {
        forall k | 0 <= k < |term| ensures Fold(text[at + k]) == Fold(term[k]) {
          assert Fold(text[at..][0 + k]) == Fold(term[k]);
        }
      }
      if OccursAt(term, text, at) {
        forall k | 0 <= k < |term| ensures Fold(text[at..][0 + k]) == Fold(term[k]) {
          assert Fold(text[at + k]) == Fold(term[k]);
        }
      }
    }
    if Contains(text, term) {
      var at :| 0 <= at <= |text| && OccursAt(term, text, at);
      assert Like(tail, text[at..]);
    }
  }
}
