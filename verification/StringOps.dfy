/** Cutting, joining and trimming text, as JavaScript strings do. */
module StringOps {

  predicate IsSpace(c: char) {
    c in {' ', '\t', '\n', '\r', '\U{000B}', '\U{000C}', '\U{00A0}', '\U{1680}', '\U{2028}', '\U{2029}', '\U{202F}',
      '\U{205F}', '\U{3000}', '\U{FEFF}'} || '\U{2000}' <= c <= '\U{200A}'
  }

  /** The white space of JavaScript, by code point. */
  lemma SpaceCodes(c: char)
    ensures IsSpace(c) <==>
              || 9 <= c as int <= 13 || c as int in {32, 160, 5760, 8232, 8233, 8239, 8287, 12288, 65279} || 8192 <= c as int <= 8202
  {
  }

  predicate SpaceBetween(s: string, from: nat, to: nat)
    requires to <= |s|
  {
    forall k :: from <= k < to ==> IsSpace(s[k])
  }

  function TrimStart(s: string): (r: string)
    ensures |r| <= |s| && r == s[|s| - |r|..] && (r == "" || !IsSpace(r[0]))
    ensures SpaceBetween(s, 0, |s| - |r|)
  {
    if s != "" && IsSpace(s[0]) then TrimStart(s[1..]) else s
  }

  function TrimEnd(s: string): (r: string)
    ensures r <= s && (r == "" || !IsSpace(r[|r| - 1]))
    ensures SpaceBetween(s, |r|, |s|)
  {
    if s != "" && IsSpace(s[|s| - 1]) then TrimEnd(s[..|s| - 1]) else s
  }

  function Trim(s: string): string {
    TrimEnd(TrimStart(s))
  }

  lemma PartsJoin(s: string, end: string, middle: string)
    requires |end| <= |s| && end == s[|s| - |end|..] && middle <= end
    requires SpaceBetween(s, 0, |s| - |end|) && SpaceBetween(end, |middle|, |end|)
    ensures var before, after := s[..|s| - |end|], end[|middle|..];
            && s == before + middle + after
            && SpaceBetween(before, 0, |before|) && SpaceBetween(after, 0, |after|)
    ensures middle != "" ==> middle[0] == end[0]
  {
  }

  /** Only white space is trimmed, and none is left at either end. */
  lemma TrimMeans(s: string) returns (before: string, after: string)
    ensures s == before + Trim(s) + after
    ensures SpaceBetween(before, 0, |before|) && SpaceBetween(after, 0, |after|)
    ensures Trim(s) != "" ==> !IsSpace(Trim(s)[0]) && !IsSpace(Trim(s)[|Trim(s)| - 1])
  {
    var start, trimmed := TrimStart(s), Trim(s);
    before, after := s[..|s| - |start|], start[|trimmed|..];
    PartsJoin(s, start, trimmed);
  }

  /** Put text in front of the first piece. */
  function Prepend(x: string, pieces: seq<string>): seq<string>
    requires pieces != []
  {
    [x + pieces[0]] + pieces[1..]
  }

  /** The text cut at every occurrence of the separator. */
  function Split(s: string, separator: char): (pieces: seq<string>)
    ensures pieces != []
  {
    if s == "" then [""]
    else if s[0] == separator then [""] + Split(s[1..], separator)
    else Prepend([s[0]], Split(s[1..], separator))
  }

  function Join(pieces: seq<string>, separator: char): string {
    if pieces == [] then ""
    else if |pieces| == 1 then pieces[0]
    else pieces[0] + [separator] + Join(pieces[1..], separator)
  }

  /** Joining undoes cutting. */
  lemma {:induction false} JoinSplit(s: string, separator: char)
    ensures Join(Split(s, separator), separator) == s
  {
    if s != "" {
      JoinSplit(s[1..], separator);
      var rest := Split(s[1..], separator);
      if s[0] == separator {
        assert ([""] + rest)[1..] == rest;
        assert "" + [separator] + Join(rest, separator) == [separator] + s[1..] == s;
      } else {
        assert Prepend([s[0]], rest)[1..] == rest[1..];
        assert Join(Prepend([s[0]], rest), separator) == [s[0]] + Join(rest, separator);
        assert [s[0]] + s[1..] == s;
      }
    }
  }

  /** Cutting undoes joining when no piece holds the separator. */
  lemma {:induction false} SplitJoin(pieces: seq<string>, separator: char)
    requires pieces != [] && forall k :: 0 <= k < |pieces| ==> separator !in pieces[k]
    ensures Split(Join(pieces, separator), separator) == pieces
    decreases |pieces|, |pieces[0]|
  {
    var first, rest := pieces[0], pieces[1..];
    if first == "" {
      if rest != [] {
        SplitJoin(rest, separator);
        assert Join(pieces, separator)[1..] == Join(rest, separator);
      }
    } else {
      var shorter := [first[1..]] + rest;
      SplitJoin(shorter, separator);
      assert shorter[1..] == rest;
      assert Join(pieces, separator) == [first[0]] + Join(shorter, separator) by {
        assert [first[0]] + first[1..] == first;
        if rest != [] {
          assert [first[0]] + (first[1..] + [separator] + Join(rest, separator)) == first + [separator] + Join(rest, separator);
        }
      }
      assert Join(pieces, separator)[1..] == Join(shorter, separator);
      assert [first[0]] + first[1..] == first && [first] + rest == pieces;
    }
  }
}
