/** Splitting a migration into statements, and the guard that makes the plain split on ';' safe. */
module SqlSplitter {
  import opened Wrappers
  import opened StringOps

  datatype Unsafe = SemicolonInLiteral | UnterminatedLiteral | CreateTrigger | BeginKeyword | EndKeyword

  predicate IsCommentLine(line: string) {
    "--" <= Trim(line)
  }

  function KeptLines(lines: seq<string>): seq<string> {
    if lines == [] then []
    else (if IsCommentLine(lines[0]) then [] else [lines[0]]) + KeptLines(lines[1..])
  }

  /** The text without its comment lines. */
  function Stripped(sql: string): string {
    Join(KeptLines(Split(sql, '\n')), '\n')
  }

  /** The trimmed pieces that are not empty. */
  function Statements(pieces: seq<string>): seq<string> {
    if pieces == [] then []
    else (if Trim(pieces[0]) == "" then [] else [Trim(pieces[0])]) + Statements(pieces[1..])
  }

  /** What the migrator executes: a plain split that knows nothing of literals. */
  function SplitSqlStatements(sql: string): seq<string> {
    Statements(Split(Stripped(sql), ';'))
  }

  /** The reference: a split that leaves a ';' inside a quoted literal alone. Inside a literal, '' stands for a quote. */
  function Pieces(s: string, inString: bool): (pieces: seq<string>)
    ensures pieces != []
  {
    if s == "" then [""]
    else if inString && "''" <= s then Prepend("''", Pieces(s[2..], true))
    else if s[0] == '\'' then Prepend("'", Pieces(s[1..], !inString))
    else if s[0] == ';' && !inString then [""] + Pieces(s[1..], false)
    else Prepend([s[0]], Pieces(s[1..], inString))
  }

  /** Whether position i lies inside a literal, when every single quote opens or closes one. */
  predicate Inside(s: string, inString: bool, i: nat)
    requires i <= |s|
  {
    if i == 0 then inString else Inside(s[1..], inString != (s[0] == '\''), i - 1)
  }

  ghost predicate NoSemicolonInside(s: string, inString: bool) {
    forall i :: 0 <= i < |s| && s[i] == ';' ==> !Inside(s, inString, i)
  }

  predicate Balanced(s: string) {
    !Inside(s, false, |s|)
  }

  function Prefixed(prefix: string, r: Result<string, Unsafe>): Result<string, Unsafe> {
    match r
    case Ok(rest) => Ok(prefix + rest)
    case Err(e) => Err(e)
  }

  /** One walk over the text: its copy with the contents of literals blanked, or why it is refused. */
  function Scan(s: string, inString: bool): Result<string, Unsafe> {
    if s == "" then if inString then Err(UnterminatedLiteral) else Ok("")
    else if inString && "''" <= s then Prefixed("  ", Scan(s[2..], true))
    else if s[0] == '\'' then Prefixed("'", Scan(s[1..], !inString))
    else if inString && s[0] == ';' then Err(SemicolonInLiteral)
    else Prefixed([if inString && s[0] != '\n' then ' ' else s[0]], Scan(s[1..], inString))
  }

  // ---- keywords ----

  predicate IsWordChar(c: char) {
    'a' <= c <= 'z' || 'A' <= c <= 'Z' || '0' <= c <= '9' || c == '_'
  }

  function Upper(c: char): char {
    if 'a' <= c <= 'z' then c - 'a' + 'A' else c
  }

  /** The word occurs at i, in any case. */
  predicate LettersAt(s: string, i: nat, word: string) {
    i + |word| <= |s| && forall k :: 0 <= k < |word| ==> Upper(s[i + k]) == word[k]
  }

  predicate StartsWord(s: string, i: nat)
    requires i <= |s|
  {
    i == 0 || !IsWordChar(s[i - 1])
  }

  predicate EndsWord(s: string, i: nat)
    requires i <= |s|
  {
    i == |s| || !IsWordChar(s[i])
  }

  predicate WordAt(s: string, i: nat, word: string) {
    LettersAt(s, i, word) && StartsWord(s, i) && EndsWord(s, i + |word|)
  }

  predicate HasWord(s: string, word: string) {
    exists i :: 0 <= i < |s| && WordAt(s, i, word)
  }

  /** The first position from i on that is not white space. */
  function AfterSpaces(s: string, i: nat): (j: nat)
    requires i <= |s|
    ensures i <= j <= |s| && (j < |s| ==> !IsSpace(s[j]))
    decreases |s| - i
  {
    if i < |s| && IsSpace(s[i]) then AfterSpaces(s, i + 1) else i
  }

  /** At i: white space, then the word. */
  predicate WordAfterSpaces(s: string, i: nat, word: string)
    requires i <= |s|
  {
    var j := AfterSpaces(s, i);
    i < j && LettersAt(s, j, word) && EndsWord(s, j + |word|)
  }

  /** At i: white space, then both words with white space between them. */
  predicate TwoWordsAfterSpaces(s: string, i: nat, first: string, second: string)
    requires i <= |s|
  {
    var j := AfterSpaces(s, i);
    i < j && LettersAt(s, j, first) && WordAfterSpaces(s, j + |first|, second)
  }

  /** At i: the first word, then the last one, possibly with one of the two options between them. */
  predicate PhraseAt(s: string, i: nat, first: string, last: string, option: string, longOption: string) {
    LettersAt(s, i, first) && StartsWord(s, i) &&
    (WordAfterSpaces(s, i + |first|, last) ||
     TwoWordsAfterSpaces(s, i + |first|, option, last) || TwoWordsAfterSpaces(s, i + |first|, longOption, last))
  }

  predicate CreateTriggerAt(s: string, i: nat) {
    PhraseAt(s, i, "CREATE", "TRIGGER", "TEMP", "TEMPORARY")
  }

  predicate HasCreateTrigger(s: string) {
    exists i :: 0 <= i < |s| && CreateTriggerAt(s, i)
  }

  /** The first forbidden keyword of the blanked copy, in the order the guard tries them. */
  function Offender(blanked: string): Option<Unsafe> {
    if HasCreateTrigger(blanked) then Some(CreateTrigger)
    else if HasWord(blanked, "BEGIN") then Some(BeginKeyword)
    else if HasWord(blanked, "END") then Some(EndKeyword)
    else None
  }

  /** The guard's answer: nothing, or why the migration is refused. */
  function Guard(sql: string): Option<Unsafe> {
    match Scan(Stripped(sql), false)
    case Err(e) => Some(e)
    case Ok(blanked) => Offender(blanked)
  }

  method BlankLiterals(stripped: string) returns (r: Result<string, Unsafe>)
    ensures r == Scan(stripped, false)
  {
    var inString, blanked, i := false, "", 0;
    assert stripped[0..] == stripped && (forall v: string :: "" + v == v);
    while i < |stripped|
      invariant 0 <= i <= |stripped|
      invariant Scan(stripped, false) == Prefixed(blanked, Scan(stripped[i..], inString))
      decreases |stripped| - i
    {
      ghost var rest := stripped[i..];
      PrefixedTwice(blanked, rest, inString);
      var ch := stripped[i];
      if ch == '\'' {
        if inString && i + 1 < |stripped| && stripped[i + 1] == '\'' {
          assert "''" <= rest;
          i := i + 2;
          blanked := blanked + "  ";
        } else {
          assert !(inString && "''" <= rest);
          inString := !inString;
          blanked := blanked + [ch];
          i := i + 1;
        }
      } else {
        if inString && ch == ';' {
          return Err(SemicolonInLiteral);
        }
        blanked := blanked + [if inString && ch != '\n' then ' ' else ch];
        i := i + 1;
      }
    }
    assert stripped[i..] == "";
    if inString {
      return Err(UnterminatedLiteral);
    }
    assert blanked + "" == blanked;
    return Ok(blanked);
  }

  /** The guard: walk the literals, then look for the forbidden keywords in the blanked copy. */
  method AssertSplittableSql(sql: string) returns (refusal: Option<Unsafe>)
    ensures refusal == Guard(sql)
  {
    var r := BlankLiterals(Stripped(sql));
    if r.Err? {
      return Some(r.error);
    }
    return Offender(r.value);
  }

  /** One step of the walk, told from the blanked prefix. */
  lemma PrefixedTwice(blanked: string, rest: string, inString: bool)
    requires rest != ""
    ensures inString && "''" <= rest ==> Prefixed(blanked, Scan(rest, inString)) == Prefixed(blanked + "  ", Scan(rest[2..], true))
    ensures (!(inString && "''" <= rest) && rest[0] == '\'') ==>
              Prefixed(blanked, Scan(rest, inString)) == Prefixed(blanked + "'", Scan(rest[1..], !inString))
    ensures (rest[0] != '\'' && !(inString && rest[0] == ';')) ==>
              Prefixed(blanked, Scan(rest, inString)) ==
              Prefixed(blanked + [if inString && rest[0] != '\n' then ' ' else rest[0]], Scan(rest[1..], inString))
  {
    forall a: string, b: string, r: Result<string, Unsafe> ensures Prefixed(a, Prefixed(b, r)) == Prefixed(a + b, r) {
      if r.Ok? {
        assert a + (b + r.value) == (a + b) + r.value;
      }
    }
  }

  // ---- what acceptance means ----

  /** The state of a position after the first k characters, told from the rest of the text. */
  lemma InsideSkips(s: string, inString: bool, k: nat, i: nat)
    requires k <= i <= |s| && k <= 2
    ensures k == 1 ==> Inside(s, inString, i) == Inside(s[1..], inString != (s[0] == '\''), i - 1)
    ensures (k == 2 && "''" <= s) ==> Inside(s, inString, i) == Inside(s[2..], inString, i - 2)
  {
    if k == 2 {
      assert s[1..][1..] == s[2..];
    }
  }

  /** Whether no ';' of s lies inside a literal, told from the rest of the text. */
  lemma NoSemicolonInsideStep(s: string, inString: bool)
    requires s != ""
    ensures NoSemicolonInside(s, inString) <==>
            !(inString && s[0] == ';') && NoSemicolonInside(s[1..], inString != (s[0] == '\''))
  {
    var t, q := s[1..], inString != (s[0] == '\'');
    if NoSemicolonInside(s, inString) {
      assert s[0] == ';' ==> !Inside(s, inString, 0);
      forall i | 0 <= i < |t| && t[i] == ';' ensures !Inside(t, q, i) {
        assert s[i + 1] == ';' && Inside(s, inString, i + 1) == Inside(t, q, i);
      }
    }
    if !(inString && s[0] == ';') && NoSemicolonInside(t, q) {
      forall i | 0 <= i < |s| && s[i] == ';' ensures !Inside(s, inString, i) {
        if i > 0 {
          assert t[i - 1] == ';' && Inside(s, inString, i) == Inside(t, q, i - 1);
        }
      }
    }
  }

  lemma NoSemicolonInsideEscape(s: string)
    requires "''" <= s
    ensures NoSemicolonInside(s, true) <==> NoSemicolonInside(s[2..], true)
  {
    NoSemicolonInsideStep(s, true);
    NoSemicolonInsideStep(s[1..], false);
    assert s[1..][1..] == s[2..];
  }

  /** The walk accepts exactly the texts whose literals all end and hold no ';'. */
  lemma {:induction false} ScanAccepts(s: string, inString: bool)
    ensures Scan(s, inString).Ok? <==> !Inside(s, inString, |s|) && NoSemicolonInside(s, inString)
    ensures Scan(s, inString) == Err(SemicolonInLiteral) <==> !NoSemicolonInside(s, inString)
    ensures Scan(s, inString).Err? ==> Scan(s, inString).error in {SemicolonInLiteral, UnterminatedLiteral}
  {
    if s == "" {
    } else if inString && "''" <= s {
      ScanAccepts(s[2..], true);
      NoSemicolonInsideEscape(s);
      InsideSkips(s, true, 2, |s|);
    } else {
      NoSemicolonInsideStep(s, inString);
      InsideSkips(s, inString, 1, |s|);
      if !(inString && s[0] == ';') {
        ScanAccepts(s[1..], inString != (s[0] == '\''));
      }
    }
  }

  /** The plain split cuts as the literal-aware one does exactly when no ';' lies inside a literal; otherwise it cuts more. */
  lemma {:induction false} PlainSplitIsAware(s: string, inString: bool)
    ensures |Pieces(s, inString)| <= |Split(s, ';')|
    ensures NoSemicolonInside(s, inString) ==> Pieces(s, inString) == Split(s, ';')
    ensures !NoSemicolonInside(s, inString) ==> |Pieces(s, inString)| < |Split(s, ';')|
  {
    if s == "" {
    } else if inString && "''" <= s {
      PlainSplitIsAware(s[2..], true);
      NoSemicolonInsideEscape(s);
      assert s[1..][1..] == s[2..];
      var rest := Split(s[2..], ';');
      assert Prepend("'", rest)[1..] == rest[1..] && "'" + ("'" + rest[0]) == "''" + rest[0];
      assert Split(s, ';') == Prepend("'", Prepend("'", rest));
    } else {
      NoSemicolonInsideStep(s, inString);
      PlainSplitIsAware(s[1..], inString != (s[0] == '\''));
    }
  }

  lemma {:induction false} TrimEndBalanced(s: string, inString: bool)
    ensures Inside(TrimEnd(s), inString, |TrimEnd(s)|) == Inside(s, inString, |s|)
  {
    if s != "" {
      if TrimEnd(s) == "" {
        SpacesKeepState(s, inString);
      } else {
        var r := TrimEnd(s);
        InsideOfPrefix(r, s, inString);
        InsideSplits(s, inString, |r|);
        SpacesKeepState(s[|r|..], Inside(s, inString, |r|));
      }
    }
  }

  lemma {:induction false} SpacesKeepState(s: string, inString: bool)
    requires forall i :: 0 <= i < |s| ==> IsSpace(s[i])
    ensures Inside(s, inString, |s|) == inString
  {
    if s != "" {
      SpacesKeepState(s[1..], inString);
    }
  }

  lemma {:induction false} InsideOfPrefix(r: string, s: string, inString: bool)
    requires r <= s
    ensures Inside(s, inString, |r|) == Inside(r, inString, |r|)
  {
    if r != "" {
      InsideOfPrefix(r[1..], s[1..], inString != (s[0] == '\''));
    }
  }

  lemma {:induction false} InsideSplits(s: string, inString: bool, k: nat)
    requires k <= |s|
    ensures Inside(s, inString, |s|) == Inside(s[k..], Inside(s, inString, k), |s| - k)
  {
    if k > 0 {
      InsideSplits(s[1..], inString != (s[0] == '\''), k - 1);
      assert s[1..][k - 1..] == s[k..];
    }
  }

  lemma TrimBalanced(s: string)
    ensures Balanced(Trim(s)) == Balanced(s)
  {
    var t := TrimStart(s);
    TrimEndBalanced(t, false);
    var k := |s| - |t|;
    InsideSplits(s, false, k);
    InsideOfPrefix(s[..k], s, false);
    SpacesKeepState(s[..k], false);
  }

  /** The pieces of an accepted text: the first ends the literal it starts in, the others are balanced. */
  lemma {:induction false} AcceptedPiecesBalanced(s: string, inString: bool)
    requires !Inside(s, inString, |s|) && NoSemicolonInside(s, inString)
    ensures var pieces := Split(s, ';');
            !Inside(pieces[0], inString, |pieces[0]|) && forall k :: 1 <= k < |pieces| ==> Balanced(pieces[k])
  {
    if s != "" {
      NoSemicolonInsideStep(s, inString);
      AcceptedPiecesBalanced(s[1..], inString != (s[0] == '\''));
      var rest := Split(s[1..], ';');
      if s[0] == ';' {
        assert Balanced(rest[0]);
        forall k | 1 <= k < |rest| + 1 ensures Balanced(([""] + rest)[k]) {
        }
      } else {
        assert ([s[0]] + rest[0])[1..] == rest[0];
      }
    }
  }

  lemma {:induction false} StatementsBalanced(pieces: seq<string>)
    requires forall k :: 0 <= k < |pieces| ==> Balanced(pieces[k])
    ensures forall k :: 0 <= k < |Statements(pieces)| ==> Balanced(Statements(pieces)[k])
  {
    if pieces != [] {
      StatementsBalanced(pieces[1..]);
      TrimBalanced(pieces[0]);
    }
  }

  /** A text that the walk accepts is split as a literal-aware splitter would, into balanced statements. */
  lemma WalkedSplitsExactly(s: string)
    requires Scan(s, false).Ok?
    ensures Split(s, ';') == Pieces(s, false)
    ensures forall k :: 0 <= k < |Statements(Split(s, ';'))| ==> Balanced(Statements(Split(s, ';'))[k])
  {
    ScanAccepts(s, false);
    PlainSplitIsAware(s, false);
    AcceptedPiecesBalanced(s, false);
    assert Balanced(Split(s, ';')[0]);
    StatementsBalanced(Split(s, ';'));
  }

  lemma GuardedIsWalked(sql: string)
    requires Guard(sql) == None
    ensures Scan(Stripped(sql), false).Ok?
  {
  }

  /**
   * Every accepted migration splits into exactly the statements a literal-aware splitter finds,
   * and no statement ends in the middle of a literal.
   */
  lemma AcceptedSplitsExactly(sql: string)
    requires Guard(sql) == None
    ensures SplitSqlStatements(sql) == Statements(Pieces(Stripped(sql), false))
    ensures forall k :: 0 <= k < |SplitSqlStatements(sql)| ==> Balanced(SplitSqlStatements(sql)[k])
  {
    GuardedIsWalked(sql);
    WalkedSplitsExactly(Stripped(sql));
  }

  /** A text the guard refuses for a literal is one the plain split would cut inside a literal, or one that ends in a literal. */
  lemma LiteralRefusalsAreExact(stripped: string)
    ensures Scan(stripped, false) == Err(SemicolonInLiteral) <==> Pieces(stripped, false) != Split(stripped, ';')
    ensures Scan(stripped, false).Err? <==> Pieces(stripped, false) != Split(stripped, ';') || !Balanced(stripped)
  {
    ScanAccepts(stripped, false);
    PlainSplitIsAware(stripped, false);
  }

  /** A text without comment lines is executed as it stands. */
  lemma StripsOnlyComments(sql: string)
    requires forall k :: 0 <= k < |Split(sql, '\n')| ==> !IsCommentLine(Split(sql, '\n')[k])
    ensures Stripped(sql) == sql
  {
    KeepsAll(Split(sql, '\n'));
    JoinSplit(sql, '\n');
  }

  lemma {:induction false} KeepsAll(lines: seq<string>)
    requires forall k :: 0 <= k < |lines| ==> !IsCommentLine(lines[k])
    ensures KeptLines(lines) == lines
  {
    if lines != [] {
      KeepsAll(lines[1..]);
    }
  }

  // ---- the blanked copy ----

  /**
   * The copy keeps every position; outside literals it is the text, inside it keeps only line ends (and the quotes).
   * A quote that opens a literal is shown.
   */
  lemma {:induction false} BlankedKeepsPositions(s: string, inString: bool, i: nat)
    requires Scan(s, inString).Ok? && i < |s|
    ensures |Scan(s, inString).value| == |s|
    ensures var c := Scan(s, inString).value[i];
            if s[i] == '\'' then c == '\'' || c == ' '
            else c == (if Inside(s, inString, i) && s[i] != '\n' then ' ' else s[i])
    ensures s[i] == '\'' && !Inside(s, inString, i) && (i == 0 || s[i - 1] != '\'') ==> Scan(s, inString).value[i] == '\''
  {
    if inString && "''" <= s {
      InsideSkips(s, true, if i < 2 then 0 else 2, i);
      if i >= 2 {
        BlankedKeepsPositions(s[2..], true, i - 2);
      } else if |s| > 2 {
        BlankedKeepsPositions(s[2..], true, 0);
      }
    } else {
      InsideSkips(s, inString, if i == 0 then 0 else 1, i);
      if |s| > 1 {
        BlankedKeepsPositions(s[1..], inString != (s[0] == '\''), if i == 0 then 0 else i - 1);
      }
    }
  }

  predicate IsLetters(word: string) {
    word != "" && forall k :: 0 <= k < |word| ==> 'A' <= word[k] <= 'Z'
  }

  /** The state does not change over a stretch without quotes. */
  lemma {:induction false} InsideConstant(s: string, inString: bool, i: nat, j: nat)
    requires i <= j <= |s| && forall k :: i <= k < j ==> s[k] != '\''
    ensures Inside(s, inString, i) == Inside(s, inString, j)
  {
    if i < j {
      InsideConstant(s, inString, i, j - 1);
      InsideNext(s, inString, j - 1);
    }
  }

  lemma {:induction false} InsideNext(s: string, inString: bool, i: nat)
    requires i < |s|
    ensures Inside(s, inString, i + 1) == (Inside(s, inString, i) != (s[i] == '\''))
  {
    if i > 0 {
      InsideNext(s[1..], inString != (s[0] == '\''), i - 1);
    }
  }

  /** Outside literals the copy is the text; inside, it shows only line ends, blanks and quotes. */
  ghost predicate IsBlanked(s: string, blanked: string) {
    |blanked| == |s| && forall k :: 0 <= k < |s| ==> BlankedChar(s, k, blanked[k])
  }

  predicate BlankedChar(s: string, k: nat, c: char)
    requires k < |s|
  {
    if s[k] == '\'' then c == '\'' || c == ' '
    else c == (if Inside(s, false, k) && s[k] != '\n' then ' ' else s[k])
  }

  lemma ScanBlanks(s: string)
    requires Scan(s, false).Ok?
    ensures IsBlanked(s, Scan(s, false).value)
  {
    if s != "" {
      BlankedKeepsPositions(s, false, 0);
    }
    forall k | 0 <= k < |s| ensures BlankedChar(s, k, Scan(s, false).value[k]) {
      BlankedKeepsPositions(s, false, k);
    }
  }

  lemma LettersStayOutside(s: string, i: nat, word: string, k: nat)
    requires LettersAt(s, i, word) && IsLetters(word) && !Inside(s, false, i) && k <= |word|
    ensures !Inside(s, false, i + k)
  {
    forall j | i <= j < i + k ensures s[j] != '\'' {
      assert Upper(s[i + (j - i)]) == word[j - i];
    }
    InsideConstant(s, false, i, i + k);
  }

  lemma LettersKept(s: string, blanked: string, i: nat, word: string)
    requires IsBlanked(s, blanked) && IsLetters(word)
    requires LettersAt(s, i, word) && !Inside(s, false, i)
    ensures LettersAt(blanked, i, word)
  {
    forall k | 0 <= k < |word| ensures Upper(blanked[i + k]) == word[k] {
      LettersStayOutside(s, i, word, k);
      assert Upper(s[i + k]) == word[k];
      assert BlankedChar(s, i + k, blanked[i + k]);
    }
  }

  lemma LettersShown(s: string, blanked: string, i: nat, word: string)
    requires IsBlanked(s, blanked) && IsLetters(word)
    requires LettersAt(blanked, i, word)
    ensures LettersAt(s, i, word) && !Inside(s, false, i)
  {
    forall k | 0 <= k < |word| ensures Upper(s[i + k]) == word[k] && !Inside(s, false, i + k) {
      assert Upper(blanked[i + k]) == word[k];
      assert BlankedChar(s, i + k, blanked[i + k]);
    }
    assert Upper(blanked[i + 0]) == word[0] && BlankedChar(s, i, blanked[i]);
  }

  /** The keyword test sees exactly the words of the text that stand outside literals: none hides, and no literal fools it. */
  lemma WordsSurvive(s: string, blanked: string, i: nat, word: string)
    requires Scan(s, false) == Ok(blanked) && IsLetters(word)
    ensures |blanked| == |s|
    ensures WordAt(blanked, i, word) <==> WordAt(s, i, word) && !Inside(s, false, i)
  {
    ScanBlanks(s);
    if LettersAt(blanked, i, word) {
      LettersShown(s, blanked, i, word);
      EdgesSurvive(s, blanked, i, word);
    } else if LettersAt(s, i, word) && !Inside(s, false, i) {
      LettersKept(s, blanked, i, word);
    }
  }

  lemma EdgesSurvive(s: string, blanked: string, i: nat, word: string)
    requires IsBlanked(s, blanked) && IsLetters(word) && LettersAt(s, i, word) && !Inside(s, false, i)
    ensures StartsWord(blanked, i) <==> StartsWord(s, i)
    ensures EndsWord(blanked, i + |word|) <==> EndsWord(s, i + |word|)
  {
    var end := i + |word|;
    if i > 0 {
      assert BlankedChar(s, i - 1, blanked[i - 1]);
      InsideNext(s, false, i - 1);
    }
    if end < |s| {
      assert BlankedChar(s, end, blanked[end]);
      LettersStayOutside(s, i, word, |word|);
    }
  }

  lemma TriggerWordsAreLetters()
    ensures IsLetters("CREATE") && IsLetters("TRIGGER") && IsLetters("TEMP") && IsLetters("TEMPORARY")
  {
  }

  // ---- what is executed ----

  predicate DashesAt(line: string, k: nat) {
    k + 2 <= |line| && line[k] == '-' && line[k + 1] == '-'
  }

  predicate OnlySpacesBefore(line: string, k: nat) {
    k <= |line| && forall j :: 0 <= j < k ==> IsSpace(line[j])
  }

  /** A comment line starts, white space aside, with two hyphens. */
  lemma CommentLineMeans(line: string)
    ensures IsCommentLine(line) <==> exists k :: OnlySpacesBefore(line, k) && DashesAt(line, k)
  {
    var before, after := TrimMeans(line);
    DashesFirst(line, before, Trim(line), after);
  }

  lemma DashesFirst(line: string, before: string, text: string, after: string)
    requires line == before + text + after && SpaceBetween(before, 0, |before|) && SpaceBetween(after, 0, |after|)
    requires text != "" ==> !IsSpace(text[0])
    ensures "--" <= text <==> exists k :: OnlySpacesBefore(line, k) && DashesAt(line, k)
  {
    var n := |before|;
    assert "--" <= text <==> DashesAt(text, 0);
    if DashesAt(text, 0) {
      assert line[n] == text[0] && line[n + 1] == text[1];
      assert OnlySpacesBefore(line, n) && DashesAt(line, n);
    }
    if m: nat :| OnlySpacesBefore(line, m) && DashesAt(line, m) {
      assert forall k :: 0 <= k < n ==> line[k] == before[k];
      assert line[m] == (text + after)[m - n];
      assert line[n] == text[0] && m == n;
      assert line[m + 1] == (text + after)[1];
    }
  }

  /** Comment lines go and all others stay, in order. */
  lemma KeptLinesMean(line: string, rest: seq<string>)
    ensures KeptLines([]) == []
    ensures KeptLines([line] + rest) ==
            (if exists k :: OnlySpacesBefore(line, k) && DashesAt(line, k) then [] else [line]) + KeptLines(rest)
  {
    CommentLineMeans(line);
    assert ([line] + rest)[1..] == rest;
  }

  /** Each piece yields its trimmed text, in order, and none if it is all white space. */
  lemma StatementsMean(piece: string, rest: seq<string>)
    ensures Statements([]) == []
    ensures Statements([piece] + rest) ==
            (if forall k :: 0 <= k < |piece| ==> IsSpace(piece[k]) then [] else [Trim(piece)]) + Statements(rest)
  {
    var before, after := TrimMeans(piece);
    assert ([piece] + rest)[1..] == rest;
    if Trim(piece) == "" {
      assert piece == before + after;
    } else {
      assert piece[|before|] == Trim(piece)[0];
    }
  }
}
