/**
 * What the migration guard accepts, told without its own matchers: no literal is open or holds a ';', and outside
 * literals there is no BEGIN, no END and no CREATE TRIGGER, each letter in either case.
 */
module SqlGuard {
  import opened Wrappers
  import opened StringOps
  import opened SqlSplitter

  // ---- the reference ----

  /** The word stands at i, each letter in either case. */
  predicate SpelledAt(s: string, i: nat, upper: string, lower: string)
    requires |upper| == |lower|
  {
    i + |upper| <= |s| && forall k :: 0 <= k < |upper| ==> s[i + k] == upper[k] || s[i + k] == lower[k]
  }

  /** Letters, digits and the underscore run words together. */
  predicate Joins(c: char) {
    c == '_' || '0' <= c <= '9' || 'a' <= c <= 'z' || 'A' <= c <= 'Z'
  }

  predicate Starts(s: string, i: nat)
    requires i <= |s|
  {
    i > 0 ==> !Joins(s[i - 1])
  }

  predicate Ends(s: string, i: nat)
    requires i <= |s|
  {
    i < |s| ==> !Joins(s[i])
  }

  predicate ReadsWord(s: string, i: nat, upper: string, lower: string)
    requires |upper| == |lower|
  {
    SpelledAt(s, i, upper, lower) && Starts(s, i) && Ends(s, i + |upper|)
  }

  predicate SpacesBetween(s: string, i: nat, j: nat) {
    i < j <= |s| && forall k :: i <= k < j ==> IsSpace(s[k])
  }

  predicate EndsInTrigger(s: string, i: nat) {
    SpelledAt(s, i, "TRIGGER", "trigger") && Ends(s, i + 7)
  }

  ghost predicate TriggerAfter(s: string, i: nat) {
    exists j :: SpacesBetween(s, i, j) && EndsInTrigger(s, j)
  }

  ghost predicate TemporaryTriggerAfter(s: string, i: nat) {
    exists j: nat :: SpacesBetween(s, i, j)
                && ((SpelledAt(s, j, "TEMP", "temp") && TriggerAfter(s, j + 4))
                    || (SpelledAt(s, j, "TEMPORARY", "temporary") && TriggerAfter(s, j + 9)))
  }

  /** CREATE TRIGGER, CREATE TEMP TRIGGER or CREATE TEMPORARY TRIGGER, with any white space between. */
  ghost predicate ReadsCreateTrigger(s: string, i: nat) {
    SpelledAt(s, i, "CREATE", "create") && Starts(s, i) && (TriggerAfter(s, i + 6) || TemporaryTriggerAfter(s, i + 6))
  }

  ghost predicate ForbidsAt(s: string, i: nat, why: Unsafe) {
    match why
    case CreateTrigger => ReadsCreateTrigger(s, i)
    case BeginKeyword => ReadsWord(s, i, "BEGIN", "begin")
    case EndKeyword => ReadsWord(s, i, "END", "end")
    case _ => false
  }

  /** It stands somewhere outside literals. */
  ghost predicate Shows(s: string, why: Unsafe) {
    exists i :: 0 <= i < |s| && ForbidsAt(s, i, why) && !Inside(s, false, i)
  }

  // ---- the matchers of the guard against it ----

  ghost predicate IsPair(upper: string, lower: string) {
    |upper| == |lower| && forall k :: 0 <= k < |upper| ==> 'A' <= upper[k] <= 'Z' && lower[k] == upper[k] - 'A' + 'a'
  }

  lemma Pairs()
    ensures IsPair("BEGIN", "begin") && IsPair("END", "end") && IsPair("CREATE", "create")
    ensures IsPair("TRIGGER", "trigger") && IsPair("TEMP", "temp") && IsPair("TEMPORARY", "temporary")
  {
  }

  lemma LettersMean(s: string, i: nat, upper: string, lower: string)
    requires IsPair(upper, lower)
    ensures LettersAt(s, i, upper) <==> SpelledAt(s, i, upper, lower)
  {
    if i + |upper| <= |s| {
      forall k | 0 <= k < |upper| ensures Upper(s[i + k]) == upper[k] <==> s[i + k] == upper[k] || s[i + k] == lower[k] {
      }
    }
  }

  lemma WordMeans(s: string, i: nat, upper: string, lower: string)
    requires IsPair(upper, lower)
    ensures WordAt(s, i, upper) <==> ReadsWord(s, i, upper, lower)
  {
    LettersMean(s, i, upper, lower);
  }

  lemma {:induction false} AfterSpacesIsUnique(s: string, i: nat, j: nat)
    requires i <= j <= |s| && (forall k :: i <= k < j ==> IsSpace(s[k])) && (j < |s| ==> !IsSpace(s[j]))
    ensures AfterSpaces(s, i) == j
    decreases j - i
  {
    if i < j {
      AfterSpacesIsUnique(s, i + 1, j);
    }
  }

  lemma {:induction false} SpacesBefore(s: string, i: nat)
    requires i <= |s|
    ensures forall k :: i <= k < AfterSpaces(s, i) ==> IsSpace(s[k])
    decreases |s| - i
  {
    if i < |s| && IsSpace(s[i]) {
      SpacesBefore(s, i + 1);
    }
  }

  /** Where a word stands after white space is where the white space ends. */
  lemma StretchIsAfterSpaces(s: string, i: nat, j: nat, upper: string, lower: string)
    requires i <= |s| && IsPair(upper, lower) && upper != ""
    requires SpelledAt(s, j, upper, lower)
    ensures SpacesBetween(s, i, j) <==> i < j == AfterSpaces(s, i)
  {
    SpacesBefore(s, i);
    assert s[j + 0] == upper[0] || s[j + 0] == lower[0];
    assert !IsSpace(s[j]);
    if SpacesBetween(s, i, j) {
      AfterSpacesIsUnique(s, i, j);
    }
  }

  lemma TriggerAfterMeans(s: string, i: nat)
    requires i <= |s|
    ensures WordAfterSpaces(s, i, "TRIGGER") <==> TriggerAfter(s, i)
  {
    Pairs();
    var j := AfterSpaces(s, i);
    LettersMean(s, j, "TRIGGER", "trigger");
    if WordAfterSpaces(s, i, "TRIGGER") {
      StretchIsAfterSpaces(s, i, j, "TRIGGER", "trigger");
      assert SpacesBetween(s, i, j) && EndsInTrigger(s, j);
    }
    if k :| SpacesBetween(s, i, k) && EndsInTrigger(s, k) {
      StretchIsAfterSpaces(s, i, k, "TRIGGER", "trigger");
    }
  }

  ghost predicate OptionAfter(s: string, i: nat, upper: string, lower: string)
    requires |upper| == |lower|
  {
    exists j: nat :: SpacesBetween(s, i, j) && SpelledAt(s, j, upper, lower) && TriggerAfter(s, j + |upper|)
  }

  lemma OptionAfterMeans(s: string, i: nat, upper: string, lower: string)
    requires i <= |s| && IsPair(upper, lower) && upper != ""
    ensures TwoWordsAfterSpaces(s, i, upper, "TRIGGER") <==> OptionAfter(s, i, upper, lower)
  {
    var j := AfterSpaces(s, i);
    LettersMean(s, j, upper, lower);
    if LettersAt(s, j, upper) {
      TriggerAfterMeans(s, j + |upper|);
      StretchIsAfterSpaces(s, i, j, upper, lower);
    }
    if k: nat :| SpacesBetween(s, i, k) && SpelledAt(s, k, upper, lower) && TriggerAfter(s, k + |upper|) {
      StretchIsAfterSpaces(s, i, k, upper, lower);
    }
  }

  lemma CreateTriggerMeans(s: string, i: nat)
    ensures CreateTriggerAt(s, i) <==> ReadsCreateTrigger(s, i)
  {
    Pairs();
    LettersMean(s, i, "CREATE", "create");
    if LettersAt(s, i, "CREATE") {
      TriggerAfterMeans(s, i + 6);
      OptionAfterMeans(s, i + 6, "TEMP", "temp");
      OptionAfterMeans(s, i + 6, "TEMPORARY", "temporary");
      TemporaryMeans(s, i + 6);
    }
  }

  lemma TemporaryMeans(s: string, i: nat)
    ensures TemporaryTriggerAfter(s, i) <==> OptionAfter(s, i, "TEMP", "temp") || OptionAfter(s, i, "TEMPORARY", "temporary")
  {
  }

  // ---- the copy shows what stands outside literals, and nothing else ----

  /** After a word outside literals, white space is the same stretch in text and copy. */
  lemma {:induction false} SpacesShown(s: string, blanked: string, i: nat)
    requires Scan(s, false) == Ok(blanked) && 0 < i <= |s| && !Inside(s, false, i) && s[i - 1] != '\''
    ensures |blanked| == |s| && AfterSpaces(blanked, i) == AfterSpaces(s, i)
    ensures !Inside(s, false, AfterSpaces(s, i))
    decreases |s| - i
  {
    ScanBlanks(s);
    if i < |s| {
      BlankedKeepsPositions(s, false, i);
      if IsSpace(s[i]) {
        InsideNext(s, false, i);
        SpacesShown(s, blanked, i + 1);
      }
    }
  }

  lemma ShownIff(s: string, blanked: string, i: nat, word: string)
    requires Scan(s, false) == Ok(blanked) && IsLetters(word)
    ensures LettersAt(blanked, i, word) <==> LettersAt(s, i, word) && !Inside(s, false, i)
  {
    ScanBlanks(s);
    if LettersAt(blanked, i, word) {
      LettersShown(s, blanked, i, word);
    } else if LettersAt(s, i, word) && !Inside(s, false, i) {
      LettersKept(s, blanked, i, word);
    }
  }

  /** The position behind a word outside literals. */
  lemma BehindWord(s: string, blanked: string, i: nat, word: string)
    requires Scan(s, false) == Ok(blanked) && IsLetters(word) && LettersAt(s, i, word) && !Inside(s, false, i)
    ensures var j := i + |word|;
            && 0 < j <= |s| && |blanked| == |s| && !Inside(s, false, j) && s[j - 1] != '\''
            && (EndsWord(blanked, j) <==> EndsWord(s, j)) && (StartsWord(blanked, i) <==> StartsWord(s, i))
  {
    ScanBlanks(s);
    EdgesSurvive(s, blanked, i, word);
    LettersStayOutside(s, i, word, |word|);
    assert Upper(s[i + (|word| - 1)]) == word[|word| - 1];
  }

  lemma WordAfterShown(s: string, blanked: string, i: nat, word: string)
    requires Scan(s, false) == Ok(blanked) && IsLetters(word) && 0 < i <= |s| == |blanked| && !Inside(s, false, i) && s[i - 1] != '\''
    ensures WordAfterSpaces(blanked, i, word) <==> WordAfterSpaces(s, i, word)
  {
    SpacesShown(s, blanked, i);
    var j := AfterSpaces(s, i);
    ShownIff(s, blanked, j, word);
    if LettersAt(s, j, word) {
      BehindWord(s, blanked, j, word);
    }
  }

  lemma TwoWordsAfterShown(s: string, blanked: string, i: nat, first: string, second: string)
    requires Scan(s, false) == Ok(blanked) && IsLetters(first) && IsLetters(second)
    requires 0 < i <= |s| == |blanked| && !Inside(s, false, i) && s[i - 1] != '\''
    ensures TwoWordsAfterSpaces(blanked, i, first, second) <==> TwoWordsAfterSpaces(s, i, first, second)
  {
    SpacesShown(s, blanked, i);
    var j := AfterSpaces(s, i);
    ShownIff(s, blanked, j, first);
    if LettersAt(s, j, first) {
      BehindWord(s, blanked, j, first);
      WordAfterShown(s, blanked, j + |first|, second);
    }
  }

  lemma CreateTriggerShown(s: string, blanked: string, i: nat)
    requires Scan(s, false) == Ok(blanked)
    ensures CreateTriggerAt(blanked, i) <==> CreateTriggerAt(s, i) && !Inside(s, false, i)
  {
    TriggerWordsAreLetters();
    ShownIff(s, blanked, i, "CREATE");
    if LettersAt(s, i, "CREATE") && !Inside(s, false, i) {
      BehindWord(s, blanked, i, "CREATE");
      WordAfterShown(s, blanked, i + 6, "TRIGGER");
      TwoWordsAfterShown(s, blanked, i + 6, "TEMP", "TRIGGER");
      TwoWordsAfterShown(s, blanked, i + 6, "TEMPORARY", "TRIGGER");
    }
  }

  // ---- the guard ----

  lemma ForbiddenShown(s: string, blanked: string, i: nat, why: Unsafe)
    requires Scan(s, false) == Ok(blanked)
    ensures ForbidsAt(blanked, i, why) <==> ForbidsAt(s, i, why) && !Inside(s, false, i)
  {
    Pairs();
    match why {
      case CreateTrigger =>
        CreateTriggerShown(s, blanked, i);
        CreateTriggerMeans(s, i);
        CreateTriggerMeans(blanked, i);
      case BeginKeyword => WordShown(s, blanked, i, "BEGIN", "begin");
      case EndKeyword => WordShown(s, blanked, i, "END", "end");
      case _ =>
    }
  }

  lemma WordShown(s: string, blanked: string, i: nat, upper: string, lower: string)
    requires Scan(s, false) == Ok(blanked) && IsPair(upper, lower) && upper != "" && IsLetters(upper)
    ensures ReadsWord(blanked, i, upper, lower) <==> ReadsWord(s, i, upper, lower) && !Inside(s, false, i)
  {
    WordsSurvive(s, blanked, i, upper);
    WordMeans(s, i, upper, lower);
    WordMeans(blanked, i, upper, lower);
  }

  ghost predicate IsAt(s: string, i: nat, why: Unsafe) {
    match why
    case CreateTrigger => CreateTriggerAt(s, i)
    case BeginKeyword => WordAt(s, i, "BEGIN")
    case EndKeyword => WordAt(s, i, "END")
    case _ => false
  }

  ghost predicate Found(s: string, why: Unsafe) {
    exists i :: 0 <= i < |s| && IsAt(s, i, why)
  }

  lemma FoundMeans(s: string)
    ensures Found(s, CreateTrigger) <==> HasCreateTrigger(s)
    ensures Found(s, BeginKeyword) <==> HasWord(s, "BEGIN")
    ensures Found(s, EndKeyword) <==> HasWord(s, "END")
  {
    if i :| 0 <= i < |s| && CreateTriggerAt(s, i) {
      assert IsAt(s, i, CreateTrigger);
    }
    if i :| 0 <= i < |s| && WordAt(s, i, "BEGIN") {
      assert IsAt(s, i, BeginKeyword);
    }
    if i :| 0 <= i < |s| && WordAt(s, i, "END") {
      assert IsAt(s, i, EndKeyword);
    }
  }

  /** A test of the guard on the blanked copy finds what the text shows. */
  lemma FoundIffShown(s: string, blanked: string, why: Unsafe)
    requires Scan(s, false) == Ok(blanked) && |blanked| == |s|
    ensures Found(blanked, why) <==> Shows(s, why)
  {
    Pairs();
    forall i: nat ensures IsAt(blanked, i, why) <==> ForbidsAt(s, i, why) && !Inside(s, false, i) {
      ForbiddenShown(s, blanked, i, why);
      match why {
        case CreateTrigger => CreateTriggerMeans(blanked, i);
        case BeginKeyword => WordMeans(blanked, i, "BEGIN", "begin");
        case EndKeyword => WordMeans(blanked, i, "END", "end");
        case _ =>
      }
    }
    if i :| 0 <= i < |s| && ForbidsAt(s, i, why) && !Inside(s, false, i) {
      assert IsAt(blanked, i, why);
    }
    if Found(blanked, why) {
      var i: nat :| i < |blanked| && IsAt(blanked, i, why);
      assert ForbidsAt(s, i, why);
    }
  }

  lemma OffenderMeans(s: string, blanked: string)
    requires Scan(s, false) == Ok(blanked)
    ensures Offender(blanked) ==
            if Shows(s, CreateTrigger) then Some(CreateTrigger)
            else if Shows(s, BeginKeyword) then Some(BeginKeyword)
            else if Shows(s, EndKeyword) then Some(EndKeyword)
            else None
  {
    ScanBlanks(s);
    FoundIffShown(s, blanked, CreateTrigger);
    FoundIffShown(s, blanked, BeginKeyword);
    FoundIffShown(s, blanked, EndKeyword);
    FoundMeans(blanked);
  }

  /**
   * The guard accepts exactly the migrations in which, comment lines aside, all literals end and hold no ';', and
   * BEGIN, END and CREATE TRIGGER, in whatever case, stand only inside literals. Else it says which of these comes first.
   */
  lemma GuardMeans(sql: string)
    ensures var s := Stripped(sql);
            Guard(sql) ==
            if !NoSemicolonInside(s, false) then Some(SemicolonInLiteral)
            else if !Balanced(s) then Some(UnterminatedLiteral)
            else if Shows(s, CreateTrigger) then Some(CreateTrigger)
            else if Shows(s, BeginKeyword) then Some(BeginKeyword)
            else if Shows(s, EndKeyword) then Some(EndKeyword)
            else None
  {
    var s := Stripped(sql);
    ScanAccepts(s, false);
    if Scan(s, false).Ok? {
      OffenderMeans(s, Scan(s, false).value);
    }
  }

  // ---- letter case ----

  /** The same character, or the same letter of the alphabet in the other case. */
  predicate SameLetter(a: char, b: char) {
    a == b || ('a' <= a <= 'z' && b == a - 'a' + 'A') || ('a' <= b <= 'z' && a == b - 'a' + 'A')
  }

  predicate SameButCase(s: string, t: string) {
    |s| == |t| && forall k :: 0 <= k < |s| ==> SameLetter(s[k], t[k])
  }

  predicate AllSameButCase(a: seq<string>, b: seq<string>) {
    |a| == |b| && forall k :: 0 <= k < |a| ==> SameButCase(a[k], b[k])
  }

  lemma TailsSame(s: string, t: string, n: nat)
    requires SameButCase(s, t) && n <= |s|
    ensures SameButCase(s[n..], t[n..]) && SameButCase(s[..n], t[..n])
  {
  }

  lemma JoinedSame(a: string, b: string, c: string, d: string)
    requires SameButCase(a, b) && SameButCase(c, d)
    ensures SameButCase(a + c, b + d)
  {
  }

  lemma {:induction false} SplitSame(s: string, t: string, separator: char)
    requires SameButCase(s, t) && separator in {'\n', ';'}
    ensures AllSameButCase(Split(s, separator), Split(t, separator))
  {
    if s != "" {
      TailsSame(s, t, 1);
      SplitSame(s[1..], t[1..], separator);
      assert SameLetter(s[0], t[0]);
      JoinedSame([s[0]], [t[0]], Split(s[1..], separator)[0], Split(t[1..], separator)[0]);
    }
  }

  lemma SpaceSame(a: char, b: char)
    requires SameLetter(a, b)
    ensures IsSpace(a) <==> IsSpace(b)
  {
  }

  lemma {:induction false} TrimStartSame(s: string, t: string)
    requires SameButCase(s, t)
    ensures SameButCase(TrimStart(s), TrimStart(t))
  {
    if s != "" {
      SpaceSame(s[0], t[0]);
      if IsSpace(s[0]) {
        TailsSame(s, t, 1);
        TrimStartSame(s[1..], t[1..]);
      }
    }
  }

  lemma {:induction false} TrimEndSame(s: string, t: string)
    requires SameButCase(s, t)
    ensures SameButCase(TrimEnd(s), TrimEnd(t))
  {
    if s != "" {
      SpaceSame(s[|s| - 1], t[|s| - 1]);
      if IsSpace(s[|s| - 1]) {
        TailsSame(s, t, |s| - 1);
        TrimEndSame(s[..|s| - 1], t[..|s| - 1]);
      }
    }
  }

  lemma DashesSame(a: string, b: string)
    requires SameButCase(a, b)
    ensures "--" <= a <==> "--" <= b
  {
    assert |a| >= 2 ==> SameLetter(a[0], b[0]) && SameLetter(a[1], b[1]);
    assert "--" <= a <==> |a| >= 2 && a[0] == '-' && a[1] == '-';
    assert "--" <= b <==> |b| >= 2 && b[0] == '-' && b[1] == '-';
  }

  lemma CommentSame(s: string, t: string)
    requires SameButCase(s, t)
    ensures IsCommentLine(s) <==> IsCommentLine(t)
  {
    TrimStartSame(s, t);
    TrimEndSame(TrimStart(s), TrimStart(t));
    DashesSame(Trim(s), Trim(t));
  }

  lemma {:induction false} KeptSame(a: seq<string>, b: seq<string>)
    requires AllSameButCase(a, b)
    ensures AllSameButCase(KeptLines(a), KeptLines(b))
  {
    if a != [] {
      CommentSame(a[0], b[0]);
      KeptSame(a[1..], b[1..]);
    }
  }

  lemma {:induction false} JoinSame(a: seq<string>, b: seq<string>)
    requires AllSameButCase(a, b)
    ensures SameButCase(Join(a, '\n'), Join(b, '\n'))
  {
    if |a| > 1 {
      JoinSame(a[1..], b[1..]);
      JoinedSame(a[0] + ['\n'], b[0] + ['\n'], Join(a[1..], '\n'), Join(b[1..], '\n'));
    }
  }

  lemma StrippedSame(s: string, t: string)
    requires SameButCase(s, t)
    ensures SameButCase(Stripped(s), Stripped(t))
  {
    SplitSame(s, t, '\n');
    KeptSame(Split(s, '\n'), Split(t, '\n'));
    JoinSame(KeptLines(Split(s, '\n')), KeptLines(Split(t, '\n')));
  }

  predicate SameScan(a: Result<string, Unsafe>, b: Result<string, Unsafe>) {
    match a
    case Ok(s) => b.Ok? && SameButCase(s, b.value)
    case Err(e) => b == Err(e)
  }

  lemma {:induction false} ScanSame(s: string, t: string, inString: bool)
    requires SameButCase(s, t)
    ensures SameScan(Scan(s, inString), Scan(t, inString))
  {
    if s != "" {
      assert SameLetter(s[0], t[0]) && (|s| > 1 ==> SameLetter(s[1], t[1]));
      assert "''" <= s <==> |s| > 1 && s[0] == '\'' && s[1] == '\'';
      assert "''" <= t <==> |t| > 1 && t[0] == '\'' && t[1] == '\'';
      if inString && "''" <= s {
        TailsSame(s, t, 2);
        ScanSame(s[2..], t[2..], true);
      } else {
        TailsSame(s, t, 1);
        ScanSame(s[1..], t[1..], inString != (s[0] == '\''));
      }
    }
  }

  lemma LettersSame(s: string, t: string, i: nat, word: string)
    requires SameButCase(s, t)
    ensures LettersAt(s, i, word) <==> LettersAt(t, i, word)
  {
    if i + |word| <= |s| {
      forall k | 0 <= k < |word| ensures Upper(s[i + k]) == word[k] <==> Upper(t[i + k]) == word[k] {
        assert SameLetter(s[i + k], t[i + k]);
      }
    }
  }

  lemma EdgesSame(s: string, t: string, i: nat)
    requires SameButCase(s, t) && i <= |s|
    ensures (StartsWord(s, i) <==> StartsWord(t, i)) && (EndsWord(s, i) <==> EndsWord(t, i))
  {
    assert i > 0 ==> SameLetter(s[i - 1], t[i - 1]);
    assert i < |s| ==> SameLetter(s[i], t[i]);
  }

  lemma {:induction false} AfterSpacesSame(s: string, t: string, i: nat)
    requires SameButCase(s, t) && i <= |s|
    ensures AfterSpaces(s, i) == AfterSpaces(t, i)
    decreases |s| - i
  {
    if i < |s| {
      assert SameLetter(s[i], t[i]);
      AfterSpacesSame(s, t, i + 1);
    }
  }

  lemma HasWordSame(s: string, t: string, word: string)
    requires SameButCase(s, t)
    ensures HasWord(s, word) <==> HasWord(t, word)
  {
    forall i: nat ensures WordAt(s, i, word) <==> WordAt(t, i, word) {
      LettersSame(s, t, i, word);
      if LettersAt(s, i, word) {
        EdgesSame(s, t, i);
        EdgesSame(s, t, i + |word|);
      }
    }
  }

  lemma WordAfterSame(s: string, t: string, i: nat, word: string)
    requires SameButCase(s, t) && i <= |s|
    ensures WordAfterSpaces(s, i, word) <==> WordAfterSpaces(t, i, word)
  {
    AfterSpacesSame(s, t, i);
    var j := AfterSpaces(s, i);
    LettersSame(s, t, j, word);
    if LettersAt(s, j, word) {
      EdgesSame(s, t, j + |word|);
    }
  }

  lemma TwoWordsAfterSame(s: string, t: string, i: nat, first: string, second: string)
    requires SameButCase(s, t) && i <= |s|
    ensures TwoWordsAfterSpaces(s, i, first, second) <==> TwoWordsAfterSpaces(t, i, first, second)
  {
    AfterSpacesSame(s, t, i);
    var j := AfterSpaces(s, i);
    LettersSame(s, t, j, first);
    if LettersAt(s, j, first) {
      WordAfterSame(s, t, j + |first|, second);
    }
  }

  lemma CreateTriggerSame(s: string, t: string, i: nat)
    requires SameButCase(s, t)
    ensures CreateTriggerAt(s, i) <==> CreateTriggerAt(t, i)
  {
    LettersSame(s, t, i, "CREATE");
    if LettersAt(s, i, "CREATE") {
      EdgesSame(s, t, i);
      WordAfterSame(s, t, i + 6, "TRIGGER");
      TwoWordsAfterSame(s, t, i + 6, "TEMP", "TRIGGER");
      TwoWordsAfterSame(s, t, i + 6, "TEMPORARY", "TRIGGER");
    }
  }

  lemma OffenderSame(s: string, t: string)
    requires SameButCase(s, t)
    ensures Offender(s) == Offender(t)
  {
    HasWordSame(s, t, "BEGIN");
    HasWordSame(s, t, "END");
    forall i: nat ensures CreateTriggerAt(s, i) <==> CreateTriggerAt(t, i) {
      CreateTriggerSame(s, t, i);
    }
  }

  /** Two migrations that differ only in the case of letters get the same answer, reason included. */
  lemma GuardIgnoresCase(sql: string, other: string)
    requires SameButCase(sql, other)
    ensures Guard(sql) == Guard(other)
  {
    StrippedSame(sql, other);
    ScanSame(Stripped(sql), Stripped(other), false);
    if Scan(Stripped(sql), false).Ok? {
      OffenderSame(Scan(Stripped(sql), false).value, Scan(Stripped(other), false).value);
    }
  }
}
