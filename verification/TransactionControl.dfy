/** Which statements of a migration end the transaction that the migrator holds open. */
module TransactionControl {
  import opened StringOps
  import opened SqlGuard
  import opened SqlSplitter

  datatype Control = Plain | Commits | RollsBack

  function LineEnd(s: string, i: nat): (j: nat)
    requires i <= |s|
    ensures i <= j <= |s|
    decreases |s| - i
  {
    if i < |s| && s[i] != '\n' then LineEnd(s, i + 1) else i
  }

  function BlockEnd(s: string, i: nat): (j: nat)
    requires i <= |s|
    ensures i <= j <= |s|
    decreases |s| - i
  {
    if i + 2 > |s| then |s| else if s[i] == '*' && s[i + 1] == '/' then i + 2 else BlockEnd(s, i + 1)
  }

  /** Where the next token starts: past white space and comments. */
  function NextToken(s: string, i: nat): (j: nat)
    requires i <= |s|
    ensures i <= j <= |s|
    decreases |s| - i
  {
    if i == |s| then i
    else if IsSpace(s[i]) then NextToken(s, i + 1)
    else if i + 2 <= |s| && s[i] == '-' && s[i + 1] == '-' then NextToken(s, LineEnd(s, i + 2))
    else if i + 2 <= |s| && s[i] == '/' && s[i + 1] == '*' then NextToken(s, BlockEnd(s, i + 2))
    else i
  }

  /** A rollback to a savepoint leaves the transaction open. */
  predicate GoesToSavepoint(s: string, i: nat)
    requires i <= |s|
  {
    var j := NextToken(s, i);
    WordAt(s, j, "TO") || (WordAt(s, j, "TRANSACTION") && WordAt(s, NextToken(s, j + |"TRANSACTION"|), "TO"))
  }

  /** END is another spelling of COMMIT. */
  function ControlOf(statement: string): Control {
    var i := NextToken(statement, 0);
    if WordAt(statement, i, "COMMIT") || WordAt(statement, i, "END") then Commits
    else if WordAt(statement, i, "ROLLBACK") && !GoesToSavepoint(statement, i + |"ROLLBACK"|) then RollsBack
    else Plain
  }

  // ---- the reference ----

  predicate ClosesAt(s: string, k: nat) {
    k + 2 <= |s| && s[k] == '*' && s[k + 1] == '/'
  }

  /** From two hyphens to the end of the line. */
  predicate IsLineComment(s: string, i: nat, j: nat) {
    && i + 2 <= j <= |s| && s[i] == '-' && s[i + 1] == '-'
    && (forall k :: i + 2 <= k < j ==> s[k] != '\n') && (j < |s| ==> s[j] == '\n')
  }

  /** From the opening mark to the first closing one, or to the end of the text if there is none. */
  predicate IsBlockComment(s: string, i: nat, j: nat) {
    && i + 2 <= j <= |s| && s[i] == '/' && s[i + 1] == '*'
    && (forall k :: i + 2 <= k < j - 2 ==> !ClosesAt(s, k))
    && ((i + 4 <= j && ClosesAt(s, j - 2)) || (j == |s| && forall k :: i + 2 <= k < |s| ==> !ClosesAt(s, k)))
  }

  predicate IsGapItem(s: string, i: nat, j: nat) {
    (j == i + 1 <= |s| && IsSpace(s[i])) || IsLineComment(s, i, j) || IsBlockComment(s, i, j)
  }

  /** White space and comments, one after the other. */
  ghost predicate IsGap(s: string, i: nat, j: nat)
    decreases j - i
  {
    i == j <= |s| || exists m :: i < m <= j && IsGapItem(s, i, m) && IsGap(s, m, j)
  }

  /** The first thing from i on, white space and comments aside, is the word, in whatever case. */
  ghost predicate ReadsNext(s: string, i: nat, j: nat, upper: string, lower: string)
    requires |upper| == |lower|
  {
    IsGap(s, i, j) && ReadsWord(s, j, upper, lower)
  }

  lemma {:induction false} LineEndMeans(s: string, i: nat)
    requires i <= |s|
    ensures var j := LineEnd(s, i); (forall k :: i <= k < j ==> s[k] != '\n') && (j < |s| ==> s[j] == '\n')
    decreases |s| - i
  {
    if i < |s| && s[i] != '\n' {
      LineEndMeans(s, i + 1);
    }
  }

  lemma {:induction false} BlockEndMeans(s: string, i: nat)
    requires i <= |s|
    ensures var j := BlockEnd(s, i);
            && (forall k :: i <= k < j - 2 ==> !ClosesAt(s, k))
            && ((i + 2 <= j && ClosesAt(s, j - 2)) || (j == |s| && forall k :: i <= k < |s| ==> !ClosesAt(s, k)))
    decreases |s| - i
  {
    if i + 2 <= |s| && !ClosesAt(s, i) {
      BlockEndMeans(s, i + 1);
    }
  }

  /** From a position at most one white space character or comment starts, and it is skipped. */
  lemma ItemIsSkipped(s: string, i: nat, j: nat)
    requires IsGapItem(s, i, j)
    ensures j <= |s| && NextToken(s, i) == NextToken(s, j)
  {
    if IsLineComment(s, i, j) {
      LineEndMeans(s, i + 2);
      var end := LineEnd(s, i + 2);
      assert end == j;
    } else if IsBlockComment(s, i, j) {
      BlockEndMeans(s, i + 2);
      var end := BlockEnd(s, i + 2);
      assert ClosesAt(s, end - 2) || end == |s|;
      assert end == j;
    }
  }

  lemma {:induction false} NextTokenGap(s: string, i: nat)
    requires i <= |s|
    ensures IsGap(s, i, NextToken(s, i))
    decreases |s| - i
  {
    if NextToken(s, i) != i {
      var j := FirstItem(s, i);
      ItemIsSkipped(s, i, j);
      NextTokenGap(s, j);
    }
  }

  lemma FirstItem(s: string, i: nat) returns (j: nat)
    requires i <= |s| && NextToken(s, i) != i
    ensures i < j && IsGapItem(s, i, j)
  {
    if IsSpace(s[i]) {
      j := i + 1;
    } else if s[i] == '-' {
      LineEndMeans(s, i + 2);
      j := LineEnd(s, i + 2);
    } else {
      BlockEndMeans(s, i + 2);
      j := BlockEnd(s, i + 2);
    }
  }

  /** A word behind a gap is what the next token starts with. */
  lemma {:induction false} GapLeadsToToken(s: string, i: nat, j: nat)
    requires IsGap(s, i, j) && j < |s| && !IsSpace(s[j]) && s[j] != '-' && s[j] != '/'
    ensures i <= j && NextToken(s, i) == j
    decreases j - i
  {
    if i != j {
      var m :| i < m <= j && IsGapItem(s, i, m) && IsGap(s, m, j);
      GapLeadsToToken(s, m, j);
      ItemIsSkipped(s, i, m);
    }
  }

  lemma WordIsNext(s: string, i: nat, upper: string, lower: string)
    requires i <= |s| && IsPair(upper, lower) && upper != ""
    ensures forall j :: ReadsNext(s, i, j, upper, lower) <==> j == NextToken(s, i) && WordAt(s, j, upper)
  {
    NextTokenGap(s, i);
    forall j: nat ensures ReadsNext(s, i, j, upper, lower) <==> j == NextToken(s, i) && WordAt(s, j, upper) {
      WordMeans(s, j, upper, lower);
      if ReadsNext(s, i, j, upper, lower) {
        assert s[j + 0] == upper[0] || s[j + 0] == lower[0];
        GapLeadsToToken(s, i, j);
      }
    }
  }

  ghost predicate ReadsTo(s: string, i: nat) {
    exists j :: ReadsNext(s, i, j, "TO", "to")
  }

  /** TO or TRANSACTION TO comes next. */
  ghost predicate NamesSavepoint(s: string, i: nat) {
    ReadsTo(s, i) || exists j: nat :: ReadsNext(s, i, j, "TRANSACTION", "transaction") && ReadsTo(s, j + 11)
  }

  lemma SavepointMeans(s: string, i: nat)
    requires i <= |s|
    ensures GoesToSavepoint(s, i) <==> NamesSavepoint(s, i)
  {
    assert IsPair("TO", "to") && IsPair("TRANSACTION", "transaction");
    WordIsNext(s, i, "TO", "to");
    WordIsNext(s, i, "TRANSACTION", "transaction");
    var j := NextToken(s, i);
    assert WordAt(s, j, "TO") <==> ReadsNext(s, i, j, "TO", "to");
    assert WordAt(s, j, "TRANSACTION") <==> ReadsNext(s, i, j, "TRANSACTION", "transaction");
    if WordAt(s, j, "TRANSACTION") {
      WordIsNext(s, j + 11, "TO", "to");
      assert WordAt(s, NextToken(s, j + 11), "TO") <==> ReadsNext(s, j + 11, NextToken(s, j + 11), "TO", "to");
    }
  }

  /**
   * A statement commits exactly if it begins, white space and comments aside, with COMMIT or END, and rolls back exactly
   * if it begins with ROLLBACK and names no savepoint, in whatever case.
   */
  lemma ControlMeans(s: string)
    ensures ControlOf(s) == Commits <==> exists i :: ReadsNext(s, 0, i, "COMMIT", "commit") || ReadsNext(s, 0, i, "END", "end")
    ensures ControlOf(s) == RollsBack <==> exists i: nat :: ReadsNext(s, 0, i, "ROLLBACK", "rollback") && !NamesSavepoint(s, i + 8)
  {
    assert IsPair("COMMIT", "commit") && IsPair("END", "end") && IsPair("ROLLBACK", "rollback");
    WordIsNext(s, 0, "COMMIT", "commit");
    WordIsNext(s, 0, "END", "end");
    WordIsNext(s, 0, "ROLLBACK", "rollback");
    var i := NextToken(s, 0);
    if WordAt(s, i, "ROLLBACK") {
      assert Upper(s[i + 0]) == "ROLLBACK"[0] && "ROLLBACK"[0] != "COMMIT"[0] && "ROLLBACK"[0] != "END"[0];
      assert !WordAt(s, i, "COMMIT") && !WordAt(s, i, "END");
      SavepointMeans(s, i + 8);
    }
    assert ReadsNext(s, 0, i, "COMMIT", "commit") <==> WordAt(s, i, "COMMIT");
    assert ReadsNext(s, 0, i, "END", "end") <==> WordAt(s, i, "END");
    assert ReadsNext(s, 0, i, "ROLLBACK", "rollback") <==> WordAt(s, i, "ROLLBACK");
  }
}
