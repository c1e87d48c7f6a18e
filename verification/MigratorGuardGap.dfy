/**
 * A migration file that the guard accepts although it ends the transaction: the guard looks for BEGIN and END,
 * while the documentation also rules out COMMIT.
 */
module MigratorGuardGap {
  import opened Wrappers
  import opened StringOps
  import opened SqlSplitter
  import opened TransactionControl
  import opened Migrator
  import opened MigratorProtocol
  import opened MigratorAtomicity

  const SCRIPT := "A;COMMIT;B"
  const PIECES := ["A", "COMMIT", "B"]

  /** A text without quotes and without the letter E has nothing for the guard to refuse. */
  predicate IsHarmless(s: string) {
    forall i :: 0 <= i < |s| ==> s[i] != '\'' && Upper(s[i]) != 'E'
  }

  lemma {:induction false} HarmlessScans(s: string)
    requires IsHarmless(s)
    ensures Scan(s, false) == Ok(s)
  {
    if s != "" {
      HarmlessScans(s[1..]);
      assert s == [s[0]] + s[1..];
    }
  }

  lemma HarmlessHasNot(s: string, word: string, j: nat)
    requires IsHarmless(s) && j < |word| && word[j] == 'E'
    ensures forall i :: !LettersAt(s, i, word)
  {
    forall i: nat ensures !LettersAt(s, i, word) {
      if i + |word| <= |s| {
        assert Upper(s[i + j]) != word[j];
      }
    }
  }

  lemma HarmlessHasNoWord(s: string, word: string, j: nat)
    requires IsHarmless(s) && j < |word| && word[j] == 'E'
    ensures !HasWord(s, word)
  {
    HarmlessHasNot(s, word, j);
  }

  lemma HarmlessHasNoPhrase(s: string, i: nat, first: string, last: string, option: string, longOption: string, j: nat)
    requires IsHarmless(s) && j < |first| && first[j] == 'E'
    ensures !PhraseAt(s, i, first, last, option, longOption)
  {
    HarmlessHasNot(s, first, j);
  }

  lemma HarmlessHasNoTrigger(s: string)
    requires IsHarmless(s)
    ensures !HasCreateTrigger(s)
  {
    forall i: nat ensures !CreateTriggerAt(s, i) {
      HarmlessHasNoPhrase(s, i, "CREATE", "TRIGGER", "TEMP", "TEMPORARY", 2);
    }
  }

  lemma HarmlessHasNoOffender(s: string)
    requires IsHarmless(s)
    ensures Offender(s) == None
  {
    HarmlessHasNoTrigger(s);
    HarmlessHasNoWord(s, "BEGIN", 1);
    HarmlessHasNoWord(s, "END", 0);
  }

  /** A text without white space. */
  predicate IsSolid(s: string) {
    forall i :: 0 <= i < |s| ==> !IsSpace(s[i])
  }

  lemma SolidIsTrimmed(s: string)
    requires IsSolid(s)
    ensures Trim(s) == s
  {
  }

  lemma {:induction false} SolidPieces(pieces: seq<string>)
    requires forall k :: 0 <= k < |pieces| ==> pieces[k] != "" && IsSolid(pieces[k])
    ensures Statements(pieces) == pieces
  {
    if pieces != [] {
      SolidPieces(pieces[1..]);
      SolidPiece(pieces[0], pieces[1..]);
      assert [pieces[0]] + pieces[1..] == pieces;
    }
  }

  lemma SolidPiece(piece: string, rest: seq<string>)
    requires piece != "" && IsSolid(piece)
    ensures Statements([piece] + rest) == [piece] + Statements(rest)
  {
    SolidIsTrimmed(piece);
    assert ([piece] + rest)[1..] == rest;
  }

  lemma OneLineIsKept(s: string)
    requires IsSolid(s) && '\n' !in s && (s == "" || s[0] != '-')
    ensures Stripped(s) == s
  {
    assert Split(s, '\n') == [s] by {
      SplitJoin([s], '\n');
      assert Join([s], '\n') == s;
    }
    assert !IsCommentLine(s) by {
      SolidIsTrimmed(s);
    }
    StripsOnlyComments(s);
  }

  lemma ScriptIsJoined()
    ensures Join(PIECES, ';') == SCRIPT && IsHarmless(SCRIPT) && IsSolid(SCRIPT)
  {
    assert Join(["B"], ';') == "B";
    assert Join(["COMMIT", "B"], ';') == "COMMIT;B";
    assert PIECES[1..] == ["COMMIT", "B"] && ["COMMIT", "B"][1..] == ["B"];
  }

  lemma PiecesAreSolid()
    ensures forall k :: 0 <= k < |PIECES| ==> PIECES[k] != "" && IsSolid(PIECES[k]) && ';' !in PIECES[k]
  {
  }

  lemma ScriptSplits(name: Name, checksum: nat)
    ensures Listed(name, checksum, SCRIPT) == Migration(name, checksum, PIECES, true)
  {
    ScriptIsJoined();
    assert '\n' !in SCRIPT;
    OneLineIsKept(SCRIPT);
    HarmlessScans(SCRIPT);
    HarmlessHasNoOffender(SCRIPT);
    PiecesAreSolid();
    SplitJoin(PIECES, ';');
    SolidPieces(PIECES);
  }

  lemma OneStatementControls(name: Name, checksum: nat, i: nat, k: nat)
    ensures EndsTransaction([Migration(name, checksum, PIECES, true)], i, k) <==> i == 0 && k == 1
  {
    assert NextToken("A", 0) == NextToken("COMMIT", 0) == NextToken("B", 0) == 0;
    assert ControlOf("A") == ControlOf("B") == Plain && ControlOf("COMMIT") == Commits;
  }

  lemma ScriptIsPending(m: Migration)
    ensures ToApply([m], Db([], [])) == [m] && (m.isSafe ==> AllSafe([m])) && !HasDrift([m], [])
  {
    assert AppliedNames([]) == {};
    assert Missing([], {}) == [];
    assert Missing([m], {}) == [m] + Missing([], {});
  }

  /** The guard accepts a file that commits midway; a migration of an empty database with it can fail and leave half of it applied. */
  lemma CommitPassesTheGuard(name: Name, checksum: nat)
    ensures Listed(name, checksum, SCRIPT).isSafe
    ensures LeavesPart([Listed(name, checksum, SCRIPT)], Db([], []))
  {
    var m := Migration(name, checksum, PIECES, true);
    ScriptSplits(name, checksum);
    ScriptIsPending(m);
    forall i: nat, k: nat ensures EndsTransaction([m], i, k) <==> i == 0 && k == 1 {
      OneStatementControls(name, checksum, i, k);
    }
    assert EndsTransaction([m], 0, 1);
    PartIsLeft([m], Db([], []), 0, 1);
  }
}
