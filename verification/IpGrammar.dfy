/** Which texts are read as IPv6 literals, and as what. */
module IpGrammar {
  import opened Wrappers
  import opened StringOps
  import opened IpAddress

  predicate IsZeroGroup(group: string) {
    IsHexGroup(group) && HexValue(group) == 0
  }

  predicate AreZeroGroups(groups: seq<string>) {
    forall k :: 0 <= k < |groups| ==> IsZeroGroup(groups[k])
  }

  /** The groups with those from i to j written as "::". */
  function Compressed(groups: seq<string>, i: nat, j: nat): string
    requires i <= j <= |groups|
  {
    Join(groups[..i], ':') + "::" + Join(groups[j..], ':')
  }

  /** The text is the eight groups in full, or with one run of zero groups (even an empty one) compressed. */
  ghost predicate Spells(s: string, groups: seq<string>) {
    |groups| == 8 && AreHexGroups(groups) &&
    (s == Join(groups, ':') ||
     exists i, j :: 0 <= i <= j <= 8 && AreZeroGroups(groups[i..j]) && s == Compressed(groups, i, j))
  }

  predicate NoDouble(s: string) {
    forall i :: 0 <= i < |s| - 1 ==> !(s[i] == ':' && s[i + 1] == ':')
  }

  lemma NoDoubleTail(s: string)
    requires NoDouble(s) && s != ""
    ensures NoDouble(s[1..])
  {
    forall i | 0 <= i < |s[1..]| - 1 ensures !(s[1..][i] == ':' && s[1..][i + 1] == ':') {
      assert !(s[i + 1] == ':' && s[i + 1 + 1] == ':');
    }
  }

  lemma {:induction false} SplitDoubleNone(s: string)
    requires NoDouble(s)
    ensures SplitDouble(s) == [s]
  {
    if |s| >= 2 {
      NoDoubleTail(s);
      SplitDoubleNone(s[1..]);
      assert [s[0]] + s[1..] == s;
    }
  }

  lemma {:induction false} SplitDoubleOnce(head: string, tail: string)
    requires NoDouble(head) && NoDouble(tail)
    requires head != "" ==> head[|head| - 1] != ':'
    ensures SplitDouble(head + "::" + tail) == [head, tail]
  {
    var s := head + "::" + tail;
    if head == "" {
      assert s[2..] == tail;
      SplitDoubleNone(tail);
    } else {
      assert s[1..] == head[1..] + "::" + tail;
      NoDoubleTail(head);
      SplitDoubleOnce(head[1..], tail);
      assert !(s[0] == ':' && s[1] == ':') by {
        if |head| > 1 {
          assert s[0] == head[0] && s[1] == head[1];
        }
      }
      assert [head[0]] + head[1..] == head;
      assert Prepend([s[0]], [head[1..], tail]) == [head, tail];
    }
  }

  lemma {:induction false} HalvesRebuild(s: string)
    ensures |SplitDouble(s)| == 1 ==> s == SplitDouble(s)[0]
    ensures |SplitDouble(s)| == 2 ==> s == SplitDouble(s)[0] + "::" + SplitDouble(s)[1]
  {
    if |s| >= 2 {
      if s[0] == ':' && s[1] == ':' {
        HalvesRebuild(s[2..]);
        assert s == "::" + s[2..];
      } else {
        HalvesRebuild(s[1..]);
        assert s == [s[0]] + s[1..];
      }
    }
  }

  lemma HexGroupHasNoColon(group: string)
    requires IsHexGroup(group)
    ensures ':' !in group
  {
  }

  /** Joined groups never hold two colons in a row, nor end in one. */
  lemma {:induction false} JoinedGroups(groups: seq<string>)
    requires AreHexGroups(groups)
    ensures NoDouble(Join(groups, ':'))
    ensures groups != [] ==> Join(groups, ':') != "" && IsHexDigit(Join(groups, ':')[0])
    ensures groups != [] ==> IsHexDigit(Join(groups, ':')[|Join(groups, ':')| - 1])
  {
    if groups != [] {
      assert IsHexGroup(groups[0]);
      var rest := groups[1..];
      JoinedGroups(rest);
      if rest != [] {
        var s, n := Join(groups, ':'), |groups[0]|;
        assert s == groups[0] + [':'] + Join(rest, ':');
        forall i | 0 <= i < |s| - 1 ensures !(s[i] == ':' && s[i + 1] == ':') {
          if i < n {
            assert s[i] == groups[0][i];
          } else if i > n {
            assert s[i] == Join(rest, ':')[i - n - 1] && s[i + 1] == Join(rest, ':')[i - n];
          }
        }
      }
    }
  }

  lemma PartGroupsOfJoin(groups: seq<string>)
    requires AreHexGroups(groups)
    ensures PartGroups(Join(groups, ':')) == groups
  {
    if groups != [] {
      JoinedGroups(groups);
      forall k | 0 <= k < |groups| ensures ':' !in groups[k] {
        HexGroupHasNoColon(groups[k]);
      }
      SplitJoin(groups, ':');
    }
  }

  lemma FullExpands(groups: seq<string>)
    requires |groups| == 8 && AreHexGroups(groups)
    ensures Expand(Join(groups, ':')) == Some(groups)
  {
    var s := Join(groups, ':');
    JoinedGroups(groups);
    SplitDoubleNone(s);
    PartGroupsOfJoin(groups);
    assert s == groups[0] + [':'] + Join(groups[1..], ':');
    assert s[|groups[0]|] == ':';
  }

  lemma CompressedExpands(groups: seq<string>, i: nat, j: nat)
    requires |groups| == 8 && AreHexGroups(groups) && i <= j <= 8
    ensures Expand(Compressed(groups, i, j)) == Some(groups[..i] + Zeros(j - i) + groups[j..])
  {
    var s, head, tail := Compressed(groups, i, j), Join(groups[..i], ':'), Join(groups[j..], ':');
    JoinedGroups(groups[..i]);
    JoinedGroups(groups[j..]);
    SplitDoubleOnce(head, tail);
    PartGroupsOfJoin(groups[..i]);
    PartGroupsOfJoin(groups[j..]);
    assert s[|head|] == ':';
  }

  lemma ZeroGroup()
    ensures IsZeroGroup("0")
  {
    assert Hex("0") == 16 * Hex("") + 0;
  }

  /** Writing zero groups as "0" does not change the digits. */
  lemma ZerosKeepDigits(groups: seq<string>, i: nat, j: nat)
    requires |groups| == 8 && AreHexGroups(groups) && i <= j <= 8 && AreZeroGroups(groups[i..j])
    ensures AreHexGroups(groups[..i] + Zeros(j - i) + groups[j..])
    ensures HexGroups(groups[..i] + Zeros(j - i) + groups[j..]) == HexGroups(groups)
  {
    ZeroGroup();
    var filled := groups[..i] + Zeros(j - i) + groups[j..];
    forall k | 0 <= k < 8 ensures IsHexGroup(filled[k]) && HexValue(filled[k]) == HexValue(groups[k]) {
      if i <= k < j {
        assert filled[k] == "0" && groups[k] == groups[i..j][k - i];
      }
    }
    assert HexGroups(filled) == HexGroups(groups);
  }

  /** Every spelling of eight groups, in full or compressed, is read as their value. */
  lemma SpellingsAgree(s: string, groups: seq<string>)
    requires Spells(s, groups)
    ensures ParseV6(s) == Some(Positional(HexGroups(groups), 16))
  {
    if s == Join(groups, ':') {
      FullExpands(groups);
    } else {
      var i, j :| 0 <= i <= j <= 8 && AreZeroGroups(groups[i..j]) && s == Compressed(groups, i, j);
      CompressedExpands(groups, i, j);
      ZerosKeepDigits(groups, i, j);
    }
  }

  lemma PartGroupsJoin(half: string)
    ensures Join(PartGroups(half), ':') == half
  {
    JoinSplit(half, ':');
  }

  /** Whatever is read as an IPv6 literal is a spelling of the groups it expands to. */
  lemma AcceptedIsSpelling(s: string)
    requires ParseV6(s).Some?
    ensures Spells(s, Expand(s).value)
  {
    var groups, halves := Expand(s).value, SplitDouble(s);
    HalvesRebuild(s);
    PartGroupsJoin(halves[0]);
    if |halves| == 2 {
      PartGroupsJoin(halves[1]);
      ZeroGroup();
      var i, j := |PartGroups(halves[0])|, 8 - |PartGroups(halves[1])|;
      assert groups[..i] == PartGroups(halves[0]) && groups[j..] == PartGroups(halves[1]);
      assert groups[i..j] == Zeros(j - i);
      assert s == Compressed(groups, i, j);
      assert AreZeroGroups(groups[i..j]);
    }
  }

  /** The reader accepts exactly the spellings of eight hexadecimal groups, and gives their value. */
  lemma ReadsExactlySpellings(s: string, value: nat)
    ensures ParseV6(s) == Some(value) <==> exists groups :: Spells(s, groups) && value == Positional(HexGroups(groups), 16)
  {
    if ParseV6(s) == Some(value) {
      AcceptedIsSpelling(s);
      SpellingsAgree(s, Expand(s).value);
    }
    forall groups | Spells(s, groups) ensures ParseV6(s) == Some(Positional(HexGroups(groups), 16)) {
      SpellingsAgree(s, groups);
    }
  }
}
