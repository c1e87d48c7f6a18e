/** Addresses inside CIDR ranges, and the lists of hosts that bypass a proxy or a rate limit. */
module Cidr {
  import opened Wrappers
  import opened Arithmetic
  import opened BitArithmetic
  import opened StringOps
  import opened IpAddress

  datatype Family = V4 | V6

  datatype Address = Address(family: Family, value: nat)

  function Width(family: Family): nat {
    if family == V4 then 32 else 128
  }

  predicate IsAddress(a: Address) {
    a.value < Pow2(Width(a.family))
  }

  /** A literal of either family. */
  function Parse(s: string): Option<Address> {
    if ParseV4(s).Some? then Some(Address(V4, ParseV4(s).value))
    else if ParseV6(s).Some? then Some(Address(V6, ParseV6(s).value))
    else None
  }

  /** The last position of the character; the text must hold it. */
  function LastIndexOf(s: string, c: char): (i: nat)
    requires c in s
    ensures i < |s| && s[i] == c && c !in s[i + 1..]
  {
    if s[|s| - 1] == c then |s| - 1 else
      assert s == s[..|s| - 1] + [s[|s| - 1]];
      var i := LastIndexOf(s[..|s| - 1], c);
      assert s[i + 1..] == s[..|s| - 1][i + 1..] + [s[|s| - 1]];
      i
  }

  predicate SameUnderMask(a: int, b: int, width: nat, prefix: nat)
    requires prefix <= width
  {
    BitAnd(a, Mask(width, prefix)) == BitAnd(b, Mask(width, prefix))
  }

  /** The range test; num reads the text after the slash as an integer, if it is one. */
  predicate IpInCidr(num: string -> Option<int>, host: string, token: string)
    requires '/' in token
  {
    var slash := LastIndexOf(token, '/');
    var base, prefix := token[..slash], num(token[slash + 1..]);
    if prefix.None? || prefix.value < 0 then false
    else if ParseV4(base).Some? then
      ParseV4(host).Some? && prefix.value <= 32 && SameUnderMask(ParseV4(host).value, ParseV4(base).value, 32, prefix.value)
    else if ParseV6(base).Some? then
      ParseV6(host).Some? && prefix.value <= 128 && SameUnderMask(ParseV6(host).value, ParseV6(base).value, 128, prefix.value)
    else false
  }

  /** The two addresses are of one family and agree on their top bits. */
  predicate SameNetwork(a: Address, b: Address, prefix: nat) {
    a.family == b.family && prefix <= Width(a.family) &&
    a.value / Pow2(Width(a.family) - prefix) == b.value / Pow2(Width(a.family) - prefix)
  }

  /** No text is a literal of both families: a colon is never part of an IPv4 literal. */
  lemma FamiliesAreDisjoint(s: string)
    requires ParseV4(s).Some?
    ensures ParseV6(s).None?
  {
    var parts := Split(s, '.');
    forall k | 0 <= k < |parts| ensures ':' !in parts[k] {
      assert IsOctet(parts[k]);
      assert IsDecimalPart(parts[k]);
    }
    JoinSplit(s, '.');
    JoinHolds(parts, '.', ':');
  }

  lemma {:induction false} JoinHolds(pieces: seq<string>, separator: char, c: char)
    requires c != separator && forall k :: 0 <= k < |pieces| ==> c !in pieces[k]
    ensures c !in Join(pieces, separator)
  {
    if |pieces| > 1 {
      JoinHolds(pieces[1..], separator, c);
    }
  }

  lemma V4InRange(s: string)
    requires ParseV4(s).Some?
    ensures IsAddress(Address(V4, ParseV4(s).value))
  {
    var digits := Octets(Split(s, '.'));
    assert Pow2(8) == 256;
    PositionalBound(digits, 8);
    assert 8 * |digits| == Width(V4);
  }

  lemma V6InRange(s: string)
    requires ParseV6(s).Some?
    ensures IsAddress(Address(V6, ParseV6(s).value))
  {
    var digits := HexGroups(Expand(s).value);
    PositionalBound(digits, 16);
    assert 16 * |digits| == Width(V6);
  }

  /** Comparing under the mask is comparing the top bits. */
  lemma MaskDecides(a: Address, b: Address, prefix: nat)
    requires IsAddress(a) && IsAddress(b) && a.family == b.family && prefix <= Width(a.family)
    ensures SameUnderMask(a.value, b.value, Width(a.family), prefix) <==> SameNetwork(a, b, prefix)
  {
    MaskedEqualIff(a.value, b.value, Width(a.family), prefix);
  }

  lemma {:induction false} SlashFound(base: string, suffix: string)
    requires '/' !in suffix
    ensures LastIndexOf(base + "/" + suffix, '/') == |base|
  {
    var token := base + "/" + suffix;
    assert token[|base|] == '/';
    if suffix == "" {
      assert token[|token| - 1] == '/';
    } else {
      var shorter := suffix[..|suffix| - 1];
      SlashFound(base, shorter);
      assert token[..|token| - 1] == base + "/" + shorter;
      assert token[|token| - 1] == suffix[|suffix| - 1];
    }
  }

  /** What the range test is about: both texts are literals of one family that agree on their top `prefix` bits. */
  predicate InRange(host: string, base: string, prefix: Option<int>) {
    Parse(host).Some? && Parse(base).Some? && prefix.Some? && prefix.value >= 0 &&
    SameNetwork(Parse(host).value, Parse(base).value, prefix.value)
  }

  /** The mask arithmetic decides exactly that. */
  lemma InCidrMeans(num: string -> Option<int>, host: string, base: string, suffix: string)
    requires '/' !in suffix
    ensures IpInCidr(num, host, base + "/" + suffix) <==> InRange(host, base, num(suffix))
  {
    SlashFound(base, suffix);
    var token := base + "/" + suffix;
    assert token[..|base|] == base && token[|base| + 1..] == suffix;
    var prefix := num(suffix);
    if prefix.Some? && prefix.value >= 0 {
      if ParseV4(base).Some? {
        FamiliesAreDisjoint(base);
        V4Decides(host, base, prefix.value);
      } else if ParseV6(base).Some? {
        V6Decides(host, base, prefix.value);
      }
    }
  }

  lemma V4Decides(host: string, base: string, prefix: nat)
    requires ParseV4(base).Some?
    ensures ParseV4(host).Some? && prefix <= 32 && SameUnderMask(ParseV4(host).value, ParseV4(base).value, 32, prefix) <==>
            InRange(host, base, Some(prefix))
  {
    V4InRange(base);
    if ParseV4(host).Some? {
      V4InRange(host);
      if prefix <= 32 {
        MaskDecides(Address(V4, ParseV4(host).value), Address(V4, ParseV4(base).value), prefix);
      }
    }
  }

  lemma V6Decides(host: string, base: string, prefix: nat)
    requires ParseV4(base).None? && ParseV6(base).Some?
    ensures ParseV6(host).Some? && prefix <= 128 && SameUnderMask(ParseV6(host).value, ParseV6(base).value, 128, prefix) <==>
            InRange(host, base, Some(prefix))
  {
    V6InRange(base);
    if ParseV4(host).Some? {
      FamiliesAreDisjoint(host);
    } else if ParseV6(host).Some? {
      V6InRange(host);
      if prefix <= 128 {
        MaskDecides(Address(V6, ParseV6(host).value), Address(V6, ParseV6(base).value), prefix);
      }
    }
  }

  /** For a fixed prefix, lying in each other's range is an equivalence on the literals of a family. */
  lemma RangeIsEquivalence(a: string, b: string, c: string, prefix: Option<int>)
    ensures InRange(a, a, prefix) <==>
            Parse(a).Some? && prefix.Some? && 0 <= prefix.value <= Width(Parse(a).value.family)
    ensures InRange(a, b, prefix) ==> InRange(b, a, prefix)
    ensures InRange(a, b, prefix) && InRange(b, c, prefix) ==> InRange(a, c, prefix)
  {
  }

  /** A range with a shorter prefix contains the range with the longer one. */
  lemma ShorterPrefixContains(num: string -> Option<int>, host: string, base: string, long: string, short: string)
    requires '/' !in long && '/' !in short && num(short).Some?
    requires IpInCidr(num, host, base + "/" + long) && 0 <= num(short).value && num(long).Some? && num(short).value <= num(long).value
    ensures IpInCidr(num, host, base + "/" + short)
  {
    InCidrMeans(num, host, base, long);
    InCidrMeans(num, host, base, short);
    InRangeOfShorter(host, base, num(long).value, num(short).value);
  }

  lemma InRangeOfShorter(host: string, base: string, long: nat, short: nat)
    requires InRange(host, base, Some(long)) && short <= long
    ensures InRange(host, base, Some(short))
  {
    var a, b := Parse(host).value, Parse(base).value;
    FewerBitsAgree(a.value, b.value, Width(a.family) - long, long - short);
  }
}
