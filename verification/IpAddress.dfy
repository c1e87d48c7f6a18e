/** IPv4 and IPv6 literals as integers. */
module IpAddress {
  import opened Wrappers
  import opened Arithmetic
  import opened BitArithmetic
  import opened StringOps

  predicate IsDigit(c: char) {
    '0' <= c <= '9'
  }

  predicate IsHexDigit(c: char) {
    IsDigit(c) || 'a' <= c <= 'f'
  }

  predicate IsDecimalPart(part: string) {
    1 <= |part| <= 3 && forall k :: 0 <= k < |part| ==> IsDigit(part[k])
  }

  predicate IsHexGroup(group: string) {
    1 <= |group| <= 4 && forall k :: 0 <= k < |group| ==> IsHexDigit(group[k])
  }

  function DigitValue(c: char): nat
    requires IsHexDigit(c)
  {
    if IsDigit(c) then c as int - '0' as int else 10 + (c as int - 'a' as int)
  }

  function Decimal(s: string): (n: nat)
    requires forall k :: 0 <= k < |s| ==> IsDigit(s[k])
  {
    if s == "" then 0 else 10 * Decimal(s[..|s| - 1]) + DigitValue(s[|s| - 1])
  }

  function Hex(s: string): (n: nat)
    requires forall k :: 0 <= k < |s| ==> IsHexDigit(s[k])
    ensures n < Pow2(4 * |s|)
  {
    if s == "" then 0 else
      Pow2Adds(4, 4 * (|s| - 1));
      assert Pow2(4) == 16;
      16 * Hex(s[..|s| - 1]) + DigitValue(s[|s| - 1])
  }

  const DIGITS := "0123456789abcdef"

  /** One of the first n digits, in the order of their values. */
  predicate IsOneOf(n: nat, c: char)
    requires n <= 16
  {
    exists v :: 0 <= v < n && DIGITS[v] == c
  }

  /** What counts as a digit, and what it is worth. */
  lemma DigitsMean(c: char)
    ensures IsHexDigit(c) <==> IsOneOf(16, c)
    ensures IsDigit(c) <==> IsOneOf(10, c)
    ensures IsHexDigit(c) ==> DigitValue(c) < 16 && DIGITS[DigitValue(c)] == c
  {
    if IsHexDigit(c) {
      assert DIGITS[DigitValue(c)] == c;
    }
  }

  lemma PartsMean(part: string)
    ensures IsDecimalPart(part) <==> |part| in {1, 2, 3} && forall k :: 0 <= k < |part| ==> IsOneOf(10, part[k])
    ensures IsHexGroup(part) <==> |part| in {1, 2, 3, 4} && forall k :: 0 <= k < |part| ==> IsOneOf(16, part[k])
  {
    forall k | 0 <= k < |part|
      ensures IsDigit(part[k]) <==> IsOneOf(10, part[k])
      ensures IsHexDigit(part[k]) <==> IsOneOf(16, part[k])
    {
      DigitsMean(part[k]);
    }
  }

  /** A part and a group read as numbers. */
  lemma NumbersMean(s: string)
    ensures IsDecimalPart(s) ==>
              Decimal(s) == if |s| == 1 then DigitValue(s[0])
                            else if |s| == 2 then 10 * DigitValue(s[0]) + DigitValue(s[1])
                            else 100 * DigitValue(s[0]) + 10 * DigitValue(s[1]) + DigitValue(s[2])
    ensures IsHexGroup(s) ==>
              Hex(s) == if |s| == 1 then DigitValue(s[0])
                        else if |s| == 2 then 16 * DigitValue(s[0]) + DigitValue(s[1])
                        else if |s| == 3 then 256 * DigitValue(s[0]) + 16 * DigitValue(s[1]) + DigitValue(s[2])
                        else 4096 * DigitValue(s[0]) + 256 * DigitValue(s[1]) + 16 * DigitValue(s[2]) + DigitValue(s[3])
  {
    if IsHexGroup(s) {
      assert s[..1][..0] == "" && Hex(s[..1]) == DigitValue(s[0]);
      assert |s| > 1 ==> s[..2][..1] == s[..1];
      assert |s| > 2 ==> s[..3][..2] == s[..2];
      assert s[..|s|] == s;
    }
  }

  predicate IsOctet(part: string) {
    IsDecimalPart(part) && Decimal(part) <= 255
  }

  /** Big-endian digits of `bits` bits each. */
  function Positional(digits: seq<nat>, bits: nat): (value: nat) {
    if digits == [] then 0 else Positional(digits[..|digits| - 1], bits) * Pow2(bits) + digits[|digits| - 1]
  }

  /** Shifting and or-ing in the next digit is what the place value says. */
  lemma AppendDigit(digits: seq<nat>, n: nat, bits: nat)
    requires n < Pow2(bits)
    ensures BitOr(ShiftLeft(Positional(digits, bits), bits), n) == Positional(digits + [n], bits)
  {
    OrFillsLowBits(Positional(digits, bits), n, bits);
    assert (digits + [n])[..|digits|] == digits;
  }

  lemma PlaceBound(value: nat, places: nat, base: nat, digit: nat)
    requires value < places && digit < base
    ensures value * base + digit < places * base
  {
    MulMono(base, value + 1, places);
    assert base * (value + 1) == value * base + base && base * places == places * base;
  }

  lemma {:induction false} PositionalBound(digits: seq<nat>, bits: nat)
    requires forall k :: 0 <= k < |digits| ==> digits[k] < Pow2(bits)
    ensures Positional(digits, bits) < Pow2(bits * |digits|)
  {
    if digits != [] {
      var n := |digits| - 1;
      PositionalBound(digits[..n], bits);
      assert bits * |digits| == bits * n + bits;
      Pow2Adds(bits * n, bits);
      PlaceBound(Positional(digits[..n], bits), Pow2(bits * n), Pow2(bits), digits[n]);
    }
  }

  function OctetValue(part: string): (n: nat)
    requires IsOctet(part)
    ensures n < 256
  {
    Decimal(part)
  }

  function Octets(parts: seq<string>): (digits: seq<nat>)
    requires forall k :: 0 <= k < |parts| ==> IsOctet(parts[k])
    ensures |digits| == |parts| && forall k :: 0 <= k < |parts| ==> digits[k] == OctetValue(parts[k])
  {
    seq(|parts|, k requires 0 <= k < |parts| => OctetValue(parts[k]))
  }

  function HexValue(group: string): (n: nat)
    requires IsHexGroup(group)
    ensures n < Pow2(16)
  {
    HexGroupBound(group);
    Hex(group)
  }

  lemma HexGroupBound(group: string)
    requires IsHexGroup(group)
    ensures Hex(group) < Pow2(16)
  {
    Pow2Monotone(4 * |group|, 16);
  }

  function HexGroups(groups: seq<string>): (digits: seq<nat>)
    requires forall k :: 0 <= k < |groups| ==> IsHexGroup(groups[k])
    ensures |digits| == |groups| && forall k :: 0 <= k < |groups| ==> digits[k] == HexValue(groups[k])
  {
    seq(|groups|, k requires 0 <= k < |groups| => HexValue(groups[k]))
  }

  /** Four decimal parts of at most 255, read as one number. */
  function ParseV4(ip: string): Option<nat> {
    var parts := Split(ip, '.');
    if |parts| == 4 && forall k :: 0 <= k < |parts| ==> IsOctet(parts[k]) then Some(Positional(Octets(parts), 8)) else None
  }

  /** The text cut at every "::", from the left. */
  function SplitDouble(s: string): (pieces: seq<string>)
    ensures pieces != []
  {
    if |s| < 2 then [s]
    else if s[0] == ':' && s[1] == ':' then [""] + SplitDouble(s[2..])
    else Prepend([s[0]], SplitDouble(s[1..]))
  }

  function PartGroups(half: string): seq<string> {
    if half == "" then [] else Split(half, ':')
  }

  function Zeros(n: nat): (zeros: seq<string>)
    ensures |zeros| == n && forall k :: 0 <= k < n ==> zeros[k] == "0"
  {
    seq(n, k => "0")
  }

  /** The eight groups an IPv6 literal stands for, "::" filled up with zeros. */
  function Expand(ip: string): Option<seq<string>> {
    var halves := SplitDouble(ip);
    var head := PartGroups(halves[0]);
    if ':' !in ip || |halves| > 2 then None
    else if |halves| == 1 then if |head| == 8 then Some(head) else None
    else
      var tail := PartGroups(halves[1]);
      if |head| + |tail| > 8 then None else Some(head + Zeros(8 - (|head| + |tail|)) + tail)
  }

  predicate AreHexGroups(groups: seq<string>) {
    forall k :: 0 <= k < |groups| ==> IsHexGroup(groups[k])
  }

  function ParseV6(ip: string): Option<nat> {
    match Expand(ip)
    case None => None
    case Some(groups) => if AreHexGroups(groups) then Some(Positional(HexGroups(groups), 16)) else None
  }

  lemma OneOctetMore(parts: seq<string>, i: nat)
    requires i < |parts| && forall k :: 0 <= k <= i ==> IsOctet(parts[k])
    ensures Positional(Octets(parts[..i + 1]), 8) == BitOr(ShiftLeft(Positional(Octets(parts[..i]), 8), 8), Decimal(parts[i]))
  {
    assert Pow2(8) == 256;
    AppendDigit(Octets(parts[..i]), OctetValue(parts[i]), 8);
    assert Octets(parts[..i + 1]) == Octets(parts[..i]) + [OctetValue(parts[i])];
  }

  lemma OneGroupMore(groups: seq<string>, i: nat)
    requires i < |groups| && forall k :: 0 <= k <= i ==> IsHexGroup(groups[k])
    ensures Positional(HexGroups(groups[..i + 1]), 16) ==
            BitOr(ShiftLeft(Positional(HexGroups(groups[..i]), 16), 16), HexValue(groups[i]))
  {
    HexGroupsGrow(groups, i);
    AppendDigit(HexGroups(groups[..i]), HexValue(groups[i]), 16);
  }

  lemma HexGroupsGrow(groups: seq<string>, i: nat)
    requires i < |groups| && forall k :: 0 <= k <= i ==> IsHexGroup(groups[k])
    ensures HexGroups(groups[..i + 1]) == HexGroups(groups[..i]) + [HexValue(groups[i])]
  {
  }

  method Ipv4ToInt(ip: string) returns (value: Option<nat>)
    ensures value == ParseV4(ip)
  {
    var parts := Split(ip, '.');
    if |parts| != 4 {
      return None;
    }
    var v: nat := 0;
    for i := 0 to |parts|
      invariant forall k :: 0 <= k < i ==> IsOctet(parts[k])
      invariant v == Positional(Octets(parts[..i]), 8)
    {
      if !IsDecimalPart(parts[i]) {
        return None;
      }
      var n := Decimal(parts[i]);
      if n > 255 {
        return None;
      }
      assert IsOctet(parts[i]);
      OneOctetMore(parts, i);
      v := BitOr(ShiftLeft(v, 8), n);
    }
    assert parts[..|parts|] == parts;
    return Some(v);
  }

  method GroupsToInt(groups: seq<string>) returns (value: Option<nat>)
    ensures value == if AreHexGroups(groups) then Some(Positional(HexGroups(groups), 16)) else None
  {
    var v: nat := 0;
    for i := 0 to |groups|
      invariant forall k :: 0 <= k < i ==> IsHexGroup(groups[k])
      invariant v == Positional(HexGroups(groups[..i]), 16)
    {
      if !IsHexGroup(groups[i]) {
        return None;
      }
      OneGroupMore(groups, i);
      v := BitOr(ShiftLeft(v, 16), HexValue(groups[i]));
    }
    assert groups[..|groups|] == groups;
    return Some(v);
  }

  method Ipv6ToInt(ip: string) returns (value: Option<nat>)
    ensures value == ParseV6(ip)
  {
    if ':' !in ip {
      return None;
    }
    var halves := SplitDouble(ip);
    if |halves| > 2 {
      return None;
    }
    var head := if halves[0] != "" then Split(halves[0], ':') else [];
    var tail := if |halves| == 2 && halves[1] != "" then Split(halves[1], ':') else [];
    var missing := 8 - (|head| + |tail|);
    if |halves| == 1 {
      if |head| != 8 {
        return None;
      }
    } else if missing < 0 {
      return None;
    }
    var groups := if |halves| == 2 then head + Zeros(missing) + tail else head;
    assert Expand(ip) == Some(groups);
    value := GroupsToInt(groups);
  }
}
