/** Host lists: parsing them, and matching an address or a host against them. */
module ProxyHosts {
  import opened Wrappers
  import opened StringOps
  import opened Cidr

  function LowerChar(c: char): char {
    if 'A' <= c <= 'Z' then c - 'A' + 'a' else c
  }

  function Lower(s: string): (r: string)
    ensures |r| == |s| && forall k :: 0 <= k < |s| ==> r[k] == LowerChar(s[k])
  {
    seq(|s|, k requires 0 <= k < |s| => LowerChar(s[k]))
  }

  predicate IsSeparator(c: char) {
    c == ',' || IsSpace(c)
  }

  /** The capital letters go down by 32 places, everything else stays. */
  lemma LowerCharMeans(c: char)
    ensures LowerChar(c) as int == if 65 <= c as int <= 90 then c as int + 32 else c as int
  {
  }

  lemma SeparatorMeans(c: char)
    ensures IsSeparator(c) <==> c == ',' || IsSpace(c)
  {
  }

  /** The text cut at every comma and white space character; runs of them leave empty parts, dropped below. */
  function Parts(raw: string): (parts: seq<string>)
    ensures parts != []
  {
    if raw == "" then [""]
    else if IsSeparator(raw[0]) then [""] + Parts(raw[1..])
    else Prepend([raw[0]], Parts(raw[1..]))
  }

  /** The part stands in the list at i, delimited by separators or the ends. */
  predicate StandsAt(raw: string, part: string, i: nat) {
    i + |part| <= |raw| && raw[i..i + |part|] == part &&
    (forall k :: 0 <= k < |part| ==> !IsSeparator(part[k])) &&
    (i == 0 || IsSeparator(raw[i - 1])) && (i + |part| == |raw| || IsSeparator(raw[i + |part|]))
  }

  predicate NoRepeats(tokens: seq<string>) {
    forall i, j :: 0 <= i < j < |tokens| ==> tokens[i] != tokens[j]
  }

  /** The lower-cased non-empty parts, each where it first occurs. */
  function Tokens(parts: seq<string>): seq<string> {
    if parts == [] then [] else
      var before, token := Tokens(parts[..|parts| - 1]), Lower(parts[|parts| - 1]);
      if token == "" || token in before then before else before + [token]
  }

  method ParseNoProxyHosts(raw: string) returns (tokens: seq<string>)
    ensures tokens == Tokens(Parts(raw))
    ensures forall i, j :: 0 <= i < j < |tokens| ==> tokens[i] != tokens[j]
  {
    var seen: set<string> := {};
    tokens := [];
    var parts := Parts(raw);
    for i := 0 to |parts|
      invariant tokens == Tokens(parts[..i]) && NoRepeats(tokens)
      invariant forall t :: t in seen <==> t in tokens
    {
      var token := Lower(parts[i]);
      assert parts[..i + 1][..i] == parts[..i];
      if token != "" && token !in seen {
        seen := seen + {token};
        tokens := tokens + [token];
      }
    }
    assert parts[..|parts|] == parts;
  }

  lemma {:induction false} TokensElements(parts: seq<string>, token: string)
    ensures token in Tokens(parts) <==> token != "" && exists k :: 0 <= k < |parts| && Lower(parts[k]) == token
  {
    if parts != [] {
      var before, last := parts[..|parts| - 1], parts[|parts| - 1];
      TokensElements(before, token);
      if Lower(last) != token {
        assert (exists k :: 0 <= k < |parts| && Lower(parts[k]) == token) ==>
            (exists k :: 0 <= k < |before| && Lower(before[k]) == token);
      }
      if k :| 0 <= k < |before| && Lower(before[k]) == token {
        assert parts[k] == before[k];
      }
    }
  }

  /** A part of the rest of the text stands one place further on in the text. */
  lemma StandsLater(raw: string, part: string, i: nat)
    requires raw != "" && StandsAt(raw[1..], part, i) && (i > 0 || IsSeparator(raw[0]))
    ensures StandsAt(raw, part, i + 1)
  {
    SliceOfRest(raw, i + 1, i + 1 + |part|);
  }

  lemma {:induction false} PartStands(raw: string, k: nat) returns (i: nat)
    requires k < |Parts(raw)|
    ensures StandsAt(raw, Parts(raw)[k], i) && (k == 0 <==> i == 0)
  {
    i := 0;
    if raw != "" {
      var rest := Parts(raw[1..]);
      if IsSeparator(raw[0]) {
        if k > 0 {
          i := PartStands(raw[1..], k - 1);
          StandsLater(raw, rest[k - 1], i);
          i := i + 1;
        }
      } else {
        i := PartStands(raw[1..], k);
        if k > 0 {
          StandsLater(raw, rest[k], i);
          i := i + 1;
        } else {
          assert raw[0..1 + |rest[0]|] == [raw[0]] + raw[1..][0..|rest[0]|];
        }
      }
    }
  }

  lemma StandsEarlier(raw: string, part: string, i: nat)
    requires StandsAt(raw, part, i) && i > 0
    ensures StandsAt(raw[1..], part, i - 1) && (i == 1 ==> IsSeparator(raw[0]))
  {
    SliceOfRest(raw, i, i + |part|);
  }

  lemma SliceOfRest(raw: string, i: nat, j: nat)
    requires 1 <= i <= j <= |raw|
    ensures raw[i..j] == raw[1..][i - 1..j - 1]
  {
    var later, earlier := raw[i..j], raw[1..][i - 1..j - 1];
    assert |later| == |earlier|;
    forall k | 0 <= k < |later| ensures later[k] == earlier[k] {
    }
  }

  lemma {:induction false} StandingIsPart(raw: string, part: string, i: nat) returns (k: nat)
    requires StandsAt(raw, part, i)
    ensures k < |Parts(raw)| && Parts(raw)[k] == part && (i == 0 <==> k == 0)
  {
    k := 0;
    if raw != "" {
      var rest := raw[1..];
      if i > 0 {
        StandsEarlier(raw, part, i);
        k := StandingIsPart(rest, part, i - 1);
        k := if IsSeparator(raw[0]) then k + 1 else k;
      } else if part != "" {
        assert part[0] == raw[0] && !IsSeparator(raw[0]);
        assert part == [raw[0]] + part[1..];
        assert rest[0..|part| - 1] == raw[0..|part|][1..];
        k := StandingIsPart(rest, part[1..], 0);
      }
    }
  }

  /** The parsed list holds exactly the lower-cased texts that stand between separators, each once. */
  lemma TokensAreDelimited(raw: string, token: string)
    requires token != ""
    ensures token in Tokens(Parts(raw)) <==> exists part, i :: StandsAt(raw, part, i) && Lower(part) == token
  {
    TokensElements(Parts(raw), token);
    if token in Tokens(Parts(raw)) {
      var k :| 0 <= k < |Parts(raw)| && Lower(Parts(raw)[k]) == token;
      var i := PartStands(raw, k);
    }
    if part, i :| StandsAt(raw, part, i) && Lower(part) == token {
      var k := StandingIsPart(raw, part, i);
    }
  }

  /** Drop the brackets around an IPv6 literal. */
  function Unbracket(host: string): string {
    if |host| >= 2 && host[0] == '[' && host[|host| - 1] == ']' then host[1..|host| - 1] else host
  }

  /** Exactly one pair of brackets around the whole goes. */
  lemma UnbracketMeans(inner: string, host: string)
    ensures Unbracket("[" + inner + "]") == inner
    ensures (forall t :: host != "[" + t + "]") ==> Unbracket(host) == host
  {
    var bracketed := "[" + inner + "]";
    assert bracketed[1..|bracketed| - 1] == inner;
    if |host| >= 2 && host[0] == '[' && host[|host| - 1] == ']' {
      assert host == "[" + host[1..|host| - 1] + "]";
    }
  }

  predicate TokenMatchesIp(num: string -> Option<int>, host: string, token: string) {
    if '/' in token then IpInCidr(num, host, token) else Unbracket(token) == host
  }

  method IpMatchesCidrList(num: string -> Option<int>, ip: string, tokens: seq<string>) returns (matches: bool)
    ensures matches <==> ip != "" && exists k :: 0 <= k < |tokens| && TokenMatchesIp(num, Lower(Unbracket(Trim(ip))), tokens[k])
  {
    if ip == "" {
      return false;
    }
    var host := Lower(Unbracket(Trim(ip)));
    for i := 0 to |tokens|
      invariant NoneMatches(num, host, tokens, i)
    {
      if '/' in tokens[i] {
        if IpInCidr(num, host, tokens[i]) {
          assert TokenMatchesIp(num, host, tokens[i]);
          return true;
        }
      } else if Unbracket(tokens[i]) == host {
        assert TokenMatchesIp(num, host, tokens[i]);
        return true;
      }
      OneMoreFails(num, host, tokens, i);
    }
    return false;
  }

  ghost predicate NoneMatches(num: string -> Option<int>, host: string, tokens: seq<string>, n: nat)
    requires n <= |tokens|
  {
    forall k :: 0 <= k < n ==> !TokenMatchesIp(num, host, tokens[k])
  }

  lemma OneMoreFails(num: string -> Option<int>, host: string, tokens: seq<string>, n: nat)
    requires n < |tokens| && NoneMatches(num, host, tokens, n) && !TokenMatchesIp(num, host, tokens[n])
    ensures NoneMatches(num, host, tokens, n + 1)
  {
  }

  const ALWAYS_BYPASS: set<string> := {"localhost", "127.0.0.1", "::1"}

  /** A token that exempts the host: a wildcard, the host itself with or without its port, a domain suffix or a range. */
  predicate TokenBypasses(num: string -> Option<int>, host: string, hostPort: string, token: string) {
    token == "*" || token == host || token == hostPort ||
    (token != "" && token[0] == '.' && (host == token[1..] || EndsWith(host, token))) ||
    ('/' in token && IpInCidr(num, host, token))
  }

  predicate EndsWith(s: string, suffix: string) {
    |suffix| <= |s| && s[|s| - |suffix|..] == suffix
  }

  /** The target's URL is parsed outside; its host is lower-cased and without brackets here. */
  method HostBypassesProxy(num: string -> Option<int>, host: string, port: string, tokens: seq<string>) returns (bypasses: bool)
    ensures bypasses <==>
            host in ALWAYS_BYPASS ||
            exists k :: 0 <= k < |tokens| && TokenBypasses(num, host, if port == "" then host else host + ":" + port, tokens[k])
  {
    var hostPort := if port == "" then host else host + ":" + port;
    if host in ALWAYS_BYPASS {
      return true;
    }
    for i := 0 to |tokens|
      invariant forall k :: 0 <= k < i ==> !TokenBypasses(num, host, hostPort, tokens[k])
    {
      var token := tokens[i];
      if token == "*" || token == host || token == hostPort {
        return true;
      }
      if token != "" && token[0] == '.' && (host == token[1..] || EndsWith(host, token)) {
        return true;
      }
      if '/' in token && IpInCidr(num, host, token) {
        return true;
      }
    }
    return false;
  }

  /** A domain token exempts the domain and every host under it, and no host that merely ends in the same letters. */
  lemma DomainSuffix(num: string -> Option<int>, host: string, port: string, domain: string)
    requires '/' !in domain && ':' !in domain
    ensures TokenBypasses(num, host, host + ":" + port, "." + domain) <==>
            host == domain || exists sub: string :: host == sub + "." + domain
  {
    var token, hostPort := "." + domain, host + ":" + port;
    assert token[1..] == domain;
    assert hostPort[|host|] == ':';
    assert token != hostPort by {
      assert forall k :: 0 <= k < |token| ==> token[k] != ':';
    }
    if EndsWith(host, token) {
      assert host == host[..|host| - |token|] + "." + domain;
    }
    if sub: string :| host == sub + "." + domain {
      assert host[|host| - |token|..] == token;
    }
  }
}
