/** The public address of a server tunnel and the way back from a host name to its subdomain:
    `generateRandomSubdomain`, the URL built by `handleTunnel`, and `extractSubdomain`. */
module PublicUrl {

  const CHARSET := "abcdefghijklmnopqrstuvwxyz0123456789"

  function Digit(d: nat): (c: char)
    requires d < 10
    ensures '0' <= c <= '9'
  {
    '0' + d as char
  }

  /** `fmt.Sprintf("%d", n)`. */
  function Decimal(n: int): (digits: string)
    ensures digits != "" && ':' !in digits && (digits[0] == '-' <==> n < 0)
    decreases n < 0, if n < 0 then -n else n
  {
    if n < 0 then "-" + Decimal(-n)
    else if n < 10 then [Digit(n)]
    else Decimal(n / 10) + [Digit(n % 10)]
  }

  /** No two numbers are written alike. */
  lemma {:induction false} DecimalIsInjective(m: int, n: int)
    ensures Decimal(m) == Decimal(n) <==> m == n
    decreases m < 0, if m < 0 then -m else m
  {
    if Decimal(m) == Decimal(n) {
      if m < 0 && n < 0 {
        assert Decimal(m)[1..] == Decimal(-m) && Decimal(n)[1..] == Decimal(-n);
        DecimalIsInjective(-m, -n);
      } else if m >= 10 && n >= 10 {
        assert Decimal(m)[..|Decimal(m)| - 1] == Decimal(m / 10) && Decimal(n)[..|Decimal(n)| - 1] == Decimal(n / 10);
        assert Decimal(m)[|Decimal(m)| - 1] == Digit(m % 10) && Decimal(n)[|Decimal(n)| - 1] == Digit(n % 10);
        DecimalIsInjective(m / 10, n / 10);
      }
    }
  }

  /** The position of the first `c`, or the length when there is none. */
  function FirstOf(s: string, c: char): (i: nat)
    ensures i <= |s| && c !in s[..i] && (i < |s| ==> s[i] == c)
  {
    if s == "" then 0
    else if s[0] == c then 0
    else
      var i := FirstOf(s[1..], c);
      assert s[..i + 1] == [s[0]] + s[1..][..i];
      i + 1
  }

  predicate EndsWith(s: string, suffix: string) {
    |suffix| <= |s| && s[|s| - |suffix|..] == suffix
  }

  /** What `extractSubdomain` computes. */
  function Subdomain(host: string, base: string): string {
    var hostname := host[..FirstOf(host, ':')];
    if hostname == base || !EndsWith(hostname, base) || |hostname| - |base| - 1 <= 0 then ""
    else hostname[..|hostname| - |base| - 1]
  }

  method ExtractSubdomain(host: string, base: string) returns (subdomain: string)
    ensures subdomain == Subdomain(host, base)
  {
    var hostname := host;
    var idx := 0;
    while idx < |hostname| && hostname[idx] != ':'
      invariant idx <= |hostname| && ':' !in hostname[..idx]
    {
      idx := idx + 1;
    }
    FirstIsUnique(host, ':', idx);
    if idx < |hostname| {
      hostname := hostname[..idx];
    }
    assert hostname == host[..idx];
    if hostname == base {
      return "";
    }
    if !EndsWith(hostname, base) {
      return "";
    }
    var subdomainLength := |hostname| - |base| - 1;
    if subdomainLength <= 0 {
      return "";
    }
    subdomain := hostname[..subdomainLength];
  }

  lemma {:induction false} FirstIsUnique(s: string, c: char, i: nat)
    requires i <= |s| && c !in s[..i] && (i < |s| ==> s[i] == c)
    ensures i == FirstOf(s, c)
  {
    if 0 < i {
      assert s[0] == s[..i][0];
      assert s[1..][..i - 1] == s[..i][1..];
      FirstIsUnique(s[1..], c, i - 1);
    }
  }

  /** `generateRandomSubdomain`; the random indices are given. */
  method GenerateSubdomain(random: seq<nat>) returns (subdomain: string)
    requires forall i | 0 <= i < |random| :: random[i] < |CHARSET|
    ensures |subdomain| == |random|
    ensures forall i | 0 <= i < |random| :: subdomain[i] == CHARSET[random[i]]
    ensures forall c | c in subdomain :: 'a' <= c <= 'z' || '0' <= c <= '9'
    ensures ':' !in subdomain && '.' !in subdomain
  {
    var result := new char[|random|];
    for i := 0 to |random|
      invariant forall k | 0 <= k < i :: result[k] == CHARSET[random[k]]
    {
      result[i] := CHARSET[random[i]];
    }
    subdomain := result[..];
  }

  predicate IsProtocol(protocol: string) {
    protocol == "http" || protocol == "https" || protocol == "tcp"
  }

  /** The URL that `handleTunnel` answers with.  The port is decided by the protocol asked for, even when
      an https tunnel falls back to http. */
  function Url(protocol: string, subdomain: string, base: string, port: int, httpsAvailable: bool): string {
    var scheme := if protocol == "https" && !httpsAvailable then "http" else protocol;
    var url := scheme + "://" + subdomain + "." + base;
    if (protocol == "http" && port != 80) || (protocol == "https" && port != 443) then
      url + ":" + Decimal(port)
    else
      url
  }

  /** The host of a URL without a path: what follows the first "://". */
  function Authority(url: string): string {
    var i := FirstOf(url, ':');
    if i + 3 <= |url| then url[i + 3..] else ""
  }

  lemma AuthorityOf(scheme: string, rest: string)
    requires ':' !in scheme
    ensures Authority(scheme + "://" + rest) == rest
  {
    var url := scheme + "://" + rest;
    assert url[..|scheme|] == scheme;
    FirstIsUnique(url, ':', |scheme|);
  }

  lemma Regroup(a: string, b: string, c: string, d: string, e: string, f: string, g: string)
    ensures a + b + c + d + e == a + b + (c + d + e)
    ensures a + b + c + d + e + f + g == a + b + (c + d + e + f + g)
  {
  }

  /** A URL of this form tells its scheme and what follows. */
  lemma SchemesAndRests(scheme: string, rest: string, scheme': string, rest': string)
    requires ':' !in scheme && ':' !in scheme'
    ensures scheme + "://" + rest == scheme' + "://" + rest' <==> scheme == scheme' && rest == rest'
  {
    var left, right := scheme + "://" + rest, scheme' + "://" + rest';
    assert left[..|scheme|] == scheme && right[..|scheme'|] == scheme';
    FirstIsUnique(left, ':', |scheme|);
    FirstIsUnique(right, ':', |scheme'|);
    AuthorityOf(scheme, rest);
    AuthorityOf(scheme', rest');
  }

  lemma ColonAfter(s: string, i: nat, j: nat)
    requires j < |s| && s[j] == ':'
    ensures i < j ==> ':' in s[i + 1..]
  {
    if i < j {
      assert s[i + 1..][j - i - 1] == ':';
    }
  }

  /** So does a host followed by a port, whatever the host holds. */
  lemma HostsAndPorts(host: string, port: int, host': string, port': int)
    ensures host + ":" + Decimal(port) == host' + ":" + Decimal(port') <==> host == host' && port == port'
  {
    var left, right := host + ":" + Decimal(port), host' + ":" + Decimal(port');
    if left == right {
      ColonAfter(left, |host|, |host'|);
      ColonAfter(left, |host'|, |host|);
      assert left[|host| + 1..] == Decimal(port) && right[|host'| + 1..] == Decimal(port');
      assert left[..|host|] == host && right[..|host'|] == host';
      DecimalIsInjective(port, port');
    }
  }

  /** And so does a label without a dot that is followed by one. */
  lemma LabelsAndRests(head: string, rest: string, head': string, rest': string)
    requires '.' !in head && '.' !in head'
    ensures head + "." + rest == head' + "." + rest' <==> head == head' && rest == rest'
  {
    var left, right := head + "." + rest, head' + "." + rest';
    assert left[..|head|] == head && right[..|head'|] == head';
    assert left[|head| + 1..] == rest && right[|head'| + 1..] == rest';
    FirstIsUnique(left, '.', |head|);
    FirstIsUnique(right, '.', |head'|);
  }

  /** The port in the URL: none when it is the usual one of http or https, and none for tcp. */
  function PortSuffix(protocol: string, port: int): (suffix: string)
    ensures protocol == "tcp" || (protocol == "http" && port == 80) || (protocol == "https" && port == 443) ==> suffix == ""
    ensures (protocol == "http" && port != 80) || (protocol == "https" && port != 443) ==> suffix == ":" + Decimal(port)
  {
    if (protocol == "http" && port != 80) || (protocol == "https" && port != 443) then ":" + Decimal(port) else ""
  }

  lemma UrlSplits(protocol: string, subdomain: string, base: string, port: int, httpsAvailable: bool)
    requires IsProtocol(protocol)
    ensures
      var scheme := if protocol == "https" && !httpsAvailable then "http" else protocol;
      Url(protocol, subdomain, base, port, httpsAvailable) == scheme + "://" + (subdomain + "." + base + PortSuffix(protocol, port))
  {
    var scheme := if protocol == "https" && !httpsAvailable then "http" else protocol;
    Regroup(scheme, "://", subdomain, ".", base, ":", Decimal(port));
    assert subdomain + "." + base + "" == subdomain + "." + base;
    assert subdomain + "." + base + (":" + Decimal(port)) == subdomain + "." + base + ":" + Decimal(port);
  }

  /** The host in the URL: the subdomain, a dot, the base domain, and a port unless it is the usual one. */
  lemma UrlNamesTheHost(protocol: string, subdomain: string, base: string, port: int, httpsAvailable: bool)
    requires IsProtocol(protocol)
    ensures Authority(Url(protocol, subdomain, base, port, httpsAvailable)) == subdomain + "." + base + PortSuffix(protocol, port)
  {
    var scheme := if protocol == "https" && !httpsAvailable then "http" else protocol;
    UrlSplits(protocol, subdomain, base, port, httpsAvailable);
    AuthorityOf(scheme, subdomain + "." + base + PortSuffix(protocol, port));
  }

  /** Exactly which hosts lead to a subdomain: without the port, the subdomain and the base domain with one
      character in between.  `extractSubdomain` does not look at that character. */
  lemma HostsOfASubdomain(host: string, base: string, subdomain: string)
    requires subdomain != ""
    ensures
      var hostname := host[..FirstOf(host, ':')];
      Subdomain(host, base) == subdomain <==>
        |hostname| == |subdomain| + 1 + |base| && hostname == subdomain + [hostname[|subdomain|]] + base
  {
    var hostname := host[..FirstOf(host, ':')];
    if |hostname| == |subdomain| + 1 + |base| && hostname == subdomain + [hostname[|subdomain|]] + base {
      assert hostname[|hostname| - |base|..] == base;
      assert hostname[..|subdomain|] == subdomain;
    }
  }

  /** A host that is no subdomain of the base domain is still taken for one. */
  lemma TheDotIsNotChecked()
    ensures Subdomain("abcXnx.io", "nx.io") == "abc"
  {
    var host := "abcXnx.io";
    FirstIsUnique(host, ':', |host|);
    assert host[..|host|] == host;
    HostsOfASubdomain(host, "nx.io", "abc");
  }

  /** Building the URL and reading the host back undo each other exactly when the base domain holds no
      colon, whatever the protocol, the port and the certificates. */
  lemma UrlRoundTrip(protocol: string, subdomain: string, base: string, port: int, httpsAvailable: bool)
    requires IsProtocol(protocol) && subdomain != "" && ':' !in subdomain
    ensures Subdomain(Authority(Url(protocol, subdomain, base, port, httpsAvailable)), base) == subdomain
       <==> ':' !in base
  {
    var host := Authority(Url(protocol, subdomain, base, port, httpsAvailable));
    var plain := subdomain + "." + base;
    UrlNamesTheHost(protocol, subdomain, base, port, httpsAvailable);
    assert host[..|plain|] == plain;
    HostsOfASubdomain(host, base, subdomain);
    if ':' !in base {
      FirstIsUnique(host, ':', |plain|);
      assert plain[|subdomain|] == '.';
    }
    var hostname := host[..FirstOf(host, ':')];
    if Subdomain(host, base) == subdomain {
      assert base == hostname[|subdomain| + 1..];
    }
  }

  /** Distinct subdomains of one server are never reached through the same URL host. */
  lemma DistinctSubdomainsHaveDistinctHosts(
    base: string, left: string, right: string, protocol: string, other: string, port: int, port': int, tls: bool, tls': bool)
    requires ':' !in base && IsProtocol(protocol) && IsProtocol(other)
    requires left != "" && ':' !in left && right != "" && ':' !in right && left != right
    ensures Authority(Url(protocol, left, base, port, tls)) != Authority(Url(other, right, base, port', tls'))
  {
    UrlRoundTrip(protocol, left, base, port, tls);
    UrlRoundTrip(other, right, base, port', tls');
  }
}
