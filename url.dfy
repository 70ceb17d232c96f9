/**
 * What the proxy needs of `urllib.parse`: `unquote_plus` on the `url`
 * parameter, and the scheme and host name `urlparse` extracts. The parser
 * follows `urlsplit`'s rules for those two parts only (query, fragment and
 * path parameters are not separated, since the proxy never reads them).
 */
module Url {
  import opened Wrappers
  import opened Text

  // ---------------------------------------------------------------------
  // Percent-decoding
  // ---------------------------------------------------------------------

  predicate IsHexDigit(c: char) {
    IsDigit(c) || 'a' <= c <= 'f' || 'A' <= c <= 'F'
  }

  function HexValue(c: char): (v: nat)
    requires IsHexDigit(c)
    ensures v < 16
  {
    if IsDigit(c) then DigitValue(c)
    else if 'a' <= c <= 'f' then (c as int) - ('a' as int) + 10
    else (c as int) - ('A' as int) + 10
  }

  /** Upper-case hex digit, as `quote` writes it. */
  function HexChar(v: nat): (c: char)
    requires v < 16
    ensures IsHexDigit(c) && HexValue(c) == v
  {
    if v < 10 then DigitChar(v) else ('A' as int + v - 10) as char
  }

  /**
   * `unquote_plus(s)`: every `+` becomes a space and every `%` followed by
   * two hex digits becomes the character with that code; anything else,
   * a stray `%` included, is kept as it is.
   */
  function UnquotePlus(s: string): (r: string)
    ensures |r| <= |s|
    ensures r == [] <==> s == []
    decreases |s|
  {
    if s == [] then []
    else if s[0] == '+' then [' '] + UnquotePlus(s[1..])
    else if s[0] == '%' && |s| >= 3 && IsHexDigit(s[1]) && IsHexDigit(s[2]) then
      [(HexValue(s[1]) * 16 + HexValue(s[2])) as char] + UnquotePlus(s[3..])
    else [s[0]] + UnquotePlus(s[1..])
  }

  /** A parameter with neither `%` nor `+` reaches the parser as it was sent. */
  lemma {:induction false} UnquotePlusPlainText(s: string)
    requires '%' !in s && '+' !in s
    ensures UnquotePlus(s) == s
  {
    if s != [] {
      UnquotePlusPlainText(s[1..]);
      assert [s[0]] + s[1..] == s;
    }
  }

  /** The characters `quote_plus` never escapes. */
  predicate IsUnreserved(c: char) {
    IsAsciiAlnum(c) || c == '_' || c == '.' || c == '-' || c == '~'
  }

  predicate IsAscii(s: string) {
    forall i :: 0 <= i < |s| ==> s[i] as int < 128
  }

  /** `quote_plus` on one ASCII character. */
  function QuoteChar(c: char): string
    requires (c as int) < 128
  {
    if IsUnreserved(c) then [c]
    else if c == ' ' then "+"
    else ['%', HexChar(c as int / 16), HexChar(c as int % 16)]
  }

  /** `quote_plus` on ASCII text: the encoding a client is expected to apply to the target. */
  function QuotePlus(s: string): string
    requires IsAscii(s)
  {
    if s == [] then [] else QuoteChar(s[0]) + QuotePlus(s[1..])
  }

  /** Decoding undoes one encoded character, whatever follows it. */
  lemma UnquoteQuoteChar(c: char, t: string)
    requires (c as int) < 128
    ensures UnquotePlus(QuoteChar(c) + t) == [c] + UnquotePlus(t)
  {
    var q := QuoteChar(c) + t;
    if IsUnreserved(c) {
      assert q[1..] == t;
    } else if c == ' ' {
      assert q[1..] == t;
    } else {
      assert q[3..] == t;
      assert HexValue(q[1]) * 16 + HexValue(q[2]) == c as int;
    }
  }

  /** Decoding a `quote_plus`-encoded ASCII text gives the text back. */
  lemma {:induction false} UnquoteQuotePlus(s: string)
    requires IsAscii(s)
    ensures UnquotePlus(QuotePlus(s)) == s
  {
    if s != [] {
      UnquoteQuotePlus(s[1..]);
      UnquoteQuoteChar(s[0], QuotePlus(s[1..]));
      assert [s[0]] + s[1..] == s;
    }
  }

  // ---------------------------------------------------------------------
  // Splitting off scheme and network location
  // ---------------------------------------------------------------------

  /** The index of the first character of `s` that is in `stops`, or `|s|`. */
  function FindFirst(s: string, stops: set<char>): (n: nat)
    ensures n <= |s|
    ensures forall k :: 0 <= k < n ==> s[k] !in stops
    ensures n < |s| ==> s[n] in stops
  {
    if s == [] || s[0] in stops then 0 else 1 + FindFirst(s[1..], stops)
  }

  /** The text before the first `c` (`s.partition(c)[0]`). */
  function Before(s: string, c: char): string {
    s[..FindFirst(s, {c})]
  }

  /** The text after the first `c`, empty when there is none (`s.partition(c)[2]`). */
  function After(s: string, c: char): string {
    var n := FindFirst(s, {c});
    if n < |s| then s[n + 1..] else ""
  }

  /** The text after the last `c`, all of `s` when there is none (`s.rpartition(c)[2]`). */
  function AfterLast(s: string, c: char): (r: string)
    ensures c !in r
    ensures EndsWith(s, r)
    ensures |r| < |s| ==> s[|s| - |r| - 1] == c
    ensures c !in s ==> r == s
    decreases |s|
  {
    var n := FindFirst(s, {c});
    if n < |s| then
      var t := s[n + 1..];
      var r := AfterLast(t, c);
      assert s[n] == c;
      assert s[|s| - |r|..] == t[|t| - |r|..];
      assert |r| < |t| ==> s[|s| - |r| - 1] == t[|t| - |r| - 1];
      assert |r| == |t| ==> |s| - |r| - 1 == n;
      r
    else
      assert c !in s;
      s
  }

  predicate IsSchemeChar(c: char) {
    IsAsciiAlnum(c) || c == '+' || c == '-' || c == '.'
  }

  /** The scheme and network location of a URL; `rest` is what follows them. */
  datatype UrlParts = UrlParts(scheme: string, netloc: string, rest: string)

  /**
   * `urlsplit`'s scheme rule: the text before the first `:` is the scheme,
   * lower-cased, when it is non-empty, starts with a letter and holds only
   * scheme characters; otherwise the scheme is empty and nothing is consumed.
   */
  function SplitScheme(url: string): (string, string) {
    var i := FindFirst(url, {':'});
    if 0 < i < |url| && IsAsciiLetter(url[0]) && (forall k :: 0 <= k < i ==> IsSchemeChar(url[k]))
    then (Lower(url[..i]), url[i + 1..])
    else ("", url)
  }

  /**
   * `urlparse(url)`, as far as scheme and network location go: after the
   * scheme, a `//` opens a network location that runs to the first `/`, `?`
   * or `#`. `None` is the `ValueError("Invalid IPv6 URL")` raised when the
   * location holds one square bracket without the other.
   */
  function UrlParse(url: string): (r: Option<UrlParts>)
    ensures r.Some? ==> ('[' in r.value.netloc <==> ']' in r.value.netloc)
    ensures r.Some? ==> '/' !in r.value.netloc && '?' !in r.value.netloc && '#' !in r.value.netloc
  {
    var (scheme, after) := SplitScheme(url);
    if StartsWith(after, "//") then
      var tail := after[2..];
      var e := FindFirst(tail, {'/', '?', '#'});
      var netloc := tail[..e];
      assert forall k :: 0 <= k < |netloc| ==> netloc[k] !in {'/', '?', '#'};
      if ('[' in netloc) != (']' in netloc) then None
      else Some(UrlParts(scheme, netloc, tail[e..]))
    else Some(UrlParts(scheme, "", after))
  }

  /** The host of `host:port`, or of a bracketed `[address]:port`, without the port and brackets. */
  function HostPart(hostinfo: string): string {
    if '[' in hostinfo then Before(After(hostinfo, '['), ']') else Before(hostinfo, ':')
  }

  /** The host part is cut out of its text, so it holds no character the text does not. */
  lemma HostPartWithin(hostinfo: string, c: char)
    requires c !in hostinfo
    ensures c !in HostPart(hostinfo)
  {
    var host := HostPart(hostinfo);
    forall k | 0 <= k < |host| ensures host[k] != c {
      if '[' in hostinfo {
        var i := FindFirst(hostinfo, {'['});
        assert host[k] == hostinfo[i + 1 + k];
      } else {
        assert host[k] == hostinfo[k];
      }
    }
  }

  /** Lower-casing creates no `@`. */
  lemma LowerNoAt(s: string)
    requires '@' !in s
    ensures '@' !in Lower(s)
  {
    var h := Lower(s);
    forall k | 0 <= k < |h| ensures h[k] != '@' {
      assert h[k] == LowerChar(s[k]);
    }
  }

  /**
   * `parsed.hostname or ""`: user information up to the last `@` and the
   * port are dropped, a bracketed IPv6 literal loses its brackets, and the
   * result is lower-cased.
   */
  function Hostname(netloc: string): (h: string)
    ensures '@' !in h
    ensures forall k :: 0 <= k < |h| ==> !('A' <= h[k] <= 'Z')
  {
    var hostinfo := AfterLast(netloc, '@');
    HostPartWithin(hostinfo, '@');
    LowerNoAt(HostPart(hostinfo));
    Lower(HostPart(hostinfo))
  }

  /** The scheme is empty or a lower-case run of scheme characters read off the front of the URL. */
  lemma SchemeShape(url: string)
    ensures var (scheme, after) := SplitScheme(url);
      (scheme == "" && after == url)
      || (scheme != "" && |scheme| < |url| && url[|scheme|] == ':' && after == url[|scheme| + 1..]
          && scheme == Lower(url[..|scheme|]) && ':' !in scheme)
  {
  }

  /** Text without a colon has no scheme. */
  lemma NoColonNoScheme(url: string)
    requires ':' !in url
    ensures SplitScheme(url) == ("", url)
    ensures forall p :: UrlParse(url) == Some(p) ==> p.scheme == ""
  {
  }

  /** Only a network location with a lone square bracket makes parsing fail. */
  lemma NoBracketsParse(url: string)
    requires '[' !in url && ']' !in url
    ensures UrlParse(url).Some?
  {
    var (scheme, after) := SplitScheme(url);
    assert forall c :: c in after ==> c in url;
    if StartsWith(after, "//") {
      var tail := after[2..];
      var netloc := tail[..FindFirst(tail, {'/', '?', '#'})];
      assert forall c :: c in netloc ==> c in tail;
      assert forall c :: c in tail ==> c in after;
    }
  }

  /** A host name free of URL delimiters. */
  predicate IsPlainHost(host: string) {
    forall k :: 0 <= k < |host| ==> host[k] !in {':', '/', '?', '#', '@', '[', ']'}
  }

  /** `FindFirst` is pinned down by its contract. */
  lemma {:induction false} FindFirstIs(s: string, stops: set<char>, n: nat)
    requires n <= |s|
    requires forall k :: 0 <= k < n ==> s[k] !in stops
    requires n == |s| || s[n] in stops
    ensures FindFirst(s, stops) == n
  {
    if n > 0 {
      FindFirstIs(s[1..], stops, n - 1);
    }
  }

  /** Text with no upper-case ASCII letter is its own lower case. */
  lemma LowerUnchanged(s: string)
    requires forall k :: 0 <= k < |s| ==> !('A' <= s[k] <= 'Z')
    ensures Lower(s) == s
  {
  }

  /** A plain host name is its own host name, lower-cased. */
  lemma PlainHostname(host: string)
    requires IsPlainHost(host)
    ensures Hostname(host) == Lower(host)
  {
    assert '@' !in host && '[' !in host;
    FindFirstIs(host, {'@'}, |host|);
    FindFirstIs(host, {':'}, |host|);
  }

  /** The text after the last `c` is whatever follows a `c` with none after it. */
  lemma {:induction false} AfterLastOf(x: string, c: char, y: string)
    requires c !in y
    ensures AfterLast(x + [c] + y, c) == y
    decreases |x|
  {
    var s := x + [c] + y;
    var n := FindFirst(s, {c});
    assert s[|x|] == c;
    if n < |x| {
      assert s[n + 1..] == x[n + 1..] + [c] + y;
      AfterLastOf(x[n + 1..], c, y);
    } else {
      assert s[n + 1..] == y;
    }
  }

  /** `host:port` with a plain host and a numeric port: no `@`, no bracket, and the host part is the host. */
  lemma HostAndPort(host: string, port: string)
    requires IsPlainHost(host) && AllDigits(port)
    ensures var hostinfo := host + ":" + port;
      '@' !in hostinfo && '[' !in hostinfo && HostPart(hostinfo) == host
  {
    var hostinfo := host + ":" + port;
    forall k | 0 <= k < |hostinfo| ensures hostinfo[k] != '@' && hostinfo[k] != '[' {
      if k < |host| {
        assert hostinfo[k] == host[k];
      } else if k > |host| {
        assert hostinfo[k] == port[k - |host| - 1];
        assert IsDigit(port[k - |host| - 1]);
      }
    }
    forall k | 0 <= k < |host| ensures hostinfo[k] !in {':'} {
      assert hostinfo[k] == host[k];
    }
    FindFirstIs(hostinfo, {':'}, |host|);
    assert hostinfo[..|host|] == host;
  }

  /**
   * User information and a port around a plain host are dropped: the host
   * name of `user@host:port` is the host, lower-cased, whatever the user
   * part holds (another `@` included).
   */
  lemma HostnameUserPort(user: string, host: string, port: string)
    requires IsPlainHost(host) && AllDigits(port)
    ensures Hostname(user + "@" + host + ":" + port) == Lower(host)
  {
    var hostinfo := host + ":" + port;
    assert user + "@" + host + ":" + port == user + ['@'] + hostinfo;
    HostAndPort(host, port);
    AfterLastOf(user, '@', hostinfo);
  }

  /** A valid scheme followed by a colon is split off the front. */
  lemma SplitSchemeOf(scheme: string, after: string)
    requires scheme != [] && IsAsciiLetter(scheme[0])
    requires forall k :: 0 <= k < |scheme| ==> IsSchemeChar(scheme[k])
    ensures SplitScheme(scheme + ":" + after) == (Lower(scheme), after)
  {
    var url := scheme + ":" + after;
    assert url == scheme + ([':'] + after);
    var i := |scheme|;
    assert url[..i] == scheme && url[i] == ':' && url[i + 1..] == after;
    forall k | 0 <= k < i ensures url[k] !in {':'} && IsSchemeChar(url[k]) {
      assert url[k] == scheme[k];
    }
    FindFirstIs(url, {':'}, i);
    assert IsAsciiLetter(url[0]);
  }

  /** After `//`, a plain host followed by a delimiter or nothing is the network location. */
  lemma NetlocOf(host: string, path: string)
    requires IsPlainHost(host)
    requires path == [] || path[0] in {'/', '?', '#'}
    ensures FindFirst(host + path, {'/', '?', '#'}) == |host|
  {
    var tail := host + path;
    forall k | 0 <= k < |host| ensures tail[k] !in {'/', '?', '#'} {
      assert tail[k] == host[k];
    }
    FindFirstIs(tail, {'/', '?', '#'}, |host|);
  }

  /** After `//`, `[` and a plain host followed by a delimiter or nothing are the network location. */
  lemma OpenBracketNetloc(host: string, path: string)
    requires IsPlainHost(host)
    requires path == [] || path[0] in {'/', '?', '#'}
    ensures var tail := "[" + host + path;
      FindFirst(tail, {'/', '?', '#'}) == 1 + |host|
      && tail[..1 + |host|] == "[" + host
  {
    var tail := "[" + host + path;
    forall k | 0 <= k < 1 + |host| ensures tail[k] !in {'/', '?', '#'} {
      if k > 0 {
        assert tail[k] == host[k - 1];
      }
    }
    FindFirstIs(tail, {'/', '?', '#'}, 1 + |host|);
    assert tail[..1 + |host|] == "[" + host;
  }

  /** `[` before a plain host opens a bracket that is never closed. */
  lemma OpenBracketOnly(host: string)
    requires IsPlainHost(host)
    ensures '[' in "[" + host && ']' !in "[" + host
  {
    var netloc := "[" + host;
    assert netloc[0] == '[';
    forall k | 0 <= k < |netloc| ensures netloc[k] != ']' {
      if k > 0 {
        assert netloc[k] == host[k - 1];
      }
    }
  }

  /**
   * A network location opened by `[` and never closed makes parsing fail:
   * the `ValueError("Invalid IPv6 URL")` case.
   */
  lemma LoneBracketFails(host: string, path: string)
    requires IsPlainHost(host)
    requires path == [] || path[0] in {'/', '?', '#'}
    ensures UrlParse("http://[" + host + path) == None
  {
    var tail := "[" + host + path;
    var after := "//" + tail;
    assert "http://[" + host + path == "http" + ":" + after;
    SplitSchemeOf("http", after);
    assert StartsWith(after, "//") && after[2..] == tail;
    OpenBracketNetloc(host, path);
    OpenBracketOnly(host);
  }

  /**
   * A URL written `scheme://host` followed by a path, query or fragment
   * parses to that scheme (lower-cased) and to that host, lower-cased.
   */
  lemma ParseSchemeHost(scheme: string, host: string, path: string)
    requires scheme != [] && IsAsciiLetter(scheme[0])
    requires forall k :: 0 <= k < |scheme| ==> IsSchemeChar(scheme[k])
    requires IsPlainHost(host)
    requires path == [] || path[0] in {'/', '?', '#'}
    ensures UrlParse(scheme + "://" + host + path) == Some(UrlParts(Lower(scheme), host, path))
    ensures Hostname(host) == Lower(host)
  {
    var tail := host + path;
    var after := "//" + tail;
    assert scheme + "://" + host + path == scheme + ":" + after;
    SplitSchemeOf(scheme, after);
    assert StartsWith(after, "//") && after[2..] == tail;
    NetlocOf(host, path);
    assert tail[..|host|] == host && tail[|host|..] == path;
    assert '[' !in host && ']' !in host;
    PlainHostname(host);
  }
}
