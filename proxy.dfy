/**
 * The `/proxy` endpoint: the ordered admission checks on the `url`
 * parameter, the upstream fetch, the declared-size ceiling, and the
 * streamed reply. Name resolution (`resolve`) and the upstream request
 * (`fetch`) are parameters; what the endpoint did with the upstream is part
 * of the result, so that "no request was issued" can be stated.
 */
module ProxyEndpoint {
  import opened Wrappers
  import opened Text
  import opened AddressClassifier
  import opened Url
  import opened Relay

  /** `MAX_CONTENT_LENGTH`: 1 GiB. */
  const MaxContentLength: nat := 1024 * 1024 * 1024

  /** The outcome of `requests.get(url, stream=True, ...)`. */
  datatype Upstream =
    | RequestError(detail: string)                              // `requests.RequestException`, as `str(e)`
    | Received(headers: map<string, string>, chunks: seq<Chunk>) // headers by lower-case name, body chunks

  /** The HTTP reply: status, plain-text message, headers and streamed body. */
  datatype Reply = Reply(status: nat, message: string, headers: map<string, string>, body: seq<Chunk>)

  /**
   * One call of the endpoint: the reply, the URL given to the upstream
   * request (`None` when none was issued) and whether the upstream response
   * was closed.
   */
  datatype Exchange = Exchange(reply: Reply, requested: Option<string>, upstreamClosed: bool)

  /** A reply sent without contacting the upstream. */
  function Refuse(status: nat, message: string): Exchange {
    Exchange(Reply(status, message, map[], []), None, false)
  }

  /**
   * The `content-length` guard: a non-empty declared length that reads as a
   * number above the ceiling. An absent, empty or unreadable value passes.
   */
  predicate DeclaredTooLarge(headers: map<string, string>) {
    "content-length" in headers && headers["content-length"] != ""
    && match ParseInt(headers["content-length"])
       case Some(n) => n > MaxContentLength
       case None => false
  }

  /** The scheme is one the proxy relays. */
  predicate AllowedScheme(scheme: string) {
    scheme == "http" || scheme == "https"
  }

  /** `raw_url` decoded and parsed into an http(s) URL whose host is not private. */
  predicate Admissible(rawUrl: string, resolve: string -> Option<string>) {
    match UrlParse(UnquotePlus(rawUrl))
    case None => false
    case Some(parts) => AllowedScheme(parts.scheme) && !IsPrivateIp(Hostname(parts.netloc), resolve)
  }

  /**
   * `proxy()`: missing parameter, then scheme, then private host, each
   * refused before any upstream contact; then the fetch (502 on a request
   * error), the size ceiling (413, upstream closed, no body), and otherwise
   * 200 with the whitelisted headers and the relayed body, the upstream
   * closed when the relay ends. A `ValueError` from `urlparse` is not caught
   * and becomes Flask's 500.
   */
  function Proxy(url: Option<string>, resolve: string -> Option<string>, fetch: string -> Upstream): (x: Exchange)
    ensures x.requested.Some? ==> url.Some? && Admissible(url.value, resolve)
    ensures x.requested.Some? ==> x.requested == Some(UnquotePlus(url.value))
    ensures x.requested.None? <==> x.reply.status in {400, 403, 500}
    ensures x.reply.status in {200, 400, 403, 413, 500, 502}
    ensures x.reply.status != 200 ==> x.reply.body == [] && x.reply.headers == map[]
    ensures x.upstreamClosed <==> x.reply.status in {200, 413}
  {
    if url.None? || url.value == "" then Refuse(400, "Missing url parameter")
    else
      var target := UnquotePlus(url.value);
      match UrlParse(target)
      case None => Refuse(500, "Internal Server Error")
      case Some(parts) =>
        if !AllowedScheme(parts.scheme) then Refuse(400, "Only http/https URLs are allowed")
        else if IsPrivateIp(Hostname(parts.netloc), resolve) then
          Refuse(403, "Blocked access to private/internal addresses")
        else
          match fetch(target)
          case RequestError(e) => Exchange(Reply(502, "Error fetching url: " + e, map[], []), Some(target), false)
          case Received(headers, chunks) =>
            if DeclaredTooLarge(headers) then
              Exchange(Reply(413, "File too large to proxy", map[], []), Some(target), true)
            else
              Exchange(Reply(200, "", ForwardedHeaders(headers), Relayed(chunks)), Some(target), true)
  }

  /** An absent or empty parameter is refused first. */
  lemma MissingUrl(url: Option<string>, resolve: string -> Option<string>, fetch: string -> Upstream)
    requires url.None? || url.value == ""
    ensures Proxy(url, resolve, fetch) == Refuse(400, "Missing url parameter")
  {
  }

  /** A present parameter whose decoded scheme is not http or https is refused next. */
  lemma BadScheme(raw: string, parts: UrlParts, resolve: string -> Option<string>, fetch: string -> Upstream)
    requires raw != "" && UrlParse(UnquotePlus(raw)) == Some(parts)
    requires !AllowedScheme(parts.scheme)
    ensures Proxy(Some(raw), resolve, fetch) == Refuse(400, "Only http/https URLs are allowed")
  {
  }

  /** An http(s) target whose host resolves to a private address is refused before any fetch. */
  lemma PrivateHost(raw: string, parts: UrlParts, resolve: string -> Option<string>, fetch: string -> Upstream)
    requires raw != "" && UrlParse(UnquotePlus(raw)) == Some(parts)
    requires AllowedScheme(parts.scheme) && IsPrivateIp(Hostname(parts.netloc), resolve)
    ensures Proxy(Some(raw), resolve, fetch) == Refuse(403, "Blocked access to private/internal addresses")
  {
  }

  /** A request error on an admitted target gives 502 with the error's text. */
  lemma FetchFails(raw: string, resolve: string -> Option<string>, fetch: string -> Upstream)
    requires raw != "" && Admissible(raw, resolve)
    requires fetch(UnquotePlus(raw)).RequestError?
    ensures Proxy(Some(raw), resolve, fetch).reply
         == Reply(502, "Error fetching url: " + fetch(UnquotePlus(raw)).detail, map[], [])
  {
  }

  /**
   * Once fetched, the reply is 413 with no body and the upstream closed
   * exactly when the declared length is above the ceiling; otherwise 200.
   */
  lemma SizeCeiling(raw: string, resolve: string -> Option<string>, fetch: string -> Upstream)
    requires raw != "" && Admissible(raw, resolve)
    requires fetch(UnquotePlus(raw)).Received?
    ensures var x := Proxy(Some(raw), resolve, fetch);
      (x.reply.status == 413 <==> DeclaredTooLarge(fetch(UnquotePlus(raw)).headers))
      && (x.reply.status == 413 ==> x.reply.body == [] && x.upstreamClosed)
      && (x.reply.status != 413 ==> x.reply.status == 200)
  {
  }

  /**
   * A successful reply forwards only Content-Type and Content-Length, each
   * exactly when upstream sent it, and its body holds the upstream bytes in
   * order, with no empty chunk.
   */
  lemma SuccessReply(url: Option<string>, resolve: string -> Option<string>, fetch: string -> Upstream)
    requires Proxy(url, resolve, fetch).reply.status == 200
    ensures var x := Proxy(url, resolve, fetch);
      var up := fetch(x.requested.value);
      up.Received?
      && x.reply.headers == ForwardedHeaders(up.headers)
      && x.reply.headers.Keys <= {"Content-Type", "Content-Length"}
      && Flatten(x.reply.body) == Flatten(up.chunks)
      && (forall i :: 0 <= i < |x.reply.body| ==> x.reply.body[i] != [])
  {
    var x := Proxy(url, resolve, fetch);
    var target := UnquotePlus(url.value);
    assert x.requested == Some(target);
    var parts := UrlParse(target).value;
    assert AllowedScheme(parts.scheme) && !IsPrivateIp(Hostname(parts.netloc), resolve);
    var up := fetch(target);
    assert up.Received? && !DeclaredTooLarge(up.headers);
    assert x.reply == Reply(200, "", ForwardedHeaders(up.headers), Relayed(up.chunks));
    RelayedKeepsBytes(up.chunks);
  }

  /**
   * A declared length written as a number is too large exactly when the
   * number is above the ceiling: 1073741824 passes, 1073741825 does not.
   * A numeral longer than `int()` accepts is covered by `OverlongLengthPasses`.
   */
  lemma CeilingBoundary(n: nat)
    requires |ShowDecimal(n)| <= MaxStrDigits
    ensures DeclaredTooLarge(map["content-length" := ShowDecimal(n)]) <==> n > MaxContentLength
  {
    ParseShowDecimal(n);
  }

  /**
   * A declared length of more than 4300 digits makes `int()` raise, so it
   * never blocks the request, however large it is.
   */
  lemma OverlongLengthPasses(n: nat)
    requires |ShowDecimal(n)| > MaxStrDigits
    ensures n > MaxContentLength
    ensures !DeclaredTooLarge(map["content-length" := ShowDecimal(n)])
  {
    ShowDecimalValue(n);
    OverlongNumeralRefused([], ShowDecimal(n), []);
    assert [] + ShowDecimal(n) + [] == ShowDecimal(n);
    if n <= MaxContentLength {
      ShortNumeral(n);
    }
  }

  /** A number no larger than the ceiling is printed in at most ten digits. */
  lemma ShortNumeral(n: nat)
    requires n <= MaxContentLength
    ensures |ShowDecimal(n)| <= 10
  {
    ShowDecimalLength(n, 10);
  }

  /** An absent, empty or unreadable declared length lets the request through. */
  lemma UnreadableLengthPasses(headers: map<string, string>)
    requires "content-length" in headers ==> ParseInt(headers["content-length"]).None?
    ensures !DeclaredTooLarge(headers)
  {
  }

  /** `int()` reads the declared length, so whitespace it skips does not hide a length above the ceiling. */
  lemma PaddedLength(a: string, n: nat, b: string)
    requires AllIn(a, IsIntSpace) && AllIn(b, IsIntSpace)
    requires |ShowDecimal(n)| <= MaxStrDigits
    ensures DeclaredTooLarge(map["content-length" := a + ShowDecimal(n) + b]) <==> n > MaxContentLength
  {
    ShowDecimalValue(n);
    ParseIntNumeral(a, ShowDecimal(n), b);
  }

  /**
   * A separator character \x1c to \x1f before the declared length makes
   * `int()` raise, so the request passes whatever the length.
   */
  lemma SeparatorBeforeLengthPasses(c: char, n: nat)
    requires '\U{1c}' <= c <= '\U{1f}'
    ensures !DeclaredTooLarge(map["content-length" := [c] + ShowDecimal(n)])
  {
    SeparatorBeforeNumeral(c, ShowDecimal(n));
  }

  /** A `+` sign does not hide a length above the ceiling. */
  lemma PlusSignedLength(n: nat)
    requires |ShowDecimal(n)| <= MaxStrDigits
    ensures DeclaredTooLarge(map["content-length" := ['+'] + ShowDecimal(n)]) <==> n > MaxContentLength
  {
    ShowDecimalValue(n);
    ParseIntSigned('+', ShowDecimal(n));
  }

  /** A negative length is never too large. */
  lemma NegativeLength(n: nat)
    ensures !DeclaredTooLarge(map["content-length" := ['-'] + ShowDecimal(n)])
  {
    var s := ShowDecimal(n);
    var t := ['-'] + s;
    assert t[|t| - 1] == s[|s| - 1] && t[1..] == s;
    ParseIntPadded([], t, []);
    assert [] + t + [] == t;
  }

  /** Text with neither `%` nor `+` in any part has neither in the URL built from them. */
  lemma PlainConcat(scheme: string, host: string, path: string)
    requires '%' !in scheme && '+' !in scheme && '%' !in host && '+' !in host && '%' !in path && '+' !in path
    ensures var u := scheme + "://" + host + path; '%' !in u && '+' !in u
  {
    var u := scheme + "://" + host + path;
    forall k | 0 <= k < |u| ensures u[k] != '%' && u[k] != '+' {
      if k < |scheme| {
        assert u[k] == scheme[k];
      } else if k < |scheme| + 3 {
        assert u[k] == "://"[k - |scheme|];
      } else if k < |scheme| + 3 + |host| {
        assert u[k] == host[k - |scheme| - 3];
      } else {
        assert u[k] == path[k - |scheme| - 3 - |host|];
      }
    }
  }

  /** A plainly written URL needs no decoding and parses to its own scheme and host. */
  lemma PlainTargetParses(scheme: string, host: string, path: string)
    requires scheme != [] && IsAsciiLetter(scheme[0])
    requires forall k :: 0 <= k < |scheme| ==> IsSchemeChar(scheme[k]) && !('A' <= scheme[k] <= 'Z')
    requires IsPlainHost(host) && forall k :: 0 <= k < |host| ==> !('A' <= host[k] <= 'Z')
    requires path == [] || path[0] in {'/', '?', '#'}
    requires '%' !in scheme && '+' !in scheme && '%' !in host && '+' !in host && '%' !in path && '+' !in path
    ensures UrlParse(UnquotePlus(scheme + "://" + host + path)) == Some(UrlParts(scheme, host, path))
    ensures Hostname(host) == host
  {
    PlainConcat(scheme, host, path);
    UnquotePlusPlainText(scheme + "://" + host + path);
    ParseSchemeHost(scheme, host, path);
    LowerUnchanged(scheme);
    LowerUnchanged(host);
  }

  /**
   * A plainly written http(s) URL whose host resolves to a private address
   * is refused with 403 and no upstream request.
   */
  lemma PlainPrivateTarget(scheme: string, host: string, path: string,
                           resolve: string -> Option<string>, fetch: string -> Upstream)
    requires AllowedScheme(scheme)
    requires IsPlainHost(host) && forall k :: 0 <= k < |host| ==> !('A' <= host[k] <= 'Z')
    requires '%' !in host && '+' !in host && '%' !in path && '+' !in path
    requires path == [] || path[0] in {'/', '?', '#'}
    requires IsPrivateIp(host, resolve)
    ensures Proxy(Some(scheme + "://" + host + path), resolve, fetch)
         == Refuse(403, "Blocked access to private/internal addresses")
  {
    PlainTargetParses(scheme, host, path);
    PrivateHost(scheme + "://" + host + path, UrlParts(scheme, host, path), resolve, fetch);
  }

  /** The host of `http://127.0.0.1/secret` is plain, lower-case and private. */
  lemma LoopbackHost()
    ensures IsPlainHost("127.0.0.1") && forall k :: 0 <= k < |"127.0.0.1"| ==> !('A' <= "127.0.0.1"[k] <= 'Z')
    ensures '%' !in "127.0.0.1" && '+' !in "127.0.0.1"
    ensures IsPrivateAddress("127.0.0.1")
  {
    assert StartsWith("127.0.0.1", "127.");
  }

  /** `http://127.0.0.1/secret` is an http scheme, the host and a plain path. */
  lemma LoopbackUrl()
    ensures AllowedScheme("http")
    ensures '%' !in "/secret" && '+' !in "/secret" && "/secret"[0] == '/'
    ensures "http://127.0.0.1/secret" == "http" + "://" + "127.0.0.1" + "/secret"
  {
  }

  /** `/proxy?url=http://127.0.0.1/secret` is refused with 403 when the host resolves to itself. */
  lemma LoopbackExample(resolve: string -> Option<string>, fetch: string -> Upstream)
    requires resolve("127.0.0.1") == Some("127.0.0.1")
    ensures Proxy(Some("http://127.0.0.1/secret"), resolve, fetch).reply.status == 403
    ensures Proxy(Some("http://127.0.0.1/secret"), resolve, fetch).requested == None
  {
    LoopbackHost();
    LoopbackUrl();
    PlainPrivateTarget("http", "127.0.0.1", "/secret", resolve, fetch);
  }

  /**
   * A target that decodes to text with no colon, hence no scheme, is refused
   * as a bad scheme (unless it carries a square bracket, which could make
   * parsing fail first).
   */
  lemma NoSchemeRefused(raw: string, resolve: string -> Option<string>, fetch: string -> Upstream)
    requires raw != ""
    requires ':' !in UnquotePlus(raw) && '[' !in UnquotePlus(raw) && ']' !in UnquotePlus(raw)
    ensures Proxy(Some(raw), resolve, fetch) == Refuse(400, "Only http/https URLs are allowed")
  {
    var target := UnquotePlus(raw);
    NoColonNoScheme(target);
    NoBracketsParse(target);
    BadScheme(raw, UrlParse(target).value, resolve, fetch);
  }

  /**
   * `http://[host` with no closing bracket makes `urlparse` raise, which the
   * endpoint does not catch: Flask answers 500, and nothing is resolved or
   * requested.
   */
  lemma LoneBracketServerError(host: string, path: string, resolve: string -> Option<string>, fetch: string -> Upstream)
    requires IsPlainHost(host)
    requires '%' !in host && '+' !in host && '%' !in path && '+' !in path
    requires path == [] || path[0] in {'/', '?', '#'}
    ensures Proxy(Some("http://[" + host + path), resolve, fetch) == Refuse(500, "Internal Server Error")
  {
    var raw := "http://[" + host + path;
    assert raw == "http" + "://" + ("[" + host) + path;
    PlainConcat("http", "[" + host, path);
    UnquotePlusPlainText(raw);
    LoneBracketFails(host, path);
  }

  /** An `ftp://` target is refused as a bad scheme. */
  lemma FtpRefused(host: string, path: string, resolve: string -> Option<string>, fetch: string -> Upstream)
    requires IsPlainHost(host) && forall k :: 0 <= k < |host| ==> !('A' <= host[k] <= 'Z')
    requires '%' !in host && '+' !in host && '%' !in path && '+' !in path
    requires path == [] || path[0] in {'/', '?', '#'}
    ensures Proxy(Some("ftp" + "://" + host + path), resolve, fetch) == Refuse(400, "Only http/https URLs are allowed")
  {
    PlainTargetParses("ftp", host, path);
    BadScheme("ftp" + "://" + host + path, UrlParts("ftp", host, path), resolve, fetch);
  }
}
