# Streaming proxy and Terabox bot: a Dafny model

The system has two programs. `proxy.py` is a Flask streaming proxy with one
endpoint, `GET /proxy?url=<target>`. `bot.py` is a Telegram bot that looks
up a direct video link for a Terabox share link, optionally fetching the page
through that proxy.

This project models the logic of both programs and proves properties of the
model:

- **Address classifier** (`classifier.dfy`). The SSRF guard `is_private_ip`
  resolves the host name and matches the address text against fixed
  prefixes. It also applies the 172.16–31 rule and the `::1` check. The
  model proves that on every IPv4 address in dotted-quad form, the guard
  blocks exactly 127/8, 10/8, 169.254/16, 192.168/16 and 172.16/12. An
  address that does not resolve is treated as not private.
- **URL handling** (`url.dfy`). `unquote_plus`, and the part of
  `urlparse` the proxy reads: the scheme, the network location and the host
  name. The model proves that decoding undoes `quote_plus` on ASCII text, and
  that a plainly written `scheme://host/path` parses to its own scheme and
  host.
- **String primitives** (`text.dfy`). `split`, `strip`, `rstrip`,
  `lower`, `str(n)` and `int(s)` as the programs use them. The model proves
  that join undoes split, that `int(str(n)) == n`, and what `int()` accepts.
- **Relay** (`relay.dfy`). The upstream response object, the
  `generate` loop that relays the body chunk by chunk and always closes the
  upstream, and the two-header whitelist.
- **The endpoint** (`proxy.dfy`). `proxy()` runs its checks in order:
  - a missing parameter gives 400;
  - a scheme other than http/https gives 400;
  - a private host gives 403;
  - a fetch error gives 502;
  - a declared length above 1 GiB gives 413;
  - otherwise the reply is 200 with the relayed body.

  For every input, the model states which reply comes back and whether the
  upstream was contacted or closed.
- **Bot helpers** (`bot.dfy`). The share-id extractor
  `extract_possible_share_id`, the proxy-base normalisation and target URL of
  `find_direct_video`, and the `startswith("http")` guard of
  `handle_message`.

Name resolution (`socket.gethostbyname`) and the upstream request
(`requests.get`) are parameters of the model. `resolve` maps a host name to
its address text, or to `None` when resolution raises. It is left
unconstrained, though `gethostbyname` returns IPv4 dotted quads only. So in
the source the `::1` branch (`proxy.py:44`) never fires: a target such as
`http://[::1]/` makes the lookup raise, counts as not private (fail-open) and
is fetched. `fetch` maps a URL to
a request error or to the received headers and body chunks. Header names are
lower-case, as `requests`' case-insensitive header dictionary looks them up.

Where the code and its intended behaviour part ways, the model follows the
code:

- The bot's target URL is the proxy base followed by the user's URL
  verbatim, with no percent-encoding (`bot.py:52`). The proxy reads `url`
  after Flask has decoded the query string once (`proxy.py:54`), and then
  decodes it a second time with `unquote_plus` (`proxy.py:60`). So a target
  holding `&` is cut short at the `&` by the query-string parsing, and one
  holding `%` or `+` can reach the upstream changed. Encoding the target once
  with `quote_plus` in the bot would not repair this, because the two
  decodings together undo more than one encoding: `http://h/a%20b`, sent
  encoded, still reaches the upstream as `http://h/a b`.
  `Url.UnquoteQuotePlus` proves only the single round trip, that
  `unquote_plus` undoes `quote_plus` on ASCII text.
- `bot.py:46-54` is indented inconsistently, and the file as written does
  not parse. The model follows the evident intent: the branch taken when a
  proxy base is configured, and the one taken when it is not.
- A `url` whose network location has one square bracket without the other
  makes `urlparse` raise `ValueError`. The proxy does not catch it, so the
  reply is Flask's 500, not the 400 for a bad scheme. `Proxy` models this as
  status 500 (`ProxyEndpoint.LoneBracketServerError`).
- The size guard reads the declared length with `int()`, which skips less
  whitespace than `str.strip()` does: a separator character `\x1c` to `\x1f`
  next to the digits makes it raise. It also refuses a numeral of more than
  4300 digits. Either way the `except` lets the request through, whatever
  the length (`ProxyEndpoint.SeparatorBeforeLengthPasses`,
  `ProxyEndpoint.OverlongLengthPasses`).
- The `try` around `unquote_plus` (`proxy.py:59-62`) cannot fail on a
  string, so the model has no failure path there.
- The unused tuple `private_prefixes` (`proxy.py:32`) plays no part. The
  172 prefix is handled by the separate second-octet rule.

## Model

| member | source | states |
|---|---|---|
| AddressClassifier.IsPrivateIp | proxy.py:25-46 | definition, no contract of its own: a name that fails to resolve is not private, otherwise its address is classified by `IsPrivateAddress`; the lemmas below state its properties |
| AddressClassifier.IsPrivateAddress | proxy.py:33-45 | definition, no contract of its own: the four literal prefixes, then the 172.16–31 rule, then `::1`, in the source's order |
| AddressClassifier.UnresolvableIsNotPrivate | proxy.py:26-30 | a host name whose resolution fails is never classified private (fail-open) |
| AddressClassifier.ListedAddressesArePrivate | proxy.py:33-34 | any address starting with 127., 10., 169.254. or 192.168. is private, whatever follows, and so is `::1` |
| AddressClassifier.Rule172 | proxy.py:36-42 | an address starting with 172. is private exactly when its second dot-separated field reads, under `int()`, as a number from 16 to 31; an unreadable or missing field means not private |
| AddressClassifier.ClassifierMatchesRanges | proxy.py:25-46 | for every IPv4 address a.b.c.d (octets below 256) printed in dotted-quad form, the classifier calls it private exactly when it lies in 127/8, 10/8, 169.254/16, 192.168/16 or 172.16/12 |
| AddressClassifier.QuadPrefixes | proxy.py:33-36 | on a dotted quad, the literal prefix tests are tests on the first octet (and on the second, for 169.254. and 192.168.) |
| AddressClassifier.DottedQuadFields | proxy.py:38 | `ip.split(".")` of a dotted quad gives its four printed octets |
| AddressClassifier.LeadingFieldPrefix | proxy.py:33 | a prefix test against a literal `k.` on text `a.R` holds exactly when a equals k and R starts with the rest of the literal |
| AddressClassifier.Examples | proxy.py:25-46 | 11.0.0.1, 192.169.0.1, 172.15.0.1 and 93.184.216.34 are not private; 172.16.0.1, 172.31.255.255 and 169.254.1.1 are |
| Text.Split | proxy.py:38 | `str.split` gives at least one field and no field contains the separator |
| Text.JoinSplit | proxy.py:38 | joining the fields of a split with the separator gives the text back |
| Text.SplitLeadingField | proxy.py:38 | a leading field free of the separator is the first field of the split |
| Text.ShowDecimalValue | proxy.py:38 | the numeral `str(n)` has value n |
| Text.ParseInt | proxy.py:90 | definition, no contract of its own: `int()` skips space and `\t` to `\r` around one optional sign and a numeral with single underscores between digits, of at most 4300 digits, and refuses anything else; the lemmas below pin it down |
| Text.ParseShowDecimal | proxy.py:38 | `int(str(n)) == n` for every natural number n printed in at most 4300 digits |
| Text.ParseIntNumeral | proxy.py:90 | `int()` reads a decimal numeral of at most 4300 digits, with any whitespace `int()` skips around it, as the numeral's value |
| Text.OverlongNumeralRefused | proxy.py:90 | `int()` refuses a numeral of more than 4300 digits, with or without whitespace around it |
| Text.SeparatorBeforeNumeral | proxy.py:90 | a separator character `\x1c` to `\x1f` is whitespace to `strip()`, yet `int()` refuses a numeral it precedes |
| Text.ParseIntSigned | proxy.py:90 | `int()` reads a numeral of at most 4300 digits after `+` as its value and after `-` as its negation |
| Text.ParseIntNeedsDigits | proxy.py:89-95 | text containing no digit is refused by `int()` (the `ValueError` path) |
| Text.Strip | bot.py:82 | `strip()` leaves no whitespace at either end of the result and removes only whitespace from either side of the text |
| Text.StripAround | bot.py:82 | stripping padding of a whitespace class off a text that has no such whitespace at its ends gives that text; it serves both `strip()` and `int()` |
| Text.RStrip | bot.py:49 | `rstrip("/")` returns a prefix that does not end in `/` and drops only `/` characters |
| Url.UnquotePlus | proxy.py:58-62 | decoding never lengthens the text, and only the empty text decodes to the empty text |
| Url.UnquotePlusPlainText | proxy.py:58-62 | a parameter without `%` or `+` is decoded to itself |
| Url.UnquoteQuotePlus | proxy.py:58-62 | decoding undoes `quote_plus` on every ASCII text |
| Url.FindFirst | proxy.py:64 | the index of the first stop character, or the length: nothing before it is a stop character |
| Url.AfterLast | proxy.py:69 | the text after the last `@` holds no `@`, ends the network location and follows an `@`; without an `@` it is the whole location |
| Url.SchemeShape | proxy.py:64-65 | the parsed scheme is empty with the URL untouched, or a lower-cased colon-free front of the URL followed by `:` |
| Url.UrlParse | proxy.py:64 | a parsed network location holds both square brackets or neither, and no `/`, `?` or `#` |
| Url.LoneBracketFails | proxy.py:64 | `http://[host` followed by a path, query, fragment or nothing, with no closing bracket, does not parse: the `ValueError("Invalid IPv6 URL")` case |
| Url.NoColonNoScheme | proxy.py:64-66 | a URL without `:` has the empty scheme |
| Url.NoBracketsParse | proxy.py:64 | a URL without square brackets always parses: the `ValueError` path needs a bracket |
| Url.ParseSchemeHost | proxy.py:64-69 | `scheme://host` followed by a path, query or fragment parses to the lower-cased scheme and the host as network location, and its host name is the host lower-cased |
| Url.Hostname | proxy.py:69 | the host name holds no `@` and no upper-case letter |
| Url.AfterLastOf | proxy.py:69 | the text after the last `@` is what follows an `@` with no `@` after it |
| Url.HostnameUserPort | proxy.py:69 | the host name of `user@host:port` is the plain host lower-cased, whatever the user part holds (another `@` included) and whatever the numeric port |
| Url.PlainHostname | proxy.py:69 | a host free of URL delimiters is its own host name, lower-cased |
| Relay.Relayed | proxy.py:100-102 | what `generate` yields never has more chunks than upstream sent; the lemmas below pin it down |
| Relay.RelayedKeepsBytes | proxy.py:100-102 | the relayed body holds exactly the upstream bytes, in order, and no relayed chunk is empty |
| Relay.RelayedAppend | proxy.py:100-102 | relaying a stream in two parts yields the two parts' chunks one after the other |
| Relay.RelayedPrefix | proxy.py:100-102 | what is yielded for a prefix of the stream is a prefix of what is yielded for the whole |
| Relay.RelayedStep | proxy.py:100-102 | pulling one more chunk yields it exactly when it is non-empty |
| Relay.UpstreamResponse.constructor | proxy.py:81 | a fresh streamed response holds its headers and its pending chunks and is not closed |
| Relay.UpstreamResponse.Close | proxy.py:92 | `r.close()` marks the response closed |
| Relay.Generate | proxy.py:98-104 | the loop consumes a prefix of the pending chunks and yields exactly their non-empty chunks. It closes the upstream on every path. The client leaves exactly when the stream holds at least as many non-empty chunks as it waits for; otherwise every chunk is relayed, and the upstream breaking at the end is reported |
| Relay.RelayOutcome | proxy.py:98-104 | how the loop ended decides whether the client left or the whole stream was relayed |
| Relay.ForwardedHeaders | proxy.py:107-111 | the reply carries only Content-Type and Content-Length, each present exactly when upstream sent it, with the upstream value |
| Relay.BuildHeadersOut | proxy.py:107-111 | filling `headers_out` header by header gives the whitelist |
| ProxyEndpoint.Proxy | proxy.py:53-113 | the upstream is requested only for an admissible URL, with the decoded URL. No request is made exactly for 400, 403 and 500. Only 200, 400, 403, 413, 500 and 502 occur. Every non-200 reply has no body and no headers. The upstream is closed exactly for 200 and 413 |
| ProxyEndpoint.MissingUrl | proxy.py:54-56 | an absent or empty `url` gives 400 "Missing url parameter" without contacting anything |
| ProxyEndpoint.BadScheme | proxy.py:64-66 | a decoded URL whose scheme is not http or https gives 400 without resolving or fetching |
| ProxyEndpoint.PrivateHost | proxy.py:68-72 | an http(s) URL whose host is private gives 403 and no upstream request |
| ProxyEndpoint.FetchFails | proxy.py:79-84 | a request error on an admitted URL gives 502 with the error text |
| ProxyEndpoint.SizeCeiling | proxy.py:86-95 | after a fetch, the reply is 413 with no body and the upstream closed exactly when the declared length is above the ceiling, and 200 otherwise |
| ProxyEndpoint.SuccessReply | proxy.py:97-113 | a 200 reply forwards exactly the whitelisted headers, and its body holds the upstream bytes in order with no empty chunk |
| ProxyEndpoint.DeclaredTooLarge | proxy.py:87-95 | definition, no contract of its own: a present, non-empty length that `int()` reads as a number above the ceiling; the lemmas below state its properties |
| ProxyEndpoint.CeilingBoundary | proxy.py:16 | a declared length n printed in at most 4300 digits is too large exactly when n > 1073741824 (1 GiB) |
| ProxyEndpoint.OverlongLengthPasses | proxy.py:89-95 | a declared length of more than 4300 digits is above the ceiling yet never blocks the request, since `int()` raises |
| ProxyEndpoint.SeparatorBeforeLengthPasses | proxy.py:89-95 | a declared length preceded by a separator character `\x1c` to `\x1f` never blocks the request, whatever its value |
| ProxyEndpoint.UnreadableLengthPasses | proxy.py:88-95 | an absent length, or one `int()` refuses, never blocks the request |
| ProxyEndpoint.PaddedLength | proxy.py:88-91 | whitespace `int()` skips (space, `\t` to `\r`) around a declared length of at most 4300 digits does not hide a length above the ceiling |
| ProxyEndpoint.PlusSignedLength | proxy.py:88-91 | a `+` sign does not hide a length of at most 4300 digits above the ceiling |
| ProxyEndpoint.NegativeLength | proxy.py:88-91 | a negative declared length never blocks the request |
| ProxyEndpoint.PlainTargetParses | proxy.py:58-69 | a plainly written lower-case `scheme://host/path` reaches the checks with its own scheme and host |
| ProxyEndpoint.PlainPrivateTarget | proxy.py:64-72 | a plainly written http(s) URL whose host resolves to a private address gives 403 |
| ProxyEndpoint.LoopbackExample | proxy.py:68-72 | `http://127.0.0.1/secret` gives 403 and no upstream request |
| ProxyEndpoint.NoSchemeRefused | proxy.py:64-66 | a target whose decoded text has no `:` and no square bracket gives 400 for its scheme |
| ProxyEndpoint.LoneBracketServerError | proxy.py:64-72 | `http://[host` with no closing bracket gives 500, since the endpoint does not catch the parser's `ValueError`, and nothing is resolved or requested |
| ProxyEndpoint.FtpRefused | proxy.py:64-66 | every plain `ftp://host/path` target gives 400 for its scheme |
| Bot.AlnumRun | bot.py:35 | the greedy `[a-zA-Z0-9]+` run: a prefix of the text, letters and digits only, and not extendable |
| Bot.ExtractPossibleShareId | bot.py:32-34 | a missing or empty URL gives no share id |
| Bot.SearchShareId | bot.py:35-36 | definition, no contract of its own: the leftmost `/s/` followed by a letter or digit, and the run after it; `SearchShareIdSound` states what it finds |
| Bot.SearchShareIdSound | bot.py:35-36 | the search finds nothing exactly when no `/s/` is followed by a letter or digit; otherwise it returns the leftmost, maximal capture |
| Bot.ShareIdUnique | bot.py:35 | the regex's capture is unique |
| Bot.ExtractShareIdCharacterised | bot.py:32-36 | the extractor returns `id` exactly when `id` is the capture of `/s/([a-zA-Z0-9]+)` at its leftmost match |
| Bot.ShareIdExamples | bot.py:32-36 | no id for None, "" and "/s/"; "Ab1" for "/s/Ab1?" |
| Bot.NormaliseProxyBase | bot.py:47-51 | the normalised base always ends in `?url=`, and a base that already does is kept |
| Bot.NormaliseProxyBaseIdempotent | bot.py:47-51 | normalising twice is normalising once |
| Bot.NormaliseProxyBaseAppends | bot.py:48-49 | any other base loses exactly its trailing `/` characters and gains `/proxy?url=` |
| Bot.TargetUrl | bot.py:43-54 | without a proxy base the target is the URL itself; with one, it is the normalised base, which ends in `?url=`, followed by the URL verbatim |
| Bot.HandleMessage | bot.py:81-85 | a message is refused with the invalid-link reply exactly when its stripped text does not start with "http" |
| Bot.HandleMessageTarget | bot.py:82-89 | an accepted message starts with "http" and fetches the target URL of its stripped text: the text itself, or the normalised proxy base followed by the text |

## Left out

- Name resolution, the upstream HTTP request, its timeout, its `User-Agent` header and redirects are not modelled. `resolve` and `fetch` are parameters.
- Flask's routing, the `/health` endpoint, configuration from the environment, logging and `app.run` are not modelled. Nor are the headers Werkzeug adds to a reply (a default `Content-Type` when upstream sent none).
- The upstream status code is not modelled: the source relays every fetched body with status 200, whatever upstream answered.
- Text.ParseInt: `int()` on non-ASCII digits and non-ASCII whitespace is not modelled. Text is read over ASCII only. The 4300-digit limit is the default of `sys.int_info.default_max_str_digits` (Python 3.11 on, and the 2022 security releases of 3.7 to 3.10); an interpreter without the limit, or with it changed through `PYTHONINTMAXSTRDIGITS`, reads longer numerals too.
- Text.Strip: only ASCII whitespace is stripped; Python's `str.strip()` also strips Unicode whitespace.
- Url.UnquotePlus: a `%XX` escape becomes the character with code XX, with no UTF-8 decoding of multi-byte sequences. The two agree on ASCII.
- Url.UrlParse: several `urlsplit` steps are not modelled:
  - removing leading control characters and spaces;
  - deleting tab, CR and LF;
  - the bracketed-host validity check of recent Python versions;
  - the NFKC check on a non-ASCII network location: `urlsplit` raises `ValueError` when its normalised form holds `/`, `?`, `#`, `@` or `:`, which the proxy turns into Flask's 500, while the model parses such a URL and goes on to the host check (Unicode normalisation is not modelled);
  - splitting off query and fragment, which the proxy never reads.
- Url.Hostname: lower-casing is ASCII only, and the whole host is lower-cased. Python keeps an IPv6 zone identifier after `%` unchanged.
- Relay.Generate: the model leaves out a client that goes away before the first chunk is yielded. The generator never starts then, and `r.close()` is not reached. It also leaves out the 16 KiB chunk size of `iter_content`: the chunks are given as they arrive.
- ProxyEndpoint.Proxy: `url` is the value of the `url` query argument after Flask's query-string decoding. That decoding, and the cut of the query string at `&`, are not modelled.
- ProxyEndpoint.Proxy: for status 200 the upstream counts as closed once the relay ends. How it ends is the contract of `Relay.Generate`.
- The bot's page fetch, the HTML scraping for a `<video>` tag or an `.mp4` link, the `/start` command, the replies sent after the guard and the Telegram plumbing are not modelled.
- Concurrency between requests is not modelled.
