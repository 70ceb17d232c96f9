/**
 * The chat bot's string handling: the share-id extractor, the proxy-base
 * normalisation and target URL of `find_direct_video`, and the guard in
 * `handle_message` that rejects text not starting with "http".
 */
module Bot {
  import opened Wrappers
  import opened Text

  // ---------------------------------------------------------------------
  // extract_possible_share_id
  // ---------------------------------------------------------------------

  /** A `/s/` at position `i` immediately followed by an ASCII letter or digit. */
  predicate MatchAt(s: string, i: int) {
    0 <= i && i + 4 <= |s| && s[i..i + 3] == "/s/" && IsAsciiAlnum(s[i + 3])
  }

  /** The longest run of ASCII letters and digits at the front of `s`. */
  function AlnumRun(s: string): (r: string)
    ensures |r| <= |s| && s[..|r|] == r
    ensures forall k :: 0 <= k < |r| ==> IsAsciiAlnum(r[k])
    ensures |r| == |s| || !IsAsciiAlnum(s[|r|])
  {
    if s != [] && IsAsciiAlnum(s[0]) then [s[0]] + AlnumRun(s[1..]) else []
  }

  /**
   * `re.search(r"/s/([a-zA-Z0-9]+)", s).group(1)`: scan for the leftmost
   * `/s/` followed by a letter or digit and take the greedy run after it.
   */
  function SearchShareId(s: string): Option<string>
    decreases |s|
  {
    if |s| < 4 then None
    else if s[..3] == "/s/" && IsAsciiAlnum(s[3]) then Some(AlnumRun(s[3..]))
    else SearchShareId(s[1..])
  }

  /** `extract_possible_share_id(url)`: `None` for a missing or empty URL, else the search. */
  function ExtractPossibleShareId(url: Option<string>): (r: Option<string>)
    ensures url.None? || url == Some("") ==> r.None?
  {
    if url.None? || url.value == "" then None else SearchShareId(url.value)
  }

  /**
   * `id` is what the regex captures when its match starts at `i`: the
   * leftmost `/s/` followed by a letter or digit, and the whole run of
   * letters and digits after it.
   */
  predicate IsShareIdAt(s: string, i: nat, id: string) {
    MatchAt(s, i)
    && (forall j :: 0 <= j < i ==> !MatchAt(s, j))
    && id != [] && (forall k :: 0 <= k < |id| ==> IsAsciiAlnum(id[k]))
    && i + 3 + |id| <= |s| && s[i + 3..i + 3 + |id|] == id
    && (i + 3 + |id| == |s| || !IsAsciiAlnum(s[i + 3 + |id|]))
  }

  /** Dropping a first character that starts no match moves every match one place. */
  lemma MatchShift(s: string, i: nat)
    requires s != []
    ensures MatchAt(s[1..], i) <==> MatchAt(s, i + 1)
  {
    if i + 5 <= |s| {
      assert s[1..][i..i + 3] == s[i + 1..i + 4];
      assert s[1..][i + 3] == s[i + 4];
    }
  }

  /** A capture found after the first character is also the capture of the whole text. */
  lemma ShareIdShift(s: string, i: nat, id: string)
    requires s != [] && !MatchAt(s, 0)
    requires IsShareIdAt(s[1..], i, id)
    ensures IsShareIdAt(s, i + 1, id)
  {
    MatchShift(s, i);
    forall j | 0 <= j < i + 1 ensures !MatchAt(s, j) {
      if j > 0 {
        MatchShift(s, j - 1);
      }
    }
    assert s[1..][i + 3..i + 3 + |id|] == s[i + 4..i + 4 + |id|];
  }

  /**
   * The search answers `None` exactly when no `/s/` is followed by a letter
   * or digit; otherwise it returns the leftmost, maximal capture.
   */
  lemma {:induction false} SearchShareIdSound(s: string)
    ensures SearchShareId(s).None? <==> forall i :: !MatchAt(s, i)
    ensures SearchShareId(s).Some? ==> exists i: nat :: IsShareIdAt(s, i, SearchShareId(s).value)
    decreases |s|
  {
    if |s| < 4 {
    } else if s[..3] == "/s/" && IsAsciiAlnum(s[3]) {
      var id := AlnumRun(s[3..]);
      assert MatchAt(s, 0);
      assert s[3..][..|id|] == s[3..3 + |id|];
      assert IsShareIdAt(s, 0, id);
    } else {
      assert !MatchAt(s, 0);
      SearchShareIdSound(s[1..]);
      match SearchShareId(s[1..])
      case None =>
        forall i ensures !MatchAt(s, i) {
          if i > 0 {
            MatchShift(s, i - 1);
          }
        }
      case Some(id) =>
        var i: nat :| IsShareIdAt(s[1..], i, id);
        ShareIdShift(s, i, id);
        MatchShift(s, i);
    }
  }

  /** A maximal run of letters and digits at the front of `t` is the one `AlnumRun` takes. */
  lemma {:induction false} MaximalRunIsAlnumRun(t: string, id: string)
    requires |id| <= |t| && t[..|id|] == id
    requires forall k :: 0 <= k < |id| ==> IsAsciiAlnum(id[k])
    requires |id| == |t| || !IsAsciiAlnum(t[|id|])
    ensures id == AlnumRun(t)
  {
    if id != [] {
      assert t[0] == id[0];
      assert t[1..][..|id| - 1] == id[1..];
      MaximalRunIsAlnumRun(t[1..], id[1..]);
      assert [id[0]] + id[1..] == id;
    }
  }

  /** The regex's capture is unique: one leftmost start, one maximal run. */
  lemma ShareIdUnique(s: string, i: nat, id: string, i': nat, id': string)
    requires IsShareIdAt(s, i, id) && IsShareIdAt(s, i', id')
    ensures i == i' && id == id'
  {
    assert !(i < i') && !(i' < i);
    var t := s[i + 3..];
    assert t[..|id|] == s[i + 3..i + 3 + |id|] && t[..|id'|] == s[i + 3..i + 3 + |id'|];
    MaximalRunIsAlnumRun(t, id);
    MaximalRunIsAlnumRun(t, id');
  }

  /**
   * `extract_possible_share_id` returns `id` exactly when `id` is the
   * leftmost, maximal capture of `/s/([a-zA-Z0-9]+)` in a non-empty URL.
   */
  lemma ExtractShareIdCharacterised(url: string, id: string)
    ensures ExtractPossibleShareId(Some(url)) == Some(id) <==> exists i: nat :: IsShareIdAt(url, i, id)
  {
    SearchShareIdSound(url);
    if i: nat :| IsShareIdAt(url, i, id) {
      assert url != "";
      var r := SearchShareId(url);
      if r.Some? {
        var i' :| IsShareIdAt(url, i', r.value);
        ShareIdUnique(url, i, id, i', r.value);
      }
    }
  }

  /** `extract_possible_share_id` on a few inputs. */
  lemma ShareIdExamples()
    ensures ExtractPossibleShareId(None) == None
    ensures ExtractPossibleShareId(Some("")) == None
    ensures ExtractPossibleShareId(Some("/s/")) == None
    ensures ExtractPossibleShareId(Some("/s/Ab1?")) == Some("Ab1")
  {
    assert AlnumRun("?") == "";
    assert AlnumRun("Ab1?") == "Ab1";
  }

  // ---------------------------------------------------------------------
  // find_direct_video: where the page is fetched from
  // ---------------------------------------------------------------------

  /**
   * The configured proxy base made to end with `?url=`: kept as it is when
   * it already does, otherwise stripped of trailing `/` and given
   * `/proxy?url=`.
   */
  function NormaliseProxyBase(base: string): (r: string)
    ensures EndsWith(r, "?url=")
    ensures EndsWith(base, "?url=") ==> r == base
  {
    if EndsWith(base, "?url=") then base else RStrip(base, '/') + "/proxy?url="
  }

  /** Normalising a normalised base changes nothing. */
  lemma NormaliseProxyBaseIdempotent(base: string)
    ensures NormaliseProxyBase(NormaliseProxyBase(base)) == NormaliseProxyBase(base)
  {
  }

  /**
   * A base that does not end in `?url=` becomes its own text up to the last
   * character that is not `/`, followed by `/proxy?url=`.
   */
  lemma NormaliseProxyBaseAppends(base: string)
    requires !EndsWith(base, "?url=")
    ensures var r := NormaliseProxyBase(base);
      var stem := r[..|r| - |"/proxy?url="|];
      EndsWith(r, "/proxy?url=")
      && |stem| <= |base| && base[..|stem|] == stem
      && (stem == "" || stem[|stem| - 1] != '/')
      && (forall k :: |stem| <= k < |base| ==> base[k] == '/')
  {
    var r := NormaliseProxyBase(base);
    var stem := RStrip(base, '/');
    assert r == stem + "/proxy?url=";
    assert r[..|r| - |"/proxy?url="|] == stem;
  }

  /**
   * The URL `find_direct_video` requests: the user's URL itself without a
   * proxy base, otherwise the normalised base followed by the user's URL
   * verbatim (not percent-encoded).
   */
  function TargetUrl(proxyBase: string, url: string): (t: string)
    ensures proxyBase == "" ==> t == url
    ensures proxyBase != "" ==> |url| <= |t| && t[|t| - |url|..] == url && EndsWith(t[..|t| - |url|], "?url=")
    ensures proxyBase != "" ==> t[..|t| - |url|] == NormaliseProxyBase(proxyBase)
  {
    if proxyBase != "" then
      var b := NormaliseProxyBase(proxyBase);
      assert (b + url)[..|b|] == b && (b + url)[|b|..] == url;
      b + url
    else url
  }

  // ---------------------------------------------------------------------
  // handle_message
  // ---------------------------------------------------------------------

  /** What `handle_message` does with a text message. */
  datatype BotStep =
    | Refused(reply: string)   // answered at once; `find_direct_video` is not called
    | Lookup(target: string)   // `find_direct_video(text)` fetches this URL

  const InvalidLinkReply: string := "\U{274C} Please send a valid Terabox link."

  /** `handle_message`: the stripped text must start with "http" to be looked up. */
  function HandleMessage(text: string, proxyBase: string): (step: BotStep)
    ensures step.Refused? <==> !StartsWith(Strip(text), "http")
    ensures step.Refused? ==> step.reply == InvalidLinkReply
  {
    var t := Strip(text);
    if !StartsWith(t, "http") then Refused(InvalidLinkReply) else Lookup(TargetUrl(proxyBase, t))
  }

  /**
   * A looked-up message fetches the stripped text itself, or, through a
   * proxy, the normalised proxy base followed by that text.
   */
  lemma HandleMessageTarget(text: string, proxyBase: string)
    requires HandleMessage(text, proxyBase).Lookup?
    ensures var t := HandleMessage(text, proxyBase).target;
      var u := Strip(text);
      StartsWith(u, "http")
      && t == TargetUrl(proxyBase, u)
      && (proxyBase == "" ==> t == u)
      && (proxyBase != "" ==> t == NormaliseProxyBase(proxyBase) + u && EndsWith(NormaliseProxyBase(proxyBase), "?url="))
  {
    var u := Strip(text);
    var t := HandleMessage(text, proxyBase).target;
    if proxyBase != "" {
      assert t == t[..|t| - |u|] + t[|t| - |u|..];
    }
  }
}
