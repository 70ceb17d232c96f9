/**
 * The streaming half of the proxy endpoint: the upstream response object
 * `r`, the `generate` loop that relays its body chunk by chunk and always
 * closes it, and the two-header whitelist copied into the reply.
 */
module Relay {
  import opened Wrappers

  newtype byte = x: int | 0 <= x < 256

  /** One piece of body as `iter_content` hands it over. */
  type Chunk = seq<byte>

  /** The bytes of a chunk sequence, in order. */
  function Flatten(chunks: seq<Chunk>): seq<byte> {
    if chunks == [] then [] else Flatten(chunks[..|chunks| - 1]) + chunks[|chunks| - 1]
  }

  /** What `generate` yields for a chunk sequence: every non-empty chunk, in order. */
  function Relayed(chunks: seq<Chunk>): (out: seq<Chunk>)
    ensures |out| <= |chunks|
  {
    if chunks == [] then []
    else
      var init := Relayed(chunks[..|chunks| - 1]);
      var last := chunks[|chunks| - 1];
      if last == [] then init else init + [last]
  }

  /** The relayed body holds exactly the upstream bytes, and no relayed chunk is empty. */
  lemma {:induction false} RelayedKeepsBytes(chunks: seq<Chunk>)
    ensures forall i :: 0 <= i < |Relayed(chunks)| ==> Relayed(chunks)[i] != []
    ensures Flatten(Relayed(chunks)) == Flatten(chunks)
  {
    if chunks != [] {
      var init := chunks[..|chunks| - 1];
      var last := chunks[|chunks| - 1];
      RelayedKeepsBytes(init);
      if last != [] {
        var out := Relayed(init) + [last];
        assert out[..|out| - 1] == Relayed(init);
      }
    }
  }

  /** Relaying a stream in two parts yields the two parts' chunks one after the other. */
  lemma {:induction false} RelayedAppend(a: seq<Chunk>, b: seq<Chunk>)
    ensures Relayed(a + b) == Relayed(a) + Relayed(b)
  {
    if b != [] {
      var b', last := b[..|b| - 1], b[|b| - 1];
      RelayedAppend(a, b');
      assert (a + b)[..|a + b| - 1] == a + b';
      assert (a + b)[|a + b| - 1] == last;
      var tail := if last == [] then [] else [last];
      assert Relayed(a + b) == Relayed(a + b') + tail;
      assert Relayed(b) == Relayed(b') + tail;
    } else {
      assert a + b == a;
    }
  }

  /** Every chunk yielded for a prefix of the stream is also yielded, at the same place, for the whole. */
  lemma RelayedPrefix(chunks: seq<Chunk>, n: nat)
    requires n <= |chunks|
    ensures |Relayed(chunks[..n])| <= |Relayed(chunks)|
    ensures Relayed(chunks)[..|Relayed(chunks[..n])|] == Relayed(chunks[..n])
  {
    assert chunks == chunks[..n] + chunks[n..];
    RelayedAppend(chunks[..n], chunks[n..]);
  }

  /** Pulling one more chunk yields it when it is non-empty and nothing otherwise. */
  lemma RelayedStep(chunks: seq<Chunk>, n: nat)
    requires n < |chunks|
    ensures Relayed(chunks[..n + 1])
         == Relayed(chunks[..n]) + (if chunks[n] == [] then [] else [chunks[n]])
  {
    assert chunks[..n + 1][..n] == chunks[..n];
  }

  /**
   * `headers_out`: `Content-Type` and `Content-Length` copied from the
   * upstream headers (looked up by lower-case name) when present; no other
   * header is forwarded.
   */
  function ForwardedHeaders(upstream: map<string, string>): (out: map<string, string>)
    ensures out.Keys <= {"Content-Type", "Content-Length"}
    ensures "Content-Type" in out <==> "content-type" in upstream
    ensures "Content-Length" in out <==> "content-length" in upstream
    ensures "Content-Type" in out ==> out["Content-Type"] == upstream["content-type"]
    ensures "Content-Length" in out ==> out["Content-Length"] == upstream["content-length"]
  {
    var withType := if "content-type" in upstream then map["Content-Type" := upstream["content-type"]] else map[];
    if "content-length" in upstream then withType["Content-Length" := upstream["content-length"]] else withType
  }

  /**
   * The streamed upstream response: its headers (keys in lower case), the
   * chunks `iter_content` has still to deliver, whether the connection
   * drops once those are delivered, and whether `close()` has been called.
   */
  class UpstreamResponse {
    var headers: map<string, string>
    var pending: seq<Chunk>
    var breaksAtEnd: bool
    var closed: bool

    constructor (headers: map<string, string>, chunks: seq<Chunk>, breaksAtEnd: bool)
      ensures this.headers == headers && pending == chunks && this.breaksAtEnd == breaksAtEnd
      ensures !closed
    {
      this.headers := headers;
      this.pending := chunks;
      this.breaksAtEnd := breaksAtEnd;
      this.closed := false;
    }

    /** `r.close()`: releases the connection; nothing else changes. */
    method Close()
      modifies this`closed
      ensures closed
    {
      closed := true;
    }
  }

  /** How the client reading the proxied body behaves. */
  datatype Consumer =
    | Drains                      // reads the body to its end
    | Disconnects(after: nat)     // closes the stream once it holds `after` chunks

  /** How the relay loop was left. */
  datatype RelayEnd = Completed | UpstreamBroke | CallerLeft

  /**
   * `generate()`: pull chunks from `r`, yield the non-empty ones, and close
   * `r` in the `finally` whether the loop ends normally, the upstream
   * breaks, or the client goes away at a `yield`. A client that leaves
   * does so at a `yield`, so after at least one chunk.
   */
  method Generate(r: UpstreamResponse, consumer: Consumer) returns (yielded: seq<Chunk>, end: RelayEnd)
    requires consumer.Disconnects? ==> consumer.after > 0
    modifies r`pending, r`closed
    ensures r.closed
    ensures r.headers == old(r.headers) && r.breaksAtEnd == old(r.breaksAtEnd)
    ensures |r.pending| <= |old(r.pending)|
    ensures r.pending == old(r.pending)[|old(r.pending)| - |r.pending|..]
    ensures yielded == Relayed(old(r.pending)[..|old(r.pending)| - |r.pending|])
    ensures end == CallerLeft <==> consumer.Disconnects? && consumer.after <= |Relayed(old(r.pending))|
    ensures end == CallerLeft ==> |yielded| == consumer.after
    ensures end != CallerLeft ==> r.pending == [] && yielded == Relayed(old(r.pending))
    ensures end == UpstreamBroke <==> end != CallerLeft && r.breaksAtEnd
  {
    ghost var all := r.pending;
    ghost var n := 0;
    yielded := [];
    var left := false;
    while r.pending != []
      invariant n <= |all| && r.pending == all[n..]
      invariant yielded == Relayed(all[..n])
      invariant consumer.Disconnects? ==> |yielded| < consumer.after
      decreases |r.pending|
    {
      var chunk := r.pending[0];
      r.pending := r.pending[1..];
      RelayedStep(all, n);
      n := n + 1;
      if chunk != [] {
        yielded := yielded + [chunk];
        if consumer == Disconnects(|yielded|) {
          left := true;
          break;
        }
      }
    }
    assert |all| - |r.pending| == n;
    assert all[|all| - |r.pending|..] == r.pending && all[..|all| - |r.pending|] == all[..n];
    RelayOutcome(all, n, yielded, consumer, left);
    end := if left then CallerLeft else if r.breaksAtEnd then UpstreamBroke else Completed;
    r.Close();
  }

  /**
   * How far the loop got decides how `generate` ended: the client left
   * exactly when the stream holds at least the chunks it waited for, and
   * otherwise every chunk was relayed.
   */
  lemma RelayOutcome(all: seq<Chunk>, n: nat, yielded: seq<Chunk>, consumer: Consumer, left: bool)
    requires n <= |all| && yielded == Relayed(all[..n])
    requires left ==> consumer.Disconnects? && |yielded| == consumer.after
    requires !left ==> n == |all| && (consumer.Disconnects? ==> |yielded| < consumer.after)
    ensures left <==> consumer.Disconnects? && consumer.after <= |Relayed(all)|
    ensures !left ==> yielded == Relayed(all)
  {
    if left {
      RelayedPrefix(all, n);
    } else {
      assert all[..n] == all;
    }
  }

  /** Filling `headers_out` one header at a time gives the whitelist. */
  method BuildHeadersOut(r: UpstreamResponse) returns (headersOut: map<string, string>)
    ensures headersOut == ForwardedHeaders(r.headers)
  {
    headersOut := map[];
    if "content-type" in r.headers {
      headersOut := headersOut["Content-Type" := r.headers["content-type"]];
    }
    if "content-length" in r.headers {
      headersOut := headersOut["Content-Length" := r.headers["content-length"]];
    }
  }
}
