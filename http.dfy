/** The parts of net/http the proxy handler talks to: the inbound request, the
    forwarded request and the upstream's reply as values; the response writer
    and the client as objects whose state the handler changes. */
module Http {
  import opened Headers

  newtype byte = b: int | 0 <= b < 256

  /** Request headers as net/http's server hands them to a handler: every key
      is already in canonical form. */
  type InboundHeader = h: Header | CanonicalKeys(h) witness map[]

  /** The inbound request: r.Method (verb), r.URL.Path (decoded), r.URL.RawQuery,
      r.Header and the body, which the proxy passes on without reading. */
  datatype Request = Request(verb: string, path: string, rawQuery: string,
                             header: InboundHeader, body: seq<byte>)

  /** The request the proxy forwards upstream. */
  datatype OutboundRequest = OutboundRequest(verb: string, url: string,
                                             header: Header, body: seq<byte>)

  /** What the upstream sent back: status code, headers and body. */
  datatype UpstreamResponse = UpstreamResponse(statusCode: int, header: Header, body: seq<byte>)

  /** The result of http.DefaultClient.Do: a response, or a transport error. */
  datatype Reply = Delivered(resp: UpstreamResponse) | TransportError

  /** The bytes of a text, one per character: for the ASCII messages the
      handlers write, their encoding. */
  function TextBytes(s: string): (b: seq<byte>)
    ensures |b| == |s|
  {
    seq(|s|, i requires 0 <= i < |s| => (s[i] as int % 256) as byte)
  }

  /** What http.Error writes as the body: the message and a newline. */
  function ErrorBody(msg: string): seq<byte> {
    TextBytes(msg + "\n")
  }

  /** The headers http.Error leaves: Content-Length removed, a plain-text
      Content-Type and "X-Content-Type-Options: nosniff" set. */
  function ErrorHeader(h: Header): Header {
    (h - {"Content-Length"})["Content-Type" := ["text/plain; charset=utf-8"]]
                            ["X-Content-Type-Options" := ["nosniff"]]
  }

  /** http.Error replaces only those three headers and keeps every other one. */
  lemma ErrorHeaderKeeps(h: Header)
    ensures var r := ErrorHeader(h);
            && "Content-Length" !in r
            && "Content-Type" in r && r["Content-Type"] == ["text/plain; charset=utf-8"]
            && "X-Content-Type-Options" in r && r["X-Content-Type-Options"] == ["nosniff"]
            && (forall k :: k in h && k !in {"Content-Length", "Content-Type", "X-Content-Type-Options"}
                            ==> k in r && r[k] == h[k])
            && (forall k :: k in r ==> k in h || k in {"Content-Type", "X-Content-Type-Options"})
  {
  }

  /** The response writer of one request: its header map, the status line once
      written, and the body bytes the handler has written so far (what net/http
      then sends, or drops for a HEAD request, is not modelled). */
  class ResponseWriter {
    var header: Header
    var wroteHeader: bool
    var status: int
    var body: seq<byte>

    constructor ()
      ensures header == map[] && !wroteHeader && status == 200 && body == []
    {
      header := map[];
      wroteHeader := false;
      status := 200;
      body := [];
    }

    /** WriteHeader: the first call fixes the status; later calls are ignored. */
    method WriteHeader(code: int)
      modifies this
      ensures wroteHeader
      ensures status == if old(wroteHeader) then old(status) else code
      ensures header == old(header) && body == old(body)
    {
      if !wroteHeader {
        status := code;
        wroteHeader := true;
      }
    }

    /** Write: sends the status 200 first when no status was written, then appends data. */
    method Write(data: seq<byte>)
      modifies this
      ensures wroteHeader
      ensures status == if old(wroteHeader) then old(status) else 200
      ensures header == old(header) && body == old(body) + data
    {
      WriteHeader(200);
      body := body + data;
    }

    /** http.Error: plain-text headers, the given status, and msg followed by a newline. */
    method Error(msg: string, code: int)
      modifies this
      ensures wroteHeader
      ensures status == if old(wroteHeader) then old(status) else code
      ensures header == ErrorHeader(old(header))
      ensures body == old(body) + ErrorBody(msg)
    {
      header := ErrorHeader(header);
      WriteHeader(code);
      Write(ErrorBody(msg));
    }

    /** The relay loop: every upstream header is assigned, key by key, into the
        writer's header map, replacing what was there; other keys stay. */
    method CopyHeaders(upstream: Header)
      modifies this
      ensures header == old(header) + upstream
      ensures forall k :: k in upstream ==> k in header && header[k] == upstream[k]
      ensures forall k :: k in old(header) && k !in upstream ==> k in header && header[k] == old(header)[k]
      ensures forall k :: k in header ==> k in upstream || k in old(header)
      ensures wroteHeader == old(wroteHeader) && status == old(status) && body == old(body)
    {
      var rest := upstream.Keys;
      while rest != {}
        invariant rest <= upstream.Keys
        invariant header == old(header) + map k | k in upstream && k !in rest :: upstream[k]
        invariant wroteHeader == old(wroteHeader) && status == old(status) && body == old(body)
        decreases rest
      {
        var k :| k in rest;
        header := header[k := upstream[k]];
        rest := rest - {k};
        assert header == old(header) + map k | k in upstream && k !in rest :: upstream[k];
      }
      assert (map k | k in upstream && k !in rest :: upstream[k]) == upstream;
    }

    /** The success exit of the proxy handler: the upstream's headers, then its
        status, then its body bytes. */
    method Relay(resp: UpstreamResponse)
      modifies this
      ensures header == old(header) + resp.header
      ensures wroteHeader
      ensures status == if old(wroteHeader) then old(status) else resp.statusCode
      ensures body == old(body) + resp.body
    {
      CopyHeaders(resp.header);
      WriteHeader(resp.statusCode);
      Write(resp.body);
    }
  }

  /** http.DefaultClient. What the upstream answers to a request is an oracle,
      `reply`; `sent` records every request handed to Do, in order. */
  class Client {
    const reply: OutboundRequest -> Reply
    var sent: seq<OutboundRequest>

    constructor (reply: OutboundRequest -> Reply)
      ensures this.reply == reply && sent == []
    {
      this.reply := reply;
      sent := [];
    }

    /** Do: dispatches req once and returns the upstream's reply. */
    method Do(req: OutboundRequest) returns (r: Reply)
      modifies this
      ensures sent == old(sent) + [req]
      ensures r == reply(req)
    {
      sent := sent + [req];
      r := reply(req);
    }
  }
}
