/** The request pipeline of the Ollama proxy: the credential gate, the target
    and headers of the forwarded request, the dispatch, the relay of the
    upstream's response and the metrics recorded for every outcome.

    `Decide` states, as a function of the request and of the two foreign steps
    (http.NewRequest and http.DefaultClient.Do), which exit the handler takes;
    `Proxy.ProxyHandler` performs the steps on the writer, the client and the
    metrics and is proved to take exactly that exit. */
module OllamaProxy {
  import opened Headers
  import opened Target
  import opened Http
  import opened Observability

  /** The settings init reads from OLLAMA_PROXY_KEY and OLLAMA_URL. */
  datatype Config = Config(apiKey: string, ollamaURL: string) {
    /** What init guarantees before serving: neither setting is empty. */
    predicate Loaded() {
      apiKey != "" && ollamaURL != ""
    }
  }

  /** The credential gate of both handlers: the X-API-Key value, as Header.Get
      reads it, equals the configured key exactly. */
  predicate KeyMatches(cfg: Config, h: Header) {
    Get(h, CredentialHeader) == cfg.apiKey
  }

  /** Header.Get looks the credential up under "X-Api-Key". */
  lemma CredentialHeaderCanonical()
    ensures CanonicalKey(CredentialHeader) == "X-Api-Key"
  {
    var s := CredentialHeader;
    assert AllTokenChars(s) by {
      forall i | 0 <= i < |s| ensures IsTokenChar(s[i]) {
        assert s[i] in "X-APIKey";
      }
    }
    var t := "X-Api-Key";
    forall i | 0 <= i < |s| ensures CanonicalKey(s)[i] == t[i] {
      assert CanonAt(s, true, i) == t[i];
    }
  }

  /** Once init has run, the gate accepts exactly the requests whose first
      "X-Api-Key" value is the configured key; so a request without the header,
      for which Get returns "", is always rejected. */
  lemma KeyMatchesIff(cfg: Config, h: Header)
    requires cfg.Loaded()
    ensures KeyMatches(cfg, h) <==>
              "X-Api-Key" in h && h["X-Api-Key"] != [] && h["X-Api-Key"][0] == cfg.apiKey
  {
    CredentialHeaderCanonical();
  }

  /** The exit the handler takes. */
  datatype Outcome =
    | Rejected                                               // credential mismatch
    | ConstructionFailed                                     // http.NewRequest failed
    | Unreachable(sent: OutboundRequest)                     // Do returned an error
    | Relayed(sent: OutboundRequest, resp: UpstreamResponse) // the upstream answered

  /** The request the proxy forwards once the gate and http.NewRequest have
      accepted: method and body unchanged, the built target, the cloned headers. */
  function Forwarded(cfg: Config, r: Request): OutboundRequest {
    OutboundRequest(r.verb, TargetURL(cfg.ollamaURL, r.path, r.rawQuery), Stripped(r.header), r.body)
  }

  /** What is forwarded: the inbound method and body; a target that starts with
      the upstream address and reads back as the inbound path and raw query
      (when they hold none of the characters url.Parse interprets); and the
      inbound headers with every credential key removed and every other key
      that has values kept with exactly its values. */
  lemma ForwardedRequest(cfg: Config, r: Request)
    ensures var out := Forwarded(cfg, r);
            && out.verb == r.verb && out.body == r.body
            && cfg.ollamaURL <= out.url
            && (ReadsBack(cfg.ollamaURL, r.path, r.rawQuery) ==>
                  SplitTarget(cfg.ollamaURL, out.url) == Some((r.path, r.rawQuery)))
            && (forall k :: k in out.header ==> !IsCredentialKey(k))
            && (forall k :: k in out.header ==> k in r.header && out.header[k] == r.header[k])
            && (forall k :: k in r.header && !IsCredentialKey(k) && r.header[k] != [] ==> k in out.header)
  {
    if ReadsBack(cfg.ollamaURL, r.path, r.rawQuery) {
      SplitTargetURL(cfg.ollamaURL, r.path, r.rawQuery);
    }
  }

  /** The exit for request r, given whether http.NewRequest accepts a method
      and target (`newRequestOk`) and what the upstream answers (`reply`). */
  function Decide(cfg: Config, r: Request, newRequestOk: (string, string) -> bool,
                  reply: OutboundRequest -> Reply): (o: Outcome)
    ensures o == Rejected <==> !KeyMatches(cfg, r.header)
    ensures o == ConstructionFailed <==>
              KeyMatches(cfg, r.header) && !newRequestOk(r.verb, TargetURL(cfg.ollamaURL, r.path, r.rawQuery))
    ensures (o.Unreachable? || o.Relayed?) ==>
              o.sent == Forwarded(cfg, r) && KeyMatches(cfg, r.header) && newRequestOk(r.verb, o.sent.url)
    ensures o.Unreachable? <==> o != Rejected && o != ConstructionFailed && reply(Forwarded(cfg, r)) == TransportError
    ensures o.Relayed? ==> reply(o.sent) == Delivered(o.resp)
  {
    if !KeyMatches(cfg, r.header) then Rejected
    else
      var url := TargetURL(cfg.ollamaURL, r.path, r.rawQuery);
      if !newRequestOk(r.verb, url) then ConstructionFailed
      else
        var out := Forwarded(cfg, r);
        match reply(out)
        case TransportError => Unreachable(out)
        case Delivered(resp) => Relayed(out, resp)
  }

  /** The status the handler writes. */
  function StatusOf(o: Outcome): int {
    match o
    case Rejected => 401
    case ConstructionFailed => 500
    case Unreachable(_) => 502
    case Relayed(_, resp) => resp.statusCode
  }

  /** The status label of the one counter increment. */
  function LabelOf(o: Outcome, statusText: int -> string): string {
    match o
    case Rejected => "401"
    case ConstructionFailed => "500"
    case Unreachable(_) => "502"
    case Relayed(_, resp) => statusText(resp.statusCode)
  }

  /** The requests handed to the client: none, or the one forwarded request. */
  function Dispatched(o: Outcome): seq<OutboundRequest> {
    match o
    case Unreachable(out) => [out]
    case Relayed(out, _) => [out]
    case _ => []
  }

  /** The message http.Error writes on an error exit. */
  function ErrorMessage(o: Outcome): string {
    match o
    case Rejected => "Unauthorized"
    case ConstructionFailed => "Internal error"
    case _ => "Bad gateway"
  }

  /** The writer's headers after the exit, from its headers before. */
  function HeaderAfter(o: Outcome, h: Header): Header {
    if o.Relayed? then h + o.resp.header else ErrorHeader(h)
  }

  /** The body bytes the handler writes. */
  function BodyOf(o: Outcome): seq<byte> {
    if o.Relayed? then o.resp.body else ErrorBody(ErrorMessage(o))
  }

  /** A mismatched key ends the request at the gate, whatever the two foreign
      steps would do: status 401, label "401", nothing constructed or
      dispatched, no duration observed. */
  lemma Rejection(cfg: Config, r: Request, newRequestOk: (string, string) -> bool,
                  reply: OutboundRequest -> Reply)
    requires !KeyMatches(cfg, r.header)
    ensures forall nr, rp :: Decide(cfg, r, nr, rp) == Rejected
    ensures var o := Decide(cfg, r, newRequestOk, reply);
            StatusOf(o) == 401 && (forall st :: LabelOf(o, st) == "401")
            && Dispatched(o) == [] && !o.Relayed?
  {
  }

  /** Once init has run, a request without an X-API-Key value is rejected. */
  lemma MissingKeyRejected(cfg: Config, r: Request, newRequestOk: (string, string) -> bool,
                           reply: OutboundRequest -> Reply)
    requires cfg.Loaded()
    requires "X-Api-Key" !in r.header || r.header["X-Api-Key"] == []
    ensures Decide(cfg, r, newRequestOk, reply) == Rejected
  {
    KeyMatchesIff(cfg, r.header);
  }

  /** The two error exits after the gate: a construction failure answers 500
      with label "500" and dispatches nothing; a transport failure answers 502
      with label "502" after the one dispatch. Neither observes a duration. */
  lemma ErrorPaths(cfg: Config, r: Request, newRequestOk: (string, string) -> bool,
                   reply: OutboundRequest -> Reply, statusText: int -> string)
    requires KeyMatches(cfg, r.header)
    ensures var o := Decide(cfg, r, newRequestOk, reply);
            var url := TargetURL(cfg.ollamaURL, r.path, r.rawQuery);
            && (!newRequestOk(r.verb, url) <==> o == ConstructionFailed)
            && (o == ConstructionFailed ==>
                  StatusOf(o) == 500 && LabelOf(o, statusText) == "500" && Dispatched(o) == [])
            && (o.Unreachable? <==> newRequestOk(r.verb, url) && reply(Forwarded(cfg, r)) == TransportError)
            && (o.Unreachable? ==>
                  StatusOf(o) == 502 && LabelOf(o, statusText) == "502" && |Dispatched(o)| == 1)
            && (!o.Relayed? ==> BodyOf(o) == ErrorBody(ErrorMessage(o)))
  {
  }

  /** The success exit: the caller gets the upstream's status and body, every
      upstream header with exactly its values, the writer's other headers
      unchanged, and the label is the status text of the upstream's code. */
  lemma Success(cfg: Config, r: Request, newRequestOk: (string, string) -> bool,
                reply: OutboundRequest -> Reply, statusText: int -> string, h: Header)
    requires Decide(cfg, r, newRequestOk, reply).Relayed?
    ensures var o := Decide(cfg, r, newRequestOk, reply);
            && reply(o.sent) == Delivered(o.resp)
            && StatusOf(o) == o.resp.statusCode
            && BodyOf(o) == o.resp.body
            && LabelOf(o, statusText) == statusText(o.resp.statusCode)
            && Dispatched(o) == [o.sent]
            && (forall k :: k in o.resp.header ==> HeaderAfter(o, h)[k] == o.resp.header[k])
            && (forall k :: k in h && k !in o.resp.header ==> HeaderAfter(o, h)[k] == h[k])
            && (forall k :: k in HeaderAfter(o, h) ==> k in h || k in o.resp.header)
  {
  }

  /** Every exit is labelled "401", "500", "502" or the status text of the
      upstream's code, and exactly the two exits after Do dispatch a request,
      one each. */
  lemma Accounting(o: Outcome, statusText: int -> string)
    ensures LabelOf(o, statusText) in {"401", "500", "502"}
            || (o.Relayed? && LabelOf(o, statusText) == statusText(o.resp.statusCode))
    ensures |Dispatched(o)| == if o.Unreachable? || o.Relayed? then 1 else 0
  {
  }

  /** The handlers with the process-wide state they share. */
  class Proxy {
    const cfg: Config
    const statusText: int -> string
    const newRequestOk: (string, string) -> bool
    const metrics: Metrics
    const client: Client

    /** What init leaves behind for the handlers: the settings are loaded. */
    predicate Valid() {
      cfg.Loaded()
    }

    /** init and the registration of the two metric families: the settings are
        loaded (init stops the process otherwise) and the aggregate is empty. */
    constructor (cfg: Config, statusText: int -> string,
                 newRequestOk: (string, string) -> bool, reply: OutboundRequest -> Reply)
      requires cfg.Loaded()
      ensures Valid()
      ensures this.cfg == cfg && this.statusText == statusText && this.newRequestOk == newRequestOk
      ensures fresh(metrics) && metrics.requests == map[] && metrics.observations == map[]
      ensures fresh(client) && client.reply == reply && client.sent == []
    {
      this.cfg := cfg;
      this.statusText := statusText;
      this.newRequestOk := newRequestOk;
      metrics := new Metrics();
      client := new Client(reply);
    }

    /** proxyHandler: each run takes the exit Decide names, increments exactly
        one counter entry by one, observes a duration only on success,
        dispatches at most the one forwarded request and leaves the writer with
        the exit's status, headers and body. */
    method ProxyHandler(w: ResponseWriter, r: Request)
      requires Valid()
      modifies w, metrics, client
      ensures var o := Decide(cfg, r, newRequestOk, client.reply);
              && metrics.requests == Bump(old(metrics.requests), CounterKey(r.verb, r.path, LabelOf(o, statusText)))
              && metrics.observations ==
                   (if o.Relayed? then Bump(old(metrics.observations), HistogramKey(r.verb, r.path))
                    else old(metrics.observations))
              && client.sent == old(client.sent) + Dispatched(o)
              && w.wroteHeader
              && w.status == (if old(w.wroteHeader) then old(w.status) else StatusOf(o))
              && w.header == HeaderAfter(o, old(w.header))
              && w.body == old(w.body) + BodyOf(o)
    {
      ghost var o := Decide(cfg, r, newRequestOk, client.reply);
      var providedKey := Get(r.header, CredentialHeader);
      if providedKey != cfg.apiKey {
        assert o == Rejected;
        w.Error("Unauthorized", 401);
        metrics.Inc(r.verb, r.path, "401");
        return;
      }

      var url := TargetURL(cfg.ollamaURL, r.path, r.rawQuery);
      if !newRequestOk(r.verb, url) {
        assert o == ConstructionFailed;
        w.Error("Internal error", 500);
        metrics.Inc(r.verb, r.path, "500");
        return;
      }
      var header: Header;
      ghost var order: seq<string>;
      header, order := CloneHeaders(r.header);
      var req := OutboundRequest(r.verb, url, header, r.body);
      assert req == Forwarded(cfg, r);

      var reply := client.Do(req);
      if reply.TransportError? {
        assert o == Unreachable(req);
        w.Error("Bad gateway", 502);
        metrics.Inc(r.verb, r.path, "502");
        return;
      }
      var resp := reply.resp;
      assert o == Relayed(req, resp);

      w.Relay(resp);

      metrics.Inc(r.verb, r.path, statusText(resp.statusCode));
      metrics.Observe(r.verb, r.path);
    }

    /** metricsHandler: the same gate; a mismatched key gets 401 and
        "Unauthorized"; otherwise the request is handed to the exposition
        handler (`exposed`). It can change neither the counters nor the
        histogram, nor dispatch anything. */
    method MetricsHandler(w: ResponseWriter, r: Request) returns (exposed: bool)
      requires Valid()
      modifies w
      ensures exposed == KeyMatches(cfg, r.header)
      ensures !exposed ==>
                && w.wroteHeader
                && w.status == (if old(w.wroteHeader) then old(w.status) else 401)
                && w.header == ErrorHeader(old(w.header))
                && w.body == old(w.body) + ErrorBody("Unauthorized")
    {
      var providedKey := Get(r.header, CredentialHeader);
      if providedKey != cfg.apiKey {
        w.Error("Unauthorized", 401);
        return false;
      }
      return true;
    }
  }
}
