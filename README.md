# Ollama authenticating proxy — a Dafny model of the request pipeline

The program is a reverse proxy in front of an Ollama server. Every request to
`/` carries a shared secret in the `X-API-Key` header. A request with the wrong
secret is answered 401 right away and is never forwarded. An accepted request is
forwarded with the same method and body, to a target made of the configured
upstream address, the decoded path and the raw query, and with every spelling
of the credential header removed. The upstream's status, headers and body are
relayed back. Every request that runs to one of the handler's exits increments
one entry of the counter `proxy_requests_total`, labelled by method, path and
status; the exceptions, where a library call panics first, are listed under
"Left out". A request the upstream answered also adds one observation to the
histogram `proxy_request_duration_seconds`. `/metrics` exposes the metrics
behind the same credential gate.

The model has five modules, one per part of the pipeline:

- `Headers` (headers.dfy): net/http's canonical header keys (`CanonicalKey`),
  the ASCII lower-casing of the credential test, `Header.Get`, `Header.Add`, and
  `cloneHeaders` as a method with the source's two nested loops.
  Go's `range` over a map visits keys in an unspecified order. The method
  therefore returns, as a ghost result, the order it used, and is proved equal
  to the specification function `CloneAlong(src, order)`. For the canonically
  keyed headers that net/http's server produces, every order gives the same
  reference result, `Stripped(src)`.
- `Target` (target.dfy): the outbound target, and `SplitTarget`, which reads a
  whole target back the way `url.Parse` splits a URL whose upstream address
  has the form `scheme://host[:port]` (`UpstreamAddress`, such as
  `http://localhost:11434`): the fragment from the first `#` is cut off, the
  rest is split at the first `?`, and the path is what follows the upstream
  address. Building a target and reading it back returns the inputs when the
  address is such an address and neither the path nor the query holds a
  character `url.Parse` interprets there (`ReadsBack`: an `UpstreamAddress`
  without `?` or `#`, no `?`, `#` or `%` in the path, no `#` in the query). A
  scheme-less address such as `localhost:11434` is not covered.
- `Http` (http.dfy): the inbound request, the forwarded request and the
  upstream's reply as datatypes. It also holds the response writer and the
  client as classes: the handler changes the writer's header map, status and
  body, and calls `Do` on the client. `Client.sent` logs every request handed to
  `Do`, so the model can state that nothing was dispatched.
- `Observability` (metrics.dfy): the metrics aggregate as a class with two maps,
  one for the counter and one for the number of histogram observations.
- `OllamaProxy` (proxy.dfy): the configuration and the handler's exit as a
  function. `Decide` returns one of `Rejected`, `ConstructionFailed`,
  `Unreachable` or `Relayed`. `StatusOf`, `LabelOf`, `Dispatched`,
  `HeaderAfter` and `BodyOf` say what each exit means; a duration is observed
  exactly on `Relayed`. `Proxy.ProxyHandler`
  runs the source's steps on the writer, the client and the metrics, and is
  proved to end in the state that `Decide`'s exit describes.

The foreign steps are parameters:

- `http.NewRequest` is `newRequestOk`, a function saying whether a method and
  target are accepted.
- `http.DefaultClient.Do` is `Client.reply`, a function from the forwarded
  request to a response or a transport error.
- `http.StatusText` is `statusText`, an uninterpreted function from int to
  string.

The proof shows one behaviour worth knowing. `r.URL.Path` is the *decoded*
path, and `http.NewRequest` parses the target again. A request for `/a%3Fb`
therefore produces the target `<upstream>/a?b`, which reads back as path `/a`
with query `b` (`Target.DecodedQuestionMarkMovesIntoQuery`). A request for
`/a%23b?q` produces `<upstream>/a#b?q`, whose `#b?q` is a fragment, so the
upstream is asked for `/a` with no query (`Target.DecodedHashCutsFragment`).
The read-back property is proved only under `ReadsBack`.

## Model

| member | source | states |
|---|---|---|
| Headers.CanonicalKey | main.go:126 | the canonical key has the key's length; what it is otherwise is stated by the four lemmas below |
| Headers.CanonicalKeyIsPass | main.go:126 | for a key of token characters, the position-wise canonical form equals the left-to-right pass that upper-cases at the start and after each '-' and lower-cases elsewhere |
| Headers.CanonFromAt | main.go:126 | character by character, the pass is upper-case at the start and after each '-', lower-case elsewhere |
| Headers.CanonicalKeyLower | main.go:122-126 | canonicalising changes only letter case, so lower-casing cannot tell a key from its canonical form |
| Headers.CanonicalKeyIdempotent | main.go:126 | canonicalising a canonical key changes nothing |
| Headers.CredentialKeyLetters | main.go:122 | the test `strings.ToLower(k) == "x-api-key"` accepts exactly the nine-character keys that spell "x-api-key" with each letter in either case |
| Headers.CredentialSpellings | main.go:122 | "X-API-Key", "x-api-key" and "X-Api-Key" are all recognised as the credential; "X-API-Keys" is not |
| Headers.CredentialKeyCanonical | main.go:122-126 | a key is a credential key exactly when its canonical form is one |
| Headers.GetAfterAdd | main.go:74 | Header.Get reads the same value for every spelling with the same canonical form; after Header.Add it reads the first value stored, which is the added one when the key held none; an Add under another canonical key does not change what Get reads |
| Headers.Add | main.go:126 | Header.Add appends the value to those of the canonical key, leaves every other key's values as they were and creates no other key |
| Headers.AddAllAppends | main.go:125-127 | adding a key's values one at a time appends all of them, in order, under the canonical key; a key with no values is not created |
| Headers.AddValues | main.go:125-127 | the inner loop leaves exactly what adding the values one at a time gives |
| Headers.CloneAlongShape | main.go:119-130 | for any visiting order: the clone's keys are exactly the canonical forms of the kept keys, and a kept key that shares its canonical form with no other key keeps exactly its own values in their order |
| Headers.CloneAlongCanonical | main.go:119-130 | on canonically keyed headers every visiting order gives the same result: every non-credential key with values, and its values unchanged |
| Headers.CloneAlongComplete | main.go:119-130 | a clone along an order that visits every key once holds no credential key, exactly the canonical forms of the kept keys, the values of every kept key with its own canonical form, and on canonical input the reference result |
| Headers.CloneHeaders | main.go:119-130 | the loops build CloneAlong for the order they visited; the result holds no key that lower-cases to "x-api-key"; it holds every kept key and no key not derived from one; unique keys keep exactly their values; canonically keyed input gives Stripped(src) |
| Target.TargetURL | main.go:82-85 | the target starts with the upstream address and is as long as address, path and (when the query is non-empty) "?" plus query |
| Target.IndexOfAfter | main.go:84 | the first '?' of path + "?" + query is the one the proxy inserted, when the path holds none |
| Target.NoSlashNoScheme | main.go:82-87 | an upstream address without any '/' (such as "localhost:11434") has no "scheme://" prefix and so is not one whose target url.Parse splits as SplitTarget does |
| Target.SchemeMakesUpstream | main.go:82-87 | a scheme name, "://" and an authority without '?' or '#' make an upstream address |
| Target.UpstreamAddressForms | main.go:82-87 | "http://localhost:11434" is an upstream address and "localhost:11434" is not |
| Target.SplitTargetURL | main.go:82-87 | reading the target back as url.Parse splits it gives exactly the path and raw query, when the upstream address has the form scheme://authority with no '?' or '#', the path holds no '?', '#' or '%' and the query no '#' |
| Target.DecodedQuestionMarkMovesIntoQuery | main.go:82-87 | for a scheme://authority upstream address without '?' or '#', a decoded path "/a?b" comes back as path "/a" and query "b" |
| Target.DecodedHashCutsFragment | main.go:82-87 | for a scheme://authority upstream address without '?' or '#', a decoded path "/a#b" with query "q" comes back as path "/a" with no query: the rest is a fragment |
| Http.ErrorHeaderKeeps | main.go:77 | http.Error removes Content-Length, sets Content-Type and X-Content-Type-Options, and keeps every other header |
| Http.ResponseWriter.WriteHeader | main.go:108 | the first status written is kept; headers and body are unchanged |
| Http.ResponseWriter.Write | main.go:109 | data is appended to the body; status 200 is written first if none was |
| Http.ResponseWriter.Error | main.go:77 | the error headers, the given status (unless one was already written) and the message with a newline as body |
| Http.ResponseWriter.CopyHeaders | main.go:105-107 | afterwards every upstream key holds exactly the upstream value list, keys not upstream are unchanged, and no other key appears |
| Http.ResponseWriter.Relay | main.go:105-109 | upstream headers over the writer's headers, the upstream status, the upstream body appended |
| Http.Client.Do | main.go:96 | exactly one request is dispatched and the oracle's reply to it is returned |
| Observability.BumpExactlyOne | main.go:78 | an increment raises its own entry by exactly one, leaves every other entry unchanged and never lowers a count |
| Observability.Metrics.Inc | main.go:115 | the counter entry for (method, path, status) rises by one; the histogram is unchanged |
| Observability.Metrics.Observe | main.go:116 | the observation count for (method, path) rises by one; the counter is unchanged |
| OllamaProxy.CredentialHeaderCanonical | main.go:74 | Header.Get looks the credential up under "X-Api-Key" |
| OllamaProxy.KeyMatchesIff | main.go:74-75 | KeyMatches, the gate of both handlers: with the settings loaded, it accepts exactly when the first "X-Api-Key" value equals the configured key |
| OllamaProxy.MissingKeyRejected | main.go:43 | since init leaves the key non-empty, a request without the header is rejected |
| OllamaProxy.Decide | main.go:71-117 | the handler's exit: Rejected exactly when the gate refuses; ConstructionFailed exactly when the gate accepts and NewRequest refuses the target; Unreachable exactly when both accept and Do errs on the forwarded request; a request is dispatched only on the last two exits, and it is the one Forwarded builds; Relayed carries the upstream's reply to it |
| OllamaProxy.ForwardedRequest | main.go:82-94 | Forwarded, the request handed to Do: inbound method and body, a target that starts with the upstream address and reads back as the inbound path and query under ReadsBack, no credential key, and every other header with values kept with exactly its values |
| OllamaProxy.Rejection | main.go:74-79 | a mismatched key exits Rejected whatever the foreign steps would do: 401, label "401", nothing dispatched, no observation |
| OllamaProxy.ErrorPaths | main.go:87-101 | construction failure exactly when NewRequest refuses: 500, label "500", no dispatch; transport failure exactly when Do errs: 502, label "502", one dispatch; no observation on either |
| OllamaProxy.Success | main.go:105-116 | on success the caller gets the upstream status, body and headers (other writer headers unchanged); label is StatusText of the code; one dispatch |
| OllamaProxy.Accounting | main.go:71-117 | every exit has label "401", "500", "502" or the status text of the upstream code; exactly the two exits after Do dispatch a request, one each |
| OllamaProxy.Proxy.constructor | main.go:38-49 | the settings are loaded (Valid) and the aggregate and the client log start empty |
| OllamaProxy.Proxy.ProxyHandler | main.go:71-117 | the handler ends in the state of Decide's exit: one counter entry +1 with the exit's label, an observation exactly on success, the client log extended by exactly the dispatched request, and the writer's status, headers and body as the exit says |
| OllamaProxy.Proxy.MetricsHandler | main.go:52-60 | a mismatched key gets 401 "Unauthorized" and nothing else; it can change neither the counters, the histogram nor the client, since it modifies only the writer |

## Left out

- Body streaming: `io.Copy` is modelled as appending the whole upstream body. A copy that fails part-way and `resp.Body.Close` are not modelled.
- Time: `time.Now`, `time.Since`, the duration in seconds and the bucket boundaries are left out, because they are clocks and floating point. The histogram is kept only as a number of observations per (method, path).
- Prometheus: registration and the text exposition of `promhttp.Handler` are foreign. `MetricsHandler` only reports, as `exposed`, that it hands the request on.
- Configuration: `godotenv.Load` and `os.Getenv` are I/O. What `init` guarantees, non-empty key and address, is the constructor's precondition, and the handlers require it as `Proxy.Valid`; `log.Fatal` is not modelled.
- Routing and serving: `http.HandleFunc` and `ListenAndServe` in `main` are foreign I/O. The model does not say which path reaches which handler.
- Logging (`log.Printf`) has no effect on behaviour. `r.RemoteAddr` is used only there, so it has no field.
- Concurrency: the metrics aggregate is a single sequential object. Prometheus's internal synchronisation is not modelled.
- `http.StatusText`, `http.NewRequest` and `http.DefaultClient.Do` are parameters. The client's reply is a function of the forwarded request, so redirects, timeouts and retries inside the client are not represented.
- Headers.IsCredentialKey: models `strings.ToLower` only on ASCII letters. Unicode lower-casing of non-ASCII characters (the Kelvin sign U+212A lower-cases to "k") is not modelled.
- Http.ResponseWriter.CopyHeaders: `w.Header()[k] = v` shares the slice `v` with the upstream response. Values are immutable sequences here, so that aliasing is not represented.
- Http.ResponseWriter.WriteHeader: net/http's range check on status codes and its handling of 1xx informational codes are not modelled. The writer records the bytes the handler writes; that net/http sends no body for a HEAD request is not modelled. Nor is it modelled that net/http's `Write` refuses a body after status 204 or 304 (it returns `ErrBodyNotAllowed`); the model appends whatever body the upstream returned.
- Http.ResponseWriter.Error: follows the current net/http definition of `http.Error`, which is not part of this model's source.
- Target.SplitTargetURL: the read-back is stated only for an upstream address of the form `scheme://host[:port]` (`UpstreamAddress`). A scheme-less address such as `localhost:11434`, which `init` (main.go:43) accepts, is not covered: `url.Parse` takes `localhost` as the scheme and the rest as an opaque part, while `127.0.0.1:11434` is refused outright (the 500 that follows is left to the `newRequestOk` parameter).
- Target.SplitTarget: reads a target back as `url.Parse` splits one whose upstream address has the form `scheme://host[:port]` (fragment at the first `#`, query at the first `?` before it) but does not percent-decode the path a second time, as `url.Parse` does. So a decoded path holding `%` (from `/a%2541`, which reaches the upstream as `/aA`) is not followed, and the 500 that a bad second escape (`/a%25zz`) causes is left to the `newRequestOk` parameter.
- OllamaProxy.ForwardedRequest: says that the target reads back as the inbound path and query only under `ReadsBack`: an upstream address of the form `scheme://host[:port]` with no `?` or `#`, no `?`, `#` or `%` in the decoded path and no `#` in the raw query. `init` only demands a non-empty address, so two kinds of address are allowed by the source and not covered by the read-back. One is an address holding `?` or `#`, where `url.Parse` cuts inside the address. The other is a scheme-less address: `url.Parse` reads `localhost:11434/api/tags` as scheme `localhost` with an opaque part and an empty path, and refuses `127.0.0.1:11434/api/tags`. `Target.DecodedQuestionMarkMovesIntoQuery` and `Target.DecodedHashCutsFragment` show two of the other cases.
- Strings: Go strings are byte sequences; here every string is a sequence of Unicode characters. A method, path or header that is not valid UTF-8 cannot be represented.
- Observability.Metrics.Inc: always increments. client_golang's `WithLabelValues` panics on a label value that is not valid UTF-8, such as the decoded path of a request for `/%ff`. For such a request main.go:78, 91, 100 and 115 panic instead, no counter entry rises, net/http drops the connection, and on the success path the request has already been forwarded. Because of the string representation above, the model cannot state that case.
- OllamaProxy.Proxy.ProxyHandler: promises its counter increment on every exit, for every representable request and every upstream status. Two cases where the source panics first are not captured. A path that is not valid UTF-8 is not represented (see the two lines above). An upstream status outside 100..999 (the HTTP/1 client accepts any three digits, such as "042") makes `w.WriteHeader` at main.go:108 panic, so main.go:115-116 never count or observe it, while the model increments the entry labelled `statusText(42)` and observes.
