# ProxyFox core, modelled in Dafny

ProxyFox is a forward HTTP proxy written in Go. It records every exchange it
relays and can later replay a stored request or scan it for command
injection. This project models four parts of it as pure functions and
proves properties about them:

- **Message codec** (`parser.dfy`, module `Parser`). This is how a request
  or response the HTTP library has already split up becomes the flat
  stored record. Repeated values are joined with `", "`. Cookies are keyed
  by name. Post parameters are filled only for url-encoded POST forms.
- **Replay engine** (`replay.dfy`, module `Replay`).
  - `execute` rebuilds a stored request as a `curl` command routed through
    the proxy.
  - It trims the command output to the text after its last `<html>`.
  - `modifyRequest` appends a payload to one parameter.
- **Injection scanner** (`scanner.dfy`, module `Scanner`).
  - `checkCommandInjection` tries three shell payloads on every key of
    every namespace.
  - It reports each attempt whose replay output contains `root:`.
  - It returns a fixed all-clear sentinel when no attempt matched.
- **Proxy listener** (`proxy.dfy`, module `Proxy`).
  - `ServeHTTP` sends CONNECT requests to the tunnel and every other
    method to the forward relay.
  - `handleHTTP` strips `Proxy-Connection`, forwards the request, relays
    the reply and stores the exchange.
  - `handleHTTPS` dials the target and stores a placeholder path together
    with what the target sent through the tunnel.

Supporting modules:
- `Strings` models `strings.Join`, `strings.Split` and `strings.Contains`.
- `Models` holds the stored record: `Request` (Go's `ParsedRequest`),
  `Response` (`ParsedResponse`) and `Exchange` (`RequestResponse` without
  its ID and timestamp).
- `Wrappers` holds `Option` and `Result`.

Go's map iteration order is random. Loops whose result depends on the
order are modelled with an explicit visiting order passed in as a
parameter, and the contracts state what holds for every such order:
- `KeyOrders` gives the key order of each namespace;
- a `seq<ParamClass>` gives the order of the scan's namespace table.

Loops whose result does not depend on the order are map comprehensions.
`Parser.JoinFields` is one, and `Parser.JoinFieldsInRangeOrder` shows that
the range loop gives the same map for every visiting order. The header
loop of the forward path (`Proxy.RelayHeaders`) is one too. The outside world is
passed in as functions rather than performed:
- the shell that runs `curl`;
- the upstream round trip;
- the TCP dial;
- the bytes that come back through a tunnel;
- the HTML entity decoder.

Some behaviours of the code that the model keeps:
- **Status text.** The proxy never sets `Status` on the response it stores,
  so the captured `message` is always `""`.
- **Fatal errors.** An upstream or dial error calls `log.Fatalf`, which
  ends the process. It is modelled as the outcome `Fatal`, with nothing
  stored.
- **Tunnel capture.** A tunnel's stored record keeps only the bytes that
  flowed from the target to the client (`proxy/main.go:148-151`). The
  client-to-target direction is relayed but not stored.
- **Proxy-Connection.** Only the forward path removes `Proxy-Connection`.
  A tunnel's stored headers keep it.
- **Consumed form body.** The forward path parses the request for storage
  (`proxy/main.go:75`) before it sends it (`proxy/main.go:86`). For a
  POST whose Content-Type contains the url-encoded type, parsing calls
  `r.ParseForm()` (`pkg/domain/parser/parser.go:19-20`). That call reads
  the body to the end when the library takes the Content-Type to be exactly
  `application/x-www-form-urlencoded`. Whether it does is an input
  (`formReadsBody`), as the parsed form is. The request handed to the
  outbound client is marked as having its body already read exactly when
  both hold.

## Model

| member | source | states |
|---|---|---|
| Parser.JoinFieldsInRangeOrder | pkg/domain/parser/parser.go:38-52 | Whatever order `range` visits the keys in, the result has exactly the input's keys, each holding its values joined with ", " in arrival order. Every visiting order yields the same map. |
| Parser.JoinRuleCases | pkg/domain/parser/parser.go:41 | A key with no values is stored as "". A single value is stored unchanged. Two values are stored as "a, b". |
| Parser.JoinFieldsRecoverable | pkg/domain/parser/parser.go:62-68 | Joining loses nothing for a non-empty value list in which no value holds a comma: splitting the stored entry at ", " gives back the value list, in order. |
| Parser.ParseCookies | pkg/domain/parser/parser.go:54-60 | The cookie map has an entry for exactly the names that occur among the cookies. |
| Parser.ParseCookiesLastWins | pkg/domain/parser/parser.go:55-58 | A name that occurs several times keeps the value of its last cookie. |
| Parser.ParseRequest | pkg/domain/parser/parser.go:10-27 | Method and URL path are copied. Query and headers are joined per key, and cookies are keyed by name. Post parameters come from the parsed form only for a POST whose first Content-Type value contains application/x-www-form-urlencoded and whose form parsed; otherwise they are empty. |
| Parser.ParseResponse | pkg/domain/parser/parser.go:29-36 | Code, status text and body are copied, and headers are joined per key. |
| Replay.ClassNamed | pkg/api/http/handler.go:227-236 | The labels "GET", "POST", "Headers" and "Cookies" select their namespace, and no other label selects one. |
| Replay.ModifyRequest | pkg/api/http/handler.go:224-238 | An unknown label leaves the request as it is. Otherwise the key holds its old value followed by the payload; a missing key is created from "". Every other key, every other namespace, the method and the path are unchanged. |
| Replay.Command | pkg/api/http/handler.go:115-139 | The command starts with the proxy prefix. "-X <method>" follows exactly when the method is not CONNECT. The command ends with a space and the stored path. |
| Replay.CommandCarriesParams | pkg/api/http/handler.go:123-137 | Every parameter of every namespace appears in the command as its namespace's option (-G --data-urlencode, -d, -H or --cookie), whatever order `range` visits them in. |
| Replay.Truncate | pkg/api/http/handler.go:148-150 | The result starts with `<html>` and contains no further `<html>`. Output without the marker becomes `<html>` followed by the output. Otherwise the result is the output's tail from its last `<html>`. |
| Replay.TruncateIdempotent | pkg/api/http/handler.go:148-150 | Trimming an already trimmed output changes nothing. |
| Replay.Execute | pkg/api/http/handler.go:141-150 | Execution fails exactly when the command fails, and then carries the command's output. On success it returns the trimmed output, which starts with `<html>`. |
| Scanner.KeyAttempts | pkg/api/http/handler.go:202-204 | Each key gets three attempts, in key order; attempt i uses key i/3 and payload i mod 3. |
| Scanner.Schedule | pkg/api/http/handler.go:201-204 | Every attempt names a visited namespace and one of that namespace's visited keys. |
| Scanner.SchedulePayloadOrder | pkg/api/http/handler.go:201-204 | The scan makes three times as many attempts as there are keys, and attempt i carries payload i mod 3. |
| Scanner.JudgeComplete | pkg/api/http/handler.go:205-213 | Every replay that succeeds with "root:" in its output yields the finding naming its key and payload. |
| Scanner.JudgeSound | pkg/api/http/handler.go:205-213 | Every finding names an attempt whose replay succeeded with "root:" in its output. A failed replay never yields a finding. |
| Scanner.JudgeExact | pkg/api/http/handler.go:201-216 | There is exactly one finding per hit, in attempt order. |
| Scanner.JudgeSingleHit | pkg/api/http/handler.go:201-216 | When exactly one attempt hits, the findings are exactly its report, whatever the attempt order. |
| Scanner.AllClearIffNoHit | pkg/api/http/handler.go:218-221 | The sentinel "всё хорошо :)" is returned exactly when no attempt hit. Otherwise the findings are returned. |
| Scanner.ScanAsWritten | pkg/api/http/handler.go:191-222 | The loop as written, which carries one mutated request from attempt to attempt, yields the verdict on the replies to the cumulatively mutated requests. |
| Scanner.RunAliasedIsJudge | pkg/api/http/handler.go:201-216 | The request-carrying loop reports, in order, exactly the attempts whose cumulative request's replay hit. |
| Scanner.ScanAsWrittenAllClear | pkg/api/http/handler.go:191-222 | The scan as written returns the sentinel exactly when none of its replies hit. |
| Scanner.ScanClonedAllClear | pkg/api/http/handler.go:191-222 | The clone-per-attempt scan returns the sentinel exactly when none of its replies hit. |
| Scanner.ScanAccumulatesPayloads | pkg/api/http/handler.go:224-236 | After the scan as written, every key of every namespace holds its stored value followed by all three payloads. No key is added or removed, and method and path are unchanged. |
| Scanner.ClonedAttemptIsolated | pkg/api/http/handler.go:224-236 | Starting from the stored request, an attempt changes only its own key, by its own payload. |
| Scanner.ExecuteHitReadsTrimmed | pkg/api/http/handler.go:148-150 | With execute as the replay, a reply hits exactly when the command succeeds and its output after the `<html>` cut contains "root:". |
| Scanner.MarkerBeforeHtmlMissed | pkg/api/http/handler.go:148-150 | An output "root:x<html>ok" contains "root:", yet its execute reply is no hit, because the cut keeps only "<html>ok". |
| Scanner.AliasedScanMisattributes | pkg/api/http/handler.go:225 | For q=test and id=1, with q visited first, against a target that echoes q and so shows "root:" only when q carries the backtick payload, the scan as written reports four findings: the backtick payload on q, and all three payloads on id. |
| Scanner.ClonedScanAttributesOnce | pkg/api/http/handler.go:225 | For the same request and target, the clone-per-attempt scan reports only the backtick payload on q. |
| Proxy.ServeHTTP | proxy/main.go:63-69 | CONNECT opens a tunnel and every other method is forwarded. Serving is fatal exactly when the dial fails for a tunnel, or the upstream call fails for a forward. |
| Proxy.StripHop | proxy/main.go:72 | Proxy-Connection is removed from the headers, and nothing else in the request changes. |
| Proxy.ParseIgnoresHop | proxy/main.go:72-75 | Stripping the hop header changes the stored request only by dropping that header. |
| Proxy.HandleForward | proxy/main.go:71-90 | The forward is fatal exactly when the upstream call fails, and then carries its error. Otherwise the request handed to the client is the incoming one without Proxy-Connection. Its body has already been read exactly when ParseForm was called (a POST whose Content-Type contains the url-encoded type) and read the body. |
| Proxy.FormPostBodyRead | proxy/main.go:75-86 | A url-encoded POST whose form parsed is stored with its post parameters, but the request handed to the outbound client has a body that form parsing already read. |
| Proxy.OtherFormTypeKeepsBody | proxy/main.go:75-86 | A POST whose Content-Type only contains the url-encoded type, and which ParseForm does not read, is stored without post parameters and handed to the outbound client with its body unread. |
| Proxy.RelayHeadersJoinOnce | proxy/main.go:93-98 | Re-setting each upstream header to its joined value and joining again gives exactly the upstream headers under the join rule. |
| Proxy.ForwardCapture | proxy/main.go:74-109 | The stored request is the parsed request under its absolute URL, without Proxy-Connection. The stored code equals the client's status, and the stored message is "". The stored headers equal the client's headers. The stored body is the entity-decoded client body. |
| Proxy.ForwardExample | proxy/main.go:72-109 | A GET for http://example.com/search?q=test is stored under that URL with q=test, and the client sees the upstream's 200, headers and body. |
| Proxy.TunnelHostIsPrefix | proxy/main.go:119 | The host part of the URL text starts it and contains no ':'. It is followed by ':' when the URL has one, and it is the whole URL otherwise. |
| Proxy.HandleTunnel | proxy/main.go:116-130 | The tunnel is fatal exactly when the dial fails. Otherwise the client gets 200 and the stored record has path "https:" + host + "/", code 200, empty message and headers, and the target's bytes as body. |
| Proxy.TunnelRequestShape | proxy/main.go:117-119 | A tunnel's stored request has method CONNECT and no post parameters, and keeps all its headers, Proxy-Connection included. |
| Proxy.TunnelPathExample | proxy/main.go:119 | A CONNECT to example.com:443, whose URL text is "//example.com:443", is stored under "https://example.com/". |

## Left out

- The network: listening, dialing, the outbound HTTP client and redirect handling are left out. The upstream's first answer and the dial outcome are inputs.
- The two `broadcastData` copy goroutines, the hijack of the client connection, and their concurrency are left out. A tunnel's body is an input: the bytes the target sends until either side closes.
- The hijack failure paths (`proxy/main.go:132-144`) are left out; the model assumes the response writer supports hijacking.
- Proxy.HandleForward: what the outbound client does with a request whose body form parsing already read is left to the `send` input. With a Content-Length the Go client is expected to report a length mismatch, which leads to `Fatal`. With chunked encoding the target gets an empty body. The model only marks the outbound request (`Outbound.bodyRead`). The media-type test that decides whether ParseForm reads the body is not modelled: its outcome is the input `formReadsBody`.
- `log.Fatalf` ending the process is not modelled as such. It is the outcome `Fatal`, which stores nothing.
- Storage is not modelled: `AddRequestResponse`, MongoDB, the record's ObjectID and CreatedAt. The model returns the exchange that would be stored.
- The URL-query, cookie-header and form-body parsers of the HTTP library, header-name canonicalisation and `html.UnescapeString` are inputs: already-split maps, an `Option` for the form, and an `unescape` function.
- Go's distinction between a nil map and an empty map, visible only in the JSON and BSON encodings, is not modelled.
- Running `bash -c` is left out. `Execute` takes the shell as a function from command text to output or error.
- Replays inside the scan: the scan takes the replay as a function from request to result, not `Replay.Execute` with a fresh key order per attempt, which keeps the scan's proofs apart from command building. That result stands for `execute`'s reply after the `<html>` cut (`pkg/api/http/handler.go:148-150`), so the "root:" test reads only the text from the last `<html>` on, and a "root:" that appears only before it never becomes a finding. `Scanner.ExecuteHitReadsTrimmed` and `Scanner.MarkerBeforeHtmlMissed` state this for `Replay.Execute`.
- The text of the error `execute` returns on failure is left out. The model keeps only the combined output it carries.
- The REST handlers, JSON encoding, the Swagger annotations, CORS and program start-up (`cmd/main.go`) are left out.
- Scanner.ScanAsWrittenAllClear: states the all-clear condition in terms of the replies to the scan's requests (`AliasedResponses`), not of each cumulative request spelled out.
- Scanner.ScanClonedAllClear: states the all-clear condition in terms of the replies to the scan's requests (`ClonedResponses`), not of each request spelled out.
- Proxy.TunnelPathExample: its contract writes the stored path as `"https:" + "//example.com" + "/"`, which is the text `https://example.com/`.

## Findings

| source | as written | input that shows it | evidently intended | confidence | as-written member | corrected member |
|---|---|---|---|---|---|---|
| pkg/api/http/handler.go:225 | `modifiedRequest := request` copies the pointer, so every attempt appends its payload to the one in-memory request loaded for this scan. Later attempts still carry the earlier payloads. The record in the database is not changed, and the mutated copy is dropped when the handler returns. Copying the struct alone would not help, because its four maps would still be shared. | Stored GET with q=test and id=1, where `range` visits q first, against a target whose page echoes q. The command text puts each value inside double quotes (`pkg/api/http/handler.go:124`), so the shell running curl expands the backtick payload and leaves `;` and `\|` literal. The attempts on q send `test;cat /etc/passwd;` and then `test;cat /etc/passwd;\|cat /etc/passwd\|`, and both miss. The third attempt adds the backtick payload and hits. The three attempts on id still carry it in q, so all three hit. Four findings are reported, three of them naming id. | Each attempt starts from a deep copy of the stored request, so a finding names the key and payload that caused it. Here only the backtick payload on q is reported. | not executed | Scanner.AliasedScanMisattributes | Scanner.ClonedScanAttributesOnce |
