/** The proxy listener: the dispatcher, the plaintext forward relay and the
    CONNECT tunnel, reduced to what each one captures and what the client
    sees. The network, the clock and the byte relay are inputs (`World`). */
module Proxy {
  import opened Wrappers
  import opened Strings
  import opened Models
  import opened Parser

  const MethodConnect := "CONNECT"

  /** The hop-by-hop header removed before a request is forwarded. */
  const HopHeader := "Proxy-Connection"

  const StatusOK := 200

  /** The upstream's first answer (redirects are not followed): status code,
      headers as the library hands them over, and the raw body. */
  datatype Upstream = Upstream(statusCode: int, header: MultiFields, body: string)

  /** The request handed to the outbound client: the incoming request
      without Proxy-Connection, and whether form parsing (r.ParseForm inside
      ParseRequest) has already read its body to the end. */
  datatype Outbound = Outbound(request: RawRequest, bodyRead: bool)

  /** Everything outside the proxy that one request meets:
      `send` is the outbound round trip (httpClient.Do), which decides what a
      request whose body was already read leads to; `dial` the TCP dial
      to a host, `fromTarget` the bytes the target sends through a tunnel
      until either side closes, `unescape` the HTML entity decoder. */
  datatype World = World(
    send: Outbound -> Result<Upstream, string>,
    dial: string -> Result<(), string>,
    fromTarget: string,
    unescape: string -> string)

  /** What the forward handler writes to the client: the status, the
      headers it sets, and the body. */
  datatype Reply = Reply(status: int, headers: Fields, body: string)

  /** The outcome of serving one request: a forwarded exchange (with the
      request that went upstream, the stored record and the client's reply),
      a tunnel (with its stored record and the status the client got), or a
      fatal error that ends the process before anything is stored. */
  datatype Served =
    | Forwarded(sent: Outbound, capture: Exchange, reply: Reply)
    | Tunnelled(capture: Exchange, status: int)
    | Fatal(reason: string)

  /** Header.Del("Proxy-Connection"): that header goes, nothing else changes. */
  function StripHop(raw: RawRequest): (out: RawRequest)
    ensures HopHeader !in out.header
    ensures out.header.Keys == raw.header.Keys - {HopHeader}
    ensures forall k :: k in out.header ==> out.header[k] == raw.header[k]
    ensures out.(header := raw.header) == raw
  {
    raw.(header := raw.header - {HopHeader})
  }

  /** Stripping the hop header changes the stored request only by dropping
      that header: the form test reads Content-Type, which is untouched. */
  lemma ParseIgnoresHop(raw: RawRequest)
    ensures var plain := ParseRequest(raw);
      ParseRequest(StripHop(raw)) == plain.(headers := plain.headers - {HopHeader})
  {
    var plain := ParseRequest(raw);
    var stripped := ParseRequest(StripHop(raw));
    assert HeaderGet(StripHop(raw).header, "Content-Type") == HeaderGet(raw.header, "Content-Type");
    assert stripped.headers == plain.headers - {HopHeader};
  }

  /** The upstream headers as the forward path re-sets them: each name once,
      holding its values already joined. */
  function RelayHeaders(h: MultiFields): (r: MultiFields)
    ensures r.Keys == h.Keys
    ensures forall k :: k in r ==> |r[k]| == 1
  {
    map k | k in h :: [Join(h[k], ValueSeparator)]
  }

  /** Joining a second time changes nothing: the stored response headers are
      exactly the upstream headers under the join rule. */
  lemma RelayHeadersJoinOnce(h: MultiFields)
    ensures JoinFields(RelayHeaders(h)) == JoinFields(h)
  {
    forall k | k in h
      ensures JoinFields(RelayHeaders(h))[k] == JoinFields(h)[k]
    {
      assert RelayHeaders(h)[k] == [Join(h[k], ValueSeparator)];
    }
  }

  /** ParseRequest calls ParseForm, and ParseForm reads the body to its end. */
  predicate ReadsBody(raw: RawRequest) {
    IsFormPost(raw) && raw.formReadsBody
  }

  /** handleHTTP. The stored request is parsed before the request is sent,
      so for a url-encoded POST the client is handed a request whose body
      form parsing has already consumed. */
  function HandleForward(raw: RawRequest, w: World): (r: Served)
    ensures r.Fatal? <==> w.send(Outbound(StripHop(raw), ReadsBody(raw))).Failure?
    ensures r.Fatal? ==> r.reason == w.send(Outbound(StripHop(raw), ReadsBody(raw))).error
    ensures !r.Fatal? ==> r.Forwarded? && r.sent.request == StripHop(raw)
    ensures r.Forwarded? ==> (r.sent.bodyRead <==> IsFormPost(raw) && raw.formReadsBody)
  {
    var stripped := StripHop(raw);
    var request := ParseRequest(stripped).(path := raw.url);
    var sent := Outbound(stripped, IsFormPost(stripped) && stripped.formReadsBody);
    assert HeaderGet(stripped.header, "Content-Type") == HeaderGet(raw.header, "Content-Type");
    match w.send(sent)
    case Failure(e) => Fatal(e)
    case Success(up) =>
      var relayed := RelayHeaders(up.header);
      var response := ParseResponse(RawResponse(up.statusCode, "", relayed), "").(body := w.unescape(up.body));
      Forwarded(sent, Exchange(request, response), Reply(up.statusCode, JoinFields(relayed), up.body))
  }

  /** A url-encoded POST whose form parsed is stored with its post
      parameters, yet the request handed to the outbound client has a body
      that was already read to the end. */
  lemma FormPostBodyRead(raw: RawRequest, w: World)
    requires IsFormPost(raw) && raw.postForm.Some? && raw.formReadsBody
    requires w.send(Outbound(StripHop(raw), true)).Success?
    ensures var r := HandleForward(raw, w);
      && r.Forwarded?
      && r.sent.bodyRead
      && JoinedFrom(r.capture.request.postParams, raw.postForm.value)
  {
    ParseIgnoresHop(raw);
  }

  /** A POST whose Content-Type merely contains the url-encoded type, but
      which the library does not take for that media type, goes through
      ParseForm with its body unread and no form found: it is stored without
      post parameters and forwarded with its body. */
  lemma OtherFormTypeKeepsBody(raw: RawRequest, w: World)
    requires IsFormPost(raw) && !raw.formReadsBody && raw.postForm == Some(map[])
    requires w.send(Outbound(StripHop(raw), false)).Success?
    ensures var r := HandleForward(raw, w);
      && r.Forwarded?
      && !r.sent.bodyRead
      && r.sent.request == StripHop(raw)
      && r.capture.request.postParams == map[]
  {
    ParseIgnoresHop(raw);
  }

  /** What the forward path stores and what the client sees, for a
      successful upstream round trip. */
  lemma ForwardCapture(raw: RawRequest, w: World)
    requires w.send(Outbound(StripHop(raw), ReadsBody(raw))).Success?
    ensures var up := w.send(Outbound(StripHop(raw), ReadsBody(raw))).value;
      var r := HandleForward(raw, w);
      var plain := ParseRequest(raw);
      && r.Forwarded?
      && r.capture.request == plain.(path := raw.url, headers := plain.headers - {HopHeader})
      && HopHeader !in r.capture.request.headers
      && r.capture.response.code == up.statusCode == r.reply.status
      && r.capture.response.message == ""
      && JoinedFrom(r.capture.response.headers, up.header)
      && r.reply.headers == r.capture.response.headers
      && r.reply.body == up.body
      && r.capture.response.body == w.unescape(r.reply.body)
  {
    var up := w.send(Outbound(StripHop(raw), ReadsBody(raw))).value;
    ParseIgnoresHop(raw);
    RelayHeadersJoinOnce(up.header);
  }

  /** The text before the first ':' of the URL; "" for an empty URL. */
  function TunnelHost(url: string): string {
    Split(url, ":")[0]
  }

  /** The placeholder path a tunnel is stored under. */
  function TunnelPath(url: string): string {
    "https:" + TunnelHost(url) + "/"
  }

  /** The host part is the longest colon-free prefix of the URL: it starts
      the URL, holds no ':', and is followed by ':' when the URL has one
      (and is the whole URL when it has none). */
  lemma TunnelHostIsPrefix(url: string)
    ensures IsPrefix(TunnelHost(url), url)
    ensures !Contains(TunnelHost(url), ":")
    ensures Contains(url, ":") ==> IsPrefix(TunnelHost(url) + ":", url)
    ensures !Contains(url, ":") ==> TunnelHost(url) == url
  {
    JoinOfSplit(url, ":");
    JoinFirstIsPrefix(Split(url, ":"), ":");
    SplitPiecesAvoidSep(url, ":");
    if Contains(url, ":") {
      SplitFirstThenSep(url, ":");
    } else {
      SplitWithoutSep(url, ":");
    }
  }

  /** handleHTTPS up to the start of the relay, and the record stored once
      the target side closes. */
  function HandleTunnel(raw: RawRequest, w: World): (r: Served)
    ensures r.Fatal? <==> w.dial(raw.host).Failure?
    ensures r.Fatal? ==> r.reason == w.dial(raw.host).error
    ensures !r.Fatal? ==> r.Tunnelled? && r.status == StatusOK
    ensures r.Tunnelled? ==>
      && r.capture.request.path == TunnelPath(raw.url)
      && r.capture.response == Response(StatusOK, "", map[], w.fromTarget)
  {
    var request := ParseRequest(raw).(path := TunnelPath(raw.url));
    match w.dial(raw.host)
    case Failure(e) => Fatal(e)
    case Success(_) =>
      var response := ParseResponse(RawResponse(StatusOK, "", map[]), "").(body := w.fromTarget);
      Tunnelled(Exchange(request, response), StatusOK)
  }

  /** ServeHTTP: CONNECT opens a tunnel, every other method is forwarded. */
  function ServeHTTP(raw: RawRequest, w: World): (r: Served)
    ensures r.Tunnelled? ==> raw.httpMethod == MethodConnect
    ensures r.Forwarded? ==> raw.httpMethod != MethodConnect
    ensures r.Fatal? <==>
      if raw.httpMethod == MethodConnect then w.dial(raw.host).Failure?
      else w.send(Outbound(StripHop(raw), ReadsBody(raw))).Failure?
  {
    if raw.httpMethod == MethodConnect then HandleTunnel(raw, w) else HandleForward(raw, w)
  }

  /** A tunnel's stored request keeps the CONNECT method and has no form
      parameters, whatever its headers say; its headers keep
      Proxy-Connection, which only the forward path removes. */
  lemma TunnelRequestShape(raw: RawRequest, w: World)
    requires ServeHTTP(raw, w).Tunnelled?
    ensures var q := ServeHTTP(raw, w).capture.request;
      && q.httpMethod == MethodConnect
      && q.postParams == map[]
      && JoinedFrom(q.headers, raw.header)
  {
  }

  /** A CONNECT to example.com:443 (URL text "//example.com:443") is stored
      under "https:" + "//example.com" + "/", that is https://example.com/. */
  lemma TunnelPathExample()
    ensures TunnelHost("//example.com:443") == "//example.com"
    ensures TunnelPath("//example.com:443") == "https:" + "//example.com" + "/"
  {
    var host := "//example.com";
    assert "//example.com:443" == host + ":" + "443";
    SplitAfterFreePiece(host, ":", "443");
    NoLeadCharNoContains("443", ":");
    SplitWithoutSep("443", ":");
    assert Split("//example.com:443", ":") == [host] + ["443"];
    assert TunnelHost("//example.com:443") == host;
  }

  /** The GET request of the forward example: /search?q=test on
      example.com, sent with a Proxy-Connection header. */
  const ExampleGet := RawRequest("GET", "/search", "http://example.com/search?q=test", "example.com",
    map["q" := ["test"]], map[HopHeader := ["keep-alive"]], [], None, false)

  /** The upstream's answer in the forward example. */
  const ExampleAnswer := Upstream(200, map["Content-Type" := ["text/html"]], "&lt;b&gt;")

  /** The example's stored request: the absolute URL as path, q split out,
      and no headers left once Proxy-Connection is gone. */
  lemma ExampleGetParsed()
    ensures var plain := ParseRequest(ExampleGet);
      plain.(path := ExampleGet.url, headers := plain.headers - {HopHeader})
        == Request("GET", "http://example.com/search?q=test", map["q" := "test"], map[], map[], map[])
  {
    var plain := ParseRequest(ExampleGet);
    assert plain.getParams == map["q" := "test"] by {
      assert JoinFields(map["q" := ["test"]]) == map["q" := "test"];
    }
    assert plain.headers - {HopHeader} == map[];
    assert plain.cookies == map[];
    assert !IsFormPost(ExampleGet);
  }

  /** A plain GET through the proxy is stored under its absolute URL, with
      the query parameter split out, and the client sees the upstream's
      status, headers and body. */
  lemma ForwardExample(w: World)
    requires w.send(Outbound(StripHop(ExampleGet), false)) == Success(ExampleAnswer)
    ensures var r := HandleForward(ExampleGet, w);
      && r.Forwarded?
      && r.capture.request == Request("GET", "http://example.com/search?q=test", map["q" := "test"], map[], map[], map[])
      && r.reply == Reply(200, map["Content-Type" := "text/html"], "&lt;b&gt;")
      && r.capture.response == Response(200, "", map["Content-Type" := "text/html"], w.unescape("&lt;b&gt;"))
  {
    ForwardCapture(ExampleGet, w);
    ExampleGetParsed();
    var r := HandleForward(ExampleGet, w);
    assert r.capture.response.headers == map["Content-Type" := "text/html"] by {
      assert JoinFields(ExampleAnswer.header) == map["Content-Type" := "text/html"];
    }
  }
}
