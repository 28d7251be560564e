/** The message codec: turns what the HTTP library has already split out of a
    request or response into the flat record that is stored. */
module Parser {
  import opened Wrappers
  import opened Strings
  import opened Models

  /** A multi-valued namespace as the HTTP library hands it over
      (url.Values, http.Header, the parsed form): values in arrival order. */
  type MultiFields = map<string, seq<string>>

  /** http.Cookie, reduced to the two fields the codec reads. */
  datatype Cookie = Cookie(name: string, value: string)

  /** What the codec and the proxy read from an incoming request: the method,
      the URL's path, the URL as text (URL.String), the Host the request
      names, and the query, headers and cookies already split by the library.
      `postForm` is the outcome of ParseForm on the body, None when that
      parse fails. `formReadsBody` says whether ParseForm, once called, reads
      the body: the library does so only when it takes the Content-Type to
      be exactly the url-encoded media type, which is a stricter test than
      the substring test ParseRequest applies before calling it. A ParseForm
      that leaves the body unread finds no form: such a request comes with
      `postForm == Some(map[])`. */
  datatype RawRequest = RawRequest(
    httpMethod: string,
    urlPath: string,
    url: string,
    host: string,
    query: MultiFields,
    header: MultiFields,
    cookies: seq<Cookie>,
    postForm: Option<MultiFields>,
    formReadsBody: bool)

  /** What the codec reads from a response: status code, status text, headers. */
  datatype RawResponse = RawResponse(statusCode: int, status: string, header: MultiFields)

  /** Separator placed between the values of a repeated key. */
  const ValueSeparator := ", "

  const FormContentType := "application/x-www-form-urlencoded"

  /** `r` has exactly the keys of `m`, each holding its values joined in
      arrival order. */
  predicate JoinedFrom(r: Fields, m: MultiFields) {
    && r.Keys == m.Keys
    && forall k :: k in r ==> r[k] == Join(m[k], ValueSeparator)
  }

  /** The common body of parseQueryParams, parseHeaders and parseFormParams,
      as a value. */
  function JoinFields(m: MultiFields): Fields {
    map k | k in m :: Join(m[k], ValueSeparator)
  }

  /** The loop of parseQueryParams / parseHeaders / parseFormParams, visiting
      the keys in the order `range` happens to choose. Whatever that order,
      the result is the same joined namespace. */
  method JoinFieldsInRangeOrder(m: MultiFields, order: seq<string>) returns (r: Fields)
    requires forall k :: k in order <==> k in m
    ensures r.Keys == m.Keys
    ensures forall k :: k in r ==> r[k] == Join(m[k], ValueSeparator)
    ensures r == JoinFields(m)
  {
    r := map[];
    var i := 0;
    while i < |order|
      invariant 0 <= i <= |order|
      invariant forall k :: k in r <==> k in order[..i]
      invariant forall k :: k in r ==> k in m && r[k] == Join(m[k], ValueSeparator)
    {
      assert order[..i + 1] == order[..i] + [order[i]];
      r := r[order[i] := Join(m[order[i]], ValueSeparator)];
      i := i + 1;
    }
    assert order[..|order|] == order;
  }

  /** Joining loses nothing and keeps the order: when no value contains a
      comma, splitting a joined entry at ", " gives back its value list.
      In particular a single value is stored unchanged. */
  lemma JoinFieldsRecoverable(m: MultiFields, k: string)
    requires k in m && |m[k]| >= 1
    requires forall i, j :: 0 <= i < |m[k]| && 0 <= j < |m[k][i]| ==> m[k][i][j] != ','
    ensures k in JoinFields(m)
    ensures Split(JoinFields(m)[k], ValueSeparator) == m[k]
  {
    SplitOfJoin(m[k], ValueSeparator);
  }

  /** The empty, single and two-value cases of the join rule. */
  lemma JoinRuleCases(m: MultiFields, k: string)
    requires k in m
    ensures |m[k]| == 0 ==> JoinFields(m)[k] == ""
    ensures |m[k]| == 1 ==> JoinFields(m)[k] == m[k][0]
    ensures |m[k]| == 2 ==> JoinFields(m)[k] == m[k][0] + ", " + m[k][1]
  {
    if |m[k]| == 2 {
      assert m[k][1..] == [m[k][1]];
      assert Join(m[k][1..], ValueSeparator) == m[k][1];
      assert Join(m[k], ValueSeparator) == m[k][0] + ValueSeparator + m[k][1];
    }
  }

  /** Index `i` holds the last cookie carrying its name. */
  ghost predicate LastNamed(cs: seq<Cookie>, i: int) {
    && 0 <= i < |cs|
    && forall j :: i < j < |cs| ==> cs[j].name != cs[i].name
  }

  /** parseCookies: one entry per cookie name. */
  function ParseCookies(cs: seq<Cookie>): (r: Fields)
    ensures forall n :: n in r <==> exists i :: 0 <= i < |cs| && cs[i].name == n
    decreases |cs|
  {
    if |cs| == 0 then map[]
    else
      var last := cs[|cs| - 1];
      var earlier := ParseCookies(cs[..|cs| - 1]);
      assert forall i :: 0 <= i < |cs| - 1 ==> cs[..|cs| - 1][i] == cs[i];
      earlier[last.name := last.value]
  }

  /** A repeated cookie name keeps the value of its last cookie. */
  lemma {:induction false} ParseCookiesLastWins(cs: seq<Cookie>)
    ensures forall i :: LastNamed(cs, i) ==> cs[i].name in ParseCookies(cs) && ParseCookies(cs)[cs[i].name] == cs[i].value
    decreases |cs|
  {
    if |cs| > 0 {
      var init := cs[..|cs| - 1];
      ParseCookiesLastWins(init);
      forall i | LastNamed(cs, i)
        ensures cs[i].name in ParseCookies(cs) && ParseCookies(cs)[cs[i].name] == cs[i].value
      {
        if i < |init| {
          assert init[i] == cs[i];
          assert LastNamed(init, i);
        }
      }
    }
  }

  /** http.Header.Get: the first value stored under the key, or "". */
  function HeaderGet(h: MultiFields, key: string): string {
    if key in h && |h[key]| > 0 then h[key][0] else ""
  }

  /** The request is a POST whose Content-Type announces a url-encoded form. */
  predicate IsFormPost(raw: RawRequest) {
    && raw.httpMethod == "POST"
    && Contains(HeaderGet(raw.header, "Content-Type"), FormContentType)
  }

  /** ParseRequest. */
  function ParseRequest(raw: RawRequest): (r: Request)
    ensures r.httpMethod == raw.httpMethod && r.path == raw.urlPath
    ensures JoinedFrom(r.getParams, raw.query)
    ensures JoinedFrom(r.headers, raw.header)
    ensures r.cookies == ParseCookies(raw.cookies)
    ensures IsFormPost(raw) && raw.postForm.Some? ==> JoinedFrom(r.postParams, raw.postForm.value)
    ensures !(IsFormPost(raw) && raw.postForm.Some?) ==> r.postParams == map[]
  {
    var parsed := Request(
      raw.httpMethod, raw.urlPath,
      JoinFields(raw.query), JoinFields(raw.header), ParseCookies(raw.cookies),
      map[]);
    if IsFormPost(raw) then
      match raw.postForm
      case Some(form) => parsed.(postParams := JoinFields(form))
      case None => parsed
    else parsed
  }

  /** ParseResponse. */
  function ParseResponse(raw: RawResponse, body: string): (r: Response)
    ensures r.code == raw.statusCode && r.message == raw.status && r.body == body
    ensures JoinedFrom(r.headers, raw.header)
  {
    Response(raw.statusCode, raw.status, JoinFields(raw.header), body)
  }
}
