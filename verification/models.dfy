/** The stored record shapes: ParsedRequest, ParsedResponse and the
    RequestResponse pair, plus the four parameter namespaces of a request. */
module Models {

  /** A flat namespace: every key carries one (possibly pre-joined) value. */
  type Fields = map<string, string>

  datatype Request = Request(
    httpMethod: string,
    path: string,
    getParams: Fields,
    headers: Fields,
    cookies: Fields,
    postParams: Fields)

  datatype Response = Response(
    code: int,
    message: string,
    headers: Fields,
    body: string)

  /** The record handed to the store. Its identifier and creation time are
      assigned by the store and are not part of the model. */
  datatype Exchange = Exchange(request: Request, response: Response)

  /** The four independent parameter namespaces of a request. */
  datatype ParamClass = Query | Post | Headers | Cookies

  function ClassFields(req: Request, c: ParamClass): Fields {
    match c
    case Query => req.getParams
    case Post => req.postParams
    case Headers => req.headers
    case Cookies => req.cookies
  }

  /** `req` with namespace `c` replaced by `m`. */
  function WithClassFields(req: Request, c: ParamClass, m: Fields): (r: Request)
    ensures ClassFields(r, c) == m
    ensures forall d :: d != c ==> ClassFields(r, d) == ClassFields(req, d)
    ensures r.httpMethod == req.httpMethod && r.path == req.path
  {
    match c
    case Query => req.(getParams := m)
    case Post => req.(postParams := m)
    case Headers => req.(headers := m)
    case Cookies => req.(cookies := m)
  }

  /** Go's map index: a missing key reads as the empty string. */
  function Lookup(m: Fields, k: string): string {
    if k in m then m[k] else ""
  }

  /** No element occurs twice. */
  predicate Distinct<T(==)>(xs: seq<T>) {
    forall i, j :: 0 <= i < j < |xs| ==> xs[i] != xs[j]
  }

  /** `order` is one visit order of `range` over a map with key set `keys`:
      every key exactly once. Go leaves the order unspecified, so the model
      takes it as an input. */
  predicate Enumerates(order: seq<string>, keys: set<string>) {
    && Distinct(order)
    && (forall k :: k in order ==> k in keys)
    && (forall k :: k in keys ==> k in order)
  }

  /** One visit order for each namespace of a request. */
  datatype KeyOrders = KeyOrders(
    query: seq<string>,
    post: seq<string>,
    headers: seq<string>,
    cookies: seq<string>)

  function KeysOf(ko: KeyOrders, c: ParamClass): seq<string> {
    match c
    case Query => ko.query
    case Post => ko.post
    case Headers => ko.headers
    case Cookies => ko.cookies
  }

  /** Every namespace of `req` is visited in the order `ko` gives it. */
  predicate OrdersFor(ko: KeyOrders, req: Request) {
    forall c :: Enumerates(KeysOf(ko, c), ClassFields(req, c).Keys)
  }
}
