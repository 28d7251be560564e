/** The replay engine: rebuilding a stored request as a curl command line,
    running it through the shell (an oracle here), trimming the output at
    the last `<html>` marker, and the one-key mutation the scanner applies. */
module Replay {
  import opened Wrappers
  import opened Strings
  import opened Models

  /** Every replay is routed back through the proxy itself. */
  const ProxyPrefix := "curl -x http://go-app-8080:8080 "

  const HtmlMarker := "<html>"

  /** The labels modifyRequest switches on; they are also the keys of the
      scanner's table of parameter classes. */
  function ClassName(c: ParamClass): string {
    match c
    case Query => "GET"
    case Post => "POST"
    case Headers => "Headers"
    case Cookies => "Cookies"
  }

  /** Which namespace a label selects; any other label selects none. */
  function ClassNamed(name: string): (r: Option<ParamClass>)
    ensures r.Some? ==> ClassName(r.value) == name
    ensures forall c :: ClassName(c) == name ==> r == Some(c)
  {
    if name == "GET" then Some(Query)
    else if name == "POST" then Some(Post)
    else if name == "Headers" then Some(Headers)
    else if name == "Cookies" then Some(Cookies)
    else None
  }

  /** modifyRequest: appends `payload` to the value of `key` in the namespace
      that `paramType` names (a missing key reads as ""); an unknown label
      changes nothing. */
  function ModifyRequest(req: Request, paramType: string, key: string, payload: string): (r: Request)
    ensures ClassNamed(paramType).None? ==> r == req
    ensures ClassNamed(paramType).Some? ==>
      var c := ClassNamed(paramType).value;
      && r.httpMethod == req.httpMethod && r.path == req.path
      && (forall d :: d != c ==> ClassFields(r, d) == ClassFields(req, d))
      && ClassFields(r, c).Keys == ClassFields(req, c).Keys + {key}
      && ClassFields(r, c)[key] == Lookup(ClassFields(req, c), key) + payload
      && (forall k :: k in ClassFields(req, c) && k != key ==> ClassFields(r, c)[k] == ClassFields(req, c)[k])
  {
    match ClassNamed(paramType)
    case None => req
    case Some(c) =>
      var m := ClassFields(req, c);
      WithClassFields(req, c, m[key := Lookup(m, key) + payload])
  }

  /** The command-line option carrying one parameter of a namespace. */
  function Flag(c: ParamClass, key: string, value: string): string {
    match c
    case Query => " -G --data-urlencode \"" + key + "=" + value + "\""
    case Post => " -d \"" + key + "=" + value + "\""
    case Headers => " -H \"" + key + ": " + value + "\""
    case Cookies => " --cookie \"" + key + "=" + value + "\""
  }

  /** The options for a namespace, in the order its keys are visited. */
  function Flags(c: ParamClass, m: Fields, order: seq<string>): string
    decreases |order|
  {
    if |order| == 0 then ""
    else Flag(c, order[0], Lookup(m, order[0])) + Flags(c, m, order[1..])
  }

  function MethodOption(httpMethod: string): string {
    if httpMethod != "CONNECT" then "-X " + httpMethod else ""
  }

  /** Everything after the method option: the four namespaces' options and
      then the target. */
  function Arguments(req: Request, ko: KeyOrders): string {
    Flags(Query, req.getParams, ko.query)
      + (Flags(Post, req.postParams, ko.post)
      + (Flags(Headers, req.headers, ko.headers)
      + (Flags(Cookies, req.cookies, ko.cookies)
      + (" " + req.path))))
  }

  /** The command execute hands to the shell. */
  function Command(req: Request, ko: KeyOrders): (cmd: string)
    ensures IsPrefix(ProxyPrefix, cmd)
    ensures IsPrefix("-X ", cmd[|ProxyPrefix|..]) <==> req.httpMethod != "CONNECT"
    ensures req.httpMethod != "CONNECT" ==> IsPrefix(ProxyPrefix + "-X " + req.httpMethod, cmd)
    ensures IsSuffix(" " + req.path, cmd)
  {
    var cmd := ProxyPrefix + (MethodOption(req.httpMethod) + Arguments(req, ko));
    ArgumentsStartWithSpace(req, ko);
    CommandShape(req.httpMethod, Arguments(req, ko), req.path);
    cmd
  }

  /** The shape facts of a command with arguments `args` ending in the target. */
  lemma CommandShape(httpMethod: string, args: string, path: string)
    requires |args| > 0 && args[0] == ' '
    requires IsSuffix(" " + path, args)
    ensures var cmd := ProxyPrefix + (MethodOption(httpMethod) + args);
      && IsPrefix(ProxyPrefix, cmd)
      && (IsPrefix("-X ", cmd[|ProxyPrefix|..]) <==> httpMethod != "CONNECT")
      && (httpMethod != "CONNECT" ==> IsPrefix(ProxyPrefix + "-X " + httpMethod, cmd))
      && IsSuffix(" " + path, cmd)
  {
    var rest := MethodOption(httpMethod) + args;
    var cmd := ProxyPrefix + rest;
    assert cmd[|ProxyPrefix|..] == rest;
    if httpMethod == "CONNECT" {
      assert rest == args;
      if IsPrefix("-X ", rest) {
        assert rest[..3][0] == rest[0];
      }
    } else {
      assert rest == "-X " + httpMethod + args;
      assert cmd == (ProxyPrefix + "-X " + httpMethod) + args;
    }
    SuffixExtend(MethodOption(httpMethod), args, " " + path);
    SuffixExtend(ProxyPrefix, rest, " " + path);
  }

  /** Empty, or starting with a space. */
  predicate SpaceLed(s: string) {
    s == "" || s[0] == ' '
  }

  lemma SpaceLedConcat(a: string, b: string)
    requires SpaceLed(a) && SpaceLed(b)
    ensures SpaceLed(a + b)
  {
    if a != "" {
      assert (a + b)[0] == a[0];
    }
  }

  lemma FlagsSpaceLed(c: ParamClass, m: Fields, order: seq<string>)
    ensures SpaceLed(Flags(c, m, order))
  {
    if |order| > 0 {
      var f := Flag(c, order[0], Lookup(m, order[0]));
      assert f[0] == ' ';
      SpaceLedConcat(f, Flags(c, m, order[1..]));
    }
  }

  lemma ArgumentsStartWithSpace(req: Request, ko: KeyOrders)
    ensures |Arguments(req, ko)| > 0 && Arguments(req, ko)[0] == ' '
    ensures IsSuffix(" " + req.path, Arguments(req, ko))
  {
    var fq := Flags(Query, req.getParams, ko.query);
    var fp := Flags(Post, req.postParams, ko.post);
    var fh := Flags(Headers, req.headers, ko.headers);
    var fc := Flags(Cookies, req.cookies, ko.cookies);
    FlagsSpaceLed(Query, req.getParams, ko.query);
    FlagsSpaceLed(Post, req.postParams, ko.post);
    FlagsSpaceLed(Headers, req.headers, ko.headers);
    FlagsSpaceLed(Cookies, req.cookies, ko.cookies);
    var tail := " " + req.path;
    SpaceLedConcat(fc, tail);
    SpaceLedConcat(fh, fc + tail);
    SpaceLedConcat(fp, fh + (fc + tail));
    SpaceLedConcat(fq, fp + (fh + (fc + tail)));
    assert IsSuffix(tail, tail);
    SuffixExtend(fc, tail, tail);
    SuffixExtend(fh, fc + tail, tail);
    SuffixExtend(fp, fh + (fc + tail), tail);
    SuffixExtend(fq, fp + (fh + (fc + tail)), tail);
  }

  /** A visited key contributes its option to the namespace's options. */
  lemma {:induction false} FlagsCarryKey(c: ParamClass, m: Fields, order: seq<string>, k: string)
    requires k in order
    ensures Contains(Flags(c, m, order), Flag(c, k, Lookup(m, k)))
    decreases |order|
  {
    var f := Flag(c, order[0], Lookup(m, order[0]));
    var rest := Flags(c, m, order[1..]);
    if order[0] == k {
      assert IsPrefix(f, f + rest);
    } else {
      assert k in order[1..];
      FlagsCarryKey(c, m, order[1..], k);
      ContainsAppendRight(f, rest, Flag(c, k, Lookup(m, k)));
    }
  }

  /** The option of one visited key appears in the command. */
  lemma CommandCarriesParam(req: Request, ko: KeyOrders, c: ParamClass, k: string)
    requires k in KeysOf(ko, c)
    ensures Contains(Command(req, ko), Flag(c, k, Lookup(ClassFields(req, c), k)))
  {
    var fq := Flags(Query, req.getParams, ko.query);
    var fp := Flags(Post, req.postParams, ko.post);
    var fh := Flags(Headers, req.headers, ko.headers);
    var fc := Flags(Cookies, req.cookies, ko.cookies);
    var a4 := " " + req.path;
    var a3 := fc + a4;
    var a2 := fh + a3;
    var a1 := fp + a2;
    var a0 := fq + a1;
    var sub := Flag(c, k, Lookup(ClassFields(req, c), k));
    FlagsCarryKey(c, ClassFields(req, c), KeysOf(ko, c), k);
    if c == Cookies {
      ContainsAppendLeft(fc, a4, sub);
    }
    if c == Headers {
      ContainsAppendLeft(fh, a3, sub);
    } else if c == Cookies {
      ContainsAppendRight(fh, a3, sub);
    }
    if c == Post {
      ContainsAppendLeft(fp, a2, sub);
    } else if c != Query {
      ContainsAppendRight(fp, a2, sub);
    }
    if c == Query {
      ContainsAppendLeft(fq, a1, sub);
    } else {
      ContainsAppendRight(fq, a1, sub);
    }
    assert Arguments(req, ko) == a0;
    ContainsAppendRight(MethodOption(req.httpMethod), a0, sub);
    ContainsAppendRight(ProxyPrefix, MethodOption(req.httpMethod) + a0, sub);
  }

  /** Every parameter of every namespace reaches the command line, as the
      option of its namespace carrying the key and its current value. */
  lemma CommandCarriesParams(req: Request, ko: KeyOrders)
    requires OrdersFor(ko, req)
    ensures forall c, k :: k in ClassFields(req, c) ==>
      Contains(Command(req, ko), Flag(c, k, ClassFields(req, c)[k]))
  {
    forall c, k | k in ClassFields(req, c)
      ensures Contains(Command(req, ko), Flag(c, k, ClassFields(req, c)[k]))
    {
      assert k in KeysOf(ko, c);
      CommandCarriesParam(req, ko, c, k);
    }
  }

  /** The facts about the last piece of the split that Truncate relies on. */
  lemma LastPieceFacts(out: string)
    ensures var ps := Split(out, HtmlMarker);
      && !Contains(ps[|ps| - 1], HtmlMarker)
      && (!Contains(out, HtmlMarker) ==> ps[|ps| - 1] == out)
      && (Contains(out, HtmlMarker) ==> IsSuffix(HtmlMarker + ps[|ps| - 1], out))
  {
    SplitPiecesAvoidSep(out, HtmlMarker);
    if Contains(out, HtmlMarker) {
      SplitLastIsTail(out, HtmlMarker);
    } else {
      SplitWithoutSep(out, HtmlMarker);
    }
  }

  /** The output trimming of execute: split at every `<html>`, keep the last
      piece, and put one `<html>` back in front. */
  function Truncate(out: string): (r: string)
    ensures IsPrefix(HtmlMarker, r)
    ensures !Contains(r[|HtmlMarker|..], HtmlMarker)
    ensures !Contains(out, HtmlMarker) ==> r == HtmlMarker + out
    ensures Contains(out, HtmlMarker) ==> IsSuffix(r, out)
  {
    var pieces := Split(out, HtmlMarker);
    var kept := pieces[|pieces| - 1..];
    LastPieceFacts(out);
    assert kept == [pieces[|pieces| - 1]];
    HtmlMarker + Join(kept, HtmlMarker)
  }

  /** Trimming an already trimmed output changes nothing. */
  lemma TruncateIdempotent(out: string)
    ensures Truncate(Truncate(out)) == Truncate(out)
  {
    var r := Truncate(out);
    var t := r[|HtmlMarker|..];
    assert r == HtmlMarker + t;
    assert IsPrefix(HtmlMarker, r);
    assert r[|HtmlMarker|..] == t;
    assert Split(r, HtmlMarker) == [""] + Split(t, HtmlMarker);
    SplitWithoutSep(t, HtmlMarker);
    assert Split(r, HtmlMarker) == ["", t];
  }

  /** Why a replay failed: the combined output of the failed command. */
  datatype ReplayError = ReplayFailed(output: string)

  /** execute: build the command, run it through `run` (the shell and the
      network), and trim a successful output. */
  function Execute(req: Request, ko: KeyOrders, run: string -> Result<string, string>): (r: Result<string, ReplayError>)
    ensures r.Failure? <==> run(Command(req, ko)).Failure?
    ensures r.Failure? ==> r.error == ReplayFailed(run(Command(req, ko)).error)
    ensures r.Success? ==> IsPrefix(HtmlMarker, r.value)
    ensures r.Success? ==> r.value == Truncate(run(Command(req, ko)).value)
  {
    match run(Command(req, ko))
    case Failure(output) => Failure(ReplayFailed(output))
    case Success(output) => Success(Truncate(output))
  }
}
