/** The command-injection scanner: for every namespace, every key and each of
    three payloads, append the payload to the key, replay the request and
    report the attempt when the output shows a line of /etc/passwd.

    The loop as written mutates one shared request: each attempt starts from
    the request the previous attempts left behind (`ScanAsWritten`). The
    clone-per-attempt reading (`ScanCloned`) starts every attempt from the
    stored request. */
module Scanner {
  import opened Wrappers
  import opened Strings
  import opened Models
  import opened Replay

  const Payloads: seq<string> := [";cat /etc/passwd;", "|cat /etc/passwd|", "`cat /etc/passwd`"]

  /** The three payloads in the order one key receives them. */
  const AllPayloads := Payloads[0] + Payloads[1] + Payloads[2]

  /** Output text taken as proof that a payload reached a shell. */
  const VulnerabilityMarker := "root:"

  /** The single message returned when nothing was found. */
  const AllClear := "всё хорошо :)"

  /** One mutation: which namespace, which key, which payload. */
  datatype Attempt = Attempt(cls: ParamClass, key: string, payload: string)

  type Replayer = Request -> Result<string, ReplayError>

  function Report(a: Attempt): string {
    "Параметр '" + a.key + "' уязвим для Command Injection с полезной нагрузкой '" + a.payload + "'\n"
  }

  /** For each key in turn, its three attempts in payload order. */
  function KeyAttempts(c: ParamClass, keys: seq<string>): (s: seq<Attempt>)
    ensures |s| == |Payloads| * |keys|
    ensures forall i :: 0 <= i < |s| ==> s[i] == Attempt(c, keys[i / 3], Payloads[i % 3])
    decreases |keys|
  {
    if |keys| == 0 then []
    else
      var here := [Attempt(c, keys[0], Payloads[0]), Attempt(c, keys[0], Payloads[1]), Attempt(c, keys[0], Payloads[2])];
      var rest := KeyAttempts(c, keys[1..]);
      assert forall i :: 3 <= i < 3 + |rest| ==> (i - 3) / 3 == i / 3 - 1 && (i - 3) % 3 == i % 3;
      here + rest
  }

  /** The order of all attempts, given the order `range` visits the four
      namespaces and the keys within each. */
  function Schedule(classes: seq<ParamClass>, ko: KeyOrders): (s: seq<Attempt>)
    ensures forall i :: 0 <= i < |s| ==> s[i].cls in classes && s[i].key in KeysOf(ko, s[i].cls)
    decreases |classes|
  {
    if |classes| == 0 then []
    else
      var here := KeyAttempts(classes[0], KeysOf(ko, classes[0]));
      var rest := Schedule(classes[1..], ko);
      here + rest
  }

  /** Attempts come in triples: attempt `i` carries payload `i % 3`. */
  lemma {:induction false} SchedulePayloadOrder(classes: seq<ParamClass>, ko: KeyOrders)
    ensures |Schedule(classes, ko)| == |Payloads| * KeyCount(classes, ko)
    ensures forall i :: 0 <= i < |Schedule(classes, ko)| ==> Schedule(classes, ko)[i].payload == Payloads[i % 3]
    decreases |classes|
  {
    if |classes| > 0 {
      var here := KeyAttempts(classes[0], KeysOf(ko, classes[0]));
      var rest := Schedule(classes[1..], ko);
      SchedulePayloadOrder(classes[1..], ko);
      var s := Schedule(classes, ko);
      assert s == here + rest;
      var n := |KeysOf(ko, classes[0])|;
      assert |here| == 3 * n;
      TriplesConcat(here, rest, n);
    }
  }

  /** Two attempt lists in triples, the first of `n` whole triples, are in
      triples once joined. */
  lemma TriplesConcat(here: seq<Attempt>, rest: seq<Attempt>, n: nat)
    requires |here| == 3 * n
    requires forall i :: 0 <= i < |here| ==> here[i].payload == Payloads[i % 3]
    requires forall j :: 0 <= j < |rest| ==> rest[j].payload == Payloads[j % 3]
    ensures forall i :: 0 <= i < |here + rest| ==> (here + rest)[i].payload == Payloads[i % 3]
  {
    var s := here + rest;
    forall i | 0 <= i < |s|
      ensures s[i].payload == Payloads[i % 3]
    {
      if i < |here| {
        assert s[i] == here[i];
      } else {
        var j := i - 3 * n;
        assert s[i] == rest[j];
        ShiftByTriples(i, n);
      }
    }
  }

  /** How many keys the namespaces in `classes` hold. */
  function KeyCount(classes: seq<ParamClass>, ko: KeyOrders): nat
    decreases |classes|
  {
    if |classes| == 0 then 0 else |KeysOf(ko, classes[0])| + KeyCount(classes[1..], ko)
  }

  lemma ShiftByTriples(i: int, n: nat)
    ensures (i - 3 * n) % 3 == i % 3
  {
    var j := i - 3 * n;
    assert i == j + 3 * n;
    assert (j + 3 * n) % 3 == j % 3;
  }

  /** The parameter table of the scan visits each namespace once and, within
      it, each key of the stored request once. */
  predicate ValidPlan(req: Request, classes: seq<ParamClass>, ko: KeyOrders) {
    && Distinct(classes)
    && Query in classes && Post in classes && Headers in classes && Cookies in classes
    && OrdersFor(ko, req)
  }

  /** modifyRequest applied with the attempt's namespace label. */
  function Apply(req: Request, a: Attempt): Request {
    ModifyRequest(req, ClassName(a.cls), a.key, a.payload)
  }

  /** The shared request after the attempts `s`, each mutating the result of
      the previous one. */
  function Mutated(req: Request, s: seq<Attempt>): Request
    decreases |s|
  {
    if |s| == 0 then req else Mutated(Apply(req, s[0]), s[1..])
  }

  /** A replay whose output shows the marker; a failed replay never counts. */
  predicate Hit(resp: Result<string, ReplayError>) {
    resp.Success? && Contains(resp.value, VulnerabilityMarker)
  }

  /** The findings for attempts `s` given the replay output of each. */
  function Judge(s: seq<Attempt>, rs: seq<Result<string, ReplayError>>): (f: seq<string>)
    requires |rs| == |s|
    ensures f == [] <==> forall i :: 0 <= i < |s| ==> !Hit(rs[i])
    decreases |s|
  {
    if |s| == 0 then []
    else
      var rest := Judge(s[1..], rs[1..]);
      assert forall i :: 1 <= i < |s| ==> rs[1..][i - 1] == rs[i];
      (if Hit(rs[0]) then [Report(s[0])] else []) + rest
  }

  /** Every hit is reported. */
  lemma {:induction false} JudgeComplete(s: seq<Attempt>, rs: seq<Result<string, ReplayError>>)
    requires |rs| == |s|
    ensures forall i :: 0 <= i < |s| && Hit(rs[i]) ==> Report(s[i]) in Judge(s, rs)
    decreases |s|
  {
    if |s| > 0 {
      var rest := Judge(s[1..], rs[1..]);
      var here := if Hit(rs[0]) then [Report(s[0])] else [];
      assert Judge(s, rs) == here + rest;
      JudgeComplete(s[1..], rs[1..]);
      forall i | 1 <= i < |s| && Hit(rs[i])
        ensures Report(s[i]) in Judge(s, rs)
      {
        assert s[1..][i - 1] == s[i] && rs[1..][i - 1] == rs[i];
      }
    }
  }

  /** Every finding reports a hit. */
  lemma {:induction false} JudgeSound(s: seq<Attempt>, rs: seq<Result<string, ReplayError>>)
    requires |rs| == |s|
    ensures forall x :: x in Judge(s, rs) ==> exists i :: 0 <= i < |s| && Hit(rs[i]) && x == Report(s[i])
    decreases |s|
  {
    if |s| > 0 {
      var rest := Judge(s[1..], rs[1..]);
      var here := if Hit(rs[0]) then [Report(s[0])] else [];
      assert Judge(s, rs) == here + rest;
      JudgeSound(s[1..], rs[1..]);
      forall x | x in Judge(s, rs)
        ensures exists i :: 0 <= i < |s| && Hit(rs[i]) && x == Report(s[i])
      {
        if x in rest {
          var j :| 0 <= j < |s| - 1 && Hit(rs[1..][j]) && x == Report(s[1..][j]);
          assert rs[1..][j] == rs[j + 1] && s[1..][j] == s[j + 1];
        }
      }
    }
  }

  /** What the scan returns for a list of findings. */
  function Verdict(findings: seq<string>): seq<string> {
    if |findings| == 0 then [AllClear] else findings
  }

  /** The request attempt `i` of the scan as written sends: the shared
      request after attempts 0..i. */
  function AliasedSent(req: Request, s: seq<Attempt>, i: nat): Request
    requires i < |s|
  {
    Mutated(req, s[..i + 1])
  }

  /** The replay outputs of the scan as written, attempt by attempt. */
  function AliasedResponses(req: Request, s: seq<Attempt>, replay: Replayer): (rs: seq<Result<string, ReplayError>>)
    ensures |rs| == |s|
  {
    seq(|s|, i requires 0 <= i < |s| => replay(AliasedSent(req, s, i)))
  }

  /** The loop of checkCommandInjection as written: the mutated request is
      carried from each attempt into the next. */
  function RunAliased(req: Request, s: seq<Attempt>, replay: Replayer): seq<string>
    decreases |s|
  {
    if |s| == 0 then []
    else
      var sent := Apply(req, s[0]);
      (if Hit(replay(sent)) then [Report(s[0])] else []) + RunAliased(sent, s[1..], replay)
  }

  /** checkCommandInjection as written. Its outcome depends on `replay` only
      through the outputs of the requests the attempts send. */
  function ScanAsWritten(req: Request, classes: seq<ParamClass>, ko: KeyOrders, replay: Replayer): (r: seq<string>)
    ensures var s := Schedule(classes, ko);
      r == Verdict(Judge(s, AliasedResponses(req, s, replay)))
  {
    var s := Schedule(classes, ko);
    RunAliasedIsJudge(req, s, replay);
    Verdict(RunAliased(req, s, replay))
  }

  lemma {:induction false} RunAliasedIsJudge(req: Request, s: seq<Attempt>, replay: Replayer)
    ensures RunAliased(req, s, replay) == Judge(s, AliasedResponses(req, s, replay))
    decreases |s|
  {
    if |s| > 0 {
      var sent := Apply(req, s[0]);
      var rs := AliasedResponses(req, s, replay);
      var rs' := AliasedResponses(sent, s[1..], replay);
      assert s[..1][0] == s[0] && s[..1][1..] == [];
      assert AliasedSent(req, s, 0) == Mutated(sent, []);
      assert rs[0] == replay(sent);
      forall i | 0 <= i < |rs'|
        ensures rs[1..][i] == rs'[i]
      {
        var pre := s[..i + 2];
        assert pre[0] == s[0];
        assert pre[1..] == s[1..][..i + 1];
        assert Mutated(req, pre) == Mutated(sent, pre[1..]);
        assert AliasedSent(req, s, i + 1) == AliasedSent(sent, s[1..], i);
        assert rs[1..][i] == rs[i + 1] == replay(AliasedSent(req, s, i + 1));
        assert rs'[i] == replay(AliasedSent(sent, s[1..], i));
      }
      assert rs[1..] == rs';
      RunAliasedIsJudge(sent, s[1..], replay);
    }
  }

  /** The clone-per-attempt scan: attempt `i` replays the stored request with
      only its own payload appended. */
  function ClonedResponses(req: Request, s: seq<Attempt>, replay: Replayer): (rs: seq<Result<string, ReplayError>>)
    ensures |rs| == |s|
  {
    seq(|s|, i requires 0 <= i < |s| => replay(Apply(req, s[i])))
  }

  function ScanCloned(req: Request, classes: seq<ParamClass>, ko: KeyOrders, replay: Replayer): seq<string> {
    var s := Schedule(classes, ko);
    Verdict(Judge(s, ClonedResponses(req, s, replay)))
  }

  /** The scan as written, like the clone-per-attempt scan, reports
      all-clear exactly when no attempt's replay showed the marker. */
  lemma ScanAsWrittenAllClear(req: Request, classes: seq<ParamClass>, ko: KeyOrders, replay: Replayer)
    ensures var s := Schedule(classes, ko);
      var rs := AliasedResponses(req, s, replay);
      ScanAsWritten(req, classes, ko, replay) == [AllClear] <==> forall i :: 0 <= i < |s| ==> !Hit(rs[i])
  {
    var s := Schedule(classes, ko);
    var rs := AliasedResponses(req, s, replay);
    assert ScanAsWritten(req, classes, ko, replay) == Verdict(Judge(s, rs));
    AllClearIffNoHit(s, rs);
  }

  lemma ScanClonedAllClear(req: Request, classes: seq<ParamClass>, ko: KeyOrders, replay: Replayer)
    ensures var s := Schedule(classes, ko);
      var rs := ClonedResponses(req, s, replay);
      ScanCloned(req, classes, ko, replay) == [AllClear] <==> forall i :: 0 <= i < |s| ==> !Hit(rs[i])
  {
    var s := Schedule(classes, ko);
    var rs := ClonedResponses(req, s, replay);
    assert ScanCloned(req, classes, ko, replay) == Verdict(Judge(s, rs));
    AllClearIffNoHit(s, rs);
  }

  lemma ReportIsNotAllClear(a: Attempt)
    ensures Report(a) != AllClear
  {
    assert Report(a)[0] == 'П';
    assert AllClear[0] == 'в';
  }

  /** The sentinel is returned exactly when no attempt hit; otherwise the
      findings themselves are returned. */
  lemma AllClearIffNoHit(s: seq<Attempt>, rs: seq<Result<string, ReplayError>>)
    requires |rs| == |s|
    ensures Verdict(Judge(s, rs)) == [AllClear] <==> forall i :: 0 <= i < |s| ==> !Hit(rs[i])
  {
    var f := Judge(s, rs);
    if f != [] {
      assert f[0] != AllClear by {
        JudgeSound(s, rs);
        assert f[0] in f;
        var i :| 0 <= i < |s| && Hit(rs[i]) && f[0] == Report(s[i]);
        ReportIsNotAllClear(s[i]);
      }
      assert Verdict(f) == f;
    }
  }

  /** Number of replays that showed the marker. */
  function CountHits(rs: seq<Result<string, ReplayError>>): nat
    decreases |rs|
  {
    if |rs| == 0 then 0 else (if Hit(rs[0]) then 1 else 0) + CountHits(rs[1..])
  }

  /** Exactly one finding per hit, in attempt order: the finding of hit
      attempt `i` sits after the findings of the hits before it. */
  lemma {:induction false} JudgeExact(s: seq<Attempt>, rs: seq<Result<string, ReplayError>>)
    requires |rs| == |s|
    ensures |Judge(s, rs)| == CountHits(rs)
    ensures forall i :: 0 <= i < |s| && Hit(rs[i]) ==>
      CountHits(rs[..i]) < |Judge(s, rs)| && Judge(s, rs)[CountHits(rs[..i])] == Report(s[i])
    decreases |s|, 1
  {
    if |s| > 0 {
      JudgeExact(s[1..], rs[1..]);
      assert Judge(s, rs) == (if Hit(rs[0]) then [Report(s[0])] else []) + Judge(s[1..], rs[1..]);
      forall i | 0 <= i < |s| && Hit(rs[i])
        ensures CountHits(rs[..i]) < |Judge(s, rs)| && Judge(s, rs)[CountHits(rs[..i])] == Report(s[i])
      {
        JudgeExactAt(s, rs, i);
      }
    }
  }

  lemma {:induction false} JudgeExactAt(s: seq<Attempt>, rs: seq<Result<string, ReplayError>>, i: nat)
    requires |rs| == |s| && i < |s| && Hit(rs[i])
    ensures CountHits(rs[..i]) < |Judge(s, rs)| && Judge(s, rs)[CountHits(rs[..i])] == Report(s[i])
    decreases |s|, 0
  {
    var rest := Judge(s[1..], rs[1..]);
    var here := if Hit(rs[0]) then [Report(s[0])] else [];
    assert Judge(s, rs) == here + rest;
    if i == 0 {
      assert rs[..0] == [];
    } else {
      var j := i - 1;
      var before := CountHits(rs[1..][..j]);
      assert before < |rest| && rest[before] == Report(s[i]) by {
        JudgeExact(s[1..], rs[1..]);
        assert rs[1..][j] == rs[i] && s[1..][j] == s[i];
      }
      assert CountHits(rs[..i]) == |here| + before by {
        assert rs[..i][1..] == rs[1..][..j];
      }
      assert (here + rest)[|here| + before] == rest[before];
    }
  }

  /** A single hit yields exactly the one finding naming its key and payload,
      whatever the order of the attempts. */
  lemma {:induction false} JudgeSingleHit(s: seq<Attempt>, rs: seq<Result<string, ReplayError>>, j: int)
    requires |rs| == |s| && 0 <= j < |s| && Hit(rs[j])
    requires forall i :: 0 <= i < |s| && i != j ==> !Hit(rs[i])
    ensures Judge(s, rs) == [Report(s[j])]
    decreases |s|
  {
    var rest := Judge(s[1..], rs[1..]);
    assert Judge(s, rs) == (if Hit(rs[0]) then [Report(s[0])] else []) + rest;
    if j == 0 {
      assert rest == [] by {
        assert forall i :: 0 <= i < |s| - 1 ==> rs[1..][i] == rs[i + 1];
      }
    } else {
      assert rest == [Report(s[j])] by {
        assert forall i :: 0 <= i < |s| - 1 ==> rs[1..][i] == rs[i + 1];
        JudgeSingleHit(s[1..], rs[1..], j - 1);
      }
      assert !Hit(rs[0]);
    }
  }

  /** The payload text an attempt sequence appends to one key. */
  function Appended(s: seq<Attempt>, c: ParamClass, k: string): string
    decreases |s|
  {
    if |s| == 0 then ""
    else (if s[0].cls == c && s[0].key == k then s[0].payload else "") + Appended(s[1..], c, k)
  }

  lemma ApplyValue(req: Request, a: Attempt, c: ParamClass, k: string)
    ensures Lookup(ClassFields(Apply(req, a), c), k)
      == Lookup(ClassFields(req, c), k) + (if a.cls == c && a.key == k then a.payload else "")
  {
    assert ClassNamed(ClassName(a.cls)) == Some(a.cls);
  }

  /** Under the shared-request loop, every key ends up carrying all payloads
      the attempts appended to it, in attempt order. */
  lemma {:induction false} MutatedValue(req: Request, s: seq<Attempt>, c: ParamClass, k: string)
    ensures Lookup(ClassFields(Mutated(req, s), c), k) == Lookup(ClassFields(req, c), k) + Appended(s, c, k)
    decreases |s|
  {
    if |s| > 0 {
      var next := Apply(req, s[0]);
      ApplyValue(req, s[0], c, k);
      MutatedValue(next, s[1..], c, k);
    }
  }

  /** Attempts on existing keys change no key set, method or path. */
  lemma {:induction false} MutatedShape(req: Request, s: seq<Attempt>)
    requires forall i :: 0 <= i < |s| ==> s[i].key in ClassFields(req, s[i].cls)
    ensures Mutated(req, s).httpMethod == req.httpMethod && Mutated(req, s).path == req.path
    ensures forall c :: ClassFields(Mutated(req, s), c).Keys == ClassFields(req, c).Keys
    decreases |s|
  {
    if |s| > 0 {
      var next := Apply(req, s[0]);
      assert ClassNamed(ClassName(s[0].cls)) == Some(s[0].cls);
      assert forall c :: ClassFields(next, c).Keys == ClassFields(req, c).Keys;
      assert forall i :: 0 <= i < |s| - 1 ==> s[1..][i] == s[i + 1];
      MutatedShape(next, s[1..]);
    }
  }

  lemma {:induction false} AppendedConcat(a: seq<Attempt>, b: seq<Attempt>, c: ParamClass, k: string)
    ensures Appended(a + b, c, k) == Appended(a, c, k) + Appended(b, c, k)
    decreases |a|
  {
    if |a| > 0 {
      assert (a + b)[0] == a[0];
      assert (a + b)[1..] == a[1..] + b;
      AppendedConcat(a[1..], b, c, k);
    } else {
      assert a + b == b;
    }
  }

  lemma DistinctTail<T>(xs: seq<T>)
    requires |xs| > 0 && Distinct(xs)
    ensures Distinct(xs[1..]) && xs[0] !in xs[1..]
  {
    assert forall i :: 0 <= i < |xs| - 1 ==> xs[1..][i] == xs[i + 1];
  }

  lemma AppendedTriple(a0: Attempt, a1: Attempt, a2: Attempt, c: ParamClass, k: string)
    requires a0.cls == a1.cls == a2.cls && a0.key == a1.key == a2.key
    requires a0.payload == Payloads[0] && a1.payload == Payloads[1] && a2.payload == Payloads[2]
    ensures Appended([a0, a1, a2], c, k) == (if a0.cls == c && a0.key == k then AllPayloads else "")
  {
    var on := a0.cls == c && a0.key == k;
    assert [a0, a1, a2][1..] == [a1, a2];
    assert [a1, a2][1..] == [a2];
    assert [a2][1..] == [];
    assert Appended([a2], c, k) == (if on then Payloads[2] else "");
    assert Appended([a1, a2], c, k) == (if on then Payloads[1] + Payloads[2] else "");
    assert Appended([a0, a1, a2], c, k) == (if on then Payloads[0] + (Payloads[1] + Payloads[2]) else "");
  }

  /** One namespace's attempts append the three payloads, once, to each of
      its keys and to nothing else. */
  lemma {:induction false} AppendedKeyAttempts(d: ParamClass, keys: seq<string>, c: ParamClass, k: string)
    requires Distinct(keys)
    ensures Appended(KeyAttempts(d, keys), c, k) == (if d == c && k in keys then AllPayloads else "")
    decreases |keys|
  {
    if |keys| > 0 {
      var a0 := Attempt(d, keys[0], Payloads[0]);
      var a1 := Attempt(d, keys[0], Payloads[1]);
      var a2 := Attempt(d, keys[0], Payloads[2]);
      var rest := KeyAttempts(d, keys[1..]);
      assert KeyAttempts(d, keys) == [a0, a1, a2] + rest;
      AppendedConcat([a0, a1, a2], rest, c, k);
      AppendedTriple(a0, a1, a2, c, k);
      DistinctTail(keys);
      AppendedKeyAttempts(d, keys[1..], c, k);
      assert k in keys <==> k == keys[0] || k in keys[1..];
    }
  }

  lemma {:induction false} AppendedSchedule(classes: seq<ParamClass>, ko: KeyOrders, c: ParamClass, k: string)
    requires Distinct(classes)
    requires forall d :: Distinct(KeysOf(ko, d))
    ensures Appended(Schedule(classes, ko), c, k)
      == (if c in classes && k in KeysOf(ko, c) then AllPayloads else "")
    decreases |classes|
  {
    if |classes| > 0 {
      var here := KeyAttempts(classes[0], KeysOf(ko, classes[0]));
      var rest := Schedule(classes[1..], ko);
      AppendedConcat(here, rest, c, k);
      AppendedKeyAttempts(classes[0], KeysOf(ko, classes[0]), c, k);
      DistinctTail(classes);
      AppendedSchedule(classes[1..], ko, c, k);
      assert c in classes <==> c == classes[0] || c in classes[1..];
    }
  }

  /** Because every attempt mutates the one shared request, after the scan
      every key of every namespace holds its stored value followed by all
      three payloads in order; no key is added or dropped, and the method
      and path are untouched. */
  lemma ScanAccumulatesPayloads(req: Request, classes: seq<ParamClass>, ko: KeyOrders)
    requires ValidPlan(req, classes, ko)
    ensures var after := Mutated(req, Schedule(classes, ko));
      && after.httpMethod == req.httpMethod && after.path == req.path
      && (forall c :: ClassFields(after, c).Keys == ClassFields(req, c).Keys)
      && (forall c, k :: k in ClassFields(req, c) ==>
            ClassFields(after, c)[k] == ClassFields(req, c)[k] + AllPayloads)
  {
    var s := Schedule(classes, ko);
    assert forall i :: 0 <= i < |s| ==> s[i].key in KeysOf(ko, s[i].cls);
    MutatedShape(req, s);
    forall c, k | k in ClassFields(req, c)
      ensures ClassFields(Mutated(req, s), c)[k] == ClassFields(req, c)[k] + AllPayloads
    {
      MutatedValue(req, s, c, k);
      AppendedSchedule(classes, ko, c, k);
      assert c in classes by {
        match c
        case Query =>
        case Post =>
        case Headers =>
        case Cookies =>
      }
    }
  }

  /** Under clone-per-attempt, each attempt sends the stored request with
      only its own payload appended to its own key. */
  lemma ClonedAttemptIsolated(req: Request, a: Attempt)
    requires a.key in ClassFields(req, a.cls)
    ensures var sent := Apply(req, a);
      && sent.httpMethod == req.httpMethod && sent.path == req.path
      && (forall d :: d != a.cls ==> ClassFields(sent, d) == ClassFields(req, d))
      && ClassFields(sent, a.cls).Keys == ClassFields(req, a.cls).Keys
      && ClassFields(sent, a.cls)[a.key] == ClassFields(req, a.cls)[a.key] + a.payload
      && (forall k :: k in ClassFields(req, a.cls) && k != a.key ==>
            ClassFields(sent, a.cls)[k] == ClassFields(req, a.cls)[k])
  {
    assert ClassNamed(ClassName(a.cls)) == Some(a.cls);
  }

  /** When the scan's replay is execute, the "root:" test reads the output
      after the `<html>` cut, not the command's whole output. */
  lemma ExecuteHitReadsTrimmed(req: Request, ko: KeyOrders, run: string -> Result<string, string>)
    ensures Hit(Execute(req, ko, run)) <==>
      && run(Command(req, ko)).Success?
      && Contains(Truncate(run(Command(req, ko)).value), VulnerabilityMarker)
  {
  }

  /** A "root:" that appears only before the last `<html>` of the output is
      cut away, so that reply is no hit. */
  lemma MarkerBeforeHtmlMissed(req: Request, ko: KeyOrders, run: string -> Result<string, string>)
    requires run(Command(req, ko)) == Success("root:x" + HtmlMarker + "ok")
    ensures Contains(run(Command(req, ko)).value, VulnerabilityMarker)
    ensures !Hit(Execute(req, ko, run))
  {
    var out := "root:x" + HtmlMarker + "ok";
    assert IsPrefix(VulnerabilityMarker, out[0..]);
    SplitAfterFreePiece("root:x", HtmlMarker, "ok");
    NoLeadCharNoContains("ok", HtmlMarker);
    SplitWithoutSep("ok", HtmlMarker);
    assert Split(out, HtmlMarker) == ["root:x", "ok"];
    assert Truncate(out) == HtmlMarker + "ok";
    NoLeadCharNoContains(HtmlMarker + "ok", VulnerabilityMarker);
  }

  /** A stored request with two query parameters, q=test and id=1. */
  const Example := Request("GET", "http://example.com/search?q=test&id=1", map["q" := "test", "id" := "1"], map[], map[], map[])

  const ExampleClasses := [Query, Post, Headers, Cookies]

  /** `range` visits q before id. */
  const ExampleOrders := KeyOrders(["q", "id"], [], [], [])

  /** A target whose page echoes q. The command text puts each value inside
      double quotes (handler.go:124), where the shell running curl still
      expands a backtick command but leaves `;` and `|` literal, so the page
      shows the password file exactly when q carries the backtick payload. */
  function EchoTarget(r: Request): Result<string, ReplayError> {
    if Contains(Lookup(r.getParams, "q"), Payloads[2])
    then Success(HtmlMarker + (VulnerabilityMarker + "x:0:0:root:/root:/bin/bash"))
    else Success(HtmlMarker)
  }

  lemma EchoTargetHits(r: Request)
    ensures Hit(EchoTarget(r)) <==> Contains(Lookup(r.getParams, "q"), Payloads[2])
  {
    var line := VulnerabilityMarker + "x:0:0:root:/root:/bin/bash";
    assert IsPrefix(VulnerabilityMarker, line);
    ContainsAppendRight(HtmlMarker, line, VulnerabilityMarker);
    NoLeadCharNoContains(HtmlMarker, VulnerabilityMarker);
  }

  /** A text without a backtick holds no backtick payload. */
  lemma NoBacktickNoPayload(v: string)
    requires '`' !in v
    ensures !Contains(v, Payloads[2])
  {
    forall i | 0 <= i < |v|
      ensures v[i] != Payloads[2][0]
    {
      assert v[i] in v;
    }
    NoLeadCharNoContains(v, Payloads[2]);
  }

  /** The stored value of q and the first two payloads hold no backtick. */
  lemma BacktickFreeParts()
    ensures '`' !in "test" && '`' !in Payloads[0] && '`' !in Payloads[1]
  {
  }

  lemma BacktickFreeValues()
    ensures '`' !in "test" + Payloads[0]
    ensures '`' !in "test" + Payloads[0] + Payloads[1]
  {
    BacktickFreeParts();
  }

  /** A text ending in the backtick payload holds it. */
  lemma EndsWithPayload(v: string)
    ensures Contains(v + Payloads[2], Payloads[2])
  {
    assert IsPrefix(Payloads[2], Payloads[2]);
    ContainsAppendRight(v, Payloads[2], Payloads[2]);
  }

  /** The three attempts on q and the three on id, in schedule order. */
  const ExampleQ := [Attempt(Query, "q", Payloads[0]), Attempt(Query, "q", Payloads[1]), Attempt(Query, "q", Payloads[2])]

  const ExampleId := [Attempt(Query, "id", Payloads[0]), Attempt(Query, "id", Payloads[1]), Attempt(Query, "id", Payloads[2])]

  lemma ExampleSchedule()
    ensures Schedule(ExampleClasses, ExampleOrders) == ExampleQ + ExampleId
  {
    assert KeyAttempts(Query, ["q", "id"]) == ExampleQ + ExampleId by {
      assert ["q", "id"][1..] == ["id"] && ["id"][1..] == [];
      assert KeyAttempts(Query, ["id"]) == ExampleId;
    }
    assert ExampleClasses[1..][1..][1..][1..] == [];
  }

  /** One step of the shared-request loop whose replay hits. */
  lemma RunAliasedHitStep(req: Request, s: seq<Attempt>, replay: Replayer)
    requires |s| > 0 && Hit(replay(Apply(req, s[0])))
    ensures RunAliased(req, s, replay) == [Report(s[0])] + RunAliased(Apply(req, s[0]), s[1..], replay)
  {
  }

  /** One step of the shared-request loop whose replay misses. */
  lemma RunAliasedMissStep(req: Request, s: seq<Attempt>, replay: Replayer)
    requires |s| > 0 && !Hit(replay(Apply(req, s[0])))
    ensures RunAliased(req, s, replay) == RunAliased(Apply(req, s[0]), s[1..], replay)
  {
  }

  /** Three attempts on one shared request whose replays all hit give three
      findings, in attempt order. */
  lemma RunAliasedThreeHits(req: Request, a0: Attempt, a1: Attempt, a2: Attempt, replay: Replayer)
    requires var e1 := Apply(req, a0);
      var e2 := Apply(e1, a1);
      Hit(replay(e1)) && Hit(replay(e2)) && Hit(replay(Apply(e2, a2)))
    ensures RunAliased(req, [a0, a1, a2], replay) == [Report(a0), Report(a1), Report(a2)]
  {
    var e1 := Apply(req, a0);
    var e2 := Apply(e1, a1);
    var e3 := Apply(e2, a2);
    var r0, r1, r2 := Report(a0), Report(a1), Report(a2);
    assert [a0, a1, a2][1..] == [a1, a2] && [a1, a2][1..] == [a2] && [a2][1..] == [];
    RunAliasedHitStep(req, [a0, a1, a2], replay);
    RunAliasedHitStep(e1, [a1, a2], replay);
    RunAliasedHitStep(e2, [a2], replay);
    assert RunAliased(e3, [], replay) == [];
    assert [r0] + ([r1] + ([r2] + [])) == [r0, r1, r2];
  }

  /** Two misses and then a hit on one shared request give one finding,
      and the loop carries on from the request the hit left behind. */
  lemma RunAliasedMissMissHit(req: Request, a0: Attempt, a1: Attempt, a2: Attempt, rest: seq<Attempt>, replay: Replayer)
    requires var e1 := Apply(req, a0);
      var e2 := Apply(e1, a1);
      !Hit(replay(e1)) && !Hit(replay(e2)) && Hit(replay(Apply(e2, a2)))
    ensures RunAliased(req, [a0, a1, a2] + rest, replay)
      == [Report(a2)] + RunAliased(Apply(Apply(Apply(req, a0), a1), a2), rest, replay)
  {
    var e1 := Apply(req, a0);
    var e2 := Apply(e1, a1);
    var u := [a0, a1, a2] + rest;
    assert u[0] == a0 && u[1..] == [a1, a2] + rest;
    assert ([a1, a2] + rest)[0] == a1 && ([a1, a2] + rest)[1..] == [a2] + rest;
    assert ([a2] + rest)[0] == a2 && ([a2] + rest)[1..] == rest;
    RunAliasedMissStep(req, u, replay);
    RunAliasedMissStep(e1, [a1, a2] + rest, replay);
    RunAliasedHitStep(e2, [a2] + rest, replay);
  }

  /** An attempt on q appends its payload to q's value. */
  lemma QAttemptAppends(req: Request, a: Attempt)
    requires a.cls == Query && a.key == "q"
    ensures Lookup(Apply(req, a).getParams, "q") == Lookup(req.getParams, "q") + a.payload
  {
    ApplyValue(req, a, Query, "q");
  }

  /** Starting from q=test, the shared request after each attempt on q:
      q carries the payloads so far, and only the third holds a backtick. */
  lemma QAttemptsHitPattern(req: Request)
    requires Lookup(req.getParams, "q") == "test"
    ensures var e1 := Apply(req, ExampleQ[0]);
      var e2 := Apply(e1, ExampleQ[1]);
      !Hit(EchoTarget(e1)) && !Hit(EchoTarget(e2)) && Hit(EchoTarget(Apply(e2, ExampleQ[2])))
  {
    var e1 := Apply(req, ExampleQ[0]);
    var e2 := Apply(e1, ExampleQ[1]);
    var e3 := Apply(e2, ExampleQ[2]);
    var v1 := "test" + Payloads[0];
    var v2 := v1 + Payloads[1];
    QAttemptAppends(req, ExampleQ[0]);
    QAttemptAppends(e1, ExampleQ[1]);
    QAttemptAppends(e2, ExampleQ[2]);
    BacktickFreeValues();
    NoBacktickNoPayload(v1);
    NoBacktickNoPayload(v2);
    EndsWithPayload(v2);
    EchoTargetHits(e1);
    EchoTargetHits(e2);
    EchoTargetHits(e3);
  }

  /** Attempts on id leave q as it was. */
  lemma IdAttemptKeepsQ(req: Request, a: Attempt)
    requires a.cls == Query && a.key == "id"
    ensures Lookup(Apply(req, a).getParams, "q") == Lookup(req.getParams, "q")
    ensures Hit(EchoTarget(Apply(req, a))) <==> Hit(EchoTarget(req))
  {
    ApplyValue(req, a, Query, "q");
    EchoTargetHits(req);
    EchoTargetHits(Apply(req, a));
  }

  /** From a request whose q already reaches the target, every attempt on
      id hits as well. */
  lemma AliasedIdHits(req: Request)
    requires Hit(EchoTarget(req))
    ensures RunAliased(req, ExampleId, EchoTarget)
      == [Report(ExampleId[0]), Report(ExampleId[1]), Report(ExampleId[2])]
  {
    var i1 := Apply(req, ExampleId[0]);
    var i2 := Apply(i1, ExampleId[1]);
    IdAttemptKeepsQ(req, ExampleId[0]);
    IdAttemptKeepsQ(i1, ExampleId[1]);
    IdAttemptKeepsQ(i2, ExampleId[2]);
    assert ExampleId == [ExampleId[0], ExampleId[1], ExampleId[2]];
    RunAliasedThreeHits(req, ExampleId[0], ExampleId[1], ExampleId[2], EchoTarget);
  }

  lemma ExampleStartsAtTest()
    ensures Lookup(Example.getParams, "q") == "test"
  {
  }

  /** The shared-request loop over the example's six attempts, from any
      request with q=test: the one finding on q, then three on id. */
  lemma AliasedExampleRun(req: Request)
    requires Lookup(req.getParams, "q") == "test"
    ensures RunAliased(req, ExampleQ + ExampleId, EchoTarget)
      == [Report(ExampleQ[2])] + [Report(ExampleId[0]), Report(ExampleId[1]), Report(ExampleId[2])]
  {
    var e3 := Apply(Apply(Apply(req, ExampleQ[0]), ExampleQ[1]), ExampleQ[2]);
    QAttemptsHitPattern(req);
    assert ExampleQ == [ExampleQ[0], ExampleQ[1], ExampleQ[2]];
    RunAliasedMissMissHit(req, ExampleQ[0], ExampleQ[1], ExampleQ[2], ExampleId, EchoTarget);
    AliasedIdHits(e3);
  }

  /** The scan as written reports four findings, three of them naming id,
      although only the backtick payload on q reaches the target: every
      attempt on id still carries it in q. */
  lemma AliasedScanMisattributes()
    ensures ScanAsWritten(Example, ExampleClasses, ExampleOrders, EchoTarget)
      == [Report(Attempt(Query, "q", Payloads[2]))]
       + [Report(Attempt(Query, "id", Payloads[0])), Report(Attempt(Query, "id", Payloads[1])), Report(Attempt(Query, "id", Payloads[2]))]
  {
    ExampleSchedule();
    ExampleStartsAtTest();
    AliasedExampleRun(Example);
    assert ScanAsWritten(Example, ExampleClasses, ExampleOrders, EchoTarget)
      == Verdict(RunAliased(Example, ExampleQ + ExampleId, EchoTarget));
  }

  /** From q=test, a lone attempt on q reaches the target exactly with the
      backtick payload. */
  lemma ClonedQHit(req: Request, i: nat)
    requires Lookup(req.getParams, "q") == "test" && i < |Payloads|
    ensures Hit(EchoTarget(Apply(req, Attempt(Query, "q", Payloads[i])))) <==> i == 2
  {
    var sent := Apply(req, Attempt(Query, "q", Payloads[i]));
    QAttemptAppends(req, Attempt(Query, "q", Payloads[i]));
    EchoTargetHits(sent);
    if i == 2 {
      EndsWithPayload("test");
    } else {
      BacktickFreeValues();
      NoBacktickNoPayload("test" + Payloads[i]);
    }
  }

  /** From q=test, a lone attempt on id never reaches the target. */
  lemma ClonedIdMiss(req: Request, a: Attempt)
    requires Lookup(req.getParams, "q") == "test" && a.cls == Query && a.key == "id"
    ensures !Hit(EchoTarget(Apply(req, a)))
  {
    IdAttemptKeepsQ(req, a);
    EchoTargetHits(req);
    BacktickFreeParts();
    NoBacktickNoPayload("test");
  }

  /** Under clone-per-attempt only the backtick attempt on q reaches the
      example target. */
  lemma ClonedExampleHit(i: nat)
    requires i < |ExampleQ + ExampleId|
    ensures Hit(EchoTarget(Apply(Example, (ExampleQ + ExampleId)[i]))) <==> i == 2
  {
    ExampleStartsAtTest();
    if i < 3 {
      assert (ExampleQ + ExampleId)[i] == Attempt(Query, "q", Payloads[i]);
      ClonedQHit(Example, i);
    } else {
      assert (ExampleQ + ExampleId)[i] == ExampleId[i - 3];
      ClonedIdMiss(Example, ExampleId[i - 3]);
    }
  }

  lemma ClonedExampleResponses()
    ensures var s := Schedule(ExampleClasses, ExampleOrders);
      var rs := ClonedResponses(Example, s, EchoTarget);
      |s| == 6 && forall i :: 0 <= i < |s| ==> (Hit(rs[i]) <==> i == 2)
  {
    var s := Schedule(ExampleClasses, ExampleOrders);
    ExampleSchedule();
    var rs := ClonedResponses(Example, s, EchoTarget);
    forall i | 0 <= i < |s|
      ensures Hit(rs[i]) <==> i == 2
    {
      assert rs[i] == EchoTarget(Apply(Example, (ExampleQ + ExampleId)[i]));
      ClonedExampleHit(i);
    }
  }

  /** The clone-per-attempt scan attributes the same target to the backtick
      payload on q alone. */
  lemma ClonedScanAttributesOnce()
    ensures ScanCloned(Example, ExampleClasses, ExampleOrders, EchoTarget) ==
      [Report(Attempt(Query, "q", Payloads[2]))]
  {
    var s := Schedule(ExampleClasses, ExampleOrders);
    var rs := ClonedResponses(Example, s, EchoTarget);
    ClonedExampleResponses();
    JudgeSingleHit(s, rs, 2);
    ExampleSchedule();
    assert s[2] == Attempt(Query, "q", Payloads[2]);
  }
}
