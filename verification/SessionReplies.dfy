/** What the responses of a session say: which requests run plugin code, and what the host is told of each. */
module SessionReplies {
  import opened Bytes
  import opened Sessions

  // ---------------------------------------------------------------------------------------------
  // Version 1
  // ---------------------------------------------------------------------------------------------

  /** A request that runs the optimizer. */
  predicate Runs1(initialized: bool, r: Request1) {
    initialized && r.rpc && r.method_.Optimize1? && r.method_.params.Decoded?
  }

  /** Content that may be proposed. */
  predicate Safe(content: string) { 1 <= |content| <= 0x100_0000 && '\0' !in content }

  predicate HasCode(body: Body, code: int) { body.Error? && body.code == code }

  /** The action that the host is told is that of the plugin, if it is one. */
  predicate TellsAction(p: Proposal, body: Body) {
    && (body.Pass? <==> p.Passes?)
    && (body.Optimized? <==> p.Proposes? && Safe(p.content))
    && (body.Optimized? ==> body.content == p.content)
    && (HasCode(body, -32603) <==> p.Panics? || (p.Proposes? && !Safe(p.content)))
  }

  /** What the host is told of a request. */
  predicate Told1(plugin: string -> Proposal, initialized: bool, r: Request1, body: Body) {
    && (body.Initialized? <==> r.rpc && r.method_.Initialize1? && r.method_.apiVersion == Some(1))
    && (Runs1(initialized, r) ==> TellsAction(plugin(r.method_.params.text), body))
    && (!Runs1(initialized, r) ==> !body.Pass? && !body.Optimized? && !HasCode(body, -32603))
    && (HasCode(body, -32600) <==> !r.rpc)
    && (HasCode(body, -32601) <==> r.rpc && r.method_.Other1?)
    && (HasCode(body, -32002) <==> r.rpc && r.method_.Optimize1? && !initialized)
    && (HasCode(body, -32602) <==>
          && r.rpc
          && (|| (r.method_.Initialize1? && r.method_.apiVersion != Some(1))
              || (r.method_.Optimize1? && initialized && !r.method_.params.Decoded?)))
    && !body.Result?
  }

  predicate Ends1(q: Option<Request1>) { q.None? || (q.value.rpc && q.value.method_.Shutdown1?) }

  /** The events of a session from the `k`-th request on: for each request up to the end its call, if it runs the
      optimizer, and a response with its id. It is initialized once the host was told so. */
  predicate Session1(
      plugin: string -> Proposal, initialized: bool, requests: seq<Option<Request1>>, k: nat, events: seq<Event>)
    requires k <= |requests|
    decreases |requests| - k
  {
    if k == |requests| || Ends1(requests[k]) then events == []
    else
      var r := requests[k].value;
      var n := if Runs1(initialized, r) then 1 else 0;
      && n < |events| && (n == 1 ==> events[0] == Calls(Call("optimize", r.method_.params.text)))
      && events[n].Responds? && events[n].response.id == r.id
      && Told1(plugin, initialized, r, events[n].response.body)
      && Session1(plugin, initialized || events[n].response.body.Initialized?, requests, k + 1, events[n + 1..])
  }

  lemma SafeIsSafe(content: string)
    ensures SafeContent(content) <==> Safe(content)
  {
  }

  lemma StepTells1(panicked: string, plugin: string -> Proposal, initialized: bool, q: Option<Request1>)
    requires !Ends1(q)
    ensures
      var s, r := Handle1(panicked, plugin, initialized, q), q.value;
      && s.course.Goes?
      && s.call == (if Runs1(initialized, r) then Some(Call("optimize", r.method_.params.text)) else None)
      && s.response.Some? && s.response.value.id == r.id && Told1(plugin, initialized, r, s.response.value.body)
      && s.initialized == (initialized || s.response.value.body.Initialized?)
  {
    if Runs1(initialized, q.value) && plugin(q.value.method_.params.text).Proposes? {
      SafeIsSafe(plugin(q.value.method_.params.text).content);
    }
  }

  lemma EndTells1(panicked: string, plugin: string -> Proposal, initialized: bool, q: Option<Request1>)
    requires Ends1(q)
    ensures
      var s := Handle1(panicked, plugin, initialized, q);
      !s.course.Goes? && s.call.None? && s.response.None?
  {
  }

  /** The events of a step, and those behind it. */
  lemma StepThenRest(s: Step, rest: seq<Event>)
    requires s.response.Some?
    ensures
      var events, n := EventsOf(s) + rest, if s.call.Some? then 1 else 0;
      && n < |events| && (n == 1 ==> events[0] == Calls(s.call.value))
      && events[n] == Responds(s.response.value) && events[n + 1..] == rest
  {
  }

  /** Every session of version 1 is one, for every plugin and every list of requests. */
  lemma {:induction false} Version1Tells(
      panicked: string, plugin: string -> Proposal, initialized: bool, requests: seq<Option<Request1>>, k: nat)
    requires k <= |requests|
    ensures Session1(plugin, initialized, requests, k, Trace(Version1(panicked, plugin), initialized, requests, k))
    decreases |requests| - k
  {
    if k < |requests| {
      var s := Version1(panicked, plugin)(initialized, requests[k]);
      if Ends1(requests[k]) {
        EndTells1(panicked, plugin, initialized, requests[k]);
      } else {
        StepTells1(panicked, plugin, initialized, requests[k]);
        Version1Tells(panicked, plugin, s.initialized, requests, k + 1);
        StepThenRest(s, Trace(Version1(panicked, plugin), s.initialized, requests, k + 1));
      }
    }
  }

  // ---------------------------------------------------------------------------------------------
  // Version 2
  // ---------------------------------------------------------------------------------------------

  /** A request that runs the service. */
  predicate Runs2(initialized: bool, r: Request2) { initialized && "context." <= r.method_ }

  predicate TellsAnswer(a: ServiceAnswer, body: Body) {
    && (body.Result? <==> a.Answers?)
    && (body.Result? ==> body.value == a.value)
    && (HasCode(body, -32602) <==> a.RefusesParams?)
    && (HasCode(body, -32601) <==> a.RefusesMethod?)
    && (HasCode(body, -32603) <==> a.Unavailable?)
  }

  /** What the host is to be told of a request with an id. */
  predicate Told2(service: (string, string) -> ServiceAnswer, initialized: bool, r: Request2, body: Body) {
    var starts := r.method_ == "initialize";
    && (body.Initialized? <==> starts && r.offers && !initialized)
    && (Runs2(initialized, r) ==> TellsAnswer(service(r.method_, r.params), body))
    && (!Runs2(initialized, r) ==>
          && !body.Result? && !HasCode(body, -32603)
          && (HasCode(body, -32602) <==> starts && (!r.offers || initialized))
          && (HasCode(body, -32601) <==> !starts && initialized))
    && (HasCode(body, -32002) <==> !starts && !initialized)
    && !body.Pass? && !body.Optimized?
  }

  /** What it is told instead where that is too long. */
  predicate Shown(encode: Response -> string, r: Response, shown: Response) {
    if |encode(r)| > 0x10_0000 then shown == Response(r.id, Error(-32603, "response exceeds limit")) else shown == r
  }

  predicate Ends2(q: Option<Request2>) { q.None? || !q.value.wellFormed || q.value.method_ == "shutdown" }

  ghost predicate IsShown(
      service: (string, string) -> ServiceAnswer, encode: Response -> string, initialized: bool, r: Request2,
      shown: Response)
  {
    exists body :: Told2(service, initialized, r, body) && Shown(encode, Response(r.id, body), shown)
  }

  /** The events of a session from the `k`-th request on. Notifications have none; the first `initialize` with an id
      that asks for this version initializes it. */
  ghost predicate Session2(
      service: (string, string) -> ServiceAnswer, encode: Response -> string, initialized: bool,
      requests: seq<Option<Request2>>, k: nat, events: seq<Event>)
    requires k <= |requests|
    decreases |requests| - k
  {
    if k == |requests| || Ends2(requests[k]) then events == []
    else if requests[k].value.id.NoId? then Session2(service, encode, initialized, requests, k + 1, events)
    else
      var r := requests[k].value;
      var n := if Runs2(initialized, r) then 1 else 0;
      && n < |events| && (n == 1 ==> events[0] == Calls(Call(r.method_, r.params)))
      && events[n].Responds? && IsShown(service, encode, initialized, r, events[n].response)
      && Session2(service, encode, initialized || (r.method_ == "initialize" && r.offers), requests, k + 1,
                  events[n + 1..])
  }

  lemma ContextIsPrefix(m: string)
    ensures IsContext(m) <==> "context." <= m
    ensures IsContext(m) ==> m != "initialize" && m != "shutdown"
  {
    assert "context."[0] == 'c' && "initialize"[0] == 'i' && "shutdown"[0] == 's';
    assert IsContext(m) ==> m[0] == m[..8][0];
  }

  lemma UncappedTells(service: (string, string) -> ServiceAnswer, initialized: bool, q: Option<Request2>)
    requires !Ends2(q) && q.value.id.IdText?
    ensures
      var s, r := Uncapped(service, initialized, q), q.value;
      && s.course.Goes? && s.initialized == (initialized || (r.method_ == "initialize" && r.offers))
      && s.call == (if Runs2(initialized, r) then Some(Call(r.method_, r.params)) else None)
      && s.response.Some? && s.response.value.id == r.id && Told2(service, initialized, r, s.response.value.body)
  {
    ContextIsPrefix(q.value.method_);
  }

  lemma StepTells2(
      service: (string, string) -> ServiceAnswer, encode: Response -> string, initialized: bool, q: Option<Request2>)
    requires !Ends2(q) && q.value.id.IdText?
    ensures
      var s, r := Handle2(service, encode, initialized, q), q.value;
      && s.course.Goes? && s.initialized == (initialized || (r.method_ == "initialize" && r.offers))
      && s.call == (if Runs2(initialized, r) then Some(Call(r.method_, r.params)) else None)
      && s.response.Some? && IsShown(service, encode, initialized, r, s.response.value)
  {
    UncappedTells(service, initialized, q);
    var r := Uncapped(service, initialized, q).response.value;
    assert Shown(encode, Response(q.value.id, r.body), Capped(encode, r));
  }

  lemma QuietStep2(
      service: (string, string) -> ServiceAnswer, encode: Response -> string, initialized: bool, q: Option<Request2>)
    requires Ends2(q) || q.value.id.NoId?
    ensures
      var s := Handle2(service, encode, initialized, q);
      && (s.course.Goes? <==> !Ends2(q)) && EventsOf(s) == [] && (s.course.Goes? ==> s.initialized == initialized)
  {
  }

  /** Every session of version 2 is one, for every service and every list of requests. */
  lemma {:induction false} Version2Tells(
      service: (string, string) -> ServiceAnswer, encode: Response -> string, initialized: bool,
      requests: seq<Option<Request2>>, k: nat)
    requires k <= |requests|
    ensures Session2(service, encode, initialized, requests, k,
                     Trace(Version2(service, encode), initialized, requests, k))
    decreases |requests| - k
  {
    if k < |requests| {
      var s := Version2(service, encode)(initialized, requests[k]);
      if Ends2(requests[k]) {
        QuietStep2(service, encode, initialized, requests[k]);
      } else {
        var rest := Trace(Version2(service, encode), s.initialized, requests, k + 1);
        Version2Tells(service, encode, s.initialized, requests, k + 1);
        if requests[k].value.id.NoId? {
          QuietStep2(service, encode, initialized, requests[k]);
          assert [] + rest == rest;
        } else {
          StepTells2(service, encode, initialized, requests[k]);
          StepThenRest(s, rest);
        }
      }
    }
  }
}
