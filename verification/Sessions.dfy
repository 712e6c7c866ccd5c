/** Plugin sessions: what a runtime answers to the frames of a host, version 1 for optimizers and version 2 for
    context services, and what holds over every whole session. */
module Sessions {
  import opened Bytes

  /** An id as the JSON text in which it was received; `NoId` where a request has none or, in version 2, null. */
  datatype Id = NoId | IdText(json: string)

  /** `Pass` and `Optimized` are the actions of an optimizer, `Result` is the JSON text of a service's answer. */
  datatype Body =
    | Initialized | Pass | Optimized(content: string) | Result(value: string) | Error(code: int, message: string)

  datatype Response = Response(id: Id, body: Body)

  /** A call of plugin code. */
  datatype Call = Call(method_: string, params: string)

  datatype Event = Calls(call: Call) | Responds(response: Response)

  datatype Course = Goes | Closes | Fails

  /** What a request leads to. */
  datatype Step = Step(call: Option<Call>, response: Option<Response>, initialized: bool, course: Course)

  function EventsOf(s: Step): seq<Event> {
    (if s.call.Some? then [Calls(s.call.value)] else []) +
    (if s.response.Some? then [Responds(s.response.value)] else [])
  }

  /** A runtime, as what it does with a request (none if the payload is not one), being initialized or not. */
  type Handler<!R> = (bool, Option<R>) -> Step

  /** The events from the `k`-th request on. */
  function Trace<R>(handle: Handler<R>, initialized: bool, requests: seq<Option<R>>, k: nat): seq<Event>
    requires k <= |requests|
    decreases |requests| - k
  {
    if k == |requests| then []
    else
      var s := handle(initialized, requests[k]);
      EventsOf(s) + if s.course.Goes? then Trace(handle, s.initialized, requests, k + 1) else []
  }

  // ---------------------------------------------------------------------------------------------
  // Version 1
  // ---------------------------------------------------------------------------------------------

  const MAX_CONTENT_BYTES: nat := 0x100_0000

  datatype OptimizeParams = InvalidParams | Undecodable(message: string) | Decoded(text: string)

  datatype Method1 = Initialize1(apiVersion: Option<nat>) | Optimize1(params: OptimizeParams) | Shutdown1 | Other1

  datatype Request1 = Request1(rpc: bool, id: Id, method_: Method1)

  datatype Proposal = Panics | Passes | Proposes(content: string)

  predicate SafeContent(content: string) { content != "" && |content| <= MAX_CONTENT_BYTES && '\0' !in content }

  /** `panicked` is what the host is told of a plugin that panics or raises. */
  function ActionBody(panicked: string, p: Proposal): Body {
    match p
    case Panics => Error(-32603, panicked)
    case Passes => Pass
    case Proposes(content) =>
      if SafeContent(content) then Optimized(content) else Error(-32603, "unsafe optimized content")
  }

  /** `Serve` of the Go SDK and `serve` of the Python SDK. A request without an id is answered like any other. */
  function Handle1(
      panicked: string, plugin: string -> Proposal, initialized: bool, request: Option<Request1>): Step
  {
    match request
    case None => Step(None, None, initialized, Fails)
    case Some(r) =>
      if !r.rpc then Step(None, Some(Response(r.id, Error(-32600, "jsonrpc must be 2.0"))), initialized, Goes)
      else
        match r.method_
        case Initialize1(None) =>
          Step(None, Some(Response(r.id, Error(-32602, "invalid initialize params"))), initialized, Goes)
        case Initialize1(Some(version)) =>
          if version != 1 then
            Step(None, Some(Response(r.id, Error(-32602, "unsupported apiVersion"))), initialized, Goes)
          else Step(None, Some(Response(r.id, Initialized)), true, Goes)
        case Optimize1(params) =>
          if !initialized then
            Step(None, Some(Response(r.id, Error(-32002, "plugin is not initialized"))), initialized, Goes)
          else
            (match params
             case InvalidParams =>
               Step(None, Some(Response(r.id, Error(-32602, "invalid optimize params"))), initialized, Goes)
             case Undecodable(message) =>
               Step(None, Some(Response(r.id, Error(-32602, message))), initialized, Goes)
             case Decoded(text) =>
               var body := ActionBody(panicked, plugin(text));
               Step(Some(Call("optimize", text)), Some(Response(r.id, body)), initialized, Goes))
        case Shutdown1 => Step(None, None, initialized, Closes)
        case Other1 => Step(None, Some(Response(r.id, Error(-32601, "method not found"))), initialized, Goes)
  }

  // ---------------------------------------------------------------------------------------------
  // Version 2
  // ---------------------------------------------------------------------------------------------

  /** `wellFormed`: JSON-RPC 2.0 with an id of an admitted type. `offers`: the parameters ask for this version and
      profile. */
  datatype Request2 = Request2(wellFormed: bool, id: Id, method_: string, offers: bool, params: string)

  datatype ServiceAnswer = Answers(value: string) | RefusesParams | RefusesMethod | Unavailable

  function ServiceBody(a: ServiceAnswer): Body {
    match a
    case Answers(value) => Result(value)
    case RefusesParams => Error(-32602, "invalid params")
    case RefusesMethod => Error(-32601, "unknown method")
    case Unavailable => Error(-32603, "context service unavailable")
  }

  predicate IsContext(m: string) { |m| >= 8 && m[..8] == "context." }

  const MAX_RESPONSE_BYTES: nat := 0x10_0000

  function Replacement(id: Id): Response { Response(id, Error(-32603, "response exceeds limit")) }

  /** The response, unless it is too long. */
  function Capped(encode: Response -> string, r: Response): Response {
    if |encode(r)| > MAX_RESPONSE_BYTES then Replacement(r.id) else r
  }

  /** What the Rust SDK makes of a request, before it looks at the length of the response. */
  function Uncapped(service: (string, string) -> ServiceAnswer, initialized: bool, request: Option<Request2>): Step {
    match request
    case None => Step(None, None, initialized, Fails)
    case Some(r) =>
      if !r.wellFormed then Step(None, None, initialized, Fails)
      else if r.method_ == "shutdown" then Step(None, None, initialized, Closes)
      else if r.id.NoId? then Step(None, None, initialized, Goes)
      else if r.method_ == "initialize" then
        if !r.offers || initialized then
          Step(None, Some(Response(r.id, Error(-32602, "unsupported context-service initialization"))),
               initialized, Goes)
        else Step(None, Some(Response(r.id, Initialized)), true, Goes)
      else if !initialized then
        Step(None, Some(Response(r.id, Error(-32002, "initialize first"))), initialized, Goes)
      else if !IsContext(r.method_) then
        Step(None, Some(Response(r.id, Error(-32601, "unknown method"))), initialized, Goes)
      else
        Step(Some(Call(r.method_, r.params)), Some(Response(r.id, ServiceBody(service(r.method_, r.params)))),
             initialized, Goes)
  }

  function CappedStep(encode: Response -> string, s: Step): Step {
    if s.response.None? then s else s.(response := Some(Capped(encode, s.response.value)))
  }

  /** One request of `serve` of the Rust SDK. */
  function Handle2(
      service: (string, string) -> ServiceAnswer, encode: Response -> string, initialized: bool,
      request: Option<Request2>)
    : Step
  {
    CappedStep(encode, Uncapped(service, initialized, request))
  }

  // ---------------------------------------------------------------------------------------------
  // Over whole sessions
  // ---------------------------------------------------------------------------------------------

  /** What one step of either version keeps. */
  predicate KeptAt<R>(handle: Handler<R>, idOf: R -> Id, initialized: bool, request: Option<R>) {
    var s := handle(initialized, request);
    && (initialized ==> s.initialized)
    && (s.call.Some? ==> initialized && s.response.Some?)
    && (s.response.Some? ==> request.Some? && s.response.value.id == idOf(request.value))
    && (!s.course.Goes? ==> s.call.None? && s.response.None?)
  }

  ghost predicate Keeps<R(!new)>(handle: Handler<R>, idOf: R -> Id) {
    forall initialized, request :: KeptAt(handle, idOf, initialized, request)
  }

  /** Whoever becomes initialized says so. */
  predicate AnnouncedAt<R>(handle: Handler<R>, request: Option<R>) {
    var s := handle(false, request);
    s.initialized ==> s.call.None? && s.response.Some? && s.response.value.body.Initialized?
  }

  ghost predicate Announces<R(!new)>(handle: Handler<R>) { forall request :: AnnouncedAt(handle, request) }

  predicate Announcement(e: Event) { e.Responds? && e.response.body.Initialized? }

  predicate AnnouncedBefore(events: seq<Event>, i: nat) {
    exists j :: 0 <= j < i && j < |events| && Announcement(events[j])
  }

  /** Every call comes after a response that announced the initialization, unless there was one before. */
  predicate CallsAnnounced(initialized: bool, events: seq<Event>) {
    forall i :: 0 <= i < |events| && events[i].Calls? ==> initialized || AnnouncedBefore(events, i)
  }

  lemma CallsStayAnnounced(before: bool, after: bool, first: seq<Event>, rest: seq<Event>)
    requires CallsAnnounced(before, first) && CallsAnnounced(after, rest)
    requires after && !before ==> exists j :: 0 <= j < |first| && Announcement(first[j])
    ensures CallsAnnounced(before, first + rest)
  {
    var all := first + rest;
    forall i | 0 <= i < |all| && all[i].Calls? && !before ensures AnnouncedBefore(all, i) {
      if i < |first| {
        assert AnnouncedBefore(first, i);
        var j :| 0 <= j < i && j < |first| && Announcement(first[j]);
        assert Announcement(all[j]);
      } else if after {
        var j :| 0 <= j < |first| && Announcement(first[j]);
        assert Announcement(all[j]);
      } else {
        assert rest[i - |first|].Calls? && AnnouncedBefore(rest, i - |first|);
        var j :| 0 <= j < i - |first| && j < |rest| && Announcement(rest[j]);
        assert Announcement(all[|first| + j]);
      }
    }
  }

  /** In every session, plugin code runs only after a response that announced the initialization. */
  lemma {:induction false} CodeRunsAfterInitialize<R(!new)>(
      handle: Handler<R>, idOf: R -> Id, initialized: bool, requests: seq<Option<R>>, k: nat)
    requires Keeps(handle, idOf) && Announces(handle) && k <= |requests|
    ensures CallsAnnounced(initialized, Trace(handle, initialized, requests, k))
    decreases |requests| - k
  {
    if k < |requests| {
      var s := handle(initialized, requests[k]);
      assert KeptAt(handle, idOf, initialized, requests[k]) && AnnouncedAt(handle, requests[k]);
      if s.course.Goes? {
        CodeRunsAfterInitialize(handle, idOf, s.initialized, requests, k + 1);
        if s.initialized && !initialized {
          assert Announcement(EventsOf(s)[0]);
        }
        CallsStayAnnounced(initialized, s.initialized, EventsOf(s), Trace(handle, s.initialized, requests, k + 1));
      } else {
        assert EventsOf(s) + [] == EventsOf(s);
      }
    }
  }

  /** The ids of the responses among the first `k` events. */
  function ResponseIds(events: seq<Event>, k: nat): seq<Id>
    requires k <= |events|
  {
    if k == 0 then []
    else ResponseIds(events, k - 1) + if events[k - 1].Responds? then [events[k - 1].response.id] else []
  }

  lemma {:induction false} ResponseIdsConcat(a: seq<Event>, b: seq<Event>, k: nat)
    requires k <= |b|
    ensures ResponseIds(a + b, |a| + k) == ResponseIds(a, |a|) + ResponseIds(b, k)
  {
    if k == 0 {
      ResponseIdsOfPrefix(a, b, |a|);
    } else {
      ResponseIdsConcat(a, b, k - 1);
      assert (a + b)[|a| + k - 1] == b[k - 1];
    }
  }

  lemma {:induction false} ResponseIdsOfPrefix(a: seq<Event>, b: seq<Event>, k: nat)
    requires k <= |a|
    ensures ResponseIds(a + b, k) == ResponseIds(a, k)
  {
    if k > 0 {
      ResponseIdsOfPrefix(a, b, k - 1);
    }
  }

  /** Which requests a session ends with, and which others it answers, said without running it. */
  datatype Duties<!R> = Duties(ends: Option<R> -> bool, answers: R -> bool, idOf: R -> Id)

  predicate RuledAt<R>(handle: Handler<R>, duties: Duties<R>, initialized: bool, request: Option<R>) {
    RuledStep(handle(initialized, request), duties, request)
  }

  predicate RuledStep<R>(s: Step, duties: Duties<R>, request: Option<R>) {
    && (s.course.Goes? <==> !duties.ends(request))
    && (duties.ends(request) ==> s.call.None? && s.response.None?)
    && (!duties.ends(request) ==> request.Some? && (s.response.Some? <==> duties.answers(request.value)))
    && (s.response.Some? ==> s.response.value.id == duties.idOf(request.value))
  }

  ghost predicate Ruled<R(!new)>(handle: Handler<R>, duties: Duties<R>) {
    forall initialized, request :: RuledAt(handle, duties, initialized, request)
  }

  /** The ids that are owed a response: of the answered requests before the first that ends the session. */
  function OwedIds<R>(duties: Duties<R>, requests: seq<Option<R>>, k: nat): seq<Id>
    requires k <= |requests|
    decreases |requests| - k
  {
    if k == |requests| || duties.ends(requests[k]) then []
    else
      (if requests[k].Some? && duties.answers(requests[k].value) then [duties.idOf(requests[k].value)] else []) +
      OwedIds(duties, requests, k + 1)
  }

  lemma StepIds(s: Step)
    ensures ResponseIds(EventsOf(s), |EventsOf(s)|) == if s.response.Some? then [s.response.value.id] else []
  {
    var e := EventsOf(s);
    if |e| == 2 {
      assert ResponseIds(e, 1) == [];
    }
    if |e| == 1 {
      assert ResponseIds(e, 0) == [];
    }
  }

  lemma StepThenRestIds(s: Step, rest: seq<Event>)
    ensures
      var all := EventsOf(s) + rest;
      ResponseIds(all, |all|) ==
        (if s.response.Some? then [s.response.value.id] else []) + ResponseIds(rest, |rest|)
  {
    ResponseIdsConcat(EventsOf(s), rest, |rest|);
    StepIds(s);
  }

  /** Each of them gets exactly one response, with its own id and in order, and nothing else is sent. */
  lemma {:induction false} OwedIdsAreAnswered<R(!new)>(
      handle: Handler<R>, duties: Duties<R>, initialized: bool, requests: seq<Option<R>>, k: nat)
    requires Ruled(handle, duties) && k <= |requests|
    ensures
      var events := Trace(handle, initialized, requests, k);
      ResponseIds(events, |events|) == OwedIds(duties, requests, k)
    decreases |requests| - k
  {
    if k < |requests| {
      var s := handle(initialized, requests[k]);
      assert RuledAt(handle, duties, initialized, requests[k]);
      if s.course.Goes? {
        OwedIdsAreAnswered(handle, duties, s.initialized, requests, k + 1);
        StepThenRestIds(s, Trace(handle, s.initialized, requests, k + 1));
      } else {
        assert Trace(handle, initialized, requests, k) == EventsOf(s) + [] == [];
      }
    }
  }

  /** Nothing follows the request that ends a session, whatever else arrives. */
  lemma {:induction false} NothingFollowsTheEnd<R(!new)>(
      handle: Handler<R>, duties: Duties<R>, initialized: bool, requests: seq<Option<R>>, more: seq<Option<R>>, k: nat)
    requires Ruled(handle, duties) && k <= |requests|
    requires exists i :: k <= i < |requests| && duties.ends(requests[i])
    ensures Trace(handle, initialized, requests + more, k) == Trace(handle, initialized, requests, k)
    decreases |requests| - k
  {
    assert RuledAt(handle, duties, initialized, requests[k]);
    var s := handle(initialized, requests[k]);
    assert (requests + more)[k] == requests[k];
    if s.course.Goes? {
      NothingFollowsTheEnd(handle, duties, s.initialized, requests, more, k + 1);
    }
  }

  // ---------------------------------------------------------------------------------------------
  // Both versions
  // ---------------------------------------------------------------------------------------------

  function Version1(panicked: string, plugin: string -> Proposal): Handler<Request1> {
    (initialized: bool, request: Option<Request1>) => Handle1(panicked, plugin, initialized, request)
  }

  function Duties1(): Duties<Request1> {
    Duties((q: Option<Request1>) => q.None? || (q.value.rpc && q.value.method_.Shutdown1?),
          (r: Request1) => true, (r: Request1) => r.id)
  }

  function Version2(service: (string, string) -> ServiceAnswer, encode: Response -> string): Handler<Request2> {
    (initialized: bool, request: Option<Request2>) => Handle2(service, encode, initialized, request)
  }

  function Duties2(): Duties<Request2> {
    Duties((q: Option<Request2>) => q.None? || !q.value.wellFormed || q.value.method_ == "shutdown",
          (r: Request2) => !r.id.NoId?, (r: Request2) => r.id)
  }

  lemma Version1Keeps(panicked: string, plugin: string -> Proposal)
    ensures Keeps(Version1(panicked, plugin), Duties1().idOf) && Announces(Version1(panicked, plugin))
  {
  }

  lemma Version1IsRuled(panicked: string, plugin: string -> Proposal)
    ensures Ruled(Version1(panicked, plugin), Duties1())
  {
  }

  lemma Version2IsRuled(service: (string, string) -> ServiceAnswer, encode: Response -> string)
    ensures Ruled(Version2(service, encode), Duties2())
  {
    forall initialized, request ensures RuledAt(Version2(service, encode), Duties2(), initialized, request) {
      UncappedIsRuled(service, initialized, request);
      CappedIsRuled(encode, Uncapped(service, initialized, request), request);
    }
  }

  lemma UncappedIsRuled(
      service: (string, string) -> ServiceAnswer, initialized: bool, request: Option<Request2>)
    ensures RuledStep(Uncapped(service, initialized, request), Duties2(), request)
  {
  }

  lemma CappedIsRuled(encode: Response -> string, s: Step, request: Option<Request2>)
    requires RuledStep(s, Duties2(), request)
    ensures RuledStep(CappedStep(encode, s), Duties2(), request)
  {
  }

  predicate InitializesAtMostOnce(events: seq<Event>) {
    forall i, j :: 0 <= i < j < |events| && Announcement(events[i]) ==> !Announcement(events[j])
  }

  predicate NeverAnnounces(events: seq<Event>) { forall i :: 0 <= i < |events| ==> !Announcement(events[i]) }

  lemma NeverAnnouncesJoins(a: seq<Event>, b: seq<Event>)
    requires NeverAnnounces(a) && NeverAnnounces(b)
    ensures NeverAnnounces(a + b)
  {
  }

  lemma {:induction false} Version2NeverAgain(
      service: (string, string) -> ServiceAnswer, encode: Response -> string, requests: seq<Option<Request2>>, k: nat)
    requires k <= |requests|
    ensures NeverAnnounces(Trace(Version2(service, encode), true, requests, k))
    decreases |requests| - k
  {
    if k < |requests| {
      var s := Version2(service, encode)(true, requests[k]);
      Version2InitializedStep(service, encode, requests[k]);
      if s.course.Goes? {
        Version2NeverAgain(service, encode, requests, k + 1);
        NeverAnnouncesJoins(EventsOf(s), Trace(Version2(service, encode), true, requests, k + 1));
      } else {
        assert EventsOf(s) + [] == EventsOf(s);
      }
    }
  }

  lemma Version2InitializedStep(
      service: (string, string) -> ServiceAnswer, encode: Response -> string, request: Option<Request2>)
    ensures
      var s := Version2(service, encode)(true, request);
      NeverAnnounces(EventsOf(s)) && s.initialized
  {
  }

  /** In version 2 at most one initialization succeeds. */
  lemma {:induction false} Version2InitializesOnce(
      service: (string, string) -> ServiceAnswer, encode: Response -> string, requests: seq<Option<Request2>>, k: nat)
    requires k <= |requests|
    ensures InitializesAtMostOnce(Trace(Version2(service, encode), false, requests, k))
    decreases |requests| - k
  {
    if k < |requests| {
      var s := Version2(service, encode)(false, requests[k]);
      if s.initialized {
        Version2NeverAgain(service, encode, requests, k + 1);
      } else {
        Version2InitializesOnce(service, encode, requests, k + 1);
      }
    }
  }

  // ---------------------------------------------------------------------------------------------
  // When plugin code runs only after its host was told of the initialization
  // ---------------------------------------------------------------------------------------------

  /** A request that initializes a session of version 2 which is not initialized yet. */
  predicate Starts(q: Option<Request2>) {
    q.Some? && q.value.wellFormed && !q.value.id.NoId? && q.value.method_ == "initialize" && q.value.offers
  }

  /** A request that runs plugin code in an initialized one. */
  predicate Asks(q: Option<Request2>) {
    q.Some? && q.value.wellFormed && !q.value.id.NoId? && IsContext(q.value.method_)
  }

  /** The first of them before the end of the session, from the `k`-th request on. */
  function FirstStart(requests: seq<Option<Request2>>, k: nat): (start: Option<nat>)
    requires k <= |requests|
    ensures start.Some? ==> k <= start.value < |requests| && Starts(requests[start.value])
    decreases |requests| - k
  {
    if k == |requests| || Duties2().ends(requests[k]) then None
    else if Starts(requests[k]) then Some(k)
    else FirstStart(requests, k + 1)
  }

  predicate AsksFrom(requests: seq<Option<Request2>>, k: nat)
    requires k <= |requests|
    decreases |requests| - k
  {
    k < |requests| && !Duties2().ends(requests[k]) && (Asks(requests[k]) || AsksFrom(requests, k + 1))
  }

  /** The host is told of the initialization, or plugin code never runs after it. */
  predicate TellsHost(encode: Response -> string, requests: seq<Option<Request2>>, k: nat)
    requires k <= |requests|
  {
    match FirstStart(requests, k)
    case None => true
    case Some(i) =>
      || |encode(Response(requests[i].value.id, Initialized))| <= MAX_RESPONSE_BYTES
      || !AsksFrom(requests, i + 1)
  }

  predicate NeverCalls(events: seq<Event>) { forall i :: 0 <= i < |events| ==> !events[i].Calls? }

  lemma NeverCallsJoins(a: seq<Event>, b: seq<Event>)
    ensures NeverCalls(a + b) <==> NeverCalls(a) && NeverCalls(b)
  {
    forall i | 0 <= i < |b| ensures (a + b)[|a| + i] == b[i] {
    }
    forall i | 0 <= i < |a| ensures (a + b)[i] == a[i] {
    }
  }

  /** Once initialized, plugin code runs exactly if a request asks for it. */
  lemma {:induction false} AskingCalls(
      service: (string, string) -> ServiceAnswer, encode: Response -> string, requests: seq<Option<Request2>>, k: nat)
    requires k <= |requests|
    ensures NeverCalls(Trace(Version2(service, encode), true, requests, k)) <==> !AsksFrom(requests, k)
    decreases |requests| - k
  {
    if k < |requests| {
      var s := Version2(service, encode)(true, requests[k]);
      AskingStep(service, encode, requests[k]);
      if s.course.Goes? {
        AskingCalls(service, encode, requests, k + 1);
        NeverCallsJoins(EventsOf(s), Trace(Version2(service, encode), true, requests, k + 1));
      } else {
        assert EventsOf(s) + [] == EventsOf(s);
      }
    }
  }

  lemma AskingStep(service: (string, string) -> ServiceAnswer, encode: Response -> string, request: Option<Request2>)
    ensures
      var s := Version2(service, encode)(true, request);
      && s.initialized && (s.course.Goes? <==> !Duties2().ends(request))
      && (s.course.Goes? ==> (NeverCalls(EventsOf(s)) <==> !Asks(request)))
      && (!s.course.Goes? ==> EventsOf(s) == [])
  {
    assert "initialize"[..8] == "initiali" && "shutdown"[..8] == "shutdown";
    var s := Version2(service, encode)(true, request);
    if s.call.Some? {
      assert EventsOf(s)[0].Calls?;
    }
  }

  lemma StartingStep(service: (string, string) -> ServiceAnswer, encode: Response -> string, request: Option<Request2>)
    ensures
      var s := Version2(service, encode)(false, request);
      && (s.course.Goes? <==> !Duties2().ends(request))
      && (!s.course.Goes? ==> EventsOf(s) == [])
      && NeverCalls(EventsOf(s))
      && (s.initialized <==> Starts(request))
      && (!Starts(request) ==> NeverAnnounces(EventsOf(s)))
      && (Starts(request) ==> EventsOf(s) == [Responds(Capped(encode, Response(request.value.id, Initialized)))])
  {
  }

  /** Events that neither call nor announce make no difference to those behind them. */
  lemma IdleEventsMatterNot(first: seq<Event>, rest: seq<Event>)
    requires NeverCalls(first) && NeverAnnounces(first)
    ensures CallsAnnounced(false, first + rest) <==> CallsAnnounced(false, rest)
  {
    if CallsAnnounced(false, rest) {
      CallsStayAnnounced(false, false, first, rest);
    }
    if CallsAnnounced(false, first + rest) {
      forall i | 0 <= i < |rest| && rest[i].Calls? ensures AnnouncedBefore(rest, i) {
        assert (first + rest)[|first| + i] == rest[i] && AnnouncedBefore(first + rest, |first| + i);
        var j :| 0 <= j < |first| + i && j < |first + rest| && Announcement((first + rest)[j]);
        assert Announcement(rest[j - |first|]);
      }
    }
  }

  predicate Agrees(
      service: (string, string) -> ServiceAnswer, encode: Response -> string, requests: seq<Option<Request2>>, k: nat)
    requires k <= |requests|
  {
    CallsAnnounced(false, Trace(Version2(service, encode), false, requests, k)) <==> TellsHost(encode, requests, k)
  }

  /** In version 2 plugin code runs only after the host was told of the initialization, exactly if the response to
      the first `initialize` that asks for this version is not too long, or no request of the session asks for
      plugin code afterwards. */
  lemma CallsAnnouncedExactlyWhen(
      service: (string, string) -> ServiceAnswer, encode: Response -> string, requests: seq<Option<Request2>>, k: nat)
    requires k <= |requests|
    ensures CallsAnnounced(false, Trace(Version2(service, encode), false, requests, k)) <==>
            TellsHost(encode, requests, k)
  {
    AgreesFrom(service, encode, requests, k);
  }

  lemma {:induction false} AgreesFrom(
      service: (string, string) -> ServiceAnswer, encode: Response -> string, requests: seq<Option<Request2>>, k: nat)
    requires k <= |requests|
    ensures Agrees(service, encode, requests, k)
    decreases |requests| - k
  {
    if k == |requests| || Duties2().ends(requests[k]) {
      EndAgrees(service, encode, requests, k);
    } else if Starts(requests[k]) {
      CallsAfterStart(service, encode, requests, k);
    } else {
      AgreesFrom(service, encode, requests, k + 1);
      IdleAgrees(service, encode, requests, k);
    }
  }

  lemma EndAgrees(
      service: (string, string) -> ServiceAnswer, encode: Response -> string, requests: seq<Option<Request2>>, k: nat)
    requires k <= |requests| && (k == |requests| || Duties2().ends(requests[k]))
    ensures Agrees(service, encode, requests, k)
  {
    if k < |requests| {
      StartingStep(service, encode, requests[k]);
      assert EventsOf(Version2(service, encode)(false, requests[k])) + [] == [];
    }
  }

  lemma IdleAgrees(
      service: (string, string) -> ServiceAnswer, encode: Response -> string, requests: seq<Option<Request2>>, k: nat)
    requires k < |requests| && !Duties2().ends(requests[k]) && !Starts(requests[k])
    requires Agrees(service, encode, requests, k + 1)
    ensures Agrees(service, encode, requests, k)
  {
    var handle := Version2(service, encode);
    StartingStep(service, encode, requests[k]);
    IdleEventsMatterNot(EventsOf(handle(false, requests[k])), Trace(handle, false, requests, k + 1));
  }

  lemma CallsAfterStart(
      service: (string, string) -> ServiceAnswer, encode: Response -> string, requests: seq<Option<Request2>>, k: nat)
    requires k < |requests| && Starts(requests[k])
    ensures CallsAnnounced(false, Trace(Version2(service, encode), false, requests, k)) <==>
            || |encode(Response(requests[k].value.id, Initialized))| <= MAX_RESPONSE_BYTES
            || !AsksFrom(requests, k + 1)
  {
    var handle := Version2(service, encode);
    var response, rest := Response(requests[k].value.id, Initialized), Trace(handle, true, requests, k + 1);
    var first := [Responds(Capped(encode, response))];
    StartingStep(service, encode, requests[k]);
    AskingCalls(service, encode, requests, k + 1);
    assert Trace(handle, false, requests, k) == first + rest;
    if |encode(response)| <= MAX_RESPONSE_BYTES {
      assert Announcement(first[0]);
      CallsStayAnnounced(false, true, first, rest);
    } else {
      Version2NeverAgain(service, encode, requests, k + 1);
      NeverAnnouncesJoins(first, rest);
      NeverCallsJoins(first, rest);
      UnannouncedCallsNothing(first + rest);
    }
  }

  lemma UnannouncedCallsNothing(events: seq<Event>)
    requires NeverAnnounces(events)
    ensures CallsAnnounced(false, events) <==> NeverCalls(events)
  {
  }

  // ---------------------------------------------------------------------------------------------
  // Whole sessions
  // ---------------------------------------------------------------------------------------------

  /** Sessions of version 1, for every plugin and every list of requests. */
  lemma Version1IsSafe(panicked: string, plugin: string -> Proposal, requests: seq<Option<Request1>>)
    ensures
      var events := Trace(Version1(panicked, plugin), false, requests, 0);
      && CallsAnnounced(false, events)
      && ResponseIds(events, |events|) == OwedIds(Duties1(), requests, 0)
  {
    Version1Keeps(panicked, plugin);
    Version1IsRuled(panicked, plugin);
    CodeRunsAfterInitialize(Version1(panicked, plugin), Duties1().idOf, false, requests, 0);
    OwedIdsAreAnswered(Version1(panicked, plugin), Duties1(), false, requests, 0);
  }

  lemma {:induction false} NotificationsAreNotOwed(requests: seq<Option<Request2>>, k: nat)
    requires k <= |requests|
    ensures NoId !in OwedIds(Duties2(), requests, k)
    decreases |requests| - k
  {
    if k < |requests| {
      NotificationsAreNotOwed(requests, k + 1);
    }
  }

  /** Sessions of version 2, for every service and every list of requests: notifications are never answered. */
  lemma Version2IsSafe(
      service: (string, string) -> ServiceAnswer, encode: Response -> string, requests: seq<Option<Request2>>)
    ensures
      var events := Trace(Version2(service, encode), false, requests, 0);
      && (CallsAnnounced(false, events) <==> TellsHost(encode, requests, 0))
      && ResponseIds(events, |events|) == OwedIds(Duties2(), requests, 0)
      && NoId !in ResponseIds(events, |events|)
      && InitializesAtMostOnce(events)
  {
    Version2IsRuled(service, encode);
    OwedIdsAreAnswered(Version2(service, encode), Duties2(), false, requests, 0);
    NotificationsAreNotOwed(requests, 0);
    Version2InitializesOnce(service, encode, requests, 0);
    CallsAnnouncedExactlyWhen(service, encode, requests, 0);
  }
}
