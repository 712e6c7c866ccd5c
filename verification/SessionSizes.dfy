/** How long responses are: the texts that the SDKs write, and which ids are too long to be answered. */
module SessionSizes {
  import opened Bytes
  import opened Framing
  import opened FrameStreams
  import opened Sessions
  import opened SessionStreams
  import opened SessionAnswers

  /** What JSON leaves to a runtime: a plugin's texts as they are written between quotes, base64, and how an id that
      was received as some text is written again, if it can be. */
  datatype Dialect = Dialect(
    pluginId: string, version: string, encode64: string -> string, writeId: string -> Option<string>)

  predicate Writable(d: Dialect, id: Id) { id.NoId? || d.writeId(id.json).Some? }

  function WrittenId(d: Dialect, id: Id): string
    requires Writable(d, id)
  {
    if id.NoId? then "null" else d.writeId(id.json).value
  }

  /** Go and Rust can write every id that they accept; Python reads `1e999` as infinite and cannot write that. */
  ghost predicate WritesAll(d: Dialect) { forall json :: d.writeId(json).Some? }

  function CodeText(code: int): string {
    if code < 0 then "-" + Decimal.Print(-code) else Decimal.Print(code)
  }

  function ErrorText(code: int, message: string): string {
    "{\"code\":" + CodeText(code) + ",\"message\":\"" + message + "\"}"
  }

  function InitializedText2(d: Dialect): string {
    "{\"apiVersion\":2,\"pluginId\":\"" + d.pluginId + "\",\"profile\":\"context-service.v1\",\"version\":\"" +
    d.version + "\"}"
  }

  /** A response of the Rust SDK, whose JSON objects are written with their members in order; an empty text stands for
      one that cannot be written. */
  function Encoded2(d: Dialect, r: Response): string {
    if !Writable(d, r.id) then ""
    else
      match r.body
      case Error(code, message) =>
        "{\"error\":" + ErrorText(code, message) + ",\"id\":" + WrittenId(d, r.id) + ",\"jsonrpc\":\"2.0\"}"
      case Initialized =>
        "{\"id\":" + WrittenId(d, r.id) + ",\"jsonrpc\":\"2.0\",\"result\":" + InitializedText2(d) + "}"
      case Result(value) => "{\"id\":" + WrittenId(d, r.id) + ",\"jsonrpc\":\"2.0\",\"result\":" + value + "}"
      case _ => "{\"id\":" + WrittenId(d, r.id) + ",\"jsonrpc\":\"2.0\",\"result\":null}"
  }

  function ResultText1(d: Dialect, body: Body): string {
    match body
    case Initialized => "{\"apiVersion\":1,\"pluginId\":\"" + d.pluginId + "\",\"version\":\"" + d.version + "\"}"
    case Pass => "{\"action\":\"pass\"}"
    case Optimized(content) => "{\"action\":\"optimize\",\"content\":\"" + d.encode64(content) + "\"}"
    case _ => "null"
  }

  function OutcomeMember(d: Dialect, body: Body): string {
    match body
    case Error(code, message) => ",\"error\":" + ErrorText(code, message)
    case _ => ",\"result\":" + ResultText1(d, body)
  }

  function IdMember(d: Dialect, id: Id): string
    requires Writable(d, id)
  {
    if id.NoId? then "" else ",\"id\":" + WrittenId(d, id)
  }

  /** A response of version 1: Go writes the id before the outcome, Python behind it. */
  function Encoded1(writer: Writer, d: Dialect, r: Response): string {
    if !Writable(d, r.id) then ""
    else if writer.PythonWriter? then "{\"jsonrpc\":\"2.0\"" + OutcomeMember(d, r.body) + IdMember(d, r.id) + "}"
    else "{\"jsonrpc\":\"2.0\"" + IdMember(d, r.id) + OutcomeMember(d, r.body) + "}"
  }

  function Encoder(writer: Writer, d: Dialect): Response -> string {
    (r: Response) => if writer.RustWriter? then Encoded2(d, r) else Encoded1(writer, d, r)
  }

  /** The texts of version 1, by what they say: with the id in front of it in Go, behind it in Python. */
  lemma TextsOfVersion1(d: Dialect, json: string, id: string, content: string)
    requires d.writeId(json) == Some(id)
    ensures Encoder(GoWriter, d)(Response(IdText(json), Optimized(content))) ==
            "{\"jsonrpc\":\"2.0\"" + (",\"id\":" + id) +
            (",\"result\":" + ("{\"action\":\"optimize\",\"content\":\"" + d.encode64(content) + "\"}")) + "}"
    ensures Encoder(PythonWriter, d)(Response(IdText(json), Optimized(content))) ==
            "{\"jsonrpc\":\"2.0\"" +
            (",\"result\":" + ("{\"action\":\"optimize\",\"content\":\"" + d.encode64(content) + "\"}")) +
            (",\"id\":" + id) + "}"
    ensures Encoder(GoWriter, d)(Response(IdText(json), Pass)) ==
            "{\"jsonrpc\":\"2.0\"" + (",\"id\":" + id) + (",\"result\":" + "{\"action\":\"pass\"}") + "}"
    ensures Encoder(PythonWriter, d)(Response(NoId, Pass)) ==
            "{\"jsonrpc\":\"2.0\"" + (",\"result\":" + "{\"action\":\"pass\"}") + "" + "}"
  {
  }

  lemma OneMoreDigit(n: nat)
    requires n >= 10
    ensures |Decimal.Print(n)| == |Decimal.Print(n / 10)| + 1
  {
  }

  lemma CodeLength(code: int)
    requires -99_999 <= code <= -10_000
    ensures |CodeText(code)| == 6
  {
    var n: nat := -code;
    var m, l, k, j := n / 10, n / 10 / 10, n / 10 / 10 / 10, n / 10 / 10 / 10 / 10;
    OneMoreDigit(n);
    OneMoreDigit(m);
    OneMoreDigit(l);
    OneMoreDigit(k);
    assert 1 <= j < 10;
  }

  lemma ErrorLength2(d: Dialect, id: Id, code: int, message: string)
    requires -99_999 <= code <= -10_000 && Writable(d, id)
    ensures |Encoded2(d, Response(id, Error(code, message)))| == 60 + |message| + |WrittenId(d, id)|
  {
    CodeLength(code);
  }

  lemma InitializedLength2(d: Dialect, id: Id)
    requires Writable(d, id)
    ensures |Encoded2(d, Response(id, Initialized))| == 107 + |d.pluginId| + |d.version| + |WrittenId(d, id)|
  {
  }

  lemma ErrorLength1(writer: Writer, d: Dialect, id: Id, code: int, message: string)
    requires -99_999 <= code <= -10_000 && Writable(d, id)
    ensures |Encoded1(writer, d, Response(id, Error(code, message)))| ==
            |message| + if id.NoId? then 54 else 60 + |WrittenId(d, id)|
  {
    CodeLength(code);
  }

  lemma Encoded2IsNotEmpty(d: Dialect)
    requires WritesAll(d)
    ensures forall r :: Encoder(RustWriter, d)(r) != ""
  {
  }

  // ---------------------------------------------------------------------------------------------
  // Version 2
  // ---------------------------------------------------------------------------------------------

  /** The sessions of the Rust SDK. */
  ghost predicate OfVersion2(w: Wire, d: Dialect) {
    w.writer.RustWriter? && w.maxPayload == MAX_RESPONSE_BYTES && w.encode == Encoder(RustWriter, d)
  }

  function AskText(json: string): string { "{\"id\":" + json + ",\"jsonrpc\":\"2.0\"}" }

  function InitializeText(json: string): string {
    "{\"id\":" + json + ",\"jsonrpc\":\"2.0\",\"method\":\"initialize\",\"params\":" +
    "{\"apiVersion\":2,\"profile\":\"context-service.v1\"}}"
  }

  const CONTEXT_TEXT := "{\"id\":1,\"jsonrpc\":\"2.0\",\"method\":\"context.get\"}"

  /** The response to `initialize` is always longer than the request around the same id: both fit a frame unless
      the id leaves room for the request only. */
  lemma InitializeIsToldExactlyWhen(d: Dialect, json: string)
    requires d.writeId(json) == Some(json)
    ensures |InitializeText(json)| == 102 + |json|
    ensures |Encoded2(d, Response(IdText(json), Initialized))| ==
            |InitializeText(json)| + 5 + |d.pluginId| + |d.version|
    ensures |Encoded2(d, Replacement(IdText(json)))| == 82 + |json| < |InitializeText(json)|
  {
    InitializedLength2(d, IdText(json));
    ErrorLength2(d, IdText(json), -32603, "response exceeds limit");
  }

  /** An id that is just too long: the host's `initialize` is received, the host is told of an error, and its next
      request still runs plugin code. */
  lemma UnannouncedInitialization(
      service: (string, string) -> ServiceAnswer, d: Dialect, readable: string -> bool,
      decode: string -> Option<Request2>, json: string, w: Wire, before: string)
    requires 0x10_0000 - 107 - |d.pluginId| - |d.version| < |json| <= 0x10_0000 - 102
    requires d.writeId(json) == Some(json)
    requires forall n :: Readable(RustStyle(readable), KEY, n)
    requires decode(InitializeText(json)) == Some(Request2(true, IdText(json), "initialize", true, ""))
    requires decode(CONTEXT_TEXT) == Some(Request2(true, IdText("1"), "context.get", false, ""))
    requires Willing(w.accepts) && OfVersion2(w, d)
    ensures
      var payloads := [InitializeText(json), CONTEXT_TEXT];
      var trace := Trace(Version2(service, w.encode), false, Requests(decode, payloads), 0);
      && IsSound(Rust(readable)) && ReadAll(Rust(readable), AllWritten(KEY, payloads), 0) == Clean(payloads)
      && |trace| >= 2 && trace[0] == Responds(Replacement(IdText(json))) && trace[1] == Calls(Call("context.get", ""))
      && Performed(w, trace, 0, before).n >= 2
      && !CallsAnnounced(false, trace)
  {
    var payloads := [InitializeText(json), CONTEXT_TEXT];
    var requests, replacement := Requests(decode, payloads), Replacement(IdText(json));
    InitializeIsToldExactlyWhen(d, json);
    EverySdkReads(Rust(readable), RustStyle(readable), payloads);
    RunsUntold(service, w.encode, requests, IdText(json));
    WillingTakesFrames(w.writer, w.maxPayload, w.accepts, |before|, w.encode(replacement));
    TwoTakePlace(w, Trace(Version2(service, w.encode), false, requests, 0), replacement, before);
  }

  lemma TwoTakePlace(w: Wire, events: seq<Event>, first: Response, before: string)
    requires |events| >= 2 && events[0] == Responds(first) && events[1].Calls?
    requires SentBehind(w, before, first).how.Done?
    ensures Performed(w, events, 0, before).n >= 2
  {
    var text := before + SentBehind(w, before, first).text;
    assert Performed(w, events, 0, before) == Performed(w, events, 1, text) == Performed(w, events, 2, text);
  }

  lemma RunsUntold(
      service: (string, string) -> ServiceAnswer, encode: Response -> string, requests: seq<Option<Request2>>, id: Id)
    requires id.IdText? && |encode(Response(id, Initialized))| > MAX_RESPONSE_BYTES
    requires requests == [Some(Request2(true, id, "initialize", true, "")),
                          Some(Request2(true, IdText("1"), "context.get", false, ""))]
    ensures
      var trace := Trace(Version2(service, encode), false, requests, 0);
      && |trace| >= 2 && trace[0] == Responds(Replacement(id)) && trace[1] == Calls(Call("context.get", ""))
      && !CallsAnnounced(false, trace)
  {
    var handle := Version2(service, encode);
    assert IsContext("context.get");
    var second := handle(true, requests[1]);
    assert second.call == Some(Call("context.get", ""));
    assert Trace(handle, true, requests, 1) == EventsOf(second) + [];
    StartingStep(service, encode, requests[0]);
    assert Trace(handle, false, requests, 0) == [Responds(Replacement(id))] + EventsOf(second);
    CallsAnnouncedExactlyWhen(service, encode, requests, 0);
    assert FirstStart(requests, 0) == Some(0) && Asks(requests[1]);
  }

  /** A request with nothing but an id, before `initialize`: it fits a frame, and with an id too long for the error
      it is owed it ends the session unanswered. */
  lemma FirstAskIsAnsweredExactlyWhen(
      service: (string, string) -> ServiceAnswer, d: Dialect, json: string, w: Wire, before: string)
    requires OfVersion2(w, d) && WritesAll(d) && Willing(w.accepts)
    ensures
      var requests := [Some(Request2(true, IdText(json), "", false, ""))];
      var trace := Trace(Version2(service, w.encode), false, requests, 0);
      && (FitsFrame(0x10_0000, AskText(json)) <==> |json| <= 1_048_553)
      && OwedIds(Duties2(), requests, 0) == [IdText(json)]
      && (AllAnswered(w, trace, [IdText(json)], before) <==> |WrittenId(d, IdText(json))| <= 1_048_500)
  {
    var id := IdText(json);
    var requests := [Some(Request2(true, id, "", false, ""))];
    var bare := Trace(Bare(service), false, requests, 0);
    ErrorLength2(d, id, -32002, "initialize first");
    ErrorLength2(d, id, -32603, "response exceeds limit");
    Encoded2IsNotEmpty(d);
    Version2AnswersExactlyWhen(service, requests, w, before);
    assert Trace(Bare(service), false, requests, 1) == [];
    assert bare == [Responds(Response(id, Error(-32002, "initialize first")))];
    assert OwedIds(Duties2(), requests, 1) == [];
  }

  lemma {:induction false} ResponseHasId(events: seq<Event>, k: nat, i: nat)
    requires i < k <= |events| && events[i].Responds?
    ensures events[i].response.id in ResponseIds(events, k)
  {
    if i < k - 1 {
      ResponseHasId(events, k - 1, i);
    }
  }

  lemma BareIsRuled(service: (string, string) -> ServiceAnswer)
    ensures Ruled(Bare(service), Duties2())
  {
  }

  lemma ReplacementFits(d: Dialect, id: Id)
    requires Writable(d, id) && |WrittenId(d, id)| <= 1_048_494
    ensures |Encoder(RustWriter, d)(Replacement(id))| <= MAX_RESPONSE_BYTES
  {
    ErrorLength2(d, id, -32603, "response exceeds limit");
  }

  lemma ReplaceableIsAnswerable(encode: Response -> string, events: seq<Event>)
    requires forall id :: id in ResponseIds(events, |events|) ==> |encode(Replacement(id))| <= MAX_RESPONSE_BYTES
    ensures AllAnswerable(encode, events)
  {
    forall i | 0 <= i < |events| && events[i].Responds? ensures Answerable(encode, events[i].response) {
      ResponseHasId(events, |events|, i);
    }
  }

  /** Ids that are written in up to 1048494 bytes are always answered in version 2, whatever the service does. */
  lemma ShortIdsAreAnswered2(
      service: (string, string) -> ServiceAnswer, d: Dialect, requests: seq<Option<Request2>>, w: Wire, before: string)
    requires OfVersion2(w, d) && WritesAll(d) && Willing(w.accepts)
    requires forall id :: id in OwedIds(Duties2(), requests, 0) ==> |WrittenId(d, id)| <= 1_048_494
    ensures
      var trace := Trace(Version2(service, w.encode), false, requests, 0);
      AllAnswered(w, trace, OwedIds(Duties2(), requests, 0), before)
  {
    var bare := Trace(Bare(service), false, requests, 0);
    BareIsRuled(service);
    OwedIdsAreAnswered(Bare(service), Duties2(), false, requests, 0);
    forall id | id in ResponseIds(bare, |bare|) ensures |w.encode(Replacement(id))| <= MAX_RESPONSE_BYTES {
      ReplacementFits(d, id);
    }
    ReplaceableIsAnswerable(w.encode, bare);
    Encoded2IsNotEmpty(d);
    Version2AnswersExactlyWhen(service, requests, w, before);
  }

  // ---------------------------------------------------------------------------------------------
  // Version 1
  // ---------------------------------------------------------------------------------------------

  const MAX_FRAME_1: nat := 0x180_0000

  /** What the host is told of a plugin that fails. */
  function PanicText(writer: Writer): string {
    if writer.PythonWriter? then "optimizer raised an exception" else "optimizer panicked"
  }

  /** The sessions of the Go and Python SDKs. */
  function Runtime1(writer: Writer, plugin: string -> Proposal): Handler<Request1> {
    Version1(PanicText(writer), plugin)
  }

  ghost predicate OfVersion1(w: Wire, d: Dialect) {
    !w.writer.RustWriter? && w.maxPayload == MAX_FRAME_1 && w.encode == Encoder(w.writer, d)
  }

  function BareText(json: string): string { "{\"id\":" + json + "}" }

  /** The same in version 1, at its own limit: a request that says nothing but its id. */
  lemma BareRequestIsAnsweredExactlyWhen(
      plugin: string -> Proposal, d: Dialect, json: string, w: Wire, before: string)
    requires OfVersion1(w, d) && Willing(w.accepts) && Writable(d, IdText(json))
    ensures
      var requests := [Some(Request1(false, IdText(json), Other1))];
      var trace := Trace(Runtime1(w.writer, plugin), false, requests, 0);
      && (FitsFrame(MAX_FRAME_1, BareText(json)) <==> |json| <= 25_165_817)
      && OwedIds(Duties1(), requests, 0) == [IdText(json)]
      && (AllAnswered(w, trace, [IdText(json)], before) <==>
            |WrittenId(d, IdText(json))| <= 25_165_745 && HeadersArrive(w, trace, |before|))
  {
    var id := IdText(json);
    var requests := [Some(Request1(false, id, Other1))];
    var trace := Trace(Runtime1(w.writer, plugin), false, requests, 0);
    ErrorLength1(w.writer, d, id, -32600, "jsonrpc must be 2.0");
    Version1AnswersExactlyWhen(PanicText(w.writer), plugin, requests, w, before);
    assert Trace(Runtime1(w.writer, plugin), false, requests, 1) == [];
    assert trace == [Responds(Response(id, Error(-32600, "jsonrpc must be 2.0")))];
    assert OwedIds(Duties1(), requests, 1) == [];
  }

  lemma NoPayloadNoAnswer(w: Wire, trace: seq<Event>, id: Id, before: string)
    requires id in ResponseIds(trace, |trace|) && forall r: Response :: r.id == id ==> w.encode(r) == ""
    ensures !Arrived(w, trace, before)
  {
    var i := ResponseWithId(trace, |trace|, id);
    UnfitStops(w, trace, 0, before, i);
  }

  /** Nothing gets by a response that does not fit. */
  lemma {:induction false} UnfitStops(w: Wire, events: seq<Event>, k: nat, text: string, i: nat)
    requires k <= i < |events| && events[i].Responds? && !FitsFrame(w.maxPayload, w.encode(events[i].response))
    ensures !Performed(w, events, k, text).how.Done?
    decreases |events| - k
  {
    if k < i {
      match events[k]
      case Calls(_) => UnfitStops(w, events, k + 1, text, i);
      case Responds(r) => UnfitStops(w, events, k + 1, text + SentBehind(w, text, r).text, i);
    }
  }

  /** An id that cannot be written is never answered, over whatever sink. */
  lemma UnwritableIdsAreNotAnswered(
      plugin: string -> Proposal, d: Dialect, requests: seq<Option<Request1>>, id: Id, w: Wire, before: string)
    requires OfVersion1(w, d) && !Writable(d, id) && id in OwedIds(Duties1(), requests, 0)
    ensures
      var trace := Trace(Runtime1(w.writer, plugin), false, requests, 0);
      !AllAnswered(w, trace, OwedIds(Duties1(), requests, 0), before)
  {
    Version1IsSafe(PanicText(w.writer), plugin, requests);
    NoPayloadNoAnswer(w, Trace(Runtime1(w.writer, plugin), false, requests, 0), id, before);
  }

  lemma {:induction false} ResponseWithId(events: seq<Event>, k: nat, id: Id) returns (i: nat)
    requires k <= |events| && id in ResponseIds(events, k)
    ensures i < k && events[i].Responds? && events[i].response.id == id
  {
    if events[k - 1].Responds? && events[k - 1].response.id == id {
      i := k - 1;
    } else {
      i := ResponseWithId(events, k - 1, id);
    }
  }

  const INFINITE := "1e999"

  /** So a short request with the id `1e999`, which Python reads as infinite, ends the Python session: nothing is
      written, although every text would fit a frame. */
  lemma InfiniteIdEndsSession(plugin: string -> Proposal, d: Dialect, w: Wire, before: string)
    requires OfVersion1(w, d) && w.writer.PythonWriter? && d.writeId(INFINITE) == None
    ensures
      var requests := [Some(Request1(true, IdText(INFINITE), Other1))];
      var trace := Trace(Runtime1(w.writer, plugin), false, requests, 0);
      && OwedIds(Duties1(), requests, 0) == [IdText(INFINITE)]
      && Performed(w, trace, 0, before) == Progress(0, before, Failed)
  {
    var requests := [Some(Request1(true, IdText(INFINITE), Other1))];
    var trace := Trace(Runtime1(w.writer, plugin), false, requests, 0);
    assert Trace(Runtime1(w.writer, plugin), false, requests, 1) == [];
    assert trace == [Responds(Response(IdText(INFINITE), Error(-32601, "method not found")))];
    assert OwedIds(Duties1(), requests, 1) == [];
    assert before + "" == before;
  }

  /** Padded base64, which is library code. */
  ghost predicate IsBase64Length(encode64: string -> string) {
    forall content :: |encode64(content)| == 4 * ((|content| + 2) / 3)
  }

  predicate TextsAreShort(d: Dialect) { |d.pluginId| <= 128 && |d.version| <= 128 }

  /** What a request that cannot be decoded is told. */
  predicate ToldShortly(q: Option<Request1>) {
    q.Some? && q.value.method_.Optimize1? && q.value.method_.params.Undecodable? ==>
      |q.value.method_.params.message| <= 100
  }

  predicate ShortBody(body: Body) {
    match body
    case Optimized(content) => SafeContent(content)
    case Error(code, message) => -99_999 <= code <= -10_000 && |message| <= 100
    case _ => true
  }

  predicate ShortBodies(events: seq<Event>) {
    forall i :: 0 <= i < |events| && events[i].Responds? ==> ShortBody(events[i].response.body)
  }

  lemma ShortBodiesJoin(a: seq<Event>, b: seq<Event>)
    requires ShortBodies(a) && ShortBodies(b)
    ensures ShortBodies(a + b)
  {
  }

  predicate ShortId(d: Dialect, id: Id) { Writable(d, id) && |WrittenId(d, id)| <= 2_700_000 }

  lemma ShortBodyFits(writer: Writer, d: Dialect, r: Response)
    requires IsBase64Length(d.encode64) && TextsAreShort(d) && ShortBody(r.body) && ShortId(d, r.id)
    ensures FitsFrame(MAX_FRAME_1, Encoded1(writer, d, r))
  {
    match r.body
    case Error(code, message) => ErrorLength1(writer, d, r.id, code, message);
    case Optimized(content) => assert |d.encode64(content)| == 4 * ((|content| + 2) / 3);
    case _ =>
  }

  lemma {:induction false} BodiesAreShort(
      writer: Writer, plugin: string -> Proposal, initialized: bool, requests: seq<Option<Request1>>, k: nat)
    requires k <= |requests| && forall i :: 0 <= i < |requests| ==> ToldShortly(requests[i])
    ensures ShortBodies(Trace(Runtime1(writer, plugin), initialized, requests, k))
    decreases |requests| - k
  {
    if k < |requests| {
      var s := Runtime1(writer, plugin)(initialized, requests[k]);
      assert ToldShortly(requests[k]);
      ShortStep(writer, plugin, initialized, requests[k]);
      if s.course.Goes? {
        BodiesAreShort(writer, plugin, s.initialized, requests, k + 1);
        ShortBodiesJoin(EventsOf(s), Trace(Runtime1(writer, plugin), s.initialized, requests, k + 1));
      } else {
        assert EventsOf(s) + [] == EventsOf(s);
      }
    }
  }

  lemma ShortStep(writer: Writer, plugin: string -> Proposal, initialized: bool, request: Option<Request1>)
    requires ToldShortly(request)
    ensures ShortBodies(EventsOf(Runtime1(writer, plugin)(initialized, request)))
  {
    ShortAnswer(PanicText(writer), plugin, initialized, request);
  }

  lemma ShortAnswer(panicked: string, plugin: string -> Proposal, initialized: bool, request: Option<Request1>)
    requires ToldShortly(request) && |panicked| <= 100
    ensures
      var s := Handle1(panicked, plugin, initialized, request);
      s.response.Some? ==> ShortBody(s.response.value.body)
  {
  }

  /** Ids that are written in up to 2700000 bytes are always answered in version 1, whatever the plugin proposes, as
      long as, in Go, the headers arrive. */
  lemma ShortIdsAreAnswered1(
      plugin: string -> Proposal, d: Dialect, requests: seq<Option<Request1>>, w: Wire, before: string)
    requires OfVersion1(w, d) && Willing(w.accepts) && IsBase64Length(d.encode64) && TextsAreShort(d)
    requires forall i :: 0 <= i < |requests| ==> ToldShortly(requests[i])
    requires forall id :: id in OwedIds(Duties1(), requests, 0) ==> ShortId(d, id)
    ensures
      var trace := Trace(Runtime1(w.writer, plugin), false, requests, 0);
      AllAnswered(w, trace, OwedIds(Duties1(), requests, 0), before) <==> HeadersArrive(w, trace, |before|)
  {
    var trace := Trace(Runtime1(w.writer, plugin), false, requests, 0);
    Version1IsSafe(PanicText(w.writer), plugin, requests);
    BodiesAreShort(w.writer, plugin, false, requests, 0);
    forall i | 0 <= i < |trace| && trace[i].Responds?
      ensures FitsFrame(w.maxPayload, w.encode(trace[i].response))
    {
      ResponseHasId(trace, |trace|, i);
      ShortBodyFits(w.writer, d, trace[i].response);
    }
    Version1AnswersExactlyWhen(PanicText(w.writer), plugin, requests, w, before);
  }
}
