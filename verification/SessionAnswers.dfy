/** Which requests are answered on the wire: a response that does not fit a frame ends the session, and its request
    and all later ones stay unanswered. */
module SessionAnswers {
  import opened Bytes
  import opened Framing
  import opened FrameStreams
  import opened Sessions
  import opened SessionStreams

  /** Every response fits a frame. */
  predicate AllFit(maxPayload: nat, encode: Response -> string, events: seq<Event>) {
    forall i :: 0 <= i < |events| && events[i].Responds? ==> FitsFrame(maxPayload, encode(events[i].response))
  }

  /** A sink that takes everything lets all events take place exactly if every response fits. */
  lemma {:induction false} PerformedExactlyWhen(w: Wire, events: seq<Event>, k: nat, text: string)
    requires k <= |events| && Willing(w.accepts)
    ensures Performed(w, events, k, text).how.Done? <==> AllFit(w.maxPayload, w.encode, events[k..])
    decreases |events| - k
  {
    if k < |events| {
      assert events[k..] == [events[k]] + events[k + 1..];
      match events[k]
      case Calls(_) => PerformedExactlyWhen(w, events, k + 1, text);
      case Responds(r) =>
        assert events[k..][0] == Responds(r);
        if FitsFrame(w.maxPayload, w.encode(r)) {
          WillingTakesFrames(w.writer, w.maxPayload, w.accepts, |text|, w.encode(r));
          PerformedExactlyWhen(w, events, k + 1, text + SentBehind(w, text, r).text);
        }
    }
  }

  /** What took place fitted ... */
  lemma {:induction false} PerformedFits(w: Wire, events: seq<Event>, k: nat, text: string)
    requires k <= |events|
    ensures AllFit(w.maxPayload, w.encode, events[k..Performed(w, events, k, text).n])
    decreases |events| - k
  {
    var n := Performed(w, events, k, text).n;
    if n > k {
      assert events[k..n] == [events[k]] + events[k + 1..n];
      match events[k]
      case Calls(_) => PerformedFits(w, events, k + 1, text);
      case Responds(r) => PerformedFits(w, events, k + 1, text + SentBehind(w, text, r).text);
    }
  }

  /** ... and with a sink that takes everything the next response does not. */
  lemma {:induction false} NextDoesNotFit(w: Wire, events: seq<Event>, k: nat, text: string)
    requires k <= |events| && Willing(w.accepts)
    ensures
      var n := Performed(w, events, k, text).n;
      n < |events| ==> !FitsFrame(w.maxPayload, w.encode(events[n].response))
    decreases |events| - k
  {
    if k < |events| {
      match events[k]
      case Calls(_) => NextDoesNotFit(w, events, k + 1, text);
      case Responds(r) =>
        if FitsFrame(w.maxPayload, w.encode(r)) {
          WillingTakesFrames(w.writer, w.maxPayload, w.accepts, |text|, w.encode(r));
          NextDoesNotFit(w, events, k + 1, text + SentBehind(w, text, r).text);
        }
    }
  }

  // ---------------------------------------------------------------------------------------------
  // What is reported as written, and what arrives
  // ---------------------------------------------------------------------------------------------

  /** The sink takes the header of every response in one write, up to the first that does not fit a frame. */
  predicate HeadersTaken(w: Wire, events: seq<Event>, k: nat, written: nat)
    requires k <= |events|
    decreases |events| - k
  {
    k < |events| ==>
      match events[k]
      case Calls(_) => HeadersTaken(w, events, k + 1, written)
      case Responds(r) =>
        FitsFrame(w.maxPayload, w.encode(r)) ==>
          && TakesHeader(w.accepts, written, w.encode(r))
          && HeadersTaken(w, events, k + 1, written + |Written(KEY, w.encode(r))|)
  }

  /** What the Go SDK asks of a sink beyond taking something; the others ask nothing. */
  predicate HeadersArrive(w: Wire, events: seq<Event>, written: nat) {
    w.writer.GoWriter? ==> HeadersTaken(w, events, 0, written)
  }

  function Frames(w: Wire, events: seq<Event>, k: nat): string
    requires k <= |events|
  {
    AllWritten(KEY, Sent(w.encode, events, k))
  }

  lemma FramesGrow(w: Wire, events: seq<Event>, k: nat, before: string)
    requires k < |events|
    ensures before + Frames(w, events, k + 1) ==
            before + Frames(w, events, k) + if events[k].Calls? then "" else Written(KEY, w.encode(events[k].response))
  {
    if events[k].Calls? {
      assert Sent(w.encode, events, k + 1) == Sent(w.encode, events, k);
    } else {
      AllWrittenGrows(Sent(w.encode, events, k), w.encode(events[k].response));
    }
  }

  /** Where the headers arrive, the stream holds whole frames, except perhaps for a last one that broke off. */
  lemma {:induction false} FramesArrive(w: Wire, events: seq<Event>, k: nat, text: string, before: string)
    requires k <= |events| && text == before + Frames(w, events, k)
    requires w.writer.GoWriter? ==> HeadersTaken(w, events, k, |text|)
    ensures
      var p := Performed(w, events, k, text);
      p.how.Done? || !FitsFrame(w.maxPayload, w.encode(events[p.n].response)) ==>
        p.text == before + Frames(w, events, p.n)
    decreases |events| - k
  {
    if k < |events| {
      FramesGrow(w, events, k, before);
      match events[k]
      case Calls(_) => FramesArrive(w, events, k + 1, text, before);
      case Responds(r) =>
        var sent := SentBehind(w, text, r);
        if sent.how.Done? {
          WholeExactlyWhen(w.writer, w.maxPayload, w.accepts, |text|, w.encode(r));
          FramesArrive(w, events, k + 1, text + sent.text, before);
        }
    }
  }

  /** How long the frames of the responses from the `k`-th event on are together. */
  function FrameBytes(w: Wire, events: seq<Event>, k: nat): nat
    requires k <= |events|
    decreases |events| - k
  {
    if k == |events| then 0
    else
      FrameBytes(w, events, k + 1) +
      match events[k]
      case Calls(_) => 0
      case Responds(r) => |Written(KEY, w.encode(r))|
  }

  lemma {:induction false} FrameBytesAdd(w: Wire, events: seq<Event>, k: nat)
    requires k <= |events|
    ensures |Frames(w, events, k)| + FrameBytes(w, events, k) == |Frames(w, events, |events|)|
    decreases |events| - k
  {
    if k < |events| {
      FramesGrow(w, events, k, "");
      FrameBytesAdd(w, events, k + 1);
    }
  }

  /** And where a stream that was reported as written is as long as its frames, the headers arrived. */
  lemma {:induction false} LongStreamsAreWhole(w: Wire, events: seq<Event>, k: nat, text: string)
    requires k <= |events| && w.writer.GoWriter?
    ensures
      var p := Performed(w, events, k, text);
      p.how.Done? ==>
        && |p.text| <= |text| + FrameBytes(w, events, k)
        && (|p.text| == |text| + FrameBytes(w, events, k) ==> HeadersTaken(w, events, k, |text|))
    decreases |events| - k
  {
    if k < |events| {
      match events[k]
      case Calls(_) => LongStreamsAreWhole(w, events, k + 1, text);
      case Responds(r) =>
        var sent := SentBehind(w, text, r);
        if sent.how.Done? {
          WholeExactlyWhen(w.writer, w.maxPayload, w.accepts, |text|, w.encode(r));
          LongStreamsAreWhole(w, events, k + 1, text + sent.text);
        }
    }
  }

  /** All events took place, and the stream holds exactly the frames of their responses. */
  predicate Arrived(w: Wire, events: seq<Event>, before: string) {
    var p := Performed(w, events, 0, before);
    p.how.Done? && p.text == before + Frames(w, events, |events|)
  }

  /** What the SDK reports as written arrives exactly if the headers do; and over a sink that takes everything all
      responses arrive exactly if they fit and the headers do. */
  lemma ArrivedExactlyWhen(w: Wire, events: seq<Event>, before: string)
    ensures Performed(w, events, 0, before).how.Done? ==>
              (Arrived(w, events, before) <==> HeadersArrive(w, events, |before|))
    ensures Willing(w.accepts) ==>
              (Arrived(w, events, before) <==>
                 AllFit(w.maxPayload, w.encode, events) && HeadersArrive(w, events, |before|))
  {
    var p := Performed(w, events, 0, before);
    assert before + Frames(w, events, 0) == before + "" == before;
    if w.writer.GoWriter? {
      LongStreamsAreWhole(w, events, 0, before);
      FrameBytesAdd(w, events, 0);
    }
    if HeadersArrive(w, events, |before|) {
      FramesArrive(w, events, 0, before, before);
    }
    if Willing(w.accepts) {
      PerformedExactlyWhen(w, events, 0, before);
      assert events[0..] == events;
    }
  }

  /** Sinks that take every write as a whole take the headers. */
  lemma {:induction false} AtOnceTakesHeaders(w: Wire, events: seq<Event>, k: nat, written: nat)
    requires k <= |events| && forall written: nat, n: nat | n > 0 :: w.accepts(written, n).n == n
    ensures HeadersTaken(w, events, k, written)
    decreases |events| - k
  {
    if k < |events| {
      match events[k]
      case Calls(_) => AtOnceTakesHeaders(w, events, k + 1, written);
      case Responds(r) => AtOnceTakesHeaders(w, events, k + 1, written + |Written(KEY, w.encode(r))|);
    }
  }

  lemma {:induction false} ByteByByteLosesHeaders(w: Wire, events: seq<Event>, k: nat, i: nat, written: nat)
    requires w.accepts == BYTE_BY_BYTE && AllFit(w.maxPayload, w.encode, events)
    requires k <= i < |events| && events[i].Responds?
    ensures !HeadersTaken(w, events, k, written)
    decreases |events| - k
  {
    if events[k].Responds? {
      assert !TakesHeader(BYTE_BY_BYTE, written, w.encode(events[k].response));
    } else {
      ByteByByteLosesHeaders(w, events, k + 1, i, written);
    }
  }

  /** Over a sink that takes one byte at a time, the Go SDK reports every response as written, and none of a session
      with at least one arrives as it should. */
  lemma GoReportsLostResponses(w: Wire, events: seq<Event>, i: nat, before: string)
    requires w.writer.GoWriter? && w.accepts == BYTE_BY_BYTE && AllFit(w.maxPayload, w.encode, events)
    requires i < |events| && events[i].Responds?
    ensures Performed(w, events, 0, before).how.Done? && !Arrived(w, events, before)
  {
    assert Willing(BYTE_BY_BYTE);
    PerformedExactlyWhen(w, events, 0, before);
    assert events[0..] == events;
    ByteByByteLosesHeaders(w, events, 0, i, |before|);
    ArrivedExactlyWhen(w, events, before);
  }

  lemma {:induction false} FewerResponses(events: seq<Event>, n: nat, k: nat)
    requires n < k <= |events| && events[n].Responds?
    ensures |ResponseIds(events, n)| < |ResponseIds(events, k)|
    decreases k
  {
    if n + 1 < k {
      FewerResponses(events, n, k - 1);
    }
  }

  /** The ids whose responses the SDK reports as written. */
  function ReportedIds(events: seq<Event>, n: nat): seq<Id>
    requires n <= |events|
  {
    ResponseIds(events[..n], n)
  }

  lemma ReportedArePrefix(events: seq<Event>, n: nat)
    requires n <= |events|
    ensures ReportedIds(events, n) == ResponseIds(events, n)
  {
    assert events == events[..n] + events[n..];
    ResponseIdsOfPrefix(events[..n], events[n..], n);
  }

  /** Exactly the owed ids get a response, one each and in order, and these responses are the stream. */
  predicate AllAnswered(w: Wire, trace: seq<Event>, owed: seq<Id>, before: string) {
    ResponseIds(trace, |trace|) == owed && Arrived(w, trace, before)
  }

  /** Over any wire, the SDK reports all owed ids as answered exactly if everything takes place. They are answered, over
      a sink that takes everything, exactly if every response fits a frame and, in Go, the headers arrive. */
  lemma AnsweredExactlyWhen<R(!new)>(
      handle: Handler<R>, duties: Duties<R>, requests: seq<Option<R>>, w: Wire, before: string)
    requires Ruled(handle, duties)
    ensures
      var trace, owed := Trace(handle, false, requests, 0), OwedIds(duties, requests, 0);
      var p := Performed(w, trace, 0, before);
      && (ReportedIds(trace, p.n) == owed <==> p.how.Done?)
      && (p.how.Done? ==> (AllAnswered(w, trace, owed, before) <==> HeadersArrive(w, trace, |before|)))
      && (Willing(w.accepts) ==>
            (AllAnswered(w, trace, owed, before) <==>
               AllFit(w.maxPayload, w.encode, trace) && HeadersArrive(w, trace, |before|)))
  {
    var trace := Trace(handle, false, requests, 0);
    var p := Performed(w, trace, 0, before);
    OwedIdsAreAnswered(handle, duties, false, requests, 0);
    ReportedArePrefix(trace, p.n);
    if p.n < |trace| {
      FewerResponses(trace, p.n, |trace|);
    }
    ArrivedExactlyWhen(w, trace, before);
  }

  /** Version 1, over a sink that takes everything. */
  lemma Version1AnswersExactlyWhen(
      panicked: string, plugin: string -> Proposal, requests: seq<Option<Request1>>, w: Wire, before: string)
    requires Willing(w.accepts)
    ensures
      var trace := Trace(Version1(panicked, plugin), false, requests, 0);
      AllAnswered(w, trace, OwedIds(Duties1(), requests, 0), before) <==>
        AllFit(w.maxPayload, w.encode, trace) && HeadersArrive(w, trace, |before|)
  {
    Version1IsRuled(panicked, plugin);
    AnsweredExactlyWhen(Version1(panicked, plugin), Duties1(), requests, w, before);
  }

  // ---------------------------------------------------------------------------------------------
  // Version 2: the replacement of a long response may be too long as well
  // ---------------------------------------------------------------------------------------------

  function Bare(service: (string, string) -> ServiceAnswer): Handler<Request2> {
    (initialized: bool, request: Option<Request2>) => Uncapped(service, initialized, request)
  }

  function CappedEvent(encode: Response -> string, e: Event): Event {
    if e.Calls? then e else Responds(Capped(encode, e.response))
  }

  predicate CapsEach(encode: Response -> string, bare: seq<Event>, capped: seq<Event>) {
    |capped| == |bare| && forall i :: 0 <= i < |bare| ==> capped[i] == CappedEvent(encode, bare[i])
  }

  lemma CapsJoin(encode: Response -> string, a: seq<Event>, b: seq<Event>, c: seq<Event>, d: seq<Event>)
    requires CapsEach(encode, a, c) && CapsEach(encode, b, d)
    ensures CapsEach(encode, a + b, c + d)
  {
  }

  lemma StepIsCapped(encode: Response -> string, s: Step)
    ensures CapsEach(encode, EventsOf(s), EventsOf(CappedStep(encode, s)))
  {
  }

  lemma {:induction false} TraceIsCapped(
      service: (string, string) -> ServiceAnswer, encode: Response -> string, initialized: bool,
      requests: seq<Option<Request2>>, k: nat)
    requires k <= |requests|
    ensures CapsEach(encode, Trace(Bare(service), initialized, requests, k),
                     Trace(Version2(service, encode), initialized, requests, k))
    decreases |requests| - k
  {
    if k < |requests| {
      var s := Bare(service)(initialized, requests[k]);
      var t := CappedStep(encode, s);
      assert t == Version2(service, encode)(initialized, requests[k]);
      StepIsCapped(encode, s);
      var rest := if s.course.Goes? then Trace(Bare(service), s.initialized, requests, k + 1) else [];
      var more := if s.course.Goes? then Trace(Version2(service, encode), s.initialized, requests, k + 1) else [];
      if s.course.Goes? {
        TraceIsCapped(service, encode, s.initialized, requests, k + 1);
      }
      CapsJoin(encode, EventsOf(s), rest, EventsOf(t), more);
    }
  }

  /** Some answer fits: the response itself, or what replaces it. */
  predicate Answerable(encode: Response -> string, r: Response) {
    |encode(r)| <= MAX_RESPONSE_BYTES || |encode(Replacement(r.id))| <= MAX_RESPONSE_BYTES
  }

  predicate AllAnswerable(encode: Response -> string, events: seq<Event>) {
    forall i :: 0 <= i < |events| && events[i].Responds? ==> Answerable(encode, events[i].response)
  }

  lemma CappedFitsExactlyWhen(encode: Response -> string, bare: seq<Event>, capped: seq<Event>)
    requires CapsEach(encode, bare, capped) && forall r :: encode(r) != ""
    ensures AllFit(MAX_RESPONSE_BYTES, encode, capped) <==> AllAnswerable(encode, bare)
  {
    forall i | 0 <= i < |bare| && bare[i].Responds?
      ensures FitsFrame(MAX_RESPONSE_BYTES, encode(capped[i].response)) <==> Answerable(encode, bare[i].response)
    {
      assert capped[i] == CappedEvent(encode, bare[i]);
    }
    forall i | 0 <= i < |bare| ensures capped[i].Responds? <==> bare[i].Responds? {
      assert capped[i] == CappedEvent(encode, bare[i]);
    }
  }

  /** Version 2, over a sink that takes everything: every request with an id before the end is answered exactly if
      for each of them the response fits a frame or the error that replaces it does. */
  lemma Version2AnswersExactlyWhen(
      service: (string, string) -> ServiceAnswer, requests: seq<Option<Request2>>, w: Wire, before: string)
    requires w.writer.RustWriter? && Willing(w.accepts)
    requires w.maxPayload == MAX_RESPONSE_BYTES && forall r :: w.encode(r) != ""
    ensures
      var trace := Trace(Version2(service, w.encode), false, requests, 0);
      AllAnswered(w, trace, OwedIds(Duties2(), requests, 0), before) <==>
        AllAnswerable(w.encode, Trace(Bare(service), false, requests, 0))
  {
    var handle := Version2(service, w.encode);
    Version2IsRuled(service, w.encode);
    AnsweredExactlyWhen(handle, Duties2(), requests, w, before);
    TraceIsCapped(service, w.encode, false, requests, 0);
    CappedFitsExactlyWhen(w.encode, Trace(Bare(service), false, requests, 0), Trace(handle, false, requests, 0));
  }

  // ---------------------------------------------------------------------------------------------
  // The host's side
  // ---------------------------------------------------------------------------------------------

  lemma {:induction false} SentFits(maxPayload: nat, encode: Response -> string, events: seq<Event>, k: nat)
    requires k <= |events| && AllFit(maxPayload, encode, events[..k])
    ensures forall i :: 0 <= i < |Sent(encode, events, k)| ==> FitsFrame(maxPayload, Sent(encode, events, k)[i])
  {
    if k > 0 {
      assert forall i :: 0 <= i < k ==> events[..k][i] == events[i];
      assert forall i :: 0 <= i < k - 1 ==> events[..k - 1][i] == events[..k][i];
      SentFits(maxPayload, encode, events, k - 1);
    }
  }

  /** Over a sink that takes everything, headers included, the host reads back exactly the responses that took place,
      in order, and then the end of the stream, also where the session ended on a response that does not fit. */
  lemma HostReadsResponses(r: Rules, style: Style, w: Wire, events: seq<Event>)
    requires OfAnSdk(r, style) && forall n :: Readable(style, KEY, n)
    requires Willing(w.accepts) && HeadersArrive(w, events, 0) && w.maxPayload <= r.maxPayload
    ensures
      var p := Performed(w, events, 0, "");
      IsSound(r) && ReadAll(r, p.text, 0) == Clean(Sent(w.encode, events, p.n))
  {
    var p := Performed(w, events, 0, "");
    PerformedFits(w, events, 0, "");
    NextDoesNotFit(w, events, 0, "");
    assert events[0..p.n] == events[..p.n];
    SentFits(w.maxPayload, w.encode, events, p.n);
    FramesArrive(w, events, 0, "", "");
    assert p.text == "" + Frames(w, events, p.n) == Frames(w, events, p.n);
    EverySdkReads(r, style, Sent(w.encode, events, p.n));
  }
}
