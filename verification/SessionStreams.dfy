/** Sessions over streams: what arrives at a host, frame by frame, from the payloads that a runtime reads. */
module SessionStreams {
  import opened Bytes
  import opened Framing
  import opened FrameStreams
  import opened Sessions

  function Requests<R>(decode: string -> Option<R>, payloads: seq<string>): (requests: seq<Option<R>>)
    ensures |requests| == |payloads| && forall i :: 0 <= i < |payloads| ==> requests[i] == decode(payloads[i])
  {
    seq(|payloads|, i requires 0 <= i < |payloads| => decode(payloads[i]))
  }

  /** The payloads that the events send. */
  function Sent(encode: Response -> string, events: seq<Event>, k: nat): seq<string>
    requires k <= |events|
  {
    if k == 0 then []
    else Sent(encode, events, k - 1) + if events[k - 1].Responds? then [encode(events[k - 1].response)] else []
  }

  lemma {:induction false} AllWrittenGrows(payloads: seq<string>, payload: string)
    ensures AllWritten(KEY, payloads + [payload]) == AllWritten(KEY, payloads) + Written(KEY, payload)
  {
    if payloads == [] {
      assert [payload][1..] == [];
      assert Written(KEY, payload) + "" == Written(KEY, payload);
    } else {
      AllWrittenGrows(payloads[1..], payload);
      assert (payloads + [payload])[1..] == payloads[1..] + [payload];
    }
  }

  // ---------------------------------------------------------------------------------------------
  // What a sink lets through
  // ---------------------------------------------------------------------------------------------

  /** How an SDK writes, the sink, how long a payload may be, and how responses are serialised. */
  datatype Wire = Wire(
    writer: Writer, accepts: (nat, nat) -> Answer, maxPayload: nat, encode: Response -> string)

  /** What writing a response behind `text` comes to. */
  function SentBehind(w: Wire, text: string, r: Response): Sending {
    FrameSent(w.writer, w.maxPayload, w.accepts, |text|, w.encode(r))
  }

  /** How many events take place, what then stands on the stream, and how writing it went. */
  datatype Progress = Progress(n: nat, text: string, how: Delivery)

  /** The events from the `k`-th on take place up to the first response that the writer does not get rid of. */
  function Performed(w: Wire, events: seq<Event>, k: nat, text: string): (p: Progress)
    requires k <= |events|
    ensures k <= p.n <= |events| && (p.how.Done? <==> p.n == |events|)
    ensures p.n < |events| ==> events[p.n].Responds?
    decreases |events| - k
  {
    if k == |events| then Progress(k, text, Done)
    else
      match events[k]
      case Calls(_) => Performed(w, events, k + 1, text)
      case Responds(r) =>
        var sent := SentBehind(w, text, r);
        if sent.how.Done? then Performed(w, events, k + 1, text + sent.text)
        else Progress(k, text + sent.text, sent.how)
  }

  /** How a session ends: as the protocol has it, on a frame or request that is none, or on a response that does
      not get through. */
  datatype Ending = Closed | Refused | Unwritten(how: Delivery)

  /** How it ends if every response gets through; `clean` says whether the stream ended behind a frame. */
  function EndingOf<R>(handle: Handler<R>, initialized: bool, requests: seq<Option<R>>, k: nat, clean: bool): Ending
    requires k <= |requests|
    decreases |requests| - k
  {
    if k == |requests| then if clean then Closed else Refused
    else
      var s := handle(initialized, requests[k]);
      match s.course
      case Goes => EndingOf(handle, s.initialized, requests, k + 1, clean)
      case Closes => Closed
      case Fails => Refused
  }

  /** The first `k` events took place, and what those behind them come to is known. */
  predicate Sofar(w: Wire, trace: seq<Event>, k: nat, written: string, goal: Progress) {
    k <= |trace| && goal == Performed(w, trace, k, written)
  }

  /** Writes the next response of the trace. */
  method Respond(w: Wire, output: Output, r: Response, ghost trace: seq<Event>, ghost k: nat, ghost goal: Progress)
    returns (how: Delivery)
    requires w.accepts == output.accepts
    requires Sofar(w, trace, k, output.written, goal) && k < |trace| && trace[k] == Responds(r)
    modifies output`written
    ensures how.Done? ==> Sofar(w, trace, k + 1, output.written, goal)
    ensures !how.Done? ==> goal == Progress(k, output.written, how)
  {
    how := WriteFrame(w.writer, w.maxPayload, output, w.encode(r));
  }

  /** Performs a step: its call, and then its response. */
  method Perform(w: Wire, output: Output, s: Step, ghost trace: seq<Event>, ghost k: nat, ghost goal: Progress)
    returns (how: Delivery)
    requires w.accepts == output.accepts && Sofar(w, trace, k, output.written, goal)
    requires k + |EventsOf(s)| <= |trace| && trace[k..k + |EventsOf(s)|] == EventsOf(s)
    modifies output`written
    ensures how.Done? ==> Sofar(w, trace, k + |EventsOf(s)|, output.written, goal)
    ensures !how.Done? ==> goal.n < |trace| && goal.text == output.written && goal.how == how
  {
    ghost var at, events := k, EventsOf(s);
    how := Done;
    if s.call.Some? {
      assert trace[k] == trace[k..k + |events|][0] == events[0];
      at := k + 1;
    }
    if s.response.Some? {
      assert trace[at] == trace[k..k + |events|][at - k] == events[at - k];
      how := Respond(w, output, s.response.value, trace, at, goal);
    }
  }

  /** The payloads from the `k`-th on are still to be read. */
  ghost predicate Awaits(rules: Rules, input: Input, all: seq<string>, k: nat, clean: bool)
    reads input`pos
  {
    input.Valid() && IsSound(rules) && k <= |all|
    && ReadAll(rules, input.data, input.pos) == ReadingsFrom(all, k, clean)
  }

  function ReadingsFrom(all: seq<string>, k: nat, clean: bool): Readings
    requires k <= |all|
  {
    if clean then Clean(all[k..]) else Broken(all[k..])
  }

  /** The rest of the payloads, one reading further. */
  lemma ReadingMoves(r: Rules, s: string, pos: nat, all: seq<string>, k: nat, clean: bool, reading: Reading)
    requires pos <= |s| && IsSound(r) && k <= |all| && ReadAll(r, s, pos) == ReadingsFrom(all, k, clean)
    requires reading == Read(r, s, pos)
    ensures !reading.Frame? ==> k == |all| && (reading.EndOfStream? <==> clean)
    ensures reading.Frame? ==>
              && reading.next <= |s| && k < |all| && all[k] == reading.payload
              && ReadAll(r, s, reading.next) == ReadingsFrom(all, k + 1, clean)
  {
    FrameIsBounded(r, s, pos, 0, 0, None);
    if reading.Frame? {
      var rest := ReadAll(r, s, reading.next).payloads;
      assert all[k..] == ReadAll(r, s, pos).payloads == [reading.payload] + rest;
      assert all[k + 1..] == all[k..][1..] == rest;
    }
  }

  /** Reads the next payload, if there is one, or learns how the stream ends. */
  method Next(rules: Rules, input: Input, ghost all: seq<string>, ghost k: nat, ghost clean: bool)
    returns (payload: Option<string>, ended: bool)
    requires TakesEnough(rules) && Awaits(rules, input, all, k, clean)
    modifies input`pos
    ensures payload == if k < |all| then Some(all[k]) else None
    ensures payload.None? ==> ended == clean
    ensures payload.Some? ==> Awaits(rules, input, all, k + 1, clean)
  {
    ghost var pos := input.pos;
    var reading := ReadFrame(rules, input);
    ReadingMoves(rules, input.data, pos, all, k, clean, reading);
    payload, ended := if reading.Frame? then Some(reading.payload) else None, reading.EndOfStream?;
  }

  /** What a session is to come to: the events of its trace, how far they get, and how it is to end if all take
      place. */
  datatype Fate<!R> = Fate(
    handle: Handler<R>, requests: seq<Option<R>>, trace: seq<Event>, goal: Progress, final: Ending)

  function FateOf<R>(w: Wire, handle: Handler<R>, requests: seq<Option<R>>, clean: bool, before: string): (f: Fate<R>)
    ensures f.goal.n <= |f.trace|
  {
    var trace := Trace(handle, false, requests, 0);
    Fate(handle, requests, trace, Performed(w, trace, 0, before), EndingOf(handle, false, requests, 0, clean))
  }

  /** The session before its `k`-th request and `at`-th event. */
  predicate Running<R>(w: Wire, f: Fate<R>, initialized: bool, k: nat, clean: bool, at: nat, written: string) {
    && k <= |f.requests| && Sofar(w, f.trace, at, written, f.goal)
    && f.trace[at..] == Trace(f.handle, initialized, f.requests, k)
    && f.final == EndingOf(f.handle, initialized, f.requests, k, clean)
  }

  /** How it has ended. */
  predicate Over<R>(f: Fate<R>, written: string, ending: Ending) {
    written == f.goal.text && ending == if f.goal.how.Done? then f.final else Unwritten(f.goal.how)
  }

  lemma RequestMoves<R>(
      w: Wire, f: Fate<R>, initialized: bool, k: nat, clean: bool, at: nat, written: string, s: Step)
    requires Running(w, f, initialized, k, clean, at, written) && k < |f.requests|
    requires s == f.handle(initialized, f.requests[k])
    ensures at + |EventsOf(s)| <= |f.trace| && f.trace[at..at + |EventsOf(s)|] == EventsOf(s)
    ensures s.course.Goes? ==>
              && f.trace[at + |EventsOf(s)|..] == Trace(f.handle, s.initialized, f.requests, k + 1)
              && f.final == EndingOf(f.handle, s.initialized, f.requests, k + 1, clean)
    ensures !s.course.Goes? ==>
              && f.trace[at + |EventsOf(s)|..] == []
              && f.final == if s.course.Closes? then Closed else Refused
  {
    var first, rest := EventsOf(s), f.trace[at..];
    assert rest[..|first|] == first;
    assert f.trace[at..at + |first|] == rest[..|first|];
    assert f.trace[at + |first|..] == rest[|first|..];
  }

  lemma AllTookPlace(w: Wire, trace: seq<Event>, at: nat, written: string, goal: Progress)
    requires Sofar(w, trace, at, written, goal) && trace[at..] == []
    ensures goal == Progress(|trace|, written, Done)
  {
  }

  /** One request: what plugin and host see of it, and whether the session is over. */
  method Turn<R(!new)>(
      w: Wire, handle: Handler<R>, output: Output, initialized: bool, request: Option<R>,
      ghost f: Fate<R>, ghost k: nat, ghost clean: bool, ghost at: nat)
    returns (s: Step, ending: Option<Ending>)
    requires w.accepts == output.accepts && Running(w, f, initialized, k, clean, at, output.written)
    requires k < |f.requests| && request == f.requests[k] && handle == f.handle
    modifies output`written
    ensures s == handle(initialized, request)
    ensures ending.None? ==> Running(w, f, s.initialized, k + 1, clean, at + |EventsOf(s)|, output.written)
    ensures ending.Some? ==> Over(f, output.written, ending.value)
  {
    s := handle(initialized, request);
    RequestMoves(w, f, initialized, k, clean, at, output.written, s);
    var how := Perform(w, output, s, f.trace, at, f.goal);
    if !how.Done? {
      return s, Some(Unwritten(how));
    }
    match s.course {
      case Goes => ending := None;
      case Closes => ending := Some(Closed);
      case Fails => ending := Some(Refused);
    }
    if ending.Some? {
      AllTookPlace(w, f.trace, at + |EventsOf(s)|, output.written, f.goal);
    }
  }

  /** A whole session on the frames of a stream: which events took place, what was written and how it ended. */
  predicate Served<R>(
      w: Wire, handle: Handler<R>, decode: string -> Option<R>, readings: Readings, before: string, written: string,
      ending: Ending, events: seq<Event>)
  {
    var f := FateOf(w, handle, Requests(decode, readings.payloads), readings.Clean?, before);
    events == f.trace[..f.goal.n] && Over(f, written, ending)
  }

  /** One turn of the loop: the next payload, if there is one, and what comes of it. */
  method Round<R(!new)>(
      rules: Rules, w: Wire, handle: Handler<R>, decode: string -> Option<R>, input: Input, output: Output,
      initialized: bool, ghost f: Fate<R>, ghost all: seq<string>, ghost k: nat, ghost clean: bool, ghost at: nat)
    returns (next: bool, ending: Option<Ending>, ghost after: nat)
    requires TakesEnough(rules) && Awaits(rules, input, all, k, clean)
    requires handle == f.handle && f.requests == Requests(decode, all)
    requires w.accepts == output.accepts && Running(w, f, initialized, k, clean, at, output.written)
    modifies input`pos, output`written
    ensures ending.Some? ==> Over(f, output.written, ending.value)
    ensures ending.None? ==>
              && k < |all| && Awaits(rules, input, all, k + 1, clean)
              && Running(w, f, next, k + 1, clean, after, output.written)
  {
    next, after := initialized, at;
    var payload, ended := Next(rules, input, all, k, clean);
    if payload.None? {
      AllTookPlace(w, f.trace, at, output.written, f.goal);
      ending := Some(if ended then Closed else Refused);
    } else {
      var s;
      s, ending := Turn(w, handle, output, initialized, decode(payload.value), f, k, clean, at);
      next, after := s.initialized, at + |EventsOf(s)|;
    }
  }

  /** The loop of all SDKs. The plugin sees exactly the calls of the trace and exactly its responses are written, up
      to the first that does not fit a frame or that the writer does not get rid of; and the session says how it
      ended. */
  method Serve<R(!new)>(
      rules: Rules, w: Wire, handle: Handler<R>, decode: string -> Option<R>, input: Input, output: Output)
    returns (ending: Ending, ghost events: seq<Event>)
    requires input.Valid() && TakesEnough(rules) && IsSound(rules) && w.accepts == output.accepts
    modifies input`pos, output`written
    ensures Served(w, handle, decode, ReadAll(rules, input.data, old(input.pos)), old(output.written), output.written,
                   ending, events)
  {
    ghost var readings := ReadAll(rules, input.data, input.pos);
    ghost var all, clean, k, at: nat := readings.payloads, readings.Clean?, 0, 0;
    ghost var f := FateOf(w, handle, Requests(decode, all), clean, output.written);
    assert all == all[0..] && f.trace[0..] == f.trace;
    events := f.trace[..f.goal.n];
    var initialized := false;
    while true
      invariant Awaits(rules, input, all, k, clean)
      invariant Running(w, f, initialized, k, clean, at, output.written)
      decreases |all| - k
    {
      var over;
      initialized, over, at := Round(rules, w, handle, decode, input, output, initialized, f, all, k, clean, at);
      if over.Some? {
        return over.value, events;
      }
      k := k + 1;
    }
  }
}
