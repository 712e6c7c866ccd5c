/** The sessions of the three SDKs, each under its own rules, with its own writer and with the texts it writes. */
module SessionSdks {
  import opened Bytes
  import opened Framing
  import opened FrameStreams
  import opened Sessions
  import opened SessionStreams
  import opened SessionAnswers
  import opened SessionSizes
  import opened SessionReplies

  /** What every session of version 1 comes to. */
  ghost predicate ServedSafely1(
      w: Wire, plugin: string -> Proposal, requests: seq<Option<Request1>>, before: string, events: seq<Event>)
  {
    var trace, owed := Trace(Runtime1(w.writer, plugin), false, requests, 0), OwedIds(Duties1(), requests, 0);
    && CallsAnnounced(false, events)
    && events <= trace && Session1(plugin, false, requests, 0, trace)
    && ResponseIds(events, |events|) <= owed
    && (Willing(w.accepts) ==>
          (AllAnswered(w, trace, owed, before) <==>
             AllFit(w.maxPayload, w.encode, trace) && HeadersArrive(w, trace, |before|)))
  }

  lemma {:induction false} IdsOfPrefix(events: seq<Event>, n: nat, k: nat)
    requires n <= k <= |events|
    ensures ResponseIds(events, n) <= ResponseIds(events, k)
    decreases k
  {
    if n < k {
      IdsOfPrefix(events, n, k - 1);
    }
  }

  lemma AnnouncedInPrefix(events: seq<Event>, n: nat)
    requires n <= |events| && CallsAnnounced(false, events)
    ensures CallsAnnounced(false, events[..n])
  {
    forall i | 0 <= i < n && events[..n][i].Calls? ensures AnnouncedBefore(events[..n], i) {
      assert events[i].Calls? && AnnouncedBefore(events, i);
      var j :| 0 <= j < i && j < |events| && Announcement(events[j]);
      assert Announcement(events[..n][j]);
    }
  }

  lemma Served1IsSafe(
      w: Wire, plugin: string -> Proposal, decode: string -> Option<Request1>, readings: Readings, before: string,
      written: string, ending: Ending, events: seq<Event>)
    requires Served(w, Runtime1(w.writer, plugin), decode, readings, before, written, ending, events)
    ensures ServedSafely1(w, plugin, Requests(decode, readings.payloads), before, events)
  {
    var requests, panicked := Requests(decode, readings.payloads), PanicText(w.writer);
    var trace := Trace(Version1(panicked, plugin), false, requests, 0);
    var n := Performed(w, trace, 0, before).n;
    Version1IsSafe(panicked, plugin, requests);
    Version1Tells(panicked, plugin, false, requests, 0);
    AnnouncedInPrefix(trace, n);
    PrefixIsSafe(trace, n, OwedIds(Duties1(), requests, 0));
    if Willing(w.accepts) {
      Version1AnswersExactlyWhen(panicked, plugin, requests, w, before);
    }
  }

  /** What every session of version 2 comes to. */
  ghost predicate ServedSafely2(
      w: Wire, service: (string, string) -> ServiceAnswer, requests: seq<Option<Request2>>, before: string,
      events: seq<Event>)
  {
    var trace, owed := Trace(Version2(service, w.encode), false, requests, 0), OwedIds(Duties2(), requests, 0);
    var answerable := AllAnswerable(w.encode, Trace(Bare(service), false, requests, 0));
    && (TellsHost(w.encode, requests, 0) ==> CallsAnnounced(false, events))
    && events <= trace && Session2(service, w.encode, false, requests, 0, trace)
    && ResponseIds(events, |events|) <= owed
    && NoId !in ResponseIds(events, |events|)
    && InitializesAtMostOnce(events)
    && (Willing(w.accepts) ==> (AllAnswered(w, trace, owed, before) <==> answerable))
    && (Willing(w.accepts) && answerable ==> (CallsAnnounced(false, events) <==> TellsHost(w.encode, requests, 0)))
  }

  lemma Served2IsSafe(
      w: Wire, service: (string, string) -> ServiceAnswer, decode: string -> Option<Request2>, readings: Readings,
      before: string, written: string, ending: Ending, events: seq<Event>)
    requires w.writer.RustWriter? && w.maxPayload == MAX_RESPONSE_BYTES && forall r :: w.encode(r) != ""
    requires Served(w, Version2(service, w.encode), decode, readings, before, written, ending, events)
    ensures ServedSafely2(w, service, Requests(decode, readings.payloads), before, events)
  {
    var requests := Requests(decode, readings.payloads);
    var trace := Trace(Version2(service, w.encode), false, requests, 0);
    var n := Performed(w, trace, 0, before).n;
    Version2IsSafe(service, w.encode, requests);
    Version2Tells(service, w.encode, false, requests, 0);
    PrefixIsSafe(trace, n, OwedIds(Duties2(), requests, 0));
    if TellsHost(w.encode, requests, 0) {
      AnnouncedInPrefix(trace, n);
    }
    if Willing(w.accepts) {
      Version2AnswersExactlyWhen(service, requests, w, before);
      assert n == |trace| ==> trace[..n] == trace;
    }
  }

  lemma PrefixIsSafe(trace: seq<Event>, n: nat, owed: seq<Id>)
    requires n <= |trace| && ResponseIds(trace, |trace|) == owed
    ensures ResponseIds(trace[..n], n) <= owed
    ensures NoId !in owed ==> NoId !in ResponseIds(trace[..n], n)
    ensures InitializesAtMostOnce(trace) ==> InitializesAtMostOnce(trace[..n])
  {
    ReportedArePrefix(trace, n);
    IdsOfPrefix(trace, n, |trace|);
    assert forall id :: id in ResponseIds(trace[..n], n) ==> id in owed;
  }

  method ServeGo(
      plugin: string -> Proposal, d: Dialect, decode: string -> Option<Request1>, input: Input, output: Output)
    returns (ending: Ending, ghost events: seq<Event>)
    requires input.Valid()
    modifies input`pos, output`written
    ensures IsSound(Go())
    ensures
      var w := Wire(GoWriter, output.accepts, MAX_FRAME_1, Encoder(GoWriter, d));
      var readings := ReadAll(Go(), input.data, old(input.pos));
      && Served(w, Runtime1(GoWriter, plugin), decode, readings, old(output.written), output.written, ending, events)
      && ServedSafely1(w, plugin, Requests(decode, readings.payloads), old(output.written), events)
  {
    RulesAreSound(GoStyle(), 33, None, true, false);
    SdksTakeEnough(Go(), GoStyle());
    ghost var readings, before := ReadAll(Go(), input.data, input.pos), output.written;
    var w := Wire(GoWriter, output.accepts, MAX_FRAME_1, Encoder(GoWriter, d));
    ending, events := Serve(Go(), w, Runtime1(GoWriter, plugin), decode, input, output);
    Served1IsSafe(w, plugin, decode, readings, before, output.written, ending, events);
  }

  method ServePython(
      plugin: string -> Proposal, d: Dialect, readable: string -> bool, decode: string -> Option<Request1>,
      input: Input, output: Output)
    returns (ending: Ending, ghost events: seq<Event>)
    requires input.Valid()
    modifies input`pos, output`written
    ensures IsSound(Python(readable))
    ensures
      var w := Wire(PythonWriter, output.accepts, MAX_FRAME_1, Encoder(PythonWriter, d));
      var readings := ReadAll(Python(readable), input.data, old(input.pos));
      && Served(w, Runtime1(PythonWriter, plugin), decode, readings, old(output.written), output.written, ending,
                events)
      && ServedSafely1(w, plugin, Requests(decode, readings.payloads), old(output.written), events)
  {
    RulesAreSound(PythonStyle(readable), 33, Some(8_194), true, false);
    SdksTakeEnough(Python(readable), PythonStyle(readable));
    ghost var readings, before := ReadAll(Python(readable), input.data, input.pos), output.written;
    var w := Wire(PythonWriter, output.accepts, MAX_FRAME_1, Encoder(PythonWriter, d));
    ending, events := Serve(Python(readable), w, Runtime1(PythonWriter, plugin), decode, input, output);
    Served1IsSafe(w, plugin, decode, readings, before, output.written, ending, events);
  }

  method ServeRust(
      service: (string, string) -> ServiceAnswer, d: Dialect, readable: string -> bool,
      decode: string -> Option<Request2>, input: Input, output: Output)
    returns (ending: Ending, ghost events: seq<Event>)
    requires input.Valid() && WritesAll(d)
    modifies input`pos, output`written
    ensures IsSound(Rust(readable))
    ensures
      var w := Wire(RustWriter, output.accepts, MAX_RESPONSE_BYTES, Encoder(RustWriter, d));
      var readings := ReadAll(Rust(readable), input.data, old(input.pos));
      && Served(w, Version2(service, w.encode), decode, readings, old(output.written), output.written, ending, events)
      && ServedSafely2(w, service, Requests(decode, readings.payloads), old(output.written), events)
  {
    RulesAreSound(RustStyle(readable), 32, Some(8_193), false, true);
    SdksTakeEnough(Rust(readable), RustStyle(readable));
    Encoded2IsNotEmpty(d);
    ghost var readings, before := ReadAll(Rust(readable), input.data, input.pos), output.written;
    var w := Wire(RustWriter, output.accepts, MAX_RESPONSE_BYTES, Encoder(RustWriter, d));
    ending, events := Serve(Rust(readable), w, Version2(service, w.encode), decode, input, output);
    Served2IsSafe(w, service, decode, readings, before, output.written, ending, events);
  }
}
