/** The loops that move frames over streams: reads that return less than they were asked for, writes that accept
    less than they were given. */
module FrameStreams {
  import opened Bytes
  import opened Framing

  function Min(a: nat, b: nat): nat { if a <= b then a else b }

  /** A byte stream. `arrives` says how many bytes there are to read at a position; a read blocks for one. */
  class Input {
    const data: string
    const arrives: nat -> nat
    var pos: nat

    constructor (data: string, arrives: nat -> nat)
      ensures Valid() && pos == 0 && this.data == data && this.arrives == arrives
    {
      this.data := data;
      this.arrives := arrives;
      pos := 0;
    }

    predicate Valid()
      reads this`pos
    {
      pos <= |data|
    }

    /** Some of the next `limit` bytes, and none only at the end of the stream. */
    method Read(limit: nat) returns (chunk: string)
      requires Valid() && limit > 0
      modifies this`pos
      ensures Valid() && old(pos) <= pos && chunk == data[old(pos)..pos]
      ensures |chunk| <= limit && (chunk == "" <==> old(pos) == |data|)
    {
      var some := Min(limit, |data| - pos);
      var n := if arrives(pos) == 0 then Min(1, some) else Min(arrives(pos), some);
      chunk := data[pos..pos + n];
      pos := pos + n;
    }

    /** The rest of the line, or as much of it as the limit allows. */
    method ReadLine(limit: Option<nat>) returns (line: string)
      requires Valid()
      modifies this`pos
      ensures Valid() && old(pos) <= pos && line == data[old(pos)..pos]
      ensures pos == match limit
                     case None => LineEnd(data, old(pos))
                     case Some(n) => Min(old(pos) + n, LineEnd(data, old(pos)))
    {
      var end := LineEnd(data, pos);
      if limit.Some? {
        end := Min(pos + limit.value, end);
      }
      line := data[pos..end];
      pos := end;
    }
  }

  /** `_read_exact`: fills a buffer of the announced length, chunk by chunk. */
  method ReadExact(input: Input, length: nat) returns (payload: Option<string>)
    requires input.Valid()
    modifies input`pos
    ensures input.Valid() && input.pos == Min(old(input.pos) + length, |input.data|)
    ensures payload == if |input.data| - old(input.pos) < length then None
                       else Some(input.data[old(input.pos)..old(input.pos) + length])
  {
    var start := input.pos;
    var output := new char[length];
    var offset := 0;
    while offset < length
      invariant offset <= length && input.Valid() && input.pos == start + offset
      invariant forall i :: 0 <= i < offset ==> output[i] == input.data[start + i]
    {
      var chunk := input.Read(length - offset);
      if chunk == "" {
        return None;
      }
      forall i | 0 <= i < |chunk| {
        output[offset + i] := chunk[i];
      }
      offset := offset + |chunk|;
    }
    assert output[..] == input.data[start..start + length];
    return Some(output[..]);
  }

  /** Lines are cut only where they already exceed the header limit. */
  predicate TakesEnough(rules: Rules) { rules.lineLimit.Some? ==> rules.lineLimit.value > MAX_HEADER_BYTES }

  lemma SdksTakeEnough(rules: Rules, style: Style)
    requires OfAnSdk(rules, style)
    ensures TakesEnough(rules)
  {
  }

  predicate Ended(line: string) { line != "" && line[|line| - 1] == '\n' }

  /** One turn of the loop. Python and Go also look at a last line without its end; they find the stream at its
      end afterwards. */
  method JudgeLine(rules: Rules, line: string, headerCount: nat, used: nat, length: Option<nat>) returns (turn: Turn)
    requires IsSound(rules)
    ensures line == "" || Ended(line) || used + |line| > MAX_HEADER_BYTES ==>
              turn == TurnOf(rules, line, headerCount, used, length)
    ensures line != "" && !Ended(line) && used + |line| <= MAX_HEADER_BYTES ==>
              turn == if rules.stopsAtPartial then Spoils else Said(rules, line, length)
    ensures turn.Opens? ==> length == Some(turn.n)
    ensures turn.Continues? ==>
              && line != "" && used + |line| <= MAX_HEADER_BYTES
              && (turn.length == length || (turn.length.Some? && 1 <= turn.length.value <= rules.maxPayload))
  {
    if line == "" {
      return if headerCount == 0 then Ends else Spoils;
    }
    if used + |line| > MAX_HEADER_BYTES || (rules.stopsAtPartial && !Ended(line)) {
      return Spoils;
    }
    if rules.empty(line) {
      if length.Some? {
        return Opens(length.value);
      }
      return if rules.skipsEmpty then Continues(None) else Spoils;
    }
    assert ParsesSoundly(rules, line, length.Some?);
    match rules.parse(line, length.Some?) {
      case Malformed => return Spoils;
      case Other => return Continues(length);
      case Length(n) => return Continues(Some(n));
    }
  }

  /** The end of what a reader takes at once. */
  function TakenEnd(rules: Rules, s: string, pos: nat): (end: nat)
    requires pos <= |s|
    ensures pos <= end <= |s|
  {
    match rules.lineLimit
    case None => LineEnd(s, pos)
    case Some(n) => Min(pos + n, LineEnd(s, pos))
  }

  /** A cut line is judged like the whole one, and a line without its end spoils the frame. */
  lemma TakenLineDecides(rules: Rules, s: string, pos: nat, count: nat, used: nat, length: Option<nat>)
    requires pos <= |s| && TakesEnough(rules)
    ensures
      var line, text := s[pos..TakenEnd(rules, s, pos)], s[pos..LineEnd(s, pos)];
      && (line == "" || Ended(line) || used + |line| > MAX_HEADER_BYTES ==>
            TurnOf(rules, text, count, used, length) == TurnOf(rules, line, count, used, length))
      && (line != "" && used + |line| <= MAX_HEADER_BYTES ==> line == text)
      && (line != "" && !Ended(line) ==> TurnOf(rules, text, count, used, length) == Spoils)
      && (line != "" && used + |line| <= MAX_HEADER_BYTES && !Ended(line) ==> TakenEnd(rules, s, pos) == |s|)
  {
    var line, text := s[pos..TakenEnd(rules, s, pos)], s[pos..LineEnd(s, pos)];
    if line == text && line != "" && !Ended(line) {
      PartialLineEndsStream(s, pos);
    }
  }

  function LineFrom(s: string, pos: nat): string
    requires pos <= |s|
  {
    s[pos..LineEnd(s, pos)]
  }

  /** Takes a line and judges it: as the whole line demands, or, at the end of a stream that breaks off in a line,
      perhaps not yet. */
  method NextLine(rules: Rules, input: Input, headerCount: nat, used: nat, length: Option<nat>)
    returns (line: string, turn: Turn)
    requires input.Valid() && TakesEnough(rules) && IsSound(rules)
    modifies input`pos
    ensures input.Valid() && input.pos == old(input.pos) + |line| == TakenEnd(rules, input.data, old(input.pos))
    ensures
      var decided := TurnOf(rules, LineFrom(input.data, old(input.pos)), headerCount, used, length);
      turn == decided || (decided == Spoils && input.pos == |input.data| && !turn.Ends?)
    ensures turn.Ends? ==> headerCount == 0
    ensures turn.Opens? ==> length == Some(turn.n)
    ensures turn.Opens? || turn.Continues? ==>
              && input.pos == LineEnd(input.data, old(input.pos))
              && line != "" && used + |line| <= MAX_HEADER_BYTES
    ensures turn.Continues? ==>
              turn.length == length || (turn.length.Some? && 1 <= turn.length.value <= rules.maxPayload)
  {
    TakenLineDecides(rules, input.data, input.pos, headerCount, used, length);
    line := input.ReadLine(rules.lineLimit);
    turn := JudgeLine(rules, line, headerCount, used, length);
  }

  /** The payload behind an empty line. */
  function BodyAt(s: string, pos: nat, n: nat): Reading
    requires pos <= |s|
  {
    if |s| - pos < n then Bad else Frame(s[pos..pos + n], pos + n)
  }

  method ReadBody(input: Input, n: nat) returns (reading: Reading)
    requires input.Valid()
    modifies input`pos
    ensures input.Valid() && input.pos == Min(old(input.pos) + n, |input.data|)
    ensures reading == BodyAt(input.data, old(input.pos), n)
  {
    var payload := ReadExact(input, n);
    return match payload case None => Bad case Some(p) => Frame(p, input.pos);
  }

  /** Where a reader of the frame stands afterwards, from the header line at `pos` on. */
  function StopFrom(r: Rules, s: string, pos: nat, line: nat, used: nat, length: Option<nat>): (stop: nat)
    requires pos <= |s| && line <= r.lines
    ensures pos <= stop <= |s|
    decreases r.lines - line
  {
    if line == r.lines then pos
    else
      var end := LineEnd(s, pos);
      match TurnOf(r, s[pos..end], line, used, length)
      case Ends => pos
      case Spoils => TakenEnd(r, s, pos)
      case Opens(n) => Min(end + n, |s|)
      case Continues(next) => StopFrom(r, s, end, line + 1, used + (end - pos), next)
  }

  function Stop(r: Rules, s: string, pos: nat): nat
    requires pos <= |s|
  {
    StopFrom(r, s, pos, 0, 0, None)
  }

  lemma ReadFromMoves(
      rules: Rules, s: string, pos: nat, count: nat, used: nat, length: Option<nat>, decided: Turn,
      reading: Reading, stop: nat)
    requires pos <= |s| && count < rules.lines && reading == ReadFrom(rules, s, pos, count, used, length)
    requires stop == StopFrom(rules, s, pos, count, used, length)
    requires decided == TurnOf(rules, LineFrom(s, pos), count, used, length)
    ensures
      match decided
      case Ends => reading == EndOfStream && stop == pos == |s|
      case Spoils => reading == Bad && stop == TakenEnd(rules, s, pos)
      case Opens(n) => reading == BodyAt(s, LineEnd(s, pos), n) && stop == Min(LineEnd(s, pos) + n, |s|)
      case Continues(next) =>
        && reading == ReadFrom(rules, s, LineEnd(s, pos), count + 1, used + (LineEnd(s, pos) - pos), next)
        && stop == StopFrom(rules, s, LineEnd(s, pos), count + 1, used + (LineEnd(s, pos) - pos), next)
  {
  }

  /** A stream that broke off in its last line, which a reader may not have noticed yet. */
  predicate BrokenOff(s: string, pos: nat, goal: Reading, stop: nat) { goal == Bad && pos == |s| == stop }

  /** From here on the frame is what it is to be, and ends where it is to end. */
  predicate OnCourse(
      rules: Rules, s: string, pos: nat, count: nat, used: nat, length: Option<nat>, goal: Reading, stop: nat)
    requires pos <= |s| && count <= rules.lines
  {
    goal == ReadFrom(rules, s, pos, count, used, length) && stop == StopFrom(rules, s, pos, count, used, length)
  }

  /** One turn of the loop, up to the payload. */
  method TakeLine(
      rules: Rules, input: Input, count: nat, used: nat, length: Option<nat>, ghost goal: Reading, ghost stop: nat)
    returns (line: string, turn: Turn)
    requires input.Valid() && TakesEnough(rules) && IsSound(rules) && count < rules.lines
    requires length.Some? ==> 1 <= length.value <= rules.maxPayload
    requires (count > 0 && BrokenOff(input.data, input.pos, goal, stop)) ||
             OnCourse(rules, input.data, input.pos, count, used, length, goal, stop)
    modifies input`pos
    ensures input.Valid() && input.pos == old(input.pos) + |line|
    ensures turn.Ends? ==> goal == EndOfStream && input.pos == stop
    ensures turn.Spoils? ==> goal == Bad && input.pos == stop
    ensures turn.Opens? ==>
              && goal == BodyAt(input.data, input.pos, turn.n) && stop == Min(input.pos + turn.n, |input.data|)
              && length == Some(turn.n)
    ensures turn.Continues? ==>
              && used + |line| <= MAX_HEADER_BYTES
              && (turn.length.Some? ==> 1 <= turn.length.value <= rules.maxPayload)
              && (|| BrokenOff(input.data, input.pos, goal, stop)
                  || OnCourse(rules, input.data, input.pos, count + 1, used + |line|, turn.length, goal, stop))
  {
    ghost var decided := TurnOf(rules, LineFrom(input.data, input.pos), count, used, length);
    ReadFromMoves(rules, input.data, input.pos, count, used, length, decided,
                  ReadFrom(rules, input.data, input.pos, count, used, length),
                  StopFrom(rules, input.data, input.pos, count, used, length));
    line, turn := NextLine(rules, input, count, used, length);
  }

  /** The loop over the header lines, and the payload behind them. It reads what the stream holds, however the
      bytes arrive, and stops exactly where the stream says; where lines are cut it never takes more than the
      header limit, one line and a payload. */
  method ReadFrame(rules: Rules, input: Input) returns (reading: Reading)
    requires input.Valid() && TakesEnough(rules) && IsSound(rules)
    modifies input`pos
    ensures input.Valid() && reading == Read(rules, input.data, old(input.pos))
    ensures input.pos == Stop(rules, input.data, old(input.pos))
    ensures reading.Frame? ==> input.pos == reading.next
    ensures rules.lineLimit.Some? ==>
              input.pos <= old(input.pos) + MAX_HEADER_BYTES + rules.lineLimit.value + rules.maxPayload
  {
    var headerCount, headerBytes: nat, length: Option<nat> := 0, 0, None;
    ghost var goal, stop := Read(rules, input.data, input.pos), Stop(rules, input.data, input.pos);
    StopIsNext(rules, input.data, input.pos, 0, 0, None);
    if rules.lineLimit.Some? {
      StopIsBounded(rules, input.data, input.pos, 0, 0, None);
    }
    while headerCount < rules.lines
      invariant headerCount <= rules.lines && headerBytes <= MAX_HEADER_BYTES && input.Valid()
      invariant length.Some? ==> 1 <= length.value <= rules.maxPayload
      invariant (headerCount > 0 && BrokenOff(input.data, input.pos, goal, stop)) ||
                OnCourse(rules, input.data, input.pos, headerCount, headerBytes, length, goal, stop)
    {
      var line, turn := TakeLine(rules, input, headerCount, headerBytes, length, goal, stop);
      match turn {
        case Ends => return EndOfStream;
        case Spoils => return Bad;
        case Opens(n) =>
          reading := ReadBody(input, n);
          return;
        case Continues(next) =>
          headerCount, headerBytes, length := headerCount + 1, headerBytes + |line|, next;
      }
    }
    return Bad;
  }

  lemma {:induction false} StopIsNext(r: Rules, s: string, pos: nat, line: nat, used: nat, length: Option<nat>)
    requires pos <= |s| && line <= r.lines
    ensures
      var reading := ReadFrom(r, s, pos, line, used, length);
      reading.Frame? ==> StopFrom(r, s, pos, line, used, length) == reading.next
    decreases r.lines - line
  {
    if line < r.lines {
      var end := LineEnd(s, pos);
      match TurnOf(r, s[pos..end], line, used, length)
      case Continues(next) => StopIsNext(r, s, end, line + 1, used + (end - pos), next);
      case _ =>
    }
  }

  lemma {:induction false} PartialLineEndsStream(s: string, pos: nat)
    requires pos < |s| && s[LineEnd(s, pos) - 1] != '\n'
    ensures LineEnd(s, pos) == |s|
    decreases |s| - pos
  {
    if s[pos] != '\n' && pos + 1 < |s| {
      PartialLineEndsStream(s, pos + 1);
    }
  }

  // ---------------------------------------------------------------------------------------------
  // How much a reader takes
  // ---------------------------------------------------------------------------------------------

  function Max(a: nat, b: nat): nat { if a <= b then b else a }

  /** Where lines are cut, a reader takes at most the rest of the header, and then one line or one payload. */
  lemma {:induction false} StopIsBounded(r: Rules, s: string, pos: nat, line: nat, used: nat, length: Option<nat>)
    requires IsSound(r) && r.lineLimit.Some? && pos <= |s| && line <= r.lines && used <= MAX_HEADER_BYTES
    requires length.Some? ==> 1 <= length.value <= r.maxPayload
    ensures StopFrom(r, s, pos, line, used, length) + used <=
            pos + MAX_HEADER_BYTES + Max(r.lineLimit.value, r.maxPayload)
    decreases r.lines - line
  {
    if line < r.lines {
      var end := LineEnd(s, pos);
      assert ParsesSoundly(r, s[pos..end], length.Some?);
      match TurnOf(r, s[pos..end], line, used, length)
      case Continues(next) => StopIsBounded(r, s, end, line + 1, used + (end - pos), next);
      case _ =>
    }
  }

  ghost predicate StopsWithin(r: Rules, bound: nat) {
    forall s: string, pos: nat | pos <= |s| :: Stop(r, s, pos) <= pos + bound
  }

  function Overlong(n: nat): (s: string)
    ensures |s| == n && forall i :: 0 <= i < n ==> s[i] == 'x'
  {
    seq(n, i => 'x')
  }

  lemma {:induction false} LineWithoutEnd(s: string, pos: nat)
    requires pos <= |s| && forall i :: pos <= i < |s| ==> s[i] != '\n'
    ensures LineEnd(s, pos) == |s|
    decreases |s| - pos
  {
    if pos < |s| {
      LineWithoutEnd(s, pos + 1);
    }
  }

  /** Where lines are not cut, a line of any length is taken whole before it is refused. */
  lemma WholeLineIsTaken(r: Rules, n: nat)
    requires r.lineLimit.None? && r.lines > 0 && n > 0
    ensures Read(r, Overlong(n), 0) == Bad && Stop(r, Overlong(n), 0) == n
  {
    LineWithoutEnd(Overlong(n), 0);
    assert Overlong(n)[0..n] == Overlong(n);
  }

  lemma NoBoundHolds(r: Rules, bound: nat)
    requires r.lineLimit.None? && r.lines > 0
    ensures !StopsWithin(r, bound)
  {
    WholeLineIsTaken(r, bound + 1);
    assert Stop(r, Overlong(bound + 1), 0) > 0 + bound;
  }

  /** What a frame makes a reader take is bounded, whatever the stream holds, exactly if lines are cut; and then
      the header limit and one line or payload are a bound. */
  lemma BoundedExactlyWhen(r: Rules)
    requires IsSound(r) && r.lines > 0
    ensures (exists bound: nat :: StopsWithin(r, bound)) <==> r.lineLimit.Some?
    ensures r.lineLimit.Some? ==> StopsWithin(r, MAX_HEADER_BYTES + Max(r.lineLimit.value, r.maxPayload))
  {
    if r.lineLimit.Some? {
      var bound := MAX_HEADER_BYTES + Max(r.lineLimit.value, r.maxPayload);
      forall s: string, pos: nat | pos <= |s| ensures Stop(r, s, pos) <= pos + bound {
        StopIsBounded(r, s, pos, 0, 0, None);
      }
      assert StopsWithin(r, bound);
    } else {
      forall bound: nat ensures !StopsWithin(r, bound) {
        NoBoundHolds(r, bound);
      }
    }
  }

  /** So the Python and Rust readers are bounded, by the size of their largest payload, and the Go reader is not. */
  lemma OnlyGoIsUnbounded(readable: string -> bool)
    ensures StopsWithin(Python(readable), MAX_HEADER_BYTES + 0x180_0000)
    ensures StopsWithin(Rust(readable), MAX_HEADER_BYTES + 0x10_0000)
    ensures forall bound: nat :: !StopsWithin(Go(), bound)
  {
    RulesAreSound(PythonStyle(readable), 33, Some(8_194), true, false);
    RulesAreSound(RustStyle(readable), 32, Some(8_193), false, true);
    RulesAreSound(GoStyle(), 33, None, true, false);
    BoundedExactlyWhen(Python(readable));
    BoundedExactlyWhen(Rust(readable));
    BoundedExactlyWhen(Go());
  }

  // ---------------------------------------------------------------------------------------------
  // Writing
  // ---------------------------------------------------------------------------------------------

  /** What a write answers: how many bytes it took, or a number it cannot have, and whether it reports an error. */
  datatype Answer = Answer(n: int, failed: bool)

  /** How many of `n` bytes have then been taken. */
  function Took(a: Answer, n: nat): nat { if 0 < a.n <= n then a.n else 0 }

  /** A byte sink. `accepts` says what it answers, with so many bytes written before, to a write of so many. */
  class Output {
    const accepts: (nat, nat) -> Answer
    var written: string

    constructor (accepts: (nat, nat) -> Answer)
      ensures written == "" && this.accepts == accepts
    {
      this.accepts := accepts;
      written := "";
    }

    method Write(bytes: string) returns (a: Answer)
      modifies this`written
      ensures a == accepts(|old(written)|, |bytes|)
      ensures written == old(written) + bytes[..Took(a, |bytes|)]
    {
      a := accepts(|written|, |bytes|);
      written := written + bytes[..Took(a, |bytes|)];
    }
  }

  /** The SDKs write in three ways. */
  datatype Writer = PythonWriter | GoWriter | RustWriter

  /** How writing ends. `Stuck` stands for a loop that goes on asking without moving. */
  datatype Delivery = Done | Failed | Panicked | Stuck

  /** What a write loop makes of an answer to `n` bytes, `Done` if it goes on. Python refuses every number that a
      write cannot answer; Rust and Go cut the rest off first, and Go only asks whether nothing was taken. */
  function Judged(writer: Writer, a: Answer, n: nat): Delivery {
    match writer
    case PythonWriter => if a.failed || a.n <= 0 || a.n > n then Failed else Done
    case RustWriter => if a.failed then Failed else if a.n > n then Panicked else if a.n <= 0 then Failed else Done
    case GoWriter =>
      if a.n > n then Panicked else if a.failed || a.n == 0 then Failed else if a.n < 0 then Stuck else Done
  }

  datatype Delivered = Delivered(taken: nat, how: Delivery)

  /** How many of `n` bytes a sink takes, write after write, and how the loop ends. */
  function Loop(writer: Writer, accepts: (nat, nat) -> Answer, written: nat, n: nat): (d: Delivered)
    ensures d.taken <= n && (d.how.Done? ==> d.taken == n)
    decreases n
  {
    if n == 0 then Delivered(0, Done)
    else
      var a := accepts(written, n);
      if !Judged(writer, a, n).Done? then Delivered(Took(a, n), Judged(writer, a, n))
      else
        var rest := Loop(writer, accepts, written + a.n, n - a.n);
        Delivered(a.n + rest.taken, rest.how)
  }

  /** A sink that always takes something, no more than it is given, and reports no error. */
  ghost predicate Willing(accepts: (nat, nat) -> Answer) {
    forall written: nat, n: nat | n > 0 :: 0 < accepts(written, n).n <= n && !accepts(written, n).failed
  }

  lemma {:induction false} WillingTakesAll(writer: Writer, accepts: (nat, nat) -> Answer, written: nat, n: nat)
    requires Willing(accepts)
    ensures Loop(writer, accepts, written, n) == Delivered(n, Done)
    decreases n
  {
    if n > 0 {
      var a := accepts(written, n);
      assert 0 < a.n <= n && !a.failed;
      WillingTakesAll(writer, accepts, written + a.n, n - a.n);
    }
  }

  /** The first `k` of `n` bytes were taken, and what all of them come to is known. */
  predicate BytesLeft(
      writer: Writer, accepts: (nat, nat) -> Answer, written: nat, n: nat, k: nat, all: Delivered)
  {
    k <= n &&
    var rest := Loop(writer, accepts, written, n - k);
    all == Delivered(k + rest.taken, rest.how)
  }

  lemma NextBytes(writer: Writer, accepts: (nat, nat) -> Answer, written: nat, n: nat, k: nat, all: Delivered)
    requires k < n && BytesLeft(writer, accepts, written, n, k, all)
    ensures
      var a := accepts(written, n - k);
      if Judged(writer, a, n - k).Done? then
        Took(a, n - k) == a.n > 0 && BytesLeft(writer, accepts, written + a.n, n, k + a.n, all)
      else all == Delivered(k + Took(a, n - k), Judged(writer, a, n - k))
  {
  }

  lemma MoreOf(before: string, text: string, k: nat, n: nat)
    requires k + n <= |text|
    ensures before + text[..k] + text[k..][..n] == before + text[..k + n]
  {
    assert text[..k] + text[k..][..n] == text[..k + n];
  }

  /** One write of the loop. */
  method WriteSome(
      writer: Writer, output: Output, payload: string, remaining: string, ghost k: nat, ghost before: string,
      ghost all: Delivered)
    returns (how: Delivery, n: int)
    requires k < |payload| && remaining == payload[k..] && output.written == before + payload[..k]
    requires BytesLeft(writer, output.accepts, |before| + k, |payload|, k, all)
    modifies output`written
    ensures how.Done? ==>
              && 0 < n <= |remaining| && output.written == before + payload[..k + n]
              && BytesLeft(writer, output.accepts, |before| + k + n, |payload|, k + n, all)
    ensures !how.Done? ==>
              && how == all.how && all.taken <= |payload| && output.written == before + payload[..all.taken]
  {
    NextBytes(writer, output.accepts, |before| + k, |payload|, k, all);
    var a := output.Write(remaining);
    MoreOf(before, payload, k, Took(a, |remaining|));
    how, n := Judged(writer, a, |remaining|), a.n;
  }

  /** `_write_all`, `writeAll` and `write_all`: what the sink takes is the beginning, with nothing lost or written
      twice. */
  method WriteAll(writer: Writer, output: Output, payload: string) returns (how: Delivery)
    modifies output`written
    ensures how == Loop(writer, output.accepts, |old(output.written)|, |payload|).how
    ensures output.written ==
            old(output.written) + payload[..Loop(writer, output.accepts, |old(output.written)|, |payload|).taken]
  {
    var remaining := payload;
    ghost var k, before := 0, output.written;
    ghost var all := Loop(writer, output.accepts, |before|, |payload|);
    while remaining != ""
      invariant 0 <= k <= |payload| && remaining == payload[k..]
      invariant output.written == before + payload[..k]
      invariant BytesLeft(writer, output.accepts, |before| + k, |payload|, k, all)
      decreases |remaining|
    {
      var n;
      how, n := WriteSome(writer, output, payload, remaining, k, before, all);
      if !how.Done? {
        return;
      }
      remaining := remaining[n..];
      k := k + n;
    }
    return Done;
  }

  // ---------------------------------------------------------------------------------------------
  // Several pieces, one after the other
  // ---------------------------------------------------------------------------------------------

  function Joined(pieces: seq<string>, k: nat): string
    requires k <= |pieces|
  {
    if k == 0 then "" else Joined(pieces, k - 1) + pieces[k - 1]
  }

  lemma {:induction false} JoinedGrows(pieces: seq<string>, j: nat, k: nat)
    requires j <= k <= |pieces|
    ensures Joined(pieces, j) <= Joined(pieces, k)
    decreases k
  {
    if j < k {
      JoinedGrows(pieces, j, k - 1);
    }
  }

  /** How much the sink takes of the pieces from the `k`-th on. */
  function LoopAll(writer: Writer, accepts: (nat, nat) -> Answer, written: nat, pieces: seq<string>, k: nat)
    : (d: Delivered)
    requires k <= |pieces|
    decreases |pieces| - k
  {
    if k == |pieces| then Delivered(0, Done)
    else
      var d := Loop(writer, accepts, written, |pieces[k]|);
      if !d.how.Done? then d
      else
        var rest := LoopAll(writer, accepts, written + |pieces[k]|, pieces, k + 1);
        Delivered(d.taken + rest.taken, rest.how)
  }

  lemma {:induction false} LoopAllIsBounded(
      writer: Writer, accepts: (nat, nat) -> Answer, written: nat, pieces: seq<string>, k: nat)
    requires k <= |pieces|
    ensures
      var d, all := LoopAll(writer, accepts, written, pieces, k), |Joined(pieces, |pieces|)|;
      |Joined(pieces, k)| + d.taken <= all && (d.how.Done? ==> |Joined(pieces, k)| + d.taken == all)
    decreases |pieces| - k
  {
    if k < |pieces| {
      LoopAllIsBounded(writer, accepts, written + |pieces[k]|, pieces, k + 1);
      JoinedGrows(pieces, k + 1, |pieces|);
    }
  }

  lemma {:induction false} WillingTakesPieces(
      writer: Writer, accepts: (nat, nat) -> Answer, written: nat, pieces: seq<string>, k: nat)
    requires k <= |pieces| && Willing(accepts)
    ensures LoopAll(writer, accepts, written, pieces, k).how.Done?
    decreases |pieces| - k
  {
    if k < |pieces| {
      WillingTakesAll(writer, accepts, written, |pieces[k]|);
      WillingTakesPieces(writer, accepts, written + |pieces[k]|, pieces, k + 1);
    }
  }

  /** The text of `pieces` up to the byte that is the last to arrive. */
  function Arriving(pieces: seq<string>, taken: nat): string
    requires taken <= |Joined(pieces, |pieces|)|
  {
    Joined(pieces, |pieces|)[..taken]
  }

  lemma PieceBreaksOff(pieces: seq<string>, k: nat, taken: nat)
    requires k < |pieces| && taken <= |pieces[k]|
    ensures |Joined(pieces, k)| + taken <= |Joined(pieces, |pieces|)|
    ensures Arriving(pieces, |Joined(pieces, k)| + taken) == Joined(pieces, k) + pieces[k][..taken]
  {
    JoinedGrows(pieces, k + 1, |pieces|);
    assert Joined(pieces, k + 1)[..|Joined(pieces, k)| + taken] == Joined(pieces, k) + pieces[k][..taken];
  }

  /** The pieces before the `k`-th were taken, and what all of them come to is known. */
  predicate PiecesLeft(
      writer: Writer, accepts: (nat, nat) -> Answer, written: nat, pieces: seq<string>, k: nat, all: Delivered)
    requires k <= |pieces|
  {
    var rest := LoopAll(writer, accepts, written, pieces, k);
    all == Delivered(|Joined(pieces, k)| + rest.taken, rest.how)
  }

  lemma NextPiece(
      writer: Writer, accepts: (nat, nat) -> Answer, written: nat, pieces: seq<string>, k: nat, all: Delivered)
    requires k < |pieces| && PiecesLeft(writer, accepts, written, pieces, k, all)
    ensures
      var d := Loop(writer, accepts, written, |pieces[k]|);
      if d.how.Done? then PiecesLeft(writer, accepts, written + |pieces[k]|, pieces, k + 1, all)
      else all == Delivered(|Joined(pieces, k)| + d.taken, d.how)
  {
  }

  /** Writes the `k`-th piece. */
  method WritePiece(
      writer: Writer, output: Output, pieces: seq<string>, k: nat, ghost before: string, ghost all: Delivered)
    returns (how: Delivery)
    requires k < |pieces| && output.written == before + Joined(pieces, k)
    requires PiecesLeft(writer, output.accepts, |output.written|, pieces, k, all)
    modifies output`written
    ensures how.Done? ==>
              && output.written == before + Joined(pieces, k + 1)
              && PiecesLeft(writer, output.accepts, |output.written|, pieces, k + 1, all)
    ensures !how.Done? ==>
              && all.taken <= |Joined(pieces, |pieces|)| && how == all.how
              && output.written == before + Arriving(pieces, all.taken)
  {
    ghost var d := Loop(writer, output.accepts, |output.written|, |pieces[k]|);
    NextPiece(writer, output.accepts, |output.written|, pieces, k, all);
    PieceBreaksOff(pieces, k, d.taken);
    Associates(before, Joined(pieces, k), pieces[k][..d.taken]);
    how := WriteAll(writer, output, pieces[k]);
    assert how.Done? ==> pieces[k][..d.taken] == pieces[k];
  }

  method WritePieces(writer: Writer, output: Output, pieces: seq<string>) returns (how: Delivery)
    modifies output`written
    ensures
      var d := LoopAll(writer, output.accepts, |old(output.written)|, pieces, 0);
      && how == d.how && d.taken <= |Joined(pieces, |pieces|)|
      && output.written == old(output.written) + Arriving(pieces, d.taken)
  {
    ghost var before, all := output.written, LoopAll(writer, output.accepts, |output.written|, pieces, 0);
    for k := 0 to |pieces|
      invariant output.written == before + Joined(pieces, k)
      invariant PiecesLeft(writer, output.accepts, |output.written|, pieces, k, all)
    {
      how := WritePiece(writer, output, pieces, k, before, all);
      if !how.Done? {
        return;
      }
    }
    return Done;
  }

  // ---------------------------------------------------------------------------------------------
  // Frames
  // ---------------------------------------------------------------------------------------------

  predicate FitsFrame(maxPayload: nat, payload: string) { 1 <= |payload| <= maxPayload }

  function Header(payload: string): string { HeaderLine(KEY, |payload|) + "\r\n" }

  /** Python writes the header as a whole, Rust's formatting its three parts, each in a loop. */
  function Pieces(writer: Writer, payload: string): seq<string> {
    if writer.RustWriter? then [KEY + ": ", Decimal.Print(|payload|), "\r\n\r\n", payload]
    else [Header(payload), payload]
  }

  lemma PiecesAreFrame(writer: Writer, payload: string)
    ensures Joined(Pieces(writer, payload), |Pieces(writer, payload)|) == Written(KEY, payload)
  {
    var pieces, digits := Pieces(writer, payload), Decimal.Print(|payload|);
    if writer.RustWriter? {
      assert Joined(pieces, 1) == KEY + ": ";
      assert Joined(pieces, 2) == KEY + ": " + digits;
      assert Joined(pieces, 3) == KEY + ": " + digits + "\r\n\r\n" == Header(payload);
      assert Joined(pieces, 4) == Header(payload) + payload;
    } else {
      assert Joined(pieces, 1) == Header(payload);
      assert Joined(pieces, 2) == Header(payload) + payload;
    }
    FrameIsItsParts(HeaderLine(KEY, |payload|), payload);
  }

  lemma FrameIsItsParts(line: string, payload: string)
    ensures line + ("\r\n" + payload) == (line + "\r\n") + payload
  {
  }

  /** What arrives of a frame, and how writing it ends. */
  datatype Sending = Sending(text: string, how: Delivery)

  /** A frame of the Python or Rust SDK. */
  function LoopedFrame(writer: Writer, accepts: (nat, nat) -> Answer, written: nat, payload: string): Sending {
    var pieces := Pieces(writer, payload);
    LoopAllIsBounded(writer, accepts, written, pieces, 0);
    var d := LoopAll(writer, accepts, written, pieces, 0);
    Sending(Arriving(pieces, d.taken), d.how)
  }

  /** A frame of the Go SDK: the header is written once, and how much of it was taken is ignored. */
  function GoFrame(accepts: (nat, nat) -> Answer, written: nat, payload: string): Sending {
    var header := Header(payload);
    var a := accepts(written, |header|);
    var first := header[..Took(a, |header|)];
    if a.failed then Sending(first, Failed)
    else
      var d := Loop(GoWriter, accepts, written + |first|, |payload|);
      Sending(first + payload[..d.taken], d.how)
  }

  /** A payload that does not fit is refused before anything is written. */
  function FrameSent(
      writer: Writer, maxPayload: nat, accepts: (nat, nat) -> Answer, written: nat, payload: string): Sending
  {
    if !FitsFrame(maxPayload, payload) then Sending("", Failed)
    else if writer.GoWriter? then GoFrame(accepts, written, payload)
    else LoopedFrame(writer, accepts, written, payload)
  }

  /** `writeFrame` of the Go SDK. */
  method WriteGoFrame(output: Output, payload: string) returns (how: Delivery)
    modifies output`written
    ensures var sent := GoFrame(output.accepts, |old(output.written)|, payload);
            how == sent.how && output.written == old(output.written) + sent.text
  {
    ghost var before := output.written;
    var header := Header(payload);
    var a := output.Write(header);
    if a.failed {
      return Failed;
    }
    how := WriteAll(GoWriter, output, payload);
    Associates(before, header[..Took(a, |header|)],
               payload[..Loop(GoWriter, output.accepts, |before| + Took(a, |header|), |payload|).taken]);
  }

  lemma Associates(a: string, b: string, c: string)
    ensures a + b + c == a + (b + c)
  {
  }

  /** `_write_frame`, `writeFrame` and `write_frame`, on the serialised value. */
  method WriteFrame(writer: Writer, maxPayload: nat, output: Output, payload: string) returns (how: Delivery)
    modifies output`written
    ensures var sent := FrameSent(writer, maxPayload, output.accepts, |old(output.written)|, payload);
            how == sent.how && output.written == old(output.written) + sent.text
  {
    if payload == "" || |payload| > maxPayload {
      return Failed;
    }
    if writer.GoWriter? {
      how := WriteGoFrame(output, payload);
    } else {
      how := WritePieces(writer, output, Pieces(writer, payload));
    }
  }

  /** The sink takes the header in the one write that it gets. */
  predicate TakesHeader(accepts: (nat, nat) -> Answer, written: nat, payload: string) {
    accepts(written, |Header(payload)|).n == |Header(payload)|
  }

  /** A frame that is reported as written is on the stream as a whole, exactly if, in Go, the sink took the whole
      header in one write. */
  lemma WholeExactlyWhen(
      writer: Writer, maxPayload: nat, accepts: (nat, nat) -> Answer, written: nat, payload: string)
    requires FrameSent(writer, maxPayload, accepts, written, payload).how.Done?
    ensures
      var text := FrameSent(writer, maxPayload, accepts, written, payload).text;
      && |text| <= |Written(KEY, payload)|
      && (text == Written(KEY, payload) <==> |text| == |Written(KEY, payload)|)
      && (text == Written(KEY, payload) <==> (writer.GoWriter? ==> TakesHeader(accepts, written, payload)))
  {
    PiecesAreFrame(writer, payload);
    if writer.GoWriter? {
      var header := Header(payload);
      var first := header[..Took(accepts(written, |header|), |header|)];
      FrameIsItsParts(HeaderLine(KEY, |payload|), payload);
      assert Written(KEY, payload) == header + payload;
      assert payload[..|payload|] == payload;
      assert FrameSent(writer, maxPayload, accepts, written, payload).text == first + payload;
    } else {
      LoopAllIsBounded(writer, accepts, written, Pieces(writer, payload), 0);
    }
  }

  /** A sink that always takes something, and no more than it is given, never makes a writer fail. */
  lemma WillingTakesFrames(
      writer: Writer, maxPayload: nat, accepts: (nat, nat) -> Answer, written: nat, payload: string)
    requires Willing(accepts) && FitsFrame(maxPayload, payload)
    ensures FrameSent(writer, maxPayload, accepts, written, payload).how.Done?
  {
    if writer.GoWriter? {
      var header := Header(payload);
      assert !accepts(written, |header|).failed;
      WillingTakesAll(GoWriter, accepts, written + Took(accepts(written, |header|), |header|), |payload|);
    } else {
      WillingTakesPieces(writer, accepts, written, Pieces(writer, payload), 0);
    }
  }

  const BYTE_BY_BYTE: (nat, nat) -> Answer := (written: nat, n: nat) => Answer(1, false)

  /** Into a sink that takes one byte at a time, Go writes the first letter of the header and the payload, and reports
      that all went well; no SDK can read that. */
  lemma GoLosesHeaders(r: Rules, maxPayload: nat, written: nat, payload: string)
    requires FitsFrame(maxPayload, payload) && '\n' !in payload && r.lines > 0
    ensures Willing(BYTE_BY_BYTE)
    ensures FrameSent(GoWriter, maxPayload, BYTE_BY_BYTE, written, payload) == Sending("C" + payload, Done)
    ensures Read(r, "C" + payload, 0) == Bad
  {
    WillingTakesAll(GoWriter, BYTE_BY_BYTE, written + 1, |payload|);
    assert Header(payload)[..1] == "C" && payload[..|payload|] == payload;
    var s := "C" + payload;
    LineWithoutEnd(s, 0);
    assert s[0..|s|] == s;
  }
}
