/** The one-pass Caveman line filter: a sixteen-line window, a watermark, a counter of omitted lines and
    an early abort, against a declarative keep set and a summary built in full. */
module Caveman {
  import opened Actions
  import opened Bytes
  import opened LineSummary
  import opened TextLines
  import Decimal

  const HEAD_LINES: nat := 10
  const TAIL_LINES: nat := 16
  const SUCCESS_CONTEXT: nat := 1
  const FAILURE_CONTEXT: nat := 3
  const REQUIRED_REDUCTION_PERCENT: nat := 20
  const MARKER_DIGITS: nat := 20

  const PREFIX: string := "... "
  const SUFFIX: string := " routine Caveman diagnostic lines omitted by TokenSaver ..."

  datatype Importance = Routine | Evidence | Diagnostic

  datatype PendingLine = PendingLine(segment: Line, keep: bool)

  function PreferredNewline(text: string): (newline: string)
    ensures 1 <= |newline| <= 2
  {
    var k := FirstNewline(text);
    if 0 < k < |text| && text[k - 1] == CR then [CR, LF] else [LF]
  }

  function VisibleLine(segment: Line): Line {
    StripSuffix(StripSuffix(segment, LF), CR)
  }

  function Importances(importance: Line -> Importance, segments: seq<Line>): (r: seq<Importance>)
    ensures |r| == |segments|
  {
    seq(|segments|, i requires 0 <= i < |segments| => importance(VisibleLine(segments[i])))
  }

  // ---------------------------------------------------------------------------------------------
  // The declarative filter
  // ---------------------------------------------------------------------------------------------

  function Context(importance: Importance, exitCode: int): nat {
    match importance
    case Diagnostic => if exitCode == 0 then SUCCESS_CONTEXT else FAILURE_CONTEXT
    case Evidence => SUCCESS_CONTEXT
    case Routine => 0
  }

  /** Line `j` is worth keeping and line `i` lies in its context. */
  predicate Near(imps: seq<Importance>, exitCode: int, i: nat, j: nat) {
    && j < |imps| && imps[j] != Routine
    && i <= j + Context(imps[j], exitCode) && j <= i + Context(imps[j], exitCode)
  }

  /** Line `i` belongs to the output of the whole list of lines. */
  predicate Kept(imps: seq<Importance>, exitCode: int, i: nat) {
    || i < HEAD_LINES
    || i + TAIL_LINES >= |imps|
    || exists j: nat :: j < |imps| && Near(imps, exitCode, i, j)
  }

  function KeepSet(imps: seq<Importance>, exitCode: int): (keep: seq<bool>)
    ensures |keep| == |imps|
    ensures forall i :: 0 <= i < |imps| ==> keep[i] == Kept(imps, exitCode, i)
  {
    seq(|imps|, i requires 0 <= i < |imps| => Kept(imps, exitCode, i))
  }

  function Marker(count: nat, newline: string): string {
    PREFIX + Decimal.Print(count) + SUFFIX + newline
  }

  /** The text of a marker for each count, and the bytes reserved for it whatever the count. */
  datatype MarkerStyle = MarkerStyle(text: nat -> string, reserve: nat) {
    /** A marker is at most nineteen bytes shorter than its reserve. */
    ghost predicate Tight() {
      forall count :: |text(count)| + MARKER_DIGITS > reserve
    }
  }

  function Style(newline: string): MarkerStyle {
    MarkerStyle((count: nat) => Marker(count, newline), |PREFIX| + MARKER_DIGITS + |SUFFIX| + |newline|)
  }

  lemma StyleIsTight(newline: string)
    ensures Style(newline).Tight()
  {
    forall count: nat ensures |Style(newline).text(count)| + MARKER_DIGITS > Style(newline).reserve {
      assert Style(newline).text(count) == Marker(count, newline);
    }
  }

  /** Twenty digits are enough for every count a `usize` can hold. */
  lemma ReserveIsEnough(count: nat, newline: string)
    requires count <= USIZE_MAX
    ensures |Marker(count, newline)| <= Style(newline).reserve
  {
    Decimal.U64IsTwentyDigits();
    Decimal.PrintedLength(count, MARKER_DIGITS);
  }

  /** The 80% test, applied to a finished output. */
  function Decide(output: string, inputLength: nat): Action {
    if Saturated(|output| * 100) > Saturated(inputLength * (100 - REQUIRED_REDUCTION_PERCENT)) then Pass
    else Proposal(output)
  }

  function TextSummary(exitCode: int, text: string, importance: Line -> Importance): Summary {
    var segments := Segments(text);
    Compact(KeepSet(Importances(importance, segments), exitCode), segments)
  }

  /** The filter without window, watermark or abort: choose the lines, write everything, then decide. */
  function Reference(exitCode: int, text: string, importance: Line -> Importance): Action {
    Decide(Render(TextSummary(exitCode, text, importance), Style(PreferredNewline(text)).text), |text|)
  }

  // ---------------------------------------------------------------------------------------------
  // What that says of a text
  // ---------------------------------------------------------------------------------------------

  /** Line `j` is worth keeping and line `i` lies within one line of it, or three around a diagnostic of a failure. */
  predicate InReach(imps: seq<Importance>, exitCode: int, i: int, j: int)
    requires 0 <= j < |imps|
  {
    var c := if imps[j] == Diagnostic && exitCode != 0 then 3 else 1;
    imps[j] != Routine && -c <= i - j <= c
  }

  /** The first ten and the last sixteen lines are kept, and what is within reach of a line worth keeping. */
  lemma KeptExactlyWhen(imps: seq<Importance>, exitCode: int, i: nat)
    requires i < |imps|
    ensures KeepSet(imps, exitCode)[i] <==>
            i < 10 || i >= |imps| - 16 || exists j :: 0 <= j < |imps| && InReach(imps, exitCode, i, j)
  {
    forall j | 0 <= j < |imps| ensures Near(imps, exitCode, i, j) <==> InReach(imps, exitCode, i, j) {
    }
  }

  /** The newline of the markers is that of the first line. */
  lemma PreferredNewlineIsExact(text: string)
    ensures PreferredNewline(text) == "\r\n" <==>
            exists k :: 0 < k < |text| && text[k] == '\n' && text[k - 1] == '\r' && '\n' !in text[..k]
    ensures PreferredNewline(text) == "\r\n" || PreferredNewline(text) == "\n"
  {
    var first := FirstNewline(text);
    assert first < |text| ==> text[first] == '\n' && '\n' !in text[..first];
    forall k | 0 < k < |text| && text[k] == '\n' && '\n' !in text[..k] ensures first == k {
      assert forall i :: 0 <= i < k ==> text[..k][i] == text[i];
      NewlineIsFirst(text, k);
    }
  }

  /** What the classifier sees of a segment: neither its newline nor one carriage return before that. */
  lemma VisibleLineIsExact(segment: Line)
    ensures
      var visible := VisibleLine(segment);
      && (segment == visible || segment == visible + "\n" || segment == visible + "\r" || segment == visible + "\r\n")
      && (segment == visible ==> segment == "" || (segment[|segment| - 1] != '\n' && segment[|segment| - 1] != '\r'))
      && (segment == visible + "\n" ==> visible == "" || visible[|visible| - 1] != '\r')
  {
    var line := StripSuffix(segment, LF);
    assert line != segment ==> segment == line + "\n";
    assert VisibleLine(segment) != line ==> line == VisibleLine(segment) + "\r";
    assert line != segment && VisibleLine(segment) != line ==> segment == VisibleLine(segment) + "\r\n";
  }

  /** A marker says how many lines it stands for. */
  lemma MarkerIsExact(count: nat, newline: string) returns (digits: string)
    ensures Decimal.AllDigits(digits) && Decimal.Value(digits) == count
    ensures Marker(count, newline) ==
            "... " + digits + " routine Caveman diagnostic lines omitted by TokenSaver ..." + newline
  {
    digits := Decimal.Print(count);
    Decimal.PrintedValue(count);
  }

  /** The output is proposed exactly if it is at most four fifths of the text, and what may be proposed. */
  lemma ProposedExactlyWhen(output: string, inputLength: nat)
    ensures Decide(output, inputLength) ==
            if 5 * |output| <= 4 * inputLength && output != "" && '\0' !in output && |output| <= 0x100_0000
            then Optimize(output) else Pass
  {
  }

  // ---------------------------------------------------------------------------------------------
  // Window and watermark
  // ---------------------------------------------------------------------------------------------

  /** `Kept` restricted to what the first `seen` lines can tell. */
  predicate SeenKeep(imps: seq<Importance>, exitCode: int, seen: nat, i: nat) {
    || i < HEAD_LINES
    || exists j: nat :: j < seen && Near(imps, exitCode, i, j)
  }

  predicate Window(pending: seq<PendingLine>, segments: seq<Line>, imps: seq<Importance>, exitCode: int, seen: nat)
    requires |segments| == |imps|
  {
    && |pending| <= seen <= |segments|
    && forall k :: 0 <= k < |pending| ==>
         && pending[k].segment == segments[seen - |pending| + k]
         && pending[k].keep == SeenKeep(imps, exitCode, seen, seen - |pending| + k)
  }

  /** The watermark is the furthest line that the context of a seen line reaches. */
  predicate Watermark(keepThrough: nat, imps: seq<Importance>, exitCode: int, seen: nat)
    requires seen <= |imps|
  {
    && (forall j :: 0 <= j < seen && imps[j] != Routine ==> j + Context(imps[j], exitCode) <= keepThrough)
    && (keepThrough == 0 ||
        exists j :: 0 <= j < seen && imps[j] != Routine && j + Context(imps[j], exitCode) == keepThrough)
  }

  lemma WatermarkIsForwardContext(keepThrough: nat, imps: seq<Importance>, exitCode: int, i: nat)
    requires i < |imps| && Watermark(keepThrough, imps, exitCode, i)
    ensures (i < HEAD_LINES || i <= keepThrough) == SeenKeep(imps, exitCode, i, i)
  {
    if i >= HEAD_LINES && i <= keepThrough {
      var j :| 0 <= j < i && imps[j] != Routine && j + Context(imps[j], exitCode) == keepThrough;
      assert Near(imps, exitCode, i, j);
    }
  }

  lemma SeenOneMore(imps: seq<Importance>, exitCode: int, seen: nat, i: nat)
    requires seen < |imps|
    ensures SeenKeep(imps, exitCode, seen + 1, i) ==
            (SeenKeep(imps, exitCode, seen, i) || Near(imps, exitCode, i, seen))
  {
    if SeenKeep(imps, exitCode, seen + 1, i) && i >= HEAD_LINES && !Near(imps, exitCode, i, seen) {
      var j: nat :| j < seen + 1 && Near(imps, exitCode, i, j);
      assert j < seen;
    }
  }

  /** A line leaves the window with its final flag: context is shorter than the window. */
  lemma FlagIsFinal(imps: seq<Importance>, exitCode: int, seen: nat, i: nat)
    requires i + TAIL_LINES < seen <= |imps|
    ensures SeenKeep(imps, exitCode, seen, i) == Kept(imps, exitCode, i)
  {
    if Kept(imps, exitCode, i) && i >= HEAD_LINES {
      var j: nat :| j < |imps| && Near(imps, exitCode, i, j);
      assert j < seen;
    }
  }

  /** What leaves the window is the next line of the keep set; what stays is still a window. */
  lemma OldestIsFinal(pending: seq<PendingLine>, segments: seq<Line>, imps: seq<Importance>, exitCode: int, seen: nat)
    requires |segments| == |imps| && |pending| == TAIL_LINES + 1
    requires Window(pending, segments, imps, exitCode, seen)
    ensures
      var e := seen - |pending|;
      pending[0] == PendingLine(segments[e], KeepSet(imps, exitCode)[e])
    ensures Window(pending[1..], segments, imps, exitCode, seen)
  {
    FlagIsFinal(imps, exitCode, seen, seen - |pending|);
  }

  // ---------------------------------------------------------------------------------------------
  // Emission
  // ---------------------------------------------------------------------------------------------

  /** Tokens already written, closed by the run that is still being counted. */
  function Closed(tokens: Summary, omitted: nat): Summary {
    if omitted == 0 then tokens else Gap(tokens, omitted)
  }

  // ---------------------------------------------------------------------------------------------
  // The abort
  // ---------------------------------------------------------------------------------------------

  function RenderedSize(keep: seq<bool>, lines: seq<Line>, m: nat, style: MarkerStyle): nat
    requires |keep| == |lines| && m <= |lines|
  {
    |Render(CompactTo(keep, lines, m), style.text)|
  }

  /** Once line `m` is kept, later lines cannot shorten what has been written. */
  lemma {:induction false} KeptPrefixBound(keep: seq<bool>, lines: seq<Line>, m: nat, n: nat, style: MarkerStyle)
    requires |keep| == |lines| && m < n <= |lines| && keep[m]
    ensures RenderedSize(keep, lines, n, style) >= RenderedSize(keep, lines, m, style) + |lines[m]|
    ensures CompactTo(keep, lines, n).Gap? ==>
              |Render(CompactTo(keep, lines, n).before, style.text)|
              >= RenderedSize(keep, lines, m, style) + |lines[m]|
    decreases n
  {
    if m + 1 < n {
      KeptPrefixBound(keep, lines, m, n - 1, style);
    }
  }

  lemma KeptStep(keep: seq<bool>, lines: seq<Line>, m: nat, style: MarkerStyle)
    requires m < |keep| == |lines| && keep[m]
    ensures CompactTo(keep, lines, m + 1) == Summary.Kept(CompactTo(keep, lines, m), lines[m])
    ensures RenderedSize(keep, lines, m + 1, style) == RenderedSize(keep, lines, m, style) + |lines[m]|
  {
  }

  /** A tail of kept, nonempty lines adds at least one byte a line. */
  lemma {:induction false} KeptTailGrows(keep: seq<bool>, lines: seq<Line>, m: nat, n: nat, style: MarkerStyle)
    requires |keep| == |lines| && m <= n <= |lines|
    requires forall i :: m <= i < n ==> keep[i] && |lines[i]| > 0
    ensures RenderedSize(keep, lines, n, style) >= RenderedSize(keep, lines, m, style) + (n - m)
    decreases n
  {
    if m < n {
      KeptTailGrows(keep, lines, m, n - 1, style);
      KeptStep(keep, lines, n - 1, style);
    }
  }

  /** First ten and last sixteen lines are kept, and no line is empty. */
  predicate EndsKept(keep: seq<bool>, lines: seq<Line>)
    requires |keep| == |lines|
  {
    forall i :: 0 <= i < |keep| ==> |lines[i]| > 0 && (i < HEAD_LINES || i + TAIL_LINES >= |keep| ==> keep[i])
  }

  /** The size guard refuses either the marker of the open run or the line behind it. */
  predicate Overflows(tokens: Summary, omitted: nat, line: Line, style: MarkerStyle, limit: nat) {
    || (omitted > 0 && |Render(tokens, style.text)| + style.reserve > limit)
    || |Render(Closed(tokens, omitted), style.text)| + |line| > limit
  }

  /** Emitting line `e` onto these tokens runs into the size guard. */
  predicate Trips(keep: seq<bool>, lines: seq<Line>, e: nat, tokens: Summary, omitted: nat,
                  style: MarkerStyle, limit: nat)
    requires |keep| == |lines|
  {
    && e < |lines| && keep[e]
    && Closed(tokens, omitted) == CompactTo(keep, lines, e)
    && Overflows(tokens, omitted, lines[e], style, limit)
  }

  /** An open run ends in a dropped line, so sixteen kept lines are still to come. */
  lemma OpenRunIsBeforeTail(keep: seq<bool>, lines: seq<Line>, e: nat, tokens: Summary, omitted: nat)
    requires |keep| == |lines| && e < |lines| && omitted > 0 && EndsKept(keep, lines)
    requires Closed(tokens, omitted) == CompactTo(keep, lines, e)
    ensures e > HEAD_LINES && e + TAIL_LINES <= |keep|
  {
    assert CompactTo(keep, lines, e).Gap?;
  }

  /** Sixteen more bytes come out of the tail. */
  lemma TailBound(keep: seq<bool>, lines: seq<Line>, e: nat, style: MarkerStyle)
    requires |keep| == |lines| && EndsKept(keep, lines)
    requires e + TAIL_LINES <= |lines| && keep[e]
    ensures RenderedSize(keep, lines, |lines|, style) >= RenderedSize(keep, lines, e, style) + TAIL_LINES
  {
    var a := |lines| - TAIL_LINES;
    if e < a {
      KeptPrefixBound(keep, lines, e, a, style);
    }
    KeptTailGrows(keep, lines, a, |lines|, style);
  }

  lemma OpenRunBound(keep: seq<bool>, lines: seq<Line>, e: nat, tokens: Summary, omitted: nat,
                     style: MarkerStyle)
    requires |keep| == |lines| && EndsKept(keep, lines) && e < |lines| && keep[e] && omitted > 0 && style.Tight()
    requires Gap(tokens, omitted) == CompactTo(keep, lines, e)
    ensures |lines| > HEAD_LINES + TAIL_LINES
    ensures RenderedSize(keep, lines, |lines|, style) + 3 >= |Render(tokens, style.text)| + style.reserve
  {
    OpenRunIsBeforeTail(keep, lines, e, tokens, omitted);
    TailBound(keep, lines, e, style);
  }

  /** Where the guard trips, the finished output is within two bytes of the limit or beyond it. */
  lemma FullOutputIsLong(keep: seq<bool>, lines: seq<Line>, e: nat, tokens: Summary, omitted: nat,
                         style: MarkerStyle, limit: nat)
    requires |keep| == |lines| <= limit && EndsKept(keep, lines) && style.Tight()
    requires Trips(keep, lines, e, tokens, omitted, style, limit)
    ensures
      var size := RenderedSize(keep, lines, |lines|, style);
      size > limit || (size + 2 >= limit && limit > HEAD_LINES + TAIL_LINES)
  {
    if omitted > 0 && |Render(tokens, style.text)| + style.reserve > limit {
      OpenRunBound(keep, lines, e, tokens, omitted, style);
    } else {
      KeptPrefixBound(keep, lines, e, |lines|, style);
    }
  }

  /** Such an output fails the 80% test, or is too big for a proposal where the test saturates. */
  lemma LongOutputPasses(output: string, limit: nat)
    requires |output| > limit || (|output| + 2 >= limit && limit > HEAD_LINES + TAIL_LINES)
    ensures Decide(output, limit) == Pass
  {
  }

  lemma KeepSetEndsKept(imps: seq<Importance>, exitCode: int, lines: seq<Line>)
    requires |imps| == |lines|
    requires forall i :: 0 <= i < |lines| ==> |lines[i]| > 0
    ensures EndsKept(KeepSet(imps, exitCode), lines)
  {
  }

  /** When the size guard trips, the finished output would have been turned down anyway. No minimum size
      of the text is needed. */
  lemma AbortIsHarmless(keep: seq<bool>, lines: seq<Line>, e: nat, tokens: Summary, omitted: nat,
                        style: MarkerStyle, limit: nat)
    requires |keep| == |lines| <= limit && EndsKept(keep, lines) && style.Tight()
    requires Trips(keep, lines, e, tokens, omitted, style, limit)
    ensures Decide(Render(Compact(keep, lines), style.text), limit) == Pass
  {
    FullOutputIsLong(keep, lines, e, tokens, omitted, style, limit);
    LongOutputPasses(Render(CompactTo(keep, lines, |lines|), style.text), limit);
  }

  // ---------------------------------------------------------------------------------------------
  // The filter
  // ---------------------------------------------------------------------------------------------

  class Filter {
    var pending: seq<PendingLine>
    var output: string
    var omitted: nat
    var keepThrough: nat
    const style: MarkerStyle
    ghost var tokens: Summary

    ghost predicate Valid()
      reads this`output, this`tokens
    {
      && output == Render(tokens, style.text)
      && !tokens.Gap?
      && style.Tight()
    }

    /** What the lines emitted so far amount to. */
    ghost function Emitted(): Summary
      reads this`tokens, this`omitted
    {
      Closed(tokens, omitted)
    }

    constructor (style: MarkerStyle)
      requires style.Tight()
      ensures Valid() && Emitted() == Empty && omitted == 0
      ensures pending == [] && keepThrough == 0 && this.style == style
    {
      pending, output, omitted, keepThrough := [], [], 0, 0;
      this.style := style;
      tokens := Empty;
    }

    /** `memory(n)` says whether the allocator can grow the output to `n` bytes. */
    method ReserveOutput(additional: nat, maximum: nat, memory: nat -> bool) returns (ok: bool)
      ensures ok <==> |output| + additional <= maximum && |output| + additional <= USIZE_MAX
                      && memory(|output| + additional)
    {
      var required := |output| + additional;
      if required > USIZE_MAX {
        return false;
      }
      if required > maximum {
        return false;
      }
      return memory(required);
    }

    /** Writes the marker of the open run, if there is one. */
    method FlushMarker(maximum: nat, memory: nat -> bool) returns (ok: bool)
      requires Valid() && maximum <= USIZE_MAX
      modifies this`output, this`omitted, this`tokens
      ensures ok ==> omitted == 0 && tokens == old(Emitted()) && output == Render(tokens, style.text)
      ensures !ok && (forall n :: memory(n)) ==>
                old(omitted) > 0 && |Render(old(tokens), style.text)| + style.reserve > maximum
    {
      if omitted > 0 {
        ok := ReserveOutput(style.reserve, maximum, memory);
        if !ok {
          return;
        }
        output := output + style.text(omitted);
        tokens := Gap(tokens, omitted);
        omitted := 0;
      }
      ok := true;
    }

    method EmitLine(line: PendingLine, maximum: nat, memory: nat -> bool) returns (ok: bool)
      requires Valid() && omitted < USIZE_MAX && maximum <= USIZE_MAX
      modifies this`output, this`omitted, this`tokens
      ensures ok ==> Valid() && omitted <= old(omitted) + 1
      ensures ok ==> Emitted() == Extend(old(Emitted()), line.keep, line.segment)
      ensures !ok && (forall n :: memory(n)) ==>
                line.keep && Overflows(old(tokens), old(omitted), line.segment, style, maximum)
    {
      if !line.keep {
        omitted := Saturated(omitted + 1);
        return true;
      }
      var flushed := FlushMarker(maximum, memory);
      if !flushed {
        return false;
      }
      var fits := ReserveOutput(|line.segment|, maximum, memory);
      if !fits {
        return false;
      }
      output := output + line.segment;
      tokens := Summary.Kept(tokens, line.segment);
      return true;
    }

    /** Marks the last `context + 1` lines of the window. */
    method MarkBack(context: nat)
      modifies this`pending
      ensures |pending| == |old(pending)|
      ensures forall k :: 0 <= k < |pending| ==>
                && pending[k].segment == old(pending)[k].segment
                && pending[k].keep == (old(pending)[k].keep || k + context + 1 >= |pending|)
    {
      var k, taken := |pending|, 0;
      while k > 0 && taken < context + 1
        invariant 0 <= k <= |pending| == |old(pending)| && taken == |pending| - k
        invariant taken <= context + 1
        invariant forall x :: 0 <= x < k ==> pending[x] == old(pending)[x]
        invariant forall x :: k <= x < |pending| ==>
                    pending[x].keep && pending[x].segment == old(pending)[x].segment
      {
        k, taken := k - 1, taken + 1;
        pending := pending[k := pending[k].(keep := true)];
      }
    }

    /** One turn of the scan, up to the point where the oldest line may leave the window. */
    method PushLine(index: nat, segment: Line, importance: Importance, exitCode: int,
                    ghost segments: seq<Line>, ghost imps: seq<Importance>)
      requires |segments| == |imps| && index < |segments|
      requires segment == segments[index] && importance == imps[index]
      requires Window(pending, segments, imps, exitCode, index)
      requires Watermark(keepThrough, imps, exitCode, index)
      modifies this`pending, this`keepThrough
      ensures |pending| == |old(pending)| + 1
      ensures Window(pending, segments, imps, exitCode, index + 1)
      ensures Watermark(keepThrough, imps, exitCode, index + 1)
    {
      var context := Context(importance, exitCode);
      var keep := index < HEAD_LINES || index <= keepThrough || importance != Routine;
      WatermarkIsForwardContext(keepThrough, imps, exitCode, index);
      ghost var first := index - |pending|;
      pending := pending + [PendingLine(segment, keep)];
      if importance != Routine {
        MarkBack(context);
        keepThrough := if index + context > keepThrough then index + context else keepThrough;
      }
      forall k | 0 <= k < |pending|
        ensures pending[k].segment == segments[first + k]
        ensures pending[k].keep == SeenKeep(imps, exitCode, index + 1, first + k)
      {
        SeenOneMore(imps, exitCode, index, first + k);
      }
    }

    /** Emits line `e` of the list. A failure means the finished output would have been turned down. */
    method EmitNext(line: PendingLine, limit: nat, memory: nat -> bool,
                    ghost keep: seq<bool>, ghost lines: seq<Line>, ghost e: nat)
      returns (ok: bool)
      requires e < |keep| == |lines| <= limit < USIZE_MAX && EndsKept(keep, lines)
      requires line == PendingLine(lines[e], keep[e])
      requires Valid() && omitted <= e && Emitted() == CompactTo(keep, lines, e)
      modifies this`output, this`omitted, this`tokens
      ensures ok ==> Valid() && omitted <= e + 1 && Emitted() == CompactTo(keep, lines, e + 1)
      ensures !ok && (forall n :: memory(n)) ==> Decide(Render(Compact(keep, lines), style.text), limit) == Pass
    {
      ghost var before, counted := tokens, omitted;
      ok := EmitLine(line, limit, memory);
      if !ok && forall n :: memory(n) {
        AbortIsHarmless(keep, lines, e, before, counted, style, limit);
      }
    }

    /** Where the scan stands after `index` lines: the last sixteen of them wait in the window. */
    ghost predicate Progress(keep: seq<bool>, segments: seq<Line>, imps: seq<Importance>, exitCode: int, index: nat)
      requires |keep| == |segments| == |imps|
      reads this
    {
      && Valid() && index <= |segments|
      && |pending| == (if index <= TAIL_LINES then index else TAIL_LINES)
      && Window(pending, segments, imps, exitCode, index)
      && Watermark(keepThrough, imps, exitCode, index)
      && omitted <= index - |pending|
      && Emitted() == CompactTo(keep, segments, index - |pending|)
    }

    /** One turn of the loop over the segments. */
    method Advance(index: nat, segment: Line, importance: Importance, exitCode: int, limit: nat, memory: nat -> bool,
                   ghost segments: seq<Line>, ghost imps: seq<Importance>, ghost keep: seq<bool>)
      returns (ok: bool)
      requires index < |segments| == |imps| <= limit < USIZE_MAX
      requires segment == segments[index] && importance == imps[index]
      requires keep == KeepSet(imps, exitCode) && EndsKept(keep, segments)
      requires Progress(keep, segments, imps, exitCode, index)
      modifies this
      ensures ok ==> Progress(keep, segments, imps, exitCode, index + 1)
      ensures !ok && (forall n :: memory(n)) ==>
                Decide(Render(Compact(keep, segments), style.text), limit) == Pass
    {
      ghost var e := index - |pending|;
      PushLine(index, segment, importance, exitCode, segments, imps);
      if |pending| > TAIL_LINES {
        OldestIsFinal(pending, segments, imps, exitCode, index + 1);
        var oldest := pending[0];
        pending := pending[1..];
        ok := EmitNext(oldest, limit, memory, keep, segments, e);
      } else {
        ok := true;
      }
    }

    method Scan(segments: seq<Line>, importance: Line -> Importance, exitCode: int, limit: nat,
                memory: nat -> bool, ghost imps: seq<Importance>, ghost keep: seq<bool>)
      returns (ok: bool)
      requires |segments| <= limit < USIZE_MAX && imps == Importances(importance, segments)
      requires keep == KeepSet(imps, exitCode) && EndsKept(keep, segments)
      requires Progress(keep, segments, imps, exitCode, 0)
      modifies this
      ensures ok ==> Progress(keep, segments, imps, exitCode, |segments|)
      ensures !ok && (forall n :: memory(n)) ==>
                Decide(Render(Compact(keep, segments), style.text), limit) == Pass
    {
      var index := 0;
      while index < |segments|
        invariant index <= |segments| && Progress(keep, segments, imps, exitCode, index)
      {
        var importanceOfLine := importance(VisibleLine(segments[index]));
        ok := Advance(index, segments[index], importanceOfLine, exitCode, limit, memory, segments, imps, keep);
        if !ok {
          return;
        }
        index := index + 1;
      }
      ok := true;
    }

    /** The window is kept whole at the end of the text. */
    method Drain(limit: nat, memory: nat -> bool, ghost keep: seq<bool>, ghost segments: seq<Line>)
      returns (ok: bool)
      requires |pending| <= TAIL_LINES && |pending| <= |segments|
      requires |keep| == |segments| <= limit < USIZE_MAX && EndsKept(keep, segments)
      requires forall k :: 0 <= k < |pending| ==> pending[k].segment == segments[|segments| - |pending| + k]
      requires Valid() && omitted <= |segments| - |pending|
      requires Emitted() == CompactTo(keep, segments, |segments| - |pending|)
      modifies this`output, this`omitted, this`tokens
      ensures ok ==> Valid() && Emitted() == Compact(keep, segments)
      ensures !ok && (forall n :: memory(n)) ==>
                Decide(Render(Compact(keep, segments), style.text), limit) == Pass
    {
      var k := 0;
      ghost var start := |segments| - |pending|;
      while k < |pending|
        invariant k <= |pending| && Valid() && omitted <= start + k
        invariant Emitted() == CompactTo(keep, segments, start + k)
      {
        ok := EmitNext(pending[k].(keep := true), limit, memory, keep, segments, start + k);
        if !ok {
          return;
        }
        k := k + 1;
      }
      ok := true;
    }
  }

  /** `|text| <= ISIZE_MAX` is what Rust guarantees of every string slice. */
  method OptimizeEligibleOutput(exitCode: int, text: string, importance: Line -> Importance, memory: nat -> bool)
    returns (action: Action)
    requires |text| <= ISIZE_MAX
    ensures action == Pass || action == Reference(exitCode, text, importance)
    ensures (forall n :: memory(n)) ==> action == Reference(exitCode, text, importance)
  {
    var segments := Segments(text);
    SegmentsRejoin(text);
    ghost var imps := Importances(importance, segments);
    ghost var keep := KeepSet(imps, exitCode);
    KeepSetEndsKept(imps, exitCode, segments);
    var style := Style(PreferredNewline(text));
    StyleIsTight(PreferredNewline(text));
    var filter := new Filter(style);
    var ok := filter.Scan(segments, importance, exitCode, |text|, memory, imps, keep);
    if !ok {
      return Pass;
    }
    ok := filter.Drain(|text|, memory, keep, segments);
    if !ok {
      return Pass;
    }
    Conservation(keep, segments);
    assert filter.omitted == 0;
    if Saturated(|filter.output| * 100) > Saturated(|text| * (100 - REQUIRED_REDUCTION_PERCENT)) {
      return Pass;
    }
    return Proposal(filter.output);
  }

  /** What the summary behind every optimized output says about the text it came from. */
  lemma SummaryConservesText(exitCode: int, text: string, importance: Line -> Importance)
    ensures
      var s := TextSummary(exitCode, text, importance);
      && Normal(s)
      && !s.Gap?
      && |Expand(s)| == |Segments(text)|
      && KeptTotal(s) + GapTotal(s) == |Segments(text)|
      && Concat(Refill(s, Segments(text))) == text
  {
    var segments := Segments(text);
    Conservation(KeepSet(Importances(importance, segments), exitCode), segments);
    SegmentsRejoin(text);
  }
}
