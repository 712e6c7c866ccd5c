/** The two-pass DeepSeek Harness line filter: marks a `bool` array in place, then writes the marked lines
    and a counted marker for every run between them. */
module Harness {
  import opened Actions
  import opened Bytes
  import opened LineSummary
  import opened TextLines
  import Decimal

  const HEAD_LINES: nat := 12
  const TAIL_LINES: nat := 20

  /** Everything the two passes depend on besides the lines: the word classifiers and the exit code. */
  datatype Rules = Rules(summary: Line -> bool, diagnostic: (Line, bool) -> bool, exitCode: int) {
    function Context(): nat { if exitCode == 0 then 1 else 3 }

    /** Line `j` makes line `i` worth keeping. */
    predicate Near(lines: seq<Line>, i: nat, j: nat)
      requires j < |lines|
    {
      || (summary(lines[j]) && i <= j + 1 && j <= i + 1)
      || (diagnostic(lines[j], exitCode != 0) && i <= j + Context() && j <= i + Context())
    }

    predicate Kept(lines: seq<Line>, i: nat) {
      || i < HEAD_LINES
      || i + TAIL_LINES >= |lines|
      || exists j: nat :: j < |lines| && Near(lines, i, j)
    }

    predicate SeenKeep(lines: seq<Line>, seen: nat, i: nat)
      requires seen <= |lines|
    {
      || i < HEAD_LINES
      || i + TAIL_LINES >= |lines|
      || exists j: nat :: j < seen && Near(lines, i, j)
    }

    function KeepSet(lines: seq<Line>): (keep: seq<bool>)
      ensures |keep| == |lines|
      ensures forall i :: 0 <= i < |lines| ==> keep[i] == Kept(lines, i)
    {
      seq(|lines|, i requires 0 <= i < |lines| => Kept(lines, i))
    }
  }

  function Marker(count: nat): string {
    "... " + Decimal.Print(count) + " routine DeepSeek Harness lines omitted by TokenSaver ..."
  }

  function Markers(): nat -> string {
    (count: nat) => Marker(count)
  }

  /** The summary with a newline behind every line and marker. */
  function RenderLines(s: Summary, marker: nat -> string): string {
    match s
    case Empty => ""
    case Kept(before, line) => RenderLines(before, marker) + (line + [LF])
    case Gap(before, count) => RenderLines(before, marker) + (marker(count) + [LF])
  }

  predicate EndsWithNewline(text: string) { text != "" && text[|text| - 1] == LF }

  function WithoutLast(text: string): string { if text == "" then "" else text[..|text| - 1] }

  function Decide(text: string, compact: string): Action {
    var output := if EndsWithNewline(text) then compact else WithoutLast(compact);
    if Saturated(|output| * 100) >= Saturated(|text| * 80) then Pass else Proposal(output)
  }

  function HarnessSummary(rules: Rules, text: string): Summary {
    Compact(rules.KeepSet(Lines(text)), Lines(text))
  }

  function Reference(rules: Rules, text: string): Action {
    if |Lines(text)| <= HEAD_LINES + TAIL_LINES + 1 then Pass
    else Decide(text, RenderLines(HarnessSummary(rules, text), Markers()))
  }

  /** The first twelve and the last twenty lines are kept, lines next to a summary, and lines within one of a
      diagnostic, or within three after a failure. */
  lemma KeptExactlyWhen(rules: Rules, lines: seq<Line>, i: nat)
    requires i < |lines|
    ensures rules.KeepSet(lines)[i] <==>
            || i < 12 || i >= |lines| - 20
            || exists j :: 0 <= j < |lines| && InReach(rules, lines, i, j)
  {
    forall j | 0 <= j < |lines| ensures rules.Near(lines, i, j) <==> InReach(rules, lines, i, j) {
    }
  }

  predicate InReach(rules: Rules, lines: seq<Line>, i: int, j: int)
    requires 0 <= j < |lines|
  {
    var c := if rules.exitCode == 0 then 1 else 3;
    || (rules.summary(lines[j]) && -1 <= i - j <= 1)
    || (rules.diagnostic(lines[j], rules.exitCode != 0) && -c <= i - j <= c)
  }

  /** The output, without its last newline if the text has none, is proposed exactly if it is less than four fifths of
      the text, and what may be proposed. */
  lemma ProposedExactlyWhen(text: string, compact: string)
    ensures
      var ends := text != "" && text[|text| - 1] == '\n';
      var output := if ends || compact == "" then compact else compact[..|compact| - 1];
      Decide(text, compact) ==
        if 5 * |output| < 4 * |text| && output != "" && '\0' !in output && |output| <= 0x100_0000
        then Optimize(output) else Pass
  {
  }

  lemma MarkerIsExact(count: nat) returns (digits: string)
    ensures Decimal.AllDigits(digits) && Decimal.Value(digits) == count
    ensures Marker(count) == "... " + digits + " routine DeepSeek Harness lines omitted by TokenSaver ..."
  {
    digits := Decimal.Print(count);
    Decimal.PrintedValue(count);
  }

  /** Every call the two passes make is in bounds. */
  method MarkRange(keep: array<bool>, start: nat, end: nat)
    requires start <= end <= keep.Length
    modifies keep
    ensures forall i :: 0 <= i < keep.Length ==> keep[i] == (old(keep[i]) || start <= i < end)
  {
    for k := start to end
      invariant forall i :: 0 <= i < keep.Length ==> keep[i] == (old(keep[i]) || start <= i < k)
    {
      keep[k] := true;
    }
  }

  /** Marks the lines that line `index` makes worth keeping. */
  method MarkAround(keep: array<bool>, rules: Rules, lines: seq<Line>, index: nat)
    requires index < |lines| == keep.Length
    modifies keep
    ensures forall i :: 0 <= i < keep.Length ==> keep[i] == (old(keep[i]) || rules.Near(lines, i, index))
  {
    if rules.summary(lines[index]) {
      MarkRange(keep, if index == 0 then 0 else index - 1,
                if index + 2 < |lines| then index + 2 else |lines|);
    }
    if rules.diagnostic(lines[index], rules.exitCode != 0) {
      var context := rules.Context();
      MarkRange(keep, if index < context then 0 else index - context,
                if index + context + 1 < |lines| then index + context + 1 else |lines|);
    }
  }

  lemma SeenOneMore(rules: Rules, lines: seq<Line>, seen: nat, i: nat)
    requires seen < |lines|
    ensures rules.SeenKeep(lines, seen + 1, i) == (rules.SeenKeep(lines, seen, i) || rules.Near(lines, i, seen))
  {
    if rules.SeenKeep(lines, seen + 1, i) && !(i < HEAD_LINES || i + TAIL_LINES >= |lines|) {
      var j: nat :| j < seen + 1 && rules.Near(lines, i, j);
      assert j < seen || j == seen;
    }
  }

  method Mark(rules: Rules, lines: seq<Line>) returns (keep: array<bool>)
    requires |lines| > HEAD_LINES + TAIL_LINES
    ensures fresh(keep) && keep[..] == rules.KeepSet(lines)
  {
    keep := new bool[|lines|](_ => false);
    MarkRange(keep, 0, HEAD_LINES);
    MarkRange(keep, |lines| - TAIL_LINES, |lines|);
    var index := 0;
    while index < |lines|
      invariant index <= |lines| == keep.Length
      invariant forall i :: 0 <= i < keep.Length ==> keep[i] == rules.SeenKeep(lines, index, i)
    {
      ghost var before := keep[..];
      MarkAround(keep, rules, lines, index);
      forall i | 0 <= i < keep.Length ensures keep[i] == rules.SeenKeep(lines, index + 1, i) {
        assert before[i] == rules.SeenKeep(lines, index, i);
        SeenOneMore(rules, lines, index, i);
      }
      index := index + 1;
    }
  }

  /** A run of dropped lines behind anything but a run is one marker. */
  lemma {:induction false} RunIsOneGap(keep: seq<bool>, lines: seq<Line>, start: nat, end: nat)
    requires start < end <= |keep| == |lines|
    requires forall i :: start <= i < end ==> !keep[i]
    requires !CompactTo(keep, lines, start).Gap?
    ensures CompactTo(keep, lines, end) == Gap(CompactTo(keep, lines, start), end - start)
    decreases end
  {
    if start + 1 < end {
      RunIsOneGap(keep, lines, start, end - 1);
    }
  }

  function PushLine(output: string, line: string): string {
    output + (line + [LF])
  }

  method Write(keep: array<bool>, lines: seq<Line>, marker: nat -> string) returns (compact: string)
    requires keep.Length == |lines|
    ensures compact == RenderLines(Compact(keep[..], lines), marker)
  {
    compact := "";
    var index := 0;
    ghost var marks := keep[..];
    while index < |lines|
      invariant index <= |lines| == |marks| && marks == keep[..]
      invariant compact == RenderLines(CompactTo(marks, lines, index), marker)
      invariant CompactTo(marks, lines, index).Gap? ==> index == |lines| || keep[index]
    {
      if keep[index] {
        compact := PushLine(compact, lines[index]);
        index := index + 1;
        continue;
      }
      var start := index;
      while index < |lines| && !keep[index]
        invariant start <= index <= |lines|
        invariant forall i :: start <= i < index ==> !keep[i]
      {
        index := index + 1;
      }
      RunIsOneGap(marks, lines, start, index);
      compact := PushLine(compact, marker(index - start));
    }
  }

  method OptimizeHarnessOutput(rules: Rules, text: string) returns (action: Action)
    ensures action == Reference(rules, text)
  {
    var lines := Lines(text);
    if |lines| <= HEAD_LINES + TAIL_LINES + 1 {
      return Pass;
    }
    var keep := Mark(rules, lines);
    var compact := Write(keep, lines, Markers());
    if !EndsWithNewline(text) {
      compact := WithoutLast(compact);
    }
    if Saturated(|compact| * 100) >= Saturated(|text| * 80) {
      return Pass;
    }
    return Proposal(compact);
  }

  /** The law of the one-pass filter holds here on the sequence `lines()` yields. */
  lemma SummaryConservesLines(rules: Rules, text: string)
    ensures
      var s := HarnessSummary(rules, text);
      && Normal(s)
      && !s.Gap?
      && |Expand(s)| == |Lines(text)|
      && Refill(s, Lines(text)) == Lines(text)
      && KeptTotal(s) + GapTotal(s) == |Lines(text)|
  {
    Conservation(rules.KeepSet(Lines(text)), Lines(text));
  }

  /** An optimized output ends in a newline exactly when the text does. */
  lemma FinalNewlineIsPreserved(rules: Rules, text: string)
    requires Reference(rules, text).Optimize?
    ensures EndsWithNewline(Reference(rules, text).content) == EndsWithNewline(text)
  {
    var lines := Lines(text);
    var s := HarnessSummary(rules, text);
    Conservation(rules.KeepSet(lines), lines);
    var last := lines[|lines| - 1];
    var body := RenderLines(s.before, Markers());
    assert RenderLines(s, Markers()) == body + (last + [LF]);
    if !EndsWithNewline(text) {
      LastLineHasNoNewline(text);
      assert WithoutLast(body + (last + [LF])) == body + last;
      assert (body + last)[|body + last| - 1] == last[|last| - 1];
    }
  }

  lemma LastLineHasNoNewline(text: string)
    requires text != "" && text[|text| - 1] != LF
    ensures Lines(text) != []
    ensures
      var last := Lines(text)[|Lines(text)| - 1];
      last != "" && last[|last| - 1] != LF
  {
    LastSegmentEndsText(text);
  }
}
