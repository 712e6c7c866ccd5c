/** Splitting text at newlines the way Rust's `split_inclusive` and `lines` do. */
module TextLines {
  import opened LineSummary

  const LF: char := '\n'
  const CR: char := '\r'

  function FirstNewline(text: string): (k: nat)
    ensures k <= |text|
    ensures k < |text| ==> text[k] == LF
    ensures forall i :: 0 <= i < k ==> text[i] != LF
  {
    if text == [] || text[0] == LF then 0 else 1 + FirstNewline(text[1..])
  }

  function Concat(parts: seq<string>): string {
    if parts == [] then "" else parts[0] + Concat(parts[1..])
  }

  function Segments(text: string): seq<Line> {
    if text == [] then []
    else
      var k := FirstNewline(text);
      if k == |text| then [text] else [text[..k + 1]] + Segments(text[k + 1..])
  }

  function StripSuffix(line: Line, suffix: char): Line {
    if line != [] && line[|line| - 1] == suffix then line[..|line| - 1] else line
  }

  /** `lines()`: a carriage return goes only together with the newline behind it. */
  function LineText(segment: Line): Line {
    var line := StripSuffix(segment, LF);
    if line == segment then segment else StripSuffix(line, CR)
  }

  function Lines(text: string): (lines: seq<Line>)
    ensures |lines| == |Segments(text)|
  {
    var segments := Segments(text);
    seq(|segments|, i requires 0 <= i < |segments| => LineText(segments[i]))
  }

  /** Splitting loses nothing, and no segment is empty. */
  lemma {:induction false} SegmentsRejoin(text: string)
    ensures Concat(Segments(text)) == text
    ensures forall i :: 0 <= i < |Segments(text)| ==> Segments(text)[i] != []
    ensures |Segments(text)| <= |text|
  {
    if text != [] {
      var k := FirstNewline(text);
      if k == |text| {
        assert [text][1..] == [];
      } else {
        var rest := text[k + 1..];
        SegmentsRejoin(rest);
        assert ([text[..k + 1]] + Segments(rest))[1..] == Segments(rest);
        assert text == text[..k + 1] + rest;
      }
    }
  }

  /** Each part has a newline at most at its end, and each but the last has one there. */
  predicate AreLines(parts: seq<Line>) {
    && (forall i, p :: 0 <= i < |parts| && 0 <= p < |parts[i]| - 1 ==> parts[i][p] != '\n')
    && (forall i :: 0 <= i < |parts| ==> parts[i] != "")
    && (forall i :: 0 <= i < |parts| - 1 ==> parts[i][|parts[i]| - 1] == '\n')
  }

  lemma LineThenLines(first: Line, rest: seq<Line>)
    requires AreLines(rest) && first != "" && first[|first| - 1] == '\n'
    requires forall p :: 0 <= p < |first| - 1 ==> first[p] != '\n'
    ensures AreLines([first] + rest)
  {
  }

  /** Segments end behind the newlines of the text and nowhere else. */
  lemma {:induction false} SegmentsAreLines(text: string)
    ensures AreLines(Segments(text))
  {
    if text != [] {
      var k := FirstNewline(text);
      if k < |text| {
        SegmentsAreLines(text[k + 1..]);
        LineThenLines(text[..k + 1], Segments(text[k + 1..]));
      }
    }
  }

  lemma {:induction false} NewlineIsFirst(text: string, k: nat)
    requires k <= |text| && (k < |text| ==> text[k] == '\n') && forall i :: 0 <= i < k ==> text[i] != '\n'
    ensures FirstNewline(text) == k
  {
    if k > 0 {
      NewlineIsFirst(text[1..], k - 1);
    }
  }

  lemma FirstLineEnds(first: Line, rest: string, text: string)
    requires text == first + rest && first != "" && forall p :: 0 <= p < |first| - 1 ==> first[p] != '\n'
    requires first[|first| - 1] == '\n' || rest == ""
    ensures FirstNewline(text) == if first[|first| - 1] == '\n' then |first| - 1 else |text|
  {
    NewlineIsFirst(text, if first[|first| - 1] == '\n' then |first| - 1 else |text|);
  }

  /** That determines them: there is no other way to cut the text into lines. */
  lemma {:induction false} SplitIsUnique(parts: seq<Line>, text: string)
    requires AreLines(parts) && Concat(parts) == text
    ensures parts == Segments(text)
    decreases |parts|
  {
    if parts != [] {
      var first, rest := parts[0], parts[1..];
      assert parts == [first] + rest;
      assert AreLines(rest) by {
        assert forall i :: 0 <= i < |rest| ==> rest[i] == parts[i + 1];
      }
      assert first[|first| - 1] == '\n' || rest == [];
      FirstLineEnds(first, Concat(rest), text);
      if first[|first| - 1] == '\n' {
        SplitIsUnique(rest, Concat(rest));
        assert text[..|first|] == first && text[|first|..] == Concat(rest);
      } else {
        assert rest == [] && text == first + "" == first;
      }
    }
  }

  /** What `lines()` makes of a segment: it goes without its newline and a carriage return before that. */
  predicate IsLineOf(line: Line, segment: Line) {
    && '\n' !in line
    && (|| segment == line + "\r\n"
        || (segment == line + "\n" && (line == "" || line[|line| - 1] != '\r'))
        || segment == line)
  }

  lemma LineTextIsLine(segment: Line)
    requires segment != "" && forall p :: 0 <= p < |segment| - 1 ==> segment[p] != '\n'
    ensures IsLineOf(LineText(segment), segment)
  {
    var n := |segment|;
    var line := StripSuffix(segment, LF);
    if line != segment {
      assert segment == line + "\n";
      assert LineText(segment) != line ==> line == LineText(segment) + "\r";
      assert LineText(segment) != line ==> segment == LineText(segment) + "\r\n";
    }
  }

  /** Each segment yields its line. */
  lemma LinesAreExact(text: string)
    ensures |Lines(text)| == |Segments(text)|
    ensures forall i :: 0 <= i < |Lines(text)| ==> IsLineOf(Lines(text)[i], Segments(text)[i])
  {
    SegmentsAreLines(text);
    forall i | 0 <= i < |Lines(text)| ensures IsLineOf(Lines(text)[i], Segments(text)[i]) {
      LineTextIsLine(Segments(text)[i]);
    }
  }

  lemma LineIsDetermined(a: Line, b: Line, segment: Line)
    requires IsLineOf(a, segment) && IsLineOf(b, segment)
    ensures a == b
  {
    assert segment == a + "\r\n" ==> segment[..|segment| - 2] == a;
    assert segment == a + "\n" ==> segment[..|segment| - 1] == a;
    assert segment == b + "\r\n" ==> segment[..|segment| - 2] == b;
    assert segment == b + "\n" ==> segment[..|segment| - 1] == b;
  }

  lemma {:induction false} ConcatEndsInLast(parts: seq<string>)
    requires parts != []
    requires forall i :: 0 <= i < |parts| ==> parts[i] != ""
    ensures
      var all, last := Concat(parts), parts[|parts| - 1];
      all != "" && all[|all| - 1] == last[|last| - 1]
  {
    if |parts| > 1 {
      ConcatEndsInLast(parts[1..]);
    }
  }

  lemma LastSegmentEndsText(text: string)
    requires text != ""
    ensures Segments(text) != []
    ensures
      var last := Segments(text)[|Segments(text)| - 1];
      last != "" && last[|last| - 1] == text[|text| - 1]
  {
    SegmentsRejoin(text);
    ConcatEndsInLast(Segments(text));
  }
}
