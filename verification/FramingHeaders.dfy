/** Frames whose header has other lines besides the length. */
module FramingHeaders {
  import opened Bytes
  import opened Framing
  import Decimal

  /** A well-formed header line of another name, which no style trims or cuts differently. */
  predicate OtherName(style: Style, name: string) {
    && name != "" && Lower(name) != "content-length"
    && forall i :: 0 <= i < |name| ==> name[i] != ':' && name[i] != '\r' && name[i] != '\n' && !style.space(name[i])
  }

  predicate OtherValue(value: string) { forall i :: 0 <= i < |value| ==> value[i] != '\r' && value[i] != '\n' }

  function OtherLine(name: string, value: string): string { name + ":" + value + "\r\n" }

  /** A line that says nothing of the length. */
  predicate Passed(r: Rules, line: string) {
    && line != "" && line[|line| - 1] == '\n' && (forall i :: 0 <= i < |line| - 1 ==> line[i] != '\n')
    && !r.empty(line) && r.parse(line, false) == Other && r.parse(line, true) == Other
  }

  lemma {:induction false} TrimEndStops(s: string, k: nat, at: nat, trims: char -> bool)
    requires at < k <= |s| && !trims(s[at])
    ensures TrimEnd(s, k, trims) > at
  {
    if trims(s[k - 1]) {
      TrimEndStops(s, k - 1, at, trims);
    }
  }

  /** Either way of cutting the line leaves the name and the colon in front. */
  lemma OtherLineIsCut(style: Style, name: string, value: string)
    requires OtherName(style, name) && !style.space(':')
    ensures name + ":" <= WithoutLineEnd(OtherLine(name, value))
    ensures name + ":" <= Trim(OtherLine(name, value), style.space)
  {
    var line, n := OtherLine(name, value), |name|;
    assert line[..n + 1] == name + ":" && line[n] == ':' && line[0] == name[0];
    TrimEndStops(line, |line|, n, IsLineEnd);
    TrimEndStops(line, |line|, n, style.space);
    var t := line[..TrimEnd(line, |line|, style.space)];
    assert t[0] == name[0];
    assert TrimStart(t, 0, style.space) == 0;
    assert t[0..] == t;
  }

  lemma NameIsFound(name: string, text: string)
    requires ':' !in name && name + ":" <= text
    ensures Colon(text, 0) == |name| < |text| && text[..|name|] == name
  {
    assert text[..|name| + 1] == name + ":";
    assert forall i :: 0 <= i < |name| ==> text[i] == name[i];
    ColonIs(text, 0, |name|);
  }

  lemma NameIsTrimmed(style: Style, name: string)
    requires OtherName(style, name)
    ensures Trim(name, style.space) == name
  {
    assert "" + name + "" == name;
    TrimIs("", name, "", style.space);
  }

  /** Such a line is passed over, whether or not the length is known. */
  lemma OtherIsPassed(r: Rules, style: Style, name: string, value: string)
    requires Follows(r, style) && OtherName(style, name) && OtherValue(value) && !style.space(':')
    requires style.readable(OtherLine(name, value))
    ensures Passed(r, OtherLine(name, value))
  {
    var line := OtherLine(name, value);
    OtherLineIsCut(style, name, value);
    NameIsTrimmed(style, name);
    assert ':' !in name;
    NameIsFound(name, WithoutLineEnd(line));
    NameIsFound(name, Trim(line, style.space));
    assert line[0] == name[0] && |line| > 2;
    assert !IsKey(name);
  }

  function Joined(lines: seq<string>): string {
    if lines == [] then "" else lines[0] + Joined(lines[1..])
  }

  predicate AllPassed(r: Rules, lines: seq<string>) {
    forall i {:trigger Passed(r, lines[i])} :: 0 <= i < |lines| ==> Passed(r, lines[i])
  }

  /** A reader, as what it makes of a stream from a position on, after so many lines and bytes. */
  type Reader = (nat, nat, nat, Option<nat>) -> Reading

  function ReaderOf(r: Rules, s: string): Reader {
    (pos: nat, line: nat, used: nat, length: Option<nat>) =>
      if pos <= |s| && line <= r.lines then ReadFrom(r, s, pos, line, used, length) else Bad
  }

  /** What stands where in a stream. */
  type Stretch = (nat, string) -> bool

  function StretchOf(s: string): Stretch { (pos: nat, text: string) => At(s, pos, text) }

  predicate Splits(at: Stretch, pos: nat, a: string, b: string) {
    at(pos, a + b) ==> at(pos, a) && at(pos + |a|, b)
  }

  /** The reader gets behind the `count` lines of `text`, and knows `to` in place of `from` of the length. */
  predicate MovesAt(
      read: Reader, at: Stretch, lines: nat, text: string, count: nat, from: Option<nat>, to: Option<nat>, pos: nat,
      line: nat, used: nat)
  {
    at(pos, text) && line + count <= lines && used + |text| <= MAX_HEADER_BYTES ==>
      read(pos, line, used, from) == read(pos + |text|, line + count, used + |text|, to)
  }

  /** It does so wherever the text stands. */
  ghost predicate Moves(
      read: Reader, at: Stretch, lines: nat, text: string, count: nat, from: Option<nat>, to: Option<nat>)
  {
    forall pos: nat, line: nat, used: nat :: MovesAt(read, at, lines, text, count, from, to, pos, line, used)
  }

  /** A header line that gives the length. */
  predicate Gives(r: Rules, text: string, n: nat) {
    && text != "" && text[|text| - 1] == '\n' && (forall i :: 0 <= i < |text| - 1 ==> text[i] != '\n')
    && !r.empty(text) && r.parse(text, false) == Length(n)
  }

  /** What is used of the reader: it passes lines that say nothing of the length and learns it from one that does. */
  ghost predicate IsReader(read: Reader, at: Stretch, r: Rules) {
    && (forall pos: nat, a, b :: Splits(at, pos, a, b))
    && (forall text, length :: Passed(r, text) ==> Moves(read, at, r.lines, text, 1, length, length))
    && (forall text, n :: Gives(r, text, n) ==> Moves(read, at, r.lines, text, 1, None, Some(n)))
  }

  lemma OneMoves(
      read: Reader, at: Stretch, lines: nat, a: string, j: nat, b: string, k: nat, from: Option<nat>,
      mid: Option<nat>, to: Option<nat>, pos: nat, line: nat, used: nat)
    requires Splits(at, pos, a, b)
    requires MovesAt(read, at, lines, a, j, from, mid, pos, line, used)
    requires MovesAt(read, at, lines, b, k, mid, to, pos + |a|, line + j, used + |a|)
    ensures MovesAt(read, at, lines, a + b, j + k, from, to, pos, line, used)
  {
  }

  lemma BothMove(
      read: Reader, at: Stretch, r: Rules, a: string, j: nat, b: string, k: nat, text: string, count: nat,
      from: Option<nat>, mid: Option<nat>, to: Option<nat>)
    requires IsReader(read, at, r) && text == a + b && count == j + k
    requires Moves(read, at, r.lines, a, j, from, mid) && Moves(read, at, r.lines, b, k, mid, to)
    ensures Moves(read, at, r.lines, text, count, from, to)
  {
    forall pos: nat, line: nat, used: nat ensures MovesAt(read, at, r.lines, text, count, from, to, pos, line, used) {
      assert Splits(at, pos, a, b);
      OneMoves(read, at, r.lines, a, j, b, k, from, mid, to, pos, line, used);
    }
  }

  /** A run of lines that say nothing of the length leaves what is known of it. */
  lemma {:induction false} OthersMove(
      read: Reader, at: Stretch, r: Rules, lines: seq<string>, text: string, length: Option<nat>)
    requires IsReader(read, at, r) && AllPassed(r, lines) && text == Joined(lines)
    ensures Moves(read, at, r.lines, text, |lines|, length, length)
  {
    if lines != [] {
      var rest := lines[1..];
      assert Moves(read, at, r.lines, lines[0], 1, length, length);
      OthersMove(read, at, r, rest, Joined(rest), length);
      BothMove(read, at, r, lines[0], 1, Joined(rest), |rest|, text, |lines|, length, length, length);
    }
  }

  /** The lines of a header up to the empty one. */
  lemma HeaderMoves(
      read: Reader, at: Stretch, r: Rules, before: seq<string>, a: string, header: string, n: nat,
      behind: seq<string>, c: string, rest: string, text: string, count: nat)
    requires IsReader(read, at, r) && AllPassed(r, before) && Gives(r, header, n) && AllPassed(r, behind)
    requires a == Joined(before) && c == Joined(behind) && rest == header + c && text == a + rest
    requires count == |before| + (1 + |behind|)
    ensures Moves(read, at, r.lines, text, count, None, Some(n))
  {
    OthersMove(read, at, r, before, a, None);
    OthersMove(read, at, r, behind, c, Some(n));
    BothMove(read, at, r, header, 1, c, |behind|, rest, 1 + |behind|, None, Some(n), Some(n));
    BothMove(read, at, r, a, |before|, rest, 1 + |behind|, text, count, None, None, Some(n));
  }

  lemma StretchSplits(s: string, pos: nat, a: string, b: string)
    ensures Splits(StretchOf(s), pos, a, b)
  {
    if At(s, pos, a + b) {
      AtParts(s, pos, a, b);
    }
  }

  lemma PassedMoves(r: Rules, s: string, text: string, length: Option<nat>)
    requires Passed(r, text)
    ensures Moves(ReaderOf(r, s), StretchOf(s), r.lines, text, 1, length, length)
  {
    forall pos: nat, line: nat, used: nat
      ensures MovesAt(ReaderOf(r, s), StretchOf(s), r.lines, text, 1, length, length, pos, line, used)
    {
      if At(s, pos, text) && line + 1 <= r.lines && used + |text| <= MAX_HEADER_BYTES {
        LineAt(s, pos, text);
      }
    }
  }

  lemma LengthMoves(r: Rules, s: string, text: string, n: nat)
    requires Gives(r, text, n)
    ensures Moves(ReaderOf(r, s), StretchOf(s), r.lines, text, 1, None, Some(n))
  {
    forall pos: nat, line: nat, used: nat
      ensures MovesAt(ReaderOf(r, s), StretchOf(s), r.lines, text, 1, None, Some(n), pos, line, used)
    {
      if At(s, pos, text) && line + 1 <= r.lines && used + |text| <= MAX_HEADER_BYTES {
        LineAt(s, pos, text);
      }
    }
  }

  lemma ReaderIsReader(r: Rules, s: string)
    ensures IsReader(ReaderOf(r, s), StretchOf(s), r)
  {
    forall pos: nat, a, b ensures Splits(StretchOf(s), pos, a, b) {
      StretchSplits(s, pos, a, b);
    }
    forall text, length | Passed(r, text)
      ensures Moves(ReaderOf(r, s), StretchOf(s), r.lines, text, 1, length, length)
    {
      PassedMoves(r, s, text, length);
    }
    forall text, n | Gives(r, text, n) ensures Moves(ReaderOf(r, s), StretchOf(s), r.lines, text, 1, None, Some(n)) {
      LengthMoves(r, s, text, n);
    }
  }

  /** A header, the empty line and the payload. */
  lemma PayloadIsRead(r: Rules, s: string, pos: nat, header: string, count: nat, payload: string)
    requires MovesAt(ReaderOf(r, s), StretchOf(s), r.lines, header, count, None, Some(|payload|), pos, 0, 0)
    requires At(s, pos, header + ("\r\n" + payload)) && r.empty("\r\n")
    requires count < r.lines && |header| + 2 <= MAX_HEADER_BYTES
    ensures Read(r, s, pos) == Frame(payload, pos + |header| + 2 + |payload|)
  {
    AtParts(s, pos, header, "\r\n" + payload);
    BodyIsRead(r, s, pos + |header|, count, |header|, payload);
  }

  lemma HeaderGives(r: Rules, style: Style, key: string, n: nat)
    requires Follows(r, style) && Usual(style, key) && 1 <= n <= style.maxPayload
    ensures Gives(r, HeaderLine(key, n), n) && r.empty("\r\n")
  {
    HeaderIsOneLine(style, key, n);
    HeaderIsNotEmpty(style, key, n);
    HeaderIsParsed(style, key, n);
    EmptyLineIsEmpty(style);
  }

  /** A header with other lines before and behind the length. */
  function HeaderWith(before: seq<string>, key: string, n: nat, behind: seq<string>): string {
    Joined(before) + (HeaderLine(key, n) + Joined(behind))
  }

  /** A frame with such a header is read back wherever it stands and whatever follows, as long as the header keeps
      within the limits. */
  lemma FrameWithOthersIsRead(
      r: Rules, style: Style, key: string, s: string, pos: nat, before: seq<string>, behind: seq<string>,
      payload: string)
    requires Follows(r, style) && Usual(style, key) && AllPassed(r, before) && AllPassed(r, behind)
    requires 1 <= |payload| <= style.maxPayload && |before| + |behind| + 2 <= r.lines
    requires |HeaderWith(before, key, |payload|, behind)| + 2 <= MAX_HEADER_BYTES
    requires At(s, pos, HeaderWith(before, key, |payload|, behind) + ("\r\n" + payload))
    ensures Read(r, s, pos) ==
            Frame(payload, pos + |HeaderWith(before, key, |payload|, behind)| + 2 + |payload|)
  {
    var n := |payload|;
    HeaderGives(r, style, key, n);
    ReaderIsReader(r, s);
    var read, at := ReaderOf(r, s), StretchOf(s);
    var rest, text := HeaderLine(key, n) + Joined(behind), HeaderWith(before, key, n, behind);
    var count := |before| + (1 + |behind|);
    HeaderMoves(
      read, at, r, before, Joined(before), HeaderLine(key, n), n, behind, Joined(behind), rest, text, count);
    assert MovesAt(read, at, r.lines, text, count, None, Some(n), pos, 0, 0);
    PayloadIsRead(r, s, pos, text, count, payload);
  }

  /** A frame, byte by byte. */
  lemma KnownFrame()
    ensures Written(KEY, "[]") == "Content-Length: 2\r\n\r\n[]"
  {
    assert Decimal.Print(2) == "2";
  }

  /** A frame that is cut short anywhere but before its first byte is refused: it is neither a frame nor the end. */
  lemma TruncatedIsBad(r: Rules, style: Style, key: string, payload: string, k: nat)
    requires Follows(r, style) && Usual(style, key) && 1 <= |payload| <= style.maxPayload && r.lines >= 2
    requires 0 < k < |Written(key, payload)|
    ensures Read(r, Written(key, payload)[..k], 0) == Bad
  {
    HeaderIsOneLine(style, key, |payload|);
    HeaderGives(r, style, key, |payload|);
    CutIsBad(r, HeaderLine(key, |payload|), payload, k);
  }

  lemma CutIsBad(r: Rules, header: string, payload: string, k: nat)
    requires Gives(r, header, |payload|) && |header| <= 200 && r.lines >= 2 && r.empty("\r\n")
    requires 0 < k < |header + ("\r\n" + payload)|
    ensures Read(r, (header + ("\r\n" + payload))[..k], 0) == Bad
  {
    var s := (header + ("\r\n" + payload))[..k];
    if k < |header| {
      assert s == header[..k];
      NoLineIsBad(r, s, 0, 0, 0, None);
    } else {
      var tail := ("\r\n" + payload)[..k - |header|];
      assert s == header + tail;
      AtTheEnd(header, tail);
      LineIsRead(r, s, 0, header, |payload|);
      TailIsBad(r, s, |header|, |header|, payload, k - |header|);
    }
  }

  lemma AtTheEnd(a: string, b: string)
    ensures At(a + b, 0, a) && (a + b)[|a|..] == b
  {
  }

  lemma {:induction false} NoLineEnd(s: string, pos: nat)
    requires pos <= |s| && forall i :: pos <= i < |s| ==> s[i] != '\n'
    ensures LineEnd(s, pos) == |s|
    decreases |s| - pos
  {
    if pos < |s| {
      NoLineEnd(s, pos + 1);
    }
  }

  /** A last line without its end. */
  lemma NoLineIsBad(r: Rules, s: string, pos: nat, line: nat, used: nat, length: Option<nat>)
    requires pos <= |s| && line < r.lines && (pos == |s| ==> line > 0) && forall i :: pos <= i < |s| ==> s[i] != '\n'
    ensures ReadFrom(r, s, pos, line, used, length) == Bad
  {
    NoLineEnd(s, pos);
    assert s[pos..] == s[pos..|s|];
    assert pos < |s| ==> s[pos..|s|][|s| - pos - 1] == s[|s| - 1];
  }

  lemma TailIsBad(r: Rules, s: string, pos: nat, used: nat, payload: string, k: nat)
    requires pos <= |s| && k < 2 + |payload| && s[pos..] == ("\r\n" + payload)[..k]
    requires r.lines >= 2 && r.empty("\r\n") && used + 2 <= MAX_HEADER_BYTES
    ensures ReadFrom(r, s, pos, 1, used, Some(|payload|)) == Bad
  {
    if k < 2 {
      forall i | pos <= i < |s| ensures s[i] != '\n' {
        assert s[i] == s[pos..][i - pos];
      }
      NoLineIsBad(r, s, pos, 1, used, Some(|payload|));
    } else {
      assert s[pos..][..2] == "\r\n";
      assert s[pos..pos + 2] == s[pos..][..2];
      LineAt(s, pos, "\r\n");
    }
  }

  /** The numbers that a length may denote: digits behind at most one sign. */
  lemma LengthIsExact(value: string, n: int)
    ensures ParseLength(value) == Some(n) <==>
            exists digits: string :: Denotes(value, digits, n)
  {
    if ParseLength(value) == Some(n) {
      var signed := value[0] == '+' || value[0] == '-';
      var digits := if signed then value[1..] else value;
      assert Denotes(value, digits, n);
    }
    forall digits: string | Denotes(value, digits, n) ensures ParseLength(value) == Some(n) {
      assert value != digits ==> value[1..] == digits;
      assert Decimal.IsDigit(digits[0]);
    }
  }

  predicate Denotes(value: string, digits: string, n: int) {
    && digits != "" && Decimal.AllDigits(digits)
    && (((value == digits || value == "+" + digits) && n == Decimal.Value(digits))
        || (value == "-" + digits && n == -(Decimal.Value(digits) as int)))
  }

  /** A second length is refused by Rust; Python and Go take the last. */
  lemma SecondLength(style: Style, key: string, n: nat)
    requires Usual(style, key) && 1 <= n <= style.maxPayload
    ensures ParseHeader(style, HeaderLine(key, n), true) == if style.repeats then Length(n) else Malformed
    ensures !RustStyle(style.readable).repeats && PythonStyle(style.readable).repeats && GoStyle().repeats
  {
    HeaderIsParsed(style, key, n);
  }
}
