/** The frames of the plugin protocol: a header that gives the length of the payload, a blank line and the
    payload. The Python, Go and Rust SDKs read them by the same loop under slightly different rules. Streams are
    strings of bytes, one character each. */
module Framing {
  import opened Bytes
  import Decimal

  const MAX_HEADER_BYTES: nat := 8_192

  datatype Header = Malformed | Other | Length(n: nat)

  /** How an SDK reads header lines: how many, how much of a line at once, up to which payload, whether an empty
      line may come before the length, whether a line without its end is refused at once, which lines are empty
      and what the others say, given whether the length is known already. */
  datatype Rules = Rules(
    lines: nat, lineLimit: Option<nat>, maxPayload: nat, skipsEmpty: bool, stopsAtPartial: bool,
    empty: string -> bool, parse: (string, bool) -> Header)

  /** How it cuts a line: whether the length may be repeated, whether only a bare line end is an empty line,
      whether the name may be followed by spaces, what counts as a space and which lines it can decode. */
  datatype Style = Style(
    maxPayload: nat, repeats: bool, bareEmpty: bool, padsName: bool, space: char -> bool, readable: string -> bool)

  predicate IsSpace(c: char) { c == ' ' || 9 as char <= c <= 13 as char }

  /** `str.strip` also takes the four separator controls for spaces. */
  predicate IsPythonSpace(c: char) { IsSpace(c) || 28 as char <= c <= 31 as char }

  function RulesOf(style: Style, lines: nat, lineLimit: Option<nat>, skipsEmpty: bool, stopsAtPartial: bool): Rules {
    Rules(lines, lineLimit, style.maxPayload, skipsEmpty, stopsAtPartial,
          (line: string) => IsEmpty(style, line), (line: string, known: bool) => ParseHeader(style, line, known))
  }

  function PythonStyle(readable: string -> bool): Style {
    Style(0x180_0000, true, false, true, IsPythonSpace, readable)
  }

  function GoStyle(): Style { Style(0x180_0000, true, false, true, IsSpace, (line: string) => true) }

  function RustStyle(readable: string -> bool): Style { Style(0x10_0000, false, true, false, IsSpace, readable) }

  function Python(readable: string -> bool): Rules {
    RulesOf(PythonStyle(readable), 33, Some(8_194), true, false)
  }

  function Go(): Rules { RulesOf(GoStyle(), 33, None, true, false) }

  function Rust(readable: string -> bool): Rules { RulesOf(RustStyle(readable), 32, Some(8_193), false, true) }

  // ---------------------------------------------------------------------------------------------
  // Header lines
  // ---------------------------------------------------------------------------------------------

  /** The position behind the line that starts at `pos`: behind its line end, or the end of the stream. */
  function LineEnd(s: string, pos: nat): (end: nat)
    requires pos <= |s|
    ensures pos <= end <= |s| && (pos < |s| ==> pos < end)
    decreases |s| - pos
  {
    if pos == |s| then pos else if s[pos] == '\n' then pos + 1 else LineEnd(s, pos + 1)
  }

  predicate IsLineEnd(c: char) { c == '\r' || c == '\n' }

  /** Where the trailing characters of a kind begin, among the first `k`. */
  function TrimEnd(s: string, k: nat, trims: char -> bool): (end: nat)
    requires k <= |s|
    ensures end <= k
  {
    if k == 0 || !trims(s[k - 1]) then k else TrimEnd(s, k - 1, trims)
  }

  function TrimStart(s: string, k: nat, trims: char -> bool): (start: nat)
    requires k <= |s|
    ensures k <= start <= |s|
    decreases |s| - k
  {
    if k == |s| || !trims(s[k]) then k else TrimStart(s, k + 1, trims)
  }

  function WithoutLineEnd(s: string): string { s[..TrimEnd(s, |s|, IsLineEnd)] }

  function Trim(s: string, space: char -> bool): string {
    var t := s[..TrimEnd(s, |s|, space)];
    t[TrimStart(t, 0, space)..]
  }

  function Colon(s: string, k: nat): (at: nat)
    requires k <= |s|
    ensures k <= at <= |s|
    decreases |s| - k
  {
    if k == |s| || s[k] == ':' then k else Colon(s, k + 1)
  }

  function LowerChar(c: char): char { if 'A' <= c <= 'Z' then c - 'A' + 'a' else c }

  function Lower(s: string): string { seq(|s|, i requires 0 <= i < |s| => LowerChar(s[i])) }

  const KEY := "Content-Length"

  predicate IsKey(name: string) { Lower(name) == "content-length" }

  /** The integer that a length denotes: digits behind at most one sign. */
  function ParseLength(value: string): Option<int> {
    var signed := value != "" && (value[0] == '+' || value[0] == '-');
    var digits := if signed then value[1..] else value;
    if digits == "" || !Decimal.AllDigits(digits) then None
    else Some(if signed && value[0] == '-' then -(Decimal.Value(digits) as int) else Decimal.Value(digits))
  }

  /** What a non-empty header line says. */
  function ParseHeader(style: Style, line: string, known: bool): Header {
    var text := if style.padsName then WithoutLineEnd(line) else Trim(line, style.space);
    var at := Colon(text, 0);
    if !style.readable(line) || at == |text| then Malformed
    else if !IsKey(if style.padsName then Trim(text[..at], style.space) else text[..at]) then Other
    else if known && !style.repeats then Malformed
    else
      match ParseLength(Trim(text[at + 1..], style.space))
      case None => Malformed
      case Some(n) => if 1 <= n <= style.maxPayload then Length(n) else Malformed
  }

  predicate IsEmpty(style: Style, line: string) {
    if style.bareEmpty then line == "\r\n" || line == "\n" else WithoutLineEnd(line) == ""
  }

  // ---------------------------------------------------------------------------------------------
  // Frames
  // ---------------------------------------------------------------------------------------------

  datatype Reading = Frame(payload: string, next: nat) | EndOfStream | Bad

  /** What a header line does: it ends the stream before a frame, spoils the frame, ends the header before a
      payload of this length, or is followed by another line, with what is then known of the length. */
  datatype Turn = Ends | Spoils | Opens(n: nat) | Continues(length: Option<nat>)

  /** What a line within the limit says. */
  function Said(rules: Rules, text: string, length: Option<nat>): Turn {
    if rules.empty(text) then
      match length
      case None => if rules.skipsEmpty then Continues(None) else Spoils
      case Some(n) => Opens(n)
    else
      match rules.parse(text, length.Some?)
      case Malformed => Spoils
      case Other => Continues(length)
      case Length(n) => Continues(Some(n))
  }

  /** The turn of the loop on the line `text`, after `line` lines of together `used` bytes. */
  function TurnOf(rules: Rules, text: string, line: nat, used: nat, length: Option<nat>): Turn {
    if text == "" then if line == 0 then Ends else Spoils
    else if used + |text| > MAX_HEADER_BYTES || text[|text| - 1] != '\n' then Spoils
    else Said(rules, text, length)
  }

  /** The rest of a frame, from the header line at `pos` on. */
  function ReadFrom(r: Rules, s: string, pos: nat, line: nat, used: nat, length: Option<nat>): Reading
    requires pos <= |s| && line <= r.lines
    decreases r.lines - line
  {
    if line == r.lines then Bad
    else
      var end := LineEnd(s, pos);
      match TurnOf(r, s[pos..end], line, used, length)
      case Ends => EndOfStream
      case Spoils => Bad
      case Opens(n) => if |s| - end < n then Bad else Frame(s[end..end + n], end + n)
      case Continues(next) => ReadFrom(r, s, end, line + 1, used + (end - pos), next)
  }

  function Read(r: Rules, s: string, pos: nat): Reading
    requires pos <= |s|
  {
    ReadFrom(r, s, pos, 0, 0, None)
  }

  function HeaderLine(key: string, n: nat): string { key + ": " + Decimal.Print(n) + "\r\n" }

  /** A frame as every SDK writes it. */
  function Written(key: string, payload: string): string { HeaderLine(key, |payload|) + ("\r\n" + payload) }

  /** Frames back to back. */
  function AllWritten(key: string, payloads: seq<string>): string {
    if payloads == [] then "" else Written(key, payloads[0]) + AllWritten(key, payloads[1..])
  }

  /** What a reader gets until the stream ends or a frame is bad. */
  datatype Readings = Clean(payloads: seq<string>) | Broken(payloads: seq<string>)

  predicate ParsesSoundly(r: Rules, line: string, known: bool) {
    match r.parse(line, known)
    case Length(n) => 1 <= n <= r.maxPayload
    case _ => true
  }

  /** Announced lengths are within their limit. */
  ghost predicate IsSound(r: Rules) { forall line, known :: ParsesSoundly(r, line, known) }

  lemma RulesAreSound(style: Style, lines: nat, lineLimit: Option<nat>, skipsEmpty: bool, stopsAtPartial: bool)
    ensures IsSound(RulesOf(style, lines, lineLimit, skipsEmpty, stopsAtPartial))
  {
  }

  predicate IsBounded(r: Rules, s: string, pos: nat, used: nat, reading: Reading) {
    reading.Frame? ==>
      && 1 <= |reading.payload| <= r.maxPayload
      && pos + |reading.payload| < reading.next <= |s|
      && used + (reading.next - pos) <= MAX_HEADER_BYTES + |reading.payload|
      && s[reading.next - |reading.payload|..reading.next] == reading.payload
  }

  /** A frame is never empty or longer than the rules allow, and its header stays within its limit, whatever the
      stream holds. */
  lemma {:induction false} FrameIsBounded(r: Rules, s: string, pos: nat, line: nat, used: nat, length: Option<nat>)
    requires IsSound(r) && pos <= |s| && line <= r.lines
    requires length.Some? ==> 1 <= length.value <= r.maxPayload
    ensures IsBounded(r, s, pos, used, ReadFrom(r, s, pos, line, used, length))
    decreases r.lines - line
  {
    if line < r.lines {
      var end := LineEnd(s, pos);
      assert ParsesSoundly(r, s[pos..end], length.Some?);
      match TurnOf(r, s[pos..end], line, used, length)
      case Continues(next) => FrameIsBounded(r, s, end, line + 1, used + (end - pos), next);
      case _ =>
    }
  }

  function ReadAll(r: Rules, s: string, pos: nat): Readings
    requires pos <= |s| && IsSound(r)
    decreases |s| - pos
  {
    FrameIsBounded(r, s, pos, 0, 0, None);
    match Read(r, s, pos)
    case EndOfStream => Clean([])
    case Bad => Broken([])
    case Frame(payload, next) =>
      match ReadAll(r, s, next)
      case Clean(payloads) => Clean([payload] + payloads)
      case Broken(payloads) => Broken([payload] + payloads)
  }

  // ---------------------------------------------------------------------------------------------
  // What is written can be read
  // ---------------------------------------------------------------------------------------------

  /** A name that no style trims or cuts. */
  predicate PlainKey(style: Style, key: string) {
    && IsKey(key) && key != ""
    && forall i :: 0 <= i < |key| ==> !style.space(key[i]) && key[i] != ':' && !IsLineEnd(key[i])
  }

  predicate Readable(style: Style, key: string, n: nat) { style.readable(HeaderLine(key, n)) }

  /** What the round trip needs of a style. */
  ghost predicate Usual(style: Style, key: string) {
    && style.maxPayload < U64_LIMIT && PlainKey(style, key) && |key| <= 100
    && style.space(' ') && style.space('\r') && style.space('\n')
    && (forall c :: Decimal.IsDigit(c) ==> !style.space(c))
    && forall n :: Readable(style, key, n)
  }

  lemma {:induction false} LineEndIs(s: string, pos: nat, end: nat)
    requires pos < end <= |s| && s[end - 1] == '\n' && forall i :: pos <= i < end - 1 ==> s[i] != '\n'
    ensures LineEnd(s, pos) == end
    decreases end - pos
  {
    if pos + 1 < end {
      LineEndIs(s, pos + 1, end);
    }
  }

  lemma {:induction false} ColonIs(s: string, k: nat, at: nat)
    requires k <= at < |s| && s[at] == ':' && forall i :: k <= i < at ==> s[i] != ':'
    ensures Colon(s, k) == at
    decreases at - k
  {
    if k < at {
      ColonIs(s, k + 1, at);
    }
  }

  lemma {:induction false} TrimEndIs(s: string, k: nat, end: nat, trims: char -> bool)
    requires end <= k <= |s| && (end > 0 ==> !trims(s[end - 1])) && forall i :: end <= i < k ==> trims(s[i])
    ensures TrimEnd(s, k, trims) == end
  {
    if k > end {
      TrimEndIs(s, k - 1, end, trims);
    }
  }

  lemma TrimIs(a: string, b: string, c: string, space: char -> bool)
    requires b != "" && !space(b[0]) && !space(b[|b| - 1])
    requires a == "" || (|a| == 1 && space(a[0]))
    requires forall i :: 0 <= i < |c| ==> space(c[i])
    ensures Trim(a + b + c, space) == b
  {
    var s := a + b + c;
    TrimEndIs(s, |s|, |a| + |b|, space);
    var t := s[..|a| + |b|];
    assert t == a + b;
    assert TrimStart(t, 0, space) == |a| by {
      assert t[|a|] == b[0];
      assert TrimStart(t, |a|, space) == |a|;
    }
    assert (a + b)[|a|..] == b;
  }

  lemma DigitsParse(n: nat)
    ensures ParseLength(Decimal.Print(n)) == Some(n)
  {
    Decimal.PrintedValue(n);
    assert Decimal.IsDigit(Decimal.Print(n)[0]);
  }

  /** Either way of cutting the line leaves the name, the colon, a space and the digits. */
  lemma LineIsCut(style: Style, key: string, n: nat)
    requires Usual(style, key)
    ensures WithoutLineEnd(HeaderLine(key, n)) == key + ": " + Decimal.Print(n)
    ensures Trim(HeaderLine(key, n), style.space) == key + ": " + Decimal.Print(n)
  {
    var digits := Decimal.Print(n);
    var text := key + ": " + digits;
    var line := HeaderLine(key, n);
    assert line == text + "\r\n" && line == "" + text + "\r\n";
    assert text[|text| - 1] == digits[|digits| - 1] && text[0] == key[0];
    assert Decimal.IsDigit(digits[|digits| - 1]);
    TrimEndIs(line, |line|, |text|, IsLineEnd);
    TrimIs("", text, "\r\n", style.space);
  }

  lemma HeaderIsParsed(style: Style, key: string, n: nat)
    requires Usual(style, key) && 1 <= n <= style.maxPayload
    ensures ParseHeader(style, HeaderLine(key, n), false) == Length(n)
  {
    var digits := Decimal.Print(n);
    var text := key + ": " + digits;
    LineIsCut(style, key, n);
    ColonIs(text, 0, |key|);
    assert text[..|key|] == key && text[|key| + 1..] == " " + digits + "";
    assert "" + key + "" == key;
    TrimIs("", key, "", style.space);
    TrimIs(" ", digits, "", style.space);
    DigitsParse(n);
    assert Readable(style, key, n);
  }

  /** A stretch of the stream. */
  predicate At(s: string, pos: nat, t: string) { pos + |t| <= |s| && s[pos..pos + |t|] == t }

  lemma AtParts(s: string, pos: nat, a: string, b: string)
    requires At(s, pos, a + b)
    ensures At(s, pos, a) && At(s, pos + |a|, b)
  {
    var t := s[pos..pos + |a + b|];
    assert t[..|a|] == a && t[|a|..] == b;
  }

  lemma LineAt(s: string, pos: nat, line: string)
    requires At(s, pos, line) && line != "" && line[|line| - 1] == '\n'
    requires forall i :: 0 <= i < |line| - 1 ==> line[i] != '\n'
    ensures LineEnd(s, pos) == pos + |line| && s[pos..LineEnd(s, pos)] == line
  {
    var t := s[pos..pos + |line|];
    assert forall i :: 0 <= i < |line| ==> t[i] == s[pos + i];
    LineEndIs(s, pos, pos + |line|);
  }

  lemma EmptyLineIsEmpty(style: Style)
    ensures IsEmpty(style, "\r\n")
  {
    TrimEndIs("\r\n", 2, 0, IsLineEnd);
  }

  lemma HeaderIsNotEmpty(style: Style, key: string, n: nat)
    requires Usual(style, key)
    ensures !IsEmpty(style, HeaderLine(key, n))
  {
    LineIsCut(style, key, n);
    assert |HeaderLine(key, n)| > 2;
  }

  lemma HeaderIsOneLine(style: Style, key: string, n: nat)
    requires Usual(style, key) && n < U64_LIMIT
    ensures
      var line := HeaderLine(key, n);
      line != "" && line[|line| - 1] == '\n' && |line| <= 200 && forall i :: 0 <= i < |line| - 1 ==> line[i] != '\n'
  {
    var digits := Decimal.Print(n);
    Decimal.U64IsTwentyDigits();
    Decimal.PrintedLength(n, 20);
    forall i | 0 <= i < |digits| ensures digits[i] != '\n' {
      assert Decimal.IsDigit(digits[i]);
    }
  }

  lemma BodyIsRead(r: Rules, s: string, pos: nat, line: nat, used: nat, payload: string)
    requires At(s, pos, "\r\n" + payload) && line < r.lines && used + 2 <= MAX_HEADER_BYTES && r.empty("\r\n")
    ensures ReadFrom(r, s, pos, line, used, Some(|payload|)) == Frame(payload, pos + 2 + |payload|)
  {
    AtParts(s, pos, "\r\n", payload);
    LineAt(s, pos, "\r\n");
  }

  lemma LineIsRead(r: Rules, s: string, pos: nat, line: string, n: nat)
    requires At(s, pos, line) && line != "" && line[|line| - 1] == '\n' && |line| <= MAX_HEADER_BYTES
    requires forall i :: 0 <= i < |line| - 1 ==> line[i] != '\n'
    requires r.lines > 0 && !r.empty(line) && r.parse(line, false) == Length(n)
    ensures Read(r, s, pos) == ReadFrom(r, s, pos + |line|, 1, |line|, Some(n))
  {
    LineAt(s, pos, line);
  }

  lemma TwoLinesAreRead(r: Rules, s: string, pos: nat, line: string, payload: string)
    requires At(s, pos, line + ("\r\n" + payload)) && line != "" && line[|line| - 1] == '\n' && |line| <= 200
    requires forall i :: 0 <= i < |line| - 1 ==> line[i] != '\n'
    requires r.lines >= 2 && !r.empty(line) && r.parse(line, false) == Length(|payload|) && r.empty("\r\n")
    ensures Read(r, s, pos) == Frame(payload, pos + |line| + 2 + |payload|)
  {
    AtParts(s, pos, line, "\r\n" + payload);
    LineIsRead(r, s, pos, line, |payload|);
    BodyIsRead(r, s, pos + |line|, 1, |line|, payload);
  }

  /** Rules that follow a style. */
  ghost predicate Follows(r: Rules, style: Style) {
    exists lineLimit, skipsEmpty, stopsAtPartial ::
      r == RulesOf(style, r.lines, lineLimit, skipsEmpty, stopsAtPartial)
  }

  /** A written frame is read back, wherever it stands and whatever follows. */
  lemma FrameIsRead(r: Rules, style: Style, key: string, s: string, pos: nat, payload: string)
    requires Follows(r, style) && r.lines >= 2 && Usual(style, key)
    requires 1 <= |payload| <= style.maxPayload && At(s, pos, Written(key, payload))
    ensures Read(r, s, pos) == Frame(payload, pos + |Written(key, payload)|)
  {
    var n := |payload|;
    HeaderIsOneLine(style, key, n);
    HeaderIsNotEmpty(style, key, n);
    HeaderIsParsed(style, key, n);
    EmptyLineIsEmpty(style);
    TwoLinesAreRead(r, s, pos, HeaderLine(key, n), payload);
  }

  lemma EndIsRead(r: Rules, s: string)
    requires r.lines > 0
    ensures Read(r, s, |s|) == EndOfStream
  {
    assert LineEnd(s, |s|) == |s| && s[|s|..|s|] == "";
  }

  lemma FirstThenRest(key: string, payloads: seq<string>, s: string, pos: nat)
    requires payloads != [] && pos <= |s| && s[pos..] == AllWritten(key, payloads)
    ensures
      var first := Written(key, payloads[0]);
      At(s, pos, first) && s[pos + |first|..] == AllWritten(key, payloads[1..])
  {
    var first := Written(key, payloads[0]);
    assert s[pos..][..|first|] == first;
    assert s[pos..][|first|..] == AllWritten(key, payloads[1..]);
  }

  lemma ReadAllOf(r: Rules, s: string, pos: nat, payload: string, next: nat, rest: seq<string>)
    requires IsSound(r) && pos <= |s| && Read(r, s, pos) == Frame(payload, next) && next <= |s|
    requires ReadAll(r, s, next) == Clean(rest)
    ensures ReadAll(r, s, pos) == Clean([payload] + rest)
  {
  }

  /** Frames written back to back are read back exactly, and then the stream ends cleanly. */
  lemma {:induction false} FramesAreRead(
      r: Rules, style: Style, key: string, payloads: seq<string>, s: string, pos: nat)
    requires Follows(r, style) && IsSound(r) && r.lines >= 2 && Usual(style, key)
    requires forall i :: 0 <= i < |payloads| ==> 1 <= |payloads[i]| <= style.maxPayload
    requires pos <= |s| && s[pos..] == AllWritten(key, payloads)
    ensures ReadAll(r, s, pos) == Clean(payloads)
    decreases |payloads|
  {
    if payloads == [] {
      EndIsRead(r, s);
    } else {
      FirstThenRest(key, payloads, s, pos);
      FrameIsRead(r, style, key, s, pos, payloads[0]);
      var next := pos + |Written(key, payloads[0])|;
      FramesAreRead(r, style, key, payloads[1..], s, next);
      ReadAllOf(r, s, pos, payloads[0], next, payloads[1..]);
      assert payloads == [payloads[0]] + payloads[1..];
    }
  }

  lemma KeyIsPlain(style: Style)
    requires style.space == IsSpace || style.space == IsPythonSpace
    ensures PlainKey(style, KEY) && |KEY| <= 100
  {
    assert Lower(KEY) == "content-length";
  }

  ghost predicate OfAnSdk(r: Rules, style: Style) {
    || (style == PythonStyle(style.readable) && r == Python(style.readable))
    || (style == GoStyle() && r == Go())
    || (style == RustStyle(style.readable) && r == Rust(style.readable))
  }

  /** Each SDK reads back exactly what any of them wrote. */
  lemma EverySdkReads(r: Rules, style: Style, payloads: seq<string>)
    requires OfAnSdk(r, style) && forall n :: Readable(style, KEY, n)
    requires forall i :: 0 <= i < |payloads| ==> 1 <= |payloads[i]| <= r.maxPayload
    ensures IsSound(r) && ReadAll(r, AllWritten(KEY, payloads), 0) == Clean(payloads)
  {
    var s := AllWritten(KEY, payloads);
    assert s[0..] == s;
    RulesAreSound(style, r.lines, r.lineLimit, r.skipsEmpty, r.stopsAtPartial);
    KeyIsPlain(style);
    assert Usual(style, KEY);
    FramesAreRead(r, style, KEY, payloads, s, 0);
  }
}
