/** What an omission-marked summary of a list of lines is: kept lines in order, and one marker with a
    count for every maximal run of dropped lines. Both line filters are proved against `Compact`. */
module LineSummary {
  import opened Bytes

  /** One character stands for one byte of UTF-8 text. */
  type Line = string

  /** A summary, read from its end backwards. */
  datatype Summary = Empty | Kept(before: Summary, line: Line) | Gap(before: Summary, count: nat)

  /** One more line at the end: kept, or added to the run that is open at the end. */
  function Extend(s: Summary, keep: bool, line: Line): Summary {
    if keep then Kept(s, line)
    else if s.Gap? then Gap(s.before, s.count + 1)
    else Gap(s, 1)
  }

  /** The summary of the first `m` lines. */
  function CompactTo(keep: seq<bool>, lines: seq<Line>, m: nat): Summary
    requires m <= |keep| == |lines|
  {
    if m == 0 then Empty else Extend(CompactTo(keep, lines, m - 1), keep[m - 1], lines[m - 1])
  }

  function Compact(keep: seq<bool>, lines: seq<Line>): Summary
    requires |keep| == |lines|
  {
    CompactTo(keep, lines, |lines|)
  }

  /** No empty marker, and no two markers side by side. */
  predicate Normal(s: Summary) {
    match s
    case Empty => true
    case Kept(before, _) => Normal(before)
    case Gap(before, count) => count > 0 && !before.Gap? && Normal(before)
  }

  /** Every line a summary stands for: `None` for a dropped one. */
  function Expand(s: Summary): seq<Option<Line>> {
    match s
    case Empty => []
    case Kept(before, line) => Expand(before) + [Some(line)]
    case Gap(before, count) => Expand(before) + seq(count, _ => None)
  }

  /** The input with its dropped lines blanked out. */
  function Masked(keep: seq<bool>, lines: seq<Line>): (r: seq<Option<Line>>)
    requires |keep| == |lines|
    ensures |r| == |lines|
  {
    seq(|lines|, i requires 0 <= i < |lines| => if keep[i] then Some(lines[i]) else None)
  }

  /** Puts `count` lines of the input back for every marker and the kept line for every other part. */
  function Refill(s: Summary, lines: seq<Line>): seq<Line>
    requires |Expand(s)| <= |lines|
  {
    match s
    case Empty => []
    case Kept(before, line) => Refill(before, lines) + [line]
    case Gap(before, count) => Refill(before, lines) + lines[|Expand(before)|..|Expand(before)| + count]
  }

  function GapTotal(s: Summary): nat {
    match s
    case Empty => 0
    case Kept(before, _) => GapTotal(before)
    case Gap(before, count) => GapTotal(before) + count
  }

  function KeptTotal(s: Summary): nat {
    match s
    case Empty => 0
    case Kept(before, _) => KeptTotal(before) + 1
    case Gap(before, _) => KeptTotal(before)
  }

  /** The text of a summary, given the text of a marker for each count. */
  function Render(s: Summary, marker: nat -> string): string {
    match s
    case Empty => ""
    case Kept(before, line) => Render(before, marker) + line
    case Gap(before, count) => Render(before, marker) + marker(count)
  }

  lemma ExtendExpands(s: Summary, keep: bool, line: Line)
    ensures Normal(s) ==> Normal(Extend(s, keep, line))
    ensures Expand(Extend(s, keep, line)) == Expand(s) + [if keep then Some(line) else None]
  {
    if !keep && s.Gap? {
      var run: seq<Option<Line>> := seq(s.count, _ => None);
      var longer: seq<Option<Line>> := seq(s.count + 1, _ => None);
      assert longer == run + [None];
      assert Expand(s.before) + longer == (Expand(s.before) + run) + [None];
    } else if !keep {
      var one: seq<Option<Line>> := seq(1, _ => None);
      assert one == [None];
    }
  }

  lemma {:induction false} CompactToIsFaithful(keep: seq<bool>, lines: seq<Line>, m: nat)
    requires m <= |keep| == |lines|
    ensures Normal(CompactTo(keep, lines, m))
    ensures |Expand(CompactTo(keep, lines, m))| == m
    ensures forall i :: 0 <= i < m ==> Expand(CompactTo(keep, lines, m))[i] == if keep[i] then Some(lines[i]) else None
  {
    if m > 0 {
      CompactToIsFaithful(keep, lines, m - 1);
      ExtendExpands(CompactTo(keep, lines, m - 1), keep[m - 1], lines[m - 1]);
    }
  }

  /** Markers and kept lines, read in order, are the input with the dropped lines blanked out. */
  lemma CompactIsFaithful(keep: seq<bool>, lines: seq<Line>)
    requires |keep| == |lines|
    ensures Normal(Compact(keep, lines))
    ensures Expand(Compact(keep, lines)) == Masked(keep, lines)
  {
    CompactToIsFaithful(keep, lines, |lines|);
  }

  /** What the last part of a normal summary says about the end of its expansion. */
  lemma LastPart(s: Summary)
    requires Normal(s) && !s.Empty?
    ensures |Expand(s)| > |Expand(s.before)|
    ensures s.Kept? ==> Expand(s)[|Expand(s)| - 1] == Some(s.line)
    ensures s.Gap? ==> forall i :: |Expand(s.before)| <= i < |Expand(s)| ==> Expand(s)[i] == None
    ensures s.Gap? && !s.before.Empty? ==> |Expand(s.before)| > 0 && Expand(s)[|Expand(s.before)| - 1].Some?
    ensures Expand(s.before) == Expand(s)[..|Expand(s.before)|]
  {
  }

  /** A normal summary is the only one with its expansion. */
  lemma {:induction false} NormalIsUnique(a: Summary, b: Summary)
    requires Normal(a) && Normal(b) && Expand(a) == Expand(b)
    ensures a == b
  {
    if !a.Empty? { LastPart(a); }
    if !b.Empty? { LastPart(b); }
    if !a.Empty? && !b.Empty? {
      assert a.Gap? == b.Gap? by {
        var last := Expand(a)[|Expand(a)| - 1];
        assert last == Expand(b)[|Expand(b)| - 1];
      }
      assert |Expand(a.before)| == |Expand(b.before)| by {
        if a.Gap? { SameRun(a, b); }
      }
      NormalIsUnique(a.before, b.before);
    }
  }

  lemma SameRun(a: Summary, b: Summary)
    requires Normal(a) && Normal(b) && a.Gap? && b.Gap? && Expand(a) == Expand(b)
    ensures a.count == b.count
  {
    LastPart(a);
    LastPart(b);
  }

  /** Reconstruction: putting the counted runs back gives the input exactly. */
  lemma {:induction false} RefillRestores(s: Summary, keep: seq<bool>, lines: seq<Line>)
    requires |keep| == |lines|
    requires |Expand(s)| <= |lines|
    requires forall i :: 0 <= i < |Expand(s)| && Expand(s)[i].Some? ==> Expand(s)[i] == Some(lines[i])
    ensures Refill(s, lines) == lines[..|Expand(s)|]
  {
    if !s.Empty? {
      var size, total := |Expand(s.before)|, |Expand(s)|;
      assert forall i :: 0 <= i < size ==> Expand(s.before)[i] == Expand(s)[i];
      RefillRestores(s.before, keep, lines);
      if s.Kept? {
        assert Expand(s)[size] == Some(s.line);
        assert lines[..total] == lines[..size] + [s.line];
      } else {
        assert lines[..total] == lines[..size] + lines[size..total];
      }
    }
  }

  lemma {:induction false} CountsAddUp(s: Summary)
    ensures KeptTotal(s) + GapTotal(s) == |Expand(s)|
  {
    if !s.Empty? {
      CountsAddUp(s.before);
    }
  }

  /** Line conservation for every keep set. */
  lemma Conservation(keep: seq<bool>, lines: seq<Line>)
    requires |keep| == |lines|
    ensures
      var s := Compact(keep, lines);
      && Normal(s)
      && |Expand(s)| == |lines|
      && Refill(s, lines) == lines
      && KeptTotal(s) + GapTotal(s) == |lines|
      && (lines != [] && keep[|lines| - 1] ==> s.Kept? && s.line == lines[|lines| - 1])
  {
    var s := Compact(keep, lines);
    CompactToIsFaithful(keep, lines, |lines|);
    RefillRestores(s, keep, lines);
    assert lines[..|lines|] == lines;
    CountsAddUp(s);
  }

  /** `Compact` is the only normal summary of its keep set. */
  lemma CompactIsUnique(keep: seq<bool>, lines: seq<Line>, s: Summary)
    requires |keep| == |lines|
    requires Normal(s) && Expand(s) == Masked(keep, lines)
    ensures s == Compact(keep, lines)
  {
    CompactIsFaithful(keep, lines);
    NormalIsUnique(s, Compact(keep, lines));
  }
}
