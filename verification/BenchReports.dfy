/** Benchmark reports: how the bench accumulates them over repeated runs, and how the certification checker
    recomputes their totals. */
module BenchReports {
  import opened Bytes
  import opened Bench

  datatype Action = Pass | Optimize

  datatype CaseReport = CaseReport(
    name: string, iterations: nat, inputBytes: nat, outputBytes: nat, savedBytes: nat,
    action: Action, attempts: seq<string>, latency: Latency)

  datatype Totals = Totals(
    samples: nat, inputBytes: nat, outputBytes: nat, savedBytes: nat,
    passSamples: nat, optimizeSamples: nat, latency: Latency)

  datatype BenchReport = BenchReport(iterations: nat, cases: seq<CaseReport>, totals: Totals)

  datatype Fixture = Fixture(name: string, input: string, expectedAction: Action, expectedOutput: Option<string>)

  /** One run of the plugin, as the host reports it. */
  datatype Run = Run(action: Action, output: string, inputBytes: nat, outputBytes: nat, elapsed: nat)

  /** What happens: the attempt ids that are drawn and the runs, by case and iteration, and how latencies are
      summarized. */
  datatype World = World(
    attempt: (nat, nat) -> string, run: (nat, nat) -> Option<Run>, summarize: seq<nat> -> Latency)

  function Expected(f: Fixture): string { if f.expectedOutput.Some? then f.expectedOutput.value else f.input }

  predicate Golden(f: Fixture, run: Option<Run>) {
    run.Some? && run.value.action == f.expectedAction && run.value.output == Expected(f)
  }

  /** The host counts the bytes of its own request and of the output it returns. */
  predicate HostCounts(f: Fixture, run: Option<Run>) {
    run.Some? ==> run.value.inputBytes == |f.input| && run.value.outputBytes == |run.value.output|
  }

  function SatSub(a: nat, b: nat): nat { if a >= b then a - b else 0 }

  /** The bytes of all samples of the first `k` fixtures, and how many samples pass or optimize. */
  function InputTotal(fixtures: seq<Fixture>, iterations: nat, k: nat): nat
    requires k <= |fixtures|
  {
    if k == 0 then 0 else InputTotal(fixtures, iterations, k - 1) + iterations * |fixtures[k - 1].input|
  }

  function OutputTotal(fixtures: seq<Fixture>, iterations: nat, k: nat): nat
    requires k <= |fixtures|
  {
    if k == 0 then 0 else OutputTotal(fixtures, iterations, k - 1) + iterations * |Expected(fixtures[k - 1])|
  }

  function ActionTotal(fixtures: seq<Fixture>, iterations: nat, action: Action, k: nat): nat
    requires k <= |fixtures|
  {
    if k == 0 then 0
    else
      ActionTotal(fixtures, iterations, action, k - 1) +
      if fixtures[k - 1].expectedAction == action then iterations else 0
  }

  function Those(fixtures: seq<Fixture>, action: Action, k: nat): set<int>
    requires k <= |fixtures|
  {
    set c | 0 <= c < k && fixtures[c].expectedAction == action
  }

  lemma ThoseGrow(fixtures: seq<Fixture>, action: Action, k: nat, before: set<int>, after: set<int>)
    requires k < |fixtures| && before == Those(fixtures, action, k) && after == Those(fixtures, action, k + 1)
    ensures |after| == |before| + if fixtures[k].expectedAction == action then 1 else 0
  {
    assert k !in before;
    assert after == if fixtures[k].expectedAction == action then before + {k} else before;
  }

  /** Every iteration of a fixture is one sample of its action. */
  lemma {:induction false} ActionsAreCounted(fixtures: seq<Fixture>, iterations: nat, action: Action, k: nat)
    requires k <= |fixtures|
    ensures ActionTotal(fixtures, iterations, action, k) == iterations * |Those(fixtures, action, k)|
  {
    if k > 0 {
      ActionsAreCounted(fixtures, iterations, action, k - 1);
      ThoseGrow(fixtures, action, k - 1, Those(fixtures, action, k - 1), Those(fixtures, action, k));
    }
  }

  predicate AllGolden(fixtures: seq<Fixture>, iterations: nat, w: World, k: nat)
    requires k <= |fixtures|
  {
    forall c, i :: 0 <= c < k && 0 <= i < iterations ==> Golden(fixtures[c], w.run(c, i))
  }

  function Elapsed(run: Option<Run>): nat { if run.Some? then run.value.elapsed else 0 }

  /** The latencies and attempt ids of a case. */
  function Latencies(w: World, c: nat, k: nat): (s: seq<nat>)
    ensures |s| == k
  {
    seq<nat>(k, (i: nat) => Elapsed(w.run(c, i)))
  }

  function Attempts(w: World, c: nat, k: nat): (s: seq<string>)
    ensures |s| == k
  {
    seq(k, (i: nat) => w.attempt(c, i))
  }

  function AllLatencies(w: World, iterations: nat, k: nat): seq<nat> {
    if k == 0 then [] else AllLatencies(w, iterations, k - 1) + Latencies(w, k - 1, iterations)
  }

  function CaseOf(f: Fixture, w: World, c: nat, iterations: nat): CaseReport
  {
    var output := |Expected(f)|;
    CaseReport(f.name, iterations, |f.input|, output, SatSub(|f.input|, output), f.expectedAction,
               Attempts(w, c, iterations), w.summarize(Latencies(w, c, iterations)))
  }

  lemma {:induction false} AllLatenciesLength(w: World, iterations: nat, k: nat)
    ensures |AllLatencies(w, iterations, k)| == k * iterations
  {
    if k > 0 {
      AllLatenciesLength(w, iterations, k - 1);
      assert k * iterations == (k - 1) * iterations + iterations;
    }
  }

  /** The totals of a golden benchmark, saturated where they do not fit. */
  predicate TotalsAre(fixtures: seq<Fixture>, iterations: nat, w: World, t: Totals)
    requires fixtures != [] && iterations > 0
  {
    var n := |fixtures|;
    var all := AllLatencies(w, iterations, n);
    && t.samples == |all| == n * iterations
    && t.inputBytes == Saturated(InputTotal(fixtures, iterations, n))
    && t.outputBytes == Saturated(OutputTotal(fixtures, iterations, n))
    && t.savedBytes == SatSub(t.inputBytes, t.outputBytes)
    && t.passSamples == ActionTotal(fixtures, iterations, Pass, n)
    && t.optimizeSamples == ActionTotal(fixtures, iterations, Optimize, n)
    && t.latency == w.summarize(all)
  }

  /** What one case adds, iteration by iteration. */
  datatype Sums = Sums(input: nat, output: nat, passes: nat, optimizes: nat)

  function Raised(s: Sums, f: Fixture, i: nat): Sums {
    Sums(Saturated(s.input + i * |f.input|), Saturated(s.output + i * |Expected(f)|),
         s.passes + if f.expectedAction.Pass? then i else 0, s.optimizes + if f.expectedAction.Pass? then 0 else i)
  }

  /** The loop over the iterations of one case. Repeated results that match the golden ones cannot differ from
      each other, so that the check for unstable results never fires. */
  method RunCase(f: Fixture, w: World, c: nat, iterations: nat, before: Sums)
    returns (ok: bool, latencies: seq<nat>, attempts: seq<string>, sums: Sums)
    requires forall i :: 0 <= i < iterations ==> HostCounts(f, w.run(c, i))
    requires before.input < U64_LIMIT && before.output < U64_LIMIT
    ensures ok <==> forall i :: 0 <= i < iterations ==> Golden(f, w.run(c, i))
    ensures ok ==> latencies == Latencies(w, c, iterations) && attempts == Attempts(w, c, iterations)
    ensures ok ==> sums == Raised(before, f, iterations)
  {
    latencies, attempts, sums := [], [], before;
    var stableAction: Option<Action> := None;
    var stableOutput: Option<string> := None;
    for i := 0 to iterations
      invariant forall j :: 0 <= j < i ==> Golden(f, w.run(c, j))
      invariant latencies == Latencies(w, c, i) && attempts == Attempts(w, c, i) && sums == Raised(before, f, i)
      invariant stableAction.Some? ==> stableAction.value == f.expectedAction
      invariant stableOutput.Some? ==> stableOutput.value == Expected(f)
    {
      assert HostCounts(f, w.run(c, i));
      var attempted := w.attempt(c, i);
      var result := w.run(c, i);
      if result.None? {
        return false, latencies, attempts, sums;
      }
      var run := result.value;
      attempts := attempts + [attempted];
      if run.action != f.expectedAction || run.output != Expected(f) {
        return false, latencies, attempts, sums;
      }
      if (stableAction.Some? && stableAction.value != run.action)
         || (stableOutput.Some? && stableOutput.value != run.output) {
        assert false;
      }
      stableAction, stableOutput := Some(run.action), Some(run.output);
      latencies := latencies + [run.elapsed];
      RaisedOnce(before, f, i);
      sums := Sums(
        Saturated(sums.input + run.inputBytes), Saturated(sums.output + run.outputBytes),
        sums.passes + if run.action.Pass? then 1 else 0, sums.optimizes + if run.action.Pass? then 0 else 1);
    }
    return true, latencies, attempts, sums;
  }

  lemma RaisedOnce(s: Sums, f: Fixture, i: nat)
    ensures Raised(s, f, i + 1) == Raised(Raised(s, f, i), f, 1)
  {
    assert (i + 1) * |f.input| == i * |f.input| + |f.input|;
    assert (i + 1) * |Expected(f)| == i * |Expected(f)| + |Expected(f)|;
  }

  function SumsOf(fixtures: seq<Fixture>, iterations: nat, k: nat): Sums
    requires k <= |fixtures|
  {
    Sums(Saturated(InputTotal(fixtures, iterations, k)), Saturated(OutputTotal(fixtures, iterations, k)),
         ActionTotal(fixtures, iterations, Pass, k), ActionTotal(fixtures, iterations, Optimize, k))
  }

  /** What a report says of golden fixtures. */
  predicate IsReportOf(fixtures: seq<Fixture>, iterations: nat, w: World, r: BenchReport)
    requires fixtures != [] && iterations > 0
  {
    && r.iterations == iterations && |r.cases| == |fixtures|
    && (forall c :: 0 <= c < |fixtures| ==> r.cases[c] == CaseOf(fixtures[c], w, c, iterations))
    && TotalsAre(fixtures, iterations, w, r.totals)
  }

  /** `bench_plugin`: a report exactly if the number of iterations is in range and every run is golden. */
  method BenchPlugin(fixtures: seq<Fixture>, iterations: nat, w: World) returns (r: Option<BenchReport>)
    requires fixtures != []
    requires forall c, i :: 0 <= c < |fixtures| && 0 <= i < iterations ==> HostCounts(fixtures[c], w.run(c, i))
    ensures r.Some? <==> 1 <= iterations <= MAX_ITERATIONS && AllGolden(fixtures, iterations, w, |fixtures|)
    ensures r.Some? ==> IsReportOf(fixtures, iterations, w, r.value)
  {
    if !(1 <= iterations <= MAX_ITERATIONS) {
      return None;
    }
    var cases: seq<CaseReport> := [];
    var all: seq<nat> := [];
    var sums := Sums(0, 0, 0, 0);
    for c := 0 to |fixtures|
      invariant AllGolden(fixtures, iterations, w, c)
      invariant |cases| == c && forall j :: 0 <= j < c ==> cases[j] == CaseOf(fixtures[j], w, j, iterations)
      invariant all == AllLatencies(w, iterations, c) && sums == SumsOf(fixtures, iterations, c)
    {
      var ok, latencies, attempts, next := RunCase(fixtures[c], w, c, iterations, sums);
      if !ok {
        return None;
      }
      sums := next;
      all := all + latencies;
      var report := ReportCase(fixtures[c], w, c, iterations, latencies, attempts);
      cases := cases + [report];
    }
    var totals := ReportTotals(fixtures, w, iterations, all, sums);
    return Some(BenchReport(iterations, cases, totals));
  }

  method ReportCase(f: Fixture, w: World, c: nat, iterations: nat, latencies: seq<nat>, attempts: seq<string>)
    returns (r: CaseReport)
    requires iterations > 0 && latencies == Latencies(w, c, iterations) && attempts == Attempts(w, c, iterations)
    ensures r == CaseOf(f, w, c, iterations)
  {
    var output := |Expected(f)|;
    return CaseReport(f.name, iterations, |f.input|, output, SatSub(|f.input|, output), f.expectedAction,
                      attempts, w.summarize(latencies));
  }

  method ReportTotals(fixtures: seq<Fixture>, w: World, iterations: nat, all: seq<nat>, sums: Sums) returns (t: Totals)
    requires fixtures != [] && iterations > 0
    requires all == AllLatencies(w, iterations, |fixtures|) && sums == SumsOf(fixtures, iterations, |fixtures|)
    ensures TotalsAre(fixtures, iterations, w, t)
  {
    AllLatenciesLength(w, iterations, |fixtures|);
    return Totals(
      |all|, sums.input, sums.output, SatSub(sums.input, sums.output), sums.passes, sums.optimizes, w.summarize(all));
  }

  // ---------------------------------------------------------------------------------------------
  // The checker
  // ---------------------------------------------------------------------------------------------

  predicate DistinctStrings(s: seq<string>) { forall i, j :: 0 <= i < j < |s| ==> s[i] != s[j] }

  /** `valid_activation_attempt_id` is given. */
  predicate CaseIsValid(validId: string -> bool, iterations: nat, c: CaseReport) {
    && c.iterations == iterations && c.inputBytes != 0 && c.outputBytes <= c.inputBytes
    && c.savedBytes == c.inputBytes - c.outputBytes
    && |c.attempts| == iterations && DistinctStrings(c.attempts)
    && (forall i :: 0 <= i < |c.attempts| ==> validId(c.attempts[i]))
    && ValidLatency(c.latency)
    && match c.action
       case Pass => c.outputBytes == c.inputBytes
       case Optimize => c.outputBytes != 0 && c.outputBytes * 100 <= c.inputBytes * 80
  }

  function CaseInput(cases: seq<CaseReport>, iterations: nat, k: nat): nat
    requires k <= |cases|
  {
    if k == 0 then 0 else CaseInput(cases, iterations, k - 1) + cases[k - 1].inputBytes * iterations
  }

  function CaseOutput(cases: seq<CaseReport>, iterations: nat, k: nat): nat
    requires k <= |cases|
  {
    if k == 0 then 0 else CaseOutput(cases, iterations, k - 1) + cases[k - 1].outputBytes * iterations
  }

  function CaseActions(cases: seq<CaseReport>, iterations: nat, action: Action, k: nat): nat
    requires k <= |cases|
  {
    if k == 0 then 0
    else CaseActions(cases, iterations, action, k - 1) + if cases[k - 1].action == action then iterations else 0
  }

  predicate DistinctNames(cases: seq<CaseReport>, k: nat)
    requires k <= |cases|
  {
    forall i, j :: 0 <= i < j < k ==> cases[i].name != cases[j].name
  }

  /** The integer accounting that a report has to satisfy: sound cases with distinct names, byte totals that fit
      64 bits, and totals that are those of the cases. */
  predicate AccountsFor(validId: string -> bool, r: BenchReport) {
    var n := |r.cases|;
    && 1 <= r.iterations <= MAX_ITERATIONS && 1 <= n <= MAX_CASES
    && (forall c :: 0 <= c < n ==> CaseIsValid(validId, r.iterations, r.cases[c])) && DistinctNames(r.cases, n)
    && Fitting(CaseSums(r.cases, r.iterations, n))
    && TotalsMatch(r.totals, n * r.iterations, CaseSums(r.cases, r.iterations, n))
  }

  /** `validate_benchmark_report`, on the integers. */
  method CheckAccounting(validId: string -> bool, r: BenchReport) returns (ok: bool)
    ensures ok <==> AccountsFor(validId, r)
  {
    var n := |r.cases|;
    if !(1 <= r.iterations <= MAX_ITERATIONS) || n == 0 || n > MAX_CASES {
      return false;
    }
    var checked, sums := CheckCases((c: CaseReport) => CaseIsValid(validId, r.iterations, c), r);
    if !checked {
      return false;
    }
    var samples := n * r.iterations;
    PassesPartition(r.cases, n, r.iterations);
    ok := TotalsMatch(r.totals, samples, sums) && sums.passes + sums.optimizes == samples;
  }

  predicate TotalsMatch(t: Totals, samples: nat, sums: Sums) {
    && t.samples == samples && t.inputBytes == sums.input && t.outputBytes == sums.output
    && t.savedBytes == SatSub(sums.input, sums.output)
    && t.passSamples == sums.passes && t.optimizeSamples == sums.optimizes && ValidLatency(t.latency)
  }

  function CaseSums(cases: seq<CaseReport>, iterations: nat, k: nat): Sums
    requires k <= |cases|
  {
    Sums(CaseInput(cases, iterations, k), CaseOutput(cases, iterations, k),
         CaseActions(cases, iterations, Pass, k), CaseActions(cases, iterations, Optimize, k))
  }

  lemma {:induction false} PassesPartition(cases: seq<CaseReport>, k: nat, iterations: nat)
    requires k <= |cases|
    ensures CaseActions(cases, iterations, Pass, k) + CaseActions(cases, iterations, Optimize, k) == k * iterations
  {
    if k > 0 {
      PassesPartition(cases, k - 1, iterations);
      assert k * iterations == (k - 1) * iterations + iterations;
    }
  }

  predicate Fitting(s: Sums) { s.input < U64_LIMIT && s.output < U64_LIMIT }

  function NamesOf(cases: seq<CaseReport>, k: nat): set<string>
    requires k <= |cases|
  {
    set c | 0 <= c < k :: cases[c].name
  }

  lemma NamesExtend(cases: seq<CaseReport>, k: nat)
    requires k < |cases|
    ensures NamesOf(cases, k + 1) == NamesOf(cases, k) + {cases[k].name}
    ensures DistinctNames(cases, k) && cases[k].name !in NamesOf(cases, k) ==> DistinctNames(cases, k + 1)
    ensures cases[k].name in NamesOf(cases, k) ==> !DistinctNames(cases, |cases|)
  {
  }

  lemma OverflowStays(cases: seq<CaseReport>, k: nat, iterations: nat)
    requires k <= |cases| && !Fitting(CaseSums(cases, iterations, k))
    ensures !Fitting(CaseSums(cases, iterations, |cases|))
  {
    CaseInputGrows(cases, k, |cases|, iterations);
    CaseOutputGrows(cases, k, |cases|, iterations);
  }

  /** The loop over the cases, in which every product and every sum is checked. */
  method CheckCases(valid: CaseReport -> bool, r: BenchReport) returns (ok: bool, sums: Sums)
    ensures
      var n := |r.cases|;
      ok <==>
        && (forall c :: 0 <= c < n ==> valid(r.cases[c])) && DistinctNames(r.cases, n)
        && Fitting(CaseSums(r.cases, r.iterations, n))
    ensures ok ==> sums == CaseSums(r.cases, r.iterations, |r.cases|)
  {
    var names: set<string> := {};
    ok, sums := true, Sums(0, 0, 0, 0);
    for k := 0 to |r.cases|
      invariant ok && (forall c :: 0 <= c < k ==> valid(r.cases[c])) && DistinctNames(r.cases, k)
      invariant names == NamesOf(r.cases, k)
      invariant sums == CaseSums(r.cases, r.iterations, k) && Fitting(sums)
    {
      var c := r.cases[k];
      NamesExtend(r.cases, k);
      if !valid(c) || c.name in names {
        return false, sums;
      }
      names := names + {c.name};
      sums := AddCase(r, k, sums);
      if !Fitting(sums) {
        OverflowStays(r.cases, k + 1, r.iterations);
        return false, sums;
      }
    }
  }

  method AddCase(r: BenchReport, k: nat, before: Sums) returns (sums: Sums)
    requires k < |r.cases| && before == CaseSums(r.cases, r.iterations, k)
    ensures sums == CaseSums(r.cases, r.iterations, k + 1)
  {
    var c := r.cases[k];
    return Sums(
      before.input + c.inputBytes * r.iterations, before.output + c.outputBytes * r.iterations,
      before.passes + if c.action.Pass? then r.iterations else 0,
      before.optimizes + if c.action.Pass? then 0 else r.iterations);
  }

  lemma {:induction false} CaseInputGrows(cases: seq<CaseReport>, j: nat, k: nat, iterations: nat)
    requires j <= k <= |cases|
    ensures CaseInput(cases, iterations, j) <= CaseInput(cases, iterations, k)
    decreases k
  {
    if j < k {
      CaseInputGrows(cases, j, k - 1, iterations);
      var more: nat := cases[k - 1].inputBytes * iterations;
      assert CaseInput(cases, iterations, k) == CaseInput(cases, iterations, k - 1) + more;
    }
  }

  lemma {:induction false} CaseOutputGrows(cases: seq<CaseReport>, j: nat, k: nat, iterations: nat)
    requires j <= k <= |cases|
    ensures CaseOutput(cases, iterations, j) <= CaseOutput(cases, iterations, k)
    decreases k
  {
    if j < k {
      CaseOutputGrows(cases, j, k - 1, iterations);
      var more: nat := cases[k - 1].outputBytes * iterations;
      assert CaseOutput(cases, iterations, k) == CaseOutput(cases, iterations, k - 1) + more;
    }
  }

  // ---------------------------------------------------------------------------------------------
  // Bench and checker together
  // ---------------------------------------------------------------------------------------------

  /** What of the checker's demands depends on the fixtures and the drawn ids. */
  predicate FixtureIsSound(validId: string -> bool, f: Fixture, attempts: seq<string>) {
    && f.input != "" && DistinctStrings(attempts) && (forall i :: 0 <= i < |attempts| ==> validId(attempts[i]))
    && match f.expectedAction
       case Pass => |Expected(f)| == |f.input|
       case Optimize => |Expected(f)| != 0 && |Expected(f)| * 100 <= |f.input| * 80
  }

  ghost predicate SummarizesValidly(w: World) { forall s :: s != [] ==> ValidLatency(w.summarize(s)) }

  function Summarize(s: seq<nat>): Latency { if s == [] then Latency(0, 0, 0, 0, 0, 0) else SummaryOf(s) }

  lemma SummariesAreValid(w: World)
    requires forall s :: w.summarize(s) == Summarize(s)
    ensures SummarizesValidly(w)
  {
    forall s: seq<nat> | s != [] ensures ValidLatency(w.summarize(s)) {
      SummaryIsExact(s);
    }
  }

  lemma CaseIsValidExactlyWhen(validId: string -> bool, f: Fixture, w: World, c: nat, iterations: nat)
    requires iterations > 0 && SummarizesValidly(w)
    ensures CaseIsValid(validId, iterations, CaseOf(f, w, c, iterations)) <==>
            FixtureIsSound(validId, f, Attempts(w, c, iterations))
  {
    assert Latencies(w, c, iterations) != [];
  }

  lemma {:induction false} TotalsAgree(
      fixtures: seq<Fixture>, iterations: nat, w: World, cases: seq<CaseReport>, k: nat)
    requires k <= |fixtures| == |cases|
    requires forall c :: 0 <= c < |fixtures| ==> cases[c] == CaseOf(fixtures[c], w, c, iterations)
    ensures CaseSums(cases, iterations, k) ==
            Sums(InputTotal(fixtures, iterations, k), OutputTotal(fixtures, iterations, k),
                 ActionTotal(fixtures, iterations, Pass, k), ActionTotal(fixtures, iterations, Optimize, k))
  {
    if k > 0 {
      TotalsAgree(fixtures, iterations, w, cases, k - 1);
      assert cases[k - 1].inputBytes == |fixtures[k - 1].input|;
      assert cases[k - 1].outputBytes == |Expected(fixtures[k - 1])|;
    }
  }

  predicate DistinctFixtures(fixtures: seq<Fixture>) {
    forall i, j :: 0 <= i < j < |fixtures| ==> fixtures[i].name != fixtures[j].name
  }

  lemma ReportPassesExactlyWhen(
      validId: string -> bool, fixtures: seq<Fixture>, iterations: nat, w: World, r: BenchReport)
    requires fixtures != [] && 1 <= iterations <= MAX_ITERATIONS && SummarizesValidly(w)
    requires IsReportOf(fixtures, iterations, w, r)
    ensures
      var n := |fixtures|;
      AccountsFor(validId, r) <==>
        && n <= MAX_CASES && DistinctFixtures(fixtures)
        && (forall c :: 0 <= c < n ==> FixtureIsSound(validId, fixtures[c], Attempts(w, c, iterations)))
        && InputTotal(fixtures, iterations, n) < U64_LIMIT && OutputTotal(fixtures, iterations, n) < U64_LIMIT
  {
    var n := |fixtures|;
    TotalsAgree(fixtures, iterations, w, r.cases, n);
    forall c | 0 <= c < n
      ensures CaseIsValid(validId, iterations, r.cases[c]) <==>
              FixtureIsSound(validId, fixtures[c], Attempts(w, c, iterations))
      ensures r.cases[c].name == fixtures[c].name
    {
      CaseIsValidExactlyWhen(validId, fixtures[c], w, c, iterations);
    }
    assert DistinctNames(r.cases, n) <==> DistinctFixtures(fixtures);
    AllLatenciesLength(w, iterations, n);
    assert n * iterations >= 1;
    assert AllLatencies(w, iterations, n) != [];
  }

  /** With the summaries of the bench, the checker accepts its report exactly if there are at most 100000 fixtures,
      all sound and of distinct names, whose bytes over all samples fit 64 bits: where the bench saturates, the
      checker refuses. */
  lemma BenchPassesExactlyWhen(
      validId: string -> bool, fixtures: seq<Fixture>, iterations: nat, w: World, r: BenchReport)
    requires fixtures != [] && 1 <= iterations <= MAX_ITERATIONS && forall s :: w.summarize(s) == Summarize(s)
    requires IsReportOf(fixtures, iterations, w, r)
    ensures
      var n := |fixtures|;
      AccountsFor(validId, r) <==>
        && n <= MAX_CASES && DistinctFixtures(fixtures)
        && (forall c :: 0 <= c < n ==> FixtureIsSound(validId, fixtures[c], Attempts(w, c, iterations)))
        && InputTotal(fixtures, iterations, n) < U64_LIMIT && OutputTotal(fixtures, iterations, n) < U64_LIMIT
  {
    SummariesAreValid(w);
    ReportPassesExactlyWhen(validId, fixtures, iterations, w, r);
  }

  /** `savings_basis_points` */
  function SavingsBasisPoints(saved: nat, input: nat): Option<nat> {
    if input == 0 || saved > input then None else Some(saved * 10_000 / input)
  }

  /** It is the exact share, rounded down, and at most the whole. */
  lemma BasisPointsAreExact(saved: nat, input: nat, points: nat)
    requires SavingsBasisPoints(saved, input) == Some(points)
    ensures points <= 10_000 && points * input <= saved * 10_000 < (points + 1) * input
  {
    var n := saved * 10_000;
    assert n == points * input + n % input;
    assert (points + 1) * input == points * input + input;
    MulOrder(points, 10_000, input, 0);
  }
}
