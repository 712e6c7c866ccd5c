/** Worker and evaluator together: what a campaign executes, that its evidence cannot fail the evaluator's
    accounting, and what a passing verdict says about every execution. */
module FuzzCertification {
  import opened Bytes
  import opened Texts
  import opened Fuzz
  import opened FuzzWorker
  import opened FuzzEvaluator

  // ---------------------------------------------------------------------------------------------
  // Campaigns walk a prefix of the plan
  // ---------------------------------------------------------------------------------------------

  predicate LastUnreaped(h: History) { h.Then? && h.outcome.safety.unreapedProcess }

  predicate WithinTime(c: Campaign, j: nat) { c.elapsed(j) < c.policy.maximumDurationMilliseconds }

  /** Every execution stands at its place of the repetition-major plan, has its place as its ordinal and
      began in time; an unreaped process is the last. */
  predicate OnPlan(c: Campaign, h: History) {
    match h
    case Start => true
    case Then(before, e, o) =>
      var j := Size(before);
      && OnPlan(c, before) && !LastUnreaped(before)
      && j < PlanSize(c.corpus) && WithinTime(c, j)
      && DecodeCase(c.codec, c.corpus.cases[j % |c.corpus.cases|]).Some?
      && e == Planned(c, j, DecodeCase(c.codec, c.corpus.cases[j % |c.corpus.cases|]).value)
      && c.execute(e) == Some(o)
  }

  /** What the executor is told: its ordinal among all executions, case and repetition, the input that the text of the
      case stands for, subject and limits, and a deadline within both the limit of the case and what is left. */
  predicate TellsExactly(c: Campaign, ordinal: nat, e: Execution) {
    && e.ordinal == ordinal
    && (exists k :: 0 <= k < |c.corpus.cases| && IsCase(c, e, ordinal, k))
    && c.codec.decode(e.testCase.inputBase64) == Some(e.input) && c.codec.encode(e.input) == e.testCase.inputBase64
    && |e.input| <= 0x100_0000
    && e.subject == c.subject && e.limits == c.corpus.limits
    && e.remainingMilliseconds + c.elapsed(ordinal) == c.policy.maximumDurationMilliseconds
    && 0 < e.remainingMilliseconds
    && e.deadlineMilliseconds <= c.corpus.limits.maximumExecutionMilliseconds
    && e.deadlineMilliseconds <= e.remainingMilliseconds
    && (|| e.deadlineMilliseconds == c.corpus.limits.maximumExecutionMilliseconds
        || e.deadlineMilliseconds == e.remainingMilliseconds)
  }

  predicate IsCase(c: Campaign, e: Execution, ordinal: nat, k: nat)
    requires k < |c.corpus.cases|
  {
    e.testCase == c.corpus.cases[k] && e.repetition * |c.corpus.cases| + k == ordinal
  }

  /** Behind `n` executions on the plan, the next is told exactly that it is the one with ordinal `n`. */
  predicate AllTold(c: Campaign, h: History) {
    match h
    case Start => true
    case Then(before, e, _) => AllTold(c, before) && TellsExactly(c, Size(before), e)
  }

  lemma {:induction false} ExecutionsAreTold(c: Campaign, h: History)
    requires OnPlan(c, h)
    ensures AllTold(c, h)
  {
    match h
    case Start =>
    case Then(before, e, _) =>
      ExecutionsAreTold(c, before);
      var j, n := Size(before), |c.corpus.cases|;
      assert (j / n) * n + j % n == j;
      assert IsCase(c, e, j, j % n);
  }

  /** So no two executions of a campaign share an ordinal. */
  predicate Occurs(h: History, e: Execution) {
    match h
    case Start => false
    case Then(before, other, _) => other == e || Occurs(before, e)
  }

  lemma {:induction false} OrdinalsAreBelow(c: Campaign, h: History, e: Execution)
    requires AllTold(c, h) && Occurs(h, e)
    ensures e.ordinal < Size(h)
  {
    if h.execution != e {
      OrdinalsAreBelow(c, h.before, e);
    }
  }

  lemma OrdinalsAreDistinct(c: Campaign, before: History, e: Execution, o: Outcome, other: Execution)
    requires AllTold(c, Then(before, e, o)) && Occurs(before, other)
    ensures other.ordinal < e.ordinal
  {
    OrdinalsAreBelow(c, before, other);
  }

  /** The only reasons for which a campaign ends. */
  predicate Ended(c: Campaign, h: History) {
    Size(h) == PlanSize(c.corpus) || LastUnreaped(h) || !WithinTime(c, Size(h))
  }

  /** A completed campaign executed a prefix of the plan, and stopped early only for time or for an unreaped
      process. */
  lemma {:induction false} CampaignIsPlanPrefix(c: Campaign, j: nat, h: History)
    requires j <= PlanSize(c.corpus) && OnPlan(c, h) && Size(h) == j && !LastUnreaped(h)
    ensures Run(c, j, h).Some? ==>
              var final := Run(c, j, h).value;
              OnPlan(c, final) && Size(final) <= PlanSize(c.corpus) && Ended(c, final)
    decreases PlanSize(c.corpus) - j
  {
    if j == PlanSize(c.corpus) || !WithinTime(c, j) {
    } else {
      match DecodeCase(c.codec, c.corpus.cases[j % |c.corpus.cases|])
      case None =>
      case Some(input) =>
        var e := Planned(c, j, input);
        match c.execute(e)
        case None =>
        case Some(o) =>
          var next := Then(h, e, o);
          assert OnPlan(c, next) && Size(next) == j + 1;
          if !o.safety.unreapedProcess {
            CampaignIsPlanPrefix(c, j + 1, next);
          }
    }
  }

  /** And conversely: nothing else ends it, so the plan's prefix that ended is the campaign. */
  lemma {:induction false} EndedPrefixIsCampaign(c: Campaign, h: History)
    requires OnPlan(c, h) && Size(h) <= PlanSize(c.corpus) && Ended(c, h)
    ensures Run(c, 0, Start) == Some(h)
  {
    if LastUnreaped(h) {
      PrefixLeadsOn(c, h.before);
    } else {
      PrefixLeadsOn(c, h);
    }
  }

  lemma {:induction false} PrefixLeadsOn(c: Campaign, h: History)
    requires OnPlan(c, h) && !LastUnreaped(h) && Size(h) <= PlanSize(c.corpus)
    ensures Run(c, 0, Start) == Run(c, Size(h), h)
  {
    match h
    case Start =>
    case Then(before, e, o) => PrefixLeadsOn(c, before);
  }

  /** At most one unreaped process is ever counted. */
  lemma {:induction false} OneUnreaped(c: Campaign, h: History)
    requires OnPlan(c, h)
    ensures CountOf(h, UnreapedProcesses) == One(LastUnreaped(h))
  {
    match h
    case Start =>
    case Then(before, _, _) => OneUnreaped(c, before);
  }

  // ---------------------------------------------------------------------------------------------
  // The counters of a plan prefix
  // ---------------------------------------------------------------------------------------------

  function InputsOf(kind: CaseClass): Counter { if kind.Valid? then ValidInputs else MalformedInputs }

  lemma NextPosition(j: nat, n: nat)
    requires n > 0
    ensures j % n + 1 < n ==> (j + 1) / n == j / n && (j + 1) % n == j % n + 1
    ensures j % n + 1 == n ==> (j + 1) / n == j / n + 1 && (j + 1) % n == 0
  {
    var q, r := j / n, j % n;
    assert j == q * n + r;
    if r + 1 < n {
      DivModIsUnique(j + 1, n, q, r + 1);
    } else {
      assert (q + 1) * n == q * n + n;
      DivModIsUnique(j + 1, n, q + 1, 0);
    }
  }

  /** How many of the first `j` executions of the plan are of a class: whole repetitions count every case of
      it, a partial one the cases it reached. */
  function PlannedInputs(cases: seq<Case>, j: nat, kind: CaseClass): nat
    requires cases != []
  {
    (j / |cases|) * CountClass(cases, |cases|, kind) + CountClass(cases, j % |cases|, kind)
  }

  lemma NextPlannedInputs(cases: seq<Case>, j: nat, kind: CaseClass)
    requires cases != []
    ensures PlannedInputs(cases, j + 1, kind) ==
            PlannedInputs(cases, j, kind) + One(cases[j % |cases|].kind == kind)
  {
    var n, all := |cases|, CountClass(cases, |cases|, kind);
    NextPosition(j, n);
    assert (j / n + 1) * all == (j / n) * all + all;
  }

  predicate CountsOn(cases: seq<Case>, kind: CaseClass, counted: nat -> nat, j: nat)
    requires cases != []
  {
    counted(j + 1) == counted(j) + One(cases[j % |cases|].kind == kind)
  }

  lemma {:induction false} InputsFollow(c: Campaign, h: History, kind: CaseClass, counted: nat -> nat)
    requires OnPlan(c, h) && c.corpus.cases != []
    requires counted(0) == 0 && forall j :: CountsOn(c.corpus.cases, kind, counted, j)
    ensures CountOf(h, InputsOf(kind)) == counted(Size(h))
  {
    match h
    case Start =>
    case Then(before, e, o) =>
      InputsFollow(c, before, kind, counted);
      assert CountsOn(c.corpus.cases, kind, counted, Size(before));
  }

  lemma InputsCounted(c: Campaign, h: History, kind: CaseClass)
    requires OnPlan(c, h) && c.corpus.cases != []
    ensures CountOf(h, InputsOf(kind)) == PlannedInputs(c.corpus.cases, Size(h), kind)
  {
    var cases := c.corpus.cases;
    var counted := (j: nat) => PlannedInputs(cases, j, kind);
    forall j ensures CountsOn(cases, kind, counted, j) {
      NextPlannedInputs(cases, j, kind);
    }
    InputsFollow(c, h, kind, counted);
  }

  lemma InputsWithinPlan(c: Campaign, h: History, kind: CaseClass)
    requires OnPlan(c, h) && Size(h) <= PlanSize(c.corpus)
    ensures CountOf(h, InputsOf(kind)) <= c.corpus.repetitions * CountClass(c.corpus.cases, |c.corpus.cases|, kind)
  {
    var cases, n := c.corpus.cases, |c.corpus.cases|;
    if n > 0 {
      InputsCounted(c, h, kind);
      CountClassGrows(cases, Size(h) % n, n, kind);
      var all, part := CountClass(cases, n, kind), CountClass(cases, Size(h) % n, kind);
      RepetitionsBound(Size(h), n, c.corpus.repetitions, all, part);
    }
  }

  lemma RepetitionsBound(s: nat, n: nat, repetitions: nat, all: nat, part: nat)
    requires n > 0 && s <= repetitions * n && part <= all && (s % n == 0 ==> part == 0)
    ensures (s / n) * all + part <= repetitions * all
  {
    var q := s / n;
    assert s == q * n + s % n;
    MulKeepsOrder(q, repetitions, n, all);
    if s % n != 0 {
      MulReflectsOrder(q, repetitions, n);
      assert (q + 1) * all == q * all + all;
      MulKeepsOrder(q + 1, repetitions, 1, all);
    }
  }

  lemma MulKeepsOrder(q: nat, r: nat, n: nat, all: nat)
    requires n > 0
    ensures q * n <= r * n ==> q * all <= r * all
  {
    if q > r {
      assert q * n == r * n + (q - r) * n;
    } else {
      assert r * all == q * all + (r - q) * all;
    }
  }

  lemma MulReflectsOrder(q: nat, r: nat, n: nat)
    ensures q * n < r * n ==> q < r
  {
    if q >= r {
      assert q * n == r * n + (q - r) * n;
    }
  }

  lemma {:induction false} InputsPartition(h: History)
    ensures CountOf(h, ValidInputs) + CountOf(h, MalformedInputs) == Size(h)
    ensures CountOf(h, ValidAccepted) <= CountOf(h, ValidInputs)
    ensures CountOf(h, MalformedRejected) <= CountOf(h, MalformedInputs)
  {
    match h
    case Start =>
    case Then(before, _, _) => InputsPartition(before);
  }

  // ---------------------------------------------------------------------------------------------
  // The worker, and the evaluator on its report
  // ---------------------------------------------------------------------------------------------

  /** Everything the worker is given or reads: the campaign, the engine, the coverage measurement, the two
      wall-clock readings and the digests of the executable (none if it is empty) and corpus bytes. */
  datatype Setting = Setting(
    campaign: Campaign, engine: Option<Engine>, coverage: Option<nat>,
    startedAt: Option<nat>, completedAt: Option<nat>,
    executableDigest: Option<string>, corpusDigest: string,
    producer: Producer, wellFormed: Subject -> bool)

  datatype Issued = Issued(report: Report, verdict: Verdict)

  /** How often the loops read the clock. */
  function Readings(c: Campaign, h: History): nat {
    Size(h) + if Size(h) < PlanSize(c.corpus) && !LastUnreaped(h) then 1 else 0
  }

  predicate Admitted(s: Setting) {
    var c := s.campaign;
    && ValidSubject(s.wellFormed, c.subject)
    && s.executableDigest == Some(c.subject.artifactDigest)
    && ValidPlan(c.codec, c.policy, c.corpus, s.corpusDigest)
    && s.engine.Some? && EngineFits(s.engine.value, c.corpus)
    && s.startedAt.Some? && s.startedAt.value != 0
  }

  /** The checks after the campaign. */
  predicate Measured(s: Setting, duration: nat)
    requires s.startedAt.Some?
  {
    && s.coverage.Some? && s.coverage.value <= 10_000
    && duration <= MAX_DURATION_MILLISECONDS
    && s.completedAt.Some? && s.completedAt.value >= s.startedAt.value
  }

  function ReportOf(s: Setting, t: Tally, duration: nat): Report
    requires Admitted(s) && Measured(s, duration)
  {
    Report(1, s.campaign.subject, PROTOCOL, s.engine.value, s.corpusDigest,
           s.startedAt.value, s.completedAt.value, t, s.coverage.value, duration)
  }

  function EvidenceOf(s: Setting, report: Report): Evidence {
    Evidence(report, s.campaign.policy, s.campaign.corpus, s.corpusDigest, s.executableDigest)
  }

  function Judge(s: Setting, report: Report): Verdict {
    var c := s.campaign;
    Evaluate(c.codec, s.wellFormed, EvidenceOf(s, report), c.subject, s.producer,
             report.startedAtUnix, report.completedAtUnix)
  }

  /** `run_with_clock`: no evidence at all, or a report with what the evaluator says of it. */
  function Worker(s: Setting): Option<Issued> {
    if !Admitted(s) then None
    else
      match Run(s.campaign, 0, Start)
      case None => None
      case Some(h) =>
        var duration := s.campaign.elapsed(Readings(s.campaign, h));
        if !Measured(s, duration) then None
        else
          var report := ReportOf(s, TallyOf(h), duration);
          Some(Issued(report, Judge(s, report)))
  }

  lemma AdmittedHasPlan(s: Setting)
    requires Admitted(s)
    ensures Plan(s.campaign.corpus).Some? && s.campaign.corpus.cases != []
    ensures PlanSize(s.campaign.corpus) <= MAX_EXECUTIONS
  {
    PlanIsExact(s.campaign.corpus);
  }

  lemma CampaignOf(s: Setting) returns (h: History)
    requires Worker(s).Some?
    ensures Run(s.campaign, 0, Start) == Some(h) && Admitted(s)
    ensures OnPlan(s.campaign, h) && Size(h) <= PlanSize(s.campaign.corpus) && Ended(s.campaign, h)
    ensures Measured(s, s.campaign.elapsed(Readings(s.campaign, h)))
    ensures Worker(s).value.report == ReportOf(s, TallyOf(h), s.campaign.elapsed(Readings(s.campaign, h)))
    ensures Worker(s).value.verdict == Judge(s, Worker(s).value.report)
  {
    h := Run(s.campaign, 0, Start).value;
    CampaignIsPlanPrefix(s.campaign, 0, Start);
  }

  function IfSo(b: bool): nat { if b then 1 else 0 }

  /** Each counter of a report counts the executions it is named after: those of inputs ... */
  lemma InputCountersAreNamed(before: History, e: Execution, o: Outcome)
    ensures
      var t, u, valid := TallyOf(before), TallyOf(Then(before, e, o)), e.testCase.kind == Valid;
      && u.totalExecutions == t.totalExecutions + 1
      && u.validInputs == t.validInputs + IfSo(valid)
      && u.validInputsAccepted == t.validInputsAccepted + IfSo(valid && o.disposition == Accepted)
      && u.malformedInputs == t.malformedInputs + IfSo(!valid)
      && u.malformedInputsRejected == t.malformedInputsRejected + IfSo(!valid && o.disposition == Rejected)
  {
  }

  /** ... and those of safety findings and violations. */
  lemma SafetyCountersAreNamed(before: History, e: Execution, o: Outcome)
    ensures
      var t, u := TallyOf(before), TallyOf(Then(before, e, o));
      && u.crashes == t.crashes + IfSo(o.safety.crash) && u.hangs == t.hangs + IfSo(o.safety.hang)
      && u.sanitizerFailures == t.sanitizerFailures + IfSo(o.safety.sanitizerFailure)
      && u.memoryLimitViolations == t.memoryLimitViolations + IfSo(o.safety.memoryLimitViolation)
  {
  }

  lemma ViolationCountersAreNamed(before: History, e: Execution, o: Outcome)
    ensures
      var t, u := TallyOf(before), TallyOf(Then(before, e, o));
      && u.stdoutProtocolViolations == t.stdoutProtocolViolations + IfSo(o.safety.stdoutProtocolViolation)
      && u.stderrLimitViolations == t.stderrLimitViolations + IfSo(o.safety.stderrLimitViolation)
      && u.deadlineViolations == t.deadlineViolations + IfSo(o.safety.deadlineViolation)
      && u.unreapedProcesses == t.unreapedProcesses + IfSo(o.safety.unreapedProcess)
  {
  }

  /** The accounting of a campaign satisfies the evaluator. */
  lemma TallyPassesAccounting(c: Campaign, h: History, r: Report)
    requires OnPlan(c, h) && Size(h) <= PlanSize(c.corpus) <= MAX_EXECUTIONS
    requires r.counts == TallyOf(h) && r.coverageBasisPoints <= 10_000
    ensures AccountingFaultOf(r) == None
  {
    InputsPartition(h);
    forall counter ensures CountOf(h, counter) <= Size(h) && CountOf(h, Executions) == Size(h) {
      CountIsBounded(h, counter);
    }
    forall i | 0 <= i < 8 ensures SafetyCounts(r.counts)[i] <= Size(h) {
      assert SafetyCounts(r.counts)[i] == CountOf(h, At(i));
    }
  }

  lemma TallyWithinPlan(c: Campaign, h: History, r: Report)
    requires OnPlan(c, h) && Size(h) <= PlanSize(c.corpus) <= MAX_EXECUTIONS
    requires r.counts == TallyOf(h) && EngineFits(r.engine, c.corpus)
    ensures WithinPlan(r, c.corpus)
  {
    PlanIsExact(c.corpus);
    CountIsBounded(h, Executions);
    InputsWithinPlan(c, h, Valid);
    InputsWithinPlan(c, h, Malformed);
  }

  predicate ProducerOk(p: Producer) {
    ValidToken(p.id) && ValidToken(p.version) && ValidDigest(p.environmentDigest)
  }

  /** The wall clock agrees with the monotonic one, and shows at most seven days. */
  predicate ClocksAgree(r: Report) {
    && r.startedAtUnix <= r.completedAtUnix && r.completedAtUnix - r.startedAtUnix <= MAX_STAGE_DURATION_SECONDS
    && r.durationMilliseconds <= Allowed(r.startedAtUnix, r.completedAtUnix)
  }

  /** Whatever the executor and the clocks do, the evaluator refuses the worker's own evidence exactly if the
      two clocks disagree or the producer is malformed, and never for its accounting or its corpus plan. */
  lemma WorkerEvidenceIsAccepted(s: Setting)
    requires Worker(s).Some?
    ensures
      var issued := Worker(s).value;
      && (issued.verdict.Judged? <==> ClocksAgree(issued.report) && ProducerOk(s.producer))
      && (issued.verdict.Refused? ==> issued.verdict.fault.TimingFault? || issued.verdict.fault.StageFault?)
  {
    var h := CampaignOf(s);
    AdmittedHasPlan(s);
    var r := Worker(s).value.report;
    TallyPassesAccounting(s.campaign, h, r);
    TallyWithinPlan(s.campaign, h, r);
    SafetySumIsExact(r);
    IdentityIsSound(s, r);
  }

  lemma IdentityIsSound(s: Setting, r: Report)
    requires Admitted(s) && Measured(s, r.durationMilliseconds) && r == ReportOf(s, r.counts, r.durationMilliseconds)
    requires AccountingFaultOf(r) == None
    ensures ReportFault(r, s.campaign.subject, r.startedAtUnix, r.completedAtUnix) ==
            if r.durationMilliseconds > Allowed(r.startedAtUnix, r.completedAtUnix) then Some(TimingFault) else None
  {
  }

  // ---------------------------------------------------------------------------------------------
  // What a passing verdict means
  // ---------------------------------------------------------------------------------------------

  const SAFE := Safety(false, false, false, false, false, false, false, false)

  predicate Good(kind: CaseClass, o: Outcome) {
    o == Outcome(if kind.Valid? then Accepted else Rejected, SAFE)
  }

  /** Every valid case was accepted, every malformed one rejected, and nothing unsafe was ever observed. */
  predicate Clean(h: History) {
    match h
    case Start => true
    case Then(before, e, o) => Clean(before) && Good(e.testCase.kind, o)
  }

  predicate NeverCounted(h: History) {
    forall counter :: SafetyCounter(counter) ==> CountOf(h, counter) == 0
  }

  lemma SafeExactlyWhen(kind: CaseClass, o: Outcome)
    ensures o.safety == SAFE <==> forall counter :: SafetyCounter(counter) ==> !Counts(counter, kind, o)
  {
    if forall counter :: SafetyCounter(counter) ==> !Counts(counter, kind, o) {
      assert !Counts(Crashes, kind, o) && !Counts(Hangs, kind, o);
      assert !Counts(SanitizerFailures, kind, o) && !Counts(MemoryLimitViolations, kind, o);
      assert !Counts(StdoutProtocolViolations, kind, o) && !Counts(StderrLimitViolations, kind, o);
      assert !Counts(DeadlineViolations, kind, o) && !Counts(UnreapedProcesses, kind, o);
    }
  }

  lemma {:induction false} CleanExactlyWhen(h: History)
    ensures Clean(h) <==>
            && NeverCounted(h)
            && CountOf(h, ValidAccepted) == CountOf(h, ValidInputs)
            && CountOf(h, MalformedRejected) == CountOf(h, MalformedInputs)
  {
    match h
    case Start =>
    case Then(before, e, o) =>
      CleanExactlyWhen(before);
      InputsPartition(before);
      SafeExactlyWhen(e.testCase.kind, o);
      NeverCountedThen(before, e, o);
  }

  lemma NeverCountedThen(before: History, e: Execution, o: Outcome)
    ensures NeverCounted(Then(before, e, o)) <==>
            NeverCounted(before) && forall counter :: SafetyCounter(counter) ==> !Counts(counter, e.testCase.kind, o)
  {
    var h := Then(before, e, o);
    forall counter
      ensures CountOf(h, counter) == 0 <==> CountOf(before, counter) == 0 && !Counts(counter, e.testCase.kind, o)
    {
    }
  }

  /** A passing verdict says exactly that the campaign was clean and met the policy: executions of either
      class, coverage and duration. */
  lemma PassingIsClean(s: Setting, h: History)
    requires Worker(s).Some? && Run(s.campaign, 0, Start) == Some(h)
    ensures
      var issued, policy := Worker(s).value, s.campaign.policy;
      issued.verdict == Judged(true) <==>
        && issued.verdict.Judged? && Clean(h)
        && Size(h) >= policy.minimumExecutions
        && CountOf(h, ValidInputs) >= policy.minimumValidInputs
        && CountOf(h, MalformedInputs) >= policy.minimumMalformedInputs
        && s.coverage.value >= policy.minimumCoverageBasisPoints
        && s.campaign.elapsed(Readings(s.campaign, h)) <= policy.maximumDurationMilliseconds
  {
    var same := CampaignOf(s);
    AdmittedHasPlan(s);
    var r := Worker(s).value.report;
    TallyPassesAccounting(s.campaign, h, r);
    SafetySumIsExact(r);
    CountIsBounded(h, Executions);
    CleanExactlyWhen(h);
    TallyEntries(h);
  }

  lemma TallyEntries(h: History)
    ensures forall counter :: Entry(TallyOf(h), counter) == CountOf(h, counter)
  {
  }

  /** With a clock that does not run backwards, a campaign that passes executed its whole plan, unless it
      ended exactly at its maximum duration. */
  lemma PassingIsComplete(s: Setting, h: History)
    requires Worker(s).Some? && Run(s.campaign, 0, Start) == Some(h) && Worker(s).value.verdict == Judged(true)
    requires forall i, j :: i <= j ==> s.campaign.elapsed(i) <= s.campaign.elapsed(j)
    ensures
      || Size(h) == PlanSize(s.campaign.corpus)
      || s.campaign.elapsed(Size(h)) == s.campaign.policy.maximumDurationMilliseconds
  {
    var same := CampaignOf(s);
    PassingIsClean(s, h);
    if Size(h) != PlanSize(s.campaign.corpus) {
      assert !LastUnreaped(h);
      assert s.campaign.elapsed(Size(h)) <= s.campaign.elapsed(Size(h) + 1);
    }
  }

  /** The counters tell how often the loops read the clock. */
  function ReadingsShown(c: Campaign, t: Tally): nat {
    t.totalExecutions + if t.totalExecutions < PlanSize(c.corpus) && t.unreapedProcesses == 0 then 1 else 0
  }

  lemma TallyShowsReadings(c: Campaign, h: History)
    requires Run(c, 0, Start) == Some(h)
    ensures ReadingsShown(c, TallyOf(h)) == Readings(c, h)
  {
    CampaignIsPlanPrefix(c, 0, Start);
    CountIsBounded(h, Executions);
    OneUnreaped(c, h);
  }

  /** The worker, with its loops. */
  method RunWorker(s: Setting) returns (issued: Option<Issued>)
    ensures issued == Worker(s)
  {
    if !Admitted(s) {
      return None;
    }
    AdmittedHasPlan(s);
    var tally := RunCampaign(s.campaign);
    if tally.None? {
      return None;
    }
    TallyShowsReadings(s.campaign, Run(s.campaign, 0, Start).value);
    var duration := s.campaign.elapsed(ReadingsShown(s.campaign, tally.value));
    if !Measured(s, duration) {
      return None;
    }
    var report := ReportOf(s, tally.value, duration);
    return Some(Issued(report, Judge(s, report)));
  }
}
