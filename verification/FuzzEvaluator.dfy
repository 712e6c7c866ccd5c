/** The independent evaluator of protocol-fuzz evidence: it recomputes what a report may claim and gives the
    verdict of the stage. */
module FuzzEvaluator {
  import opened Bytes
  import opened Texts
  import opened Fuzz
  import opened FuzzWorker

  const MAX_STAGE_DURATION_SECONDS: nat := 7 * 24 * 60 * 60

  datatype Report = Report(
    schemaVersion: nat, subject: Subject, protocol: string, engine: Engine, corpusDigest: string,
    startedAtUnix: nat, completedAtUnix: nat, counts: Tally, coverageBasisPoints: nat, durationMilliseconds: nat)

  datatype Producer = Producer(id: string, version: string, environmentDigest: string)

  datatype Fault = PlanFault | ArtifactFault | DigestFault | IdentityFault | SanitizerFault | TimingFault
    | AccountingFault | CorpusFault | StageFault

  datatype Verdict = Refused(fault: Fault) | Judged(ok: bool)

  /** The texts of a subject, which only have to be well formed. */
  predicate ValidSubject(wellFormed: Subject -> bool, s: Subject) {
    wellFormed(s) && s.apiVersion == 1 && ValidDigest(s.artifactDigest) && ValidDigest(s.packageDigest)
  }

  /** The longest monotonic duration that two wall-clock readings allow. */
  function Allowed(startedAt: nat, completedAt: nat): nat
    requires startedAt <= completedAt
  {
    Saturated(Saturated((completedAt - startedAt) * 1_000) + 999)
  }

  function SafetyCounts(t: Tally): seq<nat> {
    [t.crashes, t.hangs, t.sanitizerFailures, t.memoryLimitViolations,
     t.stdoutProtocolViolations, t.stderrLimitViolations, t.deadlineViolations, t.unreapedProcesses]
  }

  /** The `try_fold` over the safety counters. */
  function CheckedSum(counts: seq<nat>, k: nat): Option<nat>
    requires k <= |counts|
  {
    if k == 0 then Some(0)
    else
      match CheckedSum(counts, k - 1)
      case None => None
      case Some(total) => CheckedAdd(total, counts[k - 1])
  }

  /** `validate_fuzz_report`: the first fault it finds. */
  function ReportFault(r: Report, subject: Subject, startedAt: nat, completedAt: nat): Option<Fault> {
    if r.schemaVersion != 1 || r.subject != subject || r.subject.apiVersion != 1 || r.protocol != PROTOCOL
       || !ValidToken(r.engine.id) || !ValidToken(r.engine.version) || !ValidDigest(r.corpusDigest) then
      Some(IdentityFault)
    else if r.engine.activeSanitizers == [] || (exists s :: s in r.engine.activeSanitizers && s !in SANITIZERS)
            || !Ascending(r.engine.activeSanitizers) then
      Some(SanitizerFault)
    else if r.startedAtUnix == 0 || r.startedAtUnix != startedAt || r.completedAtUnix != completedAt
            || r.completedAtUnix < r.startedAtUnix || r.durationMilliseconds > MAX_DURATION_MILLISECONDS
            || r.durationMilliseconds > Allowed(r.startedAtUnix, r.completedAtUnix) then
      Some(TimingFault)
    else AccountingFaultOf(r)
  }

  function AccountingFaultOf(r: Report): Option<Fault> {
    match CheckedAdd(r.counts.validInputs, r.counts.malformedInputs)
    case None => Some(AccountingFault)
    case Some(classified) =>
      if r.counts.totalExecutions > MAX_EXECUTIONS || r.counts.totalExecutions != classified
         || r.counts.validInputsAccepted > r.counts.validInputs
         || r.counts.malformedInputsRejected > r.counts.malformedInputs || r.coverageBasisPoints > 10_000
         || (exists i :: 0 <= i < 8 && SafetyCounts(r.counts)[i] > r.counts.totalExecutions) then
        Some(AccountingFault)
      else None
  }

  /** `validate_report_corpus` */
  predicate WithinPlan(r: Report, corpus: Corpus) {
    && EngineFits(r.engine, corpus)
    && match Plan(corpus)
       case None => false
       case Some(planned) =>
         && r.counts.totalExecutions <= planned.total
         && r.counts.validInputs <= planned.valid
         && r.counts.malformedInputs <= planned.malformed
  }

  predicate Passes(r: Report, policy: Policy, failures: nat) {
    && r.counts.totalExecutions >= policy.minimumExecutions
    && r.counts.validInputs >= policy.minimumValidInputs
    && r.counts.malformedInputs >= policy.minimumMalformedInputs
    && r.coverageBasisPoints >= policy.minimumCoverageBasisPoints
    && r.durationMilliseconds <= policy.maximumDurationMilliseconds
    && r.counts.validInputsAccepted == r.counts.validInputs
    && r.counts.malformedInputsRejected == r.counts.malformedInputs
    && failures == 0
  }

  /** What `validate_stage` still has to check of the stage that the evaluator builds. */
  predicate StageOk(
      wellFormed: Subject -> bool, subject: Subject, producer: Producer, startedAt: nat, completedAt: nat)
  {
    && ValidSubject(wellFormed, subject)
    && ValidToken(producer.id) && ValidToken(producer.version) && ValidDigest(producer.environmentDigest)
    && startedAt != 0 && startedAt <= completedAt && completedAt - startedAt <= MAX_STAGE_DURATION_SECONDS
  }

  datatype Evidence = Evidence(
    report: Report, policy: Policy, corpus: Corpus, corpusDigest: string, executableDigest: Option<string>)

  /** `evaluate_protocol_fuzzing`, on parsed documents and computed digests. */
  function Evaluate(
      codec: Codec, wellFormed: Subject -> bool, e: Evidence, subject: Subject, producer: Producer,
      startedAt: nat, completedAt: nat): Verdict
  {
    if !ValidPlan(codec, e.policy, e.corpus, e.corpusDigest) then Refused(PlanFault)
    else if e.executableDigest != Some(subject.artifactDigest) then Refused(ArtifactFault)
    else if e.report.corpusDigest != e.corpusDigest then Refused(DigestFault)
    else
      match ReportFault(e.report, subject, startedAt, completedAt)
      case Some(fault) => Refused(fault)
      case None =>
        if !WithinPlan(e.report, e.corpus) then Refused(CorpusFault)
        else
          match CheckedSum(SafetyCounts(e.report.counts), 8)
          case None => Refused(AccountingFault)
          case Some(failures) =>
            if !StageOk(wellFormed, subject, producer, startedAt, completedAt) then Refused(StageFault)
            else Judged(Passes(e.report, e.policy, failures))
  }

  /** Sums of bounded counters never overflow, and are zero only if every counter is. */
  lemma {:induction false} SumOfBounded(counts: seq<nat>, k: nat)
    requires k <= |counts| <= 8 && forall i :: 0 <= i < |counts| ==> counts[i] <= MAX_EXECUTIONS
    ensures CheckedSum(counts, k).Some? && CheckedSum(counts, k).value <= k * MAX_EXECUTIONS
    ensures CheckedSum(counts, k).value == 0 <==> forall i :: 0 <= i < k ==> counts[i] == 0
  {
    if k > 0 {
      SumOfBounded(counts, k - 1);
    }
  }

  predicate SafetyCounter(counter: Counter) {
    && !counter.Executions? && !counter.ValidInputs? && !counter.ValidAccepted?
    && !counter.MalformedInputs? && !counter.MalformedRejected?
  }

  /** Whoever passes the accounting checks has a safety sum, zero exactly when no safety counter counted. */
  lemma SafetySumIsExact(r: Report)
    requires AccountingFaultOf(r) == None
    ensures CheckedSum(SafetyCounts(r.counts), 8).Some?
    ensures CheckedSum(SafetyCounts(r.counts), 8).value == 0 <==>
            forall counter :: SafetyCounter(counter) ==> Entry(r.counts, counter) == 0
  {
    var counts := SafetyCounts(r.counts);
    SumOfBounded(counts, 8);
    forall counter | SafetyCounter(counter) ensures exists i :: 0 <= i < 8 && counts[i] == Entry(r.counts, counter) {
      var i := Place(counter);
      assert counts[i] == Entry(r.counts, counter);
    }
    forall i | 0 <= i < 8 ensures exists counter :: SafetyCounter(counter) && counts[i] == Entry(r.counts, counter) {
      assert SafetyCounter(At(i)) && counts[i] == Entry(r.counts, At(i));
    }
  }

  function Place(counter: Counter): (i: nat)
    requires SafetyCounter(counter)
    ensures i < 8
  {
    match counter
    case Crashes => 0
    case Hangs => 1
    case SanitizerFailures => 2
    case MemoryLimitViolations => 3
    case StdoutProtocolViolations => 4
    case StderrLimitViolations => 5
    case DeadlineViolations => 6
    case UnreapedProcesses => 7
  }

  function At(i: nat): (counter: Counter)
    requires i < 8
    ensures SafetyCounter(counter) && Place(counter) == i
  {
    [Crashes, Hangs, SanitizerFailures, MemoryLimitViolations,
     StdoutProtocolViolations, StderrLimitViolations, DeadlineViolations, UnreapedProcesses][i]
  }
}
