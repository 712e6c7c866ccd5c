/** What fuzz evidence of any origin, a forged report included, has to say to pass. */
module FuzzEvidence {
  import opened Bytes
  import opened Texts
  import opened Fuzz
  import opened FuzzWorker
  import opened FuzzEvaluator

  /** The stage: who made it, of what, and when. */
  datatype Stage = Stage(
    codec: Codec, wellFormed: Subject -> bool, subject: Subject, producer: Producer, startedAt: nat, completedAt: nat)

  function VerdictOf(s: Stage, e: Evidence): Verdict {
    Evaluate(s.codec, s.wellFormed, e, s.subject, s.producer, s.startedAt, s.completedAt)
  }

  /** Report, policy and corpus belong together and to the subject's executable. */
  predicate Belongs(s: Stage, e: Evidence) {
    && ValidPolicy(e.policy) && ValidCorpus(s.codec, e.corpus) && e.policy.corpusId == e.corpus.corpusId
    && e.policy.corpusDigest == e.report.corpusDigest == e.corpusDigest
    && e.executableDigest == Some(s.subject.artifactDigest)
    && e.report.subject == s.subject && ValidSubject(s.wellFormed, s.subject)
    && e.report.schemaVersion == 1 && e.report.protocol == PROTOCOL
    && ValidToken(s.producer.id) && ValidToken(s.producer.version) && ValidDigest(s.producer.environmentDigest)
  }

  /** Every required sanitizer was active, and whatever was active is supported and in order. */
  predicate Sanitized(e: Evidence) {
    ValidEngine(e.report.engine) && forall x :: x in e.corpus.limits.requiredSanitizers ==>
      x in e.report.engine.activeSanitizers
  }

  /** The report's times are the stage's, and its duration fits between them. */
  predicate Timely(s: Stage, r: Report) {
    && 0 < s.startedAt == r.startedAtUnix && s.startedAt <= s.completedAt == r.completedAtUnix
    && s.completedAt - s.startedAt <= 604_800
    && r.durationMilliseconds <= 604_800_000
    && r.durationMilliseconds < 1_000 * (s.completedAt - s.startedAt + 1)
  }

  /** How many executions of a class the corpus plans. */
  function Planned(corpus: Corpus, kind: CaseClass): nat {
    corpus.repetitions * |Places(corpus.cases, |corpus.cases|, kind)|
  }

  predicate Feasible(e: Evidence) {
    && e.policy.minimumExecutions <= e.corpus.repetitions * |e.corpus.cases|
    && e.policy.minimumValidInputs <= Planned(e.corpus, Valid)
    && e.policy.minimumMalformedInputs <= Planned(e.corpus, Malformed)
  }

  /** The counters are those of at most the planned executions. */
  predicate Accounted(e: Evidence) {
    var t := e.report.counts;
    && t.totalExecutions == t.validInputs + t.malformedInputs
    && t.totalExecutions <= e.corpus.repetitions * |e.corpus.cases|
    && t.validInputsAccepted <= t.validInputs <= Planned(e.corpus, Valid)
    && t.malformedInputsRejected <= t.malformedInputs <= Planned(e.corpus, Malformed)
    && t.crashes <= t.totalExecutions && t.hangs <= t.totalExecutions
    && t.sanitizerFailures <= t.totalExecutions && t.memoryLimitViolations <= t.totalExecutions
    && t.stdoutProtocolViolations <= t.totalExecutions && t.stderrLimitViolations <= t.totalExecutions
    && t.deadlineViolations <= t.totalExecutions && t.unreapedProcesses <= t.totalExecutions
    && e.report.coverageBasisPoints <= 10_000
  }

  predicate Clean(t: Tally) {
    && t.validInputsAccepted == t.validInputs && t.malformedInputsRejected == t.malformedInputs
    && t.crashes == 0 && t.hangs == 0 && t.sanitizerFailures == 0 && t.memoryLimitViolations == 0
    && t.stdoutProtocolViolations == 0 && t.stderrLimitViolations == 0
    && t.deadlineViolations == 0 && t.unreapedProcesses == 0
  }

  predicate Enough(r: Report, p: Policy) {
    && r.counts.totalExecutions >= p.minimumExecutions
    && r.counts.validInputs >= p.minimumValidInputs
    && r.counts.malformedInputs >= p.minimumMalformedInputs
    && r.coverageBasisPoints >= p.minimumCoverageBasisPoints
    && r.durationMilliseconds <= p.maximumDurationMilliseconds
  }

  function Places(cases: seq<Case>, k: nat, kind: CaseClass): set<int>
    requires k <= |cases|
  {
    set i | 0 <= i < k && cases[i].kind == kind
  }

  lemma NextPlace(cases: seq<Case>, k: nat, kind: CaseClass, before: set<int>, after: set<int>)
    requires k < |cases| && before == Places(cases, k, kind) && after == Places(cases, k + 1, kind)
    ensures |after| == |before| + if cases[k].kind == kind then 1 else 0
  {
    assert k !in before;
    assert after == if cases[k].kind == kind then before + {k} else before;
  }

  lemma {:induction false} ClassIsCounted(cases: seq<Case>, k: nat, kind: CaseClass)
    requires k <= |cases|
    ensures CountClass(cases, k, kind) == |Places(cases, k, kind)|
  {
    if k > 0 {
      ClassIsCounted(cases, k - 1, kind);
      NextPlace(cases, k - 1, kind, Places(cases, k - 1, kind), Places(cases, k, kind));
    }
  }

  lemma PlannedIsCounted(corpus: Corpus, kind: CaseClass)
    ensures Planned(corpus, kind) == corpus.repetitions * CountClass(corpus.cases, |corpus.cases|, kind)
  {
    ClassIsCounted(corpus.cases, |corpus.cases|, kind);
  }

  lemma PlanIsPlanned(corpus: Corpus)
    ensures Plan(corpus).Some? <==> PlanSize(corpus) <= MAX_EXECUTIONS
    ensures Plan(corpus).Some? ==>
              Plan(corpus).value ==
              PlannedCounts(PlanSize(corpus), Planned(corpus, Valid), Planned(corpus, Malformed))
  {
    PlanIsExact(corpus);
    PlannedIsCounted(corpus, Valid);
    PlannedIsCounted(corpus, Malformed);
  }

  lemma CountsAreSmall(r: Report)
    ensures (forall i :: 0 <= i < 8 ==> SafetyCounts(r.counts)[i] <= r.counts.totalExecutions) <==>
            (var t := r.counts;
             && t.crashes <= t.totalExecutions && t.hangs <= t.totalExecutions
             && t.sanitizerFailures <= t.totalExecutions && t.memoryLimitViolations <= t.totalExecutions
             && t.stdoutProtocolViolations <= t.totalExecutions && t.stderrLimitViolations <= t.totalExecutions
             && t.deadlineViolations <= t.totalExecutions && t.unreapedProcesses <= t.totalExecutions)
  {
    var c := SafetyCounts(r.counts);
    if forall i :: 0 <= i < 8 ==> c[i] <= r.counts.totalExecutions {
      assert c[0] <= r.counts.totalExecutions && c[1] <= r.counts.totalExecutions;
      assert c[2] <= r.counts.totalExecutions && c[3] <= r.counts.totalExecutions;
      assert c[4] <= r.counts.totalExecutions && c[5] <= r.counts.totalExecutions;
      assert c[6] <= r.counts.totalExecutions && c[7] <= r.counts.totalExecutions;
    }
  }

  lemma AccountedExactlyWhen(e: Evidence)
    requires PlanSize(e.corpus) <= MAX_EXECUTIONS && Sanitized(e)
    ensures AccountingFaultOf(e.report) == None && WithinPlan(e.report, e.corpus) <==> Accounted(e)
  {
    PlanIsPlanned(e.corpus);
    FittingEngineCovers(e.report.engine, e.corpus);
    CountsAreSmall(e.report);
  }

  /** The part of `Timely` that the report's own check leaves. */
  predicate Times(r: Report, startedAt: nat, completedAt: nat) {
    && r.startedAtUnix != 0 && r.startedAtUnix == startedAt && r.completedAtUnix == completedAt
    && r.startedAtUnix <= r.completedAtUnix && r.durationMilliseconds <= MAX_DURATION_MILLISECONDS
    && r.durationMilliseconds <= Allowed(r.startedAtUnix, r.completedAtUnix)
  }

  lemma TimelyExactlyWhen(s: Stage, r: Report)
    ensures Times(r, s.startedAt, s.completedAt) && s.completedAt - s.startedAt <= MAX_STAGE_DURATION_SECONDS
            <==> Timely(s, r)
  {
  }

  predicate Identified(r: Report, subject: Subject) {
    && r.schemaVersion == 1 && r.subject == subject && subject.apiVersion == 1 && r.protocol == PROTOCOL
    && ValidToken(r.engine.id) && ValidToken(r.engine.version) && ValidDigest(r.corpusDigest)
  }

  lemma FaultlessExactlyWhen(r: Report, subject: Subject, startedAt: nat, completedAt: nat)
    ensures ReportFault(r, subject, startedAt, completedAt) == None <==>
            && Identified(r, subject) && ValidEngine(r.engine) && Times(r, startedAt, completedAt)
            && AccountingFaultOf(r) == None
  {
  }

  lemma StageIsOkExactlyWhen(s: Stage, e: Evidence)
    requires ValidPolicy(e.policy) && ValidCorpus(s.codec, e.corpus) && e.policy.corpusId == e.corpus.corpusId
    requires e.policy.corpusDigest == e.corpusDigest == e.report.corpusDigest
    ensures
      && Identified(e.report, s.subject) && Times(e.report, s.startedAt, s.completedAt)
      && StageOk(s.wellFormed, s.subject, s.producer, s.startedAt, s.completedAt)
      && e.executableDigest == Some(s.subject.artifactDigest) && ValidEngine(e.report.engine)
      <==> Belongs(s, e) && Timely(s, e.report) && ValidEngine(e.report.engine)
  {
    TimelyExactlyWhen(s, e.report);
  }

  lemma ReportIsSoundExactlyWhen(s: Stage, e: Evidence)
    requires ValidPolicy(e.policy) && ValidCorpus(s.codec, e.corpus) && e.policy.corpusId == e.corpus.corpusId
    requires e.policy.corpusDigest == e.corpusDigest == e.report.corpusDigest && PlanSize(e.corpus) <= MAX_EXECUTIONS
    ensures
      && ReportFault(e.report, s.subject, s.startedAt, s.completedAt) == None && WithinPlan(e.report, e.corpus)
      && StageOk(s.wellFormed, s.subject, s.producer, s.startedAt, s.completedAt)
      && e.executableDigest == Some(s.subject.artifactDigest)
      <==> Belongs(s, e) && Sanitized(e) && Timely(s, e.report) && Accounted(e)
  {
    FaultlessExactlyWhen(e.report, s.subject, s.startedAt, s.completedAt);
    StageIsOkExactlyWhen(s, e);
    SanitizedWhereWithinPlan(e);
    if Sanitized(e) {
      AccountedExactlyWhen(e);
    }
  }

  lemma SanitizedWhereWithinPlan(e: Evidence)
    ensures WithinPlan(e.report, e.corpus) ==> Sanitized(e)
  {
    if ValidEngine(e.report.engine) {
      FittingEngineCovers(e.report.engine, e.corpus);
    }
  }

  lemma PlanIsValidExactlyWhen(s: Stage, e: Evidence)
    ensures ValidPlan(s.codec, e.policy, e.corpus, e.corpusDigest) <==>
            && ValidPolicy(e.policy) && ValidCorpus(s.codec, e.corpus) && e.policy.corpusId == e.corpus.corpusId
            && e.policy.corpusDigest == e.corpusDigest && Feasible(e)
  {
    PlanIsPlanned(e.corpus);
  }

  /** Evidence is judged exactly if it is in order, and it passes exactly if it is also clean and enough. */
  lemma PassesExactlyWhen(s: Stage, e: Evidence)
    ensures VerdictOf(s, e).Judged? <==>
            Belongs(s, e) && Feasible(e) && Sanitized(e) && Timely(s, e.report) && Accounted(e)
    ensures VerdictOf(s, e) == Judged(true) <==>
            VerdictOf(s, e).Judged? && Clean(e.report.counts) && Enough(e.report, e.policy)
  {
    PlanIsValidExactlyWhen(s, e);
    if ValidPlan(s.codec, e.policy, e.corpus, e.corpusDigest) && e.report.corpusDigest == e.corpusDigest {
      ReportIsSoundExactlyWhen(s, e);
      if AccountingFaultOf(e.report) == None {
        SumIsExact(e.report);
      }
    }
  }

  lemma SumIsExact(r: Report)
    requires AccountingFaultOf(r) == None
    ensures CheckedSum(SafetyCounts(r.counts), 8).Some?
    ensures CheckedSum(SafetyCounts(r.counts), 8).value == 0 <==>
            (var t := r.counts;
             && t.crashes == 0 && t.hangs == 0 && t.sanitizerFailures == 0 && t.memoryLimitViolations == 0
             && t.stdoutProtocolViolations == 0 && t.stderrLimitViolations == 0
             && t.deadlineViolations == 0 && t.unreapedProcesses == 0)
  {
    var c := SafetyCounts(r.counts);
    SumOfBounded(c, 8);
    assert (forall i :: 0 <= i < 8 ==> c[i] == 0) ==>
             c[0] == 0 && c[1] == 0 && c[2] == 0 && c[3] == 0 && c[4] == 0 && c[5] == 0 && c[6] == 0 && c[7] == 0;
  }
}
