/** The native executor: it turns a driver's observation of a confined process into the outcome the campaign
    records, asking the protocol oracle only about processes that stayed within every bound. */
module Confinement {
  import opened Bytes
  import opened Texts
  import opened Fuzz
  import opened FuzzWorker
  import opened FuzzEvaluator
  import opened FuzzCertification

  datatype Platform = Windows | Linux | Macos

  datatype Control =
    | FreshProcess | FilesystemIsolation | NetworkIsolation | ProcessTreeIsolation | MemoryHardLimit
    | StdoutHardLimit | StderrHardLimit | DeadlineTermination | GuaranteedReap
    | WindowsAppContainer | WindowsJobObject
    | LinuxMountNamespace | LinuxNetworkNamespace | LinuxPidNamespace | LinuxSeccomp | LinuxLandlock | LinuxCgroupV2
    | MacosSandboxProfile | MacosProcessGroup | MacosResourceLimits

  const COMMON_CONTROLS: seq<Control> :=
    [FreshProcess, FilesystemIsolation, NetworkIsolation, ProcessTreeIsolation, MemoryHardLimit,
     StdoutHardLimit, StderrHardLimit, DeadlineTermination, GuaranteedReap]

  function RequiredControls(platform: Platform): seq<Control> {
    COMMON_CONTROLS +
    match platform
    case Windows => [WindowsAppContainer, WindowsJobObject]
    case Linux =>
      [LinuxMountNamespace, LinuxNetworkNamespace, LinuxPidNamespace, LinuxSeccomp, LinuxLandlock, LinuxCgroupV2]
    case Macos => [MacosSandboxProfile, MacosProcessGroup, MacosResourceLimits]
  }

  datatype Profile = Profile(
    schemaVersion: nat, backendId: string, backendVersion: string, platform: Platform, policyDigest: string,
    controls: seq<Control>, engine: Engine)

  datatype Termination = Exited(code: int) | Signaled(signal: nat) | Exception(exception: nat) | DeadlineKilled
    | MemoryLimitKilled

  datatype Observation = Observation(
    attemptId: string, policyDigest: string, appliedControls: seq<Control>, activeSanitizers: seq<string>,
    termination: Termination, stdout: seq<byte>, stderr: seq<byte>,
    durationMilliseconds: nat, peakMemoryBytes: nat,
    stdoutLimitExceeded: bool, stdoutProtocolViolation: bool, stderrLimitExceeded: bool,
    sanitizerFailure: bool, processReaped: bool)

  datatype Assessment = Assessment(disposition: Disposition, stdoutProtocolViolation: bool)

  datatype ErrorKind = ProfileDrift | InvalidExecution | DriverFailure | InvalidObservation | OracleFailure

  datatype Answer = Answered(outcome: Outcome) | Errored(kind: ErrorKind)

  datatype Sighting = Seen(observation: Observation) | Unseen(kind: ErrorKind)

  /** A driver, as the profile it shows at each execution and what it observes of it, an oracle, the profile
      accepted at construction and the digest that names an attempt. */
  datatype Native = Native(
    profileAt: Execution -> Option<Profile>,
    observe: (string, Execution) -> Option<Observation>,
    oracle: (Execution, Observation) -> Option<Assessment>,
    profile: Profile,
    attemptId: Execution -> string)

  predicate StartsWith(s: string, prefix: string) { |prefix| <= |s| && s[..|prefix|] == prefix }

  predicate SubjectMatches(platform: string, p: Platform) {
    match p
    case Windows => StartsWith(platform, "windows-")
    case Linux => StartsWith(platform, "linux-")
    case Macos => StartsWith(platform, "darwin-")
  }

  /** `validate_observation` */
  predicate ObservationOk(profile: Profile, e: Execution, id: string, o: Observation) {
    && o.attemptId == id && o.policyDigest == profile.policyDigest
    && o.appliedControls == profile.controls && o.activeSanitizers == profile.engine.activeSanitizers
    && |o.stdout| <= e.limits.maximumStdoutBytes && |o.stderr| <= e.limits.maximumStderrBytes
    && (o.stdoutLimitExceeded ==> |o.stdout| == e.limits.maximumStdoutBytes)
    && (o.stderrLimitExceeded ==> |o.stderr| == e.limits.maximumStderrBytes)
  }

  /** The process exited on its own, in time, within its memory and stream limits, and was reaped. */
  predicate StayedWithin(e: Execution, o: Observation) {
    && o.termination.Exited?
    && o.durationMilliseconds <= e.deadlineMilliseconds
    && o.peakMemoryBytes <= e.limits.maximumMemoryBytes
    && !o.stdoutLimitExceeded && !o.stdoutProtocolViolation && !o.stderrLimitExceeded
    && !o.sanitizerFailure && o.processReaped
  }

  /** What a native finding is called in the outcome. */
  function Findings(e: Execution, o: Observation): Safety {
    var late := o.termination.DeadlineKilled? || o.durationMilliseconds > e.deadlineMilliseconds;
    Safety(
      o.termination.Signaled? || o.termination.Exception?, late, o.sanitizerFailure,
      o.termination.MemoryLimitKilled? || o.peakMemoryBytes > e.limits.maximumMemoryBytes,
      o.stdoutLimitExceeded || o.stdoutProtocolViolation, o.stderrLimitExceeded, late, !o.processReaped)
  }

  /** A finding is raised exactly for a process that did not stay within its bounds. */
  lemma FindingsAreExact(e: Execution, o: Observation)
    ensures Findings(e, o) == SAFE <==> StayedWithin(e, o)
  {
    match o.termination
    case Exited(_) =>
    case _ =>
  }

  function Judgement(a: Assessment): Outcome {
    if a.stdoutProtocolViolation then Outcome(NoDecision, SAFE.(stdoutProtocolViolation := true))
    else Outcome(a.disposition, SAFE)
  }

  /** The driver's observation of an execution, if it passes every check. */
  function Observed(n: Native, e: Execution): Sighting {
    match n.profileAt(e)
    case None => Unseen(DriverFailure)
    case Some(current) =>
      if current != n.profile then Unseen(ProfileDrift)
      else if !SubjectMatches(e.subject.platform, n.profile.platform) then Unseen(InvalidExecution)
      else
        match n.observe(n.attemptId(e), e)
        case None => Unseen(DriverFailure)
        case Some(o) =>
          if ObservationOk(n.profile, e, n.attemptId(e), o) then Seen(o) else Unseen(InvalidObservation)
  }

  /** What an execution is answered with. */
  function Execute(n: Native, e: Execution): Answer {
    match Observed(n, e)
    case Unseen(kind) => Errored(kind)
    case Seen(o) =>
      if !StayedWithin(e, o) then Answered(Outcome(NoDecision, Findings(e, o)))
      else
        match n.oracle(e, o)
        case None => Errored(OracleFailure)
        case Some(a) => Answered(Judgement(a))
  }

  /** `execute`, which raises its findings one by one, asks the oracle only if there is none, and then may
      still raise one more. */
  method ExecuteNative(n: Native, e: Execution) returns (answer: Answer, consulted: bool)
    ensures answer == Execute(n, e)
    ensures consulted <==> Observed(n, e).Seen? && StayedWithin(e, Observed(n, e).observation)
  {
    var current := n.profileAt(e);
    if current.None? {
      return Errored(DriverFailure), false;
    }
    if current.value != n.profile {
      return Errored(ProfileDrift), false;
    }
    if !SubjectMatches(e.subject.platform, current.value.platform) {
      return Errored(InvalidExecution), false;
    }
    var attemptId := n.attemptId(e);
    var observed := n.observe(attemptId, e);
    if observed.None? {
      return Errored(DriverFailure), false;
    }
    var o := observed.value;
    if !ObservationOk(current.value, e, attemptId, o) {
      return Errored(InvalidObservation), false;
    }
    var crash := o.termination.Signaled? || o.termination.Exception?;
    var deadline := o.termination.DeadlineKilled? || o.durationMilliseconds > e.deadlineMilliseconds;
    var memory := o.termination.MemoryLimitKilled? || o.peakMemoryBytes > e.limits.maximumMemoryBytes;
    var unreaped := !o.processReaped;
    var safety := Safety(
      crash, deadline, o.sanitizerFailure, memory,
      o.stdoutLimitExceeded || o.stdoutProtocolViolation, o.stderrLimitExceeded, deadline, unreaped);
    var disposition := NoDecision;
    FindingsAreExact(e, o);
    if crash || deadline || memory || o.sanitizerFailure || o.stdoutLimitExceeded || o.stdoutProtocolViolation
       || o.stderrLimitExceeded || unreaped {
      return Answered(Outcome(disposition, safety)), false;
    }
    var assessment := n.oracle(e, o);
    if assessment.None? {
      return Errored(OracleFailure), true;
    }
    if assessment.value.stdoutProtocolViolation {
      safety := safety.(stdoutProtocolViolation := true);
    } else {
      disposition := assessment.value.disposition;
    }
    return Answered(Outcome(disposition, safety)), true;
  }

  /** Each flag of an answer says what the driver observed, and one also what the oracle did; and the disposition is
      the oracle's, if there is nothing to report. */
  lemma AnswersAreExact(n: Native, e: Execution)
    requires Execute(n, e).Answered?
    ensures
      var o, safety := Observed(n, e).observation, Execute(n, e).outcome.safety;
      && Observed(n, e).Seen?
      && (safety.crash <==> o.termination.Signaled? || o.termination.Exception?)
      && (safety.hang <==> o.termination.DeadlineKilled? || o.durationMilliseconds > e.deadlineMilliseconds)
      && (safety.deadlineViolation <==> safety.hang)
      && (safety.sanitizerFailure <==> o.sanitizerFailure)
      && (safety.memoryLimitViolation <==>
            o.termination.MemoryLimitKilled? || o.peakMemoryBytes > e.limits.maximumMemoryBytes)
      && (safety.stderrLimitViolation <==> o.stderrLimitExceeded)
      && (safety.unreapedProcess <==> !o.processReaped)
      && (safety.stdoutProtocolViolation <==>
            || o.stdoutLimitExceeded || o.stdoutProtocolViolation
            || (StayedWithin(e, o) && n.oracle(e, o).Some? && n.oracle(e, o).value.stdoutProtocolViolation))
    ensures
      var o := Observed(n, e).observation;
      Execute(n, e).outcome.disposition ==
        if StayedWithin(e, o) && n.oracle(e, o).Some? && !n.oracle(e, o).value.stdoutProtocolViolation
        then n.oracle(e, o).value.disposition else NoDecision
  {
    FindingsAreExact(e, Observed(n, e).observation);
  }

  /** Which error is reported where there is no answer. */
  lemma ErrorsAreExact(n: Native, e: Execution)
    requires Execute(n, e).Errored?
    ensures
      var kind, current, o := Execute(n, e).kind, n.profileAt(e), n.observe(n.attemptId(e), e);
      && (kind == ProfileDrift <==> current.Some? && current.value != n.profile)
      && (kind == InvalidExecution <==>
            current == Some(n.profile) && !SubjectMatches(e.subject.platform, n.profile.platform))
      && (kind == OracleFailure ==> o.Some? && StayedWithin(e, o.value) && n.oracle(e, o.value) == None)
      && (kind == InvalidObservation ==> o.Some? && !ObservationOk(n.profile, e, n.attemptId(e), o.value))
      && (kind == DriverFailure ==> current.None? || o.None?)
  {
  }

  /** After a native finding the oracle has no say: any other oracle gives the same answer. */
  lemma OracleHasNoSay(n: Native, other: (Execution, Observation) -> Option<Assessment>, e: Execution)
    requires Observed(n, e).Seen? && !StayedWithin(e, Observed(n, e).observation)
    ensures Execute(n, e) == Execute(n.(oracle := other), e)
    ensures
      && Execute(n, e).Answered? && Execute(n, e).outcome.disposition == NoDecision
      && Execute(n, e).outcome.safety != SAFE
  {
    FindingsAreExact(e, Observed(n, e).observation);
  }

  /** The executor that a campaign sees: error kinds are not told apart. */
  function AsExecutor(n: Native): Execution -> Option<Outcome> {
    (e: Execution) => match Execute(n, e) case Answered(o) => Some(o) case Errored(_) => None
  }

  /** The process of an execution was confined as the profile says, stayed within every bound, and the oracle
      judged it as its class of case demands. */
  predicate Confined(n: Native, e: Execution) {
    && n.profileAt(e) == Some(n.profile)
    && SubjectMatches(e.subject.platform, n.profile.platform)
    && match n.observe(n.attemptId(e), e)
       case None => false
       case Some(o) =>
         && ObservationOk(n.profile, e, n.attemptId(e), o) && StayedWithin(e, o)
         && n.oracle(e, o) == Some(Assessment(if e.testCase.kind.Valid? then Accepted else Rejected, false))
  }

  lemma GoodExactlyWhenConfined(n: Native, e: Execution)
    ensures (exists o :: Execute(n, e) == Answered(o) && Good(e.testCase.kind, o)) <==> Confined(n, e)
  {
    if Observed(n, e).Seen? {
      FindingsAreExact(e, Observed(n, e).observation);
    }
    if Confined(n, e) {
      assert Execute(n, e) == Answered(Outcome(if e.testCase.kind.Valid? then Accepted else Rejected, SAFE));
    }
  }

  predicate AllConfined(n: Native, h: History) {
    match h
    case Start => true
    case Then(before, e, _) => AllConfined(n, before) && Confined(n, e)
  }

  lemma {:induction false} CleanExactlyWhenConfined(c: Campaign, n: Native, h: History)
    requires c.execute == AsExecutor(n) && OnPlan(c, h)
    ensures Clean(h) <==> AllConfined(n, h)
  {
    match h
    case Start =>
    case Then(before, e, o) =>
      CleanExactlyWhenConfined(c, n, before);
      GoodExactlyWhenConfined(n, e);
      assert c.execute(e) == Some(o) && Execute(n, e) == Answered(o);
  }

  /** Across the three layers: a stage passes exactly if it ran every execution of its campaign in a process
      that was confined, exited on its own within its deadline, memory and stream limits, was reaped and was
      judged by the oracle as its case demands, and the campaign meets the policy. */
  lemma PassingStageIsConfined(s: Setting, n: Native, h: History)
    requires s.campaign.execute == AsExecutor(n) && Run(s.campaign, 0, Start) == Some(h) && Worker(s).Some?
    ensures
      var verdict, policy := Worker(s).value.verdict, s.campaign.policy;
      verdict == Judged(true) <==>
        && verdict.Judged? && AllConfined(n, h)
        && Size(h) >= policy.minimumExecutions
        && CountOf(h, ValidInputs) >= policy.minimumValidInputs
        && CountOf(h, MalformedInputs) >= policy.minimumMalformedInputs
        && s.coverage.value >= policy.minimumCoverageBasisPoints
        && s.campaign.elapsed(Readings(s.campaign, h)) <= policy.maximumDurationMilliseconds
  {
    PassingIsClean(s, h);
    CampaignIsPlanPrefix(s.campaign, 0, Start);
    CleanExactlyWhenConfined(s.campaign, n, h);
  }
}
