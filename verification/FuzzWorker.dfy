/** The campaign loop of the protocol-fuzz worker and its counters. */
module FuzzWorker {
  import opened Bytes
  import opened Fuzz

  datatype Counter =
    | Executions | ValidInputs | ValidAccepted | MalformedInputs | MalformedRejected
    | Crashes | Hangs | SanitizerFailures | MemoryLimitViolations
    | StdoutProtocolViolations | StderrLimitViolations | DeadlineViolations | UnreapedProcesses

  /** Whether an execution with this outcome is counted by a counter. */
  predicate Counts(counter: Counter, kind: CaseClass, o: Outcome) {
    match counter
    case Executions => true
    case ValidInputs => kind == Valid
    case ValidAccepted => kind == Valid && o.disposition == Accepted
    case MalformedInputs => kind == Malformed
    case MalformedRejected => kind == Malformed && o.disposition == Rejected
    case Crashes => o.safety.crash
    case Hangs => o.safety.hang
    case SanitizerFailures => o.safety.sanitizerFailure
    case MemoryLimitViolations => o.safety.memoryLimitViolation
    case StdoutProtocolViolations => o.safety.stdoutProtocolViolation
    case StderrLimitViolations => o.safety.stderrLimitViolation
    case DeadlineViolations => o.safety.deadlineViolation
    case UnreapedProcesses => o.safety.unreapedProcess
  }

  /** The counters as a report lists them. */
  datatype Tally = Tally(
    totalExecutions: nat, validInputs: nat, validInputsAccepted: nat,
    malformedInputs: nat, malformedInputsRejected: nat,
    crashes: nat, hangs: nat, sanitizerFailures: nat, memoryLimitViolations: nat,
    stdoutProtocolViolations: nat, stderrLimitViolations: nat, deadlineViolations: nat, unreapedProcesses: nat)

  function Entry(t: Tally, counter: Counter): nat {
    match counter
    case Executions => t.totalExecutions
    case ValidInputs => t.validInputs
    case ValidAccepted => t.validInputsAccepted
    case MalformedInputs => t.malformedInputs
    case MalformedRejected => t.malformedInputsRejected
    case Crashes => t.crashes
    case Hangs => t.hangs
    case SanitizerFailures => t.sanitizerFailures
    case MemoryLimitViolations => t.memoryLimitViolations
    case StdoutProtocolViolations => t.stdoutProtocolViolations
    case StderrLimitViolations => t.stderrLimitViolations
    case DeadlineViolations => t.deadlineViolations
    case UnreapedProcesses => t.unreapedProcesses
  }

  function One(b: bool): nat { if b then 1 else 0 }

  /** The tally after one more execution, counter by counter. */
  predicate Added(t: Tally, u: Tally, kind: CaseClass, o: Outcome) {
    && u.totalExecutions == t.totalExecutions + 1
    && u.validInputs == t.validInputs + One(kind == Valid)
    && u.validInputsAccepted == t.validInputsAccepted + One(kind == Valid && o.disposition == Accepted)
    && u.malformedInputs == t.malformedInputs + One(kind == Malformed)
    && u.malformedInputsRejected == t.malformedInputsRejected + One(kind == Malformed && o.disposition == Rejected)
    && u.crashes == t.crashes + One(o.safety.crash)
    && u.hangs == t.hangs + One(o.safety.hang)
    && u.sanitizerFailures == t.sanitizerFailures + One(o.safety.sanitizerFailure)
    && u.memoryLimitViolations == t.memoryLimitViolations + One(o.safety.memoryLimitViolation)
    && u.stdoutProtocolViolations == t.stdoutProtocolViolations + One(o.safety.stdoutProtocolViolation)
    && u.stderrLimitViolations == t.stderrLimitViolations + One(o.safety.stderrLimitViolation)
    && u.deadlineViolations == t.deadlineViolations + One(o.safety.deadlineViolation)
    && u.unreapedProcesses == t.unreapedProcesses + One(o.safety.unreapedProcess)
  }

  lemma EntryAdded(t: Tally, u: Tally, kind: CaseClass, o: Outcome, counter: Counter)
    requires Added(t, u, kind, o)
    ensures Entry(u, counter) == Entry(t, counter) + One(Counts(counter, kind, o))
  {
    match counter
    case Executions | ValidInputs | ValidAccepted | MalformedInputs | MalformedRejected =>
    case Crashes | Hangs | SanitizerFailures | MemoryLimitViolations =>
    case _ =>
  }

  /** `increment_if` */
  method IncrementIf(value: u64, condition: bool) returns (ok: bool, next: u64)
    ensures ok <==> value + One(condition) < U64_LIMIT
    ensures next == if ok then value + One(condition) else value
  {
    ok, next := true, value;
    if condition {
      if value + 1 == U64_LIMIT {
        return false, value;
      }
      next := value + 1;
    }
  }

  class Counters {
    var totalExecutions: u64
    var validInputs: u64
    var validInputsAccepted: u64
    var malformedInputs: u64
    var malformedInputsRejected: u64
    var crashes: u64
    var hangs: u64
    var sanitizerFailures: u64
    var memoryLimitViolations: u64
    var stdoutProtocolViolations: u64
    var stderrLimitViolations: u64
    var deadlineViolations: u64
    var unreapedProcesses: u64

    constructor ()
      ensures forall counter :: Value(counter) == 0
    {
      totalExecutions, validInputs, validInputsAccepted, malformedInputs, malformedInputsRejected := 0, 0, 0, 0, 0;
      crashes, hangs, sanitizerFailures, memoryLimitViolations := 0, 0, 0, 0;
      stdoutProtocolViolations, stderrLimitViolations, deadlineViolations, unreapedProcesses := 0, 0, 0, 0;
    }

    function Snapshot(): Tally
      reads this
    {
      Tally(totalExecutions, validInputs, validInputsAccepted, malformedInputs, malformedInputsRejected,
            crashes, hangs, sanitizerFailures, memoryLimitViolations,
            stdoutProtocolViolations, stderrLimitViolations, deadlineViolations, unreapedProcesses)
    }

    function Value(counter: Counter): u64
      reads this
    {
      Entry(Snapshot(), counter)
    }

    /** Counts an execution. It cannot fail while every counter has room. */
    method Record(kind: CaseClass, outcome: Outcome) returns (ok: bool)
      modifies this
      ensures ok ==> forall counter :: Value(counter) == old(Value(counter)) + One(Counts(counter, kind, outcome))
      ensures ok <== old(forall counter :: Value(counter) + 1 < U64_LIMIT)
    {
      ghost var room := forall counter :: Value(counter) + 1 < U64_LIMIT;
      if room {
        RoomFor();
      }
      ghost var before := Snapshot();
      ok := RecordFields(kind, outcome);
      if ok {
        forall counter ensures Value(counter) == Entry(before, counter) + One(Counts(counter, kind, outcome)) {
          EntryAdded(before, Snapshot(), kind, outcome, counter);
        }
      }
    }

    method RecordFields(kind: CaseClass, outcome: Outcome) returns (ok: bool)
      modifies this
      ensures ok ==> Added(old(Snapshot()), Snapshot(), kind, outcome)
      ensures old(Room()) ==> ok
    {
      ok, totalExecutions := IncrementIf(totalExecutions, true);
      if ok {
        ok := RecordClass(kind, outcome.disposition);
      }
      if ok {
        ok := RecordFailures(outcome.safety);
      }
      if ok {
        ok := RecordViolations(outcome.safety);
      }
    }

    predicate Room()
      reads this
    {
      && totalExecutions + 1 < U64_LIMIT
      && validInputs + 1 < U64_LIMIT && validInputsAccepted + 1 < U64_LIMIT
      && malformedInputs + 1 < U64_LIMIT && malformedInputsRejected + 1 < U64_LIMIT
      && crashes + 1 < U64_LIMIT && hangs + 1 < U64_LIMIT
      && sanitizerFailures + 1 < U64_LIMIT && memoryLimitViolations + 1 < U64_LIMIT
      && stdoutProtocolViolations + 1 < U64_LIMIT && stderrLimitViolations + 1 < U64_LIMIT
      && deadlineViolations + 1 < U64_LIMIT && unreapedProcesses + 1 < U64_LIMIT
    }

    lemma RoomFor()
      requires forall counter :: Value(counter) + 1 < U64_LIMIT
      ensures Room()
    {
      assert Value(Executions) + 1 < U64_LIMIT;
      assert Value(ValidInputs) + 1 < U64_LIMIT && Value(ValidAccepted) + 1 < U64_LIMIT;
      assert Value(MalformedInputs) + 1 < U64_LIMIT && Value(MalformedRejected) + 1 < U64_LIMIT;
      assert Value(Crashes) + 1 < U64_LIMIT && Value(Hangs) + 1 < U64_LIMIT;
      assert Value(SanitizerFailures) + 1 < U64_LIMIT && Value(MemoryLimitViolations) + 1 < U64_LIMIT;
      assert Value(StdoutProtocolViolations) + 1 < U64_LIMIT && Value(StderrLimitViolations) + 1 < U64_LIMIT;
      assert Value(DeadlineViolations) + 1 < U64_LIMIT && Value(UnreapedProcesses) + 1 < U64_LIMIT;
    }

    method RecordClass(kind: CaseClass, disposition: Disposition) returns (ok: bool)
      modifies this`validInputs, this`validInputsAccepted, this`malformedInputs, this`malformedInputsRejected
      ensures ok ==>
                && validInputs == old(validInputs) + One(kind == Valid)
                && validInputsAccepted == old(validInputsAccepted) + One(kind == Valid && disposition == Accepted)
                && malformedInputs == old(malformedInputs) + One(kind == Malformed)
                && malformedInputsRejected ==
                     old(malformedInputsRejected) + One(kind == Malformed && disposition == Rejected)
      ensures ok <== old(validInputs + 1 < U64_LIMIT && validInputsAccepted + 1 < U64_LIMIT
                  && malformedInputs + 1 < U64_LIMIT && malformedInputsRejected + 1 < U64_LIMIT)
    {
      match kind {
        case Valid =>
          ok, validInputs := IncrementIf(validInputs, true);
          if ok {
            ok, validInputsAccepted := IncrementIf(validInputsAccepted, disposition == Accepted);
          }
        case Malformed =>
          ok, malformedInputs := IncrementIf(malformedInputs, true);
          if ok {
            ok, malformedInputsRejected := IncrementIf(malformedInputsRejected, disposition == Rejected);
          }
      }
    }

    /** The first four safety counters ... */
    method RecordFailures(safety: Safety) returns (ok: bool)
      modifies this`crashes, this`hangs, this`sanitizerFailures, this`memoryLimitViolations
      ensures ok ==>
                && crashes == old(crashes) + One(safety.crash)
                && hangs == old(hangs) + One(safety.hang)
                && sanitizerFailures == old(sanitizerFailures) + One(safety.sanitizerFailure)
                && memoryLimitViolations == old(memoryLimitViolations) + One(safety.memoryLimitViolation)
      ensures ok <== old(crashes + 1 < U64_LIMIT && hangs + 1 < U64_LIMIT
                  && sanitizerFailures + 1 < U64_LIMIT && memoryLimitViolations + 1 < U64_LIMIT)
    {
      ok, crashes := IncrementIf(crashes, safety.crash);
      if ok {
        ok, hangs := IncrementIf(hangs, safety.hang);
      }
      if ok {
        ok, sanitizerFailures := IncrementIf(sanitizerFailures, safety.sanitizerFailure);
      }
      if ok {
        ok, memoryLimitViolations := IncrementIf(memoryLimitViolations, safety.memoryLimitViolation);
      }
    }

    /** ... and the last four. */
    method RecordViolations(safety: Safety) returns (ok: bool)
      modifies this`stdoutProtocolViolations, this`stderrLimitViolations
      modifies this`deadlineViolations, this`unreapedProcesses
      ensures ok ==>
                && stdoutProtocolViolations == old(stdoutProtocolViolations) + One(safety.stdoutProtocolViolation)
                && stderrLimitViolations == old(stderrLimitViolations) + One(safety.stderrLimitViolation)
                && deadlineViolations == old(deadlineViolations) + One(safety.deadlineViolation)
                && unreapedProcesses == old(unreapedProcesses) + One(safety.unreapedProcess)
      ensures ok <== old(stdoutProtocolViolations + 1 < U64_LIMIT && stderrLimitViolations + 1 < U64_LIMIT
                  && deadlineViolations + 1 < U64_LIMIT && unreapedProcesses + 1 < U64_LIMIT)
    {
      ok, stdoutProtocolViolations := IncrementIf(stdoutProtocolViolations, safety.stdoutProtocolViolation);
      if ok {
        ok, stderrLimitViolations := IncrementIf(stderrLimitViolations, safety.stderrLimitViolation);
      }
      if ok {
        ok, deadlineViolations := IncrementIf(deadlineViolations, safety.deadlineViolation);
      }
      if ok {
        ok, unreapedProcesses := IncrementIf(unreapedProcesses, safety.unreapedProcess);
      }
    }
  }

  // ---------------------------------------------------------------------------------------------
  // What a campaign is: one flat walk over the plan
  // ---------------------------------------------------------------------------------------------

  /** Executions with their outcomes, the latest last. */
  datatype History = Start | Then(before: History, execution: Execution, outcome: Outcome)

  function Size(h: History): nat {
    match h
    case Start => 0
    case Then(before, _, _) => Size(before) + 1
  }

  /** How many of its executions a counter counts. */
  function CountOf(h: History, counter: Counter): nat {
    match h
    case Start => 0
    case Then(before, e, o) => CountOf(before, counter) + One(Counts(counter, e.testCase.kind, o))
  }

  function TallyOf(h: History): Tally {
    Tally(
      CountOf(h, Executions), CountOf(h, ValidInputs), CountOf(h, ValidAccepted),
      CountOf(h, MalformedInputs), CountOf(h, MalformedRejected),
      CountOf(h, Crashes), CountOf(h, Hangs), CountOf(h, SanitizerFailures), CountOf(h, MemoryLimitViolations),
      CountOf(h, StdoutProtocolViolations), CountOf(h, StderrLimitViolations),
      CountOf(h, DeadlineViolations), CountOf(h, UnreapedProcesses))
  }

  /** An executor, as what it answers to each execution, and a clock, as what its `j`-th reading shows. */
  datatype Campaign = Campaign(
    subject: Subject, corpus: Corpus, policy: Policy, codec: Codec,
    execute: Execution -> Option<Outcome>, elapsed: nat -> nat)

  function Min(a: nat, b: nat): nat { if a <= b then a else b }

  /** The execution at position `j` of the plan, repetition by repetition. */
  function Planned(c: Campaign, j: nat, input: seq<byte>): Execution
    requires c.corpus.cases != [] && c.elapsed(j) < c.policy.maximumDurationMilliseconds
  {
    var n := |c.corpus.cases|;
    var remaining: nat := c.policy.maximumDurationMilliseconds - c.elapsed(j);
    Execution(
      j, j / n, c.corpus.cases[j % n], input, c.subject, c.corpus.limits,
      Min(c.corpus.limits.maximumExecutionMilliseconds, remaining), remaining)
  }

  /** The campaign from position `j` on; none if the executor or a case's encoding fails. */
  function Run(c: Campaign, j: nat, h: History): Option<History>
    requires j <= PlanSize(c.corpus)
    decreases PlanSize(c.corpus) - j
  {
    if j == PlanSize(c.corpus) || c.elapsed(j) >= c.policy.maximumDurationMilliseconds then Some(h)
    else
      match DecodeCase(c.codec, c.corpus.cases[j % |c.corpus.cases|])
      case None => None
      case Some(input) =>
        var e := Planned(c, j, input);
        match c.execute(e)
        case None => None
        case Some(o) =>
          if o.safety.unreapedProcess then Some(Then(h, e, o)) else Run(c, j + 1, Then(h, e, o))
  }

  /** No counter exceeds the number of executions, which the executions counter equals. */
  lemma {:induction false} CountIsBounded(h: History, counter: Counter)
    ensures CountOf(h, counter) <= Size(h) && CountOf(h, Executions) == Size(h)
  {
    match h
    case Start =>
    case Then(before, _, _) => CountIsBounded(before, counter);
  }

  lemma PositionInPlan(repetition: nat, k: nat, n: nat, repetitions: nat)
    requires k < n && repetition < repetitions
    ensures (repetition * n + k) / n == repetition && (repetition * n + k) % n == k
    ensures repetition * n + k < repetitions * n && repetition * n + n == (repetition + 1) * n
  {
    assert (repetition + 1) * n == repetition * n + n;
    assert (repetition + 1) * n <= repetitions * n;
    DivModIsUnique(repetition * n + k, n, repetition, k);
  }

  lemma DivModIsUnique(j: nat, n: nat, q: nat, r: nat)
    requires r < n && j == q * n + r
    ensures j / n == q && j % n == r
  {
    var d: int := (j / n) as int - q;
    assert d * n == r - j % n by {
      assert d * n == (j / n) * n - q * n;
    }
    OnlyZeroIsSmall(d, n);
  }

  lemma OnlyZeroIsSmall(d: int, n: nat)
    ensures 0 < d * n + n && d * n < n ==> d == 0
  {
    if d >= 1 {
      assert d * n == n + (d - 1) * n;
    } else if d <= -1 {
      assert -(d * n) == n + (-d - 1) * n;
    }
  }

  datatype Progress = Failed | Stopped | Going

  /** How the campaign, which is to be `goal`, stands before position `j` of the plan. */
  predicate Reached(c: Campaign, goal: Option<History>, progress: Progress, j: nat, h: History) {
    j <= PlanSize(c.corpus) &&
    match progress
    case Failed => goal == None
    case Stopped => goal == Some(h)
    case Going => goal == Run(c, j, h) && Size(h) == j
  }

  ghost predicate Agree(counters: Counters, h: History)
    reads counters
  {
    forall counter :: counters.Value(counter) == CountOf(h, counter)
  }

  lemma SnapshotIsTally(counters: Counters, h: History)
    requires Agree(counters, h)
    ensures counters.Snapshot() == TallyOf(h)
  {
    var t, u := counters.Snapshot(), TallyOf(h);
    forall counter ensures Entry(t, counter) == Entry(u, counter) {
      assert counters.Value(counter) == CountOf(h, counter);
    }
    EntriesDetermine(t, u);
  }

  lemma EntriesDetermine(t: Tally, u: Tally)
    requires forall counter :: Entry(t, counter) == Entry(u, counter)
    ensures t == u
  {
    assert Entry(t, Executions) == Entry(u, Executions);
    assert Entry(t, ValidInputs) == Entry(u, ValidInputs) && Entry(t, ValidAccepted) == Entry(u, ValidAccepted);
    assert Entry(t, MalformedInputs) == Entry(u, MalformedInputs);
    assert Entry(t, MalformedRejected) == Entry(u, MalformedRejected);
    assert Entry(t, Crashes) == Entry(u, Crashes) && Entry(t, Hangs) == Entry(u, Hangs);
    assert Entry(t, SanitizerFailures) == Entry(u, SanitizerFailures);
    assert Entry(t, MemoryLimitViolations) == Entry(u, MemoryLimitViolations);
    assert Entry(t, StdoutProtocolViolations) == Entry(u, StdoutProtocolViolations);
    assert Entry(t, StderrLimitViolations) == Entry(u, StderrLimitViolations);
    assert Entry(t, DeadlineViolations) == Entry(u, DeadlineViolations);
    assert Entry(t, UnreapedProcesses) == Entry(u, UnreapedProcesses);
  }

  /** One turn of the inner loop, at position `j` of the plan. */
  method Step(c: Campaign, repetition: nat, k: nat, counters: Counters,
              ghost goal: Option<History>, ghost j: nat, ghost before: History)
    returns (progress: Progress, ghost h: History)
    requires j < PlanSize(c.corpus) <= MAX_EXECUTIONS && k < |c.corpus.cases|
    requires j / |c.corpus.cases| == repetition && j % |c.corpus.cases| == k
    requires Reached(c, goal, Going, j, before) && Agree(counters, before)
    modifies counters
    ensures Reached(c, goal, progress, j + 1, h)
    ensures !progress.Failed? ==> Agree(counters, h)
  {
    h := before;
    forall counter ensures counters.Value(counter) <= j {
      CountIsBounded(before, counter);
    }
    CountIsBounded(before, Executions);
    assert counters.totalExecutions == counters.Value(Executions) == j;
    var elapsed := c.elapsed(counters.totalExecutions);
    if elapsed >= c.policy.maximumDurationMilliseconds {
      return Stopped, h;
    }
    var remaining := c.policy.maximumDurationMilliseconds - elapsed;
    var input := DecodeCase(c.codec, c.corpus.cases[k]);
    if input.None? {
      return Failed, h;
    }
    var e := Execution(
      counters.totalExecutions, repetition, c.corpus.cases[k], input.value, c.subject, c.corpus.limits,
      Min(c.corpus.limits.maximumExecutionMilliseconds, remaining), remaining);
    assert e == Planned(c, j, input.value);
    var outcome := c.execute(e);
    if outcome.None? {
      return Failed, h;
    }
    var ok := counters.Record(c.corpus.cases[k].kind, outcome.value);
    if !ok {
      return Failed, h;
    }
    h := Then(before, e, outcome.value);
    progress := if outcome.value.safety.unreapedProcess then Stopped else Going;
  }

  /** The nested loops make the flat walk, and their counters count it. */
  method RunCampaign(c: Campaign) returns (r: Option<Tally>)
    requires Plan(c.corpus).Some?
    ensures r == match Run(c, 0, Start) case None => None case Some(h) => Some(TallyOf(h))
  {
    var corpus, n := c.corpus, |c.corpus.cases|;
    PlanIsExact(corpus);
    ghost var goal := Run(c, 0, Start);
    var counters := new Counters();
    ghost var h := Start;
    var progress := Going;
    for repetition := 0 to corpus.repetitions
      invariant repetition * n <= PlanSize(corpus)
      invariant Reached(c, goal, Going, repetition * n, h) && Agree(counters, h)
    {
      for k := 0 to n
        invariant repetition * n + k <= PlanSize(corpus)
        invariant Reached(c, goal, Going, repetition * n + k, h) && Agree(counters, h)
      {
        PositionInPlan(repetition, k, n, corpus.repetitions);
        progress, h := Step(c, repetition, k, counters, goal, repetition * n + k, h);
        if progress.Failed? {
          return None;
        }
        if progress.Stopped? {
          SnapshotIsTally(counters, h);
          return Some(counters.Snapshot());
        }
      }
      assert repetition * n + n == (repetition + 1) * n;
    }
    SnapshotIsTally(counters, h);
    return Some(counters.Snapshot());
  }
}
