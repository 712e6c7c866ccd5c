/** What a sound plugin is owed: if each execution of the plan begins in time, in a process that is confined and
    judged as its case demands, then the whole plan is executed and the stage passes. */
module FuzzCompleteness {
  import opened Bytes
  import opened Texts
  import opened Fuzz
  import opened FuzzWorker
  import opened FuzzEvaluator
  import opened FuzzCertification
  import opened Confinement

  /** The execution at position `j` of the plan, if its case decodes and it begins in time. */
  function PlannedAt(c: Campaign, j: nat): Option<Execution>
    requires c.corpus.cases != []
  {
    match DecodeCase(c.codec, c.corpus.cases[j % |c.corpus.cases|])
    case None => None
    case Some(input) => if WithinTime(c, j) then Some(Planned(c, j, input)) else None
  }

  /** The execution there goes well. */
  predicate GoesWell(c: Campaign, j: nat)
    requires c.corpus.cases != []
  {
    match PlannedAt(c, j)
    case None => false
    case Some(e) => c.execute(e).Some? && Good(e.testCase.kind, c.execute(e).value)
  }

  /** Such a campaign runs through its plan. */
  lemma {:induction false} RunsThrough(c: Campaign, j: nat, h: History)
    requires c.corpus.cases != [] && forall i :: 0 <= i < PlanSize(c.corpus) ==> GoesWell(c, i)
    requires j <= PlanSize(c.corpus) && Size(h) == j && Clean(h)
    ensures Run(c, j, h).Some? && Size(Run(c, j, h).value) == PlanSize(c.corpus) && Clean(Run(c, j, h).value)
    decreases PlanSize(c.corpus) - j
  {
    if j < PlanSize(c.corpus) {
      assert GoesWell(c, j);
      var e := PlannedAt(c, j).value;
      RunsThrough(c, j + 1, Then(h, e, c.execute(e).value));
    }
  }

  lemma WholePlanInputs(c: Campaign, h: History, kind: CaseClass)
    requires OnPlan(c, h) && c.corpus.cases != [] && Size(h) == PlanSize(c.corpus)
    ensures CountOf(h, InputsOf(kind)) == c.corpus.repetitions * CountClass(c.corpus.cases, |c.corpus.cases|, kind)
  {
    InputsCounted(c, h, kind);
    DivModIsUnique(Size(h), |c.corpus.cases|, c.corpus.repetitions, 0);
  }

  /** The worker's own checks, the coverage, the producer and both clocks: nothing about the plugin's conduct. */
  predicate Sound(s: Setting) {
    var c := s.campaign;
    && Admitted(s) && ProducerOk(s.producer)
    && s.coverage.Some? && c.policy.minimumCoverageBasisPoints <= s.coverage.value <= 10_000
    && c.elapsed(PlanSize(c.corpus)) <= c.policy.maximumDurationMilliseconds
    && s.completedAt.Some? && s.startedAt.value <= s.completedAt.value
    && s.completedAt.value - s.startedAt.value <= MAX_STAGE_DURATION_SECONDS
    && c.elapsed(PlanSize(c.corpus)) <= Allowed(s.startedAt.value, s.completedAt.value)
  }

  /** A sound campaign in which every planned execution goes well passes, however tight its policy: a valid
      policy never demands more than the plan holds. */
  lemma WellRunCampaignPasses(s: Setting)
    requires Sound(s) && s.campaign.corpus.cases != []
    requires forall i :: 0 <= i < PlanSize(s.campaign.corpus) ==> GoesWell(s.campaign, i)
    ensures Worker(s).Some? && Worker(s).value.verdict == Judged(true)
  {
    var c := s.campaign;
    AdmittedHasPlan(s);
    RunsThrough(c, 0, Start);
    var h := Run(c, 0, Start).value;
    CampaignIsPlanPrefix(c, 0, Start);
    PlanIsExact(c.corpus);
    WholePlanInputs(c, h, Valid);
    WholePlanInputs(c, h, Malformed);
    WorkerEvidenceIsAccepted(s);
    PassingIsClean(s, h);
  }

  lemma {:induction false} CleanRunsWell(c: Campaign, h: History, i: nat)
    requires OnPlan(c, h) && Clean(h) && c.corpus.cases != [] && i < Size(h)
    ensures GoesWell(c, i)
  {
    if i < Size(h.before) {
      CleanRunsWell(c, h.before, i);
    }
  }

  /** And where time does not run out, nothing less is enough: the stage passes exactly if every planned
      execution goes well. */
  lemma PassesExactlyWhenWellRun(s: Setting)
    requires Sound(s) && s.campaign.corpus.cases != []
    requires forall i :: 0 <= i < PlanSize(s.campaign.corpus) ==> WithinTime(s.campaign, i)
    ensures Worker(s).Some? && Worker(s).value.verdict == Judged(true) <==>
            forall i :: 0 <= i < PlanSize(s.campaign.corpus) ==> GoesWell(s.campaign, i)
  {
    var c := s.campaign;
    if Worker(s).Some? && Worker(s).value.verdict == Judged(true) {
      var h := CampaignOf(s);
      PassingIsClean(s, h);
      assert !LastUnreaped(h);
      forall i | 0 <= i < PlanSize(c.corpus) ensures GoesWell(c, i) {
        CleanRunsWell(c, h, i);
      }
    }
    if forall i :: 0 <= i < PlanSize(c.corpus) ==> GoesWell(c, i) {
      WellRunCampaignPasses(s);
    }
  }

  predicate ConfinedAt(c: Campaign, n: Native, j: nat)
    requires c.corpus.cases != []
  {
    match PlannedAt(c, j)
    case None => false
    case Some(e) => Confined(n, e)
  }

  /** Across the three layers: exactly if every planned execution is answered for by a confined process, judged
      as its case demands. */
  lemma PassesExactlyWhenConfined(s: Setting, n: Native)
    requires Sound(s) && s.campaign.execute == AsExecutor(n) && s.campaign.corpus.cases != []
    requires forall i :: 0 <= i < PlanSize(s.campaign.corpus) ==> WithinTime(s.campaign, i)
    ensures Worker(s).Some? && Worker(s).value.verdict == Judged(true) <==>
            forall i :: 0 <= i < PlanSize(s.campaign.corpus) ==> ConfinedAt(s.campaign, n, i)
  {
    var c := s.campaign;
    forall i | 0 <= i < PlanSize(c.corpus) ensures GoesWell(c, i) <==> ConfinedAt(c, n, i) {
      if PlannedAt(c, i).Some? {
        GoodExactlyWhenConfined(n, PlannedAt(c, i).value);
      }
    }
    PassesExactlyWhenWellRun(s);
  }

  // ---------------------------------------------------------------------------------------------
  // The premises can be met
  // ---------------------------------------------------------------------------------------------

  function ZeroDigest(): (d: string)
    ensures ValidDigest(d)
  {
    "sha256:" + seq(64, _ => '0')
  }

  const SMALL_CORPUS := Corpus(
    1, "small", PROTOCOL, 1, Limits(1, 1, 1, 1, ["leak"]), [Case("a", Valid, ""), Case("b", Malformed, "")])

  const EMPTY_CODEC := Codec((s: string) => Some([]), (b: seq<byte>) => "")

  function SmallPolicy(): Policy { Policy(1, "policy", PROTOCOL, "small", ZeroDigest(), 2, 1, 1, 10_000, 1) }

  lemma SmallPlanIsValid()
    ensures ValidPlan(EMPTY_CODEC, SmallPolicy(), SMALL_CORPUS, ZeroDigest())
    ensures PlanSize(SMALL_CORPUS) == 2
  {
    var cases := SMALL_CORPUS.cases;
    assert cases[0].kind == Valid && cases[1].kind == Malformed;
    assert LessFrom("a", "b", 0);
    assert CaseOk(EMPTY_CODEC, cases[0]) && CaseOk(EMPTY_CODEC, cases[1]);
    PlanIsExact(SMALL_CORPUS);
    assert CountClass(cases, 1, Valid) == 1 && CountClass(cases, 1, Malformed) == 0;
  }

  function QuietProfile(): Profile {
    Profile(1, "backend", "1.0.0", Linux, ZeroDigest(), RequiredControls(Linux), Engine("engine", "1.0.0", ["leak"]))
  }

  function QuietProcess(profile: Profile, id: string): Observation {
    Observation(id, profile.policyDigest, profile.controls, profile.engine.activeSanitizers, Exited(0), [], [], 0, 0,
                false, false, false, false, true)
  }

  const RIGHT_ORACLE := (e: Execution, o: Observation) =>
    Some(Assessment(if e.testCase.kind.Valid? then Accepted else Rejected, false))

  /** Every process exits at once, having used and said nothing. */
  function Quiet(profile: Profile): Native {
    Native(e => Some(profile), (id, e) => Some(QuietProcess(profile, id)), RIGHT_ORACLE, profile, e => "attempt")
  }

  lemma QuietIsConfined(profile: Profile, e: Execution)
    requires profile.platform == Linux && StartsWith(e.subject.platform, "linux-")
    ensures Confined(Quiet(profile), e)
  {
  }

  function QuietSubject(): Subject {
    Subject("plugin", "1.0.0", "linux-x64", 1, ZeroDigest(), ZeroDigest(), ZeroDigest())
  }

  function QuietSetting(): Setting {
    var d, profile := ZeroDigest(), QuietProfile();
    Setting(
      Campaign(QuietSubject(), SMALL_CORPUS, SmallPolicy(), EMPTY_CODEC, AsExecutor(Quiet(profile)), j => 0),
      Some(profile.engine), Some(10_000), Some(1), Some(2), Some(d), d, Producer("tool", "1.0.0", d), x => true)
  }

  lemma QuietEngineFits()
    ensures EngineFits(QuietProfile().engine, SMALL_CORPUS)
  {
    FittingEngineCovers(QuietProfile().engine, SMALL_CORPUS);
  }

  /** Settings around a valid plan and a fitting engine that measure everything at once are sound. */
  lemma PlainSettingIsSound(s: Setting)
    requires ValidPlan(s.campaign.codec, s.campaign.policy, s.campaign.corpus, s.corpusDigest)
    requires s.engine.Some? && EngineFits(s.engine.value, s.campaign.corpus)
    requires ValidSubject(s.wellFormed, s.campaign.subject)
    requires s.executableDigest == Some(s.campaign.subject.artifactDigest)
    requires ProducerOk(s.producer) && s.coverage == Some(10_000)
    requires s.startedAt == Some(1) && s.completedAt == Some(2) && forall j :: s.campaign.elapsed(j) == 0
    ensures Sound(s)
  {
  }

  lemma QuietSettingIsSound()
    ensures Sound(QuietSetting())
  {
    SmallPlanIsValid();
    QuietEngineFits();
    PlainSettingIsSound(QuietSetting());
  }

  /** There is a plugin, with a driver and an oracle, that passes. */
  lemma SomePluginPasses() returns (s: Setting, n: Native)
    ensures Sound(s) && s.campaign.execute == AsExecutor(n)
    ensures Worker(s).Some? && Worker(s).value.verdict == Judged(true)
  {
    s, n := QuietSetting(), Quiet(QuietProfile());
    QuietSettingIsSound();
    QuietRunIsConfined(s.campaign);
    PassesExactlyWhenConfined(s, n);
  }

  lemma QuietRunIsConfined(c: Campaign)
    requires c.corpus == SMALL_CORPUS && c.codec == EMPTY_CODEC && c.subject == QuietSubject()
    requires forall j :: WithinTime(c, j)
    ensures forall i :: 0 <= i < PlanSize(c.corpus) ==> ConfinedAt(c, Quiet(QuietProfile()), i)
  {
    assert StartsWith(c.subject.platform, "linux-");
    forall i | 0 <= i < PlanSize(c.corpus) ensures ConfinedAt(c, Quiet(QuietProfile()), i) {
      QuietIsConfined(QuietProfile(), PlannedAt(c, i).value);
    }
  }
}
