/** Assembling stage evidence into a certification report, and the contract that a report has to meet. */
module Assembly {
  import opened Bytes
  import opened Texts
  import opened Fuzz
  import opened FuzzEvaluator

  datatype Requirement =
    | ManifestValidation | TsppLifecycle | SafetyContract
    | PublicCorpusBenchmark | ProtocolFuzzing | ReproducibleBuild | SignedArtifact
    | Sbom | LicenseProvenance | AdminPolicyMetadata

  datatype Level = Conformant | Certified | EnterpriseCertified

  const LEVEL_1: seq<Requirement> := [ManifestValidation, TsppLifecycle, SafetyContract]

  const LEVEL_2: seq<Requirement> :=
    [ManifestValidation, TsppLifecycle, SafetyContract,
     PublicCorpusBenchmark, ProtocolFuzzing, ReproducibleBuild, SignedArtifact]

  const LEVEL_3: seq<Requirement> :=
    [ManifestValidation, TsppLifecycle, SafetyContract,
     PublicCorpusBenchmark, ProtocolFuzzing, ReproducibleBuild, SignedArtifact,
     Sbom, LicenseProvenance, AdminPolicyMetadata]

  function Requirements(level: Level): seq<Requirement> {
    match level
    case Conformant => LEVEL_1
    case Certified => LEVEL_2
    case EnterpriseCertified => LEVEL_3
  }

  /** The levels are cumulative: each list begins with the one below. */
  lemma LevelsAreCumulative(low: Level, high: Level)
    ensures |Requirements(low)| <= |Requirements(high)| ==>
              Requirements(high)[..|Requirements(low)|] == Requirements(low)
  {
  }

  const MAX_PIPELINE_BYTES: nat := 0x100_0000
  const MAX_STAGE_BYTES: nat := 0x20_0000
  const MAX_REFERENCES: nat := 32
  const POLICY_ID := "com.tokensaver.plugin-certification"

  datatype Reference = Reference(name: string, digest: string)

  datatype Stage = Stage(
    schemaVersion: nat, requirement: Requirement, subject: Subject, rule: string, producer: Producer,
    startedAtUnix: nat, completedAtUnix: nat, ok: bool,
    inputs: seq<Reference>, outputs: seq<Reference>, detail: string, remediation: string)

  datatype Authority = Authority(issuerId: string, policyId: string, policyVersion: nat, revocationId: string)

  datatype Check = Check(
    requirement: Requirement, ok: bool, rule: string, evidenceDigest: string, detail: string, remediation: string)

  datatype Report = Report(
    schemaVersion: nat, ok: bool, level: Level, subject: Subject, authority: Authority, checks: seq<Check>)

  /** What is given: which texts have no control characters, which subjects have well-formed texts and their own
      release id, what a document says, its digest, and the stable rule of each requirement. */
  datatype Given = Given(
    text: string -> bool, wellFormed: Subject -> bool,
    parse: string -> Option<Stage>, digest: string -> string, rule: Requirement -> string)

  function Slug(r: Requirement): string {
    match r
    case ManifestValidation => "manifest-validation"
    case TsppLifecycle => "tspp-lifecycle"
    case SafetyContract => "safety-contract"
    case PublicCorpusBenchmark => "public-corpus-benchmark"
    case ProtocolFuzzing => "protocol-fuzzing"
    case ReproducibleBuild => "reproducible-build"
    case SignedArtifact => "signed-artifact"
    case Sbom => "sbom"
    case LicenseProvenance => "license-provenance"
    case AdminPolicyMetadata => "admin-policy-metadata"
  }

  function LevelDigit(r: Requirement): string {
    if r in LEVEL_1 then "1" else if r in LEVEL_2 then "2" else "3"
  }

  /** `certification_rule` */
  function RuleOf(r: Requirement): string { "certification.level" + LevelDigit(r) + "." + Slug(r) + ".v1" }

  predicate TextOk(g: Given, s: string) { 1 <= |s| <= 1_024 && g.text(s) }

  // ---------------------------------------------------------------------------------------------
  // Stages
  // ---------------------------------------------------------------------------------------------

  function InputNames(r: Requirement): seq<string> {
    match r
    case ManifestValidation => ["plugin-manifest"]
    case TsppLifecycle => ["plugin-executable"]
    case SafetyContract => ["plugin-executable"]
    case PublicCorpusBenchmark => ["plugin-package", "public-corpus", "benchmark-policy"]
    case ProtocolFuzzing => ["plugin-executable", "protocol-corpus", "fuzz-policy"]
    case ReproducibleBuild => ["plugin-package", "source-tree", "build-policy"]
    case SignedArtifact => ["plugin-executable", "signature-policy", "artifact-trust-store"]
    case Sbom => ["plugin-package", "sbom-policy"]
    case LicenseProvenance => ["sbom", "license-policy"]
    case AdminPolicyMetadata => ["plugin-manifest"]
  }

  function OutputNames(r: Requirement): seq<string> {
    match r
    case ManifestValidation => ["manifest-validation-report"]
    case TsppLifecycle => ["tspp-lifecycle-report"]
    case SafetyContract => ["safety-contract-report"]
    case PublicCorpusBenchmark => ["benchmark-report"]
    case ProtocolFuzzing => ["fuzz-report"]
    case ReproducibleBuild => ["build-report", "rebuilt-package-a", "rebuilt-package-b"]
    case SignedArtifact => ["artifact-signature"]
    case Sbom => ["sbom", "sbom-report"]
    case LicenseProvenance => ["license-provenance-report"]
    case AdminPolicyMetadata => ["admin-policy-metadata"]
  }

  predicate Named(references: seq<Reference>, names: seq<string>) {
    |references| == |names| && forall i :: 0 <= i < |names| ==> references[i].name == names[i]
  }

  predicate ReferencesOk(references: seq<Reference>) {
    && 1 <= |references| <= MAX_REFERENCES
    && (forall i :: 0 <= i < |references| ==> ValidToken(references[i].name) && ValidDigest(references[i].digest))
    && (forall i, j :: 0 <= i < j < |references| ==> references[i].name != references[j].name)
  }

  /** `validate_subject_bindings` */
  predicate Bound(s: Stage, subject: Subject)
    requires Named(s.inputs, InputNames(s.requirement)) && Named(s.outputs, OutputNames(s.requirement))
  {
    && (match s.requirement
        case ManifestValidation | LicenseProvenance | AdminPolicyMetadata => true
        case TsppLifecycle | SafetyContract | ProtocolFuzzing | SignedArtifact =>
          s.inputs[0].digest == subject.artifactDigest
        case PublicCorpusBenchmark | ReproducibleBuild | Sbom => s.inputs[0].digest == subject.packageDigest)
    && (s.requirement.ReproducibleBuild? && s.ok ==>
          s.outputs[1].digest == subject.packageDigest && s.outputs[2].digest == subject.packageDigest)
  }

  /** `validate_stage` */
  predicate StageIsValid(g: Given, s: Stage, subject: Subject) {
    && ValidSubject(g.wellFormed, subject)
    && s.schemaVersion == 1 && s.subject == subject && s.rule == g.rule(s.requirement)
    && ValidToken(s.producer.id) && ValidToken(s.producer.version) && ValidDigest(s.producer.environmentDigest)
    && s.startedAtUnix != 0 && s.startedAtUnix <= s.completedAtUnix
    && s.completedAtUnix - s.startedAtUnix <= MAX_STAGE_DURATION_SECONDS
    && TextOk(g, s.detail) && TextOk(g, s.remediation)
    && ReferencesOk(s.inputs) && ReferencesOk(s.outputs)
    && Named(s.inputs, InputNames(s.requirement)) && Named(s.outputs, OutputNames(s.requirement))
    && Bound(s, subject)
  }

  // ---------------------------------------------------------------------------------------------
  // The contract of a report
  // ---------------------------------------------------------------------------------------------

  predicate AuthorityOk(a: Authority) {
    ValidToken(a.issuerId) && a.policyId == POLICY_ID && a.policyVersion == 1 && ValidToken(a.revocationId)
  }

  predicate CheckIsValid(g: Given, c: Check) {
    ValidToken(c.rule) && ValidDigest(c.evidenceDigest) && TextOk(g, c.detail) && TextOk(g, c.remediation)
  }

  /** One check for each requirement, in order. */
  predicate Listed(checks: seq<Check>, required: seq<Requirement>) {
    |checks| == |required| && forall i :: 0 <= i < |checks| ==> checks[i].requirement == required[i]
  }

  predicate AllOk(checks: seq<Check>) { forall i :: 0 <= i < |checks| ==> checks[i].ok }

  /** The checks are those of the level, in order and well formed; the result is theirs; where success is
      required, all passed. */
  predicate MeetsContract(g: Given, r: Report, expected: Subject, requireSuccess: bool) {
    && r.schemaVersion == 1 && r.subject == expected
    && ValidSubject(g.wellFormed, r.subject) && AuthorityOk(r.authority)
    && Listed(r.checks, Requirements(r.level)) && (forall i :: 0 <= i < |r.checks| ==> CheckIsValid(g, r.checks[i]))
    && (requireSuccess ==> AllOk(r.checks)) && (r.ok <==> AllOk(r.checks))
  }

  function Rank(r: Requirement): nat {
    match r
    case ManifestValidation => 0
    case TsppLifecycle => 1
    case SafetyContract => 2
    case PublicCorpusBenchmark => 3
    case ProtocolFuzzing => 4
    case ReproducibleBuild => 5
    case SignedArtifact => 6
    case Sbom => 7
    case LicenseProvenance => 8
    case AdminPolicyMetadata => 9
  }

  predicate Distinct(required: seq<Requirement>) {
    forall i, j :: 0 <= i < j < |required| ==> required[i] != required[j]
  }

  lemma NoRequirementTwice(level: Level)
    ensures Distinct(Requirements(level))
  {
    var required := Requirements(level);
    assert forall k :: 0 <= k < |required| ==> Rank(required[k]) == k;
  }

  function RequirementsOf(checks: seq<Check>): (rs: seq<Requirement>)
    ensures |rs| == |checks| && forall i :: 0 <= i < |checks| ==> rs[i] == checks[i].requirement
  {
    seq(|checks|, i requires 0 <= i < |checks| => checks[i].requirement)
  }

  /** The loop over the checks, which collects what is there, in order and as a set, and the first failure. */
  method ScanChecks(valid: Check -> bool, checks: seq<Check>, required: seq<Requirement>)
    returns (ok: bool, failed: Option<Check>)
    requires Distinct(required)
    ensures ok <==> Listed(checks, required) && forall i :: 0 <= i < |checks| ==> valid(checks[i])
    ensures ok ==> (failed.None? <==> AllOk(checks))
  {
    var actual: set<Requirement> := {};
    var ordered: seq<Requirement> := [];
    failed := None;
    for k := 0 to |checks|
      invariant ordered == RequirementsOf(checks)[..k] && actual == set i | 0 <= i < k :: checks[i].requirement
      invariant forall i :: 0 <= i < k ==> valid(checks[i])
      invariant failed.None? <==> forall i :: 0 <= i < k ==> checks[i].ok
    {
      var check := checks[k];
      if check.requirement in actual {
        assert !Listed(checks, required);
        return false, failed;
      }
      actual := actual + {check.requirement};
      if !valid(check) {
        return false, failed;
      }
      if !check.ok && failed.None? {
        failed := Some(check);
      }
      ordered := ordered + [check.requirement];
    }
    assert ordered == RequirementsOf(checks);
    assert Listed(checks, required) <==> ordered == required;
    ok := actual == (set r | r in required) && ordered == required;
    if ordered == required {
      assert forall r :: r in required <==> exists i :: 0 <= i < |checks| && checks[i].requirement == r;
    }
  }

  /** `validate_certification_report_contract` accepts exactly the reports that meet the contract. */
  method ValidateContract(g: Given, r: Report, expected: Subject, requireSuccess: bool) returns (ok: bool)
    ensures ok <==> MeetsContract(g, r, expected, requireSuccess)
  {
    if r.schemaVersion != 1 || r.subject != expected {
      return false;
    }
    if !ValidSubject(g.wellFormed, r.subject) || !AuthorityOk(r.authority) {
      return false;
    }
    NoRequirementTwice(r.level);
    var failed;
    ok, failed := ScanChecks((c: Check) => CheckIsValid(g, c), r.checks, Requirements(r.level));
    if ok && requireSuccess && failed.Some? {
      return false;
    }
    if ok {
      ok := r.ok == failed.None?;
    }
  }

  // ---------------------------------------------------------------------------------------------
  // Assembly
  // ---------------------------------------------------------------------------------------------

  function TotalBytes(documents: seq<string>, k: nat): nat
    requires k <= |documents|
  {
    if k == 0 then 0 else TotalBytes(documents, k - 1) + |documents[k - 1]|
  }

  /** The first stage for a requirement. */
  function Find(stages: seq<Stage>, r: Requirement, k: nat): (found: Option<Stage>)
    requires k <= |stages|
    ensures found.Some? ==> found.value in stages && found.value.requirement == r
    decreases |stages| - k
  {
    if k == |stages| then None else if stages[k].requirement == r then Some(stages[k]) else Find(stages, r, k + 1)
  }

  predicate HasReferences(s: Stage) { s.inputs != [] && s.outputs != [] }

  predicate AllHaveReferences(stages: seq<Stage>) { forall i :: 0 <= i < |stages| ==> HasReferences(stages[i]) }

  /** `validate_cross_stage_bindings`, which takes first references without looking whether there are any. */
  predicate BoundTogether(stages: seq<Stage>)
    requires AllHaveReferences(stages)
  {
    && (match Find(stages, AdminPolicyMetadata, 0)
        case None => true
        case Some(admin) =>
          match Find(stages, ManifestValidation, 0)
          case None => false
          case Some(manifest) => manifest.inputs[0].digest == admin.inputs[0].digest)
    && (match Find(stages, LicenseProvenance, 0)
        case None => true
        case Some(license) =>
          match Find(stages, Sbom, 0)
          case None => false
          case Some(sbom) => sbom.outputs[0].digest == license.inputs[0].digest)
  }

  function CheckOf(g: Given, document: string, s: Stage): Check {
    Check(s.requirement, s.ok, s.rule, g.digest(document), s.detail, s.remediation)
  }

  /** The document says what the requirement needs, validly and within its size. */
  predicate DocumentOk(g: Given, document: string, required: Requirement, subject: Subject) {
    && 1 <= |document| <= MAX_STAGE_BYTES && g.parse(document).Some?
    && g.parse(document).value.requirement == required && StageIsValid(g, g.parse(document).value, subject)
  }

  predicate DocumentsOk(g: Given, documents: seq<string>, required: seq<Requirement>, subject: Subject, k: nat)
    requires k <= |documents| && k <= |required|
  {
    forall i :: 0 <= i < k ==> DocumentOk(g, documents[i], required[i], subject)
  }

  function Stages(g: Given, documents: seq<string>, k: nat): (stages: seq<Stage>)
    requires k <= |documents| && forall i :: 0 <= i < k ==> g.parse(documents[i]).Some?
    ensures |stages| == k && forall i :: 0 <= i < k ==> stages[i] == g.parse(documents[i]).value
  {
    seq(k, i requires 0 <= i < k => g.parse(documents[i]).value)
  }

  function Checks(g: Given, documents: seq<string>, k: nat): (checks: seq<Check>)
    requires k <= |documents| && forall i :: 0 <= i < k ==> g.parse(documents[i]).Some?
    ensures |checks| == k
    ensures forall i :: 0 <= i < k ==> checks[i] == CheckOf(g, documents[i], g.parse(documents[i]).value)
  {
    seq(k, i requires 0 <= i < k => CheckOf(g, documents[i], g.parse(documents[i]).value))
  }

  /** Stages that were validated one by one always have them. */
  lemma StagesHaveReferences(g: Given, documents: seq<string>, required: seq<Requirement>, subject: Subject)
    requires |documents| == |required| && DocumentsOk(g, documents, required, subject, |documents|)
    ensures AllHaveReferences(Stages(g, documents, |documents|))
  {
    forall i | 0 <= i < |documents| ensures HasReferences(Stages(g, documents, |documents|)[i]) {
      assert DocumentOk(g, documents[i], required[i], subject);
    }
  }

  predicate Assembles(g: Given, level: Level, subject: Subject, authority: Authority, documents: seq<string>) {
    var n := |Requirements(level)|;
    && |documents| == n && TotalBytes(documents, n) <= MAX_PIPELINE_BYTES
    && DocumentsOk(g, documents, Requirements(level), subject, n)
    && (StagesHaveReferences(g, documents, Requirements(level), subject); BoundTogether(Stages(g, documents, n)))
    && AuthorityOk(authority)
  }

  function ReportOf(g: Given, level: Level, subject: Subject, authority: Authority, documents: seq<string>): Report
    requires forall i :: 0 <= i < |documents| ==> g.parse(documents[i]).Some?
  {
    var checks := Checks(g, documents, |documents|);
    Report.Report(1, AllOk(checks), level, subject, authority, checks)
  }

  ghost predicate DigestsAreDigests(g: Given) { forall document :: ValidDigest(g.digest(document)) }

  ghost predicate RulesAreTokens(g: Given) { forall r :: ValidToken(g.rule(r)) }

  /** What the assembly builds from valid stages meets the contract but for the authority. */
  lemma AssembledMeetsContract(
      g: Given, level: Level, subject: Subject, authority: Authority, documents: seq<string>, requireSuccess: bool)
    requires DigestsAreDigests(g) && RulesAreTokens(g) && |documents| == |Requirements(level)|
    requires DocumentsOk(g, documents, Requirements(level), subject, |documents|)
    ensures
      var report := ReportOf(g, level, subject, authority, documents);
      MeetsContract(g, report, subject, requireSuccess) <==> AuthorityOk(authority) && (requireSuccess ==> report.ok)
  {
    var required := Requirements(level);
    var report := ReportOf(g, level, subject, authority, documents);
    forall i | 0 <= i < |documents|
      ensures report.checks[i].requirement == required[i] && CheckIsValid(g, report.checks[i])
      ensures ValidSubject(g.wellFormed, subject)
    {
      assert DocumentOk(g, documents[i], required[i], subject);
      StageMakesCheck(g, documents[i], g.parse(documents[i]).value, subject);
    }
    assert |documents| > 0;
    assert DocumentOk(g, documents[0], required[0], subject);
  }

  lemma StageMakesCheck(g: Given, document: string, s: Stage, subject: Subject)
    requires DigestsAreDigests(g) && RulesAreTokens(g) && StageIsValid(g, s, subject)
    ensures CheckIsValid(g, CheckOf(g, document, s)) && ValidSubject(g.wellFormed, subject)
  {
    assert ValidDigest(g.digest(document)) && ValidToken(g.rule(s.requirement));
  }

  lemma {:induction false} TotalGrows(documents: seq<string>, j: nat, k: nat)
    requires j <= k <= |documents|
    ensures TotalBytes(documents, j) <= TotalBytes(documents, k)
    decreases k
  {
    if j < k {
      TotalGrows(documents, j, k - 1);
    }
  }

  /** `assemble_certification_report`: the report of the documents, refused exactly if they do not assemble. The
      contract check at the end can only find fault with the authority. */
  method Assemble(g: Given, level: Level, subject: Subject, authority: Authority, documents: seq<string>)
    returns (r: Option<Report>)
    requires DigestsAreDigests(g) && RulesAreTokens(g)
    ensures r == if Assembles(g, level, subject, authority, documents)
                 then Some(ReportOf(g, level, subject, authority, documents)) else None
  {
    var required := Requirements(level);
    if |documents| != |required| {
      return None;
    }
    var total := 0;
    for i := 0 to |documents|
      invariant total == TotalBytes(documents, i)
    {
      total := total + |documents[i]|;
    }
    if total > MAX_PIPELINE_BYTES {
      return None;
    }
    var ok, stages, checks := ReadStages(
      g, (document: string, r: Requirement) => DocumentOk(g, document, r, subject), documents, required);
    if !ok {
      return None;
    }
    StagesHaveReferences(g, documents, required, subject);
    if !BoundTogether(stages) {
      return None;
    }
    var report := Report.Report(1, AllOk(checks), level, subject, authority, checks);
    AssembledMeetsContract(g, level, subject, authority, documents, false);
    var met := ValidateContract(g, report, subject, false);
    if !met {
      return None;
    }
    return Some(report);
  }

  /** The loop over the documents and the requirements together. */
  method ReadStages(g: Given, valid: (string, Requirement) -> bool, documents: seq<string>, required: seq<Requirement>)
    returns (ok: bool, stages: seq<Stage>, checks: seq<Check>)
    requires |documents| == |required|
    requires forall d, r {:trigger valid(d, r)} :: valid(d, r) ==> g.parse(d).Some?
    ensures ok <==> forall i :: 0 <= i < |documents| ==> valid(documents[i], required[i])
    ensures ok ==> stages == Stages(g, documents, |documents|) && checks == Checks(g, documents, |documents|)
  {
    stages, checks := [], [];
    for i := 0 to |documents|
      invariant forall j :: 0 <= j < i ==> valid(documents[j], required[j])
      invariant stages == Stages(g, documents, i) && checks == Checks(g, documents, i)
    {
      if !valid(documents[i], required[i]) {
        return false, stages, checks;
      }
      var stage := g.parse(documents[i]).value;
      checks := checks + [CheckOf(g, documents[i], stage)];
      stages := stages + [stage];
    }
    return true, stages, checks;
  }

  // ---------------------------------------------------------------------------------------------
  // Completeness and accumulation
  // ---------------------------------------------------------------------------------------------

  lemma ReportIsOk(g: Given, level: Level, subject: Subject, authority: Authority, documents: seq<string>)
    requires forall i :: 0 <= i < |documents| ==> g.parse(documents[i]).Some?
    ensures ReportOf(g, level, subject, authority, documents).ok <==>
            forall i :: 0 <= i < |documents| ==> g.parse(documents[i]).value.ok
  {
    var checks := Checks(g, documents, |documents|);
    assert forall i :: 0 <= i < |documents| ==> checks[i].ok == g.parse(documents[i]).value.ok;
  }

  /** An assembled report has `ok` exactly if every stage is ok, and the success validator accepts it exactly
      then. */
  lemma AssembledIsComplete(g: Given, level: Level, subject: Subject, authority: Authority, documents: seq<string>)
    requires DigestsAreDigests(g) && RulesAreTokens(g) && Assembles(g, level, subject, authority, documents)
    ensures
      var report := ReportOf(g, level, subject, authority, documents);
      && (report.ok <==> forall i :: 0 <= i < |documents| ==> g.parse(documents[i]).value.ok)
      && (MeetsContract(g, report, subject, true) <==> report.ok)
      && MeetsContract(g, report, subject, false)
  {
    ReportIsOk(g, level, subject, authority, documents);
    AssembledMeetsContract(g, level, subject, authority, documents, true);
    AssembledMeetsContract(g, level, subject, authority, documents, false);
  }

  lemma {:induction false} NotFound(stages: seq<Stage>, r: Requirement, k: nat)
    requires k <= |stages|
    ensures Find(stages, r, k).None? <==> forall i :: k <= i < |stages| ==> stages[i].requirement != r
    decreases |stages| - k
  {
    if k < |stages| && stages[k].requirement != r {
      NotFound(stages, r, k + 1);
    }
  }

  /** Below the third level there is nothing to bind together. */
  lemma LowerLevelsAreFree(g: Given, level: Level, subject: Subject, documents: seq<string>)
    requires level != EnterpriseCertified && |documents| == |Requirements(level)|
    requires DocumentsOk(g, documents, Requirements(level), subject, |documents|)
    ensures AllHaveReferences(Stages(g, documents, |documents|)) && BoundTogether(Stages(g, documents, |documents|))
  {
    StagesHaveReferences(g, documents, Requirements(level), subject);
    var stages, required := Stages(g, documents, |documents|), Requirements(level);
    forall i | 0 <= i < |stages|
      ensures stages[i].requirement != AdminPolicyMetadata && stages[i].requirement != LicenseProvenance
    {
      assert DocumentOk(g, documents[i], required[i], subject);
    }
    NotFound(stages, AdminPolicyMetadata, 0);
    NotFound(stages, LicenseProvenance, 0);
  }

  lemma PrefixIsOk(g: Given, documents: seq<string>, low: seq<Requirement>, high: seq<Requirement>, subject: Subject)
    requires |documents| == |high| && |low| < |high| && high[..|low|] == low
    requires DocumentsOk(g, documents, high, subject, |documents|)
    ensures DocumentsOk(g, documents[..|low|], low, subject, |low|)
  {
    forall i | 0 <= i < |low| ensures DocumentOk(g, documents[..|low|][i], low[i], subject) {
      assert DocumentOk(g, documents[i], high[i], subject);
      assert high[..|low|][i] == high[i];
    }
  }

  lemma PrefixAssembles(
      g: Given, low: Level, high: Level, subject: Subject, authority: Authority, documents: seq<string>)
    requires Assembles(g, high, subject, authority, documents) && |Requirements(low)| < |Requirements(high)|
    ensures Assembles(g, low, subject, authority, documents[..|Requirements(low)|])
  {
    var n := |Requirements(low)|;
    LevelsAreCumulative(low, high);
    PrefixIsOk(g, documents, Requirements(low), Requirements(high), subject);
    LowerLevelsAreFree(g, low, subject, documents[..n]);
    TotalOfPrefix(documents, n, n);
    TotalGrows(documents, n, |documents|);
  }

  lemma PrefixChecks(g: Given, documents: seq<string>, n: nat)
    requires n <= |documents| && forall i :: 0 <= i < |documents| ==> g.parse(documents[i]).Some?
    ensures Checks(g, documents[..n], n) == Checks(g, documents, |documents|)[..n]
    ensures AllOk(Checks(g, documents, |documents|)) ==> AllOk(Checks(g, documents[..n], n))
  {
    assert forall i :: 0 <= i < n ==> documents[..n][i] == documents[i];
  }

  predicate AllParse(g: Given, documents: seq<string>) {
    forall i :: 0 <= i < |documents| ==> g.parse(documents[i]).Some?
  }

  /** The report of the first `n` documents begins the report of all, and is ok if that is. */
  predicate Begins(
      g: Given, low: Level, high: Level, subject: Subject, authority: Authority, documents: seq<string>, n: nat)
    requires n <= |documents| && AllParse(g, documents)
  {
    var lower := ReportOf(g, low, subject, authority, documents[..n]);
    var higher := ReportOf(g, high, subject, authority, documents);
    lower.checks == higher.checks[..n] && (higher.ok ==> lower.ok)
  }

  /** The first documents of an accepted list assemble at the level below, and their report begins the other's;
      so a higher certification that passed implies the lower ones. */
  lemma LevelsAccumulate(
      g: Given, low: Level, high: Level, subject: Subject, authority: Authority, documents: seq<string>)
    requires Assembles(g, high, subject, authority, documents) && |Requirements(low)| < |Requirements(high)|
    ensures Assembles(g, low, subject, authority, documents[..|Requirements(low)|])
    ensures AllParse(g, documents) && Begins(g, low, high, subject, authority, documents, |Requirements(low)|)
  {
    PrefixAssembles(g, low, high, subject, authority, documents);
    AcceptedParse(g, documents, Requirements(high), subject);
    PrefixBegins(g, low, high, subject, authority, documents, |Requirements(low)|);
  }

  lemma AcceptedParse(g: Given, documents: seq<string>, required: seq<Requirement>, subject: Subject)
    requires |documents| == |required| && DocumentsOk(g, documents, required, subject, |documents|)
    ensures AllParse(g, documents)
  {
    forall i | 0 <= i < |documents| ensures g.parse(documents[i]).Some? {
      assert DocumentOk(g, documents[i], required[i], subject);
    }
  }

  lemma PrefixBegins(
      g: Given, low: Level, high: Level, subject: Subject, authority: Authority, documents: seq<string>, n: nat)
    requires n <= |documents| && AllParse(g, documents)
    ensures Begins(g, low, high, subject, authority, documents, n)
  {
    PrefixChecks(g, documents, n);
  }

  lemma {:induction false} FindFinds(stages: seq<Stage>, r: Requirement, k: nat, i: nat)
    requires k <= i < |stages| && stages[i].requirement == r
    requires forall j :: 0 <= j < |stages| && stages[j].requirement == r ==> j == i
    ensures Find(stages, r, k) == Some(stages[i])
    decreases |stages| - k
  {
    if k < i {
      FindFinds(stages, r, k + 1, i);
    }
  }

  /** In an accepted list at the third level, the admin metadata starts from the manifest that was validated, and the
      licenses were reviewed against the bill that was generated. */
  lemma AcceptedIsBound(
      g: Given, subject: Subject, authority: Authority, documents: seq<string>, i: nat, j: nat)
    requires Assembles(g, EnterpriseCertified, subject, authority, documents) && i < |documents| && j < |documents|
    ensures
      var required := Requirements(EnterpriseCertified);
      && |required| == |documents| && AllParse(g, documents)
      && StageIs(g, documents[i], required[i]) && StageIs(g, documents[j], required[j])
      && (required[i] == AdminPolicyMetadata && required[j] == ManifestValidation ==>
            g.parse(documents[i]).value.inputs[0].digest == g.parse(documents[j]).value.inputs[0].digest)
      && (required[i] == LicenseProvenance && required[j] == Sbom ==>
            g.parse(documents[i]).value.inputs[0].digest == g.parse(documents[j]).value.outputs[0].digest)
  {
    var required := Requirements(EnterpriseCertified);
    var stages := Stages(g, documents, |documents|);
    NoRequirementTwice(EnterpriseCertified);
    forall m | 0 <= m < |documents| ensures StageIs(g, documents[m], required[m]) && HasReferences(stages[m]) {
      assert DocumentOk(g, documents[m], required[m], subject);
    }
    forall m | 0 <= m < |documents| ensures Find(stages, required[m], 0) == Some(stages[m]) {
      FindFinds(stages, required[m], 0, m);
    }
  }

  predicate StageIs(g: Given, document: string, r: Requirement) {
    g.parse(document).Some? && g.parse(document).value.requirement == r && HasReferences(g.parse(document).value)
  }

  /** Each check of a report repeats its stage and names its document. */
  lemma ChecksRepeatStages(
      g: Given, level: Level, subject: Subject, authority: Authority, documents: seq<string>, i: nat)
    requires AllParse(g, documents) && i < |documents|
    ensures
      var check, stage := ReportOf(g, level, subject, authority, documents).checks[i], g.parse(documents[i]).value;
      && check.requirement == stage.requirement && check.ok == stage.ok && check.rule == stage.rule
      && check.detail == stage.detail && check.remediation == stage.remediation
      && check.evidenceDigest == g.digest(documents[i])
  {
  }

  lemma {:induction false} TotalOfPrefix(documents: seq<string>, n: nat, k: nat)
    requires k <= n <= |documents|
    ensures TotalBytes(documents[..n], k) == TotalBytes(documents, k)
  {
    if k > 0 {
      TotalOfPrefix(documents, n, k - 1);
    }
  }

  predicate TokenChars(s: string) { forall i :: 0 <= i < |s| ==> TokenChar(s[i]) }

  predicate SlugChars(s: string) { forall i :: 0 <= i < |s| ==> 'a' <= s[i] <= 'z' || s[i] == '-' }

  predicate SlugOk(r: Requirement) { SlugChars(Slug(r)) && 1 <= |Slug(r)| <= 24 }

  lemma FirstSlugs(r: Requirement)
    requires r.ManifestValidation? || r.TsppLifecycle?
    ensures SlugOk(r)
  {
  }

  lemma SecondSlugs(r: Requirement)
    requires r.PublicCorpusBenchmark? || r.ProtocolFuzzing? || r.ReproducibleBuild?
    ensures SlugOk(r)
  {
  }

  lemma ThirdSlugs(r: Requirement)
    requires r.SafetyContract? || r.SignedArtifact? || r.Sbom?
    ensures SlugOk(r)
  {
  }

  lemma LastSlugs(r: Requirement)
    requires r.LicenseProvenance? || r.AdminPolicyMetadata?
    ensures SlugOk(r)
  {
  }

  /** The stable rules are tokens. */
  lemma StableRulesAreTokens(r: Requirement)
    ensures ValidToken(RuleOf(r))
  {
    match r {
      case ManifestValidation | TsppLifecycle => FirstSlugs(r);
      case PublicCorpusBenchmark | ProtocolFuzzing | ReproducibleBuild => SecondSlugs(r);
      case SafetyContract | SignedArtifact | Sbom => ThirdSlugs(r);
      case LicenseProvenance | AdminPolicyMetadata => LastSlugs(r);
    }
    RuleIsToken(LevelDigit(r), Slug(r));
  }

  lemma RuleIsToken(digit: string, slug: string)
    requires TokenChars(digit) && |digit| == 1 && SlugChars(slug) && 1 <= |slug| <= 24
    ensures ValidToken("certification.level" + digit + "." + slug + ".v1")
  {
    assert TokenChars("certification.level") && TokenChars(".") && TokenChars(".v1");
    assert TokenChars(slug);
  }

  /** The rules that the assembly gives. */
  ghost predicate HasStableRules(g: Given) { forall r :: g.rule(r) == RuleOf(r) }

  lemma GivenRulesAreTokens(g: Given)
    requires HasStableRules(g)
    ensures RulesAreTokens(g)
  {
    forall r ensures ValidToken(g.rule(r)) {
      StableRulesAreTokens(r);
    }
  }

  /** `assemble_certification_report` with its own rules: the report is ok exactly if all stages are, and accepted by
      the success validator exactly then. */
  method AssembleCertification(g: Given, level: Level, subject: Subject, authority: Authority, documents: seq<string>)
    returns (r: Option<Report>)
    requires DigestsAreDigests(g) && HasStableRules(g)
    ensures r == if Assembles(g, level, subject, authority, documents)
                 then Some(ReportOf(g, level, subject, authority, documents)) else None
    ensures r.Some? ==>
              && (r.value.ok <==>
                    forall i :: 0 <= i < |documents| ==> g.parse(documents[i]).Some? && g.parse(documents[i]).value.ok)
              && (MeetsContract(g, r.value, subject, true) <==> r.value.ok)
  {
    GivenRulesAreTokens(g);
    r := Assemble(g, level, subject, authority, documents);
    if r.Some? {
      AssembledIsComplete(g, level, subject, authority, documents);
    }
  }
}
