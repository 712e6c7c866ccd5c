/** The documents of a protocol-fuzz campaign, and what a corpus plans. */
module Fuzz {
  import opened Bytes
  import opened Texts

  const PROTOCOL := "TSPP/1"
  const MAX_EXECUTIONS: nat := 1_000_000_000
  const MAX_DURATION_MILLISECONDS: nat := 7 * 24 * 60 * 60 * 1_000
  const MAX_CASES: nat := 100_000
  const MAX_REPETITIONS: nat := 1_000_000
  const MAX_INPUT_BYTES: nat := 0x100_0000
  const MAX_EXECUTION_MILLISECONDS: nat := 60_000
  const MAX_MEMORY_BYTES: nat := 0x4_0000_0000
  const MAX_STREAM_BYTES: nat := 0x400_0000

  type u64 = x: nat | x < U64_LIMIT

  datatype CaseClass = Valid | Malformed

  datatype Disposition = Accepted | Rejected | NoDecision

  datatype Safety = Safety(
    crash: bool, hang: bool, sanitizerFailure: bool, memoryLimitViolation: bool,
    stdoutProtocolViolation: bool, stderrLimitViolation: bool, deadlineViolation: bool, unreapedProcess: bool)

  datatype Outcome = Outcome(disposition: Disposition, safety: Safety)

  datatype Case = Case(id: string, kind: CaseClass, inputBase64: string)

  datatype Limits = Limits(
    maximumExecutionMilliseconds: nat, maximumMemoryBytes: nat,
    maximumStdoutBytes: nat, maximumStderrBytes: nat, requiredSanitizers: seq<string>)

  datatype Corpus = Corpus(
    schemaVersion: nat, corpusId: string, protocol: string, repetitions: nat, limits: Limits, cases: seq<Case>)

  datatype Engine = Engine(id: string, version: string, activeSanitizers: seq<string>)

  datatype Policy = Policy(
    schemaVersion: nat, policyId: string, protocol: string, corpusId: string, corpusDigest: string,
    minimumExecutions: nat, minimumValidInputs: nat, minimumMalformedInputs: nat,
    minimumCoverageBasisPoints: nat, maximumDurationMilliseconds: nat)

  datatype Subject = Subject(
    pluginId: string, version: string, platform: string, apiVersion: nat,
    artifactDigest: string, packageDigest: string, releaseId: string)

  datatype Execution = Execution(
    ordinal: nat, repetition: nat, testCase: Case, input: seq<byte>, subject: Subject, limits: Limits,
    deadlineMilliseconds: nat, remainingMilliseconds: nat)

  /** Standard base64, which is library code. */
  datatype Codec = Codec(decode: string -> Option<seq<byte>>, encode: seq<byte> -> string)

  /** `decode_certification_fuzz_case` */
  function DecodeCase(codec: Codec, c: Case): Option<seq<byte>> {
    match codec.decode(c.inputBase64)
    case None => None
    case Some(input) =>
      if |input| > MAX_INPUT_BYTES || codec.encode(input) != c.inputBase64 then None else Some(input)
  }

  const SANITIZERS: set<string> := {"address", "leak", "memory", "thread", "undefined"}

  predicate ValidEngine(engine: Engine) {
    && ValidToken(engine.id) && ValidToken(engine.version)
    && engine.activeSanitizers != [] && (forall s :: s in engine.activeSanitizers ==> s in SANITIZERS)
    && Ascending(engine.activeSanitizers)
  }

  /** `validate_certification_fuzz_engine` */
  predicate EngineFits(engine: Engine, corpus: Corpus) {
    && ValidEngine(engine)
    && forall s :: s in corpus.limits.requiredSanitizers ==>
         Search(engine.activeSanitizers, s, 0, |engine.activeSanitizers|)
  }

  /** A fitting engine has every required sanitizer active. */
  lemma FittingEngineCovers(engine: Engine, corpus: Corpus)
    requires ValidEngine(engine)
    ensures EngineFits(engine, corpus) <==>
            forall s :: s in corpus.limits.requiredSanitizers ==> s in engine.activeSanitizers
  {
    var active := engine.activeSanitizers;
    assert active[0..|active|] == active;
    forall s | s in corpus.limits.requiredSanitizers
      ensures Search(active, s, 0, |active|) <==> s in active
    {
      SearchFinds(active, s, 0, |active|);
    }
  }

  // ---------------------------------------------------------------------------------------------
  // The plan
  // ---------------------------------------------------------------------------------------------

  /** How many of the first `k` cases are of a class. */
  function CountClass(cases: seq<Case>, k: nat, kind: CaseClass): nat
    requires k <= |cases|
  {
    if k == 0 then 0 else CountClass(cases, k - 1, kind) + if cases[k - 1].kind == kind then 1 else 0
  }

  lemma {:induction false} ClassesPartition(cases: seq<Case>, k: nat)
    requires k <= |cases|
    ensures CountClass(cases, k, Valid) + CountClass(cases, k, Malformed) == k
  {
    if k > 0 {
      ClassesPartition(cases, k - 1);
    }
  }

  lemma {:induction false} CountClassGrows(cases: seq<Case>, j: nat, k: nat, kind: CaseClass)
    requires j <= k <= |cases|
    ensures CountClass(cases, j, kind) <= CountClass(cases, k, kind)
    decreases k
  {
    if j < k {
      CountClassGrows(cases, j, k - 1, kind);
    }
  }

  lemma {:induction false} CountClassFinds(cases: seq<Case>, k: nat, kind: CaseClass)
    requires k <= |cases|
    ensures CountClass(cases, k, kind) == 0 <==> forall i :: 0 <= i < k ==> cases[i].kind != kind
  {
    if k > 0 {
      CountClassFinds(cases, k - 1, kind);
    }
  }

  datatype PlannedCounts = PlannedCounts(total: nat, valid: nat, malformed: nat)

  function CheckedMul(a: nat, b: nat): Option<nat> { if a * b < U64_LIMIT then Some(a * b) else None }

  function CheckedAdd(a: nat, b: nat): Option<nat> { if a + b < U64_LIMIT then Some(a + b) else None }

  /** `planned_execution_counts` */
  function Plan(corpus: Corpus): Option<PlannedCounts> {
    var valid := CountClass(corpus.cases, |corpus.cases|, Valid);
    ClassesPartition(corpus.cases, |corpus.cases|);
    var malformed: nat := |corpus.cases| - valid;
    match (CheckedMul(valid, corpus.repetitions), CheckedMul(malformed, corpus.repetitions))
    case (Some(v), Some(m)) =>
      (match CheckedAdd(v, m)
       case Some(total) => if total > MAX_EXECUTIONS then None else Some(PlannedCounts(total, v, m))
       case None => None)
    case _ => None
  }

  /** Every case in every repetition. */
  function PlanSize(corpus: Corpus): nat { corpus.repetitions * |corpus.cases| }

  /** The plan is refused exactly when it has more than a billion executions: no product overflows unnoticed. */
  lemma PlanIsExact(corpus: Corpus)
    ensures Plan(corpus).Some? <==> PlanSize(corpus) <= MAX_EXECUTIONS
    ensures Plan(corpus).Some? ==>
              && Plan(corpus).value.total == PlanSize(corpus)
              && Plan(corpus).value.valid == corpus.repetitions * CountClass(corpus.cases, |corpus.cases|, Valid)
              && Plan(corpus).value.malformed ==
                   corpus.repetitions * CountClass(corpus.cases, |corpus.cases|, Malformed)
  {
    var n, r := |corpus.cases|, corpus.repetitions;
    var v, m := CountClass(corpus.cases, n, Valid), CountClass(corpus.cases, n, Malformed);
    ClassesPartition(corpus.cases, n);
    assert v * r + m * r == r * n by {
      assert (v + m) * r == v * r + m * r;
    }
    assert v * r <= r * n && m * r <= r * n;
  }

  // ---------------------------------------------------------------------------------------------
  // Corpus and policy validation
  // ---------------------------------------------------------------------------------------------

  predicate CorpusHeaderOk(corpus: Corpus) {
    && corpus.schemaVersion == 1 && corpus.protocol == PROTOCOL && ValidToken(corpus.corpusId)
    && 1 <= corpus.repetitions <= MAX_REPETITIONS
    && 1 <= |corpus.cases| <= MAX_CASES
    && 1 <= corpus.limits.maximumExecutionMilliseconds <= MAX_EXECUTION_MILLISECONDS
    && 1 <= corpus.limits.maximumMemoryBytes <= MAX_MEMORY_BYTES
    && 1 <= corpus.limits.maximumStdoutBytes <= MAX_STREAM_BYTES
    && 1 <= corpus.limits.maximumStderrBytes <= MAX_STREAM_BYTES
    && corpus.limits.requiredSanitizers != []
  }

  predicate CaseOk(codec: Codec, c: Case) { ValidToken(c.id) && DecodeCase(codec, c).Some? }

  /** Distinct supported sanitizers and distinct, well-formed cases of both classes, each list in order,
      planning at most a billion executions. */
  predicate ValidCorpus(codec: Codec, corpus: Corpus) {
    var required, cases := corpus.limits.requiredSanitizers, corpus.cases;
    && CorpusHeaderOk(corpus)
    && (forall s :: s in required ==> s in SANITIZERS)
    && (forall i, j :: 0 <= i < j < |required| ==> Less(required[i], required[j]))
    && (forall i :: 0 <= i < |cases| ==> CaseOk(codec, cases[i]))
    && (forall i, j :: 0 <= i < j < |cases| ==> Less(cases[i].id, cases[j].id))
    && (exists i :: 0 <= i < |cases| && cases[i].kind == Valid)
    && (exists i :: 0 <= i < |cases| && cases[i].kind == Malformed)
    && PlanSize(corpus) <= MAX_EXECUTIONS
  }

  predicate InOrder(xs: seq<string>) { forall i, j :: 0 <= i < j < |xs| ==> Less(xs[i], xs[j]) }

  lemma InOrderExtends(xs: seq<string>, x: string)
    requires InOrder(xs) && (xs != [] ==> Less(xs[|xs| - 1], x))
    ensures InOrder(xs + [x])
  {
    var ys := xs + [x];
    forall i, j | 0 <= i < j < |ys| ensures Less(ys[i], ys[j]) {
      if j == |xs| && i < |xs| - 1 {
        LessIsTransitiveFrom(xs[i], xs[|xs| - 1], x, 0);
      }
    }
  }

  lemma InOrderIsDistinct(xs: seq<string>, i: nat, j: nat)
    requires InOrder(xs) && i < j < |xs|
    ensures xs[i] != xs[j]
  {
    LessIsStrictFrom(xs[i], xs[j], 0);
  }

  /** The loop over the required sanitizers. */
  method ValidateSanitizers(required: seq<string>) returns (ok: bool)
    ensures ok <==> (forall s :: s in required ==> s in SANITIZERS) && InOrder(required)
  {
    var seen: set<string> := {};
    var previous: Option<string> := None;
    for i := 0 to |required|
      invariant InOrder(required[..i])
      invariant forall s :: s in required[..i] ==> s in SANITIZERS
      invariant seen == set s | s in required[..i]
      invariant previous == if i == 0 then None else Some(required[i - 1])
    {
      var s := required[i];
      assert required[..i + 1] == required[..i] + [s];
      if s !in SANITIZERS || (previous.Some? && !Less(previous.value, s)) || s in seen {
        if s in SANITIZERS && InOrder(required) && s in seen {
          var j :| 0 <= j < i && required[j] == s;
          InOrderIsDistinct(required, j, i);
        }
        return false;
      }
      InOrderExtends(required[..i], s);
      seen := seen + {s};
      previous := Some(s);
    }
    assert required[..|required|] == required;
    return true;
  }

  function Ids(cases: seq<Case>): (ids: seq<string>)
    ensures |ids| == |cases| && forall i :: 0 <= i < |cases| ==> ids[i] == cases[i].id
  {
    seq(|cases|, i requires 0 <= i < |cases| => cases[i].id)
  }

  /** The first `k` cases are well formed and in order. */
  predicate CasesOk(codec: Codec, cases: seq<Case>, k: nat)
    requires k <= |cases|
  {
    && (forall i :: 0 <= i < k ==> CaseOk(codec, cases[i]))
    && InOrder(Ids(cases)[..k])
  }

  lemma CasesOkExtends(codec: Codec, cases: seq<Case>, k: nat)
    requires k < |cases|
    ensures CasesOk(codec, cases, k + 1) <==>
            CasesOk(codec, cases, k) && CaseOk(codec, cases[k]) && (k > 0 ==> Less(cases[k - 1].id, cases[k].id))
  {
    var ids := Ids(cases);
    assert ids[..k + 1] == ids[..k] + [cases[k].id];
    if CasesOk(codec, cases, k + 1) {
      forall i, j | 0 <= i < j < k ensures Less(ids[..k][i], ids[..k][j]) {
        assert Less(ids[..k + 1][i], ids[..k + 1][j]);
      }
      assert k > 0 ==> Less(ids[..k + 1][k - 1], ids[..k + 1][k]);
    } else if InOrder(ids[..k]) && (k > 0 ==> Less(cases[k - 1].id, cases[k].id)) {
      InOrderExtends(ids[..k], cases[k].id);
    }
  }

  lemma {:induction false} CasesOkShrinks(codec: Codec, cases: seq<Case>, k: nat)
    requires k <= |cases| && !CasesOk(codec, cases, k)
    ensures !CasesOk(codec, cases, |cases|)
    decreases |cases| - k
  {
    if k < |cases| {
      CasesOkExtends(codec, cases, k);
      CasesOkShrinks(codec, cases, k + 1);
    }
  }

  function IdBefore(cases: seq<Case>, k: nat): Option<string>
    requires k <= |cases|
  {
    if k == 0 then None else Some(cases[k - 1].id)
  }

  /** One turn of the loop over the cases. */
  method CheckCase(codec: Codec, cases: seq<Case>, k: nat, previous: Option<string>) returns (ok: bool)
    requires k < |cases| && previous == IdBefore(cases, k) && CasesOk(codec, cases, k)
    ensures ok ==> CasesOk(codec, cases, k + 1)
    ensures !ok ==> !CasesOk(codec, cases, |cases|)
  {
    var c := cases[k];
    CasesOkExtends(codec, cases, k);
    ok := ValidToken(c.id) && (previous.None? || Less(previous.value, c.id));
    if ok {
      var input := DecodeCase(codec, c);
      ok := input.Some?;
    }
    if !ok {
      CasesOkShrinks(codec, cases, k + 1);
    }
  }

  /** The loop over the cases: they are well formed and in order, and it counts them by class. */
  method ValidateCases(codec: Codec, cases: seq<Case>) returns (ok: bool, valid: nat, malformed: nat)
    ensures ok <==> CasesOk(codec, cases, |cases|)
    ensures ok ==> valid == CountClass(cases, |cases|, Valid) && malformed == CountClass(cases, |cases|, Malformed)
  {
    var previous: Option<string> := None;
    ok, valid, malformed := true, 0, 0;
    for k := 0 to |cases|
      invariant ok && CasesOk(codec, cases, k)
      invariant valid == CountClass(cases, k, Valid) && malformed == CountClass(cases, k, Malformed)
      invariant previous == IdBefore(cases, k)
    {
      ok := CheckCase(codec, cases, k, previous);
      if !ok {
        return;
      }
      match cases[k].kind {
        case Valid => valid := valid + 1;
        case Malformed => malformed := malformed + 1;
      }
      previous := Some(cases[k].id);
    }
  }

  /** `validate_fuzz_corpus` accepts exactly the valid corpora. */
  method ValidateCorpus(codec: Codec, corpus: Corpus) returns (ok: bool)
    ensures ok <==> ValidCorpus(codec, corpus)
  {
    if !CorpusHeaderOk(corpus) {
      return false;
    }
    ok := ValidateSanitizers(corpus.limits.requiredSanitizers);
    if !ok {
      return;
    }
    var valid, malformed;
    ok, valid, malformed := ValidateCases(codec, corpus.cases);
    ghost var ids := Ids(corpus.cases);
    assert ids[..|ids|] == ids;
    assert InOrder(ids) <==>
           forall i, j :: 0 <= i < j < |ids| ==> Less(corpus.cases[i].id, corpus.cases[j].id);
    if !ok {
      return;
    }
    CountClassFinds(corpus.cases, |corpus.cases|, Valid);
    CountClassFinds(corpus.cases, |corpus.cases|, Malformed);
    PlanIsExact(corpus);
    ok := valid != 0 && malformed != 0 && Plan(corpus).Some?;
  }

  predicate ValidPolicy(policy: Policy) {
    && policy.schemaVersion == 1 && policy.protocol == PROTOCOL
    && ValidToken(policy.policyId) && ValidToken(policy.corpusId) && ValidDigest(policy.corpusDigest)
    && 1 <= policy.minimumExecutions <= MAX_EXECUTIONS
    && 1 <= policy.minimumValidInputs <= MAX_EXECUTIONS
    && 1 <= policy.minimumMalformedInputs <= MAX_EXECUTIONS
    && policy.minimumCoverageBasisPoints <= 10_000
    && 1 <= policy.maximumDurationMilliseconds <= MAX_DURATION_MILLISECONDS
  }

  /** `validate_policy_corpus` */
  predicate PolicyFits(policy: Policy, corpus: Corpus) {
    match Plan(corpus)
    case None => false
    case Some(planned) =>
      && policy.corpusId == corpus.corpusId
      && policy.minimumExecutions <= planned.total
      && policy.minimumValidInputs <= planned.valid
      && policy.minimumMalformedInputs <= planned.malformed
  }

  /** `validate_certification_fuzz_plan`, given the digest of the corpus bytes. */
  predicate ValidPlan(codec: Codec, policy: Policy, corpus: Corpus, corpusDigest: string) {
    && ValidPolicy(policy) && ValidCorpus(codec, corpus)
    && policy.corpusDigest == corpusDigest && PolicyFits(policy, corpus)
  }
}
