/** Software bills of materials: the explicit-stack walk over their components, and the accounting of licenses
    and provenance that decides the two stages. */
module SupplyChain {
  import opened Bytes
  import opened Texts
  import Decimal

  const MAX_COMPONENTS: nat := 100_000
  const MAX_LICENSE_IDS: nat := 512

  datatype Hash = Hash(alg: string, content: string)

  /** A license choice, with its SPDX id and its expression where it has them. */
  datatype Choice = Choice(id: Option<string>, expression: Option<string>)

  datatype Component = Component(
    bomRef: string, kind: string, name: string, version: string,
    hashes: seq<Hash>, licenses: seq<Choice>, purl: Option<string>, components: seq<Component>)

  datatype Bom = Bom(root: Component, components: seq<Component>)

  // ---------------------------------------------------------------------------------------------
  // The walk
  // ---------------------------------------------------------------------------------------------

  /** A component before its components, each with all of its own. */
  function Preorder(c: Component): seq<Component>
    decreases c
  {
    [c] + PreorderAll(c.components)
  }

  function PreorderAll(cs: seq<Component>): seq<Component>
    decreases cs
  {
    if cs == [] then [] else Preorder(cs[0]) + PreorderAll(cs[1..])
  }

  /** The top-level components, and then the root with its own: the root is at the bottom of the stack. */
  function Order(b: Bom): seq<Component> { PreorderAll(b.components) + Preorder(b.root) }

  function Reversed<T>(s: seq<T>): (r: seq<T>)
    ensures |r| == |s| && forall i :: 0 <= i < |s| ==> r[i] == s[|s| - 1 - i]
  {
    seq(|s|, i requires 0 <= i < |s| => s[|s| - 1 - i])
  }

  lemma {:induction false} PreorderConcat(a: seq<Component>, b: seq<Component>)
    ensures PreorderAll(a + b) == PreorderAll(a) + PreorderAll(b)
  {
    if a == [] {
      assert a + b == b;
    } else {
      PreorderConcat(a[1..], b);
      assert (a + b)[1..] == a[1..] + b;
      assert PreorderAll(a + b) == Preorder(a[0]) + (PreorderAll(a[1..]) + PreorderAll(b));
    }
  }

  /** Popping a component and pushing its own in reverse leaves the same walk. */
  lemma PopAndPush(top: Component, rest: seq<Component>)
    ensures PreorderAll(Reversed(rest + [top])) == [top] + PreorderAll(Reversed(rest + Reversed(top.components)))
  {
    var r, s := Reversed(rest), Reversed(rest + [top]);
    assert s[0] == top && s[1..] == r;
    assert Reversed(rest + Reversed(top.components)) == top.components + r;
    PreorderConcat(top.components, r);
  }

  predicate AsciiGraphic(s: string) { forall i :: 0 <= i < |s| ==> '!' <= s[i] <= '~' }

  predicate KindOk(s: string) { 1 <= |s| <= 160 && forall i :: 0 <= i < |s| ==> TokenChar(s[i]) }

  /** `valid_component_identity`, where `text` says which texts have no control characters. */
  predicate IdentityOk(text: string -> bool, c: Component) {
    && 1 <= |c.bomRef| <= 1_024 && AsciiGraphic(c.bomRef) && KindOk(c.kind)
    && 1 <= |c.name| <= 512 && text(c.name) && 1 <= |c.version| <= 512 && text(c.version)
  }

  function Stable(text: string -> bool): Component -> bool { (c: Component) => IdentityOk(text, c) }

  predicate DistinctRefs(cs: seq<Component>) { forall i, j :: 0 <= i < j < |cs| ==> cs[i].bomRef != cs[j].bomRef }

  predicate Sound(identity: Component -> bool, cs: seq<Component>) {
    |cs| <= MAX_COMPONENTS && (forall i :: 0 <= i < |cs| ==> identity(cs[i])) && DistinctRefs(cs)
  }

  function Refs(cs: seq<Component>): set<string> { set i | 0 <= i < |cs| :: cs[i].bomRef }

  predicate Addable(identity: Component -> bool, cs: seq<Component>, c: Component) {
    |cs| < MAX_COMPONENTS && identity(c) && c.bomRef !in Refs(cs)
  }

  lemma SoundGrows(identity: Component -> bool, cs: seq<Component>, c: Component)
    requires Sound(identity, cs) && Addable(identity, cs, c)
    ensures Sound(identity, cs + [c]) && Refs(cs + [c]) == Refs(cs) + {c.bomRef}
  {
    var ds := cs + [c];
    forall i, j | 0 <= i < j < |ds| ensures ds[i].bomRef != ds[j].bomRef {
      assert cs[i].bomRef in Refs(cs);
    }
    assert forall r :: r in Refs(cs) + {c.bomRef} ==> r in Refs(ds) by {
      assert ds[|cs|] == c && forall i :: 0 <= i < |cs| ==> ds[i] == cs[i];
    }
  }

  lemma UnsoundStays(identity: Component -> bool, cs: seq<Component>, c: Component, all: seq<Component>)
    requires !Addable(identity, cs, c) && |cs| < |all| && all[..|cs|] == cs && all[|cs|] == c
    ensures !Sound(identity, all)
  {
    if c.bomRef in Refs(cs) {
      var i :| 0 <= i < |cs| && cs[i].bomRef == c.bomRef;
      assert all[i] == cs[i];
    }
  }

  /** The top of the stack is the next component of the walk. */
  lemma NextVisit(stack: seq<Component>, result: seq<Component>, todo: seq<Component>, all: seq<Component>)
    requires stack != [] && todo == PreorderAll(Reversed(stack)) && result + todo == all
    ensures
      var c, rest := stack[|stack| - 1], stack[..|stack| - 1];
      && |result| < |all| && all[..|result|] == result && all[|result|] == c
      && todo != [] && todo[1..] == PreorderAll(Reversed(rest + Reversed(c.components)))
      && result + [c] + todo[1..] == all
  {
    var c, rest := stack[|stack| - 1], stack[..|stack| - 1];
    assert stack == rest + [c];
    PopAndPush(c, rest);
    assert todo == [c] + PreorderAll(Reversed(rest + Reversed(c.components)));
  }

  /** `collect_components` returns the walk, and refuses it exactly if it is too long, has a component without
      a stable identity or has two with one bom-ref. */
  method CollectComponents(identity: Component -> bool, bom: Bom) returns (r: Option<seq<Component>>)
    ensures r == if Sound(identity, Order(bom)) then Some(Order(bom)) else None
  {
    ghost var all := Order(bom);
    var result: seq<Component> := [];
    var stack := [bom.root] + Reversed(bom.components);
    ghost var todo := Order(bom);
    var refs: set<string> := {};
    FirstStack(bom);
    while stack != []
      invariant todo == PreorderAll(Reversed(stack)) && result + todo == all
      invariant Sound(identity, result) && refs == Refs(result)
      decreases |todo|
    {
      var component := stack[|stack| - 1];
      var rest := stack[..|stack| - 1];
      NextVisit(stack, result, todo, all);
      if |result| >= MAX_COMPONENTS || !identity(component) || component.bomRef in refs {
        UnsoundStays(identity, result, component, all);
        return None;
      }
      SoundGrows(identity, result, component);
      result := result + [component];
      refs := refs + {component.bomRef};
      stack := rest + Reversed(component.components);
      todo := todo[1..];
    }
    assert Reversed(stack) == [] && result + [] == result;
    return Some(result);
  }

  lemma FirstStack(bom: Bom)
    ensures PreorderAll(Reversed([bom.root] + Reversed(bom.components))) == Order(bom)
  {
    var s := Reversed([bom.root] + Reversed(bom.components));
    assert s == bom.components + [bom.root];
    PreorderConcat(bom.components, [bom.root]);
    assert PreorderAll([bom.root]) == Preorder(bom.root);
  }

  // ---------------------------------------------------------------------------------------------
  // What is asked of a component
  // ---------------------------------------------------------------------------------------------

  predicate HexDigits(s: string) { forall i :: 0 <= i < |s| ==> Decimal.IsDigit(s[i]) || 'a' <= s[i] <= 'f' }

  predicate HasSha256(c: Component) {
    exists h :: h in c.hashes && h.alg == "SHA-256" && |h.content| == 64 && HexDigits(h.content)
  }

  predicate ValidPurl(purl: Option<string>) {
    purl.Some? && 5 <= |purl.value| <= 512 && purl.value[..4] == "pkg:" && AsciiGraphic(purl.value)
  }

  predicate ValidSpdx(id: string) {
    1 <= |id| <= 128 &&
    forall i :: 0 <= i < |id| ==>
      'a' <= id[i] <= 'z' || 'A' <= id[i] <= 'Z' || Decimal.IsDigit(id[i]) || id[i] in ".-+_"
  }

  /** `component_spdx_ids`: the valid ids among the first `k` choices, in order. */
  function SpdxIds(spdx: string -> bool, licenses: seq<Choice>, k: nat): seq<string>
    requires k <= |licenses|
  {
    if k == 0 then []
    else
      SpdxIds(spdx, licenses, k - 1) +
      match licenses[k - 1].id
      case None => []
      case Some(id) => if spdx(id) then [id] else []
  }

  lemma {:induction false} SpdxIdsAreValid(spdx: string -> bool, licenses: seq<Choice>, k: nat, id: string)
    requires k <= |licenses|
    ensures id in SpdxIds(spdx, licenses, k) <==> spdx(id) && exists i :: 0 <= i < k && licenses[i].id == Some(id)
  {
    if k > 0 {
      SpdxIdsAreValid(spdx, licenses, k - 1, id);
    }
  }

  predicate HasExpression(licenses: seq<Choice>) { exists i :: 0 <= i < |licenses| && licenses[i].expression.Some? }

  /** What the accounting looks at in a component. */
  datatype Facts = Facts(ids: seq<string>, expression: bool, sha256: bool, purl: bool)

  function FactsOf(c: Component): Facts {
    Facts(SpdxIds(ValidSpdx, c.licenses, |c.licenses|), HasExpression(c.licenses), HasSha256(c), ValidPurl(c.purl))
  }

  // ---------------------------------------------------------------------------------------------
  // Accounting
  // ---------------------------------------------------------------------------------------------

  function CountIf<T>(xs: seq<T>, k: nat, p: T -> bool): nat
    requires k <= |xs|
  {
    if k == 0 then 0 else CountIf(xs, k - 1, p) + if p(xs[k - 1]) then 1 else 0
  }

  lemma {:induction false} CountIfIsExact<T>(xs: seq<T>, k: nat, p: T -> bool)
    requires k <= |xs|
    ensures CountIf(xs, k, p) <= k
    ensures CountIf(xs, k, p) == 0 <==> forall i :: 0 <= i < k ==> !p(xs[i])
    ensures CountIf(xs, k, p) == k <==> forall i :: 0 <= i < k ==> p(xs[i])
  {
    if k > 0 {
      CountIfIsExact(xs, k - 1, p);
    }
  }

  datatype LicensePolicy = LicensePolicy(
    schemaVersion: nat, policyId: string, allowed: seq<string>, denied: seq<string>, maximumComponents: nat,
    requireLicenses: bool, requireProvenance: bool)

  predicate SortedUniqueSpdx(ids: seq<string>) {
    (forall i :: 0 <= i < |ids| ==> ValidSpdx(ids[i])) && Ascending(ids)
  }

  predicate Listed(ids: seq<string>, id: string) { Search(ids, id, 0, |ids|) }

  predicate PolicyOk(p: LicensePolicy) {
    && p.schemaVersion == 1 && KindOk(p.policyId)
    && 1 <= |p.allowed| <= MAX_LICENSE_IDS && |p.denied| <= MAX_LICENSE_IDS
    && 1 <= p.maximumComponents <= MAX_COMPONENTS
    && p.requireLicenses && p.requireProvenance
    && SortedUniqueSpdx(p.allowed) && SortedUniqueSpdx(p.denied)
    && forall id :: id in p.allowed ==> !Listed(p.denied, id)
  }

  /** Binary search in a list of a valid policy finds its members, and no id is on both lists. */
  lemma ListsAreSets(p: LicensePolicy, id: string)
    requires PolicyOk(p)
    ensures Listed(p.allowed, id) <==> id in p.allowed
    ensures Listed(p.denied, id) <==> id in p.denied
    ensures !(id in p.allowed && id in p.denied)
  {
    SearchFinds(p.allowed, id, 0, |p.allowed|);
    SearchFinds(p.denied, id, 0, |p.denied|);
    assert p.allowed[0..|p.allowed|] == p.allowed && p.denied[0..|p.denied|] == p.denied;
  }

  predicate Licensed(f: Facts) { f.ids != [] }

  predicate Denied(listed: (seq<string>, string) -> bool, denied: seq<string>, f: Facts) {
    exists i :: 0 <= i < |f.ids| && listed(denied, f.ids[i])
  }

  predicate Unknown(listed: (seq<string>, string) -> bool, allowed: seq<string>, denied: seq<string>, f: Facts) {
    f.expression || exists i :: 0 <= i < |f.ids| && !listed(denied, f.ids[i]) && !listed(allowed, f.ids[i])
  }

  predicate Provenance(f: Facts) { f.sha256 && f.purl }

  datatype Metrics = Metrics(
    components: nat, licensed: nat, provenance: nat, denied: nat, unknown: nat,
    missingLicense: nat, missingProvenance: nat)

  /** The loop over the ids of one component. */
  method ClassifyIds(listed: (seq<string>, string) -> bool, allowed: seq<string>, denied: seq<string>, f: Facts)
    returns (isDenied: bool, isUnknown: bool, seen: set<string>)
    ensures isDenied <==> Denied(listed, denied, f)
    ensures isUnknown <==> Unknown(listed, allowed, denied, f)
    ensures seen == set id | id in f.ids
  {
    isDenied, isUnknown, seen := false, f.expression, {};
    for i := 0 to |f.ids|
      invariant isDenied <==> exists j :: 0 <= j < i && listed(denied, f.ids[j])
      invariant isUnknown <==>
                f.expression || exists j :: 0 <= j < i && !listed(denied, f.ids[j]) && !listed(allowed, f.ids[j])
      invariant seen == set id | id in f.ids[..i]
    {
      seen := seen + {f.ids[i]};
      if listed(denied, f.ids[i]) {
        isDenied := true;
      } else if !listed(allowed, f.ids[i]) {
        isUnknown := true;
      }
    }
  }

  /** `analyze_licenses`, on the components of the walk. */
  method AnalyzeLicenses(
      listed: (seq<string>, string) -> bool, allowed: seq<string>, denied: seq<string>, facts: seq<Facts>)
    returns (m: Metrics, observed: set<string>)
    ensures m.components == |facts|
    ensures m.licensed == CountIf(facts, |facts|, Licensed)
    ensures m.provenance == CountIf(facts, |facts|, Provenance)
    ensures m.denied == CountIf(facts, |facts|, (f: Facts) => Denied(listed, denied, f))
    ensures m.unknown == CountIf(facts, |facts|, (f: Facts) => Unknown(listed, allowed, denied, f))
    ensures m.licensed + m.missingLicense == |facts| && m.provenance + m.missingProvenance == |facts|
    ensures observed == set i, id | 0 <= i < |facts| && id in facts[i].ids :: id
  {
    var licensed, provenance, deniedCount, unknown, missingLicense, missingProvenance := 0, 0, 0, 0, 0, 0;
    observed := {};
    ghost var isDeniedIn := (f: Facts) => Denied(listed, denied, f);
    ghost var isUnknownIn := (f: Facts) => Unknown(listed, allowed, denied, f);
    for k := 0 to |facts|
      invariant licensed == CountIf(facts, k, Licensed) && provenance == CountIf(facts, k, Provenance)
      invariant deniedCount == CountIf(facts, k, isDeniedIn) && unknown == CountIf(facts, k, isUnknownIn)
      invariant licensed + missingLicense == k && provenance + missingProvenance == k
      invariant observed == set i, id | 0 <= i < k && id in facts[i].ids :: id
    {
      var f := facts[k];
      if f.ids == [] {
        missingLicense := missingLicense + 1;
      } else {
        licensed := licensed + 1;
      }
      var isDenied, isUnknown, seen := ClassifyIds(listed, allowed, denied, f);
      observed := observed + seen;
      deniedCount := deniedCount + if isDenied then 1 else 0;
      unknown := unknown + if isUnknown then 1 else 0;
      if f.sha256 && f.purl {
        provenance := provenance + 1;
      } else {
        missingProvenance := missingProvenance + 1;
      }
    }
    m := Metrics(|facts|, licensed, provenance, deniedCount, unknown, missingLicense, missingProvenance);
  }

  predicate LicenseVerdict(p: LicensePolicy, m: Metrics) {
    && m.components <= p.maximumComponents && m.denied == 0 && m.unknown == 0
    && (!p.requireLicenses || m.missingLicense == 0)
    && (!p.requireProvenance || m.missingProvenance == 0)
  }

  /** What a component has to be for the license stage. */
  predicate Compliant(p: LicensePolicy, f: Facts) {
    && f.ids != [] && (forall i :: 0 <= i < |f.ids| ==> f.ids[i] in p.allowed)
    && !f.expression && f.sha256 && f.purl
  }

  lemma CompliantExactlyWhen(p: LicensePolicy, f: Facts)
    requires PolicyOk(p)
    ensures Compliant(p, f) <==>
            && Licensed(f) && Provenance(f)
            && !Denied(Listed, p.denied, f) && !Unknown(Listed, p.allowed, p.denied, f)
  {
    forall id
      ensures Listed(p.allowed, id) <==> id in p.allowed
      ensures Listed(p.denied, id) <==> id in p.denied
      ensures !(id in p.allowed && id in p.denied)
    {
      ListsAreSets(p, id);
    }
  }

  predicate CountedIn(p: LicensePolicy, facts: seq<Facts>, m: Metrics) {
    && m.components == |facts|
    && m.licensed == CountIf(facts, |facts|, Licensed)
    && m.provenance == CountIf(facts, |facts|, Provenance)
    && m.denied == CountIf(facts, |facts|, (f: Facts) => Denied(Listed, p.denied, f))
    && m.unknown == CountIf(facts, |facts|, (f: Facts) => Unknown(Listed, p.allowed, p.denied, f))
    && m.licensed + m.missingLicense == |facts| && m.provenance + m.missingProvenance == |facts|
  }

  /** The license stage passes exactly if the components are within the policy's number, and each has a valid
      SPDX id, only allowlisted ones, no expression, a SHA-256 and a package URL. */
  lemma LicenseVerdictIsExact(p: LicensePolicy, facts: seq<Facts>, m: Metrics)
    requires PolicyOk(p) && CountedIn(p, facts, m)
    ensures LicenseVerdict(p, m) <==>
            |facts| <= p.maximumComponents && forall i :: 0 <= i < |facts| ==> Compliant(p, facts[i])
  {
    var isDenied := (f: Facts) => Denied(Listed, p.denied, f);
    var isUnknown := (f: Facts) => Unknown(Listed, p.allowed, p.denied, f);
    CountIfIsExact(facts, |facts|, Licensed);
    CountIfIsExact(facts, |facts|, Provenance);
    CountIfIsExact(facts, |facts|, isDenied);
    CountIfIsExact(facts, |facts|, isUnknown);
    forall i | 0 <= i < |facts|
      ensures Compliant(p, facts[i]) <==>
              Licensed(facts[i]) && Provenance(facts[i]) && !isDenied(facts[i]) && !isUnknown(facts[i])
    {
      CompliantExactlyWhen(p, facts[i]);
    }
  }

  // ---------------------------------------------------------------------------------------------
  // The two stages, from the bill of materials to the verdict
  // ---------------------------------------------------------------------------------------------

  /** `x` is `c` or somewhere below it. */
  predicate Below(c: Component, x: Component)
    decreases c
  {
    x == c || exists i :: 0 <= i < |c.components| && Below(c.components[i], x)
  }

  /** The walk meets exactly the components of the tree. */
  lemma {:induction false} PreorderIsComplete(c: Component, x: Component)
    ensures x in Preorder(c) <==> Below(c, x)
    decreases c, |c.components| + 1
  {
    PreorderAllIsComplete(c, c.components, x);
  }

  lemma {:induction false} PreorderAllIsComplete(parent: Component, cs: seq<Component>, x: Component)
    requires forall i :: 0 <= i < |cs| ==> cs[i] < parent
    ensures x in PreorderAll(cs) <==> exists i :: 0 <= i < |cs| && Below(cs[i], x)
    decreases parent, |cs|
  {
    if cs != [] {
      PreorderIsComplete(cs[0], x);
      PreorderAllIsComplete(parent, cs[1..], x);
      assert x in PreorderAll(cs) <==> x in Preorder(cs[0]) || x in PreorderAll(cs[1..]);
      if x in PreorderAll(cs[1..]) {
        var i :| 0 <= i < |cs[1..]| && Below(cs[1..][i], x);
        assert Below(cs[i + 1], x);
      }
      if i :| 0 <= i < |cs| && Below(cs[i], x) {
        assert i > 0 ==> Below(cs[1..][i - 1], x);
      }
    }
  }

  predicate InBom(b: Bom, x: Component) {
    Below(b.root, x) || exists i :: 0 <= i < |b.components| && Below(b.components[i], x)
  }

  lemma OrderIsComplete(b: Bom, x: Component)
    ensures x in Order(b) <==> InBom(b, x)
  {
    PreorderIsComplete(b.root, x);
    var all := Component("", "", "", "", [], [], None, b.components);
    PreorderAllIsComplete(all, b.components, x);
  }

  function AllFacts(cs: seq<Component>): (facts: seq<Facts>)
    ensures |facts| == |cs| && forall i :: 0 <= i < |cs| ==> facts[i] == FactsOf(cs[i])
  {
    seq(|cs|, i requires 0 <= i < |cs| => FactsOf(cs[i]))
  }

  /** The license stage: none without a valid policy and a sound walk; otherwise it passes exactly if every component
      of the whole bill is compliant and there are not too many. */
  method EvaluateLicenses(text: string -> bool, bom: Bom, policy: LicensePolicy) returns (ok: Option<bool>)
    ensures ok.Some? <==> PolicyOk(policy) && Sound(Stable(text), Order(bom))
    ensures ok.Some? ==>
              (ok.value <==>
                && |Order(bom)| <= policy.maximumComponents
                && forall x :: InBom(bom, x) ==> Compliant(policy, FactsOf(x)))
  {
    if !PolicyOk(policy) {
      return None;
    }
    var components := CollectComponents(Stable(text), bom);
    if components.None? {
      return None;
    }
    var facts := AllFacts(components.value);
    var metrics, observed := AnalyzeLicenses(Listed, policy.allowed, policy.denied, facts);
    LicenseVerdictIsExact(policy, facts, metrics);
    forall x ensures InBom(bom, x) <==> x in components.value {
      OrderIsComplete(bom, x);
    }
    assert forall i :: 0 <= i < |facts| ==> facts[i] == FactsOf(components.value[i]);
    return Some(LicenseVerdict(policy, metrics));
  }

  datatype SbomMetrics = SbomMetrics(components: nat, withSha256: nat, withLicenses: nat, withPurls: nat)

  /** `analyze_sbom` */
  function AnalyzeSbom(facts: seq<Facts>): SbomMetrics {
    SbomMetrics(
      |facts|, CountIf(facts, |facts|, (f: Facts) => f.sha256),
      CountIf(facts, |facts|, Licensed), CountIf(facts, |facts|, (f: Facts) => f.purl))
  }

  /** The verdict under a policy that requires everything, as every valid policy does. */
  predicate SbomVerdict(maximum: nat, m: SbomMetrics) {
    && m.components <= maximum && m.withSha256 == m.components
    && m.withLicenses == m.components && m.withPurls == m.components
  }

  lemma SbomVerdictIsExact(facts: seq<Facts>, maximum: nat)
    ensures SbomVerdict(maximum, AnalyzeSbom(facts)) <==>
            |facts| <= maximum &&
            forall i :: 0 <= i < |facts| ==> facts[i].sha256 && Licensed(facts[i]) && facts[i].purl
  {
    CountIfIsExact(facts, |facts|, (f: Facts) => f.sha256);
    CountIfIsExact(facts, |facts|, Licensed);
    CountIfIsExact(facts, |facts|, (f: Facts) => f.purl);
  }

  /** The SBOM stage passes exactly if every component of the whole bill has a SHA-256, a valid SPDX id and a
      package URL, and there are not too many. */
  method EvaluateSbom(text: string -> bool, bom: Bom, maximum: nat) returns (ok: Option<bool>)
    ensures ok.Some? <==> Sound(Stable(text), Order(bom))
    ensures ok.Some? ==>
              (ok.value <==>
                && |Order(bom)| <= maximum
                && forall x :: InBom(bom, x) ==> FactsOf(x).sha256 && Licensed(FactsOf(x)) && FactsOf(x).purl)
  {
    var components := CollectComponents(Stable(text), bom);
    if components.None? {
      return None;
    }
    var facts := AllFacts(components.value);
    SbomVerdictIsExact(facts, maximum);
    forall x ensures InBom(bom, x) <==> x in components.value {
      OrderIsComplete(bom, x);
    }
    assert forall i :: 0 <= i < |facts| ==> facts[i] == FactsOf(components.value[i]);
    return Some(SbomVerdict(maximum, AnalyzeSbom(facts)));
  }

  /** Both stages agree where they look at the same: a bill whose licenses pass also passes as an SBOM. */
  lemma LicensesImplySbom(p: LicensePolicy, facts: seq<Facts>, m: Metrics)
    requires PolicyOk(p) && CountedIn(p, facts, m) && LicenseVerdict(p, m)
    ensures SbomVerdict(p.maximumComponents, AnalyzeSbom(facts))
  {
    LicenseVerdictIsExact(p, facts, m);
    SbomVerdictIsExact(facts, p.maximumComponents);
    assert forall i :: 0 <= i < |facts| ==> Compliant(p, facts[i]);
  }
}
