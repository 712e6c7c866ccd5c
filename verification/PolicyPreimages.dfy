/** What the policy digests of the Linux and Windows drivers, and the ids of execution attempts, are computed
    from. The preimages do not say where the environment ends; validated configurations still never share one. */
module PolicyPreimages {
  import opened Bytes
  import opened Texts
  import opened Fields
  import opened Fuzz
  import opened SigningMessages
  import opened DriverEnvironments
  import Decimal

  const LINUX_VERSION := "tokensaver-linux-confinement-policy-v1"
  const WINDOWS_VERSION := "tokensaver-windows-confinement-policy-v1"

  const LINUX_POLICY :=
    LINUX_VERSION +
    "\0user+mount+network+pid-namespaces\0private-root\0landlock-deny-default\0seccomp-filter" +
    "\0cgroup-v2-memory+pids\0pidfd-kill+reap\0bounded-stdio\0minimal-environment"

  const WINDOWS_POLICY :=
    WINDOWS_VERSION +
    "\ncreate=suspended,no-window,unicode-environment,extended-startup-info\n" +
    "appcontainer=derived-profile,zero-capabilities,no-loopback-exemption\n" +
    "handles=explicit-stdin-stdout-stderr-only\n" +
    "job=created-before-process,assigned-before-resume,active-process:1," +
    "process-memory-hard-limit,die-on-unhandled-exception,kill-on-close,no-breakaway\n" +
    "ui=stable-cross-version-restrictions:0xff\n" +
    "io=exact-stdin,bounded-stdout,bounded-stderr\n" +
    "deadline=terminate-complete-job,bounded-reap,active-processes-zero\n" +
    "memory-evidence=job-completion-port,limit-violation-query\n" +
    "environment=systemroot,systemdrive,sandbox-localappdata,temp,sanitizer,coverage-allowlist," +
    "tokensaver-plugin-marker\n"

  // ---------------------------------------------------------------------------------------------
  // Names, versions and sanitizers
  // ---------------------------------------------------------------------------------------------

  predicate StartsUpper(s: string) { |s| > 0 && 'A' <= s[0] <= 'Z' }

  predicate StartsLower(s: string) { |s| > 0 && 'a' <= s[0] <= 'z' }

  lemma NamesStartUpper(s: string)
    requires s in LINUX_NAMES || s in WINDOWS_NAMES
    ensures StartsUpper(s)
  {
  }

  lemma SanitizersStartLower(s: string)
    requires s in SANITIZERS
    ensures StartsLower(s)
  {
  }

  /** A number without leading zeros that fits 64 bits. */
  predicate Component(s: string) {
    && s != "" && Decimal.AllDigits(s) && (s == "0" || s[0] != '0') && Decimal.Value(s) < U64_LIMIT
  }

  /** Three of them, separated by dots. */
  ghost predicate ThreeNumbers(version: string) {
    exists a, b, c :: Component(a) && Component(b) && Component(c) && version == a + "." + b + "." + c
  }

  lemma VersionsAreNoSanitizers(version: string)
    requires ThreeNumbers(version)
    ensures version !in SANITIZERS
  {
    var a, b, c :| Component(a) && Component(b) && Component(c) && version == a + "." + b + "." + c;
    assert version[0] == a[0];
    if version in SANITIZERS {
      SanitizersStartLower(version);
    }
  }

  /** `validate_engine` of both drivers. */
  ghost predicate DriverEngineOk(engine: Engine) {
    && ValidToken(engine.id) && ThreeNumbers(engine.version)
    && engine.activeSanitizers != [] && (forall s :: s in engine.activeSanitizers ==> s in SANITIZERS)
    && Ascending(engine.activeSanitizers)
  }

  // ---------------------------------------------------------------------------------------------
  // Environments
  // ---------------------------------------------------------------------------------------------

  /** Names and values in turn. */
  function EnvironmentTexts(e: Environment): (texts: seq<string>)
    ensures |texts| == 2 * |e|
    ensures forall i :: 0 <= i < |e| ==> texts[2 * i] == e[i].0 && texts[2 * i + 1] == e[i].1
  {
    seq(2 * |e|, k requires 0 <= k < 2 * |e| => if k % 2 == 0 then e[k / 2].0 else e[k / 2].1)
  }

  lemma EnvironmentsAreDetermined(d: Environment, e: Environment)
    requires EnvironmentTexts(d) == EnvironmentTexts(e)
    ensures d == e
  {
    var s, t := EnvironmentTexts(d), EnvironmentTexts(e);
    assert |s| == |t|;
    forall i | 0 <= i < |d| ensures d[i] == e[i] {
      assert s[2 * i] == t[2 * i] && s[2 * i + 1] == t[2 * i + 1];
    }
  }

  // ---------------------------------------------------------------------------------------------
  // Linux
  // ---------------------------------------------------------------------------------------------

  datatype LinuxConfig = LinuxConfig(
    executable: string, sandboxRoot: string, writableDirectory: string, cgroupParent: string,
    environment: Environment, engine: Engine)

  ghost predicate LinuxOk(c: LinuxConfig) { DriverEngineOk(c.engine) && LinuxEnvironmentOk(c.environment) }

  function LinuxHead(policy: string, c: LinuxConfig): (texts: seq<string>)
    ensures |texts| == 7
  {
    [policy, c.executable, c.sandboxRoot, c.writableDirectory, c.cgroupParent, c.engine.id, c.engine.version]
  }

  function LinuxTexts(policy: string, c: LinuxConfig): seq<string> {
    LinuxHead(policy, c) + EnvironmentTexts(c.environment) + c.engine.activeSanitizers
  }

  lemma NamesAreNoSanitizers(name: string, sanitizer: string)
    requires (name in LINUX_NAMES || name in WINDOWS_NAMES) && sanitizer in SANITIZERS
    ensures name != sanitizer
  {
    NamesStartUpper(name);
    SanitizersStartLower(sanitizer);
  }

  lemma NameAt(head: seq<string>, e: Environment, tail: seq<string>, i: nat)
    requires i < |e|
    ensures (head + EnvironmentTexts(e) + tail)[|head| + 2 * i] == e[i].0
  {
    assert EnvironmentTexts(e)[2 * i] == e[i].0;
  }

  lemma TailAt(head: seq<string>, e: Environment, tail: seq<string>, i: nat)
    requires i < |tail|
    ensures (head + EnvironmentTexts(e) + tail)[|head| + 2 * |e| + i] == tail[i]
  {
  }

  /** Where one configuration has its first sanitizer, no other can have an environment name. */
  lemma LinuxEnvironmentsEndTogether(policy: string, c: LinuxConfig, d: LinuxConfig)
    requires LinuxOk(c) && LinuxOk(d) && LinuxTexts(policy, c) == LinuxTexts(policy, d)
    ensures |c.environment| >= |d.environment|
  {
    var n := |c.environment|;
    if n < |d.environment| {
      TailAt(LinuxHead(policy, c), c.environment, c.engine.activeSanitizers, 0);
      NameAt(LinuxHead(policy, d), d.environment, d.engine.activeSanitizers, n);
      NamesAreNoSanitizers(d.environment[n].0, c.engine.activeSanitizers[0]);
    }
  }

  lemma LinuxTextsAreInjective(policy: string, c: LinuxConfig, d: LinuxConfig)
    requires LinuxOk(c) && LinuxOk(d) && LinuxTexts(policy, c) == LinuxTexts(policy, d)
    ensures c == d
  {
    LinuxEnvironmentsEndTogether(policy, c, d);
    LinuxEnvironmentsEndTogether(policy, d, c);
    var n := 7 + 2 * |c.environment|;
    var s, t := LinuxTexts(policy, c), LinuxTexts(policy, d);
    HeadThenTail(LinuxHead(policy, c), EnvironmentTexts(c.environment), c.engine.activeSanitizers);
    HeadThenTail(LinuxHead(policy, d), EnvironmentTexts(d.environment), d.engine.activeSanitizers);
    assert LinuxHead(policy, c) == LinuxHead(policy, d);
    EnvironmentsAreDetermined(c.environment, d.environment);
    LinuxHeadIsInjective(policy, c, d);
  }

  lemma HeadThenTail(a: seq<string>, b: seq<string>, c: seq<string>)
    ensures (a + b + c)[..|a|] == a
    ensures (a + b + c)[|a|..|a| + |b|] == b
    ensures (a + b + c)[|a| + |b|..] == c
  {
  }

  lemma LinuxHeadIsInjective(policy: string, c: LinuxConfig, d: LinuxConfig)
    requires LinuxHead(policy, c) == LinuxHead(policy, d)
    ensures c.executable == d.executable && c.sandboxRoot == d.sandboxRoot
    ensures c.writableDirectory == d.writableDirectory && c.cgroupParent == d.cgroupParent
    ensures c.engine.id == d.engine.id && c.engine.version == d.engine.version
  {
    var s, t := LinuxHead(policy, c), LinuxHead(policy, d);
    assert s[1] == t[1] && s[2] == t[2] && s[3] == t[3] && s[4] == t[4] && s[5] == t[5] && s[6] == t[6];
  }

  /** Two valid Linux configurations have one preimage only if they are the same. */
  lemma LinuxPreimageIsInjective(w: Words, policy: string, c: LinuxConfig, d: LinuxConfig)
    requires Exact(w) && LinuxOk(c) && LinuxOk(d)
    requires TextsFit(LinuxTexts(policy, c)) && TextsFit(LinuxTexts(policy, d))
    ensures Encode(w, TextsFrom(LinuxTexts(policy, c), 0)) == Encode(w, TextsFrom(LinuxTexts(policy, d), 0)) <==> c == d
  {
    TextsAreDetermined(w, LinuxTexts(policy, c), LinuxTexts(policy, d));
    if LinuxTexts(policy, c) == LinuxTexts(policy, d) {
      LinuxTextsAreInjective(policy, c, d);
    }
  }

  // ---------------------------------------------------------------------------------------------
  // Windows
  // ---------------------------------------------------------------------------------------------

  function LowByte(unit: nat): char { (unit % 256) as char }

  function HighByte(unit: nat): char { (unit / 256 % 256) as char }

  lemma BytesDetermineUnit(u: nat, v: nat)
    requires u < U16_LIMIT && v < U16_LIMIT && LowByte(u) == LowByte(v) && HighByte(u) == HighByte(v)
    ensures u == v
  {
  }

  /** UTF-16 code units, each in two bytes, the lower one first. */
  function WideBytes(units: seq<nat>): (bytes: string)
    ensures |bytes| == 2 * |units|
    ensures forall i :: 0 <= i < |units| ==> bytes[2 * i] == LowByte(units[i]) && bytes[2 * i + 1] == HighByte(units[i])
  {
    seq(2 * |units|, k requires 0 <= k < 2 * |units| =>
      if k % 2 == 0 then LowByte(units[k / 2]) else HighByte(units[k / 2]))
  }

  predicate AreUnits(units: seq<nat>) { forall i :: 0 <= i < |units| ==> units[i] < U16_LIMIT }

  lemma WideBytesAreInjective(a: seq<nat>, b: seq<nat>)
    requires AreUnits(a) && AreUnits(b) && WideBytes(a) == WideBytes(b)
    ensures a == b
  {
    var s, t := WideBytes(a), WideBytes(b);
    assert |s| == |t|;
    forall i | 0 <= i < |a| ensures a[i] == b[i] {
      assert s[2 * i] == t[2 * i] && s[2 * i + 1] == t[2 * i + 1];
      BytesDetermineUnit(a[i], b[i]);
    }
  }

  datatype WindowsConfig = WindowsConfig(
    executable: seq<nat>, workingDirectory: seq<nat>, appContainerName: string,
    environment: Environment, engine: Engine)

  ghost predicate WindowsOk(c: WindowsConfig) {
    && AreUnits(c.executable) && AreUnits(c.workingDirectory)
    && DriverEngineOk(c.engine) && WindowsEnvironmentOk(c.environment)
  }

  function WindowsHead(policy: string, c: WindowsConfig): (texts: seq<string>)
    ensures |texts| == 4
  {
    [policy, WideBytes(c.executable), WideBytes(c.workingDirectory), c.appContainerName]
  }

  function EngineTexts(e: Engine): (texts: seq<string>)
    ensures |texts| == 2 + |e.activeSanitizers|
  {
    [e.id, e.version] + e.activeSanitizers
  }

  function WindowsTexts(policy: string, c: WindowsConfig): seq<string> {
    WindowsHead(policy, c) + EnvironmentTexts(c.environment) + EngineTexts(c.engine)
  }

  /** An engine id may be an environment name, and its version a value; but then a sanitizer of the shorter
      environment would have to be a name or a version of the longer one. */
  lemma WindowsEnvironmentsEndTogether(policy: string, c: WindowsConfig, d: WindowsConfig)
    requires c.engine.activeSanitizers != [] && forall s :: s in c.engine.activeSanitizers ==> s in SANITIZERS
    requires ThreeNumbers(d.engine.version) && Allowed(d.environment, WINDOWS_NAMES)
    requires WindowsTexts(policy, c) == WindowsTexts(policy, d)
    ensures |c.environment| >= |d.environment|
  {
    var n, m := |c.environment|, |d.environment|;
    if n < m {
      var active := c.engine.activeSanitizers;
      assert EngineTexts(c.engine)[2] == active[0];
      TailAt(WindowsHead(policy, c), c.environment, EngineTexts(c.engine), 2);
      if n + 1 < m {
        NameAt(WindowsHead(policy, d), d.environment, EngineTexts(d.engine), n + 1);
        NamesAreNoSanitizers(d.environment[n + 1].0, active[0]);
      } else {
        TailAt(WindowsHead(policy, d), d.environment, EngineTexts(d.engine), 1);
        TailAt(WindowsHead(policy, c), c.environment, EngineTexts(c.engine), 3);
        assert EngineTexts(c.engine)[3] == active[1];
        VersionsAreNoSanitizers(d.engine.version);
      }
    }
  }

  lemma WindowsTextsAreInjective(policy: string, c: WindowsConfig, d: WindowsConfig)
    requires WindowsOk(c) && WindowsOk(d) && WindowsTexts(policy, c) == WindowsTexts(policy, d)
    ensures c == d
  {
    WindowsEnvironmentsEndTogether(policy, c, d);
    WindowsEnvironmentsEndTogether(policy, d, c);
    HeadThenTail(WindowsHead(policy, c), EnvironmentTexts(c.environment), EngineTexts(c.engine));
    HeadThenTail(WindowsHead(policy, d), EnvironmentTexts(d.environment), EngineTexts(d.engine));
    EnvironmentsAreDetermined(c.environment, d.environment);
    EngineTextsAreInjective(c.engine, d.engine);
    var s, t := WindowsHead(policy, c), WindowsHead(policy, d);
    assert s[1] == t[1] && s[2] == t[2] && s[3] == t[3];
    WideBytesAreInjective(c.executable, d.executable);
    WideBytesAreInjective(c.workingDirectory, d.workingDirectory);
  }

  lemma EngineTextsAreInjective(e: Engine, f: Engine)
    requires EngineTexts(e) == EngineTexts(f)
    ensures e == f
  {
    var s, t := EngineTexts(e), EngineTexts(f);
    assert s[0] == t[0] && s[1] == t[1] && s[2..] == t[2..];
    assert s[2..] == e.activeSanitizers && t[2..] == f.activeSanitizers;
  }

  /** Two valid Windows configurations have one preimage only if they are the same. */
  lemma WindowsPreimageIsInjective(w: Words, policy: string, c: WindowsConfig, d: WindowsConfig)
    requires Exact(w) && WindowsOk(c) && WindowsOk(d)
    requires TextsFit(WindowsTexts(policy, c)) && TextsFit(WindowsTexts(policy, d))
    ensures Encode(w, TextsFrom(WindowsTexts(policy, c), 0)) == Encode(w, TextsFrom(WindowsTexts(policy, d), 0)) <==>
            c == d
  {
    TextsAreDetermined(w, WindowsTexts(policy, c), WindowsTexts(policy, d));
    if WindowsTexts(policy, c) == WindowsTexts(policy, d) {
      WindowsTextsAreInjective(policy, c, d);
    }
  }

  /** Without the rule on versions this would fail: an engine may be called like an environment variable. */
  lemma VersionRuleIsNeeded(policy: string) returns (c: WindowsConfig, d: WindowsConfig)
    ensures c != d && WindowsTexts(policy, c) == WindowsTexts(policy, d) && WindowsOk(c)
    ensures WindowsEnvironmentOk(d.environment) && ValidToken(d.engine.id)
    ensures d.engine.activeSanitizers == ["memory"] && "memory" in SANITIZERS
  {
    var e := [("LOCALAPPDATA", "C:\\box"), ("SYSTEMDRIVE", "C:"), ("SYSTEMROOT", "C:\\Windows")];
    var f := e + [("TEMP", "1.0.0")];
    c := WindowsConfig([], [], "box", e, Engine("TEMP", "1.0.0", ["address", "leak", "memory"]));
    d := WindowsConfig([], [], "box", f, Engine("address", "leak", ["memory"]));
    RootedEnvironments(e, f);
    PlainEngineIsOk();
    Collide(policy, e);
  }

  lemma PlainEngineIsOk()
    ensures DriverEngineOk(Engine("TEMP", "1.0.0", ["address", "leak", "memory"])) && ValidToken("address")
  {
    assert Component("1") && Component("0") && "1.0.0" == "1" + "." + "0" + "." + "0";
    assert LessFrom("leak", "memory", 0) && LessFrom("address", "leak", 0);
  }

  lemma Collide(policy: string, e: Environment)
    ensures
      var c := WindowsConfig([], [], "box", e, Engine("TEMP", "1.0.0", ["address", "leak", "memory"]));
      var d := WindowsConfig([], [], "box", e + [("TEMP", "1.0.0")], Engine("address", "leak", ["memory"]));
      WindowsTexts(policy, c) == WindowsTexts(policy, d)
  {
    var c := WindowsConfig([], [], "box", e, Engine("TEMP", "1.0.0", ["address", "leak", "memory"]));
    var d := WindowsConfig([], [], "box", e + [("TEMP", "1.0.0")], Engine("address", "leak", ["memory"]));
    MoreEnvironment(e, ("TEMP", "1.0.0"));
    assert EngineTexts(c.engine) == ["TEMP", "1.0.0"] + EngineTexts(d.engine);
    assert WindowsHead(policy, c) == WindowsHead(policy, d);
    Regroup(WindowsHead(policy, c) + EnvironmentTexts(e), ["TEMP", "1.0.0"], EngineTexts(d.engine));
    Regroup(WindowsHead(policy, c), EnvironmentTexts(e), ["TEMP", "1.0.0"]);
  }

  lemma MoreEnvironment(e: Environment, x: (string, string))
    ensures EnvironmentTexts(e + [x]) == EnvironmentTexts(e) + [x.0, x.1]
  {
    var s, t := EnvironmentTexts(e + [x]), EnvironmentTexts(e) + [x.0, x.1];
    forall k | 0 <= k < |s| ensures s[k] == t[k] {
      assert k / 2 < |e| || k / 2 == |e|;
    }
  }

  lemma RootedEnvironments(e: Environment, f: Environment)
    requires e == [("LOCALAPPDATA", "C:\\box"), ("SYSTEMDRIVE", "C:"), ("SYSTEMROOT", "C:\\Windows")]
    requires f == e + [("TEMP", "1.0.0")]
    ensures WindowsEnvironmentOk(e) && WindowsEnvironmentOk(f)
  {
    var n := Names(f);
    assert n[0] == "LOCALAPPDATA" && n[1] == "SYSTEMDRIVE" && n[2] == "SYSTEMROOT" && n[3] == "TEMP";
    assert Names(e)[0] == n[0] && Names(e)[1] == n[1] && Names(e)[2] == n[2];
    assert LessFrom(n[0], n[1], 0) && LessFrom(n[2], n[3], 0);
    assert LessFrom(n[1], n[2], 6);
    assert LessFrom(n[1], n[2], 4);
    assert LessFrom(n[1], n[2], 2);
    assert LessFrom(n[1], n[2], 0);
  }

  lemma Regroup(a: seq<string>, b: seq<string>, c: seq<string>)
    ensures a + b + c == a + (b + c)
  {
  }

  /** Configurations of different drivers never share a preimage. */
  lemma DriversAreSeparate(w: Words, linux: string, windows: string, c: LinuxConfig, d: WindowsConfig)
    requires Exact(w) && TextsFit(LinuxTexts(linux, c)) && TextsFit(WindowsTexts(windows, d))
    requires linux != windows
    ensures Encode(w, TextsFrom(LinuxTexts(linux, c), 0)) != Encode(w, TextsFrom(WindowsTexts(windows, d), 0))
  {
    TextsAreDetermined(w, LinuxTexts(linux, c), WindowsTexts(windows, d));
    assert LinuxTexts(linux, c)[0] == linux && WindowsTexts(windows, d)[0] == windows;
  }

  lemma PoliciesDiffer()
    ensures LINUX_POLICY != WINDOWS_POLICY
  {
    assert LINUX_VERSION[11] == 'l' && WINDOWS_VERSION[11] == 'w';
    assert LINUX_POLICY[11] == LINUX_VERSION[11];
    assert WINDOWS_POLICY[11] == WINDOWS_VERSION[11];
  }

  function LinuxMessage(c: LinuxConfig): string { Encode(U64(), TextsFrom(LinuxTexts(LINUX_POLICY, c), 0)) }

  function WindowsMessage(c: WindowsConfig): string { Encode(U64(), TextsFrom(WindowsTexts(WINDOWS_POLICY, c), 0)) }

  /** The texts of a configuration have lengths of 64 bits. */
  predicate LinuxFits(c: LinuxConfig) { TextsFit(LinuxTexts(LINUX_POLICY, c)) }

  predicate WindowsFits(c: WindowsConfig) { TextsFit(WindowsTexts(WINDOWS_POLICY, c)) }

  /** What the two drivers feed to their hashes, in 64-bit words and under their own policies, determines the driver
      and its validated configuration. */
  lemma PreimagesAreBound(c: LinuxConfig, d: LinuxConfig, e: WindowsConfig, f: WindowsConfig)
    requires LinuxOk(c) && LinuxOk(d) && WindowsOk(e) && WindowsOk(f)
    requires LinuxFits(c) && LinuxFits(d) && WindowsFits(e) && WindowsFits(f)
    ensures LinuxMessage(c) == LinuxMessage(d) <==> c == d
    ensures WindowsMessage(e) == WindowsMessage(f) <==> e == f
    ensures LinuxMessage(c) != WindowsMessage(e)
  {
    U64IsExact();
    PoliciesDiffer();
    LinuxPreimageIsInjective(U64(), LINUX_POLICY, c, d);
    WindowsPreimageIsInjective(U64(), WINDOWS_POLICY, e, f);
    DriversAreSeparate(U64(), LINUX_POLICY, WINDOWS_POLICY, c, e);
  }

  // ---------------------------------------------------------------------------------------------
  // Execution attempts
  // ---------------------------------------------------------------------------------------------

  /** What the id of an attempt is computed from. */
  function AttemptTexts(w: Words, releaseId: string, ordinal: nat, repetition: nat, caseId: string): seq<string> {
    [releaseId, w.write(ordinal), BigEndian(repetition, 4), caseId]
  }

  /** Attempts of different executions, in particular of different ordinals, have different preimages. */
  lemma AttemptsAreDistinct(
      w: Words, release: string, n: nat, r: nat, id: string, release': string, n': nat, r': nat, id': string)
    requires Exact(w) && n < U64_LIMIT && n' < U64_LIMIT && r < U32_LIMIT && r' < U32_LIMIT
    requires TextsFit([release, id, release', id'])
    ensures
      Encode(w, TextsFrom(AttemptTexts(w, release, n, r, id), 0)) ==
      Encode(w, TextsFrom(AttemptTexts(w, release', n', r', id'), 0)) <==>
        release == release' && n == n' && r == r' && id == id'
  {
    var a, b := AttemptTexts(w, release, n, r, id), AttemptTexts(w, release', n', r', id');
    var ids := [release, id, release', id'];
    assert |ids[0]| < U64_LIMIT && |ids[1]| < U64_LIMIT && |ids[2]| < U64_LIMIT && |ids[3]| < U64_LIMIT;
    TextsAreDetermined(w, a, b);
    if a == b {
      assert a[0] == b[0] && a[1] == b[1] && a[2] == b[2] && a[3] == b[3];
      WordAhead(w, n, "");
      WordAhead(w, n', "");
      assert Pow256(4) == 256 * (256 * (256 * (256 * Pow256(0))));
      ValueOfBigEndian(r, 4);
      ValueOfBigEndian(r', 4);
    }
  }

  // ---------------------------------------------------------------------------------------------
  // The loops that feed the hashes
  // ---------------------------------------------------------------------------------------------

  predicate Holds(texts: seq<string>, at: nat, some: seq<string>) {
    at + |some| <= |texts| && forall i :: 0 <= i < |some| ==> texts[at + i] == some[i]
  }

  predicate HoldsPairs(texts: seq<string>, at: nat, e: Environment) {
    && at + 2 * |e| <= |texts|
    && forall i :: 0 <= i < |e| ==> texts[at + 2 * i] == e[i].0 && texts[at + 2 * i + 1] == e[i].1
  }

  lemma TextsHold(head: seq<string>, e: Environment, tail: seq<string>)
    ensures
      var texts := head + EnvironmentTexts(e) + tail;
      Holds(texts, 0, head) && HoldsPairs(texts, |head|, e) && Holds(texts, |head| + 2 * |e|, tail)
  {
    var all, texts := EnvironmentTexts(e), head + EnvironmentTexts(e) + tail;
    forall i | 0 <= i < |e|
      ensures texts[|head| + 2 * i] == e[i].0 && texts[|head| + 2 * i + 1] == e[i].1
    {
      assert all[2 * i] == e[i].0 && all[2 * i + 1] == e[i].1;
    }
  }

  method AppendText(output: Output, text: string, ghost texts: seq<string>, ghost at: nat)
    requires at < |texts| && texts[at] == text && output.todo == TextsFrom(texts, at)
    modifies output
    ensures output.todo == TextsFrom(texts, at + 1) && output.Goal() == old(output.Goal())
  {
    output.AppendField(text);
  }

  /** Appends names and values in turn, from the `at`-th text on. */
  method AppendEnvironment(output: Output, e: Environment, ghost texts: seq<string>, ghost at: nat)
    requires HoldsPairs(texts, at, e) && output.todo == TextsFrom(texts, at)
    modifies output
    ensures output.todo == TextsFrom(texts, at + 2 * |e|) && output.Goal() == old(output.Goal())
  {
    for i := 0 to |e|
      invariant output.todo == TextsFrom(texts, at + 2 * i) && output.Goal() == old(output.Goal())
    {
      AppendText(output, e[i].0, texts, at + 2 * i);
      AppendText(output, e[i].1, texts, at + 2 * i + 1);
    }
  }

  method AppendTexts(output: Output, some: seq<string>, ghost texts: seq<string>, ghost at: nat)
    requires Holds(texts, at, some) && output.todo == TextsFrom(texts, at)
    modifies output
    ensures output.todo == TextsFrom(texts, at + |some|) && output.Goal() == old(output.Goal())
  {
    for i := 0 to |some|
      invariant output.todo == TextsFrom(texts, at + i) && output.Goal() == old(output.Goal())
    {
      AppendText(output, some[i], texts, at + i);
    }
  }

  method Feed(w: Words, head: seq<string>, e: Environment, tail: seq<string>, ghost texts: seq<string>)
    returns (preimage: string)
    requires Holds(texts, 0, head) && HoldsPairs(texts, |head|, e) && Holds(texts, |head| + 2 * |e|, tail)
    requires |texts| == |head| + 2 * |e| + |tail|
    ensures preimage == Encode(w, TextsFrom(texts, 0))
  {
    var output := new Output(w, TextsFrom(texts, 0));
    AppendedIsEncoded(w, "", output.todo);
    AppendTexts(output, head, texts, 0);
    AppendEnvironment(output, e, texts, |head|);
    AppendTexts(output, tail, texts, |head| + 2 * |e|);
    return output.bytes;
  }

  /** What both drivers feed to the hash: some texts, the environment, and more texts. */
  method Preimage(w: Words, head: seq<string>, e: Environment, tail: seq<string>) returns (preimage: string)
    ensures preimage == Encode(w, TextsFrom(head + EnvironmentTexts(e) + tail, 0))
  {
    TextsHold(head, e, tail);
    preimage := Feed(w, head, e, tail, head + EnvironmentTexts(e) + tail);
  }

  /** `make_policy_digest`, up to the hash. */
  method LinuxPreimage(w: Words, policy: string, c: LinuxConfig) returns (preimage: string)
    ensures preimage == Encode(w, TextsFrom(LinuxTexts(policy, c), 0))
  {
    preimage := Preimage(w, LinuxHead(policy, c), c.environment, c.engine.activeSanitizers);
  }

  predicate AreWide(units: seq<nat>, bytes: string) {
    |bytes| == 2 * |units| &&
    forall i :: 0 <= i < |units| ==> bytes[2 * i] == LowByte(units[i]) && bytes[2 * i + 1] == HighByte(units[i])
  }

  lemma TwoMore(all: string, k: nat, low: char, high: char)
    requires k + 2 <= |all| && all[k] == low && all[k + 1] == high
    ensures all[..k] + [low, high] == all[..k + 2]
  {
  }

  method WriteUnits(units: seq<nat>, ghost all: string) returns (bytes: string)
    requires AreWide(units, all)
    ensures bytes == all
  {
    bytes := "";
    for i := 0 to |units|
      invariant bytes == all[..2 * i]
    {
      TwoMore(all, 2 * i, LowByte(units[i]), HighByte(units[i]));
      bytes := bytes + [LowByte(units[i]), HighByte(units[i])];
    }
  }

  /** `update_wide_path_digest`, up to the digest. */
  method WidePath(units: seq<nat>) returns (bytes: string)
    ensures bytes == WideBytes(units)
  {
    bytes := WriteUnits(units, WideBytes(units));
  }

  /** `policy_digest`, up to the hash. */
  method WindowsPreimage(w: Words, policy: string, c: WindowsConfig) returns (preimage: string)
    ensures preimage == Encode(w, TextsFrom(WindowsTexts(policy, c), 0))
  {
    var executable := WidePath(c.executable);
    var directory := WidePath(c.workingDirectory);
    preimage := Preimage(
      w, [policy, executable, directory, c.appContainerName], c.environment, EngineTexts(c.engine));
  }
}
