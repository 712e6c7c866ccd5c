/** How the Linux and Windows drivers accept an environment. Both get a map whose names come in order; Windows
    changes the names to upper case and therefore has to look for duplicates and to sort again. */
module DriverEnvironments {
  import opened Bytes
  import opened Texts

  type Environment = seq<(string, string)>

  const LINUX_NAMES: set<string> :=
    {"ASAN_OPTIONS", "GCOV_PREFIX", "GCOV_PREFIX_STRIP", "HOME", "LLVM_PROFILE_FILE", "LSAN_OPTIONS", "MSAN_OPTIONS",
     "PATH", "TEMP", "TMP", "TMPDIR", "TSAN_OPTIONS", "UBSAN_OPTIONS"}

  const WINDOWS_NAMES: set<string> :=
    {"ASAN_OPTIONS", "GCOV_PREFIX", "GCOV_PREFIX_STRIP", "LLVM_PROFILE_FILE", "LOCALAPPDATA", "LSAN_OPTIONS",
     "MSAN_OPTIONS", "SYSTEMDRIVE", "SYSTEMROOT", "TEMP", "TMP", "TSAN_OPTIONS", "UBSAN_OPTIONS"}

  const LINUX_NAME_COUNT: nat := 13
  const MAX_LINUX_BYTES: nat := 32_768
  const MAX_UTF16_UNITS: nat := 32_767
  const FIXED_UTF16_UNITS: nat := 20

  function Names(e: Environment): (names: seq<string>)
    ensures |names| == |e| && forall i :: 0 <= i < |e| ==> names[i] == e[i].0
  {
    seq(|e|, i requires 0 <= i < |e| => e[i].0)
  }

  predicate Allowed(e: Environment, names: set<string>) { forall i :: 0 <= i < |e| ==> e[i].0 in names }

  predicate ValueOk(value: string) { value != "" && '\0' !in value }

  // ---------------------------------------------------------------------------------------------
  // Linux
  // ---------------------------------------------------------------------------------------------

  function EnvironmentBytes(e: Environment, k: nat): nat
    requires k <= |e|
  {
    if k == 0 then 0 else EnvironmentBytes(e, k - 1) + |e[k - 1].0| + |e[k - 1].1| + 2
  }

  predicate LinuxEnvironmentOk(e: Environment) {
    && Allowed(e, LINUX_NAMES) && (forall i :: 0 <= i < |e| ==> ValueOk(e[i].1))
    && |e| <= LINUX_NAME_COUNT && EnvironmentBytes(e, |e|) <= MAX_LINUX_BYTES
  }

  lemma LinuxNamesAreClean(name: string)
    requires name in LINUX_NAMES
    ensures '=' !in name && '\0' !in name
  {
  }

  /** The loop over a map, which yields its names in order, and the sort behind it. */
  method ValidateEnvironment(environment: Environment) returns (r: Option<Environment>)
    requires Ascending(Names(environment))
    ensures r == if LinuxEnvironmentOk(environment) then Some(environment) else None
  {
    var result: Environment := [];
    for i := 0 to |environment|
      invariant result == environment[..i] && Allowed(result, LINUX_NAMES)
      invariant forall j :: 0 <= j < i ==> ValueOk(environment[j].1)
    {
      var (name, value) := environment[i];
      if name in LINUX_NAMES {
        LinuxNamesAreClean(name);
      }
      if name !in LINUX_NAMES || value == "" || '=' in name || '\0' in name || '\0' in value {
        assert !(environment[i].0 in LINUX_NAMES && ValueOk(environment[i].1));
        return None;
      }
      result := result + [environment[i]];
    }
    assert result == environment;
    SortKeepsOrder(environment);
    result := SortByName(result);
    if |result| > LINUX_NAME_COUNT || EnvironmentBytes(result, |result|) > MAX_LINUX_BYTES {
      return None;
    }
    return Some(result);
  }

  // ---------------------------------------------------------------------------------------------
  // Windows
  // ---------------------------------------------------------------------------------------------

  const REQUIRED_NAMES: set<string> := {"LOCALAPPDATA", "SYSTEMDRIVE", "SYSTEMROOT"}

  function UpperChar(c: char): char { if 'a' <= c <= 'z' then c - 'a' + 'A' else c }

  function Upper(s: string): string { seq(|s|, i requires 0 <= i < |s| => UpperChar(s[i])) }

  /** Two characters that are one letter, or one character. */
  predicate SameLetter(a: char, b: char) {
    a == b || ('a' <= a <= 'z' && b as int == a as int - 32) || ('a' <= b <= 'z' && a as int == b as int - 32)
  }

  /** Names have one upper case exactly if they differ in letter case alone. */
  lemma UpperIsExact(a: string, b: string)
    ensures Upper(a) == Upper(b) <==> |a| == |b| && forall i :: 0 <= i < |a| ==> SameLetter(a[i], b[i])
    ensures forall i :: 0 <= i < |a| ==> SameLetter(a[i], Upper(a)[i]) && !('a' <= Upper(a)[i] <= 'z')
  {
    forall i | 0 <= i < |a| && i < |b| ensures UpperChar(a[i]) == UpperChar(b[i]) <==> SameLetter(a[i], b[i]) {
    }
    if Upper(a) == Upper(b) {
      assert |a| == |Upper(a)| == |b|;
      forall i | 0 <= i < |a| ensures SameLetter(a[i], b[i]) {
        assert Upper(a)[i] == Upper(b)[i];
      }
    }
  }

  lemma RootIsAllowed()
    ensures Upper("SystemRoot") == "SYSTEMROOT" && Upper("SystemRoot") in WINDOWS_NAMES
  {
  }

  function Uppercased(e: Environment): (u: Environment)
    ensures |u| == |e| && forall i :: 0 <= i < |e| ==> u[i] == (Upper(e[i].0), e[i].1)
  {
    seq(|e|, i requires 0 <= i < |e| => (Upper(e[i].0), e[i].1))
  }

  predicate DistinctNames(e: Environment) { forall i, j :: 0 <= i < j < |e| ==> e[i].0 != e[j].0 }

  function Insert(x: (string, string), e: Environment): (r: Environment)
    ensures |r| == |e| + 1
  {
    if e == [] || Less(x.0, e[0].0) then [x] + e else [e[0]] + Insert(x, e[1..])
  }

  /** The stable sort by name. */
  function SortByName(e: Environment): (r: Environment)
    ensures |r| == |e|
  {
    if e == [] then [] else Insert(e[|e| - 1], SortByName(e[..|e| - 1]))
  }

  predicate Before(name: string, e: Environment) { e != [] ==> Less(name, e[0].0) }

  /** Every name comes before the next. */
  predicate Sorted(e: Environment) { forall i :: 0 < i < |e| ==> Less(e[i - 1].0, e[i].0) }

  lemma {:induction false} InsertSorts(x: (string, string), e: Environment)
    requires Sorted(e) && forall i :: 0 <= i < |e| ==> e[i].0 != x.0
    ensures Sorted(Insert(x, e)) && multiset(Insert(x, e)) == multiset(e) + multiset{x}
    ensures forall name :: Less(name, x.0) && Before(name, e) ==> Before(name, Insert(x, e))
  {
    if e == [] || Less(x.0, e[0].0) {
    } else {
      assert e == [e[0]] + e[1..];
      InsertSorts(x, e[1..]);
      assert Less(e[0].0, x.0) by {
        if !Less(e[0].0, x.0) {
          LessIsTotalFrom(x.0, e[0].0, 0);
        }
      }
      assert Before(e[0].0, e[1..]);
      assert Before(e[0].0, Insert(x, e[1..]));
    }
  }

  lemma {:induction false} SortSorts(e: Environment)
    requires DistinctNames(e)
    ensures Sorted(SortByName(e)) && multiset(SortByName(e)) == multiset(e)
  {
    if e != [] {
      var init, last := e[..|e| - 1], e[|e| - 1];
      SortSorts(init);
      assert e == init + [last];
      forall i | 0 <= i < |init| ensures SortByName(init)[i].0 != last.0 {
        assert SortByName(init)[i] in multiset(SortByName(init));
        assert SortByName(init)[i] in init;
      }
      InsertSorts(last, SortByName(init));
    }
  }

  lemma SameFirst(d: Environment, e: Environment)
    requires Sorted(d) && Sorted(e) && multiset(d) == multiset(e) && d != [] && e != []
    ensures d[0] == e[0]
  {
    assert d[0] in multiset(e) && e[0] in multiset(d);
    var i :| 0 <= i < |e| && e[i] == d[0];
    var j :| 0 <= j < |d| && d[j] == e[0];
    if i > 0 && j > 0 {
      SortedPairs(e, 0, i);
      SortedPairs(d, 0, j);
      LessIsStrictFrom(e[0].0, d[0].0, 0);
    }
  }

  lemma SameTail(d: Environment, e: Environment)
    requires multiset(d) == multiset(e) && d != [] && e != [] && d[0] == e[0]
    ensures multiset(d[1..]) == multiset(e[1..])
  {
    assert d == [d[0]] + d[1..] && e == [e[0]] + e[1..];
    assert multiset(d) == multiset{d[0]} + multiset(d[1..]);
    assert multiset(e) == multiset{e[0]} + multiset(e[1..]);
    assert multiset(d[1..]) == multiset(d) - multiset{d[0]};
    assert multiset(e[1..]) == multiset(e) - multiset{e[0]};
  }

  /** A sorted environment is determined by its entries, in whatever order they are given. */
  lemma {:induction false} SortedIsUnique(d: Environment, e: Environment)
    requires Sorted(d) && Sorted(e) && multiset(d) == multiset(e)
    ensures d == e
  {
    assert |multiset(d)| == |d| && |multiset(e)| == |e|;
    if d != [] {
      SameFirst(d, e);
      SameTail(d, e);
      SortedIsUnique(d[1..], e[1..]);
      assert d == [d[0]] + d[1..] && e == [e[0]] + e[1..];
    }
  }

  /** What comes in order is not changed by sorting it. */
  lemma SortKeepsOrder(e: Environment)
    requires Ascending(Names(e))
    ensures SortByName(e) == e
  {
    forall i, j | 0 <= i < j < |e| ensures e[i].0 != e[j].0 {
      AscendingPairs(Names(e), i, j);
    }
    forall i | 0 < i < |e| ensures Less(e[i - 1].0, e[i].0) {
      assert Less(Names(e)[i - 1], Names(e)[i]);
    }
    SortSorts(e);
    SortedIsUnique(SortByName(e), e);
  }

  lemma {:induction false} SortedPairs(e: Environment, i: nat, j: nat)
    requires Sorted(e) && i < j < |e|
    ensures Less(e[i].0, e[j].0)
    decreases j
  {
    if i + 1 < j {
      SortedPairs(e, i, j - 1);
      LessIsTransitiveFrom(e[i].0, e[j - 1].0, e[j].0, 0);
    }
  }

  /** The size of the environment block, given the length of each text in UTF-16. */
  function BlockUnits(units: string -> nat, e: Environment, k: nat): nat
    requires k <= |e|
  {
    if k == 0 then 2 else BlockUnits(units, e, k - 1) + units(e[k - 1].0) + 1 + units(e[k - 1].1) + 1
  }

  predicate EntriesOk(u: Environment) {
    Allowed(u, WINDOWS_NAMES) && DistinctNames(u) && forall i :: 0 <= i < |u| ==> ValueOk(u[i].1)
  }

  predicate HasName(e: Environment, name: string) { Search(Names(e), name, 0, |e|) }

  predicate SortedOk(units: string -> nat, e: Environment) {
    && (forall name :: name in REQUIRED_NAMES ==> HasName(e, name))
    && BlockUnits(units, e, |e|) + FIXED_UTF16_UNITS <= MAX_UTF16_UNITS
  }

  function Canonical(units: string -> nat, e: Environment): Option<Environment> {
    var u := Uppercased(e);
    if EntriesOk(u) && SortedOk(units, SortByName(u)) then Some(SortByName(u)) else None
  }

  /** `canonical_environment` */
  method CanonicalEnvironment(units: string -> nat, environment: Environment) returns (r: Option<Environment>)
    ensures r == Canonical(units, environment)
  {
    ghost var u := Uppercased(environment);
    var seen: set<string> := {};
    var canonical: Environment := [];
    for i := 0 to |environment|
      invariant canonical == u[..i] && seen == set j | 0 <= j < i :: u[j].0
      invariant EntriesOk(canonical)
    {
      var name, value := Upper(environment[i].0), environment[i].1;
      assert u[i] == (name, value);
      if name !in WINDOWS_NAMES || name in seen || !ValueOk(value) {
        assert !EntriesOk(u);
        return None;
      }
      seen := seen + {name};
      canonical := canonical + [(name, value)];
    }
    assert canonical == u;
    canonical := SortByName(canonical);
    if !SortedOk(units, canonical) {
      return None;
    }
    return Some(canonical);
  }

  predicate WindowsEnvironmentOk(e: Environment) {
    && Allowed(e, WINDOWS_NAMES) && Sorted(e) && (forall i :: 0 <= i < |e| ==> ValueOk(e[i].1))
    && forall name :: name in REQUIRED_NAMES ==> name in Names(e)
  }

  lemma SortedNamesAscend(e: Environment)
    requires Sorted(e)
    ensures Ascending(Names(e))
  {
  }

  /** What it returns are the given entries in upper case, sorted, with every required name among them. */
  lemma CanonicalIsSorted(units: string -> nat, e: Environment)
    requires Canonical(units, e).Some?
    ensures WindowsEnvironmentOk(Canonical(units, e).value)
    ensures multiset(Canonical(units, e).value) == multiset(Uppercased(e))
  {
    var u := Uppercased(e);
    var r := SortByName(u);
    SortSorts(u);
    forall i | 0 <= i < |r| ensures r[i].0 in WINDOWS_NAMES && ValueOk(r[i].1) {
      assert r[i] in multiset(r);
      assert r[i] in u;
    }
    SortedNamesAscend(r);
    forall name | name in REQUIRED_NAMES ensures name in Names(r) {
      assert HasName(r, name);
      SearchFinds(Names(r), name, 0, |r|);
      assert Names(r)[0..|r|] == Names(r);
    }
  }

  /** The case of the names and the order of the entries make no difference. */
  lemma CanonicalIsCanonical(units: string -> nat, d: Environment, e: Environment)
    requires Canonical(units, d).Some? && Canonical(units, e).Some?
    ensures Canonical(units, d) == Canonical(units, e) <==> multiset(Uppercased(d)) == multiset(Uppercased(e))
  {
    CanonicalIsSorted(units, d);
    CanonicalIsSorted(units, e);
    if multiset(Uppercased(d)) == multiset(Uppercased(e)) {
      SortedIsUnique(Canonical(units, d).value, Canonical(units, e).value);
    }
  }
}
