/** Exactly which states a loss of power can turn into a rollback: those in which some positive accepted sequence
    lies above every durable marker of its issuer, or the entry of its issuer's directory is not durable. */
module RevocationExposure {
  import opened Bytes
  import opened RevocationState
  import opened RevocationInvariant
  import opened RevocationSafety
  import Calls = RevocationCalls

  /** Different issuers have different hashes. */
  ghost predicate Injective(cfg: Config) { forall i, j :: cfg.hash(i) == cfg.hash(j) ==> i == j }

  lemma {:induction false} PrefixIsKept(cfg: Config, run: seq<Action>, more: seq<Action>, n: nat)
    requires n <= |run|
    ensures After(cfg, run + more, n) == After(cfg, run, n)
  {
    if n > 0 {
      PrefixIsKept(cfg, run, more, n - 1);
    }
  }

  function Final(cfg: Config, run: seq<Action>): State { After(cfg, run, |run|) }

  lemma OneMore(cfg: Config, run: seq<Action>, a: Action)
    ensures Final(cfg, run + [a]) == Apply(cfg, Final(cfg, run), a)
  {
    PrefixIsKept(cfg, run, [a], |run|);
  }

  /** An issuer's accepted sequence that a loss of power leaves no marker to defend: it lies above all durable markers
      of the issuer, or the directory that holds them has no durable entry. */
  predicate ExposedAt(cfg: Config, s: State, issuer: Issuer, i: nat)
    requires i < |s.log|
  {
    && s.log[i].issuer == issuer && s.log[i].sequence > 0
    && (cfg.hash(issuer) !in s.anchored || Above(Dir(s.durable, cfg.hash(issuer)), s.log[i].sequence))
  }

  predicate Exposed(cfg: Config, s: State, issuer: Issuer) {
    exists i :: 0 <= i < |s.log| && ExposedAt(cfg, s, issuer, i)
  }

  /** Between two states of a run an issuer's verifiers accepted less than they had accepted before. */
  predicate RolledBack(s: State, t: State, issuer: Issuer) {
    exists i, j :: 0 <= i < |s.log| <= j < |t.log| && LowerAt(s, t, issuer, i, j)
  }

  predicate LowerAt(s: State, t: State, issuer: Issuer, i: nat, j: nat)
    requires i < |s.log| && j < |t.log|
  {
    s.log[i].issuer == issuer && t.log[j].issuer == issuer && t.log[j].sequence < s.log[i].sequence
  }

  // ---------------------------------------------------------------------------------------------
  // What a durable marker defends
  // ---------------------------------------------------------------------------------------------

  /** The log has grown, and what is new in it for one directory is at least its durable marker `mark`. */
  predicate Defended(cfg: Config, s: State, t: State, k: Key, mark: nat) {
    && |s.log| <= |t.log| && mark in Kept(t, k)
    && forall j :: |s.log| <= j < |t.log| && cfg.hash(t.log[j].issuer) == k ==> mark <= t.log[j].sequence
  }

  lemma StepDefends(cfg: Config, s: State, t: State, k: Key, mark: nat, a: Action)
    requires Inv(cfg, t) && Defended(cfg, s, t, k, mark)
    ensures Defended(cfg, s, Apply(cfg, t, a), k, mark)
  {
    MarkersOnlyGrow(cfg, t, a, k);
    LogGrowsByAcceptance(cfg, t, a);
    if Accepts(t, a) {
      assert ProcessOk(cfg, t, a.p) && Within(Dir(t.durable, k), Dir(t.visible, k));
    }
  }

  lemma {:induction false} RunDefends(cfg: Config, run: seq<Action>, s: State, m: nat, n: nat, k: Key, mark: nat)
    requires m <= n <= |run| && s == After(cfg, run, m) && mark in Kept(s, k)
    ensures Defended(cfg, s, After(cfg, run, n), k, mark)
    decreases n
  {
    if m < n {
      RunDefends(cfg, run, s, m, n - 1, k, mark);
      NextDefends(cfg, run, s, n - 1, k, mark);
    }
  }

  lemma NextDefends(cfg: Config, run: seq<Action>, s: State, n: nat, k: Key, mark: nat)
    requires n < |run| && Defended(cfg, s, After(cfg, run, n), k, mark)
    ensures Defended(cfg, s, After(cfg, run, n + 1), k, mark)
  {
    RunKeepsInv(cfg, run, n);
    StepDefends(cfg, s, After(cfg, run, n), k, mark, run[n]);
  }

  /** No continuation rolls an issuer back that is not exposed. */
  lemma UnexposedIsSafe(cfg: Config, run: seq<Action>, more: seq<Action>, issuer: Issuer)
    requires !Exposed(cfg, Final(cfg, run), issuer)
    ensures !RolledBack(Final(cfg, run), Final(cfg, run + more), issuer)
  {
    var s, t, k := Final(cfg, run), Final(cfg, run + more), cfg.hash(issuer);
    PrefixIsKept(cfg, run, more, |run|);
    forall i, j | 0 <= i < |s.log| <= j < |t.log| ensures !LowerAt(s, t, issuer, i, j) {
      if s.log[i].issuer == issuer && s.log[i].sequence > 0 {
        assert !ExposedAt(cfg, s, issuer, i);
        var mark: nat :| mark in Kept(s, k) && mark >= s.log[i].sequence;
        RunDefends(cfg, run + more, s, |run|, |run + more|, k, mark);
      }
    }
  }

  // ---------------------------------------------------------------------------------------------
  // A call that nothing disturbs, as a run
  // ---------------------------------------------------------------------------------------------

  /** No process crashes or fails, and the operating system writes nothing of its own accord. */
  predicate Undisturbed(run: seq<Action>) {
    forall i :: 0 <= i < |run| ==> !run[i].Crash? && !run[i].Fail? && !run[i].Flush? && !run[i].Anchor?
  }

  lemma Do(cfg: Config, run: seq<Action>, s: State, a: Action) returns (longer: seq<Action>, t: State)
    requires Final(cfg, run) == s
    ensures run <= longer && t == Apply(cfg, s, a) == Final(cfg, longer)
    ensures Undisturbed(run) && !a.Crash? && !a.Fail? && !a.Flush? && !a.Anchor? ==> Undisturbed(longer)
  {
    longer, t := run + [a], Apply(cfg, s, a);
    OneMore(cfg, run, a);
  }

  /** The scan over the rest of a directory that holds only the issuer's own markers. */
  lemma {:induction false} Scans(
      cfg: Config, run: seq<Action>, s: State, p: Pid, ph: Phase, rest: set<nat>)
    returns (longer: seq<Action>, done: Phase)
    requires ph.Scanning? && Final(cfg, run) == Calls.Held(cfg, s, p, ph.issuer, ph)
    requires DirOk(cfg, cfg.hash(ph.issuer), Dir(s.visible, cfg.hash(ph.issuer)))
    requires !Calls.Foreign(Dir(s.visible, cfg.hash(ph.issuer)), ph.issuer)
    requires HighestOf(ph.seen, ph.highest)
    requires rest == Dir(s.visible, cfg.hash(ph.issuer)).Keys - ph.seen
    requires ph.seen <= Dir(s.visible, cfg.hash(ph.issuer)).Keys
    ensures Undisturbed(run) ==> Undisturbed(longer)
    ensures run <= longer && Final(cfg, longer) == Calls.Held(cfg, s, p, ph.issuer, done)
    ensures Calls.ReadAll(done, ph.issuer, ph.sequence, Dir(s.visible, cfg.hash(ph.issuer)).Keys)
    decreases |rest|
  {
    var dir := Dir(s.visible, cfg.hash(ph.issuer));
    if rest == {} {
      assert ph.seen == dir.Keys;
      longer, done := run, ph;
    } else {
      var m :| m in rest;
      Calls.EntryNeverTrips(cfg, cfg.hash(ph.issuer), dir, ph, m);
      Calls.ReadsEntry(cfg, s, p, ph, m);
      var next, t := Do(cfg, run, Final(cfg, run), ScanEntry(p, m));
      assert dir.Keys - Calls.Read(ph, m).seen == rest - {m};
      longer, done := Scans(cfg, next, s, p, Calls.Read(ph, m), rest - {m});
    }
  }

  /** Up to the decision after the scan. */
  lemma Decides(cfg: Config, run: seq<Action>, s: State, p: Pid, issuer: Issuer, n: nat)
    returns (longer: seq<Action>, done: Phase)
    requires Final(cfg, run) == s && Calls.Ready(cfg, s, p, issuer)
    requires DirOk(cfg, cfg.hash(issuer), Dir(s.visible, cfg.hash(issuer)))
    requires !Calls.Foreign(Dir(s.visible, cfg.hash(issuer)), issuer)
    ensures Calls.ReadAll(done, issuer, n, Dir(s.visible, cfg.hash(issuer)).Keys)
    ensures Undisturbed(run) ==> Undisturbed(longer)
    ensures run <= longer && Final(cfg, longer) == Calls.Held(cfg, s, p, issuer, EndPhase(done))
  {
    var t;
    Calls.Acquires(cfg, s, p, issuer, n);
    longer, t := Do(cfg, run, s, Acquire(p, issuer, n));
    longer, done := Scans(cfg, longer, s, p, Scanning(issuer, n, {}, None), Dir(s.visible, cfg.hash(issuer)).Keys);
    Calls.EndsScan(cfg, s, p, done);
    longer, t := Do(cfg, longer, Final(cfg, longer), ScanEnd(p));
  }

  /** The highest marker of a directory is accepted once more. */
  lemma AcceptsHighest(cfg: Config, run: seq<Action>, s: State, p: Pid, issuer: Issuer, n: nat)
    returns (longer: seq<Action>)
    requires Final(cfg, run) == s && Calls.Ready(cfg, s, p, issuer)
    requires DirOk(cfg, cfg.hash(issuer), Dir(s.visible, cfg.hash(issuer)))
    requires !Calls.Foreign(Dir(s.visible, cfg.hash(issuer)), issuer)
    requires Top(Dir(s.visible, cfg.hash(issuer)), n)
    ensures Undisturbed(run) ==> Undisturbed(longer)
    ensures run <= longer && Final(cfg, longer) == Calls.Released(cfg, s, p, issuer, n, Equal)
  {
    var done, t;
    longer, done := Decides(cfg, run, s, p, issuer, n);
    Calls.EndDecides(Dir(s.visible, cfg.hash(issuer)), done);
    Calls.Releases(cfg, s, p, issuer, n, Equal);
    longer, t := Do(cfg, longer, Final(cfg, longer), Release(p));
  }

  /** The first marker of an empty directory is counted ... */
  lemma CountsNone(cfg: Config, run: seq<Action>, s: State, p: Pid, issuer: Issuer, n: nat)
    returns (longer: seq<Action>)
    requires Final(cfg, run) == s && Calls.Ready(cfg, s, p, issuer) && Dir(s.visible, cfg.hash(issuer)) == map[]
    ensures Undisturbed(run) ==> Undisturbed(longer)
    ensures run <= longer && Final(cfg, longer) == Calls.Held(cfg, s, p, issuer, Counted(issuer, n))
  {
    var done, t;
    longer, done := Decides(cfg, run, s, p, issuer, n);
    Calls.EndDecides(map[], done);
    Calls.Counts(cfg, s, p, issuer, n);
    longer, t := Do(cfg, longer, Final(cfg, longer), Count(p));
  }

  /** ... linked ... */
  lemma LinksFirst(cfg: Config, run: seq<Action>, s: State, p: Pid, issuer: Issuer, n: nat)
    returns (longer: seq<Action>, base: State)
    requires Final(cfg, run) == s && Calls.Ready(cfg, s, p, issuer)
    requires Dir(s.visible, cfg.hash(issuer)) == map[] && s.pending == map[]
    ensures Undisturbed(run) ==> Undisturbed(longer)
    ensures run <= longer && Final(cfg, longer) == Calls.Held(cfg, base, p, issuer, Linked(issuer, n, 0))
    ensures base.durable == s.durable && base.anchored == s.anchored && base.log == s.log
    ensures base.locks == s.locks && base.phases == s.phases
    ensures Dir(base.visible, cfg.hash(issuer)) == map[n := Marker(issuer, n)]
  {
    var t;
    longer := CountsNone(cfg, run, s, p, issuer, n);
    Calls.Creates(cfg, s, p, issuer, n, 0);
    longer, t := Do(cfg, longer, Final(cfg, longer), Create(p, 0));
    base := s.(pending := s.pending[0 := Torn]);
    Calls.WritesFile(cfg, base, p, issuer, n, 0);
    longer, t := Do(cfg, longer, t, Write(p));
    base := base.(pending := base.pending[0 := Full(Marker(issuer, n))]);
    Calls.LinksFile(cfg, base, p, issuer, n, 0);
    longer, t := Do(cfg, longer, t, Link(p));
    base := Calls.WithMarker(cfg, base, issuer, n);
  }

  /** ... and accepted. */
  lemma AppendsFirst(cfg: Config, run: seq<Action>, s: State, p: Pid, issuer: Issuer, n: nat)
    returns (longer: seq<Action>)
    requires Final(cfg, run) == s && Calls.Ready(cfg, s, p, issuer)
    requires Dir(s.visible, cfg.hash(issuer)) == map[] && s.pending == map[]
    ensures Undisturbed(run) ==> Undisturbed(longer)
    ensures run <= longer && Final(cfg, longer).log == s.log + [Acceptance(issuer, n)]
    ensures Final(cfg, longer).anchored == s.anchored
  {
    var base, t;
    longer, base := LinksFirst(cfg, run, s, p, issuer, n);
    Calls.Synchronises(cfg, base, p, issuer, n, 0);
    longer, t := Do(cfg, longer, Final(cfg, longer), Sync(p));
    base := Calls.Synchronised(cfg, base, issuer);
    Calls.Cleans(cfg, base, p, issuer, n, 0);
    longer, t := Do(cfg, longer, t, Clean(p));
    base := base.(pending := base.pending - {0});
    Calls.Releases(cfg, base, p, issuer, n, Outcome.Appended);
    longer, t := Do(cfg, longer, t, Release(p));
  }

  // ---------------------------------------------------------------------------------------------
  // A loss of power, and one more call
  // ---------------------------------------------------------------------------------------------

  lemma {:induction false} HasHighest(keys: set<nat>) returns (n: nat)
    requires keys != {}
    ensures n in keys && forall m :: m in keys ==> m <= n
  {
    var some :| some in keys;
    var rest := keys - {some};
    if rest == {} {
      n := some;
    } else {
      var high := HasHighest(rest);
      n := if some > high then some else high;
    }
    forall m | m in keys ensures m <= n {
      assert m == some || m in rest;
    }
  }

  /** After a loss of power, a verifier accepts the highest durable marker, or sequence 0 where there is none. */
  lemma AcceptsWhatIsLeft(cfg: Config, run: seq<Action>, issuer: Issuer) returns (more: seq<Action>, n: nat)
    requires Injective(cfg)
    ensures
      var s := Final(cfg, run);
      var dir := Kept(s, cfg.hash(issuer));
      && Final(cfg, run + more).log == s.log + [Acceptance(issuer, n)]
      && (n in dir || (dir == map[] && n == 0))
  {
    var s, k := Final(cfg, run), cfg.hash(issuer);
    var longer, t := Do(cfg, run, s, PowerLoss(map[]));
    RunKeepsInv(cfg, longer, |longer|);
    assert DirOk(cfg, k, Dir(t.visible, k));
    if Dir(t.visible, k) == map[] {
      n := 0;
      longer := AppendsFirst(cfg, longer, t, 0, issuer, n);
    } else {
      n := HasHighest(Dir(t.visible, k).Keys);
      longer := AcceptsHighest(cfg, longer, t, 0, issuer, n);
    }
    more := longer[|run|..];
    assert run + more == longer;
  }

  /** From every reachable state: some continuation rolls an issuer back, exactly if one of its accepted sequences,
      other than 0, lies above all of its durable markers or the entry of their directory is not durable. */
  lemma RollsBackExactlyWhen(cfg: Config, run: seq<Action>, issuer: Issuer)
    requires Injective(cfg)
    ensures (exists more :: RolledBack(Final(cfg, run), Final(cfg, run + more), issuer)) <==>
            Exposed(cfg, Final(cfg, run), issuer)
  {
    var s := Final(cfg, run);
    if Exposed(cfg, s, issuer) {
      var i :| 0 <= i < |s.log| && ExposedAt(cfg, s, issuer, i);
      var more, n := AcceptsWhatIsLeft(cfg, run, issuer);
      var t := Final(cfg, run + more);
      assert LowerAt(s, t, issuer, i, |s.log|);
      assert RolledBack(s, t, issuer);
    } else {
      forall more ensures !RolledBack(s, Final(cfg, run + more), issuer) {
        UnexposedIsSafe(cfg, run, more, issuer);
      }
    }
  }

  /** So no issuer can be rolled back exactly if every accepted sequence other than 0 is backed by a durable marker;
      where every sequence is, as on the runs of `UntornRunsAreDurable`, none can. */
  lemma NoneExposedExactlyWhen(cfg: Config, s: State)
    ensures (forall issuer :: !Exposed(cfg, s, issuer)) <==>
            forall i :: 0 <= i < |s.log| && s.log[i].sequence > 0 ==>
              Backed(Kept(s, cfg.hash(s.log[i].issuer)), s.log[i].sequence)
    ensures DurableBacked(cfg, s) ==> forall issuer :: !Exposed(cfg, s, issuer)
  {
    forall i | 0 <= i < |s.log| && s.log[i].sequence > 0
      ensures ExposedAt(cfg, s, s.log[i].issuer, i) <==>
              !Backed(Kept(s, cfg.hash(s.log[i].issuer)), s.log[i].sequence)
    {
    }
    forall issuer, i | 0 <= i < |s.log| && ExposedAt(cfg, s, issuer, i)
      ensures !Backed(Kept(s, cfg.hash(s.log[i].issuer)), s.log[i].sequence)
    {
    }
    if forall issuer :: !Exposed(cfg, s, issuer) {
      forall i | 0 <= i < |s.log| && s.log[i].sequence > 0
        ensures Backed(Kept(s, cfg.hash(s.log[i].issuer)), s.log[i].sequence)
      {
        assert !Exposed(cfg, s, s.log[i].issuer) && !ExposedAt(cfg, s, s.log[i].issuer, i);
      }
    }
  }
}
