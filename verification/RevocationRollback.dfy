/** Runs in which a rollback is accepted: the equal branch of `record_verified` answers from a marker that is visible
    and was never synchronised, or a marker was synchronised in a directory that was not; and a loss of power takes
    that marker away. */
module RevocationRollback {
  import opened RevocationState
  import opened RevocationSafety
  import opened RevocationExposure

  /** The first verifier links sequence 5 and crashes before it synchronises. */
  lemma CrashesAfterLink(cfg: Config, issuer: Issuer) returns (run: seq<Action>, s: State)
    ensures Final(cfg, run) == s && Dir(s.visible, cfg.hash(issuer)) == map[5 := Marker(issuer, 5)]
    ensures s.durable == map[] && s.locks == map[] && PhaseOf(s, 1).Idle? && s.log == []
  {
    var base;
    run, base := LinksFirst(cfg, [], INIT, 0, issuer, 5);
    run, s := Do(cfg, run, Final(cfg, run), Crash(0));
  }

  /** The second reads its marker and accepts it as equal, and the power fails. */
  lemma AcceptsEqualAndFails(cfg: Config, issuer: Issuer) returns (run: seq<Action>, s: State)
    ensures Final(cfg, run) == s && s.log == [Acceptance(issuer, 5)] && s.pending == map[]
    ensures s.visible == map[] && s.locks == map[] && s.phases == map[]
  {
    run, s := CrashesAfterLink(cfg, issuer);
    run := AcceptsHighest(cfg, run, s, 1, issuer, 5);
    run, s := Do(cfg, run, Final(cfg, run), PowerLoss(map[]));
  }

  /** Whether or not directories are synchronised, some run accepts sequence 5 and then sequence 4. */
  lemma EqualBranchRollsBack(cfg: Config, issuer: Issuer) returns (run: seq<Action>)
    ensures After(cfg, run, |run|).log == [Acceptance(issuer, 5), Acceptance(issuer, 4)]
    ensures !LogOrdered(cfg, After(cfg, run, |run|).log)
  {
    var s;
    run, s := AcceptsEqualAndFails(cfg, issuer);
    run := AppendsFirst(cfg, run, s, 2, issuer, 4);
    var log := Final(cfg, run).log;
    assert log[0].sequence == 5 && log[1].sequence == 4;
  }

  /** Nor does it take a crash or the equal branch: nothing makes the entry of an issuer's new directory durable, so
      a loss of power may take a directory with the synchronised marker of an undisturbed call. */
  lemma DirectoryIsLost(cfg: Config, issuer: Issuer) returns (run: seq<Action>)
    ensures After(cfg, run, |run|).log == [Acceptance(issuer, 5), Acceptance(issuer, 4)] && Undisturbed(run)
    ensures !LogOrdered(cfg, After(cfg, run, |run|).log)
  {
    var s;
    run := AppendsFirst(cfg, [], INIT, 0, issuer, 5);
    run, s := Do(cfg, run, Final(cfg, run), PowerLoss(map[]));
    assert s.visible == map[];
    run := AppendsFirst(cfg, run, s, 1, issuer, 4);
    var log := Final(cfg, run).log;
    assert log[0].sequence == 5 && log[1].sequence == 4;
  }
}
