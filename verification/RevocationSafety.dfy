/** Accepted sequences over whole runs: no rollback under process crashes, and exactly when acceptances outlive
    a loss of power. */
module RevocationSafety {
  import opened RevocationState
  import opened RevocationInvariant

  // ---------------------------------------------------------------------------------------------
  // Process crashes: no rollback is ever accepted
  // ---------------------------------------------------------------------------------------------

  ghost predicate Backed(dir: Directory, sequence: nat) { exists n :: n in dir && n >= sequence }

  /** Every accepted sequence is at most the highest marker that processes see. */
  ghost predicate VisibleBacked(cfg: Config, s: State) {
    forall i :: 0 <= i < |s.log| ==> Backed(Dir(s.visible, cfg.hash(s.log[i].issuer)), s.log[i].sequence)
  }

  /** Accepted sequences of one issuer do not decrease. */
  predicate LogOrdered(cfg: Config, log: seq<Acceptance>) {
    forall i, j :: 0 <= i < j < |log| && cfg.hash(log[i].issuer) == cfg.hash(log[j].issuer) ==>
      log[i].sequence <= log[j].sequence
  }

  lemma LinkOnlyAdds(cfg: Config, s: State, p: Pid, k: Key)
    requires Inv(cfg, s)
    ensures Within(Dir(s.visible, k), Dir(DoLink(cfg, s, p).visible, k))
    ensures DoLink(cfg, s, p).durable == s.durable && DoLink(cfg, s, p).anchored == s.anchored
  {
    assert ProcessOk(cfg, s, p);
  }

  lemma SyncOnlyAdds(cfg: Config, s: State, p: Pid, k: Key)
    requires Inv(cfg, s)
    ensures DoSync(cfg, s, p).visible == s.visible && DoSync(cfg, s, p).anchored == s.anchored
    ensures Within(Dir(s.durable, k), Dir(DoSync(cfg, s, p).durable, k))
  {
    assert Within(Dir(s.durable, k), Dir(s.visible, k));
  }

  lemma FlushOnlyAdds(cfg: Config, s: State, j: Key, n: nat, k: Key)
    requires Inv(cfg, s)
    ensures DoFlush(s, j, n).visible == s.visible && DoFlush(s, j, n).anchored == s.anchored
    ensures Within(Dir(s.durable, k), Dir(DoFlush(s, j, n).durable, k))
  {
    assert Within(Dir(s.durable, k), Dir(s.visible, k));
  }

  /** Up to the link, and when the lock is given back, a call leaves all markers alone. */
  predicate Searches(a: Action) {
    a.Acquire? || a.ScanEntry? || a.ScanEnd? || a.Count? || a.Create? || a.Write?
  }

  predicate Leaves(a: Action) { a.Clean? || a.Fail? || a.Release? || a.Crash? }

  lemma SearchingLeavesMarkers(cfg: Config, s: State, a: Action)
    requires Searches(a)
    ensures Apply(cfg, s, a).durable == s.durable && Apply(cfg, s, a).visible == s.visible
    ensures Apply(cfg, s, a).anchored == s.anchored
  {
  }

  lemma LeavingLeavesMarkers(cfg: Config, s: State, a: Action)
    requires Leaves(a)
    ensures Apply(cfg, s, a).durable == s.durable && Apply(cfg, s, a).visible == s.visible
    ensures Apply(cfg, s, a).anchored == s.anchored
  {
  }

  lemma OthersLeaveMarkers(cfg: Config, s: State, a: Action)
    requires !a.Link? && !a.Sync? && !a.Flush? && !a.PowerLoss?
    ensures Apply(cfg, s, a).durable == s.durable && Apply(cfg, s, a).visible == s.visible
    ensures s.anchored <= Apply(cfg, s, a).anchored
  {
    if Searches(a) {
      SearchingLeavesMarkers(cfg, s, a);
    } else if Leaves(a) {
      LeavingLeavesMarkers(cfg, s, a);
    }
  }

  lemma PowerLossKeepsKept(cfg: Config, s: State, leftovers: map<nat, Pending>, k: Key)
    ensures
      var t := Apply(cfg, s, PowerLoss(leftovers));
      Kept(t, k) == Kept(s, k) == Dir(t.visible, k) == Dir(t.durable, k)
  {
  }

  lemma KeptGrows(s: State, t: State, k: Key)
    requires Within(Dir(s.durable, k), Dir(t.durable, k)) && s.anchored <= t.anchored
    ensures Within(Kept(s, k), Kept(t, k))
  {
  }

  /** Only a loss of power takes markers away from what processes see, and nothing takes those that it leaves. */
  lemma MarkersOnlyGrow(cfg: Config, s: State, a: Action, k: Key)
    requires Inv(cfg, s)
    ensures !a.PowerLoss? ==> Within(Dir(s.visible, k), Dir(Apply(cfg, s, a).visible, k))
    ensures Within(Kept(s, k), Kept(Apply(cfg, s, a), k))
  {
    match a {
      case Link(p) => LinkOnlyAdds(cfg, s, p, k);
      case Sync(p) => SyncOnlyAdds(cfg, s, p, k);
      case Flush(j, n) => FlushOnlyAdds(cfg, s, j, n, k);
      case PowerLoss(leftovers) => PowerLossKeepsKept(cfg, s, leftovers, k);
      case _ => OthersLeaveMarkers(cfg, s, a);
    }
    if !a.PowerLoss? {
      KeptGrows(s, Apply(cfg, s, a), k);
    }
  }

  predicate Accepts(s: State, a: Action) {
    a.Release? && PhaseOf(s, a.p).Returning? && PhaseOf(s, a.p).outcome != Rejected
  }

  lemma LogGrowsByAcceptance(cfg: Config, s: State, a: Action)
    ensures
      var t := Apply(cfg, s, a);
      t.log == if Accepts(s, a) then s.log + [Acceptance(PhaseOf(s, a.p).issuer, PhaseOf(s, a.p).sequence)] else s.log
  {
  }

  lemma BackedGrows(a: Directory, b: Directory, sequence: nat)
    requires Backed(a, sequence) && Within(a, b)
    ensures Backed(b, sequence)
  {
    var n :| n in a && n >= sequence;
    assert n in b;
  }

  /** An acceptance is at least as new as everything its issuer's verifiers accepted before. */
  lemma AcceptanceIsTop(cfg: Config, s: State, a: Action)
    requires Inv(cfg, s) && VisibleBacked(cfg, s) && Accepts(s, a)
    ensures
      var ph := PhaseOf(s, a.p);
      && ph.sequence in Dir(s.visible, KeyOf(cfg, ph))
      && forall i :: 0 <= i < |s.log| && cfg.hash(s.log[i].issuer) == KeyOf(cfg, ph) ==>
           s.log[i].sequence <= ph.sequence
  {
    assert ProcessOk(cfg, s, a.p);
  }

  lemma StepKeepsOrder(cfg: Config, s: State, a: Action)
    requires Inv(cfg, s) && VisibleBacked(cfg, s) && LogOrdered(cfg, s.log)
    ensures LogOrdered(cfg, Apply(cfg, s, a).log)
    ensures !a.PowerLoss? ==> VisibleBacked(cfg, Apply(cfg, s, a))
  {
    var t := Apply(cfg, s, a);
    LogGrowsByAcceptance(cfg, s, a);
    if Accepts(s, a) {
      AcceptanceIsTop(cfg, s, a);
    }
    if !a.PowerLoss? {
      forall i | 0 <= i < |t.log| ensures Backed(Dir(t.visible, cfg.hash(t.log[i].issuer)), t.log[i].sequence) {
        var k := cfg.hash(t.log[i].issuer);
        MarkersOnlyGrow(cfg, s, a, k);
        if i < |s.log| {
          assert t.log[i] == s.log[i];
          BackedGrows(Dir(s.visible, k), Dir(t.visible, k), t.log[i].sequence);
        }
      }
    }
  }

  /** For every interleaving of verifiers and every point at which processes crash, accepted sequences of an
      issuer never decrease, and each stays at most the highest marker. */
  lemma {:induction false} CrashesNeverRollBack(cfg: Config, run: seq<Action>, n: nat)
    requires n <= |run|
    requires forall i :: 0 <= i < n ==> !run[i].PowerLoss?
    ensures VisibleBacked(cfg, After(cfg, run, n)) && LogOrdered(cfg, After(cfg, run, n).log)
  {
    if n > 0 {
      CrashesNeverRollBack(cfg, run, n - 1);
      RunKeepsInv(cfg, run, n - 1);
      StepKeepsOrder(cfg, After(cfg, run, n - 1), run[n - 1]);
    }
  }

  /** The highest marker of an issuer never decreases along such a run. */
  lemma {:induction false} HighestNeverDecreases(cfg: Config, run: seq<Action>, m: nat, n: nat, k: Key)
    requires m <= n <= |run|
    requires forall i :: m <= i < n ==> !run[i].PowerLoss?
    ensures Within(Dir(After(cfg, run, m).visible, k), Dir(After(cfg, run, n).visible, k))
    decreases n
  {
    if m < n {
      HighestNeverDecreases(cfg, run, m, n - 1, k);
      RunKeepsInv(cfg, run, n - 1);
      MarkersOnlyGrow(cfg, After(cfg, run, n - 1), run[n - 1], k);
    }
  }

  // ---------------------------------------------------------------------------------------------
  // Losses of power: exactly when accepted sequences stay durable
  // ---------------------------------------------------------------------------------------------

  /** Every accepted sequence is at most the highest marker that a loss of power leaves. */
  ghost predicate DurableBacked(cfg: Config, s: State) {
    forall i :: 0 <= i < |s.log| ==> Backed(Kept(s, cfg.hash(s.log[i].issuer)), s.log[i].sequence)
  }

  /** The step does not accept in a directory whose entry is not durable yet. */
  predicate AcceptsAnchored(cfg: Config, s: State, a: Action) {
    Accepts(s, a) ==> KeyOf(cfg, PhaseOf(s, a.p)) in s.anchored
  }

  /** Nor does it accept on a marker that it did not synchronise itself and that is not durable yet. */
  predicate AcceptsDurably(cfg: Config, s: State, a: Action) {
    && AcceptsAnchored(cfg, s, a)
    && (Accepts(s, a) && (PhaseOf(s, a.p).outcome == Equal || !cfg.syncs) ==>
          PhaseOf(s, a.p).sequence in Dir(s.durable, KeyOf(cfg, PhaseOf(s, a.p))))
  }

  lemma TopBacked(durable: Directory, visible: Directory, sequence: nat)
    requires Within(durable, visible) && Top(visible, sequence)
    ensures Backed(durable, sequence) <==> sequence in durable
  {
    if sequence in durable {
      assert sequence >= sequence;
    }
  }

  lemma AcceptedMarkerIsDurable(cfg: Config, s: State, a: Action)
    requires Inv(cfg, s) && Accepts(s, a)
    ensures
      var ph := PhaseOf(s, a.p);
      AcceptsDurably(cfg, s, a) <==> Backed(Kept(s, KeyOf(cfg, ph)), ph.sequence)
  {
    var ph := PhaseOf(s, a.p);
    var k := KeyOf(cfg, ph);
    assert ProcessOk(cfg, s, a.p) && Within(Dir(s.durable, k), Dir(s.visible, k));
    assert Top(Dir(s.visible, k), ph.sequence);
    TopBacked(Kept(s, k), Dir(s.visible, k), ph.sequence);
  }

  lemma StepStaysDurable(cfg: Config, s: State, a: Action)
    requires Inv(cfg, s) && DurableBacked(cfg, s)
    ensures DurableBacked(cfg, Apply(cfg, s, a)) <==> AcceptsDurably(cfg, s, a)
  {
    var t := Apply(cfg, s, a);
    LogGrowsByAcceptance(cfg, s, a);
    forall i | 0 <= i < |s.log|
      ensures t.log[i] == s.log[i]
      ensures Backed(Kept(t, cfg.hash(s.log[i].issuer)), s.log[i].sequence)
    {
      var k := cfg.hash(s.log[i].issuer);
      MarkersOnlyGrow(cfg, s, a, k);
      BackedGrows(Kept(s, k), Kept(t, k), s.log[i].sequence);
    }
    if Accepts(s, a) {
      AcceptedMarkerIsDurable(cfg, s, a);
      LeavingLeavesMarkers(cfg, s, a);
      var last := t.log[|s.log|];
      assert last == Acceptance(PhaseOf(s, a.p).issuer, PhaseOf(s, a.p).sequence);
      assert Kept(t, cfg.hash(last.issuer)) == Kept(s, cfg.hash(last.issuer));
      assert DurableBacked(cfg, t) ==> Backed(Kept(t, cfg.hash(last.issuer)), last.sequence);
    }
  }

  /** Every accepted sequence was durable after each of the first `n` actions. */
  ghost predicate AlwaysDurable(cfg: Config, run: seq<Action>, n: nat)
    requires n <= |run|
  {
    DurableBacked(cfg, After(cfg, run, n)) && (n > 0 ==> AlwaysDurable(cfg, run, n - 1))
  }

  /** None of the first `n` actions accepts on a marker that is not durable. */
  predicate AlwaysAcceptsDurably(cfg: Config, run: seq<Action>, n: nat)
    requires n <= |run|
  {
    n > 0 ==> AcceptsDurably(cfg, After(cfg, run, n - 1), run[n - 1]) && AlwaysAcceptsDurably(cfg, run, n - 1)
  }

  lemma NextIsDurable(cfg: Config, run: seq<Action>, n: nat)
    requires 0 < n <= |run| && DurableBacked(cfg, After(cfg, run, n - 1))
    ensures DurableBacked(cfg, After(cfg, run, n)) <==> AcceptsDurably(cfg, After(cfg, run, n - 1), run[n - 1])
  {
    RunKeepsInv(cfg, run, n - 1);
    StepStaysDurable(cfg, After(cfg, run, n - 1), run[n - 1]);
  }

  /** Losses of power included, accepted sequences stay durable throughout a run exactly when no verifier in it accepts
      in a directory whose entry is not durable yet, nor on equality with a marker that is not durable yet (or, where
      directories are not synchronised, on any such marker). */
  lemma {:induction false} DurableExactlyWhen(cfg: Config, run: seq<Action>, n: nat)
    requires n <= |run|
    ensures AlwaysDurable(cfg, run, n) <==> AlwaysAcceptsDurably(cfg, run, n)
  {
    if n > 0 {
      DurableExactlyWhen(cfg, run, n - 1);
      if AlwaysDurable(cfg, run, n - 1) {
        NextIsDurable(cfg, run, n);
      }
    } else {
      assert After(cfg, run, 0).log == [];
    }
  }

  lemma DurableIsVisible(cfg: Config, s: State)
    requires Inv(cfg, s) && DurableBacked(cfg, s)
    ensures VisibleBacked(cfg, s)
  {
    forall i | 0 <= i < |s.log| ensures Backed(Dir(s.visible, cfg.hash(s.log[i].issuer)), s.log[i].sequence) {
      var k := cfg.hash(s.log[i].issuer);
      assert Within(Dir(s.durable, k), Dir(s.visible, k));
      BackedGrows(Kept(s, k), Dir(s.visible, k), s.log[i].sequence);
    }
  }

  lemma DurableStepKeepsOrder(cfg: Config, s: State, a: Action)
    requires Inv(cfg, s) && DurableBacked(cfg, s) && LogOrdered(cfg, s.log)
    ensures LogOrdered(cfg, Apply(cfg, s, a).log)
  {
    DurableIsVisible(cfg, s);
    StepKeepsOrder(cfg, s, a);
  }

  lemma NextIsOrdered(cfg: Config, run: seq<Action>, n: nat)
    requires n < |run| && DurableBacked(cfg, After(cfg, run, n)) && LogOrdered(cfg, After(cfg, run, n).log)
    ensures LogOrdered(cfg, After(cfg, run, n + 1).log)
  {
    RunKeepsInv(cfg, run, n);
    DurableStepKeepsOrder(cfg, After(cfg, run, n), run[n]);
  }

  /** Such runs never accept a rollback either. */
  lemma {:induction false} DurableRunsNeverRollBack(cfg: Config, run: seq<Action>, n: nat)
    requires n <= |run| && AlwaysDurable(cfg, run, n)
    ensures LogOrdered(cfg, After(cfg, run, n).log)
  {
    if n > 0 {
      DurableRunsNeverRollBack(cfg, run, n - 1);
      NextIsOrdered(cfg, run, n - 1);
    }
  }

  /** No process crashes or fails between linking a marker and synchronising its directory. */
  predicate NeverTornAt(s: State, a: Action) {
    (a.Crash? || a.Fail?) ==> !PhaseOf(s, a.p).Linked?
  }

  /** What is visible is durable, unless the lock holder has linked and not synchronised yet. */
  predicate InStepAt(cfg: Config, s: State, k: Key) {
    || Dir(s.visible, k) == Dir(s.durable, k)
    || HolderLinked(cfg, s, k)
  }

  predicate HolderLinked(cfg: Config, s: State, k: Key) {
    k in s.locks && PhaseOf(s, s.locks[k]).Linked? && KeyOf(cfg, PhaseOf(s, s.locks[k])) == k
  }

  ghost predicate InStep(cfg: Config, s: State) { forall k :: InStepAt(cfg, s, k) }

  /** An action of the operating system, or a loss of power. */
  predicate OfSystem(a: Action) { a.Flush? || a.Anchor? || a.PowerLoss? }

  lemma LinkedOnlySyncs(cfg: Config, s: State, a: Action)
    requires !a.Sync? && !a.Fail? && !a.Crash? && !OfSystem(a)
    requires PhaseOf(s, a.p).Linked?
    ensures Apply(cfg, s, a) == s
  {
  }

  lemma OthersKeepTheirPhases(cfg: Config, s: State, a: Action, q: Pid)
    requires !OfSystem(a) && q != a.p
    ensures PhaseOf(Apply(cfg, s, a), q) == PhaseOf(s, q)
  {
  }

  lemma OthersKeepTheirLocks(cfg: Config, s: State, a: Action, k: Key)
    requires !OfSystem(a) && k in s.locks
    requires !PhaseOf(s, a.p).Idle? ==> KeyOf(cfg, PhaseOf(s, a.p)) != k
    ensures k in Apply(cfg, s, a).locks && Apply(cfg, s, a).locks[k] == s.locks[k]
  {
  }

  lemma HolderStaysLinked(cfg: Config, s: State, a: Action, k: Key)
    requires Inv(cfg, s) && NeverTornAt(s, a) && HolderLinked(cfg, s, k)
    requires !a.Sync? && !OfSystem(a)
    ensures HolderLinked(cfg, Apply(cfg, s, a), k)
  {
    if a.p == s.locks[k] {
      LinkedOnlySyncs(cfg, s, a);
    } else {
      assert ProcessOk(cfg, s, a.p);
      OthersKeepTheirLocks(cfg, s, a, k);
      OthersKeepTheirPhases(cfg, s, a, s.locks[k]);
    }
  }

  lemma SyncStaysInStep(cfg: Config, s: State, p: Pid, k: Key)
    requires Inv(cfg, s) && cfg.syncs && InStepAt(cfg, s, k)
    ensures InStepAt(cfg, DoSync(cfg, s, p), k)
  {
    assert ProcessOk(cfg, s, p);
  }

  lemma LinkStaysInStep(cfg: Config, s: State, p: Pid, k: Key)
    requires Inv(cfg, s) && InStepAt(cfg, s, k)
    ensures InStepAt(cfg, DoLink(cfg, s, p), k)
  {
    assert ProcessOk(cfg, s, p);
  }

  lemma FlushStaysInStep(cfg: Config, s: State, j: Key, n: nat, k: Key)
    requires InStepAt(cfg, s, k)
    ensures InStepAt(cfg, DoFlush(s, j, n), k)
  {
    if Dir(s.visible, k) == Dir(s.durable, k) {
      assert Dir(DoFlush(s, j, n).durable, k) == Dir(s.durable, k);
    }
  }

  lemma StepStaysInStep(cfg: Config, s: State, a: Action)
    requires Inv(cfg, s) && cfg.syncs && InStep(cfg, s) && NeverTornAt(s, a)
    ensures InStep(cfg, Apply(cfg, s, a))
  {
    forall k ensures InStepAt(cfg, Apply(cfg, s, a), k) {
      assert InStepAt(cfg, s, k);
      if a.Sync? {
        SyncStaysInStep(cfg, s, a.p, k);
      } else if a.Link? {
        LinkStaysInStep(cfg, s, a.p, k);
      } else if a.Flush? {
        FlushStaysInStep(cfg, s, a.key, a.n, k);
      } else if a.PowerLoss? {
        PowerLossKeepsKept(cfg, s, a.leftovers, k);
      } else {
        OthersLeaveMarkers(cfg, s, a);
        if HolderLinked(cfg, s, k) && !a.Anchor? {
          HolderStaysLinked(cfg, s, a, k);
        }
      }
    }
  }

  lemma InStepAcceptsDurably(cfg: Config, s: State, a: Action)
    requires Inv(cfg, s) && cfg.syncs && InStep(cfg, s)
    ensures AcceptsDurably(cfg, s, a) <==> AcceptsAnchored(cfg, s, a)
  {
    if Accepts(s, a) {
      var k := KeyOf(cfg, PhaseOf(s, a.p));
      assert ProcessOk(cfg, s, a.p) && InStepAt(cfg, s, k);
    }
  }

  /** Nothing crashes or fails there during the first `n` actions. */
  predicate AlwaysUntorn(cfg: Config, run: seq<Action>, n: nat)
    requires n <= |run|
  {
    n > 0 ==> NeverTornAt(After(cfg, run, n - 1), run[n - 1]) && AlwaysUntorn(cfg, run, n - 1)
  }

  /** None of the first `n` actions accepts in a directory whose entry is not durable. */
  predicate AlwaysAnchored(cfg: Config, run: seq<Action>, n: nat)
    requires n <= |run|
  {
    n > 0 ==> AcceptsAnchored(cfg, After(cfg, run, n - 1), run[n - 1]) && AlwaysAnchored(cfg, run, n - 1)
  }

  lemma StartIsInStep(cfg: Config)
    ensures InStep(cfg, INIT)
  {
    forall k ensures InStepAt(cfg, INIT, k) {
    }
  }

  lemma {:induction false} UntornRunsAreInStep(cfg: Config, run: seq<Action>, n: nat)
    requires cfg.syncs && n <= |run| && AlwaysUntorn(cfg, run, n)
    ensures InStep(cfg, After(cfg, run, n))
    ensures AlwaysAcceptsDurably(cfg, run, n) <==> AlwaysAnchored(cfg, run, n)
  {
    if n == 0 {
      StartIsInStep(cfg);
    } else {
      UntornRunsAreInStep(cfg, run, n - 1);
      RunKeepsInv(cfg, run, n - 1);
      StepStaysInStep(cfg, After(cfg, run, n - 1), run[n - 1]);
      InStepAcceptsDurably(cfg, After(cfg, run, n - 1), run[n - 1]);
    }
  }

  /** Where directories are synchronised and no process crashes or fails between linking a marker and synchronising
      its directory, every acceptance is durable, whatever the losses of power, exactly if none comes before the entry
      of its directory is durable. */
  lemma UntornRunsAreDurable(cfg: Config, run: seq<Action>, n: nat)
    requires cfg.syncs && n <= |run| && AlwaysUntorn(cfg, run, n)
    ensures AlwaysDurable(cfg, run, n) <==> AlwaysAnchored(cfg, run, n)
  {
    UntornRunsAreInStep(cfg, run, n);
    DurableExactlyWhen(cfg, run, n);
  }
}
