/** What every step of the revocation state keeps: locks, pending files, markers and what is durable. */
module RevocationInvariant {
  import opened Bytes
  import opened RevocationState

  predicate DirOk(cfg: Config, k: Key, dir: Directory) {
    && |dir| <= MAX_STATE_MARKERS
    && forall n :: n in dir ==> dir[n].sequence == n && cfg.hash(dir[n].issuer) == k
  }

  predicate Within(a: Directory, b: Directory) {
    forall n :: n in a ==> n in b && a[n] == b[n]
  }

  predicate Above(dir: Directory, sequence: nat) { forall n :: n in dir ==> n < sequence }

  predicate Top(dir: Directory, sequence: nat) { sequence in dir && forall n :: n in dir ==> n <= sequence }

  predicate HighestOf(seen: set<nat>, highest: Option<nat>) {
    match highest
    case None => seen == {}
    case Some(h) => h in seen && forall n :: n in seen ==> n <= h
  }

  predicate HasFile(ph: Phase) { ph.Created? || ph.Written? || ph.Linked? || ph.Synced? }

  /** What a process knows about the directory it has locked and about its pending file. */
  predicate PhaseOk(syncs: bool, ph: Phase, visible: Directory, durable: Directory, pending: map<nat, Pending>) {
    && (HasFile(ph) ==> ph.file in pending)
    && match ph
       case Idle => true
       case Scanning(_, _, seen, highest) => seen <= visible.Keys && HighestOf(seen, highest)
       case Newer(_, sequence) => Above(visible, sequence)
       case Counted(_, sequence) => Above(visible, sequence) && |visible| < MAX_STATE_MARKERS
       case Created(_, sequence, _) => Above(visible, sequence) && |visible| < MAX_STATE_MARKERS
       case Written(issuer, sequence, file) =>
         && Above(visible, sequence) && |visible| < MAX_STATE_MARKERS
         && pending[file] == Full(Marker(issuer, sequence))
       case Linked(_, sequence, _) => Top(visible, sequence)
       case Synced(_, sequence, _) => Top(visible, sequence) && (syncs ==> sequence in durable)
       case Returning(_, sequence, outcome) =>
         && (outcome != Rejected ==> Top(visible, sequence))
         && (outcome == Appended && syncs ==> sequence in durable)
  }

  predicate ProcessOk(cfg: Config, s: State, p: Pid) {
    var ph := PhaseOf(s, p);
    !ph.Idle? ==>
      var k := KeyOf(cfg, ph);
      && k in s.locks && s.locks[k] == p
      && PhaseOk(cfg.syncs, ph, Dir(s.visible, k), Dir(s.durable, k), s.pending)
  }

  /** No two processes use one pending file. */
  predicate OwnFiles(s: State, p: Pid, q: Pid) {
    p != q && HasFile(PhaseOf(s, p)) && HasFile(PhaseOf(s, q)) ==> PhaseOf(s, p).file != PhaseOf(s, q).file
  }

  ghost predicate Inv(cfg: Config, s: State) {
    && (forall p :: ProcessOk(cfg, s, p))
    && (forall p, q :: OwnFiles(s, p, q))
    && (forall k :: DirOk(cfg, k, Dir(s.visible, k)))
    && (forall k :: Within(Dir(s.durable, k), Dir(s.visible, k)))
  }

  /** A step in which process `p`, holding or taking the lock of `k`, touches nothing that belongs to others. */
  ghost predicate Local(cfg: Config, s: State, t: State, p: Pid, k: Key) {
    && (k in s.locks ==> s.locks[k] == p)
    && (forall q :: q != p ==> PhaseOf(t, q) == PhaseOf(s, q))
    && (forall j :: j != k && j in s.locks ==> j in t.locks && t.locks[j] == s.locks[j])
    && (forall j :: j != k ==> Dir(t.visible, j) == Dir(s.visible, j) && Dir(t.durable, j) == Dir(s.durable, j))
    && (forall f :: f in s.pending && !(HasFile(PhaseOf(s, p)) && PhaseOf(s, p).file == f) ==>
          f in t.pending && t.pending[f] == s.pending[f])
    && (HasFile(PhaseOf(t, p)) ==>
          || (HasFile(PhaseOf(s, p)) && PhaseOf(s, p).file == PhaseOf(t, p).file)
          || PhaseOf(t, p).file !in s.pending)
  }

  lemma LocalKeepsOthers(cfg: Config, s: State, t: State, p: Pid, k: Key, q: Pid)
    requires Inv(cfg, s) && Local(cfg, s, t, p, k) && q != p
    ensures ProcessOk(cfg, t, q)
  {
    assert ProcessOk(cfg, s, q) && OwnFiles(s, p, q);
  }

  lemma LocalKeepsInv(cfg: Config, s: State, t: State, p: Pid, k: Key)
    requires Inv(cfg, s) && Local(cfg, s, t, p, k)
    requires ProcessOk(cfg, t, p)
    requires DirOk(cfg, k, Dir(t.visible, k)) && Within(Dir(t.durable, k), Dir(t.visible, k))
    ensures Inv(cfg, t)
  {
    forall q ensures ProcessOk(cfg, t, q) {
      if q != p {
        LocalKeepsOthers(cfg, s, t, p, k, q);
      }
    }
    forall q, r ensures OwnFiles(t, q, r) {
      assert OwnFiles(s, q, r) && ProcessOk(cfg, s, q) && ProcessOk(cfg, s, r);
    }
    forall j ensures DirOk(cfg, j, Dir(t.visible, j)) && Within(Dir(t.durable, j), Dir(t.visible, j)) {
      assert DirOk(cfg, j, Dir(s.visible, j)) && Within(Dir(s.durable, j), Dir(s.visible, j));
    }
  }

  /** A process that holds its lock moves on, changing at most its own pending file. */
  lemma MoveKeepsInv(cfg: Config, s: State, p: Pid, ph: Phase, pending: map<nat, Pending>)
    requires Inv(cfg, s)
    requires !PhaseOf(s, p).Idle? && !ph.Idle? && KeyOf(cfg, ph) == KeyOf(cfg, PhaseOf(s, p))
    requires PhaseOk(cfg.syncs, ph, Dir(s.visible, KeyOf(cfg, ph)), Dir(s.durable, KeyOf(cfg, ph)), pending)
    requires forall f :: f in s.pending && !(HasFile(PhaseOf(s, p)) && PhaseOf(s, p).file == f) ==>
               f in pending && pending[f] == s.pending[f]
    requires HasFile(ph) ==>
               (HasFile(PhaseOf(s, p)) && PhaseOf(s, p).file == ph.file) || ph.file !in s.pending
    ensures Inv(cfg, Goto(s, p, ph).(pending := pending))
  {
    var k, t := KeyOf(cfg, ph), Goto(s, p, ph).(pending := pending);
    assert ProcessOk(cfg, s, p);
    assert DirOk(cfg, k, Dir(s.visible, k)) && Within(Dir(s.durable, k), Dir(s.visible, k));
    LocalKeepsInv(cfg, s, t, p, k);
  }

  lemma AcquireKeepsInv(cfg: Config, s: State, p: Pid, issuer: Issuer, sequence: nat)
    requires Inv(cfg, s)
    ensures Inv(cfg, Apply(cfg, s, Acquire(p, issuer, sequence)))
  {
    var t, k := Apply(cfg, s, Acquire(p, issuer, sequence)), cfg.hash(issuer);
    if PhaseOf(s, p).Idle? && k !in s.locks {
      assert DirOk(cfg, k, Dir(s.visible, k)) && Within(Dir(s.durable, k), Dir(s.visible, k));
      LocalKeepsInv(cfg, s, t, p, k);
    }
  }

  lemma EntryPhaseOk(syncs: bool, ph: Phase, visible: Directory, durable: Directory, pending: map<nat, Pending>, n: nat)
    requires ph.Scanning? && PhaseOk(syncs, ph, visible, durable, pending) && n in visible
    ensures PhaseOk(syncs, EntryPhase(ph, visible, n), visible, durable, pending)
  {
  }

  lemma ScanEntryKeepsInv(cfg: Config, s: State, p: Pid, n: nat)
    requires Inv(cfg, s)
    ensures Inv(cfg, DoScanEntry(cfg, s, p, n))
  {
    var ph := PhaseOf(s, p);
    assert ProcessOk(cfg, s, p);
    if ph.Scanning? && n in Dir(s.visible, KeyOf(cfg, ph)) && n !in ph.seen {
      var visible, durable := Dir(s.visible, KeyOf(cfg, ph)), Dir(s.durable, KeyOf(cfg, ph));
      EntryPhaseOk(cfg.syncs, ph, visible, durable, s.pending, n);
      MoveKeepsInv(cfg, s, p, EntryPhase(ph, visible, n), s.pending);
    }
  }

  lemma EndPhaseOk(syncs: bool, ph: Phase, visible: Directory, durable: Directory, pending: map<nat, Pending>)
    requires ph.Scanning? && PhaseOk(syncs, ph, visible, durable, pending) && ph.seen == visible.Keys
    ensures PhaseOk(syncs, EndPhase(ph), visible, durable, pending)
  {
    assert forall n :: n in visible ==> n in ph.seen;
  }

  lemma ScanEndKeepsInv(cfg: Config, s: State, p: Pid)
    requires Inv(cfg, s)
    ensures Inv(cfg, DoScanEnd(cfg, s, p))
  {
    var ph := PhaseOf(s, p);
    assert ProcessOk(cfg, s, p);
    if ph.Scanning? && ph.seen == Dir(s.visible, KeyOf(cfg, ph)).Keys {
      EndPhaseOk(cfg.syncs, ph, Dir(s.visible, KeyOf(cfg, ph)), Dir(s.durable, KeyOf(cfg, ph)), s.pending);
      MoveKeepsInv(cfg, s, p, EndPhase(ph), s.pending);
    }
  }

  lemma CountKeepsInv(cfg: Config, s: State, p: Pid)
    requires Inv(cfg, s)
    ensures Inv(cfg, DoCount(cfg, s, p))
  {
    var t := DoCount(cfg, s, p);
    if t != s {
      assert ProcessOk(cfg, s, p);
      MoveKeepsInv(cfg, s, p, PhaseOf(t, p), s.pending);
    }
  }

  lemma CreateKeepsInv(cfg: Config, s: State, p: Pid, file: nat)
    requires Inv(cfg, s)
    ensures Inv(cfg, DoCreate(s, p, file))
  {
    var t := DoCreate(s, p, file);
    if t != s {
      assert ProcessOk(cfg, s, p);
      MoveKeepsInv(cfg, s, p, PhaseOf(t, p), t.pending);
    }
  }

  lemma WriteKeepsInv(cfg: Config, s: State, p: Pid)
    requires Inv(cfg, s)
    ensures Inv(cfg, DoWrite(s, p))
  {
    var t := DoWrite(s, p);
    if t != s {
      assert ProcessOk(cfg, s, p);
      MoveKeepsInv(cfg, s, p, PhaseOf(t, p), t.pending);
    }
  }

  /** A process about to link finds its target free and its pending file complete. */
  lemma LinkTargetIsFree(cfg: Config, s: State, p: Pid)
    requires Inv(cfg, s) && PhaseOf(s, p).Written?
    ensures
      var ph := PhaseOf(s, p);
      && ph.sequence !in Dir(s.visible, KeyOf(cfg, ph))
      && ph.file in s.pending && s.pending[ph.file] == Full(Marker(ph.issuer, ph.sequence))
      && PhaseOf(DoLink(cfg, s, p), p).Linked?
  {
    assert ProcessOk(cfg, s, p);
  }

  /** A scan never runs into the marker limit, and between issuers of different hashes it never meets a
      marker that is not its own. */
  lemma ScanNeverTrips(cfg: Config, s: State, p: Pid, n: nat)
    requires Inv(cfg, s) && PhaseOf(s, p).Scanning?
    requires n in Dir(s.visible, KeyOf(cfg, PhaseOf(s, p))) && n !in PhaseOf(s, p).seen
    requires forall i, j :: cfg.hash(i) == cfg.hash(j) ==> i == j
    ensures PhaseOf(DoScanEntry(cfg, s, p, n), p).Scanning?
  {
    assert ProcessOk(cfg, s, p);
    var ph := PhaseOf(s, p);
    var k := KeyOf(cfg, ph);
    var dir := Dir(s.visible, k);
    assert DirOk(cfg, k, dir);
    assert ph.seen + {n} <= dir.Keys;
    SmallerInside(ph.seen + {n}, dir.Keys);
  }

  lemma LinkedDirectory(cfg: Config, k: Key, before: Directory, m: Marker)
    requires DirOk(cfg, k, before) && Above(before, m.sequence) && |before| < MAX_STATE_MARKERS
    requires cfg.hash(m.issuer) == k
    ensures DirOk(cfg, k, before[m.sequence := m]) && Top(before[m.sequence := m], m.sequence)
    ensures Within(before, before[m.sequence := m])
  {
    var after := before[m.sequence := m];
    assert after.Keys == before.Keys + {m.sequence};
    assert |after.Keys| == |before.Keys| + 1;
  }

  lemma LinkKeepsInv(cfg: Config, s: State, p: Pid)
    requires Inv(cfg, s)
    ensures Inv(cfg, DoLink(cfg, s, p))
  {
    var ph, t := PhaseOf(s, p), DoLink(cfg, s, p);
    if ph.Written? {
      LinkTargetIsFree(cfg, s, p);
      assert ProcessOk(cfg, s, p);
      var k := KeyOf(cfg, ph);
      assert DirOk(cfg, k, Dir(s.visible, k)) && Within(Dir(s.durable, k), Dir(s.visible, k));
      LinkedDirectory(cfg, k, Dir(s.visible, k), Marker(ph.issuer, ph.sequence));
      LocalKeepsInv(cfg, s, t, p, k);
    }
  }

  lemma SyncKeepsInv(cfg: Config, s: State, p: Pid)
    requires Inv(cfg, s)
    ensures Inv(cfg, DoSync(cfg, s, p))
  {
    var ph, t := PhaseOf(s, p), DoSync(cfg, s, p);
    if t != s {
      assert ProcessOk(cfg, s, p);
      var k := KeyOf(cfg, ph);
      assert DirOk(cfg, k, Dir(s.visible, k)) && Within(Dir(s.durable, k), Dir(s.visible, k));
      LocalKeepsInv(cfg, s, t, p, k);
    }
  }

  lemma CleanKeepsInv(cfg: Config, s: State, p: Pid)
    requires Inv(cfg, s)
    ensures Inv(cfg, DoClean(s, p))
  {
    var t := DoClean(s, p);
    if t != s {
      assert ProcessOk(cfg, s, p);
      MoveKeepsInv(cfg, s, p, PhaseOf(t, p), t.pending);
    }
  }

  lemma FailKeepsInv(cfg: Config, s: State, p: Pid)
    requires Inv(cfg, s)
    ensures Inv(cfg, DoFail(s, p))
  {
    var ph := PhaseOf(s, p);
    assert ProcessOk(cfg, s, p);
    if !ph.Idle? && !ph.Returning? {
      var pending := if HasFile(ph) then s.pending - {ph.file} else s.pending;
      MoveKeepsInv(cfg, s, p, Returning(ph.issuer, ph.sequence, Rejected), pending);
      if !HasFile(ph) {
        assert s.(pending := s.pending) == s;
      }
    }
  }

  lemma LogIsApart(cfg: Config, s: State, log: seq<Acceptance>)
    requires Inv(cfg, s)
    ensures Inv(cfg, s.(log := log))
  {
    forall p ensures ProcessOk(cfg, s.(log := log), p) {
      assert ProcessOk(cfg, s, p);
    }
    forall p, q ensures OwnFiles(s.(log := log), p, q) {
      assert OwnFiles(s, p, q);
    }
  }

  lemma UnlockKeepsInv(cfg: Config, s: State, p: Pid)
    requires Inv(cfg, s)
    ensures Inv(cfg, Unlock(cfg, s, p))
  {
    var t := Unlock(cfg, s, p);
    if t != s && !PhaseOf(s, p).Idle? {
      assert ProcessOk(cfg, s, p);
      var k := KeyOf(cfg, PhaseOf(s, p));
      assert DirOk(cfg, k, Dir(s.visible, k)) && Within(Dir(s.durable, k), Dir(s.visible, k));
      LocalKeepsInv(cfg, s, t, p, k);
    }
  }

  lemma FlushKeepsInv(cfg: Config, s: State, k: Key, n: nat)
    requires Inv(cfg, s)
    ensures Inv(cfg, DoFlush(s, k, n))
  {
    var t := DoFlush(s, k, n);
    forall p ensures ProcessOk(cfg, t, p) {
      assert ProcessOk(cfg, s, p);
    }
    forall p, q ensures OwnFiles(t, p, q) {
      assert OwnFiles(s, p, q);
    }
    forall j ensures Within(Dir(t.durable, j), Dir(t.visible, j)) && DirOk(cfg, j, Dir(t.visible, j)) {
      assert Within(Dir(s.durable, j), Dir(s.visible, j)) && DirOk(cfg, j, Dir(s.visible, j));
    }
  }

  lemma AnchorKeepsInv(cfg: Config, s: State, k: Key)
    requires Inv(cfg, s)
    ensures Inv(cfg, DoAnchor(s, k))
  {
    var t := DoAnchor(s, k);
    forall p ensures ProcessOk(cfg, t, p) {
      assert ProcessOk(cfg, s, p);
    }
    forall p, q ensures OwnFiles(t, p, q) {
      assert OwnFiles(s, p, q);
    }
  }

  lemma PowerLossKeepsInv(cfg: Config, s: State, leftovers: map<nat, Pending>)
    requires Inv(cfg, s)
    ensures Inv(cfg, Apply(cfg, s, PowerLoss(leftovers)))
  {
    var t := Apply(cfg, s, PowerLoss(leftovers));
    forall j ensures DirOk(cfg, j, Dir(t.visible, j)) {
      assert DirOk(cfg, j, Dir(s.visible, j)) && Within(Dir(s.durable, j), Dir(s.visible, j));
      SmallerInside(Dir(s.durable, j).Keys, Dir(s.visible, j).Keys);
    }
  }

  lemma {:induction false} SmallerInside(a: set<nat>, b: set<nat>)
    requires a <= b
    ensures |a| <= |b|
  {
    if a != {} {
      var x :| x in a;
      SmallerInside(a - {x}, b - {x});
    }
  }

  /** Every action, a crash and a loss of power included, keeps the invariant. */
  lemma StepKeepsInv(cfg: Config, s: State, a: Action)
    requires Inv(cfg, s)
    ensures Inv(cfg, Apply(cfg, s, a))
  {
    match a
    case Acquire(p, issuer, sequence) => AcquireKeepsInv(cfg, s, p, issuer, sequence);
    case ScanEntry(p, n) => ScanEntryKeepsInv(cfg, s, p, n);
    case ScanEnd(p) => ScanEndKeepsInv(cfg, s, p);
    case Count(p) => CountKeepsInv(cfg, s, p);
    case Create(p, file) => CreateKeepsInv(cfg, s, p, file);
    case Write(p) => WriteKeepsInv(cfg, s, p);
    case Link(p) => LinkKeepsInv(cfg, s, p);
    case Sync(p) => SyncKeepsInv(cfg, s, p);
    case Clean(p) => CleanKeepsInv(cfg, s, p);
    case Fail(p) => FailKeepsInv(cfg, s, p);
    case Release(p) =>
      UnlockKeepsInv(cfg, s, p);
      LogIsApart(cfg, Unlock(cfg, s, p), Apply(cfg, s, a).log);
    case Crash(p) => UnlockKeepsInv(cfg, s, p);
    case Flush(k, n) => FlushKeepsInv(cfg, s, k, n);
    case Anchor(k) => AnchorKeepsInv(cfg, s, k);
    case PowerLoss(leftovers) => PowerLossKeepsInv(cfg, s, leftovers);
  }

  lemma {:induction false} RunKeepsInv(cfg: Config, run: seq<Action>, n: nat)
    requires n <= |run|
    ensures Inv(cfg, After(cfg, run, n))
  {
    if n > 0 {
      RunKeepsInv(cfg, run, n - 1);
      StepKeepsInv(cfg, After(cfg, run, n - 1), run[n - 1]);
    }
  }
}
