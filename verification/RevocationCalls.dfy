/** One undisturbed call of `record_verified`: the steps of the revocation state machine in the order of the code,
    and what they come to. */
module RevocationCalls {
  import opened Bytes
  import opened RevocationState
  import opened RevocationInvariant

  /** `s`, while `p` holds the lock of an issuer and stands in a phase. */
  function Held(cfg: Config, s: State, p: Pid, issuer: Issuer, ph: Phase): State {
    s.(locks := s.locks[cfg.hash(issuer) := p], phases := s.phases[p := ph], made := s.made + {cfg.hash(issuer)})
  }

  predicate Ready(cfg: Config, s: State, p: Pid, issuer: Issuer) {
    PhaseOf(s, p).Idle? && cfg.hash(issuer) !in s.locks
  }

  lemma Acquires(cfg: Config, s: State, p: Pid, issuer: Issuer, n: nat)
    requires Ready(cfg, s, p, issuer)
    ensures Apply(cfg, s, Acquire(p, issuer, n)) == Held(cfg, s, p, issuer, Scanning(issuer, n, {}, None))
  {
  }

  lemma MovesOn(cfg: Config, s: State, p: Pid, issuer: Issuer, ph: Phase, next: Phase)
    ensures Goto(Held(cfg, s, p, issuer, ph), p, next) == Held(cfg, s, p, issuer, next)
  {
    assert s.phases[p := ph][p := next] == s.phases[p := next];
  }

  lemma ReadsEntry(cfg: Config, s: State, p: Pid, ph: Phase, m: nat)
    requires ph.Scanning? && m in Dir(s.visible, cfg.hash(ph.issuer)) && m !in ph.seen
    ensures
      var dir := Dir(s.visible, cfg.hash(ph.issuer));
      Apply(cfg, Held(cfg, s, p, ph.issuer, ph), ScanEntry(p, m)) == Held(cfg, s, p, ph.issuer, EntryPhase(ph, dir, m))
  {
    MovesOn(cfg, s, p, ph.issuer, ph, EntryPhase(ph, Dir(s.visible, cfg.hash(ph.issuer)), m));
  }

  lemma EndsScan(cfg: Config, s: State, p: Pid, ph: Phase)
    requires ph.Scanning? && ph.seen == Dir(s.visible, cfg.hash(ph.issuer)).Keys
    ensures Apply(cfg, Held(cfg, s, p, ph.issuer, ph), ScanEnd(p)) == Held(cfg, s, p, ph.issuer, EndPhase(ph))
  {
    MovesOn(cfg, s, p, ph.issuer, ph, EndPhase(ph));
  }

  lemma Counts(cfg: Config, s: State, p: Pid, issuer: Issuer, n: nat)
    ensures
      var full := |Dir(s.visible, cfg.hash(issuer))| >= MAX_STATE_MARKERS;
      Apply(cfg, Held(cfg, s, p, issuer, Newer(issuer, n)), Count(p)) ==
        Held(cfg, s, p, issuer, if full then Returning(issuer, n, Rejected) else Counted(issuer, n))
  {
    var full := |Dir(s.visible, cfg.hash(issuer))| >= MAX_STATE_MARKERS;
    MovesOn(cfg, s, p, issuer, Newer(issuer, n), if full then Returning(issuer, n, Rejected) else Counted(issuer, n));
  }

  lemma Creates(cfg: Config, s: State, p: Pid, issuer: Issuer, n: nat, file: nat)
    requires file !in s.pending
    ensures Apply(cfg, Held(cfg, s, p, issuer, Counted(issuer, n)), Create(p, file)) ==
            Held(cfg, s.(pending := s.pending[file := Torn]), p, issuer, Created(issuer, n, file))
  {
    MovesOn(cfg, s, p, issuer, Counted(issuer, n), Created(issuer, n, file));
  }

  lemma WritesFile(cfg: Config, s: State, p: Pid, issuer: Issuer, n: nat, file: nat)
    ensures Apply(cfg, Held(cfg, s, p, issuer, Created(issuer, n, file)), Write(p)) ==
            Held(cfg, s.(pending := s.pending[file := Full(Marker(issuer, n))]), p, issuer, Written(issuer, n, file))
  {
    MovesOn(cfg, s, p, issuer, Created(issuer, n, file), Written(issuer, n, file));
  }

  /** The issuer's directory with one more marker. */
  function WithMarker(cfg: Config, s: State, issuer: Issuer, n: nat): State {
    var k := cfg.hash(issuer);
    s.(visible := s.visible[k := Dir(s.visible, k)[n := Marker(issuer, n)]])
  }

  lemma LinksFile(cfg: Config, s: State, p: Pid, issuer: Issuer, n: nat, file: nat)
    requires n !in Dir(s.visible, cfg.hash(issuer))
    requires file in s.pending && s.pending[file] == Full(Marker(issuer, n))
    ensures Apply(cfg, Held(cfg, s, p, issuer, Written(issuer, n, file)), Link(p)) ==
            Held(cfg, WithMarker(cfg, s, issuer, n), p, issuer, Linked(issuer, n, file))
  {
    MovesOn(cfg, s, p, issuer, Written(issuer, n, file), Linked(issuer, n, file));
  }

  /** The same, synchronised where the platform does. */
  function Synchronised(cfg: Config, s: State, issuer: Issuer): State {
    var k := cfg.hash(issuer);
    if cfg.syncs then s.(durable := s.durable[k := Dir(s.visible, k)]) else s
  }

  lemma Synchronises(cfg: Config, s: State, p: Pid, issuer: Issuer, n: nat, file: nat)
    ensures Apply(cfg, Held(cfg, s, p, issuer, Linked(issuer, n, file)), Sync(p)) ==
            Held(cfg, Synchronised(cfg, s, issuer), p, issuer, Synced(issuer, n, file))
  {
    MovesOn(cfg, s, p, issuer, Linked(issuer, n, file), Synced(issuer, n, file));
  }

  lemma Cleans(cfg: Config, s: State, p: Pid, issuer: Issuer, n: nat, file: nat)
    ensures Apply(cfg, Held(cfg, s, p, issuer, Synced(issuer, n, file)), Clean(p)) ==
            Held(cfg, s.(pending := s.pending - {file}), p, issuer, Returning(issuer, n, Outcome.Appended))
  {
    MovesOn(cfg, s, p, issuer, Synced(issuer, n, file), Returning(issuer, n, Outcome.Appended));
  }

  /** What giving the lock back leaves. */
  function Released(cfg: Config, s: State, p: Pid, issuer: Issuer, n: nat, outcome: Outcome): State {
    s.(phases := s.phases[p := Idle], made := s.made + {cfg.hash(issuer)},
       log := if outcome == Rejected then s.log else s.log + [Acceptance(issuer, n)])
  }

  lemma Releases(cfg: Config, s: State, p: Pid, issuer: Issuer, n: nat, outcome: Outcome)
    requires cfg.hash(issuer) !in s.locks
    ensures Apply(cfg, Held(cfg, s, p, issuer, Returning(issuer, n, outcome)), Release(p)) ==
            Released(cfg, s, p, issuer, n, outcome)
  {
    var k := cfg.hash(issuer);
    assert s.phases[p := Returning(issuer, n, outcome)][p := Idle] == s.phases[p := Idle];
    assert s.locks[k := p] - {k} == s.locks;
  }

  // ---------------------------------------------------------------------------------------------
  // The whole call
  // ---------------------------------------------------------------------------------------------

  predicate Foreign(dir: Directory, issuer: Issuer) { exists m :: m in dir && dir[m].issuer != issuer }

  predicate Newest(dir: Directory, n: nat) { forall m :: m in dir ==> m <= n }

  /** What the call has to answer, given the markers of the issuer. */
  function Verdict(dir: Directory, issuer: Issuer, n: nat): Outcome {
    if Foreign(dir, issuer) || !Newest(dir, n) then Rejected
    else if n in dir then Equal
    else if |dir| >= MAX_STATE_MARKERS then Rejected
    else Outcome.Appended
  }

  /** What it has to leave: one more marker exactly if it answers so, and the lock given back. */
  function Recorded(cfg: Config, s: State, p: Pid, issuer: Issuer, n: nat): State {
    var outcome := Verdict(Dir(s.visible, cfg.hash(issuer)), issuer, n);
    Released(cfg, if outcome.Appended? then Synchronised(cfg, WithMarker(cfg, s, issuer, n), issuer) else s,
             p, issuer, n, outcome)
  }

  /** A directory listing, in any order. */
  predicate Lists(listing: seq<nat>, dir: Directory) {
    && (forall i, j :: 0 <= i < j < |listing| ==> listing[i] != listing[j])
    && (forall i :: 0 <= i < |listing| ==> listing[i] in dir)
    && (forall m :: m in dir ==> m in listing)
  }

  lemma EntryNeverTrips(cfg: Config, k: Key, dir: Directory, ph: Phase, m: nat)
    requires DirOk(cfg, k, dir) && ph.Scanning? && ph.seen <= dir.Keys && m in dir && m !in ph.seen
    ensures EntryPhase(ph, dir, m) ==
            if dir[m].issuer != ph.issuer then Returning(ph.issuer, ph.sequence, Rejected)
            else ph.(seen := ph.seen + {m}, highest := Some(Larger(ph.highest, m)))
  {
    SmallerInside(ph.seen + {m}, dir.Keys);
    assert |ph.seen + {m}| == |ph.seen| + 1;
    assert dir[m] == Marker(dir[m].issuer, m);
  }

  lemma EndDecides(dir: Directory, ph: Phase)
    requires ph.Scanning? && ph.seen == dir.Keys && HighestOf(ph.seen, ph.highest)
    ensures EndPhase(ph) ==
            if !Newest(dir, ph.sequence) then Returning(ph.issuer, ph.sequence, Rejected)
            else if ph.sequence in dir then Returning(ph.issuer, ph.sequence, Equal)
            else Newer(ph.issuer, ph.sequence)
  {
    assert forall m :: m in dir <==> m in ph.seen;
  }

  /** A scan that has read one more marker of its issuer. */
  function Read(ph: Phase, m: nat): Phase
    requires ph.Scanning?
  {
    ph.(seen := ph.seen + {m}, highest := Some(Larger(ph.highest, m)))
  }

  /** A scan that has read these markers. */
  predicate ReadAll(ph: Phase, issuer: Issuer, n: nat, seen: set<nat>) {
    ph.Scanning? && ph.issuer == issuer && ph.sequence == n && ph.seen == seen && HighestOf(seen, ph.highest)
  }

  function Listed(listing: seq<nat>, k: nat): set<nat>
    requires k <= |listing|
  {
    set j | 0 <= j < k :: listing[j]
  }

  lemma ListedGrows(listing: seq<nat>, k: nat, dir: Directory)
    requires k < |listing| && Lists(listing, dir)
    ensures Listed(listing, k + 1) == Listed(listing, k) + {listing[k]}
    ensures Listed(listing, k) <= dir.Keys && listing[k] in dir && listing[k] !in Listed(listing, k)
  {
  }

  /** The state of one trust domain, as the processes on one machine share it. */
  class Store {
    const cfg: Config
    var state: State

    constructor (cfg: Config)
      ensures this.cfg == cfg && state == INIT
    {
      this.cfg := cfg;
      state := INIT;
    }

    method Do(a: Action)
      modifies this
      ensures state == Apply(cfg, old(state), a)
    {
      state := Apply(cfg, state, a);
    }

    /** One turn of the scan. */
    method ReadEntry(p: Pid, m: nat, ghost ph: Phase, ghost base: State) returns (own: bool)
      requires ph.Scanning? && state == Held(cfg, base, p, ph.issuer, ph)
      requires DirOk(cfg, cfg.hash(ph.issuer), Dir(base.visible, cfg.hash(ph.issuer)))
      requires ph.seen <= Dir(base.visible, cfg.hash(ph.issuer)).Keys
      requires m in Dir(base.visible, cfg.hash(ph.issuer)) && m !in ph.seen
      modifies this
      ensures own <==> Dir(base.visible, cfg.hash(ph.issuer))[m].issuer == ph.issuer
      ensures state == Held(cfg, base, p, ph.issuer,
                            if own then Read(ph, m) else Returning(ph.issuer, ph.sequence, Rejected))
    {
      EntryNeverTrips(cfg, cfg.hash(ph.issuer), Dir(base.visible, cfg.hash(ph.issuer)), ph, m);
      ReadsEntry(cfg, base, p, ph, m);
      Do(ScanEntry(p, m));
      own := PhaseOf(state, p).Scanning?;
    }

    /** `scan_highest_sequence`: the highest of the issuer's markers, unless one is not its own. */
    method ScanHighest(p: Pid, issuer: Issuer, n: nat, listing: seq<nat>, ghost base: State)
      returns (ended: bool, ghost ph: Phase)
      requires state == Held(cfg, base, p, issuer, Scanning(issuer, n, {}, None))
      requires DirOk(cfg, cfg.hash(issuer), Dir(base.visible, cfg.hash(issuer)))
      requires Lists(listing, Dir(base.visible, cfg.hash(issuer)))
      modifies this
      ensures ended <==> !Foreign(Dir(base.visible, cfg.hash(issuer)), issuer)
      ensures !ended ==> state == Held(cfg, base, p, issuer, Returning(issuer, n, Rejected))
      ensures ended ==> ReadAll(ph, issuer, n, Dir(base.visible, cfg.hash(issuer)).Keys)
      ensures ended ==> state == Held(cfg, base, p, issuer, ph)
    {
      ghost var dir := Dir(base.visible, cfg.hash(issuer));
      ph := Scanning(issuer, n, {}, None);
      for i := 0 to |listing|
        invariant ReadAll(ph, issuer, n, Listed(listing, i)) && state == Held(cfg, base, p, issuer, ph)
        invariant forall j :: 0 <= j < i ==> dir[listing[j]].issuer == issuer
      {
        ListedGrows(listing, i, dir);
        var own := ReadEntry(p, listing[i], ph, base);
        if !own {
          return false, ph;
        }
        ph := Read(ph, listing[i]);
      }
      assert Listed(listing, |listing|) == dir.Keys;
      return true, ph;
    }

    /** `append_marker`, with a pending name that is free. */
    method AppendMarker(p: Pid, issuer: Issuer, n: nat, file: nat, ghost base: State)
      requires state == Held(cfg, base, p, issuer, Counted(issuer, n))
      requires file !in base.pending && n !in Dir(base.visible, cfg.hash(issuer))
      modifies this
      ensures state == Held(cfg, Synchronised(cfg, WithMarker(cfg, base, issuer, n), issuer), p, issuer,
                            Returning(issuer, n, Outcome.Appended))
    {
      ghost var s := base.(pending := base.pending[file := Torn]);
      Creates(cfg, base, p, issuer, n, file);
      Do(Create(p, file));
      WritesFile(cfg, s, p, issuer, n, file);
      Do(Write(p));
      s := s.(pending := s.pending[file := Full(Marker(issuer, n))]);
      LinksFile(cfg, s, p, issuer, n, file);
      Do(Link(p));
      s := WithMarker(cfg, s, issuer, n);
      Synchronises(cfg, s, p, issuer, n, file);
      Do(Sync(p));
      s := Synchronised(cfg, s, issuer);
      Cleans(cfg, s, p, issuer, n, file);
      Do(Clean(p));
      assert s.pending - {file} == base.pending;
    }

    /** Gives the lock back and answers. */
    method Answer(p: Pid, issuer: Issuer, n: nat, outcome: Outcome, ghost base: State)
      requires state == Held(cfg, base, p, issuer, Returning(issuer, n, outcome)) && cfg.hash(issuer) !in base.locks
      modifies this
      ensures state == Released(cfg, base, p, issuer, n, outcome)
    {
      Releases(cfg, base, p, issuer, n, outcome);
      Do(Release(p));
    }

    /** The call up to the decision after the scan: an answer, or none if the marker has to be appended. */
    method Decide(p: Pid, issuer: Issuer, n: nat, listing: seq<nat>, ghost base: State)
      returns (decided: Option<Outcome>)
      requires state == base && Ready(cfg, base, p, issuer)
      requires DirOk(cfg, cfg.hash(issuer), Dir(base.visible, cfg.hash(issuer)))
      requires Lists(listing, Dir(base.visible, cfg.hash(issuer)))
      modifies this
      ensures
        var dir := Dir(base.visible, cfg.hash(issuer));
        decided == if Foreign(dir, issuer) || !Newest(dir, n) then Some(Rejected)
                   else if n in dir then Some(Equal) else None
      ensures state == Held(cfg, base, p, issuer, match decided
                                                  case Some(outcome) => Returning(issuer, n, outcome)
                                                  case None => Newer(issuer, n))
    {
      Acquires(cfg, base, p, issuer, n);
      Do(Acquire(p, issuer, n));
      ghost var ph;
      var ended;
      ended, ph := ScanHighest(p, issuer, n, listing, base);
      if !ended {
        return Some(Rejected);
      }
      EndDecides(Dir(base.visible, cfg.hash(issuer)), ph);
      EndsScan(cfg, base, p, ph);
      Do(ScanEnd(p));
      var next := PhaseOf(state, p);
      return if next.Returning? then Some(next.outcome) else None;
    }

    /** `record_verified`: the answer and the new state are those of the verdict. */
    method RecordVerified(p: Pid, issuer: Issuer, n: nat, listing: seq<nat>, file: nat) returns (outcome: Outcome)
      requires Ready(cfg, state, p, issuer) && file !in state.pending
      requires DirOk(cfg, cfg.hash(issuer), Dir(state.visible, cfg.hash(issuer)))
      requires Lists(listing, Dir(state.visible, cfg.hash(issuer)))
      modifies this
      ensures outcome == Verdict(old(Dir(state.visible, cfg.hash(issuer))), issuer, n)
      ensures state == Recorded(cfg, old(state), p, issuer, n)
    {
      ghost var base := state;
      var decided := Decide(p, issuer, n, listing, base);
      if decided.Some? {
        Answer(p, issuer, n, decided.value, base);
        return decided.value;
      }
      Counts(cfg, base, p, issuer, n);
      Do(Count(p));
      if PhaseOf(state, p).Returning? {
        Answer(p, issuer, n, Rejected, base);
        return Rejected;
      }
      AppendMarker(p, issuer, n, file, base);
      Answer(p, issuer, n, Outcome.Appended, Synchronised(cfg, WithMarker(cfg, base, issuer, n), issuer));
      return Outcome.Appended;
    }
  }

  /** A sequence above all markers of an issuer's own directory is appended, as long as there is room: it is accepted,
      visible, and durable in its directory where directories are synchronised. */
  lemma NewerIsAppended(cfg: Config, s: State, p: Pid, issuer: Issuer, n: nat)
    requires
      var dir := Dir(s.visible, cfg.hash(issuer));
      |dir| < 10_000 && forall m :: m in dir ==> dir[m].issuer == issuer && m < n
    ensures Verdict(Dir(s.visible, cfg.hash(issuer)), issuer, n) == Outcome.Appended
    ensures
      var t, k := Recorded(cfg, s, p, issuer, n), cfg.hash(issuer);
      && Dir(t.visible, k) == Dir(s.visible, k)[n := Marker(issuer, n)]
      && (cfg.syncs ==> Dir(t.durable, k) == Dir(t.visible, k))
      && (!cfg.syncs ==> t.durable == s.durable)
      && t.log == s.log + [Acceptance(issuer, n)]
      && (forall j :: j != k ==> Dir(t.visible, j) == Dir(s.visible, j) && Dir(t.durable, j) == Dir(s.durable, j))
  {
  }

  /** An equal one is accepted and an older one, or one among foreign markers, refused; neither changes a marker. */
  lemma OthersChangeNothing(cfg: Config, s: State, p: Pid, issuer: Issuer, n: nat)
    requires Verdict(Dir(s.visible, cfg.hash(issuer)), issuer, n) != Outcome.Appended
    ensures
      var dir, t := Dir(s.visible, cfg.hash(issuer)), Recorded(cfg, s, p, issuer, n);
      && t.visible == s.visible && t.durable == s.durable
      && t.log == (if Verdict(dir, issuer, n) == Equal then s.log + [Acceptance(issuer, n)] else s.log)
      && (Verdict(dir, issuer, n) == Equal <==> n in dir && forall m :: m in dir ==> m <= n && dir[m].issuer == issuer)
  {
  }

  /** Calls that nothing disturbs keep every issuer in order: what one accepts is the newest of its directory. */
  lemma AcceptedIsNewest(cfg: Config, s: State, p: Pid, issuer: Issuer, n: nat)
    requires DirOk(cfg, cfg.hash(issuer), Dir(s.visible, cfg.hash(issuer)))
    requires Verdict(Dir(s.visible, cfg.hash(issuer)), issuer, n) != Rejected
    ensures
      var dir := Dir(Recorded(cfg, s, p, issuer, n).visible, cfg.hash(issuer));
      Top(dir, n) && dir[n] == Marker(issuer, n) && Within(Dir(s.visible, cfg.hash(issuer)), dir)
  {
    var k := cfg.hash(issuer);
    assert forall m :: m in Dir(s.visible, k) ==> Dir(s.visible, k)[m].sequence == m;
  }
}
