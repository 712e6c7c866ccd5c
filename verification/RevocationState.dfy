/** The append-only revocation state: many verifiers, one lock and one directory per issuer hash, a pending
    file that is hard-linked into place, and a crash at any point. Every list of actions is a run; an action
    that is not possible in a state leaves it alone. */
module RevocationState {
  import opened Bytes

  type Pid = nat
  type Issuer = string
  type Key = string

  const MAX_STATE_MARKERS: nat := 10_000

  datatype Marker = Marker(issuer: Issuer, sequence: nat)

  /** Marker files by the sequence number in their name. */
  type Directory = map<nat, Marker>

  datatype Pending = Torn | Full(marker: Marker)

  datatype Outcome = Rejected | Equal | Appended

  /** Where a call of `record_verified` stands. Every phase but `Idle` holds the lock. */
  datatype Phase =
    | Idle
    | Scanning(issuer: Issuer, sequence: nat, seen: set<nat>, highest: Option<nat>)
    | Newer(issuer: Issuer, sequence: nat)
    | Counted(issuer: Issuer, sequence: nat)
    | Created(issuer: Issuer, sequence: nat, file: nat)
    | Written(issuer: Issuer, sequence: nat, file: nat)
    | Linked(issuer: Issuer, sequence: nat, file: nat)
    | Synced(issuer: Issuer, sequence: nat, file: nat)
    | Returning(issuer: Issuer, sequence: nat, outcome: Outcome)

  datatype Acceptance = Acceptance(issuer: Issuer, sequence: nat)

  /** The issuer hash, and whether the platform synchronises directories. */
  datatype Config = Config(hash: Issuer -> Key, syncs: bool)

  /** `visible` is what processes see, `durable` which of its markers the directories hold for good, `made` which
      directories there are and `anchored` those whose own entry, up to the root of the state, is durable as well. A
      loss of power takes every other directory as a whole. `log` lists the accepted sequences in the order in which
      the locks were given back. */
  datatype State = State(
    visible: map<Key, Directory>,
    durable: map<Key, Directory>,
    made: set<Key>,
    anchored: set<Key>,
    pending: map<nat, Pending>,
    locks: map<Key, Pid>,
    phases: map<Pid, Phase>,
    log: seq<Acceptance>)

  datatype Action =
    | Acquire(p: Pid, issuer: Issuer, sequence: nat)
    | ScanEntry(p: Pid, n: nat)
    | ScanEnd(p: Pid)
    | Count(p: Pid)
    | Create(p: Pid, file: nat)
    | Write(p: Pid)
    | Link(p: Pid)
    | Sync(p: Pid)
    | Clean(p: Pid)
    | Fail(p: Pid)
    | Release(p: Pid)
    | Crash(p: Pid)
    | Flush(key: Key, n: nat)
    | Anchor(key: Key)
    | PowerLoss(leftovers: map<nat, Pending>)

  const INIT: State := State(map[], map[], {}, {}, map[], map[], map[], [])

  function Dir(m: map<Key, Directory>, k: Key): Directory {
    if k in m then m[k] else map[]
  }

  /** What of a directory outlives a loss of power. */
  function Kept(s: State, k: Key): Directory {
    if k in s.anchored then Dir(s.durable, k) else map[]
  }

  function PhaseOf(s: State, p: Pid): Phase {
    if p in s.phases then s.phases[p] else Idle
  }

  function KeyOf(cfg: Config, ph: Phase): Key
    requires !ph.Idle?
  {
    cfg.hash(ph.issuer)
  }

  // ---------------------------------------------------------------------------------------------
  // Steps
  // ---------------------------------------------------------------------------------------------

  function Goto(s: State, p: Pid, ph: Phase): State { s.(phases := s.phases[p := ph]) }

  function Larger(highest: Option<nat>, n: nat): nat {
    match highest
    case None => n
    case Some(h) => if n > h then n else h
  }

  /** One turn of `scan_highest_sequence`, on an entry of the directory that was not read yet. */
  function EntryPhase(ph: Phase, dir: Directory, n: nat): Phase
    requires ph.Scanning? && n in dir
  {
    if |ph.seen| + 1 > MAX_STATE_MARKERS || dir[n] != Marker(ph.issuer, n) then
      Returning(ph.issuer, ph.sequence, Rejected)
    else ph.(seen := ph.seen + {n}, highest := Some(Larger(ph.highest, n)))
  }

  function DoScanEntry(cfg: Config, s: State, p: Pid, n: nat): State {
    var ph := PhaseOf(s, p);
    if !ph.Scanning? then s
    else
      var dir := Dir(s.visible, KeyOf(cfg, ph));
      if n !in dir || n in ph.seen then s else Goto(s, p, EntryPhase(ph, dir, n))
  }

  /** The decision after the scan. */
  function EndPhase(ph: Phase): Phase
    requires ph.Scanning?
  {
    if ph.highest.Some? && ph.sequence < ph.highest.value then Returning(ph.issuer, ph.sequence, Rejected)
    else if ph.highest == Some(ph.sequence) then Returning(ph.issuer, ph.sequence, Equal)
    else Newer(ph.issuer, ph.sequence)
  }

  function DoScanEnd(cfg: Config, s: State, p: Pid): State {
    var ph := PhaseOf(s, p);
    if !ph.Scanning? || ph.seen != Dir(s.visible, KeyOf(cfg, ph)).Keys then s else Goto(s, p, EndPhase(ph))
  }

  function DoCount(cfg: Config, s: State, p: Pid): State {
    var ph := PhaseOf(s, p);
    if !ph.Newer? then s
    else if |Dir(s.visible, KeyOf(cfg, ph))| >= MAX_STATE_MARKERS then
      Goto(s, p, Returning(ph.issuer, ph.sequence, Rejected))
    else Goto(s, p, Counted(ph.issuer, ph.sequence))
  }

  function DoCreate(s: State, p: Pid, file: nat): State {
    var ph := PhaseOf(s, p);
    if !ph.Counted? then s
    else if file in s.pending then Goto(s, p, Returning(ph.issuer, ph.sequence, Rejected))
    else Goto(s, p, Created(ph.issuer, ph.sequence, file)).(pending := s.pending[file := Torn])
  }

  function DoWrite(s: State, p: Pid): State {
    var ph := PhaseOf(s, p);
    if !ph.Created? then s
    else
      Goto(s, p, Written(ph.issuer, ph.sequence, ph.file))
        .(pending := s.pending[ph.file := Full(Marker(ph.issuer, ph.sequence))])
  }

  /** `hard_link` fails when the target exists; what it links is whatever the pending file holds. */
  function DoLink(cfg: Config, s: State, p: Pid): State {
    var ph := PhaseOf(s, p);
    if !ph.Written? then s
    else
      var k := KeyOf(cfg, ph);
      var dir := Dir(s.visible, k);
      if ph.sequence in dir || ph.file !in s.pending || s.pending[ph.file].Torn? then
        Goto(s, p, Returning(ph.issuer, ph.sequence, Rejected)).(pending := s.pending - {ph.file})
      else
        Goto(s, p, Linked(ph.issuer, ph.sequence, ph.file))
          .(visible := s.visible[k := dir[ph.sequence := s.pending[ph.file].marker]])
  }

  function DoSync(cfg: Config, s: State, p: Pid): State {
    var ph := PhaseOf(s, p);
    if !ph.Linked? then s
    else
      var k := KeyOf(cfg, ph);
      var t := Goto(s, p, Synced(ph.issuer, ph.sequence, ph.file));
      if cfg.syncs then t.(durable := s.durable[k := Dir(s.visible, k)]) else t
  }

  function DoClean(s: State, p: Pid): State {
    var ph := PhaseOf(s, p);
    if !ph.Synced? then s
    else Goto(s, p, Returning(ph.issuer, ph.sequence, Appended)).(pending := s.pending - {ph.file})
  }

  /** Any operation may fail: the pending file is removed and the call reports an error. */
  function DoFail(s: State, p: Pid): State {
    var ph := PhaseOf(s, p);
    if ph.Idle? || ph.Returning? then s
    else
      var t := Goto(s, p, Returning(ph.issuer, ph.sequence, Rejected));
      if ph.Created? || ph.Written? || ph.Linked? || ph.Synced? then t.(pending := s.pending - {ph.file}) else t
  }

  function Unlock(cfg: Config, s: State, p: Pid): State {
    var ph := PhaseOf(s, p);
    if ph.Idle? then s
    else s.(phases := s.phases[p := Idle], locks := s.locks - {KeyOf(cfg, ph)})
  }

  function DoRelease(cfg: Config, s: State, p: Pid): State {
    var ph := PhaseOf(s, p);
    if !ph.Returning? then s
    else if ph.outcome == Rejected then Unlock(cfg, s, p)
    else Unlock(cfg, s, p).(log := s.log + [Acceptance(ph.issuer, ph.sequence)])
  }

  function DoFlush(s: State, k: Key, n: nat): State {
    var dir := Dir(s.visible, k);
    if n !in dir then s else s.(durable := s.durable[k := Dir(s.durable, k)[n := dir[n]]])
  }

  /** The operating system may write the entries of directories at any time; no verifier asks for it. */
  function DoAnchor(s: State, k: Key): State {
    if k in s.made then s.(anchored := s.anchored + {k}) else s
  }

  /** What a loss of power leaves: of the anchored directories, their durable markers. */
  function Rest(s: State): map<Key, Directory> { map k | k in s.durable && k in s.anchored :: s.durable[k] }

  function Apply(cfg: Config, s: State, a: Action): State {
    match a
    case Acquire(p, issuer, sequence) =>
      if !PhaseOf(s, p).Idle? || cfg.hash(issuer) in s.locks then s
      else
        Goto(s, p, Scanning(issuer, sequence, {}, None))
          .(locks := s.locks[cfg.hash(issuer) := p], made := s.made + {cfg.hash(issuer)})
    case ScanEntry(p, n) => DoScanEntry(cfg, s, p, n)
    case ScanEnd(p) => DoScanEnd(cfg, s, p)
    case Count(p) => DoCount(cfg, s, p)
    case Create(p, file) => DoCreate(s, p, file)
    case Write(p) => DoWrite(s, p)
    case Link(p) => DoLink(cfg, s, p)
    case Sync(p) => DoSync(cfg, s, p)
    case Clean(p) => DoClean(s, p)
    case Fail(p) => DoFail(s, p)
    case Release(p) => DoRelease(cfg, s, p)
    case Crash(p) => Unlock(cfg, s, p)
    case Flush(k, n) => DoFlush(s, k, n)
    case Anchor(k) => DoAnchor(s, k)
    case PowerLoss(leftovers) =>
      s.(visible := Rest(s), durable := Rest(s), made := s.anchored, pending := leftovers, locks := map[],
         phases := map[])
  }

  /** The state after the first `n` actions. */
  function After(cfg: Config, run: seq<Action>, n: nat): State
    requires n <= |run|
  {
    if n == 0 then INIT else Apply(cfg, After(cfg, run, n - 1), run[n - 1])
  }
}
