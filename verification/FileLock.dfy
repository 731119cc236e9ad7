/** The cross-process lock on one path: a file created exclusively, then filled with the holder's pid.
    Processes crash, releases fail, and any process may run the stale-lock pass at any time.  A run is
    any interleaving of single steps; one stale-lock pass is one step. */
module FileLock {
  import opened Options

  type Pid = nat

  const LOCK_TTL_MS := 30_000
  const ZERO_BYTE_MS := 1_000

  /** `pid` is `None` while the file is empty; `inode` tells the generations of the file apart. */
  datatype File = File(pid: Option<Pid>, mtime: int, inode: nat)

  /** One call of `withLock` in a process. */
  datatype Caller = Caller(pid: Pid, n: nat)

  /** The file created but still empty; the pid written; inside the critical section; released but
      still listed as unreleased, or failed to release and not yet listed. */
  datatype Phase = Created(at: int, inode: nat) | Written | Holding | Released | Failed

  /** `unreleased` are the processes that have this path in their set of locks they failed to release. */
  datatype State = State(
    now: int, file: Option<File>, inodes: nat, alive: set<Pid>, callers: map<Caller, Phase>, unreleased: set<Pid>)

  datatype Event =
    | Tick(ms: nat)
    | Create(c: Caller)
    | WritePid(c: Caller)
    | FailWrite(c: Caller, unlinked: bool)
    | Close(c: Caller)
    | FailClose(c: Caller, unlinked: bool)
    | Beat(c: Caller)
    | Release(c: Caller)
    | FailRelease(c: Caller)
    | Settle(c: Caller)
    | Reap(p: Pid, unlinked: bool)
    | Crash(p: Pid)

  /** A step of a call already under way. */
  predicate ByCaller(e: Event) {
    e.WritePid? || e.FailWrite? || e.Close? || e.FailClose? || e.Beat? || e.Release? || e.FailRelease? || e.Settle?
  }

  predicate ShouldReapStaleLock(mtime: int, now: int, ttl: int, ownerAlive: bool) {
    now - mtime > ttl && !ownerAlive
  }

  function Drop(s: State, c: Caller): State {
    s.(callers := s.callers - {c})
  }

  function Become(s: State, c: Caller, ph: Phase): State {
    s.(callers := s.callers[c := ph])
  }

  /** A path-based unlink, which may fail. */
  function Unlinked(s: State, ok: bool): State {
    if ok then s.(file := None) else s
  }

  /** The pid goes to the file that was opened, which need not be the one now at the path. */
  function PidWritten(s: State, c: Caller, inode: nat): State {
    if s.file.Some? && s.file.value.inode == inode
    then s.(file := Some(File(Some(c.pid), s.now, inode))) else s
  }

  function CallerStep(s: State, c: Caller, e: Event): State
    requires c in s.callers
  {
    match (e, s.callers[c])
    case (WritePid(_), Created(_, inode)) => Become(PidWritten(s, c, inode), c, Written)
    case (FailWrite(_, unlinked), Created(_, _)) => Drop(Unlinked(s, unlinked), c)
    case (Close(_), Written) => Become(s, c, Holding)
    case (FailClose(_, unlinked), Written) => Drop(Unlinked(s, unlinked), c)
    case (Beat(_), Holding) =>
      if s.file.Some? then s.(file := Some(s.file.value.(mtime := s.now))) else s
    case (Release(_), Holding) =>
      var own := s.file.Some? && s.file.value.pid == Some(c.pid);
      Become(Unlinked(s, own), c, Released)
    case (FailRelease(_), Holding) => Become(s, c, Failed)
    case (Settle(_), Released) => Drop(s.(unreleased := s.unreleased - {c.pid}), c)
    case (Settle(_), Failed) => Drop(s.(unreleased := s.unreleased + {c.pid}), c)
    case _ => s
  }

  /** The stale-lock pass of a process, taken as one step. */
  function ReapPass(s: State, p: Pid, unlinked: bool): State {
    if p in s.unreleased then
      if s.file.None? || s.file.value.pid != Some(p) then s.(unreleased := s.unreleased - {p})
      else if unlinked then s.(file := None, unreleased := s.unreleased - {p}) else s
    else if s.file.None? then s
    else
      var f := s.file.value;
      if f.pid.None? then (if s.now - f.mtime > ZERO_BYTE_MS then Unlinked(s, unlinked) else s)
      else if ShouldReapStaleLock(f.mtime, s.now, LOCK_TTL_MS, f.pid.value in s.alive)
      then s.(file := Some(File(None, s.now, f.inode))) else s
  }

  /** The state after one event; an event that cannot happen changes nothing. */
  function Step(s: State, e: Event): State {
    match e
    case Tick(ms) => s.(now := s.now + ms)
    case Create(c) =>
      if s.file.Some? || c in s.callers || c.pid !in s.alive then s
      else
        s.(file := Some(File(None, s.now, s.inodes)), inodes := s.inodes + 1,
           callers := s.callers[c := Created(s.now, s.inodes)])
    case Reap(p, unlinked) => if p in s.alive then ReapPass(s, p, unlinked) else s
    case Crash(p) =>
      s.(alive := s.alive - {p}, unreleased := s.unreleased - {p},
         callers := map c | c in s.callers && c.pid != p :: s.callers[c])
    case _ => if ByCaller(e) && e.c in s.callers then CallerStep(s, e.c, e) else s
  }

  function After(s: State, es: seq<Event>): State {
    if es == [] then s else Step(After(s, es[..|es| - 1]), es[|es| - 1])
  }

  function Start(now: int, alive: set<Pid>): State {
    State(now, None, 0, alive, map[], {})
  }

  /** The assumption of the protocol: nobody lets more than a second pass between creating the file
      and writing its pid (or giving up). */
  predicate Prompt(s: State, e: Event) {
    e.Tick? ==> forall c :: c in s.callers && s.callers[c].Created? ==> s.now + e.ms - s.callers[c].at <= ZERO_BYTE_MS
  }

  predicate PromptRun(s: State, es: seq<Event>) {
    forall i :: 0 <= i < |es| ==> Prompt(After(s, es[..i]), es[i])
  }

  // ---- Mutual exclusion ------------------------------------------------------------------------

  /** The caller has, or may still have, its file at the path. */
  predicate Owns(ph: Phase) {
    !ph.Released?
  }

  predicate OwnsFile(s: State, c: Caller, ph: Phase) {
    match ph
    case Created(at, inode) => s.file == Some(File(None, at, inode)) && 0 <= s.now - at <= ZERO_BYTE_MS
    case Released => true
    case _ => s.file.Some? && s.file.value.pid == Some(c.pid)
  }

  predicate Inv(s: State) {
    && (s.file.Some? ==> s.file.value.inode < s.inodes && s.file.value.mtime <= s.now)
    && (forall c :: c in s.callers ==> c.pid in s.alive && OwnsFile(s, c, s.callers[c]))
    && (forall c, d :: c in s.callers && d in s.callers && Owns(s.callers[c]) && Owns(s.callers[d]) ==> c == d)
    && (forall p :: p in s.unreleased ==> p in s.alive && s.file.Some? && s.file.value.pid == Some(p))
    && (forall c :: c in s.callers && c.pid in s.unreleased ==> s.callers[c].Released?)
  }

  lemma CallerKeepsInv(s: State, c: Caller, e: Event)
    requires Inv(s) && c in s.callers
    ensures Inv(CallerStep(s, c, e))
  {
  }

  lemma ReapKeepsInv(s: State, p: Pid, unlinked: bool)
    requires Inv(s)
    ensures Inv(ReapPass(s, p, unlinked))
  {
  }

  lemma StepKeepsInv(s: State, e: Event)
    requires Inv(s) && Prompt(s, e)
    ensures Inv(Step(s, e))
  {
    if e.Reap? {
      ReapKeepsInv(s, e.p, e.unlinked);
    } else if ByCaller(e) && e.c in s.callers {
      CallerKeepsInv(s, e.c, e);
    }
  }

  lemma {:induction false} InvHolds(now: int, alive: set<Pid>, es: seq<Event>)
    requires PromptRun(Start(now, alive), es)
    ensures Inv(After(Start(now, alive), es))
  {
    if es != [] {
      var n := |es| - 1;
      forall i | 0 <= i < n ensures es[..n][..i] == es[..i] {}
      InvHolds(now, alive, es[..n]);
      StepKeepsInv(After(Start(now, alive), es[..n]), es[n]);
    }
  }

  /** In every run at most one live caller is inside the critical section, the file at the path is its
      own, and no caller of a process that has the path in its unreleased set is inside. */
  lemma MutualExclusion(now: int, alive: set<Pid>, es: seq<Event>, c: Caller, d: Caller)
    requires PromptRun(Start(now, alive), es)
    requires var s := After(Start(now, alive), es); c in s.callers && s.callers[c] == Holding
    ensures var s := After(Start(now, alive), es);
      && (d in s.callers && s.callers[d] == Holding ==> d == c)
      && s.file.Some? && s.file.value.pid == Some(c.pid)
      && c.pid in s.alive && c.pid !in s.unreleased
  {
    InvHolds(now, alive, es);
  }

  /** The file of a live process leaves the path, or loses that process's pid, only by a step of the
      process itself: its own release or failed acquisition, or its own pass over a lock it had failed
      to release, when none of its callers is inside. */
  lemma OnlyTheOwnerRemovesItsFile(s: State, e: Event, p: Pid)
    requires Inv(s) && s.file.Some? && s.file.value.pid == Some(p) && p in s.alive
    requires Step(s, e).file.None? || Step(s, e).file.value.pid != Some(p)
    ensures || ((e.Release? || e.FailClose?) && e.c.pid == p)
            || (e == Reap(p, true) && p in s.unreleased && forall c :: c in s.callers ==> !Owns(s.callers[c]))
  {
    if ByCaller(e) && e.c in s.callers { CallerTakesOwnFile(s, e.c, e, p); }
  }

  lemma CallerTakesOwnFile(s: State, c: Caller, e: Event, p: Pid)
    requires Inv(s) && c in s.callers && s.file.Some? && s.file.value.pid == Some(p)
    requires CallerStep(s, c, e).file.None? || CallerStep(s, c, e).file.value.pid != Some(p)
    ensures (e.Release? || e.FailClose?) && c.pid == p
  {
  }

  /** The file stays although no call is using it: its process has died, or died before writing a pid,
      or failed to release it. */
  predicate Abandoned(s: State) {
    s.file.Some? && forall c :: c in s.callers ==> s.callers[c].Released?
  }

  /** An abandoned lock does not block the path.  The process that failed to release it, or any live
      process if its owner is dead or unknown, frees the path with two passes: the first after the TTL,
      the second a second later. */
  lemma AbandonedLockIsFreed(s: State, p: Pid)
    requires Inv(s) && Abandoned(s) && p in s.alive
    requires s.file.value.pid.Some? && s.file.value.pid.value in s.alive ==> s.file.value.pid == Some(p) && p in s.unreleased
    ensures var t := Step(Step(s, Tick(LOCK_TTL_MS + 1)), Reap(p, true));
      var u := Step(Step(t, Tick(ZERO_BYTE_MS + 1)), Reap(p, true));
      && u.file.None? && u.callers == s.callers && p !in u.unreleased
      && PromptRun(s, [Tick(LOCK_TTL_MS + 1), Reap(p, true), Tick(ZERO_BYTE_MS + 1), Reap(p, true)])
  {
    var s1 := Step(s, Tick(LOCK_TTL_MS + 1));
    var t := Step(s1, Reap(p, true));
    assert t.callers == s.callers && t.alive == s.alive && p !in t.unreleased;
    assert t.file.None? || (t.file.value.pid.None? && t.file.value.mtime <= t.now);
    var es := [Tick(LOCK_TTL_MS + 1), Reap(p, true), Tick(ZERO_BYTE_MS + 1), Reap(p, true)];
    forall i | 0 <= i < |es| ensures After(s, es[..i]).callers == s.callers { NoCallerMoves(s, es, i); }
  }

  lemma {:induction false} NoCallerMoves(s: State, es: seq<Event>, i: nat)
    requires i <= |es| && forall k :: 0 <= k < |es| ==> es[k].Tick? || es[k].Reap?
    ensures After(s, es[..i]).callers == s.callers
  {
    if i > 0 {
      NoCallerMoves(s, es, i - 1);
      assert es[..i][..i - 1] == es[..i - 1] && es[..i][i - 1] == es[i - 1];
    }
  }

  /** What a stale-lock pass of a live process does to the file, exactly: it removes one its process failed to
      release, and an empty one older than a second; it empties one whose owner is dead and which has not been
      refreshed for thirty seconds; it leaves any other, and it cannot remove where unlinking fails. */
  lemma ReapExactly(s: State, p: Pid, unlinked: bool)
    requires p in s.alive
    ensures var u := Step(s, Reap(p, unlinked));
      && u.callers == s.callers && u.alive == s.alive && u.now == s.now
      && (s.file.None? ==> u.file.None?)
      && (s.file.Some? ==>
            var f := s.file.value;
            && (u.file.None? <==> unlinked && if p in s.unreleased then f.pid == Some(p)
                                              else f.pid.None? && s.now - f.mtime > 1_000)
            && (u.file.Some? ==> u.file == s.file
                                 || (p !in s.unreleased && f.pid.Some? && f.pid.value !in s.alive && s.now - f.mtime > 30_000))
            && (p !in s.unreleased && f.pid.Some? && f.pid.value !in s.alive && s.now - f.mtime > 30_000
                ==> u.file == Some(File(None, s.now, f.inode))))
      && u.unreleased == if p in s.unreleased && (s.file.None? || s.file.value.pid != Some(p) || unlinked)
                         then s.unreleased - {p} else s.unreleased
  {
  }

  /** A heartbeat refreshes the file, and nothing else. */
  lemma BeatRefreshes(s: State, c: Caller)
    requires c in s.callers && s.callers[c] == Holding && s.file.Some?
    ensures Step(s, Beat(c)) == s.(file := Some(File(s.file.value.pid, s.now, s.file.value.inode)))
  {
  }

  // ---- The assumption is needed ----------------------------------------------------------------

  /** Whenever a caller dawdles between creating the file and writing its pid, for any time that is not
      prompt: another process unlinks the empty file, a third caller acquires the path, and both end up
      inside. */
  lemma LatePidBreaksExclusion(s: State, c: Caller, ms: nat, q: Pid, d: Caller)
    requires Inv(s) && c in s.callers && s.callers[c].Created? && q in s.alive
    requires s.now + ms - s.callers[c].at > ZERO_BYTE_MS
    requires d !in s.callers && d.pid in s.alive
    ensures !Prompt(s, Tick(ms))
    ensures var t := Intrusion(s, c, ms, q, d);
      c in t.callers && d in t.callers && t.callers[c] == Holding && t.callers[d] == Holding && c != d
  {
    var s1 := Step(Step(s, Tick(ms)), Reap(q, true));
    var inode := s.file.value.inode;
    assert s1.file.None? && s1.callers == s.callers;
    var s2 := Step(s1, Create(d));
    assert s2.callers[c] == s.callers[c] && s2.callers[d] == Created(s1.now, s.inodes);
    var s3 := Step(Step(s2, WritePid(d)), Close(d));
    assert s3.callers[d] == Holding && s3.callers[c] == s.callers[c];
    var s4 := Step(Step(s3, WritePid(c)), Close(c));
    assert s4.callers[c] == Holding && s4.callers[d] == Holding;
  }

  function Intrusion(s: State, c: Caller, ms: nat, q: Pid, d: Caller): State {
    var s1 := Step(Step(s, Tick(ms)), Reap(q, true));
    var s2 := Step(Step(Step(s1, Create(d)), WritePid(d)), Close(d));
    Step(Step(s2, WritePid(c)), Close(c))
  }
}
