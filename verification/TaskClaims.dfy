/** Claiming, updating and reaping tasks: one task file per task, read one at a time, written under a
    lock per task; claiming runs under a team-wide mutex.  A run is any interleaving of single steps. */
module TaskClaims {
  import opened Options

  type Id = nat
  type Name = string

  datatype Status = Pending | Claimed | InProgress | Completed | Deleted

  /** `claim` numbers the claims; it identifies the claim a task is under and is not stored. */
  datatype Task = Task(status: Status, owner: Option<Name>, blockedBy: set<Id>, claimedAt: Option<int>, claim: nat)

  predicate Active(t: Task) {
    t.status == Claimed || t.status == InProgress
  }

  predicate ActiveBy(t: Task, o: Name) {
    Active(t) && t.owner == Some(o)
  }

  predicate Resolved(t: Task) {
    t.status == Completed || t.status == Deleted
  }

  // ---- One update ----------------------------------------------------------------------------

  /** A patched field is left alone or overwritten, possibly with `undefined` (`Put(None)`). */
  datatype Field<+T> = Keep | Put(value: T)

  datatype Patch = Patch(
    status: Option<Status>, owner: Field<Option<Name>>, blockedBy: Field<set<Id>>, claimedAt: Field<Option<int>>)

  datatype Condition = Condition(owner: Option<Name>, status: Option<Status>, claimedAt: Option<int>)

  /** No condition. */
  const ANY := Condition(None, None, None)

  datatype Outcome = WrongOwner | WrongStatus | WrongClaimedAt | Revives | NeedsOwner | Updated(task: Task)

  function Or<T>(f: Field<T>, t: T): T {
    if f.Put? then f.value else t
  }

  /** The read-modify-write of one update, under the task's update lock. */
  function UpdateTask(t: Task, p: Patch, e: Condition): Outcome {
    var changes := p.status.Some? && p.status.value != t.status;
    if e.owner.Some? && t.owner != e.owner then WrongOwner
    else if e.status.Some? && t.status != e.status.value then WrongStatus
    else if e.claimedAt.Some? && t.claimedAt != e.claimedAt then WrongClaimedAt
    else if changes && (t.status == Deleted
                        || (t.status == Completed && p.status.value in {Pending, Claimed, InProgress})) then Revives
    else if changes && p.status.value == InProgress && t.status != Claimed && Or(p.owner, None).None? then NeedsOwner
    else Updated(Task(if p.status.Some? then p.status.value else t.status,
                      Or(p.owner, t.owner), Or(p.blockedBy, t.blockedBy), Or(p.claimedAt, t.claimedAt), t.claim))
  }

  // ---- When an update is accepted ----------------------------------------------------------------

  /** The task is as the update expects it. */
  predicate Meets(t: Task, x: Condition) {
    && (x.owner.Some? ==> t.owner == x.owner)
    && (x.status.Some? ==> Some(t.status) == x.status)
    && (x.claimedAt.Some? ==> t.claimedAt == x.claimedAt)
  }

  /** The transitions of a status: a deleted task stays deleted, a completed one can only be deleted, and work
      starts on a claimed task or with an owner named. */
  predicate MayBecome(t: Task, p: Patch) {
    p.status.None? || p.status.value == t.status
    || match t.status
       case Deleted => false
       case Completed => p.status.value == Deleted
       case Claimed => true
       case _ => p.status.value != InProgress || (p.owner.Put? && p.owner.value.Some?)
  }

  /** `u` is `t` with the patched fields overwritten. */
  predicate Overwritten(t: Task, p: Patch, u: Task) {
    && (if p.status.Some? then Some(u.status) == p.status else u.status == t.status)
    && (if p.owner.Put? then u.owner == p.owner.value else u.owner == t.owner)
    && (if p.blockedBy.Put? then u.blockedBy == p.blockedBy.value else u.blockedBy == t.blockedBy)
    && (if p.claimedAt.Put? then u.claimedAt == p.claimedAt.value else u.claimedAt == t.claimedAt)
    && u.claim == t.claim
  }

  /** The answer to an update: which expectation failed first, or which transition is refused, or the task
      with every patched field overwritten. */
  predicate Answers(t: Task, p: Patch, x: Condition, r: Outcome) {
    && (r.Updated? <==> Meets(t, x) && MayBecome(t, p))
    && (r.Updated? ==> Overwritten(t, p, r.task))
    && (r == WrongOwner <==> x.owner.Some? && t.owner != x.owner)
    && (r == WrongStatus <==> Meets(t, Condition(x.owner, None, None)) && x.status.Some? && x.status != Some(t.status))
    && (r == WrongClaimedAt <==>
          Meets(t, Condition(x.owner, x.status, None)) && x.claimedAt.Some? && t.claimedAt != x.claimedAt)
    && (r == Revives <==> Meets(t, x) && !MayBecome(t, p) && Resolved(t))
    && (r == NeedsOwner <==> Meets(t, x) && !MayBecome(t, p) && !Resolved(t))
  }

  lemma UpdateExactly(t: Task, p: Patch, x: Condition)
    ensures Answers(t, p, x, UpdateTask(t, p, x))
  {
  }

  /** An update that does not mark a task claimed, sets no claim time, and names no owner but the one it
      requires the task to have (and then does not start work on it).  All updates are of this kind
      but the claim's own and the renaming of a member. */
  predicate Ordinary(p: Patch, e: Condition) {
    && p.status != Some(Claimed) && Or(p.claimedAt, None).None?
    && (Or(p.owner, None).None? || (Or(p.owner, None) == e.owner && p.status != Some(InProgress)))
  }

  /** Resolved status is absorbing, for every patch. */
  lemma ResolvedIsAbsorbing(t: Task, p: Patch, e: Condition)
    requires Resolved(t) && UpdateTask(t, p, e).Updated?
    ensures Resolved(UpdateTask(t, p, e).task)
  {
  }

  /** An ordinary update makes no task active and gives no active task away. */
  lemma OrdinaryNeverActivates(t: Task, p: Patch, e: Condition)
    requires Ordinary(p, e) && UpdateTask(t, p, e).Updated?
    ensures var u := UpdateTask(t, p, e).task;
      && (Active(u) ==> Active(t)) && (u.status == Claimed ==> t.status == Claimed)
      && (Active(u) ==> u.owner == t.owner || u.owner == None)
      && (u.claimedAt == t.claimedAt || u.claimedAt == None) && u.claim == t.claim
  {
  }

  // ---- States and steps ------------------------------------------------------------------------

  const CLAIM_TTL_MS := 30_000

  /** How far a claim has got: scanning the task files for one its owner holds, creating the claim
      lock (again, after removing a stale one), checking the task, checking its blockers, flipping. */
  datatype Phase =
    | Scan(todo: set<Id>, found: bool)
    | Lock
    | Relock
    | CheckPending
    | CheckBlockers(todo: set<Id>, blocked: bool)
    | Flip(claimedAt: int)

  datatype Claim = Claim(task: Id, owner: Name, phase: Phase)

  /** One task in a reaper pass: read, lock freshness tested, found stale. */
  datatype ReapPhase = Seen | Tested(isFresh: bool) | Stale

  datatype Reap = Reap(task: Id, seen: Task, readAt: int, protected: set<Name>, phase: ReapPhase)

  /** `claim` is the holder of the claim mutex; `unlinking` are the tasks whose update has written the
      task file, still holds the update lock and has the claim lock yet to remove. */
  datatype State = State(
    now: int, tasks: map<Id, Task>, locks: map<Id, int>, unlinking: set<Id>,
    claim: Option<Claim>, reaps: map<nat, Reap>, claims: nat)

  datatype Event =
    | Tick(ms: nat)
    | Create(id: Id, blockedBy: set<Id>)
    | Begin(task: Id, owner: Name)
    | ReadTask(id: Id)
    | EndScan
    | TryLock
    | ReadPending
    | ReadBlocker(id: Id)
    | EndBlockers
    | FlipWrite
    | Fail(unlinked: bool)
    | Update(id: Id, patch: Patch, cond: Condition)
    | Unlink(id: Id, ok: bool)
    | ReapRead(r: nat, id: Id, protected: set<Name>)
    | ReapTest(r: nat)
    | ReapDecide(r: nat)
    | ReapWrite(r: nat)
    | ReapStop(r: nat)

  predicate LockFresh(s: State, id: Id) {
    id in s.locks && s.now - s.locks[id] <= CLAIM_TTL_MS
  }

  predicate IsClaimStale(isFresh: bool, claimedAt: int, now: int, ttl: int) {
    !isFresh && now - claimedAt > ttl
  }

  function At(s: State, ph: Phase): State
    requires s.claim.Some?
  {
    s.(claim := Some(s.claim.value.(phase := ph)))
  }

  /** The claim gives up; its lock file is removed or left behind. */
  function GiveUp(s: State, unlink: bool): State {
    s.(claim := None, locks := if unlink && s.claim.Some? then s.locks - {s.claim.value.task} else s.locks)
  }

  predicate ResolvedIn(s: State, id: Id) {
    id in s.tasks && Resolved(s.tasks[id])
  }

  /** One step of the claim holding the mutex. */
  function ClaimStep(s: State, e: Event): State
    requires s.claim.Some?
  {
    var c := s.claim.value;
    match (e, c.phase)
    case (ReadTask(id), Scan(todo, found)) =>
      if id !in todo then s
      else At(s, Scan(todo - {id}, found || (id in s.tasks && ActiveBy(s.tasks[id], c.owner))))
    case (EndScan, Scan(todo, found)) =>
      if todo != {} then s else if found then GiveUp(s, false) else At(s, Lock)
    case (TryLock, Lock) =>
      if c.task !in s.locks then At(s.(locks := s.locks[c.task := s.now]), CheckPending)
      else if LockFresh(s, c.task) then GiveUp(s, false)
      else At(s.(locks := s.locks - {c.task}), Relock)
    case (TryLock, Relock) =>
      if c.task !in s.locks then At(s.(locks := s.locks[c.task := s.now]), CheckPending) else GiveUp(s, false)
    case (ReadPending, CheckPending) =>
      if c.task !in s.tasks || s.tasks[c.task].status != Pending then GiveUp(s, true)
      else At(s, CheckBlockers(s.tasks[c.task].blockedBy, false))
    case (ReadBlocker(id), CheckBlockers(todo, blocked)) =>
      if id !in todo then s else At(s, CheckBlockers(todo - {id}, blocked || !ResolvedIn(s, id)))
    case (EndBlockers, CheckBlockers(todo, blocked)) =>
      if todo != {} then s else if blocked then GiveUp(s, true) else At(s, Flip(s.now))
    case (FlipWrite, Flip(at)) => FlipStep(s, at)
    case (Fail(unlinked), _) => GiveUp(s, unlinked)
    case _ => s
  }

  function ClaimPatch(owner: Name, at: int): Patch {
    Patch(Some(Claimed), Put(Some(owner)), Keep, Put(Some(at)))
  }

  function FlipStep(s: State, at: int): State
    requires s.claim.Some?
  {
    var c := s.claim.value;
    if c.task in s.unlinking then s
    else if c.task !in s.tasks then GiveUp(s, true)
    else
      match UpdateTask(s.tasks[c.task], ClaimPatch(c.owner, at), Condition(None, Some(Pending), None))
      case Updated(t) => s.(tasks := s.tasks[c.task := t.(claim := s.claims + 1)], claims := s.claims + 1, claim := None)
      case _ => GiveUp(s, true)
  }

  /** Write the task file; leaving the claim window, the claim lock is removed in a second step. */
  function Write(s: State, id: Id, p: Patch, x: Condition): State {
    if id !in s.tasks || id in s.unlinking then s
    else
      match UpdateTask(s.tasks[id], p, x)
      case Updated(t) =>
        s.(tasks := s.tasks[id := t],
           unlinking := if p.status.Some? && p.status.value != Claimed then s.unlinking + {id} else s.unlinking)
      case _ => s
  }

  const RESET := Patch(Some(Pending), Put(None), Keep, Put(None))

  /** One step of a reaper. */
  function ReapStep(s: State, e: Event, r: nat): State
    requires r in s.reaps
  {
    var x := s.reaps[r];
    match (e, x.phase)
    case (ReapTest(_), Seen) => s.(reaps := s.reaps[r := x.(phase := Tested(LockFresh(s, x.task)))])
    case (ReapDecide(_), Tested(isFresh)) =>
      if IsClaimStale(isFresh, if x.seen.claimedAt.Some? then x.seen.claimedAt.value else 0, s.now, CLAIM_TTL_MS)
      then s.(reaps := s.reaps[r := x.(phase := Stale)]) else s.(reaps := s.reaps - {r})
    case (ReapWrite(_), Stale) =>
      if x.task in s.unlinking then s
      else Write(s.(reaps := s.reaps - {r}), x.task, RESET, Condition(None, Some(Claimed), x.seen.claimedAt))
    case (ReapStop(_), _) => s.(reaps := s.reaps - {r})
    case _ => s
  }

  /** The state after one event; an event that cannot happen changes nothing. */
  function Step(s: State, e: Event): State {
    match e
    case Tick(d) => s.(now := s.now + d)
    case Create(id, blockedBy) =>
      if id in s.tasks then s else s.(tasks := s.tasks[id := Task(Pending, None, blockedBy, None, 0)])
    case Begin(task, owner) =>
      if s.claim.Some? then s else s.(claim := Some(Claim(task, owner, Scan(s.tasks.Keys, false))))
    case Update(id, p, x) => Write(s, id, p, x)
    case Unlink(id, ok) =>
      if id !in s.unlinking then s
      else s.(unlinking := s.unlinking - {id}, locks := if ok then s.locks - {id} else s.locks)
    case ReapRead(r, id, protected) =>
      if r in s.reaps || id !in s.tasks || s.tasks[id].status != Claimed
         || (if s.tasks[id].owner.Some? then s.tasks[id].owner.value else "") in protected then s
      else s.(reaps := s.reaps[r := Reap(id, s.tasks[id], s.now, protected, Seen)])
    case ReapTest(r) => if r in s.reaps then ReapStep(s, e, r) else s
    case ReapDecide(r) => if r in s.reaps then ReapStep(s, e, r) else s
    case ReapWrite(r) => if r in s.reaps then ReapStep(s, e, r) else s
    case ReapStop(r) => if r in s.reaps then ReapStep(s, e, r) else s
    case _ => if s.claim.Some? then ClaimStep(s, e) else s
  }

  /** The state after a run. */
  function After(s: State, es: seq<Event>): State {
    if es == [] then s else Step(After(s, es[..|es| - 1]), es[|es| - 1])
  }

  function Start(now: int): State {
    State(now, map[], map[], {}, None, map[], 0)
  }

  predicate OrdinaryEvent(e: Event) {
    e.Update? ==> Ordinary(e.patch, e.cond)
  }

  predicate OrdinaryRun(es: seq<Event>) {
    forall i :: 0 <= i < |es| ==> OrdinaryEvent(es[i])
  }

  lemma {:induction false} AfterConcat(s: State, a: seq<Event>, b: seq<Event>)
    ensures After(s, a + b) == After(After(s, a), b)
    decreases |b|
  {
    if b == [] {
      assert a + b == a;
    } else {
      AfterConcat(s, a, b[..|b| - 1]);
      assert (a + b)[..|a + b| - 1] == a + b[..|b| - 1];
    }
  }

  lemma AfterSnoc(s: State, es: seq<Event>, e: Event)
    ensures After(s, es + [e]) == Step(After(s, es), e)
  {
    assert (es + [e])[..|es|] == es;
  }

  /** An update changes exactly its task, if that exists, has a free update lock, is as expected and may make
      the transition; whatever the patch, an update that expects another owner, status or claim changes
      nothing. */
  lemma UpdateStep(s: State, id: Id, p: Patch, x: Condition)
    ensures var u := Step(s, Update(id, p, x)).tasks;
      if id in s.tasks && id !in s.unlinking && Meets(s.tasks[id], x) && MayBecome(s.tasks[id], p)
      then u.Keys == s.tasks.Keys && Overwritten(s.tasks[id], p, u[id])
           && forall j :: j in s.tasks && j != id ==> u[j] == s.tasks[j]
      else u == s.tasks
  {
    if id in s.tasks { UpdateExactly(s.tasks[id], p, x); }
  }

  predicate CompletedIn(s: State, id: Id) {
    id in s.tasks && s.tasks[id].status == Completed
  }

  /** Updates that complete a task come from members, who expect to own it. */
  predicate MembersComplete(es: seq<Event>) {
    forall i :: 0 <= i < |es| && es[i].Update? && es[i].patch.status == Some(Completed) ==> es[i].cond.owner.Some?
  }

  /** A task is completed only by an update of the member who owns it at that moment. */
  lemma CompletedByItsOwner(now: int, es: seq<Event>, k: nat, id: Id)
    requires MembersComplete(es) && k < |es|
    requires !CompletedIn(After(Start(now), es[..k]), id) && CompletedIn(After(Start(now), es[..k + 1]), id)
    ensures var s := After(Start(now), es[..k]);
      es[k].Update? && es[k].id == id && id in s.tasks && s.tasks[id].owner.Some? && s.tasks[id].owner == es[k].cond.owner
  {
    var s, e := After(Start(now), es[..k]), es[k];
    assert es[..k + 1][..k] == es[..k];
    if Quiet(e) {
      QuietStep(s, e);
    } else if e.Update? {
      UpdateStep(s, e.id, e.patch, e.cond);
    } else if e.ReapWrite? {
      WritingStep(s, e);
      var t := TargetOf(s, e);
      if t.Target? && t.id in s.tasks { UpdateExactly(s.tasks[t.id], t.patch, t.cond); }
    } else {
      ClaimCompletesNothing(s, e, id);
    }
  }

  /** Creating a task and claiming one complete none. */
  lemma ClaimCompletesNothing(s: State, e: Event, id: Id)
    requires !Quiet(e) && !e.Update? && !e.ReapWrite? && !CompletedIn(s, id)
    ensures !CompletedIn(Step(s, e), id)
  {
    if s.claim.Some? && s.claim.value.phase.Flip? { FlipExactly(s); }
  }

  /** A claim has passed its pending check on `id`. */
  predicate InWindow(s: State, id: Id) {
    && s.claim.Some? && s.claim.value.task == id
    && (s.claim.value.phase.CheckBlockers? || s.claim.value.phase.Flip?)
  }

  /** A task in the claim window exists and is not active. */
  predicate WindowNotActive(s: State) {
    s.claim.Some? && InWindow(s, s.claim.value.task)
    ==> s.claim.value.task in s.tasks && !Active(s.tasks[s.claim.value.task])
  }

  /** Writing a task that is still pending makes it the claimer's. */
  lemma FlipOfPending(s: State, at: int)
    requires s.claim.Some? && s.claim.value.phase == Flip(at)
    requires var i := s.claim.value.task; i in s.tasks && i !in s.unlinking && s.tasks[i].status == Pending
    ensures var c := s.claim.value;
      Step(s, FlipWrite) == s.(
        claim := None, claims := s.claims + 1,
        tasks := s.tasks[c.task := Task(Claimed, Some(c.owner), s.tasks[c.task].blockedBy, Some(at), s.claims + 1)])
  {
    assert Step(s, FlipWrite) == FlipStep(s, at);
  }

  /** The write of a claim, in every case: it waits for the update lock; it takes a task that exists and is
      pending, and no other task changes; else it gives up, removes its lock file and changes no task. */
  lemma FlipExactly(s: State)
    requires s.claim.Some? && s.claim.value.phase.Flip?
    ensures var c, t := s.claim.value, Step(s, FlipWrite);
      if c.task in s.unlinking then t == s
      else if c.task in s.tasks && s.tasks[c.task].status == Pending then
        t.claim == None && t.claims == s.claims + 1
        && t.tasks == s.tasks[c.task := Task(Claimed, Some(c.owner), s.tasks[c.task].blockedBy, Some(c.phase.claimedAt), t.claims)]
      else t == s.(claim := None, locks := s.locks - {c.task})
  {
    var c := s.claim.value;
    if c.task in s.tasks && c.task !in s.unlinking && s.tasks[c.task].status == Pending {
      FlipOfPending(s, c.phase.claimedAt);
    }
  }

  // ---- One active task per member --------------------------------------------------------------

  predicate OneActiveTask(s: State) {
    forall i, j | i in s.tasks && j in s.tasks && Active(s.tasks[i]) && Active(s.tasks[j]) && i != j ::
      s.tasks[i].owner.None? || s.tasks[i].owner != s.tasks[j].owner
  }

  /** What the scan has established: no task read so far is held by the claiming member. */
  predicate ScanHolds(s: State) {
    s.claim.Some? ==>
      var c := s.claim.value;
      match c.phase
      case Scan(todo, found) =>
        !found ==> forall i :: i in s.tasks && i !in todo ==> !ActiveBy(s.tasks[i], c.owner)
      case _ => forall i :: i in s.tasks ==> !ActiveBy(s.tasks[i], c.owner)
  }

  /** The tasks of `s` become those of `u` without any task becoming active for anyone. */
  predicate Deactivates(s: State, u: State) {
    forall i, o | i in u.tasks && o == u.tasks[i].owner && o.Some? && Active(u.tasks[i]) ::
      i in s.tasks && ActiveBy(s.tasks[i], o.value)
  }

  /** The steps that write no task file and leave the claim alone. */
  predicate Quiet(e: Event) {
    e.Tick? || e.Unlink? || e.ReapRead? || e.ReapTest? || e.ReapDecide? || e.ReapStop?
  }

  lemma QuietStep(s: State, e: Event)
    requires Quiet(e)
    ensures Step(s, e).tasks == s.tasks && Step(s, e).claim == s.claim && Step(s, e).claims == s.claims
  {
  }

  /** The task file a step writes, the patch it writes there, and its conditions. */
  datatype Target = Nothing | Target(id: Id, patch: Patch, cond: Condition)

  function TargetOf(s: State, e: Event): Target {
    match e
    case Update(id, p, x) => Target(id, p, x)
    case ReapWrite(r) =>
      if r in s.reaps && s.reaps[r].phase == Stale
      then Target(s.reaps[r].task, RESET, Condition(None, Some(Claimed), s.reaps[r].seen.claimedAt)) else Nothing
    case _ => Nothing
  }

  predicate Writes(s: State, e: Event) {
    var t := TargetOf(s, e);
    t.Target? && t.id in s.tasks && t.id !in s.unlinking && UpdateTask(s.tasks[t.id], t.patch, t.cond).Updated?
  }

  lemma WritingStep(s: State, e: Event)
    requires e.Update? || e.ReapWrite?
    ensures var u, t := Step(s, e), TargetOf(s, e);
      && u.claim == s.claim && u.claims == s.claims && u.now == s.now
      && u.tasks == (if Writes(s, e) then s.tasks[t.id := UpdateTask(s.tasks[t.id], t.patch, t.cond).task] else s.tasks)
      && (OrdinaryEvent(e) && t.Target? ==> Ordinary(t.patch, t.cond))
  {
  }

  lemma WritingDeactivates(s: State, e: Event)
    requires (e.Update? || e.ReapWrite?) && OrdinaryEvent(e)
    ensures Deactivates(s, Step(s, e)) && Step(s, e).claim == s.claim
  {
    WritingStep(s, e);
    if Writes(s, e) {
      var t := TargetOf(s, e);
      OrdinaryNeverActivates(s.tasks[t.id], t.patch, t.cond);
    }
  }

  lemma DeactivatingKeepsOneActive(s: State, u: State)
    requires OneActiveTask(s) && ScanHolds(s) && Deactivates(s, u)
    requires u.claim == s.claim || u.claim.None?
    ensures OneActiveTask(u) && ScanHolds(u)
  {
    if u.claim.Some? {
      var c := u.claim.value;
      forall i | i in u.tasks && ActiveBy(u.tasks[i], c.owner) ensures i in s.tasks && ActiveBy(s.tasks[i], c.owner) {}
    }
  }

  lemma FlipKeepsOneActive(s: State, at: int)
    requires OneActiveTask(s) && ScanHolds(s) && s.claim.Some? && s.claim.value.phase == Flip(at)
    ensures OneActiveTask(FlipStep(s, at)) && ScanHolds(FlipStep(s, at))
  {
  }

  lemma ClaimKeepsOneActive(s: State, e: Event)
    requires OneActiveTask(s) && ScanHolds(s) && s.claim.Some?
    ensures OneActiveTask(ClaimStep(s, e)) && ScanHolds(ClaimStep(s, e))
  {
    var c, u := s.claim.value, ClaimStep(s, e);
    if e.FlipWrite? && c.phase.Flip? {
      FlipKeepsOneActive(s, c.phase.claimedAt);
    } else {
      assert u.tasks == s.tasks;
      if e.ReadTask? && c.phase.Scan? {
        assert u.claim.value.phase.Scan?;
      }
    }
  }

  lemma OneActiveStep(s: State, e: Event)
    requires OneActiveTask(s) && ScanHolds(s) && OrdinaryEvent(e)
    ensures OneActiveTask(Step(s, e)) && ScanHolds(Step(s, e))
  {
    if Quiet(e) {
      QuietStep(s, e);
    } else if e.Update? || e.ReapWrite? {
      WritingDeactivates(s, e);
      DeactivatingKeepsOneActive(s, Step(s, e));
    } else if e.Create? {
      DeactivatingKeepsOneActive(s, Step(s, e));
    } else if e.Begin? {
      assert Step(s, e).tasks == s.tasks;
    } else if s.claim.Some? {
      ClaimKeepsOneActive(s, e);
    }
  }

  /** In every reachable state a member holds at most one claimed or in-progress task. */
  lemma {:induction false} AtMostOneActiveTask(now: int, es: seq<Event>)
    requires OrdinaryRun(es)
    ensures OneActiveTask(After(Start(now), es)) && ScanHolds(After(Start(now), es))
  {
    if es != [] {
      AtMostOneActiveTask(now, es[..|es| - 1]);
      OneActiveStep(After(Start(now), es[..|es| - 1]), es[|es| - 1]);
    }
  }

  // ---- Runs with known ends --------------------------------------------------------------------

  /** A run from `s` that ends in `t`. */
  predicate Leads(s: State, es: seq<Event>, t: State) {
    OrdinaryRun(es) && After(s, es) == t
  }

  lemma Extend(s: State, es: seq<Event>, t: State, e: Event) returns (longer: seq<Event>)
    requires Leads(s, es, t) && OrdinaryEvent(e)
    ensures Leads(s, longer, Step(t, e))
  {
    AfterSnoc(s, es, e);
    longer := es + [e];
  }

  lemma Join(s: State, a: seq<Event>, t: State, b: seq<Event>, u: State) returns (es: seq<Event>)
    requires Leads(s, a, t) && Leads(t, b, u)
    ensures Leads(s, es, u)
  {
    AfterConcat(s, a, b);
    es := a + b;
  }

  /** A scan over tasks none of which the owner holds finds nothing. */
  lemma ScanFindsNothing(s: State) returns (es: seq<Event>)
    requires s.claim.Some? && s.claim.value.phase.Scan? && !s.claim.value.phase.found
    requires HoldsNothing(s, s.claim.value.owner)
    ensures Leads(s, es, At(s, Scan({}, false)))
    decreases s.claim.value.phase.todo
  {
    var todo := s.claim.value.phase.todo;
    if todo == {} { return []; }
    var i :| i in todo;
    var t := At(s, Scan(todo - {i}, false));
    es := Extend(s, [], s, ReadTask(i));
    assert Step(s, ReadTask(i)) == t;
    var rest := ScanFindsNothing(t);
    es := Join(s, es, t, rest, At(s, Scan({}, false)));
  }

  predicate HoldsNothing(s: State, o: Name) {
    forall i :: i in s.tasks ==> !ActiveBy(s.tasks[i], o)
  }

  /** An uncontended claim of a member who holds nothing takes the mutex and scans... */
  lemma ClaimScans(s: State, i: Id, o: Name) returns (es: seq<Event>)
    requires s.claim.None? && HoldsNothing(s, o)
    ensures Leads(s, es, s.(claim := Some(Claim(i, o, Lock))))
  {
    var s1 := s.(claim := Some(Claim(i, o, Scan(s.tasks.Keys, false))));
    es := Extend(s, [], s, Begin(i, o));
    var scan := ScanFindsNothing(s1);
    es := Join(s, es, s1, scan, At(s1, Scan({}, false)));
    es := Extend(s, es, At(s1, Scan({}, false)), EndScan);
  }

  /** ... creates the claim lock, checks the task and has no blockers to read... */
  lemma ClaimChecks(s: State, i: Id, o: Name) returns (es: seq<Event>)
    requires s.claim == Some(Claim(i, o, Lock)) && i in s.tasks && i !in s.locks
    requires s.tasks[i].status == Pending && s.tasks[i].blockedBy == {}
    ensures Leads(s, es, s.(claim := Some(Claim(i, o, Flip(s.now))), locks := s.locks[i := s.now]))
  {
    var s1 := s.(claim := Some(Claim(i, o, CheckPending)), locks := s.locks[i := s.now]);
    es := Extend(s, [], s, TryLock);
    es := Extend(s, es, s1, ReadPending);
    es := Extend(s, es, At(s1, CheckBlockers({}, false)), EndBlockers);
  }

  /** ... and writes it. */
  lemma ClaimSucceeds(s: State, i: Id, o: Name) returns (es: seq<Event>)
    requires s.claim.None? && HoldsNothing(s, o) && i in s.tasks && i !in s.locks && i !in s.unlinking
    requires s.tasks[i].status == Pending && s.tasks[i].blockedBy == {}
    ensures Leads(s, es, s.(tasks := s.tasks[i := Task(Claimed, Some(o), {}, Some(s.now), s.claims + 1)],
                            locks := s.locks[i := s.now], claims := s.claims + 1))
  {
    var s1 := s.(claim := Some(Claim(i, o, Lock)));
    var s2 := s.(claim := Some(Claim(i, o, Flip(s.now))), locks := s.locks[i := s.now]);
    var a := ClaimScans(s, i, o);
    var b := ClaimChecks(s1, i, o);
    es := Join(s, a, s1, b, s2);
    FlipOfPending(s2, s.now);
    es := Extend(s, es, s2, FlipWrite);
  }
}
