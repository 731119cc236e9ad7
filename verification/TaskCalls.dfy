/** Claiming a task as it runs: the scan of the task files, the claim lock, the unlocked checks and the
    final write, with updates, reapers and the clock acting at every point where the call waits.
    Every execution is a run of TaskClaims. */
module TaskCalls {
  import opened TaskClaims
  import opened Options

  datatype ClaimResult = Won | MemberHoldsActiveTask | AlreadyClaimed | BlockedBy | Threw

  /** What other calls may do while this one holds the claim mutex. */
  predicate Foreign(e: Event) {
    e.Tick? || e.Create? || e.Update? || e.Unlink? || e.ReapRead? || e.ReapTest? || e.ReapDecide? || e.ReapWrite? || e.ReapStop?
  }

  predicate AllForeign(es: seq<Event>) {
    forall i :: 0 <= i < |es| ==> Foreign(es[i])
  }

  /** What others do during the waits of a claim: before each file of the scan, before the claim lock is
      tried and tried again, before the task is checked, before each blocker is read and after the last,
      and while the claim waits for the update lock; and which reads fail. */
  datatype World = World(
    scan: nat -> seq<Event>, lock: seq<Event>, relock: seq<Event>, check: seq<Event>,
    blockers: nat -> seq<Event>, write: seq<Event>,
    scanFails: nat -> bool, blockersFail: nat -> bool)

  ghost predicate Interferes(w: World) {
    && (forall k: nat :: AllForeign(w.scan(k))) && (forall k: nat :: AllForeign(w.blockers(k)))
    && AllForeign(w.lock) && AllForeign(w.relock) && AllForeign(w.check) && AllForeign(w.write)
  }

  /** Nobody else acts, and every file can be read. */
  ghost predicate Calm(w: World) {
    && (forall k: nat :: w.scan(k) == [] && !w.scanFails(k)) && (forall k: nat :: w.blockers(k) == [] && !w.blockersFail(k))
    && w.lock == [] && w.relock == [] && w.check == [] && w.write == []
  }

  lemma ForeignLeavesClaim(s: State, e: Event)
    requires Foreign(e)
    ensures Step(s, e).claim == s.claim && Step(s, e).claims == s.claims
  {
    if e.Update? || e.ReapWrite? { WritingStep(s, e); } else if !e.Create? { QuietStep(s, e); }
  }

  lemma {:induction false} ForeignersLeaveClaim(s: State, es: seq<Event>)
    requires AllForeign(es)
    ensures After(s, es).claim == s.claim && After(s, es).claims == s.claims
  {
    if es != [] {
      ForeignersLeaveClaim(s, es[..|es| - 1]);
      ForeignLeavesClaim(After(s, es[..|es| - 1]), es[|es| - 1]);
    }
  }

  // ---- The effect of each step of a claim ----------------------------------------------------------

  /** The step takes the claim to phase `ph`. */
  predicate Moves(s: State, e: Event, ph: Phase) {
    s.claim.Some? && Step(s, e).claim == Some(s.claim.value.(phase := ph)) && Step(s, e).claims == s.claims
  }

  /** The step ends the claim without success. */
  predicate Ends(s: State, e: Event) {
    Step(s, e).claim == None && Step(s, e).claims == s.claims && Step(s, e).tasks == s.tasks
  }

  predicate In(s: State, ph: Phase) {
    s.claim.Some? && s.claim.value.phase == ph
  }

  /** The clock and the files a claim looks at are the same. */
  predicate Still(s: State, t: State) {
    t.tasks == s.tasks && t.unlinking == s.unlinking && t.now == s.now
  }

  lemma BeginMoves(s: State, task: Id, owner: Name)
    requires s.claim.None?
    ensures Step(s, Begin(task, owner)).claim == Some(Claim(task, owner, Scan(s.tasks.Keys, false)))
         && Step(s, Begin(task, owner)).claims == s.claims
    ensures Still(s, Step(s, Begin(task, owner))) && Step(s, Begin(task, owner)).locks == s.locks
  {
  }

  lemma ReadMoves(s: State, id: Id, todo: set<Id>, found: bool)
    requires In(s, Scan(todo, found)) && id in todo
    ensures Moves(s, ReadTask(id), Scan(todo - {id}, found || (id in s.tasks && ActiveBy(s.tasks[id], s.claim.value.owner))))
    ensures Still(s, Step(s, ReadTask(id))) && Step(s, ReadTask(id)).locks == s.locks
  {
  }

  lemma EndScanMoves(s: State, found: bool)
    requires In(s, Scan({}, found))
    ensures if found then Ends(s, EndScan) else Moves(s, EndScan, Lock)
    ensures Still(s, Step(s, EndScan)) && Step(s, EndScan).locks == s.locks
  {
  }

  lemma TryLockMoves(s: State)
    requires In(s, Lock) || In(s, Relock)
    ensures s.claim.value.task !in s.locks ==>
      Step(s, TryLock).locks == s.locks[s.claim.value.task := s.now]
    ensures Still(s, Step(s, TryLock))
    ensures In(s, Lock) && s.claim.value.task in s.locks && !LockFresh(s, s.claim.value.task) ==>
      Step(s, TryLock).locks == s.locks - {s.claim.value.task}
    ensures if s.claim.value.task !in s.locks then Moves(s, TryLock, CheckPending)
            else if In(s, Lock) && !LockFresh(s, s.claim.value.task) then Moves(s, TryLock, Relock)
            else Ends(s, TryLock)
  {
  }

  lemma ReadPendingMoves(s: State)
    requires In(s, CheckPending)
    ensures var i := s.claim.value.task;
      if i in s.tasks && s.tasks[i].status == Pending
      then Moves(s, ReadPending, CheckBlockers(s.tasks[i].blockedBy, false)) else Ends(s, ReadPending)
    ensures Still(s, Step(s, ReadPending))
  {
  }

  lemma ReadBlockerMoves(s: State, id: Id, todo: set<Id>, blocked: bool)
    requires In(s, CheckBlockers(todo, blocked)) && id in todo
    ensures Moves(s, ReadBlocker(id), CheckBlockers(todo - {id}, blocked || !ResolvedIn(s, id)))
    ensures Still(s, Step(s, ReadBlocker(id)))
  {
  }

  lemma EndBlockersMoves(s: State, blocked: bool)
    requires In(s, CheckBlockers({}, blocked))
    ensures if blocked then Ends(s, EndBlockers) else Moves(s, EndBlockers, Flip(s.now))
    ensures blocked ==> s.claim.value.task !in Step(s, EndBlockers).locks
    ensures Still(s, Step(s, EndBlockers))
  {
  }

  lemma FlipMoves(s: State, at: int)
    requires In(s, Flip(at)) && s.claim.value.task !in s.unlinking
    ensures var c, t := s.claim.value, Step(s, FlipWrite);
      if c.task in s.tasks && s.tasks[c.task].status == Pending
      then t.claim.None? && t.claims == s.claims + 1
           && t.tasks == s.tasks[c.task := Task(Claimed, Some(c.owner), s.tasks[c.task].blockedBy, Some(at), t.claims)]
      else Ends(s, FlipWrite)
  {
    if s.claim.value.task in s.tasks && s.tasks[s.claim.value.task].status == Pending { FlipOfPending(s, at); }
  }

  lemma FailMoves(s: State, unlinked: bool)
    requires s.claim.Some?
    ensures Ends(s, Fail(unlinked))
  {
  }

  // ---- What a scan has read ----------------------------------------------------------------------

  /** The task file of `id`, if there is one. */
  function FileOf(s: State, id: Id): Option<Task> {
    if id in s.tasks then Some(s.tasks[id]) else None
  }

  predicate HeldBy(t: Option<Task>, o: Name) {
    t.Some? && ActiveBy(t.value, o)
  }

  predicate Pends(s: State, id: Id) {
    id in s.tasks && s.tasks[id].status == Pending
  }

  /** The owner has a task it works on. */
  predicate HoldsOne(s: State, o: Name) {
    exists i :: i in s.tasks && ActiveBy(s.tasks[i], o)
  }

  /** A blocker of the task is missing or unresolved. */
  predicate HasBlocker(s: State, id: Id)
    requires id in s.tasks
  {
    exists b :: b in s.tasks[id].blockedBy && (b !in s.tasks || s.tasks[b].status !in {Completed, Deleted})
  }

  lemma SameView(s: State, t: State, id: Id, o: Name)
    requires Still(s, t)
    ensures HoldsOne(t, o) == HoldsOne(s, o) && Pends(t, id) == Pends(s, id)
    ensures id in s.tasks ==> HasBlocker(t, id) == HasBlocker(s, id)
    ensures t.locks == s.locks ==> LockFresh(t, id) == LockFresh(s, id)
  {
  }

  lemma SeenHeld(s: State, seen: map<Id, Option<Task>>, o: Name)
    requires seen.Keys == s.tasks.Keys && forall id :: id in seen ==> seen[id] == FileOf(s, id)
    ensures AnyHeld(seen, o) <==> HoldsOne(s, o)
  {
    forall i | i in s.tasks ensures i in seen && (HeldBy(seen[i], o) <==> ActiveBy(s.tasks[i], o)) {}
  }

  lemma SeenBlockers(s: State, seen: map<Id, Option<Task>>, id: Id)
    requires id in s.tasks && seen.Keys == s.tasks[id].blockedBy && forall b :: b in seen ==> seen[b] == FileOf(s, b)
    ensures AnyBlocks(seen) <==> HasBlocker(s, id)
  {
    forall b | b in s.tasks[id].blockedBy
      ensures b in seen && (Blocks(seen[b]) <==> b !in s.tasks || s.tasks[b].status !in {Completed, Deleted}) {}
  }

  /** A missing blocker blocks. */
  predicate Blocks(t: Option<Task>) {
    t.None? || !Resolved(t.value)
  }

  /** After `k` events of the run the file of `id` was `t`. */
  predicate ReadAt(began: int, run: seq<Event>, k: nat, id: Id, t: Option<Task>) {
    k <= |run| && FileOf(After(TaskClaims.Start(began), run[..k]), id) == t
  }

  /** Each file read had the content seen at some moment since event `from`. */
  ghost predicate AllRead(began: int, run: seq<Event>, from: nat, seen: map<Id, Option<Task>>) {
    forall id :: id in seen ==> exists k: nat :: from <= k && ReadAt(began, run, k, id, seen[id])
  }

  predicate AnyHeld(seen: map<Id, Option<Task>>, o: Name) {
    exists id :: id in seen && HeldBy(seen[id], o)
  }

  predicate AnyBlocks(seen: map<Id, Option<Task>>) {
    exists id :: id in seen && Blocks(seen[id])
  }

  lemma AnyNext(seen: map<Id, Option<Task>>, id: Id, t: Option<Task>, o: Name)
    requires id !in seen
    ensures AnyHeld(seen[id := t], o) <==> AnyHeld(seen, o) || HeldBy(t, o)
    ensures AnyBlocks(seen[id := t]) <==> AnyBlocks(seen) || Blocks(t)
  {
    var next := seen[id := t];
    assert next[id] == t;
    forall j | j in seen ensures j in next && next[j] == seen[j] {}
  }

  lemma NothingRead(began: int, run: seq<Event>, from: nat, o: Name)
    ensures AllRead(began, run, from, map[]) && !AnyHeld(map[], o) && !AnyBlocks(map[])
  {
  }

  lemma ReadStays(began: int, run: seq<Event>, longer: seq<Event>, from: nat, seen: map<Id, Option<Task>>)
    requires AllRead(began, run, from, seen) && run <= longer
    ensures AllRead(began, longer, from, seen)
  {
    forall id | id in seen ensures exists k: nat :: from <= k && ReadAt(began, longer, k, id, seen[id]) {
      var k: nat :| from <= k && ReadAt(began, run, k, id, seen[id]);
      assert longer[..k] == run[..k];
      assert ReadAt(began, longer, k, id, seen[id]);
    }
  }

  lemma ReadLater(began: int, run: seq<Event>, from: nat, later: nat, seen: map<Id, Option<Task>>)
    requires AllRead(began, run, later, seen) && from <= later
    ensures AllRead(began, run, from, seen)
  {
    forall id | id in seen ensures exists k: nat :: from <= k && ReadAt(began, run, k, id, seen[id]) {
      var k: nat :| later <= k && ReadAt(began, run, k, id, seen[id]);
    }
  }

  /** Reading the file of `id` in the present state. */
  lemma ReadNext(began: int, before: seq<Event>, run: seq<Event>, from: nat, seen: map<Id, Option<Task>>, id: Id, s: State)
    requires AllRead(began, before, from, seen) && before <= run && from <= |before|
    requires s == After(TaskClaims.Start(began), run)
    ensures AllRead(began, run, from, seen) && AllRead(began, run, from, seen[id := FileOf(s, id)])
  {
    ReadStays(began, before, run, from, seen);
    assert run[..|run|] == run;
    assert ReadAt(began, run, |run|, id, FileOf(s, id));
  }

  lemma {:induction false} UnlinkingStays(s: State, es: seq<Event>, id: Id)
    requires id in s.unlinking && forall i :: 0 <= i < |es| ==> !(es[i].Unlink? && es[i].id == id)
    ensures id in After(s, es).unlinking
  {
    if es != [] {
      UnlinkingStays(s, es[..|es| - 1], id);
      UnlinkingStep(After(s, es[..|es| - 1]), es[|es| - 1], id);
    }
  }

  lemma UnlinkingStep(s: State, e: Event, id: Id)
    requires id in s.unlinking && !(e.Unlink? && e.id == id)
    ensures id in Step(s, e).unlinking
  {
  }

  class TaskBoard {
    const began: int
    var s: State
    /** Everything that has happened. */
    ghost var run: seq<Event>

    constructor (began: int)
      ensures Valid() && s == TaskClaims.Start(began) && run == []
    {
      this.began := began;
      s, run := TaskClaims.Start(began), [];
    }

    ghost predicate Valid()
      reads this
    {
      s == After(TaskClaims.Start(began), run)
    }

    method Do(e: Event)
      requires Valid()
      modifies this
      ensures Valid() && s == Step(old(s), e) && run == old(run) + [e]
    {
      AfterSnoc(TaskClaims.Start(began), run, e);
      s := Step(s, e);
      run := run + [e];
    }

    /** A step of the claim whose effect is known. */
    method Move(e: Event, ph: Phase)
      requires Valid() && Moves(s, e, ph)
      modifies this
      ensures Valid() && run == old(run) + [e]
      ensures s.claim == Some(old(s).claim.value.(phase := ph)) && s.claims == old(s).claims && s == Step(old(s), e)
    {
      Do(e);
    }

    method End(e: Event)
      requires Valid() && Ends(s, e)
      modifies this
      ensures Valid() && run == old(run) + [e] && s.claim.None? && s.claims == old(s).claims && s == Step(old(s), e)
    {
      Do(e);
    }

    method Wait(es: seq<Event>)
      requires Valid() && AllForeign(es)
      modifies this
      ensures Valid() && run == old(run) + es && s == After(old(s), es)
      ensures s.claim == old(s).claim && s.claims == old(s).claims
      ensures es == [] ==> s == old(s)
    {
      ForeignersLeaveClaim(s, es);
      AfterConcat(TaskClaims.Start(began), run, es);
      s := After(s, es);
      run := run + es;
    }

    /** Check and assign, and write the file. */
    method WriteTaskFile(id: Id, p: Patch, x: Condition) returns (r: Option<Outcome>)
      requires Valid() && id !in s.unlinking
      modifies this
      ensures Valid() && run == old(run) + [Update(id, p, x)]
      ensures r.Some? <==> id in old(s).tasks
      ensures r.Some? ==> Answers(old(s).tasks[id], p, x, r.value)
      ensures s.tasks == if r.Some? && r.value.Updated? then old(s).tasks[id := r.value.task] else old(s).tasks
      ensures r.Some? && r.value.Updated? && p.status.Some? && p.status.value != Claimed ==> id in s.unlinking
    {
      r := None;
      if id in s.tasks {
        var outcome := ApplyPatch(s.tasks[id], p, x);
        r := Some(outcome);
      }
      WritingStep(s, Update(id, p, x));
      Do(Update(id, p, x));
    }

    /** Update a task whose update lock is free: check and assign, write the file, and when the task leaves
        the claim window remove its claim lock, others acting in between. */
    method UpdateTaskFile(id: Id, p: Patch, x: Condition, others: seq<Event>, unlinkOk: bool) returns (r: Option<Outcome>)
      requires Valid() && id !in s.unlinking
      requires forall i :: 0 <= i < |others| ==> !(others[i].Unlink? && others[i].id == id)
      modifies this
      ensures Valid() && old(run) <= run && |run| > |old(run)|
      ensures r.Some? <==> id in old(s).tasks
      ensures r.Some? ==> Answers(old(s).tasks[id], p, x, r.value)
      ensures var written := After(TaskClaims.Start(began), run[..|old(run)| + 1]).tasks;
        written == if r.Some? && r.value.Updated? then old(s).tasks[id := r.value.task] else old(s).tasks
      ensures r.Some? && r.value.Updated? && p.status.Some? && p.status.value != Claimed
              ==> id !in s.unlinking && (unlinkOk ==> id !in s.locks)
    {
      hide After, Answers;
      r := WriteTaskFile(id, p, x);
      ghost var first := run;
      assert run[..|old(run)| + 1] == run;
      if r.Some? && r.value.Updated? && p.status.Some? && p.status.value != Claimed {
        UnlinkingStays(s, others, id);
        AfterConcat(TaskClaims.Start(began), run, others);
        s := After(s, others);
        run := run + others;
        Do(Unlink(id, unlinkOk));
        assert run[..|old(run)| + 1] == first;
      }
    }

    /** Read one task file; is it active and the owner's? */
    method ReadOneTask(id: Id, todo: set<Id>, held: bool) returns (mine: bool)
      requires Valid() && In(s, Scan(todo, held)) && id in todo
      modifies this
      ensures Valid() && run == old(run) + [ReadTask(id)] && s.claims == old(s).claims
      ensures mine == HeldBy(FileOf(old(s), id), old(s).claim.value.owner)
      ensures Still(old(s), s) && s.locks == old(s).locks
      ensures s.claim == Some(old(s).claim.value.(phase := Scan(todo - {id}, held || mine)))
    {
      ReadMoves(s, id, todo, held);
      mine := id in s.tasks && ActiveBy(s.tasks[id], s.claim.value.owner);
      Move(ReadTask(id), Scan(todo - {id}, held || mine));
    }

    /** Read every task file of the listing, one at a time, looking for one the owner holds.  `seen` is what
        was read of each file, at some moment of the scan. */
    method ScanTasks(w: World) returns (held: bool, threw: bool, ghost seen: map<Id, Option<Task>>)
      requires Valid() && Interferes(w) && s.claim.Some? && s.claim.value.phase.Scan? && !s.claim.value.phase.found
      modifies this
      ensures Valid() && old(run) <= run && s.claims == old(s).claims
      ensures if threw then s.claim.None? else s.claim == Some(old(s).claim.value.(phase := Scan({}, held)))
      ensures AllRead(began, run, |old(run)|, seen)
      ensures !threw ==> seen.Keys == old(s).claim.value.phase.todo
      ensures !threw ==> (held <==> AnyHeld(seen, old(s).claim.value.owner))
      ensures threw ==> seen.Keys < old(s).claim.value.phase.todo && exists k: nat :: w.scanFails(k)
      ensures Calm(w) ==> !threw && Still(old(s), s) && s.locks == old(s).locks
      ensures Calm(w) ==> forall id :: id in seen ==> seen[id] == FileOf(old(s), id)
    {
      hide Step, After, AllRead, AnyHeld, AnyBlocks;
      var todo, k := s.claim.value.phase.todo, 0;
      held, threw, seen := false, false, map[];
      NothingRead(began, run, |run|, s.claim.value.owner);
      while todo != {}
        invariant Valid() && old(run) <= run && s.claims == old(s).claims
        invariant s.claim == Some(old(s).claim.value.(phase := Scan(todo, held)))
        invariant todo <= old(s).claim.value.phase.todo && seen.Keys == old(s).claim.value.phase.todo - todo
        invariant AllRead(began, run, |old(run)|, seen)
        invariant held <==> AnyHeld(seen, old(s).claim.value.owner)
        invariant Calm(w) ==> Still(old(s), s) && s.locks == old(s).locks
        invariant Calm(w) ==> forall id :: id in seen ==> seen[id] == FileOf(old(s), id)
        decreases todo
      {
        ghost var before := run;
        Wait(w.scan(k));
        var id :| id in todo;
        ReadNext(began, before, run, |old(run)|, seen, id, s);
        if w.scanFails(k) {
          FailMoves(s, false);
          ghost var here := run;
          End(Fail(false));
          ReadStays(began, here, run, |old(run)|, seen);
          return false, true, seen;
        }
        AnyNext(seen, id, FileOf(s, id), old(s).claim.value.owner);
        seen := seen[id := FileOf(s, id)];
        ghost var here := run;
        var mine := ReadOneTask(id, todo, held);
        ReadStays(began, here, run, |old(run)|, seen);
        held, todo := held || mine, todo - {id};
        k := k + 1;
      }
    }

    /** Create the claim lock; a stale one is removed and the creation tried once more. */
    method TakeClaimLock(w: World) returns (ok: bool)
      requires Valid() && Interferes(w) && In(s, Lock)
      modifies this
      ensures Valid() && old(run) <= run && s.claims == old(s).claims
      ensures if ok then s.claim == Some(old(s).claim.value.(phase := CheckPending)) else s.claim.None?
      ensures ok ==> old(s).claim.value.task in s.locks && s.locks[old(s).claim.value.task] == s.now
      ensures var i := old(s).claim.value.task;
        ok <==> i !in old(s).locks || (!LockFresh(old(s), i) && i !in After(Step(old(s), TryLock), w.relock).locks)
      ensures Calm(w) ==> Still(old(s), s)
      ensures Calm(w) ==> (ok <==> !LockFresh(old(s), old(s).claim.value.task))
    {
      hide Step, After;
      TryLockMoves(s);
      var i := s.claim.value.task;
      if i !in s.locks {
        Move(TryLock, CheckPending);
        return true;
      }
      if LockFresh(s, i) {
        End(TryLock);
        return false;
      }
      Move(TryLock, Relock);
      Wait(w.relock);
      TryLockMoves(s);
      if i !in s.locks {
        Move(TryLock, CheckPending);
        ok := true;
      } else {
        End(TryLock);
        ok := false;
      }
    }

    /** Read one blocker; is it missing or unresolved? */
    method ReadOneBlocker(id: Id, todo: set<Id>, blocked: bool) returns (unresolved: bool)
      requires Valid() && In(s, CheckBlockers(todo, blocked)) && id in todo
      modifies this
      ensures Valid() && run == old(run) + [ReadBlocker(id)] && s.claims == old(s).claims
      ensures unresolved == Blocks(FileOf(old(s), id))
      ensures Still(old(s), s)
      ensures s.claim == Some(old(s).claim.value.(phase := CheckBlockers(todo - {id}, blocked || unresolved)))
    {
      ReadBlockerMoves(s, id, todo, blocked);
      unresolved := !ResolvedIn(s, id);
      Move(ReadBlocker(id), CheckBlockers(todo - {id}, blocked || unresolved));
    }

    /** Read the blockers one at a time, looking for one that is missing or unresolved.  `seen` is what was
        read of each, at some moment of the check. */
    method ScanBlockers(w: World) returns (blocked: bool, threw: bool, ghost seen: map<Id, Option<Task>>)
      requires Valid() && Interferes(w) && s.claim.Some?
      requires s.claim.value.phase.CheckBlockers? && !s.claim.value.phase.blocked
      modifies this
      ensures Valid() && old(run) <= run && s.claims == old(s).claims
      ensures if threw then s.claim.None? else s.claim == Some(old(s).claim.value.(phase := CheckBlockers({}, blocked)))
      ensures AllRead(began, run, |old(run)|, seen)
      ensures !threw ==> seen.Keys == old(s).claim.value.phase.todo
      ensures !threw ==> (blocked <==> AnyBlocks(seen))
      ensures threw ==> exists k: nat :: w.blockersFail(k)
      ensures Calm(w) ==> !threw && Still(old(s), s)
      ensures Calm(w) ==> forall id :: id in seen ==> seen[id] == FileOf(old(s), id)
    {
      hide Step, After, AllRead, AnyHeld, AnyBlocks;
      var todo, k := s.claim.value.phase.todo, 0;
      blocked, threw, seen := false, false, map[];
      NothingRead(began, run, |run|, s.claim.value.owner);
      while todo != {}
        invariant Valid() && old(run) <= run && s.claims == old(s).claims
        invariant s.claim == Some(old(s).claim.value.(phase := CheckBlockers(todo, blocked)))
        invariant todo <= old(s).claim.value.phase.todo && seen.Keys == old(s).claim.value.phase.todo - todo
        invariant AllRead(began, run, |old(run)|, seen)
        invariant blocked <==> AnyBlocks(seen)
        invariant Calm(w) ==> Still(old(s), s)
        invariant Calm(w) ==> forall id :: id in seen ==> seen[id] == FileOf(old(s), id)
        decreases todo
      {
        ghost var before := run;
        Wait(w.blockers(k));
        var id :| id in todo;
        ReadNext(began, before, run, |old(run)|, seen, id, s);
        if w.blockersFail(k) {
          FailMoves(s, false);
          ghost var here := run;
          End(Fail(false));
          ReadStays(began, here, run, |old(run)|, seen);
          return false, true, seen;
        }
        AnyNext(seen, id, FileOf(s, id), "");
        seen := seen[id := FileOf(s, id)];
        ghost var here := run;
        var unresolved := ReadOneBlocker(id, todo, blocked);
        ReadStays(began, here, run, |old(run)|, seen);
        blocked, todo := blocked || unresolved, todo - {id};
        k := k + 1;
      }
      ghost var here := run;
      Wait(w.blockers(k));
      ReadStays(began, here, run, |old(run)|, seen);
    }

    /** Claim a task, the claim mutex being held.  Exactly a successful call claims a task, and then it is
        this task, pending until then, for this owner.  `files` and `blockers` are what was read of the task
        files and of the blockers; they and the claim lock decide the answer, and alone they decide it when
        nobody else acts. */
    method ClaimTask(task: Id, owner: Name, w: World)
      returns (r: ClaimResult, ghost files: map<Id, Option<Task>>, ghost blockers: map<Id, Option<Task>>)
      requires Valid() && s.claim.None? && Interferes(w)
      modifies this
      ensures Valid() && old(run) <= run && s.claim.None?
      ensures s.claims == old(s).claims + if r == Won then 1 else 0
      ensures r == Won ==> task in s.tasks && s.tasks[task].status == Claimed && s.tasks[task].owner == Some(owner)
                           && s.tasks[task].claim == s.claims && s.tasks[task].claimedAt.Some?
      ensures Calm(w) && r == Won ==> s.tasks[task].claimedAt == Some(old(s).now)
      ensures r == BlockedBy ==> task !in s.locks
      ensures r == Won ==> OrdinaryRun(run) ==> OneActiveTask(s)
      ensures AllRead(began, run, |old(run)|, files) && AllRead(began, run, |old(run)|, blockers)
      ensures r == MemberHoldsActiveTask <==> files.Keys == old(s).tasks.Keys && AnyHeld(files, owner)
      ensures r == BlockedBy <==> AnyBlocks(blockers)
      ensures r == Won ==> files.Keys == old(s).tasks.Keys
      ensures r == Threw ==>
        (exists k: nat :: w.scanFails(k)) || (exists k: nat :: w.blockersFail(k)) || task in s.unlinking
      ensures Calm(w) ==>
        r == if HoldsOne(old(s), owner) then MemberHoldsActiveTask
             else if LockFresh(old(s), task) || !Pends(old(s), task) then AlreadyClaimed
             else if HasBlocker(old(s), task) then BlockedBy
             else if task in old(s).unlinking then Threw else Won
    {
      hide Step, After, AllRead, AnyHeld, AnyBlocks, HoldsOne, HasBlocker, LockFresh;
      BeginMoves(s, task, owner);
      Do(Begin(task, owner));
      ghost var begun := s;
      SameView(old(s), begun, task, owner);
      blockers := map[];
      var held, threw;
      ghost var before := run;
      held, threw, files := ScanTasks(w);
      ReadLater(began, run, |old(run)|, |before|, files);
      NothingRead(began, run, |old(run)|, owner);
      if threw { return Threw, files, blockers; }
      if Calm(w) { SeenHeld(begun, files, owner); }
      EndScanMoves(s, held);
      before := run;
      if held {
        End(EndScan);
        ReadStays(began, before, run, |old(run)|, files);
        NothingRead(began, run, |old(run)|, owner);
        return MemberHoldsActiveTask, files, blockers;
      }
      Move(EndScan, Lock);
      if Calm(w) { SameView(old(s), s, task, owner); }
      ghost var scanned := run;
      r, blockers := LockAndFlip(task, owner, w);
      ReadStays(began, before, run, |old(run)|, files);
      ReadLater(began, run, |old(run)|, |scanned|, blockers);
      if OrdinaryRun(run) { AtMostOneActiveTask(began, run); }
    }

    /** After the scan: take the claim lock, check and write. */
    method LockAndFlip(task: Id, owner: Name, w: World) returns (r: ClaimResult, ghost blockers: map<Id, Option<Task>>)
      requires Valid() && s.claim == Some(Claim(task, owner, Lock)) && Interferes(w)
      modifies this
      ensures Valid() && old(run) <= run && s.claim.None?
      ensures s.claims == old(s).claims + if r == Won then 1 else 0
      ensures r == Won ==> task in s.tasks && s.tasks[task].status == Claimed && s.tasks[task].owner == Some(owner)
                           && s.tasks[task].claim == s.claims && s.tasks[task].claimedAt.Some?
      ensures Calm(w) && r == Won ==> s.tasks[task].claimedAt == Some(old(s).now)
      ensures r == BlockedBy ==> task !in s.locks
      ensures AllRead(began, run, |old(run)|, blockers)
      ensures r in {Won, AlreadyClaimed, BlockedBy, Threw} && (r == BlockedBy <==> AnyBlocks(blockers))
      ensures r == Threw ==> (exists k: nat :: w.blockersFail(k)) || task in s.unlinking
      ensures Calm(w) ==>
        r == if LockFresh(old(s), task) || !Pends(old(s), task) then AlreadyClaimed
             else if HasBlocker(old(s), task) then BlockedBy
             else if task in old(s).unlinking then Threw else Won
    {
      hide Step, After, AllRead, AnyHeld, AnyBlocks, HasBlocker, LockFresh;
      blockers := map[];
      Wait(w.lock);
      var ok := TakeClaimLock(w);
      NothingRead(began, run, |old(run)|, owner);
      if !ok { return AlreadyClaimed, blockers; }
      Wait(w.check);
      if Calm(w) { SameView(old(s), s, task, owner); }
      ghost var checked := run;
      r, blockers := CheckAndFlip(task, owner, w);
      ReadLater(began, run, |old(run)|, |checked|, blockers);
    }

    /** With the claim lock created: check the task and its blockers, then write the task. */
    method CheckAndFlip(task: Id, owner: Name, w: World) returns (r: ClaimResult, ghost blockers: map<Id, Option<Task>>)
      requires Valid() && s.claim == Some(Claim(task, owner, CheckPending)) && Interferes(w)
      modifies this
      ensures Valid() && old(run) <= run && s.claim.None?
      ensures s.claims == old(s).claims + if r == Won then 1 else 0
      ensures r == Won ==> task in s.tasks && s.tasks[task].status == Claimed && s.tasks[task].owner == Some(owner)
                           && s.tasks[task].claim == s.claims && s.tasks[task].claimedAt.Some?
      ensures Calm(w) && r == Won ==> s.tasks[task].claimedAt == Some(old(s).now)
      ensures r == BlockedBy ==> task !in s.locks
      ensures AllRead(began, run, |old(run)|, blockers)
      ensures !Pends(old(s), task) ==> r == AlreadyClaimed
      ensures r in {Won, AlreadyClaimed, BlockedBy, Threw}
      ensures r == BlockedBy <==> AnyBlocks(blockers)
      ensures r in {Won, BlockedBy} ==> blockers.Keys == old(s).tasks[task].blockedBy
      ensures r == Threw ==> (exists k: nat :: w.blockersFail(k)) || task in s.unlinking
      ensures Calm(w) && Pends(old(s), task) ==>
        r == if HasBlocker(old(s), task) then BlockedBy else if task in old(s).unlinking then Threw else Won
    {
      hide Step, After, AllRead, AnyHeld, AnyBlocks, HasBlocker;
      ReadPendingMoves(s);
      blockers := map[];
      NothingRead(began, run + [ReadPending], |run|, owner);
      if !Pends(s, task) {
        End(ReadPending);
        return AlreadyClaimed, blockers;
      }
      Move(ReadPending, CheckBlockers(s.tasks[task].blockedBy, false));
      var blocked, threw;
      ghost var before := run;
      blocked, threw, blockers := ScanBlockers(w);
      ReadLater(began, run, |old(run)|, |before|, blockers);
      if Calm(w) { SeenBlockers(old(s), blockers, task); }
      if threw {
        blockers := map[];
        NothingRead(began, run, |old(run)|, owner);
        return Threw, blockers;
      }
      EndBlockersMoves(s, blocked);
      before := run;
      if blocked {
        End(EndBlockers);
        ReadStays(began, before, run, |old(run)|, blockers);
        return BlockedBy, blockers;
      }
      ghost var at := s.now;
      Move(EndBlockers, Flip(s.now));
      Wait(w.write);
      r := FlipTask(task, owner, at);
      ReadStays(began, before, run, |old(run)|, blockers);
    }

    /** The final write under the update lock, which may not be free in time; it goes through only if the
        task is still pending. */
    method FlipTask(task: Id, owner: Name, ghost at: int) returns (r: ClaimResult)
      requires Valid() && s.claim == Some(Claim(task, owner, Flip(at)))
      modifies this
      ensures Valid() && old(run) <= run && s.claim.None?
      ensures s.claims == old(s).claims + if r == Won then 1 else 0
      ensures r == Won ==> task in s.tasks && s.tasks[task].status == Claimed && s.tasks[task].owner == Some(owner)
                           && s.tasks[task].claim == s.claims && s.tasks[task].claimedAt == Some(at)
      ensures r == if task in old(s).unlinking then Threw else if Pends(old(s), task) then Won else AlreadyClaimed
      ensures s.unlinking == old(s).unlinking
    {
      if task in s.unlinking {
        FailMoves(s, true);
        End(Fail(true));
        return Threw;
      }
      FlipMoves(s, at);
      if task in s.tasks && s.tasks[task].status == Pending {
        Do(FlipWrite);
        r := Won;
      } else {
        End(FlipWrite);
        r := AlreadyClaimed;
      }
    }
  }

  /** The read-modify-write of an update: the checks in order, then the patched fields overwrite. */
  method ApplyPatch(t: Task, p: Patch, x: Condition) returns (r: Outcome)
    ensures Answers(t, p, x, r) && r == UpdateTask(t, p, x)
  {
    if x.owner.Some? && t.owner != x.owner { return WrongOwner; }
    if x.status.Some? && t.status != x.status.value { return WrongStatus; }
    if x.claimedAt.Some? && t.claimedAt != x.claimedAt { return WrongClaimedAt; }
    if p.status.Some? && p.status.value != t.status {
      if t.status == Deleted || (t.status == Completed && p.status.value in {Pending, Claimed, InProgress}) { return Revives; }
      if p.status.value == InProgress && t.status != Claimed && Or(p.owner, None).None? { return NeedsOwner; }
    }
    var task := t;
    if p.status.Some? { task := task.(status := p.status.value); }
    if p.owner.Put? { task := task.(owner := p.owner.value); }
    if p.blockedBy.Put? { task := task.(blockedBy := p.blockedBy.value); }
    if p.claimedAt.Put? { task := task.(claimedAt := p.claimedAt.value); }
    r := Updated(task);
  }
}
