/** Claimed work and its blockers: the blocker check of a claim takes no lock on the blockers, and reads
    them before the claim is written. */
module TaskDependencies {
  import opened TaskClaims
  import opened Options

  predicate DependenciesMet(s: State) {
    forall i, b | i in s.tasks && Active(s.tasks[i]) && b in s.tasks[i].blockedBy :: ResolvedIn(s, b)
  }

  /** What the unlocked blocker check has established of a task that is still pending. */
  predicate BlockersSeen(s: State) {
    s.claim.Some? && InWindow(s, s.claim.value.task) ==>
      var c := s.claim.value;
      forall b | c.task in s.tasks && s.tasks[c.task].status == Pending && b in s.tasks[c.task].blockedBy ::
        ResolvedIn(s, b) || (c.phase.CheckBlockers? && (b in c.phase.todo || c.task in c.phase.todo || c.phase.blocked))
  }

  predicate DependencyInv(s: State) {
    DependenciesMet(s) && BlockersSeen(s) && WindowNotActive(s)
  }

  /** A claim past its pending check on `id` will not see that `b` is unresolved, has seen no other
      unresolved blocker, and is not about to find the task blocked by itself. */
  predicate Overlooks(s: State, id: Id, b: Id) {
    InWindow(s, id) && (s.claim.value.phase.CheckBlockers? ==>
      b !in s.claim.value.phase.todo && id !in s.claim.value.phase.todo && !s.claim.value.phase.blocked)
  }

  /** An update that gives a task an unresolved blocker although the task is, and stays, active, or
      pending with a claim that will not look at that blocker any more. */
  predicate AddsBlockerTooLate(s: State, e: Event) {
    && e.Update? && Writes(s, e) && e.patch.blockedBy.Put?
    && exists b | b in e.patch.blockedBy.value :: TooLate(s, e, b)
  }

  predicate TooLate(s: State, e: Event, b: Id)
    requires e.Update? && Writes(s, e)
  {
    var u := Step(s, e);
    !ResolvedIn(u, b) && (Active(u.tasks[e.id]) || (u.tasks[e.id].status == Pending && Overlooks(s, e.id, b)))
  }

  lemma ResolvedStays(s: State, e: Event, b: Id)
    requires ResolvedIn(s, b)
    ensures ResolvedIn(Step(s, e), b)
  {
    if e.Update? || e.ReapWrite? {
      WritingStep(s, e);
      var t := TargetOf(s, e);
      if Writes(s, e) && t.id == b { ResolvedIsAbsorbing(s.tasks[b], t.patch, t.cond); }
    } else if Quiet(e) {
      QuietStep(s, e);
    } else if s.claim.Some? && e.FlipWrite? && s.claim.value.phase.Flip? {
      FlipKeepsResolved(s, s.claim.value.phase.claimedAt, b);
    } else if s.claim.Some? && !e.Create? && !e.Begin? {
      assert ClaimStep(s, e).tasks == s.tasks;
    }
  }

  lemma FlipKeepsResolved(s: State, at: int, b: Id)
    requires ResolvedIn(s, b) && s.claim.Some?
    ensures ResolvedIn(FlipStep(s, at), b)
  {
  }

  /** A blocker the written task has: the task had it before, or it is resolved, or the claim will look. */
  lemma WrittenBlocker(s: State, e: Event, b: Id)
    requires (e.Update? || e.ReapWrite?) && OrdinaryEvent(e) && !AddsBlockerTooLate(s, e) && Writes(s, e)
    requires var i, u := TargetOf(s, e).id, Step(s, e); i in u.tasks && b in u.tasks[i].blockedBy
    ensures var i, u := TargetOf(s, e).id, Step(s, e);
      || b in s.tasks[i].blockedBy || ResolvedIn(u, b)
      || (!Active(u.tasks[i]) && (u.tasks[i].status == Pending ==> !Overlooks(s, i, b)))
  {
    WritingStep(s, e);
    if e.Update? && e.patch.blockedBy.Put? {
      assert !TooLate(s, e, b);
    } else {
      assert b in s.tasks[TargetOf(s, e).id].blockedBy;
    }
  }

  lemma WritingKeepsDependenciesMet(s: State, e: Event)
    requires DependencyInv(s) && (e.Update? || e.ReapWrite?) && OrdinaryEvent(e) && !AddsBlockerTooLate(s, e)
    ensures DependenciesMet(Step(s, e))
  {
    var u, t := Step(s, e), TargetOf(s, e);
    WritingStep(s, e);
    forall i, b | i in u.tasks && Active(u.tasks[i]) && b in u.tasks[i].blockedBy ensures ResolvedIn(u, b) {
      if Writes(s, e) && i == t.id {
        OrdinaryNeverActivates(s.tasks[i], t.patch, t.cond);
        WrittenBlocker(s, e, b);
      }
      if ResolvedIn(s, b) { ResolvedStays(s, e, b); }
    }
  }

  lemma WritingKeepsBlockersSeen(s: State, e: Event)
    requires DependencyInv(s) && (e.Update? || e.ReapWrite?) && OrdinaryEvent(e) && !AddsBlockerTooLate(s, e)
    ensures BlockersSeen(Step(s, e)) && WindowNotActive(Step(s, e))
  {
    var u, t := Step(s, e), TargetOf(s, e);
    WritingStep(s, e);
    if s.claim.Some? && InWindow(s, s.claim.value.task) {
      var i := s.claim.value.task;
      if Writes(s, e) && t.id == i { OrdinaryNeverActivates(s.tasks[i], t.patch, t.cond); }
      forall b | u.tasks[i].status == Pending && b in u.tasks[i].blockedBy
        ensures ResolvedIn(u, b) || b in s.tasks[i].blockedBy || !Overlooks(s, i, b)
      {
        if Writes(s, e) && t.id == i { WrittenBlocker(s, e, b); }
      }
      forall b | ResolvedIn(s, b) ensures ResolvedIn(u, b) { ResolvedStays(s, e, b); }
      if u.tasks[i].status == Pending && Resolved(s.tasks[i]) {
        ResolvedStays(s, e, i);
        assert false;
      }
    }
  }

  lemma FlipKeepsDependencies(s: State, at: int)
    requires DependencyInv(s) && s.claim.Some? && s.claim.value.phase == Flip(at)
    ensures DependencyInv(FlipStep(s, at))
  {
    var u := FlipStep(s, at);
    forall b | ResolvedIn(s, b) ensures ResolvedIn(u, b) { FlipKeepsResolved(s, at, b); }
    assert InWindow(s, s.claim.value.task);
  }

  lemma ClaimKeepsDependencies(s: State, e: Event)
    requires DependencyInv(s) && s.claim.Some?
    ensures DependencyInv(ClaimStep(s, e))
  {
    var c, u := s.claim.value, ClaimStep(s, e);
    if e.FlipWrite? && c.phase.Flip? {
      FlipKeepsDependencies(s, c.phase.claimedAt);
    } else {
      assert u.tasks == s.tasks;
      forall b ensures ResolvedIn(u, b) == ResolvedIn(s, b) {}
      if u.claim.Some? && InWindow(u, c.task) && !InWindow(s, c.task) {
        assert e.ReadPending? && s.tasks[c.task].status == Pending;
      }
    }
  }

  lemma DependencyStep(s: State, e: Event)
    requires DependencyInv(s) && OrdinaryEvent(e) && !AddsBlockerTooLate(s, e)
    ensures DependencyInv(Step(s, e))
  {
    if Quiet(e) {
      QuietStep(s, e);
      forall b ensures ResolvedIn(Step(s, e), b) == ResolvedIn(s, b) {}
    } else if e.Update? || e.ReapWrite? {
      WritingKeepsDependenciesMet(s, e);
      WritingKeepsBlockersSeen(s, e);
    } else if e.Create? {
      forall b | ResolvedIn(s, b) ensures ResolvedIn(Step(s, e), b) {}
    } else if e.Begin? {
      forall b ensures ResolvedIn(Step(s, e), b) == ResolvedIn(s, b) {}
    } else if s.claim.Some? {
      ClaimKeepsDependencies(s, e);
    }
  }

  /** If no update adds an unresolved blocker to a task that is active or being claimed, every claimed
      or in-progress task has all its blockers resolved, in every reachable state. */
  lemma {:induction false} NoWorkAheadOfDependencies(now: int, es: seq<Event>)
    requires OrdinaryRun(es)
    requires forall i :: 0 <= i < |es| ==> !AddsBlockerTooLate(After(Start(now), es[..i]), es[i])
    ensures DependencyInv(After(Start(now), es))
  {
    if es != [] {
      var n := |es| - 1;
      forall i | 0 <= i < n ensures es[..n][..i] == es[..i] {}
      NoWorkAheadOfDependencies(now, es[..n]);
      DependencyStep(After(Start(now), es[..n]), es[n]);
    }
  }

  /** A claim whose remaining blockers are resolved can read them all. */
  lemma ReadTheRest(s: State) returns (es: seq<Event>)
    requires s.claim.Some? && s.claim.value.phase.CheckBlockers? && !s.claim.value.phase.blocked
    requires forall b :: b in s.claim.value.phase.todo ==> ResolvedIn(s, b)
    ensures OrdinaryRun(es) && After(s, es) == At(s, CheckBlockers({}, false))
    decreases s.claim.value.phase.todo
  {
    var todo := s.claim.value.phase.todo;
    if todo == {} { return []; }
    var b :| b in todo;
    var t := Step(s, ReadBlocker(b));
    assert t == At(s, CheckBlockers(todo - {b}, false));
    var rest := ReadTheRest(t);
    AfterConcat(s, [ReadBlocker(b)], rest);
    AfterSnoc(s, [], ReadBlocker(b));
    assert [] + [ReadBlocker(b)] == [ReadBlocker(b)];
    es := [ReadBlocker(b)] + rest;
  }

  /** A claim ready to write a pending task makes it active, whatever its blockers. */
  lemma FlipActivates(s: State) returns (es: seq<Event>)
    requires s.claim.Some? && s.claim.value.phase.Flip? && s.claim.value.task in s.tasks
    requires s.tasks[s.claim.value.task].status == Pending
    ensures OrdinaryRun(es) && var t, i := After(s, es), s.claim.value.task;
      && i in t.tasks && Active(t.tasks[i]) && t.tasks[i].blockedBy == s.tasks[i].blockedBy
      && forall b :: b != i ==> ResolvedIn(t, b) == ResolvedIn(s, b)
  {
    var i := s.claim.value.task;
    es := [Unlink(i, true), FlipWrite];
    var t := Step(s, Unlink(i, true));
    AfterTwo(s, Unlink(i, true), FlipWrite);
    assert t.tasks == s.tasks && t.claim == s.claim && i !in t.unlinking;
    FlipOfPending(t, s.claim.value.phase.claimedAt);
  }

  lemma AfterTwo(s: State, a: Event, b: Event)
    ensures After(s, [a, b]) == Step(Step(s, a), b)
  {
    AfterSnoc(s, [], a);
    AfterSnoc(s, [a], b);
    assert [] + [a] == [a] && [a] + [b] == [a, b];
  }

  const COMPLETE := Patch(Some(Completed), Keep, Keep, Keep)

  /** `t` is `s` with the tasks `xs` resolved; the claim and all other tasks are as they were. */
  ghost predicate ResolvesOnly(s: State, xs: set<Id>, t: State) {
    && t.claim == s.claim && t.now == s.now
    && (forall x :: x in xs ==> ResolvedIn(t, x))
    && (forall x :: x !in xs ==> (x in t.tasks <==> x in s.tasks) && (x in s.tasks ==> t.tasks[x] == s.tasks[x]))
  }

  /** Any task can be created if it is missing, and completed if it is unresolved. */
  lemma ResolveOne(s: State, x: Id) returns (es: seq<Event>)
    ensures OrdinaryRun(es) && ResolvesOnly(s, {x}, After(s, es))
  {
    var s1 := Step(s, Create(x, {}));
    es := Extend(s, [], s, Create(x, {}));
    var s2 := Step(s1, Unlink(x, true));
    es := Extend(s, es, s1, Unlink(x, true));
    assert s2.tasks == s1.tasks && x in s2.tasks && x !in s2.unlinking;
    if !Resolved(s2.tasks[x]) {
      es := Extend(s, es, s2, Update(x, COMPLETE, ANY));
      Completes(s2, x);
    }
  }

  lemma Completes(s: State, x: Id)
    requires x in s.tasks && x !in s.unlinking && !Resolved(s.tasks[x])
    ensures var t := Step(s, Update(x, COMPLETE, ANY));
      t.tasks == s.tasks[x := s.tasks[x].(status := Completed)] && t.claim == s.claim && t.now == s.now
  {
  }

  lemma ResolveAll(s: State, xs: set<Id>) returns (es: seq<Event>)
    ensures OrdinaryRun(es) && ResolvesOnly(s, xs, After(s, es))
    decreases xs
  {
    if xs == {} { return []; }
    var x :| x in xs;
    var first := ResolveOne(s, x);
    var t := After(s, first);
    var rest := ResolveAll(t, xs - {x});
    es := Join(s, first, t, rest, After(t, rest));
    ResolvedTogether(s, x, t, xs - {x}, After(t, rest));
    assert {x} + (xs - {x}) == xs;
  }

  lemma ResolvedTogether(s: State, x: Id, t: State, xs: set<Id>, u: State)
    requires x !in xs && ResolvesOnly(s, {x}, t) && ResolvesOnly(t, xs, u)
    ensures ResolvesOnly(s, {x} + xs, u)
  {
  }

  /** A claim that has found nothing so far can get to its write: others resolve the blockers it has yet
      to read. */
  lemma CheckCanPass(s: State) returns (es: seq<Event>)
    requires s.claim.Some? && s.claim.value.phase.CheckBlockers? && !s.claim.value.phase.blocked
    ensures OrdinaryRun(es) && var t := After(s, es);
      && ResolvesOnly(At(s, Flip(s.now)), s.claim.value.phase.todo, t)
  {
    var todo := s.claim.value.phase.todo;
    var first := ResolveAll(s, todo);
    var t := After(s, first);
    var reading := ReadTheRest(t);
    var u := At(t, CheckBlockers({}, false));
    es := Join(s, first, t, reading, u);
    es := Extend(s, es, u, EndBlockers);
    assert Step(u, EndBlockers) == At(u, Flip(u.now));
  }

  /** The condition is needed: after such an update there is always a continuation in which an active
      task has an unresolved blocker. */
  lemma LateBlockerBreaksDependencies(s: State, e: Event) returns (es: seq<Event>)
    requires OrdinaryEvent(e) && AddsBlockerTooLate(s, e) && DependencyInv(s)
    ensures OrdinaryRun(es) && !DependenciesMet(After(Step(s, e), es))
  {
    var u := Step(s, e);
    WritingStep(s, e);
    var b :| b in e.patch.blockedBy.value && TooLate(s, e, b);
    assert b in u.tasks[e.id].blockedBy;
    if Active(u.tasks[e.id]) { return []; }
    es := [];
    if u.claim.value.phase.CheckBlockers? { es := CheckCanPass(u); }
    var v := After(u, es);
    assert v.claim.value.task == e.id && v.claim.value.phase.Flip? && v.tasks[e.id] == u.tasks[e.id];
    assert !ResolvedIn(v, b);
    var rest := FlipActivates(v);
    es := Join(u, es, v, rest, After(v, rest));
    BrokenBy(After(u, es), e.id, b);
  }

  lemma BrokenBy(s: State, i: Id, b: Id)
    requires i in s.tasks && Active(s.tasks[i]) && b in s.tasks[i].blockedBy && !ResolvedIn(s, b)
    ensures !DependenciesMet(s)
  {
  }

  /** Such an update is possible: a run in which a task gains a missing blocker after the claim checked
      its blockers (it had none) and before the claim writes it. */
  lemma BlockerAddedMidClaim() returns (es: seq<Event>, e: Event)
    ensures OrdinaryRun(es) && OrdinaryEvent(e)
    ensures DependencyInv(After(Start(0), es)) && AddsBlockerTooLate(After(Start(0), es), e)
  {
    var t := Task(Pending, None, {}, None, 0);
    var s1 := State(0, map[1 := t], map[], {}, None, map[], 0);
    es := Extend(Start(0), [], Start(0), Create(1, {}));
    var scan := ClaimScans(s1, 1, "ann");
    var s2 := s1.(claim := Some(Claim(1, "ann", Lock)));
    es := Join(Start(0), es, s1, scan, s2);
    var check := ClaimChecks(s2, 1, "ann");
    var s3 := s2.(claim := Some(Claim(1, "ann", Flip(0))), locks := map[1 := 0]);
    es := Join(Start(0), es, s2, check, s3);
    e := Update(1, Patch(Some(Pending), Put(None), Put({2}), Keep), ANY);
    assert Step(s3, e).tasks[1] == Task(Pending, None, {2}, None, 0);
    assert TooLate(s3, e, 2);
  }
}
