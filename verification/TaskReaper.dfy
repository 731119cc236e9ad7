/** The stale-claim reaper reads a task, tests the claim lock and the claim's age, and writes the task
    only if it is still claimed with the claim time it read; anything may happen in between. */
module TaskReaper {
  import opened TaskClaims
  import opened Options

  predicate Numbered(s: State) {
    forall i :: i in s.tasks ==> s.tasks[i].claim <= s.claims
  }

  /** What stays known of a task since a reaper read it: the claim it saw keeps its owner, and any
      later claim of the task has a claim time no earlier than the reading. */
  predicate Tracks(s: State, x: Reap) {
    && x.task in s.tasks && x.readAt <= s.now && x.seen.claim <= s.claims
    && (if x.seen.owner.Some? then x.seen.owner.value else "") !in x.protected
    && var t := s.tasks[x.task];
    && (t.claim == x.seen.claim && Active(t) ==> t.owner == x.seen.owner || t.owner == None)
    && (t.claim != x.seen.claim && t.status == Claimed && t.claimedAt.Some? ==> t.claimedAt.value >= x.readAt)
    && (InWindow(s, x.task) && s.claim.value.phase.Flip? ==> s.claim.value.phase.claimedAt >= x.readAt)
    && (x.phase == Stale && x.seen.claimedAt.Some? ==> s.now - x.seen.claimedAt.value > CLAIM_TTL_MS)
  }

  predicate ReaperInv(s: State) {
    Numbered(s) && WindowNotActive(s) && forall r :: r in s.reaps ==> Tracks(s, s.reaps[r])
  }

  lemma WritingKeepsTracks(s: State, e: Event, x: Reap)
    requires (e.Update? || e.ReapWrite?) && OrdinaryEvent(e) && Tracks(s, x)
    ensures Tracks(Step(s, e), x)
  {
    WritingStep(s, e);
    var t := TargetOf(s, e);
    if Writes(s, e) { OrdinaryNeverActivates(s.tasks[t.id], t.patch, t.cond); }
  }

  lemma WritingKeepsWindow(s: State, e: Event)
    requires (e.Update? || e.ReapWrite?) && OrdinaryEvent(e) && WindowNotActive(s) && Numbered(s)
    ensures WindowNotActive(Step(s, e)) && Numbered(Step(s, e))
  {
    WritingStep(s, e);
    var t := TargetOf(s, e);
    if Writes(s, e) { OrdinaryNeverActivates(s.tasks[t.id], t.patch, t.cond); }
  }

  lemma ClaimKeepsTracks(s: State, e: Event, x: Reap)
    requires s.claim.Some? && Tracks(s, x)
    ensures Tracks(ClaimStep(s, e), x)
  {
    var c, u := s.claim.value, ClaimStep(s, e);
    if e.FlipWrite? && c.phase.Flip? {
      FlipKeepsTracks(s, c.phase.claimedAt, x);
    } else {
      assert u.tasks == s.tasks && u.now == s.now && u.claims == s.claims;
    }
  }

  lemma FlipKeepsTracks(s: State, at: int, x: Reap)
    requires s.claim.Some? && s.claim.value.phase == Flip(at) && Tracks(s, x)
    ensures Tracks(FlipStep(s, at), x)
  {
    assert s.claim.value.task == x.task ==> InWindow(s, x.task);
  }

  lemma ClaimKeepsWindow(s: State, e: Event)
    requires s.claim.Some? && WindowNotActive(s) && Numbered(s)
    ensures WindowNotActive(ClaimStep(s, e)) && Numbered(ClaimStep(s, e)) && ClaimStep(s, e).reaps == s.reaps
  {
    var c, u := s.claim.value, ClaimStep(s, e);
    if !(e.FlipWrite? && c.phase.Flip?) {
      assert u.tasks == s.tasks;
      if u.claim.Some? && InWindow(u, c.task) && !InWindow(s, c.task) {
        assert e.ReadPending? && s.tasks[c.task].status == Pending;
      }
    }
  }

  lemma QuietKeepsTracks(s: State, e: Event, r: nat)
    requires ReaperInv(s) && Quiet(e) && r in Step(s, e).reaps
    ensures Tracks(Step(s, e), Step(s, e).reaps[r])
  {
    var u := Step(s, e);
    QuietStep(s, e);
    if e.ReapRead? && r !in s.reaps {
      assert u.reaps[r] == Reap(e.id, s.tasks[e.id], s.now, e.protected, Seen) && !InWindow(s, e.id);
    } else {
      assert Tracks(s, s.reaps[r]);
      if e.ReapDecide? && u.reaps[r] != s.reaps[r] {
        assert u.reaps[r] == s.reaps[r].(phase := Stale);
      } else if e.ReapTest? && u.reaps[r] != s.reaps[r] {
        assert u.reaps[r].phase.Tested?;
      }
    }
  }

  lemma CreateOrBeginKeepsTracks(s: State, e: Event, x: Reap)
    requires (e.Create? || e.Begin?) && Tracks(s, x)
    ensures Tracks(Step(s, e), x)
  {
  }

  lemma ReaperStep(s: State, e: Event)
    requires ReaperInv(s) && OrdinaryEvent(e)
    ensures ReaperInv(Step(s, e))
  {
    var u := Step(s, e);
    if Quiet(e) {
      QuietStep(s, e);
      forall r | r in u.reaps ensures Tracks(u, u.reaps[r]) { QuietKeepsTracks(s, e, r); }
    } else if e.Update? || e.ReapWrite? {
      WritingKeepsWindow(s, e);
      forall r | r in u.reaps ensures Tracks(u, u.reaps[r]) {
        assert u.reaps[r] == s.reaps[r];
        WritingKeepsTracks(s, e, s.reaps[r]);
      }
    } else if e.Create? || e.Begin? {
      forall r | r in u.reaps ensures Tracks(u, u.reaps[r]) { CreateOrBeginKeepsTracks(s, e, s.reaps[r]); }
    } else if s.claim.Some? {
      ClaimKeepsWindow(s, e);
      forall r | r in u.reaps ensures Tracks(u, u.reaps[r]) { ClaimKeepsTracks(s, e, s.reaps[r]); }
    }
  }

  lemma {:induction false} ReaperInvHolds(now: int, es: seq<Event>)
    requires OrdinaryRun(es)
    ensures ReaperInv(After(Start(now), es))
  {
    if es != [] {
      ReaperInvHolds(now, es[..|es| - 1]);
      ReaperStep(After(Start(now), es[..|es| - 1]), es[|es| - 1]);
    }
  }

  /** When a reaper's write goes through it resets the claim the reaper saw and no later one: that
      claim is older than the TTL, its owner is not protected, and only this task changes.  Required:
      the task carried a claim time, and the reading was later than that time. */
  lemma ReaperResetsOnlyTheClaimItSaw(now: int, es: seq<Event>, r: nat)
    requires OrdinaryRun(es)
    requires var s := After(Start(now), es);
      && r in s.reaps && s.reaps[r].phase == Stale && Writes(s, ReapWrite(r))
      && s.reaps[r].seen.claimedAt.Some? && s.reaps[r].readAt > s.reaps[r].seen.claimedAt.value
    ensures var s := After(Start(now), es);
      var x, u := s.reaps[r], Step(s, ReapWrite(r));
      && s.tasks[x.task].status == Claimed && s.tasks[x.task].claim == x.seen.claim
      && s.now - x.seen.claimedAt.value > CLAIM_TTL_MS
      && (s.tasks[x.task].owner == x.seen.owner || s.tasks[x.task].owner == None)
      && (x.seen.owner.Some? ==> x.seen.owner.value !in x.protected)
      && u.tasks == s.tasks[x.task := u.tasks[x.task]]
      && u.tasks[x.task] == s.tasks[x.task].(status := Pending, owner := None, claimedAt := None)
  {
    var s := After(Start(now), es);
    ReaperInvHolds(now, es);
    assert Tracks(s, s.reaps[r]);
    WritingStep(s, ReapWrite(r));
  }

  /** The compare-and-set of the reaper: without a claim time any claim passes. */
  lemma ReapWriteIff(s: State, r: nat)
    requires r in s.reaps && s.reaps[r].phase == Stale
    ensures Writes(s, ReapWrite(r)) <==>
      var x := s.reaps[r];
      && x.task in s.tasks && x.task !in s.unlinking && s.tasks[x.task].status == Claimed
      && (x.seen.claimedAt.None? || s.tasks[x.task].claimedAt == x.seen.claimedAt)
  {
  }

  /** A reaper pass over one task that nobody disturbs: it resets exactly a claimed task whose owner is not
      protected, whose claim lock is missing or stale and whose claim is past its time to live; and then the
      claim lock is removed next. */
  lemma PassExactly(s: State, r: nat, id: Id, protected: set<Name>)
    requires r !in s.reaps && id !in s.unlinking
    ensures var u := After(s, [ReapRead(r, id, protected), ReapTest(r), ReapDecide(r), ReapWrite(r)]);
      if id in s.tasks && s.tasks[id].status == Claimed
         && (if s.tasks[id].owner.Some? then s.tasks[id].owner.value else "") !in protected
         && (id in s.locks ==> s.now - s.locks[id] > 30_000)
         && s.now - (if s.tasks[id].claimedAt.Some? then s.tasks[id].claimedAt.value else 0) > 30_000
      then u.tasks == s.tasks[id := s.tasks[id].(status := Pending, owner := None, claimedAt := None)] && id in u.unlinking
      else u.tasks == s.tasks && u.unlinking == s.unlinking
  {
    var read, test, decide, write := ReapRead(r, id, protected), ReapTest(r), ReapDecide(r), ReapWrite(r);
    AfterFour(s, read, test, decide, write);
    hide After;
    if id in s.tasks && s.tasks[id].status == Claimed
       && (if s.tasks[id].owner.Some? then s.tasks[id].owner.value else "") !in protected {
      var x := Reap(id, s.tasks[id], s.now, protected, Seen);
      var a := s.(reaps := s.reaps[r := x]);
      assert Step(s, read) == a;
      PassDecides(a, r);
    } else {
      assert Step(s, read) == s && Step(s, test) == s && Step(s, decide) == s && Step(s, write) == s;
    }
  }

  lemma AfterFour(s: State, a: Event, b: Event, c: Event, d: Event)
    ensures After(s, [a, b, c, d]) == Step(Step(Step(Step(s, a), b), c), d)
  {
    AfterSnoc(s, [], a);
    AfterSnoc(s, [a], b);
    AfterSnoc(s, [a, b], c);
    AfterSnoc(s, [a, b, c], d);
    assert [] + [a] == [a] && [a] + [b] == [a, b] && [a, b] + [c] == [a, b, c] && [a, b, c] + [d] == [a, b, c, d];
  }

  /** The rest of the pass, the task having just been read. */
  lemma PassDecides(a: State, r: nat)
    requires r in a.reaps && a.reaps[r].phase == Seen
    requires var id := a.reaps[r].task; id in a.tasks && id !in a.unlinking && a.tasks[id] == a.reaps[r].seen && a.tasks[id].status == Claimed
    ensures var u, id := Step(Step(Step(a, ReapTest(r)), ReapDecide(r)), ReapWrite(r)), a.reaps[r].task;
      if (id in a.locks ==> a.now - a.locks[id] > 30_000)
         && a.now - (if a.tasks[id].claimedAt.Some? then a.tasks[id].claimedAt.value else 0) > 30_000
      then u.tasks == a.tasks[id := a.tasks[id].(status := Pending, owner := None, claimedAt := None)] && id in u.unlinking
      else u.tasks == a.tasks && u.unlinking == a.unlinking
  {
    var x := a.reaps[r];
    var b := a.(reaps := a.reaps[r := x.(phase := Tested(LockFresh(a, x.task)))]);
    assert Step(a, ReapTest(r)) == b;
    var at := if x.seen.claimedAt.Some? then x.seen.claimedAt.value else 0;
    if IsClaimStale(LockFresh(a, x.task), at, a.now, CLAIM_TTL_MS) {
      var c := b.(reaps := b.reaps[r := b.reaps[r].(phase := Stale)]);
      assert Step(b, ReapDecide(r)) == c;
      WritingStep(c, ReapWrite(r));
      ReapWriteIff(c, r);
      UpdateExactly(c.tasks[x.task], RESET, Condition(None, Some(Claimed), x.seen.claimedAt));
    } else {
      assert r !in Step(b, ReapDecide(r)).reaps;
    }
  }

  // ---- The two conditions are needed -------------------------------------------------------------

  const FREE := Patch(Some(Pending), Put(None), Put({}), Put(None))

  /** `s` with task `i` back to pending, without blockers and without a claim lock. */
  function Freed(s: State, i: Id): State
    requires i in s.tasks
  {
    s.(tasks := s.tasks[i := Task(Pending, None, {}, None, s.tasks[i].claim)], locks := s.locks - {i})
  }

  /** A claimed task can be released and its blockers dropped. */
  lemma Release(s: State, i: Id) returns (es: seq<Event>)
    requires i in s.tasks && i !in s.unlinking && s.tasks[i].status == Claimed
    ensures Leads(s, es, Freed(s, i))
  {
    var t := s.(tasks := Freed(s, i).tasks, unlinking := s.unlinking + {i});
    es := Extend(s, [], s, Update(i, FREE, ANY));
    assert s.unlinking + {i} - {i} == s.unlinking;
    es := Extend(s, es, t, Unlink(i, true));
  }

  function SeenAt(x: Reap): int {
    if x.seen.claimedAt.Some? then x.seen.claimedAt.value else 0
  }

  function Found(s: State, r: nat): State
    requires r in s.reaps
  {
    s.(reaps := s.reaps[r := s.reaps[r].(phase := Stale)])
  }

  /** A reaper whose claim lock is gone or old, and whose claim time is long past, finds the claim stale. */
  lemma FindsStale(s: State, r: nat) returns (es: seq<Event>)
    requires r in s.reaps && s.reaps[r].phase == Seen && !LockFresh(s, s.reaps[r].task)
    requires s.now > SeenAt(s.reaps[r]) + CLAIM_TTL_MS
    ensures Leads(s, es, Found(s, r))
  {
    var x := s.reaps[r];
    var t := s.(reaps := s.reaps[r := x.(phase := Tested(false))]);
    es := Extend(s, [], s, ReapTest(r));
    es := Extend(s, es, t, ReapDecide(r));
    assert t.reaps[r := x.(phase := Stale)] == s.reaps[r := x.(phase := Stale)];
  }

  /** The reading `x` was the last thing that happened to its task; nobody is claiming, and `o` holds no
      other task. */
  predicate JustRead(s: State, r: nat, o: Name) {
    && r in s.reaps && s.reaps[r].phase == Seen && s.reaps[r].readAt == s.now
    && s.reaps[r].task in s.tasks && s.reaps[r].seen == s.tasks[s.reaps[r].task] && s.reaps[r].seen.status == Claimed
    && s.reaps[r].task !in s.unlinking && s.claim.None?
    && forall i :: i in s.tasks && i != s.reaps[r].task ==> !ActiveBy(s.tasks[i], o)
  }

  /** The reaper is about to reset a claim by `o` that is not the one it read. */
  predicate DestroysLater(u: State, r: nat, x: Reap, o: Name) {
    && r in u.reaps && u.reaps[r] == x.(phase := Stale) && Writes(u, ReapWrite(r))
    && u.tasks[x.task].claim != x.seen.claim && u.tasks[x.task].owner == Some(o)
  }

  /** `s` with task `i` claimed by `o` now. */
  function ClaimedNow(s: State, i: Id, o: Name): State {
    s.(tasks := s.tasks[i := Task(Claimed, Some(o), {}, Some(s.now), s.claims + 1)],
       locks := s.locks[i := s.now], claims := s.claims + 1)
  }

  /** A claim read in the millisecond it was made: if the task is released and claimed again in that
      millisecond, the later claim passes for the one that was read, whoever makes it. */
  lemma SameMillisecondClaimIsDestroyed(s: State, r: nat, o: Name) returns (es: seq<Event>)
    requires JustRead(s, r, o) && Numbered(s) && s.reaps[r].seen.claimedAt == Some(s.now)
    ensures OrdinaryRun(es) && DestroysLater(After(s, es), r, s.reaps[r], o)
  {
    var x, i := s.reaps[r], s.reaps[r].task;
    es := Release(s, i);
    var s1 := Freed(s, i);
    var claim := ClaimSucceeds(s1, i, o);
    var s2 := ClaimedNow(s1, i, o);
    es := Join(s, es, s1, claim, s2);
    var s3 := s2.(now := s2.now + CLAIM_TTL_MS + 1);
    es := Extend(s, es, s2, Tick(CLAIM_TTL_MS + 1));
    var find := FindsStale(s3, r);
    es := Join(s, es, s3, find, Found(s3, r));
    ReapWriteIff(Found(s3, r), r);
  }

  /** A claim read without a claim time: once the reaper has found it stale, any later claim passes. */
  lemma UntimedClaimIsDestroyed(s: State, r: nat, o: Name) returns (es: seq<Event>)
    requires JustRead(s, r, o) && Numbered(s) && s.reaps[r].seen.claimedAt.None?
    ensures OrdinaryRun(es) && DestroysLater(After(s, es), r, s.reaps[r], o)
  {
    var x, i := s.reaps[r], s.reaps[r].task;
    es := Release(s, i);
    var s1 := Freed(s, i);
    var wait: nat := if s.now > CLAIM_TTL_MS then 0 else CLAIM_TTL_MS + 1 - s.now;
    var s2 := s1.(now := s1.now + wait);
    es := Extend(s, es, s1, Tick(wait));
    var find := FindsStale(s2, r);
    var s3 := Found(s2, r);
    es := Join(s, es, s2, find, s3);
    var claim := ClaimSucceeds(s3, i, o);
    es := Join(s, es, s3, claim, ClaimedNow(s3, i, o));
    ReapWriteIff(ClaimedNow(s3, i, o), r);
  }

  // ---- Claim times lie in the past -----------------------------------------------------------------

  predicate TimesPast(s: State) {
    && (forall i :: i in s.tasks && s.tasks[i].claimedAt.Some? ==> s.tasks[i].claimedAt.value <= s.now)
    && (s.claim.Some? && s.claim.value.phase.Flip? ==> s.claim.value.phase.claimedAt <= s.now)
  }

  lemma ClaimKeepsTimesPast(s: State, e: Event)
    requires TimesPast(s) && s.claim.Some?
    ensures TimesPast(ClaimStep(s, e))
  {
    var c, u := s.claim.value, ClaimStep(s, e);
    if !(e.FlipWrite? && c.phase.Flip?) { assert u.tasks == s.tasks && u.now == s.now; }
  }

  lemma TimesPastStep(s: State, e: Event)
    requires TimesPast(s) && OrdinaryEvent(e)
    ensures TimesPast(Step(s, e))
  {
    if Quiet(e) {
      QuietStep(s, e);
    } else if e.Update? || e.ReapWrite? {
      WritingStep(s, e);
      var t := TargetOf(s, e);
      if Writes(s, e) { OrdinaryNeverActivates(s.tasks[t.id], t.patch, t.cond); }
    } else if !e.Create? && !e.Begin? && s.claim.Some? {
      ClaimKeepsTimesPast(s, e);
    }
  }

  lemma {:induction false} TimesPastHolds(now: int, es: seq<Event>)
    requires OrdinaryRun(es)
    ensures TimesPast(After(Start(now), es))
  {
    if es != [] {
      TimesPastHolds(now, es[..|es| - 1]);
      TimesPastStep(After(Start(now), es[..|es| - 1]), es[|es| - 1]);
    }
  }

  ghost predicate CanDestroyLater(s: State, r: nat, o: Name)
    requires r in s.reaps
  {
    exists es :: OrdinaryRun(es) && DestroysLater(After(s, es), r, s.reaps[r], o)
  }

  /** In any reachable state in which a reaper has just read a claim, and for any member without another
      task: the reaper may come to destroy a later claim by that member exactly if the claim it read
      carries no claim time or was made in the millisecond of the reading. */
  lemma LaterClaimIsDestroyedExactly(now: int, past: seq<Event>, r: nat, o: Name)
    requires OrdinaryRun(past) && JustRead(After(Start(now), past), r, o)
    ensures var s := After(Start(now), past);
      CanDestroyLater(s, r, o)
      <==> s.reaps[r].seen.claimedAt.None? || s.reaps[r].seen.claimedAt == Some(s.reaps[r].readAt)
  {
    var s := After(Start(now), past);
    ReaperInvHolds(now, past);
    TimesPastHolds(now, past);
    var x := s.reaps[r];
    if x.seen.claimedAt.None? {
      var es := UntimedClaimIsDestroyed(s, r, o);
    } else if x.seen.claimedAt == Some(x.readAt) {
      var es := SameMillisecondClaimIsDestroyed(s, r, o);
    } else {
      forall es | OrdinaryRun(es) ensures !DestroysLater(After(s, es), r, x, o) {
        TimedClaimIsSafe(now, past, r, o, es);
      }
    }
  }

  lemma TimedClaimIsSafe(now: int, past: seq<Event>, r: nat, o: Name, es: seq<Event>)
    requires OrdinaryRun(past) && OrdinaryRun(es) && r in After(Start(now), past).reaps
    requires var x := After(Start(now), past).reaps[r]; x.seen.claimedAt.Some? && x.seen.claimedAt.value < x.readAt
    ensures var s := After(Start(now), past); !DestroysLater(After(s, es), r, s.reaps[r], o)
  {
    var s := After(Start(now), past);
    AfterConcat(Start(now), past, es);
    if DestroysLater(After(s, es), r, s.reaps[r], o) {
      ReaperResetsOnlyTheClaimItSaw(now, past + es, r);
      assert false;
    }
  }
}
