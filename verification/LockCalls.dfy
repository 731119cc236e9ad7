/** `withLock` as it runs: the acquisition loop, the body and the release, with other callers and
    processes acting at every point where the call waits.  Every execution is a run of FileLock. */
module LockCalls {
  import opened FileLock
  import opened Options

  const LOCK_POLL_MS := 50
  const LOCK_MAX_WAIT_MS := 30_000

  /** What others do during the waits of a call: before each retry, before the pid is written, before
      the file is closed, before each heartbeat and at the end of the body, and after the release;
      whether the `k`-th stale-lock pass can unlink; whether writing the pid, closing or releasing
      fails, and whether the file can then be removed. */
  datatype World = World(
    retry: nat -> seq<Event>, fill: seq<Event>, close: seq<Event>, body: nat -> seq<Event>, settle: seq<Event>,
    unlinks: nat -> bool, writeFails: bool, closeFails: bool, removed: bool, releaseFails: bool)

  /** Steps of other calls and processes; the process of `c` stays alive. */
  predicate Others(es: seq<Event>, c: Caller) {
    forall i :: 0 <= i < |es| ==> OtherStep(es[i], c)
  }

  predicate OtherStep(e: Event, c: Caller) {
    ((ByCaller(e) || e.Create?) ==> e.c != c) && e != Crash(c.pid)
  }

  ghost predicate Interferes(w: World, c: Caller) {
    && (forall k: nat :: Others(w.retry(k), c)) && (forall k: nat :: Others(w.body(k), c))
    && Others(w.fill, c) && Others(w.close, c) && Others(w.settle, c)
  }

  lemma {:induction false} OthersLeaveCaller(s: State, es: seq<Event>, c: Caller)
    requires Others(es, c) && c.pid in s.alive
    ensures var t := After(s, es);
      && c.pid in t.alive && t.now >= s.now
      && (c in t.callers <==> c in s.callers) && (c in s.callers ==> t.callers[c] == s.callers[c])
  {
    if es != [] {
      var n := |es| - 1;
      OthersLeaveCaller(s, es[..n], c);
      OtherLeavesCaller(After(s, es[..n]), es[n], c);
    }
  }

  lemma OtherLeavesCaller(s: State, e: Event, c: Caller)
    requires OtherStep(e, c) && c.pid in s.alive
    ensures var t := Step(s, e);
      && c.pid in t.alive && t.now >= s.now
      && (c in t.callers <==> c in s.callers) && (c in s.callers ==> t.callers[c] == s.callers[c])
  {
  }

  lemma {:induction false} AfterConcat(s: State, a: seq<Event>, b: seq<Event>)
    ensures After(s, a + b) == After(After(s, a), b)
    decreases |b|
  {
    if b == [] {
      assert a + b == a;
    } else {
      AfterConcat(s, a, b[..|b| - 1]);
      assert (a + b)[..|a + b| - 1] == a + b[..|b| - 1];
    }
  }

  /** The steps inside: what others do before each heartbeat, the heartbeats, and what they do at the end. */
  function BodySteps(w: World, c: Caller, beats: nat): seq<Event> {
    if beats == 0 then w.body(0) else BodySteps(w, c, beats - 1) + [Beat(c)] + w.body(beats)
  }

  class LockPath {
    const began: int
    const processes: set<Pid>
    var s: State
    /** Everything that has happened at this path. */
    ghost var run: seq<Event>

    constructor (began: int, processes: set<Pid>)
      ensures Valid() && s == FileLock.Start(began, processes) && run == []
    {
      this.began, this.processes := began, processes;
      s, run := FileLock.Start(began, processes), [];
    }

    ghost predicate Valid()
      reads this
    {
      s == After(FileLock.Start(began, processes), run)
    }

    method Do(e: Event)
      requires Valid()
      modifies this
      ensures Valid() && s == Step(old(s), e) && run == old(run) + [e]
    {
      s := Step(s, e);
      run := run + [e];
      assert run[..|run| - 1] == old(run);
    }

    method Wait(es: seq<Event>, c: Caller)
      requires Valid() && Others(es, c) && c.pid in s.alive
      modifies this
      ensures Valid() && s == After(old(s), es) && run == old(run) + es
      ensures c.pid in s.alive && s.now >= old(s).now
      ensures (c in s.callers <==> c in old(s).callers) && (c in s.callers ==> s.callers[c] == old(s).callers[c])
    {
      OthersLeaveCaller(s, es, c);
      AfterConcat(FileLock.Start(began, processes), run, es);
      s := After(s, es);
      run := run + es;
    }

    /** One step of the call itself, known to take it to phase `ph`, or to its end. */
    method Move(c: Caller, e: Event, ph: Option<Phase>)
      requires Valid() && Moves(s, c, e, ph)
      modifies this
      ensures Valid() && run == old(run) + [e] && s.alive == old(s).alive && s.now == old(s).now
      ensures s.file == Step(old(s), e).file && s.unreleased == Step(old(s), e).unreleased
      ensures s.callers == if ph.Some? then old(s).callers[c := ph.value] else old(s).callers - {c}
    {
      Do(e);
    }

    /** Try to create the file; while it exists, run the stale-lock pass and poll until the deadline.  The
        call gives up only past the deadline, and polls a bounded number of times before. */
    method AcquireLock(c: Caller, w: World) returns (ok: bool, timedOut: bool, polls: nat)
      requires Valid() && c.pid in s.alive && c !in s.callers && Interferes(w, c)
      modifies this
      ensures Valid() && c.pid in s.alive && old(run) <= run
      ensures if ok then c in s.callers && s.callers[c] == Holding else c !in s.callers
      ensures timedOut ==> s.now > old(s).now + LOCK_MAX_WAIT_MS
      ensures ok == !(timedOut || w.writeFails || w.closeFails)
      ensures polls <= LOCK_MAX_WAIT_MS / LOCK_POLL_MS + 1
      ensures old(s).file.None? ==> !timedOut
    {
      var deadline := s.now + LOCK_MAX_WAIT_MS;
      polls, timedOut := 0, false;
      while s.file.Some?
        invariant Valid() && c.pid in s.alive && c !in s.callers && old(run) <= run
        invariant polls * LOCK_POLL_MS <= s.now - old(s).now && polls <= LOCK_MAX_WAIT_MS / LOCK_POLL_MS + 1
        invariant old(s).file.None? ==> s == old(s)
        decreases deadline - s.now
      {
        ReapKeepsClock(s, c.pid, w.unlinks(polls));
        Do(Reap(c.pid, w.unlinks(polls)));
        if s.now > deadline { return false, true, polls; }
        Do(Tick(LOCK_POLL_MS));
        Wait(w.retry(polls), c);
        polls := polls + 1;
      }
      MoveCreate(s, c);
      Move(c, Create(c), Some(Created(s.now, s.inodes)));
      ok := FillLock(c, w);
    }

    /** The file has just been created: write the pid and close. */
    method FillLock(c: Caller, w: World) returns (ok: bool)
      requires Valid() && c.pid in s.alive && c in s.callers && s.callers[c].Created? && Interferes(w, c)
      modifies this
      ensures Valid() && c.pid in s.alive && old(run) <= run
      ensures ok == !(w.writeFails || w.closeFails)
      ensures if ok then c in s.callers && s.callers[c] == Holding else c !in s.callers
    {
      hide Step, After;
      Wait(w.fill, c);
      MoveFill(s, c, w.removed);
      if w.writeFails {
        Move(c, FailWrite(c, w.removed), None);
        return false;
      }
      Move(c, WritePid(c), Some(Written));
      Wait(w.close, c);
      MoveClose(s, c, w.removed);
      if w.closeFails {
        Move(c, FailClose(c, w.removed), None);
        return false;
      }
      Move(c, Close(c), Some(Holding));
      ok := true;
    }

    /** Release; a failure is remembered for the next acquisition.  `left` is the state right after the
        release: the file is untouched by a failed release, and otherwise gone if it was the caller's. */
    method ReleaseLock(c: Caller, w: World) returns (ghost left: State)
      requires Valid() && c.pid in s.alive && c in s.callers && s.callers[c] == Holding && Interferes(w, c)
      modifies this
      ensures Valid() && c !in s.callers
      ensures run == old(run) + [if w.releaseFails then FailRelease(c) else Release(c)] + w.settle + [Settle(c)]
      ensures left == After(FileLock.Start(began, processes), run[..|old(run)| + 1])
      ensures left.file == if !w.releaseFails && OwnFile(old(s), c) then None else old(s).file
      ensures c.pid in s.unreleased <==> w.releaseFails
    {
      MoveRelease(s, c);
      if w.releaseFails { Move(c, FailRelease(c), Some(Failed)); } else { Move(c, Release(c), Some(Released)); }
      left := s;
      ghost var mid := run;
      Wait(w.settle, c);
      MoveSettle(s, c);
      Move(c, Settle(c), None);
      assert run[..|old(run)| + 1] == mid;
    }

    /** The time inside: `beats` heartbeats among the steps of others. */
    method Body(c: Caller, w: World, beats: nat) returns (ghost body: seq<Event>)
      requires Valid() && c.pid in s.alive && c in s.callers && s.callers[c] == Holding && Interferes(w, c)
      modifies this
      ensures Valid() && c.pid in s.alive && c in s.callers && s.callers[c] == Holding
      ensures run == old(run) + body && InsideSteps(body, c) && body == BodySteps(w, c, beats)
    {
      hide Step, After;
      body := [];
      var k := 0;
      while k < beats
        invariant 0 <= k <= beats && body + w.body(k) == BodySteps(w, c, k)
        invariant Valid() && c.pid in s.alive && c in s.callers && s.callers[c] == Holding
        invariant run == old(run) + body && InsideSteps(body, c)
      {
        Wait(w.body(k), c);
        MoveBeat(s, c);
        Move(c, Beat(c), Some(Holding));
        body := body + w.body(k) + [Beat(c)];
        k := k + 1;
      }
      Wait(w.body(k), c);
      body := body + w.body(k);
    }

    /** Acquire, run the body, release.  The body runs only inside the lock, and the call leaves nothing of
        itself behind, whatever fails. */
    method WithLock(c: Caller, w: World, beats: nat) returns (ok: bool, ghost before: seq<Event>, ghost body: seq<Event>)
      requires Valid() && c.pid in s.alive && c !in s.callers && Interferes(w, c)
      modifies this
      ensures Valid() && c !in s.callers
      ensures old(run) <= before && before + body <= run && InsideSteps(body, c)
      ensures ok ==> Inside(After(FileLock.Start(began, processes), before), c)
      ensures ok ==> body == BodySteps(w, c, beats)
      ensures ok ==> run == before + body + [if w.releaseFails then FailRelease(c) else Release(c)] + w.settle + [Settle(c)]
      ensures !ok ==> body == [] && run == before
      ensures !ok <== w.writeFails || w.closeFails
      ensures !ok ==> w.writeFails || w.closeFails || (old(s).file.Some? && s.now > old(s).now + LOCK_MAX_WAIT_MS)
    {
      var timedOut, polls;
      ok, timedOut, polls := AcquireLock(c, w);
      before, body := run, [];
      if !ok { return; }
      body := Body(c, w, beats);
      ghost var left := ReleaseLock(c, w);
    }
  }

  predicate Inside(s: State, c: Caller) {
    c in s.callers && s.callers[c] == Holding && c.pid in s.alive
  }

  /** While the caller is inside, others act and it refreshes the file. */
  predicate InsideSteps(es: seq<Event>, c: Caller) {
    forall i :: 0 <= i < |es| ==> es[i] == Beat(c) || OtherStep(es[i], c)
  }

  predicate Moves(s: State, c: Caller, e: Event, ph: Option<Phase>) {
    var t := Step(s, e);
    t.alive == s.alive && t.now == s.now && t.callers == if ph.Some? then s.callers[c := ph.value] else s.callers - {c}
  }

  lemma MoveCreate(s: State, c: Caller)
    requires s.file.None? && c !in s.callers && c.pid in s.alive
    ensures Moves(s, c, Create(c), Some(Created(s.now, s.inodes)))
  {
  }

  lemma MoveFill(s: State, c: Caller, removed: bool)
    requires c in s.callers && s.callers[c].Created?
    ensures Moves(s, c, WritePid(c), Some(Written)) && Moves(s, c, FailWrite(c, removed), None)
  {
  }

  lemma MoveClose(s: State, c: Caller, removed: bool)
    requires c in s.callers && s.callers[c] == Written
    ensures Moves(s, c, Close(c), Some(Holding)) && Moves(s, c, FailClose(c, removed), None)
  {
  }

  lemma MoveBeat(s: State, c: Caller)
    requires c in s.callers && s.callers[c] == Holding
    ensures Moves(s, c, Beat(c), Some(Holding))
  {
    assert s.callers[c := Holding] == s.callers;
  }

  /** The file at the path holds the caller's pid. */
  predicate OwnFile(s: State, c: Caller) {
    s.file.Some? && s.file.value.pid == Some(c.pid)
  }

  lemma ReapKeepsClock(s: State, p: Pid, unlinked: bool)
    ensures Step(s, Reap(p, unlinked)).now == s.now
  {
  }

  lemma MoveRelease(s: State, c: Caller)
    requires c in s.callers && s.callers[c] == Holding
    ensures Moves(s, c, Release(c), Some(Released)) && Moves(s, c, FailRelease(c), Some(Failed))
    ensures Step(s, Release(c)).file == if OwnFile(s, c) then None else s.file
    ensures Step(s, FailRelease(c)).file == s.file
  {
  }

  lemma MoveSettle(s: State, c: Caller)
    requires c in s.callers && (s.callers[c] == Released || s.callers[c] == Failed)
    ensures Moves(s, c, Settle(c), None)
    ensures c.pid in Step(s, Settle(c)).unreleased <==> s.callers[c] == Failed
  {
  }

  lemma {:induction false} StaysInside(s: State, es: seq<Event>, c: Caller)
    requires Inside(s, c) && InsideSteps(es, c)
    ensures Inside(After(s, es), c)
  {
    if es != [] {
      var n := |es| - 1;
      StaysInside(s, es[..n], c);
      if es[n] == Beat(c) { MoveBeat(After(s, es[..n]), c); } else { OtherLeavesCaller(After(s, es[..n]), es[n], c); }
    }
  }

  /** At every point of a body, if nobody has dawdled so far, its caller is the only one inside. */
  lemma AloneInTheBody(began: int, processes: set<Pid>, before: seq<Event>, body: seq<Event>, k: nat, c: Caller, d: Caller)
    requires Inside(After(FileLock.Start(began, processes), before), c) && InsideSteps(body, c) && k <= |body|
    requires PromptRun(FileLock.Start(began, processes), before + body[..k])
    ensures var s := After(FileLock.Start(began, processes), before + body[..k]);
      Inside(s, c) && (d in s.callers && s.callers[d] == Holding ==> d == c)
  {
    AfterConcat(FileLock.Start(began, processes), before, body[..k]);
    StaysInside(After(FileLock.Start(began, processes), before), body[..k], c);
    MutualExclusion(began, processes, before + body[..k], c, d);
  }
}
