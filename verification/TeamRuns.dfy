/** Whole runs: any number of processes edit their own live copy of a team, save it and reload
    it, in any order, against one state file. */
module TeamRuns {
  import opened Json
  import opened TeamMerge
  import opened TeamStore
  import opened Options

  /** One process, with what it has done so far: `saved` and `pending` split its sends minus
      refunds into those a save has carried to disk and those none has. */
  datatype Process = Process(live: TeamState, snapshot: TeamState, saved: int, pending: int)

  datatype World = World(disk: TeamState, processes: map<nat, Process>)

  datatype Event =
    | Edit(p: nat, live: TeamState)
    | Save(p: nat, live: TeamState, enc: Encoding)
    | Reload(p: nat, live: TeamState)

  function Count(s: TeamState): int {
    NumOrZero(Field(s.activeTask, "messagesSent"))
  }

  ghost predicate Next(w: World, e: Event, w': World) {
    e.p in w.processes &&
    var q := w.processes[e.p];
    match e
    case Edit(p, live) =>
      && WellFormed(live)
      && w' == w.(processes := w.processes[p := q.(
           live := live,
           pending := q.pending + (Count(live) - Count(q.live)))])
    case Save(p, live, enc) =>
      && WellFormed(live)
      && var stored := Stored(MergeTeamState(w.disk, q.snapshot, q.live), enc);
      && SaveEffect(Good(w.disk), Some(q.snapshot), q.live, enc, stored, live)
      && w' == World(stored, w.processes[p := q.(
           live := live, snapshot := stored, saved := q.saved + q.pending, pending := 0)])
    case Reload(p, live) =>
      && WellFormed(live)
      && ReloadEffect(w.disk, q.snapshot, q.live, live)
      && w' == w.(processes := w.processes[p := q.(live := live, snapshot := CloneState(w.disk))])
  }

  /** A finite run. */
  ghost predicate Run(ws: seq<World>, es: seq<Event>) {
    && |ws| == |es| + 1
    && forall i :: 0 <= i < |es| ==> Next(ws[i], es[i], ws[i + 1])
  }

  /** Every state.json and every live team has passed validation. */
  ghost predicate WorldValid(w: World) {
    && WellFormed(w.disk) && ParsedState(w.disk)
    && forall p :: p in w.processes ==> WellFormed(w.processes[p].live) && WellFormed(w.processes[p].snapshot)
  }

  // ---- Membership -----------------------------------------------------------------------------

  lemma StoredMembers(target: TeamState, enc: Encoding)
    requires UniqueNames(target.members)
    ensures Names(Stored(target, enc).members) == Names(target.members)
  {
    CloneMembersAgree(target.members);
  }

  lemma StoredValid(disk: TeamState, snapshot: TeamState, live: TeamState, enc: Encoding)
    requires WellFormed(disk) && ParsedState(disk) && WellFormed(live)
    ensures var stored := Stored(MergeTeamState(disk, snapshot, live), enc);
      WellFormed(stored) && ParsedState(stored)
  {
    var target := MergeTeamState(disk, snapshot, live);
    TargetShape(disk, snapshot, live);
    CloneIsParsed(target);
    TrimmedIsParsed(CloneState(target), enc);
  }

  lemma NextValid(w: World, e: Event, w': World)
    requires WorldValid(w) && Next(w, e, w')
    ensures WorldValid(w')
  {
    if e.Save? {
      StoredValid(w.disk, w.processes[e.p].snapshot, w.processes[e.p].live, e.enc);
    }
    if e.Reload? {
      CloneIsParsed(w.disk);
    }
  }

  /** One save changes the stored membership by exactly the edits its process has pending. */
  lemma SaveAppliesEdits(disk: TeamState, snapshot: TeamState, live: TeamState, enc: Encoding)
    requires WellFormed(disk) && ParsedState(disk) && WellFormed(live)
    ensures var A, C := Names(snapshot.members), Names(live.members);
      Names(Stored(MergeTeamState(disk, snapshot, live), enc).members) == (Names(disk.members) - (A - C)) + (C - A)
  {
    Membership(disk.members, snapshot.members, live.members);
    TargetShape(disk, snapshot, live);
    StoredMembers(MergeTeamState(disk, snapshot, live), enc);
  }

  /** After a save nothing is pending. */
  lemma SavedNames(disk: TeamState, snapshot: TeamState, live: TeamState, enc: Encoding, live': TeamState)
    requires WellFormed(disk) && ParsedState(disk) && WellFormed(live) && WellFormed(snapshot)
    requires SaveEffect(Good(disk), Some(snapshot), live, enc, Stored(MergeTeamState(disk, snapshot, live), enc), live')
    ensures Names(live'.members) == Names(Stored(MergeTeamState(disk, snapshot, live), enc).members)
  {
    if !DiskChanged(Good(disk), Some(snapshot)) {
      SameClones(disk.members, snapshot.members);
      SaveAppliesEdits(disk, snapshot, live, enc);
    }
  }

  /** A reload creates no edit: what is pending afterwards was pending before. */
  lemma ReloadedNames(disk: TeamState, snapshot: TeamState, live: TeamState, live': TeamState)
    requires WellFormed(disk) && ReloadEffect(disk, snapshot, live, live')
    ensures var A, C, D, C' := Names(snapshot.members), Names(live.members), Names(CloneState(disk).members), Names(live'.members);
      C' - D <= C - A && D - C' <= A - C
  {
    Membership(disk.members, snapshot.members, live.members);
    CloneMembersAgree(disk.members);
  }

  /** The process has removed, or added, `n` and not saved that. */
  predicate PendingRemoval(q: Process, n: string) {
    n in Names(q.snapshot.members) && n !in Names(q.live.members)
  }

  predicate PendingAdd(q: Process, n: string) {
    n !in Names(q.snapshot.members) && n in Names(q.live.members)
  }

  /** What is pending after an event was pending before and not saved, or is what the event edited. */
  lemma PendingStep(w: World, e: Event, w': World, p: nat, n: string)
    requires WorldValid(w) && Next(w, e, w') && p in w'.processes
    ensures p in w.processes
    ensures PendingRemoval(w'.processes[p], n) ==>
      || (e.p == p && e.Edit? && n in Names(w.processes[p].live.members) && n !in Names(e.live.members))
      || (PendingRemoval(w.processes[p], n) && !(e.p == p && e.Save?))
    ensures PendingAdd(w'.processes[p], n) ==>
      || (e.p == p && e.Edit? && n !in Names(w.processes[p].live.members) && n in Names(e.live.members))
      || (PendingAdd(w.processes[p], n) && !(e.p == p && e.Save?))
  {
    if e.p == p {
      var q := w.processes[p];
      match e
      case Edit(_, _) =>
      case Save(_, live, enc) => SavedNames(w.disk, q.snapshot, q.live, enc, live);
      case Reload(_, live) => ReloadedPending(w.disk, q, live, n);
    }
  }

  lemma ReloadedPending(disk: TeamState, q: Process, live: TeamState, n: string)
    requires WellFormed(disk) && ReloadEffect(disk, q.snapshot, q.live, live)
    ensures n in Names(CloneState(disk).members) && n !in Names(live.members) ==> PendingRemoval(q, n)
    ensures n !in Names(CloneState(disk).members) && n in Names(live.members) ==> PendingAdd(q, n)
  {
    ReloadedNames(disk, q.snapshot, q.live, live);
    hide Names, ReloadEffect, CloneState;
    var D, C := Names(CloneState(disk).members), Names(live.members);
    assert n in D && n !in C ==> n in D - C;
    assert n in C && n !in D ==> n in C - D;
  }

  /** Event `j` is an edit in which `p` removed, or added, `n`. */
  ghost predicate Removes(ws: seq<World>, es: seq<Event>, j: nat, p: nat, n: string) {
    && j < |es| && j < |ws| && es[j].Edit? && es[j].p == p && p in ws[j].processes
    && n in Names(ws[j].processes[p].live.members) && n !in Names(es[j].live.members)
  }

  ghost predicate Adds(ws: seq<World>, es: seq<Event>, j: nat, p: nat, n: string) {
    && j < |es| && j < |ws| && es[j].Edit? && es[j].p == p && p in ws[j].processes
    && n !in Names(ws[j].processes[p].live.members) && n in Names(es[j].live.members)
  }

  /** `p` does not save between the events `from` and `to`. */
  predicate NoSave(es: seq<Event>, from: nat, to: nat, p: nat) {
    forall k :: from <= k < to && k < |es| ==> !(es[k].Save? && es[k].p == p)
  }

  /** The removal pending at `i` was pending from the start, or made by an edit of `p`, and not saved since. */
  ghost predicate RemovalMade(ws: seq<World>, es: seq<Event>, i: nat, p: nat, n: string)
    requires |ws| > 0
  {
    || (p in ws[0].processes && PendingRemoval(ws[0].processes[p], n) && NoSave(es, 0, i, p))
    || exists j: nat :: j < i && Removes(ws, es, j, p, n) && NoSave(es, j, i, p)
  }

  ghost predicate AddMade(ws: seq<World>, es: seq<Event>, i: nat, p: nat, n: string)
    requires |ws| > 0
  {
    || (p in ws[0].processes && PendingAdd(ws[0].processes[p], n) && NoSave(es, 0, i, p))
    || exists j: nat :: j < i && Adds(ws, es, j, p, n) && NoSave(es, j, i, p)
  }

  lemma {:induction false} ValidThroughout(ws: seq<World>, es: seq<Event>, i: nat)
    requires Run(ws, es) && WorldValid(ws[0]) && i < |ws|
    ensures WorldValid(ws[i])
  {
    hide WorldValid, Next;
    if i > 0 {
      ValidThroughout(ws, es, i - 1);
      NextValid(ws[i - 1], es[i - 1], ws[i]);
    }
  }

  lemma {:induction false} RemovalOrigin(ws: seq<World>, es: seq<Event>, i: nat, p: nat, n: string)
    requires Run(ws, es) && WorldValid(ws[0]) && i < |ws| && p in ws[i].processes && PendingRemoval(ws[i].processes[p], n)
    ensures RemovalMade(ws, es, i, p, n)
  {
    hide WorldValid, Next, PendingRemoval, PendingAdd;
    if i > 0 {
      ValidThroughout(ws, es, i - 1);
      PendingStep(ws[i - 1], es[i - 1], ws[i], p, n);
      if PendingRemoval(ws[i - 1].processes[p], n) && !(es[i - 1].p == p && es[i - 1].Save?) {
        RemovalOrigin(ws, es, i - 1, p, n);
      } else {
        assert Removes(ws, es, i - 1, p, n) && NoSave(es, i - 1, i, p);
      }
    }
  }

  lemma {:induction false} AddOrigin(ws: seq<World>, es: seq<Event>, i: nat, p: nat, n: string)
    requires Run(ws, es) && WorldValid(ws[0]) && i < |ws| && p in ws[i].processes && PendingAdd(ws[i].processes[p], n)
    ensures AddMade(ws, es, i, p, n)
  {
    hide WorldValid, Next, PendingRemoval, PendingAdd;
    if i > 0 {
      ValidThroughout(ws, es, i - 1);
      PendingStep(ws[i - 1], es[i - 1], ws[i], p, n);
      if PendingAdd(ws[i - 1].processes[p], n) && !(es[i - 1].p == p && es[i - 1].Save?) {
        AddOrigin(ws, es, i - 1, p, n);
      } else {
        assert Adds(ws, es, i - 1, p, n) && NoSave(es, i - 1, i, p);
      }
    }
  }

  /** A change of the stored membership is a save of a process that has it pending. */
  lemma NextMembership(w: World, e: Event, w': World, n: string)
    requires WorldValid(w) && Next(w, e, w')
    ensures n in Names(w.disk.members) && n !in Names(w'.disk.members)
            <==> e.Save? && PendingRemoval(w.processes[e.p], n) && n in Names(w.disk.members)
    ensures n !in Names(w.disk.members) && n in Names(w'.disk.members)
            <==> e.Save? && PendingAdd(w.processes[e.p], n) && n !in Names(w.disk.members)
  {
    if e.Save? {
      var q := w.processes[e.p];
      SaveAppliesEdits(w.disk, q.snapshot, q.live, e.enc);
    }
  }

  /** Nothing a process did not do itself, and still has to save, is ever undone by it.  Over any run, a
      stored member disappears at an event only if the event is a save of a process that had removed it
      and had not saved since; and a name appears only in a save of a process that had added it and had
      not saved since.  So a stale process neither drops a member another one added nor brings back a
      member another one removed. */
  lemma MembershipOverRuns(ws: seq<World>, es: seq<Event>, i: nat, n: string)
    requires Run(ws, es) && WorldValid(ws[0]) && i < |es|
    ensures n in Names(ws[i].disk.members) && n !in Names(ws[i + 1].disk.members)
            ==> es[i].Save? && RemovalMade(ws, es, i, es[i].p, n)
    ensures n !in Names(ws[i].disk.members) && n in Names(ws[i + 1].disk.members)
            ==> es[i].Save? && AddMade(ws, es, i, es[i].p, n)
  {
    hide RemovalMade, AddMade, WorldValid;
    ValidThroughout(ws, es, i);
    NextMembership(ws[i], es[i], ws[i + 1], n);
    if n in Names(ws[i].disk.members) && n !in Names(ws[i + 1].disk.members) {
      RemovalOrigin(ws, es, i, es[i].p, n);
    }
    if n !in Names(ws[i].disk.members) && n in Names(ws[i + 1].disk.members) {
      AddOrigin(ws, es, i, es[i].p, n);
    }
  }

  // ---- Conservation of the message counter ---------------------------------------------------------

  /** Messages carried to disk by all processes together. */
  ghost function TotalSaved(ps: map<nat, Process>): int
    decreases |ps|
  {
    if ps == map[] then 0
    else
      var p :| p in ps;
      ps[p].saved + TotalSaved(ps - {p})
  }

  lemma {:induction false} TotalSavedRemove(ps: map<nat, Process>, p: nat)
    requires p in ps
    ensures TotalSaved(ps) == ps[p].saved + TotalSaved(ps - {p})
    decreases |ps|
  {
    var q :| q in ps && TotalSaved(ps) == ps[q].saved + TotalSaved(ps - {q});
    if q != p {
      TotalSavedRemove(ps - {q}, p);
      TotalSavedRemove(ps - {p}, q);
      assert ps - {p} - {q} == ps - {q} - {p};
    }
  }

  lemma TotalSavedUpdate(ps: map<nat, Process>, p: nat, q: Process)
    requires p in ps
    ensures TotalSaved(ps[p := q]) == TotalSaved(ps) - ps[p].saved + q.saved
  {
    TotalSavedRemove(ps, p);
    TotalSavedRemove(ps[p := q], p);
    assert ps[p := q] - {p} == ps - {p};
  }

  lemma {:induction false} TotalSavedNonNegative(ps: map<nat, Process>)
    requires forall p :: p in ps ==> ps[p].saved >= 0
    ensures TotalSaved(ps) >= 0
    decreases |ps|
  {
    if ps != map[] {
      var p :| p in ps && TotalSaved(ps) == ps[p].saved + TotalSaved(ps - {p});
      TotalSavedNonNegative(ps - {p});
    }
  }

  /** No process has refunded more than it sent. */
  ghost predicate NetNonNegative(w: World) {
    forall p :: p in w.processes ==> w.processes[p].saved + w.processes[p].pending >= 0
  }

  /** A live counter is ahead of its snapshot by exactly what its process has not saved. */
  ghost predicate Accounted(q: Process, run: Json) {
    && OnRun(q.live.activeTask, run)
    && OnRun(q.snapshot.activeTask, run)
    && Count(q.live) - Count(q.snapshot) == q.pending
  }

  ghost predicate SavedNonNegative(w: World) {
    forall p :: p in w.processes ==> w.processes[p].saved >= 0
  }

  /** Disk holds what was there initially and every saved delta. */
  ghost predicate Conserved(w: World, initial: int, run: Json) {
    && OnRun(w.disk.activeTask, run)
    && Count(w.disk) == initial + TotalSaved(w.processes)
    && forall p :: p in w.processes ==> Accounted(w.processes[p], run)
  }

  lemma CountJEq(x: Json, y: Json, run: Json)
    requires OnRun(x, run) && JEq(x, y) && run.Str?
    ensures OnRun(y, run) && y.fields["messagesSent"] == x.fields["messagesSent"]
  {
    ObjJEq(x.fields, y.fields);
    assert JEq(Get(x.fields, "messagesSent"), Get(y.fields, "messagesSent"));
    assert JEq(Get(x.fields, "runId"), Get(y.fields, "runId"));
  }

  /** Neither cloning nor cutting long responses touches the run id or the counter. */
  lemma StoredCount(target: TeamState, enc: Encoding, run: Json)
    requires OnRun(target.activeTask, run) && run.Str?
    ensures OnRun(Stored(target, enc).activeTask, run) && Count(Stored(target, enc)) == Count(target)
  {
    NormIdempotent(target.activeTask);
    CountJEq(target.activeTask, Norm(target.activeTask), run);
  }

  /** The raw sum a save writes before clamping. */
  function Unclamped(disk: TeamState, q: Process): int {
    Count(disk) + (Count(q.live) - Count(q.snapshot))
  }

  /** In a conserved world the clamp has nothing to do for a process with a non-negative net. */
  lemma ClampIdle(w: World, p: nat, initial: nat, run: Json)
    requires Conserved(w, initial, run) && SavedNonNegative(w) && p in w.processes
    requires w.processes[p].saved + w.processes[p].pending >= 0
    ensures Unclamped(w.disk, w.processes[p]) >= 0
  {
    assert Accounted(w.processes[p], run);
    TotalSavedRemove(w.processes, p);
    TotalSavedNonNegative(w.processes - {p});
  }

  lemma SaveCounts(disk: TeamState, snapshot: TeamState, live: TeamState, enc: Encoding, live': TeamState, run: Json)
    requires OnRun(disk.activeTask, run) && OnRun(snapshot.activeTask, run) && OnRun(live.activeTask, run) && run.Str?
    requires SaveEffect(Good(disk), Some(snapshot), live, enc, Stored(MergeTeamState(disk, snapshot, live), enc), live')
    ensures var stored := Stored(MergeTeamState(disk, snapshot, live), enc);
      && OnRun(stored.activeTask, run) && OnRun(live'.activeTask, run)
      && Count(stored) == Max(0, Count(disk) + (Count(live) - Count(snapshot)))
      && (Count(disk) + (Count(live) - Count(snapshot)) >= 0 ==> Count(live') == Count(stored))
  {
    MergedCounter(disk.activeTask, snapshot.activeTask, live.activeTask, run);
    StoredCount(MergeTeamState(disk, snapshot, live), enc, run);
    if DiskChanged(Good(disk), Some(snapshot)) {
      CountJEq(Stored(MergeTeamState(disk, snapshot, live), enc).activeTask, live'.activeTask, run);
    } else {
      CountJEq(disk.activeTask, snapshot.activeTask, run);
    }
  }

  lemma ReloadCounts(disk: TeamState, snapshot: TeamState, live: TeamState, live': TeamState, run: Json)
    requires OnRun(disk.activeTask, run) && OnRun(snapshot.activeTask, run) && OnRun(live.activeTask, run) && run.Str?
    requires ReloadEffect(disk, snapshot, live, live') && WellFormed(live')
    ensures OnRun(live'.activeTask, run) && OnRun(CloneState(disk).activeTask, run)
    ensures Count(live') == Max(0, Count(disk) + (Count(live) - Count(snapshot))) && Count(CloneState(disk)) == Count(disk)
  {
    var merged := MergeTeamState(disk, snapshot, live).activeTask;
    MergedCounter(disk.activeTask, snapshot.activeTask, live.activeTask, run);
    assert JEq(Field(live'.activeTask, "messagesSent"), Field(merged, "messagesSent"));
    assert JEq(Field(live'.activeTask, "runId"), Field(merged, "runId"));
    NormIdempotent(disk.activeTask);
    CountJEq(disk.activeTask, Norm(disk.activeTask), run);
  }

  /** The clamp at zero has nothing to do in the merge of this event. */
  ghost predicate ClampSilent(w: World, e: Event) {
    e.p in w.processes && !e.Edit? ==> Unclamped(w.disk, w.processes[e.p]) >= 0
  }

  /** What an event does to the books of its process, and to the count on disk. */
  lemma NextAccounts(q: Process, e: Event, w: World, w': World, run: Json)
    requires Next(w, e, w') && q == w.processes[e.p]
    requires OnRun(w.disk.activeTask, run) && Accounted(q, run) && run.Str?
    requires e.Edit? ==> OnRun(e.live.activeTask, run)
    ensures OnRun(w'.disk.activeTask, run)
    ensures ClampSilent(w, e) <==>
      && Accounted(w'.processes[e.p], run)
      && Count(w'.disk) - Count(w.disk) == w'.processes[e.p].saved - q.saved
  {
    match e
    case Edit(_, _) =>
    case Save(_, live, enc) => SaveCounts(w.disk, q.snapshot, q.live, enc, live, run);
    case Reload(_, live) => ReloadCounts(w.disk, q.snapshot, q.live, live, run);
  }

  /** One event keeps the books exactly if its merge is not clamped. */
  lemma NextConservesExactly(w: World, e: Event, w': World, initial: nat, run: Json)
    requires Next(w, e, w') && Conserved(w, initial, run) && run.Str?
    requires e.Edit? ==> OnRun(e.live.activeTask, run)
    ensures Conserved(w', initial, run) <==> ClampSilent(w, e)
  {
    var q, q' := w.processes[e.p], w'.processes[e.p];
    assert Accounted(q, run);
    NextAccounts(q, e, w, w', run);
    assert w'.processes == w.processes[e.p := q'];
    hide Accounted, ClampSilent, Next, OnRun;
    BooksUpdated(w, e.p, w', initial, run);
  }

  lemma BooksUpdated(w: World, p: nat, w': World, initial: nat, run: Json)
    requires p in w.processes && p in w'.processes && w'.processes == w.processes[p := w'.processes[p]]
    requires Conserved(w, initial, run) && OnRun(w'.disk.activeTask, run)
    ensures Conserved(w', initial, run) <==>
      && Accounted(w'.processes[p], run)
      && Count(w'.disk) - Count(w.disk) == w'.processes[p].saved - w.processes[p].saved
  {
    hide Accounted, OnRun, Count, TotalSaved;
    TotalSavedUpdate(w.processes, p, w'.processes[p]);
  }

  /** A run all of whose edits stay on one orchestration. */
  ghost predicate OneOrchestration(ws: seq<World>, es: seq<Event>, run: Json) {
    && Run(ws, es) && run.Str?
    && forall i :: 0 <= i < |es| ==> (es[i].Edit? ==> OnRun(es[i].live.activeTask, run))
  }

  lemma {:induction false} ConservedUpTo(ws: seq<World>, es: seq<Event>, initial: nat, run: Json, i: nat)
    requires OneOrchestration(ws, es, run) && Conserved(ws[0], initial, run) && i < |ws|
    requires forall k :: 0 <= k < i ==> ClampSilent(ws[k], es[k])
    ensures Conserved(ws[i], initial, run)
  {
    hide Conserved, OnRun, Next, ClampSilent;
    if i > 0 {
      ConservedUpTo(ws, es, initial, run, i - 1);
      NextConservesExactly(ws[i - 1], es[i - 1], ws[i], initial, run);
    }
  }

  /** Over any run on one orchestration, with any number of processes sending, refunding, saving and
      reloading in any order: in every state the stored count is the initial one and everything saved,
      and every live counter is ahead of its snapshot by what its process has not saved, exactly if no
      merge along the way is clamped at zero. */
  lemma ConservedExactly(ws: seq<World>, es: seq<Event>, initial: nat, run: Json)
    requires OneOrchestration(ws, es, run) && Conserved(ws[0], initial, run)
    ensures (forall i :: 0 <= i < |ws| ==> Conserved(ws[i], initial, run))
       <==> (forall i :: 0 <= i < |es| ==> ClampSilent(ws[i], es[i]))
  {
    hide Conserved, OnRun, Next, ClampSilent;
    if forall i :: 0 <= i < |es| ==> ClampSilent(ws[i], es[i]) {
      forall i | 0 <= i < |ws| ensures Conserved(ws[i], initial, run) { ConservedUpTo(ws, es, initial, run, i); }
    }
    if forall i :: 0 <= i < |ws| ==> Conserved(ws[i], initial, run) {
      forall i | 0 <= i < |es| ensures ClampSilent(ws[i], es[i]) {
        NextConservesExactly(ws[i], es[i], ws[i + 1], initial, run);
      }
    }
  }

  lemma NextSaved(w: World, e: Event, w': World)
    requires Next(w, e, w') && SavedNonNegative(w) && NetNonNegative(w)
    ensures SavedNonNegative(w')
  {
    assert w'.processes == w.processes[e.p := w'.processes[e.p]];
  }

  lemma {:induction false} NotClampedThroughout(ws: seq<World>, es: seq<Event>, initial: nat, run: Json, i: nat)
    requires OneOrchestration(ws, es, run) && Conserved(ws[0], initial, run) && SavedNonNegative(ws[0])
    requires (forall k :: 0 <= k < |ws| ==> NetNonNegative(ws[k])) && i < |ws|
    ensures Conserved(ws[i], initial, run) && SavedNonNegative(ws[i])
    ensures i < |es| ==> ClampSilent(ws[i], es[i])
  {
    hide Conserved, OnRun, Next, ClampSilent, SavedNonNegative, NetNonNegative;
    if i > 0 {
      NotClampedThroughout(ws, es, initial, run, i - 1);
      NextConservesExactly(ws[i - 1], es[i - 1], ws[i], initial, run);
      NextSaved(ws[i - 1], es[i - 1], ws[i]);
    }
    if i < |es| { NetIsNotClamped(ws[i], es[i], initial, run); }
  }

  lemma NetIsNotClamped(w: World, e: Event, initial: nat, run: Json)
    requires Conserved(w, initial, run) && SavedNonNegative(w) && NetNonNegative(w)
    ensures ClampSilent(w, e)
  {
    if e.p in w.processes { ClampIdle(w, e.p, initial, run); }
  }

  /** While no process has refunded more than it sent, no message is counted twice or dropped and the
      clamp at zero never fires. */
  lemma CounterConservation(ws: seq<World>, es: seq<Event>, initial: nat, run: Json)
    requires OneOrchestration(ws, es, run) && Conserved(ws[0], initial, run) && SavedNonNegative(ws[0])
    requires forall i :: 0 <= i < |ws| ==> NetNonNegative(ws[i])
    ensures forall i :: 0 <= i < |ws| ==> Conserved(ws[i], initial, run)
    ensures forall i :: 0 <= i < |es| ==> ClampSilent(ws[i], es[i])
  {
    forall i | 0 <= i < |ws|
      ensures Conserved(ws[i], initial, run) && (i < |es| ==> ClampSilent(ws[i], es[i]))
    {
      NotClampedThroughout(ws, es, initial, run, i);
    }
  }

  /** The clamp swallows a refund whenever the counts on disk, in the snapshot and in the live team say
      so, all of them counts a process can hold: say 0, 1 and 0, after another process saved a refund. */
  lemma RefundsBeyondSendsAreClamped(run: Json, disk: nat, snapshot: nat, live: nat)
    requires run.Str?
    ensures var at := (n: int) => Obj(map["runId" := run, "messagesSent" := Num(n)]);
      var merged := MergeRun(at(disk), at(snapshot), at(live));
      && OnRun(merged, run)
      && (disk + live < snapshot <==> merged.fields["messagesSent"].n != disk + (live - snapshot))
      && (disk + live < snapshot ==> merged.fields["messagesSent"] == Num(0))
  {
    var d := Obj(map["runId" := run, "messagesSent" := Num(disk)]);
    var a := Obj(map["runId" := run, "messagesSent" := Num(snapshot)]);
    var c := Obj(map["runId" := run, "messagesSent" := Num(live)]);
    MergedCounter(d, a, c, run);
  }

  // ---- The run fence -------------------------------------------------------------------------------

  predicate OnOtherRun(s: TeamState, r: Json) {
    !JEq(Field(s.activeTask, "runId"), r)
  }

  /** A save by a process that has not loaded the run on disk stores that run as it is, but for
      responses cut to fit, and leaves the process on it. */
  lemma SaveIsFenced(w: World, e: Event, w': World, r: Json)
    requires WorldValid(w) && Next(w, e, w') && e.Save?
    requires r != Undef && Field(w.disk.activeTask, "runId") == r
    requires OnOtherRun(w.processes[e.p].snapshot, r) && OnOtherRun(w.processes[e.p].live, r)
    ensures var q := w.processes[e.p];
      && (e.enc.stateBytes(MergeTeamState(w.disk, q.snapshot, q.live)) <= STATE_CAP ==> w'.disk.activeTask == w.disk.activeTask)
      && (forall k :: k != "responses" ==> Field(w'.disk.activeTask, k) == Field(w.disk.activeTask, k))
      && JEq(w'.processes[e.p].live.activeTask, w'.disk.activeTask)
  {
    var q := w.processes[e.p];
    StaleWriterFenced(w.disk, q.snapshot, q.live);
    StaleWriterSeesChange(w.disk, q.snapshot, r);
  }

  lemma StaleWriterSeesChange(disk: TeamState, snapshot: TeamState, r: Json)
    requires Field(disk.activeTask, "runId") == r && r != Undef && OnOtherRun(snapshot, r)
    ensures DiskChanged(Good(disk), Some(snapshot))
  {
    SameTextSameField(disk.activeTask, snapshot.activeTask, "runId");
  }

  lemma SameTextSameField(x: Json, y: Json, k: string)
    ensures JEq(x, y) ==> JEq(Field(x, k), Field(y, k))
  {
    if JEq(x, y) && x.Obj? { ObjJEq(x.fields, y.fields); }
  }

  /** From `i` to `j` the process only edits its live team, and never puts it on run `r`. */
  predicate OnlyEditsElsewhere(es: seq<Event>, i: nat, j: nat, p: nat, r: Json) {
    forall k :: i <= k < j && k < |es| && es[k].p == p ==> es[k].Edit? && OnOtherRun(es[k].live, r)
  }

  lemma {:induction false} StaysOnOtherRun(ws: seq<World>, es: seq<Event>, i: nat, j: nat, p: nat, r: Json)
    requires Run(ws, es) && i <= j < |ws| && p in ws[i].processes && OnlyEditsElsewhere(es, i, j, p, r)
    requires OnOtherRun(ws[i].processes[p].snapshot, r) && OnOtherRun(ws[i].processes[p].live, r)
    ensures p in ws[j].processes
    ensures OnOtherRun(ws[j].processes[p].snapshot, r) && OnOtherRun(ws[j].processes[p].live, r)
    decreases j
  {
    hide OnOtherRun;
    if i < j {
      StaysOnOtherRun(ws, es, i, j - 1, p, r);
      assert Next(ws[j - 1], es[j - 1], ws[j]);
    }
  }

  /** A run some process put on disk is neither mixed into nor cleared by another that has not loaded it:
      over any run of events, if a process was not on run `r` and has since only edited its own team, its
      next save finds and leaves run `r` on disk, whatever the others did meanwhile. */
  lemma UnloadedRunIsFenced(ws: seq<World>, es: seq<Event>, i: nat, j: nat, p: nat, r: Json)
    requires Run(ws, es) && WorldValid(ws[0]) && i <= j < |es| && p in ws[i].processes
    requires OnOtherRun(ws[i].processes[p].snapshot, r) && OnOtherRun(ws[i].processes[p].live, r)
    requires OnlyEditsElsewhere(es, i, j, p, r) && es[j].Save? && es[j].p == p
    requires r != Undef && Field(ws[j].disk.activeTask, "runId") == r
    ensures forall k :: k != "responses" ==> Field(ws[j + 1].disk.activeTask, k) == Field(ws[j].disk.activeTask, k)
    ensures JEq(ws[j + 1].processes[p].live.activeTask, ws[j + 1].disk.activeTask)
    ensures var q := ws[j].processes[p];
      es[j].enc.stateBytes(MergeTeamState(ws[j].disk, q.snapshot, q.live)) <= STATE_CAP
      ==> ws[j + 1].disk.activeTask == ws[j].disk.activeTask
  {
    ValidThroughout(ws, es, j);
    StaysOnOtherRun(ws, es, i, j, p, r);
    hide OnOtherRun, WorldValid;
    SaveIsFenced(ws[j], es[j], ws[j + 1], r);
  }
}
