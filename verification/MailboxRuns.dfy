/** Whole runs of a mailbox: any order of writes, polls, acks and releases, each cut short at any
    file operation by a crash. */
module MailboxRuns {
  import opened MailboxLog
  import opened Mailbox
  import opened Options

  /** The disk, with what has been accepted so far and which ids ever had a processed record. */
  datatype Store = Store(disk: Disk, accepted: set<Message>, processed: set<string>)

  function Do(s: Store, op: Op): Store {
    Store(
      Apply(s.disk, op),
      if op.Send? then s.accepted + {op.m} else s.accepted,
      if op.AppendLog? && op.line.id.Some? then s.processed + {op.line.id.value} else s.processed)
  }

  function DoAll(s: Store, ops: seq<Op>): Store {
    if ops == [] then s else Do(DoAll(s, ops[..|ops| - 1]), ops[|ops| - 1])
  }

  lemma {:induction false} DoAllDisk(s: Store, ops: seq<Op>)
    ensures DoAll(s, ops).disk == ApplyAll(s.disk, ops)
  {
    if ops != [] { DoAllDisk(s, ops[..|ops| - 1]); }
  }

  lemma {:induction false} DoConcat(s: Store, a: seq<Op>, b: seq<Op>)
    ensures DoAll(s, a + b) == DoAll(DoAll(s, a), b)
    decreases |b|
  {
    if b == [] {
      assert a + b == a;
    } else {
      DoConcat(s, a, b[..|b| - 1]);
      assert (a + b)[..|a + b| - 1] == a + b[..|b| - 1];
    }
  }

  // ---- The invariant --------------------------------------------------------------------------

  /** Where a message is safe: waiting, in flight, or recorded as processed. */
  predicate Secure(s: Store, m: Message) {
    || Good(m) in s.disk.inbox
    || (m.id in s.disk.reserved && s.disk.reserved[m.id].m == m)
    || m.id in s.processed
  }

  /** Every accepted message this recipient may receive is safe. */
  predicate NothingLost(s: Store, recipient: string) {
    forall m :: m in s.accepted && Accepts(recipient, m) ==> Secure(s, m)
  }

  /** Message ids are unique, and the files hold only what was accepted. */
  ghost predicate Genuine(s: Store, recipient: string) {
    && (forall m, n :: m in s.accepted && n in s.accepted && m.id == n.id ==> m == n)
    && (forall m :: Good(m) in s.disk.inbox ==> m in s.accepted)
    && (forall id :: id in s.disk.reserved ==>
          s.disk.reserved[id].m in s.accepted && s.disk.reserved[id].m.id == id
          && Accepts(recipient, s.disk.reserved[id].m))
    && (forall id :: Logged(s.disk.log, id) ==> id in s.processed)
  }

  ghost predicate Inv(s: Store, recipient: string) {
    Genuine(s, recipient) && NothingLost(s, recipient)
  }

  /** When a single file operation is harmless. */
  ghost predicate Harmless(s: Store, recipient: string, op: Op) {
    match op
    case Send(m) => forall n :: n in s.accepted ==> n.id != m.id
    case Requeue(m) => m in s.accepted
    case Reserve(r) => Good(r.m) in s.disk.inbox && Accepts(recipient, r.m)
    case Unreserve(id) => id in s.processed || exists m :: Good(m) in s.disk.inbox && m.id == id
    case TruncateInbox =>
      forall m :: Good(m) in s.disk.inbox && Accepts(recipient, m) ==>
        m.id in s.disk.reserved && s.disk.reserved[m.id].m == m
    case AppendLog(line) => true
    case RewriteLog(lines) => forall id :: Logged(lines, id) ==> Logged(s.disk.log, id)
  }

  lemma HarmlessKeepsInv(s: Store, recipient: string, op: Op)
    requires Inv(s, recipient) && Harmless(s, recipient, op)
    ensures Inv(Do(s, op), recipient)
  {
    var t := Do(s, op);
    match op
    case AppendLog(line) =>
      forall id | Logged(t.disk.log, id) ensures id in t.processed {
        LoggedConcat(s.disk.log, [line], id);
      }
    case _ =>
      assert forall m :: m in s.accepted && Accepts(recipient, m) ==> Secure(s, m);
  }

  /** Harmless at every step. */
  ghost predicate HarmlessAll(s: Store, recipient: string, ops: seq<Op>) {
    ops == [] || (HarmlessAll(s, recipient, ops[..|ops| - 1])
                  && Harmless(DoAll(s, ops[..|ops| - 1]), recipient, ops[|ops| - 1]))
  }

  /** So the invariant holds wherever a crash stops the operation. */
  lemma {:induction false} HoldsAtEveryPoint(s: Store, recipient: string, ops: seq<Op>, k: nat)
    requires Inv(s, recipient) && HarmlessAll(s, recipient, ops) && k <= |ops|
    ensures Inv(DoAll(s, ops[..k]), recipient)
    decreases |ops|
  {
    if ops != [] {
      var init := ops[..|ops| - 1];
      if k < |ops| {
        HoldsAtEveryPoint(s, recipient, init, k);
        assert init[..k] == ops[..k];
      } else {
        HoldsAtEveryPoint(s, recipient, init, |init|);
        assert init[..|init|] == init && ops[..k] == ops;
        HarmlessKeepsInv(DoAll(s, init), recipient, ops[|ops| - 1]);
      }
    }
  }

  lemma {:induction false} HarmlessConcat(s: Store, recipient: string, a: seq<Op>, b: seq<Op>)
    requires HarmlessAll(s, recipient, a) && HarmlessAll(DoAll(s, a), recipient, b)
    ensures HarmlessAll(s, recipient, a + b)
    decreases |b|
  {
    if b == [] {
      assert a + b == a;
    } else {
      HarmlessConcat(s, recipient, a, b[..|b| - 1]);
      DoConcat(s, a, b[..|b| - 1]);
      assert (a + b)[..|a + b| - 1] == a + b[..|b| - 1];
    }
  }

  lemma HarmlessSnoc(s: Store, recipient: string, a: seq<Op>, op: Op)
    requires HarmlessAll(s, recipient, a) && Harmless(DoAll(s, a), recipient, op)
    ensures HarmlessAll(s, recipient, a + [op])
    ensures DoAll(s, a + [op]) == Do(DoAll(s, a), op)
  {
    assert (a + [op])[..|a|] == a;
  }

  // ---- Poll ----------------------------------------------------------------------------------------

  lemma {:induction false} MessagesOf(inbox: seq<Line>, m: Message)
    ensures m in Messages(inbox) <==> Good(m) in inbox
  {
    if inbox != [] { MessagesOf(inbox[1..], m); }
  }

  lemma {:induction false} DedupedKeeps(ms: seq<Message>, m: Message)
    ensures m in Deduped(ms) ==> m in ms
    ensures m in ms ==> exists n :: n in Deduped(ms) && n.id == m.id
    decreases |ms|
  {
    if ms != [] {
      DedupedKeeps(ms[..|ms| - 1], m);
      assert ms == ms[..|ms| - 1] + [ms[|ms| - 1]];
    }
  }

  lemma {:induction false} FilteredKeeps(ms: seq<Message>, recipient: string, m: Message)
    ensures m in Filtered(ms, recipient) <==> m in ms && Accepts(recipient, m)
  {
    if ms != [] { FilteredKeeps(ms[1..], recipient, m); }
  }

  /** The batch is the accepted part of the inbox, once per message. */
  lemma BatchOf(s: Store, recipient: string, m: Message)
    requires Genuine(s, recipient)
    ensures m in Batch(s.disk, recipient) <==> Good(m) in s.disk.inbox && Accepts(recipient, m)
  {
    var all := Messages(s.disk.inbox);
    MessagesOf(s.disk.inbox, m);
    DedupedKeeps(all, m);
    FilteredKeeps(Deduped(all), recipient, m);
    if m in all {
      var n :| n in Deduped(all) && n.id == m.id;
      DedupedKeeps(all, n);
      MessagesOf(s.disk.inbox, n);
    }
  }

  /** Reserving part of a batch leaves the inbox alone and puts every reservation in place. */
  lemma {:induction false} ReservingEffect(s: Store, ms: seq<Message>, now: int)
    requires forall m, n :: m in ms && n in ms && m.id == n.id ==> m == n
    ensures var t := DoAll(s, ReserveAll(ms, now));
      && t.disk.inbox == s.disk.inbox && t.accepted == s.accepted && t.processed == s.processed
      && forall m :: m in ms ==> m.id in t.disk.reserved && t.disk.reserved[m.id].m == m
    decreases |ms|
  {
    if ms != [] {
      var init, last := ms[..|ms| - 1], ms[|ms| - 1];
      assert ms == init + [last];
      ReservingEffect(s, init, now);
      var op := Reserve(Reservation(last, Some(now), now, true));
      assert ReserveAll(ms, now) == ReserveAll(init, now) + [op];
      HarmlessSnocState(s, ReserveAll(init, now), op);
    }
  }

  lemma {:induction false} ReservingIsHarmless(s: Store, recipient: string, ms: seq<Message>, now: int)
    requires Genuine(s, recipient)
    requires forall m :: m in ms ==> Good(m) in s.disk.inbox && Accepts(recipient, m)
    ensures HarmlessAll(s, recipient, ReserveAll(ms, now))
    ensures var t := DoAll(s, ReserveAll(ms, now));
      && t.disk.inbox == s.disk.inbox && t.accepted == s.accepted && t.processed == s.processed
      && forall m :: m in ms ==> m.id in t.disk.reserved && t.disk.reserved[m.id].m == m
    decreases |ms|
  {
    hide DoAll;
    forall m, n | m in ms && n in ms && m.id == n.id ensures m == n {
      assert Good(m) in s.disk.inbox && Good(n) in s.disk.inbox;
    }
    ReservingEffect(s, ms, now);
    if ms != [] {
      var init, last := ms[..|ms| - 1], ms[|ms| - 1];
      assert last in ms && forall m :: m in init ==> m in ms;
      ReservingIsHarmless(s, recipient, init, now);
      var op := Reserve(Reservation(last, Some(now), now, true));
      assert ReserveAll(ms, now) == ReserveAll(init, now) + [op];
      HarmlessSnoc(s, recipient, ReserveAll(init, now), op);
    }
  }

  lemma {:induction false} RollbackIsHarmless(s: Store, recipient: string, ms: seq<Message>, unlinkFails: nat -> bool)
    requires forall m :: m in ms ==> Good(m) in s.disk.inbox
    ensures HarmlessAll(s, recipient, Rollback(ms, unlinkFails))
    ensures DoAll(s, Rollback(ms, unlinkFails)).disk.inbox == s.disk.inbox
    decreases |ms|
  {
    if ms != [] {
      var i := |ms| - 1;
      RollbackIsHarmless(s, recipient, ms[..i], unlinkFails);
      if !unlinkFails(i) {
        assert Good(ms[i]) in s.disk.inbox;
        HarmlessSnoc(s, recipient, Rollback(ms[..i], unlinkFails), Unreserve(ms[i].id));
      } else {
        assert Rollback(ms, unlinkFails) == Rollback(ms[..i], unlinkFails);
      }
    }
  }

  lemma PollIsHarmless(s: Store, recipient: string, now: int, f: PollFaults)
    requires Inv(s, recipient)
    ensures HarmlessAll(s, recipient, PollOps(s.disk, recipient, now, f))
  {
    var batch := Batch(s.disk, recipient);
    var w := Written(|batch|, f.reserve);
    forall m | m in batch ensures Good(m) in s.disk.inbox && Accepts(recipient, m) { BatchOf(s, recipient, m); }
    ReservingIsHarmless(s, recipient, batch[..w], now);
    ReservingIsHarmless(s, recipient, batch, now);
    var part, full := DoAll(s, ReserveAll(batch[..w], now)), DoAll(s, ReserveAll(batch, now));
    RollbackIsHarmless(part, recipient, batch[..w], f.unlink);
    RollbackIsHarmless(full, recipient, batch, f.unlink);
    HarmlessConcat(s, recipient, ReserveAll(batch[..w], now), Rollback(batch[..w], f.unlink));
    HarmlessConcat(s, recipient, ReserveAll(batch, now), Rollback(batch, f.unlink));
    forall m | Good(m) in s.disk.inbox && Accepts(recipient, m) ensures m in batch { BatchOf(s, recipient, m); }
    HarmlessSnoc(s, recipient, ReserveAll(batch, now), TruncateInbox);
  }

  // ---- Prune, ack, release -------------------------------------------------------------------------

  lemma PruneIsHarmless(s: Store, recipient: string, now: int, f: PruneFaults)
    ensures HarmlessAll(s, recipient, PruneOps(s.disk, now, f))
    ensures var t := DoAll(s, PruneOps(s.disk, now, f));
      && t.disk.inbox == s.disk.inbox && t.disk.reserved == s.disk.reserved
      && t.accepted == s.accepted && t.processed == s.processed
  {
    forall id | Logged(LogAfter(s.disk.log, Pruned(s.disk.log, s.disk.reserved.Keys, now, f)), id)
      ensures Logged(s.disk.log, id)
    {
      PruningProtectsReserved(s.disk.log, s.disk.reserved.Keys, now, f, id);
    }
    var ops := PruneOps(s.disk, now, f);
    if ops != [] {
      HarmlessSnoc(s, recipient, [], ops[0]);
      assert [] + [ops[0]] == ops;
    }
  }

  lemma {:induction false} AckEachIsHarmless(s: Store, recipient: string, ms: seq<Message>, now: int, bytes: Message -> nat, unlinkFails: nat -> bool)
    ensures HarmlessAll(s, recipient, AckEach(ms, now, bytes, unlinkFails))
    decreases |ms|
  {
    if ms != [] {
      var i := |ms| - 1;
      var before := AckEach(ms[..i], now, bytes, unlinkFails);
      var log := AppendLog(LineOf(ms[i], now, bytes));
      AckEachIsHarmless(s, recipient, ms[..i], now, bytes, unlinkFails);
      HarmlessSnoc(s, recipient, before, log);
      if unlinkFails(i) {
        assert AckEach(ms, now, bytes, unlinkFails) == before + [log];
      } else {
        HarmlessSnoc(s, recipient, before + [log], Unreserve(ms[i].id));
      }
    }
  }

  lemma AckIsHarmless(s: Store, recipient: string, ms: seq<Message>, now: int, bytes: Message -> nat, f: AckFaults)
    ensures HarmlessAll(s, recipient, AckOps(s.disk, ms, now, bytes, f))
  {
    var ops := AckEach(Acked(ms, f), now, bytes, f.unlink);
    AckEachIsHarmless(s, recipient, Acked(ms, f), now, bytes, f.unlink);
    var t := DoAll(s, ops);
    DoAllDisk(s, ops);
    PruneIsHarmless(t, recipient, now, f.prune);
    HarmlessConcat(s, recipient, ops, PruneOps(t.disk, now, f.prune));
  }

  /** A listing names every reservation file once. */
  predicate Listing(d: Disk, files: seq<string>) {
    && (forall x :: x in files ==> x in d.reserved)
    && (forall i, j :: 0 <= i < j < |files| ==> files[i] != files[j])
  }

  /** One file of a release pass, after the operations `before`. */
  lemma ReleaseOneIsHarmless(s: Store, recipient: string, before: seq<Op>, r: Reservation, log: seq<LogLine>, now: int, f: ReleaseFaults)
    requires HarmlessAll(s, recipient, before)
    requires r.m in DoAll(s, before).accepted && (KnownProcessed(log, r.m.id) ==> r.m.id in DoAll(s, before).processed)
    ensures var ops, t := before + ReleaseOne(r, r.m.id, log, now, f), DoAll(s, before);
      && HarmlessAll(s, recipient, ops)
      && DoAll(s, ops).accepted == t.accepted && DoAll(s, ops).processed == t.processed
  {
    hide HarmlessAll, DoAll, KnownProcessed, Age;
    var one := ReleaseOne(r, r.m.id, log, now, f);
    if one == [] {
      assert before + one == before;
    } else if KnownProcessed(log, r.m.id) {
      HarmlessSnoc(s, recipient, before, Unreserve(r.m.id));
      assert one == [Unreserve(r.m.id)];
    } else {
      HarmlessSnoc(s, recipient, before, Requeue(r.m));
      if |one| == 1 {
        assert one == [Requeue(r.m)];
      } else {
        var t := DoAll(s, before + [Requeue(r.m)]);
        assert t.disk.inbox[|t.disk.inbox| - 1] == Good(r.m);
        HarmlessSnoc(s, recipient, before + [Requeue(r.m)], Unreserve(r.m.id));
        assert before + [Requeue(r.m)] + [Unreserve(r.m.id)] == before + one;
      }
    }
  }

  lemma {:induction false} ReleaseEachIsHarmless(s: Store, recipient: string, d: Disk, files: seq<string>, log: seq<LogLine>, now: int, f: ReleaseFaults)
    requires forall x :: x in files ==> x in d.reserved && d.reserved[x].m in s.accepted && d.reserved[x].m.id == x
    requires forall id :: Logged(log, id) ==> id in s.processed
    ensures HarmlessAll(s, recipient, ReleaseEach(d, files, log, now, f))
    ensures var t := DoAll(s, ReleaseEach(d, files, log, now, f));
      t.accepted == s.accepted && t.processed == s.processed
    decreases |files|
  {
    if files != [] {
      var init, file := files[..|files| - 1], files[|files| - 1];
      ReleaseEachIsHarmless(s, recipient, d, init, log, now, f);
      ReleaseOneIsHarmless(s, recipient, ReleaseEach(d, init, log, now, f), d.reserved[file], log, now, f);
    }
  }

  lemma ReleaseIsHarmless(s: Store, recipient: string, files: seq<string>, now: int, f: ReleaseFaults)
    requires Inv(s, recipient) && Listing(s.disk, files)
    ensures HarmlessAll(s, recipient, ReleaseOps(s.disk, files, now, f))
  {
    var prune := PruneOps(s.disk, now, f.prune);
    PruneIsHarmless(s, recipient, now, f.prune);
    var t := DoAll(s, prune);
    DoAllDisk(s, prune);
    HoldsAtEveryPoint(s, recipient, prune, |prune|);
    assert prune[..|prune|] == prune;
    ReleaseEachIsHarmless(t, recipient, s.disk, files, t.disk.log, now, f);
    HarmlessConcat(s, recipient, prune, ReleaseEach(s.disk, files, t.disk.log, now, f));
  }

  // ---- Runs ----------------------------------------------------------------------------------------

  /** Where an operation dies, if it does: after this many of its file operations. */
  type Crash = Option<nat>

  datatype Event =
    | Write(m: Message, fails: bool, crash: Crash)
    | Poll(now: int, pollFaults: PollFaults, crash: Crash)
    | Ack(ms: seq<Message>, now: int, bytes: Message -> nat, ackFaults: AckFaults, crash: Crash)
    | Release(files: seq<string>, now: int, releaseFaults: ReleaseFaults, crash: Crash)

  /** A new message has a new id; a release works from a listing. */
  ghost predicate Possible(s: Store, e: Event) {
    match e
    case Write(m, _, _) => forall n :: n in s.accepted ==> n.id != m.id
    case Release(files, _, _, _) => Listing(s.disk, files)
    case _ => true
  }

  ghost function Planned(s: Store, recipient: string, e: Event): seq<Op>
    requires Possible(s, e)
  {
    match e
    case Write(m, fails, _) => if fails then [] else [Send(m)]
    case Poll(now, f, _) => PollOps(s.disk, recipient, now, f)
    case Ack(ms, now, bytes, f, _) => AckOps(s.disk, ms, now, bytes, f)
    case Release(files, now, f, _) => ReleaseOps(s.disk, files, now, f)
  }

  /** The file operations that happen before the crash. */
  ghost function Executed(s: Store, recipient: string, e: Event): seq<Op>
    requires Possible(s, e)
  {
    var ops := Planned(s, recipient, e);
    if e.crash.Some? && e.crash.value < |ops| then ops[..e.crash.value] else ops
  }

  ghost function After(s: Store, recipient: string, e: Event): Store
    requires Possible(s, e)
  {
    DoAll(s, Executed(s, recipient, e))
  }

  /** A finite run. */
  ghost predicate Run(ss: seq<Store>, es: seq<Event>, recipient: string) {
    && |ss| == |es| + 1
    && forall i :: 0 <= i < |es| ==> Possible(ss[i], es[i]) && ss[i + 1] == After(ss[i], recipient, es[i])
  }

  lemma PlannedIsHarmless(s: Store, recipient: string, e: Event)
    requires Inv(s, recipient) && Possible(s, e)
    ensures HarmlessAll(s, recipient, Planned(s, recipient, e))
  {
    match e
    case Write(m, _, _) =>
      HarmlessSnoc(s, recipient, [], Send(m));
      assert [] + [Send(m)] == [Send(m)];
    case Poll(now, f, _) => PollIsHarmless(s, recipient, now, f);
    case Ack(ms, now, bytes, f, _) => AckIsHarmless(s, recipient, ms, now, bytes, f);
    case Release(files, now, f, _) => ReleaseIsHarmless(s, recipient, files, now, f);
  }

  lemma EventKeepsInv(s: Store, recipient: string, e: Event)
    requires Inv(s, recipient) && Possible(s, e)
    ensures Inv(After(s, recipient, e), recipient)
  {
    PlannedIsHarmless(s, recipient, e);
    var ops, k := Planned(s, recipient, e), |Executed(s, recipient, e)|;
    assert Executed(s, recipient, e) == ops[..k];
    HoldsAtEveryPoint(s, recipient, ops, k);
  }

  lemma {:induction false} InvThroughout(ss: seq<Store>, es: seq<Event>, recipient: string, i: nat)
    requires Run(ss, es, recipient) && Inv(ss[0], recipient) && i < |ss|
    ensures Inv(ss[i], recipient)
  {
    if i > 0 {
      InvThroughout(ss, es, recipient, i - 1);
      EventKeepsInv(ss[i - 1], recipient, es[i - 1]);
    }
  }

  /** No accepted message is ever lost: in every state of every run, with any failures and crashes,
      it is in the inbox, in a reservation, or has had a processed record. */
  lemma NoMessageLost(ss: seq<Store>, es: seq<Event>, recipient: string, i: nat, m: Message)
    requires Run(ss, es, recipient) && Inv(ss[0], recipient)
    requires i < |ss| && m in ss[i].accepted && Accepts(recipient, m)
    ensures Secure(ss[i], m)
  {
    InvThroughout(ss, es, recipient, i);
  }

  // ---- Delivery without release is at most once ------------------------------------------------------

  /** What an event hands to its caller. */
  ghost predicate Delivers(s: Store, recipient: string, e: Event, id: string) {
    && e.Poll? && e.crash.None?
    && PollResult(s.disk, recipient, e.pollFaults).Some?
    && exists m :: m in PollResult(s.disk, recipient, e.pollFaults).value && m.id == id
  }

  /** The id is used up and not waiting. */
  ghost predicate Taken(s: Store, id: string) {
    && (exists m :: m in s.accepted && m.id == id)
    && forall m :: Good(m) in s.disk.inbox ==> m.id != id
  }

  lemma {:induction false} TakenStays(s: Store, ops: seq<Op>, id: string)
    requires Taken(s, id)
    requires forall op :: op in ops && (op.Requeue? || op.Send?) ==> op.m.id != id
    ensures Taken(DoAll(s, ops), id)
    decreases |ops|
  {
    if ops != [] {
      TakenStays(s, ops[..|ops| - 1], id);
      var t, op := DoAll(s, ops[..|ops| - 1]), ops[|ops| - 1];
      assert op in ops;
      var m :| m in t.accepted && m.id == id;
      assert m in Do(t, op).accepted;
    }
  }

  lemma {:induction false} RollbackOps(ms: seq<Message>, unlinkFails: nat -> bool)
    ensures forall op :: op in Rollback(ms, unlinkFails) ==> op.Unreserve?
  {
    if ms != [] { RollbackOps(ms[..|ms| - 1], unlinkFails); }
  }

  lemma {:induction false} AckEachOps(ms: seq<Message>, now: int, bytes: Message -> nat, unlinkFails: nat -> bool)
    ensures forall op :: op in AckEach(ms, now, bytes, unlinkFails) ==> op.AppendLog? || op.Unreserve?
  {
    if ms != [] { AckEachOps(ms[..|ms| - 1], now, bytes, unlinkFails); }
  }

  /** Only a release requeues, and only a write sends. */
  lemma PlannedOps(s: Store, recipient: string, e: Event)
    requires Possible(s, e) && !e.Release?
    ensures forall op :: op in Planned(s, recipient, e) ==> !op.Requeue? && (op.Send? ==> e.Write? && op.m == e.m)
  {
    match e
    case Write(_, _, _) =>
    case Poll(now, f, _) =>
      var batch := Batch(s.disk, recipient);
      RollbackOps(batch, f.unlink);
      RollbackOps(batch[..Written(|batch|, f.reserve)], f.unlink);
    case Ack(ms, now, bytes, f, _) =>
      AckEachOps(Acked(ms, f), now, bytes, f.unlink);
  }

  lemma TakenStep(s: Store, recipient: string, e: Event, id: string)
    requires Possible(s, e) && !e.Release? && Taken(s, id)
    ensures Taken(After(s, recipient, e), id)
  {
    PlannedOps(s, recipient, e);
    TakenStays(s, Executed(s, recipient, e), id);
  }

  lemma TakenIsNotDelivered(s: Store, recipient: string, e: Event, id: string)
    requires Inv(s, recipient) && Taken(s, id)
    ensures !Delivers(s, recipient, e, id)
  {
    if Delivers(s, recipient, e, id) {
      var m :| m in PollResult(s.disk, recipient, e.pollFaults).value && m.id == id;
      BatchOf(s, recipient, m);
    }
  }

  lemma PlanOfSuccessfulPoll(d: Disk, recipient: string, now: int, f: PollFaults)
    requires PollResult(d, recipient, f).Some? && PollResult(d, recipient, f).value != []
    ensures PollResult(d, recipient, f).value == Batch(d, recipient)
    ensures PollOps(d, recipient, now, f) == ReserveAll(Batch(d, recipient), now) + [TruncateInbox]
  {
  }

  /** A poll that returns messages has performed all its steps, the last of which empties the inbox. */
  lemma SuccessfulPoll(s: Store, recipient: string, now: int, f: PollFaults)
    requires Inv(s, recipient) && PollResult(s.disk, recipient, f).Some? && PollResult(s.disk, recipient, f).value != []
    ensures PollResult(s.disk, recipient, f).value == Batch(s.disk, recipient)
    ensures var t := DoAll(s, PollOps(s.disk, recipient, now, f)); t.disk.inbox == [] && t.accepted == s.accepted
  {
    PlanOfSuccessfulPoll(s.disk, recipient, now, f);
    hide PollOps, PollResult, Batch;
    var batch := Batch(s.disk, recipient);
    forall n | n in batch ensures Good(n) in s.disk.inbox && Accepts(recipient, n) { BatchOf(s, recipient, n); }
    ReservingIsHarmless(s, recipient, batch, now);
    HarmlessSnocState(s, ReserveAll(batch, now), TruncateInbox);
  }

  lemma DeliveredIsTaken(s: Store, recipient: string, e: Event, id: string)
    requires Inv(s, recipient) && Possible(s, e) && Delivers(s, recipient, e, id)
    ensures Taken(After(s, recipient, e), id)
  {
    SuccessfulPoll(s, recipient, e.now, e.pollFaults);
    var m :| m in Batch(s.disk, recipient) && m.id == id;
    BatchOf(s, recipient, m);
    assert m in After(s, recipient, e).accepted;
  }

  lemma HarmlessSnocState(s: Store, a: seq<Op>, op: Op)
    ensures DoAll(s, a + [op]) == Do(DoAll(s, a), op)
  {
    assert (a + [op])[..|a|] == a;
  }

  /** Nothing is released back between event `i` and state `j`. */
  lemma {:induction false} TakenSince(ss: seq<Store>, es: seq<Event>, recipient: string, i: nat, j: nat, id: string)
    requires Run(ss, es, recipient) && i <= j <= |es| && Taken(ss[i], id)
    requires forall k :: 0 <= k < |es| ==> !es[k].Release?
    ensures Taken(ss[j], id)
    decreases j
  {
    hide After;
    if i < j {
      TakenSince(ss, es, recipient, i, j - 1, id);
      TakenStep(ss[j - 1], recipient, es[j - 1], id);
    }
  }

  /** As long as nothing is released back, no id is delivered twice, whatever fails or crashes. */
  lemma DeliveredAtMostOnce(ss: seq<Store>, es: seq<Event>, recipient: string, i: nat, j: nat, id: string)
    requires Run(ss, es, recipient) && Inv(ss[0], recipient)
    requires forall k :: 0 <= k < |es| ==> !es[k].Release?
    requires i < j < |es| && Delivers(ss[i], recipient, es[i], id)
    ensures !Delivers(ss[j], recipient, es[j], id)
  {
    InvThroughout(ss, es, recipient, i);
    InvThroughout(ss, es, recipient, j);
    DeliveredIsTaken(ss[i], recipient, es[i], id);
    TakenSince(ss, es, recipient, i + 1, j, id);
    TakenIsNotDelivered(ss[j], recipient, es[j], id);
  }

  // ---- A recorded message is not released back --------------------------------------------------------

  /** The reservations could be listed when pruning needed them. */
  predicate Listed(s: Store, e: Event) {
    match e
    case Ack(ms, now, bytes, f, _) =>
      ListingWorked(ApplyAll(s.disk, AckEach(Acked(ms, f), now, bytes, f.unlink)).log, f.prune)
    case Release(_, _, f, _) => ListingWorked(s.disk.log, f.prune)
    case _ => true
  }

  /** A release read the processed log. */
  predicate UnderCap(s: Store, e: Event) {
    e.Release? ==> Size(ApplyAll(s.disk, PruneOps(s.disk, e.now, e.releaseFaults.prune)).log) <= PROCESSED_MAX_BYTES
  }

  lemma {:induction false} LogGrows(s: Store, ops: seq<Op>, id: string)
    requires Logged(s.disk.log, id) && forall op :: op in ops ==> !op.RewriteLog?
    ensures Logged(DoAll(s, ops).disk.log, id)
    decreases |ops|
  {
    if ops != [] {
      LogGrows(s, ops[..|ops| - 1], id);
      var op := ops[|ops| - 1];
      assert op in ops;
      if op.AppendLog? { LoggedConcat(DoAll(s, ops[..|ops| - 1]).disk.log, [op.line], id); }
    }
  }

  /** A prefix of a concatenation reaches into the second part or not. */
  lemma PrefixOfConcat(a: seq<Op>, b: seq<Op>, k: nat)
    requires k <= |a| + |b|
    ensures (a + b)[..k] == if k <= |a| then a[..k] else a + b[..k - |a|]
  {
  }

  lemma {:induction false} ReleaseEachOps(d: Disk, files: seq<string>, log: seq<LogLine>, now: int, f: ReleaseFaults, id: string)
    requires forall x :: x in files ==> x in d.reserved
    ensures forall op :: op in ReleaseEach(d, files, log, now, f) ==> op.Requeue? || op.Unreserve?
    ensures KnownProcessed(log, id) ==> forall op :: op in ReleaseEach(d, files, log, now, f) && op.Requeue? ==> op.m.id != id
  {
    if files != [] { ReleaseEachOps(d, files[..|files| - 1], log, now, f, id); }
  }

  /** A pruning keeps an id that is reserved and recorded. */
  lemma PruneKeepsLogged(s: Store, now: int, f: PruneFaults, id: string)
    requires id in s.disk.reserved && Logged(s.disk.log, id) && ListingWorked(s.disk.log, f)
    ensures Logged(DoAll(s, PruneOps(s.disk, now, f)).disk.log, id)
  {
    PruningProtectsReserved(s.disk.log, s.disk.reserved.Keys, now, f, id);
    var ops := PruneOps(s.disk, now, f);
    if ops != [] { assert ops[..0] == []; assert DoAll(s, ops) == Do(s, ops[0]); }
  }

  /** Whatever happens next, a message that is reserved and recorded stays recorded while its
      reservation remains, and is not requeued. */
  lemma RecordedStep(s: Store, recipient: string, e: Event, id: string)
    requires Possible(s, e) && Listed(s, e) && UnderCap(s, e)
    requires id in s.disk.reserved && Logged(s.disk.log, id)
    ensures var t := After(s, recipient, e); id in t.disk.reserved ==> Logged(t.disk.log, id)
    ensures forall op :: op in Executed(s, recipient, e) && op.Requeue? ==> op.m.id != id
  {
    var ops := Planned(s, recipient, e);
    var k := |Executed(s, recipient, e)|;
    assert ops[..|ops|] == ops && Executed(s, recipient, e) == ops[..k];
    match e
    case Write(_, _, _) => LogGrows(s, ops[..k], id);
    case Poll(now, f, _) =>
      PlannedOps(s, recipient, e);
      PollLeavesLog(s, recipient, now, f);
      LogGrows(s, ops[..k], id);
    case Ack(ms, now, bytes, f, _) =>
      PlannedOps(s, recipient, e);
      var each := AckEach(Acked(ms, f), now, bytes, f.unlink);
      AckEachOps(Acked(ms, f), now, bytes, f.unlink);
      LogGrows(s, each, id);
      if k <= |each| {
        assert ops[..k] == each[..k];
        LogGrows(s, ops[..k], id);
      } else {
        var t := DoAll(s, each);
        DoAllDisk(s, each);
        var prune := PruneOps(t.disk, now, f.prune);
        PrefixOfConcat(each, prune, k);
        assert prune[..k - |each|] == prune;
        DoConcat(s, each, prune);
        PruneIsHarmless(t, recipient, now, f.prune);
        if id in t.disk.reserved { PruneKeepsLogged(t, now, f.prune, id); }
      }
    case Release(files, now, f, _) => RecordedRelease(s, recipient, files, now, f, id, k);
  }

  lemma PollLeavesLog(s: Store, recipient: string, now: int, f: PollFaults)
    ensures forall op :: op in PollOps(s.disk, recipient, now, f) ==> !op.RewriteLog?
  {
    var batch := Batch(s.disk, recipient);
    RollbackOps(batch, f.unlink);
    RollbackOps(batch[..Written(|batch|, f.reserve)], f.unlink);
  }

  /** A release pass cut after `k` operations, the log having been pruned first: `t` is the state after
      the pruning. */
  lemma RecordedReleaseTail(s: Store, t: Store, files: seq<string>, now: int, f: ReleaseFaults, id: string, k: nat)
    requires (forall x :: x in files ==> x in s.disk.reserved) && KnownProcessed(t.disk.log, id)
    requires k <= |ReleaseEach(s.disk, files, t.disk.log, now, f)|
    ensures var done := ReleaseEach(s.disk, files, t.disk.log, now, f)[..k];
      Logged(DoAll(t, done).disk.log, id) && forall op :: op in done && op.Requeue? ==> op.m.id != id
  {
    var each := ReleaseEach(s.disk, files, t.disk.log, now, f);
    ReleaseEachOps(s.disk, files, t.disk.log, now, f, id);
    forall op | op in each[..k] ensures op in each {}
    LogGrows(t, each[..k], id);
  }

  lemma RecordedRelease(s: Store, recipient: string, files: seq<string>, now: int, f: ReleaseFaults, id: string, k: nat)
    requires Listing(s.disk, files) && ListingWorked(s.disk.log, f.prune)
    requires Size(ApplyAll(s.disk, PruneOps(s.disk, now, f.prune)).log) <= PROCESSED_MAX_BYTES
    requires id in s.disk.reserved && Logged(s.disk.log, id) && k <= |ReleaseOps(s.disk, files, now, f)|
    ensures Logged(DoAll(s, ReleaseOps(s.disk, files, now, f)[..k]).disk.log, id)
    ensures forall op :: op in ReleaseOps(s.disk, files, now, f)[..k] && op.Requeue? ==> op.m.id != id
  {
    var prune := PruneOps(s.disk, now, f.prune);
    var t := DoAll(s, prune);
    DoAllDisk(s, prune);
    PruneKeepsLogged(s, now, f.prune, id);
    var ops := ReleaseOps(s.disk, files, now, f);
    if k == 0 {
    } else if k <= |prune| {
      assert ops[..k] == prune;
    } else {
      var each := ReleaseEach(s.disk, files, t.disk.log, now, f);
      assert ops == prune + each;
      RecordedReleaseTail(s, t, files, now, f, id, k - |prune|);
      assert ops[..k] == prune + each[..k - |prune|];
      DoConcat(s, prune, each[..k - |prune|]);
    }
  }

  ghost predicate Requeues(s: Store, recipient: string, e: Event, id: string)
    requires Possible(s, e)
  {
    exists op :: op in Executed(s, recipient, e) && op.Requeue? && op.m.id == id
  }

  // ---- A recorded message is not delivered again ----------------------------------------------------

  /** The id is used up, not waiting, and recorded as long as it is reserved. */
  ghost predicate Finished(s: Store, id: string) {
    Taken(s, id) && (id in s.disk.reserved ==> Logged(s.disk.log, id))
  }

  lemma {:induction false} StaysUnreserved(s: Store, ops: seq<Op>, id: string)
    requires id !in s.disk.reserved && forall op :: op in ops && op.Reserve? ==> op.r.m.id != id
    ensures id !in DoAll(s, ops).disk.reserved
    decreases |ops|
  {
    if ops != [] {
      StaysUnreserved(s, ops[..|ops| - 1], id);
      assert ops[|ops| - 1] in ops;
    }
  }

  lemma ReserveAllOps(ms: seq<Message>, now: int)
    ensures forall op :: op in ReserveAll(ms, now) ==> op.Reserve? && op.r.m in ms
  {
  }

  /** A poll reserves only its batch. */
  lemma PollReserves(d: Disk, recipient: string, now: int, f: PollFaults)
    ensures forall op :: op in PollOps(d, recipient, now, f) && op.Reserve? ==> op.r.m in Batch(d, recipient)
  {
    var batch := Batch(d, recipient);
    var part := batch[..Written(|batch|, f.reserve)];
    ReserveAllOps(batch, now);
    ReserveAllOps(part, now);
    RollbackOps(batch, f.unlink);
    RollbackOps(part, f.unlink);
  }

  /** A release requeues only what the files it lists hold. */
  lemma {:induction false} ReleaseRequeues(d: Disk, files: seq<string>, log: seq<LogLine>, now: int, f: ReleaseFaults, id: string)
    requires forall x :: x in files ==> x in d.reserved && d.reserved[x].m.id == x
    requires id !in d.reserved
    ensures forall op :: op in ReleaseEach(d, files, log, now, f) && op.Requeue? ==> op.m.id != id
  {
    if files != [] { ReleaseRequeues(d, files[..|files| - 1], log, now, f, id); }
  }

  /** What no event plans for an id that is used up, not waiting and not reserved. */
  lemma UnreservedOps(s: Store, recipient: string, e: Event, id: string)
    requires Inv(s, recipient) && Possible(s, e) && Taken(s, id) && id !in s.disk.reserved
    ensures forall op :: op in Planned(s, recipient, e) ==>
      && (op.Reserve? ==> op.r.m.id != id)
      && (op.Requeue? || op.Send? ==> op.m.id != id)
  {
    match e
    case Write(_, _, _) =>
    case Poll(now, f, _) =>
      PlannedOps(s, recipient, e);
      PollReserves(s.disk, recipient, now, f);
      forall m | m in Batch(s.disk, recipient) ensures m.id != id { BatchOf(s, recipient, m); }
    case Ack(ms, now, bytes, f, _) => AckEachOps(Acked(ms, f), now, bytes, f.unlink);
    case Release(files, now, f, _) =>
      var prune := PruneOps(s.disk, now, f.prune);
      var log := ApplyAll(s.disk, prune).log;
      ReleaseRequeues(s.disk, files, log, now, f, id);
      ReleaseEachOps(s.disk, files, log, now, f, id);
  }

  lemma FinishedStep(s: Store, recipient: string, e: Event, id: string)
    requires Inv(s, recipient) && Possible(s, e) && Listed(s, e) && UnderCap(s, e) && Finished(s, id)
    ensures Finished(After(s, recipient, e), id)
    ensures !Requeues(s, recipient, e, id)
  {
    var ops := Executed(s, recipient, e);
    forall op | op in ops ensures op in Planned(s, recipient, e) {}
    if id in s.disk.reserved {
      RecordedStep(s, recipient, e, id);
      SendsNewIds(s, recipient, e, id);
    } else {
      UnreservedOps(s, recipient, e, id);
      StaysUnreserved(s, ops, id);
    }
    TakenStays(s, ops, id);
  }

  lemma SendsNewIds(s: Store, recipient: string, e: Event, id: string)
    requires Possible(s, e) && Taken(s, id)
    ensures forall op :: op in Planned(s, recipient, e) && op.Send? ==> op.m.id != id
  {
    match e
    case Release(files, now, f, _) =>
      ReleaseEachOps(s.disk, files, ApplyAll(s.disk, PruneOps(s.disk, now, f.prune)).log, now, f, id);
    case _ => PlannedOps(s, recipient, e);
  }

  /** The reservation is old enough and in order, and nothing stops its return to the inbox. */
  predicate Returnable(d: Disk, id: string, now: int, f: ReleaseFaults) {
    && id in d.reserved && d.reserved[id].readable
    && Age(d.reserved[id], now, f.stat(id)) > RESERVATION_TTL_MS && !f.append(id)
  }

  ghost predicate RequeuesId(ops: seq<Op>, id: string) {
    exists op :: op in ops && op.Requeue? && op.m.id == id
  }

  lemma {:induction false} EachRequeuesExactly(d: Disk, files: seq<string>, log: seq<LogLine>, now: int, f: ReleaseFaults, id: string)
    requires forall x :: x in files ==> x in d.reserved && d.reserved[x].m.id == x
    ensures RequeuesId(ReleaseEach(d, files, log, now, f), id)
       <==> id in files && Returnable(d, id, now, f) && !KnownProcessed(log, id)
  {
    if files != [] {
      var init, last := files[..|files| - 1], files[|files| - 1];
      EachRequeuesExactly(d, init, log, now, f, id);
      assert files == init + [last];
      var before, one := ReleaseEach(d, init, log, now, f), ReleaseOne(d.reserved[last], last, log, now, f);
      OneRequeuesExactly(d, last, log, now, f, id);
      assert RequeuesId(before + one, id) <==> RequeuesId(before, id) || RequeuesId(one, id) by {
        forall op | op in before || op in one ensures op in before + one {}
      }
    }
  }

  lemma OneRequeuesExactly(d: Disk, file: string, log: seq<LogLine>, now: int, f: ReleaseFaults, id: string)
    requires file in d.reserved && d.reserved[file].m.id == file
    ensures RequeuesId(ReleaseOne(d.reserved[file], file, log, now, f), id)
       <==> file == id && Returnable(d, id, now, f) && !KnownProcessed(log, id)
  {
    if file == id && Returnable(d, id, now, f) && !KnownProcessed(log, id) {
      assert Requeue(d.reserved[file].m) in ReleaseOne(d.reserved[file], file, log, now, f);
    }
  }

  /** A release that runs to its end returns exactly the listed, stale, readable reservations whose id it
      does not find recorded; a log still over the size limit after pruning it does not read at all, so
      then recorded ids are returned too. */
  lemma RequeuesExactly(s: Store, recipient: string, e: Event, id: string)
    requires Inv(s, recipient) && e.Release? && Possible(s, e) && e.crash.None?
    requires !e.releaseFaults.list && !e.releaseFaults.log && !PruneThrows(s.disk, e.now, e.releaseFaults.prune)
    ensures var log := ApplyAll(s.disk, PruneOps(s.disk, e.now, e.releaseFaults.prune)).log;
      Requeues(s, recipient, e, id)
      <==> id in e.files && Returnable(s.disk, id, e.now, e.releaseFaults) && (Oversized(log) || !Logged(log, id))
  {
    var prune := PruneOps(s.disk, e.now, e.releaseFaults.prune);
    var log := ApplyAll(s.disk, prune).log;
    EachRequeuesExactly(s.disk, e.files, log, e.now, e.releaseFaults, id);
    var each := ReleaseEach(s.disk, e.files, log, e.now, e.releaseFaults);
    assert Executed(s, recipient, e) == prune + each;
    assert RequeuesId(prune + each, id) <==> RequeuesId(each, id) by {
      forall op | op in each ensures op in prune + each {}
    }
  }

  /** A run whose events from `i` on can list reservations when they prune, and read the log when they
      release. */
  ghost predicate Readable(ss: seq<Store>, es: seq<Event>, i: nat) {
    |ss| == |es| + 1 && forall k :: i <= k < |es| ==> Listed(ss[k], es[k]) && UnderCap(ss[k], es[k])
  }

  lemma {:induction false} StaysFinished(ss: seq<Store>, es: seq<Event>, recipient: string, i: nat, j: nat, id: string)
    requires Run(ss, es, recipient) && Inv(ss[0], recipient) && Readable(ss, es, i)
    requires i <= j <= |es| && Finished(ss[i], id)
    ensures Finished(ss[j], id)
    decreases j
  {
    if i < j {
      StaysFinished(ss, es, recipient, i, j - 1, id);
      InvThroughout(ss, es, recipient, j - 1);
      hide Finished, After, Inv;
      FinishedStep(ss[j - 1], recipient, es[j - 1], id);
    }
  }

  /** Over any run of writes, polls, acks, releases and crashes: from a state in which an id is used up,
      not waiting and recorded if it is still reserved, no release requeues it and no poll delivers it. */
  lemma NoRedeliveryOfRecorded(ss: seq<Store>, es: seq<Event>, recipient: string, i: nat, j: nat, id: string)
    requires Run(ss, es, recipient) && Inv(ss[0], recipient) && Readable(ss, es, i)
    requires i <= j < |es| && Finished(ss[i], id)
    ensures !Requeues(ss[j], recipient, es[j], id)
    ensures !Delivers(ss[j], recipient, es[j], id)
  {
    StaysFinished(ss, es, recipient, i, j, id);
    InvThroughout(ss, es, recipient, j);
    FinishedStep(ss[j], recipient, es[j], id);
    TakenIsNotDelivered(ss[j], recipient, es[j], id);
  }

  /** The event wrote a processed record for `id`. */
  ghost predicate Records(s: Store, recipient: string, e: Event, id: string)
    requires Possible(s, e)
  {
    Appends(Executed(s, recipient, e), id)
  }

  ghost predicate Appends(ops: seq<Op>, id: string) {
    exists op :: op in ops && op.AppendLog? && op.line.id == Some(id)
  }

  lemma {:induction false} AppendedIsLogged(s: Store, ops: seq<Op>, id: string)
    requires exists op :: op in ops && op.AppendLog? && op.line.id == Some(id)
    requires forall op :: op in ops ==> !op.RewriteLog?
    ensures Logged(DoAll(s, ops).disk.log, id)
    decreases |ops|
  {
    var n := |ops| - 1;
    var t, op := DoAll(s, ops[..n]), ops[n];
    assert op in ops;
    if op.AppendLog? {
      LoggedConcat(t.disk.log, [op.line], id);
      assert op.line.id == Some(id) ==> [op.line][0].id == Some(id);
    }
    if !(op.AppendLog? && op.line.id == Some(id)) {
      var x :| x in ops && x.AppendLog? && x.line.id == Some(id);
      assert ops == ops[..n] + [op];
      assert x in ops[..n];
      AppendedIsLogged(s, ops[..n], id);
    }
  }

  /** What an acknowledgement has done when it stops: some of its records and removals, or all of them and the
      pruning. */
  lemma AckExecuted(s: Store, recipient: string, e: Event)
    requires e.Ack? && Possible(s, e)
    ensures var each := AckEach(Acked(e.ms, e.ackFaults), e.now, e.bytes, e.ackFaults.unlink);
      var prune := PruneOps(ApplyAll(s.disk, each), e.now, e.ackFaults.prune);
      || Executed(s, recipient, e) <= each
      || (Executed(s, recipient, e) == each + prune && prune != [])
  {
    hide AckEach, Acked;
    var each := AckEach(Acked(e.ms, e.ackFaults), e.now, e.bytes, e.ackFaults.unlink);
    var prune := PruneOps(ApplyAll(s.disk, each), e.now, e.ackFaults.prune);
    var ops, k := Planned(s, recipient, e), |Executed(s, recipient, e)|;
    assert ops == each || ops == each + prune;
    assert Executed(s, recipient, e) == ops[..k];
    if k <= |each| { assert ops[..k] == each[..k]; }
  }

  /** An acknowledgement that got as far as recording an id finishes it, even if the reservation could not
      be removed or the acknowledgement was cut short. */
  lemma RecordedIsFinished(s: Store, recipient: string, e: Event, id: string)
    requires e.Ack? && Possible(s, e) && Listed(s, e) && Taken(s, id) && Records(s, recipient, e, id)
    ensures Finished(After(s, recipient, e), id)
  {
    TakenStep(s, recipient, e, id);
    AckExecuted(s, recipient, e);
    var each := AckEach(Acked(e.ms, e.ackFaults), e.now, e.bytes, e.ackFaults.unlink);
    AckEachOps(Acked(e.ms, e.ackFaults), e.now, e.bytes, e.ackFaults.unlink);
    DoAllDisk(s, each);
    var prune, done := PruneOps(DoAll(s, each).disk, e.now, e.ackFaults.prune), Executed(s, recipient, e);
    hide Logged, ListingWorked, Taken, AckEach, PruneOps, ApplyAll, Planned, Executed, Possible, Appends;
    if done == each + prune && prune != [] {
      RecordSurvivesPrune(s, recipient, e, each, DoAll(s, each), prune, id);
    } else {
      PrefixRecords(s, each, done, id);
    }
  }

  lemma PrefixRecords(s: Store, each: seq<Op>, done: seq<Op>, id: string)
    requires done <= each && Appends(done, id) && forall op :: op in each ==> !op.RewriteLog?
    ensures Logged(DoAll(s, done).disk.log, id)
  {
    forall op | op in done ensures op in each {}
    AppendedIsLogged(s, done, id);
  }

  lemma RecordSurvivesPrune(s: Store, recipient: string, e: Event, each: seq<Op>, t: Store, prune: seq<Op>, id: string)
    requires e.Ack? && each == AckEach(Acked(e.ms, e.ackFaults), e.now, e.bytes, e.ackFaults.unlink)
    requires t == DoAll(s, each) && prune == PruneOps(t.disk, e.now, e.ackFaults.prune) && prune != []
    requires Possible(s, e) && Executed(s, recipient, e) == each + prune
    requires ListingWorked(t.disk.log, e.ackFaults.prune) && Records(s, recipient, e, id)
    ensures var u := After(s, recipient, e); id in u.disk.reserved ==> Logged(u.disk.log, id)
  {
    AckEachOps(Acked(e.ms, e.ackFaults), e.now, e.bytes, e.ackFaults.unlink);
    var op :| op in each + prune && op.AppendLog? && op.line.id == Some(id);
    assert op in each;
    AppendedIsLogged(s, each, id);
    DoConcat(s, each, prune);
    PruneIsHarmless(t, recipient, e.now, e.ackFaults.prune);
    if id in t.disk.reserved { PruneKeepsLogged(t, e.now, e.ackFaults.prune, id); }
  }

  /** Once delivered and recorded, never delivered again: over any run, releases included, an id that was
      not waiting when event `i` recorded it is delivered by no later poll. */
  lemma AcknowledgedIsDeliveredOnce(ss: seq<Store>, es: seq<Event>, recipient: string, i: nat, j: nat, id: string)
    requires Run(ss, es, recipient) && Inv(ss[0], recipient) && Readable(ss, es, i)
    requires i < j < |es| && es[i].Ack? && Taken(ss[i], id) && Records(ss[i], recipient, es[i], id)
    ensures !Delivers(ss[j], recipient, es[j], id)
  {
    RecordedIsFinished(ss[i], recipient, es[i], id);
    NoRedeliveryOfRecorded(ss, es, recipient, i + 1, j, id);
  }
}
