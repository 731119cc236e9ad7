/** The mailbox operations as they run: loops over messages and reservation files, each turn one or
    two file operations.  Every method is proved to perform exactly the file operations planned for
    it, in order, so what holds at every point of the plan holds wherever the process dies. */
module MailboxFiles {
  import opened MailboxLog
  import opened Mailbox
  import opened MailboxEffects
  import opened Options

  class FileMailbox {
    const recipient: string
    var inbox: seq<Line>
    var reserved: map<string, Reservation>
    var log: seq<LogLine>
    /** The file operations performed so far. */
    ghost var journal: seq<Op>

    function Files(): Disk
      reads this
    {
      Disk(inbox, reserved, log)
    }

    constructor (recipient: string)
      ensures this.recipient == recipient && Files() == Disk([], map[], []) && journal == []
    {
      this.recipient := recipient;
      inbox, reserved, log, journal := [], map[], [], [];
    }

    /** Starting from the files `start` and the journal `past`, the operations of `plan` were performed. */
    ghost predicate Performed(past: seq<Op>, start: Disk, plan: seq<Op>)
      reads this
    {
      journal == past + plan && Files() == ApplyAll(start, plan)
    }

    method Perform(op: Op)
      modifies this
      ensures journal == old(journal) + [op] && Files() == Apply(old(Files()), op)
    {
      match op {
        case Send(m) => inbox := inbox + [Good(m)];
        case Requeue(m) => inbox := inbox + [Good(m)];
        case Reserve(r) => reserved := reserved[r.m.id := r];
        case Unreserve(id) => reserved := reserved - {id};
        case TruncateInbox => inbox := [];
        case AppendLog(line) => log := log + [line];
        case RewriteLog(lines) => log := lines;
      }
      journal := journal + [op];
    }

    /** Append one message, unless the mailbox would exceed its byte limit or the append fails. */
    method Write(m: Message, unread: nat, lineBytes: nat, limit: Option<nat>, appendFails: bool) returns (ok: bool)
      modifies this
      ensures ok <==> !appendFails && (limit.Some? ==> unread + lineBytes <= limit.value)
      ensures Performed(old(journal), old(Files()), if ok then [Send(m)] else [])
      ensures inbox == (if ok then old(inbox) + [Good(m)] else old(inbox)) && reserved == old(reserved) && log == old(log)
    {
      if limit.Some? && unread + lineBytes > limit.value { return false; }
      if appendFails { return false; }
      Perform(Send(m));
      ApplySingle(old(Files()), Send(m));
      ok := true;
    }

    method ReserveNext(ghost past: seq<Op>, ghost start: Disk, batch: seq<Message>, w: nat, now: int)
      requires w < |batch| && Performed(past, start, ReserveAll(batch[..w], now))
      modifies this
      ensures Performed(past, start, ReserveAll(batch[..w + 1], now))
    {
      var one := Reserve(Reservation(batch[w], Some(now), now, true));
      Perform(one);
      ApplySnoc(past, start, ReserveAll(batch[..w], now), one);
      assert ReserveAll(batch[..w + 1], now) == ReserveAll(batch[..w], now) + [one];
    }

    /** Reserve the batch message by message, up to the first failure. */
    method ReserveBatch(batch: seq<Message>, now: int, fails: nat -> bool) returns (w: nat)
      modifies this
      ensures w == Written(|batch|, fails)
      ensures Performed(old(journal), old(Files()), ReserveAll(batch[..w], now))
    {
      w := 0;
      while w < |batch|
        invariant w <= |batch| && forall j :: 0 <= j < w ==> !fails(j)
        invariant Performed(old(journal), old(Files()), ReserveAll(batch[..w], now))
      {
        if fails(w) {
          WrittenIs(|batch|, fails, w);
          return;
        }
        ReserveNext(old(journal), old(Files()), batch, w, now);
        w := w + 1;
      }
      WrittenIs(|batch|, fails, w);
    }

    /** Remove the reservations of `ms`; one that cannot be removed stays behind. */
    method RollBack(ms: seq<Message>, unlinkFails: nat -> bool)
      modifies this
      ensures Performed(old(journal), old(Files()), Rollback(ms, unlinkFails))
    {
      var i := 0;
      while i < |ms|
        invariant 0 <= i <= |ms|
        invariant Performed(old(journal), old(Files()), Rollback(ms[..i], unlinkFails))
      {
        RollbackStep(ms, i, unlinkFails);
        if !unlinkFails(i) {
          Perform(Unreserve(ms[i].id));
          ApplySnoc(old(journal), old(Files()), Rollback(ms[..i], unlinkFails), Unreserve(ms[i].id));
        }
        i := i + 1;
      }
      assert ms[..i] == ms;
    }

    /** Read, reserve one by one, truncate; roll the reservations back when a step fails. */
    method Poll(now: int, f: PollFaults) returns (r: Option<seq<Message>>)
      modifies this
      ensures Performed(old(journal), old(Files()), PollOps(old(Files()), recipient, now, f))
      ensures r == PollResult(old(Files()), recipient, f)
      // In terms of the files alone.
      ensures exists ms, w: nat :: AreDue(old(inbox), recipient, ms)
                                   && PollOutcome(old(Files()), Files(), recipient, now, f, r, ms, w)
    {
      PollLeaves(Files(), recipient, now, f);
      if f.read { return None; }
      var all := Messages(inbox);
      if all == [] { return Some([]); }
      var batch := Filtered(Deduped(all), recipient);
      ghost var past, start := journal, Files();
      var w := ReserveBatch(batch, now, f.reserve);
      if w < |batch| || f.truncate {
        RollBack(batch[..w], f.unlink);
        ApplyChain(past, start, ReserveAll(batch[..w], now), Rollback(batch[..w], f.unlink));
        assert w == |batch| ==> batch[..w] == batch;
        return None;
      }
      assert batch[..w] == batch;
      Perform(TruncateInbox);
      ApplySnoc(past, start, ReserveAll(batch, now), TruncateInbox);
      r := Some(batch);
    }

    /** Rewrite the processed log if pruning drops anything. */
    method Prune(now: int, f: PruneFaults) returns (ok: bool)
      modifies this
      ensures Performed(old(journal), old(Files()), PruneOps(old(Files()), now, f))
      ensures ok == !PruneThrows(old(Files()), now, f)
      ensures PruneOutcome(old(Files()), Files(), now, f, ok)
    {
      PruneLeaves(Files(), now, f);
      if f.readFails { return false; }
      var p := Pruned(log, reserved.Keys, now, f);
      if p.None? { return true; }
      if f.writeFails { return false; }
      Perform(RewriteLog(p.value));
      ApplySingle(old(Files()), RewriteLog(p.value));
      ok := true;
    }

    method AckOne(ms: seq<Message>, i: nat, now: int, bytes: Message -> nat, unlinkFails: nat -> bool)
      requires i < |ms|
      modifies this
      ensures Performed(old(journal), old(Files()), AckStep(ms, i, now, bytes, unlinkFails))
    {
      var line := AppendLog(LineOf(ms[i], now, bytes));
      Perform(line);
      ApplySingle(old(Files()), line);
      if !unlinkFails(i) {
        Perform(Unreserve(ms[i].id));
        ApplySnoc(old(journal), old(Files()), [line], Unreserve(ms[i].id));
      }
    }

    method AckNext(ghost past: seq<Op>, ghost start: Disk, ms: seq<Message>, i: nat, now: int, bytes: Message -> nat,
                   unlinkFails: nat -> bool)
      requires i < |ms| && Performed(past, start, AckEach(ms[..i], now, bytes, unlinkFails))
      modifies this
      ensures Performed(past, start, AckEach(ms[..i + 1], now, bytes, unlinkFails))
    {
      AckOne(ms, i, now, bytes, unlinkFails);
      AckEachStep(past, start, ms, i, now, bytes, unlinkFails);
    }

    /** Log messages as processed and remove their reservations, up to the first failed append. */
    method AckBatch(ms: seq<Message>, now: int, bytes: Message -> nat, f: AckFaults)
      returns (acknowledged: seq<Message>, unlinkErrors: bool)
      modifies this
      ensures acknowledged == Acked(ms, f) && unlinkErrors == UnlinkFailed(|acknowledged|, f.unlink)
      ensures Performed(old(journal), old(Files()), AckEach(acknowledged, now, bytes, f.unlink))
    {
      acknowledged, unlinkErrors := [], false;
      var i := 0;
      while i < |ms|
        invariant 0 <= i <= |ms| && acknowledged == ms[..i]
        invariant forall j :: 0 <= j < i ==> !f.append(j)
        invariant unlinkErrors == UnlinkFailed(i, f.unlink)
        invariant Performed(old(journal), old(Files()), AckEach(ms[..i], now, bytes, f.unlink))
      {
        if f.append(i) {
          WrittenIs(|ms|, f.append, i);
          return;
        }
        AckNext(old(journal), old(Files()), ms, i, now, bytes, f.unlink);
        acknowledged := acknowledged + [ms[i]];
        UnlinkFailedStep(i, f.unlink);
        if f.unlink(i) { unlinkErrors := true; }
        i := i + 1;
      }
      assert ms[..i] == ms;
      WrittenIs(|ms|, f.append, i);
    }

    /** Log every message as processed and remove its reservation.  A failed append ends the batch, a
        failed unlink does not; either way the acknowledged messages are reported. */
    method AckMessages(ms: seq<Message>, now: int, bytes: Message -> nat, f: AckFaults)
      returns (ok: bool, acknowledged: seq<Message>)
      modifies this
      ensures Performed(old(journal), old(Files()), AckOps(old(Files()), ms, now, bytes, f))
      ensures ok == !AckThrows(old(Files()), ms, now, bytes, f)
      ensures acknowledged == Acked(ms, f)
      ensures AckOutcome(old(Files()), Files(), ms, now, bytes, f, ok, acknowledged)
    {
      AckLeaves(Files(), ms, now, bytes, f);
      hide AckOutcome;
      var unlinkErrors;
      acknowledged, unlinkErrors := AckBatch(ms, now, bytes, f);
      if |acknowledged| < |ms| || unlinkErrors { return false, acknowledged; }
      assert acknowledged == ms;
      ghost var ops, after := AckEach(ms, now, bytes, f.unlink), Files();
      ok := Prune(now, f.prune);
      ApplyChain(old(journal), old(Files()), ops, PruneOps(after, now, f.prune));
    }

    /** Return stale reservations to the inbox, except those already processed. */
    method ReleaseStale(files: seq<string>, now: int, f: ReleaseFaults)
      requires forall x :: x in files ==> x in reserved
      modifies this
      ensures Performed(old(journal), old(Files()), ReleaseOps(old(Files()), files, now, f))
      ensures ReleaseOutcome(old(Files()), Files(), files, now, f)
    {
      ReleaseLeaves(Files(), files, now, f);
      hide ReleaseOutcome;
      if f.list { return; }
      ghost var prune := PruneOps(Files(), now, f.prune);
      var listed := reserved;
      var pruned := Prune(now, f.prune);
      if !pruned || f.log { return; }
      var processed := log;
      ghost var middle := journal;
      PruneKeepsReservations(old(Files()), now, f.prune);
      ReleaseFiles(files, processed, now, f);
      ApplyChain(old(journal), old(Files()), prune, ReleaseEach(ApplyAll(old(Files()), prune), files, processed, now, f));
      ReleaseEachSame(old(Files()), ApplyAll(old(Files()), prune), files, processed, now, f);
    }

    method ReleaseFiles(files: seq<string>, processed: seq<LogLine>, now: int, f: ReleaseFaults)
      requires forall x :: x in files ==> x in reserved
      modifies this
      ensures Performed(old(journal), old(Files()), ReleaseEach(old(Files()), files, processed, now, f))
    {
      var listed := reserved;
      var i := 0;
      while i < |files|
        invariant 0 <= i <= |files|
        invariant Performed(old(journal), old(Files()), ReleaseEach(old(Files()), files[..i], processed, now, f))
      {
        ReleaseFile(listed[files[i]], files[i], processed, now, f);
        ReleaseEachStep(old(Files()), files, i, processed, now, f);
        ApplyChain(old(journal), old(Files()), ReleaseEach(old(Files()), files[..i], processed, now, f),
          ReleaseOne(listed[files[i]], files[i], processed, now, f));
        i := i + 1;
      }
      assert files[..i] == files;
    }

    method ReleaseFile(r: Reservation, file: string, processed: seq<LogLine>, now: int, f: ReleaseFaults)
      modifies this
      ensures Performed(old(journal), old(Files()), ReleaseOne(r, file, processed, now, f))
    {
      if !r.readable || Age(r, now, f.stat(file)) <= RESERVATION_TTL_MS { return; }
      if KnownProcessed(processed, r.m.id) {
        if !f.unlink(file) {
          Perform(Unreserve(file));
          ApplySingle(old(Files()), Unreserve(file));
        }
        return;
      }
      if f.append(file) { return; }
      Perform(Requeue(r.m));
      ApplySingle(old(Files()), Requeue(r.m));
      if !f.unlink(file) {
        Perform(Unreserve(file));
        ApplySnoc(old(journal), old(Files()), [Requeue(r.m)], Unreserve(file));
      }
    }
  }

  lemma ApplySnoc(past: seq<Op>, d: Disk, a: seq<Op>, op: Op)
    ensures ApplyAll(d, a + [op]) == Apply(ApplyAll(d, a), op)
    ensures past + a + [op] == past + (a + [op])
  {
    assert (a + [op])[..|a|] == a;
  }

  lemma ApplySingle(d: Disk, op: Op)
    ensures ApplyAll(d, [op]) == Apply(d, op)
  {
    assert [op][..0] == [];
  }

  lemma ApplyChain(past: seq<Op>, d: Disk, a: seq<Op>, b: seq<Op>)
    ensures ApplyAll(d, a + b) == ApplyAll(ApplyAll(d, a), b)
    ensures past + a + b == past + (a + b)
  {
    ApplyConcat(d, a, b);
  }

  lemma {:induction false} WrittenIs(n: nat, fails: nat -> bool, i: nat)
    requires i <= n && (forall j :: 0 <= j < i ==> !fails(j)) && (i < n ==> fails(i))
    ensures Written(n, fails) == i
  {
  }

  lemma RollbackStep(ms: seq<Message>, i: nat, unlinkFails: nat -> bool)
    requires i < |ms|
    ensures Rollback(ms[..i + 1], unlinkFails)
         == if unlinkFails(i) then Rollback(ms[..i], unlinkFails)
            else Rollback(ms[..i], unlinkFails) + [Unreserve(ms[i].id)]
  {
    assert ms[..i + 1][..i] == ms[..i];
  }

  function AckStep(ms: seq<Message>, i: nat, now: int, bytes: Message -> nat, unlinkFails: nat -> bool): seq<Op>
    requires i < |ms|
  {
    [AppendLog(LineOf(ms[i], now, bytes))] + if unlinkFails(i) then [] else [Unreserve(ms[i].id)]
  }

  lemma UnlinkFailedStep(i: nat, unlinkFails: nat -> bool)
    ensures UnlinkFailed(i + 1, unlinkFails) == (UnlinkFailed(i, unlinkFails) || unlinkFails(i))
  {
    assert unlinkFails(i) ==> UnlinkFailed(i + 1, unlinkFails);
  }

  lemma AckEachStep(past: seq<Op>, d: Disk, ms: seq<Message>, i: nat, now: int, bytes: Message -> nat,
                    unlinkFails: nat -> bool)
    requires i < |ms|
    ensures var a, b := AckEach(ms[..i], now, bytes, unlinkFails), AckStep(ms, i, now, bytes, unlinkFails);
      var c := AckEach(ms[..i + 1], now, bytes, unlinkFails);
      past + a + b == past + c && ApplyAll(d, c) == ApplyAll(ApplyAll(d, a), b)
  {
    var a, b := AckEach(ms[..i], now, bytes, unlinkFails), AckStep(ms, i, now, bytes, unlinkFails);
    assert ms[..i + 1][..i] == ms[..i];
    assert AckEach(ms[..i + 1], now, bytes, unlinkFails) == a + b;
    ApplyChain(past, d, a, b);
  }

  lemma ReleaseEachStep(d: Disk, files: seq<string>, i: nat, log: seq<LogLine>, now: int, f: ReleaseFaults)
    requires i < |files| && forall x :: x in files ==> x in d.reserved
    ensures ReleaseEach(d, files[..i + 1], log, now, f)
         == ReleaseEach(d, files[..i], log, now, f) + ReleaseOne(d.reserved[files[i]], files[i], log, now, f)
  {
    assert files[..i + 1][..i] == files[..i];
  }

  lemma PruneKeepsReservations(d: Disk, now: int, f: PruneFaults)
    ensures ApplyAll(d, PruneOps(d, now, f)).reserved == d.reserved
  {
    forall lines {
      ApplySingle(d, RewriteLog(lines));
    }
  }

  lemma {:induction false} ReleaseEachSame(d: Disk, e: Disk, files: seq<string>, log: seq<LogLine>, now: int, f: ReleaseFaults)
    requires d.reserved == e.reserved && forall x :: x in files ==> x in d.reserved
    ensures ReleaseEach(d, files, log, now, f) == ReleaseEach(e, files, log, now, f)
  {
    if files != [] { ReleaseEachSame(d, e, files[..|files| - 1], log, now, f); }
  }
}
