/** What polls, acknowledgements and releases leave in the files, in terms of the files alone. */
module MailboxEffects {
  import opened MailboxLog
  import opened Mailbox
  import opened Options

  // ---- What a poll hands over ------------------------------------------------------------------

  /** A line holds a message that is due: the first one of its id, and no directive for another recipient. */
  predicate Due(inbox: seq<Line>, recipient: string, i: nat)
    requires i < |inbox|
  {
    && inbox[i].Good?
    && (forall j :: 0 <= j < i && inbox[j].Good? ==> inbox[j].m.id != inbox[i].m.id)
    && (inbox[i].m.kind == Directive ==> inbox[i].m.to == recipient)
  }

  /** `ms` are the messages of the lines `at`, which are all the due ones, in order. */
  predicate DueAt(inbox: seq<Line>, recipient: string, ms: seq<Message>, at: seq<nat>) {
    && |at| == |ms|
    && (forall k :: 0 <= k < |at| ==> at[k] < |inbox| && Due(inbox, recipient, at[k]) && inbox[at[k]].m == ms[k])
    && (forall k, l :: 0 <= k < l < |at| ==> at[k] < at[l])
    && (forall i :: 0 <= i < |inbox| && Due(inbox, recipient, i) ==> i in at)
  }

  ghost predicate AreDue(inbox: seq<Line>, recipient: string, ms: seq<Message>) {
    exists at :: DueAt(inbox, recipient, ms, at)
  }

  lemma DueDistinct(inbox: seq<Line>, recipient: string, ms: seq<Message>)
    requires AreDue(inbox, recipient, ms)
    ensures forall k, l :: 0 <= k < l < |ms| ==> ms[k].id != ms[l].id
    ensures forall m :: m in ms <==> exists i :: 0 <= i < |inbox| && Due(inbox, recipient, i) && inbox[i].m == m
  {
    var at :| DueAt(inbox, recipient, ms, at);
    forall m | exists i :: 0 <= i < |inbox| && Due(inbox, recipient, i) && inbox[i].m == m ensures m in ms {
      var i :| 0 <= i < |inbox| && Due(inbox, recipient, i) && inbox[i].m == m;
      var k :| 0 <= k < |at| && at[k] == i;
      assert ms[k] == m;
    }
  }

  /** The due messages are determined by the inbox. */
  lemma DueUnique(inbox: seq<Line>, recipient: string, ms: seq<Message>, ns: seq<Message>)
    requires AreDue(inbox, recipient, ms) && AreDue(inbox, recipient, ns)
    ensures ms == ns
  {
    var at :| DueAt(inbox, recipient, ms, at);
    var to :| DueAt(inbox, recipient, ns, to);
    SameAscending(at, to);
  }

  lemma {:induction false} SameAscending(a: seq<nat>, b: seq<nat>)
    requires forall k, l :: 0 <= k < l < |a| ==> a[k] < a[l]
    requires forall k, l :: 0 <= k < l < |b| ==> b[k] < b[l]
    requires forall i :: i in a <==> i in b
    ensures a == b
  {
    assert (a == [] || a[0] in b) && (b == [] || b[0] in a);
    if a != [] {
      var p, q := a[|a| - 1], b[|b| - 1];
      assert p in b && q in a;
      assert p == q;
      var c, d := a[..|a| - 1], b[..|b| - 1];
      assert a == c + [p] && b == d + [q];
      forall i ensures i in c <==> i in d {
        assert i in c <==> i in a && i != p;
        assert i in d <==> i in b && i != q;
      }
      SameAscending(c, d);
    }
  }

  lemma Regroup(a: seq<Message>, b: seq<Message>, c: seq<Message>)
    ensures a + (b + c) == a + b + c
  {
  }

  lemma {:induction false} MessagesSnoc(inbox: seq<Line>, l: Line)
    ensures Messages(inbox + [l]) == Messages(inbox) + if l.Good? then [l.m] else []
  {
    if inbox == [] {
      assert inbox + [l] == [l];
    } else {
      assert (inbox + [l])[1..] == inbox[1..] + [l];
      MessagesSnoc(inbox[1..], l);
      var head, last := if inbox[0].Good? then [inbox[0].m] else [], if l.Good? then [l.m] else [];
      Regroup(head, Messages(inbox[1..]), last);
    }
  }

  lemma {:induction false} FilteredSnoc(ms: seq<Message>, m: Message, recipient: string)
    ensures Filtered(ms + [m], recipient) == Filtered(ms, recipient) + if Accepts(recipient, m) then [m] else []
  {
    if ms == [] {
      assert ms + [m] == [m];
    } else {
      assert (ms + [m])[1..] == ms[1..] + [m];
      FilteredSnoc(ms[1..], m, recipient);
      var head, last := if Accepts(recipient, ms[0]) then [ms[0]] else [], if Accepts(recipient, m) then [m] else [];
      Regroup(head, Filtered(ms[1..], recipient), last);
    }
  }

  predicate HasId(ms: seq<Message>, id: string) {
    exists i :: 0 <= i < |ms| && ms[i].id == id
  }

  lemma HasIdSnoc(ms: seq<Message>, m: Message, id: string)
    ensures HasId(ms + [m], id) <==> HasId(ms, id) || m.id == id
  {
    var more := ms + [m];
    assert more[|ms|] == m;
    if HasId(ms, id) {
      var i :| 0 <= i < |ms| && ms[i].id == id;
      assert more[i].id == id;
    }
  }

  lemma {:induction false} DedupedIds(ms: seq<Message>, id: string)
    ensures HasId(Deduped(ms), id) <==> HasId(ms, id)
  {
    if ms != [] {
      var init, last := ms[..|ms| - 1], ms[|ms| - 1];
      assert ms == init + [last];
      DedupedIds(init, id);
      HasIdSnoc(init, last, id);
      HasIdSnoc(Deduped(init), last, id);
    }
  }

  predicate HasLine(inbox: seq<Line>, id: string) {
    exists j :: 0 <= j < |inbox| && inbox[j].Good? && inbox[j].m.id == id
  }

  lemma HasLineSnoc(inbox: seq<Line>, l: Line, id: string)
    ensures HasLine(inbox + [l], id) <==> HasLine(inbox, id) || (l.Good? && l.m.id == id)
  {
    var more := inbox + [l];
    assert more[|inbox|] == l;
    if HasLine(inbox, id) {
      var i :| 0 <= i < |inbox| && inbox[i].Good? && inbox[i].m.id == id;
      assert more[i] == inbox[i];
    }
  }

  lemma {:induction false} MessagesIds(inbox: seq<Line>, id: string)
    ensures HasId(Messages(inbox), id) <==> HasLine(inbox, id)
  {
    if inbox != [] {
      var init, last := inbox[..|inbox| - 1], inbox[|inbox| - 1];
      assert inbox == init + [last];
      MessagesIds(init, id);
      MessagesSnoc(init, last);
      HasLineSnoc(init, last, id);
      if last.Good? {
        HasIdSnoc(Messages(init), last.m, id);
      } else {
        assert Messages(inbox) == Messages(init);
      }
    }
  }

  lemma DueSnoc(inbox: seq<Line>, l: Line, recipient: string, ms: seq<Message>, at: seq<nat>)
    requires DueAt(inbox, recipient, ms, at)
    ensures var n, more := |inbox|, inbox + [l];
      if Due(more, recipient, n) then DueAt(more, recipient, ms + [l.m], at + [n]) else DueAt(more, recipient, ms, at)
  {
    var more := inbox + [l];
    forall i | 0 <= i < |inbox| ensures Due(inbox, recipient, i) == Due(more, recipient, i) {
      assert forall j :: 0 <= j <= i ==> more[j] == inbox[j];
    }
    if Due(more, recipient, |inbox|) {
      var to := at + [|inbox|];
      forall i | 0 <= i < |more| && Due(more, recipient, i) ensures i in to {
        assert i < |inbox| ==> i in at;
        assert to[|at|] == |inbox|;
      }
    }
  }

  lemma LastIsDue(inbox: seq<Line>, l: Line, recipient: string)
    ensures Due(inbox + [l], recipient, |inbox|) <==> l.Good? && !HasLine(inbox, l.m.id) && Accepts(recipient, l.m)
  {
    assert forall j :: 0 <= j < |inbox| ==> (inbox + [l])[j] == inbox[j];
  }

  /** The batch of a poll is what is due. */
  lemma {:induction false} BatchIsDue(inbox: seq<Line>, recipient: string) returns (at: seq<nat>)
    ensures DueAt(inbox, recipient, Filtered(Deduped(Messages(inbox)), recipient), at)
  {
    if inbox == [] { return []; }
    var n := |inbox| - 1;
    var init, last := inbox[..n], inbox[n];
    assert inbox == init + [last];
    at := BatchIsDue(init, recipient);
    hide DueAt, Due, Messages, Filtered, Deduped, HasLine, HasId;
    var ms := Messages(init);
    DueSnoc(init, last, recipient, Filtered(Deduped(ms), recipient), at);
    MessagesSnoc(init, last);
    LastIsDue(init, last, recipient);
    if last.Good? {
      BatchSnoc(ms, last.m, recipient);
      MessagesIds(init, last.m.id);
    } else {
      assert Messages(inbox) == ms;
    }
    if Due(inbox, recipient, n) { at := at + [n]; }
  }

  lemma BatchSnoc(ms: seq<Message>, m: Message, recipient: string)
    ensures Filtered(Deduped(ms + [m]), recipient)
         == Filtered(Deduped(ms), recipient) + if !HasId(ms, m.id) && Accepts(recipient, m) then [m] else []
  {
    assert (ms + [m])[..|ms|] == ms;
    DedupedIds(ms, m.id);
    FilteredSnoc(Deduped(ms), m, recipient);
  }

  // ---- What a poll does ------------------------------------------------------------------------

  /** Every reservation of an id outside `ids` is the same in both. */
  ghost predicate SameElsewhere(before: map<string, Reservation>, after: map<string, Reservation>, ids: set<string>) {
    forall id :: id !in ids ==> (id in after <==> id in before) && (id in after ==> after[id] == before[id])
  }

  function IdsOf(ms: seq<Message>): set<string> {
    set m | m in ms :: m.id
  }

  /** A reservation made now. */
  function Fresh(m: Message, now: int): Reservation {
    Reservation(m, Some(now), now, true)
  }

  /** `after` is `before` with every message of `ms` reserved. */
  ghost predicate AllReserved(before: map<string, Reservation>, after: map<string, Reservation>, ms: seq<Message>, now: int) {
    && SameElsewhere(before, after, IdsOf(ms))
    && forall k :: 0 <= k < |ms| ==> ms[k].id in after && after[ms[k].id] == Fresh(ms[k], now)
  }

  /** Every message of `ms` was reserved, and its reservation removed again where that is possible. */
  ghost predicate LeftBehind(before: map<string, Reservation>, after: map<string, Reservation>, ms: seq<Message>, now: int,
                             unlinkFails: nat -> bool) {
    && SameElsewhere(before, after, IdsOf(ms))
    && forall k :: 0 <= k < |ms| ==>
         if unlinkFails(k) then ms[k].id in after && after[ms[k].id] == Fresh(ms[k], now) else ms[k].id !in after
  }

  predicate HasMessage(inbox: seq<Line>) {
    exists i :: 0 <= i < |inbox| && inbox[i].Good?
  }

  /** Of `n` steps the first `w` work, and the next, if there is one, fails. */
  predicate FirstFailure(n: nat, fails: nat -> bool, w: nat) {
    w <= n && (forall i :: 0 <= i < w ==> !fails(i)) && (w < n ==> fails(w))
  }

  /** The outcome of a poll: `ms` are the due messages, `w` of them are reserved before a reservation fails.
      Unless the inbox cannot be read, has no message, or a step fails, the due messages are returned, each in
      a reservation, and the inbox is empty.  After a failure the inbox is as before, and of the reservations
      made only those stay that cannot be removed. */
  ghost predicate PollOutcome(d: Disk, u: Disk, recipient: string, now: int, f: PollFaults, r: Option<seq<Message>>,
                        ms: seq<Message>, w: nat) {
    var any := HasMessage(d.inbox);
    && w <= |ms| && (if f.read then w == 0 else FirstFailure(|ms|, f.reserve, w))
    && r == (if f.read || (any && (f.truncate || w < |ms|)) then None else Some(ms))
    && u.log == d.log
    && u.inbox == (if any && r.Some? then [] else d.inbox)
    && if r.Some? then AllReserved(d.reserved, u.reserved, ms, now)
       else LeftBehind(d.reserved, u.reserved, ms[..w], now, f.unlink)
  }

  predicate Distinct(ms: seq<Message>) {
    forall k, l :: 0 <= k < l < |ms| ==> ms[k].id != ms[l].id
  }

  lemma IdsSnoc(ms: seq<Message>)
    requires ms != []
    ensures IdsOf(ms) == IdsOf(ms[..|ms| - 1]) + {ms[|ms| - 1].id}
  {
    assert ms == ms[..|ms| - 1] + [ms[|ms| - 1]];
  }

  lemma ReserveOneMore(before: map<string, Reservation>, mid: map<string, Reservation>, ms: seq<Message>, m: Message, now: int)
    requires Distinct(ms + [m]) && AllReserved(before, mid, ms, now)
    ensures AllReserved(before, mid[m.id := Fresh(m, now)], ms + [m], now)
  {
    var more := ms + [m];
    assert more[|ms|] == m;
    forall k | 0 <= k < |ms| ensures ms[k].id != m.id { assert more[k] == ms[k]; }
    assert IdsOf(more) == IdsOf(ms) + {m.id} by { IdsSnoc(more); assert more[..|ms|] == ms; }
  }

  lemma {:induction false} ReservingLeaves(d: Disk, ms: seq<Message>, now: int)
    requires Distinct(ms)
    ensures var u := ApplyAll(d, ReserveAll(ms, now));
      u.inbox == d.inbox && u.log == d.log && AllReserved(d.reserved, u.reserved, ms, now)
  {
    if ms != [] {
      var n := |ms| - 1;
      assert ms[..n] + [ms[n]] == ms;
      assert ReserveAll(ms, now)[..n] == ReserveAll(ms[..n], now);
      ReservingLeaves(d, ms[..n], now);
      ReserveOneMore(d.reserved, ApplyAll(d, ReserveAll(ms[..n], now)).reserved, ms[..n], ms[n], now);
      hide AllReserved;
    }
  }

  lemma {:induction false} RollbackLeaves(d: Disk, ms: seq<Message>, unlinkFails: nat -> bool)
    requires Distinct(ms)
    ensures var u := ApplyAll(d, Rollback(ms, unlinkFails));
      && u.inbox == d.inbox && u.log == d.log && SameElsewhere(d.reserved, u.reserved, IdsOf(ms))
      && forall k :: 0 <= k < |ms| ==>
           if unlinkFails(k)
           then (ms[k].id in u.reserved <==> ms[k].id in d.reserved) && (ms[k].id in u.reserved ==> u.reserved[ms[k].id] == d.reserved[ms[k].id])
           else ms[k].id !in u.reserved
  {
    if ms != [] {
      var n := |ms| - 1;
      var before := Rollback(ms[..n], unlinkFails);
      IdsSnoc(ms);
      RollbackLeaves(d, ms[..n], unlinkFails);
      assert ms[n].id !in IdsOf(ms[..n]);
      if !unlinkFails(n) {
        assert (before + [Unreserve(ms[n].id)])[..|before|] == before;
      } else {
        assert before + [] == before;
      }
    }
  }

  lemma RolledBack(d: Disk, ms: seq<Message>, now: int, unlinkFails: nat -> bool)
    requires Distinct(ms)
    ensures var u := ApplyAll(d, ReserveAll(ms, now) + Rollback(ms, unlinkFails));
      u.inbox == d.inbox && u.log == d.log && LeftBehind(d.reserved, u.reserved, ms, now, unlinkFails)
  {
    ApplyConcat(d, ReserveAll(ms, now), Rollback(ms, unlinkFails));
    ReservingLeaves(d, ms, now);
    RollbackLeaves(ApplyAll(d, ReserveAll(ms, now)), ms, unlinkFails);
    hide ApplyAll, ReserveAll, Rollback;
  }

  lemma ApplyLast(d: Disk, ops: seq<Op>, op: Op)
    ensures ApplyAll(d, ops + [op]) == Apply(ApplyAll(d, ops), op)
  {
    assert (ops + [op])[..|ops|] == ops;
  }

  lemma AnyMessage(inbox: seq<Line>)
    ensures Messages(inbox) != [] <==> HasMessage(inbox)
  {
    var ms := Messages(inbox);
    forall i | 0 <= i < |inbox| && inbox[i].Good? ensures ms != [] {
      MessagesIds(inbox, inbox[i].m.id);
    }
    if ms != [] {
      assert HasId(ms, ms[0].id);
      MessagesIds(inbox, ms[0].id);
    }
  }

  lemma FailedPollLeaves(d: Disk, ms: seq<Message>, w: nat, recipient: string, now: int, f: PollFaults)
    requires Distinct(ms) && FirstFailure(|ms|, f.reserve, w)
    requires !f.read && (f.truncate || w < |ms|) && HasMessage(d.inbox)
    ensures PollOutcome(d, ApplyAll(d, ReserveAll(ms[..w], now) + Rollback(ms[..w], f.unlink)), recipient, now, f, None, ms, w)
  {
    hide HasMessage, LeftBehind, ReserveAll, ApplyAll, Rollback;
    RolledBack(d, ms[..w], now, f.unlink);
  }

  lemma GoodPollLeaves(d: Disk, ms: seq<Message>, recipient: string, now: int, f: PollFaults)
    requires Distinct(ms) && FirstFailure(|ms|, f.reserve, |ms|)
    requires !f.read && !f.truncate && HasMessage(d.inbox)
    ensures PollOutcome(d, ApplyAll(d, ReserveAll(ms, now) + [TruncateInbox]), recipient, now, f, Some(ms), ms, |ms|)
  {
    hide HasMessage, FirstFailure, AllReserved, ReserveAll, ApplyAll, Distinct;
    ReservingLeaves(d, ms, now);
    ApplyLast(d, ReserveAll(ms, now), TruncateInbox);
  }

  lemma UntouchedPollLeaves(d: Disk, ms: seq<Message>, w: nat, recipient: string, now: int, f: PollFaults)
    requires f.read || (!HasMessage(d.inbox) && ms == [])
    requires FirstFailure(|ms|, f.reserve, w)
    ensures PollOutcome(d, d, recipient, now, f, if f.read then None else Some([]), ms, if f.read then 0 else w)
  {
    assert ms[..0] == [];
  }

  lemma BatchDistinct(d: Disk, recipient: string)
    ensures AreDue(d.inbox, recipient, Batch(d, recipient)) && Distinct(Batch(d, recipient))
  {
    var at := BatchIsDue(d.inbox, recipient);
    DueDistinct(d.inbox, recipient, Batch(d, recipient));
  }

  /** The planned operations and the planned result of a poll have this outcome. */
  lemma PollLeaves(d: Disk, recipient: string, now: int, f: PollFaults)
    ensures AreDue(d.inbox, recipient, Batch(d, recipient))
    ensures PollOutcome(d, ApplyAll(d, PollOps(d, recipient, now, f)), recipient, now, f, PollResult(d, recipient, f),
              Batch(d, recipient), if f.read then 0 else Written(|Batch(d, recipient)|, f.reserve))
  {
    var ms := Batch(d, recipient);
    BatchDistinct(d, recipient);
    AnyMessage(d.inbox);
    var w := Written(|ms|, f.reserve);
    assert FirstFailure(|ms|, f.reserve, w);
    assert Messages(d.inbox) == [] ==> ms == [];
    assert ApplyAll(d, []) == d;
    hide HasMessage, FirstFailure, PollOutcome, ApplyAll, AreDue, Distinct, Messages, Batch, ReserveAll, Rollback;
    if f.read || Messages(d.inbox) == [] {
      UntouchedPollLeaves(d, ms, w, recipient, now, f);
    } else if w < |ms| || f.truncate {
      FailedPollLeaves(d, ms, w, recipient, now, f);
      assert w == |ms| ==> ms[..w] == ms;
    } else {
      GoodPollLeaves(d, ms, recipient, now, f);
    }
  }

  // ---- What an acknowledgement does --------------------------------------------------------------

  /** The reservation of `id` is removed by one of the first `k` acknowledgements. */
  predicate Removed(ms: seq<Message>, k: nat, id: string, unlinkFails: nat -> bool)
    requires k <= |ms|
  {
    exists i :: 0 <= i < k && ms[i].id == id && !unlinkFails(i)
  }

  /** The files after the first `k` messages: a record for each, and the reservations that could be removed
      are gone. */
  ghost predicate Acknowledged(d: Disk, u: Disk, ms: seq<Message>, k: nat, now: int, bytes: Message -> nat,
                               unlinkFails: nat -> bool)
    requires k <= |ms|
  {
    && u.inbox == d.inbox
    && |u.log| == |d.log| + k && u.log[..|d.log|] == d.log
    && (forall i :: 0 <= i < k ==> u.log[|d.log| + i] == LogLine(Some(ms[i].id), Some(now), bytes(ms[i])))
    && forall id :: (id in u.reserved <==> id in d.reserved && !Removed(ms, k, id, unlinkFails))
                    && (id in u.reserved ==> u.reserved[id] == d.reserved[id])
  }

  /** The log after pruning: as it was, or what pruning leaves; whether that works. */
  ghost predicate PruneOutcome(d: Disk, u: Disk, now: int, f: PruneFaults, ok: bool) {
    var p := Pruned(d.log, d.reserved.Keys, now, f);
    && (ok <==> !f.readFails && !(p.Some? && f.writeFails))
    && u == if ok && p.Some? then d.(log := p.value) else d
  }

  /** The outcome of acknowledging: the messages before the first failed append are recorded and reported.  The
      log is pruned exactly if every message was recorded and its reservation removed, and the call succeeds
      exactly if that works too. */
  ghost predicate AckOutcome(d: Disk, u: Disk, ms: seq<Message>, now: int, bytes: Message -> nat, f: AckFaults,
                             ok: bool, acknowledged: seq<Message>) {
    exists k: nat, mid :: FirstFailure(|ms|, f.append, k) && Acknowledged(d, mid, ms, k, now, bytes, f.unlink)
      && acknowledged == ms[..k]
      && if k == |ms| && forall i :: 0 <= i < |ms| ==> !f.unlink(i)
         then PruneOutcome(mid, u, now, f.prune, ok) else u == mid && !ok
  }

  lemma RemovedNext(ms: seq<Message>, k: nat, id: string, unlinkFails: nat -> bool)
    requires k < |ms|
    ensures Removed(ms, k + 1, id, unlinkFails) <==> Removed(ms, k, id, unlinkFails) || (ms[k].id == id && !unlinkFails(k))
  {
  }

  lemma AckOneMore(d: Disk, u: Disk, ms: seq<Message>, k: nat, now: int, bytes: Message -> nat, unlinkFails: nat -> bool)
    requires k < |ms| && Acknowledged(d, u, ms, k, now, bytes, unlinkFails)
    ensures var logged := Apply(u, AppendLog(LineOf(ms[k], now, bytes)));
      Acknowledged(d, if unlinkFails(k) then logged else Apply(logged, Unreserve(ms[k].id)), ms, k + 1, now, bytes, unlinkFails)
  {
    forall id ensures Removed(ms, k + 1, id, unlinkFails) <==> Removed(ms, k, id, unlinkFails) || (ms[k].id == id && !unlinkFails(k)) {
      RemovedNext(ms, k, id, unlinkFails);
    }
  }

  lemma {:induction false} AckEachLeaves(d: Disk, ms: seq<Message>, k: nat, now: int, bytes: Message -> nat, unlinkFails: nat -> bool)
    requires k <= |ms|
    ensures Acknowledged(d, ApplyAll(d, AckEach(ms[..k], now, bytes, unlinkFails)), ms, k, now, bytes, unlinkFails)
  {
    if k > 0 {
      var n := k - 1;
      assert ms[..k][..n] == ms[..n];
      AckEachLeaves(d, ms, n, now, bytes, unlinkFails);
      var before := AckEach(ms[..n], now, bytes, unlinkFails);
      AckOneMore(d, ApplyAll(d, before), ms, n, now, bytes, unlinkFails);
      var line, drop := AppendLog(LineOf(ms[n], now, bytes)), Unreserve(ms[n].id);
      ApplyLast(d, before, line);
      ApplyLast(d, before + [line], drop);
      assert AckEach(ms[..k], now, bytes, unlinkFails)
          == if unlinkFails(n) then before + [line] else before + [line] + [drop];
      hide Acknowledged;
    }
  }

  lemma PruneLeaves(d: Disk, now: int, f: PruneFaults)
    ensures PruneOutcome(d, ApplyAll(d, PruneOps(d, now, f)), now, f, !PruneThrows(d, now, f))
  {
    var p := Pruned(d.log, d.reserved.Keys, now, f);
    if p.Some? {
      ApplyLast(d, [], RewriteLog(p.value));
      assert [] + [RewriteLog(p.value)] == [RewriteLog(p.value)];
    }
  }

  lemma AckLeaves(d: Disk, ms: seq<Message>, now: int, bytes: Message -> nat, f: AckFaults)
    ensures AckOutcome(d, ApplyAll(d, AckOps(d, ms, now, bytes, f)), ms, now, bytes, f,
              !AckThrows(d, ms, now, bytes, f), Acked(ms, f))
  {
    var k := Written(|ms|, f.append);
    var ops := AckEach(ms[..k], now, bytes, f.unlink);
    var mid := ApplyAll(d, ops);
    AckEachLeaves(d, ms, k, now, bytes, f.unlink);
    assert k == |ms| ==> ms[..k] == ms;
    assert FirstFailure(|ms|, f.append, k);
    PruneLeaves(mid, now, f.prune);
    ApplyConcat(d, ops, PruneOps(mid, now, f.prune));
    hide Acknowledged, FirstFailure, PruneOutcome, ApplyAll, AckEach, PruneOps, PruneThrows;
  }

  // ---- What a release does -----------------------------------------------------------------------

  /** A reservation past its time to live, by its own time unless this is missing or in the future. */
  predicate Stale(r: Reservation, now: int, statFails: bool) {
    && r.readable
    && if r.reservedAt.Some? && r.reservedAt.value <= now + 30_000 then r.reservedAt.value < now - RESERVATION_TTL_MS
       else if statFails then now > RESERVATION_TTL_MS else r.mtime < now - RESERVATION_TTL_MS
  }

  /** The release found the id in a log it could read. */
  predicate Processed(log: seq<LogLine>, id: string) {
    !Oversized(log) && Logged(log, id)
  }

  /** The message goes back to the inbox. */
  predicate GoesBack(d: Disk, file: string, log: seq<LogLine>, now: int, f: ReleaseFaults) {
    && file in d.reserved && Stale(d.reserved[file], now, f.stat(file))
    && !Processed(log, d.reserved[file].m.id) && !f.append(file)
  }

  /** The reservation file goes: its message went back, or was processed before. */
  predicate FileGoes(d: Disk, file: string, log: seq<LogLine>, now: int, f: ReleaseFaults) {
    && file in d.reserved && Stale(d.reserved[file], now, f.stat(file)) && !f.unlink(file)
    && (Processed(log, d.reserved[file].m.id) || !f.append(file))
  }

  /** The line is that of a listed message that goes back. */
  predicate ComesBack(d: Disk, files: seq<string>, l: Line, log: seq<LogLine>, now: int, f: ReleaseFaults) {
    exists x :: x in files && GoesBack(d, x, log, now, f) && l == Good(d.reserved[x].m)
  }

  /** After the listed files: the messages that go back follow the inbox, and the files that go are gone. */
  ghost predicate Released(d: Disk, u: Disk, files: seq<string>, log: seq<LogLine>, now: int, f: ReleaseFaults) {
    && u.log == d.log
    && |d.inbox| <= |u.inbox| && u.inbox[..|d.inbox|] == d.inbox
    && (forall l :: l in u.inbox[|d.inbox|..] <==> ComesBack(d, files, l, log, now, f))
    && (forall x :: (x in u.reserved <==> x in d.reserved && !(x in files && FileGoes(d, x, log, now, f)))
                    && (x in u.reserved ==> u.reserved[x] == d.reserved[x]))
  }

  /** The outcome of a release: the log is pruned, and if that works and the log can be read, the files of the
      listing are gone through. */
  ghost predicate ReleaseOutcome(d: Disk, u: Disk, files: seq<string>, now: int, f: ReleaseFaults) {
    if f.list then u == d
    else exists mid, ok :: PruneOutcome(d, mid, now, f.prune, ok)
           && if ok && !f.log then Released(mid, u, files, mid.log, now, f) else u == mid
  }

  lemma GoesBackIff(d: Disk, file: string, log: seq<LogLine>, now: int, f: ReleaseFaults)
    requires file in d.reserved
    ensures var r := d.reserved[file];
      ReleaseOne(r, file, log, now, f)
      == (if GoesBack(d, file, log, now, f) then [Requeue(r.m)] else []) + (if FileGoes(d, file, log, now, f) then [Unreserve(file)] else [])
  {
    var r := d.reserved[file];
    assert r.readable && Age(r, now, f.stat(file)) > RESERVATION_TTL_MS <==> Stale(r, now, f.stat(file));
    assert KnownProcessed(log, r.m.id) <==> Processed(log, r.m.id);
    hide Age, Stale, KnownProcessed, Processed;
  }

  lemma ReleaseOneLeaves(d: Disk, u: Disk, files: seq<string>, file: string, log: seq<LogLine>, now: int, f: ReleaseFaults)
    requires file in d.reserved && Released(d, u, files, log, now, f)
    ensures Released(d, ApplyAll(u, ReleaseOne(d.reserved[file], file, log, now, f)), files + [file], log, now, f)
  {
    GoesBackIff(d, file, log, now, f);
    var r := d.reserved[file];
    var back := if GoesBack(d, file, log, now, f) then u.(inbox := u.inbox + [Good(r.m)]) else u;
    var gone := if FileGoes(d, file, log, now, f) then back.(reserved := back.reserved - {file}) else back;
    assert ApplyAll(u, ReleaseOne(r, file, log, now, f)) == gone by {
      ApplyLast(u, [], Requeue(r.m));
      ApplyLast(u, [], Unreserve(file));
      ApplyLast(u, [Requeue(r.m)], Unreserve(file));
      assert [] + [Requeue(r.m)] == [Requeue(r.m)] && [] + [Unreserve(file)] == [Unreserve(file)];
    }
    hide GoesBack, FileGoes, ReleaseOne, ApplyAll;
    OneMoreReleased(d, u, gone, files, file, log, now, f);
  }

  lemma OneMoreReleased(d: Disk, u: Disk, gone: Disk, files: seq<string>, file: string, log: seq<LogLine>, now: int, f: ReleaseFaults)
    requires file in d.reserved && Released(d, u, files, log, now, f)
    requires gone.log == u.log
    requires gone.inbox == if GoesBack(d, file, log, now, f) then u.inbox + [Good(d.reserved[file].m)] else u.inbox
    requires gone.reserved == if FileGoes(d, file, log, now, f) then u.reserved - {file} else u.reserved
    ensures Released(d, gone, files + [file], log, now, f)
  {
    var more, n := files + [file], |d.inbox|;
    forall x ensures x in more <==> x in files || x == file {}
    forall l ensures l in gone.inbox[n..] <==> ComesBack(d, more, l, log, now, f) {
      ComesBackNext(d, files, file, l, log, now, f);
      if GoesBack(d, file, log, now, f) {
        assert gone.inbox[n..] == u.inbox[n..] + [Good(d.reserved[file].m)];
      }
    }
  }

  lemma ComesBackNext(d: Disk, files: seq<string>, file: string, l: Line, log: seq<LogLine>, now: int, f: ReleaseFaults)
    requires file in d.reserved
    ensures ComesBack(d, files + [file], l, log, now, f)
       <==> ComesBack(d, files, l, log, now, f) || (GoesBack(d, file, log, now, f) && l == Good(d.reserved[file].m))
  {
    var more := files + [file];
    assert file in more;
    if ComesBack(d, files, l, log, now, f) {
      var x :| x in files && GoesBack(d, x, log, now, f) && l == Good(d.reserved[x].m);
      assert x in more;
    }
  }

  lemma {:induction false} ReleaseEachLeaves(d: Disk, e: Disk, files: seq<string>, log: seq<LogLine>, now: int, f: ReleaseFaults)
    requires d.reserved == e.reserved && forall x :: x in files ==> x in d.reserved
    ensures Released(e, ApplyAll(e, ReleaseEach(d, files, log, now, f)), files, log, now, f)
  {
    if files != [] {
      var init, last := files[..|files| - 1], files[|files| - 1];
      assert files == init + [last];
      ReleaseEachLeaves(d, e, init, log, now, f);
      var before, one := ReleaseEach(d, init, log, now, f), ReleaseOne(d.reserved[last], last, log, now, f);
      ApplyConcat(e, before, one);
      ReleaseOneLeaves(e, ApplyAll(e, before), init, last, log, now, f);
      hide Released, ReleaseOne;
    }
  }

  lemma ReleaseLeaves(d: Disk, files: seq<string>, now: int, f: ReleaseFaults)
    requires forall x :: x in files ==> x in d.reserved
    ensures ReleaseOutcome(d, ApplyAll(d, ReleaseOps(d, files, now, f)), files, now, f)
  {
    var prune := PruneOps(d, now, f.prune);
    var mid := ApplyAll(d, prune);
    PruneLeaves(d, now, f.prune);
    if !f.list && !PruneThrows(d, now, f.prune) && !f.log {
      assert mid.reserved == d.reserved;
      ReleaseEachLeaves(d, mid, files, mid.log, now, f);
      ApplyConcat(d, prune, ReleaseEach(d, files, mid.log, now, f));
    }
  }
}
