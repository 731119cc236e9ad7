/** The chat transform hook: poll the member's mailbox, push the messages into the chat as one
    synthetic part, acknowledge them, and take back from the part whatever was not acknowledged. */
module TransformHook {
  import opened MailboxLog
  import opened Mailbox
  import opened MailboxEffects
  import opened MailboxFiles
  import opened Options

  datatype Role = User | Assistant

  /** A text part, or the part rendered from a list of mailbox messages under a run id. */
  datatype Part = Text(text: string) | Injection(ms: seq<Message>, runId: Option<string>)

  datatype Entry = Entry(role: Role, sessionID: string, parts: seq<Part>)

  datatype TeamState = Unreadable | Readable(activeRunId: Option<string>)

  datatype Lookup = Failed | NoMember | Found(isMaster: bool)

  /** What the surroundings do during one call: lookups, the clock, and which steps fail. */
  datatype Turn = Turn(
    member: Lookup, team: TeamState, now: int, bytes: Message -> nat,
    pollLock: bool, poll: PollFaults, ackLock: bool, ack: AckFaults)

  class Transcript {
    var messages: seq<Entry>

    constructor (messages: seq<Entry>)
      ensures this.messages == messages
    {
      this.messages := messages;
    }
  }

  // ---- What is injected ----------------------------------------------------------------------

  /** A directive is bound to the active run, or to none; without team state no directive passes. */
  predicate Passes(m: Message, team: TeamState) {
    m.kind != Directive || (team.Readable? && (m.runId.None? || m.runId == team.activeRunId))
  }

  function Passing(ms: seq<Message>, team: TeamState): seq<Message> {
    if ms == [] then [] else (if Passes(ms[0], team) then [ms[0]] else []) + Passing(ms[1..], team)
  }

  /** The messages whose id is in `ids`. */
  function Among(ms: seq<Message>, ids: set<string>): seq<Message> {
    if ms == [] then [] else (if ms[0].id in ids then [ms[0]] else []) + Among(ms[1..], ids)
  }

  function Ids(ms: seq<Message>): set<string> {
    set m | m in ms :: m.id
  }

  /** The ids whose processed record `ops` writes. */
  function Recorded(ops: seq<Op>): set<string> {
    set op | op in ops && op.AppendLog? && op.line.id.Some? :: op.line.id.value
  }

  predicate HasDirective(ms: seq<Message>) {
    exists m :: m in ms && m.kind == Directive
  }

  /** The last user message, or the last message when there is none. */
  predicate IsTarget(es: seq<Entry>, t: int) {
    && 0 <= t < |es|
    && (es[t].role == User || (t == |es| - 1 && forall j :: 0 <= j < |es| ==> es[j].role != User))
    && forall j :: t < j < |es| ==> es[j].role != User
  }

  /** `after` is `before` with the messages `ms` rendered as one more part of the target; with no
      messages nothing changes. */
  ghost predicate InjectedInto(before: seq<Entry>, after: seq<Entry>, ms: seq<Message>, runId: Option<string>) {
    if ms == [] then after == before
    else exists t :: IsTarget(before, t)
                     && after == before[t := before[t].(parts := before[t].parts + [Injection(ms, runId)])]
  }

  lemma {:induction false} PassingMember(ms: seq<Message>, team: TeamState, m: Message)
    ensures m in Passing(ms, team) <==> m in ms && Passes(m, team)
  {
    if ms != [] { PassingMember(ms[1..], team, m); }
  }

  lemma {:induction false} AmongMember(ms: seq<Message>, ids: set<string>, m: Message)
    ensures m in Among(ms, ids) <==> m in ms && m.id in ids
  {
    if ms != [] { AmongMember(ms[1..], ids, m); }
  }

  lemma {:induction false} AmongAll(ms: seq<Message>, ids: set<string>)
    requires Ids(ms) <= ids
    ensures Among(ms, ids) == ms
  {
    if ms != [] {
      assert ms[0].id in Ids(ms);
      assert Ids(ms[1..]) <= Ids(ms);
      AmongAll(ms[1..], ids);
    }
  }

  lemma {:induction false} PassingAll(ms: seq<Message>, team: TeamState)
    requires !HasDirective(ms)
    ensures Passing(ms, team) == ms
  {
    if ms != [] {
      assert ms[0] in ms;
      PassingAll(ms[1..], team);
    }
  }

  /** Every id the hook could inject is among the ids it acknowledges. */
  lemma PassingIds(ms: seq<Message>, team: TeamState)
    ensures Ids(Passing(ms, team)) <= Ids(ms)
  {
    forall m | m in Passing(ms, team) ensures m in ms { PassingMember(ms, team, m); }
  }

  // ---- What is recorded ----------------------------------------------------------------------

  lemma {:induction false} AckEachRecords(ms: seq<Message>, now: int, bytes: Message -> nat, unlinkFails: nat -> bool)
    ensures Recorded(AckEach(ms, now, bytes, unlinkFails)) == Ids(ms)
  {
    if ms != [] {
      var i := |ms| - 1;
      AckEachRecords(ms[..i], now, bytes, unlinkFails);
      assert ms == ms[..i] + [ms[i]];
      assert Ids(ms) == Ids(ms[..i]) + {ms[i].id};
      var line := AppendLog(LineOf(ms[i], now, bytes));
      assert line in AckEach(ms, now, bytes, unlinkFails);
    }
  }

  lemma AckRecords(d: Disk, ms: seq<Message>, now: int, bytes: Message -> nat, f: AckFaults)
    ensures Recorded(AckOps(d, ms, now, bytes, f)) == Ids(Acked(ms, f))
  {
    AckEachRecords(Acked(ms, f), now, bytes, f.unlink);
    var ops := AckEach(Acked(ms, f), now, bytes, f.unlink);
    assert Recorded(ops + PruneOps(ApplyAll(d, ops), now, f.prune)) == Recorded(ops);
  }

  lemma {:induction false} RollbackRecordsNothing(ms: seq<Message>, unlinkFails: nat -> bool)
    ensures Recorded(Rollback(ms, unlinkFails)) == {}
  {
    if ms != [] { RollbackRecordsNothing(ms[..|ms| - 1], unlinkFails); }
  }

  lemma PollRecordsNothing(d: Disk, recipient: string, now: int, f: PollFaults)
    ensures Recorded(PollOps(d, recipient, now, f)) == {}
  {
    var batch := Batch(d, recipient);
    RollbackRecordsNothing(batch, f.unlink);
    RollbackRecordsNothing(batch[..Written(|batch|, f.reserve)], f.unlink);
  }

  lemma RecordedConcat(a: seq<Op>, b: seq<Op>)
    ensures Recorded(a + b) == Recorded(a) + Recorded(b)
  {
    forall op | op in a || op in b ensures op in a + b {}
  }

  lemma RecordedLater(a: seq<Op>, b: seq<Op>)
    requires Recorded(a) == {}
    ensures Recorded(a + b) == Recorded(b)
  {
    RecordedConcat(a, b);
  }

  /** What one call did to the mailbox, the chat and the counter, given what it polled. */
  ghost predicate Consistent(before: seq<Entry>, after: seq<Entry>, polled: seq<Message>, team: TeamState,
                             recorded: set<string>, injected: seq<Message>)
  {
    && injected == Among(Passing(polled, team), recorded)
    && recorded <= Ids(if team.Unreadable? then Passing(polled, team) else polled)
    && InjectedInto(before, after, injected, if HasDirective(polled) && team.Readable? then team.activeRunId else None)
  }

  /** Injected equals acknowledged: an injected message was recorded as processed in the same call,
      and a polled message that was recorded is injected unless the run filter dropped it. */
  lemma InjectedIffAcknowledged(before: seq<Entry>, after: seq<Entry>, polled: seq<Message>, team: TeamState,
                                recorded: set<string>, injected: seq<Message>, m: Message)
    requires Consistent(before, after, polled, team, recorded, injected)
    ensures m in injected <==> m in polled && m.id in recorded && Passes(m, team)
    ensures m in injected ==> exists t :: IsTarget(before, t) && |after| == |before|
                                          && m in Newest(after[t].parts)
  {
    AmongMember(Passing(polled, team), recorded, m);
    PassingMember(polled, team, m);
  }

  predicate DistinctIds(ms: seq<Message>) {
    forall i, j :: 0 <= i < j < |ms| ==> ms[i].id != ms[j].id
  }

  lemma {:induction false} DedupedDistinct(ms: seq<Message>)
    ensures DistinctIds(Deduped(ms))
  {
    if ms != [] { DedupedDistinct(ms[..|ms| - 1]); }
  }

  lemma {:induction false} FilteredDistinct(ms: seq<Message>, recipient: string)
    requires DistinctIds(ms)
    ensures DistinctIds(Filtered(ms, recipient)) && forall m :: m in Filtered(ms, recipient) ==> m in ms
  {
    if ms != [] {
      FilteredDistinct(ms[1..], recipient);
      var rest := Filtered(ms[1..], recipient);
      forall m | m in rest ensures m.id != ms[0].id {
        var k :| 0 <= k < |ms[1..]| && ms[1..][k] == m;
        assert ms[k + 1] == m;
      }
      assert Filtered(ms, recipient) == if Accepts(recipient, ms[0]) then [ms[0]] + rest else rest;
    }
  }

  /** While the team state is unreadable a polled directive is neither shown nor recorded, so its
      reservation will be released for another try. */
  lemma UnreadableRetains(before: seq<Entry>, after: seq<Entry>, d: Disk, recipient: string, f: PollFaults,
                          recorded: set<string>, injected: seq<Message>, m: Message)
    requires Consistent(before, after, Polled(d, recipient, f), Unreadable, recorded, injected)
    requires m in Polled(d, recipient, f) && m.kind == Directive
    ensures m.id !in recorded && m !in injected
  {
    var polled := Polled(d, recipient, f);
    DedupedDistinct(Messages(d.inbox));
    FilteredDistinct(Deduped(Messages(d.inbox)), recipient);
    if m.id in recorded {
      var n :| n in Passing(polled, Unreadable) && n.id == m.id;
      PassingMember(polled, Unreadable, n);
      assert false;
    }
    InjectedIffAcknowledged(before, after, polled, Unreadable, recorded, injected, m);
  }

  function Newest(parts: seq<Part>): seq<Message> {
    if parts != [] && parts[|parts| - 1].Injection? then parts[|parts| - 1].ms else []
  }

  /** The early-acknowledged counter of the session grew by `n`; no entry appears for nothing. */
  predicate Counted(before: map<string, nat>, after: map<string, nat>, sessionID: string, n: nat) {
    after == if n == 0 then before
             else before[sessionID := (if sessionID in before then before[sessionID] else 0) + n]
  }

  /** The session of a call: the first session id found; the empty string when there is none. */
  function SessionOf(es: seq<Entry>): (r: string)
    ensures r == "" <==> forall i :: 0 <= i < |es| ==> es[i].sessionID == ""
    ensures r != "" ==> exists i :: 0 <= i < |es| && es[i].sessionID == r && forall j :: 0 <= j < i ==> es[j].sessionID == ""
  {
    if es == [] then "" else if es[0].sessionID != "" then es[0].sessionID else SessionOf(es[1..])
  }

  /** The messages a poll hands over. */
  function Polled(d: Disk, recipient: string, f: PollFaults): seq<Message> {
    var r := PollResult(d, recipient, f);
    if r.None? then [] else r.value
  }

  /** The calls that touch neither mailbox nor chat. */
  predicate Skips(turn: Turn, compacting: map<string, int>, sessionID: string) {
    sessionID == "" || turn.member != Found(false) || (sessionID in compacting && turn.now < compacting[sessionID])
  }

  // ---- A call in which nothing fails -------------------------------------------------------------

  /** The mailbox lock is free and every step of the poll works. */
  ghost predicate PollWorks(turn: Turn) {
    !turn.pollLock && !turn.poll.read && !turn.poll.truncate && forall i: nat :: !turn.poll.reserve(i)
  }

  /** It is free again, and every step of the acknowledgement works. */
  ghost predicate AckWorks(turn: Turn) {
    && !turn.ackLock && !turn.ack.prune.readFails && !turn.ack.prune.writeFails
    && forall i: nat :: !turn.ack.append(i) && !turn.ack.unlink(i)
  }

  /** A message of the active run, or no directive at all. */
  predicate Relevant(m: Message, team: TeamState) {
    m.kind == Directive ==> match team
                            case Unreadable => false
                            case Readable(runId) => m.runId.None? || m.runId == runId
  }

  /** `ms` are the messages of `all` at the ascending positions `at`. */
  predicate PickedAt(all: seq<Message>, ms: seq<Message>, at: seq<nat>) {
    && |at| == |ms| && (forall k :: 0 <= k < |at| ==> at[k] < |all| && all[at[k]] == ms[k])
    && forall k, l :: 0 <= k < l < |at| ==> at[k] < at[l]
  }

  function Shifted(at: seq<nat>): seq<nat> {
    seq(|at|, k requires 0 <= k < |at| => at[k] + 1)
  }

  lemma PickedBehind(m: Message, all: seq<Message>, ms: seq<Message>, at: seq<nat>)
    requires PickedAt(all, ms, at)
    ensures PickedAt([m] + all, ms, Shifted(at))
  {
    forall k | 0 <= k < |at| ensures ([m] + all)[at[k] + 1] == ms[k] {}
  }

  lemma PickedFirst(m: Message, all: seq<Message>, ms: seq<Message>, at: seq<nat>)
    requires PickedAt([m] + all, ms, at) && forall k :: 0 <= k < |at| ==> at[k] > 0
    ensures PickedAt([m] + all, [m] + ms, [0] + at)
  {
  }

  lemma {:induction false} PassingPicked(ms: seq<Message>, team: TeamState) returns (at: seq<nat>)
    ensures PickedAt(ms, Passing(ms, team), at)
  {
    if ms == [] { return []; }
    hide PickedAt, Shifted, Passes;
    var rest := PassingPicked(ms[1..], team);
    var tail := Passing(ms[1..], team);
    assert ms == [ms[0]] + ms[1..];
    PickedBehind(ms[0], ms[1..], tail, rest);
    at := Shifted(rest);
    if Passes(ms[0], team) {
      assert Passing(ms, team) == [ms[0]] + tail;
      ShiftedPositive(rest);
      PickedFirst(ms[0], ms[1..], tail, at);
      at := [0] + at;
    } else {
      assert Passing(ms, team) == tail;
    }
  }

  lemma ShiftedPositive(at: seq<nat>)
    ensures forall k :: 0 <= k < |Shifted(at)| ==> Shifted(at)[k] > 0
  {
  }

  /** What an ordinary call does: exactly the relevant ones of the polled messages are shown, in order, and all
      of them are recorded, directives apart while the team state cannot be read. */
  ghost predicate Handled(polled: seq<Message>, team: TeamState, recorded: set<string>, injected: seq<Message>) {
    && (forall m :: m in injected <==> m in polled && Relevant(m, team))
    && (exists at :: PickedAt(polled, injected, at))
    && (forall id :: id in recorded <==> exists m :: m in polled && m.id == id && (team.Readable? || m.kind != Directive))
  }

  lemma AckReport(d: Disk, u: Disk, ms: seq<Message>, now: int, bytes: Message -> nat, f: AckFaults,
                  ok: bool, acknowledged: seq<Message>)
    requires AckOutcome(d, u, ms, now, bytes, f, ok, acknowledged)
    ensures |acknowledged| <= |ms| && acknowledged == ms[..|acknowledged|] && FirstFailure(|ms|, f.append, |acknowledged|)
    ensures ok ==> acknowledged == ms && !f.prune.readFails && forall i :: 0 <= i < |ms| ==> !f.unlink(i)
    ensures (forall i :: 0 <= i < |ms| ==> !f.append(i) && !f.unlink(i)) && !f.prune.readFails && !f.prune.writeFails ==> ok
  {
  }

  lemma DeliveredIsHandled(polled: seq<Message>, team: TeamState, recorded: set<string>, injected: seq<Message>)
    requires injected == Passing(polled, team)
    requires recorded == Ids(if team.Unreadable? then Passing(polled, team) else polled)
    ensures Handled(polled, team, recorded, injected)
  {
    forall m ensures m in injected <==> m in polled && Relevant(m, team) { PassingMember(polled, team, m); }
    var at := PassingPicked(polled, team);
  }

  lemma NothingInjected(es: seq<Entry>, runId: Option<string>, counts: map<string, nat>, sessionID: string)
    ensures InjectedInto(es, es, [], runId) && Counted(counts, counts, sessionID, 0)
  {
  }

  lemma NothingPolled(es: seq<Entry>, team: TeamState, counts: map<string, nat>, sessionID: string)
    ensures Recorded([]) == {} && Counted(counts, counts, sessionID, 0)
    ensures Consistent(es, es, [], team, {}, []) && Handled([], team, {}, [])
  {
    assert PickedAt([], [], []);
  }

  // ---- The hook ------------------------------------------------------------------------------

  class Hook {
    var compacting: map<string, int>
    var earlyAcked: map<string, nat>

    constructor ()
      ensures compacting == map[] && earlyAcked == map[]
    {
      compacting, earlyAcked := map[], map[];
    }

    /** One call.  The ghost results are what it polled and what it left injected. */
    method Transform(box: FileMailbox, out: Transcript, turn: Turn)
      returns (ghost polled: seq<Message>, ghost injected: seq<Message>, ghost ops: seq<Op>)
      modifies this, box, out
      ensures box.journal == old(box.journal) + ops
      ensures Consistent(old(out.messages), out.messages, polled, turn.team, Recorded(ops), injected)
      ensures var id := SessionOf(old(out.messages));
        && Counted(old(earlyAcked), earlyAcked, id, |injected|)
        && compacting == if id == "" || turn.member != Found(false) then old(compacting) else old(compacting) - {id}
      ensures var skips := turn.pollLock || Skips(turn, old(compacting), SessionOf(old(out.messages)));
        && (skips ==> ops == [])
        && polled == if skips then [] else Polled(old(box.Files()), box.recipient, turn.poll)
      ensures var id := SessionOf(old(out.messages));
        id != "" && turn.member == Found(false) && (id in old(compacting) ==> old(compacting)[id] <= turn.now)
        && PollWorks(turn) && AckWorks(turn)
        ==> AreDue(old(box.inbox), box.recipient, polled) && Handled(polled, turn.team, Recorded(ops), injected)
    {
      polled, injected, ops := [], [], [];
      var sessionID := SessionOf(out.messages);
      if sessionID == "" || turn.member.Failed? || turn.member.NoMember? || turn.member.isMaster { return; }
      if sessionID in compacting {
        var deadline := compacting[sessionID];
        compacting := compacting - {sessionID};
        if turn.now < deadline { return; }
      }
      polled, injected, ops := Drain(sessionID, box, out, turn);
    }

    /** Poll and deliver. */
    method Drain(sessionID: string, box: FileMailbox, out: Transcript, turn: Turn)
      returns (ghost polled: seq<Message>, ghost injected: seq<Message>, ghost ops: seq<Op>)
      requires out.messages != []
      modifies this, box, out
      ensures box.journal == old(box.journal) + ops && compacting == old(compacting)
      ensures Consistent(old(out.messages), out.messages, polled, turn.team, Recorded(ops), injected)
      ensures Counted(old(earlyAcked), earlyAcked, sessionID, |injected|)
      ensures polled == if turn.pollLock then [] else Polled(old(box.Files()), box.recipient, turn.poll)
      ensures turn.pollLock ==> ops == []
      ensures PollWorks(turn) && AckWorks(turn)
        ==> AreDue(old(box.inbox), box.recipient, polled) && Handled(polled, turn.team, Recorded(ops), injected)
    {
      polled, injected, ops := [], [], [];
      NothingPolled(out.messages, turn.team, earlyAcked, sessionID);
      hide Consistent, Counted, Handled, AckWorks, AreDue, Recorded, Polled;
      if turn.pollLock { return; }
      hide PollWorks;
      var unread;
      unread, ops := PollUnread(box, turn);
      polled := unread;
      if unread == [] { return; }
      ghost var more;
      injected, more := Deliver(sessionID, box, out, unread, turn);
      RecordedLater(ops, more);
      ops := ops + more;
    }

    method PollUnread(box: FileMailbox, turn: Turn) returns (unread: seq<Message>, ghost ops: seq<Op>)
      modifies box
      ensures box.journal == old(box.journal) + ops && Recorded(ops) == {}
      ensures unread == Polled(old(box.Files()), box.recipient, turn.poll)
      ensures PollWorks(turn) || unread != [] ==> AreDue(old(box.inbox), box.recipient, unread)
    {
      var r := box.Poll(turn.now, turn.poll);
      ops := PollOps(old(box.Files()), box.recipient, turn.now, turn.poll);
      PollRecordsNothing(old(box.Files()), box.recipient, turn.now, turn.poll);
      unread := if r.None? then [] else r.value;
    }

    /** Filter by run, inject and acknowledge. */
    method Deliver(sessionID: string, box: FileMailbox, out: Transcript, unread: seq<Message>, turn: Turn)
      returns (ghost injected: seq<Message>, ghost ops: seq<Op>)
      requires out.messages != []
      modifies this, box, out
      ensures box.journal == old(box.journal) + ops && compacting == old(compacting)
      ensures Consistent(old(out.messages), out.messages, unread, turn.team, Recorded(ops), injected)
      ensures Counted(old(earlyAcked), earlyAcked, sessionID, |injected|)
      ensures AckWorks(turn) ==> Handled(unread, turn.team, Recorded(ops), injected)
    {
      hide InjectedInto, Counted, AckWorks, Handled, AckOutcome, IsTarget;
      var toInject, runId, unreadable := unread, None, false;
      if HasDirective(unread) {
        if turn.team.Readable? { runId := turn.team.activeRunId; } else { unreadable := true; }
        toInject := Passing(unread, turn.team);
      } else {
        PassingAll(unread, turn.team);
      }
      var toAck := if unreadable then Passing(unread, Unreadable) else unread;
      PassingIds(unread, turn.team);
      injected, ops := [], [];
      NothingInjected(out.messages, runId, earlyAcked, sessionID);
      if toInject != [] {
        injected, ops := InjectAndAck(sessionID, box, out, toInject, runId, toAck, turn);
      } else if toAck != [] {
        var ok, acknowledged;
        ok, acknowledged, ops := Acknowledge(box, toAck, turn);
      }
      if AckWorks(turn) { DeliveredIsHandled(unread, turn.team, Recorded(ops), injected); }
    }

    /** Push the part, acknowledge, and take back from the part what was not acknowledged. */
    method InjectAndAck(sessionID: string, box: FileMailbox, out: Transcript, toInject: seq<Message>,
                        runId: Option<string>, toAck: seq<Message>, turn: Turn)
      returns (ghost injected: seq<Message>, ghost ops: seq<Op>)
      requires out.messages != [] && toInject != [] && toAck != [] && Ids(toInject) <= Ids(toAck)
      modifies this, box, out
      ensures box.journal == old(box.journal) + ops && compacting == old(compacting)
      ensures injected == Among(toInject, Recorded(ops)) && Recorded(ops) <= Ids(toAck)
      ensures InjectedInto(old(out.messages), out.messages, injected, runId)
      ensures Counted(old(earlyAcked), earlyAcked, sessionID, |injected|)
      ensures AckWorks(turn) ==> injected == toInject && Recorded(ops) == Ids(toAck)
    {
      hide AckOutcome, AckWorks, FirstFailure;
      var t := FindTarget(out.messages);
      var parts := out.messages[t].parts;
      SetParts(out, t, parts + [Injection(toInject, runId)]);
      var ok, acknowledged;
      ok, acknowledged, ops := Acknowledge(box, toAck, turn);
      if ok {
        AmongAll(toInject, Recorded(ops));
        injected := toInject;
        Add(sessionID, |toInject|);
      } else {
        var kept := Among(toInject, Ids(acknowledged));
        injected := kept;
        if kept != [] { Add(sessionID, |kept|); }
        if kept == [] {
          SetParts(out, t, parts);
        } else {
          SetParts(out, t, parts + [Injection(kept, runId)]);
        }
      }
    }

    method Add(sessionID: string, n: nat)
      requires n > 0
      modifies `earlyAcked
      ensures Counted(old(earlyAcked), earlyAcked, sessionID, n)
    {
      earlyAcked := earlyAcked[sessionID := (if sessionID in earlyAcked then earlyAcked[sessionID] else 0) + n];
    }

    method SetParts(out: Transcript, t: nat, parts: seq<Part>)
      requires t < |out.messages|
      modifies out
      ensures out.messages == old(out.messages)[t := old(out.messages)[t].(parts := parts)]
    {
      out.messages := out.messages[t := out.messages[t].(parts := parts)];
    }

    /** The lock may not be acquired; then nothing is acknowledged. */
    method Acknowledge(box: FileMailbox, ms: seq<Message>, turn: Turn)
      returns (ok: bool, acknowledged: seq<Message>, ghost ops: seq<Op>)
      modifies box
      ensures box.journal == old(box.journal) + ops
      ensures Recorded(ops) == Ids(acknowledged) <= Ids(ms)
      ensures ok ==> acknowledged == ms
      ensures if turn.ackLock then !ok && acknowledged == [] && box.Files() == old(box.Files())
              else AckOutcome(old(box.Files()), box.Files(), ms, turn.now, turn.bytes, turn.ack, ok, acknowledged)
      ensures !turn.ackLock ==> acknowledged <= ms && FirstFailure(|ms|, turn.ack.append, |acknowledged|)
      ensures AckWorks(turn) ==> ok
    {
      if turn.ackLock { return false, [], []; }
      ok, acknowledged := box.AckMessages(ms, turn.now, turn.bytes, turn.ack);
      ops := AckOps(old(box.Files()), ms, turn.now, turn.bytes, turn.ack);
      AckRecords(old(box.Files()), ms, turn.now, turn.bytes, turn.ack);
      AckReport(old(box.Files()), box.Files(), ms, turn.now, turn.bytes, turn.ack, ok, acknowledged);
    }

    /** Search backwards for a user message. */
    method FindTarget(es: seq<Entry>) returns (t: nat)
      requires es != []
      ensures IsTarget(es, t)
    {
      var i := |es| - 1;
      while i >= 0
        invariant -1 <= i < |es|
        invariant forall j :: i < j < |es| ==> es[j].role != User
      {
        if es[i].role == User { return i; }
        i := i - 1;
      }
      t := |es| - 1;
    }
  }
}
