/** One recipient's file mailbox: inbox, reservation files and processed log, driven by write,
    poll, ack and release.  Every file operation may fail, and the process may die between any
    two of them; one operation runs at a time (the mailbox lock). */
module Mailbox {
  import opened MailboxLog
  import opened Options

  datatype Kind = Plain | Announcement | Directive

  datatype Message = Message(id: string, to: string, kind: Kind, runId: Option<string>, body: string)

  /** A line of the inbox; `Junk` is anything the reader skips. */
  datatype Line = Good(m: Message) | Junk

  /** A reservation file.  `reservedAt` is `None` when it is not a finite number; `readable` is
      false for a file that is not regular, oversized, or not JSON. */
  datatype Reservation = Reservation(m: Message, reservedAt: Option<int>, mtime: int, readable: bool)

  datatype Disk = Disk(inbox: seq<Line>, reserved: map<string, Reservation>, log: seq<LogLine>)

  /** The file operations.  Sending and requeueing are both appends to the inbox. */
  datatype Op =
    | Send(m: Message)
    | Requeue(m: Message)
    | Reserve(r: Reservation)
    | Unreserve(id: string)
    | TruncateInbox
    | AppendLog(line: LogLine)
    | RewriteLog(lines: seq<LogLine>)

  function Apply(d: Disk, op: Op): Disk {
    match op
    case Send(m) => d.(inbox := d.inbox + [Good(m)])
    case Requeue(m) => d.(inbox := d.inbox + [Good(m)])
    case Reserve(r) => d.(reserved := d.reserved[r.m.id := r])
    case Unreserve(id) => d.(reserved := d.reserved - {id})
    case TruncateInbox => d.(inbox := [])
    case AppendLog(line) => d.(log := d.log + [line])
    case RewriteLog(lines) => d.(log := lines)
  }

  function ApplyAll(d: Disk, ops: seq<Op>): Disk {
    if ops == [] then d else Apply(ApplyAll(d, ops[..|ops| - 1]), ops[|ops| - 1])
  }

  lemma {:induction false} ApplyConcat(d: Disk, a: seq<Op>, b: seq<Op>)
    ensures ApplyAll(d, a + b) == ApplyAll(ApplyAll(d, a), b)
    decreases |b|
  {
    if b == [] {
      assert a + b == a;
    } else {
      ApplyConcat(d, a, b[..|b| - 1]);
      assert (a + b)[..|a + b| - 1] == a + b[..|b| - 1];
    }
  }

  // ---- Poll --------------------------------------------------------------------------------

  /** Which file operations of a poll fail; `reserve` and `unlink` go by position in the batch. */
  datatype PollFaults = PollFaults(read: bool, reserve: nat -> bool, unlink: nat -> bool, truncate: bool)

  function Messages(inbox: seq<Line>): seq<Message> {
    if inbox == [] then []
    else (if inbox[0].Good? then [inbox[0].m] else []) + Messages(inbox[1..])
  }

  /** The first message of every id. */
  function Deduped(ms: seq<Message>): seq<Message> {
    if ms == [] then []
    else
      var init, last := Deduped(ms[..|ms| - 1]), ms[|ms| - 1];
      if exists i :: 0 <= i < |init| && init[i].id == last.id then init else init + [last]
  }

  /** A directive for another recipient was copied here; everything else is accepted. */
  predicate Accepts(recipient: string, m: Message) {
    m.kind != Directive || m.to == recipient
  }

  function Filtered(ms: seq<Message>, recipient: string): seq<Message> {
    if ms == [] then []
    else (if Accepts(recipient, ms[0]) then [ms[0]] else []) + Filtered(ms[1..], recipient)
  }

  /** The batch a poll reserves and returns. */
  function Batch(d: Disk, recipient: string): seq<Message> {
    Filtered(Deduped(Messages(d.inbox)), recipient)
  }

  function ReserveAll(ms: seq<Message>, now: int): seq<Op> {
    seq(|ms|, i requires 0 <= i < |ms| => Reserve(Reservation(ms[i], Some(now), now, true)))
  }

  function Rollback(ms: seq<Message>, unlinkFails: nat -> bool): seq<Op> {
    if ms == [] then []
    else
      Rollback(ms[..|ms| - 1], unlinkFails)
      + if unlinkFails(|ms| - 1) then [] else [Unreserve(ms[|ms| - 1].id)]
  }

  /** How many reservations are written before one fails. */
  function Written(n: nat, fails: nat -> bool): (w: nat)
    ensures w <= n && (forall i :: 0 <= i < w ==> !fails(i)) && (w < n ==> fails(w))
  {
    if n == 0 then 0
    else
      var w := Written(n - 1, fails);
      if w < n - 1 || fails(n - 1) then w else n
  }

  function PollOps(d: Disk, recipient: string, now: int, f: PollFaults): seq<Op> {
    var batch := Batch(d, recipient);
    var w := Written(|batch|, f.reserve);
    if f.read || Messages(d.inbox) == [] then []
    else if w < |batch| then ReserveAll(batch[..w], now) + Rollback(batch[..w], f.unlink)
    else if f.truncate then ReserveAll(batch, now) + Rollback(batch, f.unlink)
    else ReserveAll(batch, now) + [TruncateInbox]
  }

  /** What the poll returns; `None` when it throws. */
  function PollResult(d: Disk, recipient: string, f: PollFaults): Option<seq<Message>> {
    if f.read then None
    else if Messages(d.inbox) == [] then Some([])
    else if Written(|Batch(d, recipient)|, f.reserve) < |Batch(d, recipient)| || f.truncate then None
    else Some(Batch(d, recipient))
  }

  // ---- Prune, ack, release ---------------------------------------------------------------------

  /** The file operations of one pruning; whether it throws. */
  function PruneOps(d: Disk, now: int, f: PruneFaults): seq<Op> {
    var p := Pruned(d.log, d.reserved.Keys, now, f);
    if f.readFails || p.None? || f.writeFails then [] else [RewriteLog(p.value)]
  }

  predicate PruneThrows(d: Disk, now: int, f: PruneFaults) {
    f.readFails || (Pruned(d.log, d.reserved.Keys, now, f).Some? && f.writeFails)
  }

  datatype AckFaults = AckFaults(append: nat -> bool, unlink: nat -> bool, prune: PruneFaults)

  function LineOf(m: Message, now: int, bytes: Message -> nat): LogLine {
    LogLine(Some(m.id), Some(now), bytes(m))
  }

  /** Log, then unlink, message by message. */
  function AckEach(ms: seq<Message>, now: int, bytes: Message -> nat, unlinkFails: nat -> bool): seq<Op> {
    if ms == [] then []
    else
      var i := |ms| - 1;
      AckEach(ms[..i], now, bytes, unlinkFails) + [AppendLog(LineOf(ms[i], now, bytes))]
      + if unlinkFails(i) then [] else [Unreserve(ms[i].id)]
  }

  /** The messages whose processed record was written. */
  function Acked(ms: seq<Message>, f: AckFaults): seq<Message> {
    ms[..Written(|ms|, f.append)]
  }

  predicate UnlinkFailed(n: nat, unlinkFails: nat -> bool) {
    exists i :: 0 <= i < n && unlinkFails(i)
  }

  function AckOps(d: Disk, ms: seq<Message>, now: int, bytes: Message -> nat, f: AckFaults): seq<Op> {
    var acked := Acked(ms, f);
    var ops := AckEach(acked, now, bytes, f.unlink);
    if |acked| < |ms| || UnlinkFailed(|ms|, f.unlink) then ops
    else ops + PruneOps(ApplyAll(d, ops), now, f.prune)
  }

  predicate AckThrows(d: Disk, ms: seq<Message>, now: int, bytes: Message -> nat, f: AckFaults) {
    || |Acked(ms, f)| < |ms|
    || UnlinkFailed(|ms|, f.unlink)
    || PruneThrows(ApplyAll(d, AckEach(ms, now, bytes, f.unlink)), now, f.prune)
  }

  /** Faults of one release pass; the functions go by reservation file. */
  datatype ReleaseFaults = ReleaseFaults(
    list: bool, prune: PruneFaults, log: bool, stat: string -> bool, append: string -> bool, unlink: string -> bool)

  /** The ids a release pass will not redeliver: an oversized log is not read at all. */
  predicate KnownProcessed(log: seq<LogLine>, id: string) {
    Size(log) <= PROCESSED_MAX_BYTES && Logged(log, id)
  }

  function Age(r: Reservation, now: int, statFails: bool): int {
    var at := if r.reservedAt.Some? && r.reservedAt.value <= now + 30_000 then r.reservedAt.value
              else if statFails then 0 else r.mtime;
    now - at
  }

  function ReleaseOne(r: Reservation, file: string, log: seq<LogLine>, now: int, f: ReleaseFaults): seq<Op> {
    var unlink := if f.unlink(file) then [] else [Unreserve(file)];
    if !r.readable || Age(r, now, f.stat(file)) <= RESERVATION_TTL_MS then []
    else if KnownProcessed(log, r.m.id) then unlink
    else if f.append(file) then []
    else [Requeue(r.m)] + unlink
  }

  function ReleaseEach(d: Disk, files: seq<string>, log: seq<LogLine>, now: int, f: ReleaseFaults): seq<Op>
    requires forall x :: x in files ==> x in d.reserved
  {
    if files == [] then []
    else
      var last := files[|files| - 1];
      ReleaseEach(d, files[..|files| - 1], log, now, f) + ReleaseOne(d.reserved[last], last, log, now, f)
  }

  /** `files` is the directory listing. */
  function ReleaseOps(d: Disk, files: seq<string>, now: int, f: ReleaseFaults): seq<Op>
    requires forall x :: x in files ==> x in d.reserved
  {
    if f.list then []
    else
      var prune := PruneOps(d, now, f.prune);
      if PruneThrows(d, now, f.prune) || f.log then prune
      else prune + ReleaseEach(d, files, ApplyAll(d, prune).log, now, f)
  }
}
