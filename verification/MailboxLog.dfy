/** The processed log of a mailbox and how it is pruned: by age, and by a tail window once it is
    too large, keeping a line for every message that still has a reservation file. */
module MailboxLog {
  import opened Options

  const RESERVATION_TTL_MS: int := 30_000
  const PROCESSED_RETENTION_MS: int := RESERVATION_TTL_MS * 4
  const PROCESSED_MAX_BYTES: int := 1_048_576
  const PROCESSED_RETENTION_BYTES: int := 512 * 1024

  /** One line: its message id and retention time, where the line has them, and its size with the
      newline. */
  datatype LogLine = LogLine(id: Option<string>, time: Option<int>, bytes: nat)

  /** What the file system answers while pruning: the two attempts to list the reservations. */
  datatype PruneFaults = PruneFaults(readFails: bool, firstListFails: bool, secondListFails: bool, writeFails: bool)

  function Size(log: seq<LogLine>): nat {
    if log == [] then 0 else log[0].bytes + Size(log[1..])
  }

  predicate Logged(log: seq<LogLine>, id: string) {
    exists i :: 0 <= i < |log| && log[i].id == Some(id)
  }

  /** The complete lines after the first newline of the last `window` bytes: those that start
      strictly inside the window. */
  function TailWindow(log: seq<LogLine>, window: nat): seq<LogLine> {
    if log == [] || Size(log) < window then log else TailWindow(log[1..], window)
  }

  predicate Expired(l: LogLine, now: int) {
    l.time.Some? && now - l.time.value > PROCESSED_RETENTION_MS
  }

  function Unexpired(log: seq<LogLine>, now: int): seq<LogLine> {
    if log == [] then []
    else (if Expired(log[0], now) then [] else [log[0]]) + Unexpired(log[1..], now)
  }

  /** `map.set(line.id, line)` on an insertion-ordered map: the last line of an id wins. */
  function Remember(kept: seq<LogLine>, line: LogLine): seq<LogLine> {
    if kept == [] then [line]
    else if kept[0].id == line.id then [line] + kept[1..]
    else [kept[0]] + Remember(kept[1..], line)
  }

  /** The last line of every reserved id. */
  function ReservedLines(log: seq<LogLine>, reserved: set<string>): seq<LogLine> {
    if log == [] then []
    else
      var before, line := ReservedLines(log[..|log| - 1], reserved), log[|log| - 1];
      if line.id.Some? && line.id.value in reserved then Remember(before, line) else before
  }

  function Missing(restore: seq<LogLine>, kept: seq<LogLine>): seq<LogLine> {
    if restore == [] then []
    else
      var rest := Missing(restore[1..], kept);
      if restore[0].id.Some? && Logged(kept, restore[0].id.value) then rest else [restore[0]] + rest
  }

  predicate Oversized(log: seq<LogLine>) {
    Size(log) > PROCESSED_MAX_BYTES
  }

  /** The lines pruning looks at one by one: of an oversized log only the tail. */
  function Examined(log: seq<LogLine>): seq<LogLine> {
    if Oversized(log) then TailWindow(log, PROCESSED_RETENTION_BYTES) else log
  }

  /** Which lines pruning restores for the reserved ids.  Of an oversized log the whole file is
      searched, unless listing the reservations failed the first time. */
  function Restorable(log: seq<LogLine>, reserved: set<string>, f: PruneFaults): seq<LogLine> {
    if Oversized(log) && !f.firstListFails then ReservedLines(log, reserved)
    else if f.secondListFails then []
    else ReservedLines(Examined(log), reserved)
  }

  function Kept(log: seq<LogLine>, now: int): seq<LogLine> {
    Unexpired(Examined(log), now)
  }

  /** The rewritten log, or `None` when there is nothing to prune. */
  function Pruned(log: seq<LogLine>, reserved: set<string>, now: int, f: PruneFaults): Option<seq<LogLine>> {
    var kept := Kept(log, now);
    if !Oversized(log) && |kept| == |log| then None
    else Some(Missing(Restorable(log, reserved, f), kept) + kept)
  }

  function LogAfter(log: seq<LogLine>, p: Option<seq<LogLine>>): seq<LogLine> {
    if p.Some? then p.value else log
  }

  // ---- What pruning keeps ----------------------------------------------------------------------

  lemma LoggedConcat(a: seq<LogLine>, b: seq<LogLine>, id: string)
    ensures Logged(a + b, id) <==> Logged(a, id) || Logged(b, id)
  {
    if Logged(a, id) {
      var i :| 0 <= i < |a| && a[i].id == Some(id);
      assert (a + b)[i].id == Some(id);
    }
    if Logged(b, id) {
      var i :| 0 <= i < |b| && b[i].id == Some(id);
      assert (a + b)[|a| + i].id == Some(id);
    }
  }

  lemma {:induction false} TailLogged(log: seq<LogLine>, window: nat, id: string)
    ensures Logged(TailWindow(log, window), id) ==> Logged(log, id)
    ensures window > 0 ==> Size(TailWindow(log, window)) < window
  {
    if log != [] && Size(log) >= window {
      TailLogged(log[1..], window, id);
      assert log == [log[0]] + log[1..];
      LoggedConcat([log[0]], log[1..], id);
    }
  }

  /** The tail is the longest one within the window. */
  lemma {:induction false} TailIsLongest(log: seq<LogLine>, window: nat) returns (k: nat)
    ensures k <= |log| && TailWindow(log, window) == log[k..]
    ensures k < |log| ==> Size(log[k..]) < window
    ensures k > 0 ==> Size(log[k - 1..]) >= window
  {
    k := 0;
    if log != [] && Size(log) >= window {
      var n := TailIsLongest(log[1..], window);
      k := n + 1;
      assert log[1..][n..] == log[k..];
      assert n > 0 ==> log[1..][n - 1..] == log[k - 1..];
    }
  }

  lemma {:induction false} UnexpiredLines(log: seq<LogLine>, now: int, l: LogLine)
    ensures l in Unexpired(log, now) <==> l in log && !Expired(l, now)
    ensures |Unexpired(log, now)| <= |log|
    ensures |Unexpired(log, now)| == |log| <==> forall i :: 0 <= i < |log| ==> !Expired(log[i], now)
  {
    if log != [] {
      UnexpiredLines(log[1..], now, l);
      assert log == [log[0]] + log[1..];
    }
  }

  lemma {:induction false} RememberLines(kept: seq<LogLine>, line: LogLine, l: LogLine)
    ensures l in Remember(kept, line) ==> l in kept || l == line
  {
    if kept != [] { RememberLines(kept[1..], line, l); }
  }

  lemma {:induction false} ReservedOnly(log: seq<LogLine>, reserved: set<string>, l: LogLine)
    ensures l in ReservedLines(log, reserved) ==> l in log && l.id.Some? && l.id.value in reserved
  {
    if log != [] {
      var init, line := log[..|log| - 1], log[|log| - 1];
      ReservedOnly(init, reserved, l);
      assert log == init + [line];
      RememberLines(ReservedLines(init, reserved), line, l);
    }
  }

  lemma {:induction false} MissingLines(restore: seq<LogLine>, kept: seq<LogLine>, l: LogLine)
    ensures l in Missing(restore, kept) ==> l in restore
  {
    if restore != [] { MissingLines(restore[1..], kept, l); }
  }

  /** Pruning rewrites the log exactly if it is too large or has a line older than two minutes.  Every younger
      line looked at stays, and whatever else stays is of a message with a reservation. */
  lemma PrunedLines(log: seq<LogLine>, reserved: set<string>, now: int, f: PruneFaults, l: LogLine)
    ensures Pruned(log, reserved, now, f).Some? <==>
      Size(log) > 1_048_576 || exists i :: 0 <= i < |log| && log[i].time.Some? && log[i].time.value < now - 120_000
    ensures var p, young := Pruned(log, reserved, now, f), !(l.time.Some? && l.time.value < now - 120_000);
      p.Some? ==>
        && (l in Examined(log) && young ==> l in p.value)
        && (l in p.value ==> l in log && ((l in Examined(log) && young) || (l.id.Some? && l.id.value in reserved)))
  {
    UnexpiredLines(Examined(log), now, l);
    assert forall i :: 0 <= i < |log| ==> (Expired(log[i], now) <==> log[i].time.Some? && log[i].time.value < now - 120_000);
    var k := TailIsLongest(log, PROCESSED_RETENTION_BYTES);
    MissingLines(Restorable(log, reserved, f), Kept(log, now), l);
    ReservedOnly(log, reserved, l);
    ReservedOnly(Examined(log), reserved, l);
  }

  lemma {:induction false} UnexpiredLogged(log: seq<LogLine>, now: int, id: string)
    ensures Logged(Unexpired(log, now), id) ==> Logged(log, id)
    ensures |Unexpired(log, now)| <= |log|
    ensures |Unexpired(log, now)| == |log| ==> Unexpired(log, now) == log
  {
    if log != [] {
      UnexpiredLogged(log[1..], now, id);
      assert log == [log[0]] + log[1..];
      LoggedConcat([log[0]], log[1..], id);
      LoggedConcat(if Expired(log[0], now) then [] else [log[0]], Unexpired(log[1..], now), id);
    }
  }

  lemma {:induction false} RememberLogged(kept: seq<LogLine>, line: LogLine, id: string)
    requires line.id.Some?
    ensures Logged(Remember(kept, line), id) <==> Logged(kept, id) || line.id == Some(id)
  {
    if kept == [] {
      assert Remember(kept, line)[0] == line;
    } else {
      assert kept == [kept[0]] + kept[1..];
      LoggedConcat([kept[0]], kept[1..], id);
      if kept[0].id == line.id {
        LoggedConcat([line], kept[1..], id);
        assert [line][0].id == line.id && [kept[0]][0].id == line.id;
      } else {
        RememberLogged(kept[1..], line, id);
        LoggedConcat([kept[0]], Remember(kept[1..], line), id);
      }
    }
  }

  lemma {:induction false} ReservedLogged(log: seq<LogLine>, reserved: set<string>, id: string)
    ensures Logged(ReservedLines(log, reserved), id) <==> Logged(log, id) && id in reserved
  {
    if log != [] {
      var init, line := log[..|log| - 1], log[|log| - 1];
      ReservedLogged(init, reserved, id);
      assert log == init + [line];
      LoggedConcat(init, [line], id);
      assert [line][0] == line;
      if line.id.Some? && line.id.value in reserved {
        RememberLogged(ReservedLines(init, reserved), line, id);
      }
    }
  }

  lemma {:induction false} MissingLogged(restore: seq<LogLine>, kept: seq<LogLine>, id: string)
    ensures Logged(Missing(restore, kept), id) <==> Logged(restore, id) && !Logged(kept, id)
  {
    if restore != [] {
      MissingLogged(restore[1..], kept, id);
      assert restore == [restore[0]] + restore[1..];
      LoggedConcat([restore[0]], restore[1..], id);
      var head := if restore[0].id.Some? && Logged(kept, restore[0].id.value) then [] else [restore[0]];
      LoggedConcat(head, Missing(restore[1..], kept), id);
      assert [restore[0]][0] == restore[0];
    }
  }

  /** Exactly which ids are still recorded after pruning. */
  lemma PrunedIds(log: seq<LogLine>, reserved: set<string>, now: int, f: PruneFaults, id: string)
    ensures Pruned(log, reserved, now, f).Some? ==>
      Logged(Pruned(log, reserved, now, f).value, id)
      == (Logged(Kept(log, now), id) || Logged(Restorable(log, reserved, f), id))
    ensures Pruned(log, reserved, now, f).None? ==> Kept(log, now) == log
  {
    var kept := Kept(log, now);
    MissingLogged(Restorable(log, reserved, f), kept, id);
    LoggedConcat(Missing(Restorable(log, reserved, f), kept), kept, id);
    UnexpiredLogged(log, now, id);
  }

  /** Exactly when a reserved and recorded id stays recorded: some line of it is examined and young
      enough; or the log is oversized and its reservations were listed before the tail was taken; or
      they were listed afterwards and some line of the id was examined. */
  lemma ReservedIsKeptExactly(log: seq<LogLine>, reserved: set<string>, now: int, f: PruneFaults, id: string)
    requires id in reserved && Logged(log, id)
    ensures Logged(LogAfter(log, Pruned(log, reserved, now, f)), id) <==>
      || Logged(Unexpired(Examined(log), now), id)
      || (Oversized(log) && !f.firstListFails)
      || (!f.secondListFails && Logged(Examined(log), id))
  {
    PrunedIds(log, reserved, now, f, id);
    ReservedLogged(log, reserved, id);
    ReservedLogged(Examined(log), reserved, id);
  }

  /** The listing that matters worked: the first one for an oversized log, else the second. */
  predicate ListingWorked(log: seq<LogLine>, f: PruneFaults) {
    if Oversized(log) then !f.firstListFails else !f.secondListFails
  }

  /** Pruning, by age or by size, keeps a line for every recorded id that has a reservation, if the
      reservations could be listed when it mattered; and it records nothing new. */
  lemma PruningProtectsReserved(log: seq<LogLine>, reserved: set<string>, now: int, f: PruneFaults, id: string)
    ensures var after := LogAfter(log, Pruned(log, reserved, now, f));
      && (Logged(after, id) ==> Logged(log, id))
      && (ListingWorked(log, f) && id in reserved ==> (Logged(log, id) <==> Logged(after, id)))
  {
    PrunedIds(log, reserved, now, f, id);
    TailLogged(log, PROCESSED_RETENTION_BYTES, id);
    UnexpiredLogged(Examined(log), now, id);
    ReservedLogged(log, reserved, id);
    ReservedLogged(Examined(log), reserved, id);
  }

  /** Whatever the log, every reserved and recorded id stays recorded. */
  ghost predicate AlwaysProtects(now: int, f: PruneFaults) {
    forall log, reserved, id :: id in reserved && Logged(log, id)
      ==> Logged(LogAfter(log, Pruned(log, reserved, now, f)), id)
  }

  /** A log within the size limit: an expired record goes if the second listing fails. */
  lemma ExpiredRecordGoes(id: string, now: int, f: PruneFaults)
    requires f.secondListFails
    ensures var log := [LogLine(Some(id), Some(now - PROCESSED_RETENTION_MS - 1), 1)];
      Logged(log, id) && !Logged(LogAfter(log, Pruned(log, {id}, now, f)), id)
  {
    var log := [LogLine(Some(id), Some(now - PROCESSED_RETENTION_MS - 1), 1)];
    assert Size(log) == 1 by { assert Size(log[1..]) == 0; }
    assert Unexpired(log, now) == [];
    assert log[0].id == Some(id);
    ReservedIsKeptExactly(log, {id}, now, f, id);
  }

  /** An oversized log: a record before the tail goes if the first listing fails, whatever its age and
      although the second listing works. */
  lemma RecordBeforeTailGoes(id: string, time: Option<int>, now: int, f: PruneFaults)
    requires f.firstListFails
    ensures var log := [LogLine(Some(id), time, 1), LogLine(None, None, PROCESSED_MAX_BYTES)];
      Logged(log, id) && !Logged(LogAfter(log, Pruned(log, {id}, now, f)), id)
  {
    var last := [LogLine(None, None, PROCESSED_MAX_BYTES)];
    var log := [LogLine(Some(id), time, 1)] + last;
    assert log == [LogLine(Some(id), time, 1), LogLine(None, None, PROCESSED_MAX_BYTES)];
    assert log[1..] == last && last[1..] == [];
    assert Size(last) == PROCESSED_MAX_BYTES && Size(log) == PROCESSED_MAX_BYTES + 1;
    assert TailWindow(last, PROCESSED_RETENTION_BYTES) == [];
    assert Examined(log) == [];
    assert log[0].id == Some(id);
    ReservedIsKeptExactly(log, {id}, now, f, id);
  }

  /** Both listings are needed: pruning protects every reserved record of every log exactly if both
      work.  If the second fails, a log within the limit loses an expired one; if the first does, an
      oversized log loses one that lies before the tail. */
  lemma UnlistedReservationsLoseProtection(now: int, f: PruneFaults)
    ensures AlwaysProtects(now, f) <==> !f.firstListFails && !f.secondListFails
  {
    if !f.firstListFails && !f.secondListFails {
      forall log, reserved, id | id in reserved && Logged(log, id)
        ensures Logged(LogAfter(log, Pruned(log, reserved, now, f)), id)
      {
        PruningProtectsReserved(log, reserved, now, f, id);
      }
    }
    if f.secondListFails { ExpiredRecordGoes("", now, f); }
    if f.firstListFails { RecordBeforeTailGoes("", None, now, f); }
  }
}
