/** Any number of concurrent calls, each running its body while holding the mutexes of a set of teams.
    A mutex is a first-in-first-out queue whose head holds it; a call queues for its teams' mutexes one
    after another, in the order of their directories, and leaves them in reverse order. */
module OrderedLocks {
  type Team = nat
  type Id = nat

  /** Not started; queued for `order[i]` while holding those before it; in the body; leaving, with the
      first `i` still held; finished. */
  datatype Phase = Idle | Waiting(i: nat) | Running | Leaving(i: nat) | Done

  datatype Call = Call(order: seq<Team>, phase: Phase)

  /** A place in a queue: the call, and for which of its teams. */
  datatype Ticket = Ticket(call: Id, i: nat)

  datatype State = State(queues: map<Team, seq<Ticket>>, calls: seq<Call>)

  function Queue(s: State, t: Team): seq<Ticket> {
    if t in s.queues then s.queues[t] else []
  }

  predicate Heads(s: State, t: Team, k: Ticket) {
    Queue(s, t) != [] && Queue(s, t)[0] == k
  }

  /** The call holds the mutex of `t`. */
  predicate Holds(s: State, t: Team, c: Id) {
    Queue(s, t) != [] && Queue(s, t)[0].call == c
  }

  function Enqueue(s: State, t: Team, k: Ticket): State {
    s.(queues := s.queues[t := Queue(s, t) + [k]])
  }

  function Dequeue(s: State, t: Team): State {
    s.(queues := s.queues[t := if Queue(s, t) == [] then [] else Queue(s, t)[1..]])
  }

  function Become(s: State, c: Id, ph: Phase): State
    requires c < |s.calls|
  {
    s.(calls := s.calls[c := s.calls[c].(phase := ph)])
  }

  /** Run the rest of a call from its `i`-th mutex on. */
  function Acquire(s: State, c: Id, i: nat): State
    requires c < |s.calls| && i <= |s.calls[c].order|
  {
    if i == |s.calls[c].order| then Become(s, c, Running)
    else Become(Enqueue(s, s.calls[c].order[i], Ticket(c, i)), c, Waiting(i))
  }

  /** A call waiting at the tail of a queue cannot move; every other unfinished call can. */
  predicate Enabled(s: State, c: Id) {
    c < |s.calls| &&
    match s.calls[c].phase
    case Waiting(i) => i < |s.calls[c].order| && Heads(s, s.calls[c].order[i], Ticket(c, i))
    case Leaving(i) => i <= |s.calls[c].order|
    case Done => false
    case _ => true
  }

  /** The next step of a call; nothing changes if it cannot move. */
  function Step(s: State, c: Id): State {
    if !Enabled(s, c) then s
    else
      match s.calls[c].phase
      case Idle => Acquire(s, c, 0)
      case Waiting(i) => Acquire(s, c, i + 1)
      case Running => Become(s, c, Leaving(|s.calls[c].order|))
      case Leaving(i) =>
        if i == 0 then Become(s, c, Done)
        else Become(Dequeue(s, s.calls[c].order[i - 1]), c, Leaving(i - 1))
  }

  function After(s: State, schedule: seq<Id>): State {
    if schedule == [] then s else Step(After(s, schedule[..|schedule| - 1]), schedule[|schedule| - 1])
  }

  // ---- Sorting by directory --------------------------------------------------------------------

  /** `rank` numbers the directories in comparison order; directories that compare equal share one. */
  function Insert(order: seq<Team>, t: Team, rank: Team -> int): seq<Team> {
    if order == [] then [t]
    else if rank(t) < rank(order[0]) then [t] + order
    else [order[0]] + Insert(order[1..], t, rank)
  }

  /** The stable sort of a call's teams. */
  function SortByDirectory(teams: seq<Team>, rank: Team -> int): seq<Team> {
    if teams == [] then []
    else Insert(SortByDirectory(teams[..|teams| - 1], rank), teams[|teams| - 1], rank)
  }

  predicate Ascending(order: seq<Team>, rank: Team -> int) {
    forall i, j :: 0 <= i < j < |order| ==> rank(order[i]) <= rank(order[j])
  }

  /** Strictly ascending: no team twice and no two directories that compare equal. */
  predicate Ordered(order: seq<Team>, rank: Team -> int) {
    forall i, j :: 0 <= i < j < |order| ==> rank(order[i]) < rank(order[j])
  }

  predicate DistinctRanks(teams: seq<Team>, rank: Team -> int) {
    forall i, j :: 0 <= i < j < |teams| ==> rank(teams[i]) != rank(teams[j])
  }

  function Start(teams: seq<seq<Team>>, rank: Team -> int): State {
    State(map[], seq(|teams|, i requires 0 <= i < |teams| => Call(SortByDirectory(teams[i], rank), Idle)))
  }

  lemma {:induction false} InsertAdds(order: seq<Team>, t: Team, rank: Team -> int)
    ensures multiset(Insert(order, t, rank)) == multiset(order) + multiset{t}
  {
    if order != [] {
      assert order == [order[0]] + order[1..];
      InsertAdds(order[1..], t, rank);
    }
  }

  lemma {:induction false} InsertAscends(order: seq<Team>, t: Team, rank: Team -> int)
    requires Ascending(order, rank)
    ensures Ascending(Insert(order, t, rank), rank)
  {
    if order != [] && rank(t) >= rank(order[0]) {
      InsertAscends(order[1..], t, rank);
      var rest := Insert(order[1..], t, rank);
      forall k | 0 <= k < |rest| ensures rank(order[0]) <= rank(rest[k]) {
        InsertAdds(order[1..], t, rank);
        assert rest[k] in multiset(rest);
        assert rest[k] == t || rest[k] in multiset(order[1..]);
      }
    }
  }

  /** The sort permutes and orders. */
  lemma {:induction false} Sorts(teams: seq<Team>, rank: Team -> int)
    ensures multiset(SortByDirectory(teams, rank)) == multiset(teams) && Ascending(SortByDirectory(teams, rank), rank)
  {
    if teams != [] {
      var n := |teams| - 1;
      assert teams == teams[..n] + [teams[n]];
      Sorts(teams[..n], rank);
      InsertAdds(SortByDirectory(teams[..n], rank), teams[n], rank);
      InsertAscends(SortByDirectory(teams[..n], rank), teams[n], rank);
    }
  }

  /** A tie in one arrangement of the teams is a tie in every other. */
  lemma TieMoves(s: seq<Team>, t: seq<Team>, rank: Team -> int)
    requires multiset(s) == multiset(t) && DistinctRanks(s, rank)
    ensures DistinctRanks(t, rank)
  {
    forall i, j | 0 <= i < j < |t| ensures rank(t[i]) != rank(t[j]) {
      assert t[i] in multiset(t) && t[j] in multiset(t);
      var a :| 0 <= a < |s| && s[a] == t[i];
      var b :| 0 <= b < |s| && s[b] == t[j];
      if a == b {
        assert multiset(t)[t[i]] >= 2 by { TwoOccurrences(t, i, j); }
        OneOccurrence(s, a, rank);
        assert false;
      }
    }
  }

  lemma TwoOccurrences(t: seq<Team>, i: nat, j: nat)
    requires i < j < |t| && t[i] == t[j]
    ensures multiset(t)[t[i]] >= 2
  {
    assert t == t[..j] + t[j..];
    assert t[i] in t[..j] && t[j] in t[j..];
  }

  lemma OneOccurrence(s: seq<Team>, a: nat, rank: Team -> int)
    requires a < |s| && DistinctRanks(s, rank)
    ensures multiset(s)[s[a]] == 1
  {
    assert s == s[..a] + [s[a]] + s[a + 1..];
    assert s[a] !in s[..a] && s[a] !in s[a + 1..];
  }

  /** Sorting gives a strict order exactly if the teams are distinct and no two directories tie. */
  lemma OrderedIff(teams: seq<Team>, rank: Team -> int)
    ensures Ordered(SortByDirectory(teams, rank), rank) <==> DistinctRanks(teams, rank)
  {
    var order := SortByDirectory(teams, rank);
    Sorts(teams, rank);
    if DistinctRanks(teams, rank) {
      TieMoves(teams, order, rank);
    }
    if Ordered(order, rank) {
      TieMoves(order, teams, rank);
    }
  }

  // ---- The invariant ---------------------------------------------------------------------------

  /** How many of its mutexes a call is queued for, and how many of those it certainly holds. */
  function Queued(c: Call): nat {
    match c.phase
    case Waiting(i) => i + 1
    case Running => |c.order|
    case Leaving(i) => i
    case _ => 0
  }

  function Held(c: Call): nat {
    if c.phase.Waiting? then c.phase.i else Queued(c)
  }

  predicate WithinOrder(s: State) {
    forall c :: 0 <= c < |s.calls| ==> Queued(s.calls[c]) <= |s.calls[c].order|
  }

  /** The queue of `t` holds exactly the places taken, each once. */
  predicate QueuesMatch(s: State, t: Team) {
    && (forall k :: k in Queue(s, t) ==> Wants(s, t, k))
    && (forall c, i :: 0 <= c < |s.calls| && 0 <= i < |s.calls[c].order| && Wants(s, t, Ticket(c, i)) ==> Ticket(c, i) in Queue(s, t))
    && (forall k, l :: 0 <= k < l < |Queue(s, t)| ==> Queue(s, t)[k] != Queue(s, t)[l])
  }

  predicate Wants(s: State, t: Team, k: Ticket) {
    k.call < |s.calls| && k.i < Queued(s.calls[k.call]) && k.i < |s.calls[k.call].order| && s.calls[k.call].order[k.i] == t
  }

  predicate HoldsHeads(s: State, c: Id)
    requires c < |s.calls|
  {
    forall j :: 0 <= j < Held(s.calls[c]) && j < |s.calls[c].order| ==> Heads(s, s.calls[c].order[j], Ticket(c, j))
  }

  ghost predicate Inv(s: State) {
    && WithinOrder(s)
    && (forall t: Team {:trigger QueuesMatch(s, t)} :: QueuesMatch(s, t))
    && forall c :: 0 <= c < |s.calls| ==> HoldsHeads(s, c)
  }

  lemma AcquireMatches(s: State, c: Id, i: nat, t: Team)
    requires QueuesMatch(s, t) && c < |s.calls| && i <= |s.calls[c].order| && Queued(s.calls[c]) == i
    ensures QueuesMatch(Acquire(s, c, i), t)
  {
    var u := Acquire(s, c, i);
    forall k ensures Wants(u, t, k) <==> Wants(s, t, k) || (i < |s.calls[c].order| && t == s.calls[c].order[i] && k == Ticket(c, i)) {
      if k.call != c && k.call < |s.calls| { assert u.calls[k.call] == s.calls[k.call]; }
    }
    assert Ticket(c, i) !in Queue(s, t) by { assert !Wants(s, t, Ticket(c, i)); }
  }

  lemma AcquireKeepsInv(s: State, c: Id, i: nat)
    requires Inv(s) && c < |s.calls| && i <= |s.calls[c].order|
    requires Queued(s.calls[c]) == i && forall j :: 0 <= j < i ==> Heads(s, s.calls[c].order[j], Ticket(c, j))
    ensures Inv(Acquire(s, c, i))
  {
    var u := Acquire(s, c, i);
    forall t: Team ensures QueuesMatch(u, t) {
      assert QueuesMatch(s, t);
      AcquireMatches(s, c, i, t);
    }
    forall d | 0 <= d < |u.calls| ensures HoldsHeads(u, d) {
      assert HoldsHeads(s, d);
    }
  }

  lemma LeaveMatches(s: State, c: Id, i: nat, t: Team)
    requires QueuesMatch(s, t) && c < |s.calls| && s.calls[c].phase == Leaving(i + 1) && i < |s.calls[c].order|
    requires Heads(s, s.calls[c].order[i], Ticket(c, i))
    ensures QueuesMatch(Become(Dequeue(s, s.calls[c].order[i]), c, Leaving(i)), t)
  {
    var u := Become(Dequeue(s, s.calls[c].order[i]), c, Leaving(i));
    var q := Queue(s, t);
    forall k ensures Wants(u, t, k) <==> Wants(s, t, k) && k != Ticket(c, i) {
      if k.call != c && k.call < |s.calls| { assert u.calls[k.call] == s.calls[k.call]; }
    }
    if t == s.calls[c].order[i] {
      assert q == [Ticket(c, i)] + q[1..];
      forall k ensures k in q[1..] <==> k in q && k != Ticket(c, i) {}
    } else {
      assert Ticket(c, i) !in q;
    }
  }

  lemma LeaveKeepsInv(s: State, c: Id, i: nat)
    requires Inv(s) && c < |s.calls| && s.calls[c].phase == Leaving(i + 1) && i < |s.calls[c].order|
    ensures Inv(Become(Dequeue(s, s.calls[c].order[i]), c, Leaving(i)))
  {
    var t0 := s.calls[c].order[i];
    var u := Become(Dequeue(s, t0), c, Leaving(i));
    assert HoldsHeads(s, c);
    assert Heads(s, t0, Ticket(c, i));
    forall t: Team ensures QueuesMatch(u, t) {
      assert QueuesMatch(s, t);
      LeaveMatches(s, c, i, t);
    }
    forall d | 0 <= d < |u.calls| ensures HoldsHeads(u, d) {
      assert HoldsHeads(s, d);
      forall j | 0 <= j < Held(u.calls[d]) && j < |u.calls[d].order| ensures u.calls[d].order[j] != t0 {
        assert Heads(s, u.calls[d].order[j], Ticket(d, j));
      }
    }
  }

  lemma RelabelKeepsInv(s: State, c: Id, ph: Phase)
    requires Inv(s) && c < |s.calls|
    requires Queued(s.calls[c].(phase := ph)) == Queued(s.calls[c]) && Held(s.calls[c].(phase := ph)) == Held(s.calls[c])
    ensures Inv(Become(s, c, ph))
  {
    var u := Become(s, c, ph);
    forall t: Team ensures QueuesMatch(u, t) {
      assert QueuesMatch(s, t);
      assert Queue(u, t) == Queue(s, t);
      forall k ensures Wants(u, t, k) == Wants(s, t, k) {}
    }
    forall d | 0 <= d < |u.calls| ensures HoldsHeads(u, d) { assert HoldsHeads(s, d); }
  }

  lemma StepKeepsInv(s: State, c: Id)
    requires Inv(s)
    ensures Inv(Step(s, c)) && |Step(s, c).calls| == |s.calls|
  {
    hide Inv;
    if Enabled(s, c) {
      match s.calls[c].phase {
        case Idle => AcquireKeepsInv(s, c, 0);
        case Waiting(i) => AcquireNextKeepsInv(s, c, i);
        case Running => RelabelKeepsInv(s, c, Leaving(|s.calls[c].order|));
        case Leaving(i) =>
          if i == 0 { RelabelKeepsInv(s, c, Done); } else { LeaveKeepsInv(s, c, i - 1); }
      }
    }
  }

  /** Granted the mutex at the head of whose queue it is, the call moves on. */
  lemma AcquireNextKeepsInv(s: State, c: Id, i: nat)
    requires Inv(s) && Enabled(s, c) && s.calls[c].phase == Waiting(i)
    ensures Inv(Acquire(s, c, i + 1))
  {
    assert HoldsHeads(s, c);
    AcquireKeepsInv(s, c, i + 1);
  }

  lemma {:induction false} InvHolds(teams: seq<seq<Team>>, rank: Team -> int, schedule: seq<Id>)
    ensures Inv(After(Start(teams, rank), schedule)) && |After(Start(teams, rank), schedule).calls| == |teams|
  {
    if schedule == [] {
      var s := Start(teams, rank);
      forall t: Team ensures QueuesMatch(s, t) {
        forall k ensures !Wants(s, t, k) {}
      }
    } else {
      var n := |schedule| - 1;
      InvHolds(teams, rank, schedule[..n]);
      StepKeepsInv(After(Start(teams, rank), schedule[..n]), schedule[n]);
    }
  }

  // ---- Safety ----------------------------------------------------------------------------------

  /** A body runs while its call holds exactly the mutexes of its teams. */
  lemma BodyHoldsExactlyItsTeams(teams: seq<seq<Team>>, rank: Team -> int, schedule: seq<Id>, c: Id, t: Team)
    requires var s := After(Start(teams, rank), schedule); c < |s.calls| && s.calls[c].phase == Running
    ensures c < |teams| && (Holds(After(Start(teams, rank), schedule), t, c) <==> t in teams[c])
  {
    InvHolds(teams, rank, schedule);
    Sorts(teams[c], rank);
    var s := After(Start(teams, rank), schedule);
    OrderStays(teams, rank, schedule, c);
    assert QueuesMatch(s, t) && HoldsHeads(s, c);
    assert t in teams[c] <==> t in multiset(teams[c]);
    assert t in s.calls[c].order <==> t in multiset(s.calls[c].order);
    if Holds(s, t, c) { assert Wants(s, t, Queue(s, t)[0]); }
  }

  lemma StepKeepsOrder(s: State, c: Id, d: Id)
    requires d < |s.calls|
    ensures |Step(s, c).calls| == |s.calls| && Step(s, c).calls[d].order == s.calls[d].order
  {
  }

  lemma {:induction false} OrderStays(teams: seq<seq<Team>>, rank: Team -> int, schedule: seq<Id>, c: Id)
    requires c < |teams|
    ensures var s := After(Start(teams, rank), schedule);
      |s.calls| == |teams| && s.calls[c].order == SortByDirectory(teams[c], rank)
  {
    if schedule != [] {
      var n := |schedule| - 1;
      OrderStays(teams, rank, schedule[..n], c);
      StepKeepsOrder(After(Start(teams, rank), schedule[..n]), schedule[n], c);
    }
  }

  /** A call that leaves its mutexes, or has finished, has been in its body before. */
  lemma {:induction false} FinishedHasRun(teams: seq<seq<Team>>, rank: Team -> int, schedule: seq<Id>, c: Id) returns (n: nat)
    requires var s := After(Start(teams, rank), schedule); c < |s.calls| && (s.calls[c].phase.Leaving? || s.calls[c].phase.Done?)
    ensures n <= |schedule|
    ensures var s := After(Start(teams, rank), schedule[..n]); c < |s.calls| && s.calls[c].phase == Running
    decreases |schedule|
  {
    var m := |schedule| - 1;
    var before := schedule[..m];
    var s := After(Start(teams, rank), before);
    InvHolds(teams, rank, before);
    StepKeepsInv(s, schedule[m]);
    OnlyBodiesLeave(s, schedule[m], c);
    hide Step, Start;
    if s.calls[c].phase == Running {
      n := m;
    } else {
      n := FinishedHasRun(teams, rank, before, c);
      assert before[..n] == schedule[..n];
    }
  }

  lemma OnlyBodiesLeave(s: State, d: Id, c: Id)
    requires c < |s.calls| && |Step(s, d).calls| == |s.calls|
    requires var ph := Step(s, d).calls[c].phase; ph.Leaving? || ph.Done?
    ensures var ph := s.calls[c].phase; ph.Running? || ph.Leaving? || ph.Done?
  {
  }

  /** `k` stands before `l` in the queue of `t`. */
  predicate Before(s: State, t: Team, k: Ticket, l: Ticket) {
    exists p, q :: 0 <= p < q < |Queue(s, t)| && Queue(s, t)[p] == k && Queue(s, t)[q] == l
  }

  /** A step adds to a queue at its tail or takes its head away. */
  lemma QueueStep(s: State, c: Id, t: Team)
    ensures var u, v := Queue(s, t), Queue(Step(s, c), t);
      || v == u || (u != [] && v == u[1..])
      || (c < |s.calls| && exists i :: v == u + [Ticket(c, i)])
  {
    if Enabled(s, c) && s.calls[c].phase.Waiting? && s.calls[c].phase.i + 1 < |s.calls[c].order|
       && s.calls[c].order[s.calls[c].phase.i + 1] == t {
      assert Queue(Step(s, c), t) == Queue(s, t) + [Ticket(c, s.calls[c].phase.i + 1)];
    } else if Enabled(s, c) && s.calls[c].phase.Idle? && s.calls[c].order != [] && s.calls[c].order[0] == t {
      assert Queue(Step(s, c), t) == Queue(s, t) + [Ticket(c, 0)];
    }
  }

  lemma BeforeStays(s: State, c: Id, t: Team, k: Ticket, l: Ticket)
    requires QueuesMatch(s, t) && Before(s, t, k, l) && k in Queue(Step(s, c), t)
    requires QueuesMatch(Step(s, c), t)
    ensures Before(Step(s, c), t, k, l)
  {
    var p, q :| 0 <= p < q < |Queue(s, t)| && Queue(s, t)[p] == k && Queue(s, t)[q] == l;
    var u, v := Queue(s, t), Queue(Step(s, c), t);
    QueueStep(s, c, t);
    if v == u {
      assert v[p] == k && v[q] == l;
    } else if u != [] && v == u[1..] {
      var r :| 0 <= r < |v| && v[r] == k;
      assert u[r + 1] == u[p];
      assert p == r + 1;
      assert v[p - 1] == k && v[q - 1] == l;
    } else {
      assert v[p] == k && v[q] == l;
    }
  }

  lemma QueuesHold(teams: seq<seq<Team>>, rank: Team -> int, schedule: seq<Id>, t: Team)
    ensures QueuesMatch(After(Start(teams, rank), schedule), t)
  {
    InvHolds(teams, rank, schedule);
  }

  lemma NotAtHead(s: State, t: Team, k: Ticket, l: Ticket)
    requires QueuesMatch(s, t) && Before(s, t, k, l)
    ensures !Heads(s, t, l)
  {
  }

  /** First come, first served: under any schedule, a call is not granted a mutex while one that queued for
      it earlier is still in the queue. */
  lemma {:induction false} NoOvertaking(teams: seq<seq<Team>>, rank: Team -> int, past: seq<Id>, schedule: seq<Id>,
                                        t: Team, k: Ticket, l: Ticket)
    requires Before(After(Start(teams, rank), past), t, k, l)
    requires forall n :: 0 <= n <= |schedule| ==> k in Queue(After(Start(teams, rank), past + schedule[..n]), t)
    ensures Before(After(Start(teams, rank), past + schedule), t, k, l)
    ensures !Heads(After(Start(teams, rank), past + schedule), t, l)
    decreases |schedule|
  {
    QueuesHold(teams, rank, past + schedule, t);
    var u := After(Start(teams, rank), past + schedule);
    hide Inv, QueuesMatch, Before, Heads, Start, Step;
    if schedule == [] {
      assert past + schedule == past;
    } else {
      var m := |schedule| - 1;
      var init := schedule[..m];
      forall n | 0 <= n <= m ensures k in Queue(After(Start(teams, rank), past + init[..n]), t) {
        assert init[..n] == schedule[..n];
      }
      NoOvertaking(teams, rank, past, init, t, k, l);
      assert (past + schedule)[..|past + schedule| - 1] == past + init;
      var s := After(Start(teams, rank), past + init);
      QueuesHold(teams, rank, past + init, t);
      assert schedule[..|schedule|] == schedule;
      BeforeStays(s, schedule[m], t, k, l);
    }
    NotAtHead(u, t, k, l);
  }

  // ---- Progress --------------------------------------------------------------------------------

  predicate AllDone(s: State) {
    forall c :: 0 <= c < |s.calls| ==> s.calls[c].phase.Done?
  }

  predicate IsWaiting(s: State, c: Id) {
    c < |s.calls| && s.calls[c].phase.Waiting? && s.calls[c].phase.i < |s.calls[c].order|
  }

  /** The rank of the mutex a call waits for. */
  function Target(s: State, c: Id, rank: Team -> int): int
    requires IsWaiting(s, c)
  {
    rank(s.calls[c].order[s.calls[c].phase.i])
  }

  lemma {:induction false} HighestTarget(s: State, rank: Team -> int, n: nat) returns (top: int)
    requires n <= |s.calls|
    ensures forall c :: 0 <= c < n && IsWaiting(s, c) ==> Target(s, c, rank) <= top
  {
    if n == 0 { return 0; }
    top := HighestTarget(s, rank, n - 1);
    if IsWaiting(s, n - 1) && Target(s, n - 1, rank) > top { top := Target(s, n - 1, rank); }
  }

  /** Follow a waiting call to the holder of its mutex: the holder can move, or waits for a mutex of
      higher rank. */
  lemma Chase(s: State, rank: Team -> int, c: Id, top: int) returns (d: Id)
    requires Inv(s) && IsWaiting(s, c)
    requires forall k :: 0 <= k < |s.calls| ==> Ordered(s.calls[k].order, rank)
    requires forall c :: 0 <= c < |s.calls| && IsWaiting(s, c) ==> Target(s, c, rank) <= top
    ensures Enabled(s, d)
    decreases top - Target(s, c, rank)
  {
    var t := s.calls[c].order[s.calls[c].phase.i];
    assert QueuesMatch(s, t);
    assert Wants(s, t, Ticket(c, s.calls[c].phase.i));
    var k := Queue(s, t)[0];
    assert Wants(s, t, k);
    d := k.call;
    if !Enabled(s, d) {
      assert Ordered(s.calls[d].order, rank);
      d := Chase(s, rank, d, top);
    }
  }

  /** Deadlock freedom: in every reachable state in which some call has not finished, some call can
      take a step. */
  lemma AlwaysAnEnabledStep(teams: seq<seq<Team>>, rank: Team -> int, schedule: seq<Id>) returns (c: Id)
    requires forall k :: 0 <= k < |teams| ==> DistinctRanks(teams[k], rank)
    requires !AllDone(After(Start(teams, rank), schedule))
    ensures Enabled(After(Start(teams, rank), schedule), c)
  {
    InvHolds(teams, rank, schedule);
    var s := After(Start(teams, rank), schedule);
    forall k | 0 <= k < |s.calls| ensures Ordered(s.calls[k].order, rank) {
      OrderStays(teams, rank, schedule, k);
      OrderedIff(teams[k], rank);
    }
    c :| 0 <= c < |s.calls| && !s.calls[c].phase.Done?;
    if !Enabled(s, c) {
      var top := HighestTarget(s, rank, |s.calls|);
      c := Chase(s, rank, c, top);
    }
  }

  /** The steps a call has yet to take. */
  function StepsLeft(c: Call): nat {
    var n := |c.order|;
    match c.phase
    case Idle => 2 * n + 3
    case Waiting(i) => if i < n then 2 * n + 2 - i else 0
    case Running => n + 2
    case Leaving(i) => i + 1
    case Done => 0
  }

  function TotalLeft(calls: seq<Call>): nat {
    if calls == [] then 0 else TotalLeft(calls[..|calls| - 1]) + StepsLeft(calls[|calls| - 1])
  }

  lemma {:induction false} TotalAfterChange(calls: seq<Call>, c: nat, x: Call)
    requires c < |calls|
    ensures TotalLeft(calls[c := x]) == TotalLeft(calls) - StepsLeft(calls[c]) + StepsLeft(x)
  {
    var n := |calls| - 1;
    if c < n {
      TotalAfterChange(calls[..n], c, x);
      assert calls[c := x][..n] == calls[..n][c := x];
    } else {
      assert calls[c := x][..n] == calls[..n];
    }
  }

  /** Every step brings the end closer by one, so every run in which somebody keeps moving ends, and
      it ends with all calls finished. */
  lemma StepsRunOut(s: State, c: Id)
    requires Enabled(s, c)
    ensures TotalLeft(Step(s, c).calls) == TotalLeft(s.calls) - 1
  {
    TotalAfterChange(s.calls, c, Step(s, c).calls[c]);
    assert Step(s, c).calls == s.calls[c := Step(s, c).calls[c]];
  }

  // ---- The conditions are needed -----------------------------------------------------------------

  predicate Deadlocked(s: State) {
    !AllDone(s) && forall c :: 0 <= c < |s.calls| ==> !Enabled(s, c)
  }

  lemma SortsTo(a: Team, b: Team, rank: Team -> int)
    requires rank(a) <= rank(b)
    ensures SortByDirectory([a, b], rank) == [a, b]
  {
    assert [a, b][..1] == [a] && [a][..0] == [] && [a][1..] == [];
    assert SortByDirectory([a], rank) == Insert(SortByDirectory([], rank), a, rank) == [a];
    assert Insert([a], b, rank) == [a] + Insert([], b, rank);
  }

  /** Two calls naming teams `a` and `b` in opposite orders. */
  function Opposed(a: Team, b: Team, queues: map<Team, seq<Ticket>>, p: Phase, q: Phase): State {
    State(queues, [Call([a, b], p), Call([b, a], q)])
  }

  const FIRST := Ticket(0, 0)
  const SECOND := Ticket(1, 0)

  lemma Same(s: State, t: State)
    requires s.calls == t.calls && s.queues == t.queues
    ensures s == t
  {
  }

  lemma OpposedSteps(a: Team, b: Team)
    requires a != b
    ensures Step(Opposed(a, b, map[], Idle, Idle), 0) == Opposed(a, b, map[a := [FIRST]], Waiting(0), Idle)
    ensures Step(Opposed(a, b, map[a := [FIRST]], Waiting(0), Idle), 1)
         == Opposed(a, b, map[a := [FIRST], b := [SECOND]], Waiting(0), Waiting(0))
  {
    var none: seq<Ticket> := [];
    assert none + [FIRST] == [FIRST] && none + [SECOND] == [SECOND];
    Same(Step(Opposed(a, b, map[], Idle, Idle), 0), Opposed(a, b, map[a := [FIRST]], Waiting(0), Idle));
    Same(Step(Opposed(a, b, map[a := [FIRST]], Waiting(0), Idle), 1),
         Opposed(a, b, map[a := [FIRST], b := [SECOND]], Waiting(0), Waiting(0)));
  }

  lemma OpposedBlock(a: Team, b: Team)
    requires a != b
    ensures Step(Opposed(a, b, map[a := [FIRST], b := [SECOND]], Waiting(0), Waiting(0)), 0)
         == Opposed(a, b, map[a := [FIRST], b := [SECOND, Ticket(0, 1)]], Waiting(1), Waiting(0))
    ensures Step(Opposed(a, b, map[a := [FIRST], b := [SECOND, Ticket(0, 1)]], Waiting(1), Waiting(0)), 1)
         == Opposed(a, b, map[a := [FIRST, Ticket(1, 1)], b := [SECOND, Ticket(0, 1)]], Waiting(1), Waiting(1))
  {
    assert [SECOND] + [Ticket(0, 1)] == [SECOND, Ticket(0, 1)] && [FIRST] + [Ticket(1, 1)] == [FIRST, Ticket(1, 1)];
    Same(Step(Opposed(a, b, map[a := [FIRST], b := [SECOND]], Waiting(0), Waiting(0)), 0),
         Opposed(a, b, map[a := [FIRST], b := [SECOND, Ticket(0, 1)]], Waiting(1), Waiting(0)));
    Same(Step(Opposed(a, b, map[a := [FIRST], b := [SECOND, Ticket(0, 1)]], Waiting(1), Waiting(0)), 1),
         Opposed(a, b, map[a := [FIRST, Ticket(1, 1)], b := [SECOND, Ticket(0, 1)]], Waiting(1), Waiting(1)));
  }

  lemma OpposedIsDeadlocked(a: Team, b: Team)
    requires a != b
    ensures Deadlocked(Opposed(a, b, map[a := [FIRST, Ticket(1, 1)], b := [SECOND, Ticket(0, 1)]], Waiting(1), Waiting(1)))
  {
    var s := Opposed(a, b, map[a := [FIRST, Ticket(1, 1)], b := [SECOND, Ticket(0, 1)]], Waiting(1), Waiting(1));
    assert !s.calls[0].phase.Done? && !Enabled(s, 0) && !Enabled(s, 1);
  }

  lemma Four(s: State, a: Id, b: Id, c: Id, d: Id)
    ensures After(s, [a, b, c, d]) == Step(Step(Step(Step(s, a), b), c), d)
  {
    assert [a, b, c, d][..3] == [a, b, c] && [a, b, c][..2] == [a, b] && [a, b][..1] == [a] && [a][..0] == [];
    assert After(s, [a]) == Step(After(s, []), a);
    assert After(s, [a, b]) == Step(After(s, [a]), b);
    assert After(s, [a, b, c]) == Step(After(s, [a, b]), c);
  }

  /** Any two distinct teams whose directories compare equal: the sort leaves each call's own order, and
      two calls that name the teams in opposite orders block each other. */
  lemma TiedDirectoriesDeadlock(a: Team, b: Team, rank: Team -> int)
    requires a != b && rank(a) == rank(b)
    ensures Deadlocked(After(Start([[a, b], [b, a]], rank), [0, 1, 0, 1]))
  {
    SortsTo(a, b, rank);
    SortsTo(b, a, rank);
    Same(Start([[a, b], [b, a]], rank), Opposed(a, b, map[], Idle, Idle));
    OpposedSteps(a, b);
    OpposedBlock(a, b);
    OpposedIsDeadlocked(a, b);
    Four(Opposed(a, b, map[], Idle, Idle), 0, 1, 0, 1);
  }

  predicate Distinct(teams: seq<Team>) {
    forall i, j :: 0 <= i < j < |teams| ==> teams[i] != teams[j]
  }

  /** Calls that each name distinct teams of `all`. */
  predicate CallsOver(teams: seq<seq<Team>>, all: set<Team>) {
    forall k :: 0 <= k < |teams| ==> Distinct(teams[k]) && forall t :: t in teams[k] ==> t in all
  }

  ghost predicate DeadlockFree(all: set<Team>, rank: Team -> int) {
    forall teams, schedule :: CallsOver(teams, all) ==> !Deadlocked(After(Start(teams, rank), schedule))
  }

  predicate NoTies(all: set<Team>, rank: Team -> int) {
    forall a, b :: a in all && b in all && a != b ==> rank(a) != rank(b)
  }

  /** Calls that name distinct teams of a set are free of deadlock, however many and whatever the
      schedule, exactly if no two directories of the set compare equal. */
  lemma DeadlockFreeExactly(all: set<Team>, rank: Team -> int)
    ensures DeadlockFree(all, rank) <==> NoTies(all, rank)
  {
    if NoTies(all, rank) {
      forall teams, schedule | CallsOver(teams, all) ensures !Deadlocked(After(Start(teams, rank), schedule)) {
        NoTiesNoDeadlock(all, rank, teams, schedule);
      }
    } else {
      var a, b :| a in all && b in all && a != b && rank(a) == rank(b);
      assert CallsOver([[a, b], [b, a]], all);
      TiedDirectoriesDeadlock(a, b, rank);
    }
  }

  lemma NoTiesNoDeadlock(all: set<Team>, rank: Team -> int, teams: seq<seq<Team>>, schedule: seq<Id>)
    requires NoTies(all, rank) && CallsOver(teams, all)
    ensures !Deadlocked(After(Start(teams, rank), schedule))
  {
    forall k | 0 <= k < |teams| ensures DistinctRanks(teams[k], rank) {
      forall i, j | 0 <= i < j < |teams[k]| ensures rank(teams[k][i]) != rank(teams[k][j]) {
        assert teams[k][i] in all && teams[k][j] in all;
      }
    }
    if !AllDone(After(Start(teams, rank), schedule)) {
      var c := AlwaysAnEnabledStep(teams, rank, schedule);
    }
  }

  // ---- A team named twice ------------------------------------------------------------------------

  /** The sorted order repeats a team that the call repeats. */
  lemma RepetitionIsSorted(teams: seq<Team>, rank: Team -> int)
    requires !Distinct(teams)
    ensures !Distinct(SortByDirectory(teams, rank))
  {
    var order := SortByDirectory(teams, rank);
    Sorts(teams, rank);
    if Distinct(order) { TieMoves(order, teams, t => t); }
  }

  /** A call that names any team twice never reaches its body, under any schedule: it queues behind
      itself. */
  lemma {:induction false} RepeatedTeamNeverRuns(teams: seq<seq<Team>>, rank: Team -> int, schedule: seq<Id>, c: Id)
    requires c < |teams| && !Distinct(teams[c])
    ensures var s := After(Start(teams, rank), schedule);
      |s.calls| == |teams| && (s.calls[c].phase.Idle? || s.calls[c].phase.Waiting?)
  {
    InvHolds(teams, rank, schedule);
    if schedule != [] {
      var n := |schedule| - 1;
      RepeatedTeamNeverRuns(teams, rank, schedule[..n], c);
      OrderStays(teams, rank, schedule, c);
      RepetitionIsSorted(teams[c], rank);
      var s := After(Start(teams, rank), schedule);
      OnlyRunningFollows(After(Start(teams, rank), schedule[..n]), schedule[n], c);
      if s.calls[c].phase.Running? { RunningIsDistinct(s, c); }
    }
  }

  lemma OnlyRunningFollows(s: State, c: Id, d: Id)
    requires d < |s.calls| && (s.calls[d].phase.Idle? || s.calls[d].phase.Waiting?)
    ensures |Step(s, c).calls| == |s.calls|
    ensures var ph := Step(s, c).calls[d].phase; ph.Idle? || ph.Waiting? || ph.Running?
  {
  }

  lemma RunningIsDistinct(s: State, c: Id)
    requires Inv(s) && c < |s.calls| && s.calls[c].phase.Running?
    ensures Distinct(s.calls[c].order)
  {
    assert HoldsHeads(s, c);
    var order := s.calls[c].order;
    forall i, j | 0 <= i < j < |order| ensures order[i] != order[j] {
      assert Heads(s, order[i], Ticket(c, i)) && Heads(s, order[j], Ticket(c, j));
    }
  }

  /** Keep taking steps until no call can. */
  lemma RunToRest(s: State) returns (schedule: seq<Id>)
    ensures forall c :: 0 <= c < |After(s, schedule).calls| ==> !Enabled(After(s, schedule), c)
    decreases TotalLeft(s.calls)
  {
    if c: Id :| c < |s.calls| && Enabled(s, c) {
      StepsRunOut(s, c);
      var rest := RunToRest(Step(s, c));
      AfterFirst(s, c, rest);
      schedule := [c] + rest;
    } else {
      schedule := [];
    }
  }

  lemma {:induction false} AfterFirst(s: State, c: Id, rest: seq<Id>)
    ensures After(s, [c] + rest) == After(Step(s, c), rest)
    decreases |rest|
  {
    hide Step;
    if rest == [] {
      assert [c] + rest == [c] && [c][..0] == [];
      assert After(s, [c]) == Step(After(s, []), c);
    } else {
      var n := |rest| - 1;
      AfterFirst(s, c, rest[..n]);
      assert ([c] + rest)[..n + 1] == [c] + rest[..n];
    }
  }

  /** So any set of calls one of which names a team twice runs into a deadlock. */
  lemma RepeatedTeamDeadlocks(teams: seq<seq<Team>>, rank: Team -> int, c: Id) returns (schedule: seq<Id>)
    requires c < |teams| && !Distinct(teams[c])
    ensures Deadlocked(After(Start(teams, rank), schedule))
  {
    schedule := RunToRest(Start(teams, rank));
    RepeatedTeamNeverRuns(teams, rank, schedule, c);
    assert !After(Start(teams, rank), schedule).calls[c].phase.Done?;
  }
}
