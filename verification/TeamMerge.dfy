/** Merging two processes' views of a team's state: scalar fields, the member list, and the
    active run with its message and token counters. */
module TeamMerge {
  import opened Json
  import opened ThreeWayMerge
  import opened Options

  datatype Member = Member(name: string, fields: map<string, Json>)

  /** The persisted part of a team.  `scalars` holds every key but `members` and `activeTask`. */
  datatype TeamState = TeamState(scalars: map<string, Json>, members: seq<Member>, activeTask: Json)

  // ---- Scalar fields --------------------------------------------------------------------

  /** A caller that cleared the run owner does not overrule another process that has since set
      one: `runnerPid` is a fencing token. */
  predicate KeepsDiskOwner(key: string, d: Json, a: Json, c: Json) {
    key == "runnerPid" && c == Undef && d != Undef && !JEq(d, a)
  }

  predicate CallerWrites(d: map<string, Json>, a: map<string, Json>, c: map<string, Json>, key: string) {
    && key in c
    && !JEq(c[key], Get(a, key))
    && !KeepsDiskOwner(key, Get(d, key), Get(a, key), c[key])
  }

  /** Only keys the caller's object still has are looked at. */
  function MergeScalars(d: map<string, Json>, a: map<string, Json>, c: map<string, Json>): map<string, Json> {
    map key | key in d.Keys + c.Keys && (key in d || CallerWrites(d, a, c, key)) ::
      if CallerWrites(d, a, c, key) then c[key] else d[key]
  }

  lemma MergedScalar(d: map<string, Json>, a: map<string, Json>, c: map<string, Json>, key: string)
    ensures Get(MergeScalars(d, a, c), key) == if CallerWrites(d, a, c, key) then c[key] else Get(d, key)
    ensures var changed := key in c && !JEq(c[key], Get(a, key));
      var fenced := key == "runnerPid" && Get(c, key) == Undef && Get(d, key) != Undef && !JEq(Get(d, key), Get(a, key));
      Get(MergeScalars(d, a, c), key) == if changed && !fenced then c[key] else Get(d, key)
  {
    assert CallerWrites(d, a, c, key) ==> key in c;
  }

  // ---- Members --------------------------------------------------------------------------

  /** The set of member names. */
  function Names(ms: seq<Member>): set<string> {
    set m | m in ms :: m.name
  }

  predicate UniqueNames(ms: seq<Member>) {
    forall i, j :: 0 <= i < j < |ms| ==> ms[i].name != ms[j].name
  }

  /** `list.find(m => m.name === name)` */
  function First(ms: seq<Member>, name: string): (r: Option<Member>)
    ensures r.Some? <==> name in Names(ms)
    ensures r.Some? ==> r.value in ms && r.value.name == name
  {
    if ms == [] then None
    else if ms[0].name == name then Some(ms[0])
    else
      assert ms == [ms[0]] + ms[1..];
      First(ms[1..], name)
  }

  /** `new Map(list.map(m => [m.name, m])).get(name)`: the last entry wins. */
  function Last(ms: seq<Member>, name: string): (r: Option<Member>)
    ensures r.Some? <==> name in Names(ms)
    ensures r.Some? ==> r.value in ms && r.value.name == name
  {
    if ms == [] then None
    else if ms[|ms| - 1].name == name then Some(ms[|ms| - 1])
    else
      assert ms == ms[..|ms| - 1] + [ms[|ms| - 1]];
      Last(ms[..|ms| - 1], name)
  }

  /** Field-level merge of one member: disk, overridden by what the caller changed. */
  function MergeFields(d: map<string, Json>, a: map<string, Json>, c: map<string, Json>): map<string, Json> {
    map key | key in d.Keys + c.Keys && (key in d || !JEq(c[key], Get(a, key))) ::
      if key in c && !JEq(c[key], Get(a, key)) then c[key] else d[key]
  }

  function MergeMember(disk: seq<Member>, ancestor: seq<Member>, current: seq<Member>, name: string): (r: Option<Member>)
    ensures r.Some? ==> r.value.name == name
  {
    var a, c, d := Last(ancestor, name), Last(current, name), First(disk, name);
    if c.None? then
      // The caller removed it, or another process added it.
      if a.Some? then None else d
    else if d.None? then
      // Another process removed it, or the caller added it.
      if a.Some? then None else c
    else if a.None? then c
    else Some(Member(name, MergeFields(d.value.fields, a.value.fields, c.value.fields)))
  }

  /** Insertion order of a JavaScript Set. */
  function Distinct(names: seq<string>): (r: seq<string>)
    ensures forall n :: n in r <==> n in names
    ensures forall i, j :: 0 <= i < j < |r| ==> r[i] != r[j]
  {
    if names == [] then []
    else
      var init, last := names[..|names| - 1], names[|names| - 1];
      assert names == init + [last];
      if last in init then Distinct(init) else Distinct(init) + [last]
  }

  function NameList(ms: seq<Member>): (r: seq<string>)
    ensures forall n :: n in r <==> n in Names(ms)
  {
    var r := seq(|ms|, i requires 0 <= i < |ms| => ms[i].name);
    assert forall n :: n in r ==> exists i :: 0 <= i < |ms| && ms[i].name == n;
    assert forall i :: 0 <= i < |ms| ==> ms[i].name == r[i];
    r
  }

  function Collect(names: seq<string>, disk: seq<Member>, ancestor: seq<Member>, current: seq<Member>): seq<Member>
  {
    if names == [] then []
    else
      var rest := Collect(names[1..], disk, ancestor, current);
      match MergeMember(disk, ancestor, current, names[0])
      case None => rest
      case Some(m) => [m] + rest
  }

  function MergeMembers(disk: seq<Member>, ancestor: seq<Member>, current: seq<Member>): seq<Member> {
    Collect(Distinct(NameList(disk) + NameList(current)), disk, ancestor, current)
  }

  lemma UniqueCons(m: Member, ms: seq<Member>)
    requires UniqueNames(ms) && forall x :: x in ms ==> x.name != m.name
    ensures UniqueNames([m] + ms)
  {
  }

  lemma {:induction false} Collected(names: seq<string>, disk: seq<Member>, ancestor: seq<Member>, current: seq<Member>)
    requires forall i, j :: 0 <= i < j < |names| ==> names[i] != names[j]
    ensures var r := Collect(names, disk, ancestor, current);
      && UniqueNames(r)
      && (forall m :: m in r <==> m.name in names && MergeMember(disk, ancestor, current, m.name) == Some(m))
  {
    if names != [] {
      Collected(names[1..], disk, ancestor, current);
      assert names == [names[0]] + names[1..];
      hide MergeMember, UniqueNames;
      var rest, first := Collect(names[1..], disk, ancestor, current), MergeMember(disk, ancestor, current, names[0]);
      if first.Some? {
        UniqueCons(first.value, rest);
        assert Collect(names, disk, ancestor, current) == [first.value] + rest;
      }
    }
  }

  lemma MemberSurvives(disk: seq<Member>, ancestor: seq<Member>, current: seq<Member>, n: string)
    ensures var D, A, C := Names(disk), Names(ancestor), Names(current);
      n in D + C && MergeMember(disk, ancestor, current, n).Some? <==> n in (D * C) + ((D + C) - A)
  {
  }

  /** Which members survive a merge: those both sides have, and those one side has that the
      caller's last view of disk did not.  A concurrent add is kept, a removal by either side is
      honoured, and no name appears twice. */
  lemma Membership(disk: seq<Member>, ancestor: seq<Member>, current: seq<Member>)
    ensures var D, A, C, M := Names(disk), Names(ancestor), Names(current), MergeMembers(disk, ancestor, current);
      && Names(M) == (D * C) + ((D + C) - A)
      && UniqueNames(M)
  {
    var names := Distinct(NameList(disk) + NameList(current));
    var M := MergeMembers(disk, ancestor, current);
    Collected(names, disk, ancestor, current);
    hide MergeMember, Distinct, NameList, Collect;
    forall n ensures n in Names(M) <==> n in Names(disk) + Names(current) && MergeMember(disk, ancestor, current, n).Some? {
      if n in names && MergeMember(disk, ancestor, current, n).Some? {
        assert MergeMember(disk, ancestor, current, n).value in M;
      }
    }
    forall n ensures n in Names(M) <==> n in (Names(disk) * Names(current)) + ((Names(disk) + Names(current)) - Names(ancestor)) {
      MemberSurvives(disk, ancestor, current, n);
    }
  }

  /** Where a name first stands. */
  function FirstAt(names: seq<string>, n: string): (i: nat)
    requires n in names
    ensures i < |names| && names[i] == n && n !in names[..i]
  {
    if names[0] == n then 0 else FirstAt(names[1..], n) + 1
  }

  lemma FirstAtIs(names: seq<string>, n: string, i: nat)
    requires i < |names| && names[i] == n && n !in names[..i]
    ensures FirstAt(names, n) == i
  {
    var f := FirstAt(names, n);
    forall j | 0 <= j < i ensures names[j] != n { assert names[..i][j] == names[j]; }
    forall j | 0 <= j < f ensures names[j] != n { assert names[..f][j] == names[j]; }
  }

  /** The members `ms` stand in the order in which their names first appear. */
  ghost predicate InOrderOf(names: seq<string>, ms: seq<string>) {
    && (forall n :: n in ms ==> n in names)
    && forall i, j :: 0 <= i < j < |ms| ==> FirstAt(names, ms[i]) < FirstAt(names, ms[j])
  }

  lemma {:induction false} DistinctInOrder(names: seq<string>)
    ensures InOrderOf(names, Distinct(names))
  {
    if names != [] {
      var init, last := names[..|names| - 1], names[|names| - 1];
      DistinctInOrder(init);
      assert names == init + [last];
      var d := Distinct(init);
      forall n | n in init ensures FirstAt(names, n) == FirstAt(init, n) {
        assert names[..FirstAt(init, n)] == init[..FirstAt(init, n)];
        FirstAtIs(names, n, FirstAt(init, n));
      }
      if last !in init {
        assert names[..|init|] == init;
        FirstAtIs(names, last, |init|);
      }
    }
  }

  function NamesInOrder(ms: seq<Member>): seq<string> {
    seq(|ms|, i requires 0 <= i < |ms| => ms[i].name)
  }

  lemma InOrderCons(all: seq<string>, n: string, ns: seq<string>)
    requires InOrderOf(all, ns) && n in all && forall x :: x in ns ==> x in all && FirstAt(all, n) < FirstAt(all, x)
    ensures InOrderOf(all, [n] + ns)
  {
  }

  lemma InOrderTail(all: seq<string>, ns: seq<string>)
    requires InOrderOf(all, ns) && ns != []
    ensures InOrderOf(all, ns[1..]) && forall x :: x in ns[1..] ==> FirstAt(all, ns[0]) < FirstAt(all, x)
  {
    forall x | x in ns[1..] ensures FirstAt(all, ns[0]) < FirstAt(all, x) {
      var k :| 0 <= k < |ns[1..]| && ns[1..][k] == x;
      assert ns[k + 1] == x;
    }
  }

  lemma {:induction false} CollectInOrder(all: seq<string>, names: seq<string>, disk: seq<Member>, ancestor: seq<Member>, current: seq<Member>)
    requires InOrderOf(all, names)
    ensures var ns := NamesInOrder(Collect(names, disk, ancestor, current));
      InOrderOf(all, ns) && forall n :: n in ns ==> n in names
  {
    if names != [] {
      var rest := Collect(names[1..], disk, ancestor, current);
      assert names == [names[0]] + names[1..];
      InOrderTail(all, names);
      CollectInOrder(all, names[1..], disk, ancestor, current);
      assert names[0] in all && forall x :: x in names[1..] ==> x in all;
      hide InOrderOf, FirstAt, MergeMember;
      if MergeMember(disk, ancestor, current, names[0]).Some? {
        InOrderCons(all, names[0], NamesInOrder(rest));
        assert NamesInOrder(Collect(names, disk, ancestor, current)) == [names[0]] + NamesInOrder(rest);
      }
    }
  }

  /** The merged members stand in disk's order, those only the caller has after them in the caller's. */
  lemma MembersInOrder(disk: seq<Member>, ancestor: seq<Member>, current: seq<Member>)
    ensures InOrderOf(NamesInOrder(disk) + NamesInOrder(current), NamesInOrder(MergeMembers(disk, ancestor, current)))
  {
    var all := NamesInOrder(disk) + NamesInOrder(current);
    assert all == NameList(disk) + NameList(current);
    DistinctInOrder(all);
    CollectInOrder(all, Distinct(all), disk, ancestor, current);
  }

  /** The merged record of a name, read field by field. */
  lemma MergedMember(disk: seq<Member>, ancestor: seq<Member>, current: seq<Member>, name: string)
    ensures First(MergeMembers(disk, ancestor, current), name) == MergeMember(disk, ancestor, current, name)
    ensures var d, a, c := First(disk, name), Last(ancestor, name), Last(current, name);
      d.Some? && a.Some? && c.Some? ==>
        var r := MergeMember(disk, ancestor, current, name).value.fields;
        forall k :: Get(r, k) == if k in c.value.fields && !JEq(c.value.fields[k], Get(a.value.fields, k))
                                 then c.value.fields[k] else Get(d.value.fields, k)
    ensures var r, d, a, c := First(MergeMembers(disk, ancestor, current), name), First(disk, name), Last(ancestor, name), Last(current, name);
      && (a.None? && c.Some? ==> r == c) && (a.None? && c.None? ==> r == d)
      && (a.Some? && (c.None? || d.None?) ==> r.None?) && (r.Some? ==> r.value.name == name)
  {
    var names := Distinct(NameList(disk) + NameList(current));
    var M := MergeMembers(disk, ancestor, current);
    Collected(names, disk, ancestor, current);
    var r := MergeMember(disk, ancestor, current, name);
    if r.Some? {
      assert r.value in M;
      assert First(M, name).value == r.value;
    }
  }

  // ---- The active run -------------------------------------------------------------------

  /** `j?.[key]` */
  function Field(j: Json, key: string): Json {
    if j.Obj? then Get(j.fields, key) else Undef
  }

  /** Disk belongs to a run neither the caller nor its last view of disk knows about. */
  predicate ForeignRun(d: Json, a: Json, c: Json) {
    && d != Undef
    && Field(d, "runId") != Undef
    && !JEq(Field(d, "runId"), Field(c, "runId"))
    && !JEq(Field(d, "runId"), Field(a, "runId"))
  }

  function Max(x: int, y: int): int { if x >= y then x else y }

  function NumOrZero(j: Json): int {
    if j.Num? then j.n else 0
  }

  /** `Object.values(map).reduce((a, b) => a + b, 0)` */
  ghost function Total(m: map<string, Json>): int
    decreases |m|
  {
    if m == map[] then 0
    else
      var k :| k in m;
      NumOrZero(m[k]) + Total(m - {k})
  }

  lemma {:induction false} TotalRemove(m: map<string, Json>, k: string)
    requires k in m
    ensures Total(m) == NumOrZero(m[k]) + Total(m - {k})
    decreases |m|
  {
    var p :| p in m && Total(m) == NumOrZero(m[p]) + Total(m - {p});
    if p != k {
      TotalRemove(m - {p}, k);
      TotalRemove(m - {k}, p);
      assert m - {p} - {k} == m - {k} - {p};
    }
  }

  /** The caller's signed change to the message counter, applied to the latest disk value. */
  function MergedCount(d: Json, a: Json, c: Json): int
    requires d.Num? && c.Num?
  {
    Max(0, d.n + (c.n - NumOrZero(a)))
  }

  function WithCount(m: map<string, Json>, d: Json, a: Json, c: Json): map<string, Json> {
    if Field(d, "messagesSent").Num? && Field(c, "messagesSent").Num? then
      m["messagesSent" := Num(MergedCount(Field(d, "messagesSent"), Field(a, "messagesSent"), Field(c, "messagesSent")))]
    else m
  }

  predicate Truthy(j: Json) {
    && j != Undef && j != Null && j != Bool(false) && j != Num(0) && j != Str("")
  }

  /** Token totals are recomputed from the merged per-member map. */
  ghost function WithTokens(m: map<string, Json>, d: Json, c: Json): map<string, Json> {
    var dt, ct, per := Field(d, "tokensUsed"), Field(c, "tokensUsed"), Get(m, "tokensByMember");
    if !(dt.Num? && ct.Num?) then m
    else if Truthy(per) then m["tokensUsed" := Num(Max(0, if per.Obj? then Total(per.fields) else 0))]
    else m["tokensUsed" := Num(Max(dt.n, ct.n))]
  }

  ghost function MergeRun(d: Json, a: Json, c: Json): Json {
    if ForeignRun(d, a, c) then d
    else
      var m := Merge(d, a, c);
      if m.Obj? && c.Obj? && d.Obj? then
        Obj(WithTokens(WithCount(m.fields, d, a, c), d, c))
      else m
  }

  ghost function MergeTeamState(d: TeamState, a: TeamState, c: TeamState): TeamState {
    TeamState(
      MergeScalars(d.scalars, a.scalars, c.scalars),
      MergeMembers(d.members, a.members, c.members),
      MergeRun(d.activeTask, a.activeTask, c.activeTask))
  }

  /** The merge as the store runs it: the token total is accumulated in a loop. */
  method ComputeMerge(d: TeamState, a: TeamState, c: TeamState) returns (merged: TeamState)
    ensures merged == MergeTeamState(d, a, c)
  {
    var run := d.activeTask;
    if !ForeignRun(d.activeTask, a.activeTask, c.activeTask) {
      run := Merge(d.activeTask, a.activeTask, c.activeTask);
      if run.Obj? && c.activeTask.Obj? && d.activeTask.Obj? {
        var m := WithCount(run.fields, d.activeTask, a.activeTask, c.activeTask);
        var dt, ct := Field(d.activeTask, "tokensUsed"), Field(c.activeTask, "tokensUsed");
        if dt.Num? && ct.Num? {
          var per := Get(m, "tokensByMember");
          if Truthy(per) {
            var total := 0;
            if per.Obj? {
              total := SumTokens(per.fields);
            }
            m := m["tokensUsed" := Num(Max(0, total))];
          } else {
            m := m["tokensUsed" := Num(Max(dt.n, ct.n))];
          }
        }
        run := Obj(m);
      }
    }
    merged := TeamState(
      MergeScalars(d.scalars, a.scalars, c.scalars),
      MergeMembers(d.members, a.members, c.members),
      run);
  }

  method SumTokens(tokens: map<string, Json>) returns (total: int)
    ensures total == Total(tokens)
  {
    total := 0;
    var rest := tokens;
    while rest != map[]
      invariant total + Total(rest) == Total(tokens)
      decreases |rest|
    {
      var k :| k in rest;
      TotalRemove(rest, k);
      total := total + NumOrZero(rest[k]);
      rest := rest - {k};
    }
  }

  // ---- What the merged run guarantees ------------------------------------------------------

  /** Disk's run is the caller's, or the one of its last view, or has no id. */
  predicate KnownRun(d: Json, a: Json, c: Json) {
    var run := Field(d, "runId");
    run == Undef || Norm(run) == Norm(Field(c, "runId")) || Norm(run) == Norm(Field(a, "runId"))
  }

  /** A stale writer cannot touch, mix into or clear a run that started after its last load. */
  lemma StaleWriterFenced(d: TeamState, a: TeamState, c: TeamState)
    requires !KnownRun(d.activeTask, a.activeTask, c.activeTask)
    ensures MergeTeamState(d, a, c).activeTask == d.activeTask
  {
  }

  /** All three sides are on the same run. */
  predicate OnRun(j: Json, run: Json) {
    j.Obj? && run != Undef && Get(j.fields, "runId") == run && Get(j.fields, "messagesSent").Num?
  }

  /** On one run the merge stays on that run, and the counter moves by exactly the caller's
      change unless that would make it negative. */
  lemma MergedCounter(d: Json, a: Json, c: Json, run: Json)
    requires OnRun(d, run) && OnRun(a, run) && OnRun(c, run)
    ensures OnRun(MergeRun(d, a, c), run)
    ensures Get(MergeRun(d, a, c).fields, "messagesSent").n
         == Max(0, d.fields["messagesSent"].n + (c.fields["messagesSent"].n - a.fields["messagesSent"].n))
  {
    MergeGet(d.fields, a.fields, c.fields, "runId");
  }

  /** Concurrent writers that track different members are all counted: the stored total is the sum over
      the merged per-member map where there is one, and else the larger of the two totals. */
  lemma MergedTokens(d: Json, a: Json, c: Json)
    requires d.Obj? && c.Obj? && KnownRun(d, a, c)
    requires Field(d, "tokensUsed").Num? && Field(c, "tokensUsed").Num?
    ensures var merged := MergeRun(d, a, c);
      var per := Field(merged, "tokensByMember");
      && (per.Obj? ==> Field(merged, "tokensUsed") == Num(Max(0, Total(per.fields))))
      && (!Truthy(per) ==> Field(merged, "tokensUsed") == Num(Max(d.fields["tokensUsed"].n, c.fields["tokensUsed"].n)))
  {
    assert Merge(d, a, c).Obj?;
  }

  /** A counter that both sides hold is combined, not chosen. */
  predicate Combined(x: map<string, Json>, y: map<string, Json>, k: string) {
    k in {"messagesSent", "tokensUsed"} && Get(x, k).Num? && Get(y, k).Num?
  }

  /** What the counters do to any map they are written into. */
  lemma CountersAt(m: map<string, Json>, x: map<string, Json>, a: Json, y: map<string, Json>, k: string)
    ensures var r := WithTokens(WithCount(m, Obj(x), a, Obj(y)), Obj(x), Obj(y));
      && (!Combined(x, y, k) ==> Get(r, k) == Get(m, k))
      && (k == "messagesSent" && Combined(x, y, k) ==> Get(r, k) == Num(MergedCount(Get(x, k), Field(a, k), Get(y, k))))
  {
    hide Total, Truthy, MergedCount;
    var counted := WithCount(m, Obj(x), a, Obj(y));
    assert k != "messagesSent" ==> Get(counted, k) == Get(m, k);
    assert Field(Obj(x), "messagesSent") == Get(x, "messagesSent") && Field(Obj(y), "messagesSent") == Get(y, "messagesSent");
    assert k != "tokensUsed" ==> Get(WithTokens(counted, Obj(x), Obj(y)), k) == Get(counted, k);
  }

  /** The counter whenever both sides hold one: the caller's change since the ancestor, counted from zero where
      the ancestor has none, is added to disk's. */
  lemma CountedFromAncestor(d: Json, a: Json, c: Json)
    requires d.Obj? && c.Obj? && KnownRun(d, a, c)
    requires Field(d, "messagesSent").Num? && Field(c, "messagesSent").Num?
    ensures var raw := d.fields["messagesSent"].n + c.fields["messagesSent"].n
                       - (if Field(a, "messagesSent").Num? then Field(a, "messagesSent").n else 0);
      Field(MergeRun(d, a, c), "messagesSent") == Num(if raw < 0 then 0 else raw)
  {
    CountersAt(Merge(d, a, c).fields, d.fields, a, c.fields, "messagesSent");
  }

  /** Below a key that is not a combined counter the run is merged like any tree. */
  lemma RunMergedBelow(d: Json, a: Json, c: Json, path: seq<Step>)
    requires KnownRun(d, a, c) && path != [] && path[0].Key?
    requires d.Obj? && c.Obj? ==> !Combined(d.fields, c.fields, path[0].k)
    ensures At(MergeRun(d, a, c), path) == At(Merge(d, a, c), path)
  {
    var m := Merge(d, a, c);
    if m.Obj? && c.Obj? && d.Obj? {
      CountersAt(m.fields, d.fields, a, c.fields, path[0].k);
    }
  }

  /** In a run both sides know, the caller's changes win over disk's, at every path but the combined
      counters. */
  lemma CallerWinsInRun(d: Json, a: Json, c: Json, path: seq<Step>)
    requires KnownRun(d, a, c) && path != [] && path[0].Key?
    requires d.Obj? && c.Obj? ==> !Combined(d.fields, c.fields, path[0].k)
    requires !JEq(At(c, path), At(a, path)) && !Descends(At(d, path), At(a, path), At(c, path))
    ensures At(MergeRun(d, a, c), path) == At(c, path)
  {
    RunMergedBelow(d, a, c, path);
    CallerWinsAt(d, a, c, path);
  }

  /** And where the merge looks and the caller changed nothing, disk's value stays. */
  lemma DiskStaysInRun(d: Json, a: Json, c: Json, path: seq<Step>)
    requires KnownRun(d, a, c) && path != [] && path[0].Key?
    requires d.Obj? && c.Obj? ==> !Combined(d.fields, c.fields, path[0].k)
    requires Reached(d, a, c, path) && JEq(At(c, path), At(a, path))
    ensures At(MergeRun(d, a, c), path) == At(d, path)
  {
    RunMergedBelow(d, a, c, path);
    DiskStaysAt(d, a, c, path);
  }

  /** A process that did not touch the owner, or only cleared it, never erases an owner that
      another process has recorded since. */
  lemma OwnerKept(d: map<string, Json>, a: map<string, Json>, c: map<string, Json>)
    requires Get(d, "runnerPid") != Undef && !JEq(Get(d, "runnerPid"), Get(a, "runnerPid"))
    requires Get(c, "runnerPid") == Undef || JEq(Get(c, "runnerPid"), Get(a, "runnerPid"))
    ensures Get(MergeScalars(d, a, c), "runnerPid") == d["runnerPid"]
  {
    MergedScalar(d, a, c, "runnerPid");
  }
}
