/** Two processes changed one team state from the same ancestor.  Whether the merge of both depends on
    which of them is on disk and which is saving. */
module TeamConvergence {
  import opened Json
  import opened Options
  import opened ThreeWayMerge
  import opened TeamMerge
  import opened TeamStore

  // ---- Scalars -------------------------------------------------------------------------------

  /** At this key the sides read the same, or exactly one of them, saving, would write it. */
  predicate ScalarConverges(x: map<string, Json>, a: map<string, Json>, y: map<string, Json>, k: string) {
    JEq(Get(x, k), Get(y, k)) || CallerWrites(x, a, y, k) != CallerWrites(y, a, x, k)
  }

  lemma ScalarsConvergence(x: map<string, Json>, a: map<string, Json>, y: map<string, Json>)
    ensures ScalarsAgree(MergeScalars(x, a, y), MergeScalars(y, a, x), {}) <==> forall k :: ScalarConverges(x, a, y, k)
  {
    forall k
      ensures JEq(Get(MergeScalars(x, a, y), k), Get(MergeScalars(y, a, x), k)) <==> ScalarConverges(x, a, y, k)
    {
      MergedScalar(x, a, y, k);
      MergedScalar(y, a, x, k);
    }
  }

  // ---- Members -------------------------------------------------------------------------------

  predicate Changed(c: map<string, Json>, a: map<string, Json>, k: string) {
    k in c && !JEq(c[k], Get(a, k))
  }

  /** Of a member both sides have: without an ancestor the records read the same; else at every key the
      sides read the same or exactly one changed it. */
  ghost predicate MemberConverges(x: seq<Member>, a: seq<Member>, y: seq<Member>, n: string)
    requires n in Names(x) && n in Names(y)
  {
    var p, q := First(x, n).value.fields, First(y, n).value.fields;
    if n !in Names(a) then JEq(Obj(p), Obj(q))
    else
      var r := First(a, n).value.fields;
      forall k :: JEq(Get(p, k), Get(q, k)) || Changed(p, r, k) != Changed(q, r, k)
  }

  ghost predicate MembersConverge(x: seq<Member>, a: seq<Member>, y: seq<Member>) {
    forall n :: n in Names(x) && n in Names(y) ==> MemberConverges(x, a, y, n)
  }

  /** A name one side lacks is merged the same in both directions. */
  lemma OneSidedMember(x: seq<Member>, a: seq<Member>, y: seq<Member>, n: string)
    requires UniqueNames(x) && UniqueNames(a) && UniqueNames(y) && (n !in Names(x) || n !in Names(y))
    ensures MergeMember(x, a, y, n) == MergeMember(y, a, x, n)
  {
    LastIsFirst(x, n);
    LastIsFirst(y, n);
  }

  /** What a merge of two changed records reads at each key. */
  lemma FieldsConvergence(p: map<string, Json>, r: map<string, Json>, q: map<string, Json>)
    ensures JEq(Obj(MergeFields(p, r, q)), Obj(MergeFields(q, r, p)))
       <==> forall k :: JEq(Get(p, k), Get(q, k)) || Changed(p, r, k) != Changed(q, r, k)
  {
    var m, w := MergeFields(p, r, q), MergeFields(q, r, p);
    ObjJEq(m, w);
    hide JEq;
    forall k
      ensures Get(m, k) == if Changed(q, r, k) then Get(q, k) else Get(p, k)
      ensures Get(w, k) == if Changed(p, r, k) then Get(p, k) else Get(q, k)
    {
      assert Changed(q, r, k) ==> k in q;
      assert Changed(p, r, k) ==> k in p;
    }
    forall k
      ensures JEq(Get(m, k), Get(w, k)) <==> JEq(Get(p, k), Get(q, k)) || Changed(p, r, k) != Changed(q, r, k)
    {
      JEqLaws(Get(p, k), Get(q, k));
    }
  }

  lemma JEqLaws(x: Json, y: Json)
    ensures JEq(x, x) && JEq(y, y) && (JEq(x, y) <==> JEq(y, x))
  {
  }

  lemma TwoSidedMember(x: seq<Member>, a: seq<Member>, y: seq<Member>, n: string)
    requires UniqueNames(x) && UniqueNames(a) && UniqueNames(y) && n in Names(x) && n in Names(y)
    ensures MergeMember(x, a, y, n).Some? && MergeMember(y, a, x, n).Some?
    ensures JEq(Obj(MergeMember(x, a, y, n).value.fields), Obj(MergeMember(y, a, x, n).value.fields))
       <==> MemberConverges(x, a, y, n)
  {
    LastIsFirst(x, n);
    LastIsFirst(a, n);
    LastIsFirst(y, n);
    hide MergeFields, Names, UniqueNames, JEq, First, Last;
    var p, q := First(x, n).value.fields, First(y, n).value.fields;
    if n in Names(a) {
      FieldsConvergence(p, First(a, n).value.fields, q);
    } else {
      JEqLaws(Obj(p), Obj(q));
    }
  }

  lemma MembersConvergence(x: seq<Member>, a: seq<Member>, y: seq<Member>)
    requires UniqueNames(x) && UniqueNames(a) && UniqueNames(y)
    ensures MembersAgree(MergeMembers(x, a, y), MergeMembers(y, a, x)) <==> MembersConverge(x, a, y)
  {
    var m, w := MergeMembers(x, a, y), MergeMembers(y, a, x);
    Membership(x, a, y);
    Membership(y, a, x);
    assert Names(m) == Names(w);
    forall n | n in Names(m)
      ensures JEq(Obj(First(m, n).value.fields), Obj(First(w, n).value.fields))
         <==> (n in Names(x) && n in Names(y) ==> MemberConverges(x, a, y, n))
    {
      MergedMember(x, a, y, n);
      MergedMember(y, a, x, n);
      if n in Names(x) && n in Names(y) { TwoSidedMember(x, a, y, n); } else { OneSidedMember(x, a, y, n); }
    }
  }

  // ---- The run -------------------------------------------------------------------------------

  ghost predicate RunConverges(x: map<string, Json>, a: map<string, Json>, y: map<string, Json>) {
    forall k :: Combined(x, y, k) || NoConflict(Get(x, k), Get(a, k), Get(y, k))
  }

  predicate SameRun(x: map<string, Json>, a: map<string, Json>, y: map<string, Json>) {
    JEq(Get(x, "runId"), Get(a, "runId")) && JEq(Get(y, "runId"), Get(a, "runId"))
  }

  lemma MergedRunShape(x: map<string, Json>, a: map<string, Json>, y: map<string, Json>)
    requires SameRun(x, a, y)
    ensures Merge(Obj(x), Obj(a), Obj(y)).Obj?
    ensures MergeRun(Obj(x), Obj(a), Obj(y))
         == Obj(WithTokens(WithCount(Merge(Obj(x), Obj(a), Obj(y)).fields, Obj(x), Obj(a), Obj(y)), Obj(x), Obj(y)))
  {
    hide WithTokens, WithCount;
    assert !ForeignRun(Obj(x), Obj(a), Obj(y));
  }

  /** The merged run, key by key. */
  lemma MergedRunKey(x: map<string, Json>, a: map<string, Json>, y: map<string, Json>, k: string)
    requires SameRun(x, a, y)
    ensures MergeRun(Obj(x), Obj(a), Obj(y)).Obj?
    ensures !Combined(x, y, k) ==> Get(MergeRun(Obj(x), Obj(a), Obj(y)).fields, k) == Merge(Get(x, k), Get(a, k), Get(y, k))
    ensures k == "messagesSent" && Combined(x, y, k) ==>
      Get(MergeRun(Obj(x), Obj(a), Obj(y)).fields, k) == Num(MergedCount(Get(x, k), Get(a, k), Get(y, k)))
  {
    MergedRunShape(x, a, y);
    MergedKey(x, a, y, k);
    CountersAt(Merge(Obj(x), Obj(a), Obj(y)).fields, x, Obj(a), y, k);
    hide Merge, JEq, MergeRun, WithTokens, WithCount, Combined;
  }

  lemma MergedRunTotal(x: map<string, Json>, a: map<string, Json>, y: map<string, Json>)
    requires SameRun(x, a, y) && Combined(x, y, "tokensUsed")
    ensures MergeRun(Obj(x), Obj(a), Obj(y)).Obj?
    ensures var per := Merge(Get(x, "tokensByMember"), Get(a, "tokensByMember"), Get(y, "tokensByMember"));
      Get(MergeRun(Obj(x), Obj(a), Obj(y)).fields, "tokensUsed")
      == Num(if Truthy(per) then Max(0, if per.Obj? then Total(per.fields) else 0)
             else Max(x["tokensUsed"].n, y["tokensUsed"].n))
  {
    MergedRunShape(x, a, y);
    MergedKey(x, a, y, "tokensByMember");
    hide Merge, JEq, MergeRun, Total, Truthy;
  }

  lemma KeyConvergence(x: map<string, Json>, a: map<string, Json>, y: map<string, Json>, k: string)
    requires SameRun(x, a, y) && !Combined(x, y, k)
    ensures MergeRun(Obj(x), Obj(a), Obj(y)).Obj? && MergeRun(Obj(y), Obj(a), Obj(x)).Obj?
    ensures JEq(Get(MergeRun(Obj(x), Obj(a), Obj(y)).fields, k), Get(MergeRun(Obj(y), Obj(a), Obj(x)).fields, k))
       <==> NoConflict(Get(x, k), Get(a, k), Get(y, k))
  {
    MergedRunKey(x, a, y, k);
    MergedRunKey(y, a, x, k);
    Convergence(Get(x, k), Get(a, k), Get(y, k));
  }

  /** Combined counters come out the same, as long as the per-member counts do. */
  lemma CounterConvergence(x: map<string, Json>, a: map<string, Json>, y: map<string, Json>, k: string)
    requires SameRun(x, a, y) && Combined(x, y, k)
    requires NoConflict(Get(x, "tokensByMember"), Get(a, "tokensByMember"), Get(y, "tokensByMember"))
    ensures MergeRun(Obj(x), Obj(a), Obj(y)).Obj? && MergeRun(Obj(y), Obj(a), Obj(x)).Obj?
    ensures JEq(Get(MergeRun(Obj(x), Obj(a), Obj(y)).fields, k), Get(MergeRun(Obj(y), Obj(a), Obj(x)).fields, k))
  {
    var p, q, r := Get(x, "tokensByMember"), Get(a, "tokensByMember"), Get(y, "tokensByMember");
    if k == "messagesSent" {
      MergedRunKey(x, a, y, k);
      MergedRunKey(y, a, x, k);
    } else {
      MergedRunTotal(x, a, y);
      MergedRunTotal(y, a, x);
      Convergence(p, q, r);
      SameTotals(Merge(p, q, r), Merge(r, q, p));
    }
  }

  lemma RunConvergence(x: map<string, Json>, a: map<string, Json>, y: map<string, Json>)
    requires SameRun(x, a, y)
    ensures JEq(MergeRun(Obj(x), Obj(a), Obj(y)), MergeRun(Obj(y), Obj(a), Obj(x))) <==> RunConverges(x, a, y)
  {
    KeyConvergence(x, a, y, "tokensByMember");
    var m, w := MergeRun(Obj(x), Obj(a), Obj(y)).fields, MergeRun(Obj(y), Obj(a), Obj(x)).fields;
    ObjJEq(m, w);
    forall k | !Combined(x, y, k)
      ensures JEq(Get(m, k), Get(w, k)) <==> NoConflict(Get(x, k), Get(a, k), Get(y, k))
    {
      KeyConvergence(x, a, y, k);
    }
    if RunConverges(x, a, y) {
      assert !Combined(x, y, "tokensByMember");
      forall k | Combined(x, y, k) ensures JEq(Get(m, k), Get(w, k)) { CounterConvergence(x, a, y, k); }
    }
  }

  // ---- The whole state -----------------------------------------------------------------------

  /** No side has a run, or all three are on one. */
  predicate OneRun(x: TeamState, a: TeamState, y: TeamState) {
    || (x.activeTask == a.activeTask == y.activeTask == Undef)
    || (x.activeTask.Obj? && a.activeTask.Obj? && y.activeTask.Obj?
        && SameRun(x.activeTask.fields, a.activeTask.fields, y.activeTask.fields))
  }

  ghost predicate StatesAgree(s: TeamState, t: TeamState) {
    && ScalarsAgree(s.scalars, t.scalars, {})
    && MembersAgree(s.members, t.members)
    && JEq(s.activeTask, t.activeTask)
  }

  ghost predicate StatesConverge(x: TeamState, a: TeamState, y: TeamState) {
    && (forall k :: ScalarConverges(x.scalars, a.scalars, y.scalars, k))
    && MembersConverge(x.members, a.members, y.members)
    && (x.activeTask.Obj? && a.activeTask.Obj? && y.activeTask.Obj?
        ==> RunConverges(x.activeTask.fields, a.activeTask.fields, y.activeTask.fields))
  }

  /** Two states with one ancestor, on one run: it does not matter which is merged into which exactly when
      they do not conflict, key by key and path by path.  Concurrent adds and removals of members, message
      counts and token totals never conflict. */
  lemma StateConvergence(x: TeamState, a: TeamState, y: TeamState)
    requires WellFormed(x) && WellFormed(a) && WellFormed(y) && OneRun(x, a, y)
    ensures StatesAgree(MergeTeamState(x, a, y), MergeTeamState(y, a, x)) <==> StatesConverge(x, a, y)
  {
    ScalarsConvergence(x.scalars, a.scalars, y.scalars);
    MembersConvergence(x.members, a.members, y.members);
    if x.activeTask.Obj? {
      RunConvergence(x.activeTask.fields, a.activeTask.fields, y.activeTask.fields);
    }
  }

  /** Two processes that each started a run from one ancestor: the fence keeps whichever is on disk. */
  lemma TwoNewRunsDisagree(x: TeamState, a: TeamState, y: TeamState)
    requires ForeignRun(x.activeTask, a.activeTask, y.activeTask) && ForeignRun(y.activeTask, a.activeTask, x.activeTask)
    ensures MergeTeamState(x, a, y).activeTask == x.activeTask
    ensures MergeTeamState(y, a, x).activeTask == y.activeTask
    ensures !StatesAgree(MergeTeamState(x, a, y), MergeTeamState(y, a, x))
  {
    ObjJEq(x.activeTask.fields, y.activeTask.fields);
    assert !JEq(Get(x.activeTask.fields, "runId"), Get(y.activeTask.fields, "runId"));
  }
}
