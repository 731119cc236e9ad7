/** Saving a live team to state.json and refreshing it from there.  Both merge under the state
    lock and then push the merged result back into the live object in place. */
module TeamStore {
  import opened Json
  import opened ThreeWayMerge
  import opened TeamMerge
  import Utf8
  import opened Options

  const STATE_CAP: nat := 1_048_576
  const RESPONSE_CAP: nat := 32_768

  /** Keys that saving never copies back into the live team. */
  const IDENTITY: set<string> := {"version", "teamRunId", "teamName", "leadSessionId"}

  /** The spawn guard survives a reload that does not mention it. */
  const SPAWN_GUARD: set<string> := {"spawning", "spawningOwner"}

  /** A runtime field of the live run that a reload never touches. */
  const FORCED: string := "forcedDirectTaskIds"

  datatype DiskState = Missing | Corrupt | Good(state: TeamState)

  datatype SaveResult = Skipped | Tombstoned | MarkerFailed | ReadFailed | Recreated | TooLarge | WriteFailed | Saved

  /** What the file system answers during one save; `markerFails` when a deletion marker cannot be read or a
      stale one cannot be removed. */
  datatype SaveEnv = SaveEnv(markerFails: bool, readable: bool, writable: bool)

  /** The size of a serialized state, and a text as UTF-8 bytes and back. */
  datatype Encoding = Encoding(
    stateBytes: TeamState -> nat, bytes: string -> seq<Utf8.Byte>, text: seq<Utf8.Byte> -> string)

  /** `JSON.parse(JSON.stringify(x))` */
  function CloneFields(m: map<string, Json>): map<string, Json> {
    Norm(Obj(m)).fields
  }

  function CloneMembers(ms: seq<Member>): seq<Member> {
    seq(|ms|, i requires 0 <= i < |ms| => Member(ms[i].name, CloneFields(ms[i].fields)))
  }

  function CloneState(s: TeamState): TeamState {
    TeamState(CloneFields(s.scalars), CloneMembers(s.members), Norm(s.activeTask))
  }

  predicate ParsedState(s: TeamState) {
    && Parsed(Obj(s.scalars))
    && (forall m :: m in s.members ==> Parsed(Obj(m.fields)))
    && Parsed(s.activeTask)
  }

  /** The shape every load validates and every caller keeps. */
  predicate WellFormed(s: TeamState) {
    UniqueNames(s.members) && (s.activeTask == Undef || s.activeTask.Obj?)
  }

  lemma CloneIsParsed(s: TeamState)
    ensures ParsedState(CloneState(s))
    ensures WellFormed(s) ==> WellFormed(CloneState(s))
  {
    NormIdempotent(Obj(s.scalars));
    NormIdempotent(s.activeTask);
    var c := CloneMembers(s.members);
    forall m | m in c ensures Parsed(Obj(m.fields)) {
      var i :| 0 <= i < |c| && c[i] == m;
      NormIdempotent(Obj(s.members[i].fields));
    }
  }

  // ---- In-place synchronization -----------------------------------------------------------

  /** Delete the keys `merged` lacks, then assign a clone of it.  Cloning drops explicit
      `undefined`, so such a key keeps whatever the live object holds. */
  function SyncFields(live: map<string, Json>, merged: map<string, Json>): map<string, Json> {
    map k | k in merged && (merged[k] != Undef || k in live) ::
      if merged[k] != Undef then Norm(merged[k]) else live[k]
  }

  /** An explicit `undefined` in the merge stands where the live object reads `undefined` too. */
  predicate ClearsOnlyCleared(live: map<string, Json>, merged: map<string, Json>) {
    forall k :: k in merged && merged[k] == Undef ==> Get(live, k) == Undef
  }

  lemma SyncedFields(live: map<string, Json>, merged: map<string, Json>)
    requires ClearsOnlyCleared(live, merged)
    ensures JEq(Obj(SyncFields(live, merged)), Obj(merged))
  {
    forall k ensures JEq(Get(SyncFields(live, merged), k), Get(merged, k)) {
      if k in merged && merged[k] != Undef {
        NormIdempotent(merged[k]);
      }
    }
    ObjJEq(SyncFields(live, merged), merged);
  }

  lemma CloneJEq(m: map<string, Json>)
    ensures JEq(Obj(CloneFields(m)), Obj(m))
  {
    NormIdempotent(Obj(m));
  }

  /** Explicit `undefined` enters a merge only from the caller's side. */
  lemma {:induction false} UndefFromCaller(d: Json, a: Json, c: Json)
    requires Parsed(d) && c.Obj? && Merge(d, a, c).Obj?
    ensures ClearsOnlyCleared(c.fields, Merge(d, a, c).fields)
  {
    var m := Merge(d, a, c).fields;
    forall k | k in m && m[k] == Undef ensures Get(c.fields, k) == Undef {
      if d.Obj? {
        ParsedObj(d.fields);
        if a.Obj? {
          MergeGet(d.fields, a.fields, c.fields, k);
        }
      }
    }
  }

  lemma MemberUndefFromCaller(disk: seq<Member>, ancestor: seq<Member>, current: seq<Member>, name: string)
    requires forall m :: m in disk ==> Parsed(Obj(m.fields))
    requires Last(current, name).Some? && MergeMember(disk, ancestor, current, name).Some?
    ensures ClearsOnlyCleared(Last(current, name).value.fields,
                              MergeMember(disk, ancestor, current, name).value.fields)
  {
    var d, a, c := First(disk, name), Last(ancestor, name), Last(current, name);
    if d.Some? && a.Some? {
      ParsedObj(d.value.fields);
      MergedMember(disk, ancestor, current, name);
    }
  }

  /** The record a live list holds for a name (names are unique in a live list). */
  function FieldsOf(ms: seq<Member>, name: string): Option<map<string, Json>> {
    var r := First(ms, name);
    if r.Some? then Some(r.value.fields) else None
  }

  /** What a list looks like after its records were synchronized with `merged`. */
  ghost predicate MembersSynced(before: seq<Member>, merged: seq<Member>, after: seq<Member>) {
    && UniqueNames(after)
    && Names(after) == Names(merged)
    && forall m :: m in merged ==>
         FieldsOf(after, m.name) == Some(
           var live := FieldsOf(before, m.name);
           if live.Some? then SyncFields(live.value, m.fields) else CloneFields(m.fields))
  }

  lemma FieldsAt(ms: seq<Member>, i: nat)
    requires UniqueNames(ms) && i < |ms|
    ensures FieldsOf(ms, ms[i].name) == Some(ms[i].fields)
  {
    var r := First(ms, ms[i].name).value;
    assert ms[i] in ms;
    var j :| 0 <= j < |ms| && ms[j] == r;
  }

  lemma LastIsFirst(ms: seq<Member>, name: string)
    requires UniqueNames(ms)
    ensures Last(ms, name) == First(ms, name)
  {
    var f, l := First(ms, name), Last(ms, name);
    if f.Some? {
      var i :| 0 <= i < |ms| && ms[i] == f.value;
      var j :| 0 <= j < |ms| && ms[j] == l.value;
    }
  }

  // ---- Agreement between live, snapshot and disk --------------------------------------------

  ghost predicate ScalarsAgree(live: map<string, Json>, stored: map<string, Json>, except: set<string>) {
    forall k :: k !in except ==> JEq(Get(live, k), Get(stored, k))
  }

  ghost predicate MembersAgree(live: seq<Member>, stored: seq<Member>) {
    && Names(live) == Names(stored)
    && forall n :: n in Names(live) ==> JEq(Obj(First(live, n).value.fields), Obj(First(stored, n).value.fields))
  }

  lemma CloneMembersAgree(ms: seq<Member>)
    requires UniqueNames(ms)
    ensures MembersAgree(ms, CloneMembers(ms))
    ensures UniqueNames(CloneMembers(ms))
  {
    var c := CloneMembers(ms);
    forall n ensures n in Names(ms) <==> n in Names(c) {
      if n in Names(ms) {
        var i :| 0 <= i < |ms| && ms[i].name == n;
        assert c[i].name == n && c[i] in c;
      }
      if n in Names(c) {
        var i :| 0 <= i < |c| && c[i].name == n;
        assert ms[i].name == n && ms[i] in ms;
      }
    }
    forall n | n in Names(ms) ensures JEq(Obj(First(ms, n).value.fields), Obj(First(c, n).value.fields)) {
      var i :| 0 <= i < |ms| && ms[i].name == n;
      FieldsAt(ms, i);
      FieldsAt(c, i);
      CloneJEq(ms[i].fields);
    }
  }

  lemma MembersAgreeTrans(x: seq<Member>, y: seq<Member>, z: seq<Member>)
    requires MembersAgree(x, y) && MembersAgree(y, z)
    ensures MembersAgree(x, z)
  {
  }

  /** Synchronizing with a merge of which the live list was the caller's side makes them agree. */
  lemma SyncedMembersAgree(live: seq<Member>, merged: seq<Member>, after: seq<Member>)
    requires MembersSynced(live, merged, after) && UniqueNames(merged)
    requires forall m :: m in merged && FieldsOf(live, m.name).Some?
               ==> ClearsOnlyCleared(FieldsOf(live, m.name).value, m.fields)
    ensures MembersAgree(after, merged)
  {
    forall n | n in Names(after) ensures JEq(Obj(First(after, n).value.fields), Obj(First(merged, n).value.fields)) {
      var m := First(merged, n).value;
      assert FieldsOf(after, m.name).value == First(after, n).value.fields;
      var l := FieldsOf(live, n);
      if l.Some? {
        SyncedFields(l.value, m.fields);
      } else {
        CloneJEq(m.fields);
      }
    }
  }

  lemma MergedClears(disk: seq<Member>, ancestor: seq<Member>, current: seq<Member>)
    requires forall m :: m in disk ==> Parsed(Obj(m.fields))
    requires UniqueNames(current)
    ensures var merged := MergeMembers(disk, ancestor, current);
      && UniqueNames(merged)
      && forall m :: m in merged && FieldsOf(current, m.name).Some?
           ==> ClearsOnlyCleared(FieldsOf(current, m.name).value, m.fields)
  {
    var merged := MergeMembers(disk, ancestor, current);
    Membership(disk, ancestor, current);
    forall m | m in merged && FieldsOf(current, m.name).Some?
      ensures ClearsOnlyCleared(FieldsOf(current, m.name).value, m.fields)
    {
      var i :| 0 <= i < |merged| && merged[i] == m;
      FieldsAt(merged, i);
      MergedMember(disk, ancestor, current, m.name);
      LastIsFirst(current, m.name);
      MemberUndefFromCaller(disk, ancestor, current, m.name);
    }
  }

  /** The nested maps of a run hold explicit `undefined` only where the live run reads it. */
  predicate NestedClears(live: map<string, Json>, merged: map<string, Json>) {
    forall k :: k in merged && k in live && merged[k].Obj? && live[k].Obj?
      ==> ClearsOnlyCleared(live[k].fields, merged[k].fields)
  }

  /** A merged run has the shape of a run, and clears nothing the caller did not clear. */
  lemma MergedRunClears(d: Json, a: Json, c: Json)
    requires Parsed(d)
    requires d == Undef || d.Obj?
    requires c == Undef || c.Obj?
    ensures var m := MergeRun(d, a, c);
      && (m == Undef || m.Obj?)
      && (m.Obj? && c.Obj? ==> NestedClears(c.fields, m.fields) && ClearsOnlyCleared(c.fields, m.fields))
  {
    hide Norm;
    var m := MergeRun(d, a, c);
    if m.Obj? && c.Obj? {
      if ForeignRun(d, a, c) {
        ParsedClears(c.fields, d.fields);
      } else {
        RawClears(d, a, c);
        var raw := Merge(d, a, c).fields;
        forall k | k in m.fields && (m.fields[k] == Undef || m.fields[k].Obj?)
          ensures k in raw && raw[k] == m.fields[k]
        {
        }
      }
    }
  }

  lemma RawClears(d: Json, a: Json, c: Json)
    requires Parsed(d) && c.Obj? && Merge(d, a, c).Obj?
    ensures NestedClears(c.fields, Merge(d, a, c).fields) && ClearsOnlyCleared(c.fields, Merge(d, a, c).fields)
  {
    UndefFromCaller(d, a, c);
    var raw := Merge(d, a, c).fields;
    if d.Obj? && a.Obj? {
      ParsedObj(d.fields);
      forall k | k in raw && k in c.fields && raw[k].Obj? && c.fields[k].Obj?
        ensures ClearsOnlyCleared(c.fields[k].fields, raw[k].fields)
      {
        MergeGet(d.fields, a.fields, c.fields, k);
        if JEq(c.fields[k], Get(a.fields, k)) {
          ParsedClears(c.fields[k].fields, d.fields[k].fields);
        } else {
          UndefFromCaller(Get(d.fields, k), Get(a.fields, k), c.fields[k]);
        }
      }
    } else if JEq(c, a) {
      ParsedClears(c.fields, raw);
    }
  }

  lemma ParsedClears(live: map<string, Json>, merged: map<string, Json>)
    requires Parsed(Obj(merged))
    ensures ClearsOnlyCleared(live, merged) && NestedClears(live, merged)
  {
    ParsedObj(merged);
    forall k | k in merged && k in live && merged[k].Obj? && live[k].Obj?
      ensures ClearsOnlyCleared(live[k].fields, merged[k].fields)
    {
      ParsedObj(merged[k].fields);
    }
  }

  lemma MergedScalarsClear(d: map<string, Json>, a: map<string, Json>, c: map<string, Json>)
    requires Parsed(Obj(d))
    ensures ClearsOnlyCleared(c, MergeScalars(d, a, c))
  {
    ParsedObj(d);
    forall k | k in MergeScalars(d, a, c) && MergeScalars(d, a, c)[k] == Undef ensures Get(c, k) == Undef {
      MergedScalar(d, a, c, k);
    }
  }

  // ---- What a save stores ------------------------------------------------------------------

  /** What is kept of a text over the cap. */
  function CutText(s: string, enc: Encoding): string
    requires |enc.bytes(s)| > RESPONSE_CAP
  {
    enc.text(enc.bytes(s)[..Utf8.CutEnd(enc.bytes(s), RESPONSE_CAP)])
  }

  function TrimValue(j: Json, enc: Encoding): Json {
    if j.Str? && |enc.bytes(j.s)| > RESPONSE_CAP
    then Str(CutText(j.s, enc) + "\n[...truncated by state size cap]") else j
  }

  /** Responses over the cap are cut; everything else stays. */
  function TrimResponses(rs: map<string, Json>, enc: Encoding): map<string, Json> {
    map k | k in rs :: TrimValue(rs[k], enc)
  }

  /** Encoding gives valid UTF-8, and valid UTF-8 survives decoding. */
  ghost predicate Faithful(enc: Encoding) {
    && (forall s :: Utf8.Valid(enc.bytes(s)))
    && (forall b :: Utf8.Valid(b) ==> enc.bytes(enc.text(b)) == b)
  }

  /** A cut text is the longest whole-character prefix of the original within the cap, at most three
      bytes shorter than the cap. */
  lemma CutTextIsLongestPrefix(s: string, enc: Encoding)
    requires Faithful(enc) && |enc.bytes(s)| > RESPONSE_CAP
    ensures var kept := enc.bytes(CutText(s, enc));
      && kept <= enc.bytes(s) && RESPONSE_CAP - 3 <= |kept| <= RESPONSE_CAP
      && forall p :: |kept| < p <= RESPONSE_CAP ==> !Utf8.Valid(enc.bytes(s)[..p])
  {
    Utf8.CutIsLongestPrefix(enc.bytes(s), RESPONSE_CAP);
  }

  /** The loop over the responses. */
  method CutResponses(rs: map<string, Json>, enc: Encoding) returns (cut: map<string, Json>)
    ensures cut == TrimResponses(rs, enc)
  {
    cut := rs;
    var rest := rs.Keys;
    while rest != {}
      invariant rest <= rs.Keys && cut.Keys == rs.Keys
      invariant forall k :: k in rs ==> cut[k] == if k in rest then rs[k] else TrimValue(rs[k], enc)
      decreases |rest|
    {
      var k :| k in rest;
      if rs[k].Str? {
        var buf := enc.bytes(rs[k].s);
        if |buf| > RESPONSE_CAP {
          var end := Utf8.CutBytes(buf, RESPONSE_CAP);
          cut := cut[k := Str(enc.text(buf[..end]) + "\n[...truncated by state size cap]")];
        }
      }
      rest := rest - {k};
    }
  }

  function Trim(s: TeamState, enc: Encoding): TeamState {
    if Field(s.activeTask, "responses").Obj? then
      s.(activeTask := Obj(s.activeTask.fields[
        "responses" := Obj(TrimResponses(s.activeTask.fields["responses"].fields, enc))]))
    else s
  }

  /** The longest prefix of whole characters within the limit. */
  ghost predicate LongestPrefix(kept: seq<Utf8.Byte>, whole: seq<Utf8.Byte>, limit: nat) {
    && Utf8.Valid(kept) && kept <= whole && |kept| <= limit
    && forall p :: |kept| < p <= limit && p <= |whole| ==> !Utf8.Valid(whole[..p])
  }

  /** What a response becomes: one over the cap the longest prefix within it and a marker; any other stays. */
  ghost predicate CutResponse(was: Json, now: Json, enc: Encoding) {
    if was.Str? && |enc.bytes(was.s)| > RESPONSE_CAP
    then exists kept :: LongestPrefix(kept, enc.bytes(was.s), RESPONSE_CAP)
                        && now == Str(enc.text(kept) + "\n[...truncated by state size cap]")
    else now == was
  }

  /** Trimming cuts the long responses of the run and touches nothing else. */
  lemma TrimmedState(s: TeamState, enc: Encoding, k: string)
    requires Faithful(enc)
    ensures Trim(s, enc).scalars == s.scalars && Trim(s, enc).members == s.members
    ensures k != "responses" ==> Field(Trim(s, enc).activeTask, k) == Field(s.activeTask, k)
    ensures var was, now := Field(s.activeTask, "responses"), Field(Trim(s, enc).activeTask, "responses");
      && now.Obj? == was.Obj? && (!was.Obj? ==> now == was)
      && (was.Obj? ==> now.fields.Keys == was.fields.Keys && CutResponse(Get(was.fields, k), Get(now.fields, k), enc))
  {
    var was := Field(Field(s.activeTask, "responses"), k);
    if was.Str? && |enc.bytes(was.s)| > RESPONSE_CAP {
      var whole := enc.bytes(was.s);
      Utf8.CutIsLongestPrefix(whole, RESPONSE_CAP);
      assert LongestPrefix(whole[..Utf8.CutEnd(whole, RESPONSE_CAP)], whole, RESPONSE_CAP);
    }
  }

  lemma TrimmedResponsesAreParsed(rs: map<string, Json>, enc: Encoding)
    requires Parsed(Obj(rs))
    ensures Parsed(Obj(TrimResponses(rs, enc)))
  {
    ParsedObj(rs);
    assert Norm(Obj(TrimResponses(rs, enc))).fields == TrimResponses(rs, enc);
  }

  lemma UpdatedIsParsed(m: map<string, Json>, k: string, v: Json)
    requires Parsed(Obj(m)) && Parsed(v) && v != Undef
    ensures Parsed(Obj(m[k := v]))
  {
    ParsedObj(m);
    assert Norm(Obj(m[k := v])).fields == m[k := v];
  }

  lemma TrimmedIsParsed(s: TeamState, enc: Encoding)
    requires ParsedState(s) && WellFormed(s)
    ensures ParsedState(Trim(s, enc)) && WellFormed(Trim(s, enc))
  {
    if Field(s.activeTask, "responses").Obj? {
      ParsedObj(s.activeTask.fields);
      hide Norm, TrimResponses;
      var rs := s.activeTask.fields["responses"].fields;
      TrimmedResponsesAreParsed(rs, enc);
      UpdatedIsParsed(s.activeTask.fields, "responses", Obj(TrimResponses(rs, enc)));
    }
  }

  /** Another process wrote since our last load or save. */
  predicate DiskChanged(disk: DiskState, snapshot: Option<TeamState>) {
    disk.Good? && snapshot.Some? && CloneState(disk.state) != CloneState(snapshot.value)
  }

  ghost function SaveTarget(disk: DiskState, snapshot: Option<TeamState>, live: TeamState): TeamState {
    if disk.Good? && snapshot.Some? then MergeTeamState(disk.state, snapshot.value, live) else live
  }

  ghost function Stored(target: TeamState, enc: Encoding): TeamState {
    if enc.stateBytes(target) > STATE_CAP then Trim(CloneState(target), enc) else CloneState(target)
  }

  /** The team is not deleted, neither here nor by a marker of this very team. */
  predicate Alive(deleted: bool, marker: Option<Json>, live: TeamState) {
    !deleted && marker != Some(Get(live.scalars, "teamRunId"))
  }

  predicate SameTeam(disk: DiskState, live: TeamState) {
    disk.Good? ==> Get(disk.state.scalars, "teamRunId") == Get(live.scalars, "teamRunId")
  }

  /** Nothing keeps the save from merging. */
  predicate Mergeable(deleted: bool, marker: Option<Json>, disk: DiskState, snapshot: Option<TeamState>, live: TeamState,
                      env: SaveEnv) {
    && Alive(deleted, marker, live) && !env.markerFails
    && (snapshot.Some? ==> env.readable && SameTeam(disk, live))
  }

  /** The state is within the size cap, as it is or with its long responses cut. */
  predicate Fits(target: TeamState, enc: Encoding) {
    enc.stateBytes(target) <= STATE_CAP || enc.stateBytes(Trim(CloneState(target), enc)) <= STATE_CAP
  }

  /** What writing a target leaves behind. */
  ghost predicate WriteEffect(target: TeamState, changed: bool, live: TeamState, enc: Encoding,
                              stored: TeamState, live': TeamState) {
    // Disk and snapshot hold the target, and never more than the reader accepts.
    && stored == Stored(target, enc)
    && (enc.stateBytes(target) <= STATE_CAP || enc.stateBytes(stored) <= STATE_CAP)
    // The live team follows: always in its scalars, elsewhere when another process wrote.
    && ScalarsAgree(live'.scalars, stored.scalars, IDENTITY)
    && (forall k :: k in IDENTITY ==> Get(live'.scalars, k) == Get(live.scalars, k))
    && (if changed
        then MembersAgree(live'.members, stored.members) && JEq(live'.activeTask, stored.activeTask)
        else live'.members == live.members && live'.activeTask == live.activeTask)
  }

  /** What a completed save leaves behind: the merge. */
  ghost predicate SaveEffect(disk: DiskState, snapshot: Option<TeamState>, live: TeamState, enc: Encoding,
                             stored: TeamState, live': TeamState) {
    WriteEffect(SaveTarget(disk, snapshot, live), DiskChanged(disk, snapshot), live, enc, stored, live')
  }

  /** What a reload leaves behind: the live team shows the merge of disk with its own unsaved
      changes.  The spawn guard and one runtime field of the run are kept. */
  ghost predicate ReloadEffect(disk: TeamState, ancestor: TeamState, live: TeamState, live': TeamState) {
    var merged := MergeTeamState(disk, ancestor, live);
    && ScalarsAgree(live'.scalars, merged.scalars, SPAWN_GUARD)
    && (forall k :: k in SPAWN_GUARD ==>
          JEq(Get(live'.scalars, k), if Get(merged.scalars, k) != Undef then merged.scalars[k] else Get(live.scalars, k)))
    && MembersAgree(live'.members, merged.members)
    && (live'.activeTask == Undef <==> merged.activeTask == Undef)
    && (forall k :: k != FORCED ==> JEq(Field(live'.activeTask, k), Field(merged.activeTask, k)))
    && (merged.activeTask != Undef && Field(live.activeTask, FORCED) != Undef
        ==> Field(live'.activeTask, FORCED) == Field(live.activeTask, FORCED))
    && (Field(live.activeTask, FORCED) == Undef
        ==> JEq(Field(live'.activeTask, FORCED), Field(merged.activeTask, FORCED)))
  }

  // ---- What the methods below leave behind ---------------------------------------------------

  /** `{ ...j }` of a plain object, or of nothing. */
  function Spread(j: Json): Json {
    if j.Obj? then j else Obj(map[])
  }

  function LastMode(run: Json, now: int): Json {
    Obj(map[
      "type" := Field(run, "type"),
      "mode" := Field(run, "mode"),
      "finishedAt" := Num(now),
      "tokensUsed" := Field(run, "tokensUsed"),
      "tokensByMember" := Spread(Field(run, "tokensByMember")),
      "runId" := Field(run, "runId")])
  }

  lemma LastModeFields(run: Json, now: int)
    ensures LastMode(run, now).Obj? && Get(LastMode(run, now).fields, "finishedAt") == Num(now)
    ensures Get(LastMode(run, now).fields, "tokensByMember") == Spread(Field(run, "tokensByMember"))
    ensures forall k :: k in {"type", "mode", "tokensUsed", "runId"} ==>
      Get(LastMode(run, now).fields, k) == Field(run, k)
  {
  }

  function Synced(live: Option<map<string, Json>>, merged: map<string, Json>): map<string, Json> {
    if live.Some? then SyncFields(live.value, merged) else CloneFields(merged)
  }

  function Keep(ms: seq<Member>, merged: seq<Member>): seq<Member> {
    if ms == [] then []
    else (if ms[0].name in Names(merged) then [ms[0]] else []) + Keep(ms[1..], merged)
  }

  lemma KeepNone(before: seq<Member>, merged: seq<Member>)
    ensures before[..|before|] + Keep(before[|before|..], merged) == before
  {
  }

  /** Splicing out the member at `i`, or leaving it, before a tail that is already filtered. */
  lemma KeepOne(before: seq<Member>, i: nat, merged: seq<Member>)
    requires i < |before|
    ensures var now := before[..i + 1] + Keep(before[i + 1..], merged);
      && now[i] == before[i]
      && (before[i].name in Names(merged) ==> now == before[..i] + Keep(before[i..], merged))
      && (before[i].name !in Names(merged) ==> now[..i] + now[i + 1..] == before[..i] + Keep(before[i..], merged))
  {
    hide Names;
    var rest := Keep(before[i + 1..], merged);
    assert before[i..] == [before[i]] + before[i + 1..];
    assert Keep(before[i..], merged) == if before[i].name in Names(merged) then [before[i]] + rest else rest;
    assert before[..i + 1] == before[..i] + [before[i]];
  }

  ghost predicate Upserted(was: seq<Member>, m: Member, now: seq<Member>) {
    && UniqueNames(now)
    && Names(now) == Names(was) + {m.name}
    && FieldsOf(now, m.name) == Some(Synced(FieldsOf(was, m.name), m.fields))
    && forall n :: n != m.name ==> FieldsOf(now, n) == FieldsOf(was, n)
  }

  ghost predicate SyncedSoFar(before: seq<Member>, kept: seq<Member>, merged: seq<Member>, i: nat, now: seq<Member>)
    requires i <= |merged|
  {
    && UniqueNames(now)
    && Names(now) == Names(kept) + Names(merged[..i])
    && (forall n :: n !in Names(merged[..i]) ==> FieldsOf(now, n) == FieldsOf(kept, n))
    && (forall m :: m in merged[..i] ==> FieldsOf(now, m.name) == Some(Synced(FieldsOf(before, m.name), m.fields)))
  }

  lemma SyncedStep(before: seq<Member>, kept: seq<Member>, merged: seq<Member>, i: nat, was: seq<Member>, now: seq<Member>)
    requires i < |merged| && UniqueNames(merged)
    requires SyncedSoFar(before, kept, merged, i, was) && Upserted(was, merged[i], now)
    requires FieldsOf(kept, merged[i].name) == FieldsOf(before, merged[i].name)
    ensures SyncedSoFar(before, kept, merged, i + 1, now)
  {
    hide FieldsOf, Synced;
    assert merged[..i + 1] == merged[..i] + [merged[i]];
    forall m | m in merged[..i] ensures m.name != merged[i].name {
    }
  }

  lemma {:induction false} KeptMember(before: seq<Member>, merged: seq<Member>, m: Member)
    ensures m in Keep(before, merged) <==> m in before && m.name in Names(merged)
  {
    if before != [] { KeptMember(before[1..], merged, m); }
  }

  lemma {:induction false} KeptUnique(before: seq<Member>, merged: seq<Member>)
    requires UniqueNames(before)
    ensures UniqueNames(Keep(before, merged))
  {
    if before != [] {
      var rest := Keep(before[1..], merged);
      KeptUnique(before[1..], merged);
      forall m | m in rest ensures m.name != before[0].name {
        KeptMember(before[1..], merged, m);
        var k :| 0 <= k < |before[1..]| && before[1..][k] == m;
        assert before[k + 1] == m;
      }
      assert Keep(before, merged) == rest || Keep(before, merged) == [before[0]] + rest;
    }
  }

  lemma {:induction false} KeptRecord(before: seq<Member>, merged: seq<Member>, n: string)
    requires n in Names(merged)
    ensures FieldsOf(Keep(before, merged), n) == FieldsOf(before, n)
  {
    if before != [] {
      hide Names;
      var rest := Keep(before[1..], merged);
      KeptRecord(before[1..], merged, n);
      if before[0].name in Names(merged) {
        assert Keep(before, merged) == [before[0]] + rest;
        assert ([before[0]] + rest)[1..] == rest;
      } else {
        assert Keep(before, merged) == rest;
      }
    }
  }

  /** Filtering keeps the records, and only drops names the merge does not have. */
  lemma KeptFields(before: seq<Member>, merged: seq<Member>)
    requires UniqueNames(before)
    ensures var kept := Keep(before, merged);
      && UniqueNames(kept)
      && (forall m :: m in kept <==> m in before && m.name in Names(merged))
      && (forall n :: n in Names(merged) ==> FieldsOf(kept, n) == FieldsOf(before, n))
  {
    hide Names, FieldsOf, UniqueNames;
    KeptUnique(before, merged);
    forall m ensures m in Keep(before, merged) <==> m in before && m.name in Names(merged) { KeptMember(before, merged, m); }
    forall n | n in Names(merged) ensures FieldsOf(Keep(before, merged), n) == FieldsOf(before, n) { KeptRecord(before, merged, n); }
  }

  lemma ReplacedFields(ms: seq<Member>, at: nat, name: string, fields: map<string, Json>)
    requires UniqueNames(ms) && at < |ms| && ms[at].name == name
    ensures var r := ms[at := Member(name, fields)];
      && UniqueNames(r) && Names(r) == Names(ms) && FieldsOf(r, name) == Some(fields)
      && forall n :: n != name ==> FieldsOf(r, n) == FieldsOf(ms, n)
  {
    var r := ms[at := Member(name, fields)];
    forall n ensures n in Names(r) <==> n in Names(ms) {
      if n in Names(ms) {
        var i :| 0 <= i < |ms| && ms[i].name == n;
        assert r[i].name == n && r[i] in r;
      }
      if n in Names(r) {
        var i :| 0 <= i < |r| && r[i].name == n;
        assert ms[i].name == n && ms[i] in ms;
      }
    }
    FieldsAt(r, at);
    forall n | n != name ensures FieldsOf(r, n) == FieldsOf(ms, n) {
      if n in Names(ms) {
        var i :| 0 <= i < |ms| && ms[i].name == n;
        FieldsAt(ms, i);
        FieldsAt(r, i);
      }
    }
  }

  lemma AppendedFields(ms: seq<Member>, name: string, fields: map<string, Json>)
    requires UniqueNames(ms) && name !in Names(ms)
    ensures var r := ms + [Member(name, fields)];
      && UniqueNames(r) && Names(r) == Names(ms) + {name} && FieldsOf(r, name) == Some(fields)
      && forall n :: n != name ==> FieldsOf(r, n) == FieldsOf(ms, n)
  {
    var r := ms + [Member(name, fields)];
    forall i | 0 <= i < |ms| ensures ms[i].name != name { assert ms[i] in ms; }
    FieldsAt(r, |ms|);
    forall n | n != name ensures FieldsOf(r, n) == FieldsOf(ms, n) {
      if n in Names(ms) {
        var i :| 0 <= i < |ms| && ms[i].name == n;
        FieldsAt(ms, i);
        FieldsAt(r, i);
      }
    }
  }

  /** Everything the synchronization needs to know about a merge target. */
  predicate Clears(live: TeamState, target: TeamState) {
    && (forall m :: m in target.members && FieldsOf(live.members, m.name).Some?
          ==> ClearsOnlyCleared(FieldsOf(live.members, m.name).value, m.fields))
    && (live.activeTask.Obj? && target.activeTask.Obj? ==>
          NestedClears(live.activeTask.fields, target.activeTask.fields))
  }

  lemma TargetShape(disk: TeamState, ancestor: TeamState, live: TeamState)
    requires WellFormed(disk) && ParsedState(disk) && WellFormed(live)
    ensures WellFormed(MergeTeamState(disk, ancestor, live))
    ensures Clears(live, MergeTeamState(disk, ancestor, live))
  {
    MergedClears(disk.members, ancestor.members, live.members);
    MergedRunClears(disk.activeTask, ancestor.activeTask, live.activeTask);
  }

  lemma ParsedTargetClears(live: TeamState, target: TeamState)
    requires ParsedState(target)
    ensures Clears(live, target)
  {
    forall m | m in target.members && FieldsOf(live.members, m.name).Some?
      ensures ClearsOnlyCleared(FieldsOf(live.members, m.name).value, m.fields)
    {
      ParsedClears(FieldsOf(live.members, m.name).value, m.fields);
    }
    if live.activeTask.Obj? && target.activeTask.Obj? {
      ParsedClears(live.activeTask.fields, target.activeTask.fields);
    }
  }

  /** What is written for a state, within the size cap. */
  method Serialize(target: TeamState, enc: Encoding) returns (fits: bool, stored: TeamState)
    requires WellFormed(target)
    ensures fits <==> Fits(target, enc)
    ensures fits ==> stored == Stored(target, enc) && WellFormed(stored) && ParsedState(stored)
  {
    CloneIsParsed(target);
    stored := CloneState(target);
    if enc.stateBytes(target) <= STATE_CAP { return true, stored; }
    TrimmedIsParsed(stored, enc);
    if Field(stored.activeTask, "responses").Obj? {
      var responses := CutResponses(stored.activeTask.fields["responses"].fields, enc);
      stored := stored.(activeTask := Obj(stored.activeTask.fields["responses" := Obj(responses)]));
    }
    fits := enc.stateBytes(stored) <= STATE_CAP;
  }

  // ---- state.json and the live team ---------------------------------------------------------

  /** state.json, and beside the team's directory the marker of a deleted team: the team run it was deleted
      in. */
  class StateFile {
    var content: DiskState
    var marker: Option<Json>

    constructor (content: DiskState, marker: Option<Json>)
      ensures this.content == content && this.marker == marker
    {
      this.content, this.marker := content, marker;
    }
  }

  class Team {
    var scalars: map<string, Json>
    var members: seq<Member>
    var activeTask: Json
    var snapshot: Option<TeamState>
    var deleted: bool

    /** The persisted fields (`stripRuntimeFields`). */
    function State(): TeamState
      reads this
    {
      TeamState(scalars, members, activeTask)
    }

    predicate Valid()
      reads this
    {
      && WellFormed(State())
      && (snapshot.Some? ==> WellFormed(snapshot.value) && ParsedState(snapshot.value))
    }

    constructor (state: TeamState)
      requires WellFormed(state) && ParsedState(state)
      ensures Valid() && State() == state && snapshot == Some(state) && !deleted
    {
      scalars, members, activeTask := state.scalars, state.members, state.activeTask;
      snapshot := Some(state);
      deleted := false;
    }

    /** Adopt every merged scalar but the identity fields. */
    method SyncScalars(keys: set<string>, merged: map<string, Json>)
      modifies this`scalars
      ensures forall k :: k in keys - IDENTITY ==> JEq(Get(scalars, k), Get(merged, k))
      ensures forall k :: k !in keys - IDENTITY ==> Get(scalars, k) == Get(old(scalars), k)
    {
      var rest := keys - IDENTITY;
      while rest != {}
        invariant rest <= keys - IDENTITY
        invariant forall k :: k in keys - IDENTITY && k !in rest ==> JEq(Get(scalars, k), Get(merged, k))
        invariant forall k :: k !in keys - IDENTITY || k in rest ==> Get(scalars, k) == Get(old(scalars), k)
        decreases |rest|
      {
        var k :| k in rest;
        var m := Get(merged, k);
        if !JEq(Get(scalars, k), m) {
          if m == Undef {
            scalars := scalars - {k};
          } else {
            NormIdempotent(m);
            scalars := scalars[k := Norm(m)];
          }
        }
        rest := rest - {k};
      }
    }

    /** Splice out members the merge dropped, refresh the others, append the new ones. */
    method SyncMembers(merged: seq<Member>)
      requires UniqueNames(members) && UniqueNames(merged)
      modifies this`members
      ensures MembersSynced(old(members), merged, members)
    {
      ghost var before := members;
      DropMissing(merged);
      KeptFields(before, merged);
      var i := 0;
      while i < |merged|
        invariant 0 <= i <= |merged|
        invariant SyncedSoFar(before, Keep(before, merged), merged, i, members)
      {
        ghost var was := members;
        Upsert(merged[i]);
        SyncedStep(before, Keep(before, merged), merged, i, was, members);
        i := i + 1;
      }
      assert merged[..|merged|] == merged;
    }

    method DropMissing(merged: seq<Member>)
      modifies this`members
      ensures members == Keep(old(members), merged)
    {
      hide Names, Keep;
      ghost var before := members;
      var index := |members|;
      KeepNone(before, merged);
      while index > 0
        invariant 0 <= index <= |before|
        invariant members == before[..index] + Keep(before[index..], merged)
      {
        index := index - 1;
        KeepOne(before, index, merged);
        if members[index].name !in Names(merged) {
          members := members[..index] + members[index + 1..];
        }
      }
    }

    method Upsert(m: Member)
      requires UniqueNames(members)
      modifies this`members
      ensures Upserted(old(members), m, members)
    {
      ghost var was := members;
      var at := IndexOf(m.name);
      if at < |members| {
        FieldsAt(members, at);
        members := members[at := Member(m.name, SyncFields(members[at].fields, m.fields))];
        ReplacedFields(was, at, m.name, SyncFields(was[at].fields, m.fields));
      } else {
        members := members + [Member(m.name, CloneFields(m.fields))];
        AppendedFields(was, m.name, CloneFields(m.fields));
      }
    }

    /** Bring the live run in line with the merged one, key by key. */
    method SyncRun(merged: Json)
      requires activeTask == Undef || activeTask.Obj?
      requires merged == Undef || merged.Obj?
      requires activeTask.Obj? && merged.Obj? ==> NestedClears(activeTask.fields, merged.fields)
      modifies this`activeTask
      ensures JEq(activeTask, merged)
      ensures activeTask == Undef || activeTask.Obj?
    {
      if merged.Obj? && activeTask.Obj? {
        if !JEq(merged, activeTask) {
          ghost var was := activeTask.fields;
          var rest := activeTask.fields.Keys + merged.fields.Keys;
          while rest != {}
            invariant activeTask.Obj?
            invariant rest <= was.Keys + merged.fields.Keys
            invariant forall k :: k in rest ==> Get(activeTask.fields, k) == Get(was, k)
            invariant forall k :: k !in rest ==> JEq(Get(activeTask.fields, k), Get(merged.fields, k))
            decreases |rest|
          {
            var k :| k in rest;
            SyncKey(k, Get(merged.fields, k));
            rest := rest - {k};
          }
          ObjJEq(activeTask.fields, merged.fields);
        }
      } else if merged.Obj? {
        NormIdempotent(merged);
        activeTask := Norm(merged);
      } else {
        activeTask := Undef;
      }
    }

    method SyncKey(k: string, merged: Json)
      requires activeTask.Obj?
      requires Get(activeTask.fields, k).Obj? && merged.Obj?
        ==> ClearsOnlyCleared(activeTask.fields[k].fields, merged.fields)
      modifies this`activeTask
      ensures activeTask.Obj?
      ensures JEq(Get(activeTask.fields, k), merged)
      ensures forall n :: n != k ==> Get(activeTask.fields, n) == Get(old(activeTask.fields), n)
    {
      var live := Get(activeTask.fields, k);
      if !JEq(merged, live) {
        if merged == Undef {
          activeTask := Obj(activeTask.fields - {k});
        } else if live.Obj? && merged.Obj? {
          SyncedFields(live.fields, merged.fields);
          activeTask := Obj(activeTask.fields[k := Obj(SyncFields(live.fields, merged.fields))]);
        } else {
          NormIdempotent(merged);
          activeTask := Obj(activeTask.fields[k := Norm(merged)]);
        }
      }
    }

    /** One save under the state lock: read, merge, write, then refresh the live team. */
    method Save(file: StateFile, env: SaveEnv, enc: Encoding) returns (r: SaveResult)
      requires Valid()
      requires file.content.Good? ==> WellFormed(file.content.state) && ParsedState(file.content.state)
      modifies this, file
      ensures Valid()
      // A save that did not happen changes nothing; a matching marker tombstones the team.
      ensures r != Saved ==> file.content == old(file.content) && State() == old(State()) && snapshot == old(snapshot)
      ensures deleted == (old(deleted) || r == Tombstoned)
      // Each outcome has exactly one cause.  A recreated team is never merged into.
      ensures r == Skipped <==> old(deleted)
      ensures r == Tombstoned <==> !old(deleted) && old(file.marker) == Some(Get(old(scalars), "teamRunId"))
      ensures r == MarkerFailed <==> Alive(old(deleted), old(file.marker), old(State())) && env.markerFails
      ensures r == ReadFailed <==>
        && Alive(old(deleted), old(file.marker), old(State())) && !env.markerFails
        && old(snapshot).Some? && !env.readable
      ensures r == Recreated <==>
        && Alive(old(deleted), old(file.marker), old(State())) && !env.markerFails
        && old(snapshot).Some? && env.readable && !SameTeam(old(file.content), old(State()))
      ensures r == TooLarge <==>
        && Mergeable(old(deleted), old(file.marker), old(file.content), old(snapshot), old(State()), env)
        && !Fits(SaveTarget(old(file.content), old(snapshot), old(State())), enc)
      ensures r == WriteFailed <==>
        && Mergeable(old(deleted), old(file.marker), old(file.content), old(snapshot), old(State()), env)
        && Fits(SaveTarget(old(file.content), old(snapshot), old(State())), enc) && !env.writable
      ensures r == Saved <==>
        && Mergeable(old(deleted), old(file.marker), old(file.content), old(snapshot), old(State()), env)
        && Fits(SaveTarget(old(file.content), old(snapshot), old(State())), enc) && env.writable
      // A marker of an earlier team is removed.
      ensures file.marker == if r in {Skipped, Tombstoned, MarkerFailed} then old(file.marker) else None
      ensures r == Saved ==>
        && snapshot.Some? && file.content == Good(snapshot.value)
        && SaveEffect(old(file.content), old(snapshot), old(State()), enc, snapshot.value, State())
    {
      if deleted { return Skipped; }
      if file.marker == Some(Get(scalars, "teamRunId")) {
        deleted := true;
        return Tombstoned;
      }
      if env.markerFails { return MarkerFailed; }
      file.marker := None;
      hide Clears, Fits, DiskChanged, SaveTarget, WriteEffect, WellFormed;
      var refused, target, changed := Target(file, env);
      if refused.Some? { return refused.value; }
      r := Write(file, env, enc, target, changed);
    }

    /** Write a target within the size cap, and refresh the live team from it. */
    method Write(file: StateFile, env: SaveEnv, enc: Encoding, target: TeamState, changed: bool) returns (r: SaveResult)
      requires Valid() && WellFormed(target) && (changed ==> Clears(State(), target))
      modifies this, file
      ensures Valid()
      ensures deleted == old(deleted) && file.marker == old(file.marker)
      ensures r == if !Fits(target, enc) then TooLarge else if !env.writable then WriteFailed else Saved
      ensures r != Saved ==> file.content == old(file.content) && State() == old(State()) && snapshot == old(snapshot)
      ensures r == Saved ==>
        && snapshot.Some? && file.content == Good(snapshot.value)
        && WriteEffect(target, changed, old(State()), enc, snapshot.value, State())
    {
      hide CloneState, Clears;
      var fits, stored := Serialize(target, enc);
      if !fits { return TooLarge; }
      if !env.writable { return WriteFailed; }
      var written := target;
      if enc.stateBytes(target) > STATE_CAP {
        written := stored;
        ParsedTargetClears(State(), written);
      }
      file.content := Good(stored);
      snapshot := Some(stored);
      SyncLive(written, stored, changed);
      r := Saved;
    }

    /** The state to write, unless state.json cannot be read or belongs to another team. */
    method Target(file: StateFile, env: SaveEnv) returns (refused: Option<SaveResult>, target: TeamState, changed: bool)
      requires Valid()
      requires file.content.Good? ==> WellFormed(file.content.state) && ParsedState(file.content.state)
      ensures refused == if snapshot.Some? && !env.readable then Some(ReadFailed)
                         else if snapshot.Some? && !SameTeam(file.content, State()) then Some(Recreated) else None
      ensures refused.None? ==> target == SaveTarget(file.content, snapshot, State()) && WellFormed(target)
      ensures refused.None? ==> changed == DiskChanged(file.content, snapshot) && (changed ==> Clears(State(), target))
    {
      hide MergeTeamState, CloneState;
      refused, target, changed := None, State(), false;
      if snapshot.Some? {
        if !env.readable { return Some(ReadFailed), target, changed; }
        if file.content.Good? {
          var disk := file.content.state;
          changed := CloneState(disk) != CloneState(snapshot.value);
          if Get(disk.scalars, "teamRunId") != Get(scalars, "teamRunId") { return Some(Recreated), target, changed; }
          TargetShape(disk, snapshot.value, State());
          target := ComputeMerge(disk, snapshot.value, State());
        }
      }
    }

    method SyncLive(target: TeamState, ghost stored: TeamState, changed: bool)
      requires Valid() && WellFormed(target)
      requires target == stored || CloneState(target) == stored
      requires changed ==> Clears(State(), target)
      modifies this`scalars, this`members, this`activeTask
      ensures WellFormed(State())
      ensures ScalarsAgree(scalars, stored.scalars, IDENTITY)
      ensures forall k :: k in IDENTITY ==> Get(scalars, k) == Get(old(scalars), k)
      ensures if changed
        then MembersAgree(members, stored.members) && JEq(activeTask, stored.activeTask)
        else members == old(members) && activeTask == old(activeTask)
    {
      SyncScalars(scalars.Keys + target.scalars.Keys, target.scalars);
      CloneJEq(target.scalars);
      ObjJEq(CloneFields(target.scalars), target.scalars);
      if changed {
        SyncMembers(target.members);
        SyncedMembersAgree(old(members), target.members, members);
        CloneMembersAgree(target.members);
        if target != stored {
          MembersAgreeTrans(members, target.members, stored.members);
          NormIdempotent(target.activeTask);
        }
        SyncRun(target.activeTask);
      }
    }

    method ReloadRun(merged: Json)
      requires activeTask == Undef || activeTask.Obj?
      requires merged == Undef || merged.Obj?
      requires activeTask.Obj? && merged.Obj? ==> ClearsOnlyCleared(activeTask.fields, merged.fields)
      modifies this`activeTask
      ensures activeTask == Undef || activeTask.Obj?
      ensures activeTask == Undef <==> merged == Undef
      ensures forall k :: k != FORCED ==> JEq(Field(activeTask, k), Field(merged, k))
      ensures merged != Undef && Field(old(activeTask), FORCED) != Undef
        ==> Field(activeTask, FORCED) == Field(old(activeTask), FORCED)
      ensures Field(old(activeTask), FORCED) == Undef ==> JEq(Field(activeTask, FORCED), Field(merged, FORCED))
    {
      if activeTask.Obj? && merged.Obj? {
        var forced := Get(activeTask.fields, FORCED);
        SyncedFields(activeTask.fields, merged.fields);
        var fields := SyncFields(activeTask.fields, merged.fields);
        ObjJEq(fields, merged.fields);
        activeTask := Obj(if forced != Undef then fields[FORCED := forced] else fields);
      } else {
        if merged.Obj? {
          CloneJEq(merged.fields);
          ObjJEq(CloneFields(merged.fields), merged.fields);
        }
        activeTask := Norm(merged);
      }
    }

    method ReloadScalars(merged: map<string, Json>)
      requires ClearsOnlyCleared(scalars, merged)
      modifies this`scalars
      ensures ScalarsAgree(scalars, merged, SPAWN_GUARD)
      ensures forall k :: k in SPAWN_GUARD ==>
        JEq(Get(scalars, k), if Get(merged, k) != Undef then merged[k] else Get(old(scalars), k))
    {
      SyncedFields(scalars, merged);
      ObjJEq(SyncFields(scalars, merged), merged);
      var guard := map k | k in scalars && k in SPAWN_GUARD :: scalars[k];
      scalars := guard + SyncFields(scalars, merged);
    }

    /** Refresh the live team from a freshly read disk state, keeping the changes it has not
        saved yet. */
    method Reload(disk: TeamState)
      requires Valid() && WellFormed(disk) && ParsedState(disk)
      modifies this`scalars, this`members, this`activeTask, this`snapshot
      ensures Valid()
      ensures snapshot == Some(CloneState(disk))
      ensures ReloadEffect(disk, if old(snapshot).Some? then old(snapshot).value else disk, old(State()), State())
    {
      var live := State();
      var ancestor := if snapshot.Some? then snapshot.value else disk;
      var merged := ComputeMerge(disk, ancestor, live);
      TargetShape(disk, ancestor, live);
      MergedScalarsClear(disk.scalars, ancestor.scalars, live.scalars);
      MergedRunClears(disk.activeTask, ancestor.activeTask, live.activeTask);

      SyncMembers(merged.members);
      SyncedMembersAgree(live.members, merged.members, members);

      ReloadRun(merged.activeTask);
      ReloadScalars(merged.scalars);
      CloneIsParsed(disk);
      snapshot := Some(CloneState(disk));
    }

    /** End the run: the owner token goes, the mode and the final token tally stay visible. */
    method ClearActiveTask(now: int)
      requires Valid()
      modifies this`scalars, this`activeTask
      ensures Valid()
      ensures activeTask == Undef
      ensures "runnerPid" in scalars && scalars["runnerPid"] == Undef
      ensures forall k :: k != "runnerPid" && k != "lastMode" ==> Get(scalars, k) == Get(old(scalars), k)
      ensures old(activeTask) == Undef ==> Get(scalars, "lastMode") == Get(old(scalars), "lastMode")
      ensures old(activeTask).Obj? ==>
        && Get(scalars, "lastMode").Obj?
        && Get(scalars["lastMode"].fields, "finishedAt") == Num(now)
        && Get(scalars["lastMode"].fields, "tokensByMember") == Spread(Field(old(activeTask), "tokensByMember"))
        && forall k :: k in {"type", "mode", "tokensUsed", "runId"} ==>
             Get(scalars["lastMode"].fields, k) == Field(old(activeTask), k)
    {
      scalars := scalars["runnerPid" := Undef];
      if activeTask.Obj? {
        LastModeFields(activeTask, now);
        scalars := scalars["lastMode" := LastMode(activeTask, now)];
      }
      activeTask := Undef;
    }

    method IndexOf(name: string) returns (at: nat)
      requires UniqueNames(members)
      ensures at < |members| ==> members[at].name == name
      ensures at >= |members| ==> name !in Names(members)
    {
      at := 0;
      while at < |members| && members[at].name != name
        invariant 0 <= at <= |members|
        invariant forall j :: 0 <= j < at ==> members[j].name != name
      {
        at := at + 1;
      }
    }
  }

  // ---- Live, snapshot and disk after a save nobody raced ---------------------------------------

  /** No key of a member was deleted outright: a cleared field is an explicit `undefined`. */
  ghost predicate NoKeyDropped(ancestor: seq<Member>, live: seq<Member>) {
    forall n, k :: n in Names(ancestor) && n in Names(live) && k !in First(live, n).value.fields
      ==> Get(First(ancestor, n).value.fields, k) == Undef
  }

  /** The counters of a run are what the merge recomputes them to be. */
  ghost predicate CountersSettled(stored: Json, live: Json) {
    stored.Obj? && live.Obj? ==>
      var d, c := stored.fields, live.fields;
      && (Get(d, "messagesSent").Num? && Get(c, "messagesSent").Num? ==> c["messagesSent"].n >= 0)
      && (Get(d, "tokensUsed").Num? && Get(c, "tokensUsed").Num? ==> c["tokensUsed"].n == SettledTokens(d, c))
  }

  ghost function SettledTokens(d: map<string, Json>, c: map<string, Json>): int
    requires Get(d, "tokensUsed").Num? && Get(c, "tokensUsed").Num?
  {
    var per := Get(c, "tokensByMember");
    if per.Obj? then Max(0, Total(per.fields))
    else if Truthy(per) then 0
    else Max(d["tokensUsed"].n, c["tokensUsed"].n)
  }

  lemma NumNorm(j: Json)
    ensures NumOrZero(Norm(j)) == NumOrZero(j)
  {
  }

  lemma CloneRemove(m: map<string, Json>, k: string)
    requires k in m
    ensures CloneFields(m - {k}) == CloneFields(m) - {k}
    ensures if m[k] == Undef then CloneFields(m) - {k} == CloneFields(m)
            else k in CloneFields(m) && CloneFields(m)[k] == Norm(m[k])
  {
  }

  lemma {:induction false} TotalNorm(m: map<string, Json>)
    ensures Total(CloneFields(m)) == Total(m)
    decreases |m|
  {
    if m != map[] {
      var k :| k in m;
      TotalRemove(m, k);
      TotalNorm(m - {k});
      CloneRemove(m, k);
      hide CloneFields, Total;
      if m[k] != Undef {
        NumNorm(m[k]);
        TotalRemove(CloneFields(m), k);
      }
    }
  }

  lemma TotalJEq(m: map<string, Json>, n: map<string, Json>)
    requires JEq(Obj(m), Obj(n))
    ensures Total(m) == Total(n)
  {
    TotalNorm(m);
    TotalNorm(n);
  }

  lemma SameClones(x: seq<Member>, y: seq<Member>)
    requires UniqueNames(x) && UniqueNames(y) && CloneMembers(x) == CloneMembers(y)
    ensures MembersAgree(x, y)
  {
    var c := CloneMembers(x);
    CloneMembersAgree(x);
    CloneMembersAgree(y);
    assert Names(x) == Names(c) == Names(y);
  }

  lemma QuietMembers(disk: seq<Member>, ancestor: seq<Member>, live: seq<Member>)
    requires UniqueNames(disk) && UniqueNames(ancestor) && UniqueNames(live)
    requires CloneMembers(disk) == CloneMembers(ancestor)
    ensures MembersAgree(live, MergeMembers(disk, ancestor, live)) <==> NoKeyDropped(ancestor, live)
  {
    var merged := MergeMembers(disk, ancestor, live);
    SameClones(disk, ancestor);
    Membership(disk, ancestor, live);
    assert Names(merged) == Names(live);
    forall n | n in Names(live)
      ensures JEq(Obj(First(live, n).value.fields), Obj(First(merged, n).value.fields))
         <==> (n in Names(ancestor) ==> forall k :: k !in First(live, n).value.fields ==> Get(First(ancestor, n).value.fields, k) == Undef)
    {
      QuietMember(disk, ancestor, live, n);
    }
  }

  lemma QuietMember(disk: seq<Member>, ancestor: seq<Member>, live: seq<Member>, n: string)
    requires UniqueNames(ancestor) && UniqueNames(live)
    requires MembersAgree(disk, ancestor) && n in Names(live) && n in Names(MergeMembers(disk, ancestor, live))
    ensures JEq(Obj(First(live, n).value.fields), Obj(First(MergeMembers(disk, ancestor, live), n).value.fields))
       <==> (n in Names(ancestor) ==> forall k :: k !in First(live, n).value.fields ==> Get(First(ancestor, n).value.fields, k) == Undef)
  {
    MergedMember(disk, ancestor, live, n);
    LastIsFirst(ancestor, n);
    LastIsFirst(live, n);
    if n in Names(ancestor) {
      var d, a, c := First(disk, n).value.fields, First(ancestor, n).value.fields, First(live, n).value.fields;
      var r := First(MergeMembers(disk, ancestor, live), n).value.fields;
      ObjJEq(d, a);
      ObjJEq(c, r);
      forall k ensures JEq(Get(c, k), Get(r, k)) <==> (k !in c ==> Get(a, k) == Undef) {
        assert JEq(Get(d, k), Get(a, k));
        assert Get(r, k) == if k in c && !JEq(c[k], Get(a, k)) then c[k] else Get(d, k);
      }
    }
  }

  lemma QuietRun(disk: Json, ancestor: Json, live: Json)
    requires JEq(disk, ancestor)
    ensures JEq(live, MergeRun(disk, ancestor, live)) <==> CountersSettled(disk, live)
  {
    MergeAlone(disk, ancestor, live);
    var raw := Merge(disk, ancestor, live);
    if disk.Obj? {
      ObjJEq(disk.fields, ancestor.fields);
    }
    assert !ForeignRun(disk, ancestor, live);
    if raw.Obj? && live.Obj? && disk.Obj? {
      assert JEq(Get(disk.fields, "messagesSent"), Get(ancestor.fields, "messagesSent"));
      QuietCounters(disk, ancestor, live.fields, raw.fields);
    }
  }

  lemma QuietCounters(disk: Json, ancestor: Json, c: map<string, Json>, raw: map<string, Json>)
    requires disk.Obj? && ancestor.Obj? && JEq(Obj(raw), Obj(c))
    requires JEq(Get(disk.fields, "messagesSent"), Get(ancestor.fields, "messagesSent"))
    ensures JEq(Obj(c), Obj(WithTokens(WithCount(raw, disk, ancestor, Obj(c)), disk, Obj(c))))
       <==> CountersSettled(disk, Obj(c))
  {
    ObjJEq(raw, c);
    var counted := WithCount(raw, disk, ancestor, Obj(c));
    var m := WithTokens(counted, disk, Obj(c));
    QuietCount(disk, ancestor, c, raw);
    assert JEq(Get(raw, "tokensUsed"), Get(c, "tokensUsed")) && JEq(Get(raw, "tokensByMember"), Get(c, "tokensByMember"));
    QuietTokens(disk, c, counted);
    forall k | k != "messagesSent" && k != "tokensUsed" ensures JEq(Get(c, k), Get(m, k)) {
      assert JEq(Get(raw, k), Get(c, k));
      assert Get(m, k) == Get(counted, k) == Get(raw, k);
    }
    assert Get(m, "messagesSent") == Get(counted, "messagesSent");
    ObjJEq(c, m);
  }

  lemma QuietCount(disk: Json, ancestor: Json, c: map<string, Json>, raw: map<string, Json>)
    requires disk.Obj? && ancestor.Obj?
    requires JEq(Get(raw, "messagesSent"), Get(c, "messagesSent"))
    requires JEq(Get(disk.fields, "messagesSent"), Get(ancestor.fields, "messagesSent"))
    ensures JEq(Get(c, "messagesSent"), Get(WithCount(raw, disk, ancestor, Obj(c)), "messagesSent"))
       <==> (Get(disk.fields, "messagesSent").Num? && Get(c, "messagesSent").Num? ==> c["messagesSent"].n >= 0)
  {
  }

  lemma QuietTokens(disk: Json, c: map<string, Json>, m: map<string, Json>)
    requires disk.Obj?
    requires JEq(Get(m, "tokensUsed"), Get(c, "tokensUsed")) && JEq(Get(m, "tokensByMember"), Get(c, "tokensByMember"))
    ensures JEq(Get(c, "tokensUsed"), Get(WithTokens(m, disk, Obj(c)), "tokensUsed"))
       <==> (Get(disk.fields, "tokensUsed").Num? && Get(c, "tokensUsed").Num? ==>
              c["tokensUsed"].n == SettledTokens(disk.fields, c))
  {
    if Get(c, "tokensByMember").Obj? {
      TotalJEq(m["tokensByMember"].fields, c["tokensByMember"].fields);
    }
  }

  /** A save that nobody raced, of a state within the size cap. */
  ghost predicate QuietSave(disk: TeamState, snapshot: TeamState, live: TeamState, enc: Encoding,
                            stored: TeamState, live': TeamState) {
    && WellFormed(disk) && WellFormed(snapshot) && WellFormed(live)
    && !DiskChanged(Good(disk), Some(snapshot))
    && enc.stateBytes(MergeTeamState(disk, snapshot, live)) <= STATE_CAP
    && SaveEffect(Good(disk), Some(snapshot), live, enc, stored, live')
  }

  /** It stores the merge, and leaves the members and the run of the live team as they were. */
  lemma QuietSaveStores(disk: TeamState, snapshot: TeamState, live: TeamState, enc: Encoding,
                        stored: TeamState, live': TeamState)
    requires QuietSave(disk, snapshot, live, enc, stored, live')
    ensures live'.members == live.members && live'.activeTask == live.activeTask
    ensures var merged := MergeTeamState(disk, snapshot, live);
      && UniqueNames(merged.members) && stored.members == CloneMembers(merged.members) && stored.activeTask == Norm(merged.activeTask)
      && MembersAgree(merged.members, stored.members) && JEq(merged.activeTask, stored.activeTask)
  {
    var merged := MergeTeamState(disk, snapshot, live);
    Membership(disk.members, snapshot.members, live.members);
    CloneMembersAgree(merged.members);
    NormIdempotent(merged.activeTask);
  }

  lemma MembersAgreeBack(x: seq<Member>, y: seq<Member>)
    requires MembersAgree(x, y)
    ensures MembersAgree(y, x)
  {
  }

  /** After such a save the members and the run of the live team agree with what is stored exactly when no
      member key was deleted outright and the run's counters were already settled. */
  lemma QuietSaveAgreement(disk: TeamState, snapshot: TeamState, live: TeamState, enc: Encoding,
                           stored: TeamState, live': TeamState)
    requires QuietSave(disk, snapshot, live, enc, stored, live')
    ensures MembersAgree(live'.members, stored.members) <==> NoKeyDropped(snapshot.members, live.members)
    ensures JEq(live'.activeTask, stored.activeTask) <==> CountersSettled(disk.activeTask, live.activeTask)
  {
    var merged := MergeTeamState(disk, snapshot, live);
    QuietSaveStores(disk, snapshot, live, enc, stored, live');
    QuietMembers(disk.members, snapshot.members, live.members);
    QuietRun(disk.activeTask, snapshot.activeTask, live.activeTask);
    hide MembersAgree, NoKeyDropped, CountersSettled, SaveEffect, MergeMembers, MergeRun;
    if MembersAgree(live.members, merged.members) {
      MembersAgreeTrans(live.members, merged.members, stored.members);
    }
    if MembersAgree(live.members, stored.members) {
      MembersAgreeBack(merged.members, stored.members);
      MembersAgreeTrans(live.members, stored.members, merged.members);
    }
  }

  /** A member key deleted outright, any key of any member: the save keeps the value on disk, and the live
      member stays without it. */
  lemma DeletedMemberKeyIsNotSaved(disk: TeamState, snapshot: TeamState, live: TeamState, enc: Encoding,
                                   stored: TeamState, live': TeamState, n: string, k: string)
    requires QuietSave(disk, snapshot, live, enc, stored, live')
    requires n in Names(snapshot.members) && n in Names(live.members)
    requires k !in First(live.members, n).value.fields && Get(First(snapshot.members, n).value.fields, k) != Undef
    ensures n in Names(stored.members)
    ensures JEq(Get(First(stored.members, n).value.fields, k), Get(First(snapshot.members, n).value.fields, k))
    ensures n in Names(live'.members) && k !in First(live'.members, n).value.fields
    ensures !MembersAgree(live'.members, stored.members)
  {
    QuietSaveStores(disk, snapshot, live, enc, stored, live');
    QuietSaveAgreement(disk, snapshot, live, enc, stored, live');
    SameClones(disk.members, snapshot.members);
    DeletedKeyStays(disk.members, snapshot.members, live.members, stored.members, n, k);
  }

  lemma DeletedKeyStays(disk: seq<Member>, snapshot: seq<Member>, live: seq<Member>, stored: seq<Member>, n: string, k: string)
    requires UniqueNames(snapshot) && UniqueNames(live) && MembersAgree(disk, snapshot)
    requires MembersAgree(MergeMembers(disk, snapshot, live), stored)
    requires n in Names(snapshot) && n in Names(live) && k !in First(live, n).value.fields
    ensures n in Names(stored)
    ensures JEq(Get(First(stored, n).value.fields, k), Get(First(snapshot, n).value.fields, k))
  {
    var merged := MergeMembers(disk, snapshot, live);
    Membership(disk, snapshot, live);
    MergedMember(disk, snapshot, live, n);
    LastIsFirst(snapshot, n);
    LastIsFirst(live, n);
    assert n in Names(disk) && n in Names(merged);
    ObjJEq(First(disk, n).value.fields, First(snapshot, n).value.fields);
    ObjJEq(First(merged, n).value.fields, First(stored, n).value.fields);
    assert Get(First(merged, n).value.fields, k) == Get(First(disk, n).value.fields, k);
    assert JEq(Get(First(disk, n).value.fields, k), Get(First(snapshot, n).value.fields, k));
    assert JEq(Get(First(merged, n).value.fields, k), Get(First(stored, n).value.fields, k));
  }

  /** The token total: the save stores the settled one, and the live run keeps its own. */
  lemma UnsettledTotalIsNotRefreshed(disk: TeamState, snapshot: TeamState, live: TeamState, enc: Encoding,
                                     stored: TeamState, live': TeamState)
    requires QuietSave(disk, snapshot, live, enc, stored, live')
    requires disk.activeTask.Obj? && live.activeTask.Obj?
    requires Field(disk.activeTask, "tokensUsed").Num? && Field(live.activeTask, "tokensUsed").Num?
    ensures Field(stored.activeTask, "tokensUsed") == Num(SettledTokens(disk.activeTask.fields, live.activeTask.fields))
    ensures Field(live'.activeTask, "tokensUsed") == Field(live.activeTask, "tokensUsed")
  {
    QuietSaveStores(disk, snapshot, live, enc, stored, live');
    SettledTotalIsMerged(disk.activeTask, snapshot.activeTask, live.activeTask);
  }

  lemma SettledTotalIsWritten(d: Json, a: Json, c: Json, raw: map<string, Json>)
    requires d.Obj? && c.Obj? && JEq(Obj(raw), c) && Field(d, "tokensUsed").Num? && Field(c, "tokensUsed").Num?
    ensures Get(WithTokens(WithCount(raw, d, a, c), d, c), "tokensUsed") == Num(SettledTokens(d.fields, c.fields))
  {
    ObjJEq(raw, c.fields);
    var per := Get(WithCount(raw, d, a, c), "tokensByMember");
    assert per == Get(raw, "tokensByMember");
    SameTotals(per, Get(c.fields, "tokensByMember"));
    hide Total, Truthy, JEq, MergedCount;
  }

  lemma SettledTotalIsMerged(d: Json, a: Json, c: Json)
    requires JEq(d, a) && d.Obj? && c.Obj? && Field(d, "tokensUsed").Num? && Field(c, "tokensUsed").Num?
    ensures MergeRun(d, a, c).Obj?
    ensures Field(MergeRun(d, a, c), "tokensUsed") == Num(SettledTokens(d.fields, c.fields))
  {
    ObjJEq(d.fields, a.fields);
    MergeAlone(d, a, c);
    var raw := Merge(d, a, c);
    assert raw.Obj? && !ForeignRun(d, a, c);
    SettledTotalIsWritten(d, a, c, raw.fields);
    hide WithTokens, WithCount, SettledTokens;
  }

  /** Equal texts are equally truthy, and add up to the same. */
  lemma SameTotals(x: Json, y: Json)
    requires JEq(x, y)
    ensures Truthy(x) == Truthy(y) && x.Obj? == y.Obj?
    ensures x.Obj? ==> Total(x.fields) == Total(y.fields)
  {
    if x.Obj? { TotalJEq(x.fields, y.fields); }
  }
}
