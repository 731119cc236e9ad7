/** Merging a user's permissions over an agent preset: the user may tighten, never loosen. */
module Permissions {
  import opened Options

  datatype Action = Allow | Ask | Deny

  function Rank(a: Action): nat {
    match a
    case Allow => 0
    case Ask => 1
    case Deny => 2
  }

  /** A tool's rule: one action, or one per subtool. */
  datatype Rule = Scalar(action: Action) | Nested(rules: map<string, Action>)

  type Permissions = map<string, Rule>

  /** What a user may write for a tool; `None` inside a map is anything but an action. */
  datatype UserRule = UserScalar(action: Action) | UserNested(rules: map<string, Option<Action>>) | Malformed

  // ---- The merge, tool by tool ---------------------------------------------------------------

  function Wildcard(preset: Permissions): Option<Action> {
    if "*" in preset && preset["*"].Scalar? then Some(preset["*"].action) else None
  }

  function Baseline(preset: Permissions, tool: string): Option<Action> {
    if tool in preset && preset[tool].Scalar? then Some(preset[tool].action) else Wildcard(preset)
  }

  predicate Tightens(a: Action, baseline: Option<Action>) {
    baseline.None? || Rank(a) >= Rank(baseline.value)
  }

  /** What a nested map starts from. */
  function Seed(preset: Permissions, tool: string): map<string, Action> {
    if tool in preset && preset[tool].Nested? then preset[tool].rules
    else match Baseline(preset, tool)
      case Some(a) => map["*" := a]
      case None => map[]
  }

  function SubBaseline(seed: map<string, Action>, wildcard: Option<Action>, sub: string): Option<Action> {
    if sub in seed then Some(seed[sub]) else if "*" in seed then Some(seed["*"]) else wildcard
  }

  predicate Accepted(seed: map<string, Action>, wildcard: Option<Action>, rules: map<string, Option<Action>>, sub: string) {
    sub in rules && rules[sub].Some? && Tightens(rules[sub].value, SubBaseline(seed, wildcard, sub))
  }

  function MergeNested(seed: map<string, Action>, wildcard: Option<Action>, rules: map<string, Option<Action>>): map<string, Action> {
    map sub | sub in seed.Keys + rules.Keys && (sub in seed || Accepted(seed, wildcard, rules, sub)) ::
      if Accepted(seed, wildcard, rules, sub) then rules[sub].value else seed[sub]
  }

  predicate WellFormedRules(rules: map<string, Option<Action>>) {
    rules != map[] && forall sub :: sub in rules ==> rules[sub].Some?
  }

  /** The rule a tool ends up with; `None` when it has none. */
  function MergeTool(preset: Permissions, tool: string, user: UserRule): Option<Rule> {
    var asIs := Entry(preset, tool);
    match user
    case UserScalar(a) => if Tightens(a, Baseline(preset, tool)) then Some(Scalar(a)) else asIs
    case UserNested(rules) =>
      var merged := MergeNested(Seed(preset, tool), Wildcard(preset), rules);
      if WellFormedRules(rules) && merged != map[] then Some(Nested(merged)) else asIs
    case Malformed => asIs
  }

  function Entry(p: Permissions, tool: string): Option<Rule> {
    if tool in p then Some(p[tool]) else None
  }

  /** `result` gives every tool what merging it alone gives. */
  ghost predicate IsMerge(preset: Permissions, user: map<string, UserRule>, result: Permissions) {
    IsMergeOf(preset, user, user.Keys, result)
  }

  /** The same, when only the tools in `done` have been visited. */
  ghost predicate IsMergeOf(preset: Permissions, user: map<string, UserRule>, done: set<string>, result: Permissions) {
    forall tool :: Entry(result, tool)
      == if tool in user && tool in done then MergeTool(preset, tool, user[tool]) else Entry(preset, tool)
  }

  /** The merge loop.  A user value that is not an object (`None`) leaves the preset as it is. */
  method MergePermissions(preset: Permissions, user: Option<map<string, UserRule>>) returns (result: Permissions)
    ensures IsMerge(preset, if user.Some? then user.value else map[], result)
  {
    hide MergeTool, MergedEntry, WellFormedRules;
    result := preset;
    if user.None? { return; }
    var wildcardAction := Wildcard(preset);
    var done: set<string> := {};
    while done != user.value.Keys
      invariant done <= user.value.Keys
      invariant IsMergeOf(preset, user.value, done, result)
      decreases |user.value.Keys - done|
    {
      var tool :| tool in user.value.Keys - done;
      assert Entry(result, tool) == Entry(preset, tool);
      var entry := MergeEntry(Entry(result, tool), wildcardAction, user.value[tool]);
      EntryIsMergeTool(preset, tool, user.value[tool]);
      if entry.Some? {
        result := result[tool := entry.value];
      }
      done := done + {tool};
    }
  }

  /** One turn of the loop, in terms of the entry it finds. */
  ghost function MergedEntry(entry: Option<Rule>, wildcard: Option<Action>, user: UserRule): Option<Rule> {
    match user
    case UserScalar(a) =>
      var baseline := if entry.Some? && entry.value.Scalar? then Some(entry.value.action) else wildcard;
      if Tightens(a, baseline) then Some(Scalar(a)) else entry
    case UserNested(rules) =>
      var merged := MergeNested(EntrySeed(entry, wildcard), wildcard, rules);
      if WellFormedRules(rules) && merged != map[] then Some(Nested(merged)) else entry
    case Malformed => entry
  }

  function EntrySeed(entry: Option<Rule>, wildcard: Option<Action>): map<string, Action> {
    if entry.Some? && entry.value.Nested? then entry.value.rules
    else
      var scalar := if entry.Some? then Some(entry.value.action) else wildcard;
      if scalar.Some? then map["*" := scalar.value] else map[]
  }

  lemma EntryIsMergeTool(preset: Permissions, tool: string, user: UserRule)
    ensures MergedEntry(Entry(preset, tool), Wildcard(preset), user) == MergeTool(preset, tool, user)
    ensures Entry(preset, tool).Some? ==> MergeTool(preset, tool, user).Some?
  {
    assert EntrySeed(Entry(preset, tool), Wildcard(preset)) == Seed(preset, tool);
  }

  method MergeEntry(entry: Option<Rule>, wildcard: Option<Action>, user: UserRule) returns (merged: Option<Rule>)
    ensures merged == MergedEntry(entry, wildcard, user)
  {
    merged := entry;
    match user {
      case UserScalar(action) =>
        var baseline := if entry.Some? && entry.value.Scalar? then Some(entry.value.action) else wildcard;
        if baseline.None? || Rank(action) >= Rank(baseline.value) {
          merged := Some(Scalar(action));
        }
      case UserNested(rules) =>
        if WellFormedRules(rules) {
          var nested := ApplyNested(EntrySeed(entry, wildcard), wildcard, rules);
          if nested != map[] {
            merged := Some(Nested(nested));
          }
        }
      case Malformed =>
    }
  }

  function SubEntry(m: map<string, Action>, sub: string): Option<Action> {
    if sub in m then Some(m[sub]) else None
  }

  function MergedSub(seed: map<string, Action>, wildcard: Option<Action>, rules: map<string, Option<Action>>, sub: string): Option<Action> {
    if Accepted(seed, wildcard, rules, sub) then rules[sub] else SubEntry(seed, sub)
  }

  ghost predicate NestedOn(seed: map<string, Action>, wildcard: Option<Action>, rules: map<string, Option<Action>>,
                           done: set<string>, nested: map<string, Action>) {
    forall sub :: SubEntry(nested, sub) == if sub in done then MergedSub(seed, wildcard, rules, sub) else SubEntry(seed, sub)
  }

  /** The inner loop over a nested map's entries. */
  method ApplyNested(seed: map<string, Action>, wildcard: Option<Action>, rules: map<string, Option<Action>>)
    returns (nested: map<string, Action>)
    ensures nested == MergeNested(seed, wildcard, rules)
  {
    nested := seed;
    var base := if "*" in seed then Some(seed["*"]) else wildcard;
    var done: set<string> := {};
    while done != rules.Keys
      invariant done <= rules.Keys
      invariant NestedOn(seed, wildcard, rules, done, nested)
      decreases |rules.Keys - done|
    {
      var sub :| sub in rules.Keys - done;
      ghost var was := nested;
      nested := ApplyEntry(nested, if sub in nested then Some(nested[sub]) else base, sub, rules[sub]);
      NestedStep(seed, wildcard, rules, done, sub, was, nested);
      done := done + {sub};
    }
    NestedDone(seed, wildcard, rules, nested);
  }

  lemma NestedStep(seed: map<string, Action>, wildcard: Option<Action>, rules: map<string, Option<Action>>,
                   done: set<string>, sub: string, was: map<string, Action>, now: map<string, Action>)
    requires sub in rules && sub !in done && NestedOn(seed, wildcard, rules, done, was)
    requires var baseline := if sub in was then Some(was[sub]) else if "*" in seed then Some(seed["*"]) else wildcard;
      SubEntry(now, sub) == if rules[sub].Some? && Tightens(rules[sub].value, baseline) then rules[sub] else SubEntry(was, sub)
    requires forall k :: k != sub ==> SubEntry(now, k) == SubEntry(was, k)
    ensures NestedOn(seed, wildcard, rules, done + {sub}, now)
  {
    assert SubEntry(was, sub) == SubEntry(seed, sub);
  }

  lemma NestedDone(seed: map<string, Action>, wildcard: Option<Action>, rules: map<string, Option<Action>>, nested: map<string, Action>)
    requires NestedOn(seed, wildcard, rules, rules.Keys, nested)
    ensures nested == MergeNested(seed, wildcard, rules)
  {
    var m := MergeNested(seed, wildcard, rules);
    forall sub ensures SubEntry(nested, sub) == SubEntry(m, sub) {
      assert sub in m <==> sub in seed.Keys + rules.Keys && (sub in seed || Accepted(seed, wildcard, rules, sub));
    }
    SameEntries(nested, m);
  }

  method ApplyEntry(nested: map<string, Action>, baseline: Option<Action>, sub: string, action: Option<Action>)
    returns (r: map<string, Action>)
    ensures SubEntry(r, sub) == if action.Some? && Tightens(action.value, baseline) then action else SubEntry(nested, sub)
    ensures forall k :: k != sub ==> SubEntry(r, k) == SubEntry(nested, k)
  {
    r := nested;
    if action.Some? {
      if baseline.None? || Rank(action.value) >= Rank(baseline.value) {
        r := r[sub := action.value];
      }
    }
  }

  lemma SameEntries(m: map<string, Action>, n: map<string, Action>)
    ensures (forall sub :: SubEntry(m, sub) == SubEntry(n, sub)) ==> m == n
  {
    if forall sub :: SubEntry(m, sub) == SubEntry(n, sub) {
      forall sub ensures sub in m <==> sub in n { assert SubEntry(m, sub) == SubEntry(n, sub); }
      forall sub | sub in m ensures m[sub] == n[sub] { assert SubEntry(m, sub) == SubEntry(n, sub); }
    }
  }

  // ---- What a session may do --------------------------------------------------------------------

  function Look(rule: Rule, sub: string): Option<Action> {
    match rule
    case Scalar(a) => Some(a)
    case Nested(m) => if sub in m then Some(m[sub]) else if "*" in m then Some(m["*"]) else None
  }

  /** Exact tool first, then the wildcard tool. */
  function Effective(p: Permissions, tool: string, sub: string): Option<Action> {
    if tool in p && Look(p[tool], sub).Some? then Look(p[tool], sub)
    else if "*" in p then Look(p["*"], sub)
    else None
  }

  ghost predicate NotLooser(preset: Permissions, result: Permissions) {
    forall tool, sub :: Effective(preset, tool, sub).Some? ==>
      && Effective(result, tool, sub).Some?
      && Rank(Effective(result, tool, sub).value) >= Rank(Effective(preset, tool, sub).value)
  }

  /** No user value whatsoever loosens anything. */
  ghost predicate Monotone(preset: Permissions) {
    forall user, result :: IsMerge(preset, user, result) ==> NotLooser(preset, result)
  }

  /** No subtool rule is stricter than the scalar wildcard, or than "allow" without one. */
  predicate FlooredByWildcard(preset: Permissions) {
    forall tool :: tool in preset && preset[tool].Nested? ==>
      forall sub :: sub in preset[tool].rules ==> Rank(preset[tool].rules[sub]) <= Rank(Limit(preset))
  }

  /** Merging one tool keeps its own lookups at least as strict. */
  lemma ToolNotLooser(preset: Permissions, tool: string, user: UserRule, sub: string)
    requires FlooredByWildcard(preset) && tool in preset && Look(preset[tool], sub).Some?
    ensures var r := MergeTool(preset, tool, user);
      r.Some? && Look(r.value, sub).Some? && Rank(Look(r.value, sub).value) >= Rank(Look(preset[tool], sub).value)
  {
  }

  /** A lookup that used to fall through to the wildcard never lands below it. */
  lemma FallThroughNotLooser(preset: Permissions, tool: string, user: UserRule, sub: string)
    requires FlooredByWildcard(preset) && "*" in preset && Look(preset["*"], sub).Some?
    requires tool in preset ==> Look(preset[tool], sub).None?
    ensures var r := MergeTool(preset, tool, user);
      r.Some? && Look(r.value, sub).Some? ==> Rank(Look(r.value, sub).value) >= Rank(Look(preset["*"], sub).value)
  {
  }

  lemma FlooredIsMonotone(preset: Permissions, user: map<string, UserRule>, result: Permissions)
    requires FlooredByWildcard(preset) && IsMerge(preset, user, result)
    ensures NotLooser(preset, result)
  {
    forall tool, sub | Effective(preset, tool, sub).Some?
      ensures && Effective(result, tool, sub).Some?
              && Rank(Effective(result, tool, sub).value) >= Rank(Effective(preset, tool, sub).value)
    {
      if tool in preset && Look(preset[tool], sub).Some? {
        if tool in user { ToolNotLooser(preset, tool, user[tool], sub); }
        assert tool in result;
      } else {
        if tool in user { FallThroughNotLooser(preset, tool, user[tool], sub); }
        if "*" in user { ToolNotLooser(preset, "*", user["*"], sub); }
        assert "*" in result;
      }
    }
  }

  /** The action that limits what a user scalar may set where the preset has a nested map. */
  function Limit(preset: Permissions): Action {
    if Wildcard(preset).Some? then Wildcard(preset).value else Allow
  }

  /** A subtool rule stricter than that is lost: a user who sets the tool to the limit replaces the
      preset's nested map, and the subtool is looser than before. */
  lemma StricterSubtoolIsLoosened(preset: Permissions, tool: string, sub: string)
    requires tool in preset && preset[tool].Nested? && sub in preset[tool].rules
    requires Rank(preset[tool].rules[sub]) > Rank(Limit(preset))
    ensures var user, result := map[tool := UserScalar(Limit(preset))], preset[tool := Scalar(Limit(preset))];
      && IsMerge(preset, user, result)
      && Effective(preset, tool, sub) == Some(preset[tool].rules[sub])
      && Effective(result, tool, sub) == Some(Limit(preset))
      && !NotLooser(preset, result)
  {
    var result := preset[tool := Scalar(Limit(preset))];
    assert Effective(result, tool, sub) == Some(Limit(preset));
  }

  /** Presets that users cannot loosen are exactly those whose subtool rules stay within the
      wildcard.  Every preset with a denied wildcard is one of them. */
  lemma MonotoneExactly(preset: Permissions)
    ensures Monotone(preset) <==> FlooredByWildcard(preset)
    ensures Wildcard(preset) == Some(Deny) ==> Monotone(preset)
  {
    if FlooredByWildcard(preset) {
      forall user, result | IsMerge(preset, user, result) ensures NotLooser(preset, result) {
        FlooredIsMonotone(preset, user, result);
      }
    } else {
      var tool :| tool in preset && preset[tool].Nested?
        && exists sub :: sub in preset[tool].rules && Rank(preset[tool].rules[sub]) > Rank(Limit(preset));
      var sub :| sub in preset[tool].rules && Rank(preset[tool].rules[sub]) > Rank(Limit(preset));
      StricterSubtoolIsLoosened(preset, tool, sub);
    }
  }

  /** A tool the user denies outright is denied, whatever the preset says. */
  lemma ScalarDenyTakesEffect(preset: Permissions, user: map<string, UserRule>, result: Permissions, tool: string, sub: string)
    requires IsMerge(preset, user, result)
    requires tool in user && user[tool] == UserScalar(Deny)
    ensures Effective(result, tool, sub) == Some(Deny)
  {
    assert tool in result && result[tool] == Scalar(Deny);
  }

  // ---- Which user values take effect ------------------------------------------------------------

  /** What the preset says about a subtool: its own rule for the tool, else its scalar wildcard. */
  function Says(preset: Permissions, tool: string, sub: string): Option<Action> {
    if tool in preset && Look(preset[tool], sub).Some? then Look(preset[tool], sub)
    else if "*" in preset && preset["*"].Scalar? then Some(preset["*"].action) else None
  }

  /** A user's outright value takes effect on every subtool exactly if it is at least as strict as the preset's
      scalar for the tool, or else its wildcard; otherwise, and for a tool not mentioned, malformed, or given a
      map that is empty or holds anything but actions, the preset's rule stays. */
  lemma ScalarExactly(preset: Permissions, user: map<string, UserRule>, result: Permissions, tool: string, sub: string)
    requires IsMerge(preset, user, result)
    ensures tool in user && user[tool].UserScalar? ==>
      var a := user[tool].action;
      var base := if tool in preset && preset[tool].Scalar? then Some(preset[tool].action)
                  else if "*" in preset && preset["*"].Scalar? then Some(preset["*"].action) else None;
      if base.None? || Rank(a) >= Rank(base.value) then Effective(result, tool, sub) == Some(a)
      else Entry(result, tool) == Entry(preset, tool)
    ensures tool !in user || user[tool].Malformed? ==> Entry(result, tool) == Entry(preset, tool)
    ensures tool in user && user[tool].UserNested?
            && (user[tool].rules == map[] || exists k :: k in user[tool].rules && user[tool].rules[k].None?)
            ==> Entry(result, tool) == Entry(preset, tool)
  {
    assert tool in user ==> Entry(result, tool) == MergeTool(preset, tool, user[tool]);
  }

  /** The user's rule for `sub` counts: it is there and at least as strict as what the preset says. */
  predicate Counts(preset: Permissions, tool: string, rules: map<string, Option<Action>>, sub: string) {
    && sub in rules && rules[sub].Some?
    && (Says(preset, tool, sub).None? || Rank(rules[sub].value) >= Rank(Says(preset, tool, sub).value))
  }

  /** The preset has a rule for this very subtool. */
  predicate OwnRule(preset: Permissions, tool: string, sub: string) {
    tool in preset && preset[tool].Nested? && sub in preset[tool].rules
  }

  /** A user's map takes effect subtool by subtool: the user's rule where it counts, else the preset's own for
      this subtool, else the user's wildcard where that counts, else, unless the preset's rules for the tool leave
      it to the wildcard tool, what the preset says. */
  lemma NestedExactly(preset: Permissions, user: map<string, UserRule>, result: Permissions, tool: string, sub: string)
    requires IsMerge(preset, user, result) && tool in user && user[tool].UserNested? && user[tool].rules != map[]
    requires forall k :: k in user[tool].rules ==> user[tool].rules[k].Some?
    ensures var rules := user[tool].rules;
      && (Counts(preset, tool, rules, sub) ==> Effective(result, tool, sub) == rules[sub])
      && (!Counts(preset, tool, rules, sub) && OwnRule(preset, tool, sub) ==>
            Effective(result, tool, sub) == Some(preset[tool].rules[sub]))
      && (!Counts(preset, tool, rules, sub) && !OwnRule(preset, tool, sub) && Counts(preset, tool, rules, "*") ==>
            Effective(result, tool, sub) == rules["*"])
      && (!Counts(preset, tool, rules, sub) && !OwnRule(preset, tool, sub) && !Counts(preset, tool, rules, "*")
          && Says(preset, tool, sub).Some? && (tool in preset ==> Look(preset[tool], sub).Some?) ==>
            Effective(result, tool, sub) == Says(preset, tool, sub))
  {
    var rules, seed := user[tool].rules, Seed(preset, tool);
    assert Entry(result, tool) == MergeTool(preset, tool, user[tool]);
    var merged := MergeNested(seed, Wildcard(preset), rules);
    forall k ensures SubEntry(merged, k) == MergedSub(seed, Wildcard(preset), rules, k) {
      assert k in merged <==> k in seed.Keys + rules.Keys && (k in seed || Accepted(seed, Wildcard(preset), rules, k));
    }
    assert SubBaseline(seed, Wildcard(preset), sub) == Says(preset, tool, sub);
    assert SubBaseline(seed, Wildcard(preset), "*") == Says(preset, tool, "*");
    assert Accepted(seed, Wildcard(preset), rules, sub) <==> Counts(preset, tool, rules, sub);
    assert Accepted(seed, Wildcard(preset), rules, "*") <==> Counts(preset, tool, rules, "*");
    if merged == map[] { assert SubEntry(merged, sub).None? && SubEntry(merged, "*").None?; }
  }
}
