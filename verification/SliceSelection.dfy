/** Slice test selection, `select_slice_test_groups` of ci/lib/slice_selection.py, against a
    specification by set comprehension; then exactness, monotonicity, order independence. */
module SliceSelection {
  import opened Wrappers
  import opened Text
  import opened SlicePolicy

  /** `policyId` and `schemaVersion` are "" where the source has None. */
  datatype Selection = Selection(
    policyId: string, schemaVersion: string, groups: seq<string>, reasons: seq<string>,
    unclassified: seq<string>, fallbackReason: Option<string>, tests: seq<string>,
    args: seq<string>, usedFullFast: bool, changedPaths: seq<string>)

  // ---- What the rules say ----

  predicate RuleMatches(r: PathRule, path: string) {
    exists p :: p in r.prefixes && PathMatchesPrefix(path, p)
  }

  predicate Classified(rules: set<PathRule>, path: string) {
    exists r :: r in rules && RuleMatches(r, path)
  }

  predicate AnyForced(rules: set<PathRule>, paths: set<string>) {
    exists r, p :: r in rules && p in paths && RuleMatches(r, p) && r.force
  }

  function PathGroups(rules: set<PathRule>, paths: set<string>): set<string> {
    set r, p, g | r in rules && p in paths && RuleMatches(r, p) && g in r.groups :: g
  }

  predicate LaneHit(r: LaneRule, lane: string) { lane != "" && lane in r.lanes }

  predicate ProfileHit(r: LaneRule, profile: string) { profile != "" && profile in r.profiles }

  function LaneGroups(rules: set<LaneRule>, lane: string, profile: string): set<string> {
    set r, g | r in rules && (LaneHit(r, lane) || ProfileHit(r, profile)) && g in r.groups :: g
  }

  /** `_group_pytest_paths` as a set. */
  function GroupTests(p: Policy, group: string): set<string> {
    if group !in p.testGroups || p.testGroups[group].inherits == "full_fast_unit" || group == FULL_FAST then {}
    else set t | t in p.testGroups[group].pytestPaths && Strip(t) != "" :: Slashes(t)
  }

  function TestsOf(p: Policy, groups: set<string>): set<string> {
    set g, t | g in groups && t in GroupTests(p, g) :: t
  }

  function Requested(p: Policy, paths: set<string>, lane: string, profile: string): set<string> {
    PathGroups(Elements(p.pathRules), paths) + LaneGroups(Elements(p.laneRules), lane, profile)
  }

  // ---- Order-dependent parts: the first forcing rule and the reasons ----

  function FirstForcing(rules: seq<PathRule>, path: string): Option<PathRule> {
    if rules == [] then None
    else
      var earlier := FirstForcing(rules[..|rules| - 1], path);
      var r := rules[|rules| - 1];
      if earlier.None? && RuleMatches(r, path) && r.force then Some(r) else earlier
  }

  function FirstForced(rules: seq<PathRule>, paths: seq<string>): Option<(string, PathRule)> {
    if paths == [] then None
    else
      var earlier := FirstForced(rules, paths[..|paths| - 1]);
      var forcing := FirstForcing(rules, paths[|paths| - 1]);
      if earlier.None? && forcing.Some? then Some((paths[|paths| - 1], forcing.value)) else earlier
  }

  function RuleReasons(r: PathRule, path: string): seq<string> {
    seq(|r.groups|, i requires 0 <= i < |r.groups| => "path:" + path + "->group:" + r.groups[i] + "(rule=" + r.id + ")")
  }

  function MatchReasons(rules: seq<PathRule>, path: string): seq<string> {
    if rules == [] then []
    else MatchReasons(rules[..|rules| - 1], path)
         + if RuleMatches(rules[|rules| - 1], path) then RuleReasons(rules[|rules| - 1], path) else []
  }

  function PathReasons(rules: seq<PathRule>, paths: seq<string>): seq<string> {
    if paths == [] then [] else PathReasons(rules, paths[..|paths| - 1]) + MatchReasons(rules, paths[|paths| - 1])
  }

  function LaneReason(r: LaneRule, lane: string, profile: string, group: string): seq<string> {
    var id := if r.id != "" then r.id else "lane";
    (if LaneHit(r, lane) then ["lane:" + lane + "->group:" + group + "(rule=" + id + ")"] else [])
    + if ProfileHit(r, profile) then ["validation_profile:" + profile + "->group:" + group + "(rule=" + id + ")"]
        else []
  }

  function GroupReasons(r: LaneRule, lane: string, profile: string, groups: seq<string>): seq<string> {
    if groups == [] then []
    else GroupReasons(r, lane, profile, groups[..|groups| - 1]) + LaneReason(r, lane, profile, groups[|groups| - 1])
  }

  function LaneReasons(rules: seq<LaneRule>, lane: string, profile: string): seq<string> {
    if rules == [] then []
    else
      var last := rules[|rules| - 1];
      LaneReasons(rules[..|rules| - 1], lane, profile) + GroupReasons(last, lane, profile, last.groups)
  }

  function Unclassified(rules: seq<PathRule>, paths: seq<string>): seq<string> {
    if paths == [] then []
    else Unclassified(rules, paths[..|paths| - 1])
         + if Classified(Elements(rules), paths[|paths| - 1]) then [] else [paths[|paths| - 1]]
  }

  function Join(xs: seq<string>): string {
    if xs == [] then "" else if |xs| == 1 then xs[0] else Join(xs[..|xs| - 1]) + "," + xs[|xs| - 1]
  }

  // ---- The specification ----

  function FullFastArgs(input: PolicyInput): seq<string> {
    if input.Loaded? && input.policy.fullFastArgs != [] then input.policy.fullFastArgs else FULL_FAST_ARGS
  }

  function PolicyIdOf(input: PolicyInput): string { if input.Loaded? then input.policy.policyId else "" }

  function SchemaVersionOf(input: PolicyInput): string { if input.Loaded? then input.policy.schemaVersion else "" }

  ghost function Fallback(input: PolicyInput, paths: seq<string>, reason: string, unclassified: seq<string>,
      reasons: seq<string>): Selection
  {
    Selection(PolicyIdOf(input), SchemaVersionOf(input),
              [FULL_FAST], ["fallback:" + reason] + reasons, SortedOf(NormalizedSet(Elements(unclassified))),
              Some(reason), [], FullFastArgs(input), true, paths)
  }

  ghost function Select(input: PolicyInput, paths: seq<string>, lane: string, profile: string): Selection {
    var error := PolicyError(input);
    if error.Some? then Fallback(input, paths, ErrorReason(error.value), paths, ["error:" + error.value])
    else
      var p := input.policy;
      var forced := FirstForced(p.pathRules, paths);
      if forced.Some? then
        var (path, r) := forced.value;
        Fallback(input, paths, if r.fallbackReason != "" then r.fallbackReason else "force_full_fallback", [],
                 ["path_rule:" + r.id + ":" + path])
      else if Unclassified(p.pathRules, paths) != [] then
        Fallback(input, paths, "unclassified_paths", Unclassified(p.pathRules, paths), PathReasons(p.pathRules, paths))
      else
        Chosen(p, paths, Requested(p, Elements(paths), lane, profile),
               PathReasons(p.pathRules, paths) + LaneReasons(p.laneRules, lane, profile))
  }

  /** With every path classified and none forced, the requested groups decide. */
  ghost function Chosen(p: Policy, paths: seq<string>, requested: set<string>, reasons: seq<string>): Selection {
    var narrow := requested - {FULL_FAST};
    if requested == {} then Fallback(Loaded(p), paths, "empty_selection", [], reasons)
    else if requested == {FULL_FAST} then Fallback(Loaded(p), paths, "selected_full_fast", [], reasons)
    else if TestsOf(p, narrow) == {} then
      Fallback(Loaded(p), paths, "empty_pytest_paths", [], reasons + ["groups:" + Join(SortedOf(narrow))])
    else
      Selection(p.policyId, p.schemaVersion, SortedOf(narrow), SortedOf(Elements(reasons)), [], None,
                SortedOf(TestsOf(p, narrow)), ["-q"], false, paths)
  }

  /** The narrow outcome in terms of sets: every path classified, none forced, some test left. */
  predicate Narrow(input: PolicyInput, paths: set<string>, lane: string, profile: string) {
    && PolicyError(input).None?
    && !AnyForced(Elements(input.policy.pathRules), paths)
    && (forall p :: p in paths ==> Classified(Elements(input.policy.pathRules), p))
    && TestsOf(input.policy, Requested(input.policy, paths, lane, profile) - {FULL_FAST}) != {}
  }

  lemma {:induction false} FirstForcingNone(rules: seq<PathRule>, path: string)
    ensures FirstForcing(rules, path).None? <==> forall r :: r in rules ==> !(RuleMatches(r, path) && r.force)
  {
    if rules != [] {
      FirstForcingNone(rules[..|rules| - 1], path);
      assert forall r :: r in rules <==> r in rules[..|rules| - 1] || r == rules[|rules| - 1];
    }
  }

  lemma {:induction false} FirstForcedNone(rules: seq<PathRule>, paths: seq<string>)
    ensures FirstForced(rules, paths).None? <==> !AnyForced(Elements(rules), Elements(paths))
  {
    if paths != [] {
      var rest, last := paths[..|paths| - 1], paths[|paths| - 1];
      FirstForcedNone(rules, rest);
      FirstForcingNone(rules, last);
      assert forall p :: p in Elements(paths) <==> p in Elements(rest) || p == last;
    }
  }

  lemma {:induction false} UnclassifiedEmpty(rules: seq<PathRule>, paths: seq<string>)
    ensures Unclassified(rules, paths) == [] <==> forall p :: p in paths ==> Classified(Elements(rules), p)
  {
    if paths != [] {
      UnclassifiedEmpty(rules, paths[..|paths| - 1]);
      assert forall p :: p in paths <==> p in paths[..|paths| - 1] || p == paths[|paths| - 1];
    }
  }

  /** A fallback runs everything and says why. */
  predicate FullShape(s: Selection) { s.groups == [FULL_FAST] && s.tests == [] && s.fallbackReason.Some? }

  /** A narrow outcome has precisely the tests of `groups`. */
  predicate NarrowShape(s: Selection, p: Policy, groups: set<string>) {
    && Ascending(s.groups) && Elements(s.groups) == groups
    && Ascending(s.tests) && Elements(s.tests) == TestsOf(p, groups)
    && s.tests != [] && s.unclassified == [] && s.fallbackReason.None?
  }

  /** The groups of a narrow outcome are all but full_fast that a matching path rule or a hit lane
      rule names. */
  predicate WellShaped(s: Selection, input: PolicyInput, paths: set<string>, lane: string, profile: string) {
    if s.usedFullFast then FullShape(s)
    else
      && PolicyError(input).None?
      && NarrowShape(s, input.policy, Requested(input.policy, paths, lane, profile) - {FULL_FAST})
  }

  /** Exactness: narrow exactly when `Narrow` says so, and then with precisely the requested tests. */
  lemma SelectExact(input: PolicyInput, paths: seq<string>, lane: string, profile: string)
    ensures var s := Select(input, paths, lane, profile);
            && (!s.usedFullFast <==> Narrow(input, Elements(paths), lane, profile))
            && WellShaped(s, input, Elements(paths), lane, profile)
  {
    FullFastIff(input, paths, lane, profile);
    OutcomeWellShaped(input, paths, lane, profile);
  }

  lemma OutcomeWellShaped(input: PolicyInput, paths: seq<string>, lane: string, profile: string)
    ensures WellShaped(Select(input, paths, lane, profile), input, Elements(paths), lane, profile)
  {
    if PolicyError(input).None? {
      var p := input.policy;
      ChosenWellShaped(p, paths, Requested(p, Elements(paths), lane, profile),
                       PathReasons(p.pathRules, paths) + LaneReasons(p.laneRules, lane, profile));
    }
  }

  lemma ChosenWellShaped(p: Policy, paths: seq<string>, requested: set<string>, reasons: seq<string>)
    ensures var s := Chosen(p, paths, requested, reasons);
            if s.usedFullFast then FullShape(s) else NarrowShape(s, p, requested - {FULL_FAST})
  {
  }

  lemma FullFastIff(input: PolicyInput, paths: seq<string>, lane: string, profile: string)
    ensures !Select(input, paths, lane, profile).usedFullFast <==> Narrow(input, Elements(paths), lane, profile)
  {
    if PolicyError(input).None? {
      var p := input.policy;
      FirstForcedNone(p.pathRules, paths);
      UnclassifiedEmpty(p.pathRules, paths);
      NoGroupsNoTests(p);
    }
  }

  lemma NoGroupsNoTests(p: Policy)
    ensures TestsOf(p, {} - {FULL_FAST}) == {} && TestsOf(p, {FULL_FAST} - {FULL_FAST}) == {}
  {
  }

  /** Monotone: more changed paths keep every test of a narrow selection, or run everything. */
  lemma SelectMonotone(input: PolicyInput, few: seq<string>, many: seq<string>, lane: string, profile: string)
    requires Elements(few) <= Elements(many)
    requires !Select(input, few, lane, profile).usedFullFast
    ensures var s, t := Select(input, few, lane, profile), Select(input, many, lane, profile);
            t.usedFullFast || (Elements(s.tests) <= Elements(t.tests) && Elements(s.groups) <= Elements(t.groups))
  {
    SelectExact(input, few, lane, profile);
    SelectExact(input, many, lane, profile);
  }

  /** Two policies that list the same path rules and lane rules, in any order and number. */
  predicate SameRules(p: Policy, q: Policy) {
    && q == p.(pathRules := q.pathRules, laneRules := q.laneRules)
    && Elements(p.pathRules) == Elements(q.pathRules) && Elements(p.laneRules) == Elements(q.laneRules)
  }

  lemma SameRulesSameErrors(p: Policy, q: Policy)
    requires SameRules(p, q)
    ensures PolicyError(Loaded(p)).None? <==> PolicyError(Loaded(q)).None?
  {
    RuleErrorIff(p.pathRules);
    RuleErrorIff(q.pathRules);
    assert forall r :: r in p.pathRules <==> r in Elements(p.pathRules);
    assert forall r :: r in q.pathRules <==> r in Elements(q.pathRules);
    assert p.pathRules != [] ==> p.pathRules[0] in q.pathRules;
    assert q.pathRules != [] ==> q.pathRules[0] in p.pathRules;
  }

  lemma SameRulesSameSets(p: Policy, q: Policy, paths: set<string>, lane: string, profile: string)
    requires SameRules(p, q)
    ensures Requested(p, paths, lane, profile) == Requested(q, paths, lane, profile)
    ensures forall groups :: TestsOf(p, groups) == TestsOf(q, groups)
    ensures Narrow(Loaded(p), paths, lane, profile) <==> Narrow(Loaded(q), paths, lane, profile)
  {
    SameRulesSameErrors(p, q);
    forall groups ensures TestsOf(p, groups) == TestsOf(q, groups) {
      assert forall g :: GroupTests(p, g) == GroupTests(q, g);
    }
  }

  /** The order of the rules decides neither the groups, nor the tests, nor the full-fast flag. */
  lemma RuleOrderIrrelevant(p: Policy, q: Policy, paths: seq<string>, lane: string, profile: string)
    requires SameRules(p, q)
    ensures var s, t := Select(Loaded(p), paths, lane, profile), Select(Loaded(q), paths, lane, profile);
            s.usedFullFast == t.usedFullFast && s.groups == t.groups && s.tests == t.tests
  {
    var s, t := Select(Loaded(p), paths, lane, profile), Select(Loaded(q), paths, lane, profile);
    SameRulesSameSets(p, q, Elements(paths), lane, profile);
    assert (!s.usedFullFast <==> Narrow(Loaded(p), Elements(paths), lane, profile))
        && (s.usedFullFast ==> s.groups == [FULL_FAST] && s.tests == []) by {
      SelectExact(Loaded(p), paths, lane, profile);
    }
    assert (!t.usedFullFast <==> Narrow(Loaded(q), Elements(paths), lane, profile))
        && (t.usedFullFast ==> t.groups == [FULL_FAST] && t.tests == []) by {
      SelectExact(Loaded(q), paths, lane, profile);
    }
    if !s.usedFullFast { NarrowListsAgree(p, q, paths, lane, profile); }
  }

  lemma NarrowListsAgree(p: Policy, q: Policy, paths: seq<string>, lane: string, profile: string)
    requires SameRules(p, q)
    requires !Select(Loaded(p), paths, lane, profile).usedFullFast
               && !Select(Loaded(q), paths, lane, profile).usedFullFast
    ensures Select(Loaded(p), paths, lane, profile).groups == Select(Loaded(q), paths, lane, profile).groups
    ensures Select(Loaded(p), paths, lane, profile).tests == Select(Loaded(q), paths, lane, profile).tests
  {
    SameRulesSameSets(p, q, Elements(paths), lane, profile);
    SelectExact(Loaded(p), paths, lane, profile);
    SelectExact(Loaded(q), paths, lane, profile);
    AscendingUnique(Select(Loaded(p), paths, lane, profile).groups, Select(Loaded(q), paths, lane, profile).groups);
    AscendingUnique(Select(Loaded(p), paths, lane, profile).tests, Select(Loaded(q), paths, lane, profile).tests);
  }

  /** A rule may ask for full_fast and not get it: with every path classified and none forced,
      the full selector runs exactly when the other requested groups have no test. */
  lemma FullFastRequestKept(input: PolicyInput, paths: seq<string>, lane: string, profile: string)
    requires PolicyError(input).None? && !AnyForced(Elements(input.policy.pathRules), Elements(paths))
    requires forall p :: p in paths ==> Classified(Elements(input.policy.pathRules), p)
    requires FULL_FAST in Requested(input.policy, Elements(paths), lane, profile)
    ensures Select(input, paths, lane, profile).usedFullFast
            <==> TestsOf(input.policy, Requested(input.policy, Elements(paths), lane, profile) - {FULL_FAST}) == {}
  {
    SelectExact(input, paths, lane, profile);
  }

  const DROPPING_RULE := PathRule("r", ["x"], false, "", ["g", "full_fast"])
  const DROPPING_POLICY := Policy(POLICY_SCHEMA, "p", map["g" := Group("", ["t"])], [DROPPING_RULE], [], true, [])

  /** Not every matching rule that asks for full_fast gets it. */
  lemma FullFastRequestDropped()
    ensures RuleMatches(DROPPING_RULE, "x") && FULL_FAST in DROPPING_RULE.groups
    ensures !Select(Loaded(DROPPING_POLICY), ["x"], "", "").usedFullFast
  {
    var input, r := Loaded(DROPPING_POLICY), DROPPING_RULE;
    assert RuleMatches(r, "x") by {
      assert Slashes("x") == "x" && DropTrailingSlashes("x") == "x";
      assert r.prefixes[0] == "x" && PathMatchesPrefix("x", "x");
    }
    assert r.groups[1] == FULL_FAST && r.groups[0] == "g";
    assert "g" != FULL_FAST by { assert |"g"| != |FULL_FAST|; }
    assert input.policy.pathRules[0] == r && forall q :: q in Elements(input.policy.pathRules) <==> q == r;
    assert RuleError([r]) == None by { assert [r][1..] == []; }
    assert "x" in Elements(["x"]) && r in Elements(input.policy.pathRules) && "g" in r.groups;
    assert "g" in PathGroups(Elements(input.policy.pathRules), Elements(["x"]));
    assert "g" in Requested(input.policy, Elements(["x"]), "", "") - {FULL_FAST};
    assert "t" in GroupTests(input.policy, "g") by {
      assert StripLeft("t") == "t" && StripRight("t") == "t" && Slashes("t") == "t";
      assert input.policy.testGroups["g"].pytestPaths[0] == "t";
    }
    assert "t" in TestsOf(input.policy, Requested(input.policy, Elements(["x"]), "", "") - {FULL_FAST});
    SelectExact(input, ["x"], "", "");
  }

  // ---- The code ----

  method Fall(input: PolicyInput, paths: seq<string>, reason: string, unclassified: seq<string>, reasons: seq<string>)
    returns (s: Selection)
    ensures s == Fallback(input, paths, reason, unclassified, reasons)
  {
    var shown := NormalizeChangedPaths(unclassified);
    s := Selection(PolicyIdOf(input), SchemaVersionOf(input), [FULL_FAST], ["fallback:" + reason] + reasons, shown,
                   Some(reason), [], FullFastArgs(input), true, paths);
  }

  /** One changed path against all path rules, in order, up to a forcing one. */
  method ScanPath(rules: seq<PathRule>, path: string, selected0: set<string>, reasons0: seq<string>)
    returns (forcing: Option<PathRule>, matchedAny: bool, selected: set<string>, reasons: seq<string>)
    ensures forcing == FirstForcing(rules, path)
    ensures forcing.None? ==>
              && (matchedAny <==> Classified(Elements(rules), path))
              && selected == selected0 + PathGroups(Elements(rules), {path})
              && reasons == reasons0 + MatchReasons(rules, path)
  {
    forcing, matchedAny, selected, reasons := None, false, selected0, reasons0;
    var i := 0;
    while i < |rules|
      invariant 0 <= i <= |rules| && FirstForcing(rules[..i], path) == None
      invariant Scanned(rules[..i], path, selected0, reasons0, matchedAny, selected, reasons)
    {
      var r := rules[i];
      ForcingLater(rules, i, path);
      ScannedLater(rules, i, path, selected0, reasons0, matchedAny, selected, reasons);
      if RuleMatches(r, path) {
        matchedAny := true;
        if r.force {
          ForcingStays(rules, i + 1, path);
          forcing := Some(r);
          return;
        }
        selected := selected + Elements(r.groups);
        reasons := reasons + RuleReasons(r, path);
      }
      i := i + 1;
    }
    assert rules[..i] == rules;
  }

  /** What is collected after `rules`, none of them forcing. */
  predicate Scanned(rules: seq<PathRule>, path: string, selected0: set<string>, reasons0: seq<string>,
      matchedAny: bool, selected: set<string>, reasons: seq<string>)
  {
    && (matchedAny <==> Classified(Elements(rules), path))
    && selected == selected0 + PathGroups(Elements(rules), {path})
    && reasons == reasons0 + MatchReasons(rules, path)
  }

  lemma ScannedLater(rules: seq<PathRule>, i: nat, path: string, selected0: set<string>, reasons0: seq<string>,
      matchedAny: bool, selected: set<string>, reasons: seq<string>)
    requires i < |rules| && Scanned(rules[..i], path, selected0, reasons0, matchedAny, selected, reasons)
    ensures var r := rules[i];
            if RuleMatches(r, path)
            then Scanned(rules[..i + 1], path, selected0, reasons0, true, selected + Elements(r.groups),
                         reasons + RuleReasons(r, path))
            else Scanned(rules[..i + 1], path, selected0, reasons0, matchedAny, selected, reasons)
  {
    RuleLater(rules, i, path);
    var r := rules[i];
    Regroup(selected0, PathGroups(Elements(rules[..i]), {path}), Elements(r.groups),
            reasons0, MatchReasons(rules[..i], path), RuleReasons(r, path));
  }

  lemma Regroup(a: set<string>, b: set<string>, c: set<string>, x: seq<string>, y: seq<string>, z: seq<string>)
    ensures (a + b) + c == a + (b + c) && b + {} == b
    ensures (x + y) + z == x + (y + z) && y + [] == y
  {
  }

  lemma RuleLater(rules: seq<PathRule>, i: nat, path: string)
    requires i < |rules|
    ensures Classified(Elements(rules[..i + 1]), path)
            <==> Classified(Elements(rules[..i]), path) || RuleMatches(rules[i], path)
    ensures PathGroups(Elements(rules[..i + 1]), {path})
            == PathGroups(Elements(rules[..i]), {path})
               + if RuleMatches(rules[i], path) then Elements(rules[i].groups) else {}
    ensures MatchReasons(rules[..i + 1], path)
            == MatchReasons(rules[..i], path) + if RuleMatches(rules[i], path) then RuleReasons(rules[i], path) else []
  {
    assert rules[..i + 1][..i] == rules[..i];
    assert Elements(rules[..i + 1]) == Elements(rules[..i]) + {rules[i]};
  }

  lemma ForcingLater(rules: seq<PathRule>, i: nat, path: string)
    requires i < |rules| && FirstForcing(rules[..i], path).None?
    ensures FirstForcing(rules[..i + 1], path)
            == if RuleMatches(rules[i], path) && rules[i].force then Some(rules[i]) else None
  {
    assert rules[..i + 1][..i] == rules[..i];
  }

  lemma {:induction false} ForcingStays(rules: seq<PathRule>, k: nat, path: string)
    requires k <= |rules| && FirstForcing(rules[..k], path).Some?
    ensures FirstForcing(rules, path) == FirstForcing(rules[..k], path)
  {
    if k < |rules| {
      assert rules[..|rules| - 1][..k] == rules[..k];
      ForcingStays(rules[..|rules| - 1], k, path);
    } else {
      assert rules[..k] == rules;
    }
  }

  lemma {:induction false} ForcedStays(rules: seq<PathRule>, paths: seq<string>, k: nat)
    requires k <= |paths| && FirstForced(rules, paths[..k]).Some?
    ensures FirstForced(rules, paths) == FirstForced(rules, paths[..k])
  {
    if k < |paths| {
      assert paths[..|paths| - 1][..k] == paths[..k];
      ForcedStays(rules, paths[..|paths| - 1], k);
    } else {
      assert paths[..k] == paths;
    }
  }

  lemma PathGroupsSplit(rules: set<PathRule>, a: set<string>, b: set<string>)
    ensures PathGroups(rules, a + b) == PathGroups(rules, a) + PathGroups(rules, b)
  {
  }

  /** All changed paths, in order, up to a forcing rule. */
  method ScanPaths(rules: seq<PathRule>, paths: seq<string>)
    returns (forced: Option<(string, PathRule)>, unclassified: seq<string>, selected: set<string>, reasons: seq<string>)
    ensures forced == FirstForced(rules, paths)
    ensures forced.None? ==>
              && unclassified == Unclassified(rules, paths)
              && selected == PathGroups(Elements(rules), Elements(paths))
              && reasons == PathReasons(rules, paths)
  {
    forced, unclassified, selected, reasons := None, [], {}, [];
    var i := 0;
    while i < |paths|
      invariant 0 <= i <= |paths|
      invariant FirstForced(rules, paths[..i]) == None
      invariant unclassified == Unclassified(rules, paths[..i])
      invariant selected == PathGroups(Elements(rules), Elements(paths[..i]))
      invariant reasons == PathReasons(rules, paths[..i])
    {
      assert paths[..i + 1][..i] == paths[..i];
      assert Elements(paths[..i + 1]) == Elements(paths[..i]) + {paths[i]};
      PathGroupsSplit(Elements(rules), Elements(paths[..i]), {paths[i]});
      var forcing, matchedAny;
      forcing, matchedAny, selected, reasons := ScanPath(rules, paths[i], selected, reasons);
      if forcing.Some? {
        ForcedStays(rules, paths, i + 1);
        forced := Some((paths[i], forcing.value));
        return;
      }
      if !matchedAny { unclassified := unclassified + [paths[i]]; }
      i := i + 1;
    }
    assert paths[..i] == paths;
  }

  /** The lane loop as a fold. */
  function LaneFold(rules: seq<LaneRule>, lane: string, profile: string,
      acc: (set<string>, seq<string>)): (set<string>, seq<string>)
  {
    if rules == [] then acc
    else
      var (selected, reasons) := LaneFold(rules[..|rules| - 1], lane, profile, acc);
      var r := rules[|rules| - 1];
      if LaneHit(r, lane) || ProfileHit(r, profile) then
        (selected + Elements(r.groups), reasons + GroupReasons(r, lane, profile, r.groups))
      else (selected, reasons)
  }

  lemma {:induction false} LaneFoldSets(rules: seq<LaneRule>, lane: string, profile: string,
      acc: (set<string>, seq<string>))
    ensures LaneFold(rules, lane, profile, acc).0 == acc.0 + LaneGroups(Elements(rules), lane, profile)
  {
    if rules != [] {
      var rest, r := rules[..|rules| - 1], rules[|rules| - 1];
      LaneFoldSets(rest, lane, profile, acc);
      assert Elements(rules) == Elements(rest) + {r};
      LaneGroupsStep(Elements(rest), r, lane, profile);
    }
  }

  lemma {:induction false} LaneFoldReasons(rules: seq<LaneRule>, lane: string, profile: string,
      acc: (set<string>, seq<string>))
    ensures LaneFold(rules, lane, profile, acc).1 == acc.1 + LaneReasons(rules, lane, profile)
  {
    if rules != [] {
      var rest, r := rules[..|rules| - 1], rules[|rules| - 1];
      LaneFoldReasons(rest, lane, profile, acc);
      if !LaneHit(r, lane) && !ProfileHit(r, profile) { NoReasons(r, lane, profile, r.groups); }
    }
  }

  method ScanLanes(rules: seq<LaneRule>, lane: string, profile: string, selected0: set<string>, reasons0: seq<string>)
    returns (selected: set<string>, reasons: seq<string>)
    ensures selected == selected0 + LaneGroups(Elements(rules), lane, profile)
    ensures reasons == reasons0 + LaneReasons(rules, lane, profile)
  {
    selected, reasons := selected0, reasons0;
    var i := 0;
    while i < |rules|
      invariant 0 <= i <= |rules|
      invariant (selected, reasons) == LaneFold(rules[..i], lane, profile, (selected0, reasons0))
    {
      var r := rules[i];
      assert rules[..i + 1][..i] == rules[..i];
      if LaneHit(r, lane) || ProfileHit(r, profile) {
        selected := selected + Elements(r.groups);
        reasons := reasons + GroupReasons(r, lane, profile, r.groups);
      }
      i := i + 1;
    }
    assert rules[..i] == rules;
    LaneFoldSets(rules, lane, profile, (selected0, reasons0));
    LaneFoldReasons(rules, lane, profile, (selected0, reasons0));
  }

  lemma LaneGroupsStep(rules: set<LaneRule>, r: LaneRule, lane: string, profile: string)
    ensures LaneGroups(rules + {r}, lane, profile)
            == LaneGroups(rules, lane, profile)
                + if LaneHit(r, lane) || ProfileHit(r, profile) then Elements(r.groups) else {}
  {
  }

  lemma {:induction false} NoReasons(r: LaneRule, lane: string, profile: string, groups: seq<string>)
    requires !LaneHit(r, lane) && !ProfileHit(r, profile)
    ensures GroupReasons(r, lane, profile, groups) == []
  {
    if groups != [] { NoReasons(r, lane, profile, groups[..|groups| - 1]); }
  }

  /** The tests of the ordered groups, gathered group by group. */
  method GatherTests(p: Policy, groups: seq<string>) returns (tests: seq<string>)
    ensures tests == SortedOf(TestsOf(p, Elements(groups)))
  {
    var found: set<string> := {};
    var i := 0;
    while i < |groups|
      invariant 0 <= i <= |groups|
      invariant found == TestsOf(p, Elements(groups[..i]))
    {
      assert Elements(groups[..i + 1]) == Elements(groups[..i]) + {groups[i]};
      found := found + GroupTests(p, groups[i]);
      i := i + 1;
    }
    assert groups[..i] == groups;
    tests := Sorted(found);
  }

  /** `select_slice_test_groups`; lane and profile come stripped. */
  method SelectSliceTestGroups(changedPaths: seq<string>, lane: string, profile: string, input: PolicyInput)
    returns (s: Selection)
    ensures s == Select(input, SortedOf(NormalizedSet(Elements(changedPaths))), lane, profile)
  {
    var paths := NormalizeChangedPaths(changedPaths);
    var error := PolicyError(input);
    if error.Some? {
      s := Fall(input, paths, ErrorReason(error.value), paths, ["error:" + error.value]);
      return;
    }
    var p := input.policy;
    var forced, unclassified, selected, reasons := ScanPaths(p.pathRules, paths);
    if forced.Some? {
      var r := forced.value.1;
      s := Fall(input, paths, if r.fallbackReason != "" then r.fallbackReason else "force_full_fallback", [],
                ["path_rule:" + r.id + ":" + forced.value.0]);
      return;
    }
    if unclassified != [] {
      s := Fall(input, paths, "unclassified_paths", unclassified, reasons);
      return;
    }
    selected, reasons := ScanLanes(p.laneRules, lane, profile, selected, reasons);
    if selected == {} {
      s := Fall(input, paths, "empty_selection", [], reasons);
      return;
    }
    if selected == {FULL_FAST} {
      s := Fall(input, paths, "selected_full_fast", [], reasons);
      return;
    }
    var groups := Sorted(selected - {FULL_FAST});
    var tests := GatherTests(p, groups);
    if tests == [] {
      s := Fall(input, paths, "empty_pytest_paths", [], reasons + ["groups:" + Join(groups)]);
      return;
    }
    var shown := Sorted(Elements(reasons));
    s := Selection(p.policyId, p.schemaVersion, groups, shown, [], None, tests, ["-q"], false, paths);
  }

  /** Permuting or repeating the changed paths changes nothing in the whole result. */
  lemma PathOrderIrrelevant(a: seq<string>, b: seq<string>, lane: string, profile: string, input: PolicyInput)
    requires multiset(a) == multiset(b) || Elements(a) == Elements(b)
    ensures Select(input, SortedOf(NormalizedSet(Elements(a))), lane, profile)
            == Select(input, SortedOf(NormalizedSet(Elements(b))), lane, profile)
  {
    if multiset(a) == multiset(b) {
      assert forall x :: x in Elements(a) <==> x in multiset(a);
      assert forall x :: x in Elements(b) <==> x in multiset(b);
      assert Elements(a) == Elements(b);
    }
  }

  /** `build_unit_pytest_command`; `durations` is the rendered option, or "" for none. */
  function BuildUnitCommand(s: Selection, python: string, durations: string): seq<string> {
    [python, "-m", "pytest"]
    + (if s.usedFullFast || s.tests == [] then (if s.args != [] then s.args else FULL_FAST_ARGS)
       else s.tests + if s.args != [] then s.args else ["-q"])
    + if durations != "" then [durations] else []
  }

  /** The unit stage runs the narrow tests, or else the policy's full-fast command. */
  lemma CommandExact(input: PolicyInput, paths: seq<string>, lane: string, profile: string, python: string,
      durations: string)
    ensures var s := Select(input, paths, lane, profile);
            BuildUnitCommand(s, python, durations)
            == [python, "-m", "pytest"]
               + (if Narrow(input, Elements(paths), lane, profile) then s.tests + ["-q"] else FullFastArgs(input))
               + if durations != "" then [durations] else []
  {
    ArgsExact(input, paths, lane, profile);
  }

  lemma ArgsExact(input: PolicyInput, paths: seq<string>, lane: string, profile: string)
    ensures var s := Select(input, paths, lane, profile);
            if Narrow(input, Elements(paths), lane, profile) then !s.usedFullFast && s.tests != [] && s.args == ["-q"]
            else s.usedFullFast && s.args == FullFastArgs(input) && s.args != []
  {
    SelectExact(input, paths, lane, profile);
  }
}
