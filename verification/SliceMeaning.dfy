/** What a slice selection is, in terms of the changed paths, the lane and the fields of the policy. */
module SliceMeaning {
  import opened Wrappers
  import opened Text
  import opened SlicePolicy
  import opened SliceSelection

  // ---- Texts ----

  predicate Blank(c: char) { c as int in [32, 9, 10, 11, 12, 13, 28, 29, 30, 31] }

  /** What `strip` leaves lies between blanks and has none at its ends. */
  lemma StripMeans(s: string) returns (i: nat, j: nat)
    ensures i <= j <= |s| && Strip(s) == s[i..j]
    ensures forall k :: 0 <= k < i || j <= k < |s| ==> Blank(s[k])
    ensures i < j ==> !Blank(s[i]) && !Blank(s[j - 1])
  {
    i := LeftMeans(s);
    j := RightMeans(s[i..]);
    j := i + j;
    assert s[i..][..j - i] == s[i..j];
  }

  lemma {:induction false} LeftMeans(s: string) returns (i: nat)
    ensures i <= |s| && StripLeft(s) == s[i..] && (i < |s| ==> !Blank(s[i]))
    ensures forall k :: 0 <= k < i ==> Blank(s[k])
  {
    i := 0;
    if s != "" && IsSpace(s[0]) {
      i := LeftMeans(s[1..]);
      assert s[1..][i..] == s[i + 1..];
      forall k | 0 <= k < i + 1 ensures Blank(s[k]) {
        if k > 0 { assert s[k] == s[1..][k - 1]; }
      }
      i := i + 1;
    }
  }

  lemma {:induction false} RightMeans(s: string) returns (j: nat)
    ensures j <= |s| && StripRight(s) == s[..j] && (j > 0 ==> !Blank(s[j - 1]))
    ensures forall k :: j <= k < |s| ==> Blank(s[k])
  {
    j := |s|;
    if s != "" && IsSpace(s[|s| - 1]) {
      j := RightMeans(s[..|s| - 1]);
      assert s[..|s| - 1][..j] == s[..j];
      assert forall k :: 0 <= k < |s| - 1 ==> s[..|s| - 1][k] == s[k];
    } else {
      assert s[..j] == s;
    }
  }

  lemma SlashesMean(s: string)
    ensures forall i :: 0 <= i < |s| ==> Slashes(s)[i] == if s[i] == '\\' then '/' else s[i]
  {
  }

  /** Only whole `./` go, all of them at the front. */
  lemma {:induction false} DropMeans(s: string) returns (n: nat)
    ensures n % 2 == 0 && n <= |s| && DropDotSlash(s) == s[n..] && !("./" <= s[n..])
    ensures forall i :: 0 <= i < n ==> s[i] == if i % 2 == 0 then '.' else '/'
  {
    n := 0;
    if "./" <= s {
      n := DropMeans(s[2..]);
      assert s[2..][n..] == s[n + 2..];
      assert s[0] == "./"[0] && s[1] == "./"[1];
      forall i | 2 <= i < n + 2 ensures s[i] == if i % 2 == 0 then '.' else '/' {
        assert s[i] == s[2..][i - 2];
      }
      n := n + 2;
    }
  }

  lemma NormalizedMeans(raw: set<string>, q: string)
    ensures q in NormalizedSet(raw)
            <==> exists r :: r in raw && Slashes(Strip(r)) != "" && q == DropDotSlash(Slashes(Strip(r)))
  {
  }

  // ---- Prefixes ----

  predicate Slash(c: char) { c == '/' || c == '\\' }

  /** All but the first `k` characters are slashes. */
  predicate EndsAt(prefix: string, k: nat)
    requires k <= |prefix|
  {
    (forall i :: k <= i < |prefix| ==> Slash(prefix[i])) && (k > 0 ==> !Slash(prefix[k - 1]))
  }

  /** Character by character: the path begins with the first `k` characters of the prefix, whose others
      are slashes, and ends there or goes on with a slash. */
  predicate UnderAt(path: string, prefix: string, k: nat)
    requires k <= |prefix|
  {
    && EndsAt(prefix, k) && k <= |path|
    && (forall i :: 0 <= i < k ==> path[i] == if prefix[i] == '\\' then '/' else prefix[i])
    && (|path| == k || path[k] == '/')
  }

  predicate Under(path: string, prefix: string) { exists k :: 0 <= k <= |prefix| && UnderAt(path, prefix, k) }

  lemma {:induction false} TrailingMeans(s: string) returns (k: nat)
    ensures k <= |s| && DropTrailingSlashes(s) == s[..k] && (k > 0 ==> s[k - 1] != '/')
    ensures forall i :: k <= i < |s| ==> s[i] == '/'
  {
    k := |s|;
    if s != "" && s[|s| - 1] == '/' {
      k := TrailingMeans(s[..|s| - 1]);
      assert s[..|s| - 1][..k] == s[..k];
      assert forall i :: 0 <= i < |s| - 1 ==> s[..|s| - 1][i] == s[i];
    } else {
      assert s[..k] == s;
    }
  }

  lemma MatchMeans(path: string, prefix: string)
    ensures PathMatchesPrefix(path, prefix) <==> Under(path, prefix)
  {
    var k := TrailingMeans(Slashes(prefix));
    var norm := DropTrailingSlashes(Slashes(prefix));
    SlashesMean(prefix);
    MatchesAtBoundary(path, prefix);
    OnlyLength(path, prefix, k);
    PrefixByCharacters(path, norm);
    assert UnderAt(path, prefix, k) <==> PathMatchesPrefix(path, prefix);
  }

  lemma OnlyLength(path: string, prefix: string, k: nat)
    requires k <= |prefix| && EndsAt(prefix, k)
    ensures Under(path, prefix) <==> UnderAt(path, prefix, k)
  {
    forall j | 0 <= j <= |prefix| && EndsAt(prefix, j) ensures j == k { OneEnd(prefix, j, k); }
  }

  lemma OneEnd(prefix: string, j: nat, k: nat)
    requires j <= |prefix| && k <= |prefix| && EndsAt(prefix, j) && EndsAt(prefix, k)
    ensures j == k
  {
  }

  lemma PrefixByCharacters(path: string, norm: string)
    ensures path == norm || norm + "/" <= path
            <==> |norm| <= |path| && (forall i :: 0 <= i < |norm| ==> path[i] == norm[i])
                 && (|path| == |norm| || path[|norm|] == '/')
  {
    if norm + "/" <= path {
      assert forall i :: 0 <= i < |norm| ==> path[i] == (norm + "/")[i];
      assert path[|norm|] == (norm + "/")[|norm|];
    }
  }

  // ---- What the policy asks for ----

  /** Some prefix of the rule is that of the path. */
  predicate Hits(r: PathRule, path: string) { exists k :: 0 <= k < |r.prefixes| && Under(path, r.prefixes[k]) }

  lemma HitsIff(r: PathRule, path: string)
    ensures RuleMatches(r, path) <==> Hits(r, path)
  {
    forall p ensures PathMatchesPrefix(path, p) <==> Under(path, p) { MatchMeans(path, p); }
    assert forall k :: 0 <= k < |r.prefixes| ==> r.prefixes[k] in r.prefixes;
  }

  predicate LaneRuleHit(r: LaneRule, lane: string, profile: string) {
    (lane != "" && lane in r.lanes) || (profile != "" && profile in r.profiles)
  }

  /** A path rule that a path hits names the group, or a lane rule that lane or profile hits. */
  predicate Asked(p: Policy, paths: seq<string>, lane: string, profile: string, g: string) {
    || (exists j :: 0 <= j < |p.pathRules| && g in p.pathRules[j].groups && HitBySome(p.pathRules[j], paths))
    || (exists j :: 0 <= j < |p.laneRules| && g in p.laneRules[j].groups && LaneRuleHit(p.laneRules[j], lane, profile))
  }

  predicate HitBySome(r: PathRule, paths: seq<string>) { exists m :: 0 <= m < |paths| && Hits(r, paths[m]) }

  lemma AskedIff(p: Policy, paths: seq<string>, lane: string, profile: string, g: string)
    ensures g in Requested(p, Elements(paths), lane, profile) <==> Asked(p, paths, lane, profile, g)
  {
    PathAskedIff(p.pathRules, paths, g);
    LaneAskedIff(p.laneRules, lane, profile, g);
  }

  lemma PathAskedIff(rules: seq<PathRule>, paths: seq<string>, g: string)
    ensures g in PathGroups(Elements(rules), Elements(paths))
            <==> exists j :: 0 <= j < |rules| && g in rules[j].groups && HitBySome(rules[j], paths)
  {
    forall r, path ensures RuleMatches(r, path) <==> Hits(r, path) { HitsIff(r, path); }
    if j :| 0 <= j < |rules| && g in rules[j].groups && HitBySome(rules[j], paths) {
      var m :| 0 <= m < |paths| && Hits(rules[j], paths[m]);
      assert rules[j] in Elements(rules) && paths[m] in Elements(paths);
    }
    if g in PathGroups(Elements(rules), Elements(paths)) {
      var r, path :| r in Elements(rules) && path in Elements(paths) && RuleMatches(r, path) && g in r.groups;
      var j :| 0 <= j < |rules| && rules[j] == r;
      var m :| 0 <= m < |paths| && paths[m] == path;
      assert Hits(rules[j], paths[m]);
    }
  }

  lemma LaneAskedIff(rules: seq<LaneRule>, lane: string, profile: string, g: string)
    ensures g in LaneGroups(Elements(rules), lane, profile)
            <==> exists j :: 0 <= j < |rules| && g in rules[j].groups && LaneRuleHit(rules[j], lane, profile)
  {
    if j :| 0 <= j < |rules| && g in rules[j].groups && LaneRuleHit(rules[j], lane, profile) {
      assert rules[j] in Elements(rules);
    }
  }

  /** Entry `i` of the group's paths is the test `t`. */
  predicate ListsTest(p: Policy, g: string, i: nat, t: string)
    requires g in p.testGroups && i < |p.testGroups[g].pytestPaths|
  {
    && g != "full_fast" && p.testGroups[g].inherits != "full_fast_unit"
    && Strip(p.testGroups[g].pytestPaths[i]) != "" && t == Slashes(p.testGroups[g].pytestPaths[i])
  }

  /** Some group that is asked for lists the test. */
  predicate Wanted(p: Policy, paths: seq<string>, lane: string, profile: string, t: string) {
    exists g :: g in p.testGroups && Asked(p, paths, lane, profile, g)
                && exists i :: 0 <= i < |p.testGroups[g].pytestPaths| && ListsTest(p, g, i, t)
  }

  lemma WantedIff(p: Policy, paths: seq<string>, lane: string, profile: string, t: string)
    ensures t in TestsOf(p, Requested(p, Elements(paths), lane, profile) - {FULL_FAST})
            <==> Wanted(p, paths, lane, profile, t)
  {
    var requested := Requested(p, Elements(paths), lane, profile);
    forall g ensures g in requested <==> Asked(p, paths, lane, profile, g) { AskedIff(p, paths, lane, profile, g); }
    forall g | g in p.testGroups
      ensures t in GroupTests(p, g) <==> exists i :: 0 <= i < |p.testGroups[g].pytestPaths| && ListsTest(p, g, i, t)
    {
      GroupListsIff(p, g, t);
    }
    assert t in TestsOf(p, requested - {FULL_FAST}) ==>
        exists g :: g in requested && g in p.testGroups && t in GroupTests(p, g);
  }

  lemma GroupListsIff(p: Policy, g: string, t: string)
    requires g in p.testGroups
    ensures t in GroupTests(p, g) <==> exists i :: 0 <= i < |p.testGroups[g].pytestPaths| && ListsTest(p, g, i, t)
  {
    var ts := p.testGroups[g].pytestPaths;
    if i :| 0 <= i < |ts| && ListsTest(p, g, i, t) { assert ts[i] in ts; }
    if t in GroupTests(p, g) {
      var path :| path in ts && Strip(path) != "" && Slashes(path) == t;
      var i :| 0 <= i < |ts| && ts[i] == path;
      assert ListsTest(p, g, i, t);
    }
  }

  // ---- The outcome ----

  /** What the policy must be for a selection to be tried. */
  predicate PolicySound(input: PolicyInput) {
    input.Loaded? && var p := input.policy;
    && p.schemaVersion == "cdb-slice-validation-policy/v1" && p.policyId != "" && |p.testGroups| > 0
    && ("full_fast" in p.testGroups || p.definesFullFastUnit) && p.pathRules != []
    && forall j :: 0 <= j < |p.pathRules| ==> var r := p.pathRules[j];
         r.id != "" && r.prefixes != [] && (r.force || r.groups != [])
  }

  lemma SoundIff(input: PolicyInput)
    ensures PolicyError(input).None? <==> PolicySound(input)
  {
    if input.Loaded? {
      var p := input.policy;
      RuleErrorIff(p.pathRules);
      assert forall j :: 0 <= j < |p.pathRules| ==> p.pathRules[j] in p.pathRules;
      assert p.testGroups == map[] <==> |p.testGroups| == 0;
    }
  }

  predicate ForcedAt(p: Policy, path: string, j: nat)
    requires j < |p.pathRules|
  {
    p.pathRules[j].force && Hits(p.pathRules[j], path)
  }

  predicate ForcedBySome(p: Policy, path: string) { exists j :: 0 <= j < |p.pathRules| && ForcedAt(p, path, j) }

  predicate HitsSome(p: Policy, path: string) { exists j :: 0 <= j < |p.pathRules| && Hits(p.pathRules[j], path) }

  /** A selection is narrow exactly if the policy is sound, every path hits a rule, none a forcing one,
      and some test is wanted. */
  lemma NarrowIff(input: PolicyInput, paths: seq<string>, lane: string, profile: string)
    ensures !Select(input, paths, lane, profile).usedFullFast
            <==> && PolicySound(input)
                 && (forall m :: 0 <= m < |paths| ==>
                      HitsSome(input.policy, paths[m]) && !ForcedBySome(input.policy, paths[m]))
                 && exists t :: Wanted(input.policy, paths, lane, profile, t)
  {
    SelectExact(input, paths, lane, profile);
    SoundIff(input);
    if input.Loaded? {
      var p := input.policy;
      RulesIff(p, paths);
      forall t
        ensures t in TestsOf(p, Requested(p, Elements(paths), lane, profile) - {FULL_FAST})
                <==> Wanted(p, paths, lane, profile, t)
      {
        WantedIff(p, paths, lane, profile, t);
      }
      SomeElement(TestsOf(p, Requested(p, Elements(paths), lane, profile) - {FULL_FAST}));
    }
  }

  lemma SomeElement(s: set<string>)
    ensures s != {} <==> exists t :: t in s
  {
  }

  lemma RulesIff(p: Policy, paths: seq<string>)
    ensures (forall path :: path in Elements(paths) ==> Classified(Elements(p.pathRules), path))
            <==> forall m :: 0 <= m < |paths| ==> HitsSome(p, paths[m])
    ensures AnyForced(Elements(p.pathRules), Elements(paths))
            <==> exists m :: 0 <= m < |paths| && ForcedBySome(p, paths[m])
  {
    forall m | 0 <= m < |paths|
      ensures Classified(Elements(p.pathRules), paths[m]) <==> HitsSome(p, paths[m])
      ensures (exists r :: r in Elements(p.pathRules) && RuleMatches(r, paths[m]) && r.force)
              <==> ForcedBySome(p, paths[m])
    {
      PathIff(p, paths[m]);
    }
    assert forall m :: 0 <= m < |paths| ==> paths[m] in Elements(paths);
  }

  lemma PathIff(p: Policy, path: string)
    ensures Classified(Elements(p.pathRules), path) <==> HitsSome(p, path)
    ensures (exists r :: r in Elements(p.pathRules) && RuleMatches(r, path) && r.force) <==> ForcedBySome(p, path)
  {
    forall r ensures RuleMatches(r, path) <==> Hits(r, path) { HitsIff(r, path); }
    assert forall j :: 0 <= j < |p.pathRules| ==> p.pathRules[j] in Elements(p.pathRules);
    if r :| r in Elements(p.pathRules) && Hits(r, path) && r.force {
      var j :| 0 <= j < |p.pathRules| && p.pathRules[j] == r;
      assert ForcedAt(p, path, j);
    }
    if j :| 0 <= j < |p.pathRules| && ForcedAt(p, path, j) {
      assert RuleMatches(p.pathRules[j], path);
    }
  }

  /** A narrow selection has the tests that are wanted and the groups that are asked for, `full_fast`
      apart, each list ascending. */
  lemma NarrowMeans(input: PolicyInput, paths: seq<string>, lane: string, profile: string)
    requires !Select(input, paths, lane, profile).usedFullFast
    ensures var s := Select(input, paths, lane, profile);
            && (forall t :: t in s.tests <==> Wanted(input.policy, paths, lane, profile, t))
            && (forall g :: g in s.groups <==> g != "full_fast" && Asked(input.policy, paths, lane, profile, g))
            && Ascending(s.tests) && Ascending(s.groups)
  {
    var p := input.policy;
    NarrowLists(input, paths, lane, profile);
    forall t
      ensures t in TestsOf(p, Requested(p, Elements(paths), lane, profile) - {FULL_FAST})
              <==> Wanted(p, paths, lane, profile, t)
    {
      WantedIff(p, paths, lane, profile, t);
    }
    forall g ensures g in Requested(p, Elements(paths), lane, profile) <==> Asked(p, paths, lane, profile, g) {
      AskedIff(p, paths, lane, profile, g);
    }
  }

  lemma NarrowLists(input: PolicyInput, paths: seq<string>, lane: string, profile: string)
    requires !Select(input, paths, lane, profile).usedFullFast
    ensures var (s, groups) := (Select(input, paths, lane, profile),
                                Requested(input.policy, Elements(paths), lane, profile) - {FULL_FAST});
            && Ascending(s.tests) && (forall t :: t in s.tests <==> t in TestsOf(input.policy, groups))
            && Ascending(s.groups) && (forall g :: g in s.groups <==> g in groups)
  {
    var s := Select(input, paths, lane, profile);
    SelectExact(input, paths, lane, profile);
    assert forall t :: t in s.tests <==> t in Elements(s.tests);
    assert forall g :: g in s.groups <==> g in Elements(s.groups);
  }

  /** The other fields of an outcome. */
  lemma OutcomeMeans(input: PolicyInput, paths: seq<string>, lane: string, profile: string)
    ensures var s := Select(input, paths, lane, profile);
            && s.changedPaths == paths
            && s.policyId == (if input.Loaded? then input.policy.policyId else "")
            && s.schemaVersion == (if input.Loaded? then input.policy.schemaVersion else "")
            && if s.usedFullFast
               then && s.groups == ["full_fast"] && s.tests == [] && s.fallbackReason.Some?
                    && s.args == if input.Loaded? && input.policy.fullFastArgs != [] then input.policy.fullFastArgs
                                 else ["-q", "-k", "not test_mcp_time_server_runtime"]
               else s.args == ["-q"] && s.fallbackReason.None? && s.unclassified == []
  {
    FieldsAgree(input, paths, lane, profile);
    SelectExact(input, paths, lane, profile);
    ArgsExact(input, paths, lane, profile);
  }

  lemma FieldsAgree(input: PolicyInput, paths: seq<string>, lane: string, profile: string)
    ensures var s := Select(input, paths, lane, profile);
            s.changedPaths == paths && s.policyId == PolicyIdOf(input) && s.schemaVersion == SchemaVersionOf(input)
  {
  }

  // ---- Why everything runs ----

  /** The reason of a full run: the first forcing rule that the first forced path hits, a path without
      rule, no group asked for, none but `full_fast`, or no test. */
  lemma ReasonMeans(input: PolicyInput, paths: seq<string>, lane: string, profile: string)
    requires PolicySound(input) && Select(input, paths, lane, profile).usedFullFast
    ensures var (s, p) := (Select(input, paths, lane, profile), input.policy);
            if exists m :: 0 <= m < |paths| && ForcedBySome(p, paths[m]) then
              exists m, j :: 0 <= m < |paths| && 0 <= j < |p.pathRules| && FirstForcedAt(p, paths, m, j)
                             && s.fallbackReason == Some(if p.pathRules[j].fallbackReason != ""
                                                         then p.pathRules[j].fallbackReason else "force_full_fallback")
            else
              s.fallbackReason ==
                if exists m :: 0 <= m < |paths| && !HitsSome(p, paths[m]) then Some("unclassified_paths")
                else if forall g :: !Asked(p, paths, lane, profile, g) then Some("empty_selection")
                else if forall g :: Asked(p, paths, lane, profile, g) ==> g == "full_fast"
                then Some("selected_full_fast")
                else Some("empty_pytest_paths")
  {
    SoundIff(input);
    var p := input.policy;
    RulesIff(p, paths);
    FirstForcedNone(p.pathRules, paths);
    if FirstForced(p.pathRules, paths).Some? {
      var m, j := ForcingPlace(p, paths);
    } else {
      UnclassifiedEmpty(p.pathRules, paths);
      RequestedShape(p, paths, lane, profile);
      assert forall x :: x in paths <==> x in Elements(paths);
    }
  }

  /** Without a sound policy everything runs, for a reason read off the message in small letters: one
      that speaks of something empty, of the schema or of something missing, or any other. */
  lemma ErrorMeans(input: PolicyInput, paths: seq<string>, lane: string, profile: string)
    requires !PolicySound(input)
    ensures PolicyError(input).Some?
    ensures var (s, m) := (Select(input, paths, lane, profile), Lower(PolicyError(input).value));
            && s.usedFullFast
            && s.fallbackReason == Some(if exists i :: OccursAt(m, "empty", i) then "empty_policy"
                                        else if (exists i :: OccursAt(m, "schema", i))
                                                || (exists i :: OccursAt(m, "missing", i)) then "schema_error"
                                        else "policy_parse_error")
  {
    SoundIff(input);
    var m := Lower(PolicyError(input).value);
    ContainsMeans(m, "empty");
    ContainsMeans(m, "schema");
    ContainsMeans(m, "missing");
  }

  predicate FirstForcedAt(p: Policy, paths: seq<string>, m: nat, j: nat)
    requires m < |paths| && j < |p.pathRules|
  {
    && ForcedAt(p, paths[m], j) && (forall i :: 0 <= i < j ==> !ForcedAt(p, paths[m], i))
    && forall l :: 0 <= l < m ==> !ForcedBySome(p, paths[l])
  }

  lemma RequestedShape(p: Policy, paths: seq<string>, lane: string, profile: string)
    ensures var requested := Requested(p, Elements(paths), lane, profile);
            && (requested == {} <==> forall g :: !Asked(p, paths, lane, profile, g))
            && (requested == {} || requested == {FULL_FAST}
                <==> forall g :: Asked(p, paths, lane, profile, g) ==> g == "full_fast")
  {
    forall g ensures g in Requested(p, Elements(paths), lane, profile) <==> Asked(p, paths, lane, profile, g) {
      AskedIff(p, paths, lane, profile, g);
    }
    SingleOrNone(Requested(p, Elements(paths), lane, profile));
  }

  lemma SingleOrNone(s: set<string>)
    ensures s == {} || s == {FULL_FAST} <==> forall g :: g in s ==> g == FULL_FAST
  {
    if forall g :: g in s ==> g == FULL_FAST { assert FULL_FAST in s ==> s == {FULL_FAST}; }
  }

  lemma {:induction false} ForcingPlace(p: Policy, paths: seq<string>) returns (m: nat, j: nat)
    requires FirstForced(p.pathRules, paths).Some?
    ensures m < |paths| && j < |p.pathRules| && FirstForcedAt(p, paths, m, j)
    ensures FirstForced(p.pathRules, paths) == Some((paths[m], p.pathRules[j]))
  {
    var rest := paths[..|paths| - 1];
    if FirstForced(p.pathRules, rest).Some? {
      m, j := ForcingPlace(p, rest);
      assert forall l :: 0 <= l < |rest| ==> rest[l] == paths[l];
    } else {
      m := |paths| - 1;
      j := RulePlace(p.pathRules, paths[m]);
      forall i | 0 <= i < |p.pathRules| ensures ForcedAt(p, paths[m], i) <==> Forces(p.pathRules[i], paths[m]) {
        HitsIff(p.pathRules[i], paths[m]);
      }
      FirstForcedNone(p.pathRules, rest);
      RulesIff(p, rest);
      assert forall l :: 0 <= l < m ==> rest[l] == paths[l];
    }
  }

  predicate Forces(r: PathRule, path: string) { RuleMatches(r, path) && r.force }

  lemma {:induction false} RulePlace(rules: seq<PathRule>, path: string) returns (j: nat)
    requires FirstForcing(rules, path).Some?
    ensures j < |rules| && FirstForcing(rules, path) == Some(rules[j])
    ensures Forces(rules[j], path) && forall i :: 0 <= i < j ==> !Forces(rules[i], path)
  {
    var n := |rules| - 1;
    if FirstForcing(rules[..n], path).Some? {
      j := RulePlace(rules[..n], path);
    } else {
      j := n;
      FirstForcingNone(rules[..n], path);
      forall i | 0 <= i < n ensures !Forces(rules[i], path) { assert rules[..n][i] in rules[..n]; }
    }
  }

  // ---- Reasons ----

  predicate PathReasonAt(x: string, r: PathRule, path: string, l: nat)
    requires l < |r.groups|
  {
    x == "path:" + path + "->group:" + r.groups[l] + "(rule=" + r.id + ")"
  }

  predicate PathReason(x: string, r: PathRule, path: string) {
    exists l :: 0 <= l < |r.groups| && PathReasonAt(x, r, path, l)
  }

  predicate LaneReasonAt(x: string, r: LaneRule, lane: string, profile: string, l: nat)
    requires l < |r.groups|
  {
    var ending := "->group:" + r.groups[l] + "(rule=" + (if r.id != "" then r.id else "lane") + ")";
    || (lane != "" && lane in r.lanes && x == "lane:" + lane + ending)
    || (profile != "" && profile in r.profiles && x == "validation_profile:" + profile + ending)
  }

  predicate LaneReasonFor(x: string, r: LaneRule, lane: string, profile: string) {
    exists l :: 0 <= l < |r.groups| && LaneReasonAt(x, r, lane, profile, l)
  }

  predicate ReasonedByPath(x: string, rules: seq<PathRule>, path: string) {
    exists j :: 0 <= j < |rules| && Hits(rules[j], path) && PathReason(x, rules[j], path)
  }

  predicate ReasonedBySome(x: string, rules: seq<PathRule>, paths: seq<string>) {
    exists m :: 0 <= m < |paths| && ReasonedByPath(x, rules, paths[m])
  }

  predicate ReasonedByLane(x: string, rules: seq<LaneRule>, lane: string, profile: string) {
    exists j :: 0 <= j < |rules| && LaneReasonFor(x, rules[j], lane, profile)
  }

  /** The reasons of a narrow selection: one for each path, rule it hits and group of the rule, and one
      for each lane rule, group of it, and hit by lane or profile. */
  lemma ReasonsMean(input: PolicyInput, paths: seq<string>, lane: string, profile: string, x: string)
    requires !Select(input, paths, lane, profile).usedFullFast
    ensures x in Select(input, paths, lane, profile).reasons
            <==> || ReasonedBySome(x, input.policy.pathRules, paths)
                 || ReasonedByLane(x, input.policy.laneRules, lane, profile)
  {
    var p := input.policy;
    SelectExact(input, paths, lane, profile);
    PathReasonsMean(p.pathRules, paths, x);
    LaneReasonsMean(p.laneRules, lane, profile, x);
    NarrowReasons(input, paths, lane, profile, x);
  }

  lemma NarrowReasons(input: PolicyInput, paths: seq<string>, lane: string, profile: string, x: string)
    requires !Select(input, paths, lane, profile).usedFullFast && input.Loaded?
    ensures x in Select(input, paths, lane, profile).reasons
            <==> || x in PathReasons(input.policy.pathRules, paths)
                 || x in LaneReasons(input.policy.laneRules, lane, profile)
  {
    var reasons := PathReasons(input.policy.pathRules, paths) + LaneReasons(input.policy.laneRules, lane, profile);
    assert Select(input, paths, lane, profile).reasons == SortedOf(Elements(reasons));
    assert x in SortedOf(Elements(reasons)) <==> x in Elements(SortedOf(Elements(reasons)));
  }

  lemma {:induction false} PathReasonsMean(rules: seq<PathRule>, paths: seq<string>, x: string)
    ensures x in PathReasons(rules, paths) <==> ReasonedBySome(x, rules, paths)
  {
    if paths != [] {
      var n := |paths| - 1;
      PathReasonsMean(rules, paths[..n], x);
      MatchReasonsMean(rules, paths[n], x);
      OnePathMore(x, rules, paths);
    }
  }

  lemma OnePathMore(x: string, rules: seq<PathRule>, paths: seq<string>)
    requires paths != []
    ensures var n := |paths| - 1;
            ReasonedBySome(x, rules, paths)
            <==> ReasonedBySome(x, rules, paths[..n]) || ReasonedByPath(x, rules, paths[n])
  {
    assert forall m :: 0 <= m < |paths| - 1 ==> paths[..|paths| - 1][m] == paths[m];
  }

  lemma {:induction false} MatchReasonsMean(rules: seq<PathRule>, path: string, x: string)
    ensures x in MatchReasons(rules, path) <==> ReasonedByPath(x, rules, path)
  {
    if rules != [] {
      var n := |rules| - 1;
      MatchReasonsMean(rules[..n], path, x);
      HitsIff(rules[n], path);
      RuleReasonsMean(rules[n], path, x);
      OneRuleMore(x, rules, path);
    }
  }

  lemma OneRuleMore(x: string, rules: seq<PathRule>, path: string)
    requires rules != []
    ensures var n := |rules| - 1;
            ReasonedByPath(x, rules, path)
            <==> ReasonedByPath(x, rules[..n], path) || (Hits(rules[n], path) && PathReason(x, rules[n], path))
  {
    assert forall j :: 0 <= j < |rules| - 1 ==> rules[..|rules| - 1][j] == rules[j];
  }

  lemma RuleReasonsMean(r: PathRule, path: string, x: string)
    ensures x in RuleReasons(r, path) <==> PathReason(x, r, path)
  {
    assert forall l :: 0 <= l < |r.groups| ==> (RuleReasons(r, path)[l] == x <==> PathReasonAt(x, r, path, l));
  }

  lemma {:induction false} LaneReasonsMean(rules: seq<LaneRule>, lane: string, profile: string, x: string)
    ensures x in LaneReasons(rules, lane, profile) <==> ReasonedByLane(x, rules, lane, profile)
  {
    if rules != [] {
      var n := |rules| - 1;
      LaneReasonsMean(rules[..n], lane, profile, x);
      GroupReasonsMean(rules[n], lane, profile, rules[n].groups, x);
      OneLaneMore(x, rules, lane, profile);
    }
  }

  lemma OneLaneMore(x: string, rules: seq<LaneRule>, lane: string, profile: string)
    requires rules != []
    ensures var n := |rules| - 1;
            ReasonedByLane(x, rules, lane, profile)
            <==> ReasonedByLane(x, rules[..n], lane, profile) || LaneReasonFor(x, rules[n], lane, profile)
  {
    assert forall j :: 0 <= j < |rules| - 1 ==> rules[..|rules| - 1][j] == rules[j];
  }

  lemma {:induction false} GroupReasonsMean(r: LaneRule, lane: string, profile: string, groups: seq<string>, x: string)
    requires groups <= r.groups
    ensures x in GroupReasons(r, lane, profile, groups)
            <==> exists l :: 0 <= l < |groups| && LaneReasonAt(x, r, lane, profile, l)
  {
    if groups != [] {
      var n := |groups| - 1;
      GroupReasonsMean(r, lane, profile, groups[..n], x);
      OneGroupReason(r, lane, profile, n, x);
    }
  }

  lemma OneGroupReason(r: LaneRule, lane: string, profile: string, l: nat, x: string)
    requires l < |r.groups|
    ensures x in LaneReason(r, lane, profile, r.groups[l]) <==> LaneReasonAt(x, r, lane, profile, l)
  {
    var (group, id) := (r.groups[l], if r.id != "" then r.id else "lane");
    var ending := "->group:" + group + "(rule=" + id + ")";
    assert "lane:" + lane + "->group:" + group + "(rule=" + id + ")" == "lane:" + lane + ending;
    assert "validation_profile:" + profile + "->group:" + group + "(rule=" + id + ")"
        == "validation_profile:" + profile + ending;
  }

  /** The paths that a full run for a missing rule reports: those that hit no rule, normalised again. */
  lemma UnclassifiedMeans(input: PolicyInput, paths: seq<string>, lane: string, profile: string, q: string)
    requires PolicySound(input) && !exists m :: 0 <= m < |paths| && ForcedBySome(input.policy, paths[m])
    ensures q in Select(input, paths, lane, profile).unclassified
            <==> q in NormalizedSet(set m | 0 <= m < |paths| && !HitsSome(input.policy, paths[m]) :: paths[m])
  {
    SoundIff(input);
    RulesIff(input.policy, paths);
    FirstForcedNone(input.policy.pathRules, paths);
    UnclassifiedElements(input.policy, paths);
    UnclassifiedShown(input, paths, lane, profile);
    var shown := SortedOf(NormalizedSet(Elements(Unclassified(input.policy.pathRules, paths))));
    assert q in shown <==> q in Elements(shown);
  }

  lemma UnclassifiedShown(input: PolicyInput, paths: seq<string>, lane: string, profile: string)
    requires PolicyError(input).None? && FirstForced(input.policy.pathRules, paths).None?
    ensures Select(input, paths, lane, profile).unclassified
            == SortedOf(NormalizedSet(Elements(Unclassified(input.policy.pathRules, paths))))
  {
    EmptyElementsOf(Unclassified(input.policy.pathRules, paths));
    assert NormalizedSet({}) == {} && SortedOf({}) == [];
  }

  lemma EmptyElementsOf(xs: seq<string>)
    ensures Elements(xs) == {} <==> xs == []
  {
    if xs != [] { assert xs[0] in Elements(xs); }
  }

  lemma {:induction false} UnclassifiedElements(p: Policy, paths: seq<string>)
    ensures Elements(Unclassified(p.pathRules, paths))
            == set m | 0 <= m < |paths| && !HitsSome(p, paths[m]) :: paths[m]
  {
    if paths != [] {
      var n := |paths| - 1;
      UnclassifiedElements(p, paths[..n]);
      PathIff(p, paths[n]);
      assert (set m | 0 <= m < |paths| && !HitsSome(p, paths[m]) :: paths[m])
          == (set m | 0 <= m < n && !HitsSome(p, paths[..n][m]) :: paths[..n][m])
             + if HitsSome(p, paths[n]) then {} else {paths[n]};
    }
  }
}
