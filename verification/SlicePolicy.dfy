/** The slice validation policy and path normalisation of ci/lib/slice_selection.py. */
module SlicePolicy {
  import opened Wrappers
  import opened Text

  const FULL_FAST := "full_fast"
  const POLICY_SCHEMA := "cdb-slice-validation-policy/v1"
  const FULL_FAST_ARGS := ["-q", "-k", "not test_mcp_time_server_runtime"]

  datatype Group = Group(inherits: string, pytestPaths: seq<string>)

  /** An absent text field and an empty one behave alike, and so do absent and empty lists. */
  datatype PathRule = PathRule(id: string, prefixes: seq<string>, force: bool, fallbackReason: string,
      groups: seq<string>)

  datatype LaneRule = LaneRule(id: string, lanes: seq<string>, profiles: seq<string>, groups: seq<string>)

  datatype Policy = Policy(
    schemaVersion: string, policyId: string, testGroups: map<string, Group>, pathRules: seq<PathRule>,
    laneRules: seq<LaneRule>, definesFullFastUnit: bool, fullFastArgs: seq<string>)

  datatype PolicyInput = Unreadable(message: string) | Loaded(policy: Policy)

  // ---- Path normalisation ----

  predicate IsSpace(c: char) {
    c == ' ' || '\t' <= c <= '\r' || '\U{1c}' <= c <= '\U{1f}'
  }

  function StripLeft(s: string): string {
    if s != "" && IsSpace(s[0]) then StripLeft(s[1..]) else s
  }

  function StripRight(s: string): string {
    if s != "" && IsSpace(s[|s| - 1]) then StripRight(s[..|s| - 1]) else s
  }

  function Strip(s: string): string { StripRight(StripLeft(s)) }

  function Slashes(s: string): (r: string)
    ensures |r| == |s|
  {
    seq(|s|, i requires 0 <= i < |s| => if s[i] == '\\' then '/' else s[i])
  }

  function DropDotSlash(s: string): string {
    if "./" <= s then DropDotSlash(s[2..]) else s
  }

  function Trimmed(raw: string): string { Slashes(Strip(raw)) }

  function Normal(raw: string): string { DropDotSlash(Trimmed(raw)) }

  /** The set `normalize_changed_paths` collects: emptiness is tested before the `./` go. */
  function NormalizedSet(raw: set<string>): set<string> {
    set r | r in raw && Trimmed(r) != "" :: Normal(r)
  }

  method NormalizeChangedPaths(raw: seq<string>) returns (r: seq<string>)
    ensures Ascending(r) && Elements(r) == NormalizedSet(Elements(raw))
    ensures r == SortedOf(NormalizedSet(Elements(raw)))
  {
    var cleaned: set<string> := {};
    var i := 0;
    while i < |raw|
      invariant 0 <= i <= |raw|
      invariant cleaned == NormalizedSet(Elements(raw[..i]))
    {
      var text := Trimmed(raw[i]);
      assert Elements(raw[..i + 1]) == Elements(raw[..i]) + {raw[i]};
      if text != "" {
        while "./" <= text
          invariant DropDotSlash(text) == Normal(raw[i])
          decreases |text|
        {
          text := text[2..];
        }
        cleaned := cleaned + {text};
      }
      i := i + 1;
    }
    assert raw[..i] == raw;
    r := Sorted(cleaned);
  }

  /** Not idempotent: "./" passes the emptiness test and leaves "", which a second pass drops. */
  lemma NormalizeTwiceDiffers()
    ensures NormalizedSet({"./"}) == {""}
    ensures NormalizedSet(NormalizedSet({"./"})) == {}
  {
    assert StripLeft("./") == "./" && StripRight("./") == "./";
    assert Trimmed("./") == "./" && "./"[2..] == "" && DropDotSlash("./") == "";
  }

  /** What a second pass would change: nothing left, or a blank uncovered by dropping `./`. */
  predicate Unsettled(q: string) { q == "" || IsSpace(q[0]) }

  /** A second pass changes nothing exactly when no path that is not blank hides a blank or its end
      behind `./` prefixes. */
  lemma NormalizeIdempotentIff(raw: set<string>)
    ensures NormalizedSet(NormalizedSet(raw)) == NormalizedSet(raw)
            <==> forall r :: r in raw && Trimmed(r) != "" ==> !Unsettled(Normal(r))
  {
    SettledIff(raw);
    assert (forall q :: q in NormalizedSet(raw) ==> !Unsettled(q))
      <==> (forall r :: r in raw && Trimmed(r) != "" ==> !Unsettled(Normal(r))) by {
      assert forall r :: r in raw && Trimmed(r) != "" ==> Normal(r) in NormalizedSet(raw);
    }
  }

  lemma SettledIff(raw: set<string>)
    ensures NormalizedSet(NormalizedSet(raw)) == NormalizedSet(raw)
            <==> forall q :: q in NormalizedSet(raw) ==> !Unsettled(q)
  {
    var once := NormalizedSet(raw);
    var twice := NormalizedSet(once);
    forall q | q in once && !Unsettled(q) ensures Trimmed(q) != "" && Normal(q) == q {
      var r :| r in raw && Trimmed(r) != "" && Normal(r) == q;
      NormalIsSettled(r);
    }
    if twice == once {
      forall q | q in once && Unsettled(q) ensures exists x :: x in once && Unsettled(x) && |x| > |q| {
        var x := LongerUnsettled(raw, q);
      }
      NoEndlessGrowth(once);
    }
  }

  lemma LongerUnsettled(raw: set<string>, q: string) returns (x: string)
    requires q in NormalizedSet(NormalizedSet(raw)) && Unsettled(q)
    ensures x in NormalizedSet(raw) && Unsettled(x) && |x| > |q|
  {
    x :| x in NormalizedSet(raw) && Trimmed(x) != "" && Normal(x) == q;
    var r :| r in raw && Trimmed(r) != "" && Normal(r) == x;
    if !Unsettled(x) { NormalIsSettled(r); }
    StripShortens(x);
    DropShortens(Trimmed(x));
  }

  /** In a finite set not every unsettled text has a longer one. */
  lemma NoEndlessGrowth(s: set<string>)
    requires forall q :: q in s && Unsettled(q) ==> exists x :: x in s && Unsettled(x) && |x| > |q|
    ensures forall q :: q in s ==> !Unsettled(q)
  {
    if exists q :: q in s && Unsettled(q) {
      var q := LongestUnsettled(s);
    }
  }

  lemma LongestUnsettled(s: set<string>) returns (q: string)
    requires exists x :: x in s && Unsettled(x)
    ensures q in s && Unsettled(q) && forall x :: x in s && Unsettled(x) ==> |x| <= |q|
  {
    var unsettled := set x | x in s && Unsettled(x);
    var w :| w in s && Unsettled(w);
    assert w in unsettled;
    q := LongestExists(unsettled);
    forall x | x in s && Unsettled(x) ensures |x| <= |q| { assert x in unsettled; }
  }

  lemma {:induction false} LongestExists(s: set<string>) returns (q: string)
    requires s != {}
    ensures q in s && forall x :: x in s ==> |x| <= |q|
  {
    var w :| w in s;
    q := w;
    var rest := s - {w};
    assert s == {w} + rest;
    if rest != {} {
      var z := LongestExists(rest);
      if |z| > |w| { q := z; }
      assert forall x :: x in s ==> x == w || x in rest;
    }
  }

  lemma {:induction false} StripShortens(s: string)
    ensures |StripLeft(s)| <= |s| && |StripRight(s)| <= |s|
    ensures |Strip(s)| <= |s|
    ensures s != "" && IsSpace(s[0]) ==> |Strip(s)| < |s|
    decreases |s|
  {
    LeftShortens(s);
    RightShortens(s);
    RightShortens(StripLeft(s));
  }

  lemma LeftShortens(s: string)
    ensures |StripLeft(s)| <= |s|
    ensures s != "" && IsSpace(s[0]) ==> |StripLeft(s)| < |s|
    ensures StripLeft(s) != "" ==> !IsSpace(StripLeft(s)[0])
  {
  }

  lemma RightShortens(s: string)
    ensures StripRight(s) <= s
    ensures StripRight(s) != "" ==> !IsSpace(StripRight(s)[|StripRight(s)| - 1])
  {
  }

  lemma {:induction false} DropShortens(s: string)
    ensures |DropDotSlash(s)| <= |s| && s[|s| - |DropDotSlash(s)|..] == DropDotSlash(s)
    ensures !("./" <= DropDotSlash(s))
  {
    if "./" <= s {
      DropShortens(s[2..]);
      SuffixOfSuffix(s, 2, |s| - 2 - |DropDotSlash(s)|);
    }
  }

  lemma SuffixOfSuffix(s: string, a: nat, b: nat)
    requires a + b <= |s|
    ensures s[a..][b..] == s[a + b..]
  {
  }

  /** A normal path without leading blank normalises to itself. */
  lemma NormalIsSettled(r: string)
    requires Trimmed(r) != "" && !Unsettled(Normal(r))
    ensures Trimmed(Normal(r)) == Normal(r) && Normal(Normal(r)) == Normal(r)
  {
    var q := Normal(r);
    DropShortens(Trimmed(r));
    RightShortens(StripLeft(r));
    assert q[|q| - 1] == Trimmed(r)[|Trimmed(r)| - 1];
    assert StripLeft(q) == q && StripRight(q) == q;
    assert forall i :: 0 <= i < |q| ==> q[i] == Trimmed(r)[|Trimmed(r)| - |q| + i] && q[i] != '\\';
    assert Slashes(q) == q;
  }

  // ---- Prefix matching ----

  function DropTrailingSlashes(s: string): string {
    if s != "" && s[|s| - 1] == '/' then DropTrailingSlashes(s[..|s| - 1]) else s
  }

  /** `_path_matches_prefix` */
  predicate PathMatchesPrefix(path: string, prefix: string) {
    var norm := DropTrailingSlashes(Slashes(prefix));
    || path == norm
    || norm + "/" <= path
    || (!(norm != "" && norm[|norm| - 1] == '/') && path == Slashes(prefix))
  }

  lemma {:induction false} TrailingSlashesSplit(s: string)
    ensures var t := DropTrailingSlashes(s); t <= s && (t != s ==> t + "/" <= s)
  {
    if s != "" && s[|s| - 1] == '/' {
      var rest := s[..|s| - 1];
      TrailingSlashesSplit(rest);
      assert s == rest + "/";
    }
  }

  /** A match is the prefix itself or lies below it: "docs" matches "docs/x" but not "docsify". */
  lemma MatchesAtBoundary(path: string, prefix: string)
    ensures var norm := DropTrailingSlashes(Slashes(prefix));
            PathMatchesPrefix(path, prefix) <==> path == norm || norm + "/" <= path
  {
    TrailingSlashesSplit(Slashes(prefix));
  }

  // ---- Policy validation ----

  predicate RuleInvalid(r: PathRule) {
    r.id == "" || r.prefixes == [] || (!r.force && r.groups == [])
  }

  function RuleMessage(r: PathRule): string {
    if r.id == "" then "path rule missing id"
    else if r.prefixes == [] then "path rule '" + r.id + "' missing match_prefixes"
    else "path rule '" + r.id + "' missing groups (or force_full_fallback)"
  }

  function RuleError(rules: seq<PathRule>): Option<string> {
    if rules == [] then None
    else if RuleInvalid(rules[0]) then Some(RuleMessage(rules[0]))
    else RuleError(rules[1..])
  }

  /** The message `load_slice_policy` or `validate_slice_policy` raises, if any. */
  function PolicyError(input: PolicyInput): Option<string> {
    match input
    case Unreadable(message) => Some(message)
    case Loaded(p) =>
      if p.schemaVersion != POLICY_SCHEMA then
        Some("Unsupported schema_version '" + p.schemaVersion + "'; expected '" + POLICY_SCHEMA + "'")
      else if p.policyId == "" then Some("Missing policy_id")
      else if p.testGroups == map[] then Some("test_groups must be a non-empty mapping")
      else if FULL_FAST !in p.testGroups && !p.definesFullFastUnit then
        Some("full_fast group or full_fast_unit definition required")
      else if p.pathRules == [] then Some("path_rules must be a non-empty list")
      else RuleError(p.pathRules)
  }

  function ErrorReason(message: string): string {
    var m := Lower(message);
    if Contains(m, "empty") then "empty_policy"
    else if Contains(m, "schema") || Contains(m, "missing") then "schema_error"
    else "policy_parse_error"
  }

  lemma RuleErrorIff(rules: seq<PathRule>)
    ensures RuleError(rules).Some? <==> exists r :: r in rules && RuleInvalid(r)
  {
  }
}
