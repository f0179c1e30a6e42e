/** The checks of tools/validate_status_freshness.py over the parsed surfaces: historical marking,
    live claims against git and GitHub, and agreement on one main commit. */
module StatusClaims {
  import opened Wrappers
  import opened Text
  import opened StatusFreshness

  datatype Reach = Reachable | NotReachable | UnknownObject | GitUnavailable

  function HeaderDate(ms: seq<Marker>): Option<int> {
    if ms == [] then None
    else if ms[0].Header? then ms[0].date
    else HeaderDate(ms[1..])
  }

  /** The live claims that lie in a region (`hidden`), or outside every region. */
  function Claims(ms: seq<Marker>, regions: seq<Region>, hidden: bool): seq<Marker> {
    if ms == [] then []
    else Claims(ms[..|ms| - 1], regions, hidden)
         + if ms[|ms| - 1].LiveClaim? && InRegion(regions, ms[|ms| - 1].line) == hidden then [ms[|ms| - 1]] else []
  }

  function AllClaims(ms: seq<Marker>): seq<Marker> {
    if ms == [] then []
    else AllClaims(ms[..|ms| - 1]) + if ms[|ms| - 1].LiveClaim? then [ms[|ms| - 1]] else []
  }

  // ---- Historical marking ----

  predicate WellDated(r: Region, header: Option<int>) {
    r.asOf.Some? && (header.Some? ==> r.asOf.value <= header.value)
  }

  function RegionResult(surface: string, r: Region, header: Option<int>): ClaimResult {
    ClaimResult(surface, r.start, Marking, if WellDated(r, header) then Pass else Fail)
  }

  function RegionResults(doc: Document): seq<ClaimResult> {
    var header := HeaderDate(doc.markers);
    seq(|doc.regions|, i requires 0 <= i < |doc.regions| => RegionResult(doc.surface, doc.regions[i], header))
  }

  function HiddenResults(doc: Document, ms: seq<Marker>): seq<ClaimResult> {
    var claims := Claims(ms, doc.regions, true);
    seq(|claims|, i requires 0 <= i < |claims| => ClaimResult(doc.surface, claims[i].line, Marking, Fail))
  }

  method CheckHistoricalMarking(doc: Document) returns (results: seq<ClaimResult>)
    ensures results == doc.failures + RegionResults(doc) + HiddenResults(doc, doc.markers)
  {
    results := doc.failures;
    var header := HeaderDate(doc.markers);
    var i := 0;
    while i < |doc.regions|
      invariant 0 <= i <= |doc.regions| && results == doc.failures + RegionResults(doc)[..i]
    {
      var r := doc.regions[i];
      if r.asOf.None? {
        results := results + [ClaimResult(doc.surface, r.start, Marking, Fail)];
      } else if header.Some? && r.asOf.value > header.value {
        results := results + [ClaimResult(doc.surface, r.start, Marking, Fail)];
      } else {
        results := results + [ClaimResult(doc.surface, r.start, Marking, Pass)];
      }
      i := i + 1;
    }
    var k := 0;
    while k < |doc.markers|
      invariant 0 <= k <= |doc.markers|
      invariant results == doc.failures + RegionResults(doc) + HiddenResults(doc, doc.markers[..k])
    {
      var m := doc.markers[k];
      assert doc.markers[..k + 1][..k] == doc.markers[..k];
      if m.LiveClaim? && InRegion(doc.regions, m.line) {
        results := results + [ClaimResult(doc.surface, m.line, Marking, Fail)];
      }
      k := k + 1;
    }
    assert doc.markers[..k] == doc.markers;
  }

  // ---- Live claims ----

  predicate HexDigit(c: char) { '0' <= c <= '9' || 'a' <= c <= 'f' }

  predicate ShaShaped(v: string) { 7 <= |v| <= 40 && forall i :: 0 <= i < |v| ==> HexDigit(v[i]) }

  predicate NeedsIssue(m: Marker) {
    m.LiveClaim? && m.claim.IssueState? && m.claim.issue.Some? && m.claim.state != ""
  }

  function LiveTopic(m: Marker): Topic
    requires m.LiveClaim?
  {
    match m.claim
    case MainSha(_) => MainShaTopic
    case IssueState(_, _) => IssueTopic
    case Unsupported => UnsupportedTopic
  }

  function ShaStatus(value: string, git: string -> Reach): Status {
    if !ShaShaped(Lower(value)) then Fail
    else
      match git(Lower(value))
      case GitUnavailable => Unverified
      case Reachable => Pass
      case _ => Fail
  }

  function IssueStatus(declared: string, actual: Option<string>): Status {
    if actual.None? then Unverified else if actual.value != Lower(declared) then Fail else Pass
  }

  /** The status of a live claim, given the answers on issues that are known by then. */
  function LiveStatus(m: Marker, git: string -> Reach, answers: map<nat, Option<string>>): Status
    requires m.LiveClaim?
  {
    match m.claim
    case MainSha(value) => ShaStatus(value, git)
    case IssueState(issue, state) =>
      if !NeedsIssue(m) then Fail
      else IssueStatus(state, if issue.value in answers then answers[issue.value] else None)
    case Unsupported => Fail
  }

  predicate Known(claims: seq<Marker>, answers: map<nat, Option<string>>) {
    forall m :: m in claims && NeedsIssue(m) ==> m.claim.issue.value in answers
  }

  function LiveResults(surface: string, claims: seq<Marker>, git: string -> Reach,
      answers: map<nat, Option<string>>): seq<ClaimResult>
    requires forall m :: m in claims ==> m.LiveClaim?
  {
    seq(|claims|, i requires 0 <= i < |claims| =>
      ClaimResult(surface, claims[i].line, LiveTopic(claims[i]), LiveStatus(claims[i], git, answers)))
  }

  predicate Extends(before: map<nat, Option<string>>, now: map<nat, Option<string>>) {
    forall n :: n in before ==> n in now && now[n] == before[n]
  }

  lemma {:induction false} ClaimsAreLive(ms: seq<Marker>, regions: seq<Region>, hidden: bool)
    ensures forall m :: m in Claims(ms, regions, hidden)
              <==> m in ms && m.LiveClaim? && InRegion(regions, m.line) == hidden
  {
    if ms != [] {
      ClaimsAreLive(ms[..|ms| - 1], regions, hidden);
      assert forall m :: m in ms <==> m in ms[..|ms| - 1] || m == ms[|ms| - 1];
    }
  }

  /** Answers from GitHub are kept: an issue is asked about once, and its answer never changes. */
  class IssueResolver {
    var cache: map<nat, Option<string>>
    ghost var asked: seq<nat>

    ghost predicate Valid()
      reads this
    {
      && (forall n :: n in asked <==> n in cache)
      && (forall i, j :: 0 <= i < j < |asked| ==> asked[i] != asked[j])
    }

    constructor ()
      ensures Valid() && cache == map[] && asked == []
    {
      cache := map[];
      asked := [];
    }

    /** A query answers anything, None included, where `gh` fails. */
    method State(n: nat) returns (r: Option<string>)
      requires Valid()
      modifies this
      ensures Valid() && cache == old(cache)[n := r] && Extends(old(cache), cache)
      ensures asked == old(asked) + if n in old(cache) then [] else [n]
    {
      if n in cache { return cache[n]; }
      r := *;
      cache := cache[n := r];
      asked := asked + [n];
    }

    method CheckLiveClaim(surface: string, m: Marker, git: string -> Reach) returns (r: ClaimResult)
      requires Valid() && m.LiveClaim?
      modifies this
      ensures Valid() && Extends(old(cache), cache) && Known([m], cache)
      ensures r == ClaimResult(surface, m.line, LiveTopic(m), LiveStatus(m, git, cache))
    {
      match m.claim
      case MainSha(value) => r := ClaimResult(surface, m.line, MainShaTopic, ShaStatus(value, git));
      case Unsupported => r := ClaimResult(surface, m.line, UnsupportedTopic, Fail);
      case IssueState(issue, state) =>
        if issue.None? || state == "" { return ClaimResult(surface, m.line, IssueTopic, Fail); }
        var actual := State(issue.value);
        r := ClaimResult(surface, m.line, IssueTopic, IssueStatus(state, actual));
    }

    method CheckLiveClaims(surface: string, claims: seq<Marker>, git: string -> Reach)
      returns (results: seq<ClaimResult>)
      requires Valid() && forall m :: m in claims ==> m.LiveClaim?
      modifies this
      ensures Valid() && Extends(old(cache), cache) && Known(claims, cache)
      ensures results == LiveResults(surface, claims, git, cache)
    {
      results := [];
      var i := 0;
      while i < |claims|
        invariant 0 <= i <= |claims| && Valid() && Extends(old(cache), cache) && Known(claims[..i], cache)
        invariant results == LiveResults(surface, claims[..i], git, cache)
      {
        ghost var before := cache;
        var r := CheckLiveClaim(surface, claims[i], git);
        AnswersStable(surface, claims[..i], git, before, cache);
        assert claims[i] in [claims[i]];
        assert forall m :: m in claims[..i + 1] <==> m in claims[..i] || m == claims[i];
        results := results + [r];
        i := i + 1;
      }
      assert claims[..i] == claims;
    }
  }

  lemma AnswersStable(surface: string, claims: seq<Marker>, git: string -> Reach,
                      before: map<nat, Option<string>>, after: map<nat, Option<string>>)
    requires (forall m :: m in claims ==> m.LiveClaim?) && Known(claims, before) && Extends(before, after)
    ensures LiveResults(surface, claims, git, after) == LiveResults(surface, claims, git, before)
    ensures Known(claims, after)
  {
    forall i | 0 <= i < |claims| ensures LiveStatus(claims[i], git, after) == LiveStatus(claims[i], git, before) {
      assert claims[i] in claims;
    }
  }

  // ---- One commit on every surface ----

  datatype Declared = Declared(surface: string, line: nat, value: string)

  /** Text that is a prefix of the other is the same commit, abbreviated. */
  predicate Agree(a: string, b: string) { a <= b || b <= a }

  /** The non-empty main commits that one surface's checked claims declare. */
  function DeclaredBy(surface: string, claims: seq<Marker>): seq<Declared> {
    if claims == [] then []
    else
      var m := claims[|claims| - 1];
      DeclaredBy(surface, claims[..|claims| - 1])
      + if m.LiveClaim? && m.claim.MainSha? && m.claim.value != ""
        then [Declared(surface, m.line, Lower(m.claim.value))] else []
  }

  function DeclaredAll(docs: seq<Document>): seq<Declared> {
    if docs == [] then []
    else
      var d := docs[|docs| - 1];
      DeclaredAll(docs[..|docs| - 1]) + DeclaredBy(d.surface, Claims(d.markers, d.regions, false))
  }

  function Disagreeing(ds: seq<Declared>, reference: string): seq<ClaimResult> {
    if ds == [] then []
    else Disagreeing(ds[..|ds| - 1], reference)
         + if Agree(ds[|ds| - 1].value, reference) then []
           else [ClaimResult(ds[|ds| - 1].surface, ds[|ds| - 1].line, MainShaTopic, Fail)]
  }

  function CrossResults(ds: seq<Declared>): seq<ClaimResult> {
    if |ds| < 2 then []
    else
      var failing := Disagreeing(ds[1..], ds[0].value);
      if failing == [] then [ClaimResult(ds[0].surface, ds[0].line, MainShaTopic, Pass)] else failing
  }

  method CheckCrossSurface(docs: seq<Document>) returns (results: seq<ClaimResult>)
    ensures results == CrossResults(DeclaredAll(docs))
  {
    var ds := CollectDeclared(docs);
    if |ds| < 2 { return []; }
    results := [];
    var rest := ds[1..];
    var j := 0;
    while j < |rest|
      invariant 0 <= j <= |rest| && results == Disagreeing(rest[..j], ds[0].value)
    {
      assert rest[..j + 1][..j] == rest[..j];
      if !Agree(rest[j].value, ds[0].value) {
        results := results + [ClaimResult(rest[j].surface, rest[j].line, MainShaTopic, Fail)];
      }
      j := j + 1;
    }
    assert rest[..j] == rest;
    if results == [] { results := [ClaimResult(ds[0].surface, ds[0].line, MainShaTopic, Pass)]; }
  }

  method CollectDeclared(docs: seq<Document>) returns (ds: seq<Declared>)
    ensures ds == DeclaredAll(docs)
  {
    ds := [];
    var i := 0;
    while i < |docs|
      invariant 0 <= i <= |docs| && ds == DeclaredAll(docs[..i])
    {
      assert docs[..i + 1][..i] == docs[..i];
      var claims := Claims(docs[i].markers, docs[i].regions, false);
      var before := ds;
      var k := 0;
      while k < |claims|
        invariant 0 <= k <= |claims| && ds == before + DeclaredBy(docs[i].surface, claims[..k])
      {
        assert claims[..k + 1][..k] == claims[..k];
        var m := claims[k];
        if m.LiveClaim? && m.claim.MainSha? && m.claim.value != "" {
          ds := ds + [Declared(docs[i].surface, m.line, Lower(m.claim.value))];
        }
        k := k + 1;
      }
      assert claims[..k] == claims;
      i := i + 1;
    }
    assert docs[..i] == docs;
  }

  /** Two or more values pass exactly when each agrees with the first. */
  lemma CrossPassIff(ds: seq<Declared>)
    ensures (forall r :: r in CrossResults(ds) ==> r.status != Fail)
            <==> (|ds| >= 2 ==> forall i :: 1 <= i < |ds| ==> Agree(ds[i].value, ds[0].value))
    ensures |ds| >= 2 ==> CrossResults(ds) != []
  {
    if |ds| >= 2 {
      NoneDisagree(ds[1..], ds[0].value);
      assert forall i :: 1 <= i < |ds| ==> ds[i] == ds[1..][i - 1];
      if Disagreeing(ds[1..], ds[0].value) != [] {
        assert Disagreeing(ds[1..], ds[0].value)[0] in CrossResults(ds);
      }
    }
  }

  lemma {:induction false} NoneDisagree(ds: seq<Declared>, reference: string)
    ensures Disagreeing(ds, reference) == [] <==> forall i :: 0 <= i < |ds| ==> Agree(ds[i].value, reference)
    ensures forall r :: r in Disagreeing(ds, reference) ==> r.status == Fail
  {
    if ds != [] { NoneDisagree(ds[..|ds| - 1], reference); }
  }

  predicate AllAgree(ds: seq<Declared>) {
    forall i, j :: 0 <= i < j < |ds| ==> Agree(ds[i].value, ds[j].value)
  }

  predicate CrossPasses(ds: seq<Declared>) { forall r :: r in CrossResults(ds) ==> r.status != Fail }

  /** How many values are longer than the first. */
  predicate AtMostOneLonger(ds: seq<Declared>) {
    forall i, j :: 0 < i < j < |ds| ==> |ds[i].value| <= |ds[0].value| || |ds[j].value| <= |ds[0].value|
  }

  /** Comparing with the first value decides whether all agree, as long as at most one value is
      longer than the first. */
  lemma CrossExact(ds: seq<Declared>)
    ensures AllAgree(ds) ==> CrossPasses(ds)
    ensures AtMostOneLonger(ds) && CrossPasses(ds) ==> AllAgree(ds)
  {
    CrossPassIff(ds);
    if AtMostOneLonger(ds) && CrossPasses(ds) {
      forall i, j | 0 <= i < j < |ds| ensures Agree(ds[i].value, ds[j].value) {
        var (r, a, b) := (ds[0].value, ds[i].value, ds[j].value);
        if 0 < i && |a| <= |r| {
          PrefixesAgree(a, r, b);
        } else if 0 < i {
          PrefixesAgree(b, r, a);
        }
      }
    }
  }

  lemma PrefixesAgree(a: string, r: string, b: string)
    requires a <= r && Agree(b, r)
    ensures Agree(a, b)
  {
  }

  /** With two longer values it does not: for any such lengths there are commits that pass and
      disagree. */
  lemma CrossInexact(ds: seq<Declared>, i: nat, j: nat) returns (es: seq<Declared>)
    requires 0 < i < j < |ds| && |ds[i].value| > |ds[0].value| && |ds[j].value| > |ds[0].value|
    requires CrossPasses(ds) && forall d :: d in ds ==> ShaShaped(d.value)
    ensures |es| == |ds| && forall k :: 0 <= k < |es| ==> |es[k].value| == |ds[k].value| && ShaShaped(es[k].value)
    ensures es[0] == ds[0] && CrossPasses(es) && !AllAgree(es)
  {
    var r := ds[0].value;
    es := ds[i := ds[i].(value := Padded(r, '0', |ds[i].value|))][j := ds[j].(value := Padded(r, '1', |ds[j].value|))];
    CrossPassIff(ds);
    CrossPassIff(es);
    forall k | 0 <= k < |es| ensures |es[k].value| == |ds[k].value| && ShaShaped(es[k].value) && Agree(es[k].value, r) {
      assert ds[k] in ds && ds[0] in ds;
    }
    assert es[i].value[|r|] == '0' && es[j].value[|r|] == '1';
  }

  function Padded(r: string, c: char, n: nat): (v: string)
    requires |r| <= n
    ensures |v| == n && r <= v && forall k :: |r| <= k < n ==> v[k] == c
  {
    r + seq(n - |r|, _ => c)
  }

  // ---- Whole validations ----

  function DocResults(doc: Document, git: string -> Reach, answers: map<nat, Option<string>>): seq<ClaimResult> {
    ClaimsAreLive(doc.markers, doc.regions, false);
    doc.failures + RegionResults(doc) + HiddenResults(doc, doc.markers) + doc.prose
    + LiveResults(doc.surface, Claims(doc.markers, doc.regions, false), git, answers)
  }

  function DocsResults(docs: seq<Document>, git: string -> Reach, answers: map<nat, Option<string>>): seq<ClaimResult> {
    if docs == [] then []
    else DocsResults(docs[..|docs| - 1], git, answers) + DocResults(docs[|docs| - 1], git, answers)
  }

  predicate KnownDocs(docs: seq<Document>, answers: map<nat, Option<string>>) {
    forall d :: d in docs ==> Known(Claims(d.markers, d.regions, false), answers)
  }

  lemma {:induction false} DocsStable(docs: seq<Document>, git: string -> Reach,
                                      before: map<nat, Option<string>>, after: map<nat, Option<string>>)
    requires KnownDocs(docs, before) && Extends(before, after)
    ensures DocsResults(docs, git, after) == DocsResults(docs, git, before)
    ensures KnownDocs(docs, after)
  {
    if docs != [] {
      var rest, d := docs[..|docs| - 1], docs[|docs| - 1];
      DocsStable(rest, git, before, after);
      ClaimsAreLive(d.markers, d.regions, false);
      assert d in docs && forall x :: x in docs <==> x in rest || x == d;
      AnswersStable(d.surface, Claims(d.markers, d.regions, false), git, before, after);
    }
  }

  method CheckDocument(doc: Document, git: string -> Reach, issues: IssueResolver) returns (results: seq<ClaimResult>)
    requires issues.Valid()
    modifies issues
    ensures issues.Valid() && Extends(old(issues.cache), issues.cache)
    ensures Known(Claims(doc.markers, doc.regions, false), issues.cache)
    ensures results == DocResults(doc, git, issues.cache)
  {
    results := CheckHistoricalMarking(doc);
    ClaimsAreLive(doc.markers, doc.regions, false);
    var live := issues.CheckLiveClaims(doc.surface, Claims(doc.markers, doc.regions, false), git);
    results := results + doc.prose + live;
  }

  /** `validate_documents`: all results are those of one fixed set of answers, the ones cached at
      the end, although each issue was asked about when it first came up. */
  method ValidateDocuments(docs: seq<Document>, git: string -> Reach, issues: IssueResolver)
    returns (results: seq<ClaimResult>)
    requires issues.Valid()
    modifies issues
    ensures issues.Valid() && Extends(old(issues.cache), issues.cache)
    ensures results == DocsResults(docs, git, issues.cache) + CrossResults(DeclaredAll(docs))
  {
    results := [];
    var i := 0;
    while i < |docs|
      invariant 0 <= i <= |docs| && issues.Valid() && Extends(old(issues.cache), issues.cache)
      invariant KnownDocs(docs[..i], issues.cache) && results == DocsResults(docs[..i], git, issues.cache)
    {
      assert docs[..i + 1][..i] == docs[..i];
      assert forall d :: d in docs[..i + 1] <==> d in docs[..i] || d == docs[i];
      ghost var before := issues.cache;
      var more := CheckDocument(docs[i], git, issues);
      DocsStable(docs[..i], git, before, issues.cache);
      results := results + more;
      i := i + 1;
    }
    assert docs[..i] == docs;
    var cross := CheckCrossSurface(docs);
    results := results + cross;
  }

  /** The process exits zero. */
  predicate Accepted(results: seq<ClaimResult>, strict: bool) {
    forall r :: r in results ==> r.status != Fail && (strict ==> r.status != Unverified)
  }

  /** Every live claim is judged exactly once: as hidden in a region, which fails, or live. */
  lemma {:induction false} EachClaimOnce(ms: seq<Marker>, regions: seq<Region>)
    ensures multiset(Claims(ms, regions, true)) + multiset(Claims(ms, regions, false)) == multiset(AllClaims(ms))
    ensures |Claims(ms, regions, true)| + |Claims(ms, regions, false)| == |AllClaims(ms)|
  {
    if ms != [] { EachClaimOnce(ms[..|ms| - 1], regions); }
  }

  lemma ResultsConserved(surface: string, ms: seq<Marker>, prose: seq<ClaimResult>, git: string -> Reach,
      answers: map<nat, Option<string>>)
    ensures var doc := Parsed(surface, ms, prose);
            && |DocResults(doc, git, answers)| == |FailedLines(ms)| + |doc.regions| + |AllClaims(ms)| + |prose|
            && |Boundaries(ms)| == 2 * |doc.regions| + |doc.failures|
  {
    EachClaimOnce(ms, RegionsOf(ms));
    MarkersConserved(ms);
  }

  lemma {:induction false} DocResultsIncluded(docs: seq<Document>, d: Document, git: string -> Reach,
      answers: map<nat, Option<string>>)
    requires d in docs
    ensures forall r :: r in DocResults(d, git, answers) ==> r in DocsResults(docs, git, answers)
  {
    if d != docs[|docs| - 1] { DocResultsIncluded(docs[..|docs| - 1], d, git, answers); }
  }

  /** What an accepted strict validation says of each surface: markers alternate, regions are dated
      no later than the header, no live claim hides in a region, and every live claim holds: the state
      of an issue is the one GitHub answered, a commit is one that git reaches. */
  lemma StrictMeans(docs: seq<Document>, surface: string, ms: seq<Marker>, prose: seq<ClaimResult>,
      git: string -> Reach, answers: map<nat, Option<string>>)
    requires Parsed(surface, ms, prose) in docs && Accepted(DocsResults(docs, git, answers), true)
    ensures Alternates(Boundaries(ms))
    ensures forall r :: r in RegionsOf(ms) ==> WellDated(r, HeaderDate(ms))
    ensures forall m :: m in ms && m.LiveClaim? ==>
              !InRegion(RegionsOf(ms), m.line) && LiveStatus(m, git, answers) == Pass
    ensures forall m :: m in ms && m.LiveClaim? ==>
              && !m.claim.Unsupported?
              && (m.claim.MainSha? ==> 7 <= |m.claim.value| <= 40 && git(Lower(m.claim.value)) == Reachable)
              && (m.claim.IssueState? ==>
                    && m.claim.issue.Some? && m.claim.issue.value in answers
                    && answers[m.claim.issue.value] == Some(Lower(m.claim.state)))
  {
    var doc := Parsed(surface, ms, prose);
    DocResultsIncluded(docs, doc, git, answers);
    AcceptedDoc(doc, git, answers);
    SoundIffAlternating(surface, ms, prose);
  }

  lemma FailureShows(failing: seq<ClaimResult>, results: seq<ClaimResult>)
    requires forall r :: r in failing ==> r.status == Fail && r in results
    ensures failing != [] ==> !Accepted(results, true)
  {
    if failing != [] { assert failing[0] in results; }
  }

  lemma AcceptedDoc(doc: Document, git: string -> Reach, answers: map<nat, Option<string>>)
    requires Accepted(DocResults(doc, git, answers), true)
    requires forall r :: r in doc.failures ==> r.status == Fail
    ensures doc.failures == []
    ensures forall r :: r in doc.regions ==> WellDated(r, HeaderDate(doc.markers))
    ensures forall m :: m in doc.markers && m.LiveClaim? ==>
              !InRegion(doc.regions, m.line) && LiveStatus(m, git, answers) == Pass
  {
    var results := DocResults(doc, git, answers);
    ClaimsAreLive(doc.markers, doc.regions, true);
    ClaimsAreLive(doc.markers, doc.regions, false);
    FailureShows(doc.failures, results);
    forall i | 0 <= i < |doc.regions| ensures WellDated(doc.regions[i], HeaderDate(doc.markers)) {
      assert RegionResults(doc)[i] in results;
    }
    var (hidden, live) := (Claims(doc.markers, doc.regions, true), Claims(doc.markers, doc.regions, false));
    FailureShows(HiddenResults(doc, doc.markers), results);
    assert |HiddenResults(doc, doc.markers)| == |hidden|;
    forall i | 0 <= i < |live| ensures LiveStatus(live[i], git, answers) == Pass {
      assert LiveResults(doc.surface, live, git, answers)[i] in results;
    }
    forall m | m in doc.markers && m.LiveClaim?
      ensures !InRegion(doc.regions, m.line) && LiveStatus(m, git, answers) == Pass
    {
      assert m in hidden || m in live;
    }
  }

  // ---- One commit ----

  /** git takes an abbreviation for a commit on main only if exactly one commit starts with it. */
  ghost predicate ResolvesUniquely(git: string -> Reach, commits: set<string>) {
    forall v :: git(v) == Reachable ==>
      (exists c :: c in commits && v <= c)
          && (forall c, d :: c in commits && d in commits && v <= c && v <= d ==> c == d)
  }

  /** Although comparing with the first value is not enough by itself, a strict validation does
      ensure what is promised: all surfaces declare one and the same commit. */
  lemma StrictMeansOneCommit(docs: seq<Document>, git: string -> Reach, answers: map<nat, Option<string>>,
      commits: set<string>)
    requires Accepted(DocsResults(docs, git, answers) + CrossResults(DeclaredAll(docs)), true)
    requires ResolvesUniquely(git, commits)
    ensures DeclaredAll(docs) != [] ==>
              exists c :: c in commits && forall d :: d in DeclaredAll(docs) ==> d.value <= c
  {
    AcceptedBoth(DocsResults(docs, git, answers), CrossResults(DeclaredAll(docs)));
    DeclaredReachable(docs, git, answers);
    OneCommit(DeclaredAll(docs), git, commits);
  }

  lemma AcceptedBoth(a: seq<ClaimResult>, b: seq<ClaimResult>)
    requires Accepted(a + b, true)
    ensures Accepted(a, true) && Accepted(b, true)
  {
    assert forall r :: r in a || r in b ==> r in a + b;
  }

  lemma OneCommit(ds: seq<Declared>, git: string -> Reach, commits: set<string>)
    requires ResolvesUniquely(git, commits) && Accepted(CrossResults(ds), true)
    requires forall d :: d in ds ==> git(d.value) == Reachable
    ensures ds != [] ==> exists c :: c in commits && forall d :: d in ds ==> d.value <= c
  {
    CrossPassIff(ds);
    if ds != [] {
      assert ds[0] in ds;
      var c :| c in commits && ds[0].value <= c;
      forall i | 0 <= i < |ds| ensures ds[i].value <= c {
        assert ds[i] in ds;
        assert i > 0 ==> Agree(ds[i].value, ds[0].value);
        SameCommit(ds[0].value, ds[i].value, c, git, commits);
      }
    }
  }

  lemma SameCommit(a: string, b: string, c: string, git: string -> Reach, commits: set<string>)
    requires ResolvesUniquely(git, commits) && git(a) == Reachable && git(b) == Reachable
    requires Agree(a, b) && c in commits && a <= c
    ensures b <= c
  {
    if !(b <= a) {
      var d :| d in commits && b <= d;
    }
  }

  lemma {:induction false} DeclaredReachable(docs: seq<Document>, git: string -> Reach,
      answers: map<nat, Option<string>>)
    requires Accepted(DocsResults(docs, git, answers), true)
    ensures forall d :: d in DeclaredAll(docs) ==> git(d.value) == Reachable
  {
    if docs != [] {
      var rest, doc := docs[..|docs| - 1], docs[|docs| - 1];
      assert forall r :: r in DocsResults(rest, git, answers) || r in DocResults(doc, git, answers) ==>
          r in DocsResults(docs, git, answers);
      DeclaredReachable(rest, git, answers);
      var claims := Claims(doc.markers, doc.regions, false);
      ClaimsAreLive(doc.markers, doc.regions, false);
      forall i | 0 <= i < |claims| ensures LiveStatus(claims[i], git, answers) == Pass {
        assert LiveResults(doc.surface, claims, git, answers)[i] in DocResults(doc, git, answers);
      }
      PassedReachable(doc.surface, claims, git, answers);
    }
  }

  lemma {:induction false} PassedReachable(surface: string, claims: seq<Marker>, git: string -> Reach,
      answers: map<nat, Option<string>>)
    requires forall m :: m in claims ==> m.LiveClaim? && LiveStatus(m, git, answers) == Pass
    ensures forall d :: d in DeclaredBy(surface, claims) ==> git(d.value) == Reachable
  {
    if claims != [] {
      assert claims[|claims| - 1] in claims;
      PassedReachable(surface, claims[..|claims| - 1], git, answers);
    }
  }
}
