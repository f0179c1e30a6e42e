/** What the status guard finds, in terms of the markers of the documents and the answers of git and
    GitHub. */
module StatusMeaning {
  import opened Wrappers
  import opened Text
  import opened StatusFreshness
  import opened StatusClaims

  // ---- Regions ----

  predicate NoEnd(ms: seq<Marker>, k: nat, n: nat)
    requires n <= |ms|
  {
    forall j :: k < j < n ==> !ms[j].End?
  }

  /** Before marker `n` some as-of marker is not yet followed by an end. */
  predicate OpenBefore(ms: seq<Marker>, n: nat)
    requires n <= |ms|
  {
    exists k :: 0 <= k < n && ms[k].AsOf? && NoEnd(ms, k, n)
  }

  predicate Opens(ms: seq<Marker>, k: nat)
    requires k < |ms|
  {
    ms[k].AsOf? && !OpenBefore(ms, k)
  }

  /** The opening marker `k` and the first end after it. */
  predicate Spans(ms: seq<Marker>, k: nat, e: nat)
    requires k < |ms| && e < |ms|
  {
    k < e && Opens(ms, k) && ms[e].End? && NoEnd(ms, k, e)
  }

  lemma {:induction false} OpenMeans(ms: seq<Marker>, n: nat)
    requires n <= |ms|
    ensures Scan(ms[..n]).open.Some? <==> OpenBefore(ms, n)
    ensures forall k :: 0 <= k < n && Opens(ms, k) && NoEnd(ms, k, n) ==> Scan(ms[..n]).open == Some(ms[k])
    ensures OpenBefore(ms, n) ==> exists k :: 0 <= k < n && Opens(ms, k) && NoEnd(ms, k, n)
  {
    if n > 0 {
      OpenMeans(ms, n - 1);
      assert ms[..n][..n - 1] == ms[..n - 1];
      OpenLater(ms, n);
    }
  }

  lemma OpenLater(ms: seq<Marker>, n: nat)
    requires 0 < n <= |ms|
    ensures OpenBefore(ms, n) <==> ms[n - 1].AsOf? || (OpenBefore(ms, n - 1) && !ms[n - 1].End?)
    ensures forall k :: 0 <= k < n - 1 ==> (NoEnd(ms, k, n) <==> NoEnd(ms, k, n - 1) && !ms[n - 1].End?)
    ensures forall k :: 0 <= k < n - 1 && Opens(ms, k) && NoEnd(ms, k, n - 1) ==> OpenBefore(ms, n - 1)
  {
    if ms[n - 1].AsOf? { assert NoEnd(ms, n - 1, n); }
  }

  predicate RegionOf(ms: seq<Marker>, k: nat, e: nat, r: Region)
    requires k < |ms| && e < |ms|
  {
    Spans(ms, k, e) && r == Region(ms[k].line, ms[e].line, ms[k].date)
  }

  predicate ClosedAt(ms: seq<Marker>, e: nat, r: Region)
    requires e < |ms|
  {
    exists k :: 0 <= k < e && RegionOf(ms, k, e, r)
  }

  /** The regions are the spans: each opening as-of marker with the first end after it, and its date. */
  lemma {:induction false} RegionsMean(ms: seq<Marker>, n: nat, r: Region)
    requires n <= |ms|
    ensures r in Scan(ms[..n]).regions <==> exists e :: 0 <= e < n && ClosedAt(ms, e, r)
  {
    if n > 0 {
      RegionsMean(ms, n - 1, r);
      assert ms[..n][..n - 1] == ms[..n - 1];
      ClosedNow(ms, n - 1, r);
    }
  }

  lemma ClosedNow(ms: seq<Marker>, e: nat, r: Region)
    requires e < |ms|
    ensures var s := Scan(ms[..e]);
            ClosedAt(ms, e, r) <==> ms[e].End? && s.open.Some? && r == RegionTo(s.open.value, ms[e].line)
  {
    OpenMeans(ms, e);
    if OpenBefore(ms, e) && ms[e].End? {
      var k :| 0 <= k < e && Opens(ms, k) && NoEnd(ms, k, e);
      assert Spans(ms, k, e);
      assert r == RegionTo(ms[k], ms[e].line) ==> RegionOf(ms, k, e, r);
    }
  }

  /** A structural fault at marker `i`: nested, nothing to close, or never closed. */
  predicate Faulty(ms: seq<Marker>, i: nat)
    requires i < |ms|
  {
    || (ms[i].AsOf? && OpenBefore(ms, i))
    || (ms[i].End? && !OpenBefore(ms, i))
    || (Opens(ms, i) && NoEnd(ms, i, |ms|))
  }

  lemma {:induction false} FailedMean(ms: seq<Marker>, n: nat, line: nat)
    requires n <= |ms|
    ensures line in Scan(ms[..n]).failed
            <==> exists i :: 0 <= i < n && ms[i].line == line && Boundary(ms[i]) && (ms[i].AsOf? <==> OpenBefore(ms, i))
  {
    if n > 0 {
      FailedMean(ms, n - 1, line);
      assert ms[..n][..n - 1] == ms[..n - 1];
      OpenMeans(ms, n - 1);
    }
  }

  /** What parsing finds: the spans as regions, and a failure for each faulty marker. */
  lemma ParsedMeans(surface: string, ms: seq<Marker>, prose: seq<ClaimResult>)
    ensures var doc := Parsed(surface, ms, prose);
            && (forall r :: r in doc.regions <==> exists e :: 0 <= e < |ms| && ClosedAt(ms, e, r))
            && (forall f :: f in doc.failures
                  <==> exists i :: 0 <= i < |ms| && Faulty(ms, i)
                                   && f == ClaimResult(surface, ms[i].line, Marking, Fail))
  {
    assert ms[..|ms|] == ms;
    forall r ensures r in RegionsOf(ms) <==> exists e :: 0 <= e < |ms| && ClosedAt(ms, e, r) {
      RegionsMean(ms, |ms|, r);
    }
    forall line ensures line in FailedLines(ms) <==> exists i :: 0 <= i < |ms| && Faulty(ms, i) && ms[i].line == line {
      FailedMean(ms, |ms|, line);
      OpenMeans(ms, |ms|);
    }
    FailuresFrom(surface, FailedLines(ms));
  }

  lemma FailuresFrom(surface: string, lines: seq<nat>)
    ensures forall f: ClaimResult :: f in MarkingFailures(surface, lines)
              <==> f.line in lines && f == ClaimResult(surface, f.line, Marking, Fail)
  {
    forall f: ClaimResult | f.line in lines && f == ClaimResult(surface, f.line, Marking, Fail)
      ensures f in MarkingFailures(surface, lines)
    {
      var i :| 0 <= i < |lines| && lines[i] == f.line;
      assert MarkingFailures(surface, lines)[i] == f;
    }
  }

  // ---- Claims ----

  /** What a live claim comes to. An issue claim with number and state passes exactly if the answer is
      that state in small letters; a commit claim exactly if it is an abbreviated or full name in hex
      digits that git reaches. Without an answer they are unverified. */
  lemma LiveMeans(m: Marker, git: string -> Reach, answers: map<nat, Option<string>>)
    requires m.LiveClaim?
    ensures var status := LiveStatus(m, git, answers);
            match m.claim
            case Unsupported => status == Fail
            case IssueState(issue, state) =>
              var known := issue.Some? && state != "" && issue.value in answers && answers[issue.value].Some?;
              && (status == Pass <==> known && answers[issue.value].value == Lower(state))
              && (status == Unverified <==> issue.Some? && state != "" && !known)
            case MainSha(v) =>
              && (status == Pass <==> Shaped(v) && git(Lower(v)) == Reachable)
              && (status == Unverified <==> Shaped(v) && git(Lower(v)) == GitUnavailable)
  {
    if m.claim.MainSha? { ShapedIff(m.claim.value); }
  }

  predicate Shaped(v: string) {
    7 <= |v| <= 40 && forall i :: 0 <= i < |v| ==> '0' <= v[i] <= '9' || 'a' <= v[i] <= 'f' || 'A' <= v[i] <= 'F'
  }

  lemma ShapedIff(v: string)
    ensures ShaShaped(Lower(v)) <==> Shaped(v)
  {
    LowerMeans(v);
    forall i | 0 <= i < |v|
      ensures HexDigit(Lower(v)[i]) <==> '0' <= v[i] <= '9' || 'a' <= v[i] <= 'f' || 'A' <= v[i] <= 'F'
    {
      assert 'A' <= v[i] <= 'Z' ==> Lower(v)[i] as int == v[i] as int + 32;
    }
  }

  /** The first header marker gives the date of the document. */
  lemma {:induction false} HeaderMeans(ms: seq<Marker>) returns (h: nat)
    ensures h <= |ms| && forall i :: 0 <= i < h ==> !ms[i].Header?
    ensures if h < |ms| then ms[h].Header? && HeaderDate(ms) == ms[h].date else HeaderDate(ms).None?
  {
    h := 0;
    if ms != [] && !ms[0].Header? {
      h := HeaderMeans(ms[1..]);
      forall i | 0 < i < h + 1 ensures !ms[i].Header? { assert ms[i] == ms[1..][i - 1]; }
      h := h + 1;
    }
  }

  /** The region has a date, and not one after the first header's. */
  predicate DatedBefore(r: Region, ms: seq<Marker>) {
    r.asOf.Some? && forall h :: 0 <= h < |ms| && FirstHeader(ms, h) && ms[h].date.Some? ==>
      r.asOf.value <= ms[h].date.value
  }

  predicate FirstHeader(ms: seq<Marker>, h: nat)
    requires h < |ms|
  {
    ms[h].Header? && forall i :: 0 <= i < h ==> !ms[i].Header?
  }

  lemma DatedIff(r: Region, ms: seq<Marker>)
    ensures WellDated(r, HeaderDate(ms)) <==> DatedBefore(r, ms)
  {
    var h := HeaderMeans(ms);
    if h < |ms| { assert FirstHeader(ms, h); }
    forall k | 0 <= k < |ms| && FirstHeader(ms, k) ensures k == h {}
  }

  predicate Hidden(regions: seq<Region>, m: Marker) {
    exists i :: 0 <= i < |regions| && regions[i].start <= m.line <= regions[i].end
  }

  lemma HiddenIff(regions: seq<Region>, m: Marker)
    ensures InRegion(regions, m.line) <==> Hidden(regions, m)
  {
    assert forall i :: 0 <= i < |regions| ==> regions[i] in regions;
  }

  /** An acceptable status: no failure and, if strict, verified. */
  predicate Fine(s: Status, strict: bool) { s == Pass || (s == Unverified && !strict) }

  /** When the results of a document let the validation exit zero. */
  lemma DocAcceptedIff(surface: string, ms: seq<Marker>, prose: seq<ClaimResult>, git: string -> Reach,
      answers: map<nat, Option<string>>, strict: bool)
    ensures var doc := Parsed(surface, ms, prose);
            Accepted(DocResults(doc, git, answers), strict)
            <==> && (forall i :: 0 <= i < |ms| ==> !Faulty(ms, i))
                 && (forall k :: 0 <= k < |doc.regions| ==> DatedBefore(doc.regions[k], ms))
                 && (forall i :: 0 <= i < |ms| && ms[i].LiveClaim? ==>
                      !Hidden(doc.regions, ms[i]) && Fine(LiveStatus(ms[i], git, answers), strict))
                 && (forall k :: 0 <= k < |prose| ==> Fine(prose[k].status, strict))
  {
    var doc := Parsed(surface, ms, prose);
    NoFaultIff(surface, ms, prose, strict);
    RegionsFineIff(doc, strict);
    HiddenFineIff(doc, strict);
    LiveFineIff(doc, git, answers, strict);
    ProseFineIff(prose, strict);
    ClaimsAreLive(ms, doc.regions, false);
    var live := LiveResults(surface, Claims(ms, doc.regions, false), git, answers);
    AcceptedConcat(doc.failures, RegionResults(doc), strict);
    AcceptedConcat(doc.failures + RegionResults(doc), HiddenResults(doc, ms), strict);
    AcceptedConcat(doc.failures + RegionResults(doc) + HiddenResults(doc, ms), prose, strict);
    AcceptedConcat(doc.failures + RegionResults(doc) + HiddenResults(doc, ms) + prose, live, strict);
  }

  lemma AcceptedConcat(a: seq<ClaimResult>, b: seq<ClaimResult>, strict: bool)
    ensures Accepted(a + b, strict) <==> Accepted(a, strict) && Accepted(b, strict)
  {
    assert forall r :: r in a + b <==> r in a || r in b;
  }

  lemma NoFaultIff(surface: string, ms: seq<Marker>, prose: seq<ClaimResult>, strict: bool)
    ensures Accepted(Parsed(surface, ms, prose).failures, strict) <==> forall i :: 0 <= i < |ms| ==> !Faulty(ms, i)
  {
    ParsedMeans(surface, ms, prose);
    if i :| 0 <= i < |ms| && Faulty(ms, i) {
      assert ClaimResult(surface, ms[i].line, Marking, Fail) in Parsed(surface, ms, prose).failures;
    }
  }

  lemma RegionsFineIff(doc: Document, strict: bool)
    ensures Accepted(RegionResults(doc), strict)
            <==> forall k :: 0 <= k < |doc.regions| ==> DatedBefore(doc.regions[k], doc.markers)
  {
    var results := RegionResults(doc);
    forall k | 0 <= k < |doc.regions|
      ensures results[k] in results && (results[k].status == Fail <==> !DatedBefore(doc.regions[k], doc.markers))
      ensures results[k].status != Unverified
    {
      DatedIff(doc.regions[k], doc.markers);
    }
  }

  lemma HiddenFineIff(doc: Document, strict: bool)
    ensures Accepted(HiddenResults(doc, doc.markers), strict)
            <==> forall i :: 0 <= i < |doc.markers| && doc.markers[i].LiveClaim? ==>
                   !Hidden(doc.regions, doc.markers[i])
  {
    var (hidden, results) := (Claims(doc.markers, doc.regions, true), HiddenResults(doc, doc.markers));
    ClaimsAreLive(doc.markers, doc.regions, true);
    forall m: Marker ensures InRegion(doc.regions, m.line) <==> Hidden(doc.regions, m) { HiddenIff(doc.regions, m); }
    if hidden != [] {
      assert results[0] in results && hidden[0] in hidden;
      var i :| 0 <= i < |doc.markers| && doc.markers[i] == hidden[0];
    } else {
      assert forall i :: 0 <= i < |doc.markers| ==> doc.markers[i] in doc.markers;
    }
  }

  /** A claim that is not hidden is judged; where none is hidden, all are. */
  lemma LiveFineIff(doc: Document, git: string -> Reach, answers: map<nat, Option<string>>, strict: bool)
    ensures var claims := Claims(doc.markers, doc.regions, false);
            && (forall m :: m in claims ==> m.LiveClaim?)
            && (Accepted(LiveResults(doc.surface, claims, git, answers), strict)
                <==> forall i :: 0 <= i < |doc.markers| && doc.markers[i].LiveClaim?
                                 && !Hidden(doc.regions, doc.markers[i]) ==>
                       Fine(LiveStatus(doc.markers[i], git, answers), strict))
  {
    var (ms, claims) := (doc.markers, Claims(doc.markers, doc.regions, false));
    ClaimsAreLive(ms, doc.regions, false);
    JudgedIff(doc.surface, claims, git, answers, strict);
    forall i | 0 <= i < |ms| ensures ms[i] in claims <==> ms[i].LiveClaim? && !Hidden(doc.regions, ms[i]) {
      HiddenIff(doc.regions, ms[i]);
    }
    forall m | m in claims ensures exists i :: 0 <= i < |ms| && ms[i] == m {}
  }

  lemma JudgedIff(surface: string, claims: seq<Marker>, git: string -> Reach, answers: map<nat, Option<string>>,
      strict: bool)
    requires forall m :: m in claims ==> m.LiveClaim?
    ensures Accepted(LiveResults(surface, claims, git, answers), strict)
            <==> forall m :: m in claims ==> Fine(LiveStatus(m, git, answers), strict)
  {
    var results := LiveResults(surface, claims, git, answers);
    forall k | 0 <= k < |claims|
      ensures results[k] in results && claims[k] in claims
      ensures results[k].status == LiveStatus(claims[k], git, answers)
    {
    }
  }

  lemma ProseFineIff(prose: seq<ClaimResult>, strict: bool)
    ensures Accepted(prose, strict) <==> forall k :: 0 <= k < |prose| ==> Fine(prose[k].status, strict)
  {
    assert forall k :: 0 <= k < |prose| ==> prose[k] in prose;
  }

  /** All documents together, and the comparison of the declared commits. */
  lemma {:induction false} AllAcceptedIff(docs: seq<Document>, git: string -> Reach,
      answers: map<nat, Option<string>>, strict: bool)
    ensures Accepted(DocsResults(docs, git, answers), strict)
            <==> forall d :: d in docs ==> Accepted(DocResults(d, git, answers), strict)
  {
    if docs != [] {
      var rest, last := docs[..|docs| - 1], docs[|docs| - 1];
      AllAcceptedIff(rest, git, answers, strict);
      AcceptedConcat(DocsResults(rest, git, answers), DocResults(last, git, answers), strict);
      assert forall d :: d in docs <==> d in rest || d == last;
    }
  }

  // ---- The results of a document ----

  /** The topic under which a live claim is judged. */
  predicate JudgedUnder(c: Claim, t: Topic) {
    || (c.MainSha? && t == MainShaTopic) || (c.IssueState? && t == IssueTopic)
    || (c.Unsupported? && t == UnsupportedTopic)
  }

  predicate RegionVerdict(doc: Document, k: nat, r: ClaimResult)
    requires k < |doc.regions|
  {
    r == ClaimResult(doc.surface, doc.regions[k].start, Marking,
                     if DatedBefore(doc.regions[k], doc.markers) then Pass else Fail)
  }

  predicate HiddenVerdict(doc: Document, m: Marker, r: ClaimResult) {
    m.LiveClaim? && Hidden(doc.regions, m) && r == ClaimResult(doc.surface, m.line, Marking, Fail)
  }

  predicate LiveVerdict(doc: Document, m: Marker, git: string -> Reach, answers: map<nat, Option<string>>,
      r: ClaimResult)
  {
    && m.LiveClaim? && !Hidden(doc.regions, m) && JudgedUnder(m.claim, r.topic)
    && r == ClaimResult(doc.surface, m.line, r.topic, LiveStatus(m, git, answers))
  }

  /** Every result of a document, with line and topic: its structural failures, a verdict on each region,
      a failure for each live claim that hides in one, what the prose checks found, and the verdict on
      each other live claim. */
  lemma ResultsMean(doc: Document, git: string -> Reach, answers: map<nat, Option<string>>, r: ClaimResult)
    ensures r in DocResults(doc, git, answers)
            <==> || r in doc.failures || r in doc.prose
                 || (exists k :: 0 <= k < |doc.regions| && RegionVerdict(doc, k, r))
                 || (exists m :: m in doc.markers && HiddenVerdict(doc, m, r))
                 || (exists m :: m in doc.markers && LiveVerdict(doc, m, git, answers, r))
  {
    RegionVerdicts(doc, r);
    HiddenVerdicts(doc, r);
    ClaimsAreLive(doc.markers, doc.regions, false);
    LiveVerdicts(doc, git, answers, r);
  }

  lemma RegionVerdicts(doc: Document, r: ClaimResult)
    ensures r in RegionResults(doc) <==> exists k :: 0 <= k < |doc.regions| && RegionVerdict(doc, k, r)
  {
    var results := RegionResults(doc);
    forall k | 0 <= k < |doc.regions| ensures results[k] in results && (RegionVerdict(doc, k, r) <==> r == results[k]) {
      DatedIff(doc.regions[k], doc.markers);
    }
  }

  lemma HiddenVerdicts(doc: Document, r: ClaimResult)
    ensures r in HiddenResults(doc, doc.markers) <==> exists m :: m in doc.markers && HiddenVerdict(doc, m, r)
  {
    var (claims, results) := (Claims(doc.markers, doc.regions, true), HiddenResults(doc, doc.markers));
    ClaimsAreLive(doc.markers, doc.regions, true);
    forall m: Marker ensures InRegion(doc.regions, m.line) <==> Hidden(doc.regions, m) { HiddenIff(doc.regions, m); }
    forall k | 0 <= k < |claims|
      ensures claims[k] in claims && results[k] in results
      ensures HiddenVerdict(doc, claims[k], r) <==> r == results[k]
    {
    }
    if m :| m in doc.markers && HiddenVerdict(doc, m, r) { assert m in claims; }
  }

  lemma LiveVerdicts(doc: Document, git: string -> Reach, answers: map<nat, Option<string>>, r: ClaimResult)
    requires forall m :: m in Claims(doc.markers, doc.regions, false) ==> m.LiveClaim?
    ensures r in LiveResults(doc.surface, Claims(doc.markers, doc.regions, false), git, answers)
            <==> exists m :: m in doc.markers && LiveVerdict(doc, m, git, answers, r)
  {
    var claims := Claims(doc.markers, doc.regions, false);
    var results := LiveResults(doc.surface, claims, git, answers);
    ClaimsAreLive(doc.markers, doc.regions, false);
    forall m: Marker ensures InRegion(doc.regions, m.line) <==> Hidden(doc.regions, m) { HiddenIff(doc.regions, m); }
    forall k | 0 <= k < |claims|
      ensures claims[k] in claims && results[k] in results
      ensures LiveVerdict(doc, claims[k], git, answers, r) <==> r == results[k]
    {
    }
    if m :| m in doc.markers && LiveVerdict(doc, m, git, answers, r) { assert m in claims; }
  }

  // ---- Declared commits ----

  predicate Declares(doc: Document, m: Marker, d: Declared) {
    && m.LiveClaim? && m.claim.MainSha? && m.claim.value != "" && !Hidden(doc.regions, m)
    && d == Declared(doc.surface, m.line, Lower(m.claim.value))
  }

  /** The commits that are compared: those of every claim outside the regions that names one. */
  lemma {:induction false} DeclaredMeans(docs: seq<Document>, d: Declared)
    ensures d in DeclaredAll(docs) <==> exists doc, m :: doc in docs && m in doc.markers && Declares(doc, m, d)
  {
    if docs != [] {
      var rest, last := docs[..|docs| - 1], docs[|docs| - 1];
      DeclaredMeans(rest, d);
      assert forall x :: x in docs <==> x in rest || x == last;
      var claims := Claims(last.markers, last.regions, false);
      ClaimsAreLive(last.markers, last.regions, false);
      DeclaredByMeans(last.surface, claims, d);
      forall m: Marker ensures InRegion(last.regions, m.line) <==> Hidden(last.regions, m) {
        HiddenIff(last.regions, m);
      }
      assert d in DeclaredBy(last.surface, claims) <==> exists m :: m in last.markers && Declares(last, m, d);
    }
  }

  lemma {:induction false} DeclaredByMeans(surface: string, claims: seq<Marker>, d: Declared)
    ensures d in DeclaredBy(surface, claims)
            <==> exists m :: m in claims && m.LiveClaim? && m.claim.MainSha? && m.claim.value != ""
                             && d == Declared(surface, m.line, Lower(m.claim.value))
  {
    if claims != [] {
      var rest, last := claims[..|claims| - 1], claims[|claims| - 1];
      DeclaredByMeans(surface, rest, d);
      assert forall m :: m in claims <==> m in rest || m == last;
    }
  }

  /** Value `i` neither continues the first nor begins it, and `r` is the failure on its line. */
  predicate FailsAt(ds: seq<Declared>, r: ClaimResult, i: nat)
    requires i < |ds|
  {
    Apart(ds[i].value, ds[0].value) && r == ClaimResult(ds[i].surface, ds[i].line, MainShaTopic, Fail)
  }

  /** The results of the comparison: a failure for each value that parts from the first, and if there is
      none, one pass. */
  lemma CrossMeans(ds: seq<Declared>, r: ClaimResult)
    requires |ds| >= 2
    ensures r in CrossResults(ds)
            <==> || (exists i :: 1 <= i < |ds| && FailsAt(ds, r, i))
                 || ((forall i :: 1 <= i < |ds| ==> !Apart(ds[i].value, ds[0].value))
                     && r == ClaimResult(ds[0].surface, ds[0].line, MainShaTopic, Pass))
  {
    var rest := ds[1..];
    DisagreeingMeans(rest, ds[0].value, r);
    NoneDisagree(rest, ds[0].value);
    forall i | 1 <= i < |ds|
      ensures Agree(rest[i - 1].value, ds[0].value) <==> !Apart(ds[i].value, ds[0].value)
      ensures DisagreesAt(rest, ds[0].value, r, i - 1) <==> FailsAt(ds, r, i)
    {
      ApartIff(ds[i].value, ds[0].value);
    }
    if i :| 0 <= i < |rest| && DisagreesAt(rest, ds[0].value, r, i) { assert FailsAt(ds, r, i + 1); }
    if i :| 0 <= i < |rest| && !Agree(rest[i].value, ds[0].value) { assert Apart(ds[i + 1].value, ds[0].value); }
  }

  /** The two differ in some character that both have. */
  predicate Apart(a: string, b: string) { exists k :: 0 <= k < |a| && k < |b| && a[k] != b[k] }

  lemma ApartIff(a: string, b: string)
    ensures Agree(a, b) <==> !Apart(a, b)
  {
    if !Apart(a, b) {
      if |a| <= |b| { assert a == b[..|a|]; } else { assert b == a[..|b|]; }
    }
  }

  predicate DisagreesAt(ds: seq<Declared>, reference: string, r: ClaimResult, i: nat)
    requires i < |ds|
  {
    !Agree(ds[i].value, reference) && r == ClaimResult(ds[i].surface, ds[i].line, MainShaTopic, Fail)
  }

  lemma {:induction false} DisagreeingMeans(ds: seq<Declared>, reference: string, r: ClaimResult)
    ensures r in Disagreeing(ds, reference) <==> exists i :: 0 <= i < |ds| && DisagreesAt(ds, reference, r, i)
  {
    if ds != [] {
      var n := |ds| - 1;
      DisagreeingMeans(ds[..n], reference, r);
      forall i | 0 <= i < n ensures DisagreesAt(ds[..n], reference, r, i) <==> DisagreesAt(ds, reference, r, i) {}
      assert r in Disagreeing(ds, reference)
        <==> r in Disagreeing(ds[..n], reference) || DisagreesAt(ds, reference, r, n);
    }
  }
}
