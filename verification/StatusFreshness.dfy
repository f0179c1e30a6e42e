/** The status guard of tools/validate_status_freshness.py: historical regions, live claims, the
    cached issue states, and the agreement of all surfaces on one main commit. */
module StatusFreshness {
  import opened Wrappers
  import opened Text

  /** What a live-claim marker claims. An issue is None where it is not a number. */
  datatype Claim = MainSha(value: string) | IssueState(issue: Option<nat>, state: string) | Unsupported

  /** A marker of the document; a date is None where it is missing or malformed. */
  datatype Marker =
    | AsOf(line: nat, date: Option<int>)
    | End(line: nat)
    | LiveClaim(line: nat, claim: Claim)
    | Header(line: nat, date: Option<int>)
    | OtherMarker(line: nat)

  datatype Region = Region(start: nat, end: nat, asOf: Option<int>)

  datatype Topic = Marking | MainShaTopic | IssueTopic | HeaderTopic | UnsupportedTopic
  datatype Status = Pass | Fail | Unverified
  datatype ClaimResult = ClaimResult(surface: string, line: nat, topic: Topic, status: Status)

  /** `prose` holds the results of the checks that read the rendered text. */
  datatype Document = Document(
    surface: string, markers: seq<Marker>, regions: seq<Region>, failures: seq<ClaimResult>, prose: seq<ClaimResult>)

  predicate Boundary(m: Marker) { m.AsOf? || m.End? }

  predicate InOrder(ms: seq<Marker>) { forall i, j :: 0 <= i < j < |ms| ==> ms[i].line <= ms[j].line }

  // ---- Scanning for regions ----

  datatype Scanned = Scanned(regions: seq<Region>, failed: seq<nat>, open: Option<Marker>)

  /** The region from the as-of marker `open` to an end on `line`. */
  function RegionTo(open: Marker, line: nat): Region { Region(open.line, line, if open.AsOf? then open.date else None) }

  /** One marker: an as-of opens or is nested, an end closes or has nothing to close. */
  function ScanStep(s: Scanned, m: Marker): Scanned {
    match m
    case AsOf(line, _) => if s.open.Some? then s.(failed := s.failed + [line]) else s.(open := Some(m))
    case End(line) =>
      if s.open.None? then s.(failed := s.failed + [line])
      else s.(regions := s.regions + [RegionTo(s.open.value, line)], open := None)
    case _ => s
  }

  function Scan(ms: seq<Marker>): Scanned {
    if ms == [] then Scanned([], [], None) else ScanStep(Scan(ms[..|ms| - 1]), ms[|ms| - 1])
  }

  function RegionsOf(ms: seq<Marker>): seq<Region> { Scan(ms).regions }

  /** The lines of structural failures, an unclosed region last. */
  function FailedLines(ms: seq<Marker>): seq<nat> {
    var s := Scan(ms);
    s.failed + if s.open.Some? then [s.open.value.line] else []
  }

  function MarkingFailures(surface: string, lines: seq<nat>): seq<ClaimResult> {
    seq(|lines|, i requires 0 <= i < |lines| => ClaimResult(surface, lines[i], Marking, Fail))
  }

  function Parsed(surface: string, ms: seq<Marker>, prose: seq<ClaimResult>): Document {
    Document(surface, ms, RegionsOf(ms), MarkingFailures(surface, FailedLines(ms)), prose)
  }

  method ParseSurface(surface: string, ms: seq<Marker>, prose: seq<ClaimResult>) returns (doc: Document)
    ensures doc == Parsed(surface, ms, prose)
  {
    var regions: seq<Region> := [];
    var failures: seq<ClaimResult> := [];
    var open: Option<Marker> := None;
    var i := 0;
    while i < |ms|
      invariant 0 <= i <= |ms|
      invariant regions == Scan(ms[..i]).regions && open == Scan(ms[..i]).open
      invariant failures == MarkingFailures(surface, Scan(ms[..i]).failed)
    {
      assert ms[..i + 1][..i] == ms[..i];
      var m := ms[i];
      if m.AsOf? {
        if open.Some? { failures := failures + [ClaimResult(surface, m.line, Marking, Fail)]; }
        else { open := Some(m); }
      } else if m.End? {
        if open.None? { failures := failures + [ClaimResult(surface, m.line, Marking, Fail)]; }
        else {
          regions := regions + [RegionTo(open.value, m.line)];
          open := None;
        }
      }
      i := i + 1;
    }
    assert ms[..i] == ms;
    if open.Some? { failures := failures + [ClaimResult(surface, open.value.line, Marking, Fail)]; }
    doc := Document(surface, ms, regions, failures, prose);
  }

  function Boundaries(ms: seq<Marker>): seq<Marker> {
    if ms == [] then []
    else Boundaries(ms[..|ms| - 1]) + if Boundary(ms[|ms| - 1]) then [ms[|ms| - 1]] else []
  }

  /** No boundary marker is lost: each is half of a region or one failure. */
  lemma {:induction false} MarkersConserved(ms: seq<Marker>)
    ensures |Boundaries(ms)| == 2 * |RegionsOf(ms)| + |FailedLines(ms)|
  {
    if ms != [] { MarkersConserved(ms[..|ms| - 1]); }
  }

  /** Regions are ordered: each ends at or before the next starts. */
  lemma {:induction false} RegionsOrdered(ms: seq<Marker>)
    requires InOrder(ms)
    ensures var s := Scan(ms);
            && (forall r :: r in s.regions ==>
                r.start <= r.end && exists m :: m in ms && Boundary(m) && m.line == r.end)
            && (forall i, j :: 0 <= i < j < |s.regions| ==> s.regions[i].end <= s.regions[j].start)
            && (s.open.Some? ==> s.open.value in ms && Boundary(s.open.value) && forall r :: r in s.regions ==>
                r.end <= s.open.value.line)
  {
    if ms != [] {
      var rest, last := ms[..|ms| - 1], ms[|ms| - 1];
      RegionsOrdered(rest);
      assert forall m :: m in rest ==> m in ms && m.line <= last.line;
    }
  }

  /** As-of and end markers take turns, an as-of first and an end last. */
  predicate Alternates(bs: seq<Marker>) {
    && |bs| % 2 == 0
    && TakeTurns(bs)
  }

  predicate TakeTurns(bs: seq<Marker>) { forall i :: 0 <= i < |bs| ==> (bs[i].AsOf? <==> i % 2 == 0) }

  lemma {:induction false} TurnsScan(ms: seq<Marker>)
    ensures Scan(ms).failed == [] <==> TakeTurns(Boundaries(ms))
    ensures Scan(ms).failed == [] ==>
              var (bs, s) := (Boundaries(ms), Scan(ms));
              && (s.open.Some? <==> |bs| % 2 == 1)
              && (s.open.Some? ==> s.open.value == bs[|bs| - 1])
              && |s.regions| == |bs| / 2
              && forall k :: 0 <= k < |s.regions| ==>
                   bs[2 * k].AsOf? && s.regions[k] == Region(bs[2 * k].line, bs[2 * k + 1].line, bs[2 * k].date)
  {
    if ms != [] {
      var rest, last := ms[..|ms| - 1], ms[|ms| - 1];
      TurnsScan(rest);
      var before, after := Boundaries(rest), Boundaries(ms);
      if Boundary(last) {
        assert after == before + [last] && after[|before|] == last;
        assert TakeTurns(after) ==> TakeTurns(before) by {
          assert forall i :: 0 <= i < |before| ==> after[i] == before[i];
        }
      } else {
        assert after == before;
      }
    }
  }

  /** The structure is sound exactly when the markers alternate, and then region k is the k-th pair. */
  lemma SoundIffAlternating(surface: string, ms: seq<Marker>, prose: seq<ClaimResult>)
    ensures var doc := Parsed(surface, ms, prose);
            && (doc.failures == [] <==> Alternates(Boundaries(ms)))
            && (doc.failures == [] ==>
                  var bs := Boundaries(ms);
                  && 2 * |doc.regions| == |bs|
                  && forall k :: 0 <= k < |doc.regions| ==>
                       bs[2 * k].AsOf? && doc.regions[k] == Region(bs[2 * k].line, bs[2 * k + 1].line, bs[2 * k].date))
  {
    TurnsScan(ms);
    assert |Parsed(surface, ms, prose).failures| == |FailedLines(ms)|;
  }

  predicate InRegion(regions: seq<Region>, line: nat) { exists r :: r in regions && r.start <= line <= r.end }

  predicate EndFollows(ms: seq<Marker>, m: nat) { EndBetween(ms, m, |ms|) }

  predicate EndBetween(ms: seq<Marker>, m: nat, n: nat)
    requires n <= |ms|
  {
    exists k :: m < k < n && ms[k].End?
  }

  /** Some region starts or ends on this line. */
  predicate Touches(regions: seq<Region>, line: nat) {
    exists r :: r in regions && (r.start == line || r.end == line)
  }

  /** Lines stand for marker positions: a marker other than a boundary lies in a region exactly when
      a region is open where it stands and an end follows, or else when some region starts or ends
      on its line. So an unclosed region exempts nothing. */
  lemma InRegionIff(ms: seq<Marker>, m: nat)
    requires InOrder(ms) && m < |ms| && !Boundary(ms[m])
    ensures InRegion(RegionsOf(ms), ms[m].line)
            <==> (Scan(ms[..m]).open.Some? && EndFollows(ms, m)) || Touches(RegionsOf(ms), ms[m].line)
  {
    var inside, touched, closed := Placed(ms, m, |ms|);
    assert ms[..|ms|] == ms;
    TouchedInside(ms, ms[m].line);
  }

  lemma TouchedInside(ms: seq<Marker>, line: nat)
    requires InOrder(ms)
    ensures Touches(RegionsOf(ms), line) ==> InRegion(RegionsOf(ms), line)
  {
    RegionsOrdered(ms);
  }

  lemma {:induction false} Placed(ms: seq<Marker>, m: nat, n: nat) returns (inside: bool, touched: bool, closed: bool)
    requires InOrder(ms) && m < n <= |ms| && !Boundary(ms[m])
    ensures inside == InRegion(Scan(ms[..n]).regions, ms[m].line)
    ensures touched == Touches(Scan(ms[..n]).regions, ms[m].line)
    ensures closed == EndBetween(ms, m, n)
    ensures Places(Scan(ms[..m]).open, Scan(ms[..n]).open, inside, touched, ms[m].line, closed)
    decreases n
  {
    if m == n - 1 {
      inside, touched := PlacedAtEnd(ms, m);
      return inside, touched, false;
    }
    inside, touched, closed := Placed(ms, m, n - 1);
    LastOf(ms, n, m);
    var (line, s, last) := (ms[m].line, Scan(ms[..n - 1]), ms[n - 1]);
    PlaceStep(Scan(ms[..m]).open, s.open, inside, touched, last, line, closed);
    InRegionLater(s, last, line);
    TouchesLater(s, last, line);
    inside := inside || (last.End? && s.open.Some? && s.open.value.line <= line <= last.line);
    touched := touched || (last.End? && s.open.Some? && (s.open.value.line == line || last.line == line));
    closed := closed || last.End?;
  }

  lemma LastOf(ms: seq<Marker>, n: nat, m: nat)
    requires InOrder(ms) && m < n - 1 < |ms|
    ensures Scan(ms[..n]) == ScanStep(Scan(ms[..n - 1]), ms[n - 1])
    ensures ms[m].line <= ms[n - 1].line && ms[n - 1] in ms
    ensures EndBetween(ms, m, n) <==> EndBetween(ms, m, n - 1) || ms[n - 1].End?
  {
    assert ms[..n][..n - 1] == ms[..n - 1];
  }

  /** With `here` open at the marker on `line`, and later `open`; `inside` and `touched` say how the
      line lies to the regions by then, and `closed` whether an end followed. */
  predicate Places(here: Option<Marker>, open: Option<Marker>, inside: bool, touched: bool, line: nat, closed: bool) {
    && (here.Some? && closed ==> inside)
    && (inside ==> (here.Some? && closed) || touched)
    && (here.Some? && !closed ==> open == here && here.value.line <= line)
    && (here.None? && open.Some? ==> line <= open.value.line)
  }

  lemma PlaceStep(here: Option<Marker>, open: Option<Marker>, inside: bool, touched: bool, m: Marker, line: nat,
      closed: bool)
    requires Places(here, open, inside, touched, line, closed) && line <= m.line
    ensures var closes := m.End? && open.Some?;
            var inside' := inside || (closes && open.value.line <= line <= m.line);
            var touched' := touched || (closes && (open.value.line == line || m.line == line));
            Places(here, ScanStep(Scanned([], [], open), m).open, inside', touched', line, closed || m.End?)
  {
  }

  lemma PlacedAtEnd(ms: seq<Marker>, m: nat) returns (inside: bool, touched: bool)
    requires InOrder(ms) && m < |ms| && !Boundary(ms[m])
    ensures inside == InRegion(Scan(ms[..m + 1]).regions, ms[m].line)
    ensures touched == Touches(Scan(ms[..m + 1]).regions, ms[m].line)
    ensures Places(Scan(ms[..m]).open, Scan(ms[..m + 1]).open, inside, touched, ms[m].line, false)
  {
    assert ms[..m + 1][..m] == ms[..m];
    NotBeyond(ms, m, ms[m].line);
    inside, touched := InRegion(Scan(ms[..m]).regions, ms[m].line), Touches(Scan(ms[..m]).regions, ms[m].line);
  }

  /** A line at or below the first `n` markers lies in a region of theirs only by touching it. */
  lemma {:induction false} NotBeyond(ms: seq<Marker>, n: nat, line: nat)
    requires n <= |ms| && forall k :: 0 <= k < n ==> ms[k].line <= line
    ensures InRegion(Scan(ms[..n]).regions, line) ==> Touches(Scan(ms[..n]).regions, line)
    ensures Scan(ms[..n]).open.Some? ==> Scan(ms[..n]).open.value.line <= line
  {
    if n > 0 {
      NotBeyond(ms, n - 1, line);
      assert ms[..n][..n - 1] == ms[..n - 1];
      InRegionLater(Scan(ms[..n - 1]), ms[n - 1], line);
      TouchesLater(Scan(ms[..n - 1]), ms[n - 1], line);
    }
  }

  lemma TouchesLater(s: Scanned, m: Marker, line: nat)
    ensures Touches(ScanStep(s, m).regions, line)
            <==> Touches(s.regions, line) || (m.End? && s.open.Some? && (s.open.value.line == line || m.line == line))
  {
    if m.End? && s.open.Some? {
      var r := RegionTo(s.open.value, m.line);
      assert r in ScanStep(s, m).regions;
    }
  }

  lemma InRegionLater(s: Scanned, m: Marker, line: nat)
    ensures InRegion(ScanStep(s, m).regions, line)
            <==> InRegion(s.regions, line) || (m.End? && s.open.Some? && s.open.value.line <= line <= m.line)
    ensures ScanStep(s, m).open == ScanStep(Scanned([], [], s.open), m).open
  {
    if m.End? && s.open.Some? {
      var r := RegionTo(s.open.value, m.line);
      assert r in ScanStep(s, m).regions;
    }
  }

  /** On a shared line the two notions part: a claim after an end on the end's own line counts as
      inside the region that is already closed. */
  lemma ClaimBesideEnd()
    ensures var ms := [AsOf(1, Some(0)), End(3), LiveClaim(3, Unsupported)];
            InOrder(ms) && Scan(ms[..2]).open.None? && InRegion(RegionsOf(ms), ms[2].line)
  {
    var ms := [AsOf(1, Some(0)), End(3), LiveClaim(3, Unsupported)];
    assert ms[..2] == [ms[0], ms[1]] && ms[..2][..1] == [ms[0]] && ms[..1][..0] == [];
    assert Scan([ms[0]]) == Scanned([], [], Some(ms[0]));
    assert Scan([ms[0], ms[1]]) == Scanned([Region(1, 3, Some(0))], [], None);
    assert Scan(ms) == Scan(ms[..2]);
    assert Region(1, 3, Some(0)) in RegionsOf(ms);
  }
}
