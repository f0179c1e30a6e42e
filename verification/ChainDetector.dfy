/** Chain classification and detection of tools/arvp_chain_detector.py. */
module ChainDetector {
  import opened Wrappers
  import opened Text

  /** The value of `event_type`: the key is absent, holds something that is not text (on which
      `.upper()` raises), or holds text. */
  datatype Kind = NoKind | NotText | Named(text: string)

  /** The value of `ts_ms`: absent or null, a blank string, a value no timestamp can be read
      from (numbers included), or a timestamp. */
  datatype Stamp = NoStamp | Blank | Unreadable | At(t: int)

  datatype Event = Event(kind: Kind, stamp: Stamp, id: Option<string>)

  datatype Evidence = Evidence(events: seq<Event>, byType: seq<Kind>)

  datatype Detection = Detection(
    status: string, eventIds: Option<seq<string>>, first: Option<int>, last: Option<int>,
    missing: seq<string>, malformedCount: nat, exportWindow: Option<(Option<int>, Option<int>)>)

  const REQUIRED := ["SIGNAL", "DECISION", "ORDER", "FILL"]
  const KNOWN := {"SIGNAL", "DECISION", "ORDER", "FILL", "ORDER(paper_)"}

  function UpperChar(c: char): char {
    if 'a' <= c <= 'z' then (c as int - 32) as char else c
  }

  function Upper(s: string): string {
    seq(|s|, i requires 0 <= i < |s| => UpperChar(s[i]))
  }

  function Normalize(raw: string): string {
    var upper := Upper(raw);
    if upper == "ORDER" || "ORDER(" <= upper then "ORDER" else upper
  }

  function KindText(k: Kind): string { if k.Named? then k.text else "" }

  predicate Malformed(e: Event) {
    || !e.kind.Named? || e.kind.text == ""
    || (Normalize(e.kind.text) !in KNOWN && e.kind.text !in KNOWN)
    || e.stamp.NoStamp? || e.stamp.Blank?
  }

  /** Reading the types raises on the first that is not text. */
  predicate TypesReadable(ev: Evidence) {
    && (forall e :: e in ev.events ==> !e.kind.NotText?)
    && (forall k :: k in ev.byType ==> !k.NotText?)
  }

  function EventTypes(ev: Evidence): set<string> { set e | e in ev.events :: Normalize(KindText(e.kind)) }

  function SummaryTypes(ev: Evidence): set<string> { set k | k in ev.byType :: Normalize(KindText(k)) }

  function Classify(ev: Evidence): string {
    if ev.events == [] && ev.byType == [] then "no_events"
    else
      var types := if ev.events != [] then EventTypes(ev) else SummaryTypes(ev);
      if exists e :: e in ev.events && Malformed(e) then "malformed_chain"
      else if {"SIGNAL", "DECISION", "ORDER", "FILL"} <= types then "complete_chain"
      else if {"SIGNAL", "DECISION", "ORDER"} <= types then "signal_decision_order"
      else if {"SIGNAL", "DECISION"} <= types then "signal_decision"
      else "signal_only"
  }

  // ---- Ordering and deduplication ----

  /** The events a timestamp can be read from. */
  function Stamped(events: seq<Event>): seq<Event> {
    if events == [] then []
    else Stamped(events[..|events| - 1]) + if events[|events| - 1].stamp.At? then [events[|events| - 1]] else []
  }

  predicate AllStamped(events: seq<Event>) { forall e :: e in events ==> e.stamp.At? }

  predicate InTimeOrder(events: seq<Event>)
    requires AllStamped(events)
  {
    forall i, j :: 0 <= i < j < |events| ==> events[i].stamp.t <= events[j].stamp.t
  }

  /** Where a stable sort puts `e`: after everything that is not later. */
  function InsertLate(events: seq<Event>, e: Event): seq<Event>
    requires AllStamped(events) && e.stamp.At?
  {
    if events != [] && e.stamp.t < events[|events| - 1].stamp.t
    then InsertLate(events[..|events| - 1], e) + [events[|events| - 1]]
    else events + [e]
  }

  lemma {:induction false} InsertLateProperties(events: seq<Event>, e: Event)
    requires AllStamped(events) && e.stamp.At? && InTimeOrder(events)
    ensures AllStamped(InsertLate(events, e)) && InTimeOrder(InsertLate(events, e))
    ensures forall x :: x in InsertLate(events, e) <==> x in events || x == e
  {
    if events != [] && e.stamp.t < events[|events| - 1].stamp.t {
      var rest, last := events[..|events| - 1], events[|events| - 1];
      InsertLateProperties(rest, e);
      forall x | x in InsertLate(rest, e) ensures x.stamp.t <= last.stamp.t {
        if x != e { var i :| 0 <= i < |rest| && rest[i] == x; }
      }
      LaterAtEnd(InsertLate(rest, e), last);
      assert forall x :: x in events <==> x in rest || x == last;
    } else {
      forall x | x in events ensures x.stamp.t <= e.stamp.t {
        var i :| 0 <= i < |events| && events[i] == x;
      }
      LaterAtEnd(events, e);
    }
  }

  lemma LaterAtEnd(events: seq<Event>, e: Event)
    requires AllStamped(events) && InTimeOrder(events) && e.stamp.At?
    requires forall x :: x in events ==> x.stamp.t <= e.stamp.t
    ensures AllStamped(events + [e]) && InTimeOrder(events + [e])
  {
    assert forall i :: 0 <= i < |events| ==> events[i] in events;
  }

  /** `list.sort(key=timestamp)` */
  ghost function TimeSorted(events: seq<Event>): (r: seq<Event>)
    requires AllStamped(events)
    ensures AllStamped(r) && InTimeOrder(r)
    ensures forall x :: x in r <==> x in events
  {
    if events == [] then []
    else
      var rest := TimeSorted(events[..|events| - 1]);
      InsertLateProperties(rest, events[|events| - 1]);
      assert forall x :: x in events <==> x in events[..|events| - 1] || x == events[|events| - 1];
      InsertLate(rest, events[|events| - 1])
  }

  /** Each id once, at its first place; events without id stay. */
  function Dedupe(events: seq<Event>): seq<Event> {
    if events == [] then []
    else
      var (rest, last) := (events[..|events| - 1], events[|events| - 1]);
      Dedupe(rest) + if last.id.Some? && last.id in Ids(rest) then [] else [last]
  }

  function Ids(events: seq<Event>): set<Option<string>> { set e | e in events :: e.id }

  function IdList(events: seq<Event>): seq<string> {
    if events == [] then []
    else IdList(events[..|events| - 1]) + if events[|events| - 1].id.Some? then [events[|events| - 1].id.value] else []
  }

  lemma {:induction false} StampedMembers(events: seq<Event>)
    ensures AllStamped(Stamped(events))
    ensures forall e :: e in Stamped(events) <==> e in events && e.stamp.At?
  {
    if events != [] {
      StampedMembers(events[..|events| - 1]);
      assert forall e :: e in events <==> e in events[..|events| - 1] || e == events[|events| - 1];
    }
  }

  ghost function Timeline(events: seq<Event>): (r: seq<Event>)
    ensures AllStamped(r) && InTimeOrder(r)
  {
    StampedMembers(events);
    DedupeKeepsOrder(TimeSorted(Stamped(events)));
    Dedupe(TimeSorted(Stamped(events)))
  }

  lemma {:induction false} DedupeKeepsOrder(events: seq<Event>)
    requires AllStamped(events) && InTimeOrder(events)
    ensures AllStamped(Dedupe(events)) && InTimeOrder(Dedupe(events))
    ensures forall e :: e in Dedupe(events) ==> e in events
  {
    if events != [] {
      var rest, last := events[..|events| - 1], events[|events| - 1];
      DedupeKeepsOrder(rest);
      forall e | e in Dedupe(rest) ensures e.stamp.t <= last.stamp.t {
        var i :| 0 <= i < |rest| && rest[i] == e;
      }
      assert forall i :: 0 <= i < |Dedupe(rest)| ==> Dedupe(rest)[i] in Dedupe(rest);
    }
  }

  lemma {:induction false} DedupeKeepsIds(events: seq<Event>)
    ensures Ids(Dedupe(events)) == Ids(events)
    ensures forall i, j :: 0 <= i < j < |Dedupe(events)| && Dedupe(events)[i].id.Some? ==>
              Dedupe(events)[i].id != Dedupe(events)[j].id
  {
    if events != [] {
      var rest, last := events[..|events| - 1], events[|events| - 1];
      DedupeKeepsIds(rest);
      IdsSnoc(rest, last);
      IdsSnoc(Dedupe(rest), last);
      assert events == rest + [last];
      forall i | 0 <= i < |Dedupe(rest)| ensures Dedupe(rest)[i].id in Ids(rest) {
        assert Dedupe(rest)[i] in Dedupe(rest) && Dedupe(rest)[i].id in Ids(Dedupe(rest));
      }
    }
  }

  lemma IdsSnoc(events: seq<Event>, e: Event)
    ensures Ids(events + [e]) == Ids(events) + {e.id}
  {
    forall x ensures x in Ids(events + [e]) <==> x in Ids(events) + {e.id} {
      if x in Ids(events) {
        var y :| y in events && y.id == x;
        assert y in events + [e];
      }
      if x == e.id { assert e in events + [e]; }
    }
  }

  lemma {:induction false} IdListMembers(events: seq<Event>)
    ensures forall x :: x in IdList(events) <==> Some(x) in Ids(events)
  {
    if events != [] {
      IdListMembers(events[..|events| - 1]);
      assert forall e :: e in events <==> e in events[..|events| - 1] || e == events[|events| - 1];
    }
  }

  lemma {:induction false} IdListDistinct(events: seq<Event>)
    requires forall i, j :: 0 <= i < j < |events| && events[i].id.Some? ==> events[i].id != events[j].id
    ensures forall i, j :: 0 <= i < j < |IdList(events)| ==> IdList(events)[i] != IdList(events)[j]
  {
    if events != [] {
      var rest, last := events[..|events| - 1], events[|events| - 1];
      IdListDistinct(rest);
      IdListMembers(rest);
      forall i | 0 <= i < |IdList(rest)| && last.id.Some? ensures IdList(rest)[i] != last.id.value {
        assert IdList(rest)[i] in IdList(rest);
        var e :| e in rest && e.id == Some(IdList(rest)[i]);
        var k :| 0 <= k < |rest| && rest[k] == e;
        assert events[k].id != events[|events| - 1].id;
      }
    }
  }

  // ---- Detection ----

  function Ends(timeline: seq<Event>): (Option<int>, Option<int>)
    requires AllStamped(timeline)
  {
    if timeline == [] then (None, None)
    else (Some(timeline[0].stamp.t), Some(timeline[|timeline| - 1].stamp.t))
  }

  function MissingSteps(ev: Evidence, required: seq<string>): seq<string> {
    if required == [] then []
    else MissingSteps(ev, required[..|required| - 1])
         + if required[|required| - 1] in EventTypes(ev) + SummaryTypes(ev) then [] else [required[|required| - 1]]
  }

  function MalformedCount(events: seq<Event>): nat {
    if events == [] then 0
    else MalformedCount(events[..|events| - 1]) + if Malformed(events[|events| - 1]) then 1 else 0
  }

  ghost function DetectionOf(ev: Evidence): Detection {
    var timeline := Timeline(ev.events);
    var ids := IdList(timeline);
    Detection(Classify(ev), if ids == [] then None else Some(ids), Ends(timeline).0, Ends(timeline).1,
              MissingSteps(ev, REQUIRED), MalformedCount(ev.events),
              if Classify(ev) == "complete_chain" then Some(Ends(timeline)) else None)
  }

  /** Collect the events with a readable time and sort them. */
  method SortEvents(events: seq<Event>) returns (sorted: seq<Event>)
    ensures AllStamped(Stamped(events)) && sorted == TimeSorted(Stamped(events))
  {
    sorted := [];
    var i := 0;
    while i < |events|
      invariant 0 <= i <= |events|
      invariant AllStamped(Stamped(events[..i])) && sorted == TimeSorted(Stamped(events[..i]))
    {
      StampedLater(events, i);
      if events[i].stamp.At? {
        TimeSortedLater(Stamped(events[..i]), events[i]);
        sorted := InsertLate(sorted, events[i]);
      }
      i := i + 1;
    }
    assert events[..i] == events;
  }

  lemma StampedLater(events: seq<Event>, i: nat)
    requires i < |events|
    ensures Stamped(events[..i + 1])
              == if events[i].stamp.At? then Stamped(events[..i]) + [events[i]] else Stamped(events[..i])
    ensures AllStamped(Stamped(events[..i + 1]))
  {
    assert events[..i + 1][..i] == events[..i];
    StampedMembers(events[..i + 1]);
  }

  lemma TimeSortedLater(events: seq<Event>, e: Event)
    requires AllStamped(events) && e.stamp.At?
    ensures AllStamped(events + [e]) && TimeSorted(events + [e]) == InsertLate(TimeSorted(events), e)
  {
    assert (events + [e])[..|events|] == events;
  }

  /** Drop every event whose id came before. */
  method DropRepeated(sorted: seq<Event>) returns (timeline: seq<Event>)
    ensures timeline == Dedupe(sorted)
  {
    var seen: set<string> := {};
    timeline := [];
    var k := 0;
    while k < |sorted|
      invariant 0 <= k <= |sorted|
      invariant timeline == Dedupe(sorted[..k])
      invariant forall x: string :: x in seen <==> Some(x) in Ids(sorted[..k])
    {
      assert sorted[..k + 1][..k] == sorted[..k] && sorted[..k + 1] == sorted[..k] + [sorted[k]];
      IdsSnoc(sorted[..k], sorted[k]);
      if sorted[k].id.None? {
        timeline := timeline + [sorted[k]];
      } else if sorted[k].id.value !in seen {
        seen := seen + {sorted[k].id.value};
        timeline := timeline + [sorted[k]];
      }
      k := k + 1;
    }
    assert sorted[..k] == sorted;
  }

  /** The code `detect` and `_build_export_trigger` share. */
  method BuildTimeline(events: seq<Event>) returns (timeline: seq<Event>)
    ensures timeline == Timeline(events)
  {
    var sorted := SortEvents(events);
    timeline := DropRepeated(sorted);
  }

  /** `_build_export_trigger`: the window is worked out a second time. */
  method BuildExportTrigger(ev: Evidence) returns (window: (Option<int>, Option<int>))
    ensures window == Ends(Timeline(ev.events))
  {
    var timeline := BuildTimeline(ev.events);
    window := Ends(timeline);
  }

  /** `ChainDetector.detect`; None where reading a type raises. */
  method Detect(ev: Evidence) returns (d: Option<Detection>)
    ensures d == if TypesReadable(ev) then Some(DetectionOf(ev)) else None
    ensures d.None? <==> (exists e :: e in ev.events && e.kind.NotText?) || NotText in ev.byType
  {
    if !TypesReadable(ev) { return None; }
    var status := Classify(ev);
    var timeline := BuildTimeline(ev.events);
    var ids: seq<string> := [];
    var i := 0;
    while i < |timeline|
      invariant 0 <= i <= |timeline| && ids == IdList(timeline[..i])
    {
      assert timeline[..i + 1][..i] == timeline[..i];
      if timeline[i].id.Some? { ids := ids + [timeline[i].id.value]; }
      i := i + 1;
    }
    assert timeline[..i] == timeline;
    var window: Option<(Option<int>, Option<int>)> := None;
    if status == "complete_chain" {
      var w := BuildExportTrigger(ev);
      window := Some(w);
    }
    d := Some(Detection(status, if ids == [] then None else Some(ids), Ends(timeline).0, Ends(timeline).1,
                        MissingSteps(ev, REQUIRED), MalformedCount(ev.events), window));
  }

  // ---- What a complete chain means ----

  /** The reported times are in order, the first is the earliest readable one, and the export
      window is the reported one. */
  lemma ReportedTimes(ev: Evidence)
    ensures var d := DetectionOf(ev);
            && (d.first.None? <==> forall e :: e in ev.events ==> !e.stamp.At?)
            && (d.first.Some? ==>
                  && d.last.Some? && d.first.value <= d.last.value
                  && (exists e :: e in ev.events && e.stamp == At(d.first.value))
                  && (forall e :: e in ev.events && e.stamp.At? ==> d.first.value <= e.stamp.t))
            && (d.exportWindow.Some? ==> d.exportWindow.value == (d.first, d.last))
  {
    var timeline := Timeline(ev.events);
    FirstIsEarliest(ev.events);
    if timeline != [] { assert timeline[0] in timeline; }
  }

  lemma FirstIsEarliest(events: seq<Event>)
    ensures var t := Timeline(events);
            && InTimeOrder(t)
            && (t == [] <==> forall e :: e in events ==> !e.stamp.At?)
            && (forall e :: e in t ==> e in events && e.stamp.At?)
            && (t != [] ==> forall e :: e in events && e.stamp.At? ==> t[0].stamp.t <= e.stamp.t)
  {
    StampedMembers(events);
    var sorted := TimeSorted(Stamped(events));
    FirstSurvives(sorted);
    DedupeKeepsOrder(sorted);
    if sorted == [] {
      assert forall e :: e in events && e.stamp.At? ==> e in sorted;
    } else {
      assert sorted[0] in sorted;
      forall e | e in events && e.stamp.At? ensures sorted[0].stamp.t <= e.stamp.t {
        assert e in sorted;
        var i :| 0 <= i < |sorted| && sorted[i] == e;
      }
    }
  }

  lemma {:induction false} FirstSurvives(events: seq<Event>)
    ensures Dedupe(events) == [] <==> events == []
    ensures events != [] ==> Dedupe(events)[0] == events[0]
  {
    if |events| == 1 {
      assert events[..0] == [];
    } else if events != [] {
      FirstSurvives(events[..|events| - 1]);
    }
  }

  /** A complete chain is read from well-formed events and misses no step. */
  lemma CompleteChainSound(ev: Evidence)
    requires Classify(ev) == "complete_chain"
    ensures forall e :: e in ev.events ==> !Malformed(e)
    ensures MissingSteps(ev, REQUIRED) == []
    ensures MalformedCount(ev.events) == 0
  {
    NoneMissing(ev, REQUIRED);
    NoneMalformed(ev.events);
  }

  /** Which inputs are a complete chain: nothing malformed, no step missing, and the summary is not
      what supplied a step that the individual events lack. */
  lemma CompleteChainIff(ev: Evidence)
    ensures Classify(ev) == "complete_chain"
            <==> && MissingSteps(ev, REQUIRED) == [] && MalformedCount(ev.events) == 0
                 && (ev.events != [] ==> forall t :: t in REQUIRED && t in SummaryTypes(ev) ==> t in EventTypes(ev))
  {
    CompleteMeans(ev);
    if Classify(ev) == "complete_chain" { CompleteChainSound(ev); }
    if MissingSteps(ev, REQUIRED) == [] && MalformedCount(ev.events) == 0 {
      AllPresent(ev, REQUIRED);
      AllWellFormed(ev.events);
    }
  }

  lemma CompleteMeans(ev: Evidence)
    ensures Classify(ev) == "complete_chain"
            <==> && (forall e :: e in ev.events ==> !Malformed(e))
                 && (forall t :: t in REQUIRED ==> t in if ev.events != [] then EventTypes(ev) else SummaryTypes(ev))
  {
    var types := if ev.events != [] then EventTypes(ev) else SummaryTypes(ev);
    var steps := {"SIGNAL", "DECISION", "ORDER", "FILL"};
    assert steps <= types <==> forall t :: t in REQUIRED ==> t in types by {
      assert forall t :: t in REQUIRED <==> t in steps;
    }
    assert REQUIRED[0] in REQUIRED;
    if ev.events == [] && ev.byType == [] { assert types == {}; }
  }

  lemma {:induction false} AllPresent(ev: Evidence, required: seq<string>)
    requires MissingSteps(ev, required) == []
    ensures forall t :: t in required ==> t in EventTypes(ev) + SummaryTypes(ev)
  {
    if required != [] { AllPresent(ev, required[..|required| - 1]); }
  }

  lemma {:induction false} AllWellFormed(events: seq<Event>)
    requires MalformedCount(events) == 0
    ensures forall e :: e in events ==> !Malformed(e)
  {
    if events != [] { AllWellFormed(events[..|events| - 1]); }
  }

  lemma {:induction false} NoneMissing(ev: Evidence, required: seq<string>)
    requires forall t :: t in required ==> t in EventTypes(ev) + SummaryTypes(ev)
    ensures MissingSteps(ev, required) == []
  {
    if required != [] { NoneMissing(ev, required[..|required| - 1]); }
  }

  lemma {:induction false} NoneMalformed(events: seq<Event>)
    requires forall e :: e in events ==> !Malformed(e)
    ensures MalformedCount(events) == 0
  {
    if events != [] { NoneMalformed(events[..|events| - 1]); }
  }

  // ---- A complete chain ----

  const FOUR_EVENTS := [
    Event(Named("SIGNAL"), At(1), Some("a")), Event(Named("DECISION"), At(2), Some("b")),
    Event(Named("ORDER"), At(3), Some("c")), Event(Named("FILL"), At(4), Some("d"))]

  lemma NormalizeKeeps(t: string)
    requires t in REQUIRED
    ensures Normalize(t) == t
  {
    assert Upper(t) == t;
    assert "ORDER("[5] == '(' && (|t| > 5 ==> t[5] != '(');
  }

  lemma FourEventsComplete()
    ensures TypesReadable(Evidence(FOUR_EVENTS, [])) && Classify(Evidence(FOUR_EVENTS, [])) == "complete_chain"
  {
    var ev := Evidence(FOUR_EVENTS, []);
    forall i | 0 <= i < 4
      ensures FOUR_EVENTS[i].kind == Named(REQUIRED[i]) && REQUIRED[i] in EventTypes(ev) && !Malformed(FOUR_EVENTS[i])
    {
      NormalizeKeeps(REQUIRED[i]);
      assert FOUR_EVENTS[i] in ev.events;
    }
    CompleteMeans(ev);
  }

  const MIXED_EVIDENCE := Evidence([FOUR_EVENTS[0]], [Named("DECISION"), Named("ORDER"), Named("FILL")])

  /** One event and a summary of the rest: nothing missing, nothing malformed, and not complete. */
  lemma NothingMissingNotComplete()
    ensures MissingSteps(MIXED_EVIDENCE, REQUIRED) == [] && MalformedCount(MIXED_EVIDENCE.events) == 0
    ensures Classify(MIXED_EVIDENCE) != "complete_chain"
  {
    AllStepsSeen();
    NoneMissing(MIXED_EVIDENCE, REQUIRED);
    SignalWellFormed();
    NoneMalformed(MIXED_EVIDENCE.events);
    OnlySignals();
    CompleteMeans(MIXED_EVIDENCE);
  }

  lemma AllStepsSeen()
    ensures forall t :: t in REQUIRED ==> t in EventTypes(MIXED_EVIDENCE) + SummaryTypes(MIXED_EVIDENCE)
  {
    forall t | t in REQUIRED ensures t in EventTypes(MIXED_EVIDENCE) + SummaryTypes(MIXED_EVIDENCE) {
      var i :| 0 <= i < |REQUIRED| && REQUIRED[i] == t;
      if i == 0 { InEvents(); } else { InSummary(i); }
    }
  }

  lemma InEvents()
    ensures REQUIRED[0] in EventTypes(MIXED_EVIDENCE)
  {
    NormalizeKeeps(REQUIRED[0]);
    assert MIXED_EVIDENCE.events[0] in MIXED_EVIDENCE.events;
  }

  lemma InSummary(i: nat)
    requires 1 <= i <= 3
    ensures REQUIRED[i] in SummaryTypes(MIXED_EVIDENCE)
  {
    NormalizeKeeps(REQUIRED[i]);
    var kind := MIXED_EVIDENCE.byType[i - 1];
    assert kind in MIXED_EVIDENCE.byType && kind == Named(REQUIRED[i]);
  }

  lemma SignalWellFormed()
    ensures forall e :: e in MIXED_EVIDENCE.events ==> !Malformed(e)
  {
    NormalizeKeeps(REQUIRED[0]);
  }

  lemma OnlySignals()
    ensures "DECISION" in REQUIRED && "DECISION" !in EventTypes(MIXED_EVIDENCE)
  {
    NormalizeKeeps(REQUIRED[0]);
    assert REQUIRED[1] == "DECISION" && "DECISION"[0] != "SIGNAL"[0];
  }

  /** The id of `e` was already used by a strictly earlier event. */
  predicate Superseded(events: seq<Event>, e: Event)
    requires e.stamp.At?
  {
    e.id.Some? && exists x :: x in events && x.id == e.id && x.stamp.At? && x.stamp.t < e.stamp.t
  }

  /** The reported last timestamp need not be the latest readable one. It is, exactly when some
      event of the latest time does not repeat the id of an earlier event. */
  lemma LastIsLatestIff(ev: Evidence, latest: Event)
    requires latest in ev.events && latest.stamp.At?
    requires forall e :: e in ev.events && e.stamp.At? ==> e.stamp.t <= latest.stamp.t
    ensures DetectionOf(ev).last == Some(latest.stamp.t)
            <==> exists e :: e in ev.events && e.stamp == latest.stamp && !Superseded(ev.events, e)
  {
    LastTimeIff(ev.events, latest);
  }

  ghost function LastTime(events: seq<Event>): Option<int> { Ends(Timeline(events)).1 }

  lemma LastTimeIff(events: seq<Event>, latest: Event)
    requires latest in events && latest.stamp.At?
    requires forall e :: e in events && e.stamp.At? ==> e.stamp.t <= latest.stamp.t
    ensures LastTime(events) == Some(latest.stamp.t)
            <==> exists e :: e in events && e.stamp == latest.stamp && !Superseded(events, e)
  {
    if LastTime(events) == Some(latest.stamp.t) {
      var e := LastFresh(events);
      assert e.stamp == latest.stamp;
    }
    if e :| e in events && e.stamp == latest.stamp && !Superseded(events, e) {
      FreshReached(events, e);
      var w := LastFresh(events);
    }
  }

  lemma LastFresh(events: seq<Event>) returns (e: Event)
    requires LastTime(events).Some?
    ensures e in events && e.stamp == At(LastTime(events).value) && !Superseded(events, e)
  {
    StampedMembers(events);
    var sorted := TimeSorted(Stamped(events));
    var kept := Dedupe(sorted);
    e := kept[|kept| - 1];
    KeptNotSuperseded(sorted, e);
    assert forall x :: x in events && x.stamp.At? ==> x in sorted;
  }

  lemma FreshReached(events: seq<Event>, e: Event)
    requires e in events && e.stamp.At? && !Superseded(events, e)
    ensures LastTime(events).Some? && e.stamp.t <= LastTime(events).value
  {
    var w := FreshKept(events, e);
    LastIsGreatest(Timeline(events), w);
  }

  lemma FreshKept(events: seq<Event>, e: Event) returns (w: Event)
    requires e in events && e.stamp.At? && !Superseded(events, e)
    ensures w in Timeline(events) && w.stamp == e.stamp
  {
    StampedMembers(events);
    FewerSupersede(TimeSorted(Stamped(events)), events, e);
    w := NotSupersededKept(TimeSorted(Stamped(events)), e);
  }

  lemma FewerSupersede(some: seq<Event>, events: seq<Event>, e: Event)
    requires e.stamp.At? && !Superseded(events, e) && forall x :: x in some ==> x in events
    ensures !Superseded(some, e)
  {
  }

  lemma LastIsGreatest(events: seq<Event>, e: Event)
    requires AllStamped(events) && InTimeOrder(events) && e in events
    ensures e.stamp.t <= events[|events| - 1].stamp.t
  {
    var i :| 0 <= i < |events| && events[i] == e;
  }

  /** Two events with one id, whatever they are: the later one, and with it the latest time, is
      dropped from the report. */
  lemma LatestDropped(e: Event, f: Event)
    requires e.stamp.At? && f.stamp.At? && e.stamp.t < f.stamp.t && e.id.Some? && e.id == f.id
    ensures LastTime([e, f]) == Some(e.stamp.t)
  {
    var events := [e, f];
    assert e in events && f in events;
    assert forall x :: x in events <==> x == e || x == f;
    FreshReached(events, e);
    var w := LastFresh(events);
    OnlyFirstFresh(e, f, w);
  }

  lemma OnlyFirstFresh(e: Event, f: Event, w: Event)
    requires e.stamp.At? && f.stamp.At? && e.stamp.t < f.stamp.t && e.id.Some? && e.id == f.id
    requires w in [e, f] && w.stamp.At? && !Superseded([e, f], w)
    ensures w == e
  {
    assert e in [e, f];
  }

  /** `e` is the first, in time, of the readable events with this id. */
  predicate FirstUse(events: seq<Event>, id: string, e: Event) {
    e in events && e.stamp.At? && e.id == Some(id) && !Superseded(events, e)
  }

  predicate HasFirstUse(events: seq<Event>, id: string) { exists e :: e in events && FirstUse(events, id, e) }

  /** The first events with these ids come in this order, or at one time. */
  predicate FirstUsesOrdered(events: seq<Event>, id1: string, id2: string) {
    forall a, b :: a in events && b in events && FirstUse(events, id1, a) && FirstUse(events, id2, b) ==>
      a.stamp.t <= b.stamp.t
  }

  /** Distinct ids, each of an event, in the order of the times of their first events. */
  predicate OrderedIds(events: seq<Event>, ids: seq<string>) {
    && (forall i, j :: 0 <= i < j < |ids| ==> ids[i] != ids[j])
    && (forall i :: 0 <= i < |ids| ==> HasFirstUse(events, ids[i]))
    && (forall i, j :: 0 <= i < j < |ids| ==> FirstUsesOrdered(events, ids[i], ids[j]))
  }

  lemma IdsInOrder(events: seq<Event>)
    ensures OrderedIds(events, IdList(Timeline(events)))
  {
    var timeline := Timeline(events);
    var ids := IdList(timeline);
    DedupeKeepsIds(TimeSorted(Stamped(events)));
    IdListDistinct(timeline);
    forall i | 0 <= i < |ids| ensures HasFirstUse(events, ids[i]) {
      var p := IdPlace(timeline, i);
      TimelineFirstUse(events, p, ids[i]);
    }
    forall i, j | 0 <= i < j < |ids| ensures FirstUsesOrdered(events, ids[i], ids[j]) {
      var p, q := IdPlaces(timeline, i, j);
      PlacesOrdered(events, p, q, ids[i], ids[j]);
    }
  }

  lemma PlacesOrdered(events: seq<Event>, p: nat, q: nat, id1: string, id2: string)
    requires p < q < |Timeline(events)|
    requires Timeline(events)[p].id == Some(id1) && Timeline(events)[q].id == Some(id2)
    ensures FirstUsesOrdered(events, id1, id2)
  {
    var (x, y) := (Timeline(events)[p], Timeline(events)[q]);
    TimelineFirstUse(events, p, id1);
    TimelineFirstUse(events, q, id2);
    forall a, b | a in events && b in events && FirstUse(events, id1, a) && FirstUse(events, id2, b)
      ensures a.stamp.t <= b.stamp.t
    {
      SameFirstTime(events, id1, a, x);
      SameFirstTime(events, id2, b, y);
    }
  }

  lemma SameFirstTime(events: seq<Event>, id: string, a: Event, b: Event)
    requires FirstUse(events, id, a) && FirstUse(events, id, b)
    ensures a.stamp.t == b.stamp.t
  {
  }

  lemma TimelineFirstUse(events: seq<Event>, p: nat, id: string)
    requires p < |Timeline(events)| && Timeline(events)[p].id == Some(id)
    ensures FirstUse(events, id, Timeline(events)[p])
  {
    StampedMembers(events);
    var sorted := TimeSorted(Stamped(events));
    var e := Timeline(events)[p];
    assert e in Dedupe(sorted);
    KeptNotSuperseded(sorted, e);
    assert forall x :: x in events && x.stamp.At? ==> x in sorted;
  }

  /** Where the id at place `i` of the list comes from. */
  lemma {:induction false} IdPlace(events: seq<Event>, i: nat) returns (p: nat)
    requires i < |IdList(events)|
    ensures p < |events| && events[p].id == Some(IdList(events)[i])
  {
    var rest := events[..|events| - 1];
    if i < |IdList(rest)| {
      p := IdPlace(rest, i);
    } else {
      p := |events| - 1;
    }
  }

  lemma {:induction false} IdPlaces(events: seq<Event>, i: nat, j: nat) returns (p: nat, q: nat)
    requires i < j < |IdList(events)|
    ensures p < q < |events| && events[p].id == Some(IdList(events)[i]) && events[q].id == Some(IdList(events)[j])
  {
    var rest := events[..|events| - 1];
    if j < |IdList(rest)| {
      p, q := IdPlaces(rest, i, j);
    } else {
      p := IdPlace(rest, i);
      q := |events| - 1;
    }
  }

  lemma {:induction false} KeptNotSuperseded(events: seq<Event>, e: Event)
    requires AllStamped(events) && InTimeOrder(events) && e in Dedupe(events)
    ensures e in events && !Superseded(events, e)
  {
    var rest, last := events[..|events| - 1], events[|events| - 1];
    DedupeKeepsOrder(rest);
    assert forall x :: x in events <==> x in rest || x == last;
    if e in Dedupe(rest) {
      KeptNotSuperseded(rest, e);
      var i :| 0 <= i < |rest| && rest[i] == e;
      assert e.stamp.t <= last.stamp.t;
    } else {
      assert e == last;
      assert forall x :: x in rest && x.id == e.id ==> x.id in Ids(rest);
    }
  }

  /** An event whose id is not used earlier leaves an event of its time in the list. */
  lemma {:induction false} NotSupersededKept(events: seq<Event>, e: Event) returns (w: Event)
    requires AllStamped(events) && InTimeOrder(events) && e in events && !Superseded(events, e)
    ensures w in Dedupe(events) && w.stamp == e.stamp
  {
    var rest, last := events[..|events| - 1], events[|events| - 1];
    assert forall x :: x in events <==> x in rest || x == last;
    if e in rest {
      w := NotSupersededKept(rest, e);
    } else if last.id.Some? && last.id in Ids(rest) {
      var x :| x in rest && x.id == last.id;
      var i :| 0 <= i < |rest| && rest[i] == x;
      assert x.stamp.t <= last.stamp.t;
      assert !Superseded(rest, x) by {
        assert forall y :: y in rest && y.id == x.id ==> y in events && y.stamp.t >= e.stamp.t;
      }
      w := NotSupersededKept(rest, x);
    } else {
      w := last;
    }
  }

  /** The reported ids are distinct and in time order, and they are the ids of the events with a
      readable time. */
  lemma ReportedIds(ev: Evidence)
    ensures DetectionOf(ev).eventIds.Some? ==>
              && OrderedIds(ev.events, DetectionOf(ev).eventIds.value)
              && (forall x :: x in DetectionOf(ev).eventIds.value <==> Some(x) in Ids(Stamped(ev.events)))
  {
    IdsInOrder(ev.events);
    TimelineIds(ev.events);
  }

  lemma TimelineIds(events: seq<Event>)
    ensures forall x :: x in IdList(Timeline(events)) <==> Some(x) in Ids(Stamped(events))
  {
    StampedMembers(events);
    var sorted := TimeSorted(Stamped(events));
    DedupeKeepsIds(sorted);
    IdListMembers(Dedupe(sorted));
    assert Ids(sorted) == Ids(Stamped(events)) by {
      forall x ensures x in Ids(sorted) <==> x in Ids(Stamped(events)) {}
    }
  }
}
