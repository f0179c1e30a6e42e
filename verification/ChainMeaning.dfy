/** What a detection says, in terms of the events and the summary alone. */
module ChainMeaning {
  import opened Wrappers
  import opened Text
  import opened ChainDetector

  lemma UpperMeans(s: string)
    ensures |Upper(s)| == |s|
    ensures forall i :: 0 <= i < |s| ==>
              if 'a' <= s[i] <= 'z' then Upper(s)[i] as int == s[i] as int - 32 else Upper(s)[i] == s[i]
  {
  }

  /** A type stands for a step: in capitals it reads like it, or begins with `ORDER(`. */
  predicate StandsFor(k: Kind, step: string) {
    k.Named? && (Upper(k.text) == step || (step == "ORDER" && "ORDER(" <= Upper(k.text)))
  }

  predicate Step(step: string) { step in ["SIGNAL", "DECISION", "ORDER", "FILL"] }

  predicate InEvents(ev: Evidence, step: string) {
    exists i :: 0 <= i < |ev.events| && StandsFor(ev.events[i].kind, step)
  }

  predicate InSummary(ev: Evidence, step: string) {
    exists i :: 0 <= i < |ev.byType| && StandsFor(ev.byType[i], step)
  }

  lemma NormalMeans(k: Kind, step: string)
    requires Step(step)
    ensures Normalize(KindText(k)) == step <==> StandsFor(k, step)
  {
    StepsDiffer();
    if k.Named? {
      assert "ORDER(" <= Upper(k.text) ==> Upper(k.text)[0] == 'O' && Upper(k.text)[5] == '(';
    } else {
      assert Upper("") == "";
    }
  }

  lemma StepsDiffer()
    ensures "SIGNAL"[0] == 'S' && "DECISION"[0] == 'D' && "ORDER"[0] == 'O' && "FILL"[0] == 'F'
    ensures |"ORDER"| == 5 && "ORDER("[0] == 'O' && "ORDER("[5] == '('
  {
  }

  lemma TypesMean(ev: Evidence, step: string)
    requires Step(step)
    ensures step in EventTypes(ev) <==> InEvents(ev, step)
    ensures step in SummaryTypes(ev) <==> InSummary(ev, step)
  {
    forall k ensures Normalize(KindText(k)) == step <==> StandsFor(k, step) { NormalMeans(k, step); }
    assert forall i :: 0 <= i < |ev.events| ==> ev.events[i] in ev.events;
    assert forall i :: 0 <= i < |ev.byType| ==> ev.byType[i] in ev.byType;
  }

  /** An event is malformed exactly if its type stands for no step, or its time is absent or blank. The
      second look at the type as it is written changes nothing. */
  lemma MalformedMeans(e: Event)
    ensures Malformed(e)
            <==> || (forall step :: Step(step) ==> !StandsFor(e.kind, step))
                 || e.stamp.NoStamp? || e.stamp.Blank?
  {
    forall step | Step(step) ensures Normalize(KindText(e.kind)) == step <==> StandsFor(e.kind, step) {
      NormalMeans(e.kind, step);
    }
    assert Step("SIGNAL") && Step("DECISION") && Step("ORDER") && Step("FILL");
    if e.kind.Named? {
      NormalInKnown(e.kind.text);
      assert e.kind.text == "" ==> Upper("") == "";
    }
  }

  lemma NormalInKnown(text: string)
    ensures Normalize(text) in KNOWN <==> Step(Normalize(text))
    ensures text in KNOWN ==> Step(Normalize(text))
  {
    UpperMeans(text);
    assert "ORDER(paper_)"[6] == 'p' && "ORDER(paper_)"[..6] == "ORDER(";
    if text == "ORDER(paper_)" {
      UpperMeans("ORDER(");
      assert Upper(text)[..6] == "ORDER(";
    } else if text in KNOWN {
      assert Upper(text) == text;
    }
  }

  /** The types of the events count, or those of the summary where there is no event. */
  predicate Shows(ev: Evidence, step: string) {
    if ev.events != [] then InEvents(ev, step) else InSummary(ev, step)
  }

  lemma ShowsIff(ev: Evidence)
    ensures var types := if ev.events != [] then EventTypes(ev) else SummaryTypes(ev);
            && ("SIGNAL" in types <==> Shows(ev, "SIGNAL")) && ("DECISION" in types <==> Shows(ev, "DECISION"))
            && ("ORDER" in types <==> Shows(ev, "ORDER")) && ("FILL" in types <==> Shows(ev, "FILL"))
  {
    TypesMean(ev, "SIGNAL");
    TypesMean(ev, "DECISION");
    TypesMean(ev, "ORDER");
    TypesMean(ev, "FILL");
  }

  lemma Subsets(types: set<string>)
    ensures {"SIGNAL", "DECISION", "ORDER", "FILL"} <= types
            <==> "SIGNAL" in types && "DECISION" in types && "ORDER" in types && "FILL" in types
    ensures {"SIGNAL", "DECISION", "ORDER"} <= types
            <==> "SIGNAL" in types && "DECISION" in types && "ORDER" in types
    ensures {"SIGNAL", "DECISION"} <= types <==> "SIGNAL" in types && "DECISION" in types
  {
  }

  lemma SomeMalformed(events: seq<Event>)
    ensures (exists e :: e in events && Malformed(e)) <==> exists i :: 0 <= i < |events| && Malformed(events[i])
  {
    assert forall i :: 0 <= i < |events| ==> events[i] in events;
  }

  /** Which status an evidence has. */
  lemma ClassifyMeans(ev: Evidence)
    ensures Classify(ev)
            == if ev.events == [] && ev.byType == [] then "no_events"
               else if exists i :: 0 <= i < |ev.events| && Malformed(ev.events[i]) then "malformed_chain"
               else if !(Shows(ev, "SIGNAL") && Shows(ev, "DECISION")) then "signal_only"
               else if !Shows(ev, "ORDER") then "signal_decision"
               else if !Shows(ev, "FILL") then "signal_decision_order"
               else "complete_chain"
  {
    ShowsIff(ev);
    Subsets(if ev.events != [] then EventTypes(ev) else SummaryTypes(ev));
    SomeMalformed(ev.events);
  }

  function OneMissing(ev: Evidence, step: string): seq<string> {
    if InEvents(ev, step) || InSummary(ev, step) then [] else [step]
  }

  /** The missing steps, in their order, are those that neither an event nor the summary shows. */
  lemma MissingMeans(ev: Evidence)
    ensures MissingSteps(ev, REQUIRED)
            == OneMissing(ev, "SIGNAL") + OneMissing(ev, "DECISION") + OneMissing(ev, "ORDER") + OneMissing(ev, "FILL")
  {
    assert REQUIRED[..0] == [] && REQUIRED[..4] == REQUIRED;
    MissingLater(ev, 0);
    MissingLater(ev, 1);
    MissingLater(ev, 2);
    MissingLater(ev, 3);
  }

  lemma MissingLater(ev: Evidence, i: nat)
    requires i < 4
    ensures MissingSteps(ev, REQUIRED[..i + 1]) == MissingSteps(ev, REQUIRED[..i]) + OneMissing(ev, REQUIRED[i])
  {
    assert REQUIRED[..i + 1][..i] == REQUIRED[..i];
    assert Step(REQUIRED[i]);
    TypesMean(ev, REQUIRED[i]);
  }

  /** The malformed count is the number of malformed events. */
  lemma {:induction false} CountMeans(events: seq<Event>)
    ensures MalformedCount(events) == |set i | 0 <= i < |events| && Malformed(events[i])|
  {
    var bad := set i | 0 <= i < |events| && Malformed(events[i]);
    if events != [] {
      var n := |events| - 1;
      CountMeans(events[..n]);
      var fewer := set i | 0 <= i < |events[..n]| && Malformed(events[..n][i]);
      assert bad == fewer + if Malformed(events[n]) then {n} else {};
    } else {
      assert bad == {};
    }
  }

  /** The readable events that no earlier event with the same id hides. */
  predicate Fresh(ev: Evidence, i: nat)
    requires i < |ev.events|
  {
    && ev.events[i].stamp.At?
    && !exists j :: 0 <= j < |ev.events| && ev.events[j].id == ev.events[i].id && ev.events[i].id.Some?
                    && ev.events[j].stamp.At? && ev.events[j].stamp.t < ev.events[i].stamp.t
  }

  lemma FreshMeans(ev: Evidence, i: nat)
    requires i < |ev.events|
    ensures Fresh(ev, i) <==> ev.events[i].stamp.At? && !Superseded(ev.events, ev.events[i])
  {
  }

  /** The reported times: the earliest and the latest of the fresh events; both are absent exactly if no
      event has a readable time. */
  lemma TimesMean(ev: Evidence)
    ensures var d := DetectionOf(ev);
            && (d.first.Some? <==> d.last.Some?)
            && (d.first.Some? <==> exists i :: 0 <= i < |ev.events| && ev.events[i].stamp.At?)
            && (d.first.Some? ==>
                  && (exists i :: 0 <= i < |ev.events| && Fresh(ev, i) && ev.events[i].stamp.t == d.first.value)
                  && (exists i :: 0 <= i < |ev.events| && Fresh(ev, i) && ev.events[i].stamp.t == d.last.value)
                  && forall i :: 0 <= i < |ev.events| && Fresh(ev, i) ==>
                       d.first.value <= ev.events[i].stamp.t <= d.last.value)
  {
    var d := DetectionOf(ev);
    ReportedTimes(ev);
    assert forall i :: 0 <= i < |ev.events| ==> ev.events[i] in ev.events;
    if d.first.Some? {
      FirstFresh(ev, d.first.value);
      var e := LastFresh(ev.events);
      var i :| 0 <= i < |ev.events| && ev.events[i] == e;
      FreshMeans(ev, i);
      forall k | 0 <= k < |ev.events| && Fresh(ev, k) ensures ev.events[k].stamp.t <= d.last.value {
        FreshMeans(ev, k);
        FreshReached(ev.events, ev.events[k]);
      }
    }
  }

  lemma FirstFresh(ev: Evidence, t: int)
    requires exists e :: e in ev.events && e.stamp == At(t)
    requires forall e :: e in ev.events && e.stamp.At? ==> t <= e.stamp.t
    ensures exists i :: 0 <= i < |ev.events| && Fresh(ev, i) && ev.events[i].stamp.t == t
  {
    var i :| 0 <= i < |ev.events| && ev.events[i].stamp == At(t);
    assert Fresh(ev, i);
  }

  predicate HasReadable(ev: Evidence, x: string) {
    exists i :: 0 <= i < |ev.events| && ev.events[i].stamp.At? && ev.events[i].id == Some(x)
  }

  /** The reported ids are the ids of the events with a readable time; None stands for none of them. */
  lemma IdsMean(ev: Evidence)
    ensures var ids := DetectionOf(ev).eventIds;
            && (ids.None? <==> forall x :: !HasReadable(ev, x))
            && (ids.Some? ==> forall x :: x in ids.value <==> HasReadable(ev, x))
  {
    var ids := IdList(Timeline(ev.events));
    TimelineIds(ev.events);
    forall x ensures x in ids <==> HasReadable(ev, x) { ReadableIff(ev, x); }
    if ids != [] { assert ids[0] in ids; }
  }

  lemma ReadableIff(ev: Evidence, x: string)
    ensures Some(x) in Ids(Stamped(ev.events)) <==> HasReadable(ev, x)
  {
    StampedMembers(ev.events);
    if HasReadable(ev, x) {
      var i :| 0 <= i < |ev.events| && ev.events[i].stamp.At? && ev.events[i].id == Some(x);
      assert ev.events[i] in Stamped(ev.events);
    }
    if Some(x) in Ids(Stamped(ev.events)) {
      var e :| e in Stamped(ev.events) && e.id == Some(x);
      var i :| 0 <= i < |ev.events| && ev.events[i] == e;
    }
  }

  /** The export window is there exactly for a complete chain, and then reads like the two times. */
  lemma WindowMeans(ev: Evidence)
    ensures var d := DetectionOf(ev);
            && d.status == Classify(ev)
            && d.exportWindow == if d.status == "complete_chain" then Some((d.first, d.last)) else None
  {
  }
}
