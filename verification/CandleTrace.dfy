/** The join of candles with gate trace rows of tools/build_signal_aware_candle_trace.py. */
module CandleTrace {
  import opened Wrappers

  /** A value an integer can be read from, or not. */
  datatype Number = Bad | Int(t: int)

  datatype GateRow = GateRow(ts: Number, entryReady: bool, status: Option<string>)
  datatype Candle = Candle(ts: Number, regime: Option<string>)

  /** The metrics of the baseline run; `otherKeys` tells an empty object from one without the total. */
  datatype Baseline = NoBaseline | Baseline(buyTotal: Option<Number>, otherKeys: bool)

  datatype Step =
    | Joined(
        ts: int, regime: Option<string>, attributable: bool, entryReady: bool, signals: nat, status: Option<string>)
    | Bare(ts: int, regime: Option<string>, attributable: bool, signals: nat)

  datatype Trace = Trace(
    steps: seq<Step>, available: bool, buys: nat, reconciled: bool,
    missing: nat, warmup: nat, candleCount: nat, rowCount: nat)

  const DEFAULT_TOTAL := 22

  /** The row of time `t`, by looking through the gate trace. */
  function RowAt(gate: seq<GateRow>, t: int): Option<GateRow> {
    if gate == [] then None
    else if gate[0].ts == Int(t) then Some(gate[0])
    else RowAt(gate[1..], t)
  }

  /** The rows have times, no two the same. */
  predicate GateValid(gate: seq<GateRow>) {
    && (forall i :: 0 <= i < |gate| ==> gate[i].ts.Int?)
    && (forall i, j :: 0 <= i < j < |gate| ==> gate[i].ts != gate[j].ts)
  }

  predicate CandlesValid(candles: seq<Candle>) { forall i :: 0 <= i < |candles| ==> candles[i].ts.Int? }

  /** The total to reconcile with: None where there is a baseline and its total is no integer. */
  function Expected(b: Baseline): Option<int> {
    if b.NoBaseline? || b.buyTotal.None? then Some(DEFAULT_TOTAL)
    else if b.buyTotal.value.Bad? then None else Some(b.buyTotal.value.t)
  }

  function StepOf(c: Candle, gate: seq<GateRow>): Step
    requires c.ts.Int?
  {
    match RowAt(gate, c.ts.t)
    case None => Bare(c.ts.t, c.regime, false, 0)
    case Some(row) =>
      var signals := if row.entryReady then 1 else 0;
      Joined(c.ts.t, c.regime, row.entryReady, row.entryReady, signals, row.status)
  }

  predicate Buys(c: Candle, gate: seq<GateRow>) {
    c.ts.Int? && RowAt(gate, c.ts.t).Some? && RowAt(gate, c.ts.t).value.entryReady
  }

  predicate Unmatched(c: Candle, gate: seq<GateRow>) { c.ts.Int? && RowAt(gate, c.ts.t).None? }

  /** Earlier than every gate row; with no gate row at all, before time zero. */
  predicate Early(c: Candle, gate: seq<GateRow>) {
    c.ts.Int? && (if gate == [] then c.ts.t < 0 else forall r :: r in gate && r.ts.Int? ==> c.ts.t < r.ts.t)
  }

  datatype Group = Buying | Missing | Warmup | EarlyOnes

  predicate Belongs(g: Group, c: Candle, gate: seq<GateRow>) {
    match g
    case Buying => Buys(c, gate)
    case Missing => Unmatched(c, gate)
    case Warmup => Unmatched(c, gate) && Early(c, gate)
    case EarlyOnes => Early(c, gate)
  }

  function Count(g: Group, candles: seq<Candle>, gate: seq<GateRow>): nat {
    if candles == [] then 0
    else Count(g, candles[..|candles| - 1], gate) + if Belongs(g, candles[|candles| - 1], gate) then 1 else 0
  }

  function SignalSum(steps: seq<Step>): nat {
    if steps == [] then 0 else SignalSum(steps[..|steps| - 1]) + steps[|steps| - 1].signals
  }

  function JoinedCount(steps: seq<Step>): nat {
    if steps == [] then 0 else JoinedCount(steps[..|steps| - 1]) + if steps[|steps| - 1].Joined? then 1 else 0
  }

  /** `min(keys, default=0)` */
  function Earliest(gate: seq<GateRow>): int
    requires forall i :: 0 <= i < |gate| ==> gate[i].ts.Int?
  {
    if gate == [] then 0
    else if |gate| == 1 then gate[0].ts.t
    else
      var rest := Earliest(gate[..|gate| - 1]);
      if gate[|gate| - 1].ts.t < rest then gate[|gate| - 1].ts.t else rest
  }

  lemma {:induction false} EarliestIsLeast(gate: seq<GateRow>)
    requires gate != [] && forall i :: 0 <= i < |gate| ==> gate[i].ts.Int?
    ensures forall i :: 0 <= i < |gate| ==> Earliest(gate) <= gate[i].ts.t
    ensures exists i :: 0 <= i < |gate| && Earliest(gate) == gate[i].ts.t
  {
    if |gate| > 1 {
      var rest := gate[..|gate| - 1];
      EarliestIsLeast(rest);
      assert forall i :: 0 <= i < |rest| ==> rest[i] == gate[i];
      var i :| 0 <= i < |rest| && Earliest(rest) == rest[i].ts.t;
      assert gate[i].ts.t == Earliest(rest);
    } else {
      assert gate[0].ts.t == Earliest(gate);
    }
  }

  lemma EarlyIff(c: Candle, gate: seq<GateRow>)
    requires GateValid(gate) && c.ts.Int?
    ensures Early(c, gate) <==> c.ts.t < Earliest(gate)
  {
    if gate != [] { EarliestIsLeast(gate); }
  }

  /** A candle earlier than every row matches none. */
  lemma {:induction false} EarlyUnmatched(c: Candle, gate: seq<GateRow>)
    requires Early(c, gate)
    ensures Unmatched(c, gate)
  {
    RowFound(gate, c.ts.t);
  }

  lemma {:induction false} RowFound(gate: seq<GateRow>, t: int)
    ensures RowAt(gate, t).Some? ==> RowAt(gate, t).value in gate && RowAt(gate, t).value.ts == Int(t)
    ensures RowAt(gate, t).None? ==> forall r :: r in gate ==> r.ts != Int(t)
  {
    if gate != [] {
      RowFound(gate[1..], t);
      assert gate == [gate[0]] + gate[1..];
    }
  }

  lemma {:induction false} RowAtLater(gate: seq<GateRow>, row: GateRow, t: int)
    ensures RowAt(gate + [row], t)
            == if RowAt(gate, t).Some? then RowAt(gate, t) else if row.ts == Int(t) then Some(row) else None
  {
    if gate != [] {
      assert (gate + [row])[1..] == gate[1..] + [row];
      RowAtLater(gate[1..], row, t);
    }
  }

  /** The rows by time: None for a row without time or a repeated time. */
  method IndexGate(gate: seq<GateRow>) returns (index: Option<map<int, GateRow>>)
    ensures index.Some? <==> GateValid(gate)
    ensures index.Some? ==> forall t :: (t in index.value <==> RowAt(gate, t).Some?)
                                        && (t in index.value ==> RowAt(gate, t) == Some(index.value[t]))
  {
    var byTs: map<int, GateRow> := map[];
    var i := 0;
    while i < |gate|
      invariant 0 <= i <= |gate| && GateValid(gate[..i])
      invariant forall t :: (t in byTs <==> RowAt(gate[..i], t).Some?)
                 && (t in byTs ==> RowAt(gate[..i], t) == Some(byTs[t]))
    {
      var row := gate[i];
      if row.ts.Bad? { return None; }
      RowFound(gate[..i], row.ts.t);
      if row.ts.t in byTs {
        var k :| 0 <= k < i && gate[..i][k] == RowAt(gate[..i], row.ts.t).value;
        assert gate[k].ts == gate[i].ts;
        return None;
      }
      assert gate[..i + 1] == gate[..i] + [row];
      forall t
        ensures RowAt(gate[..i + 1], t)
                == if RowAt(gate[..i], t).Some? then RowAt(gate[..i], t)
                   else if row.ts == Int(t) then Some(row)
                   else None
      {
        RowAtLater(gate[..i], row, t);
      }
      assert forall k :: 0 <= k < i ==> gate[..i][k] in gate[..i];
      byTs := byTs[row.ts.t := row];
      i := i + 1;
    }
    assert gate[..i] == gate;
    index := Some(byTs);
  }

  function StepsOf(candles: seq<Candle>, gate: seq<GateRow>): seq<Step>
    requires CandlesValid(candles)
  {
    seq(|candles|, i requires 0 <= i < |candles| => StepOf(candles[i], gate))
  }

  predicate Readable(candles: seq<Candle>, gate: seq<GateRow>, baseline: Baseline) {
    GateValid(gate) && CandlesValid(candles) && Expected(baseline).Some?
  }

  function TraceOf(candles: seq<Candle>, gate: seq<GateRow>, baseline: Baseline): Trace
    requires Readable(candles, gate, baseline)
  {
    var buys := Count(Buying, candles, gate);
    var reconciled := baseline.NoBaseline? || buys == Expected(baseline).value;
    var empty := baseline.NoBaseline? || (baseline.buyTotal.None? && !baseline.otherKeys);
    Trace(StepsOf(candles, gate), buys > 0 && (empty || reconciled), buys, reconciled,
          Count(Missing, candles, gate), Count(Warmup, candles, gate), |candles|, |gate|)
  }

  /** `build_signal_aware_trace`: None where it raises. */
  method BuildTrace(candles: seq<Candle>, gate: seq<GateRow>, baseline: Baseline) returns (r: Option<Trace>)
    ensures r == if Readable(candles, gate, baseline) then Some(TraceOf(candles, gate, baseline)) else None
  {
    var index := IndexGate(gate);
    if index.None? { return None; }
    var byTs := index.value;
    var steps: seq<Step> := [];
    var buys, missing, warmup := 0, 0, 0;
    var i := 0;
    while i < |candles|
      invariant 0 <= i <= |candles| && CandlesValid(candles[..i]) && steps == StepsOf(candles[..i], gate)
      invariant buys == Count(Buying, candles[..i], gate) && missing == Count(Missing, candles[..i], gate)
      invariant warmup == Count(Warmup, candles[..i], gate)
    {
      var c := candles[i];
      if c.ts.Bad? { return None; }
      assert candles[..i + 1][..i] == candles[..i];
      var t := c.ts.t;
      EarlyIff(c, gate);
      if t !in byTs {
        steps := steps + [Bare(t, c.regime, false, 0)];
        missing := missing + 1;
        if t < Earliest(gate) { warmup := warmup + 1; }
      } else {
        var row := byTs[t];
        if row.entryReady { buys := buys + 1; }
        var signals := if row.entryReady then 1 else 0;
        steps := steps + [Joined(t, c.regime, row.entryReady, row.entryReady, signals, row.status)];
      }
      i := i + 1;
    }
    assert candles[..i] == candles;
    var expected := Expected(baseline);
    if expected.None? { return None; }
    var reconciled := true;
    if baseline.Baseline? && buys != expected.value { reconciled := false; }
    var available := reconciled && buys > 0;
    if baseline.NoBaseline? || (baseline.buyTotal.None? && !baseline.otherKeys) { available := buys > 0; }
    r := Some(Trace(steps, available, buys, reconciled, missing, warmup, |candles|, |gate|));
  }

  // ---- What the trace says ----

  /** One step per candle, in order; a step is joined exactly when some gate row has its time, and
      then says what that row says. */
  lemma StepsFaithful(candles: seq<Candle>, gate: seq<GateRow>, baseline: Baseline, i: nat)
    requires Readable(candles, gate, baseline) && i < |candles|
    ensures var steps := TraceOf(candles, gate, baseline).steps;
            && |steps| == |candles|
            && steps[i].ts == candles[i].ts.t && steps[i].regime == candles[i].regime
            && (steps[i].Joined? <==> exists r :: r in gate && r.ts == candles[i].ts)
            && (steps[i].signals == 1 <==> steps[i].attributable) && steps[i].signals <= 1
            && (steps[i].attributable <==> exists r :: r in gate && r.ts == candles[i].ts && r.entryReady)
            && (forall r :: r in gate && r.ts == candles[i].ts ==>
                  steps[i].entryReady == r.entryReady && steps[i].status == r.status)
  {
    RowFound(gate, candles[i].ts.t);
    forall r | r in gate && r.ts == candles[i].ts ensures RowAt(gate, candles[i].ts.t) == Some(r) {
      var j :| 0 <= j < |gate| && gate[j] == r;
      var k :| 0 <= k < |gate| && gate[k] == RowAt(gate, candles[i].ts.t).value;
    }
  }

  /** Counters and steps agree: the signals of the steps add up to the buys, and joined and missing
      steps to the candles. */
  lemma {:induction false} CountersAgree(candles: seq<Candle>, gate: seq<GateRow>)
    requires CandlesValid(candles)
    ensures SignalSum(StepsOf(candles, gate)) == Count(Buying, candles, gate)
    ensures JoinedCount(StepsOf(candles, gate)) + Count(Missing, candles, gate) == |candles|
  {
    if candles != [] {
      var rest := candles[..|candles| - 1];
      CountersAgree(rest, gate);
      var steps := StepsOf(candles, gate);
      assert steps[..|steps| - 1] == StepsOf(rest, gate);
    }
  }

  /** The warmup steps are the candles earlier than all gate rows, or before time zero if there is
      no row. */
  lemma {:induction false} WarmupIsEarly(candles: seq<Candle>, gate: seq<GateRow>)
    ensures Count(Warmup, candles, gate) == Count(EarlyOnes, candles, gate)
    ensures Count(Warmup, candles, gate) <= Count(Missing, candles, gate)
  {
    if candles != [] {
      WarmupIsEarly(candles[..|candles| - 1], gate);
      var c := candles[|candles| - 1];
      if Early(c, gate) { EarlyUnmatched(c, gate); }
    }
  }

  function NegativeTimes(candles: seq<Candle>): nat {
    if candles == [] then 0
    else
      var ts := candles[|candles| - 1].ts;
      NegativeTimes(candles[..|candles| - 1]) + if ts.Int? && ts.t < 0 then 1 else 0
  }

  /** Without gate rows every candle is missing, and the warmup steps are the negative times. */
  lemma {:induction false} NothingToJoin(candles: seq<Candle>)
    requires CandlesValid(candles)
    ensures Count(Missing, candles, []) == |candles| && Count(Buying, candles, []) == 0
    ensures Count(Warmup, candles, []) == NegativeTimes(candles)
  {
    if candles != [] {
      var rest := candles[..|candles| - 1];
      NothingToJoin(rest);
      assert forall i :: 0 <= i < |rest| ==> rest[i] == candles[i];
    }
  }

  function ReadyTimes(gate: seq<GateRow>): set<int> {
    set r | r in gate && r.ts.Int? && r.entryReady :: r.ts.t
  }

  function Times(candles: seq<Candle>): set<int> { set c | c in candles && c.ts.Int? :: c.ts.t }

  /** With one candle per time, the buys are the ready rows that have a candle: none counts twice. */
  lemma {:induction false} BuysAreReadyRows(candles: seq<Candle>, gate: seq<GateRow>)
    requires GateValid(gate) && CandlesValid(candles)
    requires forall i, j :: 0 <= i < j < |candles| ==> candles[i].ts != candles[j].ts
    ensures Count(Buying, candles, gate) == |ReadyTimes(gate) * Times(candles)|
  {
    if candles != [] {
      var (rest, c) := (candles[..|candles| - 1], candles[|candles| - 1]);
      RestDistinct(candles);
      BuysAreReadyRows(rest, gate);
      OneMoreBuy(rest, c, gate);
      assert candles == rest + [c];
    }
  }

  lemma OneMoreBuy(rest: seq<Candle>, c: Candle, gate: seq<GateRow>)
    requires GateValid(gate) && c.ts.Int? && forall i :: 0 <= i < |rest| ==> rest[i].ts != c.ts
    ensures Count(Buying, rest + [c], gate) - Count(Buying, rest, gate)
            == |ReadyTimes(gate) * Times(rest + [c])| - |ReadyTimes(gate) * Times(rest)|
  {
    assert (rest + [c])[..|rest|] == rest;
    TimesLater(rest, c);
    BuysIffReady(c, gate);
    NewTime(rest, c);
    OneMoreCommon(ReadyTimes(gate), Times(rest), c.ts.t);
  }

  lemma RestDistinct(candles: seq<Candle>)
    requires candles != [] && CandlesValid(candles)
    requires forall i, j :: 0 <= i < j < |candles| ==> candles[i].ts != candles[j].ts
    ensures var (rest, c) := (candles[..|candles| - 1], candles[|candles| - 1]);
            && CandlesValid(rest) && c.ts.Int?
            && (forall i, j :: 0 <= i < j < |rest| ==> rest[i].ts != rest[j].ts)
            && (forall i :: 0 <= i < |rest| ==> rest[i].ts != c.ts)
  {
  }

  lemma NewTime(candles: seq<Candle>, c: Candle)
    requires c.ts.Int? && forall i :: 0 <= i < |candles| ==> candles[i].ts != c.ts
    ensures c.ts.t !in Times(candles)
  {
  }

  lemma OneMoreCommon(a: set<int>, b: set<int>, t: int)
    requires t !in b
    ensures |a * (b + {t})| == |a * b| + if t in a then 1 else 0
  {
    assert a * (b + {t}) == if t in a then a * b + {t} else a * b;
  }

  lemma TimesLater(candles: seq<Candle>, c: Candle)
    requires c.ts.Int?
    ensures Times(candles + [c]) == Times(candles) + {c.ts.t}
  {
    assert forall x :: x in candles + [c] <==> x in candles || x == c;
  }

  lemma BuysIffReady(c: Candle, gate: seq<GateRow>)
    requires GateValid(gate) && c.ts.Int?
    ensures Buys(c, gate) <==> c.ts.t in ReadyTimes(gate)
  {
    RowFound(gate, c.ts.t);
    forall r | r in gate && r.ts == c.ts ensures RowAt(gate, c.ts.t) == Some(r) {
      var j :| 0 <= j < |gate| && gate[j] == r;
      var k :| 0 <= k < |gate| && gate[k] == RowAt(gate, c.ts.t).value;
    }
  }

  /** Available means some signal and, unless the baseline is absent or empty, a reconciled one. */
  lemma AvailableMeans(candles: seq<Candle>, gate: seq<GateRow>, baseline: Baseline)
    requires Readable(candles, gate, baseline)
    ensures var t := TraceOf(candles, gate, baseline);
            && (t.available ==> t.steps != [] && SignalSum(t.steps) > 0)
            && (t.reconciled && baseline.Baseline? ==> SignalSum(t.steps) == Expected(baseline).value)
            && (t.reconciled ==> (t.available <==> SignalSum(t.steps) > 0))
  {
    CountersAgree(candles, gate);
  }

  /** An available trace is reconciled, except exactly for an empty baseline and a number of buys
      that is neither zero nor the default total: the default is compared with, but not heeded. */
  lemma AvailableIff(candles: seq<Candle>, gate: seq<GateRow>, baseline: Baseline)
    requires Readable(candles, gate, baseline)
    ensures var t := TraceOf(candles, gate, baseline);
            (t.available ==> t.reconciled)
            <==> !(baseline == Baseline(None, false) && SignalSum(t.steps) != 0 && SignalSum(t.steps) != DEFAULT_TOTAL)
  {
    CountersAgree(candles, gate);
  }

  /** One candle on one ready row and an empty baseline: available, and not reconciled. */
  lemma AvailableUnreconciled()
    ensures var t := TraceOf([Candle(Int(1), None)], [GateRow(Int(1), true, None)], Baseline(None, false));
            t.available && !t.reconciled
  {
    var candles := [Candle(Int(1), None)];
    assert candles[..0] == [];
    assert Count(Buying, candles, [GateRow(Int(1), true, None)]) == 1;
  }

  // ---- The trace, candle by candle ----

  /** Some gate row has the time of the candle. */
  predicate Meets(c: Candle, gate: seq<GateRow>) { exists k :: 0 <= k < |gate| && gate[k].ts == c.ts }

  /** Some such row is ready. */
  predicate MeetsReady(c: Candle, gate: seq<GateRow>) {
    exists k :: 0 <= k < |gate| && gate[k].ts == c.ts && gate[k].entryReady
  }

  /** Every row is later, or, without any, the time is negative. */
  predicate Precedes(c: Candle, gate: seq<GateRow>) {
    c.ts.Int? && (|gate| == 0 ==> c.ts.t < 0)
    && forall k :: 0 <= k < |gate| && gate[k].ts.Int? ==> c.ts.t < gate[k].ts.t
  }

  lemma BelongsMeans(c: Candle, gate: seq<GateRow>)
    requires GateValid(gate) && c.ts.Int?
    ensures Belongs(Buying, c, gate) <==> MeetsReady(c, gate)
    ensures Belongs(Missing, c, gate) <==> !Meets(c, gate)
    ensures Belongs(Warmup, c, gate) <==> Precedes(c, gate)
  {
    RowFound(gate, c.ts.t);
    BuysIffReady(c, gate);
    assert forall k :: 0 <= k < |gate| ==> gate[k] in gate;
    if Early(c, gate) { EarlyUnmatched(c, gate); }
  }

  function PlacesOf(g: Group, candles: seq<Candle>, gate: seq<GateRow>): set<int> {
    set i | 0 <= i < |candles| && Belongs(g, candles[i], gate)
  }

  lemma {:induction false} CountMeans(g: Group, candles: seq<Candle>, gate: seq<GateRow>)
    ensures Count(g, candles, gate) == |PlacesOf(g, candles, gate)|
  {
    if candles != [] {
      CountMeans(g, candles[..|candles| - 1], gate);
      OneMorePlace(g, candles, gate);
    }
  }

  lemma OneMorePlace(g: Group, candles: seq<Candle>, gate: seq<GateRow>)
    requires candles != []
    ensures var (n, before) := (|candles| - 1, PlacesOf(g, candles[..|candles| - 1], gate));
            && n !in before
            && PlacesOf(g, candles, gate) == before + if Belongs(g, candles[n], gate) then {n} else {}
  {
  }

  /** The counters: candles on a ready row, candles on no row, candles before every row. */
  lemma CountersMean(candles: seq<Candle>, gate: seq<GateRow>, baseline: Baseline)
    requires Readable(candles, gate, baseline)
    ensures var t := TraceOf(candles, gate, baseline);
            && t.buys == |set i | 0 <= i < |candles| && MeetsReady(candles[i], gate)|
            && t.missing == |set i | 0 <= i < |candles| && !Meets(candles[i], gate)|
            && t.warmup == |set i | 0 <= i < |candles| && Precedes(candles[i], gate)|
            && t.candleCount == |candles| && t.rowCount == |gate|
  {
    CountMeans(Buying, candles, gate);
    CountMeans(Missing, candles, gate);
    CountMeans(Warmup, candles, gate);
    forall i | 0 <= i < |candles|
      ensures Belongs(Buying, candles[i], gate) <==> MeetsReady(candles[i], gate)
      ensures Belongs(Missing, candles[i], gate) <==> !Meets(candles[i], gate)
      ensures Belongs(Warmup, candles[i], gate) <==> Precedes(candles[i], gate)
    {
      BelongsMeans(candles[i], gate);
    }
    assert PlacesOf(Buying, candles, gate) == set i | 0 <= i < |candles| && MeetsReady(candles[i], gate);
    assert PlacesOf(Missing, candles, gate) == set i | 0 <= i < |candles| && !Meets(candles[i], gate);
    assert PlacesOf(Warmup, candles, gate) == set i | 0 <= i < |candles| && Precedes(candles[i], gate);
  }

  /** The verdicts: reconciled without a baseline or with as many buys as it tells, 22 where it tells
      none; available with a buy, if reconciled or if the baseline is absent or empty. */
  lemma VerdictsMean(candles: seq<Candle>, gate: seq<GateRow>, baseline: Baseline)
    requires Readable(candles, gate, baseline)
    ensures var t := TraceOf(candles, gate, baseline);
            && (t.reconciled
                <==> || baseline.NoBaseline?
                     || (baseline.buyTotal.None? && t.buys == 22) || baseline.buyTotal == Some(Int(t.buys)))
            && (t.available
                <==> t.buys > 0 && (t.reconciled || baseline.NoBaseline? || baseline == Baseline(None, false)))
  {
  }

  /** The trace is built exactly from readable times, those of the gate without repetition, and a
      baseline total that is a number if it is there. */
  lemma ReadableMeans(candles: seq<Candle>, gate: seq<GateRow>, baseline: Baseline)
    ensures Readable(candles, gate, baseline)
            <==> && (forall i :: 0 <= i < |candles| ==> candles[i].ts.Int?)
                 && (forall k :: 0 <= k < |gate| ==> gate[k].ts.Int?)
                 && (forall k, l :: 0 <= k < l < |gate| ==> gate[k].ts != gate[l].ts)
                 && !(baseline.Baseline? && baseline.buyTotal == Some(Bad))
  {
  }
}
