/** Gap clustering of ledger rows (scripts/_3343_verify_pb1_clusters.py): the one-pass loop of
    `main`, the LAG/SUM window query of the same file, and the duration verdicts. */
module GapClusters {
  import opened Wrappers
  import opened Text

  const GAP := 3_600_000
  const TARGET := 7_200_000

  /** Ids that are NULL or empty are "" here; the correlation id keeps its NULL. */
  datatype Row = Row(pk: int, ts: int, kind: string, correlationId: Option<string>, signalId: string, orderId: string,
      fillId: string)

  datatype Cluster = Cluster(
    minTs: int, maxTs: int, events: seq<Row>, signalIds: set<string>, correlationIds: set<Option<string>>,
    orderIds: set<string>, fillIds: set<string>, hasTrade: bool)

  predicate SortedByTs(rows: seq<Row>) {
    forall i, j :: 0 <= i < j < |rows| ==> rows[i].ts <= rows[j].ts
  }

  function Flatten(parts: seq<seq<Row>>): seq<Row> {
    if parts == [] then [] else Flatten(parts[..|parts| - 1]) + parts[|parts| - 1]
  }

  predicate Compact(part: seq<Row>) {
    part != [] && forall i :: 0 < i < |part| ==> part[i].ts - part[i - 1].ts <= GAP
  }

  predicate Separated(a: seq<Row>, b: seq<Row>) {
    a != [] && b != [] && b[0].ts - a[|a| - 1].ts > GAP
  }

  /** The definition: consecutive runs of `rows`, gaps inside at most an hour, between them more. */
  predicate GapPartition(parts: seq<seq<Row>>, rows: seq<Row>) {
    && Flatten(parts) == rows
    && (forall i :: 0 <= i < |parts| ==> Compact(parts[i]))
    && (forall i :: 0 < i < |parts| ==> Separated(parts[i - 1], parts[i]))
  }

  function CorrelationIds(events: seq<Row>): set<Option<string>> { set r | r in events :: r.correlationId }

  function SignalIds(events: seq<Row>): set<string> {
    set r | r in events && r.kind == "SIGNAL" && r.signalId != "" :: r.signalId
  }

  function OrderIds(events: seq<Row>): set<string> {
    set r | r in events && r.kind == "ORDER" && r.orderId != "" :: r.orderId
  }

  function FillIds(events: seq<Row>): set<string> {
    set r | r in events && r.kind == "FILL" && r.fillId != "" :: r.fillId
  }

  /** What the record of a cluster says about its events. */
  predicate Summarises(c: Cluster) {
    && c.events != [] && c.minTs == c.events[0].ts && c.maxTs == c.events[|c.events| - 1].ts
    && IdsAndTrade(c)
  }

  predicate IdsAndTrade(c: Cluster) {
    && c.correlationIds == CorrelationIds(c.events)
    && c.signalIds == SignalIds(c.events) && c.orderIds == OrderIds(c.events) && c.fillIds == FillIds(c.events)
    && (c.hasTrade <==> c.orderIds != {} || c.fillIds != {})
  }

  function EventLists(clusters: seq<Cluster>): seq<seq<Row>> {
    seq(|clusters|, i requires 0 <= i < |clusters| => clusters[i].events)
  }

  function Opened(r: Row): Cluster { Cluster(r.ts, r.ts, [], {}, {}, {}, {}, false) }

  lemma IdsExtend(events: seq<Row>, r: Row)
    ensures CorrelationIds(events + [r]) == CorrelationIds(events) + {r.correlationId}
    ensures SignalIds(events + [r]) == SignalIds(events)
              + if r.kind == "SIGNAL" && r.signalId != "" then {r.signalId} else {}
    ensures OrderIds(events + [r]) == OrderIds(events)
              + if r.kind == "ORDER" && r.orderId != "" then {r.orderId} else {}
    ensures FillIds(events + [r]) == FillIds(events) + if r.kind == "FILL" && r.fillId != "" then {r.fillId} else {}
  {
    assert forall x :: x in events + [r] <==> x in events || x == r;
  }

  /** The updates at the foot of the loop body. */
  method AddIds(c: Cluster, r: Row) returns (d: Cluster)
    requires IdsAndTrade(c)
    ensures IdsAndTrade(d) && d.minTs == c.minTs && d.maxTs == c.maxTs && d.events == c.events + [r]
  {
    IdsExtend(c.events, r);
    d := c.(events := c.events + [r], correlationIds := c.correlationIds + {r.correlationId});
    if r.kind == "SIGNAL" && r.signalId != "" { d := d.(signalIds := d.signalIds + {r.signalId}); }
    if r.kind == "ORDER" && r.orderId != "" { d := d.(orderIds := d.orderIds + {r.orderId}, hasTrade := true); }
    if r.kind == "FILL" && r.fillId != "" { d := d.(fillIds := d.fillIds + {r.fillId}, hasTrade := true); }
  }

  /** A row joins a cluster just opened for it, or one it is no more than an hour from. */
  method AddRow(c: Cluster, r: Row) returns (d: Cluster)
    requires c == Opened(r) || (Summarises(c) && c.maxTs <= r.ts)
    ensures Summarises(d) && d.events == c.events + [r]
  {
    var raised := if r.ts > c.maxTs then c.(maxTs := r.ts) else c;
    d := AddIds(raised, r);
  }

  /** Halfway through `rows[..i]`: `rows[..closed]` is in clusters, the rest in the open one. */
  ghost predicate Growing(clusters: seq<Cluster>, c: Cluster, rows: seq<Row>, closed: nat, i: nat) {
    && closed < i <= |rows|
    && GapPartition(EventLists(clusters), rows[..closed])
    && c.events == rows[closed..i] && Compact(c.events)
    && (clusters != [] ==> Separated(clusters[|clusters| - 1].events, c.events))
  }

  /** A row opens a cluster: the first, or one more than an hour after the last. */
  method StartCluster(ghost clusters: seq<Cluster>, r: Row, ghost rows: seq<Row>, ghost i: nat) returns (c: Cluster)
    requires i < |rows| && r == rows[i] && GapPartition(EventLists(clusters), rows[..i]) && Apart(clusters, r)
    ensures Growing(clusters, c, rows, i, i + 1) && Summarises(c)
  {
    c := AddRow(Opened(r), r);
    GrowByRow(clusters, Opened(r), c, rows, i, i);
  }

  method ContinueCluster(ghost clusters: seq<Cluster>, c: Cluster, r: Row, ghost rows: seq<Row>, ghost closed: nat,
      ghost i: nat)
    returns (d: Cluster)
    requires i < |rows| && r == rows[i] && SortedByTs(rows) && Growing(clusters, c, rows, closed, i) && Summarises(c)
    requires r.ts - c.maxTs <= GAP
    ensures Growing(clusters, d, rows, closed, i + 1) && Summarises(d)
  {
    assert c.maxTs == rows[i - 1].ts;
    d := AddRow(c, r);
    GrowByRow(clusters, c, d, rows, closed, i);
  }

  predicate AllSummarised(clusters: seq<Cluster>) { forall c :: c in clusters ==> Summarises(c) }

  /** The next row stands apart from the last cluster. */
  ghost predicate Apart(clusters: seq<Cluster>, r: Row) {
    clusters != [] ==> Separated(clusters[|clusters| - 1].events, [r])
  }

  /** Closing the open cluster, before a row that is too late for it or at the end. */
  method CloseCluster(clusters: seq<Cluster>, c: Cluster, ghost rows: seq<Row>, ghost closed: nat, ghost i: nat)
    returns (longer: seq<Cluster>)
    requires Growing(clusters, c, rows, closed, i) && Summarises(c) && AllSummarised(clusters)
    ensures GapPartition(EventLists(longer), rows[..i]) && AllSummarised(longer)
    ensures forall r: Row :: r.ts - c.maxTs > GAP ==> Apart(longer, r)
  {
    ClosedPartition(clusters, c, rows, closed, i);
    longer := clusters + [c];
    ClosedApart(clusters, c);
  }

  lemma ClosedApart(clusters: seq<Cluster>, c: Cluster)
    requires Summarises(c) && AllSummarised(clusters)
    ensures AllSummarised(clusters + [c])
    ensures forall r: Row :: r.ts - c.maxTs > GAP ==> Apart(clusters + [c], r)
  {
  }

  /** The loop body: the row opens the next cluster or joins the open one. */
  method NextRow(clusters: seq<Cluster>, c: Cluster, r: Row, ghost rows: seq<Row>, ghost closed: nat, ghost i: nat)
    returns (longer: seq<Cluster>, current: Cluster, ghost closed': nat)
    requires i < |rows| && r == rows[i] && SortedByTs(rows)
    requires Growing(clusters, c, rows, closed, i) && Summarises(c) && AllSummarised(clusters)
    ensures Growing(longer, current, rows, closed', i + 1) && Summarises(current) && AllSummarised(longer)
  {
    if r.ts - c.maxTs > GAP {
      longer := CloseCluster(clusters, c, rows, closed, i);
      current := StartCluster(longer, r, rows, i);
      closed' := i;
    } else {
      current := ContinueCluster(clusters, c, r, rows, closed, i);
      longer, closed' := clusters, closed;
    }
  }

  /** The one-pass loop over rows ordered by timestamp; the first row opens the first cluster. */
  method FindClusters(rows: seq<Row>) returns (clusters: seq<Cluster>)
    requires SortedByTs(rows)
    ensures GapPartition(EventLists(clusters), rows)
    ensures AllSummarised(clusters)
  {
    clusters := [];
    if rows == [] { return; }
    var current := StartCluster(clusters, rows[0], rows, 0);
    ghost var closed := 0;
    var i := 1;
    while i < |rows|
      invariant 1 <= i <= |rows| && AllSummarised(clusters)
      invariant Growing(clusters, current, rows, closed, i) && Summarises(current)
    {
      clusters, current, closed := NextRow(clusters, current, rows[i], rows, closed, i);
      i := i + 1;
    }
    assert rows[..i] == rows;
    clusters := CloseCluster(clusters, current, rows, closed, i);
  }

  lemma GrowByRow(clusters: seq<Cluster>, target: Cluster, added: Cluster, rows: seq<Row>, closed: nat, i: nat)
    requires i < |rows| && closed <= i && GapPartition(EventLists(clusters), rows[..closed])
    requires added.events == target.events + [rows[i]] && target.events == rows[closed..i]
    requires closed < i ==> Compact(target.events) && rows[i].ts - rows[i - 1].ts <= GAP
    requires clusters != [] ==> Separated(clusters[|clusters| - 1].events, added.events)
    ensures Growing(clusters, added, rows, closed, i + 1)
  {
    assert rows[closed..i + 1] == rows[closed..i] + [rows[i]];
    forall k | 0 < k < |added.events| ensures added.events[k].ts - added.events[k - 1].ts <= GAP {
      if k < |target.events| { assert target.events[k].ts - target.events[k - 1].ts <= GAP; }
    }
  }

  lemma ClosedPartition(clusters: seq<Cluster>, c: Cluster, rows: seq<Row>, closed: nat, i: nat)
    requires closed < i <= |rows| && GapPartition(EventLists(clusters), rows[..closed])
    requires c.events == rows[closed..i] && Compact(c.events)
    requires clusters != [] ==> Separated(clusters[|clusters| - 1].events, c.events)
    ensures GapPartition(EventLists(clusters + [c]), rows[..i])
  {
    FlattenSnoc(clusters + [c]);
    assert (clusters + [c])[..|clusters|] == clusters;
    assert rows[..i] == rows[..closed] + rows[closed..i];
    var lists, longer := EventLists(clusters), EventLists(clusters + [c]);
    forall k | 0 <= k < |longer| ensures Compact(longer[k]) {
      if k < |clusters| { assert longer[k] == lists[k]; }
    }
    forall k | 0 < k < |longer| ensures Separated(longer[k - 1], longer[k]) {
      if k < |clusters| { assert longer[k - 1] == lists[k - 1] && longer[k] == lists[k]; }
    }
  }

  lemma FlattenSnoc(clusters: seq<Cluster>)
    requires clusters != []
    ensures Flatten(EventLists(clusters)) == Flatten(EventLists(clusters[..|clusters| - 1]))
              + clusters[|clusters| - 1].events
  {
    var lists := EventLists(clusters);
    assert lists[..|lists| - 1] == EventLists(clusters[..|clusters| - 1]);
  }

  // ---- There is only one such partition ----

  lemma {:induction false} PartitionUnique(p: seq<seq<Row>>, q: seq<seq<Row>>, rows: seq<Row>)
    requires GapPartition(p, rows) && GapPartition(q, rows)
    ensures p == q
  {
    if p != [] && q != [] {
      var a, b := p[|p| - 1], q[|q| - 1];
      LastPartsAgree(p, q, rows);
      assert Flatten(p[..|p| - 1]) == rows[..|rows| - |a|] == Flatten(q[..|q| - 1]);
      PartitionUnique(p[..|p| - 1], q[..|q| - 1], rows[..|rows| - |a|]);
      assert p == p[..|p| - 1] + [a] && q == q[..|q| - 1] + [b];
    }
  }

  lemma LastPartsAgree(p: seq<seq<Row>>, q: seq<seq<Row>>, rows: seq<Row>)
    requires GapPartition(p, rows) && GapPartition(q, rows) && p != [] && q != []
    ensures p[|p| - 1] == q[|q| - 1]
  {
    var a, b := p[|p| - 1], q[|q| - 1];
    assert a == rows[|rows| - |a|..] && b == rows[|rows| - |b|..];
    if |a| < |b| { LastNotShorter(p, q, rows); }
    if |b| < |a| { LastNotShorter(q, p, rows); }
  }

  lemma LastNotShorter(p: seq<seq<Row>>, q: seq<seq<Row>>, rows: seq<Row>)
    requires GapPartition(p, rows) && GapPartition(q, rows) && p != [] && q != []
    ensures |p[|p| - 1]| >= |q[|q| - 1]|
  {
    var a, b := p[|p| - 1], q[|q| - 1];
    assert Compact(a) && Compact(b);
    assert Flatten(p) == Flatten(p[..|p| - 1]) + a && Flatten(q) == Flatten(q[..|q| - 1]) + b;
    forall j | |rows| - |b| < j < |rows| ensures rows[j].ts - rows[j - 1].ts <= GAP {
      var i := j - (|rows| - |b|);
      assert b[i] == rows[j] && b[i - 1] == rows[j - 1];
    }
    if |p| > 1 {
      var k := |rows| - |a|;
      var before := p[|p| - 2];
      assert Separated(before, a);
      assert p[..|p| - 1][..|p| - 2] == p[..|p| - 2];
      assert Flatten(p[..|p| - 1]) == Flatten(p[..|p| - 2]) + before;
      assert rows[k] == a[0] && rows[k - 1] == before[|before| - 1];
    } else {
      assert p[..0] == [];
    }
  }

  /** An order or a fill with an id. */
  predicate Trades(r: Row) { (r.kind == "ORDER" && r.orderId != "") || (r.kind == "FILL" && r.fillId != "") }

  /** The record of a cluster, event by event. */
  lemma RecordMeans(c: Cluster)
    requires Summarises(c)
    ensures var n := |c.events|;
            && n > 0 && c.minTs == c.events[0].ts && c.maxTs == c.events[n - 1].ts
            && (forall x :: x in c.correlationIds <==> exists k :: 0 <= k < n && c.events[k].correlationId == x)
            && (forall x :: x in c.signalIds
                  <==> x != "" && exists k :: 0 <= k < n && c.events[k].kind == "SIGNAL" && c.events[k].signalId == x)
            && (forall x :: x in c.orderIds
                  <==> x != "" && exists k :: 0 <= k < n && c.events[k].kind == "ORDER" && c.events[k].orderId == x)
            && (forall x :: x in c.fillIds
                  <==> x != "" && exists k :: 0 <= k < n && c.events[k].kind == "FILL" && c.events[k].fillId == x)
            && (c.hasTrade <==> exists k :: 0 <= k < n && Trades(c.events[k]))
  {
    assert forall k :: 0 <= k < |c.events| ==> c.events[k] in c.events;
    if c.orderIds != {} { var x :| x in c.orderIds; }
    if c.fillIds != {} { var x :| x in c.fillIds; }
    forall k | 0 <= k < |c.events| && Trades(c.events[k]) ensures c.hasTrade {
      assert c.events[k].orderId in c.orderIds || c.events[k].fillId in c.fillIds;
    }
  }

  /** A part of the partition begins at row `k`. */
  predicate BeginsAt(parts: seq<seq<Row>>, k: nat) { exists i :: 0 <= i < |parts| && |Flatten(parts[..i])| == k }

  /** Row by row: a part begins at the first row, and then exactly at the rows more than 3,600,000
      milliseconds after the one before. */
  lemma {:induction false} BeginsMeans(parts: seq<seq<Row>>, rows: seq<Row>, k: nat)
    requires GapPartition(parts, rows) && k < |rows|
    ensures BeginsAt(parts, k) <==> k == 0 || rows[k].ts - rows[k - 1].ts > 3_600_000
  {
    var (rest, last) := (parts[..|parts| - 1], parts[|parts| - 1]);
    var pre := Flatten(rest);
    assert rows == pre + last && parts == rest + [last];
    BeginsLater(rest, last, k);
    NoPartNoRow(rest, pre);
    if k < |pre| {
      BeginsMeans(rest, pre, k);
    } else {
      NotBeyondEnd(rest, pre, k);
      if k == |pre| {
        if rest != [] { LastRow(rest, pre); }
      } else {
        assert rows[k] == last[k - |pre|] && rows[k - 1] == last[k - 1 - |pre|];
      }
    }
  }

  lemma BeginsLater(rest: seq<seq<Row>>, last: seq<Row>, k: nat)
    ensures BeginsAt(rest + [last], k) <==> BeginsAt(rest, k) || |Flatten(rest)| == k
  {
    var parts := rest + [last];
    assert parts[..|rest|] == rest;
    assert forall i :: 0 <= i < |rest| ==> parts[..i] == rest[..i];
  }

  lemma NoPartNoRow(parts: seq<seq<Row>>, rows: seq<Row>)
    requires GapPartition(parts, rows)
    ensures parts == [] <==> rows == []
  {
    if parts != [] { assert Compact(parts[|parts| - 1]); }
  }

  lemma LastRow(parts: seq<seq<Row>>, rows: seq<Row>)
    requires GapPartition(parts, rows) && parts != []
    ensures rows != [] && parts[|parts| - 1] != []
    ensures rows[|rows| - 1] == parts[|parts| - 1][|parts[|parts| - 1]| - 1]
  {
    assert Compact(parts[|parts| - 1]);
  }

  lemma {:induction false} NotBeyondEnd(parts: seq<seq<Row>>, rows: seq<Row>, k: nat)
    requires GapPartition(parts, rows) && k >= |rows|
    ensures !BeginsAt(parts, k)
  {
    if parts != [] {
      var (rest, last) := (parts[..|parts| - 1], parts[|parts| - 1]);
      assert parts == rest + [last] && Compact(last);
      BeginsLater(rest, last, k);
      NotBeyondEnd(rest, Flatten(rest), k);
    }
  }

  // ---- The window query ----

  function Stamps(rows: seq<Row>): seq<int> {
    seq(|rows|, i requires 0 <= i < |rows| => rows[i].ts)
  }

  /** `new_cluster` of the k-th row: LAG is NULL for the first row, else the previous timestamp. */
  function Flag(ts: seq<int>, k: nat): int
    requires k < |ts|
  {
    if k == 0 || ts[k] - ts[k - 1] > GAP then 1 else 0
  }

  /** SUM(new_cluster) OVER (ORDER BY timestamp_ms): the default RANGE frame takes every row up to
      and including the peers of timestamp `t`. */
  function SumFlags(ts: seq<int>, t: int): int {
    if ts == [] then 0
    else SumFlags(ts[..|ts| - 1], t) + if ts[|ts| - 1] <= t then Flag(ts, |ts| - 1) else 0
  }

  function ClusterId(rows: seq<Row>, r: Row): int {
    SumFlags(Stamps(rows), r.ts)
  }

  /** GROUP BY cluster_id: the rows of one group, in row order. */
  function Group(rows: seq<Row>, scan: seq<Row>, id: int): seq<Row> {
    if scan == [] then []
    else Group(rows, scan[..|scan| - 1], id)
         + if ClusterId(rows, scan[|scan| - 1]) == id then [scan[|scan| - 1]] else []
  }

  function StartsBy(parts: seq<seq<Row>>, t: int): nat
    requires forall i :: 0 <= i < |parts| ==> parts[i] != []
  {
    if parts == [] then 0
    else StartsBy(parts[..|parts| - 1], t) + if parts[|parts| - 1][0].ts <= t then 1 else 0
  }

  lemma {:induction false} PartAddsOne(pre: seq<Row>, part: seq<Row>, t: int)
    requires Compact(part) && SortedByTs(pre + part) && (pre == [] || Separated(pre, part))
    ensures SumFlags(Stamps(pre + part), t) == SumFlags(Stamps(pre), t) + if part[0].ts <= t then 1 else 0
  {
    var n := |part| - 1;
    var (rows, shorter) := (pre + part, pre + part[..n]);
    assert rows == shorter + [part[n]];
    StampsFront(rows);
    if n > 0 {
      ShorterPart(pre, part);
      PartAddsOne(pre, part[..n], t);
    } else {
      assert shorter == pre;
    }
  }

  lemma ShorterPart(pre: seq<Row>, part: seq<Row>)
    requires |part| > 1 && Compact(part) && SortedByTs(pre + part) && (pre == [] || Separated(pre, part))
    ensures var shorter := part[..|part| - 1];
            && Compact(shorter) && SortedByTs(pre + shorter) && (pre == [] || Separated(pre, shorter))
            && (pre + shorter)[|pre + shorter| - 1] == part[|part| - 2] && shorter[0] == part[0]
            && part[|part| - 1].ts - part[|part| - 2].ts <= GAP && part[0].ts <= part[|part| - 1].ts
  {
    var (rows, shorter) := (pre + part, part[..|part| - 1]);
    assert rows[|pre|] == part[0] && rows[|rows| - 1] == part[|part| - 1];
    assert forall i :: 0 <= i < |pre + shorter| ==> (pre + shorter)[i] == rows[i];
  }

  lemma {:induction false} SumCountsStarts(parts: seq<seq<Row>>, rows: seq<Row>, t: int)
    requires GapPartition(parts, rows) && SortedByTs(rows)
    ensures SumFlags(Stamps(rows), t) == StartsBy(parts, t)
  {
    if parts != [] {
      var rest, last := parts[..|parts| - 1], parts[|parts| - 1];
      var pre := Flatten(rest);
      assert rows == pre + last;
      assert SortedByTs(pre) by { assert forall i :: 0 <= i < |pre| ==> rows[i] == pre[i]; }
      SumCountsStarts(rest, pre, t);
      if rest != [] {
        var before := rest[|rest| - 1];
        assert Separated(before, last) && pre[|pre| - 1] == before[|before| - 1];
      }
      PartAddsOne(pre, last, t);
    }
  }

  lemma {:induction false} StartsByInside(parts: seq<seq<Row>>, rows: seq<Row>, i: nat, r: Row)
    requires GapPartition(parts, rows) && SortedByTs(rows) && i < |parts| && r in parts[i]
    ensures StartsBy(parts, r.ts) == i + 1
  {
    var rest, last := parts[..|parts| - 1], parts[|parts| - 1];
    var pre := Flatten(rest);
    assert rows == pre + last;
    assert SortedByTs(pre) by { assert forall k :: 0 <= k < |pre| ==> rows[k] == pre[k]; }
    if i < |parts| - 1 {
      StartsByInside(rest, pre, i, r);
      InFlatten(rest, i, r);
      var k :| 0 <= k < |pre| && pre[k] == r;
      assert rows[k].ts <= rows[|pre| - 1].ts;
      LastNotStarted(rest, last, pre, r.ts);
    } else {
      var k :| 0 <= k < |last| && last[k] == r;
      assert rows[|pre|] == last[0] && rows[|pre| + k] == r;
      AllStarted(rest, pre, r.ts);
    }
  }

  lemma LastNotStarted(rest: seq<seq<Row>>, last: seq<Row>, pre: seq<Row>, t: int)
    requires rest != [] && Flatten(rest) == pre && pre != [] && t <= pre[|pre| - 1].ts
    requires Separated(rest[|rest| - 1], last)
    ensures t < last[0].ts
  {
    var before := rest[|rest| - 1];
    assert pre[|pre| - 1] == before[|before| - 1];
  }

  lemma {:induction false} InFlatten(parts: seq<seq<Row>>, i: nat, r: Row)
    requires i < |parts| && r in parts[i]
    ensures r in Flatten(parts)
  {
    if i < |parts| - 1 { InFlatten(parts[..|parts| - 1], i, r); }
  }

  lemma {:induction false} AllStarted(parts: seq<seq<Row>>, rows: seq<Row>, t: int)
    requires GapPartition(parts, rows) && forall r :: r in rows ==> r.ts <= t
    ensures StartsBy(parts, t) == |parts|
  {
    if parts != [] {
      var last := parts[|parts| - 1];
      assert last[0] in last;
      InFlatten(parts, |parts| - 1, last[0]);
      AllStarted(parts[..|parts| - 1], Flatten(parts[..|parts| - 1]), t);
    }
  }

  /** Two timestamp-ordered arrangements of the same rows have the same list of timestamps. */
  lemma {:induction false} SameStamps(a: seq<Row>, b: seq<Row>)
    requires multiset(a) == multiset(b) && SortedByTs(a) && SortedByTs(b)
    ensures Stamps(a) == Stamps(b)
  {
    SameLength(a, b);
    if a != [] {
      var i := LastPeer(a, b);
      var (n, rest, others) := (|a| - 1, a[..|a| - 1], b[..i] + b[i + 1..]);
      FrontMultiset(a);
      RemovedFrom(b, i);
      RemovedPeer(b, i);
      assert SortedByTs(rest);
      SameStamps(rest, others);
      StampsFront(a);
      StampsFront(b);
    }
  }

  lemma StampsFront(a: seq<Row>)
    requires a != []
    ensures Stamps(a) == Stamps(a[..|a| - 1]) + [a[|a| - 1].ts]
  {
  }

  lemma SameLength(a: seq<Row>, b: seq<Row>)
    requires multiset(a) == multiset(b)
    ensures |a| == |b|
  {
    assert |a| == |multiset(a)| && |b| == |multiset(b)|;
  }

  lemma FrontMultiset(a: seq<Row>)
    requires a != []
    ensures multiset(a[..|a| - 1]) == multiset(a) - multiset{a[|a| - 1]}
  {
    assert a == a[..|a| - 1] + [a[|a| - 1]];
  }

  /** The last row of `a` sits in `b` among the peers of the last row of `b`. */
  lemma LastPeer(a: seq<Row>, b: seq<Row>) returns (i: nat)
    requires multiset(a) == multiset(b) && |a| == |b| > 0 && SortedByTs(a) && SortedByTs(b)
    ensures i < |b| && b[i] == a[|a| - 1] && b[i].ts == b[|b| - 1].ts
  {
    var x, y := a[|a| - 1], b[|b| - 1];
    assert x in multiset(b) && y in multiset(a);
    var k :| 0 <= k < |b| && b[k] == x;
    var j :| 0 <= j < |a| && a[j] == y;
    i := k;
  }

  lemma RemovedFrom(b: seq<Row>, i: nat)
    requires i < |b|
    ensures multiset(b[..i] + b[i + 1..]) == multiset(b) - multiset{b[i]}
  {
    assert b == b[..i] + [b[i]] + b[i + 1..];
  }

  lemma RemovedPeer(b: seq<Row>, i: nat)
    requires SortedByTs(b) && i < |b| && b[i].ts == b[|b| - 1].ts
    ensures Stamps(b[..i] + b[i + 1..]) == Stamps(b[..|b| - 1]) && SortedByTs(b[..i] + b[i + 1..])
  {
    var c := b[..i] + b[i + 1..];
    forall k | 0 <= k < |b| - 1 ensures c[k].ts == b[k].ts {
      if k >= i { assert b[i].ts <= b[k].ts <= b[k + 1].ts <= b[|b| - 1].ts; }
    }
  }

  /** The loop refines the query: however the database orders ties, a row's cluster_id is one more
      than the index of the loop's cluster it is in. */
  lemma ClusterIdIsIndex(parts: seq<seq<Row>>, rows: seq<Row>, sqlRows: seq<Row>, i: nat, r: Row)
    requires SortedByTs(rows) && GapPartition(parts, rows)
    requires SortedByTs(sqlRows) && multiset(sqlRows) == multiset(rows)
    requires i < |parts| && r in parts[i]
    ensures ClusterId(sqlRows, r) == i + 1
  {
    SameStamps(sqlRows, rows);
    SumCountsStarts(parts, rows, r.ts);
    StartsByInside(parts, rows, i, r);
  }

  lemma {:induction false} GroupMultiset(rows: seq<Row>, a: seq<Row>, b: seq<Row>, id: int)
    requires multiset(a) == multiset(b)
    ensures multiset(Group(rows, a, id)) == multiset(Group(rows, b, id))
  {
    SameLength(a, b);
    if a != [] {
      var (rest, x) := (a[..|a| - 1], a[|a| - 1]);
      assert x in multiset(b);
      var i :| 0 <= i < |b| && b[i] == x;
      var others := b[..i] + b[i + 1..];
      FrontMultiset(a);
      RemovedFrom(b, i);
      GroupMultiset(rows, rest, others, id);
      GroupWithout(rows, b, i, id);
    }
  }

  lemma GroupWithout(rows: seq<Row>, b: seq<Row>, i: nat, id: int)
    requires i < |b|
    ensures multiset(Group(rows, b, id)) == multiset(Group(rows, b[..i] + b[i + 1..], id))
              + multiset(Group(rows, [b[i]], id))
  {
    assert b == b[..i] + [b[i]] + b[i + 1..];
    GroupConcat(rows, b[..i] + [b[i]], b[i + 1..], id);
    GroupConcat(rows, b[..i], [b[i]], id);
    GroupConcat(rows, b[..i], b[i + 1..], id);
  }

  lemma {:induction false} GroupConcat(rows: seq<Row>, a: seq<Row>, b: seq<Row>, id: int)
    ensures Group(rows, a + b, id) == Group(rows, a, id) + Group(rows, b, id)
  {
    if b == [] {
      assert a + b == a;
    } else {
      assert (a + b)[..|a + b| - 1] == a + b[..|b| - 1];
      GroupConcat(rows, a, b[..|b| - 1], id);
    }
  }

  /** All rows of the part have the id, or none has. */
  predicate Together(rows: seq<Row>, part: seq<Row>, id: int, inside: bool) {
    forall r :: r in part ==> (ClusterId(rows, r) == id <==> inside)
  }

  lemma {:induction false} GroupAllOrNone(rows: seq<Row>, part: seq<Row>, id: int, inside: bool)
    requires Together(rows, part, id, inside)
    ensures Group(rows, part, id) == if inside then part else []
  {
    if part != [] {
      var (rest, last) := (part[..|part| - 1], part[|part| - 1]);
      assert part == rest + [last];
      TogetherApart(rows, rest, last, id, inside);
      GroupAllOrNone(rows, rest, id, inside);
      GroupLast(rows, rest, last, id);
    }
  }

  lemma TogetherApart(rows: seq<Row>, rest: seq<Row>, last: Row, id: int, inside: bool)
    requires Together(rows, rest + [last], id, inside)
    ensures Together(rows, rest, id, inside) && (ClusterId(rows, last) == id <==> inside)
  {
    assert last in rest + [last] && forall r :: r in rest ==> r in rest + [last];
  }

  lemma GroupLast(rows: seq<Row>, rest: seq<Row>, last: Row, id: int)
    ensures Group(rows, rest + [last], id) == Group(rows, rest, id) + if ClusterId(rows, last) == id then [last] else []
  {
    assert (rest + [last])[..|rest|] == rest;
  }

  lemma {:induction false} GroupOfFlatten(rows: seq<Row>, parts: seq<seq<Row>>, i: nat)
    requires i < |parts|
    requires forall k, r :: 0 <= k < |parts| && r in parts[k] ==> ClusterId(rows, r) == k + 1
    ensures Group(rows, Flatten(parts), i + 1) == parts[i]
  {
    var rest, last := parts[..|parts| - 1], parts[|parts| - 1];
    GroupConcat(rows, Flatten(rest), last, i + 1);
    GroupAllOrNone(rows, last, i + 1, i == |parts| - 1);
    if i < |parts| - 1 {
      GroupOfFlatten(rows, rest, i);
    } else {
      GroupBeyond(rows, rest, i + 1);
    }
  }

  lemma {:induction false} GroupBeyond(rows: seq<Row>, parts: seq<seq<Row>>, id: int)
    requires !(1 <= id <= |parts|)
    requires forall k, r :: 0 <= k < |parts| && r in parts[k] ==> ClusterId(rows, r) == k + 1
    ensures Group(rows, Flatten(parts), id) == []
  {
    if parts != [] {
      GroupConcat(rows, Flatten(parts[..|parts| - 1]), parts[|parts| - 1], id);
      GroupAllOrNone(rows, parts[|parts| - 1], id, false);
      GroupBeyond(rows, parts[..|parts| - 1], id);
    }
  }

  /** Group i+1 of the query holds exactly the rows of the loop's i-th cluster, and no row has an id
      beyond those. */
  lemma GroupsAreClusters(parts: seq<seq<Row>>, rows: seq<Row>, sqlRows: seq<Row>, id: int)
    requires SortedByTs(rows) && GapPartition(parts, rows)
    requires SortedByTs(sqlRows) && multiset(sqlRows) == multiset(rows)
    ensures multiset(Group(sqlRows, sqlRows, id)) == if 1 <= id <= |parts| then multiset(parts[id - 1]) else multiset{}
    ensures forall r :: r in sqlRows ==> 1 <= ClusterId(sqlRows, r) <= |parts|
  {
    forall k, r | 0 <= k < |parts| && r in parts[k] ensures ClusterId(sqlRows, r) == k + 1 {
      ClusterIdIsIndex(parts, rows, sqlRows, k, r);
    }
    GroupMultiset(sqlRows, sqlRows, rows, id);
    if 1 <= id <= |parts| { GroupOfFlatten(sqlRows, parts, id - 1); } else { GroupBeyond(sqlRows, parts, id); }
    forall r | r in sqlRows ensures 1 <= ClusterId(sqlRows, r) <= |parts| {
      assert r in multiset(rows);
      var k := PartOf(parts, r);
    }
  }

  lemma {:induction false} PartOf(parts: seq<seq<Row>>, r: Row) returns (k: nat)
    requires r in Flatten(parts)
    ensures k < |parts| && r in parts[k]
  {
    k := |parts| - 1;
    if r !in parts[k] { k := PartOf(parts[..k], r); }
  }

  // ---- Verdicts ----

  function Span(c: Cluster): int { c.maxTs - c.minTs }

  /** The per-cluster verdict is EXCLUDE. */
  predicate Excluded(c: Cluster) {
    || Span(c) < TARGET
    || !(exists r :: r in c.events && r.kind == "DECISION")
    || !c.hasTrade
    || c.correlationIds == {}
  }

  datatype Reason = TooShort | NoDecision | NoTrade | NoCorrelation

  /** The reasons against a cluster, in order. The last one the code knows never applies: a cluster has an
      event, and every event adds its correlation id, NULL included. */
  method Judge(c: Cluster) returns (reasons: seq<Reason>)
    requires Summarises(c)
    ensures reasons == (if c.events[|c.events| - 1].ts - c.events[0].ts < 7_200_000 then [TooShort] else [])
                       + (if forall k :: 0 <= k < |c.events| ==> c.events[k].kind != "DECISION"
                          then [NoDecision] else [])
                       + (if forall k :: 0 <= k < |c.events| ==> !Trades(c.events[k]) then [NoTrade] else [])
    ensures Excluded(c) <==> reasons != []
  {
    var decisions := 0;
    var i := 0;
    while i < |c.events|
      invariant 0 <= i <= |c.events|
      invariant decisions > 0 <==> exists k :: 0 <= k < i && c.events[k].kind == "DECISION"
    {
      if c.events[i].kind == "DECISION" { decisions := decisions + 1; }
      i := i + 1;
    }
    RecordMeans(c);
    assert c.events[0].correlationId in c.correlationIds;
    assert forall k :: 0 <= k < |c.events| ==> c.events[k] in c.events;
    reasons := [];
    if Span(c) < TARGET { reasons := reasons + [TooShort]; }
    if decisions == 0 { reasons := reasons + [NoDecision]; }
    if !c.hasTrade { reasons := reasons + [NoTrade]; }
    if |c.correlationIds| < 1 { reasons := reasons + [NoCorrelation]; }
  }

  /** The summary verdict: HOLD or not; the maximum of no clusters raises. */
  method HoldVerdict(clusters: seq<Cluster>) returns (hold: Result<bool>)
    ensures hold.Err? <==> clusters == []
    ensures hold.Ok? ==> (hold.value <==> forall c :: c in clusters ==> c.maxTs - c.minTs < 7_200_000)
    ensures hold == Ok(true) ==> forall c :: c in clusters ==> Excluded(c)
  {
    if clusters == [] { return Err("max() arg is an empty sequence"); }
    var longest := clusters[0];
    var i := 1;
    while i < |clusters|
      invariant 1 <= i <= |clusters|
      invariant longest in clusters
      invariant forall c :: c in clusters[..i] ==> Span(c) <= Span(longest)
    {
      if Span(clusters[i]) > Span(longest) { longest := clusters[i]; }
      i := i + 1;
    }
    assert clusters[..i] == clusters;
    hold := Ok(Span(longest) < TARGET);
  }

  /** From the rows to the verdict: HOLD means that no run of the partition, which is the only one,
      spans two hours. */
  method ClusterVerdict(rows: seq<Row>) returns (hold: Result<bool>)
    requires SortedByTs(rows)
    ensures hold.Err? <==> rows == []
    ensures hold.Ok? ==> forall parts: seq<seq<Row>> :: GapPartition(parts, rows) ==>
              (hold.value <==> forall i :: 0 <= i < |parts| ==>
                  parts[i] != [] && parts[i][|parts[i]| - 1].ts - parts[i][0].ts < 7_200_000)
  {
    var clusters := FindClusters(rows);
    hold := HoldVerdict(clusters);
    SpansAgree(clusters);
    forall parts | GapPartition(parts, rows) ensures parts == EventLists(clusters) {
      PartitionUnique(parts, EventLists(clusters), rows);
    }
    NoRowsNoClusters(clusters, rows);
  }

  lemma SpansAgree(clusters: seq<Cluster>)
    requires AllSummarised(clusters)
    ensures (forall c :: c in clusters ==> c.maxTs - c.minTs < 7_200_000)
            <==> forall i :: 0 <= i < |clusters| ==> var part := EventLists(clusters)[i];
                   part != [] && part[|part| - 1].ts - part[0].ts < 7_200_000
  {
    forall i | 0 <= i < |clusters|
      ensures var part := EventLists(clusters)[i];
              part != [] && part[|part| - 1].ts - part[0].ts == clusters[i].maxTs - clusters[i].minTs
    {
      assert clusters[i] in clusters && Summarises(clusters[i]);
    }
    assert forall i :: 0 <= i < |clusters| ==> clusters[i] in clusters;
  }

  lemma NoRowsNoClusters(clusters: seq<Cluster>, rows: seq<Row>)
    requires GapPartition(EventLists(clusters), rows)
    ensures clusters == [] <==> rows == []
  {
    if clusters != [] {
      FlattenSnoc(clusters);
      assert Compact(EventLists(clusters)[|clusters| - 1]);
    }
  }
}
