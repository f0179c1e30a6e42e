/** The reporter of scripts/lr_reporter.py, and what it may rely on after the guard has passed. */
module Reporter {
  import opened Wrappers
  import opened Text
  import opened CompletionGuard

  datatype Snapshot = Snapshot(total: nat, done: nat, blocked: nat, tenths: nat)

  /** The completion percentage in tenths of a percent: to the nearest, ties to even. */
  function Tenths(done: nat, total: nat): nat {
    if total == 0 then 0
    else
      var (q, r) := ((1000 * done) / total, (1000 * done) % total);
      if 2 * r < total then q else if 2 * r > total then q + 1 else q + q % 2
  }

  /** How an f-string writes the value. */
  function Written(v: Value): string {
    match v
    case Plain(s) => s
    case Odd(_, _, _, _, written) => written
    case _ => "None"
  }

  /** The reporter asks for the file by its exact name. */
  function StateOf(w: World, e: TaskEntry): StateFile {
    var name := (if e.Task? then Written(e.id) else "") + SUFFIX;
    if name in w.listing then Content(w, name) else NotReadable
  }

  /** Null will do for id, title and status; a date as `blocked_since` raises. */
  predicate Loads(w: World, e: TaskEntry) {
    && e.Task? && !e.id.Absent? && !Unhashable(e.id) && !e.title.Absent?
    && var s := StateOf(w, e);
       s.State? && !s.status.Absent? && (s.status == BLOCKED && s.blockedSince.Odd? ==> !s.blockedSince.replaceRejects)
  }

  /** A `tasks` value that is no list will do if a loop finds it empty. */
  predicate Reportable(w: World) {
    && w.manifest.Manifest? && (w.manifest.tasks.NoList? ==> w.manifest.tasks.empty)
    && forall k :: 0 <= k < |TasksOf(w)| ==> Loads(w, TasksOf(w)[k])
  }

  function CountOf(w: World, tasks: seq<TaskEntry>, status: Value): nat {
    if tasks == [] then 0
    else
      var s := StateOf(w, tasks[|tasks| - 1]);
      CountOf(w, tasks[..|tasks| - 1], status) + if s.State? && s.status == status then 1 else 0
  }

  /** `generate_snapshot`: None where it raises. */
  method GenerateSnapshot(w: World) returns (r: Option<Snapshot>)
    ensures r.Some? <==> Reportable(w)
    ensures r.Some? ==>
              var done := CountOf(w, TasksOf(w), DONE);
              r.value == Snapshot(|TasksOf(w)|, done, CountOf(w, TasksOf(w), BLOCKED), Tenths(done, |TasksOf(w)|))
  {
    if !w.manifest.Manifest? || (w.manifest.tasks.NoList? && !w.manifest.tasks.empty) { return None; }
    var tasks := TasksOf(w);
    var i := 0;
    while i < |tasks|
      invariant 0 <= i <= |tasks| && forall k :: 0 <= k < i ==> Loads(w, tasks[k])
    {
      if !Loads(w, tasks[i]) { return None; }
      i := i + 1;
    }
    var done, blocked := 0, 0;
    i := 0;
    while i < |tasks|
      invariant 0 <= i <= |tasks|
      invariant done == CountOf(w, tasks[..i], DONE) && blocked == CountOf(w, tasks[..i], BLOCKED)
    {
      assert tasks[..i + 1][..i] == tasks[..i];
      var status := StateOf(w, tasks[i]).status;
      if status == DONE { done := done + 1; } else if status == BLOCKED { blocked := blocked + 1; }
      i := i + 1;
    }
    assert tasks[..i] == tasks;
    r := Some(Snapshot(|tasks|, done, blocked, Tenths(done, |tasks|)));
  }

  // ---- The percentage ----

  /** One decimal tells a complete list from an incomplete one up to 1999 tasks, and no further. */
  lemma HundredIffAllDone(n: nat)
    requires n > 0
    ensures (forall d: nat :: d <= n ==> (Tenths(d, n) == 1000 <==> d == n)) <==> n < 2000
  {
    Full(n);
    forall d: nat | d < n && n < 2000 ensures Tenths(d, n) < 1000 { Partial(d, n); }
    if n >= 2000 {
      OneShort(n);
      assert Tenths(n - 1, n) == 1000;
    }
  }

  lemma Full(n: nat)
    requires n > 0
    ensures Tenths(n, n) == 1000
  {
    DivMod(1000 * n, 1000, 0, n);
  }

  lemma Partial(d: nat, n: nat)
    requires d < n < 2000
    ensures Tenths(d, n) < 1000
  {
    var (q, r) := ((1000 * d) / n, (1000 * d) % n);
    assert q * n + r == 1000 * d;
    ProductsOrdered(1000, q, n);
    assert q == 999 ==> q * n == 999 * n;
  }

  lemma OneShort(n: nat)
    requires n >= 2000
    ensures Tenths(n - 1, n) == 1000
  {
    assert 1000 * (n - 1) == 999 * n + (n - 1000);
    assert (1000 * (n - 1)) / n == 999 && (1000 * (n - 1)) % n == n - 1000 by {
      DivMod(1000 * (n - 1), 999, n - 1000, n);
    }
  }

  lemma DivMod(x: nat, q: nat, r: nat, n: nat)
    requires r < n && x == q * n + r
    ensures x / n == q && x % n == r
  {
    var k := x / n;
    assert x == k * n + x % n;
    ProductsOrdered(k + 1, q, n);
    ProductsOrdered(q + 1, k, n);
  }

  lemma ProductsOrdered(a: nat, b: nat, n: nat)
    ensures a <= b ==> a * n <= b * n
  {
  }

  // ---- At most a thousand tasks ----

  predicate Ascii(s: string) { forall i :: 0 <= i < |s| ==> s[i] as int < 128 }

  function Number(id: string): int {
    if |id| != 6 then 0 else (id[3] as int - 48) * 100 + (id[4] as int - 48) * 10 + (id[5] as int - 48)
  }

  predicate AsciiId(id: string) { |id| == 6 && id[..3] == "LR-" && forall i :: 3 <= i < 6 ==> '0' <= id[i] <= '9' }

  lemma {:induction false} BeforeAfterPrefix(p: string, a: string, b: string)
    ensures Before(p + a, p + b) <==> Before(a, b)
  {
    if p == "" {
      assert p + a == a && p + b == b;
    } else {
      assert (p + a)[1..] == p[1..] + a && (p + b)[1..] == p[1..] + b;
      BeforeAfterPrefix(p[1..], a, b);
    }
  }

  lemma BeforeIsLess(a: string, b: string)
    requires AsciiId(a) && AsciiId(b) && Before(a, b)
    ensures Number(a) < Number(b)
  {
    assert a == "LR-" + a[3..] && b == "LR-" + b[3..];
    BeforeAfterPrefix("LR-", a[3..], b[3..]);
    var (x, y) := (a[3..], b[3..]);
    var (x1, y1) := (x[1..], y[1..]);
    var (x2, y2) := (x1[1..], y1[1..]);
    assert Before(x, y) <==> x[0] < y[0] || (x[0] == y[0] && Before(x1, y1));
    assert Before(x1, y1) <==> x1[0] < y1[0] || (x1[0] == y1[0] && Before(x2, y2));
    assert Before(x2, y2) <==> x2[0] < y2[0] by { assert x2[1..] == "" && y2[1..] == ""; }
  }

  lemma {:induction false} NumberAtLeast(ids: seq<string>, k: nat)
    requires Ascending(ids) && (forall i :: 0 <= i < |ids| ==> AsciiId(ids[i])) && k < |ids|
    ensures Number(ids[k]) >= k
  {
    if k > 0 {
      NumberAtLeast(ids, k - 1);
      BeforeIsLess(ids[k - 1], ids[k]);
    }
  }

  lemma AtMostThousand(ids: seq<string>)
    requires Ascending(ids) && forall i :: 0 <= i < |ids| ==> AsciiId(ids[i])
    ensures |ids| <= 1000
  {
    if ids != [] { NumberAtLeast(ids, |ids| - 1); }
  }

  // ---- After the guard ----

  /** The digits beyond ASCII are beyond ASCII, and the manifest's ids are not. */
  predicate PlainIds(w: World) {
    && (forall c :: c in w.otherDigits ==> c as int >= 128)
    && (forall id :: id in IdsOf(TasksOf(w)) ==> Ascii(id))
  }

  lemma MatchedIdsShaped(w: World)
    requires Prepared(w)
    ensures forall id :: id in IdsOf(TasksOf(w)) ==> IdShaped(id, w)
    ensures PlainIds(w) ==> forall id :: id in IdsOf(TasksOf(w)) ==> AsciiId(id)
  {
    var (ids, names) := (IdsOf(TasksOf(w)), GlobList(w.listing));
    forall id | id in ids ensures IdShaped(id, w) && (PlainIds(w) ==> AsciiId(id)) {
      assert id in Elements(KeysOf(names));
      var j :| 0 <= j < |names| && KeysOf(names)[j] == id;
      assert NameMatches(names[j], w);
    }
  }

  lemma GuardBoundsTasks(w: World, only: string)
    requires ValidFor(w, only) && PlainIds(w)
    ensures 1 <= |TasksOf(w)| <= 1000
  {
    MatchedIdsShaped(w);
    var ids := IdsOf(TasksOf(w));
    assert forall i :: 0 <= i < |ids| ==> ids[i] in ids;
    AtMostThousand(ids);
  }

  /** Tasks and state files are in bijection: each task has exactly one file, and each file exactly
      one task. */
  lemma TasksMatchFiles(w: World, only: string)
    requires ValidFor(w, only)
    ensures var (ids, names) := (IdsOf(TasksOf(w)), GlobList(w.listing));
            && |ids| == |names|
            && (forall id :: id in ids <==> id in KeysOf(names))
            && (forall k, l :: 0 <= k < l < |ids| ==> ids[k] != ids[l])
            && (forall j, l :: 0 <= j < l < |names| ==> KeysOf(names)[j] != KeysOf(names)[l])
  {
    var ids := IdsOf(TasksOf(w));
    forall k, l | 0 <= k < l < |ids| ensures ids[k] != ids[l] { BeforeIrreflexive(ids[k]); }
    SameElements(ids, KeysOf(GlobList(w.listing)));
  }

  lemma SameElements(xs: seq<string>, ys: seq<string>)
    requires Elements(xs) == Elements(ys)
    requires forall i, j :: 0 <= i < j < |xs| ==> xs[i] != xs[j]
    requires forall i, j :: 0 <= i < j < |ys| ==> ys[i] != ys[j]
    ensures |xs| == |ys|
    ensures forall x :: x in xs <==> x in ys
  {
    DistinctSize(xs);
    DistinctSize(ys);
    assert forall x :: x in xs <==> x in Elements(xs);
    assert forall y :: y in ys <==> y in Elements(ys);
  }

  lemma {:induction false} DistinctSize(xs: seq<string>)
    requires forall i, j :: 0 <= i < j < |xs| ==> xs[i] != xs[j]
    ensures |Elements(xs)| == |xs|
  {
    if xs != [] {
      var rest, last := xs[..|xs| - 1], xs[|xs| - 1];
      DistinctSize(rest);
      assert xs == rest + [last];
      ElementsLater(rest, last);
      assert last !in rest;
    }
  }

  /** No file name goes on after the task's id and the suffix. */
  predicate ExactNames(w: World) {
    forall j :: 0 <= j < |GlobList(w.listing)| ==> |GlobList(w.listing)[j]| == 17
  }

  lemma {:induction false} GlobbedListed(names: seq<string>)
    ensures forall n :: n in GlobList(names) <==> n in names && Globbed(n)
  {
    if names != [] {
      GlobbedListed(names[..|names| - 1]);
      assert forall n :: n in names <==> n in names[..|names| - 1] || n == names[|names| - 1];
    }
  }

  /** The file of a task that passed is the one the reporter asks for, exactly if its name ends
      there. */
  lemma NameIffExact(w: World, k: nat, j: nat)
    requires Prepared(w) && k < |TasksOf(w)| && j < |GlobList(w.listing)|
    requires Key(GlobList(w.listing)[j]) == IdsOf(TasksOf(w))[k]
    ensures IdOf(TasksOf(w)[k]) + SUFFIX in w.listing <==> |GlobList(w.listing)[j]| == 17
    ensures |GlobList(w.listing)[j]| == 17 ==> GlobList(w.listing)[j] == IdOf(TasksOf(w)[k]) + SUFFIX
  {
    var (names, id) := (GlobList(w.listing), IdOf(TasksOf(w)[k]));
    assert NameMatches(names[j], w);
    GlobbedListed(w.listing);
    assert names[j] in names;
    var exact := id + SUFFIX;
    assert names[j][..17] == names[j][..6] + names[j][6..17];
    if |names[j]| == 17 { assert names[j] == names[j][..17]; }
    if exact in w.listing {
      assert exact[..3] == id[..3] && exact[|exact| - 11..] == SUFFIX;
      assert exact in names;
      var l :| 0 <= l < |names| && names[l] == exact;
      assert Key(exact) == id;
    }
  }

  /** After a passing check the reporter succeeds exactly if the file names are exact: the guard
      alone does not ensure it. Its totals then add up. */
  lemma ReportableIffExact(w: World)
    requires ValidFor(w, "")
    ensures Reportable(w) <==> ExactNames(w)
  {
    var (tasks, names) := (TasksOf(w), GlobList(w.listing));
    TasksMatchFiles(w, "");
    if ExactNames(w) {
      forall k | 0 <= k < |tasks| ensures Loads(w, tasks[k]) {
        var j := FileOf(w, k);
        NameIffExact(w, k, j);
        assert TaskValid(w, IdsOf(tasks)[k]) && PairValid(w, k, j);
      }
    }
    if Reportable(w) {
      forall j | 0 <= j < |names| ensures |names[j]| == 17 {
        assert KeysOf(names)[j] in IdsOf(tasks);
        var k :| 0 <= k < |tasks| && IdsOf(tasks)[k] == Key(names[j]);
        assert Loads(w, tasks[k]);
        NameIffExact(w, k, j);
      }
    }
  }

  lemma FileOf(w: World, k: nat) returns (j: nat)
    requires Prepared(w) && k < |TasksOf(w)|
    ensures j < |GlobList(w.listing)| && Key(GlobList(w.listing)[j]) == IdsOf(TasksOf(w))[k]
  {
    var names := GlobList(w.listing);
    assert IdsOf(TasksOf(w))[k] in Elements(IdsOf(TasksOf(w)));
    assert IdsOf(TasksOf(w))[k] in Elements(KeysOf(names));
    j :| 0 <= j < |names| && KeysOf(names)[j] == IdsOf(TasksOf(w))[k];
  }

  /** What the reporter prints after a passing check: done and blocked add up to the tasks, and the
      percentage reads 100.0 exactly if every task is done. */
  lemma GuardedReport(w: World)
    requires ValidFor(w, "") && ExactNames(w) && PlainIds(w)
    ensures Reportable(w)
    ensures var (n, done, blocked) := (|TasksOf(w)|, CountOf(w, TasksOf(w), DONE), CountOf(w, TasksOf(w), BLOCKED));
            && 1 <= n <= 1000 && done + blocked == n
            && (Tenths(done, n) == 1000 <==> blocked == 0)
            && (Tenths(done, n) == 1000 <==> forall k :: 0 <= k < n ==>
                StateOf(w, TasksOf(w)[k]).State? && StateOf(w, TasksOf(w)[k]).status == DONE)
  {
    ReportableIffExact(w);
    GuardBoundsTasks(w, "");
    var tasks := TasksOf(w);
    forall k | 0 <= k < |tasks|
      ensures StateOf(w, tasks[k]).State?
                && (StateOf(w, tasks[k]).status == DONE || StateOf(w, tasks[k]).status == BLOCKED)
    {
      assert Loads(w, tasks[k]);
      var j := FileOf(w, k);
      NameIffExact(w, k, j);
      assert TaskValid(w, IdsOf(tasks)[k]) && PairValid(w, k, j);
    }
    CountsAddUp(w, tasks);
    HundredIffAllDone(|tasks|);
  }

  lemma {:induction false} CountsAddUp(w: World, tasks: seq<TaskEntry>)
    requires forall k :: 0 <= k < |tasks| ==>
               && StateOf(w, tasks[k]).State?
               && (StateOf(w, tasks[k]).status == DONE || StateOf(w, tasks[k]).status == BLOCKED)
    ensures CountOf(w, tasks, DONE) + CountOf(w, tasks, BLOCKED) == |tasks|
    ensures CountOf(w, tasks, DONE) == |tasks| <==> forall k :: 0 <= k < |tasks| ==> StateOf(w, tasks[k]).status == DONE
  {
    if tasks != [] {
      var rest := tasks[..|tasks| - 1];
      CountsAddUp(w, rest);
      assert forall k :: 0 <= k < |rest| ==> rest[k] == tasks[k];
    }
  }
}
