/** What the completion guard and the reporter accept, character by character and field by field. */
module GuardMeaning {
  import opened Wrappers
  import opened Text
  import opened CompletionGuard
  import opened Reporter

  // ---- Texts ----

  predicate DigitAt(s: string, i: nat, w: World)
    requires i < |s|
  {
    '0' <= s[i] <= '9' || s[i] in w.otherDigits
  }

  /** `LR-` and three digits from the start of the text. */
  predicate StartsWithId(s: string, w: World) {
    && |s| >= 6 && s[0] == 'L' && s[1] == 'R' && s[2] == '-'
    && DigitAt(s, 3, w) && DigitAt(s, 4, w) && DigitAt(s, 5, w)
  }

  lemma IdMeans(id: string, w: World)
    ensures TaskIdMatches(id, w) <==> StartsWithId(id, w) && (|id| == 6 || (|id| == 7 && id[6] == '\n'))
  {
    if |id| >= 6 {
      ShapedIff(id[..6], w);
      assert |id| == 6 ==> id[..6] == id;
    }
  }

  lemma ShapedIff(id: string, w: World)
    ensures IdShaped(id, w) <==> |id| == 6 && StartsWithId(id, w)
  {
    if |id| == 6 { assert id[..3] == "LR-" <==> id[0] == 'L' && id[1] == 'R' && id[2] == '-'; }
  }

  lemma NameMeans(name: string, w: World)
    ensures NameMatches(name, w) <==> StartsWithId(name, w) && |name| >= 17 && name[6..17] == "-STATE.yaml"
  {
    if |name| >= 17 { ShapedIff(name[..6], w); }
  }

  /** `LR-` at the start, `-STATE.yaml` at the end. */
  predicate Searched(n: string) {
    |n| >= 14 && n[0] == 'L' && n[1] == 'R' && n[2] == '-' && n[|n| - 11..] == "-STATE.yaml"
  }

  lemma SearchedIff(n: string)
    ensures Globbed(n) <==> Searched(n)
  {
    if |n| >= 14 { assert n[..3] == "LR-" <==> n[0] == 'L' && n[1] == 'R' && n[2] == '-'; }
  }

  /** The names that the scan looks at are those the directory is searched for, each as often as it is
      listed. */
  lemma {:induction false} GlobMeans(names: seq<string>, n: string)
    ensures multiset(GlobList(names))[n] == if Searched(n) then multiset(names)[n] else 0
  {
    if names != [] {
      var rest, last := names[..|names| - 1], names[|names| - 1];
      GlobMeans(rest, n);
      SearchedIff(last);
      assert names == rest + [last];
    }
  }

  predicate FixedPlace(i: int) { i == 4 || i == 7 || i == 10 || i == 13 || i == 16 || i == 19 }

  /** A date, `T`, a time and `Z`. */
  predicate StampText(s: string, w: World)
    requires |s| >= 20
  {
    && s[4] == '-' && s[7] == '-' && s[10] == 'T' && s[13] == ':' && s[16] == ':' && s[19] == 'Z'
    && forall i :: 0 <= i < 20 && !FixedPlace(i) ==> DigitAt(s, i, w)
  }

  /** A line break may follow. */
  predicate Stamp(v: Value, w: World) {
    v.Plain? && (|v.s| == 20 || (|v.s| == 21 && v.s[20] == '\n')) && StampText(v.s, w)
  }

  const PATTERN := "0000-00-00T00:00:00Z"

  lemma PatternIff(s: string, w: World)
    requires |s| == 20
    ensures FollowsPattern(s, PATTERN, w) <==> StampText(s, w)
  {
    var p := PATTERN;
    assert p[4] == '-' && p[7] == '-' && p[10] == 'T' && p[13] == ':' && p[16] == ':' && p[19] == 'Z';
    assert forall i :: 0 <= i < 20 ==> (p[i] == '0' <==> !FixedPlace(i));
    assert forall i :: 0 <= i < 20 ==> (DigitAt(s, i, w) <==> Digit(s[i], w));
  }

  lemma StampMeans(v: Value, w: World)
    ensures IsoUtc(v, w) <==> Stamp(v, w)
  {
    if v.Plain? {
      LongerPattern(v.s, PATTERN, w);
      if |v.s| == 20 { PatternIff(v.s, w); }
      if |v.s| == 21 {
        PatternIff(v.s[..20], w);
        assert forall i :: 0 <= i < 20 ==> (DigitAt(v.s, i, w) <==> DigitAt(v.s[..20], i, w));
      }
    }
  }

  lemma LongerPattern(s: string, p: string, w: World)
    ensures FollowsPattern(s, p + "\n", w)
            <==> |s| == |p| + 1 && s[|p|] == '\n' && FollowsPattern(s[..|p|], p, w)
  {
    if |s| == |p| + 1 {
      assert forall i :: 0 <= i < |p| ==> s[..|p|][i] == s[i] && (p + "\n")[i] == p[i];
      assert (p + "\n")[|p|] == '\n';
    }
  }

  /** 7 to 40 characters, hex digits but for a line break at the end. */
  predicate Commit(v: Value) {
    && v.Plain? && 7 <= |v.s| <= 40
    && forall i :: 0 <= i < |v.s| ==>
         || '0' <= v.s[i] <= '9' || 'a' <= v.s[i] <= 'f' || 'A' <= v.s[i] <= 'F'
         || (i == |v.s| - 1 && v.s[i] == '\n')
  }

  lemma CommitMeans(v: Value)
    ensures HexCommit(v) <==> Commit(v)
  {
  }

  // ---- One state file ----

  predicate Given(v: Value) { (v.Plain? && |v.s| > 0) || (v.Odd? && v.truthy) }

  predicate NotGiven(v: Value) { v.Null? || v.Absent? }

  /** A relative path without two dots in a row that exists. */
  predicate EvidencePath(v: Value, w: World) {
    && v.Plain? && v.s in w.evidence && |v.s| > 0 && v.s[0] != '/'
    && forall i :: 0 <= i < |v.s| ==> !OccursAt(v.s, "..", i)
  }

  predicate BlockedFor(v: Value) {
    v.Plain? && v.s in ["RC_B001", "RC_B002", "RC_B003", "RC_B100", "RC_B101", "RC_B102", "RC_B200", "RC_B201",
                        "RC_B202", "RC_B300", "RC_B301", "RC_B302", "RC_B400", "RC_B401", "RC_B402"]
  }

  lemma BlockedForIff(v: Value)
    ensures BlockedFor(v) <==> v.Plain? && v.s in REASON_CODES
  {
  }

  /** What a valid state file says, DONE or BLOCKED, about the task it is named after. */
  lemma StateMeans(task: string, title: Value, s: StateFile, w: World)
    ensures StateValid(task, title, s, w)
            <==> && s.State? && s.version == Plain("1.0") && s.id == Plain(task) && (Given(title) ==> s.title == title)
                 && EvidencePath(s.evidenceFile, w) && Commit(s.evidenceCommit)
                 && if s.status == Plain("DONE")
                    then && Stamp(s.completedAt, w) && Given(s.completedBy)
                         && NotGiven(s.reasonCode) && NotGiven(s.reasonText) && NotGiven(s.blockedSince)
                    else && s.status == Plain("BLOCKED")
                         && BlockedFor(s.reasonCode) && Given(s.reasonText) && Stamp(s.blockedSince, w)
                         && NotGiven(s.completedAt) && NotGiven(s.completedBy)
  {
    if s.State? {
      StampMeans(s.completedAt, w);
      StampMeans(s.blockedSince, w);
      CommitMeans(s.evidenceCommit);
      BlockedForIff(s.reasonCode);
      if s.evidenceFile.Plain? { ContainsMeans(s.evidenceFile.s, ".."); }
      assert DONE == Plain("DONE") && BLOCKED == Plain("BLOCKED") && VERSION == Plain("1.0");
    }
  }

  /** And which files make the check raise. */
  lemma RaisesMeans(s: StateFile)
    ensures StateRaises(s)
            <==> && s.State?
                 && (|| (s.status.Odd? && !s.status.hashable)
                     || (s.status == Plain("DONE")
                         && ((Given(s.evidenceFile) && s.evidenceFile.Odd?)
                             || s.completedAt.Null? || (s.completedAt.Odd? && !s.completedAt.sliceable)))
                     || (s.status == Plain("BLOCKED")
                         && ((Given(s.evidenceFile) && s.evidenceFile.Odd?)
                             || (Given(s.reasonCode) && s.reasonCode.Odd? && !s.reasonCode.hashable)
                             || s.reasonText.Null? || (s.reasonText.Odd? && !s.reasonText.sliceable))))
  {
  }

  // ---- The whole check ----

  /** A well-formed entry of the manifest. */
  predicate EntryFine(e: TaskEntry, w: World) {
    && e.Task? && !e.extraKeys && e.id.Plain? && e.title.Plain? && 1 <= |e.title.s| <= 200
    && StartsWithId(e.id.s, w) && (|e.id.s| == 6 || (|e.id.s| == 7 && e.id.s[6] == '\n'))
  }

  predicate NameFine(n: string, w: World) { StartsWithId(n, w) && |n| >= 17 && n[6..17] == "-STATE.yaml" }

  /** File `j` is named after task `k`. */
  predicate Belongs(w: World, k: nat, j: nat)
    requires k < |TasksOf(w)| && j < |GlobList(w.listing)|
  {
    var (e, n) := (TasksOf(w)[k], GlobList(w.listing)[j]);
    |n| >= 6 && e.Task? && e.id == Plain(n[..6])
  }

  predicate StateFine(w: World, k: nat, j: nat)
    requires k < |TasksOf(w)| && j < |GlobList(w.listing)|
  {
    var (e, n) := (TasksOf(w)[k], GlobList(w.listing)[j]);
    && e.Task? && e.id.Plain?
    && StateValid(e.id.s, e.title, if n in w.contents then w.contents[n] else NotReadable, w)
  }

  /** The manifest and the directory fit: well-formed entries in ascending order of their ids, names of
      the right form, and each entry with exactly one file. */
  predicate Fits(w: World) {
    && w.manifest.Manifest? && w.manifest.version == Plain("1.0") && w.manifest.tasks.List? && w.hasDir
    && var (tasks, names) := (w.manifest.tasks.entries, GlobList(w.listing));
       && |tasks| > 0 && (forall k :: 0 <= k < |tasks| ==> EntryFine(tasks[k], w))
       && (forall k, l :: 0 <= k < l < |tasks| ==> Before(tasks[k].id.s, tasks[l].id.s))
       && (forall j :: 0 <= j < |names| ==> NameFine(names[j], w))
       && (forall j, l :: 0 <= j < l < |names| ==> names[j][..6] != names[l][..6])
       && (forall k :: 0 <= k < |tasks| ==> HasFile(w, k)) && (forall j :: 0 <= j < |names| ==> HasTask(w, j))
  }

  predicate HasFile(w: World, k: nat)
    requires k < |TasksOf(w)|
  {
    exists j :: 0 <= j < |GlobList(w.listing)| && Belongs(w, k, j)
  }

  predicate HasTask(w: World, j: nat)
    requires j < |GlobList(w.listing)|
  {
    exists k :: 0 <= k < |TasksOf(w)| && Belongs(w, k, j)
  }

  lemma FitsIff(w: World)
    ensures Prepared(w) <==> Fits(w)
  {
    if Mapped(w) {
      var (tasks, names) := (TasksOf(w), GlobList(w.listing));
      EntriesIff(tasks, w);
      NamesIff(names, w);
      if (forall k :: 0 <= k < |tasks| ==> EntryFine(tasks[k], w))
         && (forall j :: 0 <= j < |names| ==> NameFine(names[j], w)) {
        MatchedIff(w);
      }
      assert VERSION == Plain("1.0");
    }
  }

  lemma EntriesIff(tasks: seq<TaskEntry>, w: World)
    ensures TasksValid(tasks, w)
            <==> && (forall k :: 0 <= k < |tasks| ==> EntryFine(tasks[k], w))
                 && (forall k, l :: 0 <= k < l < |tasks| ==> Before(IdOf(tasks[k]), IdOf(tasks[l])))
  {
    forall k | 0 <= k < |tasks|
      ensures EntryValid(tasks[k], w) <==> EntryFine(tasks[k], w)
      ensures IdsOf(tasks)[k] == IdOf(tasks[k])
    {
      if tasks[k].Task? && tasks[k].id.Plain? { IdMeans(tasks[k].id.s, w); }
    }
    assert Ascending(IdsOf(tasks))
      <==> forall k, l :: 0 <= k < l < |tasks| ==> Before(IdsOf(tasks)[k], IdsOf(tasks)[l]);
  }

  lemma NamesIff(names: seq<string>, w: World)
    ensures NamesValid(names, w)
            <==> && (forall j :: 0 <= j < |names| ==> NameFine(names[j], w))
                 && (forall j, l :: 0 <= j < l < |names| ==> Key(names[j]) != Key(names[l]))
  {
    forall j | 0 <= j < |names| ensures NameMatches(names[j], w) <==> NameFine(names[j], w) { NameMeans(names[j], w); }
  }

  lemma MatchedIff(w: World)
    requires forall k :: 0 <= k < |TasksOf(w)| ==> EntryFine(TasksOf(w)[k], w)
    requires forall j :: 0 <= j < |GlobList(w.listing)| ==> NameFine(GlobList(w.listing)[j], w)
    ensures Matched(IdsOf(TasksOf(w)), GlobList(w.listing))
            <==> && (forall k :: 0 <= k < |TasksOf(w)| ==> HasFile(w, k))
                 && (forall j :: 0 <= j < |GlobList(w.listing)| ==> HasTask(w, j))
  {
    var (ids, keys) := (IdsOf(TasksOf(w)), KeysOf(GlobList(w.listing)));
    forall k | 0 <= k < |ids| ensures ids[k] in Elements(ids) && (HasFile(w, k) <==> ids[k] in Elements(keys)) {
      FileIff(w, k);
    }
    forall j | 0 <= j < |keys| ensures keys[j] in Elements(keys) && (HasTask(w, j) <==> keys[j] in Elements(ids)) {
      TaskIff(w, j);
    }
  }

  lemma FileIff(w: World, k: nat)
    requires k < |TasksOf(w)| && EntryFine(TasksOf(w)[k], w)
    requires forall j :: 0 <= j < |GlobList(w.listing)| ==> NameFine(GlobList(w.listing)[j], w)
    ensures HasFile(w, k) <==> IdsOf(TasksOf(w))[k] in Elements(KeysOf(GlobList(w.listing)))
  {
    var keys := KeysOf(GlobList(w.listing));
    forall j | 0 <= j < |keys| ensures Belongs(w, k, j) <==> IdsOf(TasksOf(w))[k] == keys[j] {}
  }

  lemma TaskIff(w: World, j: nat)
    requires j < |GlobList(w.listing)| && NameFine(GlobList(w.listing)[j], w)
    requires forall k :: 0 <= k < |TasksOf(w)| ==> EntryFine(TasksOf(w)[k], w)
    ensures HasTask(w, j) <==> KeysOf(GlobList(w.listing))[j] in Elements(IdsOf(TasksOf(w)))
  {
    var ids := IdsOf(TasksOf(w));
    forall k | 0 <= k < |ids| ensures Belongs(w, k, j) <==> ids[k] == KeysOf(GlobList(w.listing))[j] {}
  }

  /** When everything that is checked is valid: all tasks, or the one that is named. */
  lemma ValidMeans(w: World, only: string)
    ensures ValidFor(w, only)
            <==> && Fits(w)
                 && (only != "" ==> exists k :: 0 <= k < |TasksOf(w)| && TasksOf(w)[k].id == Plain(only))
                 && forall k, j :: 0 <= k < |TasksOf(w)| && 0 <= j < |GlobList(w.listing)| && Belongs(w, k, j) ==>
                      (only == "" || TasksOf(w)[k].id == Plain(only)) ==> StateFine(w, k, j)
  {
    FitsIff(w);
    if Fits(w) {
      PairsIff(w);
      assert forall k :: 0 <= k < |TasksOf(w)| ==> IdsOf(TasksOf(w))[k] in IdsOf(TasksOf(w));
      if only != "" {
        assert only in IdsOf(TasksOf(w)) <==> exists k :: 0 <= k < |TasksOf(w)| && TasksOf(w)[k].id == Plain(only);
      }
    }
  }

  lemma PairsIff(w: World)
    requires Fits(w)
    ensures forall k, j :: 0 <= k < |TasksOf(w)| && 0 <= j < |GlobList(w.listing)| ==>
              && (Belongs(w, k, j) <==> Key(GlobList(w.listing)[j]) == IdsOf(TasksOf(w))[k])
              && (PairValid(w, k, j) <==> StateFine(w, k, j))
    ensures forall k :: 0 <= k < |TasksOf(w)| ==> TasksOf(w)[k].id == Plain(IdsOf(TasksOf(w))[k])
  {
  }

  /** The first file for the task raises. */
  predicate FirstRaises(w: World, task: string) {
    exists j :: 0 <= j < |NamesIn(w)| && FirstOf(w, task, j) && StateRaises(Content(w, NamesIn(w)[j]))
  }

  /** What ends step 4 of the check early: a task asked for that no entry with id and title has, or whose
      first file raises. */
  lemma StopsMeans(w: World, only: string)
    ensures Stops(w, only)
            <==> if only != "" then !Enters(w, only) || FirstRaises(w, only)
                 else exists task :: Enters(w, task) && FirstRaises(w, task)
  {
    forall task ensures task in RegisteredIds(TasksOf(w)) <==> Enters(w, task) { EntersIff(w, task); }
    forall task ensures TaskRaises(w, task) <==> FirstRaises(w, task) { FirstIff(w, task); }
    var ids := RegisteredIds(TasksOf(w));
    if only != "" {
      assert Stops(w, only) <==> only !in ids || TaskRaises(w, only) by { assert only in {only}; }
    }
  }

  predicate Enters(w: World, task: string) {
    exists k :: 0 <= k < |TasksOf(w)| && EntersAs(TasksOf(w)[k], task)
  }

  predicate EntersAs(e: TaskEntry, task: string) { e.Task? && e.id == Plain(task) && |task| > 0 && Given(e.title) }

  lemma EntersIff(w: World, task: string)
    ensures task in RegisteredIds(TasksOf(w)) <==> Enters(w, task)
  {
    if k :| 0 <= k < |TasksOf(w)| && Registers(TasksOf(w)[k]) && IdOf(TasksOf(w)[k]) == task {
      assert TasksOf(w)[k] in TasksOf(w);
    }
  }

  predicate FirstOf(w: World, task: string, j: nat)
    requires j < |NamesIn(w)|
  {
    && NameFor(NamesIn(w)[j], task, w) && forall i :: 0 <= i < j ==> !NameFor(NamesIn(w)[i], task, w)
  }

  predicate NameFor(n: string, task: string, w: World) { NameFine(n, w) && n[..6] == task }

  lemma FirstIff(w: World, task: string)
    ensures TaskRaises(w, task) <==> FirstRaises(w, task)
  {
    var names := NamesIn(w);
    var f := FirstPlace(names, task, w);
    if f < |names| { assert FirstOf(w, task, f); }
    forall j | 0 <= j < |names| && FirstOf(w, task, j) ensures j == f {}
  }

  lemma {:induction false} FirstPlace(names: seq<string>, task: string, w: World) returns (f: nat)
    ensures f <= |names| && forall i :: 0 <= i < f ==> !NameFor(names[i], task, w)
    ensures if f < |names| then NameFor(names[f], task, w) && FirstFor(names, task, w) == Some(names[f])
            else FirstFor(names, task, w).None?
  {
    f := 0;
    if names != [] {
      var n := |names| - 1;
      f := FirstPlace(names[..n], task, w);
      NameMeans(names[n], w);
      if f == n && !NameFor(names[n], task, w) { f := n + 1; }
    }
  }

  // ---- The report ----

  /** The file an entry is looked up by is named exactly after its id, as it is written. */
  predicate LooksUp(w: World, e: TaskEntry, name: string) {
    e.Task? && name == (match e.id case Plain(s) => s case Odd(_, _, _, _, written) => written case _ => "None")
                       + "-STATE.yaml"
  }

  /** The state the report sees for the entry. */
  predicate Sees(w: World, e: TaskEntry, s: StateFile) {
    exists name :: name in w.listing && name in w.contents && LooksUp(w, e, name) && s == w.contents[name] && s.State?
  }

  lemma SeesIff(w: World, e: TaskEntry)
    requires e.Task?
    ensures forall s :: Sees(w, e, s) <==> s == StateOf(w, e) && s.State?
  {
  }

  /** When the reporter succeeds. */
  lemma ReportMeans(w: World)
    ensures Reportable(w)
            <==> && w.manifest.Manifest? && (w.manifest.tasks.NoList? ==> w.manifest.tasks.empty)
                 && forall k :: 0 <= k < |TasksOf(w)| ==> var e := TasksOf(w)[k];
                      && e.Task? && !e.id.Absent? && (e.id.Odd? ==> e.id.hashable) && !e.title.Absent?
                      && exists s :: Sees(w, e, s) && !s.status.Absent?
                                     && !(s.status == Plain("BLOCKED") && s.blockedSince.Odd?
                                          && s.blockedSince.replaceRejects)
  {
    forall k | 0 <= k < |TasksOf(w)| && TasksOf(w)[k].Task?
      ensures forall s :: Sees(w, TasksOf(w)[k], s) <==> s == StateOf(w, TasksOf(w)[k]) && s.State?
    {
      SeesIff(w, TasksOf(w)[k]);
    }
    assert BLOCKED == Plain("BLOCKED");
  }

  predicate HasStatus(w: World, e: TaskEntry, status: Value) {
    StateOf(w, e).State? && StateOf(w, e).status == status
  }

  /** The places of the entries whose file has the status. */
  function PlacesOf(w: World, tasks: seq<TaskEntry>, status: Value): set<int> {
    set k | 0 <= k < |tasks| && HasStatus(w, tasks[k], status)
  }

  /** The counts are the numbers of those entries. */
  lemma {:induction false} CountMeans(w: World, tasks: seq<TaskEntry>, status: Value)
    ensures CountOf(w, tasks, status) == |PlacesOf(w, tasks, status)|
  {
    if tasks != [] {
      CountMeans(w, tasks[..|tasks| - 1], status);
      OneMorePlace(w, tasks, status);
    }
  }

  lemma OneMorePlace(w: World, tasks: seq<TaskEntry>, status: Value)
    requires tasks != []
    ensures var (n, before) := (|tasks| - 1, PlacesOf(w, tasks[..|tasks| - 1], status));
            && n !in before
            && PlacesOf(w, tasks, status) == before + if HasStatus(w, tasks[n], status) then {n} else {}
  {
  }

  /** The percentage is the nearest tenth, the even one of two equally near. */
  lemma TenthsMeans(done: nat, total: nat)
    requires total > 0
    ensures var off: int := 2 * Tenths(done, total) * total - 2000 * done;
            0 <= total + off <= 2 * total
            && (off == total || off + total == 0 ==> Tenths(done, total) % 2 == 0)
  {
    var (q, r) := ((1000 * done) / total, (1000 * done) % total);
    assert q * total + r == 1000 * done;
    if Tenths(done, total) == q {
      assert 2 * Tenths(done, total) * total == 2 * (q * total);
    } else {
      assert 2 * Tenths(done, total) * total == 2 * (q * total) + 2 * total;
    }
  }
}
