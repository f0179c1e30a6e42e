/** The completion guard of scripts/lr004_completion_guard.py. */
module CompletionGuard {
  import opened Wrappers
  import opened Text

  /** The value a YAML key holds: none, null, text, or anything else (numbers, dates, lists, bytes),
      of which it matters whether it is true, can be hashed or sliced, has a `replace` that rejects
      text, and how it is written. */
  datatype Value =
    | Absent
    | Null
    | Plain(s: string)
    | Odd(truthy: bool, hashable: bool, sliceable: bool, replaceRejects: bool, written: string)

  predicate Truthy(v: Value) { (v.Plain? && v.s != "") || (v.Odd? && v.truthy) }

  /** `get` gives None. */
  predicate Unset(v: Value) { v.Absent? || v.Null? }

  predicate Unhashable(v: Value) { v.Odd? && !v.hashable }

  /** `get` with a text as default, and then a slice. */
  predicate Slices(v: Value) { v.Absent? || v.Plain? || (v.Odd? && v.sliceable) }

  datatype TaskEntry = NotAMapping | Task(id: Value, title: Value, extraKeys: bool)

  /** `NoList` is a missing value or another than a list; a loop may find it empty. */
  datatype Tasks = NoList(empty: bool) | List(entries: seq<TaskEntry>)

  /** `Broken` is unparsable or no mapping. */
  datatype ManifestFile = NoFile | Broken | Manifest(version: Value, tasks: Tasks)

  datatype StateFile =
    | NotReadable
    | State(version: Value, id: Value, title: Value, status: Value,
            completedAt: Value, completedBy: Value,
            reasonCode: Value, reasonText: Value, blockedSince: Value,
            evidenceFile: Value, evidenceCommit: Value)

  /** The files: the directory listing, what the state files hold, the evidence paths that exist.
      `otherDigits` are the digits beyond ASCII that the patterns' digit class accepts. */
  datatype World = World(
    manifest: ManifestFile, hasDir: bool, listing: seq<string>, contents: map<string, StateFile>,
    evidence: set<string>, otherDigits: set<char>)

  datatype Error = Error(task: string, rule: string)

  const VERSION := Plain("1.0")
  const DONE := Plain("DONE")
  const BLOCKED := Plain("BLOCKED")
  const SUFFIX := "-STATE.yaml"
  const REASON_CODES := {
    "RC_B001", "RC_B002", "RC_B003", "RC_B100", "RC_B101", "RC_B102", "RC_B200", "RC_B201", "RC_B202",
    "RC_B300", "RC_B301", "RC_B302", "RC_B400", "RC_B401", "RC_B402"}

  // ---- Patterns ----

  predicate Digit(c: char, w: World) { '0' <= c <= '9' || c in w.otherDigits }

  /** `LR-` and three digits. */
  predicate IdShaped(id: string, w: World) {
    |id| == 6 && id[..3] == "LR-" && forall i :: 3 <= i < 6 ==> Digit(id[i], w)
  }

  /** The manifest's pattern ends in `$`, which also matches before a final line break. */
  predicate TaskIdMatches(id: string, w: World) {
    IdShaped(id, w) || (|id| == 7 && id[6] == '\n' && IdShaped(id[..6], w))
  }

  /** The pattern for file names is not anchored at the end. */
  predicate NameMatches(name: string, w: World) {
    |name| >= 17 && IdShaped(name[..6], w) && name[6..17] == SUFFIX
  }

  predicate Globbed(name: string) {
    |name| >= 14 && name[..3] == "LR-" && name[|name| - 11..] == SUFFIX
  }

  /** The task a file name starts with. */
  function Key(name: string): string { if |name| >= 6 then name[..6] else name }

  function KeysOf(names: seq<string>): seq<string> {
    seq(|names|, i requires 0 <= i < |names| => Key(names[i]))
  }

  function GlobList(names: seq<string>): seq<string> {
    if names == [] then []
    else GlobList(names[..|names| - 1]) + if Globbed(names[|names| - 1]) then [names[|names| - 1]] else []
  }

  predicate FollowsPattern(s: string, pattern: string, w: World) {
    |s| == |pattern| && forall i :: 0 <= i < |s| ==> if pattern[i] == '0' then Digit(s[i], w) else s[i] == pattern[i]
  }

  predicate IsoUtc(v: Value, w: World) {
    v.Plain? && var p := "0000-00-00T00:00:00Z"; FollowsPattern(v.s, p, w) || FollowsPattern(v.s, p + "\n", w)
  }

  predicate CommitDigit(c: char) { '0' <= c <= '9' || 'a' <= c <= 'f' || 'A' <= c <= 'F' }

  predicate HexCommit(v: Value) {
    && v.Plain? && 7 <= |v.s| <= 40
    && (forall i :: 0 <= i < |v.s| - 1 ==> CommitDigit(v.s[i]))
    && (CommitDigit(v.s[|v.s| - 1]) || v.s[|v.s| - 1] == '\n')
  }

  // ---- What is valid ----

  predicate Raises(e: TaskEntry) { e.Task? && e.id.Odd? && Truthy(e.id) && Truthy(e.title) }

  predicate EntryValid(e: TaskEntry, w: World) {
    && e.Task? && !e.extraKeys
    && e.id.Plain? && TaskIdMatches(e.id.s, w)
    && e.title.Plain? && 1 <= |e.title.s| <= 200
  }

  /** The entry enters the registry: it has an id and a title, good or bad. */
  predicate Registers(e: TaskEntry) { e.Task? && e.id.Plain? && Truthy(e.id) && Truthy(e.title) }

  function RegisteredIds(tasks: seq<TaskEntry>): set<string> { set e | e in tasks && Registers(e) :: IdOf(e) }

  function IdOf(e: TaskEntry): string { if e.Task? && e.id.Plain? then e.id.s else "" }

  function TitleOf(e: TaskEntry): Value { if e.Task? then e.title else Null }

  function IdsOf(tasks: seq<TaskEntry>): seq<string> {
    seq(|tasks|, i requires 0 <= i < |tasks| => IdOf(tasks[i]))
  }

  /** Well-formed entries whose ids ascend strictly. */
  predicate TasksValid(tasks: seq<TaskEntry>, w: World) {
    (forall i :: 0 <= i < |tasks| ==> EntryValid(tasks[i], w)) && Ascending(IdsOf(tasks))
  }

  /** Names that all match, no two of them for the same task. */
  predicate NamesValid(names: seq<string>, w: World) {
    && (forall i :: 0 <= i < |names| ==> NameMatches(names[i], w))
    && (forall i, j :: 0 <= i < j < |names| ==> Key(names[i]) != Key(names[j]))
  }

  predicate DoneComplete(s: StateFile, w: World)
    requires s.State?
  {
    && IsoUtc(s.completedAt, w) && Truthy(s.completedBy)
    && Unset(s.reasonCode) && Unset(s.reasonText) && Unset(s.blockedSince)
  }

  predicate BlockedComplete(s: StateFile, w: World)
    requires s.State?
  {
    && s.reasonCode.Plain? && s.reasonCode.s in REASON_CODES && Truthy(s.reasonText) && IsoUtc(s.blockedSince, w)
    && Unset(s.completedAt) && Unset(s.completedBy)
  }

  predicate EvidenceFound(v: Value, w: World) {
    v.Plain? && v.s != "" && v.s[0] != '/' && !Contains(v.s, "..") && v.s in w.evidence
  }

  predicate EvidenceComplete(s: StateFile, w: World)
    requires s.State?
  {
    EvidenceFound(s.evidenceFile, w) && HexCommit(s.evidenceCommit)
  }

  predicate StateValid(task: string, title: Value, s: StateFile, w: World) {
    && s.State? && s.version == VERSION && s.id == Plain(task) && (Truthy(title) ==> s.title == title)
    && (s.status == DONE || s.status == BLOCKED)
    && (if s.status == DONE then DoneComplete(s, w) else BlockedComplete(s, w))
    && EvidenceComplete(s, w)
  }

  /** Checking the file raises: on a status or a reason code that cannot be looked up, or on an
      evidence path that is no text. */
  predicate CheckRaises(s: StateFile) {
    && s.State?
    && (|| Unhashable(s.status)
        || (s.status == BLOCKED && Unhashable(s.reasonCode) && s.reasonCode.truthy)
        || ((s.status == DONE || s.status == BLOCKED) && s.evidenceFile.Odd? && s.evidenceFile.truthy))
  }

  /** So does showing it, where the text to be cut is null or cannot be cut. */
  predicate StateRaises(s: StateFile) {
    || CheckRaises(s)
    || (s.State? && s.status == DONE && !Slices(s.completedAt))
    || (s.State? && s.status == BLOCKED && !Slices(s.reasonText))
  }

  function Content(w: World, name: string): StateFile {
    if name in w.contents then w.contents[name] else NotReadable
  }

  /** One entry more keeps the list valid if it is valid itself and follows the last one; it is
      then new. */
  lemma TasksValidLater(tasks: seq<TaskEntry>, e: TaskEntry, w: World)
    ensures TasksValid(tasks + [e], w)
            <==> && TasksValid(tasks, w) && EntryValid(e, w)
                 && (tasks != [] ==> Before(IdsOf(tasks)[|tasks| - 1], IdOf(e)))
    ensures TasksValid(tasks + [e], w) ==> IdOf(e) !in IdsOf(tasks)
    ensures IdsOf(tasks + [e]) == IdsOf(tasks) + [IdOf(e)]
  {
    AscendingLater(IdsOf(tasks), IdOf(e));
    assert IdsOf(tasks + [e]) == IdsOf(tasks) + [IdOf(e)];
    assert (forall i :: 0 <= i < |tasks + [e]| ==> EntryValid((tasks + [e])[i], w))
        <==> (forall i :: 0 <= i < |tasks| ==> EntryValid(tasks[i], w)) && EntryValid(e, w) by {
      assert forall i :: 0 <= i < |tasks| ==> (tasks + [e])[i] == tasks[i];
      assert (tasks + [e])[|tasks|] == e;
    }
  }

  /** What the guard knows after a list of entries. */
  predicate Registered(clean: bool, ids: seq<string>, titles: map<string, Value>, tasks: seq<TaskEntry>, w: World) {
    && (clean <==> TasksValid(tasks, w))
    && (clean ==> ids == IdsOf(tasks) && titles.Keys == Elements(ids)
                  && forall k :: 0 <= k < |tasks| ==> titles[ids[k]] == TitleOf(tasks[k]))
  }

  lemma RegisteredLater(clean: bool, ids: seq<string>, titles: map<string, Value>, tasks: seq<TaskEntry>,
      e: TaskEntry, w: World)
    requires Registered(clean, ids, titles, tasks, w)
    ensures var fine := clean && EntryValid(e, w) && IdOf(e) !in titles
              && (tasks != [] ==> Before(IdsOf(tasks)[|tasks| - 1], IdOf(e)));
            Registered(fine, ids + [IdOf(e)], titles[IdOf(e) := TitleOf(e)], tasks + [e], w)
  {
    TasksValidLater(tasks, e, w);
    if TasksValid(tasks + [e], w) {
      var ids2 := ids + [IdOf(e)];
      ElementsLater(ids, IdOf(e));
      assert forall k :: 0 <= k < |tasks| ==> (tasks + [e])[k] == tasks[k] && ids2[k] == ids[k] && ids[k] in ids;
    }
  }

  /** What the guard knows after `tasks`, the last registered id among it. */
  predicate Follows(clean: bool, ids: seq<string>, titles: map<string, Value>, last: Option<string>,
      tasks: seq<TaskEntry>, w: World)
  {
    && Registered(clean, ids, titles, tasks, w)
    && Elements(ids) == titles.Keys == RegisteredIds(tasks)
    && (clean ==> last == if tasks == [] then None else Some(IdOf(tasks[|tasks| - 1])))
  }

  lemma FollowsMeans(clean: bool, ids: seq<string>, titles: map<string, Value>, last: Option<string>,
      tasks: seq<TaskEntry>, w: World)
    requires Follows(clean, ids, titles, last, tasks, w)
    ensures Registered(clean, ids, titles, tasks, w) && Elements(ids) == titles.Keys == RegisteredIds(tasks)
  {
  }

  /** No error on an entry that follows. */
  predicate Accepts(titles: map<string, Value>, last: Option<string>, e: TaskEntry, w: World) {
    EntryValid(e, w) && e.id.s !in titles && (last.Some? ==> Before(last.value, e.id.s))
  }

  lemma FollowsLater(clean: bool, ids: seq<string>, titles: map<string, Value>, last: Option<string>,
      tasks: seq<TaskEntry>, e: TaskEntry, w: World)
    requires Follows(clean, ids, titles, last, tasks, w)
    ensures var next := if Registers(e) then Some(IdOf(e)) else last;
            var enters := Registers(e) && IdOf(e) !in titles;
            Follows(clean && Accepts(titles, last, e, w), if enters then ids + [IdOf(e)] else ids,
                    if enters then titles[IdOf(e) := TitleOf(e)] else titles, next, tasks + [e], w)
  {
    RegisteredLater(clean, ids, titles, tasks, e, w);
    EntersLater(ids, titles, tasks, e);
    AcceptsIff(clean, ids, titles, last, tasks, e, w);
    assert (tasks + [e])[|tasks + [e]| - 1] == e;
  }

  lemma EntersLater(ids: seq<string>, titles: map<string, Value>, tasks: seq<TaskEntry>, e: TaskEntry)
    requires Elements(ids) == titles.Keys == RegisteredIds(tasks)
    ensures var enters := Registers(e) && IdOf(e) !in titles;
            Elements(if enters then ids + [IdOf(e)] else ids)
            == (if enters then titles[IdOf(e) := TitleOf(e)] else titles).Keys == RegisteredIds(tasks + [e])
  {
    RegisteredIdsLater(tasks, e);
    ElementsLater(ids, IdOf(e));
  }

  /** Without an error so far, the last id is the one of the last entry. */
  lemma AcceptsIff(clean: bool, ids: seq<string>, titles: map<string, Value>, last: Option<string>,
      tasks: seq<TaskEntry>, e: TaskEntry, w: World)
    requires Follows(clean, ids, titles, last, tasks, w)
    ensures clean && Accepts(titles, last, e, w)
            <==> && clean && EntryValid(e, w) && IdOf(e) !in titles
                 && (tasks != [] ==> Before(IdsOf(tasks)[|tasks| - 1], IdOf(e)))
    ensures Accepts(titles, last, e, w) ==> Registers(e) && IdOf(e) !in titles
  {
  }

  lemma RegisteredIdsLater(tasks: seq<TaskEntry>, e: TaskEntry)
    ensures RegisteredIds(tasks + [e]) == RegisteredIds(tasks) + if Registers(e) then {IdOf(e)} else {}
  {
    assert forall x :: x in tasks + [e] <==> x in tasks || x == e;
  }

  lemma AscendingLater(ids: seq<string>, id: string)
    ensures Ascending(ids + [id]) <==> Ascending(ids) && (ids != [] ==> Before(ids[|ids| - 1], id))
    ensures Ascending(ids + [id]) ==> id !in ids
  {
    var longer := ids + [id];
    assert longer[|ids|] == id && forall i :: 0 <= i < |ids| ==> longer[i] == ids[i];
    BeforeIrreflexive(id);
    if Ascending(ids) && ids != [] && Before(ids[|ids| - 1], id) {
      forall i | 0 <= i < |ids| - 1 ensures Before(ids[i], id) { BeforeTransitive(ids[i], ids[|ids| - 1], id); }
    }
  }

  /** What the guard knows after a list of file names. */
  predicate Scanned(clean: bool, found: seq<string>, files: map<string, string>, names: seq<string>, w: World) {
    && (clean <==> NamesValid(names, w))
    && (clean ==> found == KeysOf(names) && files.Keys == Elements(found)
                  && forall i :: 0 <= i < |names| ==> files[found[i]] == names[i])
  }

  lemma ScannedLater(clean: bool, found: seq<string>, files: map<string, string>, names: seq<string>, name: string,
      w: World)
    requires Scanned(clean, found, files, names, w)
    ensures if clean && NameMatches(name, w) && name[..6] !in files
            then Scanned(true, found + [name[..6]], files[name[..6] := name], names + [name], w)
            else !NamesValid(names + [name], w)
  {
    NamesValidLater(names, name, w);
    if clean {
      assert forall k :: k in files <==> k in Elements(found);
      if NameMatches(name, w) && name[..6] !in files {
        FilesLater(found, files, names, name);
      }
    }
  }

  /** The file that the scan keeps for a task: of the matching names, the first one with its key. */
  function FirstFor(names: seq<string>, task: string, w: World): Option<string> {
    if names == [] then None
    else
      var (earlier, last) := (FirstFor(names[..|names| - 1], task, w), names[|names| - 1]);
      if earlier.None? && NameMatches(last, w) && Key(last) == task then Some(last) else earlier
  }

  /** The registry of files after a list of names, good or bad. */
  ghost predicate Filed(files: map<string, string>, names: seq<string>, w: World) {
    forall task :: FirstFor(names, task, w) == if task in files then Some(files[task]) else None
  }

  lemma FiledLater(files: map<string, string>, names: seq<string>, name: string, w: World)
    requires Filed(files, names, w)
    ensures var add := NameMatches(name, w) && Key(name) !in files;
            Filed(if add then files[Key(name) := name] else files, names + [name], w)
  {
    assert (names + [name])[..|names|] == names;
  }

  lemma NamesValidLater(names: seq<string>, name: string, w: World)
    ensures NamesValid(names + [name], w)
            <==> NamesValid(names, w) && NameMatches(name, w) && Key(name) !in Elements(KeysOf(names))
  {
    var longer := names + [name];
    assert longer[|names|] == name && forall i :: 0 <= i < |names| ==> longer[i] == names[i];
    assert forall i :: 0 <= i < |names| ==> KeysOf(names)[i] == Key(names[i]);
    if NamesValid(longer, w) {
      assert forall i :: 0 <= i < |names| ==> Key(longer[i]) != Key(longer[|names|]);
    }
    if NamesValid(names, w) && NameMatches(name, w) && Key(name) !in Elements(KeysOf(names)) {
      forall i | 0 <= i < |names|
        ensures Key(names[i]) != Key(name)
      {
        assert KeysOf(names)[i] in Elements(KeysOf(names));
      }
    }
  }

  lemma FilesLater(found: seq<string>, files: map<string, string>, names: seq<string>, name: string)
    requires found == KeysOf(names) && files.Keys == Elements(found) && Key(name) !in files
    requires forall i :: 0 <= i < |names| ==> files[found[i]] == names[i]
    ensures var (more, longer) := (found + [Key(name)], files[Key(name) := name]);
            && more == KeysOf(names + [name]) && longer.Keys == Elements(more)
            && forall i :: 0 <= i < |names + [name]| ==> longer[more[i]] == (names + [name])[i]
  {
    ElementsLater(found, Key(name));
    assert forall i :: 0 <= i < |found| ==> found[i] in Elements(found);
  }

  lemma ElementsLater(xs: seq<string>, x: string)
    ensures Elements(xs + [x]) == Elements(xs) + {x}
  {
    forall y ensures y in Elements(xs + [x]) <==> y in Elements(xs) + {x} {}
  }

  lemma IsoIsText(v: Value, w: World)
    requires IsoUtc(v, w)
    ensures Truthy(v)
  {
  }

  // ---- The guard ----

  class CompletionGuard {
    var errors: seq<Error>
    var ids: seq<string>
    var titles: map<string, Value>
    var found: seq<string>
    var files: map<string, string>
    var blocked: seq<(string, bool)>

    constructor ()
      ensures errors == [] && ids == [] && titles == map[] && found == [] && files == map[] && blocked == []
    {
      errors, ids, titles, found, files, blocked := [], [], map[], [], map[], [];
    }

    method AddError(task: string, rule: string)
      modifies this`errors
      ensures errors == old(errors) + [Error(task, rule)]
    {
      errors := errors + [Error(task, rule)];
    }

    /** False where an id that is not text makes the pattern raise. */
    method RegisterTasks(tasks: seq<TaskEntry>, w: World) returns (ok: bool)
      requires errors == [] && ids == [] && titles == map[]
      modifies this`errors, this`ids, this`titles
      ensures ok <==> forall e :: e in tasks ==> !Raises(e)
      ensures ok ==> Registered(errors == [], ids, titles, tasks, w)
      ensures ok ==> Elements(ids) == titles.Keys == RegisteredIds(tasks)
    {
      var last: Option<string> := None;
      var i := 0;
      assert tasks[..0] == [];
      while i < |tasks|
        invariant 0 <= i <= |tasks| && forall k :: 0 <= k < i ==> !Raises(tasks[k])
        invariant Follows(errors == [], ids, titles, last, tasks[..i], w)
      {
        if Raises(tasks[i]) {
          assert tasks[i] in tasks;
          return false;
        }
        last := RegisterNext(tasks[..i], tasks[i], last, w);
        assert tasks[..i + 1] == tasks[..i] + [tasks[i]];
        i := i + 1;
      }
      assert tasks[..i] == tasks;
      assert forall e :: e in tasks ==> !Raises(e);
      FollowsMeans(errors == [], ids, titles, last, tasks, w);
      ok := true;
    }

    method RegisterNext(ghost tasks: seq<TaskEntry>, e: TaskEntry, last: Option<string>, w: World)
      returns (next: Option<string>)
      requires Follows(errors == [], ids, titles, last, tasks, w) && !Raises(e)
      modifies this`errors, this`ids, this`titles
      ensures Follows(errors == [], ids, titles, next, tasks + [e], w)
    {
      RegisterTask(e, last, w);
      next := if e.Task? && Truthy(e.id) && Truthy(e.title) then Some(e.id.s) else last;
      assert errors == [] <==> old(errors) == [] && errors == old(errors);
      FollowsLater(old(errors) == [], old(ids), old(titles), last, tasks, e, w);
    }

    method RegisterTask(e: TaskEntry, last: Option<string>, w: World)
      requires !Raises(e)
      modifies this`errors, this`ids, this`titles
      ensures old(errors) <= errors
      ensures errors == old(errors) <==> Accepts(old(titles), last, e, w)
      ensures var enters := Registers(e) && IdOf(e) !in old(titles);
              && ids == (if enters then old(ids) + [IdOf(e)] else old(ids))
              && titles == if enters then old(titles)[IdOf(e) := TitleOf(e)] else old(titles)
    {
      if e.NotAMapping? { AddError("MANIFEST", "V002"); return; }
      if e.extraKeys { AddError("MANIFEST", "V002"); }
      if !Truthy(e.id) || !Truthy(e.title) { AddError("MANIFEST", "V002"); return; }
      var id := e.id.s;
      CheckFormat(id, e.title, w);
      Enter(id, e.title);
      if last.Some? && !Before(last.value, id) { AddError("MANIFEST", "V002"); }
    }

    method CheckFormat(id: string, title: Value, w: World)
      modifies this`errors
      ensures old(errors) <= errors
      ensures errors == old(errors) <==> TaskIdMatches(id, w) && title.Plain? && 1 <= |title.s| <= 200
    {
      if !TaskIdMatches(id, w) { AddError("MANIFEST", "V002"); }
      if !title.Plain? || |title.s| == 0 {
        AddError("MANIFEST", "V002");
      } else if |title.s| > 200 {
        AddError("MANIFEST", "V002");
      }
    }

    method Enter(id: string, title: Value)
      modifies this`errors, this`ids, this`titles
      ensures old(errors) <= errors
      ensures errors == old(errors) <==> id !in old(titles)
      ensures ids == if id in old(titles) then old(ids) else old(ids) + [id]
      ensures titles == if id in old(titles) then old(titles) else old(titles)[id := title]
    {
      if id in titles {
        AddError("MANIFEST", "V002");
      } else {
        ids := ids + [id];
        titles := titles[id := title];
      }
    }

    method ScanStateFiles(w: World)
      requires found == [] && files == map[]
      modifies this`errors, this`found, this`files
      ensures old(errors) <= errors
      ensures errors == old(errors) ==> w.hasDir
      ensures w.hasDir ==> Scanned(errors == old(errors), found, files, GlobList(w.listing), w)
      ensures Filed(files, NamesIn(w), w)
    {
      if !w.hasDir { AddError("SCAN", "V003"); return; }
      var names := GlobList(w.listing);
      var i := 0;
      while i < |names|
        invariant 0 <= i <= |names| && old(errors) <= errors
        invariant Scanned(errors == old(errors), found, files, names[..i], w) && Filed(files, names[..i], w)
      {
        ghost var before := errors;
        ScanName(names[..i], names[i], before == old(errors), w);
        assert names[..i + 1] == names[..i] + [names[i]];
        assert errors == old(errors) <==> before == old(errors) && errors == before;
        i := i + 1;
      }
      assert names[..i] == names;
    }

    method ScanName(ghost names: seq<string>, name: string, ghost clean: bool, w: World)
      requires Scanned(clean, found, files, names, w) && Filed(files, names, w)
      modifies this`errors, this`found, this`files
      ensures old(errors) <= errors
      ensures Scanned(clean && errors == old(errors), found, files, names + [name], w)
      ensures Filed(files, names + [name], w)
    {
      ScannedLater(clean, found, files, names, name, w);
      FiledLater(files, names, name, w);
      if !NameMatches(name, w) {
        AddError("UNKNOWN", "V004");
      } else if name[..6] in files {
        AddError(name[..6], "V005");
      } else {
        found := found + [name[..6]];
        files := files[name[..6] := name];
      }
    }

    method CheckPresent(keys: seq<string>, present: set<string>, rule: string)
      modifies this`errors
      ensures old(errors) <= errors
      ensures errors == old(errors) <==> Elements(keys) <= present
    {
      var i := 0;
      while i < |keys|
        invariant 0 <= i <= |keys| && old(errors) <= errors
        invariant errors == old(errors) <==> forall k :: 0 <= k < i ==> keys[k] in present
      {
        if keys[i] !in present { AddError(keys[i], rule); }
        i := i + 1;
      }
      assert forall k :: 0 <= k < |keys| ==> keys[k] in Elements(keys);
    }

    method CrossValidate()
      modifies this`errors
      ensures old(errors) <= errors
      ensures errors == old(errors) <==> Elements(ids) <= files.Keys && Elements(found) <= titles.Keys
    {
      CheckPresent(ids, files.Keys, "V003");
      ghost var middle := errors;
      CheckPresent(found, titles.Keys, "V004");
      assert errors == old(errors) ==> |middle| == |errors| && middle == old(errors);
    }

    method CheckFields(task: string, rule: string, fields: seq<Value>, required: bool)
      modifies this`errors
      ensures old(errors) <= errors
      ensures errors == old(errors)
              <==> forall k :: 0 <= k < |fields| ==> if required then Truthy(fields[k]) else Unset(fields[k])
    {
      var i := 0;
      while i < |fields|
        invariant 0 <= i <= |fields| && old(errors) <= errors
        invariant errors == old(errors) <==> forall k :: 0 <= k < i ==>
                   if required then Truthy(fields[k]) else Unset(fields[k])
      {
        if required && !Truthy(fields[i]) { AddError(task, rule); }
        if !required && !Unset(fields[i]) { AddError(task, rule); }
        i := i + 1;
      }
    }

    method CheckDone(task: string, s: StateFile, w: World)
      requires s.State?
      modifies this`errors
      ensures old(errors) <= errors
      ensures errors == old(errors) <==> DoneComplete(s, w)
    {
      var required, forbidden := [s.completedAt, s.completedBy], [s.reasonCode, s.reasonText, s.blockedSince];
      assert required[0] == s.completedAt && required[1] == s.completedBy;
      assert forbidden[0] == s.reasonCode && forbidden[1] == s.reasonText && forbidden[2] == s.blockedSince;
      if IsoUtc(s.completedAt, w) { IsoIsText(s.completedAt, w); }
      CheckFields(task, "V010", required, true);
      CheckFields(task, "V010", forbidden, false);
      if Truthy(s.completedAt) && !IsoUtc(s.completedAt, w) { AddError(task, "V012"); }
    }

    method CheckBlocked(task: string, s: StateFile, w: World)
      requires s.State?
      modifies this`errors
      ensures old(errors) <= errors
      ensures errors == old(errors) <==> BlockedComplete(s, w)
    {
      var required, forbidden := [s.reasonCode, s.reasonText, s.blockedSince], [s.completedAt, s.completedBy];
      assert required[0] == s.reasonCode && required[1] == s.reasonText && required[2] == s.blockedSince;
      assert forbidden[0] == s.completedAt && forbidden[1] == s.completedBy;
      if IsoUtc(s.blockedSince, w) { IsoIsText(s.blockedSince, w); }
      CheckFields(task, "V011", required, true);
      CheckFields(task, "V011", forbidden, false);
      if Truthy(s.reasonCode) && !(s.reasonCode.Plain? && s.reasonCode.s in REASON_CODES) { AddError(task, "V013"); }
      if Truthy(s.blockedSince) && !IsoUtc(s.blockedSince, w) { AddError(task, "V012"); }
    }

    method CheckEvidence(task: string, s: StateFile, w: World)
      requires s.State?
      modifies this`errors
      ensures old(errors) <= errors
      ensures errors == old(errors) <==> EvidenceComplete(s, w)
    {
      if !EvidenceFound(s.evidenceFile, w) { AddError(task, "V014"); }
      if !HexCommit(s.evidenceCommit) { AddError(task, "V015"); }
    }

    method CheckIdentity(task: string, s: StateFile)
      requires s.State?
      modifies this`errors
      ensures old(errors) <= errors
      ensures errors == old(errors)
              <==> && s.version == VERSION && s.id == Plain(task)
                   && (task in titles && Truthy(titles[task]) ==> s.title == titles[task])
    {
      if s.version != VERSION { AddError(task, "V006"); }
      if s.id != Plain(task) { AddError(task, "V007"); }
      if task in titles && Truthy(titles[task]) && s.title != titles[task] { AddError(task, "V008"); }
    }

    /** The blocked list keeps every blocked task, with errors or without. */
    method ValidateStateFile(task: string, s: StateFile, w: World) returns (raised: bool)
      requires task in titles
      modifies this`errors, this`blocked
      ensures old(errors) <= errors
      ensures raised <==> CheckRaises(s)
      ensures errors == old(errors) && !raised <==> StateValid(task, titles[task], s, w)
      ensures !raised && s.State? && s.status == BLOCKED ==>
                |blocked| == |old(blocked)| + 1 && blocked[|old(blocked)|].0 == task
      ensures !(s.State? && s.status == BLOCKED) ==> blocked == old(blocked)
      ensures old(blocked) <= blocked
    {
      if s.NotReadable? { AddError(task, "V006"); return false; }
      CheckIdentity(task, s);
      if Unhashable(s.status) { return true; }
      if s.status != DONE && s.status != BLOCKED { AddError(task, "V009"); return false; }
      if s.status == DONE {
        CheckDone(task, s, w);
      } else {
        if Unhashable(s.reasonCode) && s.reasonCode.truthy { return true; }
        CheckBlocked(task, s, w);
        blocked := blocked + [(task, exists e :: e in errors && e.task == task)];
      }
      if s.evidenceFile.Odd? && s.evidenceFile.truthy { return true; }
      CheckEvidence(task, s, w);
      raised := false;
    }

    /** `validate_manifest`: None where it raises. */
    method ValidateManifest(w: World) returns (ok: Option<bool>)
      requires errors == [] && ids == [] && titles == map[]
      modifies this`errors, this`ids, this`titles
      ensures ok == Some(true) && errors == [] <==> ManifestValid(w)
      ensures ok == Some(true) ==> Mapped(w) && Registered(errors == [], ids, titles, TasksOf(w), w)
      ensures ok.None? <==> ManifestRaises(w)
      ensures ok == Some(true) <==> Begins(w)
      ensures ok == Some(true) ==> Elements(ids) == titles.Keys == RegisteredIds(TasksOf(w))
    {
      if w.manifest.NoFile? { AddError("MANIFEST", "V000"); return Some(false); }
      if w.manifest.Broken? || w.manifest.version != VERSION || w.manifest.tasks.NoList? {
        AddError("MANIFEST", "V001");
        return Some(false);
      }
      var fine := RegisterTasks(w.manifest.tasks.entries, w);
      if !fine {
        assert forall e :: e in TasksOf(w) && Raises(e) ==> !EntryValid(e, w);
        return None;
      }
      EmptyElements(ids);
      ok := Some(|ids| > 0);
    }

    /** Steps 1 to 3: None where the manifest raises, false where it ends the check. */
    method Prepare(w: World) returns (ok: Option<bool>)
      requires errors == [] && ids == [] && titles == map[] && found == [] && files == map[]
      modifies this`errors, this`ids, this`titles, this`found, this`files
      ensures ok == Some(true) && errors == [] <==> Prepared(w)
      ensures ok.None? <==> ManifestRaises(w)
      ensures ok == Some(true) <==> Begins(w)
      ensures ok == Some(true) ==>
                Elements(ids) == titles.Keys == RegisteredIds(TasksOf(w)) && Filed(files, NamesIn(w), w)
      ensures ok == Some(true) && errors == [] ==>
                && Registered(true, ids, titles, TasksOf(w), w)
                && Scanned(true, found, files, GlobList(w.listing), w)
    {
      ok := ValidateManifest(w);
      if ok != Some(true) { return; }
      ghost var clean := errors == [];
      ScanStateFiles(w);
      ghost var scanned := errors;
      CrossValidate();
      assert errors == [] ==> scanned == [] && clean;
    }

    /** One task of step 4. */
    method CheckTask(task: string, w: World) returns (raised: bool, status: Value)
      requires task in titles
      modifies this`errors, this`blocked
      ensures old(errors) <= errors
      ensures raised <==> task in files && StateRaises(Content(w, files[task]))
      ensures task in files && !raised ==> (errors == old(errors) <==> FileValid(task, titles, files, w))
      ensures FileValid(task, titles, files, w) && !raised ==> status == DONE || status == BLOCKED
      ensures !raised ==> forall v :: v == DONE || v == BLOCKED ==> (status == v <==> Shows(task, files, w, v))
    {
      raised, status := false, Null;
      if task !in files { return; }
      var s := Content(w, files[task]);
      raised := ValidateStateFile(task, s, w);
      if raised || s.NotReadable? { return; }
      status := s.status;
      raised := (s.status == DONE && !Slices(s.completedAt)) || (s.status == BLOCKED && !Slices(s.reasonText));
    }

    /** Step 4: false where a task is unknown or the check of one raises. */
    method CheckTasks(todo: seq<string>, w: World) returns (ok: bool, done: nat, stuck: nat)
      modifies this`errors, this`blocked
      ensures old(errors) <= errors
      ensures !ok <==> StopsAt(todo, titles, files, w)
      ensures ok && titles.Keys <= files.Keys ==> (errors == old(errors) <==> TodoValid(todo, titles, files, w))
      ensures ok && TodoValid(todo, titles, files, w) ==> done + stuck == |todo|
      ensures ok ==> done == Tally(todo, files, w, DONE) && stuck == Tally(todo, files, w, BLOCKED)
    {
      done, stuck := 0, 0;
      var i := 0;
      while i < |todo|
        invariant 0 <= i <= |todo| && titles == old(titles) && files == old(files) && old(errors) <= errors
        invariant !StopsAt(todo[..i], titles, files, w)
        invariant titles.Keys <= files.Keys ==> (errors == old(errors) <==> TodoValid(todo[..i], titles, files, w))
        invariant TodoValid(todo[..i], titles, files, w) ==> done + stuck == i
        invariant done == Tally(todo[..i], files, w, DONE) && stuck == Tally(todo[..i], files, w, BLOCKED)
      {
        TodoLater(todo, i, titles, files, w);
        assert todo[..i + 1][..i] == todo[..i];
        if todo[i] !in titles { return false, done, stuck; }
        var raised, status := CheckTask(todo[i], w);
        if raised { return false, done, stuck; }
        if status == DONE { done := done + 1; } else if status == BLOCKED { stuck := stuck + 1; }
        i := i + 1;
      }
      assert todo[..i] == todo;
      ok := true;
    }

    /** `validate_all` under `main`, which turns an exception into code 2: the exit code, and how many
        tasks it reports done and blocked. */
    method ValidateAll(w: World, only: string) returns (code: int, done: nat, stuck: nat)
      requires errors == [] && ids == [] && titles == map[] && found == [] && files == map[] && blocked == []
      modifies this
      ensures code == 0 || code == 1 || code == 2
      ensures code == 0 <==> ValidFor(w, only) && !Stops(w, only)
      ensures code == 2 <==> ManifestRaises(w) || (Begins(w) && Stops(w, only))
      ensures code == 0 && only == "" ==> done + stuck == |TasksOf(w)|
      ensures code == 0 && only == "" ==>
                done == KeptWith(w, IdsOf(TasksOf(w)), DONE) && stuck == KeptWith(w, IdsOf(TasksOf(w)), BLOCKED)
    {
      done, stuck := 0, 0;
      var prepared := Prepare(w);
      if prepared.None? { return 2, 0, 0; }
      if !prepared.value { return 1, 0, 0; }
      var todo := if only != "" then [only] else ids;
      StopsIff(w, only, todo, ids, titles, files);
      if errors == [] { ValidForIff(w, only, todo, ids, titles, found, files); }
      var ok;
      ok, done, stuck := CheckTasks(todo, w);
      TallyKept(w, todo, files, DONE);
      TallyKept(w, todo, files, BLOCKED);
      code := if !ok then 2 else if errors != [] then 1 else 0;
    }
  }

  /** The file registered for the task has the status. */
  predicate Shows(task: string, files: map<string, string>, w: World, status: Value) {
    task in files && Content(w, files[task]).State? && Content(w, files[task]).status == status
  }

  function Tally(todo: seq<string>, files: map<string, string>, w: World, status: Value): nat {
    if todo == [] then 0
    else Tally(todo[..|todo| - 1], files, w, status) + if Shows(todo[|todo| - 1], files, w, status) then 1 else 0
  }

  /** How many of the tasks have a first matching file with the status. */
  function KeptWith(w: World, ids: seq<string>, status: Value): nat {
    if ids == [] then 0
    else
      var kept := FirstFor(NamesIn(w), ids[|ids| - 1], w);
      KeptWith(w, ids[..|ids| - 1], status)
      + if kept.Some? && Content(w, kept.value).State? && Content(w, kept.value).status == status then 1 else 0
  }

  lemma {:induction false} TallyKept(w: World, ids: seq<string>, files: map<string, string>, status: Value)
    requires Filed(files, NamesIn(w), w)
    ensures Tally(ids, files, w, status) == KeptWith(w, ids, status)
  {
    if ids != [] {
      TallyKept(w, ids[..|ids| - 1], files, status);
      assert FirstFor(NamesIn(w), ids[|ids| - 1], w)
          == if ids[|ids| - 1] in files then Some(files[ids[|ids| - 1]]) else None;
    }
  }

  /** The task is registered, has a file, and that file is complete. */
  predicate FileValid(task: string, titles: map<string, Value>, files: map<string, string>, w: World) {
    task in titles && task in files && StateValid(task, titles[task], Content(w, files[task]), w)
  }

  /** Some entry makes the pattern raise. */
  predicate ManifestRaises(w: World) {
    Mapped(w) && w.manifest.version == VERSION && exists e :: e in TasksOf(w) && Raises(e)
  }

  /** The manifest is read and registers some task. */
  predicate Begins(w: World) {
    Mapped(w) && w.manifest.version == VERSION && !ManifestRaises(w) && RegisteredIds(TasksOf(w)) != {}
  }

  /** The names that the scan sees. */
  function NamesIn(w: World): seq<string> { if w.hasDir then GlobList(w.listing) else [] }

  predicate TaskRaises(w: World, task: string) {
    var kept := FirstFor(NamesIn(w), task, w);
    kept.Some? && StateRaises(Content(w, kept.value))
  }

  /** Step 4 ends early: a task asked for is not registered, or the file kept for it raises. */
  predicate Stops(w: World, only: string) {
    var ids := RegisteredIds(TasksOf(w));
    exists task :: task in (if only != "" then {only} else ids) && (task !in ids || TaskRaises(w, task))
  }

  predicate StopsOn(task: string, titles: map<string, Value>, files: map<string, string>, w: World) {
    task !in titles || (task in files && StateRaises(Content(w, files[task])))
  }

  predicate StopsAt(todo: seq<string>, titles: map<string, Value>, files: map<string, string>, w: World) {
    exists task :: task in todo && StopsOn(task, titles, files, w)
  }

  lemma TodoLater(todo: seq<string>, i: nat, titles: map<string, Value>, files: map<string, string>, w: World)
    requires i < |todo|
    ensures StopsAt(todo[..i + 1], titles, files, w)
            <==> StopsAt(todo[..i], titles, files, w) || StopsOn(todo[i], titles, files, w)
    ensures StopsOn(todo[i], titles, files, w) ==> StopsAt(todo, titles, files, w)
    ensures TodoValid(todo[..i + 1], titles, files, w)
            <==> TodoValid(todo[..i], titles, files, w) && FileValid(todo[i], titles, files, w)
  {
    assert todo[..i + 1] == todo[..i] + [todo[i]];
    assert todo[i] in todo;
  }

  lemma StopsIff(w: World, only: string, todo: seq<string>, ids: seq<string>, titles: map<string, Value>,
      files: map<string, string>)
    requires Elements(ids) == titles.Keys == RegisteredIds(TasksOf(w)) && Filed(files, NamesIn(w), w)
    requires todo == if only != "" then [only] else ids
    ensures Stops(w, only) <==> StopsAt(todo, titles, files, w)
  {
    assert forall task :: task in todo <==> task in Elements(todo);
    assert forall task :: task in titles <==> task in RegisteredIds(TasksOf(w));
    forall task
      ensures StopsOn(task, titles, files, w) <==> task !in RegisteredIds(TasksOf(w)) || TaskRaises(w, task)
    {
      assert FirstFor(NamesIn(w), task, w) == if task in files then Some(files[task]) else None;
    }
  }

  lemma EmptyElements(xs: seq<string>)
    ensures Elements(xs) == {} <==> xs == []
  {
    if xs != [] { assert xs[0] in Elements(xs); }
  }

  predicate TodoValid(todo: seq<string>, titles: map<string, Value>, files: map<string, string>, w: World) {
    forall k :: 0 <= k < |todo| ==> FileValid(todo[k], titles, files, w)
  }

  predicate Mapped(w: World) { w.manifest.Manifest? && w.manifest.tasks.List? }

  function TasksOf(w: World): seq<TaskEntry> { if Mapped(w) then w.manifest.tasks.entries else [] }

  predicate ManifestValid(w: World) {
    Mapped(w) && w.manifest.version == VERSION && TasksOf(w) != [] && TasksValid(TasksOf(w), w)
  }

  /** Every task has a file and every file a task. */
  predicate Matched(ids: seq<string>, names: seq<string>) { Elements(ids) == Elements(KeysOf(names)) }

  predicate Prepared(w: World) {
    && ManifestValid(w) && w.hasDir && NamesValid(GlobList(w.listing), w)
    && Matched(IdsOf(TasksOf(w)), GlobList(w.listing))
  }

  /** Task `k` passes every check on file `j`. */
  predicate PairValid(w: World, k: nat, j: nat)
    requires k < |TasksOf(w)| && j < |GlobList(w.listing)|
  {
    var (t, name) := (TasksOf(w)[k], GlobList(w.listing)[j]);
    StateValid(IdOf(t), TitleOf(t), Content(w, name), w)
  }

  /** The file that is named after `task` passes every check. */
  predicate TaskValid(w: World, task: string) {
    var (ids, names) := (IdsOf(TasksOf(w)), GlobList(w.listing));
    forall k, j :: 0 <= k < |ids| && 0 <= j < |names| && ids[k] == task && Key(names[j]) == task ==> PairValid(w, k, j)
  }

  /** What a passing check means; `only` names one task, or none where it is empty. */
  predicate ValidFor(w: World, only: string) {
    && Prepared(w)
    && if only != "" then only in IdsOf(TasksOf(w)) && TaskValid(w, only)
       else forall k :: 0 <= k < |TasksOf(w)| ==> TaskValid(w, IdsOf(TasksOf(w))[k])
  }

  /** With tasks and files matched, the task's registered title and file are the ones to check. */
  lemma TaskValidIff(w: World, ids: seq<string>, titles: map<string, Value>, found: seq<string>,
      files: map<string, string>, task: string)
    requires Registered(true, ids, titles, TasksOf(w), w) && Scanned(true, found, files, GlobList(w.listing), w)
    requires task in ids && Prepared(w)
    ensures task in titles && task in files
    ensures TaskValid(w, task) <==> FileValid(task, titles, files, w)
  {
    assert task in Elements(ids) && task in Elements(found);
    var k :| 0 <= k < |ids| && ids[k] == task;
    var j :| 0 <= j < |found| && found[j] == task;
    PairIff(w, ids, titles, found, files, k, j);
    forall l, m | 0 <= l < |ids| && 0 <= m < |found| && ids[l] == task && Key(GlobList(w.listing)[m]) == task
      ensures PairValid(w, l, m) <==> FileValid(task, titles, files, w)
    {
      PairIff(w, ids, titles, found, files, l, m);
    }
  }

  lemma PairIff(w: World, ids: seq<string>, titles: map<string, Value>, found: seq<string>,
      files: map<string, string>, k: nat, j: nat)
    requires Registered(true, ids, titles, TasksOf(w), w) && Scanned(true, found, files, GlobList(w.listing), w)
    requires k < |TasksOf(w)| && j < |GlobList(w.listing)| && Key(GlobList(w.listing)[j]) == ids[k]
    ensures ids[k] in titles && ids[k] in files
    ensures PairValid(w, k, j) <==> FileValid(ids[k], titles, files, w)
  {
    assert ids[k] in Elements(ids) && found[j] == ids[k] && found[j] in Elements(found);
  }

  lemma ValidForIff(w: World, only: string, todo: seq<string>,
                    ids: seq<string>, titles: map<string, Value>, found: seq<string>, files: map<string, string>)
    requires Registered(true, ids, titles, TasksOf(w), w) && Scanned(true, found, files, GlobList(w.listing), w)
               && Prepared(w)
    requires todo == if only != "" then [only] else ids
    ensures ValidFor(w, only) <==> TodoValid(todo, titles, files, w)
    ensures |ids| == |TasksOf(w)| && titles.Keys == files.Keys
  {
    assert forall id :: id in titles ==> id in Elements(ids) && id in ids;
    forall id | id in ids ensures TaskValid(w, id) <==> FileValid(id, titles, files, w) {
      TaskValidIff(w, ids, titles, found, files, id);
    }
    assert forall k :: 0 <= k < |ids| ==> ids[k] in ids;
    assert ids == IdsOf(TasksOf(w));
    if only != "" { OneTodo(only, titles, files, w); }
  }

  lemma OneTodo(only: string, titles: map<string, Value>, files: map<string, string>, w: World)
    ensures TodoValid([only], titles, files, w) <==> FileValid(only, titles, files, w)
  {
    assert [only][0] == only;
  }

  // ---- Valid and still not passed ----

  /** A reason that counts as given and cannot be cut: a number or a date, say. */
  predicate Unshowable(s: StateFile) {
    s.State? && s.status == BLOCKED && s.reasonText.Odd? && !s.reasonText.sliceable
  }

  /** File `j` is checked, and shown. */
  predicate Checked(w: World, only: string, j: nat)
    requires j < |GlobList(w.listing)|
  {
    only == "" || Key(GlobList(w.listing)[j]) == only
  }

  /** On valid files step 4 ends early, and the exit code is 2, exactly if it shows a reason that
      cannot be cut. */
  lemma ValidStopsIff(w: World, only: string)
    requires ValidFor(w, only)
    ensures var names := GlobList(w.listing);
            Stops(w, only) <==> exists j :: 0 <= j < |names| && Checked(w, only, j) && Unshowable(Content(w, names[j]))
  {
    var names := GlobList(w.listing);
    ValidIdsRegister(w);
    if Stops(w, only) {
      var ids := RegisteredIds(TasksOf(w));
      var task :| task in (if only != "" then {only} else ids) && (task !in ids || TaskRaises(w, task));
      var j := FirstIs(names, task, w);
      ValidRaisesIff(w, only, j);
      assert Checked(w, only, j) && Unshowable(Content(w, names[j]));
    }
    forall j | 0 <= j < |names| && Checked(w, only, j) && Unshowable(Content(w, names[j])) ensures Stops(w, only) {
      ValidRaisesIff(w, only, j);
      KeptUnderKey(names, j, w);
      assert TaskRaises(w, Key(names[j]));
      assert KeysOf(names)[j] in Elements(KeysOf(names));
    }
  }

  lemma ValidIdsRegister(w: World)
    requires Prepared(w)
    ensures RegisteredIds(TasksOf(w)) == Elements(IdsOf(TasksOf(w))) == Elements(KeysOf(GlobList(w.listing)))
  {
    var tasks := TasksOf(w);
    assert forall k :: 0 <= k < |tasks| ==> EntryValid(tasks[k], w) && Registers(tasks[k]);
    assert forall k :: 0 <= k < |tasks| ==> IdsOf(tasks)[k] == IdOf(tasks[k]) && tasks[k] in tasks;
  }

  /** A checked file that is valid raises only where it is shown. */
  lemma ValidRaisesIff(w: World, only: string, j: nat)
    requires ValidFor(w, only) && j < |GlobList(w.listing)| && Checked(w, only, j)
    ensures StateRaises(Content(w, GlobList(w.listing)[j])) <==> Unshowable(Content(w, GlobList(w.listing)[j]))
  {
    var (ids, names) := (IdsOf(TasksOf(w)), GlobList(w.listing));
    assert KeysOf(names)[j] in Elements(KeysOf(names));
    assert Key(names[j]) in Elements(ids);
    var k :| 0 <= k < |ids| && ids[k] == Key(names[j]);
    assert TaskValid(w, ids[k]);
    assert PairValid(w, k, j);
    var s := Content(w, names[j]);
    if s.status == DONE { IsoIsText(s.completedAt, w); }
  }

  lemma {:induction false} FirstIs(names: seq<string>, task: string, w: World) returns (j: nat)
    requires FirstFor(names, task, w).Some?
    ensures j < |names| && FirstFor(names, task, w) == Some(names[j]) && Key(names[j]) == task
  {
    j := |names| - 1;
    if FirstFor(names[..j], task, w).Some? { j := FirstIs(names[..j], task, w); }
  }

  lemma KeptUnderKey(names: seq<string>, j: nat, w: World)
    requires NamesValid(names, w) && j < |names|
    ensures FirstFor(names, Key(names[j]), w) == Some(names[j])
  {
    SomeFirst(names, j, w);
    var l := FirstIs(names, Key(names[j]), w);
  }

  lemma {:induction false} SomeFirst(names: seq<string>, j: nat, w: World)
    requires j < |names| && NameMatches(names[j], w)
    ensures FirstFor(names, Key(names[j]), w).Some?
  {
    if j < |names| - 1 { SomeFirst(names[..|names| - 1], j, w); }
  }
}
