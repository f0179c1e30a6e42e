/** Directories on which the guard and the reporter fall short. */
module GuardExamples {
  import opened Wrappers
  import opened Text
  import opened CompletionGuard
  import opened Reporter

  function DoneState(id: string): StateFile {
    State(VERSION, Plain(id), Plain("t"), DONE, Plain("2026-01-01T00:00:00Z"), Plain("a"),
          Null, Null, Null, Plain("e"), Plain("abcdef0"))
  }

  function TaskOf(id: string): TaskEntry { Task(Plain(id), Plain("t"), false) }

  lemma DoneStateValid(id: string, w: World)
    requires w.evidence == {"e"}
    ensures StateValid(id, Plain("t"), DoneState(id), w)
  {
    assert FollowsPattern("2026-01-01T00:00:00Z", "0000-00-00T00:00:00Z", w);
    assert !Contains("e", "..");
  }

  // ---- One task ----

  function OneTask(name: string, s: StateFile): World {
    World(Manifest(VERSION, List([TaskOf("LR-001")])), true, [name], map[name := s], {"e"}, {})
  }

  const NAME := "LR-001-STATE.yaml"
  const LONG_NAME := "LR-001-STATE.yaml-STATE.yaml"

  lemma OneTaskLists(name: string, s: StateFile)
    requires name == NAME || name == LONG_NAME
    ensures var w := OneTask(name, s);
            GlobList(w.listing) == [name] && KeysOf([name]) == ["LR-001"] && IdsOf(TasksOf(w)) == ["LR-001"]
  {
    var w := OneTask(name, s);
    OneNameMatches(name, w);
    assert w.listing[..0] == [];
  }

  lemma OneTaskPrepared(name: string, s: StateFile)
    requires name == NAME || name == LONG_NAME
    ensures Prepared(OneTask(name, s))
  {
    var w := OneTask(name, s);
    OneTaskLists(name, s);
    OneNameMatches(name, w);
    assert EntryValid(TasksOf(w)[0], w);
  }

  lemma OneTaskValid(name: string, s: StateFile)
    requires (name == NAME || name == LONG_NAME) && StateValid("LR-001", Plain("t"), s, OneTask(name, s))
    ensures ValidFor(OneTask(name, s), "")
  {
    var w := OneTask(name, s);
    OneTaskLists(name, s);
    OneTaskPrepared(name, s);
    assert PairValid(w, 0, 0);
    assert TaskValid(w, "LR-001");
  }

  lemma OneNameMatches(name: string, w: World)
    requires name == NAME || name == LONG_NAME
    ensures Globbed(name) && NameMatches(name, w) && Key(name) == "LR-001"
  {
    assert NAME == "LR-001" + SUFFIX && LONG_NAME == "LR-001" + SUFFIX + SUFFIX;
    assert name[|name| - 11..] == SUFFIX && name[..3] == "LR-";
    assert name[..6] == "LR-001" && name[6..17] == SUFFIX;
  }

  lemma OneTaskOutcome(name: string, s: StateFile)
    requires (name == NAME || name == LONG_NAME) && StateValid("LR-001", Plain("t"), s, OneTask(name, s))
    ensures ValidFor(OneTask(name, s), "") && (Stops(OneTask(name, s), "") <==> Unshowable(s))
    ensures Reportable(OneTask(name, s)) <==> name == NAME
  {
    var w := OneTask(name, s);
    OneTaskValid(name, s);
    OneTaskLists(name, s);
    ReportableIffExact(w);
    ValidStopsIff(w, "");
    var names := GlobList(w.listing);
    assert names == [name] && Content(w, names[0]) == s && Checked(w, "", 0);
    assert |NAME| == 17 && |LONG_NAME| == 28;
  }

  /** A file whose name goes on after the suffix passes the guard, and the reporter does not find it. */
  lemma GuardPassesReporterFails()
    ensures var w := OneTask(LONG_NAME, DoneState("LR-001")); ValidFor(w, "") && !Stops(w, "") && !Reportable(w)
    ensures PlainIds(OneTask(LONG_NAME, DoneState("LR-001")))
  {
    DoneStateValid("LR-001", OneTask(LONG_NAME, DoneState("LR-001")));
    OneTaskOutcome(LONG_NAME, DoneState("LR-001"));
    OneTaskLists(LONG_NAME, DoneState("LR-001"));
  }

  const NUMBER := Odd(true, true, false, false, "5")
  const NUMBER_REASON := State(
    VERSION, Plain("LR-001"), Plain("t"), BLOCKED, Null, Null,
    Plain("RC_B001"), NUMBER, Plain("2026-01-01T00:00:00Z"), Plain("e"), Plain("abcdef0"))

  lemma NumberReasonValid(w: World)
    requires w.evidence == {"e"}
    ensures StateValid("LR-001", Plain("t"), NUMBER_REASON, w)
  {
    assert FollowsPattern("2026-01-01T00:00:00Z", "0000-00-00T00:00:00Z", w);
    assert !Contains("e", "..");
  }

  /** A blocked task with a number for its reason passes every rule, and the check ends with code 2;
      the reporter takes it. */
  lemma NumberReasonStops()
    ensures var w := OneTask(NAME, NUMBER_REASON); ValidFor(w, "") && Stops(w, "") && Reportable(w)
  {
    NumberReasonValid(OneTask(NAME, NUMBER_REASON));
    OneTaskOutcome(NAME, NUMBER_REASON);
  }

  // ---- A thousand and one tasks ----

  function Numeral(n: nat): char
    requires n < 10
  {
    (48 + n) as char
  }

  /** The numbers up to 999, and one more id whose last digit is `d`. */
  function NthId(k: nat, d: char): string
    requires k <= 1000
  {
    if k == 1000 then "LR-99" + [d] else "LR-" + [Numeral(k / 100), Numeral(k / 10 % 10), Numeral(k % 10)]
  }

  function Ids(d: char): seq<string> { seq(1001, k requires 0 <= k < 1001 => NthId(k, d)) }

  function Names(d: char): seq<string> { seq(1001, k requires 0 <= k < 1001 => NthId(k, d) + SUFFIX) }

  function Entries(d: char): seq<TaskEntry> { seq(1001, k requires 0 <= k < 1001 => TaskOf(NthId(k, d))) }

  function Crowded(d: char, digits: set<char>): World {
    World(Manifest(VERSION, List(Entries(d))), true, Names(d), map n | n in Elements(Names(d)) :: DoneState(Key(n)),
          {"e"}, digits)
  }

  lemma NthIsNumber(k: nat, d: char)
    requires k < 1000
    ensures AsciiId(NthId(k, d)) && Number(NthId(k, d)) == k
  {
    assert k / 10 % 10 == k / 10 - 10 * (k / 100);
    assert NthId(k, d)[..3] == "LR-";
  }

  lemma NthBefore(i: nat, j: nat, d: char)
    requires i < j <= 1000 && d as int >= 128
    ensures Before(NthId(i, d), NthId(j, d))
  {
    NthIsNumber(i, d);
    if j < 1000 {
      NthIsNumber(j, d);
      BeforeTotal(NthId(i, d), NthId(j, d));
      if Before(NthId(j, d), NthId(i, d)) { BeforeIsLess(NthId(j, d), NthId(i, d)); }
    } else {
      BeforeLast([Numeral(i / 100), Numeral(i / 10 % 10), Numeral(i % 10)], d);
    }
  }

  lemma BeforeLast(x: string, d: char)
    requires |x| == 3 && (forall i :: 0 <= i < 3 ==> '0' <= x[i] <= '9') && d as int >= 128
    ensures Before("LR-" + x, "LR-99" + [d])
  {
    var y := "99" + [d];
    assert "LR-99" + [d] == "LR-" + y;
    BeforeAfterPrefix("LR-", x, y);
    var (x1, y1) := (x[1..], y[1..]);
    assert Before(x1[1..], y1[1..]);
    assert Before(x1, y1);
  }

  lemma NthShaped(k: nat, d: char, w: World)
    requires k <= 1000 && d in w.otherDigits
    ensures var (id, name) := (NthId(k, d), NthId(k, d) + SUFFIX);
            && IdShaped(id, w) && Globbed(name) && NameMatches(name, w) && Key(name) == id && |name| == 17
  {
    var (id, name) := (NthId(k, d), NthId(k, d) + SUFFIX);
    if k < 1000 { NthIsNumber(k, d); }
    assert id[..3] == "LR-";
    assert name[..6] == id && name[6..17] == SUFFIX && name[|name| - 11..] == SUFFIX && name[..3] == id[..3];
  }

  lemma {:induction false} AllGlobbed(names: seq<string>)
    requires forall k :: 0 <= k < |names| ==> Globbed(names[k])
    ensures GlobList(names) == names
  {
    if names != [] {
      AllGlobbed(names[..|names| - 1]);
      assert names == names[..|names| - 1] + [names[|names| - 1]];
    }
  }

  lemma CrowdedPrepared(d: char, digits: set<char>)
    requires d in digits && d as int >= 128
    ensures var w := Crowded(d, digits);
            Prepared(w) && GlobList(w.listing) == Names(d) && IdsOf(TasksOf(w)) == Ids(d) && KeysOf(Names(d)) == Ids(d)
  {
    var w := Crowded(d, digits);
    forall k | 0 <= k < 1001
      ensures IdShaped(Ids(d)[k], w) && Globbed(Names(d)[k]) && NameMatches(Names(d)[k], w)
      ensures Key(Names(d)[k]) == Ids(d)[k] && EntryValid(Entries(d)[k], w)
    {
      NthShaped(k, d, w);
    }
    AllGlobbed(Names(d));
    assert IdsOf(TasksOf(w)) == Ids(d) && KeysOf(Names(d)) == Ids(d);
    forall i, j | 0 <= i < j < 1001 ensures Before(Ids(d)[i], Ids(d)[j]) && Ids(d)[i] != Ids(d)[j] {
      NthBefore(i, j, d);
      BeforeIrreflexive(Ids(d)[i]);
    }
  }

  lemma CrowdedFile(d: char, digits: set<char>, j: nat)
    requires j < 1001
    ensures Content(Crowded(d, digits), Names(d)[j]) == DoneState(Key(Names(d)[j]))
  {
    assert Names(d)[j] in Elements(Names(d));
  }

  lemma CrowdedPair(d: char, digits: set<char>, k: nat, j: nat)
    requires k < 1001 && j < 1001 && Key(Names(d)[j]) == Ids(d)[k]
    requires GlobList(Names(d)) == Names(d)
    ensures PairValid(Crowded(d, digits), k, j)
  {
    CrowdedFile(d, digits, j);
    DoneStateValid(Ids(d)[k], Crowded(d, digits));
  }

  lemma CrowdedValid(d: char, digits: set<char>)
    requires d in digits && d as int >= 128
    ensures ValidFor(Crowded(d, digits), "") && |TasksOf(Crowded(d, digits))| == 1001
  {
    var w := Crowded(d, digits);
    CrowdedPrepared(d, digits);
    forall k, j | 0 <= k < 1001 && 0 <= j < 1001 && Key(Names(d)[j]) == Ids(d)[k] ensures PairValid(w, k, j) {
      CrowdedPair(d, digits, k, j);
    }
  }

  /** With a digit beyond ASCII a check of 1001 tasks passes. */
  lemma CrowdedPasses(d: char, digits: set<char>)
    requires d in digits && d as int >= 128
    ensures var w := Crowded(d, digits); ValidFor(w, "") && !Stops(w, "") && |TasksOf(w)| == 1001
  {
    CrowdedValid(d, digits);
    CrowdedPrepared(d, digits);
    ValidStopsIff(Crowded(d, digits), "");
    forall j | 0 <= j < 1001 ensures !Unshowable(Content(Crowded(d, digits), Names(d)[j])) {
      CrowdedFile(d, digits, j);
    }
  }

  lemma AsciiOnly(w: World, only: string)
    requires w.otherDigits == {} && ValidFor(w, only)
    ensures |TasksOf(w)| <= 1000
  {
    MatchedIdsShaped(w);
    forall id | id in IdsOf(TasksOf(w)) ensures Ascii(id) {
      assert IdShaped(id, w);
      assert forall i :: 0 <= i < 3 ==> id[i] == id[..3][i];
    }
    GuardBoundsTasks(w, only);
  }

  /** A passing check bounds the tasks by a thousand exactly if the patterns accept ASCII digits only. */
  lemma ThousandIffAscii(digits: set<char>)
    requires forall c :: c in digits ==> c as int >= 128
    ensures (forall w: World, only: string :: w.otherDigits == digits && ValidFor(w, only) ==> |TasksOf(w)| <= 1000)
            <==> digits == {}
  {
    if digits != {} {
      var d :| d in digits;
      CrowdedPasses(d, digits);
    }
    forall w: World, only: string | digits == {} && w.otherDigits == digits && ValidFor(w, only)
      ensures |TasksOf(w)| <= 1000
    {
      AsciiOnly(w, only);
    }
  }
}
