/** The published-run ledger of ci/publisher/ledger.py. */
module Ledger {
  import opened Wrappers
  import opened Text

  /** `externalId == ""` and `checkRunId == None` stand for fields a legacy entry lacks. */
  datatype Entry = Entry(
    runId: string, commitSha: string, repository: string, statusContext: string,
    manifestSha256: string, publishedAt: string, checkRunId: Option<int>, appId: int,
    checkRunName: string, headSha: string, externalId: string, verification: string)

  const TOKEN_MARKS := ["ghp_", "github_pat_", "Bearer "]

  function Fields(e: Entry): seq<string> {
    [e.runId, e.commitSha, e.repository, e.statusContext, e.manifestSha256, e.publishedAt,
     e.checkRunName, e.headSha, e.externalId, e.verification]
  }

  predicate TokenFree(e: Entry) {
    forall f, mark :: f in Fields(e) && mark in TOKEN_MARKS ==> !Contains(f, mark)
  }

  /** What `load_ledger` demands of each entry. */
  predicate Loadable(e: Entry) {
    && e.runId != "" && e.commitSha != "" && e.repository != "" && e.statusContext != ""
    && e.manifestSha256 != "" && e.publishedAt != ""
    && TokenFree(e)
  }

  predicate AllLoadable(entries: seq<Entry>) {
    forall e :: e in entries ==> Loadable(e)
  }

  /** `assert_run_id_not_reused` raises nothing. */
  predicate RunIdFree(entries: seq<Entry>, runId: string, commitSha: string) {
    forall e :: e in entries && e.runId == runId ==> e.commitSha == commitSha
  }

  function WithExternalId(entries: seq<Entry>, externalId: string): seq<Entry> {
    if entries == [] then []
    else (if entries[0].externalId == externalId then [entries[0]] else []) + WithExternalId(entries[1..], externalId)
  }

  function FindCheckRunPublication(entries: seq<Entry>, externalId: string): Result<Option<Entry>> {
    var matches := WithExternalId(entries, externalId);
    if matches == [] then Ok(None)
    else if |matches| > 1 then Err("several entries for external_id")
    else Ok(Some(matches[0]))
  }

  predicate UniqueExternalIds(entries: seq<Entry>) {
    forall i, j :: 0 <= i < j < |entries| ==> entries[i].externalId != entries[j].externalId
  }

  predicate OneShaPerRunId(entries: seq<Entry>) {
    forall d, e :: d in entries && e in entries && d.runId == e.runId ==> d.commitSha == e.commitSha
  }

  lemma {:induction false} WithExternalIdMembers(entries: seq<Entry>, externalId: string)
    ensures forall e :: e in WithExternalId(entries, externalId) <==> e in entries && e.externalId == externalId
  {
    if entries != [] {
      WithExternalIdMembers(entries[1..], externalId);
      assert forall e :: e in entries <==> e == entries[0] || e in entries[1..];
    }
  }

  /** With unique external ids the lookup never raises, and answers exactly. */
  lemma {:induction false} FindIsExact(entries: seq<Entry>, externalId: string)
    requires UniqueExternalIds(entries)
    ensures FindCheckRunPublication(entries, externalId).Ok?
    ensures forall e :: FindCheckRunPublication(entries, externalId).value == Some(e)
              <==> e in entries && e.externalId == externalId
  {
    AtMostOneMatch(entries, externalId);
    WithExternalIdMembers(entries, externalId);
    var matches := WithExternalId(entries, externalId);
    if matches != [] { assert matches[0] in matches; }
  }

  lemma {:induction false} AtMostOneMatch(entries: seq<Entry>, externalId: string)
    requires UniqueExternalIds(entries)
    ensures |WithExternalId(entries, externalId)| <= 1
  {
    if entries != [] {
      assert UniqueExternalIds(entries[1..]);
      AtMostOneMatch(entries[1..], externalId);
      WithExternalIdMembers(entries[1..], externalId);
      var rest := WithExternalId(entries[1..], externalId);
      if rest != [] {
        assert rest[0] in rest;
        var j :| 0 <= j < |entries| - 1 && entries[1..][j] == rest[0];
        assert entries[0].externalId != entries[j + 1].externalId;
      }
    }
  }

  /** The ledger file: absent, unreadable, or a list of entries. */
  datatype Content = Absent | Corrupt | Entries(entries: seq<Entry>)

  function LoadLedger(c: Content): Result<seq<Entry>> {
    match c
    case Absent => Ok([])
    case Corrupt => Err("ledger corrupted or unreadable")
    case Entries(es) => if AllLoadable(es) then Ok(es) else Err("ledger entry rejected")
  }

  /** Which files load: none at all, or one whose every entry has its six required fields and no
      mark of a token in any text. */
  lemma LoadsIff(c: Content)
    ensures LoadLedger(c).Ok?
            <==> c.Absent? || (c.Entries? && forall i :: 0 <= i < |c.entries| ==>
                var e := c.entries[i];
                && "" !in [e.runId, e.commitSha, e.repository, e.statusContext, e.manifestSha256, e.publishedAt]
                && forall f :: f in [e.runId, e.commitSha, e.repository, e.statusContext, e.manifestSha256,
                                     e.publishedAt, e.checkRunName, e.headSha, e.externalId, e.verification] ==>
                     !Contains(f, "ghp_") && !Contains(f, "github_pat_") && !Contains(f, "Bearer "))
    ensures LoadLedger(c).Ok? ==> LoadLedger(c).value == if c.Entries? then c.entries else []
  {
    assert TOKEN_MARKS[0] == "ghp_" && TOKEN_MARKS[1] == "github_pat_" && TOKEN_MARKS[2] == "Bearer ";
    if c.Entries? {
      assert forall i :: 0 <= i < |c.entries| ==> c.entries[i] in c.entries;
    }
  }

  class LedgerFile {
    var content: Content

    constructor ()
      ensures content == Absent
    {
      content := Absent;
    }

    /** `append_entry`: reload, refuse a reused run_id, write the longer list. The new entry
        itself is not checked against what the next load demands. */
    method AppendEntry(e: Entry) returns (r: Result<()>)
      modifies this
      ensures r.Ok? <==> LoadLedger(old(content)).Ok? && RunIdFree(LoadLedger(old(content)).value, e.runId, e.commitSha)
      ensures content == if r.Ok? then Entries(LoadLedger(old(content)).value + [e]) else old(content)
    {
      var loaded := LoadLedger(content);
      if loaded.Err? { return Err(loaded.error); }
      if !RunIdFree(loaded.value, e.runId, e.commitSha) { return Err("run_id already published for another SHA"); }
      content := Entries(loaded.value + [e]);
      r := Ok(());
    }
  }

  /** After an append the file loads again exactly when the appended entry is loadable. */
  lemma AppendLoadsAgain(entries: seq<Entry>, e: Entry)
    requires AllLoadable(entries)
    ensures LoadLedger(Entries(entries + [e])).Ok? <==> Loadable(e)
  {
    assert e in entries + [e];
  }
}
