/**
  The two Write-Audit-Publish cycles of the scheduled handler, over the
  abstract catalog of module Catalog:

  - the ingestion cycle lands a staged file in the input-port table on a fresh
    `<user>.ingestion_<id>` branch and merges it into `main` only if the
    import reported no error;
  - the transformation cycle runs the pipeline on a fresh
    `<user>.sandbox_<table>_<id>` branch, merges it into `main` and deletes
    it only if the run and the merge both succeed, and otherwise keeps the
    branch for inspection.

  The outcomes of the external calls (the import's reported error, the run's
  outcome, a merge rejection) are parameters; the random ids are strings.
*/
module Handler {
  import opened Wrappers
  import opened Catalog

  const InputPortTable: string := "tripsTable"
  const InputPortNamespace: string := "tlc_trip_record"

  /** The exceptions that leave the ingestion cycle. */
  datatype Error =
    | RuntimeError(message: string)
    | MergeError(message: string)

  /** How the guarded part of the transformation cycle ended: merged, or an
      exception was caught (its message is what the handler prints). */
  datatype SandboxResult =
    | Merged(jobId: string)
    | Caught(message: string)

  // ---------------------------------------------------------------------
  // Branch names

  function IngestionBranch(user: string, id: string): (b: BranchName)
    ensures b != Main
  {
    user + ".ingestion_" + id
  }

  function SandboxBranch(user: string, table: string, id: string): (b: BranchName)
    ensures b != Main
  {
    user + ".sandbox_" + table + "_" + id
  }

  /** For one user the ingestion and the sandbox names never coincide,
      whatever the ids. */
  lemma BranchNamesDistinct(user: string, ingestId: string, table: string, sandboxId: string)
    ensures IngestionBranch(user, ingestId) != SandboxBranch(user, table, sandboxId)
  {
    var b, s := IngestionBranch(user, ingestId), SandboxBranch(user, table, sandboxId);
    assert b[|user| + 1] == 'i' by {
      assert b == user + (".ingestion_" + ingestId);
    }
    assert s[|user| + 1] == 's' by {
      assert s == user + (".sandbox_" + table + "_" + sandboxId);
    }
  }

  // ---------------------------------------------------------------------
  // The calls each cycle makes, and the state it leaves

  /** Delete a stale branch of the same name, if any, then fork it from `main`. */
  function RecreateCalls(b: BranchName, found: bool): seq<Call>
  {
    [Call.HasBranch(b, found)] + (if found then [Call.DeleteBranch(b)] else []) + [Call.CreateBranch(b, Main)]
  }

  /** Merge into `main`; delete the branch only if the merge went through. */
  function PublishCalls(b: BranchName, rejection: Option<string>): seq<Call>
  {
    [Call.MergeBranch(b, Main, rejection)] + (if rejection.None? then [Call.DeleteBranch(b)] else [])
  }

  function IngestionTrace(b: BranchName, key: TableKey, file: DataFile, found: bool,
                          importError: string, rejection: Option<string>): seq<Call>
  {
    RecreateCalls(b, found)
      + [Call.CreateTable(b, key, file.uri), Call.ImportData(b, key, file, importError)]
      + (if importError != "" then [] else PublishCalls(b, rejection))
  }

  function SandboxTrace(b: BranchName, found: bool, outcome: RunOutcome, rejection: Option<string>): seq<Call>
  {
    RecreateCalls(b, found)
      + [Call.Run(b, outcome)]
      + (if outcome.Raised? then [] else PublishCalls(b, rejection))
  }

  /** The snapshot of the ingestion branch once the import has been attempted:
      `main` with the input-port table replaced, holding the file only if the
      import reported no error. */
  function Staged(trunk: Snapshot, key: TableKey, file: DataFile, importError: string): Snapshot
  {
    trunk[key := Table(file.uri, if importError == "" then [file] else [])]
  }

  /** The catalog after a cycle on branch `b` whose branch holds `branch` when
      the cycle decides: published (merged into `main`, then deleted) or kept
      as it is, with `main` untouched. */
  function AfterCycle(bs: Branches, b: BranchName, branch: Snapshot, published: bool): Branches
    requires Main in bs
  {
    if published then (bs - {b})[Main := bs[Main] + branch] else bs[b := branch]
  }

  /** What the ingestion cycle returns or raises. */
  function IngestionResult(importError: string, rejection: Option<string>, rows: nat): Result<nat, Error>
  {
    if importError != "" then Err(RuntimeError("Error ingesting data: " + importError))
    else if rejection.Some? then Err(MergeError(rejection.value))
    else Ok(rows)
  }

  /** What the guarded block of the transformation cycle ends with. */
  function SandboxOutcome(outcome: RunOutcome, rejection: Option<string>): SandboxResult
  {
    if outcome.Raised? then Caught(outcome.message)
    else if rejection.Some? then Caught(rejection.value)
    else Merged(outcome.jobId)
  }

  // ---------------------------------------------------------------------
  // Replaying the calls against the catalog's semantics

  /** The stale-branch guard is always accepted by the catalog (the create
      never meets an existing name) and leaves a fresh copy of `main`. */
  lemma RecreateReplays(bs: Branches, b: BranchName)
    requires Main in bs && b != Main
    ensures Replay(bs, RecreateCalls(b, b in bs)) == Some(bs[b := bs[Main]])
  {
    var t := RecreateCalls(b, b in bs);
    if b in bs {
      assert t == [Call.HasBranch(b, true)] + ([Call.DeleteBranch(b)] + [Call.CreateBranch(b, Main)]);
      ReplayAppend(bs, [Call.HasBranch(b, true)], [Call.DeleteBranch(b)] + [Call.CreateBranch(b, Main)]);
      ReplayAppend(bs, [Call.DeleteBranch(b)], [Call.CreateBranch(b, Main)]);
      ReplayAppend(bs - {b}, [Call.CreateBranch(b, Main)], []);
      assert (bs - {b})[b := bs[Main]] == bs[b := bs[Main]];
    } else {
      assert t == [Call.HasBranch(b, false)] + [Call.CreateBranch(b, Main)];
      ReplayAppend(bs, [Call.HasBranch(b, false)], [Call.CreateBranch(b, Main)]);
    }
  }

  lemma PublishReplays(bs: Branches, b: BranchName, rejection: Option<string>)
    requires Main in bs && b in bs && b != Main
    ensures Replay(bs, PublishCalls(b, rejection)) ==
      Some(if rejection.None? then (bs - {b})[Main := bs[Main] + bs[b]] else bs)
  {
    if rejection.None? {
      var merged := bs[Main := bs[Main] + bs[b]];
      ReplayAppend(bs, [Call.MergeBranch(b, Main, rejection)], [Call.DeleteBranch(b)]);
      assert Replay(bs, [Call.MergeBranch(b, Main, rejection)]) == Some(merged);
      assert merged - {b} == (bs - {b})[Main := bs[Main] + bs[b]];
    }
  }

  /** Creating the input-port table and importing into it, on a fresh fork of
      `main`, leaves the staged snapshot on the branch. */
  lemma StageReplays(bs: Branches, b: BranchName, key: TableKey, file: DataFile, importError: string)
    requires Main in bs && b != Main
    ensures Replay(bs[b := bs[Main]],
                   [Call.CreateTable(b, key, file.uri), Call.ImportData(b, key, file, importError)])
            == Some(bs[b := Staged(bs[Main], key, file, importError)])
  {
    var forked := bs[b := bs[Main]];
    var staged := Staged(bs[Main], key, file, importError);
    var c0, c1 := Call.CreateTable(b, key, file.uri), Call.ImportData(b, key, file, importError);
    var created := forked[b := bs[Main][key := Table(file.uri, [])]];
    assert [c0, c1] == [c0] + [c1];
    ReplayAppend(forked, [c0], [c1]);
    ReplaySingle(forked, c0);
    ReplaySingle(created, c1);
    StagedAfterImport(bs[Main], key, file, importError);
    if importError != "" {
      assert created[b := staged] == created;
    } else {
      var t := created[b][key];
      assert staged == created[b][key := Table(t.searchUri, t.files + [file])];
    }
    assert Step(created, c1) == Some(created[b := staged]);
    assert created[b := staged] == bs[b := staged];
  }

  /** Replayed against the catalog, the ingestion cycle's calls are all
      accepted and leave the state its method promises: published on a clean
      import and an accepted merge, otherwise the branch kept and `main` as it was. */
  lemma IngestionReplays(bs: Branches, b: BranchName, key: TableKey, file: DataFile,
                         importError: string, rejection: Option<string>)
    requires Main in bs && b != Main
    ensures Replay(bs, IngestionTrace(b, key, file, b in bs, importError, rejection)) ==
      Some(AfterCycle(bs, b, Staged(bs[Main], key, file, importError), importError == "" && rejection.None?))
  {
    var staged := Staged(bs[Main], key, file, importError);
    var work := [Call.CreateTable(b, key, file.uri), Call.ImportData(b, key, file, importError)];
    var tail := if importError != "" then [] else PublishCalls(b, rejection);
    assert tail == if importError == "" then PublishCalls(b, rejection) else [];
    assert IngestionTrace(b, key, file, b in bs, importError, rejection) == RecreateCalls(b, b in bs) + (work + tail);
    RecreateReplays(bs, b);
    ReplayAppend(bs, RecreateCalls(b, b in bs), work + tail);
    ReplayAppend(bs[b := bs[Main]], work, tail);
    StageReplays(bs, b, key, file, importError);
    DecisionReplays(bs, b, staged, importError == "", rejection);
  }

  /** Once the work on branch `b` has left it holding `branch`, the rest of a
      cycle (publish if the work succeeded, nothing otherwise) replays to
      the state `AfterCycle` describes. */
  lemma DecisionReplays(bs: Branches, b: BranchName, branch: Snapshot, succeeded: bool,
                        rejection: Option<string>)
    requires Main in bs && b != Main
    ensures Replay(bs[b := branch], if succeeded then PublishCalls(b, rejection) else [])
            == Some(AfterCycle(bs, b, branch, succeeded && rejection.None?))
  {
    if succeeded {
      PublishReplays(bs[b := branch], b, rejection);
      if rejection.None? {
        assert (bs[b := branch] - {b})[Main := bs[Main] + branch] == AfterCycle(bs, b, branch, true);
      }
    }
  }

  /** The same for the transformation cycle: published only when the run
      completes and the merge is accepted. */
  lemma SandboxReplays(bs: Branches, s: BranchName, outcome: RunOutcome, rejection: Option<string>)
    requires Main in bs && s != Main
    ensures Replay(bs, SandboxTrace(s, s in bs, outcome, rejection)) ==
      Some(AfterCycle(bs, s, bs[Main] + outcome.written, outcome.Completed? && rejection.None?))
  {
    var forked := bs[s := bs[Main]];
    var ran := bs[s := bs[Main] + outcome.written];
    var tail := if outcome.Completed? then PublishCalls(s, rejection) else [];
    assert SandboxTrace(s, s in bs, outcome, rejection) == RecreateCalls(s, s in bs) + ([Call.Run(s, outcome)] + tail);
    RecreateReplays(bs, s);
    ReplayAppend(bs, RecreateCalls(s, s in bs), [Call.Run(s, outcome)] + tail);
    ReplayAppend(forked, [Call.Run(s, outcome)], tail);
    ReplaySingle(forked, Call.Run(s, outcome));
    assert forked[s := bs[Main] + outcome.written] == ran;
    DecisionReplays(bs, s, bs[Main] + outcome.written, outcome.Completed?, rejection);
  }

  // ---------------------------------------------------------------------
  // Ordering and cleanup, read off the calls

  /** `c` reported success of the work done on branch `b`. */
  predicate Succeeded(c: Call, b: BranchName)
  {
    match c
    case ImportData(br, _, _, err) => br == b && err == ""
    case Run(br, o) => br == b && o.Completed?
    case _ => false
  }

  /** Every merge of a branch comes after a call that reported success on it. */
  ghost predicate MergesFollowSuccess(t: seq<Call>)
  {
    forall i | 0 <= i < |t| && t[i].MergeBranch? ::
      exists j | 0 <= j < i :: Succeeded(t[j], t[i].source)
  }

  /** Once `b` has been created, it is deleted only right after a merge of it
      into `main` that went through. */
  ghost predicate DeletesFollowMerge(t: seq<Call>, b: BranchName)
  {
    forall i, j | 0 <= i < j < |t| && t[i] == Call.CreateBranch(b, Main) && t[j] == Call.DeleteBranch(b) ::
      t[j - 1] == Call.MergeBranch(b, Main, None)
  }

  /** No two merges in the calls: a branch is never merged twice. */
  ghost predicate MergedAtMostOnce(t: seq<Call>)
  {
    forall i, j | 0 <= i < j < |t| && t[i].MergeBranch? :: !t[j].MergeBranch?
  }

  /** `b` is deleted after it was created. */
  ghost predicate DeletedAfterCreation(t: seq<Call>, b: BranchName)
  {
    exists i, j | 0 <= i < j < |t| :: t[i] == Call.CreateBranch(b, Main) && t[j] == Call.DeleteBranch(b)
  }

  /** Ingestion: merge is gated on a clean import and happens at most once,
      the branch is deleted only right after its merge, and it is deleted
      exactly when the cycle succeeds. */
  lemma IngestionCleanup(b: BranchName, key: TableKey, file: DataFile, found: bool,
                         importError: string, rejection: Option<string>)
    ensures var t := IngestionTrace(b, key, file, found, importError, rejection);
      MergesFollowSuccess(t) && MergedAtMostOnce(t) && DeletesFollowMerge(t, b)
      && (DeletedAfterCreation(t, b) <==> importError == "" && rejection.None?)
  {
    var t := IngestionTrace(b, key, file, found, importError, rejection);
    var c := if found then 4 else 3;  // index of the import
    assert t[c - 2] == Call.CreateBranch(b, Main);
    assert t[c] == Call.ImportData(b, key, file, importError);
    assert |t| == c + 1 + (if importError != "" then 0 else if rejection.None? then 2 else 1);
    forall j | 0 <= j < |t| && t[j].MergeBranch?
      ensures j == c + 1
    {
    }
    forall j | c - 2 < j < |t| && t[j] == Call.DeleteBranch(b)
      ensures j == c + 2 && importError == "" && rejection.None?
    {
    }
    if importError == "" && rejection.None? {
      assert t[c + 2] == Call.DeleteBranch(b);
    }
  }

  /** Transformation: merge is gated on a completed run and happens at most
      once, the sandbox branch is deleted only right after its merge, and it
      is deleted exactly when both the run and the merge succeed; on every
      failure it is kept. */
  lemma SandboxCleanup(s: BranchName, found: bool, outcome: RunOutcome, rejection: Option<string>)
    ensures var t := SandboxTrace(s, found, outcome, rejection);
      MergesFollowSuccess(t) && MergedAtMostOnce(t) && DeletesFollowMerge(t, s)
      && (DeletedAfterCreation(t, s) <==> outcome.Completed? && rejection.None?)
  {
    var t := SandboxTrace(s, found, outcome, rejection);
    var c := if found then 3 else 2;  // index of the run
    assert t[c - 1] == Call.CreateBranch(s, Main);
    assert t[c] == Call.Run(s, outcome);
    assert |t| == c + 1 + (if outcome.Raised? then 0 else if rejection.None? then 2 else 1);
    forall j | 0 <= j < |t| && t[j].MergeBranch?
      ensures j == c + 1
    {
    }
    forall j | c - 1 < j < |t| && t[j] == Call.DeleteBranch(s)
      ensures j == c + 2 && outcome.Completed? && rejection.None?
    {
    }
    if outcome.Completed? && rejection.None? {
      assert t[c + 2] == Call.DeleteBranch(s);
    }
  }

  // ---------------------------------------------------------------------
  // The orchestrators

  /** The stale-branch guard both cycles open with. */
  method RecreateFromMain(cat: Client, b: BranchName) returns (found: bool)
    requires cat.Valid() && b != Main
    modifies cat
    ensures cat.Valid()
    ensures found == (b in old(cat.branches))
    ensures cat.branches == old(cat.branches)[b := old(cat.branches)[Main]]
    ensures cat.log == old(cat.log) + RecreateCalls(b, found)
  {
    found := cat.HasBranch(b);
    if found {
      cat.DeleteBranch(b);
    }
    cat.CreateBranch(b, Main);
  }

  /** The publish step both cycles end with on success: merge the branch
      into `main`, then delete it; a rejected merge raises before the delete,
      so the branch stays and nothing changes. */
  method Publish(cat: Client, b: BranchName, rejection: Option<string>) returns (merged: bool)
    requires cat.Valid() && b in cat.branches && b != Main
    modifies cat
    ensures cat.Valid()
    ensures merged == rejection.None?
    ensures cat.branches == if merged then (old(cat.branches) - {b})[Main := old(cat.branches)[Main] + old(cat.branches)[b]]
                            else old(cat.branches)
    ensures cat.log == old(cat.log) + PublishCalls(b, rejection)
  {
    merged := cat.MergeBranch(b, Main, rejection);
    if merged {
      cat.DeleteBranch(b);
    }
  }

  /** The catalog part of `_add_mock_data_to_input_port`: the staged file
      `uri` (holding `rows` rows) is imported on a fresh ingestion branch,
      which is merged into `main` and deleted only after a clean import. An
      import error raises before the merge; a rejected merge raises before
      the delete. Either way the branch stays and `main` is untouched. */
  method AddMockDataToInputPort(cat: Client, user: string, id: string, key: TableKey,
                                uri: string, rows: nat,
                                importError: string, mergeRejection: Option<string>)
    returns (r: Result<nat, Error>)
    requires cat.Valid()
    modifies cat
    ensures cat.Valid()
    ensures r == IngestionResult(importError, mergeRejection, rows)
    ensures var b := IngestionBranch(user, id);
      cat.log == old(cat.log)
        + IngestionTrace(b, key, DataFile(uri, rows), b in old(cat.branches), importError, mergeRejection)
    ensures var b := IngestionBranch(user, id);
      cat.branches == AfterCycle(old(cat.branches), b,
                                 Staged(old(cat.branches)[Main], key, DataFile(uri, rows), importError), r.Ok?)
    ensures var b := IngestionBranch(user, id);
      if r.Ok? then
        b !in cat.branches
        && cat.branches[Main] == old(cat.branches)[Main][key := Table(uri, [DataFile(uri, rows)])]
        && RowCount(cat.branches[Main][key].files) == rows
      else
        b in cat.branches && cat.branches[Main] == old(cat.branches)[Main]
  {
    var b := IngestionBranch(user, id);
    var file := DataFile(uri, rows);
    ghost var bs := cat.branches;
    ghost var trunk := bs[Main];
    ghost var staged := Staged(trunk, key, file, importError);
    var found := RecreateFromMain(cat, b);
    cat.CreateTable(b, key, uri);
    var reported := cat.ImportData(b, key, file, importError);
    StagedAfterImport(trunk, key, file, importError);
    assert cat.branches == bs[b := staged];
    if reported != "" {
      r := Err(RuntimeError("Error ingesting data: " + reported));
      return;
    }
    var merged := Publish(cat, b, mergeRejection);
    if !merged {
      r := Err(MergeError(mergeRejection.value));
      return;
    }
    ForkMergedIsFork(trunk, key, Table(uri, [file]));
    assert RowCount([file]) == rows by {
      assert [file][..0] == [];
    }
    r := Ok(rows);
  }

  lemma StagedAfterImport(trunk: Snapshot, key: TableKey, file: DataFile, importError: string)
    ensures var created := trunk[key := Table(file.uri, [])];
      Staged(trunk, key, file, importError) ==
        if importError != "" then created
        else created[key := Table(created[key].searchUri, created[key].files + [file])]
  {
    assert [] + [file] == [file];
  }

  /** Merging a branch forked from `main` with one table replaced leaves
      exactly that branch's tables on `main`. */
  lemma ForkMergedIsFork(trunk: Snapshot, key: TableKey, t: Table)
    ensures trunk + trunk[key := t] == trunk[key := t]
  {
  }

  /** Lines 143-182 of the handler: the pipeline runs on a fresh sandbox
      branch; the branch is merged into `main` and then deleted only if the
      run returns and the merge goes through. Any exception from the run or
      the merge is caught, and the branch is kept unmerged and undeleted. */
  method RunSandbox(cat: Client, user: string, table: string, id: string,
                    outcome: RunOutcome, mergeRejection: Option<string>)
    returns (r: SandboxResult)
    requires cat.Valid()
    modifies cat
    ensures cat.Valid()
    ensures r == SandboxOutcome(outcome, mergeRejection)
    ensures var s := SandboxBranch(user, table, id);
      cat.log == old(cat.log) + SandboxTrace(s, s in old(cat.branches), outcome, mergeRejection)
    ensures var s := SandboxBranch(user, table, id);
      cat.branches == AfterCycle(old(cat.branches), s, old(cat.branches)[Main] + outcome.written, r.Merged?)
    ensures var s := SandboxBranch(user, table, id);
      if r.Merged? then
        s !in cat.branches && cat.branches[Main] == old(cat.branches)[Main] + outcome.written
      else
        s in cat.branches && cat.branches[Main] == old(cat.branches)[Main]
        && cat.branches[s] == old(cat.branches)[Main] + outcome.written
  {
    var s := SandboxBranch(user, table, id);
    ghost var trunk := cat.branches[Main];
    var found := RecreateFromMain(cat, s);
    var raised := cat.Run(s, outcome);
    if raised {
      r := Caught(outcome.message);
      return;
    }
    var merged := Publish(cat, s, mergeRejection);
    if !merged {
      r := Caught(mergeRejection.value);
      return;
    }
    assert trunk + (trunk + outcome.written) == trunk + outcome.written;
    r := Merged(outcome.jobId);
  }

  /** `lambda_handler`: the ingestion cycle, whose errors propagate (so no
      sandbox branch is created), then the transformation cycle, whose errors
      are caught; once ingestion succeeds the handler returns true. */
  method LambdaHandler(cat: Client, user: string, ingestId: string, sandboxId: string,
                       uri: string, rows: nat, importError: string, ingestRejection: Option<string>,
                       outcome: RunOutcome, sandboxRejection: Option<string>)
    returns (r: Result<bool, Error>)
    requires cat.Valid()
    modifies cat
    ensures cat.Valid()
    ensures r.Err? <==> IngestionResult(importError, ingestRejection, rows).Err?
    ensures r.Err? ==> r.error == IngestionResult(importError, ingestRejection, rows).error
    ensures r.Ok? ==> r.value
    ensures var b := IngestionBranch(user, ingestId);
      var s := SandboxBranch(user, InputPortTable, sandboxId);
      var ingestion := IngestionTrace(b, InputPortKey(), DataFile(uri, rows), b in old(cat.branches),
                                      importError, ingestRejection);
      cat.log == old(cat.log) + ingestion
                 + (if r.Err? then [] else SandboxTrace(s, s in old(cat.branches), outcome, sandboxRejection))
    ensures var b := IngestionBranch(user, ingestId);
      var s := SandboxBranch(user, InputPortTable, sandboxId);
      var staged := Staged(old(cat.branches)[Main], InputPortKey(), DataFile(uri, rows), importError);
      var ingested := AfterCycle(old(cat.branches), b, staged, r.Ok?);
      cat.branches == if r.Err? then ingested
                      else AfterCycle(ingested, s, staged + outcome.written,
                                      SandboxOutcome(outcome, sandboxRejection).Merged?)
  {
    var n := AddMockDataToInputPort(cat, user, ingestId, InputPortKey(), uri, rows,
                                    importError, ingestRejection);
    if n.Err? {
      r := Err(n.error);
      return;
    }
    BranchNamesDistinct(user, ingestId, InputPortTable, sandboxId);
    var _ := RunSandbox(cat, user, InputPortTable, sandboxId, outcome, sandboxRejection);
    r := Ok(true);
  }

  function InputPortKey(): TableKey
  {
    TableKey(InputPortNamespace, InputPortTable)
  }
}
