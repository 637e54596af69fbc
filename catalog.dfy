/**
  The observable state of the versioned table catalog that the handler drives
  through its client object: a map from branch name to a snapshot of the
  branch's tables, with `main` always present, and a log of every call made
  on the client, in order.

  `Step` is the catalog's semantics of one call, `Replay` of a sequence of
  calls; `Client` is the stateful client object, and each of its methods
  performs exactly the `Step` of the call it appends to the log.
*/
module Catalog {
  import opened Wrappers

  type BranchName = string

  /** The trunk ref every branch in this workflow is forked from and merged into. */
  const Main: BranchName := "main"

  datatype TableKey = TableKey(namespace: string, name: string)

  /** A data file staged in object storage: its URI and the number of rows it holds. */
  datatype DataFile = DataFile(uri: string, rows: nat)

  /** A table: the URI its schema was taken from, and the files imported into it, in order. */
  datatype Table = Table(searchUri: string, files: seq<DataFile>)

  type Snapshot = map<TableKey, Table>
  type Branches = map<BranchName, Snapshot>

  /** The outcome of a pipeline run on a branch: it returns a job id, or it
      raises (an execution error or a client timeout). Either way the run may
      already have written tables on the branch. */
  datatype RunOutcome =
    | Completed(jobId: string, written: Snapshot)
    | Raised(message: string, written: Snapshot)

  /** One call on the catalog client, with the answer or outcome it had. */
  datatype Call =
    | HasBranch(name: BranchName, found: bool)
    | CreateBranch(name: BranchName, parent: BranchName)
    | DeleteBranch(name: BranchName)
    | CreateTable(branch: BranchName, key: TableKey, searchUri: string)
    | ImportData(branch: BranchName, key: TableKey, file: DataFile, error: string)
    | Run(branch: BranchName, outcome: RunOutcome)
    | MergeBranch(source: BranchName, into: BranchName, rejection: Option<string>)

  function RowCount(files: seq<DataFile>): nat
  {
    if files == [] then 0 else RowCount(files[..|files| - 1]) + files[|files| - 1].rows
  }

  /** The state after one call, or None when the catalog would refuse the call
      (a name that already exists, a missing branch or table, deleting `main`,
      or a `has_branch` answer that does not match the state). */
  function Step(bs: Branches, c: Call): Option<Branches>
  {
    match c
    case HasBranch(n, found) =>
      if found == (n in bs) then Some(bs) else None
    case CreateBranch(n, p) =>
      if n in bs || p !in bs then None else Some(bs[n := bs[p]])
    case DeleteBranch(n) =>
      if n !in bs || n == Main then None else Some(bs - {n})
    case CreateTable(b, k, uri) =>
      if b !in bs then None else Some(bs[b := bs[b][k := Table(uri, [])]])
    case ImportData(b, k, f, err) =>
      if b !in bs || k !in bs[b] then None
      else if err != "" then Some(bs)
      else Some(bs[b := bs[b][k := Table(bs[b][k].searchUri, bs[b][k].files + [f])]])
    case Run(b, o) =>
      if b !in bs then None else Some(bs[b := bs[b] + o.written])
    case MergeBranch(s, i, rej) =>
      if s !in bs || i !in bs then None
      else if rej.Some? then Some(bs)
      else Some(bs[i := bs[i] + bs[s]])
  }

  /** The state after a sequence of calls, or None if the catalog refuses one of them. */
  function Replay(bs: Branches, calls: seq<Call>): Option<Branches>
    decreases |calls|
  {
    if calls == [] then Some(bs)
    else match Step(bs, calls[0])
      case None => None
      case Some(bs') => Replay(bs', calls[1..])
  }

  lemma {:induction false} ReplayAppend(bs: Branches, t1: seq<Call>, t2: seq<Call>)
    ensures Replay(bs, t1 + t2) ==
      (match Replay(bs, t1)
       case None => None
       case Some(mid) => Replay(mid, t2))
    decreases |t1|
  {
    if t1 == [] {
      assert t1 + t2 == t2;
    } else {
      assert (t1 + t2)[0] == t1[0];
      assert (t1 + t2)[1..] == t1[1..] + t2;
      match Step(bs, t1[0])
      case None =>
      case Some(bs') => ReplayAppend(bs', t1[1..], t2);
    }
  }

  lemma ReplaySingle(bs: Branches, c: Call)
    ensures Replay(bs, [c]) == Step(bs, c)
  {
    assert [c][1..] == [];
  }

  /** The catalog client object. */
  class Client {
    var branches: Branches
    var log: seq<Call>

    ghost predicate Valid()
      reads this
    {
      Main in branches
    }

    constructor (trunk: Snapshot)
      ensures Valid() && branches == map[Main := trunk] && log == []
    {
      branches := map[Main := trunk];
      log := [];
    }

    method HasBranch(name: BranchName) returns (found: bool)
      modifies this
      ensures found == (name in old(branches))
      ensures branches == old(branches)
      ensures log == old(log) + [Call.HasBranch(name, found)]
      ensures Step(old(branches), Call.HasBranch(name, found)) == Some(branches)
    {
      found := name in branches;
      log := log + [Call.HasBranch(name, found)];
    }

    /** The client refuses to create a branch whose name exists or whose parent does not. */
    method CreateBranch(name: BranchName, parent: BranchName)
      requires name !in branches && parent in branches
      requires Valid()
      modifies this
      ensures Valid()
      ensures branches == old(branches)[name := old(branches)[parent]]
      ensures log == old(log) + [Call.CreateBranch(name, parent)]
      ensures Step(old(branches), Call.CreateBranch(name, parent)) == Some(branches)
    {
      branches := branches[name := branches[parent]];
      log := log + [Call.CreateBranch(name, parent)];
    }

    /** The client refuses to delete a branch that does not exist, or `main`. */
    method DeleteBranch(name: BranchName)
      requires name in branches && name != Main
      requires Valid()
      modifies this
      ensures Valid()
      ensures branches == old(branches) - {name}
      ensures log == old(log) + [Call.DeleteBranch(name)]
      ensures Step(old(branches), Call.DeleteBranch(name)) == Some(branches)
    {
      branches := branches - {name};
      log := log + [Call.DeleteBranch(name)];
    }

    /** `create_table(..., replace=True)`: the table is (re)created empty, with
        the schema found at `searchUri`, whether or not it existed. */
    method CreateTable(branch: BranchName, key: TableKey, searchUri: string)
      requires branch in branches
      requires Valid()
      modifies this
      ensures Valid()
      ensures branches == old(branches)[branch := old(branches)[branch][key := Table(searchUri, [])]]
      ensures log == old(log) + [Call.CreateTable(branch, key, searchUri)]
      ensures Step(old(branches), Call.CreateTable(branch, key, searchUri)) == Some(branches)
    {
      branches := branches[branch := branches[branch][key := Table(searchUri, [])]];
      log := log + [Call.CreateTable(branch, key, searchUri)];
    }

    /** `import_data`: `error` is the outcome the import will report ("" for
        none); the file is appended to the table only when it is "". The
        reported error is returned, as the plan state's `error` field. */
    method ImportData(branch: BranchName, key: TableKey, file: DataFile, error: string)
      returns (reported: string)
      requires branch in branches && key in branches[branch]
      requires Valid()
      modifies this
      ensures Valid()
      ensures reported == error
      ensures var t := old(branches)[branch][key];
        branches == if error != "" then old(branches)
                    else old(branches)[branch := old(branches)[branch][key := Table(t.searchUri, t.files + [file])]]
      ensures log == old(log) + [Call.ImportData(branch, key, file, error)]
      ensures Step(old(branches), Call.ImportData(branch, key, file, error)) == Some(branches)
    {
      if error == "" {
        var t := branches[branch][key];
        branches := branches[branch := branches[branch][key := Table(t.searchUri, t.files + [file])]];
      }
      reported := error;
      log := log + [Call.ImportData(branch, key, file, error)];
    }

    /** `run`: the pipeline writes its tables on the branch, then returns a
        job id or raises; `raised` tells which. */
    method Run(branch: BranchName, outcome: RunOutcome) returns (raised: bool)
      requires branch in branches
      requires Valid()
      modifies this
      ensures Valid()
      ensures raised == outcome.Raised?
      ensures branches == old(branches)[branch := old(branches)[branch] + outcome.written]
      ensures log == old(log) + [Call.Run(branch, outcome)]
      ensures Step(old(branches), Call.Run(branch, outcome)) == Some(branches)
    {
      branches := branches[branch := branches[branch] + outcome.written];
      raised := outcome.Raised?;
      log := log + [Call.Run(branch, outcome)];
    }

    /** `merge_branch`: atomically copies the source's tables into `into`, or,
        when the catalog rejects the merge, raises and changes nothing. */
    method MergeBranch(source: BranchName, into: BranchName, rejection: Option<string>)
      returns (merged: bool)
      requires source in branches && into in branches
      requires Valid()
      modifies this
      ensures Valid()
      ensures merged == rejection.None?
      ensures branches == if merged then old(branches)[into := old(branches)[into] + old(branches)[source]]
                          else old(branches)
      ensures log == old(log) + [Call.MergeBranch(source, into, rejection)]
      ensures Step(old(branches), Call.MergeBranch(source, into, rejection)) == Some(branches)
    {
      merged := rejection.None?;
      if merged {
        branches := branches[into := branches[into] + branches[source]];
      }
      log := log + [Call.MergeBranch(source, into, rejection)];
    }
  }
}
