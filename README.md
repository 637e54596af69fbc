# Write-Audit-Publish orchestration and customer-id extraction, in Dafny

This project models two pieces of a scheduled data-product job.

1. **The Write-Audit-Publish (WAP) cycles of `src/serverless/handler.py`.**
   The handler drives a Git-like table catalog through a client object.
   - The **ingestion cycle** (`_add_mock_data_to_input_port`) builds the name
     `<user>.ingestion_<id>` and deletes a stale branch of that name, if any.
     It forks that branch from `main`, then create-or-replaces the input-port
     table on it and imports the staged file into that table. An import that
     reports an error raises `RuntimeError("Error ingesting data: …")`. A clean
     import is merged into `main`, and then the branch is deleted.
   - The **transformation cycle** (the sandbox block of `lambda_handler`) builds
     `<user>.sandbox_<table>_<id>`, deletes a stale branch of that name and forks
     the branch from `main`. It runs the pipeline on the branch, then merges the
     branch and deletes it. Any exception from the run or the merge is caught,
     and the branch is then kept, neither merged nor deleted, for inspection.
   - `lambda_handler` runs ingestion (its errors propagate) and then the
     transformation (its errors are caught), and returns `True`.

   The catalog (module `Catalog`) is a map from branch name to table snapshot
   with `main` always present, plus a log of every client call. `Step` gives
   the catalog's semantics of one call and `Replay` those of a sequence of
   calls. The class `Catalog.Client` performs each call on its fields. The
   orchestrators (module `Handler`) are methods over a `Client`. Each states
   the calls it makes, in order, as a function of its inputs. It also states
   the state it leaves. Lemmas replay those calls against `Step` and read
   off the properties: merge is gated on success; the branch is deleted
   exactly on success and kept on every failure; `main` is either unchanged
   or holds the branch's tables.

2. **`extract_customer_id_from_logs` in `src/bpln_pipeline/models.py`**
   (module `CustomerIds`). Each log message is split with Python's
   `split(' ')`. The second token goes through `int()`. The result is a table
   with the columns `request_id` and `customer_id`, row for row. `split(' ')`
   is proved to round-trip with `' '.join`. `int()` is proved to round-trip
   with `str()`. The extraction is characterised by the message's shape.

Three behaviours of the code are worth stating plainly:
- The ingestion cycle never deletes its branch without merging it. On an
  import error or a rejected merge it raises and leaves the branch in place.
- The handler returns `True` whenever ingestion succeeds, even if the
  transformation failed.
- The comment at `handler.py:154` says the branch is deleted when something
  goes wrong. The code does not delete it, and neither does the model.

## Model

| member | source | states |
|---|---|---|
| `Catalog.Client.HasBranch` | src/serverless/handler.py:61 | answers whether the branch exists, changes no branch, logs the call |
| `Catalog.Client.CreateBranch` | src/serverless/handler.py:64 | callable only for a new name and an existing parent; the new branch is a copy of the parent |
| `Catalog.Client.DeleteBranch` | src/serverless/handler.py:62 | callable only for an existing branch other than `main`; removes exactly that branch |
| `Catalog.Client.CreateTable` | src/serverless/handler.py:70-76 | with `replace=True` the table is recreated empty on the branch, whether or not it existed |
| `Catalog.Client.ImportData` | src/serverless/handler.py:79-84 | returns the reported error; the file is appended to the table only when no error is reported |
| `Catalog.Client.Run` | src/serverless/handler.py:157-163 | the run's writes land on its branch only; reports whether it raised |
| `Catalog.Client.MergeBranch` | src/serverless/handler.py:91-94 | a merge either copies all source tables into the target or, when rejected, changes nothing |
| `Handler.IngestionBranch` | src/serverless/handler.py:58 | the ingestion branch name `<user>.ingestion_<id>` is never `main` |
| `Handler.SandboxBranch` | src/serverless/handler.py:144 | the sandbox branch name `<user>.sandbox_<table>_<id>` is never `main` |
| `Handler.BranchNamesDistinct` | src/serverless/handler.py:144 | for one user, the sandbox name never coincides with the ingestion name of line 58, whatever the ids |
| `Handler.RecreateFromMain` | src/serverless/handler.py:61-64 | a stale branch of the same name is deleted first, so `create_branch` never meets an existing name; the branch starts as a copy of `main`; nothing else changes |
| `Handler.Publish` | src/serverless/handler.py:91-97 | merge happens before delete; the branch is deleted only if the merge went through, and a rejected merge changes nothing |
| `Handler.AddMockDataToInputPort` | src/serverless/handler.py:57-99 | exact call order; an import error raises `RuntimeError` with the message, before any merge or delete, leaving the branch and `main` unchanged; on success `main` holds the replaced table with exactly the imported file, whose row count is returned, and the branch is gone |
| `Handler.RunSandbox` | src/serverless/handler.py:143-182 | exact call order; merged and deleted only if the run returns and the merge goes through; on any caught exception the branch is kept with the run's writes and `main` is unchanged |
| `Handler.LambdaHandler` | src/serverless/handler.py:115-197 | an ingestion error propagates and no sandbox call is made; otherwise the result is `True` whatever the transformation's outcome; the final catalog composes the two cycles |
| `Handler.RecreateReplays` | src/serverless/handler.py:150-153 | the guard's calls are all accepted by the catalog and leave a fresh copy of `main` on the branch |
| `Handler.PublishReplays` | src/serverless/handler.py:167-174 | replayed, merge-then-delete leaves `main` with the branch's tables and no branch, or changes nothing if the merge is rejected |
| `Handler.DecisionReplays` | src/serverless/handler.py:167-182 | after the work on a branch, publishing on success (or doing nothing on failure) replays to the branch merged and gone, or kept with `main` unchanged |
| `Handler.StageReplays` | src/serverless/handler.py:70-86 | replayed on a fresh fork, create-table then import leaves the replaced table holding the file exactly when the import reported no error |
| `Handler.IngestionReplays` | src/serverless/handler.py:57-97 | every call of the ingestion cycle is accepted by the catalog, and the end state is the one the method promises |
| `Handler.SandboxReplays` | src/serverless/handler.py:150-182 | every call of the transformation cycle is accepted by the catalog, and the end state is the one the method promises |
| `Handler.IngestionCleanup` | src/serverless/handler.py:85-97 | each merge comes after an import with no error, and there is at most one merge; the branch is deleted only right after an accepted merge; it is deleted if and only if the cycle succeeds |
| `Handler.SandboxCleanup` | src/serverless/handler.py:155-182 | each merge comes after a run that returned, and there is at most one merge; the sandbox branch is deleted only right after an accepted merge; it is deleted if and only if run and merge both succeed |
| `CustomerIds.SplitSpace` | src/bpln_pipeline/models.py:32 | `split(' ')` always yields at least one token |
| `CustomerIds.JoinSplit` | src/bpln_pipeline/models.py:32 | joining the tokens with single spaces gives back the message |
| `CustomerIds.SplitTokensHaveNoSpace` | src/bpln_pipeline/models.py:32 | no token contains a space |
| `CustomerIds.SplitJoin` | src/bpln_pipeline/models.py:32 | any space-free tokens are exactly what splitting their join returns, so the two lemmas above determine `split(' ')` |
| `CustomerIds.SplitNoSpace` | src/bpln_pipeline/models.py:32 | a string without a space is a single token |
| `CustomerIds.SplitAtFirstSpace` | src/bpln_pipeline/models.py:32 | the first token runs to the first space and the rest is split on its own |
| `CustomerIds.SecondTokenExists` | src/bpln_pipeline/models.py:32 | index 1 of the split exists if and only if the message contains a space |
| `CustomerIds.ParseInt` | src/bpln_pipeline/models.py:32 | `int(token)` restricted to ASCII literals (see its line under Left out): it accepts a token if and only if the token is an integer literal (one or more digits, optionally after a `+` or `-`), and gives a negative value only after a `-` |
| `CustomerIds.DigitsValueShowNat` | src/bpln_pipeline/models.py:32 | the decimal digits of a natural number read back as that number |
| `CustomerIds.ParseLeadingZeros` | src/bpln_pipeline/models.py:32 | leading zeros and an explicit sign do not change the value: `int("007") == int("+007") == 7`, `int("-007") == -7` and `int("-0") == 0`, for any number and any run of zeros |
| `CustomerIds.ParseUnsigned` | src/bpln_pipeline/models.py:32 | every non-empty run of ASCII digits, leading zeros included, is read as the number its digits spell |
| `CustomerIds.ParseSign` | src/bpln_pipeline/models.py:32 | a `+` or `-` followed by such a run is read as that number, negated after `-` |
| `CustomerIds.ParseShow` | src/bpln_pipeline/models.py:32 | `int(str(n)) == n` for every integer, and `str(n)` has no space |
| `CustomerIds.CustomerId` | src/bpln_pipeline/models.py:32 | `int(message.split(' ')[1])` for one cell: `AttributeError` exactly when the cell is not a string (null or integer); a message that parses contains a space; a `ValueError` names a space-free token that `int` rejects (the `IndexError` case is `NoSecondToken`) |
| `CustomerIds.SecondTokenParsed` | src/bpln_pipeline/models.py:32 | for a message `p + ' ' + token + rest` with space-free `p` and `token`, the customer id is `int(token)`, or a `ValueError` naming the token |
| `CustomerIds.ShownIdRecovered` | src/bpln_pipeline/models.py:30-32 | any integer written between the first and second space is the extracted customer id |
| `CustomerIds.WorkedExample` | src/bpln_pipeline/models.py:30 | `'######## 8 ########'` yields customer id 8 |
| `CustomerIds.NoSecondToken` | src/bpln_pipeline/models.py:32 | a message without a space fails with `IndexError` |
| `CustomerIds.DoubleSpaceRejected` | src/bpln_pipeline/models.py:32 | two spaces after the first token give an empty second token, which fails with `ValueError` |
| `CustomerIds.CustomerIds` | src/bpln_pipeline/models.py:32 | succeeds if and only if every message parses; then one id per message, in order; otherwise the error is that of the first failing message |
| `CustomerIds.IndexOf` | src/bpln_pipeline/models.py:31 | the position of the first column with that name, or the column count if there is none |
| `CustomerIds.Column` | src/bpln_pipeline/models.py:31 | a column lookup succeeds if and only if exactly one column has the name, and then gives that column; a missing or repeated name raises `KeyError` for that name |
| `CustomerIds.AppendColumn` | src/bpln_pipeline/models.py:33 | `append_column` adds a last column and keeps names and columns paired; a name the table did not have then looks up the new values, and every other name looks up exactly what it did before |
| `CustomerIds.Select` | src/bpln_pipeline/models.py:35 | the result has exactly the asked-for names, in order, each with the column of that name; it fails if any name is missing or repeated in the table |
| `CustomerIds.Int64Array` | src/bpln_pipeline/models.py:33 | `pa.array` succeeds if and only if every id fits in 64 bits, and then holds one integer cell per id, in order; otherwise it raises an overflow error |
| `CustomerIds.OversizedIdRejected` | src/bpln_pipeline/models.py:32-33 | a message whose second token is an id outside the 64-bit range parses, but the extraction then fails with the overflow error |
| `CustomerIds.SelectIdColumns` | src/bpln_pipeline/models.py:33-35 | after appending `customer_id`, selecting gives the request-id column and then the id column |
| `CustomerIds.ExtractCustomerIdFromLogs` | src/bpln_pipeline/models.py:31-35 | succeeds if and only if every message parses to an id that fits in 64 bits; output columns are exactly `request_id, customer_id`; request ids are copied unchanged; there is one row per input row; row i's id is the integer parsed from message i's second token; an unparsable message fails the whole extraction with the first failure's error, and otherwise an oversized id fails it with the overflow error |

## Left out

- Mock data generation (numpy and pyarrow) and its row-count formula are float arithmetic and random data. The row count is an input number.
- The S3 upload and the temporary file are external I/O. The staged file is an input URI, which exists before the import.
- The `git clone` and the descriptor-file `assert` are process and filesystem I/O. `LambdaHandler` assumes both succeed.
- Timing, uuids, the date string, the printed messages and metrics, and the module-level client setup are left out. The ids are input strings. Only what the caught exception would print is returned (`SandboxResult`).
- `client_timeout=500` is not modelled as real time. A timeout is one more way the run raises (`RunOutcome.Raised`).
- The external outcomes are inputs: the error the import reports, whether the run raises and what it writes, and whether a merge is rejected. `plan_state.error` is a string in which `""` stands for both `None` and `''`, since the `if` treats both as no error.
- `run` and `merge_branch` are assumed to raise on every failure. The code reads no returned status from either call (`handler.py:157-170`). A run that returned a failed status would still be merged, and its branch deleted. The model has no such outcome, so `Succeeded` treats every run that returns as successful. `MergesFollowSuccess` and `SandboxCleanup` rest on this assumption.
- A pipeline run may write tables on its branch before it raises. The model allows this, and `main` still stays unchanged.
- Failures of `has_branch`, `create_branch`, `create_table`, `import_data` and `delete_branch` themselves (transport or auth errors) are not modelled. The lemmas show that the orchestrators always call these with arguments the catalog accepts.
- A merge is modelled as copying all of the source branch's tables over those of `main`. The catalog's conflict detection is only "the merge may be rejected". Three-way merging of concurrent writes to `main` is not modelled.
- `create_table` is modelled only with `replace=True`, the only way it is called.
- The bauplan decorators, the `REPLACE` materialisation and the `filter` string of the input model are runtime behaviour. The input table is taken to have exactly the two declared columns `message` and `request_id`, in that order.
- ParseInt: accepts only an optional sign followed by ASCII digits. Python's `int()` also accepts surrounding whitespace (such as a tab or a newline inside a token), underscores between digits and non-ASCII digits. Those inputs are rejected here. The model also has no limit on the number of digits. CPython 3.10.7 and later raise `ValueError` for more than 4300 digits by default, where the model parses the token.
- ParseShow: proves `int(str(n)) == n` for every integer, without CPython's 4300-digit limit on `int()` and `str()`. In the extraction, CPython raises `ValueError` at the first token of more than 4300 digits. Such an id is outside the 64-bit range, so the model also fails, but with a different error: the error of the first later message that does not parse, or else the overflow error.
- Int64Array: the id column is taken to be 64-bit signed. Any other type pyarrow might infer for very large ids (such as unsigned 64-bit) is not modelled.
