# gender_identification: a Dafny model of the inference command

`infer_gender` (in `gender_identification/cli.py`) does five things in a row:

- It reads a table whose format is chosen by the input path's suffix.
- It takes the values of one name column.
- It optionally removes each name's last whitespace-separated token.
- It sends the names to a pretrained classifier in batches of 32.
- It appends the predictions as `gender` (and `gender_confidence`) columns and writes the table in the format chosen by the output path's suffix.

This project models that command and proves the properties it depends on.

- `formats.dfy`, module `Formats`: the suffix dispatch of `load_table` and `write_table`. One leading `.` is removed. Exactly `csv`, `tsv` and `jsonl` are accepted, case-sensitively. The function returns which pandas reader or writer is used, with its separator.
- `batcher.dfy`, module `Batcher`: the `batched` generator.
  - `Batches` is the reference definition.
  - `Cursor` is a class that models the stateful iterator `iter(iterable)`. Its `Islice` method models `list(islice(it, n))`.
  - `BatchedLoop` is the `while batch := ...` loop, proved equal to `Batched`.
  - The lemmas prove reconstruction, batch sizes, the batch count, the exact contents of each batch and the size of the last batch.
- `names.dfy`, module `Names`: Python's argument-less `str.split()` (on Python's whitespace characters), `" ".join`, the slice `[:-1]`, and the list comprehension that removes last names. Proved properties:
  - splitting loses only whitespace;
  - joining tokens with single spaces and splitting again gives the tokens back;
  - the result of removal consists of the name's tokens without the last;
  - a name becomes `""` exactly when it has at most one token.
- `orchestrator.dfy`, module `Orchestrator`: `infer_gender` itself.
  - `InferGender` is a method, proved equal to the specification function `Pipeline`. Its inference loop is the method `ClassifyInBatches`, which extends a `results` list with the classifier's output for each batch and is proved equal to `Predictions`.
  - The lemmas about `Pipeline` and `Augment` state the command's guarantees. Row count, row labels, row order and existing cells are kept. The new columns follow the existing ones. Row *i* gets prediction *i*, which is the classifier's answer at position *i* mod 32 for batch *i* div 32. The lemmas also cover the error cases and the order in which they are detected.
- `wrappers.dfy`, module `Wrappers`: `Option` and `Result`.

The classifier is a parameter `classify: seq<string> -> seq<Prediction>`. The command never checks the length of a single answer. Only the total is checked, by `set_index(data.index)` (cli.py:95). A total that differs from the row count fails with `LengthMismatch(results, rows)` (`AugmentLengthMismatch`). When there are no results and the confidence column is to be dropped, the run fails earlier with `MissingConfidenceColumn`. Per-batch answers of the wrong length whose total equals the row count go unnoticed: the length check passes and row *i* receives prediction *i*, whichever batch it came from (`AugmentByPosition`). The guarantees that tie row *i* to name *i* therefore take `PreservesLength(classify)` as a hypothesis.

The table that pandas reads is the parameter `loaded`. `InferGender` returns what would be written: the reader and writer chosen by the suffixes, and the augmented table.

Behaviour of the code worth knowing:

- The code has no check of its own that the prediction count equals the row count. A mismatch surfaces only when `set_index(data.index)` (cli.py:95) raises. This is `LengthMismatch`. If the result list is empty and the confidence column is to be dropped, the `drop` call (cli.py:94) raises a `KeyError` before that point. This is `MissingConfidenceColumn`.
- The output suffix is checked only by `write_table` (cli.py:98), after all inference has run. It is not checked up front (`PipelineOrder`).
- An empty table gains no column. `json_normalize([])` has no columns, so the join adds nothing, and dropping the confidence column then fails (`AugmentEmptyTable`).
- `join` has no suffixes, so a non-empty table is refused when it already has a column the join would add. That column is `gender`, or `gender_confidence` when the confidence is kept (`AugmentExistingColumns`). An existing `gender_confidence` column does not matter when the confidence is dropped (`AugmentAligned`). An empty table adds no column, so nothing is refused.

All `.dfy` files are verified together with `dafny verify --resource-limit 2000000 --verification-time-limit 0 --warn-contradictory-assumptions *.dfy`.

## Model

| member | source | states |
|---|---|---|
| `Formats.RemoveDot` | gender_identification/cli.py:14 | `removeprefix(".")` keeps a tail of the suffix that is at most one character shorter, and it is shorter exactly when the suffix starts with a dot |
| `Formats.Dispatch` | gender_identification/cli.py:14-24 | a format is chosen exactly when the dot-stripped suffix is `csv`, `tsv` or `jsonl`, and its extension is that suffix; otherwise the error names the dot-stripped extension |
| `Formats.LoadTable` | gender_identification/cli.py:13-24 | `load_table` succeeds exactly when the dispatch does (comma reader for csv, tab reader for tsv, JSON-lines reader for jsonl); otherwise it raises the unrecognised-format error |
| `Formats.WriteTable` | gender_identification/cli.py:27-38 | `write_table` succeeds exactly when the dispatch does (csv and tsv with the index column, JSON lines for jsonl); otherwise it raises the same error |
| `Formats.DispatchAcceptsExactly` | gender_identification/cli.py:14-24 | a suffix is accepted if and only if, after one dot is removed, it is `csv`, `tsv` or `jsonl` |
| `Formats.DispatchExtension` | gender_identification/cli.py:14-20 | each format is selected by its extension with or without the dot, and by no other suffix |
| `Formats.LoadWriteAgree` | gender_identification/cli.py:28-38 | load and write accept the same suffixes and raise the same error |
| `Formats.RejectedSuffixes` | gender_identification/cli.py:21-24 | `.CSV`, the empty suffix, `.gz` (of `data.csv.gz`) and `.xlsx` are rejected, and the error names what remains after one dot is removed |
| `Batcher.Take` | gender_identification/cli.py:46 | `islice` gives the first `n` remaining items, or all of them if fewer remain |
| `Batcher.Batches` | gender_identification/cli.py:45-47 | the generator yields no batch exactly when the input is empty |
| `Batcher.Unfold` | gender_identification/cli.py:46-47 | one step of the generator on a non-empty input: a batch of between 1 and `n` items from the front, then the batches of the rest |
| `Batcher.Batched` | gender_identification/cli.py:41-44 | iterating fails with the size error if and only if `n < 1`, before any batch is produced |
| `Batcher.FlattenBatches` | gender_identification/cli.py:45-47 | concatenating the batches in yield order gives back the input exactly |
| `Batcher.BatchSizes` | gender_identification/cli.py:42-47 | every batch holds between 1 and `n` items; every batch but the last holds exactly `n`; the empty input, and only it, yields no batch |
| `Batcher.BatchCount` | gender_identification/cli.py:42-47 | the number of batches is the ceiling of `len(s) / n` |
| `Batcher.BatchAt` | gender_identification/cli.py:45-47 | batch `i` is exactly `s[i*n .. min((i+1)*n, len(s))]` |
| `Batcher.BatchEntry` | gender_identification/cli.py:45-47 | entry `r` of batch `q` is item `q*n + r` of the input |
| `Batcher.LastBatchSize` | gender_identification/cli.py:42-47 | the last batch of a non-empty input holds `len(s) mod n` items, or `n` when `n` divides `len(s)` |
| `Batcher.Cursor.constructor` | gender_identification/cli.py:45 | a fresh iterator has produced nothing, and everything remains |
| `Batcher.Cursor.Islice` | gender_identification/cli.py:46 | returns the next `n` remaining items (or all of them) and consumes exactly those |
| `Batcher.BatchedLoop` | gender_identification/cli.py:41-47 | the generator loop over a stateful iterator yields exactly `Batched(s, n)`: the size error for `n < 1`, otherwise the batches in order |
| `Names.Word` | gender_identification/cli.py:83 | the token at the start of a string is a whitespace-free prefix that ends at whitespace or at the end |
| `Names.Split` | gender_identification/cli.py:83 | every token `str.split()` produces is non-empty and contains no whitespace |
| `Names.SplitMaximalRuns` | gender_identification/cli.py:83 | the tokens are the maximal whitespace-free runs: the string is a whitespace run, token 0, a non-empty whitespace run, token 1, and so on, ending with a whitespace run |
| `Names.DropLast` | gender_identification/cli.py:83 | the slice `[:-1]` is one item shorter than a non-empty list and appending the last item gives the list back; an empty list gives `[]` |
| `Names.Join` | gender_identification/cli.py:83 | `" ".join` of no parts is `""`, and the result starts with the first part |
| `Names.RemoveLastNames` | gender_identification/cli.py:82-83 | the comprehension keeps the list's length and order, and entry `i` is name `i` with its last token removed |
| `Names.SplitKeepsNonSpace` | gender_identification/cli.py:83 | the tokens, concatenated, are exactly the non-whitespace characters of the name, in order |
| `Names.SplitJoin` | gender_identification/cli.py:83 | joining tokens with single spaces and splitting the result gives the tokens back |
| `Names.RemoveLastToken` | gender_identification/cli.py:83 | splitting the result gives the name's tokens without the last, and the result is already in single-space form |
| `Names.RemoveLastTokenEmpty` | gender_identification/cli.py:83 | a name becomes `""` if and only if it has at most one token |
| `Names.RemoveLastTokenFullName` | gender_identification/cli.py:83 | `"Alice Smith"` becomes `"Alice"` |
| `Names.RemoveLastTokenSingle` | gender_identification/cli.py:83 | `"Bob"` becomes `""` |
| `Orchestrator.ColumnIndex` | gender_identification/cli.py:81 | the name column is found if and only if the table has it, and the position found holds that name |
| `Orchestrator.FirstNonText` | gender_identification/cli.py:81-83 | finds the first name cell that is not a string, or the row count if every cell is a string |
| `Orchestrator.NameColumn` | gender_identification/cli.py:81 | a missing column is the `KeyError` `ColumnNotFound`; on success there is one name per row |
| `Orchestrator.NameColumnSpec` | gender_identification/cli.py:81 | name extraction succeeds if and only if the column exists and holds text; on success, entry `i` is row `i`'s name |
| `Orchestrator.PreparedNames` | gender_identification/cli.py:81-83 | one name per input name; unchanged without the option, otherwise name `i` is name `i`'s tokens without the last, joined by single spaces |
| `Orchestrator.ResultColumns` | gender_identification/cli.py:90-94 | the result columns after renaming are `gender`, `gender_confidence`, or `gender` alone after the drop; dropping fails if and only if there are no results |
| `Orchestrator.Cells` | gender_identification/cli.py:90-92 | a prediction contributes one cell per result column |
| `Orchestrator.JoinResults` | gender_identification/cli.py:95-96 | the join succeeds if and only if there is one result per row and no column overlap; it then keeps the row labels and row count, appends the result columns, keeps each row's cells and appends row `i`'s cells from result `i` |
| `Orchestrator.Augment` | gender_identification/cli.py:81-96 | on success the row labels and row count are kept; a name-column error ends the run with that error |
| `Orchestrator.ClassifyAll` | gender_identification/cli.py:88-89 | with a length-preserving classifier, the concatenated outputs have one entry per batched item |
| `Orchestrator.Predictions` | gender_identification/cli.py:86-89 | with a length-preserving classifier there is one result per name |
| `Orchestrator.ClassifyInBatches` | gender_identification/cli.py:86-89 | the loop that extends `results` batch by batch ends with exactly `Predictions(names, classify)` |
| `Orchestrator.ClassifyAllAppend` | gender_identification/cli.py:89 | extending the results with one more batch's output appends that output |
| `Orchestrator.ClassifyBatchesAt` | gender_identification/cli.py:86-89 | result `q*n + r` is the classifier's output `r` for batch `q` |
| `Orchestrator.PredictionsAligned` | gender_identification/cli.py:86-89 | with a length-preserving classifier there is one result per name, and result `k` is output `k mod 32` of the call for batch `k div 32`, whose entry `k mod 32` is name `k` |
| `Orchestrator.ClassifyAllPointwise` | gender_identification/cli.py:86-89 | a classifier that labels each string on its own gives, at position `k`, the label of the `k`-th string of the concatenated batches |
| `Orchestrator.PredictionsPointwise` | gender_identification/cli.py:86-89 | with such a classifier, result `k` is the label of name `k` |
| `Orchestrator.AugmentByPosition` | gender_identification/cli.py:90-96 | only the total is checked: whenever the prediction count equals the row count of a non-empty table with a text name column and none of the added columns, the output is well formed, keeps labels, rows and cells, appends the new columns and gives row `i` prediction `i` |
| `Orchestrator.AugmentAligned` | gender_identification/cli.py:86-96 | for a non-empty table with a text name column, no `gender` column (and no `gender_confidence` unless it is dropped) and a length-preserving classifier, the output is well formed. It keeps the row labels, the row count and order, and every existing cell. Its columns are the old ones plus `gender` (plus `gender_confidence` unless dropped). Row `i` carries prediction `i` |
| `Orchestrator.AugmentPointwise` | gender_identification/cli.py:81-96 | with a classifier that labels each name on its own, row `i`'s `gender` is the label of row `i`'s name, after removal of the last token when that is asked for |
| `Orchestrator.AugmentEmptyTable` | gender_identification/cli.py:90-96 | an empty table comes back unchanged, or with the drop of the confidence column it fails with `MissingConfidenceColumn` |
| `Orchestrator.AugmentLengthMismatch` | gender_identification/cli.py:93-95 | a prediction count that differs from the row count fails with `LengthMismatch(results, rows)`, except that no results with the confidence drop fail with `MissingConfidenceColumn` |
| `Orchestrator.AugmentExistingColumns` | gender_identification/cli.py:90-96 | once the prediction count equals the row count (whatever the per-batch lengths), a non-empty table that already has `gender`, or `gender_confidence` while it is kept, fails with a column-overlap error that names exactly the shared added columns |
| `Orchestrator.Pipeline` | gender_identification/cli.py:77-98 | a successful run keeps the loaded table's row labels and row count; an unsupported input suffix is reported with the dot-stripped extension |
| `Orchestrator.PipelineOrder` | gender_identification/cli.py:77-98 | a bad input suffix fails first; an augmentation error comes next; the output suffix is checked only after inference; a run succeeds if and only if all three steps do; the output suffix is the input's when none is given |
| `Orchestrator.PipelineOverwrite` | gender_identification/cli.py:78-98 | without an output path, a run that loaded its input writes in the same format and never fails on the output suffix |
| `Orchestrator.InferGender` | gender_identification/cli.py:70-98 | the command, including its loop that accumulates the per-batch results, returns exactly `Pipeline`'s reader, writer and table, or its error |

## Left out

- File I/O: pandas' `read_csv`, `read_json`, `to_csv` and `to_json` are not modelled. The loaded table is a parameter, and the result names the writer instead of writing a file. I/O errors such as a missing file are not modelled either.
- The `transformers.pipeline` model (cli.py:85) is the function parameter `classify`. Exceptions raised by the model are not modelled.
- Score values are floats. They are carried as the opaque `Float` and never computed with.
- `tqdm`, the `print` calls and the `radicli` command declarations are user-interface plumbing.
- `Path` construction and `Path.suffix`: the model takes the suffix strings as input.
- Laziness: `BatchedLoop` collects the batches into a sequence, and `ClassifyInBatches` receives all batches before its loop starts. The source instead interleaves pulling a batch with classifying it. Because `classify` is a pure function, the result is the same.
- Pandas index alignment: `WellFormed` asks for distinct row labels, which is true of the `RangeIndex` that `read_csv` and `read_json` produce. With distinct labels, `set_index` followed by `join` is exactly the positional mapping the model uses.
- `Orchestrator.NameColumn`: the source does not check that name cells are strings. A missing value or a number fails inside `str.split` or the classifier. The model reports it as `NameNotText` before classification.
- `json_normalize` is modelled only for records that carry exactly `label` and `score`, which is the classifier's output shape.
