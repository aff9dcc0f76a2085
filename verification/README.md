# Medical QA viewer: data layer

A Dafny model of the data handling of the Streamlit app `app.py` (a viewer and
editor for medical question/answer JSON files). The app lists the `.json` files
of a folder, loads them 100 files at a time, flattens each file's records into
rows with seven fields, lets the user delete rows by position (rewriting the
output file `merged_data_after_delete.json` after every deletion) and pages on
to the next 100 files.

Modules, one per concern of the script:

- `Json` (json.dfy): the parsed JSON value handed over by `json.load`, and a
  per-file read outcome `Parsed(doc) | Unreadable`. The folder is a total function
  `Disk = string -> Source`. `Option` marks where Python raises.
- `FileListing` (file_listing.dfy): `list_json_files`, as a suffix filter followed by
  an insertion sort under Python's `str` order (code-point lexicographic, a prefix first).
- `Batching` (batching.dfy): the window `file_list[start : min(start+B, len)]`, the
  "load next" guard, and the fact that the windows at 0, B, 2B, ... cover the list once.
- `Records` (records.dfy): one record to one row with the `.get` defaults; a list
  file, an object file and any other shape; where Python raises.
- `Loader` (loader.dfy): `load_batch_json` as a function over the window, its
  compositional properties, and a loop-based method matching the Python loop.
- `SessionState` (session.dfy): `st.session_state` plus the content of the output
  file, with the transitions of the script (first run, reload when empty, delete,
  load next) and the invariant every reachable session keeps.

Behaviour that the model follows from the code:

- A failure inside a list file is caught after the rows of the earlier elements were
  appended, so the file contributes that prefix of rows and a warning; a file is not
  all-or-nothing. A record whose `*_translated` value is present but not an object
  (for example `null` or a string) raises, as does a list element that is not an object.
- "Load next" replaces `data` with the new batch; it does not append.
- Every rerun reloads the current batch when `data` is empty. Deleting the last
  remaining row therefore brings the batch's rows back on screen while the output
  file holds `[]` (`SessionState.DeletingLastRowReloadsBatch`).
- Field values are copied as they are, whatever JSON they hold; only missing keys
  become `""`.

## Model

| member | source | states |
|---|---|---|
| FileListing.FilterJson | app.py:16 | every kept name ends in ".json"; each name with the suffix is kept as often as listed, others never |
| FileListing.SortNames | app.py:16 | the result is in ascending `str` order and is a permutation of the input |
| FileListing.ListJsonFiles | app.py:15-16 | the listing is ascending and holds exactly the ".json" names, with their multiplicities |
| FileListing.ListJsonFilesIsTheSortedSelection | app.py:15-16 | any ascending sequence with exactly those names equals the listing, so the listing is fully determined by that property |
| FileListing.ListedIffJsonName | app.py:15-16 | a name is listed if and only if the folder holds it and it ends in ".json" |
| FileListing.SortedUnique | app.py:16 | two ascending orders of the same names are equal |
| Batching.Window | app.py:21-22 | the window holds at most B files, is empty when start is at or past the end, otherwise holds min(B, len - start) files, the i-th being file start + i |
| Batching.VisitedIsSuffix | app.py:106-115 | pressing "load next" while it is offered, from an offset inside the list, reads the rest of the list exactly once, in order |
| Batching.VisitedFromStartIsAll | app.py:106-115 | the batches from offset 0 read the whole list exactly once, in order |
| Batching.AdjacentWindows | app.py:21-22 | the windows at start and start + B are adjacent and together form the window of size 2B |
| Records.RowOf | app.py:38-46 | a row exists iff every translated key is absent or an object; its filename is the file; plain fields are copied or `""`; translated fields are the nested "result" or `""` |
| Records.ListRows | app.py:26-36 | the rows are those of the longest prefix of elements that build a row, i-th row from i-th element; failure iff the prefix is shorter than the list, and then the next element cannot build a row |
| Records.FileRows | app.py:23-49 | every row carries the file's name; unreadable gives no row and a failure; an object gives one row iff it is well-formed, otherwise a failure; a list gives rows built from its first elements in order, failing iff fewer rows than elements; any other shape gives no row and no failure |
| Records.ObjectFileGivesItsRow | app.py:37-46 | a file holding one well-formed object yields exactly the row built from it with the `.get` defaults, and no warning |
| Records.ListFileStopsAtBadElement | app.py:26-36 | a failing list file stops at an element that cannot build a row, right after the kept rows |
| Records.WellFormedListGivesOneRowPerElement | app.py:26-36 | a list of k well-formed objects gives exactly k rows in element order and no warning |
| Records.FailingListKeepsPrefix | app.py:26-48 | when element k is the first bad one, the file is warned about and keeps exactly the k rows before it |
| Loader.LoadFiles | app.py:22-49 | every row comes from a file of the run, every warning names a file of the run, no more warnings than files |
| Loader.AtMostOneWarningPerFile | app.py:22-49 | each file is warned about at most as often as it occurs in the run |
| Loader.LoadBatch | app.py:19-49 | every row's filename lies in the batch window; a start at or past the end loads nothing |
| Loader.LoadFilesAppend | app.py:22-49 | loading two runs of files in sequence equals loading them together, rows and warnings |
| Loader.FailureDoesNotAbortBatch | app.py:22-49 | a file contributes exactly its own rows and its warning, and the files after it load as if it were absent |
| Loader.ConsecutiveBatches | app.py:19-22 | the rows of two consecutive batches are the rows of the double-sized batch |
| Loader.LoadBatchJson | app.py:19-49 | the loop over the window computes the same rows and warnings as the functional definition |
| SessionState.RemoveAt | app.py:94 | popping position i shortens the list by one, keeps the rows before i and shifts the later ones down by one |
| SessionState.Init | app.py:57-60 | a new session has offset 0, no rows, no saved file, and the sorted ".json" listing |
| SessionState.Refresh | app.py:63-68 | an empty `data` becomes the rows of the batch at the current offset; otherwise nothing changes |
| SessionState.Start | app.py:57-68 | the first run shows the rows of the first batch of the sorted listing |
| SessionState.Delete | app.py:93-95 | the chosen row is removed, the others keep their order, the saved file equals the new rows |
| SessionState.LoadNext | app.py:106-114 | when offered, the offset advances by 100 and stays inside the list, and `data` is replaced by the new batch's rows; otherwise nothing changes |
| SessionState.StartIsConsistent | app.py:57-68 | the first run yields a consistent session (sorted listing, offset a multiple of 100 inside the list, rows a subsequence of the batch) |
| SessionState.RefreshKeepsConsistent | app.py:63-68 | the reload at the top of a rerun keeps a session consistent |
| SessionState.DeleteKeepsConsistent | app.py:93-95 | a deletion keeps a session consistent |
| SessionState.LoadNextKeepsConsistent | app.py:106-114 | loading the next batch keeps a session consistent |
| SessionState.StepKeepsConsistent | app.py:63-115 | every action with its rerun keeps a session consistent |
| SessionState.DeleteRemovesExactlyThatRow | app.py:93-95 | the rows after a deletion plus the deleted row are the rows before, as a multiset; the saved file equals the rows |
| SessionState.DeleteShiftsLaterRows | app.py:93-97 | from [a, b, c, d, e], deleting position 2 leaves [a, b, d, e], and deleting position 2 again removes d |
| SessionState.DeletingLastRowReloadsBatch | app.py:63-97 | deleting the only row makes the rerun reload the current batch, while the saved file is empty |
| SessionState.LoadNextReplacesData | app.py:109-114 | the state after "load next" does not depend on the rows held before it |
| SessionState.RerunAfterLoadIsStable | app.py:63-68 | a rerun leaves a freshly loaded session unchanged |
| SessionState.BatchesFromIsVisited | app.py:106-115 | the windows a session shows by pressing "load next" are those of the pagination scheme |
| SessionState.DeleteKeepsBatches | app.py:93-115 | a deletion with its rerun does not change which files the following pages show |
| SessionState.PagingVisitsEveryFileOnce | app.py:57-115 | paging from the first run by "load next" shows every listed file exactly once, in sorted order |
| SessionState.HundredFiftyFiles | app.py:106-115 | with 150 files, the first run shows files 0-99, "load next" shows files 100-149 and is then no longer offered |

## Left out

- Streamlit rendering (page config, header, columns, HTML escaping of cells, buttons,
  success and info messages, `st.rerun`): presentation only. A warning is kept as the
  name of the failing file in `Loader.BatchResult.warnings`; its text is not modelled, and
  the session does not keep warnings.
- `pandas.DataFrame`: a foreign library; the model relies only on row `idx` of the table
  being position `idx` of `data`.
- `os.listdir`, `open` and `json.load`: I/O and a foreign parser. The listing is an input
  sequence of names and every file's content is a `Source`; the folder does not change
  during a session.
- JSON numbers are exact rationals; the parser's floating-point rounding is not modelled
  (values are only copied, never computed with).
- `save_to_json` and the download button: the byte format of `json.dump` (`indent=2`,
  `ensure_ascii=False`) is not modelled; persisting is "the saved value equals `data`".
  A file left over from an earlier session is not modelled (`saved` starts as `None`).
- SessionState.Delete: requires a position that is shown; `pop` on a missing position
  raises `IndexError`, which the page cannot trigger because buttons exist only for rows.
- SessionState.Delete: a failure of `save_to_json` after `pop` is not modelled; the
  exception would leave `data` shortened and the file unchanged, while the model always
  records the save. Write errors are I/O outside the model.
- `Session.saved` is the output file as one session sees it. `SAVE_PATH` is a single file
  shared by every browser session of the server, so concurrent sessions overwrite each
  other's saves; the model has one session and no concurrency.
- SessionState.Init: `os.listdir` raising for a missing data folder (aborting the first run
  and leaving `file_list` unset) is not modelled; the listing is an input.
- JSON values Python accepts but the model's types cannot hold are not modelled: `NaN` and
  `Infinity` numbers (a `real` has no such values), and strings or file names containing
  lone surrogates (a Dafny `string` holds only Unicode scalar values).
- An "append" policy for paging is not modelled: the code replaces `data` on every page.
