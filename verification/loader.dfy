/**
  `load_batch_json`: read the files of one window and concatenate their rows.
  Every file is processed inside its own `try`; an exception is reported as a
  warning naming the file, and the loop goes on with the next file.
 */
module Loader {
  import opened Json
  import opened Records
  import opened Batching

  /** Rows appended to `data`, and the files for which a warning was shown, in order. */
  datatype BatchResult = BatchResult(rows: seq<Row>, warnings: seq<string>)

  /** The outer loop over the given file names. */
  function LoadFiles(names: seq<string>, disk: Disk): (b: BatchResult)
    ensures forall i :: 0 <= i < |b.rows| ==> b.rows[i].filename in names
    ensures forall w :: w in b.warnings ==> w in names
    ensures |b.warnings| <= |names|
  {
    if |names| == 0 then BatchResult([], [])
    else
      var here := FileRows(names[0], disk(names[0]));
      var rest := LoadFiles(names[1..], disk);
      BatchResult(here.rows + rest.rows, (if here.failed then [names[0]] else []) + rest.warnings)
  }

  /** A file is warned about at most as often as it occurs in the run: one warning per
      occurrence whose `try` failed, and never for a file outside the run. */
  lemma {:induction false} AtMostOneWarningPerFile(names: seq<string>, disk: Disk)
    ensures forall w :: multiset(LoadFiles(names, disk).warnings)[w] <= multiset(names)[w]
    decreases |names|
  {
    if |names| > 0 {
      AtMostOneWarningPerFile(names[1..], disk);
      assert names == [names[0]] + names[1..];
    }
  }

  /** `load_batch_json(file_list, start_index, batch_size)`. */
  function LoadBatch(files: seq<string>, start: nat, size: nat, disk: Disk): (b: BatchResult)
    ensures forall i :: 0 <= i < |b.rows| ==> b.rows[i].filename in Window(files, start, size)
    ensures start >= |files| ==> b == BatchResult([], [])
  {
    LoadFiles(Window(files, start, size), disk)
  }

  /** One step of the outer loop: the first file's rows and warning, then the rest. */
  lemma LoadFilesUnfold(names: seq<string>, disk: Disk)
    requires |names| > 0
    ensures LoadFiles(names, disk).rows
         == FileRows(names[0], disk(names[0])).rows + LoadFiles(names[1..], disk).rows
    ensures LoadFiles(names, disk).warnings
         == (if FileRows(names[0], disk(names[0])).failed then [names[0]] else [])
            + LoadFiles(names[1..], disk).warnings
  {
  }

  /** Loading two runs of files one after the other is loading them together:
      nothing a file does, failing included, changes what the following files contribute. */
  lemma {:induction false} LoadFilesAppend(a: seq<string>, b: seq<string>, disk: Disk)
    ensures LoadFiles(a + b, disk).rows == LoadFiles(a, disk).rows + LoadFiles(b, disk).rows
    ensures LoadFiles(a + b, disk).warnings == LoadFiles(a, disk).warnings + LoadFiles(b, disk).warnings
    decreases |a|
  {
    if |a| > 0 {
      var ab := a + b;
      assert ab[0] == a[0];
      assert ab[1..] == a[1..] + b;
      LoadFilesAppend(a[1..], b, disk);
      var h := FileRows(a[0], disk(a[0]));
      var tag := if h.failed then [a[0]] else [];
      var tail := LoadFiles(a[1..], disk);
      var rest := LoadFiles(b, disk);
      LoadFilesUnfold(ab, disk);
      LoadFilesUnfold(a, disk);
      assert LoadFiles(ab, disk).rows == h.rows + (tail.rows + rest.rows);
      assert LoadFiles(ab, disk).warnings == tag + (tail.warnings + rest.warnings);
    } else {
      assert a + b == b;
    }
  }

  /** A file in the middle of a batch contributes exactly its own rows (for a failing
      list file, the rows appended before the exception), is warned about exactly when it
      failed, and the files after it are loaded as if it were not there. */
  lemma FailureDoesNotAbortBatch(before: seq<string>, name: string, after: seq<string>, disk: Disk)
    ensures LoadFiles(before + [name] + after, disk).rows
         == LoadFiles(before, disk).rows + FileRows(name, disk(name)).rows + LoadFiles(after, disk).rows
    ensures LoadFiles(before + [name] + after, disk).warnings
         == LoadFiles(before, disk).warnings
            + (if FileRows(name, disk(name)).failed then [name] else [])
            + LoadFiles(after, disk).warnings
  {
    var single := LoadFiles([name], disk);
    var h := FileRows(name, disk(name));
    assert [name][1..] == [];
    LoadFilesUnfold([name], disk);
    assert single.rows == h.rows;
    assert single.warnings == if h.failed then [name] else [];
    LoadFilesAppend(before + [name], after, disk);
    LoadFilesAppend(before, [name], disk);
  }

  /** The rows of the batch at `start` followed by those of the batch at `start + size`
      are the rows of the double-sized batch at `start`. */
  lemma ConsecutiveBatches(files: seq<string>, start: nat, size: nat, disk: Disk)
    ensures LoadBatch(files, start, size, disk).rows + LoadBatch(files, start + size, size, disk).rows
         == LoadBatch(files, start, 2 * size, disk).rows
  {
    AdjacentWindows(files, start, size);
    LoadFilesAppend(Window(files, start, size), Window(files, start + size, size), disk);
  }

  /** The same computation as Python writes it: one loop over the window, appending
      each file's rows to `data` and a warning for each file whose `try` failed. */
  method LoadBatchJson(fileList: seq<string>, startIndex: nat, batchSize: nat, disk: Disk)
    returns (data: seq<Row>, warnings: seq<string>)
    ensures data == LoadBatch(fileList, startIndex, batchSize, disk).rows
    ensures warnings == LoadBatch(fileList, startIndex, batchSize, disk).warnings
  {
    data := [];
    warnings := [];
    var endIndex := Min(startIndex + batchSize, |fileList|);
    var window := if startIndex <= endIndex then fileList[startIndex..endIndex] else [];
    var k := 0;
    while k < |window|
      invariant 0 <= k <= |window|
      invariant data == LoadFiles(window[..k], disk).rows
      invariant warnings == LoadFiles(window[..k], disk).warnings
    {
      var filename := window[k];
      var outcome := FileRows(filename, disk(filename));
      data := data + outcome.rows;
      if outcome.failed {
        warnings := warnings + [filename];
      }
      LoadFilesAppend(window[..k], [filename], disk);
      assert window[..k + 1] == window[..k] + [filename];
      k := k + 1;
    }
    assert window[..k] == window;
  }
}
