/**
  The per-browser-session state of the viewer and its transitions (app.py, the
  top-level script). Streamlit reruns the whole script after every action; each
  run first reloads the current batch when `data` is empty, so an action followed
  by its rerun is `Step`, the action's effect followed by `Refresh`.
 */
module SessionState {
  import opened Json
  import opened Records
  import opened FileListing
  import opened Batching
  import opened Loader

  /** `st.session_state` (`file_list`, `current_index`, `data`) together with the content of
      the output file `merged_data_after_delete.json`, `None` until this session writes it. */
  datatype Session = Session(
    fileList: seq<string>,
    currentIndex: nat,
    data: seq<Row>,
    saved: Option<seq<Row>>)

  /** What the user did before a rerun. */
  datatype Action = Rerun | DeleteRow(idx: nat) | LoadMore

  /** `data` with position `i` removed, as `list.pop(i)` leaves it. */
  function RemoveAt<T>(s: seq<T>, i: nat): (r: seq<T>)
    requires i < |s|
    ensures |r| == |s| - 1
    ensures forall k :: 0 <= k < i ==> r[k] == s[k]
    ensures forall k :: i <= k < |r| ==> r[k] == s[k + 1]
  {
    s[..i] + s[i + 1..]
  }

  /** `a` is `b` with some elements dropped, the rest in their order. */
  predicate IsSubseq<T(==)>(a: seq<T>, b: seq<T>)
    decreases |b|
  {
    if |a| == 0 then true
    else if |b| == 0 then false
    else (a[0] == b[0] && IsSubseq(a[1..], b[1..])) || IsSubseq(a, b[1..])
  }

  lemma {:induction false} SubseqRefl<T>(a: seq<T>)
    ensures IsSubseq(a, a)
    decreases |a|
  {
    if |a| > 0 {
      SubseqRefl(a[1..]);
    }
  }

  /** Dropping any element of a subsequence leaves a subsequence. */
  lemma {:induction false} RemoveAtKeepsSubseq<T>(a: seq<T>, i: nat, b: seq<T>)
    requires i < |a| && IsSubseq(a, b)
    ensures IsSubseq(RemoveAt(a, i), b)
    decreases |b|
  {
    var r := RemoveAt(a, i);
    if a[0] == b[0] && IsSubseq(a[1..], b[1..]) {
      if i == 0 {
        assert r == a[1..];
        if |r| > 0 {
          assert IsSubseq(r, b[1..]);
        }
      } else {
        RemoveAtKeepsSubseq(a[1..], i - 1, b[1..]);
        assert r[0] == b[0];
        assert r[1..] == RemoveAt(a[1..], i - 1);
      }
    } else {
      RemoveAtKeepsSubseq(a, i, b[1..]);
      if |r| > 0 {
        assert IsSubseq(r, b[1..]);
      }
    }
  }

  /** app.py:57-60: the first run of a session lists the data folder and starts at offset 0
      with no rows. */
  function Init(names: seq<string>): (s: Session)
    ensures s.currentIndex == 0 && s.data == [] && s.saved == None
    ensures Sorted(s.fileList)
    ensures forall x :: multiset(s.fileList)[x] == if IsJsonName(x) then multiset(names)[x] else 0
  {
    Session(ListJsonFiles(names), 0, [], None)
  }

  /** app.py:63-68, run at the top of every rerun: an empty `data` is (re)filled from the batch
      at `current_index`; a non-empty one is left as it is. */
  function Refresh(s: Session, disk: Disk): (t: Session)
    ensures t.fileList == s.fileList && t.currentIndex == s.currentIndex && t.saved == s.saved
    ensures |s.data| > 0 ==> t.data == s.data
    ensures |s.data| == 0 ==> t.data == LoadBatch(s.fileList, s.currentIndex, BatchSize, disk).rows
  {
    if |s.data| == 0 then s.(data := LoadBatch(s.fileList, s.currentIndex, BatchSize, disk).rows)
    else s
  }

  /** The first run of a session: initialisation followed by the load of app.py:63-68. */
  function Start(names: seq<string>, disk: Disk): (s: Session)
    ensures s.fileList == ListJsonFiles(names) && s.currentIndex == 0 && s.saved == None
    ensures s.data == LoadBatch(ListJsonFiles(names), 0, BatchSize, disk).rows
  {
    Refresh(Init(names), disk)
  }

  /** app.py:93-95: the delete button of row `idx` pops that row and rewrites the output
      file with the remaining rows. Buttons exist only for rows that are shown. */
  function Delete(s: Session, idx: nat): (t: Session)
    requires idx < |s.data|
    ensures |t.data| == |s.data| - 1
    ensures forall i :: 0 <= i < idx ==> t.data[i] == s.data[i]
    ensures forall i :: idx <= i < |t.data| ==> t.data[i] == s.data[i + 1]
    ensures t.saved == Some(t.data)
    ensures t.fileList == s.fileList && t.currentIndex == s.currentIndex
  {
    var rest := RemoveAt(s.data, idx);
    s.(data := rest, saved := Some(rest))
  }

  /** Whether the "load next batch" button is shown (app.py:107). */
  predicate CanLoadNext(s: Session) {
    HasMore(s.fileList, s.currentIndex, BatchSize)
  }

  /** app.py:106-114: when the button is shown and pressed, the offset advances by one batch
      and `data` is REPLACED by the new batch's rows; the output file is not touched.
      Without the button the state stays as it is. */
  function LoadNext(s: Session, disk: Disk): (t: Session)
    ensures CanLoadNext(s) ==> t.currentIndex == s.currentIndex + BatchSize
    ensures CanLoadNext(s) ==> t.data == LoadBatch(s.fileList, t.currentIndex, BatchSize, disk).rows
    ensures CanLoadNext(s) ==> t.fileList == s.fileList && t.saved == s.saved
    ensures CanLoadNext(s) ==> t.currentIndex < |t.fileList|
    ensures !CanLoadNext(s) ==> t == s
  {
    if CanLoadNext(s) then
      var next := s.currentIndex + BatchSize;
      s.(currentIndex := next, data := LoadBatch(s.fileList, next, BatchSize, disk).rows)
    else s
  }

  /** An action a shown page can trigger: a delete button exists only for a shown row. */
  predicate Enabled(s: Session, a: Action) {
    a.DeleteRow? ==> a.idx < |s.data|
  }

  /** One user action followed by the rerun it causes. */
  function Step(s: Session, a: Action, disk: Disk): (t: Session)
    requires Enabled(s, a)
  {
    var u := match a
      case Rerun => s
      case DeleteRow(idx) => Delete(s, idx)
      case LoadMore => LoadNext(s, disk);
    Refresh(u, disk)
  }

  /** What every reachable session satisfies: the listing is sorted, the offset is a whole
      number of batches inside the listing (or 0), and the rows are those of the batch at
      the offset with some of them deleted, the rest in batch order. */
  predicate Consistent(s: Session, disk: Disk) {
    && Sorted(s.fileList)
    && s.currentIndex % BatchSize == 0
    && (s.currentIndex == 0 || s.currentIndex < |s.fileList|)
    && IsSubseq(s.data, LoadBatch(s.fileList, s.currentIndex, BatchSize, disk).rows)
  }

  lemma StartIsConsistent(names: seq<string>, disk: Disk)
    ensures Consistent(Start(names, disk), disk)
  {
    var s := Start(names, disk);
    SubseqRefl(s.data);
  }

  lemma RefreshKeepsConsistent(s: Session, disk: Disk)
    requires Consistent(s, disk)
    ensures Consistent(Refresh(s, disk), disk)
  {
    if |s.data| == 0 {
      SubseqRefl(Refresh(s, disk).data);
    }
  }

  lemma DeleteKeepsConsistent(s: Session, idx: nat, disk: Disk)
    requires Consistent(s, disk) && idx < |s.data|
    ensures Consistent(Delete(s, idx), disk)
  {
    RemoveAtKeepsSubseq(s.data, idx, LoadBatch(s.fileList, s.currentIndex, BatchSize, disk).rows);
    assert Delete(s, idx).data == RemoveAt(s.data, idx);
  }

  lemma NextOffsetIsWholeBatches(c: nat)
    requires c % BatchSize == 0
    ensures (c + BatchSize) % BatchSize == 0
  {
    assert c + BatchSize == (c / BatchSize + 1) * BatchSize;
  }

  /** A session holding a whole, freshly loaded batch at a valid offset is consistent. */
  lemma FreshBatchIsConsistent(files: seq<string>, index: nat, saved: Option<seq<Row>>, disk: Disk)
    requires Sorted(files) && index % BatchSize == 0 && (index == 0 || index < |files|)
    ensures Consistent(Session(files, index, LoadBatch(files, index, BatchSize, disk).rows, saved), disk)
  {
    SubseqRefl(LoadBatch(files, index, BatchSize, disk).rows);
  }

  lemma LoadNextKeepsConsistent(s: Session, disk: Disk)
    requires Consistent(s, disk)
    ensures Consistent(LoadNext(s, disk), disk)
  {
    if CanLoadNext(s) {
      var next := s.currentIndex + BatchSize;
      NextOffsetIsWholeBatches(s.currentIndex);
      FreshBatchIsConsistent(s.fileList, next, s.saved, disk);
      assert LoadNext(s, disk) == Session(s.fileList, next, LoadBatch(s.fileList, next, BatchSize, disk).rows, s.saved);
    }
  }

  /** Every action, with the rerun that follows it, keeps the session consistent. */
  lemma StepKeepsConsistent(s: Session, a: Action, disk: Disk)
    requires Consistent(s, disk) && Enabled(s, a)
    ensures Consistent(Step(s, a, disk), disk)
  {
    match a
    case Rerun =>
      RefreshKeepsConsistent(s, disk);
    case DeleteRow(idx) =>
      DeleteKeepsConsistent(s, idx, disk);
      RefreshKeepsConsistent(Delete(s, idx), disk);
    case LoadMore =>
      LoadNextKeepsConsistent(s, disk);
      RefreshKeepsConsistent(LoadNext(s, disk), disk);
  }

  /** Deleting removes exactly the chosen row: the multiset of rows loses that one row and
      nothing else, and the output file then holds the remaining rows. */
  lemma DeleteRemovesExactlyThatRow(s: Session, idx: nat)
    requires idx < |s.data|
    ensures multiset(Delete(s, idx).data) + multiset{s.data[idx]} == multiset(s.data)
    ensures Delete(s, idx).saved == Some(Delete(s, idx).data)
  {
    assert s.data == s.data[..idx] + [s.data[idx]] + s.data[idx + 1..];
  }

  /** Rows `[a, b, c, d, e]`: deleting position 2 leaves `[a, b, d, e]`, and deleting
      position 2 again then removes `d`. Positions are the only identity of a row. */
  lemma DeleteShiftsLaterRows(s: Session, a: Row, b: Row, c: Row, d: Row, e: Row)
    requires s.data == [a, b, c, d, e]
    ensures Delete(s, 2).data == [a, b, d, e]
    ensures Delete(Delete(s, 2), 2).data == [a, b, e]
    ensures Delete(Delete(s, 2), 2).saved == Some([a, b, e])
  {
  }

  /** Deleting the only remaining row empties `data`, so the rerun that follows reloads the
      batch at the current offset: the rows reappear on screen, while the output file holds
      an empty list. */
  lemma DeletingLastRowReloadsBatch(s: Session, disk: Disk)
    requires |s.data| == 1
    ensures Step(s, DeleteRow(0), disk).data
         == LoadBatch(s.fileList, s.currentIndex, BatchSize, disk).rows
    ensures Step(s, DeleteRow(0), disk).saved == Some([])
  {
  }

  /** "Load next" discards the current rows (and the deletions made in them): its result does
      not depend on `data`. */
  lemma LoadNextReplacesData(s: Session, rows: seq<Row>, disk: Disk)
    requires CanLoadNext(s)
    ensures Step(s, LoadMore, disk) == Step(s.(data := rows), LoadMore, disk)
  {
  }

  /** A session holding a freshly loaded batch is not changed by a rerun. */
  lemma RerunAfterLoadIsStable(s: Session, disk: Disk)
    requires s.data == LoadBatch(s.fileList, s.currentIndex, BatchSize, disk).rows
    ensures Step(s, Rerun, disk) == s
  {
  }

  /** The files whose batches the session shows from now on if the user keeps pressing
      "load next" while it is offered. */
  function BatchesFrom(s: Session, disk: Disk): (files: seq<string>)
    decreases |s.fileList| - s.currentIndex
  {
    Window(s.fileList, s.currentIndex, BatchSize)
      + (if CanLoadNext(s) then BatchesFrom(Step(s, LoadMore, disk), disk) else [])
  }

  lemma {:induction false} BatchesFromIsVisited(s: Session, disk: Disk)
    ensures BatchesFrom(s, disk) == Visited(s.fileList, s.currentIndex, BatchSize)
    decreases |s.fileList| - s.currentIndex
  {
    if CanLoadNext(s) {
      var t := Step(s, LoadMore, disk);
      assert t.fileList == s.fileList && t.currentIndex == s.currentIndex + BatchSize;
      BatchesFromIsVisited(t, disk);
    }
  }

  /** A deletion (with its rerun) does not change which files the following pages show:
      pagination depends on the offset only, never on the rows held. */
  lemma DeleteKeepsBatches(s: Session, idx: nat, disk: Disk)
    requires idx < |s.data|
    ensures BatchesFrom(Step(s, DeleteRow(idx), disk), disk) == BatchesFrom(s, disk)
  {
    var t := Step(s, DeleteRow(idx), disk);
    assert t.fileList == s.fileList && t.currentIndex == s.currentIndex;
    BatchesFromIsVisited(s, disk);
    BatchesFromIsVisited(t, disk);
  }

  /** Paging through a session from its start reads every listed file exactly once, in the
      listing's sorted order; by `DeleteKeepsBatches`, deletions made on the way do not
      change this. */
  lemma PagingVisitsEveryFileOnce(names: seq<string>, disk: Disk)
    ensures BatchesFrom(Start(names, disk), disk) == ListJsonFiles(names)
  {
    var s := Start(names, disk);
    BatchesFromIsVisited(s, disk);
    VisitedFromStartIsAll(s.fileList, BatchSize);
  }

  /** 150 listed files: the first run shows the rows of files 0..99; "load next" is offered
      once, shows the rows of files 100..149, and is then no longer offered. */
  lemma HundredFiftyFiles(names: seq<string>, disk: Disk)
    requires |ListJsonFiles(names)| == 150
    ensures Start(names, disk).data == LoadFiles(ListJsonFiles(names)[0..100], disk).rows
    ensures CanLoadNext(Start(names, disk))
    ensures Step(Start(names, disk), LoadMore, disk).data
         == LoadFiles(ListJsonFiles(names)[100..150], disk).rows
    ensures !CanLoadNext(Step(Start(names, disk), LoadMore, disk))
  {
    var files := ListJsonFiles(names);
    var s := Start(names, disk);
    assert s.fileList == files && s.currentIndex == 0;
    assert Window(files, 0, BatchSize) == files[0..100];
    assert CanLoadNext(s);
    var u := LoadNext(s, disk);
    assert u.fileList == files && u.currentIndex == 100;
    assert Window(files, 100, BatchSize) == files[100..150];
    var t := Step(s, LoadMore, disk);
    assert t == Refresh(u, disk);
    assert t.fileList == files && t.currentIndex == 100;
    assert t.data == u.data;
  }
}
