/**
  Pagination over the sorted file list: the window of files one batch reads,
  the guard that offers the next batch, and the coverage of all batches.
 */
module Batching {

  /** `BATCH_SIZE`: files read per batch. */
  const BatchSize: nat := 100

  function Min(a: int, b: int): (m: int) {
    if a <= b then a else b
  }

  /** `file_list[start : min(start + size, len(file_list))]`. Python's slice yields
      nothing when its start lies past its end, which here means `start >= len`. */
  function Window<T>(files: seq<T>, start: nat, size: nat): (w: seq<T>)
    ensures |w| <= size
    ensures start >= |files| ==> w == []
    ensures start < |files| ==> |w| == Min(size, |files| - start)
    ensures forall i :: 0 <= i < |w| ==> w[i] == files[start + i]
  {
    var end := Min(start + size, |files|);
    if start <= end then files[start..end] else []
  }

  /** The "load next batch" button is shown only while the next batch starts inside the list. */
  predicate HasMore<T>(files: seq<T>, index: nat, size: nat) {
    index + size < |files|
  }

  /** The files read by the batch at `index` and by every batch the button then offers. */
  function Visited<T>(files: seq<T>, index: nat, size: nat): (v: seq<T>)
    requires size > 0
    decreases |files| - index
  {
    Window(files, index, size)
      + (if HasMore(files, index, size) then Visited(files, index + size, size) else [])
  }

  /** Starting inside the list (or at its end), the batches reached by pressing
      "load next" until it disappears read the rest of the list, each file once, in order. */
  lemma {:induction false} VisitedIsSuffix<T>(files: seq<T>, index: nat, size: nat)
    requires size > 0 && index <= |files|
    ensures Visited(files, index, size) == files[index..]
    decreases |files| - index
  {
    if HasMore(files, index, size) {
      VisitedIsSuffix(files, index + size, size);
      assert Window(files, index, size) == files[index..index + size];
      assert files[index..] == files[index..index + size] + files[index + size..];
    } else {
      assert Window(files, index, size) == files[index..];
    }
  }

  /** The batches from offset 0 cover the whole list exactly once. */
  lemma VisitedFromStartIsAll<T>(files: seq<T>, size: nat)
    requires size > 0
    ensures Visited(files, 0, size) == files
  {
    VisitedIsSuffix(files, 0, size);
  }

  /** Windows at consecutive offsets are disjoint and adjacent: together they are one longer window. */
  lemma {:induction false} AdjacentWindows<T>(files: seq<T>, start: nat, size: nat)
    ensures Window(files, start, size) + Window(files, start + size, size)
         == Window(files, start, 2 * size)
  {
    var w1 := Window(files, start, size);
    var w2 := Window(files, start + size, size);
    var w := Window(files, start, 2 * size);
    if start + size < |files| {
      assert |w1| == size;
      assert w1 + w2 == w;
    } else {
      assert w2 == [];
      assert w1 == w;
    }
  }
}
