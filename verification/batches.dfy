/**
 * Splitting an id list into the batches that `postData` hands to the two
 * `mark...Uploaded` statements, and how many host parameters each batch needs.
 */
module Batches {
  import FishingDao

  /** The items of a list of batches, in order. */
  function Flatten<T>(xss: seq<seq<T>>): (xs: seq<T>)
    ensures xss == [] ==> xs == []
  {
    if xss == [] then [] else xss[0] + Flatten(xss[1..])
  }

  lemma {:induction false} FlattenAppend<T>(xss: seq<seq<T>>, ys: seq<T>)
    ensures Flatten(xss + [ys]) == Flatten(xss) + ys
  {
    if xss == [] {
      assert [ys][1..] == [];
    } else {
      assert (xss + [ys])[1..] == xss[1..] + [ys];
      FlattenAppend(xss[1..], ys);
    }
  }

  /** Kotlin's `chunked(size)`: consecutive pieces of `size` items, the last one possibly shorter. */
  function Chunked<T>(xs: seq<T>, size: nat): (r: seq<seq<T>>)
    requires size > 0
    ensures Flatten(r) == xs
    ensures forall k :: 0 <= k < |r| ==> 0 < |r[k]| <= size
    ensures forall k :: 0 <= k < |r| - 1 ==> |r[k]| == size
    ensures |xs| > size ==> |r| > 1 && r[0] == xs[..size]
    decreases |xs|
  {
    if xs == [] then []
    else if |xs| <= size then [xs]
    else
      var rest := Chunked(xs[size..], size);
      assert ([xs[..size]] + rest)[1..] == rest;
      [xs[..size]] + rest
  }

  /**
   * The marking step of `postData`: nothing for an empty list, the list as one batch
   * when it has at most `size` ids, and `chunked(size)` otherwise.
   */
  function MarkBatches(ids: seq<int>, size: nat): (batches: seq<seq<int>>)
    requires size > 0
  {
    if ids == [] then []
    else if |ids| > size then Chunked(ids, size)
    else [ids]
  }

  /** Every id is marked, in order, in non-empty batches of at most `size`; an empty list issues no statement. */
  lemma MarkBatchesComplete(ids: seq<int>, size: nat)
    requires size > 0
    ensures Flatten(MarkBatches(ids, size)) == ids
    ensures forall k :: 0 <= k < |MarkBatches(ids, size)| ==> 0 < |MarkBatches(ids, size)[k]| <= size
    ensures ids == [] <==> MarkBatches(ids, size) == []
    ensures |ids| <= size && ids != [] ==> MarkBatches(ids, size) == [ids]
  {
    if ids != [] && |ids| <= size {
      assert Flatten([ids]) == ids + Flatten([ids][1..]);
    }
  }

  /** The two branches of the marking step agree: it is `chunked(size)` in every case. */
  lemma MarkBatchesIsChunked(ids: seq<int>, size: nat)
    requires size > 0
    ensures MarkBatches(ids, size) == Chunked(ids, size)
  {
  }

  /** The batch size `postData` uses: 999 ids per statement. */
  const SourceBatchSize: nat := 999

  /**
   * With 999 ids per statement, the statement also binds the upload time, so any list
   * of 999 ids or more produces a first batch needing 1000 host parameters, one more
   * than SQLite's default limit: that statement is rejected.
   */
  lemma SourceBatchOverflows(ids: seq<int>)
    requires |ids| >= SourceBatchSize
    ensures FishingDao.MarkParameters(MarkBatches(ids, SourceBatchSize)[0]) > FishingDao.MaxHostParameters
  {
    MarkBatchesComplete(ids, SourceBatchSize);
  }

  /** Whether one marking statement on `batch` is within SQLite's host-parameter limit. */
  predicate Fits(batch: seq<int>) {
    FishingDao.MarkParameters(batch) <= FishingDao.MaxHostParameters
  }

  /**
   * How many statements of a marking step succeed: the first batch that does not fit
   * throws, which ends the step, so the batches before it are exactly the ones applied.
   */
  function Completed(batches: seq<seq<int>>): (n: nat)
    ensures n <= |batches|
    ensures forall k :: 0 <= k < n ==> Fits(batches[k])
    ensures n < |batches| ==> !Fits(batches[n])
  {
    if batches == [] || !Fits(batches[0]) then 0 else 1 + Completed(batches[1..])
  }

  /** Every statement of the marking step for `ids` succeeds. */
  predicate StepCompletes(ids: seq<int>, size: nat)
    requires size > 0
  {
    Completed(MarkBatches(ids, size)) == |MarkBatches(ids, size)|
  }

  /**
   * As written, the marking step completes exactly when fewer than 999 ids are
   * acknowledged; from 999 on its very first statement fails, so nothing is marked.
   */
  lemma SourceMarkingFails(ids: seq<int>)
    ensures StepCompletes(ids, SourceBatchSize) <==> |ids| < SourceBatchSize
    ensures |ids| >= SourceBatchSize ==> Completed(MarkBatches(ids, SourceBatchSize)) == 0
  {
    MarkBatchesComplete(ids, SourceBatchSize);
    if |ids| >= SourceBatchSize {
      SourceBatchOverflows(ids);
    }
  }

  /** The batch size that fits: the host-parameter limit minus the parameter for the time. */
  const MarkBatchSize: nat := FishingDao.MaxHostParameters - 1

  /** With `MarkBatchSize`, every statement of the marking step is within SQLite's limit. */
  lemma MarkBatchesFit(ids: seq<int>)
    ensures forall k :: 0 <= k < |MarkBatches(ids, MarkBatchSize)| ==>
      FishingDao.MarkParameters(MarkBatches(ids, MarkBatchSize)[k]) <= FishingDao.MaxHostParameters
    ensures Flatten(MarkBatches(ids, MarkBatchSize)) == ids
    ensures StepCompletes(ids, MarkBatchSize)
  {
    MarkBatchesComplete(ids, MarkBatchSize);
  }
}
