/**
 * What `validate_chunk` decides about one file, stated as functions: the
 * first violation its scan meets, and what that means for the key tuples
 * of the file's non-empty batches read in order.
 */
module SortOrder {
  import opened Wrappers
  import opened Comparator
  import opened Batches

  /**
   * Where the scan stopped. `batch` counts non-empty batches from 0.
   * WithinBatch(k, i): row i of batch k has a smaller key than row i - 1.
   * BetweenBatches(k): the first row of batch k + 1 has a smaller key than
   * the last row of batch k.
   */
  datatype Violation = WithinBatch(batch: nat, row: nat) | BetweenBatches(batch: nat)

  /** The intra-batch test: row `i` compares Less than row `i - 1`. */
  predicate Descends(b: RecordBatch, keyLen: nat, i: nat)
    requires keyLen <= |b.columns| && 0 < i < b.numRows
  {
    LexCmpRows(KeyCols(b, keyLen), i, KeyCols(b, keyLen), i - 1) == Less
  }

  /** The cross-batch test: the first row of `n` compares Less than the last row of `b`. */
  predicate CrossDescends(b: RecordBatch, n: RecordBatch, keyLen: nat)
    requires 0 < b.numRows && keyLen <= |b.columns|
    requires 0 < n.numRows && keyLen <= |n.columns|
  {
    LexCmpRows(KeyCols(n, keyLen), 0, KeyCols(b, keyLen), b.numRows - 1) == Less
  }

  /** The first row at or after `from` that descends, if any. */
  function FirstDescentFrom(b: RecordBatch, keyLen: nat, from: nat): (r: Option<nat>)
    requires keyLen <= |b.columns| && 0 < from <= b.numRows
    ensures r.None? <==> forall j :: from <= j < b.numRows ==> !Descends(b, keyLen, j)
    ensures r.Some? ==>
      && from <= r.value < b.numRows
      && Descends(b, keyLen, r.value)
      && forall j :: from <= j < r.value ==> !Descends(b, keyLen, j)
    decreases b.numRows - from
  {
    if from == b.numRows then None
    else if Descends(b, keyLen, from) then Some(from)
    else FirstDescentFrom(b, keyLen, from + 1)
  }

  /**
   * The scan from non-empty batch `k` on: every row of a batch against the
   * row before it, then the batch's last row against the next batch's first.
   */
  function ViolationFrom(nb: seq<RecordBatch>, keyLen: nat, k: nat): (r: Outcome<Violation>)
    requires Filtered(nb, keyLen) && k <= |nb|
    decreases |nb| - k
  {
    if k == |nb| then Pass
    else match FirstDescentFrom(nb[k], keyLen, 1)
      case Some(i) => Fail(WithinBatch(k, i))
      case None =>
        if k + 1 < |nb| && CrossDescends(nb[k], nb[k + 1], keyLen) then Fail(BetweenBatches(k))
        else ViolationFrom(nb, keyLen, k + 1)
  }

  /** The verdict of `validate_chunk` on a file read as `file`. */
  function ChunkOutcome(file: seq<RecordBatch>, keyLen: nat): (r: Outcome<Violation>)
    requires FileFits(file, keyLen)
  {
    NonEmptyFiltered(file, keyLen);
    ViolationFrom(NonEmpty(file), keyLen, 0)
  }

  /** A batch in order whose seam holds passes the scan on to the next batch. */
  lemma ScanContinues(nb: seq<RecordBatch>, keyLen: nat, k: nat)
    requires Filtered(nb, keyLen) && k < |nb|
    requires keyLen <= |nb[k].columns| && 0 < nb[k].numRows
    requires FirstDescentFrom(nb[k], keyLen, 1) == None
    requires k + 1 < |nb| ==>
      keyLen <= |nb[k + 1].columns| && 0 < nb[k + 1].numRows && !CrossDescends(nb[k], nb[k + 1], keyLen)
    ensures ViolationFrom(nb, keyLen, k) == ViolationFrom(nb, keyLen, k + 1)
  {
  }

  /** `v` names rows that exist in `nb`. */
  predicate Locates(nb: seq<RecordBatch>, v: Violation)
  {
    match v
    case WithinBatch(j, i) => j < |nb| && 0 < i < nb[j].numRows
    case BetweenBatches(j) => j + 1 < |nb|
  }

  lemma FilteredSliceFits(nb: seq<RecordBatch>, keyLen: nat, lo: nat, hi: nat)
    requires Filtered(nb, keyLen) && lo <= hi <= |nb|
    ensures FileFits(nb[lo..hi], keyLen) && Filtered(nb[lo..hi], keyLen)
  {
    forall b | b in nb[lo..hi] ensures b in nb {
      var i :| 0 <= i < hi - lo && nb[lo..hi][i] == b;
      assert nb[lo + i] == b;
    }
  }

  /**
   * The index, in the key tuples of `nb[from..]`, of the row that `v` found
   * smaller than the row before it.
   */
  function FlatPosition(nb: seq<RecordBatch>, keyLen: nat, from: nat, v: Violation): (p: nat)
    requires Filtered(nb, keyLen) && Locates(nb, v) && from <= v.batch
  {
    FilteredSliceFits(nb, keyLen, from, v.batch);
    FilteredSliceFits(nb, keyLen, from, v.batch + 1);
    match v
    case WithinBatch(j, i) => |Keys(nb[from..j], keyLen)| + i
    case BetweenBatches(j) => |Keys(nb[from..j + 1], keyLen)|
  }

  /** `p` is the first place where a tuple of `ks` is smaller than its predecessor. */
  predicate IsFirstDescent(ks: seq<Key>, p: nat)
  {
    0 < p < |ks| && KeyLt(ks[p], ks[p - 1]) && NonDecreasing(ks[..p])
  }

  lemma DescendsIsKeyLt(b: RecordBatch, keyLen: nat, i: nat)
    requires keyLen <= |b.columns| && 0 < i < b.numRows
    ensures Descends(b, keyLen, i) <==> KeyLt(BatchKeys(b, keyLen)[i], BatchKeys(b, keyLen)[i - 1])
  {
    var cols := KeyCols(b, keyLen);
    var ks := BatchKeys(b, keyLen);
    assert ks[i] == RowKey(cols, i) && ks[i - 1] == RowKey(cols, i - 1);
    LexCmpRowsLess(cols, i, cols, i - 1);
  }

  lemma CrossDescendsIsKeyLt(b: RecordBatch, n: RecordBatch, keyLen: nat)
    requires 0 < b.numRows && keyLen <= |b.columns|
    requires 0 < n.numRows && keyLen <= |n.columns|
    ensures CrossDescends(b, n, keyLen) <==>
      KeyLt(BatchKeys(n, keyLen)[0], BatchKeys(b, keyLen)[b.numRows - 1])
  {
    var nCols, bCols := KeyCols(n, keyLen), KeyCols(b, keyLen);
    assert BatchKeys(n, keyLen)[0] == RowKey(nCols, 0);
    assert BatchKeys(b, keyLen)[b.numRows - 1] == RowKey(bCols, b.numRows - 1);
    LexCmpRowsLess(nCols, 0, bCols, b.numRows - 1);
  }

  /** A batch with no descending row has non-decreasing key tuples, and conversely. */
  lemma BatchNonDecreasing(b: RecordBatch, keyLen: nat, upto: nat)
    requires keyLen <= |b.columns| && 0 < upto <= b.numRows
    ensures NonDecreasing(BatchKeys(b, keyLen)[..upto]) <==>
      forall j :: 1 <= j < upto ==> !Descends(b, keyLen, j)
  {
    var s := BatchKeys(b, keyLen)[..upto];
    if NonDecreasing(s) {
      forall j | 1 <= j < upto ensures !Descends(b, keyLen, j) {
        DescendsIsKeyLt(b, keyLen, j);
        assert !KeyLt(s[j], s[j - 1]);
      }
    } else {
      var j :| 0 < j < |s| && KeyLt(s[j], s[j - 1]);
      DescendsIsKeyLt(b, keyLen, j);
    }
  }

  /** Unfolds `Keys` at the front of a slice. */
  lemma KeysSliceCons(nb: seq<RecordBatch>, keyLen: nat, lo: nat, hi: nat)
    requires Filtered(nb, keyLen) && lo < hi <= |nb|
    ensures FileFits(nb[lo..hi], keyLen) && FileFits(nb[lo + 1..hi], keyLen)
    ensures Keys(nb[lo..hi], keyLen) == BatchKeys(nb[lo], keyLen) + Keys(nb[lo + 1..hi], keyLen)
  {
    FilteredSliceFits(nb, keyLen, lo, hi);
    FilteredSliceFits(nb, keyLen, lo + 1, hi);
    assert nb[lo..hi][0] == nb[lo];
    assert nb[lo..hi][1..] == nb[lo + 1..hi];
  }

  /** Unfolds `Keys` at the front of a suffix. */
  lemma KeysSuffixCons(nb: seq<RecordBatch>, keyLen: nat, k: nat)
    requires Filtered(nb, keyLen) && k < |nb|
    ensures FileFits(nb[k..], keyLen) && FileFits(nb[k + 1..], keyLen)
    ensures Keys(nb[k..], keyLen) == BatchKeys(nb[k], keyLen) + Keys(nb[k + 1..], keyLen)
    ensures k + 1 < |nb| ==> Keys(nb[k + 1..], keyLen)[0] == BatchKeys(nb[k + 1], keyLen)[0]
  {
    KeysSliceCons(nb, keyLen, k, |nb|);
    assert nb[k..] == nb[k..|nb|];
    assert nb[k + 1..] == nb[k + 1..|nb|];
    if k + 1 < |nb| {
      KeysSliceCons(nb, keyLen, k + 1, |nb|);
    }
  }

  /** A row that descends inside batch `k` is the first descent of `nb[k..]`'s tuples. */
  lemma WithinIsFirstDescent(nb: seq<RecordBatch>, keyLen: nat, k: nat, i: nat)
    requires Filtered(nb, keyLen) && k < |nb|
    requires FirstDescentFrom(nb[k], keyLen, 1) == Some(i)
    ensures FileFits(nb[k..], keyLen) && Locates(nb, WithinBatch(k, i))
    ensures IsFirstDescent(Keys(nb[k..], keyLen), FlatPosition(nb, keyLen, k, WithinBatch(k, i)))
  {
    KeysSuffixCons(nb, keyLen, k);
    var a := BatchKeys(nb[k], keyLen);
    var ks := Keys(nb[k..], keyLen);
    assert nb[k..k] == [];
    assert FlatPosition(nb, keyLen, k, WithinBatch(k, i)) == i;
    DescendsIsKeyLt(nb[k], keyLen, i);
    BatchNonDecreasing(nb[k], keyLen, i);
    assert ks[i] == a[i] && ks[i - 1] == a[i - 1];
    assert ks[..i] == a[..i];
  }

  /** A descent at the seam after batch `k` is the first descent of `nb[k..]`'s tuples. */
  lemma BetweenIsFirstDescent(nb: seq<RecordBatch>, keyLen: nat, k: nat)
    requires Filtered(nb, keyLen) && k + 1 < |nb|
    requires FirstDescentFrom(nb[k], keyLen, 1).None?
    requires CrossDescends(nb[k], nb[k + 1], keyLen)
    ensures FileFits(nb[k..], keyLen) && Locates(nb, BetweenBatches(k))
    ensures IsFirstDescent(Keys(nb[k..], keyLen), FlatPosition(nb, keyLen, k, BetweenBatches(k)))
  {
    KeysSuffixCons(nb, keyLen, k);
    var a := BatchKeys(nb[k], keyLen);
    var ks := Keys(nb[k..], keyLen);
    BatchNonDecreasing(nb[k], keyLen, nb[k].numRows);
    assert a[..nb[k].numRows] == a;
    CrossDescendsIsKeyLt(nb[k], nb[k + 1], keyLen);
    KeysSliceCons(nb, keyLen, k, k + 1);
    assert nb[k + 1..k + 1] == [];
    assert FlatPosition(nb, keyLen, k, BetweenBatches(k)) == |a|;
    assert ks[|a|] == BatchKeys(nb[k + 1], keyLen)[0];
    assert ks[..|a|] == a;
  }

  /** A batch that passes both tests joins its tuples to the rest without a descent. */
  lemma PassedBatchExtends(nb: seq<RecordBatch>, keyLen: nat, k: nat)
    requires Filtered(nb, keyLen) && k < |nb|
    requires FirstDescentFrom(nb[k], keyLen, 1).None?
    requires !(k + 1 < |nb| && CrossDescends(nb[k], nb[k + 1], keyLen))
    ensures FileFits(nb[k..], keyLen) && FileFits(nb[k + 1..], keyLen)
    ensures NonDecreasing(Keys(nb[k + 1..], keyLen)) ==> NonDecreasing(Keys(nb[k..], keyLen))
  {
    KeysSuffixCons(nb, keyLen, k);
    var a := BatchKeys(nb[k], keyLen);
    var rest := Keys(nb[k + 1..], keyLen);
    var ks := Keys(nb[k..], keyLen);
    BatchNonDecreasing(nb[k], keyLen, nb[k].numRows);
    assert a[..nb[k].numRows] == a;
    if k + 1 < |nb| {
      CrossDescendsIsKeyLt(nb[k], nb[k + 1], keyLen);
    } else {
      assert rest == [];
    }
    NonDecreasingAppend(a, rest);
  }

  /** A descent found after a passed batch `k` is still the first one once batch `k` is put in front. */
  lemma PassedBatchShifts(nb: seq<RecordBatch>, keyLen: nat, k: nat, v: Violation)
    requires Filtered(nb, keyLen) && k < |nb|
    requires FirstDescentFrom(nb[k], keyLen, 1).None?
    requires !(k + 1 < |nb| && CrossDescends(nb[k], nb[k + 1], keyLen))
    requires k + 1 <= v.batch && Locates(nb, v)
    requires FileFits(nb[k + 1..], keyLen)
    requires IsFirstDescent(Keys(nb[k + 1..], keyLen), FlatPosition(nb, keyLen, k + 1, v))
    ensures FileFits(nb[k..], keyLen)
    ensures IsFirstDescent(Keys(nb[k..], keyLen), FlatPosition(nb, keyLen, k, v))
  {
    KeysSuffixCons(nb, keyLen, k);
    var a := BatchKeys(nb[k], keyLen);
    BatchNonDecreasing(nb[k], keyLen, nb[k].numRows);
    assert a[..nb[k].numRows] == a;
    CrossDescendsIsKeyLt(nb[k], nb[k + 1], keyLen);
    FlatPositionShift(nb, keyLen, k, v);
    FirstDescentAfterPrefix(a, Keys(nb[k + 1..], keyLen), FlatPosition(nb, keyLen, k + 1, v));
  }

  /** Putting an ordered run in front, with no descent at the join, shifts the first descent. */
  lemma FirstDescentAfterPrefix(a: seq<Key>, rest: seq<Key>, p: nat)
    requires NonDecreasing(a) && IsFirstDescent(rest, p)
    requires a != [] ==> !KeyLt(rest[0], a[|a| - 1])
    ensures IsFirstDescent(a + rest, |a| + p)
  {
    var ks := a + rest;
    assert ks[..|a| + p] == a + rest[..p];
    assert ks[|a| + p] == rest[p] && ks[|a| + p - 1] == rest[p - 1];
    NonDecreasingAppend(a, rest[..p]);
  }

  lemma FlatPositionShift(nb: seq<RecordBatch>, keyLen: nat, k: nat, v: Violation)
    requires Filtered(nb, keyLen) && k < |nb|
    requires k + 1 <= v.batch && Locates(nb, v)
    ensures FlatPosition(nb, keyLen, k, v) == |BatchKeys(nb[k], keyLen)| + FlatPosition(nb, keyLen, k + 1, v)
  {
    match v
    case WithinBatch(j, _) =>
      KeysSliceCons(nb, keyLen, k, j);
    case BetweenBatches(j) =>
      KeysSliceCons(nb, keyLen, k, j + 1);
  }

  /**
   * The scan from batch `k` passes only when the key tuples of `nb[k..]`
   * are non-decreasing, and a violation it reports is the first place where
   * they descend.
   */
  lemma {:induction false} ViolationFromSound(nb: seq<RecordBatch>, keyLen: nat, k: nat)
    requires Filtered(nb, keyLen) && k <= |nb|
    ensures FileFits(nb[k..], keyLen)
    ensures ViolationFrom(nb, keyLen, k).Pass? ==> NonDecreasing(Keys(nb[k..], keyLen))
    ensures ViolationFrom(nb, keyLen, k).Fail? ==>
      var v := ViolationFrom(nb, keyLen, k).error;
      && k <= v.batch && Locates(nb, v)
      && IsFirstDescent(Keys(nb[k..], keyLen), FlatPosition(nb, keyLen, k, v))
    decreases |nb| - k
  {
    FilteredSliceFits(nb, keyLen, k, |nb|);
    assert nb[k..] == nb[k..|nb|];
    if k < |nb| {
      match FirstDescentFrom(nb[k], keyLen, 1)
      case Some(i) =>
        WithinIsFirstDescent(nb, keyLen, k, i);
      case None =>
        if k + 1 < |nb| && CrossDescends(nb[k], nb[k + 1], keyLen) {
          BetweenIsFirstDescent(nb, keyLen, k);
        } else {
          ViolationFromSound(nb, keyLen, k + 1);
          PassedBatchExtends(nb, keyLen, k);
          if ViolationFrom(nb, keyLen, k + 1).Fail? {
            PassedBatchShifts(nb, keyLen, k, ViolationFrom(nb, keyLen, k + 1).error);
          }
        }
    }
  }

  /**
   * The verdict on a file: it passes exactly when the key tuples of its
   * non-empty batches, concatenated in read order, are non-decreasing; a
   * reported violation is the first descent in that concatenation.
   */
  lemma ChunkOutcomeSound(file: seq<RecordBatch>, keyLen: nat)
    requires FileFits(file, keyLen)
    ensures Filtered(NonEmpty(file), keyLen) && FileFits(NonEmpty(file), keyLen)
    ensures ChunkOutcome(file, keyLen).Pass? <==> NonDecreasing(Keys(NonEmpty(file), keyLen))
    ensures ChunkOutcome(file, keyLen).Fail? ==>
      var v := ChunkOutcome(file, keyLen).error;
      && Locates(NonEmpty(file), v)
      && IsFirstDescent(Keys(NonEmpty(file), keyLen), FlatPosition(NonEmpty(file), keyLen, 0, v))
  {
    var nb := NonEmpty(file);
    NonEmptyFiltered(file, keyLen);
    ViolationFromSound(nb, keyLen, 0);
    assert nb[0..] == nb;
  }

  /** Non-decreasing neighbours mean every row is at least every earlier row. */
  lemma ChunkOutcomePassIffSorted(file: seq<RecordBatch>, keyLen: nat)
    requires FileFits(file, keyLen)
    ensures FileFits(NonEmpty(file), keyLen)
    ensures ChunkOutcome(file, keyLen).Pass? <==> Sorted(Keys(NonEmpty(file), keyLen))
  {
    ChunkOutcomeSound(file, keyLen);
    NonDecreasingIsSorted(Keys(NonEmpty(file), keyLen), keyLen);
  }

  /** With no key columns every key is the empty tuple, so every file passes. */
  lemma ZeroKeyLenPasses(file: seq<RecordBatch>)
    ensures FileFits(file, 0)
    ensures ChunkOutcome(file, 0) == Pass
  {
    ChunkOutcomeSound(file, 0);
    var ks := Keys(NonEmpty(file), 0);
    forall i | 0 < i < |ks| ensures !KeyLt(ks[i], ks[i - 1]) {
      assert |ks[i]| == 0;
    }
  }

  /** Empty batches take part in no comparison. */
  lemma EmptyBatchKeepsOutcome(a: seq<RecordBatch>, e: RecordBatch, b: seq<RecordBatch>, keyLen: nat)
    requires e.numRows == 0
    requires FileFits(a + b, keyLen)
    ensures FileFits(a + [e] + b, keyLen)
    ensures ChunkOutcome(a + [e] + b, keyLen) == ChunkOutcome(a + b, keyLen)
  {
    EmptyBatchIrrelevant(a, e, b);
  }

  /**
   * A row whose key compares Less than the row before it, anywhere in a
   * non-empty batch, makes the file fail.
   */
  lemma DescentInBatchFails(file: seq<RecordBatch>, keyLen: nat, m: nat, i: nat)
    requires FileFits(file, keyLen) && m < |file| && 0 < i < file[m].numRows
    requires keyLen <= |file[m].columns| && Descends(file[m], keyLen, i)
    ensures ChunkOutcome(file, keyLen).Fail?
  {
    KeysAroundBatch(file, keyLen, m);
    DescendsIsKeyLt(file[m], keyLen, i);
    DescentInsideBreaks(Keys(NonEmpty(file[..m]), keyLen), BatchKeys(file[m], keyLen),
                        Keys(NonEmpty(file[m + 1..]), keyLen), i);
    ChunkOutcomeSound(file, keyLen);
  }

  /** The first key tuple after the filter is the first row of the first non-empty batch. */
  lemma FirstKeyAfter(file: seq<RecordBatch>, keyLen: nat, d: nat)
    requires FileFits(file, keyLen) && d < |file| && 0 < file[d].numRows
    requires forall q :: 0 <= q < d ==> file[q].numRows == 0
    ensures FileFits(NonEmpty(file), keyLen) && Fits(file[d], keyLen)
    ensures 0 < |Keys(NonEmpty(file), keyLen)|
    ensures Keys(NonEmpty(file), keyLen)[0] == BatchKeys(file[d], keyLen)[0]
  {
    var nb := NonEmpty(file);
    NonEmptyFirst(file, d);
    NonEmptyFiltered(file, keyLen);
    FilteredSliceFits(nb, keyLen, 1, |nb|);
    assert nb[1..] == nb[1..|nb|];
    assert Keys(nb, keyLen) == BatchKeys(nb[0], keyLen) + Keys(nb[1..], keyLen);
  }

  /**
   * When the first row of the next non-empty batch `file[n]` compares Less
   * than the last row of `file[m]`, with only empty batches between them, the
   * file fails, even if each batch is sorted on its own.
   */
  lemma DescentAcrossBatchesFails(file: seq<RecordBatch>, keyLen: nat, m: nat, n: nat)
    requires FileFits(file, keyLen) && m < n < |file|
    requires 0 < file[m].numRows && 0 < file[n].numRows
    requires forall q :: m < q < n ==> file[q].numRows == 0
    requires keyLen <= |file[m].columns| && keyLen <= |file[n].columns|
    requires CrossDescends(file[m], file[n], keyLen)
    ensures ChunkOutcome(file, keyLen).Fail?
  {
    KeysAroundBatch(file, keyLen, m);
    var post := file[m + 1..];
    assert post[n - m - 1] == file[n];
    FileFitsSlice(file, keyLen, m + 1, |file|);
    FirstKeyAfter(post, keyLen, n - m - 1);
    CrossDescendsIsKeyLt(file[m], file[n], keyLen);
    DescentAtSeamBreaks(Keys(NonEmpty(file[..m]), keyLen), BatchKeys(file[m], keyLen),
                        Keys(NonEmpty(post), keyLen));
    ChunkOutcomeSound(file, keyLen);
  }
}
