/**
 * Record batches as the order check sees them: columns of equal length,
 * the key tuples of their rows, the filter that drops empty batches, and
 * the order "non-decreasing by key" on a sequence of key tuples.
 */
module Batches {
  import opened Comparator

  /** An Arrow record batch: a list of columns and a row count. */
  datatype Batch = Batch(columns: seq<Column>, numRows: nat)
  {
    /** Arrow's invariant: every column holds exactly `numRows` cells. */
    predicate WellFormed()
    {
      forall c :: 0 <= c < |columns| ==> |columns[c]| == numRows
    }
  }

  type RecordBatch = b: Batch | b.WellFormed() witness Batch([], 0)

  /** The key prefix of `b` can be sliced (an empty batch is never sliced). */
  predicate Fits(b: RecordBatch, keyLen: nat)
  {
    b.numRows == 0 || keyLen <= |b.columns|
  }

  predicate FileFits(file: seq<RecordBatch>, keyLen: nat)
  {
    forall b :: b in file ==> Fits(b, keyLen)
  }

  /** Every batch is non-empty and has at least `keyLen` columns. */
  predicate Filtered(nb: seq<RecordBatch>, keyLen: nat)
  {
    forall b :: b in nb ==> 0 < b.numRows && keyLen <= |b.columns|
  }

  /** `&b.columns()[..key_len]`. */
  function KeyCols(b: RecordBatch, keyLen: nat): (cols: seq<Column>)
    requires keyLen <= |b.columns|
    ensures |cols| == keyLen
    ensures forall i :: 0 <= i < b.numRows ==> HasRow(cols, i)
  {
    b.columns[..keyLen]
  }

  /** The key tuples of the rows of `b`, in row order. */
  function BatchKeys(b: RecordBatch, keyLen: nat): (ks: seq<Key>)
    requires Fits(b, keyLen)
    ensures |ks| == b.numRows
  {
    seq(b.numRows, i requires 0 <= i < b.numRows => RowKey(KeyCols(b, keyLen), i))
  }

  /** The stream filter: the batches that have at least one row, in read order. */
  function NonEmpty(file: seq<RecordBatch>): (nb: seq<RecordBatch>)
    ensures |nb| <= |file|
  {
    if file == [] then []
    else (if file[0].numRows == 0 then [] else [file[0]]) + NonEmpty(file[1..])
  }

  /** The key tuples of all rows of `bs`, batch after batch. */
  function Keys(bs: seq<RecordBatch>, keyLen: nat): (ks: seq<Key>)
    requires FileFits(bs, keyLen)
    ensures forall i :: 0 <= i < |ks| ==> |ks[i]| == keyLen
  {
    if bs == [] then []
    else BatchKeys(bs[0], keyLen) + Keys(bs[1..], keyLen)
  }

  /** No tuple is smaller than the one before it. */
  predicate NonDecreasing(ks: seq<Key>)
  {
    forall i :: 0 < i < |ks| ==> !KeyLt(ks[i], ks[i - 1])
  }

  /** No tuple is smaller than any tuple before it. */
  predicate Sorted(ks: seq<Key>)
  {
    forall i, j :: 0 <= i < j < |ks| ==> !KeyLt(ks[j], ks[i])
  }

  /** On tuples of one width, checking neighbours is checking every pair. */
  lemma NonDecreasingIsSorted(ks: seq<Key>, width: nat)
    requires forall i :: 0 <= i < |ks| ==> |ks[i]| == width
    ensures NonDecreasing(ks) <==> Sorted(ks)
  {
    if NonDecreasing(ks) {
      forall i, j | 0 <= i < j < |ks| ensures !KeyLt(ks[j], ks[i]) {
        NonDecreasingFrom(ks, width, i, j);
      }
    }
  }

  lemma {:induction false} NonDecreasingFrom(ks: seq<Key>, width: nat, i: nat, j: nat)
    requires forall i :: 0 <= i < |ks| ==> |ks[i]| == width
    requires NonDecreasing(ks)
    requires i <= j < |ks|
    ensures !KeyLt(ks[j], ks[i])
    decreases j - i
  {
    if i == j {
      KeyLtIrreflexive(ks[i]);
    } else {
      NonDecreasingFrom(ks, width, i, j - 1);
      NotLtTransitive(ks[i], ks[j - 1], ks[j]);
    }
  }

  /** Two non-decreasing runs joined by a non-decreasing seam. */
  lemma NonDecreasingAppend(a: seq<Key>, b: seq<Key>)
    ensures NonDecreasing(a + b) <==>
      NonDecreasing(a) && NonDecreasing(b) && (a != [] && b != [] ==> !KeyLt(b[0], a[|a| - 1]))
  {
    var ab := a + b;
    if NonDecreasing(ab) {
      forall i | 0 < i < |a| ensures !KeyLt(a[i], a[i - 1]) {
        assert ab[i] == a[i] && ab[i - 1] == a[i - 1];
      }
      forall i | 0 < i < |b| ensures !KeyLt(b[i], b[i - 1]) {
        assert ab[|a| + i] == b[i] && ab[|a| + i - 1] == b[i - 1];
      }
      if a != [] && b != [] {
        assert ab[|a|] == b[0] && ab[|a| - 1] == a[|a| - 1];
      }
    }
    if NonDecreasing(a) && NonDecreasing(b) && (a != [] && b != [] ==> !KeyLt(b[0], a[|a| - 1])) {
      forall i | 0 < i < |ab| ensures !KeyLt(ab[i], ab[i - 1]) {
        if i < |a| {
          assert ab[i] == a[i] && ab[i - 1] == a[i - 1];
        } else if i == |a| {
          assert ab[i] == b[0] && ab[i - 1] == a[|a| - 1];
        } else {
          assert ab[i] == b[i - |a|] && ab[i - 1] == b[i - |a| - 1];
        }
      }
    }
  }

  /** The filter keeps exactly the batches that have rows. */
  lemma {:induction false} NonEmptyMembers(file: seq<RecordBatch>)
    ensures forall b :: b in NonEmpty(file) <==> b in file && 0 < b.numRows
  {
    if file != [] {
      NonEmptyMembers(file[1..]);
      assert file == [file[0]] + file[1..];
    }
  }

  /** After the filter, every batch has rows and, where the file fits the key, a key prefix. */
  lemma NonEmptyFiltered(file: seq<RecordBatch>, keyLen: nat)
    requires FileFits(file, keyLen)
    ensures Filtered(NonEmpty(file), keyLen)
  {
    NonEmptyMembers(file);
  }

  lemma FileFitsSlice(file: seq<RecordBatch>, keyLen: nat, lo: nat, hi: nat)
    requires FileFits(file, keyLen) && lo <= hi <= |file|
    ensures FileFits(file[lo..hi], keyLen) && FileFits(file[lo..], keyLen)
  {
    forall b | b in file[lo..hi] ensures b in file {
      var i :| 0 <= i < hi - lo && file[lo..hi][i] == b;
      assert file[lo + i] == b;
    }
    forall b | b in file[lo..] ensures b in file {
      var i :| 0 <= i < |file| - lo && file[lo..][i] == b;
      assert file[lo + i] == b;
    }
  }

  /** The first batch the filter lets through is the first non-empty one. */
  lemma {:induction false} NonEmptyFirst(file: seq<RecordBatch>, d: nat)
    requires d < |file| && 0 < file[d].numRows
    requires forall q :: 0 <= q < d ==> file[q].numRows == 0
    ensures NonEmpty(file) != [] && NonEmpty(file)[0] == file[d]
    decreases d
  {
    NonEmptyAt(file, 0);
    assert file[0..] == file;
    if d > 0 {
      NonEmptyFirst(file[1..], d - 1);
    }
  }

  /** The filter seen from position `i`: an empty batch is skipped, a non-empty one kept. */
  lemma NonEmptyAt(file: seq<RecordBatch>, i: nat)
    requires i < |file|
    ensures file[i].numRows == 0 ==> NonEmpty(file[i..]) == NonEmpty(file[i + 1..])
    ensures file[i].numRows > 0 ==> NonEmpty(file[i..]) == [file[i]] + NonEmpty(file[i + 1..])
  {
    assert file[i..][0] == file[i];
    assert file[i..][1..] == file[i + 1..];
  }

  /** A descent inside the middle run breaks the order of the whole sequence. */
  lemma DescentInsideBreaks(x: seq<Key>, a: seq<Key>, y: seq<Key>, i: nat)
    requires 0 < i < |a| && KeyLt(a[i], a[i - 1])
    ensures !NonDecreasing(x + a + y)
  {
    var ks := x + a + y;
    assert ks[|x| + i] == a[i] && ks[|x| + i - 1] == a[i - 1];
  }

  /** A descent at the seam after the middle run breaks the order of the whole sequence. */
  lemma DescentAtSeamBreaks(x: seq<Key>, a: seq<Key>, y: seq<Key>)
    requires a != [] && y != [] && KeyLt(y[0], a[|a| - 1])
    ensures !NonDecreasing(x + a + y)
  {
    var ks := x + a + y;
    assert ks[|x| + |a|] == y[0] && ks[|x| + |a| - 1] == a[|a| - 1];
  }

  lemma {:induction false} NonEmptyAppend(a: seq<RecordBatch>, b: seq<RecordBatch>)
    ensures NonEmpty(a + b) == NonEmpty(a) + NonEmpty(b)
    decreases |a|
  {
    if a != [] {
      var head := if a[0].numRows == 0 then [] else [a[0]];
      assert (a + b)[0] == a[0] && (a + b)[1..] == a[1..] + b;
      assert NonEmpty(a + b) == head + NonEmpty(a[1..] + b);
      assert NonEmpty(a) == head + NonEmpty(a[1..]);
      NonEmptyAppend(a[1..], b);
    } else {
      assert a + b == b;
    }
  }

  /** Adding or removing an empty batch anywhere leaves the filtered stream unchanged. */
  lemma EmptyBatchIrrelevant(a: seq<RecordBatch>, e: RecordBatch, b: seq<RecordBatch>)
    requires e.numRows == 0
    ensures NonEmpty(a + [e] + b) == NonEmpty(a + b)
  {
    assert NonEmpty([e]) == [] by {
      assert [e][1..] == [];
    }
    NonEmptyAppend(a + [e], b);
    NonEmptyAppend(a, [e]);
    NonEmptyAppend(a, b);
    assert NonEmpty(a + [e]) == NonEmpty(a);
  }

  lemma {:induction false} KeysAppend(a: seq<RecordBatch>, b: seq<RecordBatch>, keyLen: nat)
    requires FileFits(a, keyLen) && FileFits(b, keyLen)
    ensures FileFits(a + b, keyLen)
    ensures Keys(a + b, keyLen) == Keys(a, keyLen) + Keys(b, keyLen)
    decreases |a|
  {
    if a != [] {
      assert (a + b)[1..] == a[1..] + b;
      KeysAppend(a[1..], b, keyLen);
    } else {
      assert a + b == b;
    }
  }

  /**
   * Around a non-empty batch `file[m]`, the key tuples of the filtered file
   * are those of the filtered batches before it, then its own, then those of
   * the filtered batches after it.
   */
  lemma KeysAroundBatch(file: seq<RecordBatch>, keyLen: nat, m: nat)
    requires FileFits(file, keyLen) && m < |file| && 0 < file[m].numRows
    ensures FileFits(NonEmpty(file), keyLen)
    ensures FileFits(NonEmpty(file[..m]), keyLen) && FileFits(NonEmpty(file[m + 1..]), keyLen)
    ensures Keys(NonEmpty(file), keyLen) ==
      Keys(NonEmpty(file[..m]), keyLen) + BatchKeys(file[m], keyLen) + Keys(NonEmpty(file[m + 1..]), keyLen)
  {
    var pre, mid, post := file[..m], [file[m]], file[m + 1..];
    assert file == pre + mid + post;
    FileFitsSlice(file, keyLen, 0, m);
    FileFitsSlice(file, keyLen, m + 1, |file|);
    assert pre == file[0..m];
    NonEmptyFiltered(file, keyLen);
    NonEmptyFiltered(pre, keyLen);
    NonEmptyFiltered(post, keyLen);
    NonEmptyAppend(pre + mid, post);
    NonEmptyAppend(pre, mid);
    assert NonEmpty(mid) == mid by {
      assert mid[1..] == [];
    }
    assert FileFits(mid, keyLen);
    KeysAppend(NonEmpty(pre) + mid, NonEmpty(post), keyLen);
    KeysAppend(NonEmpty(pre), mid, keyLen);
    assert Keys(mid, keyLen) == BatchKeys(file[m], keyLen) by {
      assert mid[1..] == [];
    }
  }
}
