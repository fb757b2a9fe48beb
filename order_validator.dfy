/**
 * `validate_chunk`: streams the batches of one file, checks every row
 * against the row before it inside a batch, and the last row of a batch
 * against the first row of the next non-empty batch, stopping at the first
 * row found out of order.
 */
module OrderValidator {
  import opened Wrappers
  import opened Comparator
  import opened Batches
  import opened SortOrder
  import opened BatchStream

  /** The first row of `b` that compares Less than the row before it, if any. */
  method FirstDescent(b: RecordBatch, keyLen: nat) returns (found: Option<nat>)
    requires keyLen <= |b.columns| && 0 < b.numRows
    ensures found == FirstDescentFrom(b, keyLen, 1)
  {
    var keyCols := b.columns[..keyLen];
    for i := 1 to b.numRows
      invariant FirstDescentFrom(b, keyLen, 1) == FirstDescentFrom(b, keyLen, i)
    {
      if LexCmpRows(keyCols, i, keyCols, i - 1) == Less {
        return Some(i);
      }
    }
    return None;
  }

  /**
   * Checks that the key prefix of width `keyLen` never descends in `file`.
   * The verdict is `ChunkOutcome`: it passes exactly when the key tuples of
   * the non-empty batches, read in order, are non-decreasing.
   */
  method ValidateChunk(file: seq<RecordBatch>, keyLen: nat) returns (r: Outcome<Violation>)
    requires FileFits(file, keyLen)
    ensures r == ChunkOutcome(file, keyLen)
  {
    NonEmptyFiltered(file, keyLen);
    ghost var nb := NonEmpty(file);
    var p := new Peekable(file);
    var k := 0;
    var next := p.Next();
    while next.Some?
      invariant p.Valid() && p.batches == file
      invariant k <= |nb|
      invariant next.Some? <==> k < |nb|
      invariant next.Some? ==> next.value == nb[k] && p.Remaining() == nb[k + 1..]
      invariant ViolationFrom(nb, keyLen, 0) == ViolationFrom(nb, keyLen, k)
      decreases |nb| - k
    {
      var b := next.value;
      assert b in nb;
      var keyCols := b.columns[..keyLen];
      var found := FirstDescent(b, keyLen);
      if found.Some? {
        r := Fail(WithinBatch(k, found.value));
        return;
      }
      var n := p.Peek();
      if n.Some? {
        assert n.value == nb[k + 1] && nb[k + 1] in nb;
        var nCols := n.value.columns[..keyLen];
        if LexCmpRows(nCols, 0, keyCols, b.numRows - 1) == Less {
          assert CrossDescends(b, nb[k + 1], keyLen);
          r := Fail(BetweenBatches(k));
          return;
        }
        assert !CrossDescends(b, nb[k + 1], keyLen);
      }
      ScanContinues(nb, keyLen, k);
      ghost var rest := p.Remaining();
      next := p.Next();
      if next.Some? {
        assert rest[0] == nb[k + 1] && rest[1..] == nb[k + 2..];
      } else {
        assert |rest| == |nb| - (k + 1) == 0;
      }
      k := k + 1;
    }
    r := Pass;
  }
}
