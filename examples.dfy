/** Small files of one key column, worked through the order check. */
module OrderExamples {
  import opened Wrappers
  import opened Batches
  import opened SortOrder

  /** A batch with a single column holding `keys`. */
  function OneColumn(keys: seq<int>): (b: RecordBatch)
  {
    Batch([keys], |keys|)
  }

  /** Keys [1, 3] then [2]: each batch is sorted, but 2 follows 3 across the seam. */
  lemma SeamDescentFails()
    ensures ChunkOutcome([OneColumn([1, 3]), OneColumn([2])], 1) == Fail(BetweenBatches(0))
  {
  }

  /** Keys [1, 2] then [2, 3]: an equal key across the seam is in order. */
  lemma EqualSeamPasses()
    ensures ChunkOutcome([OneColumn([1, 2]), OneColumn([2, 3])], 1) == Pass
  {
  }

  /** The same two batches with an empty batch between them. */
  lemma EmptyBetweenPasses()
    ensures ChunkOutcome([OneColumn([1, 2]), OneColumn([]), OneColumn([2, 3])], 1) == Pass
  {
  }
}
