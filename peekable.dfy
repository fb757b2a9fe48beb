/**
 * The batch stream of one file as `validate_chunk` consumes it: empty
 * batches are filtered out, and one batch can be looked at before it is
 * taken.
 */
module BatchStream {
  import opened Wrappers
  import opened Batches

  /** A cursor over the batches of a file, read in file order. */
  class Peekable {
    /** Every batch of the file, empty ones included. */
    const batches: seq<RecordBatch>
    /** How many batches of `batches` have been pulled from the reader. */
    var pos: nat

    ghost predicate Valid()
      reads this
    {
      pos <= |batches|
    }

    /** The non-empty batches not yet taken. */
    ghost function Remaining(): seq<RecordBatch>
      reads this
      requires Valid()
    {
      NonEmpty(batches[pos..])
    }

    constructor (batches: seq<RecordBatch>)
      ensures Valid() && this.batches == batches
      ensures Remaining() == NonEmpty(batches)
    {
      this.batches := batches;
      pos := 0;
      new;
      assert batches[0..] == batches;
    }

    /** Takes the next non-empty batch, or None at the end of the file. */
    method Next() returns (b: Option<RecordBatch>)
      requires Valid()
      modifies this
      ensures Valid()
      ensures old(Remaining()) == [] ==> b == None && Remaining() == []
      ensures old(Remaining()) != [] ==>
        b == Some(old(Remaining())[0]) && Remaining() == old(Remaining())[1..]
    {
      while pos < |batches| && batches[pos].numRows == 0
        invariant Valid()
        invariant Remaining() == old(Remaining())
        decreases |batches| - pos
      {
        NonEmptyAt(batches, pos);
        pos := pos + 1;
      }
      if pos == |batches| {
        b := None;
      } else {
        NonEmptyAt(batches, pos);
        b := Some(batches[pos]);
        pos := pos + 1;
      }
    }

    /** The next non-empty batch, left in place; None at the end of the file. */
    method Peek() returns (b: Option<RecordBatch>)
      requires Valid()
      ensures Remaining() == [] ==> b == None
      ensures Remaining() != [] ==> b == Some(Remaining()[0])
    {
      var i := pos;
      while i < |batches| && batches[i].numRows == 0
        invariant pos <= i <= |batches|
        invariant NonEmpty(batches[i..]) == Remaining()
        decreases |batches| - i
      {
        NonEmptyAt(batches, i);
        i := i + 1;
      }
      if i == |batches| {
        assert batches[i..] == [];
        b := None;
      } else {
        NonEmptyAt(batches, i);
        b := Some(batches[i]);
      }
    }
  }
}
