/**
 * `validate_table`: for every index of a table, in catalog order, every
 * (partition, chunks) pair of that index, in catalog order; the partition's
 * own file when it has one, then each chunk file; each file is checked on its
 * own with the index's `sort_key_size` as the key width, and the first
 * failure ends the whole traversal.
 */
module TableValidator {
  import opened Wrappers
  import opened Batches
  import opened SortOrder
  import opened OrderValidator

  /** The full name of a stored file. */
  type FileRef = string

  /** An active partition: its own file, if it has one yet, and its chunks' files. */
  datatype Partition = Partition(file: Option<FileRef>, chunks: seq<FileRef>)

  /** An index of the table: its key width and its active partitions. */
  datatype Index = Index(sortKeySize: nat, partitions: seq<Partition>)

  /** One file to check, with the key width it is checked with. */
  datatype Target = Target(file: FileRef, keyLen: nat)

  datatype TableError =
    | FileUnavailable(file: FileRef)             // the file could not be made local or opened
    | UnsortedData(file: FileRef, at: Violation) // the file's rows are out of order

  /** The chunk files, in order. */
  function ChunkTargets(chunks: seq<FileRef>, keyLen: nat): (ts: seq<Target>)
  {
    if chunks == [] then [] else [Target(chunks[0], keyLen)] + ChunkTargets(chunks[1..], keyLen)
  }

  /** The partition's own file, when present, before its chunk files. */
  function PartitionTargets(p: Partition, keyLen: nat): (ts: seq<Target>)
  {
    (if p.file.Some? then [Target(p.file.value, keyLen)] else []) + ChunkTargets(p.chunks, keyLen)
  }

  function PartitionsTargets(ps: seq<Partition>, keyLen: nat): (ts: seq<Target>)
  {
    if ps == [] then [] else PartitionTargets(ps[0], keyLen) + PartitionsTargets(ps[1..], keyLen)
  }

  /** Every file the traversal may check, in the order it checks them. */
  function Targets(indexes: seq<Index>): (ts: seq<Target>)
  {
    if indexes == [] then []
    else PartitionsTargets(indexes[0].partitions, indexes[0].sortKeySize) + Targets(indexes[1..])
  }

  /** Every file that opens has a key prefix wherever it has rows. */
  predicate Openable(ts: seq<Target>, open: FileRef -> Option<seq<RecordBatch>>)
  {
    forall t :: t in ts && open(t.file).Some? ==> FileFits(open(t.file).value, t.keyLen)
  }

  /** The verdict on one file: unavailable, or its `ChunkOutcome`. */
  function TargetOutcome(t: Target, open: FileRef -> Option<seq<RecordBatch>>): (r: Outcome<TableError>)
    requires open(t.file).Some? ==> FileFits(open(t.file).value, t.keyLen)
  {
    match open(t.file)
    case None => Fail(FileUnavailable(t.file))
    case Some(batches) =>
      match ChunkOutcome(batches, t.keyLen)
      case Pass => Pass
      case Fail(v) => Fail(UnsortedData(t.file, v))
  }

  /** Every file in `ts` can be checked and passes. */
  predicate AllPass(ts: seq<Target>, open: FileRef -> Option<seq<RecordBatch>>)
  {
    forall t :: t in ts ==>
      (open(t.file).Some? ==> FileFits(open(t.file).value, t.keyLen)) && TargetOutcome(t, open).Pass?
  }

  /**
   * `visited` is what a fail-fast traversal of `ts` checked before returning
   * `r`: all of `ts` with every file passing, or a prefix of `ts` whose last
   * file failed with `r` after every earlier one passed.
   */
  predicate StopsAtFirstFailure(ts: seq<Target>, open: FileRef -> Option<seq<RecordBatch>>,
                                r: Outcome<TableError>, visited: seq<Target>)
    requires Openable(ts, open)
  {
    && visited <= ts
    && (r.Pass? ==> visited == ts && AllPass(ts, open))
    && (r.Fail? ==>
          && 0 < |visited|
          && AllPass(visited[..|visited| - 1], open)
          && r == TargetOutcome(ts[|visited| - 1], open))
  }

  /** `fs.local_file` followed by `validate_chunk` on one file. */
  method ValidateTarget(t: Target, open: FileRef -> Option<seq<RecordBatch>>) returns (r: Outcome<TableError>)
    requires open(t.file).Some? ==> FileFits(open(t.file).value, t.keyLen)
    ensures r == TargetOutcome(t, open)
  {
    var batches := open(t.file);
    if batches.None? {
      return Fail(FileUnavailable(t.file));
    }
    var res := ValidateChunk(batches.value, t.keyLen);
    if res.Fail? {
      return Fail(UnsortedData(t.file, res.error));
    }
    r := Pass;
  }

  /**
   * A failure names the file it is about, and says the file is unavailable
   * exactly when it does not open. One file passes exactly when it opens and the key tuples of its
   * non-empty batches, read in order, are non-decreasing.
   */
  lemma TargetOutcomePassIff(t: Target, open: FileRef -> Option<seq<RecordBatch>>)
    requires open(t.file).Some? ==> FileFits(open(t.file).value, t.keyLen)
    ensures TargetOutcome(t, open).Fail? ==> TargetOutcome(t, open).error.file == t.file
    ensures TargetOutcome(t, open) == Fail(FileUnavailable(t.file)) <==> open(t.file).None?
    ensures open(t.file).Some? ==> FileFits(NonEmpty(open(t.file).value), t.keyLen)
    ensures TargetOutcome(t, open).Pass? <==>
      open(t.file).Some? && NonDecreasing(Keys(NonEmpty(open(t.file).value), t.keyLen))
  {
    if open(t.file).Some? {
      ChunkOutcomeSound(open(t.file).value, t.keyLen);
    }
  }

  lemma AllPassSnoc(ts: seq<Target>, t: Target, open: FileRef -> Option<seq<RecordBatch>>)
    requires open(t.file).Some? ==> FileFits(open(t.file).value, t.keyLen)
    ensures AllPass(ts + [t], open) <==> AllPass(ts, open) && TargetOutcome(t, open).Pass?
  {
    assert forall u :: u in ts + [t] <==> u in ts || u == t;
  }

  lemma AllPassAppend(a: seq<Target>, b: seq<Target>, open: FileRef -> Option<seq<RecordBatch>>)
    ensures AllPass(a + b, open) <==> AllPass(a, open) && AllPass(b, open)
  {
    assert forall u :: u in a + b <==> u in a || u in b;
  }

  /** The traversal stops at `t` when it fails after every earlier target passed. */
  lemma FailingTargetStops(visited: seq<Target>, t: Target, rest: seq<Target>, all: seq<Target>,
                           open: FileRef -> Option<seq<RecordBatch>>, r: Outcome<TableError>)
    requires visited + [t] + rest == all && Openable(all, open)
    requires AllPass(visited, open)
    requires open(t.file).Some? ==> FileFits(open(t.file).value, t.keyLen)
    requires r == TargetOutcome(t, open) && r.Fail?
    ensures StopsAtFirstFailure(all, open, r, visited + [t])
  {
    NextTarget(visited, t, rest, all);
    assert (visited + [t])[..|visited|] == visited;
  }

  /** Taking the next target: it is in the full list, and the rest follows it. */
  lemma NextTarget(visited: seq<Target>, t: Target, rest: seq<Target>, all: seq<Target>)
    requires visited + [t] + rest == all
    ensures t in all && visited + [t] <= all
  {
    assert all[|visited|] == t;
    assert all[..|visited| + 1] == visited + [t];
  }

  /**
   * The partition step (the body of the loop over pairs): the partition's
   * own file when it has one, then every chunk file, stopping at the first
   * failure.
   */
  method ValidatePartition(p: Partition, keyLen: nat, open: FileRef -> Option<seq<RecordBatch>>)
    returns (r: Outcome<TableError>, ghost visited: seq<Target>)
    requires Openable(PartitionTargets(p, keyLen), open)
    ensures StopsAtFirstFailure(PartitionTargets(p, keyLen), open, r, visited)
  {
    ghost var all := PartitionTargets(p, keyLen);
    visited := [];
    if p.file.Some? {
      var t := Target(p.file.value, keyLen);
      NextTarget([], t, ChunkTargets(p.chunks, keyLen), all);
      r := ValidateTarget(t, open);
      AllPassSnoc([], t, open);
      visited := [t];
      if r.Fail? {
        FailingTargetStops([], t, ChunkTargets(p.chunks, keyLen), all, open, r);
        return;
      }
    }
    for c := 0 to |p.chunks|
      invariant visited + ChunkTargets(p.chunks[c..], keyLen) == all
      invariant AllPass(visited, open)
    {
      assert p.chunks[c..][0] == p.chunks[c] && p.chunks[c..][1..] == p.chunks[c + 1..];
      var t := Target(p.chunks[c], keyLen);
      NextTarget(visited, t, ChunkTargets(p.chunks[c + 1..], keyLen), all);
      r := ValidateTarget(t, open);
      if r.Fail? {
        FailingTargetStops(visited, t, ChunkTargets(p.chunks[c + 1..], keyLen), all, open, r);
        visited := visited + [t];
        return;
      }
      AllPassSnoc(visited, t, open);
      visited := visited + [t];
    }
    assert p.chunks[|p.chunks|..] == [];
    r := Pass;
  }

  /** A segment `pts` checked in the middle of the traversal: its outcome carries over to the whole list. */
  lemma SegmentInContext(visited: seq<Target>, pts: seq<Target>, later: seq<Target>, all: seq<Target>,
                               open: FileRef -> Option<seq<RecordBatch>>,
                               r: Outcome<TableError>, pv: seq<Target>)
    requires visited + pts + later == all
    requires Openable(all, open) && Openable(pts, open)
    requires AllPass(visited, open)
    requires StopsAtFirstFailure(pts, open, r, pv)
    ensures r.Pass? ==> visited + pv + later == all && AllPass(visited + pv, open)
    ensures r.Fail? ==> StopsAtFirstFailure(all, open, r, visited + pv)
  {
    AllPassAppend(visited, pv, open);
    if r.Fail? {
      var n := |visited + pv|;
      assert (visited + pv)[..n - 1] == visited + pv[..|pv| - 1];
      AllPassAppend(visited, pv[..|pv| - 1], open);
      assert all[n - 1] == pts[|pv| - 1];
      assert all[..n] == visited + pv;
    }
  }

  /** One index (the body of the loop over indexes): its partitions in order, stopping at the first failure. */
  method ValidateIndex(ix: Index, open: FileRef -> Option<seq<RecordBatch>>)
    returns (r: Outcome<TableError>, ghost visited: seq<Target>)
    requires Openable(PartitionsTargets(ix.partitions, ix.sortKeySize), open)
    ensures StopsAtFirstFailure(PartitionsTargets(ix.partitions, ix.sortKeySize), open, r, visited)
  {
    var keyLen := ix.sortKeySize;
    var parts := ix.partitions;
    ghost var all := PartitionsTargets(parts, keyLen);
    visited := [];
    for j := 0 to |parts|
      invariant visited + PartitionsTargets(parts[j..], keyLen) == all
      invariant AllPass(visited, open)
    {
      assert parts[j..][0] == parts[j] && parts[j..][1..] == parts[j + 1..];
      ghost var later := PartitionsTargets(parts[j + 1..], keyLen);
      ghost var pts := PartitionTargets(parts[j], keyLen);
      assert visited + pts + later == all;
      OpenableInfix(visited, pts, later, all, open);
      ghost var pv;
      r, pv := ValidatePartition(parts[j], keyLen, open);
      SegmentInContext(visited, pts, later, all, open, r, pv);
      visited := visited + pv;
      if r.Fail? {
        return;
      }
    }
    assert parts[|parts|..] == [];
    assert visited == all;
    r := Pass;
  }

  /**
   * `validate_table` once the catalog has answered: every index in order.
   * `visited` is the files checked, in order: all of `Targets(indexes)` on
   * success, otherwise a prefix of it ending with the one file that failed.
   */
  method ValidateTable(indexes: seq<Index>, open: FileRef -> Option<seq<RecordBatch>>)
    returns (r: Outcome<TableError>, ghost visited: seq<Target>)
    requires Openable(Targets(indexes), open)
    ensures StopsAtFirstFailure(Targets(indexes), open, r, visited)
    ensures r.Pass? <==> AllPass(Targets(indexes), open)
  {
    ghost var all := Targets(indexes);
    visited := [];
    for i := 0 to |indexes|
      invariant visited + Targets(indexes[i..]) == all
      invariant AllPass(visited, open)
    {
      assert indexes[i..][0] == indexes[i] && indexes[i..][1..] == indexes[i + 1..];
      ghost var later := Targets(indexes[i + 1..]);
      ghost var its := PartitionsTargets(indexes[i].partitions, indexes[i].sortKeySize);
      assert visited + its + later == all;
      OpenableInfix(visited, its, later, all, open);
      ghost var iv;
      r, iv := ValidateIndex(indexes[i], open);
      SegmentInContext(visited, its, later, all, open, r, iv);
      visited := visited + iv;
      if r.Fail? {
        FailedTableNotAllPass(visited, all, open, r);
        return;
      }
    }
    assert indexes[|indexes|..] == [];
    assert visited == all;
    r := Pass;
  }

  lemma OpenableInfix(a: seq<Target>, b: seq<Target>, c: seq<Target>, all: seq<Target>,
                      open: FileRef -> Option<seq<RecordBatch>>)
    requires a + b + c == all && Openable(all, open)
    ensures Openable(b, open)
  {
    forall t | t in b ensures t in all {
      var i :| 0 <= i < |b| && b[i] == t;
      assert all[|a| + i] == t;
    }
  }

  /** A traversal that stopped at a failing file cannot have a list that all passes. */
  lemma FailedTableNotAllPass(visited: seq<Target>, all: seq<Target>, open: FileRef -> Option<seq<RecordBatch>>,
                              r: Outcome<TableError>)
    requires Openable(all, open)
    requires StopsAtFirstFailure(all, open, r, visited) && r.Fail?
    ensures !AllPass(all, open)
  {
    assert all[|visited| - 1] in all;
  }

  /** Index order: the files of `a` all come before the files of `b`. */
  lemma {:induction false} TargetsAppend(a: seq<Index>, b: seq<Index>)
    ensures Targets(a + b) == Targets(a) + Targets(b)
    decreases |a|
  {
    if a == [] {
      assert a + b == b;
    } else {
      assert (a + b)[0] == a[0] && (a + b)[1..] == a[1..] + b;
      TargetsAppend(a[1..], b);
    }
  }

  /**
   * The files of index `i` form one block, between those of the earlier and
   * the later indexes, each checked with that index's `sort_key_size`.
   */
  lemma TargetsOfIndex(indexes: seq<Index>, i: nat)
    requires i < |indexes|
    ensures Targets(indexes) ==
      Targets(indexes[..i]) + PartitionsTargets(indexes[i].partitions, indexes[i].sortKeySize)
      + Targets(indexes[i + 1..])
    ensures forall t :: t in PartitionsTargets(indexes[i].partitions, indexes[i].sortKeySize) ==>
      t.keyLen == indexes[i].sortKeySize
  {
    var pre, one, post := indexes[..i], [indexes[i]], indexes[i + 1..];
    assert indexes == pre + one + post;
    TargetsAppend(pre + one, post);
    TargetsAppend(pre, one);
    assert Targets(one) == PartitionsTargets(indexes[i].partitions, indexes[i].sortKeySize) by {
      assert one[1..] == [];
    }
    PartitionsKeyLen(indexes[i].partitions, indexes[i].sortKeySize);
  }

  /** One target per chunk file, in the chunks' order, each with the given key width. */
  lemma {:induction false} ChunkTargetsInOrder(chunks: seq<FileRef>, keyLen: nat)
    ensures |ChunkTargets(chunks, keyLen)| == |chunks|
    ensures forall i :: 0 <= i < |chunks| ==> ChunkTargets(chunks, keyLen)[i] == Target(chunks[i], keyLen)
    decreases |chunks|
  {
    if chunks != [] {
      ChunkTargetsInOrder(chunks[1..], keyLen);
    }
  }

  /** A partition's own file, when it has one, comes first; then its chunk files in order. */
  lemma PartitionTargetsInOrder(p: Partition, keyLen: nat)
    ensures |PartitionTargets(p, keyLen)| == (if p.file.Some? then 1 else 0) + |p.chunks|
    ensures p.file.Some? ==> PartitionTargets(p, keyLen)[0] == Target(p.file.value, keyLen)
    ensures forall i :: 0 <= i < |p.chunks| ==>
      PartitionTargets(p, keyLen)[|PartitionTargets(p, keyLen)| - |p.chunks| + i] == Target(p.chunks[i], keyLen)
  {
    ChunkTargetsInOrder(p.chunks, keyLen);
  }

  lemma {:induction false} PartitionsKeyLen(ps: seq<Partition>, keyLen: nat)
    ensures forall t :: t in PartitionsTargets(ps, keyLen) ==> t.keyLen == keyLen
    decreases |ps|
  {
    if ps != [] {
      PartitionsKeyLen(ps[1..], keyLen);
      ChunksKeyLen(ps[0].chunks, keyLen);
    }
  }

  lemma {:induction false} ChunksKeyLen(cs: seq<FileRef>, keyLen: nat)
    ensures forall t :: t in ChunkTargets(cs, keyLen) ==> t.keyLen == keyLen
    decreases |cs|
  {
    if cs != [] {
      ChunksKeyLen(cs[1..], keyLen);
    }
  }
}
