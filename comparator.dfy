/**
 * The composite-key comparator `lexcmp_rows`: rows of same-typed columns
 * are compared column by column, in column order.
 */
module Comparator {

  /** `std::cmp::Ordering`. */
  datatype Ord = Less | Equal | Greater

  /** A cell value. Compared columns hold values of one type; integers stand for it. */
  type Value = int

  type Column = seq<Value>

  /** The tuple of a row's values in the key columns. */
  type Key = seq<Value>

  /** Stands for `cmp_array_row_same_types`: a total order on same-typed cells. */
  function CmpValues(a: Value, b: Value): (o: Ord)
  {
    if a < b then Less else if a == b then Equal else Greater
  }

  /** Every column in `cols` has a cell at position `row`. */
  predicate HasRow(cols: seq<Column>, row: nat)
  {
    forall c :: 0 <= c < |cols| ==> row < |cols[c]|
  }

  /** The key tuple of row `row` across `cols`. */
  function RowKey(cols: seq<Column>, row: nat): (k: Key)
    requires HasRow(cols, row)
    ensures |k| == |cols|
    ensures forall c :: 0 <= c < |cols| ==> k[c] == cols[c][row]
  {
    seq(|cols|, c requires 0 <= c < |cols| => cols[c][row])
  }

  /**
   * `lexcmp_rows(l, l_row, r, r_row)`: the ordering of the first column whose
   * cells differ, or Equal when every column agrees. The column lists must
   * have the same length (a debug assertion in the source).
   */
  function LexCmpRows(l: seq<Column>, lRow: nat, r: seq<Column>, rRow: nat): (o: Ord)
    requires |l| == |r|
    requires HasRow(l, lRow) && HasRow(r, rRow)
    decreases |l|
  {
    if |l| == 0 then Equal
    else
      var o := CmpValues(l[0][lRow], r[0][rRow]);
      if o != Equal then o
      else
        TailHasRow(l, lRow);
        TailHasRow(r, rRow);
        LexCmpRows(l[1..], lRow, r[1..], rRow)
  }

  lemma TailHasRow(cols: seq<Column>, row: nat)
    requires 0 < |cols| && HasRow(cols, row)
    ensures HasRow(cols[1..], row)
  {
    forall c | 0 <= c < |cols| - 1 ensures row < |cols[1..][c]| {
      assert cols[1..][c] == cols[c + 1];
    }
  }

  /**
   * `LexCmpRows` answers Equal exactly when every column agrees, and
   * otherwise the ordering of the first column whose cells differ.
   */
  lemma {:induction false} LexCmpRowsFirstDifference(l: seq<Column>, lRow: nat, r: seq<Column>, rRow: nat)
    requires |l| == |r|
    requires HasRow(l, lRow) && HasRow(r, rRow)
    ensures LexCmpRows(l, lRow, r, rRow) == Equal <==> forall c :: 0 <= c < |l| ==> l[c][lRow] == r[c][rRow]
    ensures forall k :: 0 <= k < |l| && l[k][lRow] != r[k][rRow]
                        && (forall c :: 0 <= c < k ==> l[c][lRow] == r[c][rRow])
                        ==> LexCmpRows(l, lRow, r, rRow) == CmpValues(l[k][lRow], r[k][rRow])
    decreases |l|
  {
    if |l| > 0 && l[0][lRow] == r[0][rRow] {
      TailHasRow(l, lRow);
      TailHasRow(r, rRow);
      LexCmpRowsFirstDifference(l[1..], lRow, r[1..], rRow);
      assert LexCmpRows(l, lRow, r, rRow) == LexCmpRows(l[1..], lRow, r[1..], rRow);
      assert forall c :: 1 <= c < |l| ==> l[1..][c - 1] == l[c] && r[1..][c - 1] == r[c];
    }
  }

  /** Strict lexicographic order on key tuples: the reference for `LexCmpRows`. */
  predicate KeyLt(a: Key, b: Key)
    decreases |a|
  {
    0 < |a| && 0 < |b| && (a[0] < b[0] || (a[0] == b[0] && KeyLt(a[1..], b[1..])))
  }

  /** `LexCmpRows` answers Less exactly when the first row's key tuple is lexicographically smaller. */
  lemma {:induction false} LexCmpRowsLess(l: seq<Column>, lRow: nat, r: seq<Column>, rRow: nat)
    requires |l| == |r|
    requires HasRow(l, lRow) && HasRow(r, rRow)
    ensures LexCmpRows(l, lRow, r, rRow) == Less <==> KeyLt(RowKey(l, lRow), RowKey(r, rRow))
    decreases |l|
  {
    if |l| > 0 {
      TailHasRow(l, lRow);
      TailHasRow(r, rRow);
      LexCmpRowsLess(l[1..], lRow, r[1..], rRow);
      assert RowKey(l[1..], lRow) == RowKey(l, lRow)[1..];
      assert RowKey(r[1..], rRow) == RowKey(r, rRow)[1..];
    }
  }

  lemma {:induction false} KeyLtIrreflexive(a: Key)
    ensures !KeyLt(a, a)
    decreases |a|
  {
    if |a| > 0 {
      KeyLtIrreflexive(a[1..]);
    }
  }

  lemma {:induction false} KeyLtTransitive(a: Key, b: Key, c: Key)
    requires KeyLt(a, b) && KeyLt(b, c)
    ensures KeyLt(a, c)
    decreases |a|
  {
    if a[0] == b[0] && b[0] == c[0] {
      KeyLtTransitive(a[1..], b[1..], c[1..]);
    }
  }

  /** On tuples of one width the order is total: trichotomy. */
  lemma {:induction false} KeyLtTotal(a: Key, b: Key)
    requires |a| == |b|
    ensures a == b || KeyLt(a, b) || KeyLt(b, a)
    decreases |a|
  {
    if |a| > 0 && a[0] == b[0] {
      KeyLtTotal(a[1..], b[1..]);
      if a[1..] == b[1..] {
        assert a == [a[0]] + a[1..] && b == [b[0]] + b[1..];
      }
    }
  }

  /** "Not less" is transitive on tuples of one width. */
  lemma NotLtTransitive(a: Key, b: Key, c: Key)
    requires |a| == |b| == |c|
    requires !KeyLt(b, a) && !KeyLt(c, b)
    ensures !KeyLt(c, a)
  {
    KeyLtTotal(a, b);
    KeyLtTotal(b, c);
    if KeyLt(c, a) && a != b && b != c {
      KeyLtTransitive(a, b, c);
      KeyLtTransitive(c, a, c);
      KeyLtIrreflexive(c);
    }
  }
}
