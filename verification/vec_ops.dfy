/**
 * What the generated code relies on: the standard vector operations it calls
 * on each column, and the correspondence between a list of rows and the
 * column-per-field layout of the same data.
 */
module VecOps {

  /** `Vec::insert(i, x)`: defined for `i <= len`, shifts the tail up by one. */
  function Insert<T>(s: seq<T>, i: nat, x: T): (r: seq<T>)
    requires i <= |s|
    ensures |r| == |s| + 1 && r[i] == x
    ensures forall k :: 0 <= k < i ==> r[k] == s[k]
    ensures forall k :: i < k < |r| ==> r[k] == s[k - 1]
  {
    s[..i] + [x] + s[i..]
  }

  /** `Vec::remove(i)`: defined for `i < len`, shifts the tail down by one. */
  function Remove<T>(s: seq<T>, i: nat): (r: seq<T>)
    requires i < |s|
    ensures |r| == |s| - 1
    ensures forall k :: 0 <= k < i ==> r[k] == s[k]
    ensures forall k :: i <= k < |r| ==> r[k] == s[k + 1]
  {
    s[..i] + s[i + 1..]
  }

  /** `Vec::swap_remove(i)`: defined for `i < len`; the last element takes the
      place of the removed one, every other position is unchanged. */
  function SwapRemove<T>(s: seq<T>, i: nat): (r: seq<T>)
    requires i < |s|
    ensures |r| == |s| - 1
    ensures forall k :: 0 <= k < |r| && k != i ==> r[k] == s[k]
    ensures i < |r| ==> r[i] == s[|s| - 1]
  {
    if i == |s| - 1 then s[..i] else s[..i] + [s[|s| - 1]] + s[i + 1..|s| - 1]
  }

  /** Removing what was just inserted restores the sequence. */
  lemma RemoveAfterInsert<T>(s: seq<T>, i: nat, x: T)
    requires i <= |s|
    ensures Insert(s, i, x)[i] == x && Remove(Insert(s, i, x), i) == s
  {
    var r := Remove(Insert(s, i, x), i);
    assert forall k :: 0 <= k < |s| ==> r[k] == s[k];
  }

  /** Re-inserting what was removed restores the sequence. */
  lemma InsertAfterRemove<T>(s: seq<T>, i: nat)
    requires i < |s|
    ensures Insert(Remove(s, i), i, s[i]) == s
  {
    var r := Insert(Remove(s, i), i, s[i]);
    assert forall k :: 0 <= k < |s| ==> r[k] == s[k];
  }

  /** `swap_remove` loses exactly the removed element. */
  lemma SwapRemoveKeepsOthers<T>(s: seq<T>, i: nat)
    requires i < |s|
    ensures multiset(SwapRemove(s, i)) + multiset{s[i]} == multiset(s)
  {
    if i < |s| - 1 {
      var last := |s| - 1;
      assert s == s[..i] + [s[i]] + s[i + 1..last] + [s[last]];
    } else {
      assert s == s[..i] + [s[i]];
    }
  }

  /** Every row has exactly `w` fields. */
  predicate Rectangular<V>(rows: seq<seq<V>>, w: nat)
  {
    forall i :: 0 <= i < |rows| ==> |rows[i]| == w
  }

  /** Every column has length `n`. */
  predicate EqualLengths<V>(cols: seq<seq<V>>, n: nat)
  {
    forall j :: 0 <= j < |cols| ==> |cols[j]| == n
  }

  /** Field `j` of every row, in row order. */
  function ColumnOf<V>(rows: seq<seq<V>>, j: nat): (c: seq<V>)
    requires forall i :: 0 <= i < |rows| ==> j < |rows[i]|
    ensures |c| == |rows|
    ensures forall i :: 0 <= i < |rows| ==> c[i] == rows[i][j]
  {
    seq(|rows|, i requires 0 <= i < |rows| => rows[i][j])
  }

  /** The column-per-field layout of a list of rows. */
  function Transpose<V>(rows: seq<seq<V>>, w: nat): (cols: seq<seq<V>>)
    requires Rectangular(rows, w)
    ensures |cols| == w && EqualLengths(cols, |rows|)
    ensures forall j, i :: 0 <= j < w && 0 <= i < |rows| ==> cols[j][i] == rows[i][j]
  {
    seq(w, j requires 0 <= j < w => ColumnOf(rows, j))
  }

  /** Element `i` of every column, in column order. */
  function RowAt<V>(cols: seq<seq<V>>, i: nat): (row: seq<V>)
    requires forall j :: 0 <= j < |cols| ==> i < |cols[j]|
    ensures |row| == |cols|
    ensures forall j :: 0 <= j < |cols| ==> row[j] == cols[j][i]
  {
    seq(|cols|, j requires 0 <= j < |cols| => cols[j][i])
  }

  /** The list of rows held by equal-length columns. */
  function Rows<V>(cols: seq<seq<V>>, n: nat): (rows: seq<seq<V>>)
    requires EqualLengths(cols, n)
    ensures |rows| == n && Rectangular(rows, |cols|)
  {
    seq(n, i requires 0 <= i < n => RowAt(cols, i))
  }

  /** The two layouts describe the same data: converting either way and back
      gives the original. */
  lemma LayoutRoundTrip<V>(rows: seq<seq<V>>, w: nat)
    requires Rectangular(rows, w)
    ensures Rows(Transpose(rows, w), |rows|) == rows
  {
    var back := Rows(Transpose(rows, w), |rows|);
    forall i | 0 <= i < |rows| ensures back[i] == rows[i] {
      assert forall j :: 0 <= j < w ==> back[i][j] == rows[i][j];
    }
  }

  lemma ColumnsRoundTrip<V>(cols: seq<seq<V>>, n: nat)
    requires EqualLengths(cols, n)
    ensures Transpose(Rows(cols, n), |cols|) == cols
  {
    var back := Transpose(Rows(cols, n), |cols|);
    forall j | 0 <= j < |cols| ensures back[j] == cols[j] {
      assert forall i :: 0 <= i < n ==> back[j][i] == cols[j][i];
    }
  }

  /** Reading index `i` across the columns gives row `i`. */
  lemma RowOfTranspose<V>(rows: seq<seq<V>>, w: nat, i: nat)
    requires Rectangular(rows, w) && i < |rows|
    ensures RowAt(Transpose(rows, w), i) == rows[i]
  {
  }

  // Column-wise operations: the same vector operation applied to every column.

  function PushEach<V>(cols: seq<seq<V>>, value: seq<V>): (r: seq<seq<V>>)
    requires |value| == |cols|
    ensures |r| == |cols|
    ensures forall j :: 0 <= j < |cols| ==> r[j] == cols[j] + [value[j]]
  {
    seq(|cols|, j requires 0 <= j < |cols| => cols[j] + [value[j]])
  }

  function InsertEach<V>(cols: seq<seq<V>>, i: nat, value: seq<V>): (r: seq<seq<V>>)
    requires |value| == |cols| && forall j :: 0 <= j < |cols| ==> i <= |cols[j]|
    ensures |r| == |cols|
    ensures forall j :: 0 <= j < |cols| ==> r[j] == Insert(cols[j], i, value[j])
  {
    seq(|cols|, j requires 0 <= j < |cols| => Insert(cols[j], i, value[j]))
  }

  function RemoveEach<V>(cols: seq<seq<V>>, i: nat): (r: seq<seq<V>>)
    requires forall j :: 0 <= j < |cols| ==> i < |cols[j]|
    ensures |r| == |cols|
    ensures forall j :: 0 <= j < |cols| ==> r[j] == Remove(cols[j], i)
  {
    seq(|cols|, j requires 0 <= j < |cols| => Remove(cols[j], i))
  }

  function SwapRemoveEach<V>(cols: seq<seq<V>>, i: nat): (r: seq<seq<V>>)
    requires forall j :: 0 <= j < |cols| ==> i < |cols[j]|
    ensures |r| == |cols|
    ensures forall j :: 0 <= j < |cols| ==> r[j] == SwapRemove(cols[j], i)
  {
    seq(|cols|, j requires 0 <= j < |cols| => SwapRemove(cols[j], i))
  }

  function PopEach<V>(cols: seq<seq<V>>): (r: seq<seq<V>>)
    requires forall j :: 0 <= j < |cols| ==> |cols[j]| > 0
    ensures |r| == |cols|
    ensures forall j :: 0 <= j < |cols| ==> r[j] == cols[j][..|cols[j]| - 1]
  {
    seq(|cols|, j requires 0 <= j < |cols| => cols[j][..|cols[j]| - 1])
  }

  /** The last element of every column. */
  function LastEach<V>(cols: seq<seq<V>>): (r: seq<V>)
    requires forall j :: 0 <= j < |cols| ==> |cols[j]| > 0
    ensures |r| == |cols|
    ensures forall j :: 0 <= j < |cols| ==> r[j] == cols[j][|cols[j]| - 1]
  {
    seq(|cols|, j requires 0 <= j < |cols| => cols[j][|cols[j]| - 1])
  }

  // Each column-wise operation is the corresponding operation on the rows.

  lemma PushCommutes<V>(rows: seq<seq<V>>, w: nat, value: seq<V>)
    requires Rectangular(rows, w) && |value| == w
    ensures Rectangular(rows + [value], w)
    ensures Transpose(rows + [value], w) == PushEach(Transpose(rows, w), value)
  {
    var a, b := Transpose(rows + [value], w), PushEach(Transpose(rows, w), value);
    forall j | 0 <= j < w ensures a[j] == b[j] {
      assert forall i :: 0 <= i <= |rows| ==> a[j][i] == b[j][i];
    }
  }

  lemma InsertCommutes<V>(rows: seq<seq<V>>, w: nat, i: nat, value: seq<V>)
    requires Rectangular(rows, w) && |value| == w && i <= |rows|
    ensures Rectangular(Insert(rows, i, value), w)
    ensures Transpose(Insert(rows, i, value), w) == InsertEach(Transpose(rows, w), i, value)
  {
    var a, b := Transpose(Insert(rows, i, value), w), InsertEach(Transpose(rows, w), i, value);
    forall j | 0 <= j < w ensures a[j] == b[j] {
      assert forall k :: 0 <= k <= |rows| ==> a[j][k] == b[j][k];
    }
  }

  lemma RemoveCommutes<V>(rows: seq<seq<V>>, w: nat, i: nat)
    requires Rectangular(rows, w) && i < |rows|
    ensures Rectangular(Remove(rows, i), w)
    ensures Transpose(Remove(rows, i), w) == RemoveEach(Transpose(rows, w), i)
  {
    var a, b := Transpose(Remove(rows, i), w), RemoveEach(Transpose(rows, w), i);
    forall j | 0 <= j < w ensures a[j] == b[j] {
      assert forall k :: 0 <= k < |rows| - 1 ==> a[j][k] == b[j][k];
    }
  }

  lemma SwapRemoveCommutes<V>(rows: seq<seq<V>>, w: nat, i: nat)
    requires Rectangular(rows, w) && i < |rows|
    ensures Rectangular(SwapRemove(rows, i), w)
    ensures Transpose(SwapRemove(rows, i), w) == SwapRemoveEach(Transpose(rows, w), i)
  {
    var a, b := Transpose(SwapRemove(rows, i), w), SwapRemoveEach(Transpose(rows, w), i);
    forall j | 0 <= j < w ensures a[j] == b[j] {
      assert forall k :: 0 <= k < |rows| - 1 ==> a[j][k] == b[j][k];
    }
  }

  lemma PopCommutes<V>(rows: seq<seq<V>>, w: nat)
    requires Rectangular(rows, w) && |rows| > 0
    ensures Rectangular(rows[..|rows| - 1], w)
    ensures forall j :: 0 <= j < w ==> |Transpose(rows, w)[j]| > 0
    ensures Transpose(rows[..|rows| - 1], w) == PopEach(Transpose(rows, w))
    ensures LastEach(Transpose(rows, w)) == rows[|rows| - 1]
  {
    var a, b := Transpose(rows[..|rows| - 1], w), PopEach(Transpose(rows, w));
    forall j | 0 <= j < w ensures a[j] == b[j] {
      assert forall k :: 0 <= k < |rows| - 1 ==> a[j][k] == b[j][k];
    }
  }
}
