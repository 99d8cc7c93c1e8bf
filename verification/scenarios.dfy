/**
 * How client code uses the container: the crate's documentation example
 * (push a thousand records, read the first one back), insertion undone by
 * removal, and the benchmark that sums one field through its column
 * instead of through the records.
 */
module Scenarios {
  import opened Syntax
  import opened Util
  import opened VecOps
  import opened Container

  /** A field value of the documentation example's record `Foo { x: u64, y: String }`. */
  datatype Cell = U64(n: nat) | Text(s: string)

  /** The record the documentation example pushes in round `i`:
      `Foo { x: i, y: format!("hello {i}") }`. */
  function DocRecord(i: nat): (r: seq<Cell>)
    ensures |r| == 2 && r[0] == U64(i) && r[1].Text?
  {
    [U64(i), Text("hello " + Decimal(i))]
  }

  /** Pushing `rs` onto an empty container, then `get(k)`, yields `rs[k]`;
      `len()` is the number of records pushed. */
  method PushThenGet<V>(w: nat, rs: seq<seq<V>>, k: nat) returns (n: nat, view: seq<V>)
    requires w > 0 && Rectangular(rs, w) && k < |rs|
    ensures n == |rs| && view == rs[k]
  {
    var v := new ColumnVec<V>.New(w);
    var i := 0;
    while i < |rs|
      invariant 0 <= i <= |rs|
      invariant v.Valid() && v.width == w && v.rows == rs[..i]
    {
      v.Push(rs[i]);
      i := i + 1;
      assert rs[..i] == rs[..i - 1] + [rs[i - 1]];
    }
    assert rs[..i] == rs;
    n := v.Len();
    view := v.Get(k);
  }

  /** The documentation example: after `vec.push(Foo { x: i, y: … })` for
      `i` in `0..1000`, `vec.len()` is 1000 and `vec.get(0).x` is 0. */
  method DocExample() returns (n: nat, x: Cell)
    ensures n == 1000 && x == U64(0)
  {
    var v := new ColumnVec<Cell>.New(2);
    var i := 0;
    while i < 1000
      invariant 0 <= i <= 1000
      invariant v.Valid() && v.width == 2 && |v.rows| == i
      invariant forall k :: 0 <= k < i ==> v.rows[k] == DocRecord(k)
    {
      v.Push(DocRecord(i));
      i := i + 1;
    }
    n := v.Len();
    var first := v.Get(0);
    x := first[0];
  }

  /** On the columns: inserting a record at `i` and removing at `i` gives
      back that record and the original columns; removing at `i` and
      inserting the removed record at `i` gives back the original columns. */
  lemma InsertRemoveRoundTrip<V>(cols: seq<seq<V>>, n: nat, i: nat, value: seq<V>)
    requires EqualLengths(cols, n) && |value| == |cols|
    ensures i <= n ==>
              && EqualLengths(InsertEach(cols, i, value), n + 1)
              && RowAt(InsertEach(cols, i, value), i) == value
              && RemoveEach(InsertEach(cols, i, value), i) == cols
    ensures i < n ==> InsertEach(RemoveEach(cols, i), i, RowAt(cols, i)) == cols
  {
    if i <= n {
      var ins := InsertEach(cols, i, value);
      forall j | 0 <= j < |cols| ensures RemoveEach(ins, i)[j] == cols[j] {
        RemoveAfterInsert(cols[j], i, value[j]);
      }
    }
    if i < n {
      var rem := RemoveEach(cols, i);
      forall j | 0 <= j < |cols| ensures InsertEach(rem, i, RowAt(cols, i))[j] == cols[j] {
        InsertAfterRemove(cols[j], i);
      }
    }
  }

  /** `insert(index, value)` then `remove(index)` on the container returns
      `value` and leaves columns and records as they were. */
  method InsertThenRemove<V>(v: ColumnVec<V>, index: nat, value: seq<V>) returns (r: seq<V>)
    requires v.Valid() && |value| == v.width && index <= |v.rows|
    modifies v
    ensures v.Valid() && r == value
    ensures v.rows == old(v.rows) && v.cols == old(v.cols)
  {
    v.Insert(index, value);
    r := v.Remove(index);
    RemoveAfterInsert(old(v.rows), index, value);
  }

  /** Sum of a sequence of integers, as `iter().copied().sum()` folds it
      (the last element added last). */
  function Sum(s: seq<int>): (r: int)
  {
    if s == [] then 0 else Sum(s[..|s| - 1]) + s[|s| - 1]
  }

  /** The benchmark's reference: field `j` summed over the records
      themselves, `foos.iter().map(|foo| foo.x).sum()`. */
  function SumOfField(rows: seq<seq<int>>, j: nat): (r: int)
    requires forall i :: 0 <= i < |rows| ==> j < |rows[i]|
  {
    if rows == [] then 0 else rows[0][j] + SumOfField(rows[1..], j)
  }

  lemma {:induction false} SumOfFieldSnoc(rows: seq<seq<int>>, j: nat)
    requires rows != [] && forall i :: 0 <= i < |rows| ==> j < |rows[i]|
    ensures SumOfField(rows, j) == SumOfField(rows[..|rows| - 1], j) + rows[|rows| - 1][j]
    decreases |rows|
  {
    if |rows| > 1 {
      assert rows[1..][..|rows[1..]| - 1] == rows[..|rows| - 1][1..];
      SumOfFieldSnoc(rows[1..], j);
    }
  }

  /** The column holds the same numbers as the records' field, so the sum
      through the column is the sum over the records. */
  lemma {:induction false} ColumnSumIsFieldSum(rows: seq<seq<int>>, j: nat)
    requires forall i :: 0 <= i < |rows| ==> j < |rows[i]|
    ensures Sum(ColumnOf(rows, j)) == SumOfField(rows, j)
    decreases |rows|
  {
    if rows != [] {
      var init := rows[..|rows| - 1];
      assert ColumnOf(rows, j)[..|rows| - 1] == ColumnOf(init, j);
      ColumnSumIsFieldSum(init, j);
      SumOfFieldSnoc(rows, j);
    }
  }

  /** The benchmark's column side: `foos.xs().iter().copied().sum()`,
      which equals summing field `j` over the records. */
  method SumColumn(v: ColumnVec<int>, j: nat) returns (s: int)
    requires v.Valid() && j < v.width
    ensures s == SumOfField(v.rows, j)
  {
    var c := v.Column(j);
    s := 0;
    var i := 0;
    while i < |c|
      invariant 0 <= i <= |c| && s == Sum(c[..i])
    {
      assert c[..i + 1][..i] == c[..i];
      s := s + c[i];
      i := i + 1;
    }
    assert c[..i] == c == ColumnOf(v.rows, j);
    ColumnSumIsFieldSum(v.rows, j);
  }

  /** The benchmark `sum 100,000 u64s`: the same records pushed into a
      `Vec<Foo>` and into `VecFoo::with_capacity(len)`; field `x` summed
      through the column `xs()` equals the sum of `foo.x` over the records. */
  method BenchSumOfX(rs: seq<seq<int>>) returns (sov: int, naive: int)
    requires Rectangular(rs, 2)
    ensures sov == naive == SumOfField(rs, 0)
  {
    var v := new ColumnVec<int>.WithCapacity(2, |rs|);
    naive := 0;
    var i := 0;
    while i < |rs|
      invariant 0 <= i <= |rs|
      invariant v.Valid() && v.width == 2 && v.rows == rs[..i]
      invariant naive == SumOfField(rs[..i], 0)
    {
      v.Push(rs[i]);
      naive := naive + rs[i][0];
      i := i + 1;
      assert rs[..i] == rs[..i - 1] + [rs[i - 1]];
      assert rs[..i][..i - 1] == rs[..i - 1];
      SumOfFieldSnoc(rs[..i], 0);
    }
    assert rs[..i] == rs;
    sov := SumColumn(v, 0);
  }
}
