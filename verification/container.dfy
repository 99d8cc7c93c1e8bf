/**
 * What the generated container does at run time. `Vec<Name>` keeps one
 * vector per field of the record; `ColumnVec` holds those vectors as
 * `cols`, the record values they stand for as the ghost `rows`, and keeps
 * `cols` the transpose of `rows`. Each operation is proved to change the
 * columns exactly as the matching `Vec<Name>` operation changes the
 * records. `insert`, `remove`, `swap_remove` and `pop` come from the full
 * template set, which the live expansion does not emit; they are modelled
 * all the same.
 */
module Container {
  import opened Syntax
  import opened VecOps

  class ColumnVec<V> {
    /** Number of fields of the record, one column each. */
    const width: nat
    /** One vector per field, in declaration order. */
    var cols: seq<seq<V>>
    /** The records the columns stand for, each a sequence of field values. */
    ghost var rows: seq<seq<V>>

    /** One empty vector per field: the columns of a container with no
        records. */
    static function EmptyColumns(w: nat): (c: seq<seq<V>>)
      ensures c == Transpose([], w)
    {
      seq(w, _ => [])
    }

    ghost predicate Valid()
      reads this
    {
      && width > 0
      && Rectangular(rows, width)
      && cols == Transpose(rows, width)
    }

    /** `new`: one empty vector per field. */
    constructor New(w: nat)
      requires w > 0
      ensures Valid() && width == w && rows == []
    {
      width := w;
      cols := EmptyColumns(w);
      rows := [];
    }

    /** `with_capacity`: as `new`; the reserved capacity is not observable
        through any modelled operation. */
    constructor WithCapacity(w: nat, capacity: nat)
      requires w > 0
      ensures Valid() && width == w && rows == []
    {
      width := w;
      cols := EmptyColumns(w);
      rows := [];
    }

    /** `len`: the length of the first column is the number of records. */
    method Len() returns (n: nat)
      requires Valid()
      ensures n == |rows|
    {
      n := |cols[0]|;
    }

    /** `is_empty`: `len() == 0`. */
    method IsEmpty() returns (b: bool)
      requires Valid()
      ensures b <==> rows == []
    {
      var n := Len();
      b := n == 0;
    }

    /** `get(index)`: the view whose field `j` is element `index` of column
        `j` is the record at `index`. */
    method Get(index: nat) returns (view: seq<V>)
      requires Valid() && index < |rows|
      ensures view == rows[index]
    {
      view := [];
      var j := 0;
      while j < width
        invariant 0 <= j <= width && |view| == j
        invariant forall k :: 0 <= k < j ==> view[k] == rows[index][k]
      {
        view := view + [cols[j][index]];
        j := j + 1;
      }
    }

    /** `<field>s()` / `<field>s_mut()`: column `j` lists field `j` of every
        record, in order. */
    method Column(j: nat) returns (c: seq<V>)
      requires Valid() && j < width
      ensures |c| == |rows| && forall i :: 0 <= i < |rows| ==> c[i] == rows[i][j]
    {
      c := cols[j];
    }

    /** `push(value)`: every column gains the matching field at its end,
        which appends `value` to the records. */
    method Push(value: seq<V>)
      requires Valid() && |value| == width
      modifies this
      ensures Valid() && rows == old(rows) + [value]
      ensures cols == PushEach(old(cols), value)
    {
      ghost var c0 := cols;
      var j := 0;
      while j < width
        invariant 0 <= j <= width && |cols| == width && rows == old(rows)
        invariant forall k :: 0 <= k < j ==> cols[k] == c0[k] + [value[k]]
        invariant forall k :: j <= k < width ==> cols[k] == c0[k]
      {
        cols := cols[j := cols[j] + [value[j]]];
        j := j + 1;
      }
      PushCommutes(rows, width, value);
      rows := rows + [value];
    }

    /** `insert(index, value)`: every column gains the matching field at
        `index`, which inserts `value` among the records. */
    method Insert(index: nat, value: seq<V>)
      requires Valid() && |value| == width && index <= |rows|
      modifies this
      ensures Valid() && rows == VecOps.Insert(old(rows), index, value)
      ensures cols == InsertEach(old(cols), index, value)
    {
      ghost var c0 := cols;
      var j := 0;
      while j < width
        invariant 0 <= j <= width && |cols| == width && rows == old(rows)
        invariant forall k :: 0 <= k < j ==> cols[k] == VecOps.Insert(c0[k], index, value[k])
        invariant forall k :: j <= k < width ==> cols[k] == c0[k]
      {
        cols := cols[j := VecOps.Insert(cols[j], index, value[j])];
        j := j + 1;
      }
      InsertCommutes(rows, width, index, value);
      rows := VecOps.Insert(rows, index, value);
    }

    /** `remove(index)`: every column gives up its element at `index`, in
        order; the fields taken form the record at `index`, which leaves the
        records. */
    method Remove(index: nat) returns (row: seq<V>)
      requires Valid() && index < |rows|
      modifies this
      ensures Valid() && row == old(rows)[index] && rows == VecOps.Remove(old(rows), index)
      ensures cols == RemoveEach(old(cols), index)
    {
      ghost var c0 := cols;
      row := [];
      var j := 0;
      while j < width
        invariant 0 <= j <= width && |cols| == width && |row| == j && rows == old(rows)
        invariant forall k :: 0 <= k < j ==> cols[k] == VecOps.Remove(c0[k], index) && row[k] == c0[k][index]
        invariant forall k :: j <= k < width ==> cols[k] == c0[k]
      {
        row := row + [cols[j][index]];
        cols := cols[j := VecOps.Remove(cols[j], index)];
        j := j + 1;
      }
      RemoveCommutes(rows, width, index);
      rows := VecOps.Remove(rows, index);
    }

    /** `swap_remove(index)`: as `remove`, but each column fills the gap with
        its last element, so the last record takes the place of the one
        taken. */
    method SwapRemove(index: nat) returns (row: seq<V>)
      requires Valid() && index < |rows|
      modifies this
      ensures Valid() && row == old(rows)[index] && rows == VecOps.SwapRemove(old(rows), index)
      ensures cols == SwapRemoveEach(old(cols), index)
    {
      ghost var c0 := cols;
      row := [];
      var j := 0;
      while j < width
        invariant 0 <= j <= width && |cols| == width && |row| == j && rows == old(rows)
        invariant forall k :: 0 <= k < j ==> cols[k] == VecOps.SwapRemove(c0[k], index) && row[k] == c0[k][index]
        invariant forall k :: j <= k < width ==> cols[k] == c0[k]
      {
        row := row + [cols[j][index]];
        cols := cols[j := VecOps.SwapRemove(cols[j], index)];
        j := j + 1;
      }
      SwapRemoveCommutes(rows, width, index);
      rows := VecOps.SwapRemove(rows, index);
    }

    /** `pop()`: each column in turn gives up its last element, and the
        first empty column returns `None` (`?`). With columns of one length
        that column is the first, so an empty container is left unchanged
        and a non-empty one loses its last record, which is returned. */
    method Pop() returns (r: Option<seq<V>>)
      requires Valid()
      modifies this
      ensures Valid()
      ensures old(rows) == [] ==> r == None && rows == old(rows) && cols == old(cols)
      ensures old(rows) != [] ==>
                && r == Some(old(rows)[|old(rows)| - 1])
                && rows == old(rows)[..|old(rows)| - 1]
                && cols == PopEach(old(cols))
    {
      ghost var c0 := cols;
      var row: seq<V> := [];
      var j := 0;
      while j < width
        invariant 0 <= j <= width && |cols| == width && |row| == j && rows == old(rows)
        invariant j > 0 ==> rows != []
        invariant forall k :: 0 <= k < j ==> |c0[k]| > 0 && cols[k] == c0[k][..|c0[k]| - 1] && row[k] == c0[k][|c0[k]| - 1]
        invariant forall k :: j <= k < width ==> cols[k] == c0[k]
      {
        if |cols[j]| == 0 {
          return None;
        }
        row := row + [cols[j][|cols[j]| - 1]];
        cols := cols[j := cols[j][..|cols[j]| - 1]];
        j := j + 1;
      }
      PopCommutes(rows, width);
      assert row == LastEach(c0);
      rows := rows[..|rows| - 1];
      r := Some(row);
    }
  }
}
