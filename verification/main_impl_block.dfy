/**
 * The impl block the derive emits: constructors, element views, `push`, the
 * per-field accessors and `len` / `is_empty`. `insert`, `remove`,
 * `swap_remove` and `pop` are templates of a block the crate never compiles
 * (see FullImplBlock), so the emitted container has none of them.
 */
module MainImplBlock {
  import opened Syntax
  import opened Parse
  import opened Items
  import opened Names
  import opened VecOps
  import opened Semantics
  import ConstructorTemplates
  import GetTemplates
  import InsertTemplates
  import LenTemplates

  /** `new`, `with_capacity`, `get`, `get_mut` and `push`. */
  function Leading(input: Input, names: StructNames): (r: seq<ImplItem>)
    ensures |r| == 5 && AllFns(r)
    ensures MethodNames(r) == ["new", "with_capacity", "get", "get_mut", "push"]
  {
    var ctor, get, push := ConstructorTemplates.Codegen(input), GetTemplates.Get(input, names), [Fn(InsertTemplates.PushAsWritten(input, names))];
    assert MethodNames(push) == ["push"] by {
      assert push[1..] == [];
    }
    AllFnsAppend(ctor, get);
    AllFnsAppend(ctor + get, push);
    ctor + get + push
  }

  /** `generate_impl_block`: `impl <Vec name> { ... }` with the five leading
      methods, then the accessors, then `len` and `is_empty` when the record
      has a field. */
  function GenerateImplBlock(input: Input, names: StructNames): (b: ImplBlock)
    requires WellFormedFields(input.fields)
    ensures b.selfTy == names.vec
    ensures MethodNames(b.items) == ["new", "with_capacity", "get", "get_mut", "push"]
              + MethodNames(GetTemplates.FieldAccessors(input))
              + (if FieldCount(input.fields) > 0 then ["len", "is_empty"] else [])
  {
    var lead, acc, len := Leading(input, names), GetTemplates.FieldAccessors(input), LenTemplates.LenIsEmpty(input);
    MethodNamesAppend(lead, acc);
    MethodNamesAppend(lead + acc, len);
    ImplBlock(names.vec, lead + acc + len)
  }

  /** `generate_impl_block` as written: no block at all (the derive panics in
      `len_is_empty`) for a record whose first field is positional, and
      otherwise the block above. */
  function GenerateImplBlockAsWritten(input: Input, names: StructNames): (r: Option<ImplBlock>)
    requires WellFormedFields(input.fields)
    ensures r.None? <==> input.fields.Unnamed? && FieldCount(input.fields) > 0
    ensures r.Some? ==> r.value == GenerateImplBlock(input, names)
  {
    match LenTemplates.LenIsEmptyAsWritten(input)
    case None => None
    case Some(len) => Some(ImplBlock(names.vec, Leading(input, names) + GetTemplates.FieldAccessors(input) + len))
  }

  /** The names of the live block's methods other than the accessors. */
  const LiveFixed: seq<Ident> := ["new", "with_capacity", "get", "get_mut", "push", "len", "is_empty"]

  lemma LiveFixedNames()
    ensures NoRepeats(LiveFixed) && NoRepeats(LiveFixed[..5])
    ensures forall n :: n in LiveFixed ==> n in GetTemplates.FixedNames
    ensures ["new", "with_capacity", "get", "get_mut", "push"] + ["len", "is_empty"] == LiveFixed
    ensures ["new", "with_capacity", "get", "get_mut", "push"] + [] == LiveFixed[..5]
  {
  }

  /** `len` and `is_empty` are reserved and follow the five leading names. */
  lemma LenNamesReserved()
    ensures "len" in LiveFixed && "is_empty" in LiveFixed && "len" !in LiveFixed[..5] && "is_empty" !in LiveFixed[..5]
    ensures "len" in GetTemplates.FixedNames && "is_empty" in GetTemplates.FixedNames
  {
  }

  /** The insertion and removal names are reserved and none is live. */
  lemma MutatorNamesReserved()
    ensures forall n | n in ["insert", "remove", "swap_remove", "pop"] :: n in GetTemplates.FixedNames && n !in LiveFixed
  {
  }

  /** The methods whose names are fixed, with the accessors left out: their
      names are those of `LiveFixed`, without `len` and `is_empty` when the
      record has no field. */
  lemma FixedPart(input: Input, names: StructNames)
    requires WellFormedFields(input.fields)
    ensures var fixed := Leading(input, names) + LenTemplates.LenIsEmpty(input);
            && (forall k :: 0 <= k < |fixed| ==> fixed[k].Fn? && fixed[k].fn.name in GetTemplates.FixedNames)
            && DistinctMethodNames(fixed)
            && MethodNames(fixed) == if FieldCount(input.fields) > 0 then LiveFixed else LiveFixed[..5]
  {
    var lead, len := Leading(input, names), LenTemplates.LenIsEmpty(input);
    AllFnsAppend(lead, len);
    LiveFixedNames();
    if FieldCount(input.fields) > 0 {
      assert MethodNames(lead + len) == LiveFixed;
    } else {
      assert MethodNames(lead + len) == LiveFixed[..5];
    }
    ListedNamesDistinct(lead + len, GetTemplates.FixedNames);
  }

  /** The block defines every method once exactly when no two fields
      pluralize alike (`bus` and `buse` both give `buses`); positional and
      unit records never clash. */
  lemma MethodNamesDistinct(input: Input, names: StructNames)
    requires WellFormedFields(input.fields)
    ensures DistinctMethodNames(GenerateImplBlock(input, names).items) <==>
              (input.fields.Named? ==> GetTemplates.DistinctPlurals(input.fields.named))
  {
    var lead, acc, len := Leading(input, names), GetTemplates.FieldAccessors(input), LenTemplates.LenIsEmpty(input);
    FixedPart(input, names);
    GetTemplates.AccessorItemsAvoidFixedNames(input);
    DistinctAround(lead, acc, len, GetTemplates.FixedNames);
    if input.fields.Named? {
      GetTemplates.AccessorsDistinct(input);
    }
  }

  /** Fixed method `i` (leading or `len` / `is_empty`) is found by its name,
      whatever accessors sit between them. */
  lemma FindFixed(input: Input, names: StructNames, i: nat)
    requires WellFormedFields(input.fields)
    requires i < |Leading(input, names) + LenTemplates.LenIsEmpty(input)|
    ensures var fixed := Leading(input, names) + LenTemplates.LenIsEmpty(input);
            fixed[i].Fn? && FindMethod(GenerateImplBlock(input, names).items, fixed[i].fn.name) == Some(fixed[i].fn)
  {
    var lead, acc, len := Leading(input, names), GetTemplates.FieldAccessors(input), LenTemplates.LenIsEmpty(input);
    FixedPart(input, names);
    GetTemplates.AccessorItemsAvoidFixedNames(input);
    FindReserved(lead, acc, len, GetTemplates.FixedNames, i);
  }

  /** Leading method `t` is found by its name. */
  lemma FindLeading(input: Input, names: StructNames, t: nat)
    requires WellFormedFields(input.fields) && t < 5
    ensures var lead := Leading(input, names);
            lead[t].Fn? && FindMethod(GenerateImplBlock(input, names).items, lead[t].fn.name) == Some(lead[t].fn)
  {
    FindFixed(input, names, t);
  }

  /** With a field, `len` (`t` = 0) and `is_empty` (`t` = 1) are found by their names. */
  lemma FindLen(input: Input, names: StructNames, t: nat)
    requires WellFormedFields(input.fields) && FieldCount(input.fields) > 0 && t < 2
    ensures var len := LenTemplates.LenIsEmpty(input);
            len[t].Fn? && FindMethod(GenerateImplBlock(input, names).items, len[t].fn.name) == Some(len[t].fn)
  {
    FindFixed(input, names, 5 + t);
  }

  /** A reserved name that no fixed method carries is not defined. */
  lemma FindMissing(input: Input, names: StructNames, name: Ident)
    requires WellFormedFields(input.fields) && name in GetTemplates.FixedNames
    requires name !in LiveFixed[..5]
    requires name in LiveFixed ==> FieldCount(input.fields) == 0
    ensures FindMethod(GenerateImplBlock(input, names).items, name).None?
  {
    var lead, acc, len := Leading(input, names), GetTemplates.FieldAccessors(input), LenTemplates.LenIsEmpty(input);
    FixedPart(input, names);
    GetTemplates.AccessorItemsAvoidFixedNames(input);
    NamesListed(lead + len);
    FindAbsent(lead, acc, len, GetTemplates.FixedNames, name);
  }

  /** Method lookup in the block: the five leading methods are always found. */
  lemma DispatchLeading(input: Input, names: StructNames)
    requires WellFormedFields(input.fields)
    ensures var items := GenerateImplBlock(input, names).items;
            && FindMethod(items, "new") == Some(ConstructorTemplates.GenNew(input))
            && FindMethod(items, "with_capacity") == Some(ConstructorTemplates.GenWithCapacity(input))
            && FindMethod(items, "get") == Some(GetTemplates.GetImpl(input, names, false))
            && FindMethod(items, "get_mut") == Some(GetTemplates.GetImpl(input, names, true))
            && FindMethod(items, "push") == Some(InsertTemplates.PushAsWritten(input, names))
  {
    var ctor, get := ConstructorTemplates.Codegen(input), GetTemplates.Get(input, names);
    var lead := Leading(input, names);
    PairsThenOne(ctor, get, Fn(InsertTemplates.PushAsWritten(input, names)));
    assert lead == ctor + get + [Fn(InsertTemplates.PushAsWritten(input, names))];
    FindLeading(input, names, 0);
    FindLeading(input, names, 1);
    FindLeading(input, names, 2);
    FindLeading(input, names, 3);
    FindLeading(input, names, 4);
  }

  /** `len` and `is_empty` are found exactly when the record has a field. */
  lemma DispatchLen(input: Input, names: StructNames)
    requires WellFormedFields(input.fields)
    ensures var items := GenerateImplBlock(input, names).items;
            && (FieldCount(input.fields) > 0 ==>
                  && FindMethod(items, "len") == Some(LenTemplates.LenMethod(input))
                  && FindMethod(items, "is_empty") == Some(LenTemplates.IsEmptyMethod()))
            && (FieldCount(input.fields) == 0 ==> FindMethod(items, "len").None? && FindMethod(items, "is_empty").None?)
  {
    if FieldCount(input.fields) > 0 {
      FindLen(input, names, 0);
      FindLen(input, names, 1);
    } else {
      LenNamesReserved();
      FindMissing(input, names, "len");
      FindMissing(input, names, "is_empty");
    }
  }

  /** The insertion and removal methods are not defined. */
  lemma DispatchMissing(input: Input, names: StructNames)
    requires WellFormedFields(input.fields)
    ensures var items := GenerateImplBlock(input, names).items;
            forall name | name in ["insert", "remove", "swap_remove", "pop"] :: FindMethod(items, name).None?
  {
    MutatorNamesReserved();
    forall name | name in ["insert", "remove", "swap_remove", "pop"]
      ensures FindMethod(GenerateImplBlock(input, names).items, name).None?
    {
      FindMissing(input, names, name);
    }
  }

  /** With no plural clash, each accessor of named field `j` is found by its
      name and borrows column `j`. */
  lemma AccessorDispatch<V>(input: Input, names: StructNames, j: nat, mutable: bool, cols: seq<seq<V>>, row: seq<V>, index: nat)
    requires WellFormedFields(input.fields) && input.fields.Named? && j < |input.fields.named|
    requires GetTemplates.DistinctPlurals(input.fields.named)
    requires |cols| == FieldCount(input.fields) && |row| == FieldCount(input.fields)
    ensures var a := GetTemplates.Accessor(input.fields.named[j], mutable);
            Invoke(GenerateImplBlock(input, names), input.fields, a.name, cols, row, index) == Returned(ColumnSlice(cols[j]), cols)
  {
    var a := GetTemplates.Accessor(input.fields.named[j], mutable);
    var acc := GetTemplates.FieldAccessors(input);
    var i := if mutable then 2 * j + 1 else 2 * j;
    assert acc[i] == Fn(a);
    MethodNamesDistinct(input, names);
    FindInMiddle(Leading(input, names), acc, LenTemplates.LenIsEmpty(input), i);
    InvokeFound(GenerateImplBlock(input, names), input.fields, a.name, a, cols, row, index);
    GetTemplates.AccessorBorrowsColumn(input, j, mutable, cols, row, index);
  }

  /** Calling `new` or `with_capacity` builds one empty column per field;
      `push` appends field `j` of the row to column `j`. */
  lemma LiveConstructorsAndPush<V>(input: Input, names: StructNames, cols: seq<seq<V>>, row: seq<V>, index: nat)
    requires WellFormedFields(input.fields) && FieldCount(input.fields) > 0
    requires |cols| == FieldCount(input.fields) && |row| == FieldCount(input.fields)
    ensures var b, f := GenerateImplBlock(input, names), input.fields;
            && Invoke(b, f, "new", cols, row, index) == Returned(Record(ConstructorTemplates.EmptyColumns(|cols|)), cols)
            && Invoke(b, f, "with_capacity", cols, row, index) == Returned(Record(ConstructorTemplates.EmptyColumns(|cols|)), cols)
            && Invoke(b, f, "push", cols, row, index) ==
                 if InsertTemplates.HasFieldNamed(f, ValueParam) then Stuck else Returned(UnitValue, PushEach(cols, row))
  {
    DispatchLeading(input, names);
    ConstructorTemplates.NewBuildsEmptyColumns(input, cols, row, index);
    ConstructorTemplates.WithCapacityBuildsEmptyColumns(input, cols, row, index);
    InvokeFound(GenerateImplBlock(input, names), input.fields, "push", InsertTemplates.PushAsWritten(input, names), cols, row, index);
    InsertTemplates.PushAsWrittenShadows(input, names, cols, row, index);
    InsertTemplates.PushAppendsRow(input, names, cols, row, index);
  }

  /** On columns of common length `n`: `get` / `get_mut` read row `index`
      (and panic past the end), `len` is `n` and `is_empty` whether `n` is 0;
      none of them changes the columns. */
  lemma LiveReads<V>(input: Input, names: StructNames, n: nat, cols: seq<seq<V>>, row: seq<V>, index: nat)
    requires WellFormedFields(input.fields) && FieldCount(input.fields) > 0
    requires |cols| == FieldCount(input.fields) && |row| == FieldCount(input.fields)
    requires EqualLengths(cols, n)
    ensures var b, f := GenerateImplBlock(input, names), input.fields;
            && Invoke(b, f, "get", cols, row, index) == (if index < n then Returned(Record(Elems(RowAt(cols, index))), cols) else Panicked)
            && Invoke(b, f, "get_mut", cols, row, index) == Invoke(b, f, "get", cols, row, index)
            && Invoke(b, f, "len", cols, row, index) == Returned(Usize(n), cols)
            && Invoke(b, f, "is_empty", cols, row, index) == Returned(Boolean(n == 0), cols)
  {
    var b := GenerateImplBlock(input, names);
    DispatchLeading(input, names);
    DispatchLen(input, names);
    InvokeFound(b, input.fields, "get", GetTemplates.GetImpl(input, names, false), cols, row, index);
    InvokeFound(b, input.fields, "get_mut", GetTemplates.GetImpl(input, names, true), cols, row, index);
    InvokeFound(b, input.fields, "len", LenTemplates.LenMethod(input), cols, row, index);
    if index < n {
      GetTemplates.GetReadsRow(input, names, false, cols, row, index);
      GetTemplates.GetReadsRow(input, names, true, cols, row, index);
    } else {
      GetTemplates.GetOutOfBoundsPanics(input, names, false, cols, row, index);
      GetTemplates.GetOutOfBoundsPanics(input, names, true, cols, row, index);
    }
    LenTemplates.LenCountsRows(input, n, cols, row, index);
  }

  /** Calling `insert`, `remove`, `swap_remove` or `pop` on the emitted
      container does not type-check: the block does not define them. */
  lemma LiveLacksRemoval<V>(input: Input, names: StructNames, cols: seq<seq<V>>, row: seq<V>, index: nat)
    requires WellFormedFields(input.fields)
    requires |cols| == FieldCount(input.fields) && |row| == FieldCount(input.fields)
    ensures var b, f := GenerateImplBlock(input, names), input.fields;
            forall name | name in ["insert", "remove", "swap_remove", "pop"] :: Invoke(b, f, name, cols, row, index) == Stuck
  {
    DispatchMissing(input, names);
  }
}
