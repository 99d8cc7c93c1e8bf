/**
 * The complete impl block assembled from the per-operation templates:
 * constructors, element views and accessors, `push` / `insert`, `len` /
 * `is_empty`, and `remove` / `swap_remove` / `pop`. The crate's code
 * generator declares only the live block (MainImplBlock), so this block is
 * never emitted; it is modelled because its templates are part of the
 * source and state what the container was designed to offer.
 */
module FullImplBlock {
  import opened Syntax
  import opened Parse
  import opened Items
  import opened Names
  import opened VecOps
  import opened Semantics
  import ConstructorTemplates
  import GetTemplates
  import InsertTemplates
  import RemoveTemplates
  import LenTemplates
  import MainImplBlock

  /** The constructors followed by `get` and `get_mut`. */
  function Leading(input: Input, names: StructNames): (r: seq<ImplItem>)
    ensures |r| == 4 && AllFns(r)
    ensures MethodNames(r) == ["new", "with_capacity", "get", "get_mut"]
  {
    var ctor, get := ConstructorTemplates.Codegen(input), GetTemplates.Get(input, names);
    AllFnsAppend(ctor, get);
    ctor + get
  }

  /** `push`, `insert`, then `len` / `is_empty` when there is a field, then
      `remove`, `swap_remove` and `pop`. */
  function Trailing(input: Input, names: StructNames): (r: seq<ImplItem>)
    ensures AllFns(r)
    ensures MethodNames(r) == ["push", "insert"] + MethodNames(LenTemplates.LenIsEmpty(input)) + ["remove", "swap_remove", "pop"]
  {
    var ins, len, rem := InsertTemplates.Codegen(input, names), LenTemplates.LenIsEmpty(input), RemoveTemplates.Codegen(input, names);
    AllFnsAppend(ins, len);
    AllFnsAppend(ins + len, rem);
    ins + len + rem
  }

  /** `generate_impl_block` of the full template set: constructors, `get`
      (views and accessors), insertion, `len_is_empty`, removal. */
  function GenerateImplBlock(input: Input, names: StructNames): (b: ImplBlock)
    requires WellFormedFields(input.fields)
    ensures b.selfTy == names.vec
    ensures MethodNames(b.items) == ["new", "with_capacity", "get", "get_mut"]
              + MethodNames(GetTemplates.FieldAccessors(input))
              + (["push", "insert"] + MethodNames(LenTemplates.LenIsEmpty(input)) + ["remove", "swap_remove", "pop"])
  {
    var lead, acc, trail := Leading(input, names), GetTemplates.FieldAccessors(input), Trailing(input, names);
    MethodNamesAppend(lead, acc);
    MethodNamesAppend(lead + acc, trail);
    ImplBlock(names.vec, lead + acc + trail)
  }

  /** The block as written: no block at all (its `len_is_empty` panics) for
      a record whose first field is positional, and otherwise the block
      above. */
  function GenerateImplBlockAsWritten(input: Input, names: StructNames): (r: Option<ImplBlock>)
    requires WellFormedFields(input.fields)
    ensures r.None? <==> input.fields.Unnamed? && FieldCount(input.fields) > 0
    ensures r.Some? ==> r.value == GenerateImplBlock(input, names)
  {
    match LenTemplates.LenIsEmptyAsWritten(input)
    case None => None
    case Some(len) =>
      var ins, rem := InsertTemplates.Codegen(input, names), RemoveTemplates.Codegen(input, names);
      Some(ImplBlock(names.vec, Leading(input, names) + GetTemplates.FieldAccessors(input) + (ins + len + rem)))
  }

  /** The names of the full block's methods other than the accessors, for a
      record without fields. */
  const FixedWithoutLen: seq<Ident> := ["new", "with_capacity", "get", "get_mut", "push", "insert", "remove", "swap_remove", "pop"]

  lemma FixedWithoutLenNames()
    ensures NoRepeats(GetTemplates.FixedNames) && NoRepeats(FixedWithoutLen)
    ensures forall n :: n in FixedWithoutLen ==> n in GetTemplates.FixedNames
    ensures ["new", "with_capacity", "get", "get_mut"] + (["push", "insert"] + ["len", "is_empty"] + ["remove", "swap_remove", "pop"])
              == GetTemplates.FixedNames
    ensures ["new", "with_capacity", "get", "get_mut"] + (["push", "insert"] + [] + ["remove", "swap_remove", "pop"])
              == FixedWithoutLen
  {
  }

  /** `len` and `is_empty` are reserved, and absent without a field. */
  lemma LenNamesReserved()
    ensures "len" !in FixedWithoutLen && "is_empty" !in FixedWithoutLen
    ensures "len" in GetTemplates.FixedNames && "is_empty" in GetTemplates.FixedNames
  {
  }

  /** The methods whose names are fixed, with the accessors left out: their
      names are all of `FixedNames` in order, without `len` and `is_empty`
      when the record has no field. */
  lemma FixedPart(input: Input, names: StructNames)
    requires WellFormedFields(input.fields)
    ensures var fixed := Leading(input, names) + Trailing(input, names);
            && (forall k :: 0 <= k < |fixed| ==> fixed[k].Fn? && fixed[k].fn.name in GetTemplates.FixedNames)
            && DistinctMethodNames(fixed)
            && MethodNames(fixed) == if FieldCount(input.fields) > 0 then GetTemplates.FixedNames else FixedWithoutLen
  {
    var lead, trail := Leading(input, names), Trailing(input, names);
    AllFnsAppend(lead, trail);
    FixedWithoutLenNames();
    if FieldCount(input.fields) > 0 {
      assert MethodNames(lead + trail) == GetTemplates.FixedNames;
    } else {
      assert MethodNames(lead + trail) == FixedWithoutLen;
    }
    ListedNamesDistinct(lead + trail, GetTemplates.FixedNames);
  }

  /** As in the live block, every method is defined once exactly when no two
      fields pluralize alike. */
  lemma MethodNamesDistinct(input: Input, names: StructNames)
    requires WellFormedFields(input.fields)
    ensures DistinctMethodNames(GenerateImplBlock(input, names).items) <==>
              (input.fields.Named? ==> GetTemplates.DistinctPlurals(input.fields.named))
  {
    var lead, acc, trail := Leading(input, names), GetTemplates.FieldAccessors(input), Trailing(input, names);
    FixedPart(input, names);
    GetTemplates.AccessorItemsAvoidFixedNames(input);
    DistinctAround(lead, acc, trail, GetTemplates.FixedNames);
    if input.fields.Named? {
      GetTemplates.AccessorsDistinct(input);
    }
  }

  /** Fixed method `i` is found by its name, whatever accessors sit before
      the trailing ones. */
  lemma FindFixed(input: Input, names: StructNames, i: nat)
    requires WellFormedFields(input.fields)
    requires i < |Leading(input, names) + Trailing(input, names)|
    ensures var fixed := Leading(input, names) + Trailing(input, names);
            fixed[i].Fn? && FindMethod(GenerateImplBlock(input, names).items, fixed[i].fn.name) == Some(fixed[i].fn)
  {
    var lead, acc, trail := Leading(input, names), GetTemplates.FieldAccessors(input), Trailing(input, names);
    FixedPart(input, names);
    GetTemplates.AccessorItemsAvoidFixedNames(input);
    FindReserved(lead, acc, trail, GetTemplates.FixedNames, i);
  }

  lemma DispatchInsertion(input: Input, names: StructNames)
    requires WellFormedFields(input.fields)
    ensures var items := GenerateImplBlock(input, names).items;
            && FindMethod(items, "push") == Some(InsertTemplates.PushAsWritten(input, names))
            && FindMethod(items, "insert") == Some(InsertTemplates.InsertAsWritten(input, names))
  {
    var fixed := Leading(input, names) + Trailing(input, names);
    var ins := InsertTemplates.Codegen(input, names);
    assert fixed[4] == ins[0] && fixed[5] == ins[1];
    FindFixed(input, names, 4);
    FindFixed(input, names, 5);
  }

  /** Leading method `t` is found by its name. */
  lemma FindLeading(input: Input, names: StructNames, t: nat)
    requires WellFormedFields(input.fields) && t < 4
    ensures var lead := Leading(input, names);
            lead[t].Fn? && FindMethod(GenerateImplBlock(input, names).items, lead[t].fn.name) == Some(lead[t].fn)
  {
    FindFixed(input, names, t);
  }

  /** With a field, `len` (`t` = 0) and `is_empty` (`t` = 1) are found by their names. */
  lemma FindLen(input: Input, names: StructNames, t: nat)
    requires WellFormedFields(input.fields) && FieldCount(input.fields) > 0 && t < 2
    ensures var len := LenTemplates.LenIsEmpty(input);
            len[t].Fn? && FindMethod(GenerateImplBlock(input, names).items, len[t].fn.name) == Some(len[t].fn)
  {
    var lead, ins, len, rem := Leading(input, names), InsertTemplates.Codegen(input, names),
                              LenTemplates.LenIsEmpty(input), RemoveTemplates.Codegen(input, names);
    assert Trailing(input, names) == ins + len + rem;
    FixedPart(input, names);
    GetTemplates.AccessorItemsAvoidFixedNames(input);
    FindReservedPart(lead, GetTemplates.FieldAccessors(input), ins, len, rem, GetTemplates.FixedNames, t);
  }

  /** Removal method `t` is found by its name. */
  lemma FindRemoval(input: Input, names: StructNames, t: nat)
    requires WellFormedFields(input.fields) && t < 3
    ensures var rem := RemoveTemplates.Codegen(input, names);
            rem[t].Fn? && FindMethod(GenerateImplBlock(input, names).items, rem[t].fn.name) == Some(rem[t].fn)
  {
    var lead, ins, len, rem := Leading(input, names), InsertTemplates.Codegen(input, names),
                              LenTemplates.LenIsEmpty(input), RemoveTemplates.Codegen(input, names);
    assert Trailing(input, names) == ins + len + rem;
    FixedPart(input, names);
    GetTemplates.AccessorItemsAvoidFixedNames(input);
    FindReservedTail(lead, GetTemplates.FieldAccessors(input), ins, len, rem, GetTemplates.FixedNames, t);
  }

  lemma DispatchRemoval(input: Input, names: StructNames)
    requires WellFormedFields(input.fields)
    ensures var items := GenerateImplBlock(input, names).items;
            && FindMethod(items, "remove") == Some(RemoveTemplates.RemoveImpl(input, names, VecRemove))
            && FindMethod(items, "swap_remove") == Some(RemoveTemplates.RemoveImpl(input, names, VecSwapRemove))
            && FindMethod(items, "pop") == Some(RemoveTemplates.Pop(input, names))
  {
    FindRemoval(input, names, 0);
    FindRemoval(input, names, 1);
    FindRemoval(input, names, 2);
  }

  /** Lookup of the insertion and removal methods. */
  lemma DispatchMutators(input: Input, names: StructNames)
    requires WellFormedFields(input.fields)
    ensures var items := GenerateImplBlock(input, names).items;
            && FindMethod(items, "push") == Some(InsertTemplates.PushAsWritten(input, names))
            && FindMethod(items, "insert") == Some(InsertTemplates.InsertAsWritten(input, names))
            && FindMethod(items, "remove") == Some(RemoveTemplates.RemoveImpl(input, names, VecRemove))
            && FindMethod(items, "swap_remove") == Some(RemoveTemplates.RemoveImpl(input, names, VecSwapRemove))
            && FindMethod(items, "pop") == Some(RemoveTemplates.Pop(input, names))
  {
    DispatchInsertion(input, names);
    DispatchRemoval(input, names);
  }

  /** Without a field there is neither `len` nor `is_empty`. */
  lemma LenMissing(input: Input, names: StructNames, name: Ident)
    requires WellFormedFields(input.fields) && FieldCount(input.fields) == 0
    requires name == "len" || name == "is_empty"
    ensures FindMethod(GenerateImplBlock(input, names).items, name).None?
  {
    var lead, acc, trail := Leading(input, names), GetTemplates.FieldAccessors(input), Trailing(input, names);
    FixedPart(input, names);
    GetTemplates.AccessorItemsAvoidFixedNames(input);
    LenNamesReserved();
    NamesListed(lead + trail);
    FindAbsent(lead, acc, trail, GetTemplates.FixedNames, name);
  }

  /** `len` and `is_empty` are defined exactly when the record has a
      field. */
  lemma DispatchLen(input: Input, names: StructNames)
    requires WellFormedFields(input.fields)
    ensures var items := GenerateImplBlock(input, names).items;
            && (FieldCount(input.fields) > 0 ==>
                  && FindMethod(items, "len") == Some(LenTemplates.LenMethod(input))
                  && FindMethod(items, "is_empty") == Some(LenTemplates.IsEmptyMethod()))
            && (FieldCount(input.fields) == 0 ==> FindMethod(items, "len").None? && FindMethod(items, "is_empty").None?)
  {
    if FieldCount(input.fields) > 0 {
      FindLen(input, names, 0);
      FindLen(input, names, 1);
    } else {
      LenMissing(input, names, "len");
      LenMissing(input, names, "is_empty");
    }
  }

  /** The five leading methods of the live block are the full block's. */
  lemma DispatchLeading(input: Input, names: StructNames)
    requires WellFormedFields(input.fields)
    ensures var items := GenerateImplBlock(input, names).items;
            && FindMethod(items, "new") == Some(ConstructorTemplates.GenNew(input))
            && FindMethod(items, "with_capacity") == Some(ConstructorTemplates.GenWithCapacity(input))
            && FindMethod(items, "get") == Some(GetTemplates.GetImpl(input, names, false))
            && FindMethod(items, "get_mut") == Some(GetTemplates.GetImpl(input, names, true))
  {
    var ctor, get := ConstructorTemplates.Codegen(input), GetTemplates.Get(input, names);
    var lead := Leading(input, names);
    assert lead == ctor + get;
    assert lead[0] == ctor[0] && lead[1] == ctor[1] && lead[2] == get[0] && lead[3] == get[1];
    FindLeading(input, names, 0);
    FindLeading(input, names, 1);
    FindLeading(input, names, 2);
    FindLeading(input, names, 3);
  }

  /** Every method the live block defines is defined identically here. */
  lemma AgreesWithLiveBlock(input: Input, names: StructNames)
    requires WellFormedFields(input.fields)
    ensures var full, live := GenerateImplBlock(input, names).items, MainImplBlock.GenerateImplBlock(input, names).items;
            && FindMethod(full, "new") == FindMethod(live, "new")
            && FindMethod(full, "with_capacity") == FindMethod(live, "with_capacity")
            && FindMethod(full, "get") == FindMethod(live, "get")
            && FindMethod(full, "get_mut") == FindMethod(live, "get_mut")
            && FindMethod(full, "push") == FindMethod(live, "push")
            && FindMethod(full, "len") == FindMethod(live, "len")
            && FindMethod(full, "is_empty") == FindMethod(live, "is_empty")
  {
    MainImplBlock.DispatchLeading(input, names);
    MainImplBlock.DispatchLen(input, names);
    DispatchLeading(input, names);
    DispatchMutators(input, names);
    DispatchLen(input, names);
  }

  /** On columns of common length `n`: `insert` at `index <= n` shifts the
      row in, `remove` / `swap_remove` at `index < n` take row `index` out,
      and each panics past those bounds. */
  lemma InsertAndRemove<V>(input: Input, names: StructNames, n: nat, cols: seq<seq<V>>, row: seq<V>, index: nat)
    requires WellFormedFields(input.fields) && FieldCount(input.fields) > 0
    requires |cols| == FieldCount(input.fields) && |row| == FieldCount(input.fields)
    requires EqualLengths(cols, n)
    ensures var b, f := GenerateImplBlock(input, names), input.fields;
            && Invoke(b, f, "insert", cols, row, index) ==
                 (if InsertTemplates.HasFieldNamed(f, ValueParam) || InsertTemplates.HasFieldNamed(f, IndexParam) then Stuck
                  else if index <= n then Returned(UnitValue, InsertEach(cols, index, row))
                  else Panicked)
            && Invoke(b, f, "remove", cols, row, index) ==
                 (if index < n then Returned(Record(Elems(RowAt(cols, index))), RemoveEach(cols, index)) else Panicked)
            && Invoke(b, f, "swap_remove", cols, row, index) ==
                 (if index < n then Returned(Record(Elems(RowAt(cols, index))), SwapRemoveEach(cols, index)) else Panicked)
  {
    var b := GenerateImplBlock(input, names);
    DispatchMutators(input, names);
    InvokeFound(b, input.fields, "insert", InsertTemplates.InsertAsWritten(input, names), cols, row, index);
    InsertTemplates.InsertAsWrittenShadows(input, names, cols, row, index);
    InvokeFound(b, input.fields, "remove", RemoveTemplates.RemoveImpl(input, names, VecRemove), cols, row, index);
    InvokeFound(b, input.fields, "swap_remove", RemoveTemplates.RemoveImpl(input, names, VecSwapRemove), cols, row, index);
    if index <= n {
      InsertTemplates.InsertShiftsRow(input, names, cols, row, index);
    } else {
      InsertTemplates.InsertPastEndPanics(input, names, cols, row, index);
    }
    if index < n {
      RemoveTemplates.RemoveTakesRow(input, names, VecRemove, cols, row, index);
      RemoveTemplates.RemoveTakesRow(input, names, VecSwapRemove, cols, row, index);
    } else {
      RemoveTemplates.RemoveOutOfBoundsPanics(input, names, VecRemove, cols, row, index);
      RemoveTemplates.RemoveOutOfBoundsPanics(input, names, VecSwapRemove, cols, row, index);
    }
  }

  /** On columns of common length `n`, `pop` returns `None` and changes
      nothing when `n` is 0, and otherwise `Some` of the last row with every
      column shortened. */
  lemma PopLastRow<V>(input: Input, names: StructNames, n: nat, cols: seq<seq<V>>, row: seq<V>, index: nat)
    requires WellFormedFields(input.fields) && FieldCount(input.fields) > 0
    requires |cols| == FieldCount(input.fields) && |row| == FieldCount(input.fields)
    requires EqualLengths(cols, n)
    ensures Invoke(GenerateImplBlock(input, names), input.fields, "pop", cols, row, index) ==
              if n == 0 then Returned(NoneValue, cols) else Returned(SomeRecord(Elems(LastEach(cols))), PopEach(cols))
  {
    DispatchMutators(input, names);
    InvokeFound(GenerateImplBlock(input, names), input.fields, "pop", RemoveTemplates.Pop(input, names), cols, row, index);
    if n == 0 {
      RemoveTemplates.PopStopsAtEmptyColumn(input, names, 0, cols, row, index);
    } else {
      RemoveTemplates.PopTakesLast(input, names, cols, row, index);
    }
  }
}
