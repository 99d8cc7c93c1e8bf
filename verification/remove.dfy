/**
 * `remove`, `swap_remove` and `pop`: a struct literal of the record whose
 * initialiser `j` takes one element out of column `j`.
 */
module RemoveTemplates {
  import opened Syntax
  import opened Parse
  import opened Items
  import opened Names
  import opened VecOps
  import opened Semantics

  /** `remove_impl`: `pub fn <remove_fn>(&mut self, index: usize) -> <Name>`
      building the record from `self.<col>.<remove_fn>(index)`; unlike the
      other templates it carries no `#[inline]`. */
  function RemoveImpl(input: Input, names: StructNames, fn: RemoveFn): (m: Method)
    ensures !m.inline && m.vis == Public && m.name == (if fn.VecRemove? then "remove" else "swap_remove")
    ensures m.receiver == MutSelf && m.params == [Param(IndexParam, UsizeTy)] && m.ret == Some(Path(names.original))
    ensures m.body.Construct? && m.body.path == names.original && !m.body.wrapSome
    ensures InitsPerField(input.fields, m.body.inits, (p: Place) => RemoveAt(p, fn))
  {
    Method(false, Public, if fn.VecRemove? then "remove" else "swap_remove", MutSelf, [Param(IndexParam, UsizeTy)],
      Some(Path(names.original)),
      Construct(names.original, false, input.MapFieldsWithDelimiters(
        (f: NamedField) => FieldInit(Some(f.name), RemoveAt(FieldName(f.name), fn)),
        (f: UnnamedField, i: nat) => FieldInit(None, RemoveAt(FieldIndex(i), fn)))))
  }

  /** `pop`: `#[inline] pub fn pop(&mut self) -> Option<<Name>>` returning
      `Some(<Name> <inits>)` where initialiser `j` is `self.<col>.pop()?`. */
  function Pop(input: Input, names: StructNames): (m: Method)
    ensures m.inline && m.vis == Public && m.name == "pop"
    ensures m.receiver == MutSelf && m.params == [] && m.ret == Some(OptionOf(Path(names.original)))
    ensures m.body.Construct? && m.body.path == names.original && m.body.wrapSome
    ensures InitsPerField(input.fields, m.body.inits, (p: Place) => PopOrReturn(p))
  {
    Method(true, Public, "pop", MutSelf, [], Some(OptionOf(Path(names.original))),
      Construct(names.original, true, input.MapFieldsWithDelimiters(
        (f: NamedField) => FieldInit(Some(f.name), PopOrReturn(FieldName(f.name))),
        (f: UnnamedField, i: nat) => FieldInit(None, PopOrReturn(FieldIndex(i))))))
  }

  /** `codegen`: `remove`, `swap_remove`, then `pop`. */
  function Codegen(input: Input, names: StructNames): (r: seq<ImplItem>)
    ensures AllFns(r) && MethodNames(r) == ["remove", "swap_remove", "pop"]
  {
    var r := [Fn(RemoveImpl(input, names, VecRemove)), Fn(RemoveImpl(input, names, VecSwapRemove)), Fn(Pop(input, names))];
    assert r[1..][1..][1..] == [];
    assert MethodNames(r[1..][1..]) == ["pop"];
    assert MethodNames(r[1..]) == ["swap_remove", "pop"];
    r
  }

  /** The vector operation a removal template calls. */
  function RemoveBy<V>(fn: RemoveFn, s: seq<V>, i: nat): (r: seq<V>)
    requires i < |s|
  {
    if fn.VecRemove? then Remove(s, i) else SwapRemove(s, i)
  }

  /** The columns after the first `k` removals. */
  function Removed<V>(cols: seq<seq<V>>, index: nat, fn: RemoveFn, k: nat): (r: seq<seq<V>>)
    requires forall j :: 0 <= j < |cols| ==> index < |cols[j]|
  {
    seq(|cols|, j requires 0 <= j < |cols| => if j < k then RemoveBy(fn, cols[j], index) else cols[j])
  }

  /** Removal `k` changes column `k` alone, which no earlier removal touched. */
  lemma RemovedNext<V>(cols: seq<seq<V>>, index: nat, fn: RemoveFn, k: nat)
    requires (forall j :: 0 <= j < |cols| ==> index < |cols[j]|) && k < |cols|
    ensures Removed(cols, index, fn, k)[k] == cols[k]
    ensures Removed(cols, index, fn, k)[k := RemoveBy(fn, cols[k], index)] == Removed(cols, index, fn, k + 1)
  {
  }

  /** Initialiser `j` removes element `index` from column `j`, which has it. */
  predicate RemovesEveryColumn<V>(f: Fields, inits: seq<FieldInit>, cols: seq<seq<V>>, index: nat, fn: RemoveFn)
  {
    && WellFormedFields(f) && |cols| == FieldCount(f) && |inits| == FieldCount(f)
    && (forall j :: 0 <= j < |inits| ==> inits[j].expr == RemoveAt(ColumnPlace(f, j), fn))
    && (forall j :: 0 <= j < |cols| ==> index < |cols[j]|)
  }

  /** The initialiser of field `j` takes element `index` out of column `j`. */
  lemma RemoveStep<V>(f: Fields, j: nat, c: seq<seq<V>>, index: nat, fn: RemoveFn)
    requires WellFormedFields(f) && |c| == FieldCount(f) && j < |c| && index < |c[j]|
    ensures EvalExpr(f, RemoveAt(ColumnPlace(f, j), fn), c, index, false) ==
              Values([ElemVal(c[j][index])], c[j := RemoveBy(fn, c[j], index)])
  {
    ResolveColumnPlace(f, j);
  }

  /** The initialisers remove element `index` from every column in turn,
      yielding the record at `index`. */
  lemma EvalRemoves<V>(f: Fields, inits: seq<FieldInit>, cols: seq<seq<V>>, index: nat, fn: RemoveFn)
    requires RemovesEveryColumn(f, inits, cols, index, fn)
    ensures EvalAll(f, inits, cols, index, false) == Values(Elems(RowAt(cols, index)), Removed(cols, index, fn, |cols|))
  {
    var n := |inits|;
    var states := seq(n + 1, k requires 0 <= k <= n => Removed(cols, index, fn, k));
    var e := Elems(RowAt(cols, index));
    forall k | 0 <= k < n
      ensures EvalExpr(f, inits[k].expr, states[k], index, false) == Values([e[k]], states[k + 1])
    {
      RemovedNext(cols, index, fn, k);
      RemoveStep(f, k, states[k], index, fn);
    }
    assert states[0] == cols;
    EvalChain(f, inits, states, e, index, false);
  }

  /** `remove(index)` / `swap_remove(index)` with `index` inside every column:
      the result is the record whose field `j` was element `index` of column
      `j`, and every column loses that element through the same vector
      operation. */
  lemma RemoveTakesRow<V>(input: Input, names: StructNames, fn: RemoveFn, cols: seq<seq<V>>, row: seq<V>, index: nat)
    requires WellFormedFields(input.fields) && !input.fields.Unit?
    requires |cols| == FieldCount(input.fields) && |row| == FieldCount(input.fields)
    requires forall j :: 0 <= j < |cols| ==> index < |cols[j]|
    ensures RunBody(input.fields, RemoveImpl(input, names, fn).body, None, cols, row, index) ==
              Returned(Record(Elems(RowAt(cols, index))),
                       if fn.VecRemove? then RemoveEach(cols, index) else SwapRemoveEach(cols, index))
  {
    var body := RemoveImpl(input, names, fn).body;
    var items := DelimitedItems(body.inits);
    EvalRemoves(input.fields, items, cols, index, fn);
    assert Removed(cols, index, fn, |cols|) == if fn.VecRemove? then RemoveEach(cols, index) else SwapRemoveEach(cols, index);
    AssembleInOrder(input.fields, body.inits, Elems(RowAt(cols, index)));
  }

  /** An index past the end of the first column panics before anything is
      removed. */
  lemma RemoveOutOfBoundsPanics<V>(input: Input, names: StructNames, fn: RemoveFn, cols: seq<seq<V>>, row: seq<V>, index: nat)
    requires WellFormedFields(input.fields) && FieldCount(input.fields) > 0
    requires |cols| == FieldCount(input.fields) && |row| == FieldCount(input.fields)
    requires index >= |cols[0]|
    ensures RunBody(input.fields, RemoveImpl(input, names, fn).body, None, cols, row, index) == Panicked
  {
    ResolveColumnPlace(input.fields, 0);
  }

  /** The columns after the first `k` pops. */
  function Popped<V>(cols: seq<seq<V>>, k: nat): (r: seq<seq<V>>)
    requires forall j :: 0 <= j < |cols| && j < k ==> |cols[j]| > 0
  {
    seq(|cols|, j requires 0 <= j < |cols| => if j < k then cols[j][..|cols[j]| - 1] else cols[j])
  }

  /** Popping column `k` changes column `k` alone, which no earlier pop touched. */
  lemma PoppedNext<V>(cols: seq<seq<V>>, k: nat)
    requires (forall j :: 0 <= j < |cols| && j <= k ==> |cols[j]| > 0) && k < |cols|
    ensures Popped(cols, k)[k] == cols[k]
    ensures Popped(cols, k)[k := cols[k][..|cols[k]| - 1]] == Popped(cols, k + 1)
  {
  }

  /** The initialiser of field `j` pops column `j`, which is not empty. */
  lemma PopStep<V>(f: Fields, j: nat, c: seq<seq<V>>, index: nat)
    requires WellFormedFields(f) && |c| == FieldCount(f) && j < |c|
    ensures EvalExpr(f, PopOrReturn(ColumnPlace(f, j)), c, index, true) ==
              if |c[j]| == 0 then Escaped(Returned(NoneValue, c))
              else Values([ElemVal(c[j][|c[j]| - 1])], c[j := c[j][..|c[j]| - 1]])
  {
    ResolveColumnPlace(f, j);
  }

  /** Initialiser `j` is `<column j>.pop()?`. */
  predicate PopsEveryColumn(f: Fields, inits: seq<FieldInit>)
  {
    && WellFormedFields(f) && |inits| == FieldCount(f)
    && (forall j :: 0 <= j < |inits| ==> inits[j].expr == PopOrReturn(ColumnPlace(f, j)))
  }

  /** The states before each of the first `n` pops. */
  lemma PopChain<V>(f: Fields, inits: seq<FieldInit>, cols: seq<seq<V>>, n: nat, index: nat) returns (states: seq<seq<seq<V>>>)
    requires PopsEveryColumn(f, inits) && |cols| == FieldCount(f) && n <= |inits|
    requires forall j :: 0 <= j < |cols| && j < n ==> |cols[j]| > 0
    ensures |states| == n + 1 && states[0] == cols && states[n] == Popped(cols, n)
    ensures ChainedUpTo(f, inits, states, Elems(LastEach(cols[..n])), n, index, true)
  {
    states := seq(n + 1, k requires 0 <= k <= n => Popped(cols, k));
    var e := Elems(LastEach(cols[..n]));
    forall k | 0 <= k < n
      ensures EvalExpr(f, inits[k].expr, states[k], index, true) == Values([e[k]], states[k + 1])
    {
      PoppedNext(cols, k);
      PopStep(f, k, states[k], index);
    }
    assert states[0] == cols;
  }

  /** `pop` with every column non-empty returns `Some` of the record made of
      each column's last element and shortens every column by one. */
  lemma PopTakesLast<V>(input: Input, names: StructNames, cols: seq<seq<V>>, row: seq<V>, index: nat)
    requires WellFormedFields(input.fields) && !input.fields.Unit?
    requires |cols| == FieldCount(input.fields) && |row| == FieldCount(input.fields)
    requires forall j :: 0 <= j < |cols| ==> |cols[j]| > 0
    ensures RunBody(input.fields, Pop(input, names).body, None, cols, row, index) ==
              Returned(SomeRecord(Elems(LastEach(cols))), PopEach(cols))
  {
    var body := Pop(input, names).body;
    var items := DelimitedItems(body.inits);
    var states := PopChain(input.fields, items, cols, |items|, index);
    assert cols[..|items|] == cols && Popped(cols, |cols|) == PopEach(cols);
    EvalChain(input.fields, items, states, Elems(LastEach(cols)), index, true);
    AssembleInOrder(input.fields, body.inits, Elems(LastEach(cols)));
  }

  /** `pop` reaching an empty column `m` returns `None`; the columns before
      `m` have already lost their last element. With columns of equal length
      `m` is 0 and nothing changes. */
  lemma PopStopsAtEmptyColumn<V>(input: Input, names: StructNames, m: nat, cols: seq<seq<V>>, row: seq<V>, index: nat)
    requires WellFormedFields(input.fields) && m < FieldCount(input.fields)
    requires |cols| == FieldCount(input.fields) && |row| == FieldCount(input.fields)
    requires forall j :: 0 <= j < m ==> |cols[j]| > 0
    requires |cols[m]| == 0
    ensures RunBody(input.fields, Pop(input, names).body, None, cols, row, index) == Returned(NoneValue, Popped(cols, m))
    ensures m == 0 ==> Popped(cols, m) == cols
  {
    var body := Pop(input, names).body;
    var items := DelimitedItems(body.inits);
    var states := PopChain(input.fields, items, cols, m, index);
    PopStep(input.fields, m, states[m], index);
    EvalChainEscapes(input.fields, items, states, Elems(LastEach(cols[..m])), m, Returned(NoneValue, Popped(cols, m)), index, true);
    assert Popped(cols, 0) == cols;
  }
}
