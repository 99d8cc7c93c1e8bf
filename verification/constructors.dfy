/**
 * `new` and `with_capacity`: a struct literal of the container with one
 * fresh, empty column per field.
 */
module ConstructorTemplates {
  import opened Syntax
  import opened Parse
  import opened Items
  import opened Semantics

  /** `gen_new`: `#[inline] pub fn new() -> Self { Self <inits> }`. */
  function GenNew(input: Input): (m: Method)
    ensures m.inline && m.vis == Public && m.name == "new"
    ensures m.receiver == NoReceiver && m.params == [] && m.ret == Some(SelfTy)
    ensures m.body.Construct? && m.body.path == "Self" && !m.body.wrapSome
    ensures InitsPerField(input.fields, m.body.inits, (p: Place) => NewColumn)
  {
    Method(true, Public, "new", NoReceiver, [], Some(SelfTy),
      Construct("Self", false, input.MapFieldsWithDelimiters(
        (f: NamedField) => FieldInit(Some(f.name), NewColumn),
        (f: UnnamedField, _: nat) => FieldInit(None, NewColumn))))
  }

  /** `gen_with_capacity`: the same literal with every column created by
      `Vec::with_capacity(capacity)`. */
  function GenWithCapacity(input: Input): (m: Method)
    ensures m.inline && m.vis == Public && m.name == "with_capacity"
    ensures m.receiver == NoReceiver && m.params == [Param("capacity", PrimitiveUsizeTy)] && m.ret == Some(SelfTy)
    ensures m.body.Construct? && m.body.path == "Self" && !m.body.wrapSome
    ensures InitsPerField(input.fields, m.body.inits, (p: Place) => ColumnWithCapacity("capacity"))
  {
    Method(true, Public, "with_capacity", NoReceiver, [Param("capacity", PrimitiveUsizeTy)], Some(SelfTy),
      Construct("Self", false, input.MapFieldsWithDelimiters(
        (f: NamedField) => FieldInit(Some(f.name), ColumnWithCapacity("capacity")),
        (f: UnnamedField, _: nat) => FieldInit(None, ColumnWithCapacity("capacity")))))
  }

  /** `codegen`: `new`, then `with_capacity`. */
  function Codegen(input: Input): (r: seq<ImplItem>)
    ensures AllFns(r) && MethodNames(r) == ["new", "with_capacity"]
  {
    var r := [Fn(GenNew(input)), Fn(GenWithCapacity(input))];
    assert r[1..][1..] == [];
    assert MethodNames(r[1..]) == ["with_capacity"];
    r
  }

  predicate IsFresh(e: ColumnExpr)
  {
    e.NewColumn? || e.ColumnWithCapacity?
  }

  /** `w` empty columns. */
  function EmptyColumns<V>(w: nat): (r: seq<Val<V>>)
    ensures |r| == w && forall j :: 0 <= j < w ==> r[j] == ColumnVal([])
  {
    seq(w, _ => ColumnVal([]))
  }

  /** Initialisers that each create a column yield one empty column apiece and
      leave the columns of `self` alone. */
  lemma {:induction false} EvalFresh<V>(f: Fields, inits: seq<FieldInit>, cols: seq<seq<V>>, index: nat)
    requires |cols| == FieldCount(f)
    requires forall i :: 0 <= i < |inits| ==> IsFresh(inits[i].expr)
    ensures EvalAll(f, inits, cols, index, false) == Values(EmptyColumns(|inits|), cols)
    decreases |inits|
  {
    if inits != [] {
      EvalFresh(f, inits[1..], cols, index);
      assert [ColumnVal([])] + EmptyColumns(|inits| - 1) == EmptyColumns<V>(|inits|);
    }
  }

  /** Whatever the state and arguments, `new` builds a container with one empty
      column per field. For the unit shape the literal is `Self;`, which is
      not a value of the container type. */
  lemma NewBuildsEmptyColumns<V>(input: Input, cols: seq<seq<V>>, row: seq<V>, index: nat)
    requires WellFormedFields(input.fields)
    requires |cols| == FieldCount(input.fields) && |row| == FieldCount(input.fields)
    ensures RunBody(input.fields, GenNew(input).body, None, cols, row, index) ==
              if input.fields.Unit? then Stuck else Returned(Record(EmptyColumns(FieldCount(input.fields))), cols)
  {
    var body := GenNew(input).body;
    EvalFresh(input.fields, DelimitedItems(body.inits), cols, index);
    if !input.fields.Unit? {
      AssembleInOrder(input.fields, body.inits, EmptyColumns<V>(FieldCount(input.fields)));
    }
  }

  /** `with_capacity` builds the same container as `new`: the capacity is only
      a hint about future pushes. */
  lemma WithCapacityBuildsEmptyColumns<V>(input: Input, cols: seq<seq<V>>, row: seq<V>, index: nat)
    requires WellFormedFields(input.fields)
    requires |cols| == FieldCount(input.fields) && |row| == FieldCount(input.fields)
    ensures RunBody(input.fields, GenWithCapacity(input).body, None, cols, row, index) ==
              RunBody(input.fields, GenNew(input).body, None, cols, row, index)
  {
    var body := GenWithCapacity(input).body;
    EvalFresh(input.fields, DelimitedItems(body.inits), cols, index);
    NewBuildsEmptyColumns(input, cols, row, index);
    if !input.fields.Unit? {
      AssembleInOrder(input.fields, body.inits, EmptyColumns<V>(FieldCount(input.fields)));
    }
  }
}
