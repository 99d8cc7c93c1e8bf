/**
 * `get` / `get_mut`, which borrow one element of every column as a view, and
 * the per-field accessors, which borrow a whole column.
 */
module GetTemplates {
  import opened Syntax
  import opened Parse
  import opened Items
  import opened Names
  import opened Util
  import opened VecOps
  import opened Semantics

  /** `get_impl`: `#[inline] pub fn get(&self, index) -> <Name>Ref` (or
      `get_mut(&mut self, index) -> <Name>RefMut`) building the view from
      `&self.<col>[index]` (or `&mut ...`) for every field. */
  function GetImpl(input: Input, names: StructNames, mutable: bool): (m: Method)
    ensures m.inline && m.vis == Public
    ensures m.name == (if mutable then "get_mut" else "get")
    ensures m.receiver == (if mutable then MutSelf else SharedSelf)
    ensures m.params == [Param("index", PrimitiveUsizeTy)]
    ensures m.ret == Some(Path(if mutable then names.mutRef else names.sharedRef))
    ensures m.body.Construct? && !m.body.wrapSome
    ensures m.body.path == (if mutable then names.mutRef else names.sharedRef)
    ensures InitsPerField(input.fields, m.body.inits, (p: Place) => ElementRef(p, mutable))
  {
    var view := if mutable then names.mutRef else names.sharedRef;
    Method(true, Public, if mutable then "get_mut" else "get", if mutable then MutSelf else SharedSelf,
      [Param("index", PrimitiveUsizeTy)], Some(Path(view)),
      Construct(view, false, input.MapFieldsWithDelimiters(
        (f: NamedField) => FieldInit(Some(f.name), ElementRef(FieldName(f.name), mutable)),
        (f: UnnamedField, i: nat) => FieldInit(None, ElementRef(FieldIndex(i), mutable)))))
  }

  /** `get`: the shared reader, then the mutable one. */
  function Get(input: Input, names: StructNames): (r: seq<ImplItem>)
    ensures AllFns(r) && MethodNames(r) == ["get", "get_mut"]
    ensures forall k :: 0 <= k < 2 ==> r[k].Fn? && r[k].fn.body.Construct? && r[k].fn.body.path == (if k == 1 then names.mutRef else names.sharedRef)
  {
    var r := [Fn(GetImpl(input, names, false)), Fn(GetImpl(input, names, true))];
    assert r[1..][1..] == [];
    assert MethodNames(r[1..]) == ["get_mut"];
    r
  }

  /** `map_vis`: the accessors live in the hidden module, so a private field's
      accessors become `pub(super)`, visible where the record is declared;
      any other visibility is kept. An accessor is therefore never
      private to the hidden module. */
  function MapVis(v: Vis): (r: Vis)
    ensures !r.Inherited?
    ensures v.Inherited? <==> r == Restricted("super") && v != r
    ensures !v.Inherited? ==> r == v
  {
    match v
    case Inherited => Restricted("super")
    case _ => v
  }

  /** The accessor pair of one named field: `<plural>(&self) -> &[T]` and
      `<plural>_mut(&mut self) -> &mut [T]`, neither inlined. */
  function Accessor(f: NamedField, mutable: bool): (m: Method)
    requires |f.name| > 0
    ensures m.name == if mutable then Pluralize(f.name) + "_mut" else Pluralize(f.name)
    ensures m.vis == MapVis(f.vis) && !m.inline && m.params == []
    ensures m.receiver == (if mutable then MutSelf else SharedSelf)
    ensures m.ret == Some(Reference(None, mutable, Slice(f.ty)))
    ensures m.body == BorrowColumn(f.name, mutable)
  {
    Method(false, MapVis(f.vis), if mutable then Pluralize(f.name) + "_mut" else Pluralize(f.name),
      if mutable then MutSelf else SharedSelf, [], Some(Reference(None, mutable, Slice(f.ty))),
      BorrowColumn(f.name, mutable))
  }

  /** `field_accessors`: two accessors per named field, in field order;
      positional fields get none, and the unit shape leaves a stray `;`.
      Identifiers are never empty, so the guard below always holds. */
  function FieldAccessors(input: Input): (r: seq<ImplItem>)
    requires WellFormedFields(input.fields)
    ensures input.fields.Unit? ==> r == [StraySemi]
    ensures input.fields.Unnamed? ==> r == []
    ensures input.fields.Named? ==>
              var fs := input.fields.named;
              && |r| == 2 * |fs|
              && forall j :: 0 <= j < |fs| ==> r[2 * j] == Fn(Accessor(fs[j], false)) && r[2 * j + 1] == Fn(Accessor(fs[j], true))
  {
    var named := (f: NamedField) => if |f.name| > 0 then [Fn(Accessor(f, false)), Fn(Accessor(f, true))] else [];
    var unnamed := (f: UnnamedField, _: nat) => [];
    match input.MapFields(named, unnamed)
    case BareSemi => [StraySemi]
    case Concat(items) =>
      if input.fields.Named? then
        var fs := input.fields.named;
        FlattenPairs(seq(|fs|, i requires 0 <= i < |fs| => named(fs[i])));
        items
      else
        var fs := input.fields.unnamed;
        FlattenEmpty(seq(|fs|, i requires 0 <= i < |fs| => unnamed(fs[i], i)));
        items
  }

  /** The methods every block defines besides the accessors. */
  const FixedNames: seq<Ident> := ["new", "with_capacity", "get", "get_mut", "push", "insert", "len", "is_empty", "remove", "swap_remove", "pop"]

  lemma FixedNamesDistinct()
    ensures forall i, k :: 0 <= i < k < |FixedNames| ==> FixedNames[i] != FixedNames[k]
  {
  }

  /** No accessor can take the name of another method: a plural ends in `s`,
      and `get_mut` would need the plural `get`. */
  lemma AccessorsAvoidFixedNames(f: NamedField, mutable: bool)
    requires |f.name| > 0
    ensures Accessor(f, mutable).name !in FixedNames
  {
    var p := Pluralize(f.name);
    assert p[|p| - 1] == 's' && EndsAsAccessor(p);
    FixedNamesEndings();
    if mutable {
      var n := p + "_mut";
      assert n[|n| - 1] == 't' && n[|n| - 5] == 's';
      assert EndsAsAccessor(n);
    }
  }

  /** Ends as a plural does (`s`), or as a plural followed by `_mut`. */
  predicate EndsAsAccessor(x: Ident)
  {
    || (|x| > 0 && x[|x| - 1] == 's')
    || (|x| >= 5 && x[|x| - 1] == 't' && x[|x| - 5] == 's')
  }

  /** No fixed name ends as an accessor does. */
  lemma FixedNamesEndings()
    ensures forall x :: x in FixedNames ==> !EndsAsAccessor(x)
  {
    assert !EndsAsAccessor("new");
    assert !EndsAsAccessor("with_capacity");
    assert !EndsAsAccessor("get");
    assert !EndsAsAccessor("get_mut");
    assert !EndsAsAccessor("push");
    assert !EndsAsAccessor("insert");
    assert !EndsAsAccessor("len");
    assert !EndsAsAccessor("is_empty");
    assert !EndsAsAccessor("remove");
    assert !EndsAsAccessor("swap_remove");
    assert !EndsAsAccessor("pop");
  }

  /** The accessors of two different fields clash exactly when their names
      pluralize alike, i.e. one is the other plus `e` after a trailing `s`;
      the two accessors of one field never clash. */
  lemma AccessorClash(a: NamedField, b: NamedField, ma: bool, mb: bool)
    requires |a.name| > 0 && |b.name| > 0 && a.name != b.name
    ensures Accessor(a, false).name != Accessor(a, true).name
    ensures Accessor(a, ma).name == Accessor(b, mb).name <==>
              ma == mb &&
              ((a.name[|a.name| - 1] == 's' && b.name == a.name + "e") || (b.name[|b.name| - 1] == 's' && a.name == b.name + "e"))
  {
    var pa, pb := Pluralize(a.name), Pluralize(b.name);
    PluralizeCollision(a.name, b.name);
    MutSuffix(pa, pb);
    MutSuffix(pb, pa);
    MutSuffix(pa, pa);
  }

  /** Appending `_mut` keeps plurals apart and never turns a name into a
      plural. */
  lemma MutSuffix(p: Ident, q: Ident)
    requires |p| > 0 && p[|p| - 1] == 's' && |q| > 0 && q[|q| - 1] == 's'
    ensures p + "_mut" != q
    ensures p + "_mut" == q + "_mut" <==> p == q
  {
    var n := p + "_mut";
    assert n[|n| - 1] == 't';
    if n == q + "_mut" {
      assert p == n[..|p|] == (q + "_mut")[..|q|] == q;
    }
  }

  /** Item `i` of the accessor list is the shared (even `i`) or mutable (odd
      `i`) accessor of field `i / 2`. */
  lemma AccessorAt(input: Input, i: nat)
    requires WellFormedFields(input.fields) && input.fields.Named? && i < |FieldAccessors(input)|
    ensures FieldAccessors(input)[i] == Fn(Accessor(input.fields.named[i / 2], i % 2 == 1))
  {
    var fs := input.fields.named;
    var j := i / 2;
    if i % 2 == 0 {
      assert i == 2 * j;
      assert FieldAccessors(input)[2 * j] == Fn(Accessor(fs[j], false));
    } else {
      assert i == 2 * j + 1;
      assert FieldAccessors(input)[2 * j + 1] == Fn(Accessor(fs[j], true));
    }
  }

  /** No accessor of any field takes the name of another method. */
  lemma AccessorItemsAvoidFixedNames(input: Input)
    requires WellFormedFields(input.fields)
    ensures forall i :: 0 <= i < |FieldAccessors(input)| && FieldAccessors(input)[i].Fn? ==>
              FieldAccessors(input)[i].fn.name !in FixedNames
  {
    if input.fields.Named? {
      forall i | 0 <= i < |FieldAccessors(input)| && FieldAccessors(input)[i].Fn?
        ensures FieldAccessors(input)[i].fn.name !in FixedNames
      {
        AccessorAt(input, i);
        AccessorsAvoidFixedNames(input.fields.named[i / 2], i % 2 == 1);
      }
    }
  }

  /** No two fields pluralize to the same word. */
  predicate DistinctPlurals(fs: seq<NamedField>)
    requires forall i :: 0 <= i < |fs| ==> |fs[i].name| > 0
  {
    forall i, k :: 0 <= i < k < |fs| ==> Pluralize(fs[i].name) != Pluralize(fs[k].name)
  }

  /** Two accessors share a name only if they have the same mutability and
      their fields the same plural. */
  lemma AccessorNameMatch(a: NamedField, b: NamedField, ma: bool, mb: bool)
    requires |a.name| > 0 && |b.name| > 0
    ensures Accessor(a, ma).name == Accessor(b, mb).name ==> ma == mb && Pluralize(a.name) == Pluralize(b.name)
  {
    var pa, pb := Pluralize(a.name), Pluralize(b.name);
    MutSuffix(pa, pb);
    MutSuffix(pb, pa);
  }

  lemma AccessorPairDiffers(input: Input, i: nat, k: nat)
    requires WellFormedFields(input.fields) && input.fields.Named? && DistinctPlurals(input.fields.named)
    requires i < k < |FieldAccessors(input)|
    ensures FieldAccessors(input)[i].Fn? && FieldAccessors(input)[k].Fn?
    ensures FieldAccessors(input)[i].fn.name != FieldAccessors(input)[k].fn.name
  {
    var fs := input.fields.named;
    AccessorAt(input, i);
    AccessorAt(input, k);
    var a, b := i / 2, k / 2;
    assert a <= b;
    AccessorNameMatch(fs[a], fs[b], i % 2 == 1, k % 2 == 1);
    if a == b {
      assert i % 2 != k % 2;
    }
  }

  /** Accessor names are pairwise distinct exactly when the fields' plurals
      are. */
  lemma AccessorsDistinct(input: Input)
    requires WellFormedFields(input.fields) && input.fields.Named?
    ensures DistinctMethodNames(FieldAccessors(input)) <==> DistinctPlurals(input.fields.named)
  {
    if DistinctPlurals(input.fields.named) {
      DistinctAccessors(input);
    } else {
      PluralClash(input);
    }
  }

  lemma DistinctAccessors(input: Input)
    requires WellFormedFields(input.fields) && input.fields.Named? && DistinctPlurals(input.fields.named)
    ensures DistinctMethodNames(FieldAccessors(input))
  {
    var r := FieldAccessors(input);
    forall i, k | 0 <= i < k < |r| && r[i].Fn? && r[k].Fn? ensures r[i].fn.name != r[k].fn.name {
      AccessorPairDiffers(input, i, k);
    }
  }

  /** Two fields with one plural give their shared accessors one name. */
  lemma PluralClash(input: Input)
    requires WellFormedFields(input.fields) && input.fields.Named? && !DistinctPlurals(input.fields.named)
    ensures !DistinctMethodNames(FieldAccessors(input))
  {
    var fs, r := input.fields.named, FieldAccessors(input);
    var a, b :| 0 <= a < b < |fs| && Pluralize(fs[a].name) == Pluralize(fs[b].name);
    assert r[2 * a] == Fn(Accessor(fs[a], false)) && r[2 * b] == Fn(Accessor(fs[b], false));
    SharedName(r, 2 * a, 2 * b);
  }

  /** Reading element `index` of every column yields those elements in
      field order and changes nothing. */
  lemma EvalReads<V>(f: Fields, inits: seq<FieldInit>, cols: seq<seq<V>>, index: nat, mutable: bool)
    requires ReadsEveryColumn(f, inits, cols, index, mutable)
    ensures EvalAll(f, inits, cols, index, false) == Values(Elems(RowAt(cols, index)), cols)
  {
    var n := |inits|;
    var states := seq(n + 1, _ => cols);
    var e := Elems(RowAt(cols, index));
    forall k | 0 <= k < n
      ensures EvalExpr(f, inits[k].expr, states[k], index, false) == Values([e[k]], states[k + 1])
    {
      ReadStep(f, k, cols, index, mutable);
    }
    EvalChain(f, inits, states, e, index, false);
  }

  /** Initialiser `j` reads element `index` of column `j`, which exists. */
  predicate ReadsEveryColumn<V>(f: Fields, inits: seq<FieldInit>, cols: seq<seq<V>>, index: nat, mutable: bool)
  {
    && WellFormedFields(f) && |cols| == FieldCount(f) && |inits| == FieldCount(f)
    && (forall j :: 0 <= j < |inits| ==> inits[j].expr == ElementRef(ColumnPlace(f, j), mutable))
    && (forall j :: 0 <= j < |cols| ==> index < |cols[j]|)
  }

  /** The initialiser of field `j` reads element `index` of column `j`. */
  lemma ReadStep<V>(f: Fields, j: nat, cols: seq<seq<V>>, index: nat, mutable: bool)
    requires WellFormedFields(f) && |cols| == FieldCount(f) && j < |cols| && index < |cols[j]|
    ensures EvalExpr(f, ElementRef(ColumnPlace(f, j), mutable), cols, index, false) == Values([ElemVal(cols[j][index])], cols)
  {
    ResolveColumnPlace(f, j);
  }

  /** `get(index)` / `get_mut(index)` with `index` within every column: the
      view's field `j` is element `index` of column `j`, and nothing
      changes. */
  lemma GetReadsRow<V>(input: Input, names: StructNames, mutable: bool, cols: seq<seq<V>>, row: seq<V>, index: nat)
    requires WellFormedFields(input.fields) && !input.fields.Unit?
    requires |cols| == FieldCount(input.fields) && |row| == FieldCount(input.fields)
    requires forall j :: 0 <= j < |cols| ==> index < |cols[j]|
    ensures RunBody(input.fields, GetImpl(input, names, mutable).body, None, cols, row, index) ==
              Returned(Record(Elems(RowAt(cols, index))), cols)
  {
    var body := GetImpl(input, names, mutable).body;
    var items := DelimitedItems(body.inits);
    EvalReads(input.fields, items, cols, index, mutable);
    AssembleInOrder(input.fields, body.inits, Elems(RowAt(cols, index)));
  }

  /** An index past the end of the first column panics. */
  lemma GetOutOfBoundsPanics<V>(input: Input, names: StructNames, mutable: bool, cols: seq<seq<V>>, row: seq<V>, index: nat)
    requires WellFormedFields(input.fields) && FieldCount(input.fields) > 0
    requires |cols| == FieldCount(input.fields) && |row| == FieldCount(input.fields)
    requires index >= |cols[0]|
    ensures RunBody(input.fields, GetImpl(input, names, mutable).body, None, cols, row, index) == Panicked
  {
    ResolveColumnPlace(input.fields, 0);
  }

  /** Each accessor of named field `j` borrows exactly column `j`. */
  lemma AccessorBorrowsColumn<V>(input: Input, j: nat, mutable: bool, cols: seq<seq<V>>, row: seq<V>, index: nat)
    requires WellFormedFields(input.fields) && input.fields.Named? && j < |input.fields.named|
    requires |cols| == FieldCount(input.fields) && |row| == FieldCount(input.fields)
    ensures RunBody(input.fields, Accessor(input.fields.named[j], mutable).body, None, cols, row, index) ==
              Returned(ColumnSlice(cols[j]), cols)
  {
    ResolveColumnPlace(input.fields, j);
  }
}
