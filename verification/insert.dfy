/**
 * `push` and `insert`: a prelude of `let` bindings, one per field, then one
 * `Vec::push` / `Vec::insert` per column.
 *
 * As written, the prelude binds a named field under the field's own name
 * (`let value = &value.value;`). A field called `value` thereby shadows the
 * `value` parameter, and in `insert` a field called `index` shadows the
 * `index` parameter; the generated method then does not compile. The
 * prelude exists only to mark the fields as read, so the evidently intended
 * binding is one that cannot collide with a parameter: the model's
 * corrected prelude binds `_<name>`. The assembled impl blocks carry the
 * methods as written; the corrected ones state the intended behaviour, and
 * lemmas state exactly when the two differ.
 */
module InsertTemplates {
  import opened Syntax
  import opened Parse
  import opened Items
  import opened Names
  import opened Util
  import opened VecOps
  import opened Semantics

  /** Whether the record has a named field called `n`. */
  predicate HasFieldNamed(f: Fields, n: Ident)
  {
    f.Named? && exists j :: 0 <= j < |f.named| && f.named[j].name == n
  }

  /** The prelude statement for a field, as written: a named field is bound
      under its own name, a positional one as `field<i>`. */
  function LetAsWritten(p: Place): (r: Stmt)
  {
    match p
    case FieldName(n) => LetRef(n, p)
    case FieldIndex(i) => LetCopy(NthField(i), p)
  }

  /** The corrected prelude statement: a named field is bound as `_<name>`. */
  function LetCorrected(p: Place): (r: Stmt)
  {
    match p
    case FieldName(n) => LetRef("_" + n, p)
    case FieldIndex(i) => LetCopy(NthField(i), p)
  }

  /** `assignments`, as written. */
  function AssignmentsAsWritten(input: Input): (r: Run<Stmt>)
    ensures StmtsPerField(input.fields, r, LetAsWritten)
  {
    var named := (f: NamedField) => [LetRef(f.name, FieldName(f.name))];
    var unnamed := (f: UnnamedField, i: nat) => [LetCopy(NthField(i), FieldIndex(i))];
    MapFieldsOnePerField(input, named, unnamed);
    input.MapFields(named, unnamed)
  }

  /** `assignments`, corrected. */
  function Assignments(input: Input): (r: Run<Stmt>)
    ensures StmtsPerField(input.fields, r, LetCorrected)
  {
    var named := (f: NamedField) => [LetRef("_" + f.name, FieldName(f.name))];
    var unnamed := (f: UnnamedField, i: nat) => [LetCopy(NthField(i), FieldIndex(i))];
    MapFieldsOnePerField(input, named, unnamed);
    input.MapFields(named, unnamed)
  }

  /** `self.<col>.push(value.<col>);` for every field, in order. */
  function PushFields(input: Input): (r: Run<Stmt>)
    ensures StmtsPerField(input.fields, r, (p: Place) => PushColumn(p))
  {
    var named := (f: NamedField) => [PushColumn(FieldName(f.name))];
    var unnamed := (f: UnnamedField, i: nat) => [PushColumn(FieldIndex(i))];
    MapFieldsOnePerField(input, named, unnamed);
    input.MapFields(named, unnamed)
  }

  /** `self.<col>.insert(index, value.<col>);` for every field, in order. */
  function InsertFields(input: Input): (r: Run<Stmt>)
    ensures StmtsPerField(input.fields, r, (p: Place) => InsertColumn(p))
  {
    var named := (f: NamedField) => [InsertColumn(FieldName(f.name))];
    var unnamed := (f: UnnamedField, i: nat) => [InsertColumn(FieldIndex(i))];
    MapFieldsOnePerField(input, named, unnamed);
    input.MapFields(named, unnamed)
  }

  /** `#[inline] pub fn push(&mut self, value: <Name>) { <prelude> <pushes> }` */
  function PushWith(input: Input, names: StructNames, prelude: Run<Stmt>): (m: Method)
    ensures m.inline && m.vis == Public && m.name == "push" && m.receiver == MutSelf && m.ret == None
    ensures m.params == [Param(ValueParam, Path(names.original))]
    ensures m.body == Block(prelude, PushFields(input))
  {
    Method(true, Public, "push", MutSelf, [Param(ValueParam, Path(names.original))], None, Block(prelude, PushFields(input)))
  }

  /** `#[inline] pub fn insert(&mut self, index: usize, value: <Name>) { <prelude> <inserts> }` */
  function InsertWith(input: Input, names: StructNames, prelude: Run<Stmt>): (m: Method)
    ensures m.inline && m.vis == Public && m.name == "insert" && m.receiver == MutSelf && m.ret == None
    ensures m.params == [Param(IndexParam, UsizeTy), Param(ValueParam, Path(names.original))]
    ensures m.body == Block(prelude, InsertFields(input))
  {
    Method(true, Public, "insert", MutSelf, [Param(IndexParam, UsizeTy), Param(ValueParam, Path(names.original))], None,
      Block(prelude, InsertFields(input)))
  }

  function PushAsWritten(input: Input, names: StructNames): (m: Method)
  {
    PushWith(input, names, AssignmentsAsWritten(input))
  }

  function PushMethod(input: Input, names: StructNames): (m: Method)
  {
    PushWith(input, names, Assignments(input))
  }

  function InsertAsWritten(input: Input, names: StructNames): (m: Method)
  {
    InsertWith(input, names, AssignmentsAsWritten(input))
  }

  function InsertMethod(input: Input, names: StructNames): (m: Method)
  {
    InsertWith(input, names, Assignments(input))
  }

  /** `codegen`: `push`, then `insert`, both with the prelude as written. */
  function Codegen(input: Input, names: StructNames): (r: seq<ImplItem>)
    ensures AllFns(r) && MethodNames(r) == ["push", "insert"]
  {
    var r := [Fn(PushAsWritten(input, names)), Fn(InsertAsWritten(input, names))];
    assert r[1..][1..] == [];
    assert MethodNames(r[1..]) == ["insert"];
    r
  }

  // The preludes.

  /** A positional binding `field<i>` is never a parameter name. */
  lemma NthFieldIsNotParam(i: nat)
    ensures NthField(i) != ValueParam && NthField(i) != IndexParam
  {
    assert NthField(i)[..5] == "field";
    assert NthField(i)[0] == 'f';
  }

  /** The prelude as written is `let`s of existing fields; it rebinds `value`
      (or `index`) exactly when a field has that name. */
  lemma PreludeAsWritten(input: Input)
    requires WellFormedFields(input.fields)
    ensures var w := RunParts(AssignmentsAsWritten(input));
            && (forall i :: 0 <= i < |w| ==> IsLet(w[i]) && Resolve(input.fields, w[i].source).Some?)
            && (ValueParam in Bindings(w) <==> HasFieldNamed(input.fields, ValueParam))
            && (IndexParam in Bindings(w) <==> HasFieldNamed(input.fields, IndexParam))
  {
    var f := input.fields;
    var w := RunParts(AssignmentsAsWritten(input));
    forall i | 0 <= i < |w| ensures IsLet(w[i]) && Resolve(f, w[i].source).Some? {
      PreludeAsWrittenAt(input, i);
    }
    PreludeBindsOnlyFields(input);
    PreludeBindsEveryField(input);
  }

  lemma PreludeAsWrittenAt(input: Input, i: nat)
    requires WellFormedFields(input.fields) && i < |RunParts(AssignmentsAsWritten(input))|
    ensures var f, w := input.fields, RunParts(AssignmentsAsWritten(input));
            && IsLet(w[i]) && Resolve(f, w[i].source) == Some(i)
            && w[i].binding == (if f.Named? then f.named[i].name else NthField(i))
  {
    ResolveColumnPlace(input.fields, i);
  }

  lemma PreludeBindsOnlyFields(input: Input)
    requires WellFormedFields(input.fields)
    ensures var w := RunParts(AssignmentsAsWritten(input));
            forall x | x in Bindings(w) && (x == ValueParam || x == IndexParam) :: HasFieldNamed(input.fields, x)
  {
    var w := RunParts(AssignmentsAsWritten(input));
    forall x | x in Bindings(w) && (x == ValueParam || x == IndexParam) ensures HasFieldNamed(input.fields, x) {
      var i :| 0 <= i < |w| && IsLet(w[i]) && w[i].binding == x;
      PreludeAsWrittenAt(input, i);
      NthFieldIsNotParam(i);
    }
  }

  lemma PreludeBindsEveryField(input: Input)
    requires WellFormedFields(input.fields)
    ensures var w := RunParts(AssignmentsAsWritten(input));
            forall x | x in {ValueParam, IndexParam} && HasFieldNamed(input.fields, x) :: x in Bindings(w)
  {
    var f := input.fields;
    var w := RunParts(AssignmentsAsWritten(input));
    forall x | x in {ValueParam, IndexParam} && HasFieldNamed(f, x) ensures x in Bindings(w) {
      var j :| 0 <= j < |f.named| && f.named[j].name == x;
      PreludeAsWrittenAt(input, j);
    }
  }

  /** The corrected prelude is `let`s of existing fields that rebind neither
      parameter: every binding starts with `_` or `f`. */
  lemma PreludeCorrected(input: Input)
    requires WellFormedFields(input.fields)
    ensures var c := RunParts(Assignments(input));
            && (forall i :: 0 <= i < |c| ==> IsLet(c[i]) && Resolve(input.fields, c[i].source).Some?)
            && ValueParam !in Bindings(c) && IndexParam !in Bindings(c)
  {
    var f := input.fields;
    var c := RunParts(Assignments(input));
    forall i | 0 <= i < |c|
      ensures IsLet(c[i]) && Resolve(f, c[i].source) == Some(i)
      ensures c[i].binding != ValueParam && c[i].binding != IndexParam
    {
      ResolveColumnPlace(f, i);
      NthFieldIsNotParam(i);
      if f.Named? {
        assert c[i].binding[0] == '_';
      }
    }
  }

  // The effects.

  /** The columns after pushing the first `k` fields of `row`. */
  function Pushed<V>(cols: seq<seq<V>>, row: seq<V>, k: nat): (r: seq<seq<V>>)
    requires |row| == |cols|
  {
    seq(|cols|, j requires 0 <= j < |cols| => if j < k then cols[j] + [row[j]] else cols[j])
  }

  lemma {:induction false} ExecPushes<V>(f: Fields, effects: seq<Stmt>, k: nat, shadowed: set<Ident>,
                                         cols: seq<seq<V>>, row: seq<V>, index: nat)
    requires WellFormedFields(f) && |cols| == FieldCount(f) && |row| == FieldCount(f)
    requires |effects| == FieldCount(f) && k <= |effects|
    requires forall j :: 0 <= j < |effects| ==> effects[j] == PushColumn(ColumnPlace(f, j))
    requires ValueParam !in shadowed
    ensures Exec(f, effects[k..], shadowed, Pushed(cols, row, k), row, index) == Returned(UnitValue, PushEach(cols, row))
    decreases |effects| - k
  {
    if k == |effects| {
      assert Pushed(cols, row, k) == PushEach(cols, row);
    } else {
      ResolveColumnPlace(f, k);
      var rest := effects[k..];
      assert rest[0] == effects[k] && rest[1..] == effects[k + 1..];
      var c := Pushed(cols, row, k);
      assert c[k := c[k] + [row[k]]] == Pushed(cols, row, k + 1);
      ExecPushes(f, effects, k + 1, shadowed, cols, row, index);
    }
  }

  /** The columns after inserting the first `k` fields of `row` at `index`. */
  function Inserted<V>(cols: seq<seq<V>>, row: seq<V>, index: nat, k: nat): (r: seq<seq<V>>)
    requires |row| == |cols| && forall j :: 0 <= j < |cols| ==> index <= |cols[j]|
  {
    seq(|cols|, j requires 0 <= j < |cols| => if j < k then Insert(cols[j], index, row[j]) else cols[j])
  }

  lemma {:induction false} ExecInserts<V>(f: Fields, effects: seq<Stmt>, k: nat, shadowed: set<Ident>,
                                          cols: seq<seq<V>>, row: seq<V>, index: nat)
    requires WellFormedFields(f) && |cols| == FieldCount(f) && |row| == FieldCount(f)
    requires forall j :: 0 <= j < |cols| ==> index <= |cols[j]|
    requires |effects| == FieldCount(f) && k <= |effects|
    requires forall j :: 0 <= j < |effects| ==> effects[j] == InsertColumn(ColumnPlace(f, j))
    requires ValueParam !in shadowed && IndexParam !in shadowed
    ensures Exec(f, effects[k..], shadowed, Inserted(cols, row, index, k), row, index) == Returned(UnitValue, InsertEach(cols, index, row))
    decreases |effects| - k
  {
    if k == |effects| {
      assert Inserted(cols, row, index, k) == InsertEach(cols, index, row);
    } else {
      ResolveColumnPlace(f, k);
      var rest := effects[k..];
      assert rest[0] == effects[k] && rest[1..] == effects[k + 1..];
      var c := Inserted(cols, row, index, k);
      assert c[k := Insert(c[k], index, row[k])] == Inserted(cols, row, index, k + 1);
      ExecInserts(f, effects, k + 1, shadowed, cols, row, index);
    }
  }

  /** A prelude that rebinds `value` at field `k` makes the rest of the body
      unusable: every later statement reads `value`. */
  lemma ValueReboundAt<V>(f: Fields, lets: seq<Stmt>, effects: seq<Stmt>, k: nat,
                          cols: seq<seq<V>>, row: seq<V>, index: nat)
    requires |cols| == FieldCount(f) && |row| == FieldCount(f)
    requires k < |lets| && effects != []
    requires forall i :: 0 <= i < |lets| ==> IsLet(lets[i]) && Resolve(f, lets[i].source).Some?
    requires IsLet(lets[k]) && lets[k].binding == ValueParam
    requires forall i :: 0 <= i < k ==> IsLet(lets[i]) && lets[i].binding != ValueParam
    ensures Exec(f, lets + effects, {}, cols, row, index) == Stuck
  {
    var before, rest := lets[..k], lets[k..] + effects;
    assert lets + effects == before + rest;
    assert ValueParam !in Bindings(before) by {
      forall x | x in Bindings(before) ensures x != ValueParam {
        var i :| 0 <= i < |before| && IsLet(before[i]) && before[i].binding == x;
        assert before[i] == lets[i];
      }
    }
    ExecLets(f, before, rest, {}, cols, row, index);
    assert rest[0] == lets[k] && rest[1..] == lets[k + 1..] + effects;
    ExecAfterValueShadowed(f, rest[1..], {} + Bindings(before) + {ValueParam}, cols, row, index);
  }

  /** The first field whose name is `n`. */
  lemma FirstFieldNamed(f: Fields, n: Ident) returns (k: nat)
    requires HasFieldNamed(f, n)
    ensures k < |f.named| && f.named[k].name == n
    ensures forall i :: 0 <= i < k ==> f.named[i].name != n
  {
    var r := IndexOfName(f.named, n);
    k := r.value;
  }

  // The methods.

  /** `push(value)` appends field `j` of the row to column `j`, for every
      field, whatever the shape. */
  lemma PushAppendsRow<V>(input: Input, names: StructNames, cols: seq<seq<V>>, row: seq<V>, index: nat)
    requires WellFormedFields(input.fields)
    requires |cols| == FieldCount(input.fields) && |row| == FieldCount(input.fields)
    ensures RunBody(input.fields, PushMethod(input, names).body, None, cols, row, index) == Returned(UnitValue, PushEach(cols, row))
  {
    var f := input.fields;
    var lets, effects := RunParts(Assignments(input)), RunParts(PushFields(input));
    PreludeCorrected(input);
    ExecLets(f, lets, effects, {}, cols, row, index);
    ExecPushes(f, effects, 0, {} + Bindings(lets), cols, row, index);
    assert effects[0..] == effects && Pushed(cols, row, 0) == cols;
  }

  /** `insert(index, value)` with `index` at most every column's length calls
      `Vec::insert(index, field j)` on every column `j`. */
  lemma InsertShiftsRow<V>(input: Input, names: StructNames, cols: seq<seq<V>>, row: seq<V>, index: nat)
    requires WellFormedFields(input.fields)
    requires |cols| == FieldCount(input.fields) && |row| == FieldCount(input.fields)
    requires forall j :: 0 <= j < |cols| ==> index <= |cols[j]|
    ensures RunBody(input.fields, InsertMethod(input, names).body, None, cols, row, index) ==
              Returned(UnitValue, InsertEach(cols, index, row))
  {
    var f := input.fields;
    var lets, effects := RunParts(Assignments(input)), RunParts(InsertFields(input));
    PreludeCorrected(input);
    ExecLets(f, lets, effects, {}, cols, row, index);
    ExecInserts(f, effects, 0, {} + Bindings(lets), cols, row, index);
    assert effects[0..] == effects && Inserted(cols, row, index, 0) == cols;
  }

  /** An index past the end of the first column panics. */
  lemma InsertPastEndPanics<V>(input: Input, names: StructNames, cols: seq<seq<V>>, row: seq<V>, index: nat)
    requires WellFormedFields(input.fields) && FieldCount(input.fields) > 0
    requires |cols| == FieldCount(input.fields) && |row| == FieldCount(input.fields)
    requires index > |cols[0]|
    ensures RunBody(input.fields, InsertMethod(input, names).body, None, cols, row, index) == Panicked
  {
    var f := input.fields;
    var lets, effects := RunParts(Assignments(input)), RunParts(InsertFields(input));
    PreludeCorrected(input);
    ExecLets(f, lets, effects, {}, cols, row, index);
    ResolveColumnPlace(f, 0);
  }

  /** `push` as written agrees with the corrected one unless a field is named
      `value`, in which case it does not compile. */
  lemma PushAsWrittenShadows<V>(input: Input, names: StructNames, cols: seq<seq<V>>, row: seq<V>, index: nat)
    requires WellFormedFields(input.fields)
    requires |cols| == FieldCount(input.fields) && |row| == FieldCount(input.fields)
    ensures RunBody(input.fields, PushAsWritten(input, names).body, None, cols, row, index) ==
              if HasFieldNamed(input.fields, ValueParam) then Stuck
              else RunBody(input.fields, PushMethod(input, names).body, None, cols, row, index)
  {
    if HasFieldNamed(input.fields, ValueParam) {
      PushAsWrittenStuck(input, names, cols, row, index);
    } else {
      PushAsWrittenAgrees(input, names, cols, row, index);
    }
  }

  lemma PushAsWrittenStuck<V>(input: Input, names: StructNames, cols: seq<seq<V>>, row: seq<V>, index: nat)
    requires WellFormedFields(input.fields) && HasFieldNamed(input.fields, ValueParam)
    requires |cols| == FieldCount(input.fields) && |row| == FieldCount(input.fields)
    ensures RunBody(input.fields, PushAsWritten(input, names).body, None, cols, row, index) == Stuck
  {
    var f := input.fields;
    var lets, effects := RunParts(AssignmentsAsWritten(input)), RunParts(PushFields(input));
    PreludeAsWritten(input);
    var k := FirstFieldNamed(f, ValueParam);
    ResolveColumnPlace(f, k);
    ValueReboundAt(f, lets, effects, k, cols, row, index);
  }

  lemma PushAsWrittenAgrees<V>(input: Input, names: StructNames, cols: seq<seq<V>>, row: seq<V>, index: nat)
    requires WellFormedFields(input.fields) && !HasFieldNamed(input.fields, ValueParam)
    requires |cols| == FieldCount(input.fields) && |row| == FieldCount(input.fields)
    ensures RunBody(input.fields, PushAsWritten(input, names).body, None, cols, row, index) ==
              RunBody(input.fields, PushMethod(input, names).body, None, cols, row, index)
  {
    var f := input.fields;
    var lets, effects := RunParts(AssignmentsAsWritten(input)), RunParts(PushFields(input));
    PreludeAsWritten(input);
    PushAppendsRow(input, names, cols, row, index);
    ExecLets(f, lets, effects, {}, cols, row, index);
    ExecPushes(f, effects, 0, {} + Bindings(lets), cols, row, index);
    assert effects[0..] == effects && Pushed(cols, row, 0) == cols;
  }

  /** `insert` as written agrees with the corrected one unless a field is
      named `value` or `index`, in which case it does not compile. */
  lemma InsertAsWrittenShadows<V>(input: Input, names: StructNames, cols: seq<seq<V>>, row: seq<V>, index: nat)
    requires WellFormedFields(input.fields)
    requires |cols| == FieldCount(input.fields) && |row| == FieldCount(input.fields)
    ensures RunBody(input.fields, InsertAsWritten(input, names).body, None, cols, row, index) ==
              if HasFieldNamed(input.fields, ValueParam) || HasFieldNamed(input.fields, IndexParam) then Stuck
              else RunBody(input.fields, InsertMethod(input, names).body, None, cols, row, index)
  {
    var f := input.fields;
    if HasFieldNamed(f, ValueParam) {
      InsertAsWrittenValueStuck(input, names, cols, row, index);
    } else if HasFieldNamed(f, IndexParam) {
      InsertAsWrittenIndexStuck(input, names, cols, row, index);
    } else {
      InsertAsWrittenAgrees(input, names, cols, row, index);
    }
  }

  lemma InsertAsWrittenValueStuck<V>(input: Input, names: StructNames, cols: seq<seq<V>>, row: seq<V>, index: nat)
    requires WellFormedFields(input.fields) && HasFieldNamed(input.fields, ValueParam)
    requires |cols| == FieldCount(input.fields) && |row| == FieldCount(input.fields)
    ensures RunBody(input.fields, InsertAsWritten(input, names).body, None, cols, row, index) == Stuck
  {
    var f := input.fields;
    var lets, effects := RunParts(AssignmentsAsWritten(input)), RunParts(InsertFields(input));
    PreludeAsWritten(input);
    var k := FirstFieldNamed(f, ValueParam);
    ResolveColumnPlace(f, k);
    ValueReboundAt(f, lets, effects, k, cols, row, index);
  }

  lemma InsertAsWrittenIndexStuck<V>(input: Input, names: StructNames, cols: seq<seq<V>>, row: seq<V>, index: nat)
    requires WellFormedFields(input.fields) && !HasFieldNamed(input.fields, ValueParam) && HasFieldNamed(input.fields, IndexParam)
    requires |cols| == FieldCount(input.fields) && |row| == FieldCount(input.fields)
    ensures RunBody(input.fields, InsertAsWritten(input, names).body, None, cols, row, index) == Stuck
  {
    var f := input.fields;
    var lets, effects := RunParts(AssignmentsAsWritten(input)), RunParts(InsertFields(input));
    PreludeAsWritten(input);
    ExecLets(f, lets, effects, {}, cols, row, index);
    ResolveColumnPlace(f, 0);
  }

  lemma InsertAsWrittenAgrees<V>(input: Input, names: StructNames, cols: seq<seq<V>>, row: seq<V>, index: nat)
    requires WellFormedFields(input.fields) && !HasFieldNamed(input.fields, ValueParam) && !HasFieldNamed(input.fields, IndexParam)
    requires |cols| == FieldCount(input.fields) && |row| == FieldCount(input.fields)
    ensures RunBody(input.fields, InsertAsWritten(input, names).body, None, cols, row, index) ==
              RunBody(input.fields, InsertMethod(input, names).body, None, cols, row, index)
  {
    var f := input.fields;
    var lets, effects := RunParts(AssignmentsAsWritten(input)), RunParts(InsertFields(input));
    var lets' := RunParts(Assignments(input));
    PreludeAsWritten(input);
    PreludeCorrected(input);
    ExecLets(f, lets, effects, {}, cols, row, index);
    ExecLets(f, lets', effects, {}, cols, row, index);
    InsertSameAfterPrelude(f, effects, Bindings(lets), Bindings(lets'), cols, row, index);
  }

  /** Two shadowed sets that both leave the parameters alone run the inserts
      identically. */
  lemma {:induction false} InsertSameAfterPrelude<V>(f: Fields, effects: seq<Stmt>, s1: set<Ident>, s2: set<Ident>,
                                                     cols: seq<seq<V>>, row: seq<V>, index: nat)
    requires |cols| == FieldCount(f) && |row| == FieldCount(f)
    requires forall i :: 0 <= i < |effects| ==> effects[i].InsertColumn?
    requires ValueParam !in s1 && IndexParam !in s1 && ValueParam !in s2 && IndexParam !in s2
    ensures Exec(f, effects, {} + s1, cols, row, index) == Exec(f, effects, {} + s2, cols, row, index)
    decreases |effects|
  {
    if effects != [] {
      var p := effects[0].column;
      if Resolve(f, p).Some? && index <= |cols[Resolve(f, p).value]| {
        var j := Resolve(f, p).value;
        InsertSameAfterPrelude(f, effects[1..], s1, s2, cols[j := Insert(cols[j], index, row[j])], row, index);
      }
    }
  }

  /** `struct Wrapper { value: u8 }`: the `push` emitted as written does not
      type-check, the corrected one appends the record. */
  lemma WrapperWithValueField(names: StructNames, x: int)
    ensures var input := Input(Public, "Wrapper", Named([NamedField([], Inherited, "value", Path("u8"))]));
            && RunBody(input.fields, PushAsWritten(input, names).body, None, [[]], [x], 0) == Stuck
            && RunBody(input.fields, PushMethod(input, names).body, None, [[]], [x], 0) == Returned(UnitValue, [[x]])
  {
    var input := Input(Public, "Wrapper", Named([NamedField([], Inherited, "value", Path("u8"))]));
    assert input.fields.named[0].name == ValueParam;
    PushAsWrittenShadows(input, names, [[]], [x], 0);
    PushAppendsRow(input, names, [[]], [x], 0);
    var pushed: seq<seq<int>> := PushEach([[]], [x]);
    assert pushed[0] == [] + [x] == [x];
    assert pushed == [[x]];
  }
}
