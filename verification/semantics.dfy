/**
 * The meaning of the emitted method bodies, run against a container whose
 * columns are `cols` (column `j` holds field `j`). A value of the record
 * type is a row `row` of field values; every field is given the same element
 * type `V`.
 *
 * A body either returns a value together with the new columns, panics (an
 * index out of bounds), or is Stuck: it would not type-check, for example
 * because it names a field the record does not have, or reads the `value`
 * parameter after a `let` has shadowed it.
 */
module Semantics {
  import opened Syntax
  import opened Parse
  import opened Items
  import opened VecOps

  /** Position of the first field called `name`. */
  function IndexOfName(fs: seq<NamedField>, name: Ident): (r: Option<nat>)
    ensures r.Some? ==> r.value < |fs| && fs[r.value].name == name
    ensures r.Some? ==> forall i :: 0 <= i < r.value ==> fs[i].name != name
    ensures r.None? ==> forall i :: 0 <= i < |fs| ==> fs[i].name != name
  {
    if fs == [] then None
    else if fs[0].name == name then Some(0)
    else match IndexOfName(fs[1..], name)
      case None => None
      case Some(k) => Some(k + 1)
  }

  /** The column a place refers to: a field name in a named record, a position
      in a positional one. */
  function Resolve(f: Fields, p: Place): (r: Option<nat>)
    ensures r.Some? ==> r.value < FieldCount(f)
    ensures r.Some? && p.FieldIndex? ==> r.value == p.index
  {
    match p
    case FieldName(n) => if f.Named? then IndexOfName(f.named, n) else None
    case FieldIndex(k) => if f.Unnamed? && k < |f.unnamed| then Some(k) else None
  }

  /** With distinct names, the way the generator addresses field `j` leads
      back to column `j`. */
  lemma ResolveColumnPlace(f: Fields, j: nat)
    requires WellFormedFields(f) && j < FieldCount(f)
    ensures Resolve(f, ColumnPlace(f, j)) == Some(j)
  {
  }

  /** What a field initialiser evaluates to: an empty column (constructors) or
      one element (views, removals). */
  datatype Val<V> = ColumnVal(elems: seq<V>) | ElemVal(elem: V)

  /** What a method returns. */
  datatype Value<V> =
    | UnitValue
    | Record(fields: seq<Val<V>>)
    | SomeRecord(fields: seq<Val<V>>)
    | NoneValue
    | Usize(n: nat)
    | Boolean(b: bool)
    | ColumnSlice(elems: seq<V>)

  /** A row's fields as initialiser values. */
  function Elems<V>(row: seq<V>): (r: seq<Val<V>>)
    ensures |r| == |row| && forall j :: 0 <= j < |row| ==> r[j] == ElemVal(row[j])
  {
    seq(|row|, j requires 0 <= j < |row| => ElemVal(row[j]))
  }

  datatype Outcome<V> = Returned(value: Value<V>, cols: seq<seq<V>>) | Panicked | Stuck

  const ValueParam: Ident := "value"
  const IndexParam: Ident := "index"

  /** Runs statements in order. `shadowed` holds the names a `let` has
      rebound so far; the parameters `value` and `index` are only usable while
      they are not in it. */
  function Exec<V>(f: Fields, stmts: seq<Stmt>, shadowed: set<Ident>, cols: seq<seq<V>>, row: seq<V>, index: nat): (r: Outcome<V>)
    requires |cols| == FieldCount(f) && |row| == FieldCount(f)
    ensures r.Returned? ==> r.value == UnitValue && |r.cols| == |cols|
    decreases |stmts|
  {
    if stmts == [] then Returned(UnitValue, cols)
    else
      var rest := stmts[1..];
      match stmts[0]
      case LetRef(b, src) =>
        if ValueParam in shadowed || Resolve(f, src).None? then Stuck
        else Exec(f, rest, shadowed + {b}, cols, row, index)
      case LetCopy(b, src) =>
        if ValueParam in shadowed || Resolve(f, src).None? then Stuck
        else Exec(f, rest, shadowed + {b}, cols, row, index)
      case PushColumn(p) =>
        if ValueParam in shadowed || Resolve(f, p).None? then Stuck
        else
          var j := Resolve(f, p).value;
          Exec(f, rest, shadowed, cols[j := cols[j] + [row[j]]], row, index)
      case InsertColumn(p) =>
        if ValueParam in shadowed || IndexParam in shadowed || Resolve(f, p).None? then Stuck
        else
          var j := Resolve(f, p).value;
          if index <= |cols[j]| then Exec(f, rest, shadowed, cols[j := Insert(cols[j], index, row[j])], row, index)
          else Panicked
  }

  /** The names bound by the `let` statements among `stmts`. */
  function Bindings(stmts: seq<Stmt>): (r: set<Ident>)
  {
    set i | 0 <= i < |stmts| && (stmts[i].LetRef? || stmts[i].LetCopy?) :: stmts[i].binding
  }

  predicate IsLet(s: Stmt)
  {
    s.LetRef? || s.LetCopy?
  }

  /** A prelude of `let`s that read existing fields and rebind neither
      parameter only adds its names to the shadowed set. */
  lemma {:induction false} ExecLets<V>(f: Fields, lets: seq<Stmt>, rest: seq<Stmt>, shadowed: set<Ident>,
                                       cols: seq<seq<V>>, row: seq<V>, index: nat)
    requires |cols| == FieldCount(f) && |row| == FieldCount(f)
    requires forall i :: 0 <= i < |lets| ==> IsLet(lets[i]) && Resolve(f, lets[i].source).Some?
    requires ValueParam !in shadowed + Bindings(lets)
    ensures Exec(f, lets + rest, shadowed, cols, row, index) == Exec(f, rest, shadowed + Bindings(lets), cols, row, index)
    decreases |lets|
  {
    if lets == [] {
      assert lets + rest == rest;
      assert Bindings(lets) == {};
      assert shadowed + Bindings(lets) == shadowed;
    } else {
      var b := lets[0].binding;
      assert (lets + rest)[0] == lets[0];
      assert (lets + rest)[1..] == lets[1..] + rest;
      assert Bindings(lets) == {b} + Bindings(lets[1..]) by {
        forall x | x in Bindings(lets) ensures x in {b} + Bindings(lets[1..]) {
          var i :| 0 <= i < |lets| && IsLet(lets[i]) && lets[i].binding == x;
          if i > 0 { assert lets[1..][i - 1] == lets[i]; }
        }
        forall x | x in Bindings(lets[1..]) ensures x in Bindings(lets) {
          var i :| 0 <= i < |lets[1..]| && IsLet(lets[1..][i]) && lets[1..][i].binding == x;
          assert lets[i + 1] == lets[1..][i];
        }
      }
      ExecLets(f, lets[1..], rest, shadowed + {b}, cols, row, index);
      assert shadowed + {b} + Bindings(lets[1..]) == shadowed + Bindings(lets);
    }
  }

  /** Once `value` is shadowed, no statement can run: each reads the
      parameter. */
  lemma ExecAfterValueShadowed<V>(f: Fields, stmts: seq<Stmt>, shadowed: set<Ident>, cols: seq<seq<V>>, row: seq<V>, index: nat)
    requires |cols| == FieldCount(f) && |row| == FieldCount(f)
    requires ValueParam in shadowed && stmts != []
    ensures Exec(f, stmts, shadowed, cols, row, index) == Stuck
  {
  }

  /** Evaluation of struct-literal initialisers: the values so far and the new
      columns, or an escape (a panic, a type error, or the early `return None`
      of `?`). */
  datatype Evaluation<V> = Values(vals: seq<Val<V>>, cols: seq<seq<V>>) | Escaped(outcome: Outcome<V>)

  /** One initialiser. `?` is only meaningful in a method returning `Option`. */
  function EvalExpr<V>(f: Fields, e: ColumnExpr, cols: seq<seq<V>>, index: nat, returnsOption: bool): (r: Evaluation<V>)
    requires |cols| == FieldCount(f)
    ensures r.Values? ==> |r.vals| == 1 && |r.cols| == |cols|
    ensures r.Escaped? && r.outcome.Returned? ==> r.outcome.cols == cols
  {
    match e
    case NewColumn => Values([ColumnVal([])], cols)
    case ColumnWithCapacity(_) => Values([ColumnVal([])], cols)
    case ElementRef(p, _) =>
      if Resolve(f, p).None? then Escaped(Stuck)
      else
        var j := Resolve(f, p).value;
        if index < |cols[j]| then Values([ElemVal(cols[j][index])], cols) else Escaped(Panicked)
    case RemoveAt(p, fn) =>
      if Resolve(f, p).None? then Escaped(Stuck)
      else
        var j := Resolve(f, p).value;
        if index < |cols[j]| then
          var rest := if fn.VecRemove? then Remove(cols[j], index) else SwapRemove(cols[j], index);
          Values([ElemVal(cols[j][index])], cols[j := rest])
        else Escaped(Panicked)
    case PopOrReturn(p) =>
      if !returnsOption || Resolve(f, p).None? then Escaped(Stuck)
      else
        var j := Resolve(f, p).value;
        if |cols[j]| == 0 then Escaped(Returned(NoneValue, cols))
        else Values([ElemVal(cols[j][|cols[j]| - 1])], cols[j := cols[j][..|cols[j]| - 1]])
  }

  /** The initialisers in source order, each seeing the columns the previous
      ones left; the first escape ends the evaluation. */
  function EvalAll<V>(f: Fields, inits: seq<FieldInit>, cols: seq<seq<V>>, index: nat, returnsOption: bool): (r: Evaluation<V>)
    requires |cols| == FieldCount(f)
    ensures r.Values? ==> |r.vals| == |inits| && |r.cols| == |cols|
    decreases |inits|
  {
    if inits == [] then Values([], cols)
    else
      match EvalExpr(f, inits[0].expr, cols, index, returnsOption)
      case Escaped(o) => Escaped(o)
      case Values(v, c) =>
        (match EvalAll(f, inits[1..], c, index, returnsOption)
         case Escaped(o) => Escaped(o)
         case Values(vs, c2) => Values(v + vs, c2))
  }

  /** The first `n` initialisers each yield one value: initialiser `j`,
      seeing `states[j]`, yields `vals[j]` and leaves `states[j + 1]`. */
  ghost predicate ChainedUpTo<V>(f: Fields, inits: seq<FieldInit>, states: seq<seq<seq<V>>>, vals: seq<Val<V>>, n: nat, index: nat, returnsOption: bool)
  {
    && n <= |inits| && |states| == n + 1 && |vals| == n
    && (forall j :: 0 <= j < |states| ==> |states[j]| == FieldCount(f))
    && (forall j :: 0 <= j < n ==> EvalExpr(f, inits[j].expr, states[j], index, returnsOption) == Values([vals[j]], states[j + 1]))
  }

  /** Dropping the first step of a chain leaves a chain. */
  lemma ChainTail<V>(f: Fields, inits: seq<FieldInit>, states: seq<seq<seq<V>>>, vals: seq<Val<V>>, n: nat, index: nat, returnsOption: bool)
    requires ChainedUpTo(f, inits, states, vals, n, index, returnsOption) && n > 0
    ensures ChainedUpTo(f, inits[1..], states[1..], vals[1..], n - 1, index, returnsOption)
  {
    forall j | 0 <= j < n - 1
      ensures EvalExpr(f, inits[1..][j].expr, states[1..][j], index, returnsOption) == Values([vals[1..][j]], states[1..][j + 1])
    {
      assert inits[1..][j] == inits[j + 1] && states[1..][j] == states[j + 1] && states[1..][j + 1] == states[j + 2];
    }
  }

  /** Every initialiser yields one value: the evaluation yields them all, in
      order, and leaves the last state. */
  lemma {:induction false} EvalChain<V>(f: Fields, inits: seq<FieldInit>, states: seq<seq<seq<V>>>, vals: seq<Val<V>>, index: nat, returnsOption: bool)
    requires ChainedUpTo(f, inits, states, vals, |inits|, index, returnsOption)
    ensures EvalAll(f, inits, states[0], index, returnsOption) == Values(vals, states[|inits|])
    decreases |inits|
  {
    if inits != [] {
      ChainTail(f, inits, states, vals, |inits|, index, returnsOption);
      EvalChain(f, inits[1..], states[1..], vals[1..], index, returnsOption);
      assert vals == [vals[0]] + vals[1..];
    }
  }

  /** The first `m` initialisers yield one value each and initialiser `m`
      escapes: the evaluation escapes the same way. */
  lemma {:induction false} EvalChainEscapes<V>(f: Fields, inits: seq<FieldInit>, states: seq<seq<seq<V>>>, vals: seq<Val<V>>, m: nat, o: Outcome<V>, index: nat, returnsOption: bool)
    requires ChainedUpTo(f, inits, states, vals, m, index, returnsOption) && m < |inits|
    requires EvalExpr(f, inits[m].expr, states[m], index, returnsOption) == Escaped(o)
    ensures EvalAll(f, inits, states[0], index, returnsOption) == Escaped(o)
    decreases m
  {
    if m > 0 {
      ChainTail(f, inits, states, vals, m, index, returnsOption);
      assert inits[1..][m - 1] == inits[m] && states[1..][m - 1] == states[m];
      EvalChainEscapes(f, inits[1..], states[1..], vals[1..], m - 1, o, index, returnsOption);
    }
  }

  /** Position of the first initialiser keyed `name`. */
  function KeyIndex(inits: seq<FieldInit>, name: Ident): (r: Option<nat>)
    ensures r.Some? ==> r.value < |inits| && inits[r.value].key == Some(name)
    ensures r.None? ==> forall i :: 0 <= i < |inits| ==> inits[i].key != Some(name)
  {
    if inits == [] then None
    else if inits[0].key == Some(name) then Some(0)
    else match KeyIndex(inits[1..], name)
      case None => None
      case Some(k) => Some(k + 1)
  }

  /** A struct literal: named initialisers go to the field with their key,
      positional ones to their position. A bare `;` is not a literal at all. */
  function Assemble<V>(f: Fields, inits: Delimited<FieldInit>, vals: seq<Val<V>>): (r: Option<seq<Val<V>>>)
    requires |vals| == |DelimitedItems(inits)|
    ensures r.Some? ==> |r.value| == FieldCount(f)
  {
    match inits
    case Semi => None
    case Braces(items, _) =>
      if f.Named? && |items| == |f.named|
         && (forall i :: 0 <= i < |items| ==> items[i].key.Some?)
         && (forall j :: 0 <= j < |f.named| ==> KeyIndex(items, f.named[j].name).Some?)
      then Some(seq(|f.named|, j requires 0 <= j < |f.named| => vals[KeyIndex(items, f.named[j].name).value]))
      else None
    case Parens(items, _) =>
      if f.Unnamed? && |items| == |f.unnamed| && forall i :: 0 <= i < |items| ==> items[i].key.None?
      then Some(vals)
      else None
  }

  /** When initialiser `j` is keyed by field `j`'s name, the literal puts every
      value at its own position. */
  lemma AssembleInOrder<V>(f: Fields, inits: Delimited<FieldInit>, vals: seq<Val<V>>)
    requires WellFormedFields(f) && !inits.Semi? && |vals| == |DelimitedItems(inits)| == FieldCount(f)
    requires (inits.Braces? <==> f.Named?) && (inits.Parens? <==> f.Unnamed?)
    requires forall j :: 0 <= j < FieldCount(f) ==> DelimitedItems(inits)[j].key == FieldIdentAt(f, j)
    ensures Assemble(f, inits, vals) == Some(vals)
  {
    if f.Named? {
      var items := inits.items;
      forall j | 0 <= j < |f.named| ensures KeyIndex(items, f.named[j].name) == Some(j) {
        assert items[j].key == Some(f.named[j].name);
        var k := KeyIndex(items, f.named[j].name).value;
        assert items[k].key == Some(f.named[k].name);
      }
      assert forall i :: 0 <= i < |items| ==> items[i].key.Some?;
      var placed := seq(|f.named|, j requires 0 <= j < |f.named| => vals[KeyIndex(items, f.named[j].name).value]);
      assert placed == vals;
    } else {
      assert f.Unnamed?;
      assert forall i :: 0 <= i < |inits.items| ==> inits.items[i].key == FieldIdentAt(f, i) == None;
    }
  }

  /** The body of a method, run on `cols` with arguments `row` (for `value`)
      and `index`. `is_empty` calls `len`, whose body is `lenBody`. */
  function RunBody<V>(f: Fields, body: Body, lenBody: Option<Body>, cols: seq<seq<V>>, row: seq<V>, index: nat): (r: Outcome<V>)
    requires |cols| == FieldCount(f) && |row| == FieldCount(f)
    decreases if body.LenIsZero? then 1 else 0
  {
    match body
    case Construct(_, wrapSome, inits) =>
      (match EvalAll(f, DelimitedItems(inits), cols, index, wrapSome)
       case Escaped(o) => o
       case Values(vals, c) =>
         (match Assemble(f, inits, vals)
          case None => Stuck
          case Some(fv) => Returned(if wrapSome then SomeRecord(fv) else Record(fv), c)))
    case Block(prelude, effects) =>
      Exec(f, RunParts(prelude) + RunParts(effects), {}, cols, row, index)
    case BorrowColumn(n, _) =>
      if Resolve(f, FieldName(n)).None? then Stuck
      else Returned(ColumnSlice(cols[Resolve(f, FieldName(n)).value]), cols)
    case ColumnLen(p) =>
      if Resolve(f, p).None? then Stuck
      else Returned(Usize(|cols[Resolve(f, p).value]|), cols)
    case LenIsZero =>
      if lenBody.None? || lenBody.value.LenIsZero? then Stuck
      else
        match RunBody(f, lenBody.value, None, cols, row, index)
        case Returned(Usize(n), c) => Returned(Boolean(n == 0), c)
        case Returned(_, _) => Stuck
        case other => other
  }

  /** The first method of a block with the given name. */
  function FindMethod(items: seq<ImplItem>, name: Ident): (r: Option<Method>)
    ensures r.Some? ==> r.value.name == name && exists i :: 0 <= i < |items| && items[i] == Fn(r.value)
    ensures r.None? ==> forall i :: 0 <= i < |items| ==> !(items[i].Fn? && items[i].fn.name == name)
  {
    if items == [] then None
    else if items[0].Fn? && items[0].fn.name == name then Some(items[0].fn)
    else
      var r := FindMethod(items[1..], name);
      if r.Some? then
        var i :| 0 <= i < |items[1..]| && items[1..][i] == Fn(r.value);
        assert items[i + 1] == Fn(r.value);
        r
      else
        assert forall i :: 1 <= i < |items| ==> items[i] == items[1..][i - 1];
        r
  }

  /** A method is what the lookup finds when nothing before it has its name. */
  lemma {:induction false} FindFirst(items: seq<ImplItem>, i: nat)
    requires i < |items| && items[i].Fn?
    requires forall k :: 0 <= k < i ==> !(items[k].Fn? && items[k].fn.name == items[i].fn.name)
    ensures FindMethod(items, items[i].fn.name) == Some(items[i].fn)
    decreases i
  {
    if i > 0 {
      assert items[1..][i - 1] == items[i];
      FindFirst(items[1..], i - 1);
    }
  }

  /** In a list with distinct names, every method is found by its name. */
  lemma FindDistinct(items: seq<ImplItem>, i: nat)
    requires DistinctMethodNames(items) && i < |items| && items[i].Fn?
    ensures FindMethod(items, items[i].fn.name) == Some(items[i].fn)
  {
    FindFirst(items, i);
  }

  /** A method of the middle run of a list with distinct names is found by
      its name. */
  lemma FindInMiddle(pre: seq<ImplItem>, mid: seq<ImplItem>, post: seq<ImplItem>, i: nat)
    requires DistinctMethodNames(pre + mid + post) && i < |mid| && mid[i].Fn?
    ensures FindMethod(pre + mid + post, mid[i].fn.name) == Some(mid[i].fn)
  {
    assert (pre + mid + post)[|pre| + i] == mid[i];
    FindDistinct(pre + mid + post, |pre| + i);
  }

  /** Methods with distinct reserved names around a run whose names are never
      reserved: each of them is found by its name. */
  lemma FindReserved(pre: seq<ImplItem>, mid: seq<ImplItem>, post: seq<ImplItem>, reserved: seq<Ident>, i: nat)
    requires forall k :: 0 <= k < |pre + post| ==> (pre + post)[k].Fn? && (pre + post)[k].fn.name in reserved
    requires DistinctMethodNames(pre + post)
    requires forall k :: 0 <= k < |mid| && mid[k].Fn? ==> mid[k].fn.name !in reserved
    requires i < |pre + post|
    ensures FindMethod(pre + mid + post, (pre + post)[i].fn.name) == Some((pre + post)[i].fn)
  {
    var all, pp := pre + mid + post, pre + post;
    var x := if i < |pre| then i else i + |mid|;
    assert all[x] == pp[i];
    forall k | 0 <= k < x ensures !(all[k].Fn? && all[k].fn.name == all[x].fn.name) {
      if k < |pre| {
        assert all[k] == pp[k];
      } else if k < |pre| + |mid| {
        assert all[k] == mid[k - |pre|];
      } else {
        assert all[k] == pp[k - |mid|];
      }
    }
    FindFirst(all, x);
  }

  /** As `FindReserved`, for method `t` of the middle piece `b` of a
      trailing run `a + b + c`. */
  lemma FindReservedPart(pre: seq<ImplItem>, mid: seq<ImplItem>, a: seq<ImplItem>, b: seq<ImplItem>, c: seq<ImplItem>, reserved: seq<Ident>, t: nat)
    requires forall k :: 0 <= k < |pre + (a + b + c)| ==> (pre + (a + b + c))[k].Fn? && (pre + (a + b + c))[k].fn.name in reserved
    requires DistinctMethodNames(pre + (a + b + c))
    requires forall k :: 0 <= k < |mid| && mid[k].Fn? ==> mid[k].fn.name !in reserved
    requires t < |b|
    ensures b[t].Fn? && FindMethod(pre + mid + (a + b + c), b[t].fn.name) == Some(b[t].fn)
  {
    var post := a + b + c;
    assert post[|a| + t] == b[t];
    assert (pre + post)[|pre| + |a| + t] == b[t];
    FindReserved(pre, mid, post, reserved, |pre| + |a| + t);
  }

  /** As `FindReserved`, for method `t` of the last piece `c` of a trailing
      run `a + b + c`. */
  lemma FindReservedTail(pre: seq<ImplItem>, mid: seq<ImplItem>, a: seq<ImplItem>, b: seq<ImplItem>, c: seq<ImplItem>, reserved: seq<Ident>, t: nat)
    requires forall k :: 0 <= k < |pre + (a + b + c)| ==> (pre + (a + b + c))[k].Fn? && (pre + (a + b + c))[k].fn.name in reserved
    requires DistinctMethodNames(pre + (a + b + c))
    requires forall k :: 0 <= k < |mid| && mid[k].Fn? ==> mid[k].fn.name !in reserved
    requires t < |c|
    ensures c[t].Fn? && FindMethod(pre + mid + (a + b + c), c[t].fn.name) == Some(c[t].fn)
  {
    var post := a + b + c;
    assert post[|a| + |b| + t] == c[t];
    assert (pre + post)[|pre| + |a| + |b| + t] == c[t];
    FindReserved(pre, mid, post, reserved, |pre| + |a| + |b| + t);
  }

  /** A reserved name none of the reserved methods carries is not found. */
  lemma FindAbsent(pre: seq<ImplItem>, mid: seq<ImplItem>, post: seq<ImplItem>, reserved: seq<Ident>, name: Ident)
    requires forall k :: 0 <= k < |mid| && mid[k].Fn? ==> mid[k].fn.name !in reserved
    requires name in reserved
    requires forall k :: 0 <= k < |pre + post| ==> !((pre + post)[k].Fn? && (pre + post)[k].fn.name == name)
    ensures FindMethod(pre + mid + post, name).None?
  {
    var all, pp := pre + mid + post, pre + post;
    forall k | 0 <= k < |all| ensures !(all[k].Fn? && all[k].fn.name == name) {
      if k < |pre| {
        assert all[k] == pp[k];
      } else if k < |pre| + |mid| {
        assert all[k] == mid[k - |pre|];
      } else {
        assert all[k] == pp[k - |mid|];
      }
    }
  }

  /** Calling method `name` of a block; a method the block does not define
      is a type error. */
  function Invoke<V>(block: ImplBlock, f: Fields, name: Ident, cols: seq<seq<V>>, row: seq<V>, index: nat): (r: Outcome<V>)
    requires |cols| == FieldCount(f) && |row| == FieldCount(f)
  {
    match FindMethod(block.items, name)
    case None => Stuck
    case Some(m) =>
      var lenBody := if FindMethod(block.items, "len").Some? then Some(FindMethod(block.items, "len").value.body) else None;
      RunBody(f, m.body, lenBody, cols, row, index)
  }

  /** A method found by name runs its body; only a body calling `len` looks
      at what `len` is. */
  lemma InvokeFound<V>(block: ImplBlock, f: Fields, name: Ident, m: Method, cols: seq<seq<V>>, row: seq<V>, index: nat)
    requires |cols| == FieldCount(f) && |row| == FieldCount(f)
    requires FindMethod(block.items, name) == Some(m) && !m.body.LenIsZero?
    ensures Invoke(block, f, name, cols, row, index) == RunBody(f, m.body, None, cols, row, index)
  {
  }
}
