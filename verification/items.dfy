/**
 * The generated declarations, as structured descriptors rather than tokens:
 * struct declarations, and impl blocks whose methods carry a description of
 * their bodies precise enough to be given a meaning (see Semantics).
 */
module Items {
  import opened Syntax
  import opened Parse

  /** `pub struct <name><lifetimes> <body>` */
  datatype StructDecl = StructDecl(vis: Vis, name: Ident, lifetimes: seq<Ident>, body: Delimited<FieldDecl>)

  /** A column of `self` (or a field of the `value` parameter), addressed the
      way the generated code addresses it: by name, or by position for
      positional records (`self.0`). */
  datatype Place = FieldName(name: Ident) | FieldIndex(index: nat)

  datatype RemoveFn = VecRemove | VecSwapRemove

  /** The expression a struct-literal initialiser evaluates. */
  datatype ColumnExpr =
    | NewColumn                              // ::std::vec::Vec::new()
    | ColumnWithCapacity(capacity: Ident)    // ::std::vec::Vec::with_capacity(capacity)
    | ElementRef(column: Place, mutable: bool)  // &self.col[index], &mut self.col[index]
    | RemoveAt(column: Place, f: RemoveFn)   // self.col.remove(index), self.col.swap_remove(index)
    | PopOrReturn(column: Place)             // self.col.pop()?

  /** One initialiser of a struct literal; `key` is the field name for named
      records and absent for positional ones. */
  datatype FieldInit = FieldInit(key: Option<Ident>, expr: ColumnExpr)

  /** Statements of the `push` and `insert` bodies. */
  datatype Stmt =
    | LetRef(binding: Ident, source: Place)   // let <binding> = &value.<source>;
    | LetCopy(binding: Ident, source: Place)  // let <binding> = value.<source>;
    | PushColumn(column: Place)               // self.<col>.push(value.<col>);
    | InsertColumn(column: Place)             // self.<col>.insert(index, value.<col>);

  datatype Body =
    | Construct(path: Ident, wrapSome: bool, inits: Delimited<FieldInit>)  // [Some(] Path <inits> [)]
    | Block(prelude: Run<Stmt>, effects: Run<Stmt>)
    | BorrowColumn(fieldName: Ident, mutable: bool)  // &self.<col>, &mut self.<col>
    | ColumnLen(column: Place)                    // self.<col>.len()
    | LenIsZero                                   // self.len() == 0

  datatype Receiver = NoReceiver | SharedSelf | MutSelf

  datatype Param = Param(name: Ident, ty: Ty)

  datatype Method = Method(inline: bool, vis: Vis, name: Ident, receiver: Receiver, params: seq<Param>, ret: Option<Ty>, body: Body)

  /** An item of an impl block; the unit shape leaves a stray `;` where the
      field accessors would be. */
  datatype ImplItem = Fn(fn: Method) | StraySemi

  datatype ImplBlock = ImplBlock(selfTy: Ident, items: seq<ImplItem>)

  function MethodNames(items: seq<ImplItem>): (r: seq<Ident>)
  {
    if items == [] then []
    else (if items[0].Fn? then [items[0].fn.name] else []) + MethodNames(items[1..])
  }

  lemma {:induction false} MethodNamesAppend(a: seq<ImplItem>, b: seq<ImplItem>)
    ensures MethodNames(a + b) == MethodNames(a) + MethodNames(b)
  {
    if a == [] {
      assert a + b == b;
    } else {
      assert (a + b)[1..] == a[1..] + b;
      MethodNamesAppend(a[1..], b);
    }
  }

  /** In a list of methods only, name `k` is method `k`'s name. */
  lemma {:induction false} MethodNamesOfFns(items: seq<ImplItem>, k: nat)
    requires forall i :: 0 <= i < |items| ==> items[i].Fn?
    requires k < |items|
    ensures |MethodNames(items)| == |items| && MethodNames(items)[k] == items[k].fn.name
  {
    if k > 0 {
      assert items[1..][k - 1] == items[k];
      MethodNamesOfFns(items[1..], k - 1);
    } else if |items| > 1 {
      MethodNamesOfFns(items[1..], 0);
    }
  }

  /** No two methods of a list share a name (a Rust impl block rejects
      duplicate definitions). */
  predicate DistinctMethodNames(items: seq<ImplItem>)
  {
    forall i, k :: 0 <= i < k < |items| && items[i].Fn? && items[k].Fn? ==> items[i].fn.name != items[k].fn.name
  }

  /** Two methods at different places with one name break distinctness. */
  lemma SharedName(items: seq<ImplItem>, i: nat, k: nat)
    requires i < k < |items| && items[i].Fn? && items[k].Fn? && items[i].fn.name == items[k].fn.name
    ensures !DistinctMethodNames(items)
  {
  }

  /** The positions of two pairs followed by one more item. */
  lemma PairsThenOne(a: seq<ImplItem>, b: seq<ImplItem>, x: ImplItem)
    requires |a| == 2 && |b| == 2
    ensures var s := a + b + [x];
            s[0] == a[0] && s[1] == a[1] && s[2] == b[0] && s[3] == b[1] && s[4] == x
  {
  }

  /** Every item is a method. */
  predicate AllFns(items: seq<ImplItem>)
  {
    forall k :: 0 <= k < |items| ==> items[k].Fn?
  }

  lemma AllFnsAppend(a: seq<ImplItem>, b: seq<ImplItem>)
    requires AllFns(a) && AllFns(b)
    ensures AllFns(a + b) && MethodNames(a + b) == MethodNames(a) + MethodNames(b)
  {
    MethodNamesAppend(a, b);
  }

  /** Every method's name is listed. */
  lemma {:induction false} NamesListed(items: seq<ImplItem>)
    ensures forall k :: 0 <= k < |items| && items[k].Fn? ==> items[k].fn.name in MethodNames(items)
  {
    if items != [] {
      NamesListed(items[1..]);
      forall k | 1 <= k < |items| && items[k].Fn? ensures items[k].fn.name in MethodNames(items) {
        assert items[1..][k - 1] == items[k];
      }
    }
  }

  /** No name occurs twice. */
  predicate NoRepeats(names: seq<Ident>)
  {
    forall i, k :: 0 <= i < k < |names| ==> names[i] != names[k]
  }

  /** A list of methods whose names, listed, repeat none and are all
      reserved: every item is a method with a reserved name, and no two share
      one. */
  lemma ListedNamesDistinct(items: seq<ImplItem>, reserved: seq<Ident>)
    requires AllFns(items)
    requires NoRepeats(MethodNames(items))
    requires forall n :: n in MethodNames(items) ==> n in reserved
    ensures forall k :: 0 <= k < |items| ==> items[k].Fn? && items[k].fn.name in reserved
    ensures DistinctMethodNames(items)
  {
    if items != [] {
      MethodNamesOfFns(items, 0);
    }
    forall k | 0 <= k < |items| ensures items[k].fn.name == MethodNames(items)[k] {
      MethodNamesOfFns(items, k);
    }
  }

  /** Methods with distinct names from a reserved list, placed around a run of
      methods whose names are never reserved: the whole list has distinct
      names exactly when the run has. */
  lemma DistinctAround(pre: seq<ImplItem>, mid: seq<ImplItem>, post: seq<ImplItem>, reserved: seq<Ident>)
    requires forall i :: 0 <= i < |pre + post| ==> (pre + post)[i].Fn? && (pre + post)[i].fn.name in reserved
    requires DistinctMethodNames(pre + post)
    requires forall i :: 0 <= i < |mid| && mid[i].Fn? ==> mid[i].fn.name !in reserved
    ensures DistinctMethodNames(pre + mid + post) <==> DistinctMethodNames(mid)
  {
    var all := pre + mid + post;
    if DistinctMethodNames(mid) {
      forall i, k | 0 <= i < k < |all| && all[i].Fn? && all[k].Fn? ensures all[i].fn.name != all[k].fn.name {
        DistinctAroundAt(pre, mid, post, reserved, i, k);
      }
    } else {
      var i, k :| 0 <= i < k < |mid| && mid[i].Fn? && mid[k].Fn? && mid[i].fn.name == mid[k].fn.name;
      assert all[|pre| + i] == mid[i] && all[|pre| + k] == mid[k];
      SharedName(all, |pre| + i, |pre| + k);
    }
  }

  lemma DistinctAroundAt(pre: seq<ImplItem>, mid: seq<ImplItem>, post: seq<ImplItem>, reserved: seq<Ident>, i: nat, k: nat)
    requires forall i :: 0 <= i < |pre + post| ==> (pre + post)[i].Fn? && (pre + post)[i].fn.name in reserved
    requires DistinctMethodNames(pre + post)
    requires forall i :: 0 <= i < |mid| && mid[i].Fn? ==> mid[i].fn.name !in reserved
    requires DistinctMethodNames(mid)
    requires i < k < |pre + mid + post|
    ensures var all := pre + mid + post;
            all[i].Fn? && all[k].Fn? ==> all[i].fn.name != all[k].fn.name
  {
    var all, pp := pre + mid + post, pre + post;
    var a, m := |pre|, |mid|;
    var inMid := (x: nat) => a <= x < a + m;
    var toPP := (x: nat) requires x < |all| && !inMid(x) => if x < a then x else x - m;
    if inMid(i) && inMid(k) {
      assert all[i] == mid[i - a] && all[k] == mid[k - a];
    } else if inMid(i) {
      assert all[k] == pp[toPP(k)] && all[i] == mid[i - a];
    } else if inMid(k) {
      assert all[i] == pp[toPP(i)] && all[k] == mid[k - a];
    } else {
      assert all[i] == pp[toPP(i)] && all[k] == pp[toPP(k)] && toPP(i) < toPP(k);
    }
  }

  /** How field `j` is addressed: by its name, or by its position. */
  function ColumnPlace(f: Fields, j: nat): (r: Place)
    requires j < FieldCount(f)
  {
    match f
    case Named(fs) => FieldName(fs[j].name)
    case Unnamed(_) => FieldIndex(j)
  }

  /** A struct literal with one initialiser per field, in field order: keyed by
      the field's name for named records, unkeyed for positional ones, with
      initialiser `j` computed from how field `j` is addressed. */
  predicate InitsPerField(f: Fields, d: Delimited<FieldInit>, expr: Place -> ColumnExpr)
  {
    && (d.Semi? <==> f.Unit?) && (d.Braces? <==> f.Named?) && (d.Parens? <==> f.Unnamed?)
    && (!d.Semi? ==> d.sep == ",")
    && |DelimitedItems(d)| == FieldCount(f)
    && forall j :: 0 <= j < FieldCount(f) ==> DelimitedItems(d)[j] == FieldInit(FieldIdentAt(f, j), expr(ColumnPlace(f, j)))
  }

  /** A run of one statement per field, in field order. */
  predicate StmtsPerField(f: Fields, r: Run<Stmt>, stmt: Place -> Stmt)
  {
    && (r.BareSemi? <==> f.Unit?)
    && |RunParts(r)| == FieldCount(f)
    && forall j :: 0 <= j < FieldCount(f) ==> RunParts(r)[j] == stmt(ColumnPlace(f, j))
  }

  const UsizeTy := Path("usize")
  const PrimitiveUsizeTy := Path("::core::primitive::usize")
  const SelfTy := Path("Self")
}
