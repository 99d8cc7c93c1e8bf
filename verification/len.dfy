/**
 * `len` and `is_empty`: the length of the container is the length of its
 * first column, and a record without fields gets neither method.
 */
module LenTemplates {
  import opened Syntax
  import opened Parse
  import opened Items
  import opened VecOps
  import opened Semantics

  /** `#[inline] pub fn len(&self) -> usize { self.<first>.len() }`, the first
      field addressed by name, or, corrected, as `self.0` (as written, a
      positional first field makes the derive panic: `LenIsEmptyAsWritten`). */
  function LenMethod(input: Input): (m: Method)
    requires FieldCount(input.fields) > 0
    ensures m.inline && m.vis == Public && m.name == "len"
    ensures m.receiver == SharedSelf && m.params == [] && m.ret == Some(UsizeTy)
    ensures m.body == ColumnLen(ColumnPlace(input.fields, 0))
  {
    var first := match input.fields
      case Named(fs) => FieldName(fs[0].name)
      case Unnamed(_) => FieldIndex(0);
    Method(true, Public, "len", SharedSelf, [], Some(UsizeTy), ColumnLen(first))
  }

  /** `#[inline] pub fn is_empty(&self) -> bool { self.len() == 0 }`. */
  function IsEmptyMethod(): (m: Method)
    ensures m.inline && m.vis == Public && m.name == "is_empty"
    ensures m.receiver == SharedSelf && m.params == [] && m.ret == Some(Path("bool"))
    ensures m.body == LenIsZero
  {
    Method(true, Public, "is_empty", SharedSelf, [], Some(Path("bool")), LenIsZero)
  }

  /** `len_is_empty`: nothing when the record has no field (of any shape),
      otherwise `len` then `is_empty`. */
  function LenIsEmpty(input: Input): (r: seq<ImplItem>)
    ensures AllFns(r)
    ensures FieldCount(input.fields) == 0 ==> r == []
    ensures FieldCount(input.fields) > 0 ==>
              && r == [Fn(LenMethod(input)), Fn(IsEmptyMethod())]
              && MethodNames(r) == ["len", "is_empty"]
  {
    if FieldCount(input.fields) == 0 then []
    else
      var r := [Fn(LenMethod(input)), Fn(IsEmptyMethod())];
      assert r[1..][1..] == [];
      assert MethodNames(r[1..]) == ["is_empty"];
      r
  }

  /** `first_field_token` as written: the first field's identifier. For a
      positional field the literal `0` is parsed as an identifier (the match
      arms share the identifier type); that parse fails and the derive
      panics, which is `None`. */
  function FirstFieldToken(f: Fields): (r: Option<Ident>)
    requires FieldCount(f) > 0
  {
    match f
    case Named(fs) => Some(fs[0].name)
    case Unnamed(_) => None
    case Unit => None
  }

  /** `len_is_empty` as written: nothing for a record without fields, no
      output at all (a panic) when the first field is positional, and
      otherwise the corrected `len` / `is_empty`, which then address the
      first field by name exactly as written. */
  function LenIsEmptyAsWritten(input: Input): (r: Option<seq<ImplItem>>)
    ensures r.None? <==> input.fields.Unnamed? && FieldCount(input.fields) > 0
    ensures r.Some? ==> r.value == LenIsEmpty(input)
  {
    if FieldCount(input.fields) == 0 then Some([])
    else
      match FirstFieldToken(input.fields)
      case None => None
      case Some(first) =>
        Some([Fn(Method(true, Public, "len", SharedSelf, [], Some(UsizeTy), ColumnLen(FieldName(first)))), Fn(IsEmptyMethod())])
  }

  /** `struct P(u8);`: as written the derive panics before any `len` exists;
      the corrected `len` reads `self.0` and counts the records. */
  lemma TupleStructLen(x: int, y: int)
    ensures var input := Input(Public, "P", Unnamed([UnnamedField([], Inherited, Path("u8"))]));
            && LenIsEmptyAsWritten(input) == None
            && RunBody(input.fields, LenMethod(input).body, None, [[x, y]], [x], 0) == Returned(Usize(2), [[x, y]])
  {
    var input := Input(Public, "P", Unnamed([UnnamedField([], Inherited, Path("u8"))]));
    LenCountsRows(input, 2, [[x, y]], [x], 0);
  }

  /** `len` is the length of the first column, and with columns of one
      length `n` it is `n`; `is_empty` holds exactly when that length is 0.
      Neither changes the columns. */
  lemma LenCountsRows<V>(input: Input, n: nat, cols: seq<seq<V>>, row: seq<V>, index: nat)
    requires WellFormedFields(input.fields) && FieldCount(input.fields) > 0
    requires |cols| == FieldCount(input.fields) && |row| == FieldCount(input.fields)
    ensures RunBody(input.fields, LenMethod(input).body, None, cols, row, index) == Returned(Usize(|cols[0]|), cols)
    ensures RunBody(input.fields, IsEmptyMethod().body, Some(LenMethod(input).body), cols, row, index) ==
              Returned(Boolean(|cols[0]| == 0), cols)
    ensures EqualLengths(cols, n) ==>
              RunBody(input.fields, LenMethod(input).body, None, cols, row, index) == Returned(Usize(n), cols)
  {
    ResolveColumnPlace(input.fields, 0);
  }

  /** Without its `len`, `is_empty` would not type-check. */
  lemma IsEmptyNeedsLen<V>(f: Fields, cols: seq<seq<V>>, row: seq<V>, index: nat)
    requires |cols| == FieldCount(f) && |row| == FieldCount(f)
    ensures RunBody(f, IsEmptyMethod().body, None, cols, row, index) == Stuck
  {
  }
}
