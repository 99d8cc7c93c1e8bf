/**
 * The container struct: one `Vec` column per field of the record.
 */
module VecStruct {
  import opened Syntax
  import opened Parse
  import opened Names
  import opened Items

  /** `map_type`: T becomes ::std::vec::Vec<T>. */
  function MapType(ty: Ty): (r: Ty)
  {
    StdVec(ty)
  }

  /** `map_field`: the field with only its type replaced. */
  function MapField(f: FieldDecl): (r: FieldDecl)
    ensures r.attrs == f.attrs && r.vis == f.vis && r.ident == f.ident
    ensures r.ty.StdVec? && r.ty.elem == f.ty
  {
    f.(ty := MapType(f.ty))
  }

  /** `generate_struct`: `pub struct <vec name>` with field `j` being field `j`
      of the record with its type wrapped in a vector; both shapes go through
      the same `MapField`, so shape, count and order carry over. */
  function GenerateStruct(input: Input, names: StructNames): (r: StructDecl)
    ensures r.vis == Public && r.name == names.vec && r.lifetimes == []
    ensures r.body.Semi? <==> input.fields.Unit?
    ensures r.body.Braces? <==> input.fields.Named?
    ensures r.body.Parens? <==> input.fields.Unnamed?
    ensures |DelimitedItems(r.body)| == FieldCount(input.fields)
    ensures forall j :: 0 <= j < FieldCount(input.fields) ==>
              DelimitedItems(r.body)[j] == FieldDeclAt(input.fields, j).(ty := StdVec(FieldTyAt(input.fields, j)))
  {
    StructDecl(Public, names.vec, [],
      input.MapFieldsWithDelimiters(f => MapField(AsNamedDecl(f)), (f, _) => MapField(AsUnnamedDecl(f))))
  }

  /** Reads a container body back as the record's fields: every field must be a
      vector, named inside braces and unnamed inside parentheses. */
  function ContainerFields(d: Delimited<FieldDecl>): (r: Option<Fields>)
  {
    match d
    case Semi => Some(Unit)
    case Braces(xs, _) =>
      if forall i :: 0 <= i < |xs| ==> xs[i].ident.Some? && xs[i].ty.StdVec? then
        Some(Named(seq(|xs|, i requires 0 <= i < |xs| && xs[i].ident.Some? && xs[i].ty.StdVec? =>
          NamedField(xs[i].attrs, xs[i].vis, xs[i].ident.value, xs[i].ty.elem))))
      else None
    case Parens(xs, _) =>
      if forall i :: 0 <= i < |xs| ==> xs[i].ident.None? && xs[i].ty.StdVec? then
        Some(Unnamed(seq(|xs|, i requires 0 <= i < |xs| && xs[i].ty.StdVec? =>
          UnnamedField(xs[i].attrs, xs[i].vis, xs[i].ty.elem))))
      else None
  }

  /** The container declares exactly the record's fields: reading its body
      back gives the input fields, attributes, visibilities, names, types,
      order and shape included. */
  lemma ContainerRoundTrip(input: Input, names: StructNames)
    ensures ContainerFields(GenerateStruct(input, names).body) == Some(input.fields)
  {
    var d := GenerateStruct(input, names).body;
    match input.fields
    case Unit =>
    case Named(fs) =>
      var back := seq(|fs|, i requires 0 <= i < |fs| && d.items[i].ident.Some? && d.items[i].ty.StdVec? =>
        NamedField(d.items[i].attrs, d.items[i].vis, d.items[i].ident.value, d.items[i].ty.elem));
      assert forall i :: 0 <= i < |fs| ==> d.items[i] == FieldDecl(fs[i].attrs, fs[i].vis, Some(fs[i].name), StdVec(fs[i].ty));
      assert back == fs;
    case Unnamed(fs) =>
      var back := seq(|fs|, i requires 0 <= i < |fs| && d.items[i].ty.StdVec? =>
        UnnamedField(d.items[i].attrs, d.items[i].vis, d.items[i].ty.elem));
      assert forall i :: 0 <= i < |fs| ==> d.items[i] == FieldDecl(fs[i].attrs, fs[i].vis, None, StdVec(fs[i].ty));
      assert back == fs;
  }
}
