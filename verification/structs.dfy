/**
 * `codegen_structs`: the container declaration and the two views, all built
 * from one bundle of names derived from the record's name alone.
 */
module Structs {
  import opened Syntax
  import opened Parse
  import opened Names
  import opened Items
  import VecStruct
  import RefStructs

  datatype StructsOutput = StructsOutput(vec: StructDecl, views: seq<StructDecl>, names: StructNames)

  /** The names are computed once from the record's name; the container and
      both views are generated from that same bundle, which is handed back to
      the caller for the impl block and the hidden module. */
  function CodegenStructs(input: Input, toSnake: Ident -> Ident): (r: StructsOutput)
    ensures r.names == FromStructName(input.name, toSnake)
    ensures r.vec == VecStruct.GenerateStruct(input, r.names)
    ensures r.views == RefStructs.GenerateStructs(input, r.names)
    ensures r.vec.name == "Vec" + input.name
    ensures |r.views| == 2 && r.views[0].name == input.name + "Ref" && r.views[1].name == input.name + "RefMut"
    ensures forall k :: 0 <= k < 2 ==> r.views[k].lifetimes == [Lifetime]
    ensures r.vec.name != r.views[0].name && r.vec.name != r.views[1].name && r.views[0].name != r.views[1].name
  {
    var names := FromStructName(input.name, toSnake);
    StructsOutput(VecStruct.GenerateStruct(input, names), RefStructs.GenerateStructs(input, names), names)
  }

  /** The bundle depends on the record's name only: records with the same name
      get the same names whatever their fields. */
  lemma NamesIgnoreFields(a: Input, b: Input, toSnake: Ident -> Ident)
    requires a.name == b.name
    ensures CodegenStructs(a, toSnake).names == CodegenStructs(b, toSnake).names
  {
  }

  /** The three names the declarations add to the record's scope are
      distinct from each other and from the record's own name. */
  lemma AddedNamesDistinct(input: Input, toSnake: Ident -> Ident)
    ensures var s := CodegenStructs(input, toSnake);
            var visible := [s.vec.name, s.views[0].name, s.views[1].name];
            forall i, k :: 0 <= i < k < 3 ==> visible[i] != visible[k] && visible[i] != input.name
  {
    var s := CodegenStructs(input, toSnake);
    assert PairwiseDistinct(s.names);
  }

  /** The container declares, in order, one vector per field of the record,
      under the field's name and visibility. */
  lemma ContainerMirrorsRecord(input: Input, toSnake: Ident -> Ident)
    requires WellFormedFields(input.fields)
    ensures var items := DelimitedItems(CodegenStructs(input, toSnake).vec.body);
            && |items| == FieldCount(input.fields)
            && forall j :: 0 <= j < |items| ==>
                 items[j].ty == StdVec(FieldTyAt(input.fields, j))
                 && items[j].ident == FieldIdentAt(input.fields, j)
                 && items[j].vis == FieldVisAt(input.fields, j)
  {
  }

  /** The three declarations all mirror the record: the container reads back
      as the record's fields, each view as the same fields without
      attributes. */
  lemma DeclarationsMirrorRecord(input: Input, toSnake: Ident -> Ident)
    ensures var r := CodegenStructs(input, toSnake);
            && VecStruct.ContainerFields(r.vec.body) == Some(input.fields)
            && RefStructs.ViewFields(r.views[0].body, Lifetime, false) == Some(StripAttrs(input.fields))
            && RefStructs.ViewFields(r.views[1].body, Lifetime, true) == Some(StripAttrs(input.fields))
  {
    var names := FromStructName(input.name, toSnake);
    VecStruct.ContainerRoundTrip(input, names);
    RefStructs.ViewRoundTrip(input, names, false);
    RefStructs.ViewRoundTrip(input, names, true);
  }
}
