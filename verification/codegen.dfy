/**
 * `codegen`: the whole expansion of the derive. The container and its impl
 * block are placed in a hidden module and re-exported under the record's
 * visibility; the two views are emitted next to the record.
 */
module Expansion {
  import opened Syntax
  import opened Parse
  import opened Items
  import opened Names
  import Structs
  import MainImplBlock

  /** `<vis> use <module>::<name>;` */
  datatype UseDecl = UseDecl(vis: Vis, path: seq<Ident>)

  /** `[#[doc(hidden)]] mod <name> { [use super::*;] <container> <impl block> }` */
  datatype HiddenModule = HiddenModule(docHidden: bool, name: Ident, importsParent: bool, container: StructDecl, implBlock: ImplBlock)

  /** The three parts of the expansion, in emission order. */
  datatype Output = Output(reexport: UseDecl, views: seq<StructDecl>, hidden: HiddenModule)

  /** `codegen`: one bundle of names serves the declarations, the impl block
      (the live one) and the module. There is no output (the derive panics
      while generating the impl block) for a record whose first field is
      positional. */
  function Codegen(input: Input, toSnake: Ident -> Ident): (r: Option<Output>)
    requires WellFormedFields(input.fields)
    ensures r.None? <==> input.fields.Unnamed? && FieldCount(input.fields) > 0
    ensures r.Some? ==>
              var s := Structs.CodegenStructs(input, toSnake);
              && r.value.views == s.views && r.value.hidden.container == s.vec
              && r.value.hidden.implBlock == MainImplBlock.GenerateImplBlock(input, s.names)
  {
    var s := Structs.CodegenStructs(input, toSnake);
    match MainImplBlock.GenerateImplBlockAsWritten(input, s.names)
    case None => None
    case Some(block) =>
      Some(Output(UseDecl(input.vis, [s.names.hiddenModule, s.names.vec]), s.views,
        HiddenModule(true, s.names.hiddenModule, true, s.vec, block)))
  }

  /** The pieces fit together: the re-export names the hidden module and the
      container declared inside it, under the record's visibility; the impl
      block is for that container; the module is `__hidden_vec_` plus the
      snake-cased record name; and the three names the expansion adds to the
      record's scope (container, shared view, mutable view) are distinct from
      each other and from the record. */
  lemma ExpansionIsConsistent(input: Input, toSnake: Ident -> Ident)
    requires WellFormedFields(input.fields)
    ensures Codegen(input, toSnake).Some? ==>
            var r := Codegen(input, toSnake).value;
            && r.reexport.vis == input.vis
            && r.reexport.path == [r.hidden.name, r.hidden.container.name]
            && r.hidden.docHidden && r.hidden.importsParent
            && r.hidden.name == HiddenPrefix + toSnake(input.name)
            && r.hidden.implBlock.selfTy == r.hidden.container.name == "Vec" + input.name
            && |r.views| == 2
            && r.views[0].name == input.name + "Ref" && r.views[1].name == input.name + "RefMut"
            && var visible := [r.hidden.container.name, r.views[0].name, r.views[1].name];
               forall i, k :: 0 <= i < k < 3 ==> visible[i] != visible[k] && visible[i] != input.name
  {
    if Codegen(input, toSnake).Some? {
      ModuleIsConsistent(input, toSnake);
      Structs.AddedNamesDistinct(input, toSnake);
    }
  }

  lemma ModuleIsConsistent(input: Input, toSnake: Ident -> Ident)
    requires WellFormedFields(input.fields) && Codegen(input, toSnake).Some?
    ensures var r, s := Codegen(input, toSnake).value, Structs.CodegenStructs(input, toSnake);
            && r.reexport.vis == input.vis
            && r.reexport.path == [r.hidden.name, r.hidden.container.name]
            && r.hidden.docHidden && r.hidden.importsParent
            && r.hidden.name == HiddenPrefix + toSnake(input.name)
            && r.hidden.implBlock.selfTy == r.hidden.container.name == "Vec" + input.name
            && r.views == s.views && r.hidden.container == s.vec
  {
  }

  /** Everything the expansion declares mirrors the record: the container
      holds the record's fields with vector types, each view the same fields
      without attributes, in the same shape, count and order. */
  lemma ExpansionMirrorsRecord(input: Input, toSnake: Ident -> Ident)
    requires WellFormedFields(input.fields)
    ensures Codegen(input, toSnake).Some? ==>
            var items := DelimitedItems(Codegen(input, toSnake).value.hidden.container.body);
            && |items| == FieldCount(input.fields)
            && forall j :: 0 <= j < |items| ==>
                 items[j].ty == StdVec(FieldTyAt(input.fields, j))
                 && items[j].ident == FieldIdentAt(input.fields, j)
                 && items[j].vis == FieldVisAt(input.fields, j)
  {
    Structs.ContainerMirrorsRecord(input, toSnake);
  }
}
