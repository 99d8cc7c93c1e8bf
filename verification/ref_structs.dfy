/**
 * The two borrowing views of one row: `<Name>Ref<'a>` with shared references
 * and `<Name>RefMut<'a>` with mutable ones.
 */
module RefStructs {
  import opened Syntax
  import opened Parse
  import opened Names
  import opened Items

  /** `generate`: `pub struct <view name><'a>` whose field `j` keeps the
      visibility and name (or position) of field `j` and has type `&'a T` or
      `&'a mut T`. Attributes are not carried over. */
  function Generate(input: Input, names: StructNames, mutable: bool): (r: StructDecl)
    ensures r.vis == Public
    ensures r.name == if mutable then names.mutRef else names.sharedRef
    ensures r.lifetimes == [names.lifetime]
    ensures r.body.Semi? <==> input.fields.Unit?
    ensures r.body.Braces? <==> input.fields.Named?
    ensures r.body.Parens? <==> input.fields.Unnamed?
    ensures |DelimitedItems(r.body)| == FieldCount(input.fields)
    ensures forall j :: 0 <= j < FieldCount(input.fields) ==>
              DelimitedItems(r.body)[j] ==
                FieldDecl([], FieldVisAt(input.fields, j), FieldIdentAt(input.fields, j),
                          Reference(Some(names.lifetime), mutable, FieldTyAt(input.fields, j)))
  {
    var lt := names.lifetime;
    var fields := input.MapFieldsWithDelimiters(
      (f: NamedField) => FieldDecl([], f.vis, Some(f.name), Reference(Some(lt), mutable, f.ty)),
      (f: UnnamedField, _: nat) => FieldDecl([], f.vis, None, Reference(Some(lt), mutable, f.ty)));
    StructDecl(Public, if mutable then names.mutRef else names.sharedRef, [lt], fields)
  }

  /** `generate_structs`: exactly two views, the shared one first. */
  function GenerateStructs(input: Input, names: StructNames): (r: seq<StructDecl>)
    ensures |r| == 2
    ensures r[0].name == names.sharedRef && r[1].name == names.mutRef
    ensures forall k :: 0 <= k < 2 ==> forall i :: 0 <= i < |DelimitedItems(r[k].body)| ==>
              DelimitedItems(r[k].body)[i].ty.Reference? && DelimitedItems(r[k].body)[i].ty.mutable == (k == 1)
  {
    [Generate(input, names, false), Generate(input, names, true)]
  }

  /** Reads a view body back as fields: every field must be a reference with
      lifetime `lt` and the given mutability. */
  function ViewFields(d: Delimited<FieldDecl>, lt: Ident, mutable: bool): (r: Option<Fields>)
  {
    match d
    case Semi => Some(Unit)
    case Braces(xs, _) =>
      if forall i :: 0 <= i < |xs| ==> xs[i].ident.Some? && xs[i].ty.Reference? && xs[i].ty.lifetime == Some(lt) && xs[i].ty.mutable == mutable then
        Some(Named(seq(|xs|, i requires 0 <= i < |xs| && xs[i].ident.Some? && xs[i].ty.Reference? =>
          NamedField(xs[i].attrs, xs[i].vis, xs[i].ident.value, xs[i].ty.referent))))
      else None
    case Parens(xs, _) =>
      if forall i :: 0 <= i < |xs| ==> xs[i].ident.None? && xs[i].ty.Reference? && xs[i].ty.lifetime == Some(lt) && xs[i].ty.mutable == mutable then
        Some(Unnamed(seq(|xs|, i requires 0 <= i < |xs| && xs[i].ty.Reference? =>
          UnnamedField(xs[i].attrs, xs[i].vis, xs[i].ty.referent))))
      else None
  }

  /** Each view mirrors the record: reading it back gives the input fields
      (without attributes), in the same order and shape, every one borrowed
      with the bundle's lifetime. */
  lemma ViewRoundTrip(input: Input, names: StructNames, mutable: bool)
    ensures ViewFields(Generate(input, names, mutable).body, names.lifetime, mutable) == Some(StripAttrs(input.fields))
  {
    var d := Generate(input, names, mutable).body;
    var lt := names.lifetime;
    match input.fields
    case Unit =>
    case Named(fs) =>
      assert forall i :: 0 <= i < |fs| ==> d.items[i] == FieldDecl([], fs[i].vis, Some(fs[i].name), Reference(Some(lt), mutable, fs[i].ty));
      var back := seq(|fs|, i requires 0 <= i < |fs| && d.items[i].ident.Some? && d.items[i].ty.Reference? =>
        NamedField(d.items[i].attrs, d.items[i].vis, d.items[i].ident.value, d.items[i].ty.referent));
      assert back == StripAttrs(input.fields).named;
    case Unnamed(fs) =>
      assert forall i :: 0 <= i < |fs| ==> d.items[i] == FieldDecl([], fs[i].vis, None, Reference(Some(lt), mutable, fs[i].ty));
      var back := seq(|fs|, i requires 0 <= i < |fs| && d.items[i].ty.Reference? =>
        UnnamedField(d.items[i].attrs, d.items[i].vis, d.items[i].ty.referent));
      assert back == StripAttrs(input.fields).unnamed;
  }

  /** Whether the lifetime `lt` occurs in a type. */
  function MentionsLifetime(ty: Ty, lt: Ident): (r: bool)
  {
    match ty
    case Path(_) => false
    case StdVec(e) => MentionsLifetime(e, lt)
    case Reference(l, _, e) => l == Some(lt) || MentionsLifetime(e, lt)
    case Slice(e) => MentionsLifetime(e, lt)
    case OptionOf(e) => MentionsLifetime(e, lt)
  }

  /** The declared lifetime is used by some field exactly when the record has
      fields: a zero-field record yields views whose lifetime parameter no
      field uses. */
  lemma LifetimeUsedIffFields(input: Input, names: StructNames, mutable: bool)
    ensures var d := Generate(input, names, mutable);
            (exists i :: 0 <= i < |DelimitedItems(d.body)| && MentionsLifetime(DelimitedItems(d.body)[i].ty, names.lifetime))
              <==> FieldCount(input.fields) > 0
  {
    var d := Generate(input, names, mutable);
    if FieldCount(input.fields) > 0 {
      assert MentionsLifetime(DelimitedItems(d.body)[0].ty, names.lifetime);
    }
  }
}
