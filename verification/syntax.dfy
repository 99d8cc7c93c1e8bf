/**
 * The structural vocabulary shared by every stage: identifiers, visibilities,
 * types, and the fields of the record the derive is applied to. Types and
 * attributes are opaque to the generator; it only wraps types and copies
 * attributes, so they are kept as text.
 */
module Syntax {

  type Ident = string
  type Attr = string

  /** A source location, used only to anchor diagnostics. */
  type Span = nat

  datatype Option<+T> = None | Some(value: T)

  /** `pub`, `pub(crate)` / `pub(super)` / `pub(in path)`, or nothing at all. */
  datatype Vis = Inherited | Public | Restricted(path: string)

  /** Field and return types. Input types are opaque paths; the generator only
      builds vectors, references, slices and options around them. */
  datatype Ty =
    | Path(text: string)
    | StdVec(elem: Ty)                                          // ::std::vec::Vec<T>
    | Reference(lifetime: Option<Ident>, mutable: bool, referent: Ty)  // &'a T, &'a mut T, &[T]
    | Slice(elem: Ty)                                           // [T]
    | OptionOf(inner: Ty)                                       // Option<T>

  datatype NamedField = NamedField(attrs: seq<Attr>, vis: Vis, name: Ident, ty: Ty)
  datatype UnnamedField = UnnamedField(attrs: seq<Attr>, vis: Vis, ty: Ty)

  /** The three shapes a record can have. */
  datatype Fields = Unit | Named(named: seq<NamedField>) | Unnamed(unnamed: seq<UnnamedField>)

  function FieldCount(f: Fields): (r: nat)
  {
    match f
    case Unit => 0
    case Named(fs) => |fs|
    case Unnamed(fs) => |fs|
  }

  predicate UniqueNames(fs: seq<NamedField>)
  {
    forall i, k :: 0 <= i < k < |fs| ==> fs[i].name != fs[k].name
  }

  /** What the host parser guarantees of a record: identifiers are non-empty and
      named fields have distinct names. */
  predicate WellFormedFields(f: Fields)
  {
    match f
    case Unit => true
    case Named(fs) => UniqueNames(fs) && forall i :: 0 <= i < |fs| ==> fs[i].name != ""
    case Unnamed(_) => true
  }

  /** A field as written in a generated struct declaration: named fields carry
      their identifier, positional ones none. */
  datatype FieldDecl = FieldDecl(attrs: seq<Attr>, vis: Vis, ident: Option<Ident>, ty: Ty)

  function AsNamedDecl(f: NamedField): (r: FieldDecl)
  {
    FieldDecl(f.attrs, f.vis, Some(f.name), f.ty)
  }

  function AsUnnamedDecl(f: UnnamedField): (r: FieldDecl)
  {
    FieldDecl(f.attrs, f.vis, None, f.ty)
  }

  /** The visibility, identifier and type of field `j`, whatever the shape. */
  function FieldVisAt(f: Fields, j: nat): (r: Vis)
    requires j < FieldCount(f)
  {
    match f
    case Named(fs) => fs[j].vis
    case Unnamed(fs) => fs[j].vis
  }

  function FieldTyAt(f: Fields, j: nat): (r: Ty)
    requires j < FieldCount(f)
  {
    match f
    case Named(fs) => fs[j].ty
    case Unnamed(fs) => fs[j].ty
  }

  function FieldIdentAt(f: Fields, j: nat): (r: Option<Ident>)
    requires j < FieldCount(f)
  {
    match f
    case Named(fs) => Some(fs[j].name)
    case Unnamed(_) => None
  }

  /** Field `j` as it would be written in a struct declaration. */
  function FieldDeclAt(f: Fields, j: nat): (r: FieldDecl)
    requires j < FieldCount(f)
  {
    match f
    case Named(fs) => AsNamedDecl(fs[j])
    case Unnamed(fs) => AsUnnamedDecl(fs[j])
  }

  /** The same fields with their attributes dropped. */
  function StripAttrs(f: Fields): (r: Fields)
  {
    match f
    case Unit => Unit
    case Named(fs) => Named(seq(|fs|, i requires 0 <= i < |fs| => fs[i].(attrs := [])))
    case Unnamed(fs) => Unnamed(seq(|fs|, i requires 0 <= i < |fs| => fs[i].(attrs := [])))
  }
}
