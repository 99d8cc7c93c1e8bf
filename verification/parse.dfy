/**
 * The normalised input record and the shape-dispatch helpers every generator
 * goes through: one callback for named fields, one for positional fields
 * (which also receives the position), and a fixed output for the unit shape.
 */
module Parse {
  import opened Syntax

  /** The output of `map_fields`: a bare `;` for the unit shape, otherwise the
      callbacks' outputs concatenated with nothing in between. */
  datatype Run<T> = BareSemi | Concat(parts: seq<T>)

  function RunParts<T>(r: Run<T>): (res: seq<T>)
  {
    match r
    case BareSemi => []
    case Concat(ps) => ps
  }

  /** The output of `map_fields_with_delimiters_and_separator`: a bare `;`, or
      the items inside braces (named) or parentheses (positional), each item
      followed by the separator. */
  datatype Delimited<T> = Semi | Braces(items: seq<T>, sep: string) | Parens(items: seq<T>, sep: string)

  function DelimitedItems<T>(d: Delimited<T>): (r: seq<T>)
  {
    match d
    case Semi => []
    case Braces(xs, _) => xs
    case Parens(xs, _) => xs
  }

  /** Token-level view of a delimited list, used to state where separators go. */
  datatype Token<T> = Item(item: T) | Punct(text: string) | Open(open: char) | Close(close: char)

  function Trailing<T>(items: seq<T>, sep: string): (r: seq<Token<T>>)
    ensures |r| == 2 * |items|
    ensures forall k :: 0 <= k < |items| ==> r[2 * k] == Item(items[k]) && r[2 * k + 1] == Punct(sep)
  {
    if items == [] then []
    else
      var rest := Trailing(items[1..], sep);
      assert forall k :: 1 <= k < |items| ==> items[k] == items[1..][k - 1];
      [Item(items[0]), Punct(sep)] + rest
  }

  function Render<T>(d: Delimited<T>): (r: seq<Token<T>>)
  {
    match d
    case Semi => [Punct(";")]
    case Braces(xs, sep) => [Open('{')] + Trailing(xs, sep) + [Close('}')]
    case Parens(xs, sep) => [Open('(')] + Trailing(xs, sep) + [Close(')')]
  }

  /** Every item, the last one included, is followed by the separator, and the
      whole list sits between one opening and one closing delimiter. */
  lemma RenderTrailingSeparator<T>(d: Delimited<T>)
    requires !d.Semi?
    ensures var r := Render(d);
            var n := |DelimitedItems(d)|;
            && |r| == 2 * n + 2
            && r[0] == (if d.Braces? then Open('{') else Open('('))
            && r[|r| - 1] == (if d.Braces? then Close('}') else Close(')'))
            && forall k :: 0 <= k < n ==> r[2 * k + 1] == Item(DelimitedItems(d)[k]) && r[2 * k + 2] == Punct(d.sep)
  {
    var xs := DelimitedItems(d);
    var t := Trailing(xs, d.sep);
    var o, c := if d.Braces? then Open('{') else Open('('), if d.Braces? then Close('}') else Close(')');
    var r := [o] + t + [c];
    assert Render(d) == r;
    forall k | 0 <= k < |xs|
      ensures r[2 * k + 1] == Item(xs[k]) && r[2 * k + 2] == Punct(d.sep)
    {
      WrappedPair(o, t, c, xs[k], d.sep, 2 * k);
    }
  }

  lemma WrappedPair<T>(o: Token<T>, t: seq<Token<T>>, c: Token<T>, x: T, sep: string, i: nat)
    requires i + 1 < |t| && t[i] == Item(x) && t[i + 1] == Punct(sep)
    ensures var r := [o] + t + [c];
            r[i + 1] == Item(x) && r[i + 2] == Punct(sep)
  {
    WrappedAt(o, t, c, i);
    WrappedAt(o, t, c, i + 1);
  }

  lemma WrappedAt<T>(o: T, t: seq<T>, c: T, i: nat)
    requires i < |t|
    ensures ([o] + t + [c])[i + 1] == t[i]
  {
  }

  function Flatten<T>(ss: seq<seq<T>>): (r: seq<T>)
  {
    if ss == [] then [] else ss[0] + Flatten(ss[1..])
  }

  /** When every callback yields exactly one output, the concatenation lists
      them in order. */
  lemma {:induction false} FlattenSingletons<T>(ss: seq<seq<T>>)
    requires forall i :: 0 <= i < |ss| ==> |ss[i]| == 1
    ensures |Flatten(ss)| == |ss|
    ensures forall i :: 0 <= i < |ss| ==> Flatten(ss)[i] == ss[i][0]
  {
    if ss != [] {
      FlattenSingletons(ss[1..]);
      assert forall i :: 1 <= i < |ss| ==> ss[1..][i - 1] == ss[i];
    }
  }

  /** When every callback yields exactly two outputs, output `i` occupies
      positions `2 * i` and `2 * i + 1`. */
  lemma {:induction false} FlattenPairs<T>(ss: seq<seq<T>>)
    requires forall i :: 0 <= i < |ss| ==> |ss[i]| == 2
    ensures |Flatten(ss)| == 2 * |ss|
    ensures forall i :: 0 <= i < |ss| ==> Flatten(ss)[2 * i] == ss[i][0] && Flatten(ss)[2 * i + 1] == ss[i][1]
  {
    if ss != [] {
      FlattenPairs(ss[1..]);
      assert forall i :: 1 <= i < |ss| ==> ss[1..][i - 1] == ss[i];
    }
  }

  /** When every callback yields nothing, neither does the concatenation. */
  lemma {:induction false} FlattenEmpty<T>(ss: seq<seq<T>>)
    requires forall i :: 0 <= i < |ss| ==> ss[i] == []
    ensures Flatten(ss) == []
  {
    if ss != [] {
      FlattenEmpty(ss[1..]);
    }
  }

  /** The record after extraction: its visibility, its name and its fields. */
  datatype Input = Input(vis: Vis, name: Ident, fields: Fields) {

    /** `map_fields`: the unit shape gives a bare `;` and calls neither callback;
        otherwise the callback runs once per field, in declaration order
        (positional fields also receive their 0-based position), and the
        outputs are concatenated. */
    function MapFields<T>(named: NamedField -> seq<T>, unnamed: (UnnamedField, nat) -> seq<T>): (r: Run<T>)
      ensures r.BareSemi? <==> fields.Unit?
    {
      match fields
      case Unit => BareSemi
      case Named(fs) => Concat(Flatten(seq(|fs|, i requires 0 <= i < |fs| => named(fs[i]))))
      case Unnamed(fs) => Concat(Flatten(seq(|fs|, i requires 0 <= i < |fs| => unnamed(fs[i], i))))
    }

    /** `map_fields_with_delimiters_and_separator`: braces around named items,
        parentheses around positional ones, a bare `;` for the unit shape;
        item `j` is the callback's output for field `j`. */
    function MapFieldsWithDelimitersAndSeparator<T>(sep: string, named: NamedField -> T, unnamed: (UnnamedField, nat) -> T): (r: Delimited<T>)
      ensures r.Semi? <==> fields.Unit?
      ensures r.Braces? <==> fields.Named?
      ensures r.Parens? <==> fields.Unnamed?
      ensures !r.Semi? ==> r.sep == sep
      ensures |DelimitedItems(r)| == FieldCount(fields)
      ensures fields.Named? ==> forall j :: 0 <= j < |fields.named| ==> r.items[j] == named(fields.named[j])
      ensures fields.Unnamed? ==> forall j :: 0 <= j < |fields.unnamed| ==> r.items[j] == unnamed(fields.unnamed[j], j)
    {
      match fields
      case Unit => Semi
      case Named(fs) => Braces(seq(|fs|, i requires 0 <= i < |fs| => named(fs[i])), sep)
      case Unnamed(fs) => Parens(seq(|fs|, i requires 0 <= i < |fs| => unnamed(fs[i], i)), sep)
    }

    /** `map_fields_with_delimiters`: the same with a comma separator. */
    function MapFieldsWithDelimiters<T>(named: NamedField -> T, unnamed: (UnnamedField, nat) -> T): (r: Delimited<T>)
      ensures !r.Semi? ==> r.sep == ","
      ensures |DelimitedItems(r)| == FieldCount(fields)
    {
      MapFieldsWithDelimitersAndSeparator(",", named, unnamed)
    }
  }

  /** Single-output callbacks: the run lists one output per field, in order. */
  lemma MapFieldsOnePerField<T>(input: Input, named: NamedField -> seq<T>, unnamed: (UnnamedField, nat) -> seq<T>)
    requires input.fields.Named? ==> forall j :: 0 <= j < |input.fields.named| ==> |named(input.fields.named[j])| == 1
    requires input.fields.Unnamed? ==> forall j :: 0 <= j < |input.fields.unnamed| ==> |unnamed(input.fields.unnamed[j], j)| == 1
    ensures var ps := RunParts(input.MapFields(named, unnamed));
            && |ps| == FieldCount(input.fields)
            && (input.fields.Named? ==> forall j :: 0 <= j < |ps| ==> ps[j] == named(input.fields.named[j])[0])
            && (input.fields.Unnamed? ==> forall j :: 0 <= j < |ps| ==> ps[j] == unnamed(input.fields.unnamed[j], j)[0])
  {
    match input.fields
    case Unit =>
    case Named(fs) =>
      FlattenSingletons(seq(|fs|, i requires 0 <= i < |fs| => named(fs[i])));
    case Unnamed(fs) =>
      FlattenSingletons(seq(|fs|, i requires 0 <= i < |fs| => unnamed(fs[i], i)));
  }

  /** What the host parser hands over: an item that is a struct, an enum or a
      union, with the position of the `enum` / `union` keyword. */
  datatype Data = Struct(fields: Fields) | Enum(enumToken: Span) | Union(unionToken: Span)
  datatype DeriveInput = DeriveInput(attrs: seq<Attr>, vis: Vis, ident: Ident, data: Data)

  /** A compile-time error message anchored at a source location. */
  datatype Diagnostic = Diagnostic(span: Span, message: string)
  datatype Result<T> = Ok(value: T) | Err(error: Diagnostic)

  const OnlyStructs := "only structs are supported"

  /** `from_derive_input`: structs are accepted with visibility, name and fields
      unchanged; enums and unions are refused at their keyword. */
  function FromDeriveInput(d: DeriveInput): (r: Result<Input>)
    ensures r.Ok? <==> d.data.Struct?
    ensures r.Ok? ==> r.value.vis == d.vis && r.value.name == d.ident && r.value.fields == d.data.fields
    ensures d.data.Enum? ==> r == Err(Diagnostic(d.data.enumToken, OnlyStructs))
    ensures d.data.Union? ==> r == Err(Diagnostic(d.data.unionToken, OnlyStructs))
  {
    match d.data
    case Struct(fields) => Ok(Input(d.vis, d.ident, fields))
    case Enum(tok) => Err(Diagnostic(tok, OnlyStructs))
    case Union(tok) => Err(Diagnostic(tok, OnlyStructs))
  }
}
