# sov — struct-of-vectors derive, modelled in Dafny

`sov` provides `#[derive(StructOfVecs)]`. For a record `Foo` it emits:

- a container `VecFoo` that holds one `Vec` per field;
- two borrowed views, `FooRef<'a>` and `FooRefMut<'a>`, with one reference per field;
- an impl block on `VecFoo` with `new`, `with_capacity`, `get`, `get_mut`, `push`, the per-field slice accessors `xs()` / `xs_mut()`, and `len` / `is_empty`.

The container and its impl block live in a `#[doc(hidden)]` module named `__hidden_vec_<snake name>`. That module is re-exported under the record's visibility.

The model has two layers.

1. **The generator.** Each template is a pure function from a structural description of the record to a structural description of the emitted items.
   - `Syntax`, `Parse`, `Names`, `VecStruct`, `RefStructs` and `Structs` model the record and the declarations.
   - `Items` describes impl blocks. `ConstructorTemplates`, `GetTemplates`, `InsertTemplates`, `LenTemplates` and `RemoveTemplates` are the method templates.
   - `MainImplBlock` assembles the live block and `Expansion` the whole output.
   - `Semantics` interprets an emitted method body on a list of columns. The template lemmas use it to prove what each emitted method does.
   - The crate also contains a second, fuller template set under `src/codegen/impl_block/`. It adds `insert`, `remove`, `swap_remove` and `pop`. `src/codegen/mod.rs` does not declare that module, so it is never compiled. `FullImplBlock` models it anyway and proves where it agrees with the live block.
2. **The container at run time.** `Container.ColumnVec` is a class.
   - The field `cols` holds the columns. The ghost field `rows` holds the records they stand for.
   - The invariant says `cols` is the transpose of `rows`.
   - Every method is proved to change `rows` exactly as the matching `Vec<Foo>` method would (`VecOps`), and `cols` column by column.
   - `Scenarios` replays the crate's documentation example and its summing benchmark against the class.

For a record whose first field is positional (`struct P(u8);`), the `len` template fails and the derive produces nothing. The model records that as-written behaviour (`Expansion.Codegen` returns no output) and uses the corrected `len`, which reads `self.0`, everywhere else (see Findings).

Only the generated code panics on an out-of-bounds index. The template layer models that panic (`Panicked`). In the class it becomes a precondition.

## Model

| member | source | states |
|---|---|---|
| Util.NthField | src/util.rs:4-6 | `field<n>` is `field` followed by decimal digits |
| Util.NthFieldInjective | src/util.rs:4-6 | distinct positions get distinct prelude names |
| Util.DecimalRoundTrip | src/util.rs:4-6 | the decimal rendering used by `field<n>` reads back as `n` |
| Util.Pluralize | src/util.rs:9-14 | the identifier plus `es` when it ends in `s`, otherwise plus `s`; the result ends in `s` and extends the input |
| Util.PluralizeCollision | src/util.rs:9-14 | two different names pluralize alike exactly when one is the other plus `e` and the shorter ends in `s` |
| Util.PluralizeNotInjective | src/util.rs:9-14 | `bus` and `buse` both become `buses` |
| Parse.Input.MapFields | src/parse/mod.rs:12-32 | the unit shape gives a bare `;` and nothing else |
| Parse.MapFieldsOnePerField | src/parse/mod.rs:12-32 | with one output per callback, the parts are one per field, in declaration order, positional fields with their index |
| Parse.Input.MapFieldsWithDelimitersAndSeparator | src/parse/mod.rs:33-54 | `;` for unit, braces for named and parentheses for positional fields; one item per field, in order, and the given separator |
| Parse.Input.MapFieldsWithDelimiters | src/parse/mod.rs:56-62 | the separator is `,` and there is one item per field |
| Parse.RenderTrailingSeparator | src/parse/mod.rs:33-54 | rendered, every item is followed by the separator, the last one included, between one opening and one closing delimiter |
| Parse.FromDeriveInput | src/parse/mod.rs:66-82 | succeeds exactly for structs and keeps visibility, name and fields; enums and unions fail with "only structs are supported" at their keyword |
| Names.FromStructName | src/codegen/structs/mod.rs:21-34 | names `Vec<N>`, `<N>Ref`, `<N>RefMut` and `__hidden_vec_` plus the snake-cased name, lifetime `'a`; the three type names are pairwise distinct |
| Names.VecNameIsNotRefName | src/codegen/structs/mod.rs:21-34 | `Vec<N>` never equals `<N>Ref`, for any `N` |
| VecStruct.MapField | src/codegen/structs/vec.rs:21-28 | keeps attributes, visibility and name and wraps the type in `::std::vec::Vec` |
| VecStruct.GenerateStruct | src/codegen/structs/vec.rs:9-19 | `pub struct Vec<N>` with the record's shape and, field by field, the field with a vector type |
| VecStruct.ContainerRoundTrip | src/codegen/structs/vec.rs:9-32 | reading the container declaration back gives exactly the record's fields |
| RefStructs.Generate | src/codegen/structs/ref_and_ref_mut.rs:17-49 | `pub struct <N>Ref<'a>` / `<N>RefMut<'a>` with the record's shape; field `j` is a `&'a` / `&'a mut` reference to field `j`'s type, without attributes |
| RefStructs.GenerateStructs | src/codegen/structs/ref_and_ref_mut.rs:7-15 | exactly two views, the shared one first |
| RefStructs.ViewRoundTrip | src/codegen/structs/ref_and_ref_mut.rs:17-49 | reading a view back gives the record's fields without attributes |
| RefStructs.LifetimeUsedIffFields | src/codegen/structs/ref_and_ref_mut.rs:17-49 | the view's lifetime is used by some field exactly when the record has a field |
| Structs.CodegenStructs | src/codegen/structs/mod.rs:37-45 | one bundle of names serves the container and both views; the three declared names are distinct |
| Structs.NamesIgnoreFields | src/codegen/structs/mod.rs:37-45 | the names depend only on the record's name |
| Structs.DeclarationsMirrorRecord | src/codegen/structs/mod.rs:37-45 | the container and both views read back to the record's fields |
| ConstructorTemplates.GenNew | src/codegen/main_impl_block.rs:33-48 | `#[inline] pub fn new() -> Self` whose field `j` is `Vec::new()` |
| ConstructorTemplates.GenWithCapacity | src/codegen/main_impl_block.rs:50-65 | `with_capacity(capacity: usize) -> Self` whose field `j` is `Vec::with_capacity(capacity)` |
| ConstructorTemplates.Codegen | src/codegen/impl_block/constructors.rs:3-11 | emits `new` then `with_capacity` |
| ConstructorTemplates.NewBuildsEmptyColumns | src/codegen/main_impl_block.rs:33-48 | `new` builds one empty column per field; for a unit record it does not type-check |
| ConstructorTemplates.WithCapacityBuildsEmptyColumns | src/codegen/main_impl_block.rs:50-65 | `with_capacity` builds the same container as `new` |
| GetTemplates.GetImpl | src/codegen/main_impl_block.rs:68-99 | `get(&self, index)` returns the shared view and `get_mut(&mut self, index)` the mutable one; field `j` borrows `self.<col j>[index]` |
| GetTemplates.Get | src/codegen/main_impl_block.rs:101-107 | emits `get` then `get_mut` |
| GetTemplates.GetReadsRow | src/codegen/main_impl_block.rs:84-97 | with `index` inside every column, `get` / `get_mut` return the record at `index` and change nothing |
| GetTemplates.GetOutOfBoundsPanics | src/codegen/main_impl_block.rs:84-97 | an index past the first column panics |
| GetTemplates.MapVis | src/codegen/main_impl_block.rs:153-158 | a private field's accessor becomes `pub(super)`; any other visibility is kept |
| GetTemplates.Accessor | src/codegen/main_impl_block.rs:160-177 | `<plural>(&self) -> &[T]` and `<plural>_mut(&mut self) -> &mut [T]`, not inline, borrowing the field's column |
| GetTemplates.FieldAccessors | src/codegen/main_impl_block.rs:149-180 | two accessors per named field, in order; none for positional fields; a stray `;` for a unit record |
| GetTemplates.AccessorsAvoidFixedNames | src/codegen/main_impl_block.rs:160-177 | no accessor can be named like a fixed method (`new`, `get`, `push`, `len`, …) |
| GetTemplates.AccessorClash | src/codegen/main_impl_block.rs:160-177 | two fields' accessors share a name exactly when their plurals coincide and both are shared or both mutable |
| GetTemplates.AccessorsDistinct | src/codegen/main_impl_block.rs:149-180 | the accessor names are distinct exactly when the fields' plurals are |
| GetTemplates.AccessorBorrowsColumn | src/codegen/main_impl_block.rs:168-175 | the accessor of field `j` returns column `j` as a slice |
| InsertTemplates.AssignmentsAsWritten | src/codegen/main_impl_block.rs:115-124 | one `let` per field: a named field under its own name, positional field `i` as `field<i>` |
| InsertTemplates.Assignments | src/codegen/impl_block/insert.rs:69-82 | the prelude with bindings that never capture `value` or `index` |
| InsertTemplates.PushFields | src/codegen/main_impl_block.rs:126-138 | one `self.<col>.push(value.<field>)` per field, in order |
| InsertTemplates.InsertFields | src/codegen/impl_block/insert.rs:16-28 | one `self.<col>.insert(index, value.<field>)` per field, in order |
| InsertTemplates.PushWith | src/codegen/main_impl_block.rs:140-146 | `#[inline] pub fn push(&mut self, value: N)`: the prelude, then the pushes |
| InsertTemplates.InsertWith | src/codegen/impl_block/insert.rs:30-36 | `#[inline] pub fn insert(&mut self, index: usize, value: N)`: the prelude, then the inserts |
| InsertTemplates.Codegen | src/codegen/impl_block/insert.rs:3-11 | emits `push` then `insert`, both with the prelude as written |
| InsertTemplates.PreludeAsWritten | src/codegen/main_impl_block.rs:115-124 | each `let` reads its own field, and the prelude binds `value` / `index` exactly when a field has that name |
| InsertTemplates.PreludeCorrected | src/codegen/impl_block/insert.rs:69-82 | each corrected `let` reads its own field and binds neither `value` nor `index` |
| InsertTemplates.PushAppendsRow | src/codegen/main_impl_block.rs:110-147 | `push(value)` appends field `j` of `value` to column `j` for every field |
| InsertTemplates.InsertShiftsRow | src/codegen/impl_block/insert.rs:13-37 | with `index` at most every column's length, `insert` inserts field `j` at `index` in column `j` |
| InsertTemplates.InsertPastEndPanics | src/codegen/impl_block/insert.rs:13-37 | an index past the end of the first column panics |
| InsertTemplates.PushAsWrittenShadows | src/codegen/main_impl_block.rs:115-124 | `push` as written fails to type-check exactly when a field is named `value`, and otherwise equals the corrected `push` |
| InsertTemplates.InsertAsWrittenShadows | src/codegen/impl_block/insert.rs:69-82 | `insert` as written fails to type-check when a field is named `value` or `index`, and otherwise equals the corrected `insert` |
| InsertTemplates.WrapperWithValueField | src/codegen/main_impl_block.rs:115-119 | for `struct Wrapper { value: u8 }` the as-written `push` is stuck and the corrected one appends |
| LenTemplates.LenMethod | src/codegen/main_impl_block.rs:182-196 | `len(&self) -> usize` is the length of the first field's column, read by its name; for a positional first field the corrected `self.0` (as written no `len` is produced, see `LenTemplates.LenIsEmptyAsWritten`) |
| LenTemplates.IsEmptyMethod | src/codegen/main_impl_block.rs:198-201 | `is_empty(&self) -> bool` is `self.len() == 0` |
| LenTemplates.LenIsEmpty | src/codegen/main_impl_block.rs:182-203 | corrected: nothing for a record without fields, otherwise `len` then `is_empty` |
| LenTemplates.LenIsEmptyAsWritten | src/codegen/main_impl_block.rs:182-203 | as written: fails exactly when the first field is positional (the literal `0` is not an identifier), and otherwise gives the same items as `LenIsEmpty` |
| LenTemplates.TupleStructLen | src/codegen/main_impl_block.rs:187-190 | for `struct P(u8);` the as-written template fails, while the corrected `len` reads `self.0` and returns the row count |
| LenTemplates.LenCountsRows | src/codegen/main_impl_block.rs:192-202 | `len` is the first column's length, `n` when all columns have length `n`; `is_empty` holds exactly when it is 0 |
| LenTemplates.IsEmptyNeedsLen | src/codegen/main_impl_block.rs:198-201 | `is_empty` cannot run without `len` |
| RemoveTemplates.RemoveImpl | src/codegen/impl_block/remove.rs:43-67 | `remove` / `swap_remove(&mut self, index: usize) -> N`, not inline, building the record from each column's removed element |
| RemoveTemplates.Pop | src/codegen/impl_block/remove.rs:18-41 | `pop(&mut self) -> Option<N>` wrapping in `Some` the record built from each column's `pop()?` |
| RemoveTemplates.Codegen | src/codegen/impl_block/remove.rs:5-16 | emits `remove`, `swap_remove`, `pop` |
| RemoveTemplates.RemoveTakesRow | src/codegen/impl_block/remove.rs:43-67 | with `index` inside every column, the result is the record at `index` and every column loses that element |
| RemoveTemplates.RemoveOutOfBoundsPanics | src/codegen/impl_block/remove.rs:43-67 | an index past the first column panics |
| RemoveTemplates.PopTakesLast | src/codegen/impl_block/remove.rs:18-41 | with all columns non-empty, `Some` of the last record, and every column loses its last element |
| RemoveTemplates.PopStopsAtEmptyColumn | src/codegen/impl_block/remove.rs:18-41 | the first empty column returns `None`, keeping the pops already done; with equal lengths nothing changes |
| MainImplBlock.Leading | src/codegen/main_impl_block.rs:12-26 | `new`, `with_capacity`, `get`, `get_mut`, `push` (with its prelude as written), in this order |
| MainImplBlock.GenerateImplBlock | src/codegen/main_impl_block.rs:12-31 | corrected: `impl Vec<N>` whose method names are the five leading ones, then the accessors, then `len` / `is_empty` when there is a field |
| MainImplBlock.GenerateImplBlockAsWritten | src/codegen/main_impl_block.rs:12-31 | the block as written: no block exactly when the first field is positional, otherwise the corrected block |
| MainImplBlock.MethodNamesDistinct | src/codegen/main_impl_block.rs:12-31 | the block's method names are distinct exactly when no two named fields pluralize alike |
| MainImplBlock.DispatchLeading | src/codegen/main_impl_block.rs:12-31 | calling `new`, `with_capacity`, `get`, `get_mut` or `push` runs that template; `push` is the one as written |
| MainImplBlock.DispatchLen | src/codegen/main_impl_block.rs:182-203 | `len` and `is_empty` exist exactly when the record has a field |
| MainImplBlock.DispatchMissing | src/codegen/main_impl_block.rs:21-30 | `insert`, `remove`, `swap_remove` and `pop` are not in the live block |
| MainImplBlock.AccessorDispatch | src/codegen/main_impl_block.rs:149-180 | without a plural clash, calling a field's accessor returns its column |
| MainImplBlock.LiveConstructorsAndPush | src/codegen/main_impl_block.rs:12-31 | on the emitted type, `new` / `with_capacity` build empty columns; `push` does not type-check when a field is named `value`, and otherwise appends the record |
| MainImplBlock.LiveReads | src/codegen/main_impl_block.rs:12-31 | on columns of length `n`: `get` / `get_mut` read row `index` or panic past `n`; `len` is `n`; `is_empty` is `n == 0` |
| MainImplBlock.LiveLacksRemoval | src/codegen/main_impl_block.rs:21-30 | calling `insert`, `remove`, `swap_remove` or `pop` on the emitted type does not type-check |
| FullImplBlock.Leading | src/codegen/impl_block/mod.rs:20-30 | the constructors, then `get`, `get_mut` |
| FullImplBlock.Trailing | src/codegen/impl_block/mod.rs:21-34 | `push` and `insert` as written, `len` / `is_empty` when there is a field, then `remove`, `swap_remove`, `pop` |
| FullImplBlock.GenerateImplBlock | src/codegen/impl_block/mod.rs:17-36 | corrected: `impl Vec<N>` with the constructors, getters, accessors, insertion, length and removal methods, in that order |
| FullImplBlock.GenerateImplBlockAsWritten | src/codegen/impl_block/mod.rs:17-36 | the full block as written: no block exactly when the first field is positional, otherwise the corrected block |
| FullImplBlock.MethodNamesDistinct | src/codegen/impl_block/mod.rs:17-36 | the names are distinct exactly when no two named fields pluralize alike |
| FullImplBlock.DispatchMutators | src/codegen/impl_block/mod.rs:17-36 | `push`, `insert`, `remove`, `swap_remove` and `pop` run their templates, `push` and `insert` as written |
| FullImplBlock.DispatchLen | src/codegen/impl_block/mod.rs:42-63 | `len` and `is_empty` exist exactly when the record has a field |
| FullImplBlock.DispatchLeading | src/codegen/impl_block/mod.rs:17-36 | `new`, `with_capacity`, `get`, `get_mut` run their templates |
| FullImplBlock.AgreesWithLiveBlock | src/codegen/impl_block/mod.rs:17-36 | every method of the live block resolves to the same template in the full block |
| FullImplBlock.InsertAndRemove | src/codegen/impl_block/mod.rs:17-36 | on columns of length `n`: `insert` does not type-check when a field is named `value` or `index`, and otherwise inserts or panics past `n`; `remove` / `swap_remove` return row `index` or panic past the end |
| FullImplBlock.PopLastRow | src/codegen/impl_block/remove.rs:18-41 | on columns of length `n`, `pop` is `None` and changes nothing when `n` is 0, and is otherwise the last record with every column shortened |
| Expansion.Codegen | src/codegen/mod.rs:9-31 | no expansion exactly when the record's first field is positional (the `len` template fails); otherwise the views, the container and the live impl block all come from one bundle of names |
| Expansion.ExpansionIsConsistent | src/codegen/mod.rs:9-31 | whenever an expansion is emitted, the `use` re-exports `<module>::<container>` under the record's visibility; the module is `#[doc(hidden)]`, imports its parent, and is named `__hidden_vec_<snake>`; the three added names are distinct from each other and from the record |
| Expansion.ExpansionMirrorsRecord | src/codegen/mod.rs:9-31 | whenever an expansion is emitted, the container inside the module has the record's fields, each as a vector |
| VecOps.Insert | src/codegen/impl_block/insert.rs:16-28 | `Vec::insert`: the element lands at `i`, earlier elements stay, later ones shift up |
| VecOps.Remove | src/codegen/impl_block/remove.rs:43-67 | `Vec::remove`: the element at `i` leaves, later ones shift down |
| VecOps.SwapRemove | src/codegen/impl_block/remove.rs:43-67 | `Vec::swap_remove`: the last element fills position `i` |
| VecOps.RemoveAfterInsert | src/codegen/impl_block/insert.rs:13-37 | removing at `i` after inserting at `i` gives the sequence back |
| VecOps.InsertAfterRemove | src/codegen/impl_block/remove.rs:43-67 | re-inserting the removed element at `i` gives the sequence back |
| VecOps.SwapRemoveKeepsOthers | src/codegen/impl_block/remove.rs:43-67 | `swap_remove` keeps every other element, as a multiset |
| VecOps.LayoutRoundTrip | src/codegen/structs/vec.rs:9-19 | reading the records back out of the columns gives the records |
| VecOps.ColumnsRoundTrip | src/codegen/structs/vec.rs:9-19 | columns of equal length are the transpose of the records they hold |
| VecOps.PushCommutes | src/codegen/main_impl_block.rs:126-138 | pushing field `j` onto column `j` is the transpose of pushing the record |
| VecOps.InsertCommutes | src/codegen/impl_block/insert.rs:16-28 | inserting column by column is the transpose of inserting the record |
| VecOps.RemoveCommutes | src/codegen/impl_block/remove.rs:43-67 | removing column by column is the transpose of removing the record |
| VecOps.SwapRemoveCommutes | src/codegen/impl_block/remove.rs:43-67 | `swap_remove` column by column is the transpose of `swap_remove` on the records |
| VecOps.PopCommutes | src/codegen/impl_block/remove.rs:18-41 | popping every column is the transpose of popping the record, and the popped elements form the last record |
| Container.ColumnVec.New | src/codegen/main_impl_block.rs:33-48 | an empty container with one column per field |
| Container.ColumnVec.WithCapacity | src/codegen/main_impl_block.rs:50-65 | the same empty container as `new` |
| Container.ColumnVec.Len | src/codegen/main_impl_block.rs:192-196 | the number of records |
| Container.ColumnVec.IsEmpty | src/codegen/main_impl_block.rs:198-201 | true exactly when there is no record |
| Container.ColumnVec.Get | src/codegen/main_impl_block.rs:84-97 | the view at `index` is the record at `index` |
| Container.ColumnVec.Column | src/codegen/main_impl_block.rs:168-175 | column `j` lists field `j` of every record, in order |
| Container.ColumnVec.Push | src/codegen/main_impl_block.rs:140-146 | appends the record; every column gains its field at the end |
| Container.ColumnVec.Insert | src/codegen/impl_block/insert.rs:30-36 | inserts the record at `index`; every column gains its field there |
| Container.ColumnVec.Remove | src/codegen/impl_block/remove.rs:62-66 | returns the record at `index` and removes it, column by column |
| Container.ColumnVec.SwapRemove | src/codegen/impl_block/remove.rs:62-66 | returns the record at `index`; the last record takes its place |
| Container.ColumnVec.Pop | src/codegen/impl_block/remove.rs:35-40 | `None` with nothing changed when empty, otherwise the last record, removed |
| Scenarios.PushThenGet | src/lib.rs:29-42 | after pushing `rs` onto a new container, `len()` is `|rs|` and `get(k)` is `rs[k]` |
| Scenarios.DocExample | src/lib.rs:29-42 | after pushing `Foo { x: i, … }` for `i` in `0..1000`, `len()` is 1000 and `get(0).x` is 0 |
| Scenarios.InsertRemoveRoundTrip | src/codegen/impl_block/insert.rs:13-37 | on the columns, `insert(i, r)` then `remove(i)` yields `r` and the original columns, and the reverse order restores them too |
| Scenarios.InsertThenRemove | src/codegen/impl_block/remove.rs:43-67 | on the container, `insert(i, r)` then `remove(i)` returns `r` and restores records and columns |
| Scenarios.ColumnSumIsFieldSum | benches/simple_struct.rs:36-43 | summing column `j` gives the same total as summing field `j` over the records |
| Scenarios.SumColumn | benches/simple_struct.rs:36 | `xs().iter().copied().sum()` is the sum of field `x` over the records |
| Scenarios.BenchSumOfX | benches/simple_struct.rs:13-46 | the same records in `Vec<Foo>` and in `VecFoo` give the same sum of `x` |

## Left out

- The proc-macro entry point in `src/lib.rs`, and the rendering of token streams to text, are not modelled. Items are modelled as structured values, so spans and `quote!` hygiene are not modelled either.
- The snake-case conversion from the `convert_case` crate is a parameter `toSnake` of the name functions. Nothing is assumed about it.
- Field types are opaque paths. Type checking of the emitted code is modelled only where a method body would fail on it: a shadowed parameter, a missing `len`, or a `new` with no fields. Those cases give the outcome `Stuck`.
- Positional records: as written the derive produces no expansion for them at all, because the `len` template fails (see Findings and `Expansion.Codegen`). Everything said below about positional records concerns the corrected templates.
- InsertTemplates.PushAppendsRow: with the corrected `len`, the prelude `let field<i> = value.<i>;` still moves a positional field out of `value` before the push, so for a field that is not `Copy` the emitted `push` would not compile. The model does not track moves or `Copy`, so it covers positional records without that restriction.
- LenTemplates.LenIsEmpty: for a record whose first field is positional it gives the corrected `len` reading `self.0`; as written no items are produced (`LenTemplates.LenIsEmptyAsWritten`).
- LenTemplates.LenCountsRows: for a positional first field it is about the corrected `self.0` body; as written there is no `len` to run (`LenTemplates.TupleStructLen`).
- MainImplBlock.GenerateImplBlock: for a record whose first field is positional it is the corrected block; as written there is no block (`MainImplBlock.GenerateImplBlockAsWritten`).
- MainImplBlock.DispatchLen: for a positional first field it is about the corrected block; as written there is no block to dispatch in.
- MainImplBlock.LiveReads: for a positional first field it is about the corrected block; as written no such block is emitted.
- FullImplBlock.Trailing: for a positional first field it holds the corrected `len`; as written the full block fails the same way (src/codegen/impl_block/mod.rs:43-46).
- FullImplBlock.GenerateImplBlock: for a positional first field it is the corrected block; as written there is no block (`FullImplBlock.GenerateImplBlockAsWritten`).
- FullImplBlock.DispatchLen: for a positional first field it is about the corrected full block; as written there is none.
- VecStruct.GenerateStruct: for a positional record the container is emitted as `pub struct VecP (…,)` without the `;` a tuple struct needs (src/codegen/structs/vec.rs:15-17). The declaration is modelled as structure, not text, so the missing `;` is not captured; it is noted in Findings.
- RefStructs.Generate: the views of a positional record lack the `;` in the same way (src/codegen/structs/ref_and_ref_mut.rs:46-48); not captured, for the same reason.
- A record without fields is supported by the generator model. The views of such a record declare a lifetime that no field uses (`RefStructs.LifetimeUsedIffFields`), which Rust rejects. `Container.ColumnVec` therefore requires at least one column.
- Ownership, lifetimes and aliasing are not modelled. `get_mut` and the `_mut` accessors return the same values as their shared counterparts. Writing through a mutable view is not modelled.
- Container.ColumnVec.Push: the class has no field names, so it models `push` for a record with no field named `value`. With such a field the emitted `push` does not type-check (see Findings and `MainImplBlock.LiveConstructorsAndPush`).
- Container.ColumnVec.Insert: it models the template of the never-compiled `src/codegen/impl_block/` set; the emitted `VecFoo` has no `insert` (`MainImplBlock.LiveLacksRemoval`). It also assumes no field is named `value` or `index` (see Findings). An index past the end is a precondition here; the panic is proved by `InsertTemplates.InsertPastEndPanics`.
- Container.ColumnVec.Remove: it models the never-compiled `src/codegen/impl_block/` template; the emitted `VecFoo` has no `remove` (`MainImplBlock.LiveLacksRemoval`). An index past the end is a precondition here; the panic is proved by `RemoveTemplates.RemoveOutOfBoundsPanics`.
- Container.ColumnVec.SwapRemove: it models the never-compiled `src/codegen/impl_block/` template; the emitted `VecFoo` has no `swap_remove` (`MainImplBlock.LiveLacksRemoval`). An index past the end is a precondition here; the panic is proved by `RemoveTemplates.RemoveOutOfBoundsPanics`.
- Container.ColumnVec.Pop: it models the never-compiled `src/codegen/impl_block/` template; the emitted `VecFoo` has no `pop` (`MainImplBlock.LiveLacksRemoval`).
- Scenarios.InsertThenRemove: it runs the never-compiled `insert` and `remove`, which the emitted `VecFoo` lacks.
- Container.ColumnVec.WithCapacity: the reserved capacity is not modelled, and neither is allocation failure.
- Container.ColumnVec.Get: an index past the end panics in the emitted code. Here it is a precondition. The panic itself is proved at the template level (`GetTemplates.GetOutOfBoundsPanics`).
- Container.ColumnVec: all fields share one element type `V`. A record with fields of different types is modelled with a sum type, as `Scenarios.Cell` does.
- Scenarios.DocExample: the views hold values. In the emitted code `FooRef.x` is a `&u64` (src/codegen/structs/ref_and_ref_mut.rs:30-36), so the documentation's `assert_eq!(first.x, 0)` compares a reference with an integer and would not compile as written (not executed). The scenario checks the evidently intended value.
- Scenarios.SumColumn: sums are unbounded integers. The `u64` / `u8` overflow of the benchmark's `sum()` is not modelled. The random inputs and the timing loop are not modelled either.
- `pluralize` on an empty identifier panics (`unwrap` on no last character). A Rust identifier is never empty, so `Util.Pluralize` requires a non-empty name.

## Findings

| source | as written | input that shows it | evidently intended | confidence | as-written member | corrected member |
|---|---|---|---|---|---|---|
| src/codegen/main_impl_block.rs:115-124 | the `push` prelude binds each named field under its own name (`let <name> = &value.<name>;`), so a field called `value` rebinds the parameter and the following `value.<field>` reads a reference to the field | `struct Wrapper { value: u8 }` | `push` appends the record for any field names | not executed | InsertTemplates.PushAsWrittenShadows | InsertTemplates.PushAppendsRow |
| src/codegen/impl_block/insert.rs:69-82 | the shared prelude of `insert` also rebinds `index` when a field is called `index` (and `value` as above) | `struct Slot { index: usize }` | `insert` inserts the record for any field names | not executed | InsertTemplates.InsertAsWrittenShadows | InsertTemplates.InsertShiftsRow |
| src/codegen/main_impl_block.rs:187-190 | the positional arm parses the literal `0` as an identifier (both arms share the identifier type), which fails, so the derive panics for every record whose first field is positional; `src/codegen/impl_block/mod.rs:43-46` repeats it, and the container and views of such a record are also emitted without the `;` a tuple struct needs (src/codegen/structs/vec.rs:15-17, src/codegen/structs/ref_and_ref_mut.rs:46-48) | `struct P(u8);` | `len` reads `self.0` | not executed | LenTemplates.TupleStructLen | LenTemplates.LenCountsRows |
