/**
 * The bundle of identifiers derived once from the record's name and shared by
 * every later stage.
 */
module Names {
  import opened Syntax

  datatype StructNames = StructNames(
    original: Ident,
    vec: Ident,
    sharedRef: Ident,
    mutRef: Ident,
    hiddenModule: Ident,
    lifetime: Ident)

  const HiddenPrefix := "__hidden_vec_"
  const Lifetime := "'a"

  /** `StructNames::from_struct_name`. Snake-casing is done by a library the
      model does not include, so it is passed in as `toSnake`. The type-level
      names are pairwise distinct for every name, and the hidden module's name
      differs from the container's. */
  function FromStructName(name: Ident, toSnake: Ident -> Ident): (r: StructNames)
    ensures r.original == name
    ensures r.vec == "Vec" + name && r.sharedRef == name + "Ref" && r.mutRef == name + "RefMut"
    ensures r.hiddenModule == HiddenPrefix + toSnake(name)
    ensures r.lifetime == Lifetime
    ensures PairwiseDistinct(r)
  {
    var r := StructNames(name, "Vec" + name, name + "Ref", name + "RefMut", HiddenPrefix + toSnake(name), Lifetime);
    VecNameIsNotRefName(name);
    assert r.hiddenModule[0] == '_' != 'V' == r.vec[0];
    r
  }

  predicate PairwiseDistinct(r: StructNames)
  {
    && r.original != r.vec && r.original != r.sharedRef && r.original != r.mutRef
    && r.vec != r.sharedRef && r.vec != r.mutRef
    && r.sharedRef != r.mutRef
    && r.hiddenModule != r.vec
  }

  /** If `Vec` + n were n + `Ref`, every letter of n would be one of `V`, `e`,
      `c`: letter i equals letter i - 3 of n, or of `Vec` below 3. */
  lemma {:induction false} LettersOfVec(n: string, i: nat)
    requires "Vec" + n == n + "Ref"
    requires i < |n|
    ensures n[i] in "Vec" && ("Vec" + n)[i + 3] == n[i]
    decreases i
  {
    assert n[i] == (n + "Ref")[i] == ("Vec" + n)[i];
    if i >= 3 {
      assert ("Vec" + n)[i] == n[i - 3];
      LettersOfVec(n, i - 3);
    }
  }

  /** `Vec` + n and n + `Ref` have the same length but never coincide: the `R`
      would have to be one of the letters of `Vec`. */
  lemma {:induction false} VecNameIsNotRefName(n: string)
    ensures "Vec" + n != n + "Ref"
  {
    LetterAtJoin(n);
    if "Vec" + n == n + "Ref" && |n| >= 3 {
      LettersOfVec(n, |n| - 3);
    }
  }

  /** The letter at position |n| of either candidate name. */
  lemma LetterAtJoin(n: string)
    ensures (n + "Ref")[|n|] == 'R'
    ensures ("Vec" + n)[|n|] == if |n| < 3 then "Vec"[|n|] else n[|n| - 3]
  {
  }
}
