/**
 * Identifier helpers: placeholder names for positional fields and the
 * best-effort English plural used for column accessors.
 */
module Util {
  import opened Syntax

  predicate IsDigit(c: char) { '0' <= c <= '9' }

  function DigitChar(d: nat): (c: char)
    requires d < 10
    ensures IsDigit(c)
  {
    ['0', '1', '2', '3', '4', '5', '6', '7', '8', '9'][d]
  }

  function DigitValue(c: char): (d: nat)
    requires IsDigit(c)
    ensures d < 10
  {
    (c as int - '0' as int) as nat
  }

  lemma DigitValueOfChar(d: nat)
    requires d < 10
    ensures DigitValue(DigitChar(d)) == d
  {
  }

  /** Decimal rendering of `n`, as `format!("{n}")` prints a `usize`:
      non-empty, digits only, no leading zero. */
  function Decimal(n: nat): (r: string)
    ensures |r| > 0
    ensures forall i :: 0 <= i < |r| ==> IsDigit(r[i])
    ensures |r| > 1 ==> r[0] != '0'
  {
    if n < 10 then [DigitChar(n)] else Decimal(n / 10) + [DigitChar(n % 10)]
  }

  /** Reads a string of decimal digits back as a number. */
  function ParseDecimal(s: string): (r: nat)
    requires forall i :: 0 <= i < |s| ==> IsDigit(s[i])
  {
    if s == [] then 0 else 10 * ParseDecimal(s[..|s| - 1]) + DigitValue(s[|s| - 1])
  }

  lemma {:induction false} DecimalRoundTrip(n: nat)
    ensures ParseDecimal(Decimal(n)) == n
  {
    var r := Decimal(n);
    if n < 10 {
      DigitValueOfChar(n);
    } else {
      DecimalRoundTrip(n / 10);
      assert r[..|r| - 1] == Decimal(n / 10);
      DigitValueOfChar(n % 10);
    }
  }

  /** `nth_field(n)`: the identifier `field<n>` bound to positional field `n`. */
  function NthField(n: nat): (r: Ident)
    ensures |r| > 5 && r[..5] == "field"
    ensures forall i :: 5 <= i < |r| ==> IsDigit(r[i])
  {
    "field" + Decimal(n)
  }

  lemma {:induction false} NthFieldInjective(a: nat, b: nat)
    requires NthField(a) == NthField(b)
    ensures a == b
  {
    assert Decimal(a) == NthField(a)[5..];
    assert Decimal(b) == NthField(b)[5..];
    DecimalRoundTrip(a);
    DecimalRoundTrip(b);
  }

  /** `pluralize`: append `es` after a trailing `s`, otherwise `s`. The source
      unwraps the last character, so the identifier must not be empty. */
  function Pluralize(id: Ident): (r: Ident)
    requires |id| > 0
    ensures |id| < |r| && r[..|id|] == id
    ensures r[|r| - 1] == 's'
    ensures |r| == |id| + (if id[|id| - 1] == 's' then 2 else 1)
  {
    if id[|id| - 1] == 's' then id + "es" else id + "s"
  }

  /** Two different identifiers pluralize alike exactly when one is the other
      with an extra `e`, the shorter one ending in `s` (`bus` and `buse`). */
  lemma {:induction false} PluralizeCollision(a: Ident, b: Ident)
    requires |a| > 0 && |b| > 0 && a != b
    ensures Pluralize(a) == Pluralize(b) <==>
              (a[|a| - 1] == 's' && b == a + "e") || (b[|b| - 1] == 's' && a == b + "e")
  {
    var pa, pb := Pluralize(a), Pluralize(b);
    if pa == pb && |a| < |b| {
      assert b == pa[..|b|];
    } else if pa == pb && |b| < |a| {
      assert a == pb[..|a|];
    }
  }

  /** The best-effort plural is not injective. */
  lemma PluralizeNotInjective()
    ensures Pluralize("bus") == Pluralize("buse") == "buses"
  {
  }
}
