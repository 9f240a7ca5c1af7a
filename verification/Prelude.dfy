/** Shared by several modules. */
module Prelude {

  datatype Option<T> = None | Some(value: T)

  ghost predicate Distinct<T>(s: seq<T>) {
    forall i, j :: 0 <= i < j < |s| ==> s[i] != s[j]
  }

  lemma Scaled(n: nat, a: int, b: int)
    requires a >= b
    ensures n * a >= n * b
  {
  }

  lemma UniqueQuotient(n: nat, q: nat, rem: nat, d: nat)
    requires d > 0 && n == d * q + rem && rem < d
    ensures n / d == q && n % d == rem
  {
    var q', rem' := n / d, n % d;
    assert n == d * q' + rem';
    assert d * (q - q') == rem' - rem;
    if q > q' {
      Scaled(d, q - q', 1);
    } else if q < q' {
      Scaled(d, -1, q - q');
    }
  }
}
