/** Small shared definitions: an Option type, real min/max, and the two library
    functions the retrieval service calls but does not define (the `sha256`
    export of js-sha256 and `Math.sqrt`), which the model receives as values. */
module Primitives {

  datatype Option<T> = None | Some(value: T)

  function Min(a: int, b: int): int { if a <= b then a else b }

  /** `Math.min` on reals. */
  function MinReal(a: real, b: real): real { if a <= b then a else b }

  /** `Math.max` on reals. */
  function MaxReal(a: real, b: real): real { if a >= b then a else b }

  /** The characters a hexadecimal digest is written with. */
  const HexDigits: string := "0123456789abcdef"

  /** What js-sha256 returns: 64 lower-case hexadecimal characters. */
  predicate IsHexDigest(d: string) {
    |d| == 64 && forall i :: 0 <= i < |d| ==> d[i] in HexDigits
  }

  /** `sqrt` is an exact square root on the non-negative reals. */
  ghost predicate IsSquareRoot(sqrt: real -> real) {
    forall x :: 0.0 <= x ==> 0.0 <= sqrt(x) && sqrt(x) * sqrt(x) == x
  }

  /** The library functions the service imports. */
  datatype Runtime = Runtime(sha256: string -> string, sqrt: real -> real) {
    ghost predicate Valid() {
      (forall text :: IsHexDigest(sha256(text))) && IsSquareRoot(sqrt)
    }
  }

  /** A square root of a positive number is positive. */
  lemma SqrtPositive(sqrt: real -> real, x: real)
    requires IsSquareRoot(sqrt)
    requires 0.0 < x
    ensures 0.0 < sqrt(x)
  {
    assert 0.0 <= sqrt(x) && sqrt(x) * sqrt(x) == x;
  }

  /** Every character of a hex digest has a code in [1, 255]. */
  lemma HexDigestCodes(d: string)
    requires IsHexDigest(d)
    ensures forall i :: 0 <= i < |d| ==> 0 < d[i] as int <= 255
  {
    forall i | 0 <= i < |d| ensures 0 < d[i] as int <= 255 {
      var c := d[i];
      assert c in HexDigits;
      assert exists j :: 0 <= j < |HexDigits| && HexDigits[j] == c;
    }
  }
}
