/** The fingerprint of a text: `getStringHash` in rag.ts. The SHA-256 hex
    digest of the text is read character by character; the first (at most)
    128 characters become `charCode / 255`, and the vector is padded with
    zeros to length 128. */
module StringHash {
  import opened Primitives

  /** The length of every fingerprint. */
  const Dim: nat := 128

  /** One digest character scaled to a number: `charCodeAt(i) / 255`. */
  function Scale(c: char): real { (c as int) as real / 255.0 }

  /** The scaled codes of the characters of `s`, in order. */
  function Scaled(s: string): (r: seq<real>)
    ensures |r| == |s|
  {
    if s == [] then [] else Scaled(s[..|s| - 1]) + [Scale(s[|s| - 1])]
  }

  /** `n` zeros. */
  function Zeros(n: nat): (r: seq<real>)
    ensures |r| == n
  {
    if n == 0 then [] else Zeros(n - 1) + [0.0]
  }

  /** The fingerprint of a text whose digest is `digest`. */
  function Fingerprint(digest: string): seq<real> {
    var m := Min(|digest|, Dim);
    Scaled(digest[..m]) + Zeros(Dim - m)
  }

  lemma {:induction false} ScaledAt(s: string, i: nat)
    requires i < |s|
    ensures Scaled(s)[i] == Scale(s[i])
  {
    if i < |s| - 1 {
      ScaledAt(s[..|s| - 1], i);
    }
  }

  lemma {:induction false} ZerosAt(n: nat, i: nat)
    requires i < n
    ensures Zeros(n)[i] == 0.0
  {
    if i < n - 1 {
      ZerosAt(n - 1, i);
    }
  }

  /** A fingerprint has exactly `Dim` entries; entry `i` is the scaled code of
      the digest's character `i` when the digest has one, and 0 otherwise. */
  lemma FingerprintAt(digest: string, i: nat)
    requires i < Dim
    ensures |Fingerprint(digest)| == Dim
    ensures Fingerprint(digest)[i] == if i < |digest| then Scale(digest[i]) else 0.0
  {
    var m := Min(|digest|, Dim);
    if i < m {
      ScaledAt(digest[..m], i);
    } else {
      ZerosAt(Dim - m, i - m);
    }
  }

  /** When every digest character has a code of at most 255 (as hex digits
      do), every fingerprint entry lies in [0, 1]. */
  lemma FingerprintInUnitRange(digest: string)
    requires forall i :: 0 <= i < |digest| ==> digest[i] as int <= 255
    ensures |Fingerprint(digest)| == Dim
    ensures forall i :: 0 <= i < Dim ==> 0.0 <= Fingerprint(digest)[i] <= 1.0
  {
    forall i | 0 <= i < Dim ensures 0.0 <= Fingerprint(digest)[i] <= 1.0 {
      FingerprintAt(digest, i);
    }
  }

  /** The fingerprint of a hex digest has entries in [0, 1]. */
  lemma HexFingerprint(digest: string)
    requires IsHexDigest(digest)
    ensures |Fingerprint(digest)| == Dim
    ensures forall i :: 0 <= i < Dim ==> 0.0 <= Fingerprint(digest)[i] <= 1.0
  {
    HexDigestCodes(digest);
    FingerprintInUnitRange(digest);
  }

  /** `getStringHash(text)`: the push loop over the digest and the padding loop. */
  method GetStringHash(sha256: string -> string, text: string) returns (vector: seq<real>)
    ensures vector == Fingerprint(sha256(text))
    ensures |vector| == Dim
  {
    var hash := sha256(text);
    var m := Min(|hash|, Dim);
    vector := [];
    var i := 0;
    while i < m
      invariant 0 <= i <= m
      invariant vector == Scaled(hash[..i])
    {
      assert hash[..i + 1][..i] == hash[..i];
      vector := vector + [Scale(hash[i])];
      i := i + 1;
    }
    while |vector| < Dim
      invariant m <= |vector| <= Dim
      invariant vector == Scaled(hash[..m]) + Zeros(|vector| - m)
      decreases Dim - |vector|
    {
      vector := vector + [0.0];
    }
  }
}
