/** An AEAD cipher under a fixed key, kept abstract: only the two laws below are ever used. */
module AeadCipher {
  import opened Bytes

  const TAG: nat := 16

  /** `seal(nonce, aad, plaintext)` and `unseal(nonce, aad, ciphertext)`. */
  datatype Aead = Aead(
    seal: (seq<byte>, seq<byte>, seq<byte>) -> seq<byte>,
    unseal: (seq<byte>, seq<byte>, seq<byte>) -> Option<seq<byte>>)

  ghost predicate Lawful(a: Aead)
  {
    forall n, aad, p ::
      |a.seal(n, aad, p)| == |p| + TAG && a.unseal(n, aad, a.seal(n, aad, p)) == Some(p)
  }
}
