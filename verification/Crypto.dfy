/** The cryptographic primitives, kept abstract: any functions with the interface of
    an AEAD (section 2 of RFC 5116), a 32-byte hash and a password-based key derivation.
    Nothing is assumed about forgery, wrong keys or hash collisions here: such facts are
    hypotheses of the statements that need them, about the values in play only. */
module Crypto {
  import opened Bytes

  const NONCE: nat := 24
  const MAC: nat := 16
  const KEY: nat := 32
  const HASH: nat := 32
  const SALT: nat := 16

  datatype Kdf = Kdf(blocks: u32, passes: u32, lanes: u32)

  datatype Primitives = Primitives(
    lock: (bytes, bytes, bytes) -> bytes,            // key, nonce, plaintext -> mac | ciphertext
    unlock: (bytes, bytes, bytes) -> Option<bytes>,  // key, nonce, mac | ciphertext
    hash: bytes -> bytes,
    derive: (bytes, bytes, Kdf) -> bytes             // password, salt, cost
  ) {
    ghost predicate Ideal() {
      && (forall k, n, m :: |lock(k, n, m)| == |m| + MAC && unlock(k, n, lock(k, n, m)) == Some(m))
      && (forall k, n, c :: unlock(k, n, c).Some? ==> |c| == |unlock(k, n, c).value| + MAC)
      && (forall m :: |hash(m)| == HASH)
      && (forall p, s, c :: |derive(p, s, c)| == KEY)
    }
  }

  /** A transparent instance: the assumed interface is consistent. */
  ghost function Transparent(): (p: Primitives)
    ensures p.Ideal()
  {
    var p := Primitives(
      (k: bytes, n: bytes, m: bytes) => Zeros(MAC) + m,
      (k: bytes, n: bytes, c: bytes) => if |c| < MAC then None else Some(c[MAC..]),
      (m: bytes) => Zeros(HASH),
      (p: bytes, s: bytes, c: Kdf) => Zeros(KEY));
    assert forall k, n, m :: p.lock(k, n, m)[MAC..] == m;
    p
  }

  type Suite = p: Primitives | p.Ideal() ghost witness Transparent()

  // A sealed record is nonce | mac | ciphertext.
  const OVERHEAD: nat := NONCE + MAC

  function Seal(cs: Suite, key: bytes, nonce: bytes, plain: bytes): bytes {
    nonce + cs.lock(key, nonce, plain)
  }

  function Unseal(cs: Suite, key: bytes, rec: bytes): Option<bytes> {
    if |rec| < OVERHEAD then None else cs.unlock(key, rec[..NONCE], rec[NONCE..])
  }

  /** Where the parts of a record stand: 24 bytes of nonce, then what the AEAD returns. */
  lemma RecordLayout(cs: Suite, key: bytes, nonce: bytes, plain: bytes)
    requires |nonce| == NONCE
    ensures var rec := Seal(cs, key, nonce, plain);
            |rec| == 40 + |plain| && rec[0..24] == nonce && rec[24..] == cs.lock(key, nonce, plain)
  {
  }

  lemma SealThenUnseal(cs: Suite, key: bytes, nonce: bytes, plain: bytes)
    requires |nonce| == NONCE
    ensures |Seal(cs, key, nonce, plain)| == OVERHEAD + |plain|
    ensures Unseal(cs, key, Seal(cs, key, nonce, plain)) == Some(plain)
  {
    var rec := Seal(cs, key, nonce, plain);
    assert rec[..NONCE] == nonce && rec[NONCE..] == cs.lock(key, nonce, plain);
  }
}
