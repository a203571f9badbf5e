/** The tunnel's encryption as far as framing depends on it: a nonce in front and a tag behind, and
    a decryption that undoes it. */
module Cipher {
  import opened Bytes
  import opened Wrappers

  const NONCE_SIZE: nat := 12
  const TAG_SIZE: nat := 16

  /** An AEAD cipher under a fixed key: `seal(nonce, plaintext)` and `open(nonce, ciphertext)`. */
  datatype Aead = Aead(seal: (Bytes, Bytes) -> Bytes, open: (Bytes, Bytes) -> Option<Bytes>)

  /** What the code relies on of AES-GCM. */
  ghost predicate Sound(a: Aead) {
    forall nonce, p ::
      |a.seal(nonce, p)| == |p| + TAG_SIZE && a.open(nonce, a.seal(nonce, p)) == Some(p)
  }

  type Nonce = n: Bytes | |n| == NONCE_SIZE witness seq(NONCE_SIZE, _ => 0)

  function Encrypt(a: Aead, nonce: Nonce, p: Bytes): (c: Bytes)
    ensures Sound(a) ==> |c| == |p| + NONCE_SIZE + TAG_SIZE
    ensures Sound(a) ==> Decrypt(a, c) == Some(p)
  {
    var c := nonce + a.seal(nonce, p);
    assert c[..NONCE_SIZE] == nonce && c[NONCE_SIZE..] == a.seal(nonce, p);
    c
  }

  /** `None` is an error. */
  function Decrypt(a: Aead, c: Bytes): Option<Bytes> {
    if |c| < NONCE_SIZE + TAG_SIZE then None else a.open(c[..NONCE_SIZE], c[NONCE_SIZE..])
  }
}
