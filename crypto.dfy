/**
 * The per-message blob: `base64(iv || ciphertext)`, with AES-256-CBC and base64
 * kept abstract. The cipher and the codec are total functions supplied by the
 * caller; `Lawful` states the only facts the model relies on about them.
 */
module Crypto {
  import opened Wrappers
  import opened Encoding

  /** `openssl_cipher_iv_length('aes-256-cbc')`: one AES block. */
  const IvLength: nat := 16

  /**
   * The library calls the blob is built from. `decrypt` yields None where
   * `openssl_decrypt` returns false (bad padding, empty input).
   */
  datatype Primitives = Primitives(
    encrypt: (Key, Bytes, string) -> Bytes,
    decrypt: (Key, Bytes, Bytes) -> Option<string>,
    base64Encode: Bytes -> string,
    base64Decode: string -> Bytes)

  /**
   * Decryption undoes encryption under the same key and IV; an empty
   * ciphertext never decrypts (PKCS#7 needs at least one padded block); and
   * base64 decoding undoes encoding.
   */
  ghost predicate Lawful(p: Primitives) {
    && (forall k, iv, m :: |iv| == IvLength ==> p.decrypt(k, iv, p.encrypt(k, iv, m)) == Some(m))
    && (forall k, iv :: p.decrypt(k, iv, []) == None)
    && (forall b :: p.base64Decode(p.base64Encode(b)) == b)
  }

  /**
   * Splits decoded blob bytes into IV and ciphertext the way the two `substr`
   * calls do: a blob shorter than an IV yields all of it as IV and no ciphertext.
   */
  function Unframe(data: Bytes): (parts: (Bytes, Bytes))
    ensures parts.0 + parts.1 == data
    ensures |parts.0| == if |data| < IvLength then |data| else IvLength
  {
    var n := if |data| < IvLength then |data| else IvLength;
    (data[..n], data[n..])
  }

  /** Splitting a framed IV and ciphertext gives back exactly the two parts. */
  lemma UnframeFrame(iv: Bytes, c: Bytes)
    requires |iv| == IvLength
    ensures Unframe(iv + c) == (iv, c)
  {
  }

  /**
   * `encryptMessage`, with the random IV as a parameter. With lawful primitives
   * the blob frames exactly this IV and ciphertext, and decrypts back to the
   * message under the same key.
   */
  function EncryptMessage(p: Primitives, key: Key, iv: Bytes, message: string): (blob: string)
    requires |iv| == IvLength
    ensures Lawful(p) ==> Unframe(p.base64Decode(blob)) == (iv, p.encrypt(key, iv, message))
    ensures Lawful(p) ==> DecryptMessage(p, key, blob) == Some(message)
  {
    UnframeFrame(iv, p.encrypt(key, iv, message));
    p.base64Encode(iv + p.encrypt(key, iv, message))
  }

  /**
   * `decryptMessage`: decode, split off the IV, decrypt the rest. Whenever the
   * decoded blob is a 16-byte IV followed by a ciphertext, exactly that
   * ciphertext is decrypted under exactly that IV. A blob that decodes to no
   * more than an IV leaves no ciphertext, so with lawful primitives it fails.
   */
  function DecryptMessage(p: Primitives, key: Key, blob: string): (r: Option<string>)
    ensures forall iv, c :: |iv| == IvLength && p.base64Decode(blob) == iv + c ==> r == p.decrypt(key, iv, c)
    ensures Lawful(p) && |p.base64Decode(blob)| <= IvLength ==> r == None
  {
    var parts := Unframe(p.base64Decode(blob));
    p.decrypt(key, parts.0, parts.1)
  }
}
