/** Byte strings, ideal cryptography as a parameter, and results with errors. */
module Bytes {
  type Byte = b: int | 0 <= b < 256
  type Bytes = seq<Byte>

  datatype Option<+T> = None | Some(value: T)

  datatype Error = BadFrameSize | BadTag | GroupFull | FieldOverflow
  datatype Result<+T> = Ok(value: T) | Err(error: Error)

  const NONCE_SIZE: nat := 12
  const TAG_SIZE: nat := 16
  const FRAME_WIRE_SIZE: nat := 256
  const MAX_PLAINTEXT: nat := 228

  /** HKDF(key, info, salt, length), HMAC(key, message), AES-GCM seal and open
      (key, nonce, text), and the encoding of member names. */
  datatype Crypto = Crypto(hkdf: (Bytes, Bytes, Bytes, nat) -> Bytes,
                           hmac: (Bytes, Bytes) -> Bytes,
                           seal: (Bytes, Bytes, Bytes) -> Bytes,
                           open: (Bytes, Bytes, Bytes) -> Option<Bytes>,
                           encode: string -> Bytes)

  /** Opening undoes sealing under the same key and nonce; a tag adds 16 bytes. */
  ghost predicate Ideal(c: Crypto) {
    && (forall k, n, p :: |c.seal(k, n, p)| == |p| + TAG_SIZE && c.open(k, n, c.seal(k, n, p)) == Some(p))
    && (forall k, n, t :: c.open(k, n, t).Some? ==> |t| == |c.open(k, n, t).value| + TAG_SIZE)
  }

  function Cut(p: Bytes, n: nat): Bytes {
    if |p| > n then p[..n] else p
  }

  function ZeroBytes(n: nat): (r: Bytes)
    ensures |r| == n
  {
    seq(n, _ => 0)
  }
}
