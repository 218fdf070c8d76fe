/** The two library services the cipher wrapper of notes/crypt.py relies on,
    taken as values rather than implemented: the UTF-8 codec of RFC 3629 and
    the Fernet authenticated-encryption scheme. What the wrapper needs of them
    is stated as `Lawful()` predicates; every property of the wrapper that rests
    on such a law takes it as a precondition. */
module Oracles {

  newtype byte = x: int | 0 <= x < 256

  type Bytes = seq<byte>

  datatype Option<+T> = None | Some(value: T)

  datatype Result<+T, +E> = Ok(value: T) | Err(error: E)

  /** The exception classes the wrapper tells apart when it catches one:
      Fernet's `InvalidToken`, Python's `TypeError`, and every other one. */
  datatype Exception = InvalidToken | TypeError | OtherException

  /** UTF-8 as Python's `str.encode('utf-8')` / `bytes.decode('utf-8')`:
      encoding a string always succeeds, decoding fails on malformed bytes. */
  datatype Utf8Codec = Utf8Codec(encode: string -> Bytes, decode: Bytes -> Option<string>) {

    /** The empty string encodes to no bytes, decoding undoes encoding, and
        bytes that decode are exactly the encoding of what they decode to. */
    ghost predicate Lawful() {
      && encode("") == []
      && (forall s :: decode(encode(s)) == Some(s))
      && (forall b :: decode(b).Some? ==> encode(decode(b).value) == b)
    }
  }

  /** What `Fernet.decrypt` gives back: the authenticated plaintext, or the
      exception it raised. */
  datatype Opened = Plaintext(data: Bytes) | Raised(e: Exception)

  /** The Fernet scheme: `makeKey` is the constructor `Fernet(key)` (it accepts
      the configured key or raises with a message), `encrypt` is
      `Fernet.encrypt` with its random IV and its clock reading passed in
      (None when it raises), `decrypt` is `Fernet.decrypt` without a TTL. */
  datatype FernetScheme = FernetScheme(
    makeKey: string -> Result<Bytes, string>,
    encrypt: (Bytes, Bytes, int, Bytes) -> Option<Bytes>,
    decrypt: (Bytes, Bytes) -> Opened)
  {

    /** Every token `encrypt` produces is non-empty (it always carries the
        version byte, timestamp, IV and HMAC) and decrypts, under the same
        key, to the bytes that were encrypted. */
    ghost predicate Lawful() {
      forall key, iv, now, data | encrypt(key, iv, now, data).Some? ::
        && |encrypt(key, iv, now, data).value| > 0
        && decrypt(key, encrypt(key, iv, now, data).value) == Plaintext(data)
    }
  }
}
