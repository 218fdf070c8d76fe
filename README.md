# Notes manager: text encryption wrapper and inclusive range filter

This project models two parts of the personal notes-and-tasks manager in Dafny and proves their contracts.

1. The text encryption wrapper in `notes/crypt.py`. At import it builds one
   module-wide Fernet cipher `f` from the configured key, and it raises
   `ValueError` if the key is missing or rejected. `encrypt_data` turns a string into a
   URL-safe text token, and `decrypt_data` turns a token back into a string.
   Neither one raises. Failures become the empty string when encrypting. When
   decrypting they become one of two fixed sentinel strings.
2. The template filter `to` in `notes/templatetags/number_range.py`. It is
   `range(value, arg + 1)`: the integers from `value` to `arg`, both included.

Files:

- `oracles.dfy` (module `Oracles`) covers the two libraries the wrapper calls,
  and it does not implement them:
  - Python's UTF-8 codec (RFC 3629) is an encode/decode pair. Encoding always
    succeeds. Decoding may fail.
  - The Fernet scheme is three functions: the key constructor, encryption and
    decryption. Encryption takes its random IV and its clock reading as
    explicit arguments. Decryption returns either the plaintext or the
    exception it raised.

  Each library has a `Lawful()` predicate that states what the wrapper relies
  on. For UTF-8, decoding undoes encoding, and bytes that decode are the
  encoding of their text. For Fernet, every token is non-empty and decrypts
  back to the encrypted bytes under the same key. Every proved property that
  depends on a law takes it as a precondition.
- `crypt.dfy` (module `Crypt`) holds the wrapper itself: `Init`,
  `EncryptData`, `DecryptData`, and the lemmas relating them.
- `number_range.dfy` (module `NumberRange`) holds the filter `To` and its
  lemmas. `To` is built on Python's definition of `range`: element `i` is
  `start + i`, and the length is `max(0, stop - start)`. A separate recursive
  count-up definition serves as a reference, and a lemma proves `To` equal to
  it.

The module-level cipher is a `Cipher` value. `EncryptData` and `DecryptData`
require `f.BuiltBy(scheme)`: the constructor accepted the configured setting
and produced this key. `BuiltByIsInit` proves that this holds exactly for the
cipher `Init` returns for that setting.

## Model

| member | source | states |
|---|---|---|
| `Crypt.Init` | notes/crypt.py:5-8 | Initialisation succeeds exactly when the key setting is defined and the Fernet constructor accepts it. On success the cipher is built from that key. A missing setting gives a `ValueError` with the fixed "Invalid FERNET_KEY ..." prefix followed by the attribute error's message. A rejected key gives the same prefix followed by the constructor's message. |
| `Crypt.BuiltByIsInit` | notes/crypt.py:5-8 | A cipher meets the precondition of encryption and decryption exactly when it is what initialisation returns for its setting. So neither operation is reachable without a successful initialisation. |
| `Crypt.EncryptData` | notes/crypt.py:10-22 | The empty string gives `""`, and that result does not depend on the cipher. Any failure while encrypting a non-empty string gives `""`, whether the cipher raised or the token was not valid text. When encryption of a non-empty string goes through, the result is the text of the token the cipher produced for the string's UTF-8 bytes. Conversely, a non-empty result is always such a token's text. |
| `Crypt.DecryptData` | notes/crypt.py:24-40 | The empty token gives `""` without the cipher. `InvalidToken` or `TypeError` gives exactly `"Decryption Failed: Invalid data."`. Any other exception gives exactly `"Decryption Failed."`, and so do plaintext bytes that are not valid UTF-8. An authenticated, decodable plaintext is returned as its text. The function is total, and its result is always `""`, one of the two sentinels, or the text the token authenticates. |
| `Crypt.RoundTrip` | notes/crypt.py:14-34 | Suppose the cipher and codec laws hold, `s` is non-empty and its encryption goes through. Then the token is non-empty and decrypting it gives back `s`. |
| `Crypt.FailedEncryptionLosesContent` | notes/crypt.py:14-30 | When encryption of a non-empty string fails, the stored token is `""`, and decrypting it gives `""` rather than the original text. |
| `Crypt.EncryptThenDecrypt` | notes/crypt.py:10-40 | Decrypting what `EncryptData` produced gives `s` when `s` is empty or its encryption goes through, and `""` otherwise. So the round trip holds if and only if one of those two conditions holds. |
| `Crypt.SentinelIndistinguishable` | notes/crypt.py:32-37 | A note whose text is the sentinel decrypts to the same string as a token the cipher rejects. The caller cannot tell these two cases apart. |
| `NumberRange.To` | notes/templatetags/number_range.py:6-8 | The length is `arg - value + 1` when `value <= arg`, and the result is empty exactly when `arg < value`. The first element is `value` and the last is `arg`. Every element lies between the two bounds, each is one more than the one before, and the elements are strictly increasing. |
| `NumberRange.ToMembership` | notes/templatetags/number_range.py:7-8 | An integer is in `to(value, arg)` if and only if `value <= x <= arg`. |
| `NumberRange.ToIsCountUp` | notes/templatetags/number_range.py:7-8 | `to(value, arg)` is equal to counting up one at a time from `value` until `arg` is passed. |

## Left out

- Fernet internals are not modelled: AES-128-CBC, HMAC-SHA256, the token layout, base64url and the check that a key decodes to 32 bytes. They live in the external `cryptography` library and are taken as the abstract functions of `Oracles.FernetScheme`. The library's own guarantees are assumed as the `Lawful()` predicates and are not proved.
- Tamper detection and wrong-key rejection are not proved. These are cryptographic properties of Fernet itself, and they cannot be derived from an abstract cipher.
- Python's UTF-8 codec is not implemented. It is the abstract pair `Oracles.Utf8Codec`. A Dafny `string` cannot hold a lone surrogate, so the Python case where `str.encode('utf-8')` raises is not represented.
- Crypt.Init: a key setting given as `bytes` is not modelled. The setting is either missing or a `string`. In Python, the constructor also accepts a bytes key.
- The docstring of `decrypt_data` (notes/crypt.py:27) says that a failed decryption returns an empty string. The code at notes/crypt.py:35-40 returns one of the two sentinel strings instead. The model follows the code.
- Calls with values that are not strings, such as `None`, are not modelled, because both functions are typed on strings. In Python, `None` would take the empty-input branch.
- The randomness and clock read inside `Fernet.encrypt` are parameters `iv` and `now` of `EncryptData`.
- Only the text path exists in the source. There is no byte encryption path, no encrypted note record, no attachment accessors and no attachment-serving endpoint: `notes/models.py` stores `content` as plain text, and `notes/urls.py` routes to a view that `notes/views.py` does not define. None of these is modelled.
- `NumberRange.To` models integer arguments only. A template can pass values of other types, and Python would then raise `TypeError`.
- Request handling, routing, forms, admin configuration and the markdown filter are framework glue and are not part of this model.
