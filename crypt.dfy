/** The text encryption wrapper of notes/crypt.py: one module-wide Fernet
    cipher built from the configured key, `encrypt_data` and `decrypt_data`.
    Both operations are total: every exception inside them becomes a value. */
module Crypt {
  import opened Oracles

  /** The libraries the wrapper calls. */
  datatype Libraries = Libraries(fernet: FernetScheme, utf8: Utf8Codec) {
    ghost predicate Lawful() { fernet.Lawful() && utf8.Lawful() }
  }

  /** The module-level cipher `f`: the configured key setting and the key
      material the Fernet constructor made of it. */
  datatype Cipher = Cipher(setting: string, key: Bytes) {

    /** `f` exists only once the constructor has accepted the setting. */
    ghost predicate BuiltBy(scheme: FernetScheme) {
      scheme.makeKey(setting) == Ok(key)
    }
  }

  /** The `ValueError` raised at import when the key is not a Fernet key. */
  datatype InitError = ValueError(message: string)

  const InvalidKeyMessage := "Invalid FERNET_KEY in settings.py. It must be a valid Fernet key. Error: "

  /** What `decrypt_data` returns for a rejected token or a `TypeError`. */
  const InvalidDataSentinel := "Decryption Failed: Invalid data."

  /** What `decrypt_data` returns for any other failure. */
  const FailureSentinel := "Decryption Failed."

  /** The message of the `AttributeError` that reading an undefined
      `FERNET_KEY` from Django's settings object raises. */
  const MissingSettingMessage := "'Settings' object has no attribute 'FERNET_KEY'"

  /** Module initialisation: read the configured setting (None when it is not
      defined) and build the cipher from it. Both failures, the missing
      setting and the key the constructor rejects, are caught and re-raised
      as a `ValueError` that carries the original message. */
  function Init(scheme: FernetScheme, setting: Option<string>): (r: Result<Cipher, InitError>)
    ensures r.Ok? <==> setting.Some? && scheme.makeKey(setting.value).Ok?
    ensures r.Ok? ==> r.value.setting == setting.value && r.value.BuiltBy(scheme)
    ensures setting.None? ==> r == Err(ValueError(InvalidKeyMessage + MissingSettingMessage))
    ensures setting.Some? && scheme.makeKey(setting.value).Err? ==>
      r == Err(ValueError(InvalidKeyMessage + scheme.makeKey(setting.value).error))
  {
    match setting
    case None => Err(ValueError(InvalidKeyMessage + MissingSettingMessage))
    case Some(text) =>
      match scheme.makeKey(text)
      case Ok(key) => Ok(Cipher(text, key))
      case Err(why) => Err(ValueError(InvalidKeyMessage + why))
  }

  /** A cipher satisfies the precondition of `EncryptData` and `DecryptData`
      exactly when it is what `Init` returns for its own setting. */
  lemma BuiltByIsInit(scheme: FernetScheme, f: Cipher)
    ensures f.BuiltBy(scheme) <==> Init(scheme, Some(f.setting)) == Ok(f)
  {
  }

  /** The token bytes `f.encrypt` produces for the UTF-8 bytes of `s`. */
  function Seal(lib: Libraries, f: Cipher, s: string, iv: Bytes, now: int): Option<Bytes> {
    lib.fernet.encrypt(f.key, iv, now, lib.utf8.encode(s))
  }

  /** Encryption of `s` goes through: the cipher produced a token and the
      token is valid UTF-8 text. */
  predicate EncryptionSucceeds(lib: Libraries, f: Cipher, s: string, iv: Bytes, now: int) {
    Seal(lib, f, s, iv, now).Some? && lib.utf8.decode(Seal(lib, f, s, iv, now).value).Some?
  }

  /** What `f.decrypt` makes of the UTF-8 bytes of `token`. */
  function Open(lib: Libraries, f: Cipher, token: string): Opened {
    lib.fernet.decrypt(f.key, lib.utf8.encode(token))
  }

  /** `encrypt_data`: the empty string stays empty without the cipher being
      used; otherwise the result is the text of the token for the UTF-8 bytes
      of `s`, and any failure on the way gives the empty string. */
  function EncryptData(lib: Libraries, f: Cipher, s: string, iv: Bytes, now: int): (r: string)
    requires f.BuiltBy(lib.fernet)
    ensures s == "" ==> r == ""
    ensures s != "" && !EncryptionSucceeds(lib, f, s, iv, now) ==> r == ""
    ensures s != "" && EncryptionSucceeds(lib, f, s, iv, now) ==>
      lib.utf8.decode(Seal(lib, f, s, iv, now).value) == Some(r)
    ensures r != "" ==>
      && s != ""
      && Seal(lib, f, s, iv, now).Some?
      && lib.utf8.decode(Seal(lib, f, s, iv, now).value) == Some(r)
  {
    if s == "" then ""
    else
      match Seal(lib, f, s, iv, now)
      case None => ""
      case Some(token) =>
        match lib.utf8.decode(token)
        case None => ""
        case Some(text) => text
  }

  /** `decrypt_data`: the empty token gives the empty string without the cipher
      being used; a rejected token or a `TypeError` gives
      `InvalidDataSentinel`; any other exception, including plaintext that is
      not valid UTF-8, gives `FailureSentinel`; otherwise the result is the
      text the token authenticates. */
  function DecryptData(lib: Libraries, f: Cipher, token: string): (r: string)
    requires f.BuiltBy(lib.fernet)
    ensures token == "" ==> r == ""
    ensures token != "" && Open(lib, f, token) in {Raised(InvalidToken), Raised(TypeError)} ==>
      r == InvalidDataSentinel
    ensures token != "" && Open(lib, f, token) == Raised(OtherException) ==> r == FailureSentinel
    ensures token != "" && Open(lib, f, token).Plaintext? ==>
      r == match lib.utf8.decode(Open(lib, f, token).data)
           case Some(text) => text
           case None => FailureSentinel
    ensures || r == ""
            || r == InvalidDataSentinel
            || r == FailureSentinel
            || (Open(lib, f, token).Plaintext? && lib.utf8.decode(Open(lib, f, token).data) == Some(r))
  {
    if token == "" then ""
    else
      match Open(lib, f, token)
      case Raised(InvalidToken) => InvalidDataSentinel
      case Raised(TypeError) => InvalidDataSentinel
      case Raised(OtherException) => FailureSentinel
      case Plaintext(data) =>
        match lib.utf8.decode(data)
        case Some(text) => text
        case None => FailureSentinel
  }

  /** Round trip: a non-empty string whose encryption goes through yields a
      non-empty token that decrypts back to the same string. */
  lemma RoundTrip(lib: Libraries, f: Cipher, s: string, iv: Bytes, now: int)
    requires lib.Lawful() && f.BuiltBy(lib.fernet)
    requires s != "" && EncryptionSucceeds(lib, f, s, iv, now)
    ensures EncryptData(lib, f, s, iv, now) != ""
    ensures DecryptData(lib, f, EncryptData(lib, f, s, iv, now)) == s
  {
  }

  /** Silent loss: when encryption of a non-empty string fails, the stored
      token is empty and decrypting it gives the empty string, not the text. */
  lemma FailedEncryptionLosesContent(lib: Libraries, f: Cipher, s: string, iv: Bytes, now: int)
    requires f.BuiltBy(lib.fernet)
    requires s != "" && !EncryptionSucceeds(lib, f, s, iv, now)
    ensures EncryptData(lib, f, s, iv, now) == ""
    ensures DecryptData(lib, f, EncryptData(lib, f, s, iv, now)) == ""
    ensures DecryptData(lib, f, EncryptData(lib, f, s, iv, now)) != s
  {
  }

  /** Encrypting then decrypting gives back `s` exactly when `s` is empty or
      its encryption goes through; otherwise it gives the empty string. */
  lemma EncryptThenDecrypt(lib: Libraries, f: Cipher, s: string, iv: Bytes, now: int)
    requires lib.Lawful() && f.BuiltBy(lib.fernet)
    ensures DecryptData(lib, f, EncryptData(lib, f, s, iv, now)) ==
      if s == "" || EncryptionSucceeds(lib, f, s, iv, now) then s else ""
    ensures DecryptData(lib, f, EncryptData(lib, f, s, iv, now)) == s <==>
      s == "" || EncryptionSucceeds(lib, f, s, iv, now)
  {
  }

  /** The sentinel is an ordinary string: a note whose text is the sentinel
      decrypts to exactly what a rejected token decrypts to. */
  lemma SentinelIndistinguishable(lib: Libraries, f: Cipher, iv: Bytes, now: int, bad: string)
    requires lib.Lawful() && f.BuiltBy(lib.fernet)
    requires EncryptionSucceeds(lib, f, InvalidDataSentinel, iv, now)
    requires bad != "" && Open(lib, f, bad) == Raised(InvalidToken)
    ensures DecryptData(lib, f, EncryptData(lib, f, InvalidDataSentinel, iv, now)) ==
      DecryptData(lib, f, bad)
  {
  }
}
