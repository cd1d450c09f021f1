/** The stored form of a resource value: plain text, or a ciphertext with its nonce
    and key version. */
module Values {
  import opened Wrappers
  import opened Aead

  const MASKED_VALUE: string := "\U{2022}\U{2022}\U{2022}\U{2022}\U{2022}\U{2022}\U{2022}\U{2022}"

  datatype StoredValue = StoredValue(plain: Option<string>, cipher: Option<Cipher>, nonce: Option<string>,
    keyVersion: Option<int>)

  /** Encrypts exactly the values of secret fields. */
  function EncodeValue(c: Cryptor, isSecret: bool, plaintext: string, random: Option<Nonce>): Result<StoredValue, Error>
    requires ValidCryptor(c)
  {
    if !isSecret then Ok(StoredValue(Some(plaintext), None, None, None))
    else
      match EncryptBytes(c, plaintext, random)
      case Err(e) => Err(e)
      case Ok(e) => Ok(StoredValue(None, Some(e.cipher), Some(e.nonce), Some(e.keyVersion)))
  }

  function Bytes(b: Option<string>): string { if b.Some? then b.value else "" }

  function DecodeValue(c: Cryptor, v: StoredValue): Result<string, Error> {
    if v.cipher.None? then Ok(Bytes(v.plain))
    else DecryptBytes(c,
      Encrypted(v.cipher.value, Bytes(v.nonce), if v.keyVersion.Some? then v.keyVersion.value else 0))
  }

  function PresentValue(c: Cryptor, isSecret: bool, v: StoredValue, unmask: bool): Result<string, Error> {
    if isSecret && !unmask then Ok(MASKED_VALUE) else DecodeValue(c, v)
  }

  /** The columns that `EncodeValue` fills for a field of this secrecy. */
  predicate Shaped(v: StoredValue, isSecret: bool) {
    if isSecret then v.plain.None? && v.cipher.Some? && v.nonce.Some? && v.keyVersion.Some?
    else v.plain.Some? && v.cipher.None? && v.nonce.None? && v.keyVersion.None?
  }

  /** `e` knows every key of `c` under the same version. */
  predicate Extends(c: Cryptor, e: Cryptor) {
    forall v :: v in c.keys ==> v in e.keys && e.keys[v] == c.keys[v]
  }

  /** What was encoded decodes to itself, now and by every cryptor that still
      knows the keys. */
  lemma DecodeInvertsEncode(c: Cryptor, e: Cryptor, isSecret: bool, plaintext: string, random: Option<Nonce>)
    requires ValidCryptor(c) && Extends(c, e)
    ensures EncodeValue(c, isSecret, plaintext, random).Err? <==> isSecret && random.None?
    ensures
      var stored := EncodeValue(c, isSecret, plaintext, random);
      stored.Ok? ==> DecodeValue(e, stored.value) == Ok(plaintext) && Shaped(stored.value, isSecret)
  {
  }
}
