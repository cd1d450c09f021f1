/** AES-256-GCM with versioned keys, idealised: a ciphertext remembers the key and
    nonce that sealed it, opens under exactly those, and nothing else ever opens. */
module Aead {
  import opened Wrappers

  const NONCE_SIZE: nat := 12
  const OVERHEAD: nat := 16

  /** Nonces are read from the random source at their full size. */
  type Nonce = s: string | |s| == NONCE_SIZE witness "000000000000"

  datatype Cipher =
    | Sealed(key: nat, nonce: string, plain: string)
    | Junk(bytes: string)

  function CipherLength(c: Cipher): nat {
    if c.Sealed? then |c.plain| + OVERHEAD else |c.bytes|
  }

  datatype Encrypted = Encrypted(cipher: Cipher, nonce: string, keyVersion: int)

  datatype Error = UnknownKeyVersion | OpenFailed | NoEntropy

  /** Loaded keys by version, and the version that seals new values. */
  datatype Cryptor = Cryptor(keys: map<int, nat>, current: int)

  predicate ValidCryptor(c: Cryptor) { c.current in c.keys }

  /** `random` is the nonce read from the random source, None when it fails. */
  function EncryptBytes(c: Cryptor, plaintext: string, random: Option<Nonce>): Result<Encrypted, Error>
    requires ValidCryptor(c)
  {
    if random.None? then Err(NoEntropy)
    else Ok(Encrypted(Sealed(c.keys[c.current], random.value, plaintext), random.value, c.current))
  }

  function DecryptBytes(c: Cryptor, e: Encrypted): Result<string, Error> {
    if e.keyVersion !in c.keys then Err(UnknownKeyVersion)
    else if e.cipher.Sealed? && e.cipher.key == c.keys[e.keyVersion] && e.cipher.nonce == e.nonce
      then Ok(e.cipher.plain)
    else Err(OpenFailed)
  }

  // ----- A random source that delivers the listed nonces and then fails -----

  function FirstNonce(randoms: seq<Nonce>): Option<Nonce> {
    if randoms == [] then None else Some(randoms[0])
  }

  function LaterNonces(randoms: seq<Nonce>): seq<Nonce> {
    if randoms == [] then [] else randoms[1..]
  }
}
