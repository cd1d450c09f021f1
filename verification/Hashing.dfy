/** SHA-256, taken as injective: the digest of a text is the text itself, sealed. */
module Hashing {
  datatype Digest = Sha256(text: string)
}
