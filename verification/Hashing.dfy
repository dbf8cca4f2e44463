/**
 Content hashes as text.  SHA-256 is taken to be injective: `Sha256` is the digest
 of a content, `NoHash` the empty string that stands for "none", and `Malformed`
 any other text, which is no digest of anything.
 */
module Hashing {
  datatype Hash = NoHash | Sha256(content: string) | Malformed(text: string)

  function Digest(data: string): Hash { Sha256(data) }
}
