/** Hash values and the two-argument hash that combines them. */
module Hashing {

  /** A 256-bit hash value; only equality and the failure value zero matter here. */
  datatype Digest = Digest(value: nat)

  const ZERO: Digest := Digest(0)

  type Hasher = (Digest, Digest) -> Digest
}
