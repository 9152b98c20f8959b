/**
 SHA-256 as an opaque collision-free function: a digest is a value that determines its
 preimage. Nothing else about it is used.
 */
module Digests {
  type Bytes = seq<bv8>

  datatype Digest = Sha256(preimage: Bytes)
}
