/** Types shared by every part of the model. */
module Basics {

  datatype Option<+T> = None | Some(value: T)

  /** A fallible result. The reason for a failure never decides what happens next
      in the code modelled here, so it is not carried. */
  datatype Result<+T> = Success(value: T) | Failure

  datatype Outcome = Pass | Fail

  type Byte = x: int | 0 <= x < 0x100

  type Bytes = seq<Byte>

  type U32 = x: int | 0 <= x < 0x1_0000_0000

  /** A BLAKE3 digest, whole or truncated. The hash functions themselves are
      parameters of the members that use them. */
  type Digest = seq<Byte>

  type Hash = Bytes -> Digest

  /** No two byte strings share a digest. Taken as an explicit hypothesis. */
  ghost predicate CollisionFree(hash: Hash) {
    forall x, y :: hash(x) == hash(y) ==> x == y
  }

  /** A relative path: its components, each a string of bytes. */
  type Path = seq<Bytes>

  /** The twelve bits a `chmod` sets. */
  type Mode = bv12

  /** Owner write and execute: what creating, removing or renaming in a directory
      takes. */
  const OWNER_MAY_WRITE: Mode := 0xC0

  predicate MayWrite(mode: Mode) {
    mode & OWNER_MAY_WRITE == OWNER_MAY_WRITE
  }

  function Min(a: int, b: int): int {
    if a <= b then a else b
  }

  function Max(a: int, b: int): int {
    if a >= b then a else b
  }
}
