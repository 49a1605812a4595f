/**
  Byte strings, an abstract 32-byte hash and the notion of an explicit collision.

  The hash is a parameter `h` of everything below: the only thing known about it is
  that it returns 32 bytes.  Since a hash from byte strings to 32 bytes always has
  collisions, "the claim holds or a collision exists" would say nothing.  Every
  soundness result is therefore a compiled function that computes the collision from
  the data at hand whenever the claim fails.
*/
module Hashing {

  newtype byte = x: int | 0 <= x < 0x100

  type Bytes = seq<byte>

  const ZERO_BYTES: Bytes := [0, 0, 0, 0, 0, 0, 0, 0, 0, 0, 0, 0, 0, 0, 0, 0, 0, 0, 0, 0, 0, 0, 0, 0, 0, 0, 0, 0, 0, 0, 0, 0]

  type Bytes32 = b: Bytes | |b| == 32 witness ZERO_BYTES

  datatype Digest = Digest(raw: Bytes32)

  type HashFn = Bytes -> Digest

  datatype Option<+T> = None | Some(value: T)

  datatype Result<+T, +E> = Ok(value: T) | Err(error: E)

  /** Two byte strings that are meant to differ and to have the same hash. */
  datatype Collision = Collision(left: Bytes, right: Bytes)

  predicate IsCollision(h: HashFn, c: Collision) {
    c.left != c.right && h(c.left) == h(c.right)
  }

  /** Compares two preimages of one hash value: equal, or a collision in the hand. */
  function ComparePreimages(h: HashFn, a: Bytes, b: Bytes): (c: Option<Collision>)
    requires h(a) == h(b)
    ensures c.None? <==> a == b
    ensures c.Some? ==> IsCollision(h, c.value)
  {
    if a == b then None else Some(Collision(a, b))
  }
}
