/** Content addresses. The hash itself is a parameter: any total function from
    byte strings to 32-byte digests. Nothing assumes it injective, so a claim
    that needs distinct inputs either holds or yields a collision. */
module Hashing {
  import opened Bits

  datatype Address = Address(bytes: Bytes)

  type Digest = d: Address | |d.bytes| == 32 witness Address(seq(32, _ => 0))

  type Hasher = Bytes -> Digest

  /** Where an object lives. */
  datatype Key = Key(bucket: Bytes, name: Bytes)

  /** Two different byte strings with one digest. */
  predicate Collision(h: Hasher, pair: (Bytes, Bytes))
  {
    pair.0 != pair.1 && h(pair.0) == h(pair.1)
  }
}
