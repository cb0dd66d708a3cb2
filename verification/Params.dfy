/** Protocol parameters that several components share. */
module Params {
  const MAX64: nat := 0xFFFF_FFFF_FFFF_FFFF
  const TWO63: int := 0x8000_0000_0000_0000
  const MAX_BLOCK_BYTES: nat := 4_000_000
  /** The depth up to which a heavier branch is adopted without a margin. */
  const MAX_REORG_DEPTH: nat := 100
  /** The deepest reorganisation ever accepted, and the lag of the proof-of-work seed. */
  const POW_SEED_LAG: nat := 512

  /** What 64-bit unsigned arithmetic leaves of a sum. */
  function Unsigned64(n: nat): nat { n % (MAX64 + 1) }

  /** What 64-bit signed arithmetic leaves of a difference. */
  function Signed64(x: int): int { (x + TWO63) % (2 * TWO63) - TWO63 }
}
