/** Bits and bytes of naturals. */
module Bits {

  /** e without its k lowest bits. */
  function Shr(e: nat, k: nat): nat {
    if k == 0 then e else Shr(e, k - 1) / 2
  }

  function Bit(e: nat, k: nat): nat {
    Shr(e, k) % 2
  }

  function BitLen(e: nat): nat {
    if e == 0 then 0 else 1 + BitLen(e / 2)
  }

  function Exp2(m: nat): nat {
    if m == 0 then 1 else 2 * Exp2(m - 1)
  }

  type byte = x: int | 0 <= x < 256

  function Pow256(k: nat): nat {
    if k == 0 then 1 else 256 * Pow256(k - 1)
  }

  /** Big-endian value. */
  function FromBytes(s: seq<byte>): nat {
    if s == [] then 0 else FromBytes(s[..|s| - 1]) * 256 + s[|s| - 1]
  }

  lemma {:induction false} ShrOfHalf(e: nat, k: nat)
    ensures Shr(e / 2, k) == Shr(e, k + 1)
  {
    if k > 0 { ShrOfHalf(e, k - 1); }
  }

  lemma {:induction false} NothingPastBitLen(e: nat, k: nat)
    requires k >= BitLen(e)
    ensures Shr(e, k) == 0
  {
    if k > 0 {
      NothingPastBitLen(e / 2, k - 1);
      ShrOfHalf(e, k - 1);
    }
  }
}
