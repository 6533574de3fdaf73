/** Transactions, their hashes, and the small shared types of the transaction pool. */
module Transactions {
  import opened Wrappers

  type Uint64 = x: int | 0 <= x < 0x1_0000_0000_0000_0000

  /** Arithmetic that wraps around at 64 bits. */
  function Wrap(x: int): Uint64 {
    x % 0x1_0000_0000_0000_0000
  }

  type Byte = x: int | 0 <= x < 256

  type Address = nat

  /**
   A signed transaction. `from` is the sender that signature recovery yields; `to` is
   absent for a contract creation; `size` is the encoded size in bytes.
   */
  datatype Tx = Tx(from: Address, nonce: Uint64, price: nat, gas: Uint64, value: int,
                   to: Option<Address>, data: seq<Byte>, size: nat)
  {
    /** What the sender must own: gas at its price, plus the transferred value. */
    function Cost(): int {
      price * gas + value
    }

    /** Data slots taken in the pool, 32 KB each. */
    function NumSlots(): nat {
      (size + 32 * 1024 - 1) / (32 * 1024)
    }
  }

  /** A collision-free hash: the free constructor over the hashed transaction. */
  datatype Hash = Hash(preimage: Tx)

  function HashOf(tx: Tx): Hash {
    Hash(tx)
  }
}
