/** Blocks and their identifiers. */
module Blocks {
  /** Identifiers contain the number of their block. */
  datatype BlockId = BlockId(num: nat, hash: nat)

  /** Stands for no block. */
  const NO_BLOCK := BlockId(0, 0)

  /** A block follows the previous one; `hash` stands for what it contains. */
  datatype Block = Block(previous: BlockId, hash: nat) {
    function Num(): nat {
      previous.num + 1
    }

    function Id(): BlockId {
      BlockId(Num(), hash)
    }
  }
}
